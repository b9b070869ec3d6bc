/**
 * What each step of a send does in every run, and what follows for the whole: a message whose CONFIRM was
 * processed before the end of a pause is not sent again, and its send returns.
 */
module UdpSends {
  import opened Base
  import opened ConfirmedIds
  import opened Commands
  import opened UdpCodec
  import opened UdpClient
  import opened UdpNetwork
  import opened UdpAnswers

  // ----- the end of a pause and the last scan -----

  /** The scan for message n cannot fail: its CONFIRM was processed, or its number is beyond those the array can tell. */
  ghost predicate Confirmed(log: seq<Event>, n: nat) {
    n >= 65535 || ConfirmHeard(log, n)
  }

  /** The next step of the send is the last scan. */
  predicate AboutToScan(c: Client) {
    Enabled(c, Decide) && !Enabled(c, Attempt(true)) && !Enabled(c, Attempt(false))
  }

  /** The next step of the send is another attempt, or leaving the loop without one. */
  predicate AboutToTry(c: Client) {
    !Enabled(c, Decide) && Enabled(c, Attempt(true)) && Enabled(c, Attempt(false))
  }

  lemma WakeExactly(cfg: Config, c: Client)
    requires SendInv(cfg, c) && SlotsTellConfirms(c) && Enabled(c, Wake)
    ensures 0 < c.table.index
    ensures if Confirmed(c.log, c.table.index - 1) then AboutToScan(OnWake(cfg, c)) else AboutToTry(OnWake(cfg, c))
  {
    ScanTells(c);
  }

  /** After a pause the client goes on to the last scan if the message is confirmed, and to the next attempt if not. */
  lemma WakeDecides(cfg: Config, run: seq<Move>, w: World)
    requires Reaches(cfg, run, w) && Possible(w, Local(Wake))
    ensures 0 < w.client.table.index
    ensures var c' := Next(cfg, w, Local(Wake)).client;
      if Confirmed(w.client.log, w.client.table.index - 1) then AboutToScan(c') else AboutToTry(c')
  {
    RunKeepsInv(cfg, run, w);
    RunKeepsAnswers(cfg, run, w);
    WakeExactly(cfg, w.client);
  }

  lemma DecideExactly(cfg: Config, c: Client)
    requires SendInv(cfg, c) && SlotsTellConfirms(c) && Enabled(c, Decide)
    ensures 0 < c.table.index
    ensures var c' := OnDecide(c);
      if !Confirmed(c.log, c.table.index - 1) then c'.fate == Exited(1)
      else c'.phase.Idle? && c'.fate == (if c.phase.bye then Exited(0) else Running)
  {
    ScanTells(c);
  }

  /** A send returns if its message is confirmed; BYE then ends the process with code 0. Otherwise the code is 1. */
  lemma SendEndsExactly(cfg: Config, run: seq<Move>, w: World)
    requires Reaches(cfg, run, w) && Possible(w, Local(Decide))
    ensures 0 < w.client.table.index
    ensures var c' := Next(cfg, w, Local(Decide)).client;
      if !Confirmed(w.client.log, w.client.table.index - 1) then c'.fate == Exited(1)
      else c'.phase.Idle? && c'.fate == (if w.client.phase.bye then Exited(0) else Running)
  {
    RunKeepsInv(cfg, run, w);
    RunKeepsAnswers(cfg, run, w);
    DecideExactly(cfg, w.client);
  }

  /**
   * An attempt while tries are left puts a copy of the message on the network, or logs its failure, and pauses only
   * after a copy; without tries left it only leaves the loop.
   */
  lemma AttemptExactly(cfg: Config, c: Client, sent: bool)
    requires Enabled(c, Attempt(sent))
    ensures var c', msg, tries := OnAttempt(cfg, c, sent), c.phase.msg, c.phase.tries;
      if tries > cfg.retransmissions then c' == c.(phase := Sending(AfterLoop, msg, tries, c.phase.bye))
      else if sent then
        c' == c.(phase := Sending(Asleep, msg, tries + 1, c.phase.bye), log := c.log + [Transmitted(msg)])
      else c' == c.(phase := Sending(LoopHead, msg, tries + 1, c.phase.bye), log := c.log + [Failed(msg)])
  {
  }

  // ----- no copy after the confirmation was seen -----

  /** At the end of some pause since the last new message, the CONFIRM of that message had been processed. */
  ghost predicate SeenConfirmed(log: seq<Event>) {
    if log == [] then false
    else
      var before, e := log[..|log| - 1], log[|log| - 1];
      if e.Emitted? then false
      else SeenConfirmed(before) || (e.Slept? && CurrentConfirmed(before))
  }

  /** The CONFIRM of the message emitted last was processed. */
  ghost predicate CurrentConfirmed(log: seq<Event>) {
    0 < |EmitsIn(log)| <= 65535 && ConfirmHeard(log, |EmitsIn(log)| - 1)
  }

  lemma SeenConfirmedOne(log: seq<Event>, e: Event)
    ensures SeenConfirmed(log + [e]) <==> !e.Emitted? && (SeenConfirmed(log) || (e.Slept? && CurrentConfirmed(log)))
  {
    assert (log + [e])[..|log|] == log;
  }

  lemma {:induction false} SeenConfirmedOthers(log: seq<Event>, more: seq<Event>)
    requires forall e :: e in more ==> !e.Emitted? && !e.Slept?
    ensures SeenConfirmed(log + more) <==> SeenConfirmed(log)
  {
    if more == [] {
      assert log + more == log;
    } else {
      var front, last := more[..|more| - 1], more[|more| - 1];
      assert !last.Emitted? && !last.Slept?;
      assert log + more == log + front + [last];
      SeenConfirmedOne(log + front, last);
      SeenConfirmedOthers(log, front);
    }
  }

  predicate Copy(e: Event) {
    e.Transmitted? || e.Failed?
  }

  /** No attempt in the log was made after such a pause. */
  ghost predicate NoCopyAfter(log: seq<Event>) {
    forall k :: 0 <= k < |log| && Copy(log[k]) ==> !SeenConfirmed(log[..k])
  }

  ghost predicate NotSentAgain(c: Client) {
    && NoCopyAfter(c.log)
    && (c.phase.Sending? && c.phase.stage != AfterLoop ==> !SeenConfirmed(c.log))
  }

  lemma NoCopyAppend(log: seq<Event>, more: seq<Event>)
    requires NoCopyAfter(log) && forall e :: e in more ==> !Copy(e)
    ensures NoCopyAfter(log + more)
  {
    var all := log + more;
    assert forall k :: |log| <= k < |all| ==> all[k] in more;
    forall k | 0 <= k < |log| && Copy(all[k]) ensures !SeenConfirmed(all[..k]) {
      assert all[..k] == log[..k];
    }
  }

  lemma NoCopyOne(log: seq<Event>, e: Event)
    requires NoCopyAfter(log) && (Copy(e) ==> !SeenConfirmed(log))
    ensures NoCopyAfter(log + [e])
  {
    var all := log + [e];
    forall k | 0 <= k < |all| && Copy(all[k]) ensures !SeenConfirmed(all[..k]) {
      assert all[..k] == log[..k];
      assert log[..|log|] == log;
    }
  }

  lemma BeginNotSentAgain(c: Client, r: Request, bye: bool)
    requires NotSentAgain(c)
    ensures NotSentAgain(BeginSend(c, r, bye))
  {
    var e := Emitted(Encode(ToMessage(r, ToId(c.table.index))));
    NoCopyOne(c.log, e);
    SeenConfirmedOne(c.log, e);
  }

  lemma InputNotSentAgain(c: Client, cmd: Command)
    requires NotSentAgain(c) && c.phase.Idle?
    ensures NotSentAgain(OnInput(c, cmd))
  {
    var r := Dispatch(false, c.state, c.name, cmd);
    var c' := c.(state := r.state, name := r.name);
    if r.emit.Some? {
      BeginNotSentAgain(c', r.emit.value, false);
    }
  }

  lemma AttemptNotSentAgain(cfg: Config, c: Client, sent: bool)
    requires NotSentAgain(c) && Enabled(c, Attempt(sent))
    ensures NotSentAgain(OnAttempt(cfg, c, sent))
  {
    var e := if sent then Transmitted(c.phase.msg) else Failed(c.phase.msg);
    NoCopyOne(c.log, e);
    SeenConfirmedOne(c.log, e);
  }

  lemma WakeNotSentAgain(cfg: Config, c: Client)
    requires NotSentAgain(c) && SendInv(cfg, c) && SlotsTellConfirms(c) && Enabled(c, Wake)
    ensures NotSentAgain(OnWake(cfg, c))
  {
    WakeExactly(cfg, c);
    NoCopyOne(c.log, Pause(cfg));
    SeenConfirmedOne(c.log, Pause(cfg));
  }

  lemma HearNotSentAgain(c: Client, d: Bytes)
    requires NotSentAgain(c)
    ensures NotSentAgain(OnHear(c, d))
  {
    EventsOfReact(c, d);
    var more := [Heard(c.state, d)] + React(c, d).events;
    assert c.log + [Heard(c.state, d)] + React(c, d).events == c.log + more;
    NoCopyAppend(c.log, more);
    SeenConfirmedOthers(c.log, more);
  }

  lemma StepNotSentAgain(cfg: Config, c: Client, a: Action)
    requires NotSentAgain(c) && SendInv(cfg, c) && SlotsTellConfirms(c) && Enabled(c, a)
    ensures NotSentAgain(Step(cfg, c, a))
  {
    match a
    case Input(cmd) => InputNotSentAgain(c, cmd);
    case EndOfInput => BeginNotSentAgain(c, ByeRequest(c.name), true);
    case Attempt(sent) => AttemptNotSentAgain(cfg, c, sent);
    case Wake => WakeNotSentAgain(cfg, c);
    case Decide =>
    case Hear(d) => HearNotSentAgain(c, d);
  }

  lemma {:induction false} RunNotSentAgain(cfg: Config, run: seq<Move>, w: World)
    requires Reaches(cfg, run, w)
    ensures NotSentAgain(w.client)
  {
    if run != [] {
      var v := LastMove(cfg, run, w);
      var front, m := run[..|run| - 1], run[|run| - 1];
      RunNotSentAgain(cfg, front, v);
      if m.Local? {
        RunKeepsInv(cfg, front, v);
        RunKeepsAnswers(cfg, front, v);
        StepNotSentAgain(cfg, v.client, m.a);
      }
    }
  }

  /** A pause at i, and nothing new emitted between it and k. */
  lemma {:induction false} SeenSince(log: seq<Event>, i: nat, k: nat)
    requires i < k <= |log| && log[i].Slept? && CurrentConfirmed(log[..i])
    requires forall j :: i < j < k ==> !log[j].Emitted?
    ensures SeenConfirmed(log[..k])
  {
    assert log[..k] == log[..k - 1] + [log[k - 1]];
    SeenConfirmedOne(log[..k - 1], log[k - 1]);
    if i < k - 1 {
      SeenSince(log, i, k - 1);
    }
  }

  /**
   * Over every run: if the CONFIRM of the message in flight, one of the first 65535, was processed before a pause
   * ends, no further attempt to send that message follows.
   */
  lemma ConfirmedIsNotSentAgain(cfg: Config, run: seq<Move>, w: World, i: nat, k: nat)
    requires Reaches(cfg, run, w) && i < k < |w.client.log| && w.client.log[i].Slept?
    requires forall j :: i < j < k ==> !w.client.log[j].Emitted?
    requires var n := |EmitsIn(w.client.log[..i])|; 0 < n <= 65535 && ConfirmHeard(w.client.log[..i], n - 1)
    ensures !w.client.log[k].Transmitted? && !w.client.log[k].Failed?
  {
    RunNotSentAgain(cfg, run, w);
    SeenSince(w.client.log, i, k);
  }

  // ----- progress -----

  /** The step the main thread takes next; while it is idle it waits for input. */
  predicate MainCanGoOn(c: Client) {
    match c.phase
    case Idle => Enabled(c, Input(HelpCmd)) && Enabled(c, EndOfInput)
    case Sending(LoopHead, _, _, _) => Enabled(c, Attempt(true)) && Enabled(c, Attempt(false))
    case Sending(Asleep, _, _, _) => Enabled(c, Wake)
    case Sending(AfterLoop, _, _, _) => Enabled(c, Decide)
  }

  lemma SendCanGoOn(cfg: Config, c: Client)
    requires SendInv(cfg, c) && c.fate == Running
    ensures MainCanGoOn(c)
  {
  }

  /** In no run is the main thread stuck, nor the listener deaf. */
  lemma NeverStuck(cfg: Config, run: seq<Move>, w: World, d: Bytes)
    requires Reaches(cfg, run, w) && w.client.fate == Running
    ensures MainCanGoOn(w.client) && Enabled(w.client, Hear(d))
  {
    RunKeepsInv(cfg, run, w);
    SendCanGoOn(cfg, w.client);
  }

  /** A bound on the steps of the main thread until its send ends. */
  function Remaining(cfg: Config, c: Client): int {
    match c.phase
    case Idle => 0
    case Sending(LoopHead, _, tries, _) => 3 * (cfg.retransmissions + 1 - tries) + 2
    case Sending(Asleep, _, tries, _) => 3 * (cfg.retransmissions + 1 - tries) + 3
    case Sending(AfterLoop, _, _, _) => 1
  }

  /** Every step of a send ends it or brings its end nearer, so it ends after at most 3 * (retransmissions + 1) + 2 steps. */
  lemma SendsEnd(cfg: Config, c: Client, a: Action)
    requires SendInv(cfg, c) && Enabled(c, a) && (a.Attempt? || a.Wake? || a.Decide?)
    ensures 0 < Remaining(cfg, c) <= 3 * (cfg.retransmissions + 1) + 3
    ensures var c' := Step(cfg, c, a);
      c'.fate != Running || 0 <= Remaining(cfg, c') < Remaining(cfg, c)
  {
    ScanMeansSettled(c.table);
  }

  /** The listener does not delay it. */
  lemma HearingKeepsRemaining(cfg: Config, c: Client, d: Bytes)
    ensures OnHear(c, d).phase == c.phase && Remaining(cfg, OnHear(c, d)) == Remaining(cfg, c)
  {
  }

  // ----- the end of the input -----

  /** The end of the input hands over a BYE with the next number and the current name, and its send ends the process. */
  lemma QuitSaysBye(cfg: Config, c: Client)
    requires Enabled(c, EndOfInput)
    ensures var c' := Step(cfg, c, EndOfInput);
      && c'.phase.Sending? && c'.phase.bye && c'.state == c.state && c'.name == c.name
      && Emits(c') == Emits(c) + [c'.phase.msg]
      && c'.phase.msg == [0xFF, ToId(c.table.index) / 256, ToId(c.table.index) % 256] + c.name + [0]
  {
    var msg := Encode(ByeMsg(ToId(c.table.index), c.name));
    EmitsOne(c.log, Emitted(msg));
    ByeBytes(ToId(c.table.index), c.name);
  }
}
