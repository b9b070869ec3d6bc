/**
 * Which datagram each visible effect answers, in every run: when the scan succeeds, when the sender gives
 * up, what the user sees, and what ends the process.
 */
module UdpAnswers {
  import opened Base
  import opened ConfirmedIds
  import opened SeenIds
  import opened Validation
  import opened Commands
  import opened UdpCodec
  import opened UdpClient
  import opened UdpHistory
  import opened UdpNetwork
  import opened UdpTheorems

  // ----- the confirmation array tells which CONFIRMs were processed -----

  predicate ConfirmOf(e: Event, id: Id) {
    e.Heard? && |e.d| >= 3 && e.d[0] == CONFIRM && MsgId(e.d) == id
  }

  /** A CONFIRM for this identifier was processed. */
  ghost predicate ConfirmHeard(log: seq<Event>, id: Id) {
    exists e :: e in log && ConfirmOf(e, id)
  }

  predicate SlotFilled(t: Table, id: Id) {
    id < t.index && id < |t.slots| && t.slots[id] == id
  }

  ghost predicate SlotsTellConfirms(c: Client) {
    forall id: Id :: id < SENTINEL ==> (ConfirmHeard(c.log, id) <==> SlotFilled(c.table, id))
  }

  lemma ConfirmHeardAppend(log: seq<Event>, more: seq<Event>, id: Id)
    ensures ConfirmHeard(log + more, id) <==> ConfirmHeard(log, id) || ConfirmHeard(more, id)
  {
    if ConfirmHeard(log, id) {
      var e :| e in log && ConfirmOf(e, id);
      assert e in log + more;
    }
    if ConfirmHeard(more, id) {
      var e :| e in more && ConfirmOf(e, id);
      assert e in log + more;
    }
  }

  lemma ConfirmHeardApply(c: Client, d: Bytes, e: Effect, id: Id)
    requires |d| >= 3 && forall x :: x in e.events ==> ListenerEvent(x)
    ensures ConfirmHeard(Apply(c, d, e).log, id) <==> ConfirmHeard(c.log, id) || (d[0] == CONFIRM && MsgId(d) == id)
  {
    var heard := Heard(c.state, d);
    assert c.log + [heard] + e.events == c.log + ([heard] + e.events);
    ConfirmHeardAppend(c.log, [heard] + e.events, id);
    if d[0] == CONFIRM && MsgId(d) == id {
      assert heard in [heard] + e.events;
      assert ConfirmOf(heard, id);
    }
  }

  /** Recording a confirmation fills its own slot and no other. */
  lemma RecordFills(t: Table, id: Id, other: Id)
    requires Shape(t) && Issued(t, id) && other < SENTINEL
    ensures Record(t, id).Some?
    ensures SlotFilled(Record(t, id).value, other) <==> SlotFilled(t, other) || other == id
  {
    RecordKeepsShape(t, id);
    CapacityGap(|t.slots|);
    var t' := Record(t, id).value;
    var k: nat :| k < t.index && ToId(k) == id;
    if other == id {
      CapacityGap(|t'.slots|);
      if k < t.index - 1 || t.index > SENTINEL {
        assert t'.slots[id] == id;
      }
    }
  }

  lemma HearTellsConfirms(cfg: Config, c: Client, d: Bytes)
    requires SlotsTellConfirms(c) && SendInv(cfg, c) && Enabled(c, Hear(d)) && Honest(c, Hear(d))
    ensures SlotsTellConfirms(OnHear(c, d))
  {
    var e := React(c, d);
    EventsOfReact(c, d);
    TableOfReact(c, d);
    forall id: Id | id < SENTINEL ensures ConfirmHeard(OnHear(c, d).log, id) <==> SlotFilled(e.table, id) {
      ConfirmHeardApply(c, d, e, id);
      if d[0] == CONFIRM {
        RecordFills(c.table, MsgId(d), id);
      }
    }
  }

  /** The main thread hears nothing, and the slot it takes next is empty. */
  lemma MainTellsConfirms(cfg: Config, c: Client, a: Action)
    requires SlotsTellConfirms(c) && Shape(c.table) && Enabled(c, a) && !a.Hear?
    ensures SlotsTellConfirms(Step(cfg, c, a))
  {
    StepMainLogs(cfg, c, a);
    var c' := Step(cfg, c, a);
    assert c'.table == c.table || c'.table == Advance(c.table);
    forall id: Id | id < SENTINEL ensures ConfirmHeard(c'.log, id) <==> SlotFilled(c'.table, id) {
      assert c'.log == c.log || c'.log == c.log + [c'.log[|c.log|]];
      if c'.log != c.log {
        ConfirmHeardAppend(c.log, [c'.log[|c.log|]], id);
      }
    }
  }

  // ----- giving up -----

  /** The loop is left with the message confirmed or with all attempts spent. */
  predicate LoopDone(cfg: Config, c: Client) {
    c.phase.Sending? && c.phase.stage == AfterLoop ==> c.phase.tries == cfg.retransmissions + 1 || Settled(c.table)
  }

  lemma StepKeepsLoopDone(cfg: Config, c: Client, a: Action)
    requires LoopDone(cfg, c) && SendInv(cfg, c) && Enabled(c, a) && Honest(c, a)
    ensures LoopDone(cfg, Step(cfg, c, a))
  {
    match a
    case Wake => ScanMeansSettled(c.table);
    case Hear(d) =>
      TableOfReact(c, d);
      if d[0] == CONFIRM {
        RecordKeepsShape(c.table, MsgId(d));
      }
    case _ =>
  }

  // ----- what the user sees -----

  predicate Visible(e: Event) {
    e.Shown? || e.Outcome?
  }

  /** The lines written for the user. */
  function Outputs(log: seq<Event>): seq<Event> {
    if log == [] then []
    else Outputs(log[..|log| - 1]) + if Visible(log[|log| - 1]) then [log[|log| - 1]] else []
  }

  /** What a datagram heard in this state is to show, read from its bytes, when these identifiers arrived before it. */
  function ShownFor(state: AppState, d: Bytes, arrived: seq<Id>): seq<Event>
    requires WellFormed(d)
  {
    if d[0] == REPLY && state != Start && d[3] <= 1 then [Outcome(d[3] == 1, CStr(d[6..]))]
    else if Displayable(state, d) && MsgId(d) !in arrived then [Shown(MsgId(d), Name(d), Content(d))]
    else []
  }

  /** What the datagrams heard, and nothing else in the log, call for. */
  function Expected(log: seq<Event>): seq<Event> {
    if log == [] then []
    else
      var before, e := log[..|log| - 1], log[|log| - 1];
      Expected(before) + if e.Heard? && WellFormed(e.d) then ShownFor(e.state, e.d, Ids(Arrivals, before)) else []
  }

  ghost predicate ShowsExpected(c: Client) {
    Outputs(c.log) == Expected(c.log)
  }

  lemma ShownOne(log: seq<Event>, e: Event)
    ensures Outputs(log + [e]) == Outputs(log) + if Visible(e) then [e] else []
    ensures Expected(log + [e]) ==
      Expected(log) + if e.Heard? && WellFormed(e.d) then ShownFor(e.state, e.d, Ids(Arrivals, log)) else []
  {
    assert (log + [e])[..|log|] == log;
  }

  function VisibleOfFew(events: seq<Event>): seq<Event>
    requires |events| <= 2
  {
    if |events| == 0 then []
    else if |events| == 1 then if Visible(events[0]) then [events[0]] else []
    else (if Visible(events[0]) then [events[0]] else []) + if Visible(events[1]) then [events[1]] else []
  }

  lemma OutputsFew(log: seq<Event>, events: seq<Event>)
    requires |events| <= 2
    ensures Outputs(log + events) == Outputs(log) + VisibleOfFew(events)
  {
    if |events| == 0 {
      assert log + events == log;
    } else if |events| == 1 {
      assert log + events == log + [events[0]];
      ShownOne(log, events[0]);
    } else {
      assert log + events == log + [events[0]] + [events[1]];
      ShownOne(log, events[0]);
      ShownOne(log + [events[0]], events[1]);
    }
  }

  /** What was not heard calls for nothing. */
  lemma {:induction false} ExpectedOthers(log: seq<Event>, more: seq<Event>)
    requires forall e :: e in more ==> !e.Heard?
    ensures Expected(log + more) == Expected(log)
  {
    if more == [] {
      assert log + more == log;
    } else {
      var front, last := more[..|more| - 1], more[|more| - 1];
      assert log + more == log + front + [last];
      assert !last.Heard?;
      ShownOne(log + front, last);
      ExpectedOthers(log, front);
    }
  }

  /** The listener shows what the bytes call for. */
  lemma ReactShowsExpected(c: Client, d: Bytes, arrived: seq<Id>)
    requires WellFormed(d) && forall id :: id in c.seen <==> id in arrived
    ensures |React(c, d).events| <= 2
    ensures VisibleOfFew(React(c, d).events) == ShownFor(c.state, d, arrived)
  {
    WellFormedDecodes(d);
  }

  lemma ApplyShowsExpected(c: Client, d: Bytes, e: Effect)
    requires ShowsExpected(c) && |e.events| <= 2 && WellFormed(d) && forall x :: x in e.events ==> ListenerEvent(x)
    requires VisibleOfFew(e.events) == ShownFor(c.state, d, Ids(Arrivals, c.log))
    ensures ShowsExpected(Apply(c, d, e))
  {
    ShownOne(c.log, Heard(c.state, d));
    OutputsFew(c.log + [Heard(c.state, d)], e.events);
    ExpectedOthers(c.log + [Heard(c.state, d)], e.events);
  }

  lemma StepShowsExpected(cfg: Config, c: Client, a: Action)
    requires ShowsExpected(c) && DisplaysOnce(c) && Enabled(c, a) && (a.Hear? ==> WellFormed(a.d))
    ensures ShowsExpected(Step(cfg, c, a))
  {
    if a.Hear? {
      RememberAllIsFirstOccurrences(Ids(Arrivals, c.log));
      EventsOfReact(c, a.d);
      ReactShowsExpected(c, a.d, Ids(Arrivals, c.log));
      ApplyShowsExpected(c, a.d, React(c, a.d));
    } else {
      StepMainLogs(cfg, c, a);
      var log' := Step(cfg, c, a).log;
      if log' != c.log {
        ShownOne(c.log, log'[|c.log|]);
      }
    }
  }

  /** Everything one datagram makes the client put out: what the user is to see, then the CONFIRM it calls for. */
  lemma ReactExactly(c: Client, d: Bytes)
    requires WellFormed(d)
    ensures React(c, d).events ==
      ShownFor(c.state, d, c.seen) + if Answered(c.state, d) then [ConfirmSent(MsgId(d))] else []
  {
    WellFormedDecodes(d);
    DecodeLayout(d);
  }

  lemma HearLogsExactly(c: Client, d: Bytes)
    requires WellFormed(d)
    ensures OnHear(c, d).log == c.log + [Heard(c.state, d)] + ShownFor(c.state, d, c.seen) +
      if Answered(c.state, d) then [ConfirmSent(MsgId(d))] else []
  {
    ReactExactly(c, d);
  }

  // ----- what ends the process -----

  /** What a datagram heard in this state does to the process. */
  function FateFor(state: AppState, d: Bytes): Fate
    requires WellFormed(d)
  {
    if d[0] == REPLY then
      if state == Start || d[3] > 1 then Exited(1)
      else if state == AppState.Open then Exited(0)
      else Running
    else if d[0] in {ERR, BYE} then Exited(0)
    else if d[0] in {CONFIRM, MSG, PING} then Running
    else Exited(1)
  }

  predicate EndsWith(e: Event, fate: Fate) {
    e.Heard? && WellFormed(e.d) && FateFor(e.state, e.d) == fate
  }

  /** The main thread spent all attempts on the message emitted last. */
  predicate GaveUp(cfg: Config, c: Client) {
    c.phase.Sending? && c.phase.tries == cfg.retransmissions + 1 && !Settled(c.table)
  }

  /** The message emitted last is a BYE, and its send is over. */
  ghost predicate SaidBye(c: Client) {
    c.phase.Idle? && Emits(c) != [] && var msg := Emits(c)[|Emits(c)| - 1]; |msg| > 0 && msg[0] == BYE
  }

  ghost predicate FateExplained(cfg: Config, c: Client) {
    && (c.fate == Running ==> forall e :: e in c.log && e.Heard? ==> EndsWith(e, Running))
    && (c.fate.Exited? ==>
      || (exists e :: e in c.log && EndsWith(e, c.fate))
      || (c.fate.code == 1 && GaveUp(cfg, c))
      || (c.fate.code == 0 && SaidBye(c)))
    && (c.phase.Sending? ==> |c.phase.msg| > 0 && (c.phase.bye <==> c.phase.msg[0] == BYE))
  }

  lemma ReactEnds(cfg: Config, c: Client, d: Bytes)
    requires SendInv(cfg, c) && Enabled(c, Hear(d)) && Honest(c, Hear(d))
    ensures React(c, d).fate == FateFor(c.state, d)
  {
    WellFormedDecodes(d);
    TableOfReact(c, d);
  }

  lemma HearKeepsFate(cfg: Config, c: Client, d: Bytes)
    requires FateExplained(cfg, c) && SendInv(cfg, c) && Enabled(c, Hear(d)) && Honest(c, Hear(d))
    ensures FateExplained(cfg, OnHear(c, d))
  {
    var c', heard := OnHear(c, d), Heard(c.state, d);
    ReactEnds(cfg, c, d);
    EventsOfReact(c, d);
    assert heard in c'.log;
    assert EndsWith(heard, c'.fate);
  }

  lemma DecideKeepsFate(cfg: Config, c: Client)
    requires FateExplained(cfg, c) && SendInv(cfg, c) && LoopDone(cfg, c) && Enabled(c, Decide)
    ensures FateExplained(cfg, OnDecide(c))
  {
    ScanMeansSettled(c.table);
    assert Emits(OnDecide(c)) == Emits(c);
  }

  lemma MainKeepsFate(cfg: Config, c: Client, a: Action)
    requires FateExplained(cfg, c) && SendInv(cfg, c) && LoopDone(cfg, c) && ValidName(c.name)
    requires Enabled(c, a) && !a.Hear?
    ensures FateExplained(cfg, Step(cfg, c, a))
  {
    StepMainLogs(cfg, c, a);
    match a
    case Input(cmd) => DispatchIsSafe(false, c.state, c.name, cmd);
    case Wake => ScanMeansSettled(c.table);
    case Decide => DecideKeepsFate(cfg, c);
    case _ =>
  }

  // ----- over whole runs -----

  ghost predicate AnswerInv(cfg: Config, c: Client) {
    SlotsTellConfirms(c) && LoopDone(cfg, c) && ShowsExpected(c) && FateExplained(cfg, c)
  }

  lemma StepKeepsAnswers(cfg: Config, c: Client, a: Action)
    requires AnswerInv(cfg, c) && SendInv(cfg, c) && LogInv(cfg, c) && Enabled(c, a) && Honest(c, a)
    ensures AnswerInv(cfg, Step(cfg, c, a))
  {
    StepKeepsLoopDone(cfg, c, a);
    StepShowsExpected(cfg, c, a);
    if a.Hear? {
      HearTellsConfirms(cfg, c, a.d);
      HearKeepsFate(cfg, c, a.d);
    } else {
      MainTellsConfirms(cfg, c, a);
      MainKeepsFate(cfg, c, a);
    }
  }

  lemma {:induction false} RunKeepsAnswers(cfg: Config, run: seq<Move>, w: World)
    requires Reaches(cfg, run, w)
    ensures AnswerInv(cfg, w.client)
  {
    if run != [] {
      var v := LastMove(cfg, run, w);
      var m := run[|run| - 1];
      RunKeepsAnswers(cfg, run[..|run| - 1], v);
      RunKeepsInv(cfg, run[..|run| - 1], v);
      if m.Local? {
        if m.a.Hear? {
          InboundIsHonest(cfg, v, m.a.d);
        }
        StepKeepsAnswers(cfg, v.client, m.a);
      }
    }
  }

  /** The scan for message `index` - 1 tells whether a CONFIRM for it was processed. */
  lemma ScanTellsConfirm(c: Client)
    requires Shape(c.table) && SlotsTellConfirms(c) && 0 < c.table.index <= SENTINEL
    ensures Search(c.table, c.table.index - 1) == if ConfirmHeard(c.log, c.table.index - 1) then Found else Absent
    ensures ConfirmHeard(c.log, c.table.index - 1) <==> Settled(c.table)
  {
    var id: Id := c.table.index - 1;
    assert ToId(id) == id;
    CapacityGap(|c.table.slots|);
    ScanMeansSettled(c.table);
    assert ConfirmHeard(c.log, id) <==> SlotFilled(c.table, id);
  }

  lemma ScanTells(c: Client)
    requires Shape(c.table) && SlotsTellConfirms(c) && 0 < c.table.index
    ensures Search(c.table, ToId(c.table.index - 1)) ==
      if c.table.index > SENTINEL || ConfirmHeard(c.log, c.table.index - 1) then Found else Absent
  {
    ScanMeansSettled(c.table);
    if c.table.index <= SENTINEL {
      ScanTellsConfirm(c);
    }
  }

  /**
   * The scan for the message sent last succeeds exactly when a CONFIRM for it was processed, or its number is
   * beyond 65534.
   */
  lemma ScanExactlyWhenConfirmed(cfg: Config, run: seq<Move>, w: World)
    requires Reaches(cfg, run, w) && 0 < w.client.table.index
    ensures var n := w.client.table.index - 1;
      Search(w.client.table, ToId(n)) == if n >= 65535 || ConfirmHeard(w.client.log, n) then Found else Absent
  {
    RunKeepsInv(cfg, run, w);
    RunKeepsAnswers(cfg, run, w);
    ScanTells(w.client);
  }

  lemma FilledWasConfirmed(c: Client, k: Id)
    requires Shape(c.table) && SlotsTellConfirms(c) && k < c.table.index && k < SENTINEL
    requires k < c.table.index - 1 || Settled(c.table)
    ensures ConfirmHeard(c.log, k)
  {
    CapacityGap(|c.table.slots|);
    assert c.table.slots[k] == k;
    assert ConfirmHeard(c.log, k) <==> SlotFilled(c.table, k);
  }

  /** At most one message is unconfirmed: the CONFIRM of every earlier one below 65535 has been processed. */
  lemma EarlierMessagesConfirmed(cfg: Config, run: seq<Move>, w: World, k: Id)
    requires Reaches(cfg, run, w) && k < |Emits(w.client)| && k < 65535
    requires w.client.phase.Idle? || k < |Emits(w.client)| - 1
    ensures ConfirmHeard(w.client.log, k)
  {
    RunKeepsInv(cfg, run, w);
    RunKeepsAnswers(cfg, run, w);
    FilledWasConfirmed(w.client, k);
  }

  /** What the user sees is exactly what the datagrams heard call for, field by field and in order. */
  lemma UserSeesExactly(cfg: Config, run: seq<Move>, w: World)
    requires Reaches(cfg, run, w)
    ensures Outputs(w.client.log) == Expected(w.client.log)
  {
    RunKeepsAnswers(cfg, run, w);
  }

  /** The call that sends the current message is about to end the process as unconfirmed. */
  ghost predicate GivingUp(c: Client) {
    Enabled(c, Decide) && !OnDecide(c).phase.Idle?
  }

  /** A round that used up its attempts: so many copies and failures, and a pause after each copy. */
  ghost predicate Exhausted(cfg: Config, r: Round) {
    |r.copies| + r.failures == cfg.retransmissions + 1 && |r.pauses| == |r.copies|
  }

  /** The last scan ends the process as unconfirmed, all attempts are spent, and no CONFIRM was processed. */
  ghost predicate JustlyGivenUp(cfg: Config, c: Client) {
    && c.phase.Sending? && |c.phase.msg| >= 3 && OnDecide(c).fate == Exited(1)
    && Rounds(c.log) != [] && Exhausted(cfg, Rounds(c.log)[|Rounds(c.log)| - 1])
    && Rounds(c.log)[|Rounds(c.log)| - 1].msg == c.phase.msg
    && 0 < c.table.index <= SENTINEL && !ConfirmHeard(c.log, c.table.index - 1)
  }

  lemma GivingUpIsJustified(cfg: Config, c: Client)
    requires SendInv(cfg, c) && RoundsInBounds(cfg, c) && SlotsTellConfirms(c) && LoopDone(cfg, c)
    requires GivingUp(c)
    ensures JustlyGivenUp(cfg, c)
  {
    ScanMeansSettled(c.table);
    ScanTellsConfirm(c);
  }

  /** The sender gives up only after all attempts, sent or failed, on a message for which no CONFIRM was processed. */
  lemma GivesUpOnlyAfterAllAttempts(cfg: Config, run: seq<Move>, w: World)
    requires Reaches(cfg, run, w) && GivingUp(w.client)
    ensures JustlyGivenUp(cfg, w.client)
  {
    RunKeepsInv(cfg, run, w);
    RunKeepsAnswers(cfg, run, w);
    GivingUpIsJustified(cfg, w.client);
  }

  /** The process ends for a datagram that calls for it, for an unconfirmed message, or after BYE, and for nothing else. */
  lemma ExitsAreExplained(cfg: Config, run: seq<Move>, w: World)
    requires Reaches(cfg, run, w)
    ensures w.client.fate == Running ==> forall e :: e in w.client.log && e.Heard? ==> EndsWith(e, Running)
    ensures w.client.fate != Running ==>
      || (exists e :: e in w.client.log && EndsWith(e, w.client.fate))
      || (w.client.fate == Exited(1) && GaveUp(cfg, w.client))
      || (w.client.fate == Exited(0) && SaidBye(w.client))
  {
    RunKeepsInv(cfg, run, w);
    RunKeepsAnswers(cfg, run, w);
  }

  // ----- from the keyboard to the server -----

  /** What a command in order means to the server. */
  function Meaning(c: Client, cmd: Command): Message
    requires InOrder(c.state, c.name, cmd) && !cmd.RenameCmd?
  {
    match cmd
    case AuthCmd(args) => AuthMsg(ToId(c.table.index), args[0], args[2], args[1])
    case JoinCmd(args) => JoinMsg(ToId(c.table.index), args[0], c.name)
    case SayCmd(line) => ChatMsg(ToId(c.table.index), c.name, line)
  }

  lemma TypedIsEmitted(c: Client, cmd: Command)
    requires InOrder(c.state, c.name, cmd) && !cmd.RenameCmd?
    ensures var msg := Encode(Meaning(c, cmd));
      ServerReads(msg) == Some(Meaning(c, cmd)) && Emits(OnInput(c, cmd)) == Emits(c) + [msg]
  {
    DispatchTakesEffect(false, c.state, c.name, cmd);
    ServerReadsEncoded(Meaning(c, cmd));
    EmitsOne(c.log, Emitted(Encode(Meaning(c, cmd))));
  }

  lemma {:induction false} EmitsStay(cfg: Config, run: seq<Move>, more: seq<Move>, w: World, w': World)
    requires Reaches(cfg, run, w) && Reaches(cfg, run + more, w')
    ensures Emits(w.client) <= Emits(w'.client)
  {
    if more == [] {
      assert run + more == run;
    } else {
      var v := LastMove(cfg, run + more, w');
      var m := (run + more)[|run + more| - 1];
      assert (run + more)[..|run + more| - 1] == run + more[..|more| - 1];
      EmitsStay(cfg, run, more[..|more| - 1], w, v);
      if m.Local? {
        EmitsGrow(cfg, v.client, m.a);
      }
    }
  }

  /** The main thread is no longer busy with message k, and the process did not end on it. */
  ghost predicate Done(w: World, k: nat) {
    k < |Emits(w.client)| && (w.client.phase.Idle? || k < |Emits(w.client)| - 1)
  }

  /**
   * End to end: what was typed, once its send is over, is at the server, which reads the typed parameters
   * from it. Whatever the network and the listener did meanwhile.
   */
  lemma TypedReachesServer(cfg: Config, run: seq<Move>, w: World, cmd: Command, more: seq<Move>, w': World)
    requires Reaches(cfg, run, w) && Possible(w, Local(Input(cmd))) && w.client.table.index < 65535
    requires InOrder(w.client.state, w.client.name, cmd) && !cmd.RenameCmd?
    requires Reaches(cfg, run + [Local(Input(cmd))] + more, w') && Done(w', w.client.table.index)
    ensures exists r :: r in w'.received && ServerReads(r) == Some(Meaning(w.client, cmd))
  {
    var k, m := w.client.table.index, Local(Input(cmd));
    var v := Next(cfg, w, m);
    RunKeepsInv(cfg, run, w);
    ReachesOne(cfg, run, w, m);
    TypedIsEmitted(w.client, cmd);
    EmitsStay(cfg, run + [m], more, v, w');
    assert Emits(v.client)[k] == Encode(Meaning(w.client, cmd));
    EarlierMessagesReceived(cfg, run + [m] + more, w', k);
  }
}
