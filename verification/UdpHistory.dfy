/**
 * What the log of a UDP client tells after any sequence of steps of its two threads: which CONFIRMs
 * were sent, what was displayed, how often each message was transmitted, and when it could be sent.
 */
module UdpHistory {
  import opened Base
  import opened SeenIds
  import opened Validation
  import opened Commands
  import opened UdpCodec
  import opened UdpClient

  /** Four readings of the log, each a list of identifiers. */
  datatype Reading = Confirms | Owed | Displays | Arrivals

  predicate Answered(state: AppState, d: Bytes)
    requires WellFormed(d)
  {
    && d[0] != CONFIRM
    && (d[0] == MSG ==> state != Start)
    && (d[0] == REPLY ==> state in {Auth, Join} && d[3] <= 1)
  }

  /** ERR in any state, MSG outside START. */
  predicate Displayable(state: AppState, d: Bytes)
    requires WellFormed(d)
  {
    d[0] == ERR || (d[0] == MSG && state != Start)
  }

  /**
   * Confirms: the CONFIRMs sent. Displays: the identifiers of displayed messages. Owed and Arrivals
   * read only what was received: the datagrams that call for a CONFIRM and those that can be displayed.
   */
  function IdOf(k: Reading, e: Event): seq<Id> {
    match k
    case Confirms => if e.ConfirmSent? then [e.id] else []
    case Owed => if e.Heard? && WellFormed(e.d) && Answered(e.state, e.d) then [MsgId(e.d)] else []
    case Displays => if e.Shown? then [e.id] else []
    case Arrivals => if e.Heard? && WellFormed(e.d) && Displayable(e.state, e.d) then [MsgId(e.d)] else []
  }

  function Ids(k: Reading, log: seq<Event>): seq<Id> {
    if log == [] then [] else Ids(k, log[..|log| - 1]) + IdOf(k, log[|log| - 1])
  }

  lemma IdsOne(k: Reading, log: seq<Event>, e: Event)
    ensures Ids(k, log + [e]) == Ids(k, log) + IdOf(k, e)
  {
    assert (log + [e])[..|log|] == log;
  }

  /** The reading of a list of at most two events. */
  function IdsOfFew(k: Reading, events: seq<Event>): seq<Id>
    requires |events| <= 2
  {
    if |events| == 0 then []
    else if |events| == 1 then IdOf(k, events[0])
    else IdOf(k, events[0]) + IdOf(k, events[1])
  }

  lemma IdsApply(k: Reading, c: Client, d: Bytes, e: Effect)
    requires |e.events| <= 2
    ensures Ids(k, Apply(c, d, e).log) == Ids(k, c.log) + IdOf(k, Heard(c.state, d)) + IdsOfFew(k, e.events)
  {
    IdsOne(k, c.log, Heard(c.state, d));
    IdsFew(k, c.log + [Heard(c.state, d)], e.events);
  }

  lemma IdsFew(k: Reading, log: seq<Event>, events: seq<Event>)
    requires |events| <= 2
    ensures Ids(k, log + events) == Ids(k, log) + IdsOfFew(k, events)
  {
    if |events| == 0 {
      assert log + events == log;
    } else if |events| == 1 {
      assert log + events == log + [events[0]];
      IdsOne(k, log, events[0]);
    } else {
      assert log + events == log + [events[0]] + [events[1]];
      IdsOne(k, log, events[0]);
      IdsOne(k, log + [events[0]], events[1]);
    }
  }

  /** What only the main thread logs. */
  predicate MainEvent(e: Event) {
    e.Emitted? || e.Transmitted? || e.Failed? || e.Slept?
  }

  lemma IdsQuiet(k: Reading, log: seq<Event>, e: Event)
    requires MainEvent(e)
    ensures Ids(k, log + [e]) == Ids(k, log)
  {
    IdsOne(k, log, e);
    assert IdOf(k, e) == [];
  }

  /** What the main thread appends to the log in one step: nothing, or one event of its own. */
  predicate MainLogs(log: seq<Event>, log': seq<Event>) {
    log' == log || (|log'| == |log| + 1 && log' == log + [log'[|log|]] &&
      MainEvent(log'[|log|]))
  }

  lemma StepMainLogs(cfg: Config, c: Client, a: Action)
    requires Enabled(c, a) && !a.Hear?
    ensures MainLogs(c.log, Step(cfg, c, a).log)
  {
  }

  /** None of the main thread's events is seen by these readings. */
  lemma IdsMain(k: Reading, cfg: Config, c: Client, a: Action)
    requires Enabled(c, a) && !a.Hear?
    ensures Ids(k, Step(cfg, c, a).log) == Ids(k, c.log)
  {
    StepMainLogs(cfg, c, a);
    var log' := Step(cfg, c, a).log;
    if log' != c.log {
      IdsQuiet(k, c.log, log'[|c.log|]);
    }
  }

  // ----- confirmations sent and owed -----

  ghost predicate ConfirmsBalance(c: Client) {
    Ids(Confirms, c.log) == Ids(Owed, c.log)
  }

  /** The dispatch sends one CONFIRM or none, by the kind of message and the state. */
  lemma DispatchConfirms(c: Client, id: Id, m: Option<Message>)
    requires m.Some? ==> m.value.id == id
    ensures var events := ReactTo(c, id, m).events;
      && |events| <= 2
      && IdsOfFew(Owed, events) == []
      && IdsOfFew(Confirms, events) == match m
         case Some(ConfirmMsg(_)) => []
         case Some(ReplyMsg(_, result, _, _)) => if c.state in {Auth, Join} && result <= 1 then [id] else []
         case Some(ChatMsg(_, _, _)) => if c.state != Start then [id] else []
         case _ => [id]
  {
  }

  lemma ReactConfirms(c: Client, d: Bytes)
    ensures var events := React(c, d).events;
      && |events| <= 2
      && IdsOfFew(Confirms, events) == IdOf(Owed, Heard(c.state, d))
      && IdsOfFew(Owed, events) == []
  {
    if WellFormed(d) {
      WellFormedDecodes(d);
      DispatchConfirms(c, MsgId(d), Decode(d));
    }
  }

  lemma ApplyKeepsConfirmsBalance(c: Client, d: Bytes, e: Effect)
    requires ConfirmsBalance(c) && |e.events| <= 2
    requires IdsOfFew(Confirms, e.events) == IdOf(Owed, Heard(c.state, d)) && IdsOfFew(Owed, e.events) == []
    ensures ConfirmsBalance(Apply(c, d, e))
  {
    IdsApply(Confirms, c, d, e);
    IdsApply(Owed, c, d, e);
  }

  lemma StepKeepsConfirmsBalance(cfg: Config, c: Client, a: Action)
    requires ConfirmsBalance(c) && Enabled(c, a)
    ensures ConfirmsBalance(Step(cfg, c, a))
  {
    if a.Hear? {
      ReactConfirms(c, a.d);
      ApplyKeepsConfirmsBalance(c, a.d, React(c, a.d));
    } else {
      IdsMain(Confirms, cfg, c, a);
      IdsMain(Owed, cfg, c, a);
    }
  }

  // ----- displays and arrivals -----

  ghost predicate DisplaysOnce(c: Client) {
    && Ids(Displays, c.log) == c.seen
    && c.seen == RememberAll(Ids(Arrivals, c.log))
  }

  /** The dispatch displays what is new of the messages that can be displayed. */
  lemma DispatchShows(c: Client, id: Id, m: Option<Message>)
    ensures var e := ReactTo(c, id, m);
      && |e.events| <= 2
      && IdsOfFew(Arrivals, e.events) == []
      && c.seen + IdsOfFew(Displays, e.events) == e.seen
      && e.seen == if m.Some? && (m.value.ErrMsg? || (m.value.ChatMsg? && c.state != Start)) then Remember(c.seen, id)
                   else c.seen
  {
  }

  lemma ReactShows(c: Client, d: Bytes)
    ensures var e, arrived := React(c, d), IdOf(Arrivals, Heard(c.state, d));
      && |e.events| <= 2
      && IdsOfFew(Arrivals, e.events) == []
      && c.seen + IdsOfFew(Displays, e.events) == e.seen
      && e.seen == if arrived == [] then c.seen else Remember(c.seen, arrived[0])
  {
    if WellFormed(d) {
      WellFormedDecodes(d);
      DispatchShows(c, MsgId(d), Decode(d));
    }
  }

  lemma ApplyKeepsDisplaysOnce(c: Client, d: Bytes, e: Effect, arrived: seq<Id>)
    requires DisplaysOnce(c) && |e.events| <= 2
    requires arrived == IdOf(Arrivals, Heard(c.state, d))
    requires IdsOfFew(Arrivals, e.events) == [] && c.seen + IdsOfFew(Displays, e.events) == e.seen
    requires e.seen == if arrived == [] then c.seen else Remember(c.seen, arrived[0])
    ensures DisplaysOnce(Apply(c, d, e))
  {
    IdsApply(Displays, c, d, e);
    IdsApply(Arrivals, c, d, e);
    var before := Ids(Arrivals, c.log);
    assert before + arrived + [] == before + arrived;
    assert c.seen + [] == c.seen;
    if arrived == [] {
      assert before + arrived == before;
    } else {
      assert arrived == [arrived[0]];
      RememberAllOne(before, arrived[0]);
    }
  }

  lemma StepKeepsDisplaysOnce(cfg: Config, c: Client, a: Action)
    requires DisplaysOnce(c) && Enabled(c, a)
    ensures DisplaysOnce(Step(cfg, c, a))
  {
    if a.Hear? {
      ReactShows(c, a.d);
      ApplyKeepsDisplaysOnce(c, a.d, React(c, a.d), IdOf(Arrivals, Heard(c.state, a.d)));
    } else {
      IdsMain(Displays, cfg, c, a);
      IdsMain(Arrivals, cfg, c, a);
    }
  }

  // ----- transmissions per message -----

  /** One call of `send_network_msg_udp`: its datagram, the copies put on the network, the attempts that failed, and its pauses. */
  datatype Round = Round(msg: Bytes, copies: seq<Bytes>, failures: nat, pauses: seq<Event>)

  /** Copies, failures and pauses belong to the datagram emitted last; a stray one opens a round of its own. */
  function AddTo(rounds: seq<Round>, copies: seq<Bytes>, failures: nat, pauses: seq<Event>): seq<Round> {
    if rounds == [] then [Round([], copies, failures, pauses)]
    else
      var n, r := |rounds| - 1, rounds[|rounds| - 1];
      rounds[n := Round(r.msg, r.copies + copies, r.failures + failures, r.pauses + pauses)]
  }

  function AddEvent(rounds: seq<Round>, e: Event): seq<Round> {
    if e.Emitted? then rounds + [Round(e.msg, [], 0, [])]
    else if e.Transmitted? then AddTo(rounds, [e.msg], 0, [])
    else if e.Failed? then AddTo(rounds, [], 1, [])
    else if e.Slept? then AddTo(rounds, [], 0, [e])
    else rounds
  }

  function Rounds(log: seq<Event>): seq<Round> {
    if log == [] then [] else AddEvent(Rounds(log[..|log| - 1]), log[|log| - 1])
  }

  lemma RoundsOne(log: seq<Event>, e: Event)
    ensures Rounds(log + [e]) == AddEvent(Rounds(log), e)
  {
    assert (log + [e])[..|log|] == log;
  }

  lemma {:induction false} RoundsOthers(log: seq<Event>, more: seq<Event>)
    requires forall e :: e in more ==> !MainEvent(e)
    ensures Rounds(log + more) == Rounds(log)
  {
    if more == [] {
      assert log + more == log;
    } else {
      var front := more[..|more| - 1];
      assert log + more == log + front + [more[|more| - 1]];
      assert !MainEvent(more[|more| - 1]);
      RoundsOne(log + front, more[|more| - 1]);
      RoundsOthers(log, front);
    }
  }

  lemma RoundsApply(c: Client, d: Bytes, e: Effect)
    requires forall x :: x in e.events ==> ListenerEvent(x)
    ensures Rounds(Apply(c, d, e).log) == Rounds(c.log)
  {
    RoundsOne(c.log, Heard(c.state, d));
    RoundsOthers(c.log + [Heard(c.state, d)], e.events);
  }

  /** Identical copies, at most `retransmissions` + 1 attempts in all, a full pause after each copy. */
  ghost predicate RoundInBounds(cfg: Config, r: Round) {
    && (forall i :: 0 <= i < |r.copies| ==> r.copies[i] == r.msg)
    && |r.copies| + r.failures <= cfg.retransmissions + 1
    && |r.pauses| <= |r.copies|
    && (forall i :: 0 <= i < |r.pauses| ==> r.pauses[i] == Pause(cfg))
  }

  ghost predicate RoundsInBounds(cfg: Config, c: Client) {
    var rounds := Rounds(c.log);
    && (forall r :: r in rounds ==> RoundInBounds(cfg, r))
    && (c.phase.Sending? ==>
      && rounds != []
      && var r := rounds[|rounds| - 1];
      && r.msg == c.phase.msg
      && |r.copies| + r.failures == c.phase.tries <= cfg.retransmissions + 1
      && |r.pauses| == |r.copies| - if c.phase.stage == Asleep then 1 else 0)
  }

  lemma BeginSendKeepsRounds(cfg: Config, c: Client, r: Request, bye: bool)
    requires RoundsInBounds(cfg, c)
    ensures RoundsInBounds(cfg, BeginSend(c, r, bye))
  {
    RoundsOne(c.log, Emitted(Encode(ToMessage(r, ToId(c.table.index)))));
  }

  lemma InputKeepsRounds(cfg: Config, c: Client, cmd: Command)
    requires RoundsInBounds(cfg, c) && c.phase.Idle?
    ensures RoundsInBounds(cfg, OnInput(c, cmd))
  {
    var r := Dispatch(false, c.state, c.name, cmd);
    var c' := c.(state := r.state, name := r.name);
    if r.emit.Some? {
      BeginSendKeepsRounds(cfg, c', r.emit.value, false);
    }
  }

  lemma AddToKeepsBounds(cfg: Config, rounds: seq<Round>, copies: seq<Bytes>, failures: nat, pauses: seq<Event>)
    requires rounds != [] && forall r :: r in rounds ==> RoundInBounds(cfg, r)
    requires var r := rounds[|rounds| - 1];
      RoundInBounds(cfg, Round(r.msg, r.copies + copies, r.failures + failures, r.pauses + pauses))
    ensures forall r :: r in AddTo(rounds, copies, failures, pauses) ==> RoundInBounds(cfg, r)
  {
    forall r | r in AddTo(rounds, copies, failures, pauses) ensures RoundInBounds(cfg, r) {
      var i :| 0 <= i < |rounds| && AddTo(rounds, copies, failures, pauses)[i] == r;
      assert rounds[i] in rounds;
    }
  }

  lemma AttemptKeepsRounds(cfg: Config, c: Client, sent: bool)
    requires RoundsInBounds(cfg, c) && c.phase.Sending? && c.phase.stage == LoopHead
    ensures RoundsInBounds(cfg, OnAttempt(cfg, c, sent))
  {
    var rounds := Rounds(c.log);
    if c.phase.tries <= cfg.retransmissions {
      assert rounds[|rounds| - 1] in rounds;
      if sent {
        RoundsOne(c.log, Transmitted(c.phase.msg));
        AddToKeepsBounds(cfg, rounds, [c.phase.msg], 0, []);
      } else {
        RoundsOne(c.log, Failed(c.phase.msg));
        AddToKeepsBounds(cfg, rounds, [], 1, []);
      }
    }
  }

  lemma WakeKeepsRounds(cfg: Config, c: Client)
    requires RoundsInBounds(cfg, c) && Enabled(c, Wake)
    ensures RoundsInBounds(cfg, OnWake(cfg, c))
  {
    RoundsOne(c.log, Pause(cfg));
    assert Rounds(c.log)[|Rounds(c.log)| - 1] in Rounds(c.log);
    AddToKeepsBounds(cfg, Rounds(c.log), [], 0, [Pause(cfg)]);
  }

  lemma StepKeepsRounds(cfg: Config, c: Client, a: Action)
    requires RoundsInBounds(cfg, c) && Enabled(c, a)
    ensures RoundsInBounds(cfg, Step(cfg, c, a))
  {
    match a
    case Input(cmd) => InputKeepsRounds(cfg, c, cmd);
    case EndOfInput => BeginSendKeepsRounds(cfg, c, ByeRequest(c.name), true);
    case Attempt(sent) => AttemptKeepsRounds(cfg, c, sent);
    case Wake => WakeKeepsRounds(cfg, c);
    case Decide =>
    case Hear(d) =>
      EventsOfReact(c, d);
      RoundsApply(c, d, React(c, d));
  }

  /** The rounds are the emitted datagrams, in the same order. */
  ghost predicate RoundsMatch(log: seq<Event>) {
    && |Rounds(log)| == |EmitsIn(log)|
    && forall k :: 0 <= k < |EmitsIn(log)| ==> Rounds(log)[k].msg == EmitsIn(log)[k]
  }

  lemma EventKeepsRoundsMatch(log: seq<Event>, e: Event)
    requires RoundsMatch(log)
    requires e.Transmitted? || e.Failed? || e.Slept? ==> Rounds(log) != []
    ensures RoundsMatch(log + [e])
  {
    RoundsOne(log, e);
    EmitsOne(log, e);
  }

  lemma ApplyKeepsRoundsMatch(c: Client, d: Bytes, e: Effect)
    requires RoundsMatch(c.log) && forall x :: x in e.events ==> ListenerEvent(x)
    ensures RoundsMatch(Apply(c, d, e).log)
  {
    RoundsApply(c, d, e);
    ApplyEmitsNothing(c, d, e);
  }

  lemma StepKeepsRoundsMatch(cfg: Config, c: Client, a: Action)
    requires RoundsMatch(c.log) && RoundsInBounds(cfg, c) && Enabled(c, a)
    ensures RoundsMatch(Step(cfg, c, a).log)
  {
    match a
    case Hear(d) =>
      EventsOfReact(c, d);
      ApplyKeepsRoundsMatch(c, d, React(c, d));
    case Attempt(sent) => EventKeepsRoundsMatch(c.log, if sent then Transmitted(c.phase.msg) else Failed(c.phase.msg));
    case Wake => EventKeepsRoundsMatch(c.log, Pause(cfg));
    case Decide =>
    case EndOfInput => EventKeepsRoundsMatch(c.log, Emitted(Encode(ToMessage(ByeRequest(c.name), ToId(c.table.index)))));
    case Input(cmd) =>
      var r := Dispatch(false, c.state, c.name, cmd).emit;
      if r.Some? {
        EventKeepsRoundsMatch(c.log, Emitted(Encode(ToMessage(r.value, ToId(c.table.index)))));
      }
  }

  /** The nanoseconds the pauses take together. */
  function PausedNanos(pauses: seq<Event>): nat {
    if pauses == [] then 0
    else
      var e := pauses[|pauses| - 1];
      PausedNanos(pauses[..|pauses| - 1]) + if e.Slept? then e.seconds * 1_000_000_000 + e.nanoseconds else 0
  }

  lemma OnePause(cfg: Config)
    ensures Pause(cfg).nanoseconds < 1_000_000_000
    ensures Pause(cfg).seconds * 1_000_000_000 + Pause(cfg).nanoseconds == cfg.timeout * 1_000_000
  {
  }

  /** A pause is a legal `timespec` of exactly the configured length, so a round blocks for a bounded time. */
  lemma {:induction false} PauseLength(cfg: Config, pauses: seq<Event>)
    requires forall i :: 0 <= i < |pauses| ==> pauses[i] == Pause(cfg)
    ensures Pause(cfg).nanoseconds < 1_000_000_000
    ensures PausedNanos(pauses) == |pauses| * (cfg.timeout * 1_000_000)
  {
    OnePause(cfg);
    if pauses != [] {
      PauseLength(cfg, pauses[..|pauses| - 1]);
      assert |pauses| * (cfg.timeout * 1_000_000) == (|pauses| - 1) * (cfg.timeout * 1_000_000) + cfg.timeout * 1_000_000;
    }
  }

  // ----- what is sent -----

  /** The k-th emitted datagram encodes a request with legal parameters under identifier k. */
  ghost predicate LegalEmit(k: nat, d: Bytes) {
    exists r: Request :: ValidRequest(r) && d == Encode(ToMessage(r, ToId(k)))
  }

  ghost predicate AllLegal(ds: seq<Bytes>) {
    forall k :: 0 <= k < |ds| ==> LegalEmit(k, ds[k])
  }

  ghost predicate EmitsLegal(c: Client) {
    ValidName(c.name) && |Emits(c)| == c.table.index && AllLegal(Emits(c))
  }

  lemma RequestIsLegal(k: nat, r: Request)
    requires ValidRequest(r)
    ensures LegalEmit(k, Encode(ToMessage(r, ToId(k))))
  {
  }

  lemma AllLegalAppend(ds: seq<Bytes>, d: Bytes)
    requires AllLegal(ds) && LegalEmit(|ds|, d)
    ensures AllLegal(ds + [d])
  {
  }

  lemma BeginSendKeepsLegal(c: Client, r: Request, bye: bool)
    requires EmitsLegal(c) && ValidRequest(r)
    ensures EmitsLegal(BeginSend(c, r, bye))
  {
    var msg := Encode(ToMessage(r, ToId(c.table.index)));
    EmitsOne(c.log, Emitted(msg));
    RequestIsLegal(c.table.index, r);
    AllLegalAppend(Emits(c), msg);
  }

  lemma SameEmitsKeepLegal(c: Client, c': Client)
    requires EmitsLegal(c) && Emits(c') == Emits(c) && c'.table.index == c.table.index && ValidName(c'.name)
    ensures EmitsLegal(c')
  {
  }

  lemma InputKeepsLegal(c: Client, cmd: Command)
    requires EmitsLegal(c)
    ensures EmitsLegal(OnInput(c, cmd))
  {
    DispatchIsSafe(false, c.state, c.name, cmd);
    var r := Dispatch(false, c.state, c.name, cmd);
    var c' := c.(state := r.state, name := r.name);
    SameEmitsKeepLegal(c, c');
    if r.emit.Some? {
      BeginSendKeepsLegal(c', r.emit.value, false);
    }
  }

  lemma StepKeepsLegal(cfg: Config, c: Client, a: Action)
    requires EmitsLegal(c) && Enabled(c, a)
    requires Step(cfg, c, a).table.index == |Emits(Step(cfg, c, a))|
    ensures EmitsLegal(Step(cfg, c, a))
  {
    match a
    case Input(cmd) => InputKeepsLegal(c, cmd);
    case EndOfInput => BeginSendKeepsLegal(c, ByeRequest(c.name), true);
    case Attempt(sent) =>
      EmitsOne(c.log, if sent then Transmitted(c.phase.msg) else Failed(c.phase.msg));
      SameEmitsKeepLegal(c, Step(cfg, c, a));
    case Wake =>
      EmitsOne(c.log, Pause(cfg));
      SameEmitsKeepLegal(c, Step(cfg, c, a));
    case Decide => SameEmitsKeepLegal(c, Step(cfg, c, a));
    case Hear(d) =>
      HearEmitsNothing(c, d);
      SameEmitsKeepLegal(c, Step(cfg, c, a));
  }

  // ----- when a message may be sent -----

  /** The positive REPLY that ends authentication. */
  predicate Welcomes(e: Event) {
    e.Heard? && e.state == Auth && WellFormed(e.d) && e.d[0] == REPLY && e.d[3] == 1
  }

  ghost predicate Admitted(log: seq<Event>) {
    exists e :: e in log && Welcomes(e)
  }

  /** A chat message or a request to change channels. */
  predicate Gated(e: Event) {
    e.Emitted? && |e.msg| > 0 && e.msg[0] in {MSG, JOIN}
  }

  ghost predicate GatedAfterWelcome(c: Client) {
    && (c.state in {Open, Join} ==> Admitted(c.log))
    && forall i :: 0 <= i < |c.log| && Gated(c.log[i]) ==> Admitted(c.log[..i])
  }

  lemma AppendKeepsGates(log: seq<Event>, more: seq<Event>)
    requires forall i :: 0 <= i < |log| && Gated(log[i]) ==> Admitted(log[..i])
    requires Admitted(log) || forall e :: e in more ==> !Gated(e)
    ensures Admitted(log) ==> Admitted(log + more)
    ensures forall i :: 0 <= i < |log + more| && Gated((log + more)[i]) ==> Admitted((log + more)[..i])
  {
    var all := log + more;
    if Admitted(log) {
      var e :| e in log && Welcomes(e);
      assert e in all;
    }
    forall i | 0 <= i < |all| && Gated(all[i]) ensures Admitted(all[..i]) {
      if i < |log| {
        assert all[..i] == log[..i];
      } else {
        assert all[i] in more;
        var e :| e in log && Welcomes(e);
        assert all[..i] == log + more[..i - |log|];
        assert e in all[..i];
      }
    }
  }

  /** Only the main thread enters AUTH and JOIN, only the listener enters OPEN. */
  predicate OwnEdge(a: Action, from: AppState, to: AppState) {
    if a.Hear? then to == from || (from in {Auth, Join} && to == Open)
    else to == from || (from == Start && to == Auth) || (from == Open && to == Join)
  }

  lemma HearTakesOwnEdge(c: Client, d: Bytes)
    ensures OwnEdge(Hear(d), c.state, OnHear(c, d).state)
    ensures c.state == Auth && OnHear(c, d).state == Open ==> Welcomes(Heard(c.state, d))
  {
    if WellFormed(d) {
      WellFormedDecodes(d);
    }
  }

  lemma StepTakesOwnEdge(cfg: Config, c: Client, a: Action)
    requires Enabled(c, a)
    ensures OwnEdge(a, c.state, Step(cfg, c, a).state)
  {
    if a.Hear? {
      HearTakesOwnEdge(c, a.d);
    }
  }

  lemma LogKeepsGates(c: Client, c': Client, e: Event, more: seq<Event>)
    requires GatedAfterWelcome(c) && c'.log == c.log + [e] + more
    requires Admitted(c.log) || !Gated(e)
    requires forall x :: x in more ==> !Gated(x)
    requires c'.state in {Open, Join} ==> c.state in {Open, Join} || Welcomes(e)
    ensures GatedAfterWelcome(c')
  {
    assert c.log + [e] + more == c.log + ([e] + more);
    AppendKeepsGates(c.log, [e] + more);
    assert e in c'.log;
  }

  lemma EventKeepsGates(c: Client, c': Client, e: Event)
    requires GatedAfterWelcome(c) && c'.log == c.log + [e] && c'.state == c.state
    requires Admitted(c.log) || !Gated(e)
    ensures GatedAfterWelcome(c')
  {
    assert c.log + [e] + [] == c.log + [e];
    LogKeepsGates(c, c', e, []);
  }

  lemma InputKeepsGates(c: Client, cmd: Command)
    requires GatedAfterWelcome(c) && ValidName(c.name)
    ensures GatedAfterWelcome(OnInput(c, cmd)) && ValidName(OnInput(c, cmd).name)
  {
    DispatchIsSafe(false, c.state, c.name, cmd);
    var r := Dispatch(false, c.state, c.name, cmd);
    if r.emit.Some? {
      var c' := c.(state := r.state, name := r.name);
      EventKeepsGates(c', OnInput(c, cmd), Emitted(Encode(ToMessage(r.emit.value, ToId(c.table.index)))));
    }
  }

  lemma HearKeepsGates(c: Client, d: Bytes)
    requires GatedAfterWelcome(c)
    ensures GatedAfterWelcome(OnHear(c, d))
  {
    EventsOfReact(c, d);
    HearTakesOwnEdge(c, d);
    LogKeepsGates(c, OnHear(c, d), Heard(c.state, d), React(c, d).events);
  }

  lemma StepKeepsGates(cfg: Config, c: Client, a: Action)
    requires GatedAfterWelcome(c) && Enabled(c, a) && ValidName(c.name)
    ensures GatedAfterWelcome(Step(cfg, c, a))
    ensures ValidName(Step(cfg, c, a).name)
  {
    match a
    case Input(cmd) => InputKeepsGates(c, cmd);
    case EndOfInput =>
      EventKeepsGates(c, Step(cfg, c, a), Emitted(Encode(ToMessage(ByeRequest(c.name), ToId(c.table.index)))));
    case Attempt(sent) => AppendKeepsGates(c.log, [if sent then Transmitted(c.phase.msg) else Failed(c.phase.msg)]);
    case Wake => EventKeepsGates(c, Step(cfg, c, a), Pause(cfg));
    case Decide =>
    case Hear(d) => HearKeepsGates(c, d);
  }
  // ----- all of it -----

  /** What the log says after any steps at all, whatever arrives from the network. */
  ghost predicate LogInv(cfg: Config, c: Client) {
    && ConfirmsBalance(c)
    && DisplaysOnce(c)
    && RoundsInBounds(cfg, c) && RoundsMatch(c.log)
    && GatedAfterWelcome(c)
    && ValidName(c.name)
  }

  lemma StepKeepsLogInv(cfg: Config, c: Client, a: Action)
    requires LogInv(cfg, c) && Enabled(c, a)
    ensures LogInv(cfg, Step(cfg, c, a))
  {
    StepKeepsConfirmsBalance(cfg, c, a);
    StepKeepsDisplaysOnce(cfg, c, a);
    StepKeepsRounds(cfg, c, a);
    StepKeepsRoundsMatch(cfg, c, a);
    StepKeepsGates(cfg, c, a);
  }
}
