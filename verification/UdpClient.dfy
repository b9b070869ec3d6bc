/**
 * The UDP client as a state machine of atomic steps: the main thread inside `send_network_msg_udp`,
 * the listener thread inside `process_received_udp_message` (src/network_udp.c), the reply handlers of
 * src/state_*.c and the command loop of src/main.c. Each step is a function on the client's globals.
 */
module UdpClient {
  import opened Base
  import opened ConfirmedIds
  import opened SeenIds
  import opened Commands
  import opened UdpCodec

  /** The command line options -r and -d. */
  datatype Config = Config(retransmissions: byte, timeout: Id)

  /** Where the main thread stands inside `send_network_msg_udp`. */
  datatype Stage = LoopHead | Asleep | AfterLoop

  datatype Phase =
    | Idle
    | Sending(stage: Stage, msg: Bytes, tries: nat, bye: bool)

  /** `Undefined` stands for an access outside an array or through a null pointer. */
  datatype Fate = Running | Exited(code: nat) | Undefined

  const EXIT_SUCCESS: nat := 0
  const EXIT_FAILURE: nat := 1

  /** Everything that crosses the boundary of the process, in order. */
  datatype Event =
    | Heard(state: AppState, d: Bytes)
    | Shown(id: Id, name: CString, content: CString)
    | Outcome(ok: bool, content: CString)
    | Emitted(msg: Bytes)
    | Transmitted(msg: Bytes)
    | Failed(msg: Bytes)
    | Slept(seconds: nat, nanoseconds: nat)
    | ConfirmSent(id: Id)

  datatype Client = Client(
    state: AppState, name: CString, table: Table, seen: seq<Id>, phase: Phase, fate: Fate, log: seq<Event>)

  datatype Action =
    | Input(cmd: Command)
    | EndOfInput
    | Attempt(sent: bool)
    | Wake
    | Decide
    | Hear(d: Bytes)

  /** The display name before any command: "unknown". */
  const DEFAULT_NAME: CString := [0x75, 0x6E, 0x6B, 0x6E, 0x6F, 0x77, 0x6E]

  function InitialClient(): Client {
    Client(Start, DEFAULT_NAME, InitialTable(), [], Idle, Running, [])
  }

  function Log(c: Client, e: Event): Client {
    c.(log := c.log + [e])
  }

  // ----- the main thread -----

  function ToMessage(r: Request, id: Id): Message {
    match r
    case AuthRequest(username, name, secret) => AuthMsg(id, username, name, secret)
    case JoinRequest(channel, name) => JoinMsg(id, channel, name)
    case SayRequest(name, content) => ChatMsg(id, name, content)
    case ByeRequest(name) => ByeMsg(id, name)
  }

  /** The request is encoded with the next identifier and `send_network_msg_udp` is entered. */
  function BeginSend(c: Client, r: Request, bye: bool): Client {
    var msg := Encode(ToMessage(r, ToId(c.table.index)));
    Log(c, Emitted(msg)).(table := Advance(c.table), phase := Sending(LoopHead, msg, 0, bye))
  }

  function OnInput(c: Client, cmd: Command): Client {
    var r := Dispatch(false, c.state, c.name, cmd);
    var c' := c.(state := r.state, name := r.name);
    if r.emit.Some? then BeginSend(c', r.emit.value, false) else c'
  }

  function AtStage(c: Client, stage: Stage): Client
    requires c.phase.Sending?
  {
    c.(phase := c.phase.(stage := stage))
  }

  /** The loop condition and one `sendto`; a failed `sendto` costs a try and skips the pause. */
  function OnAttempt(cfg: Config, c: Client, sent: bool): Client
    requires c.phase.Sending?
  {
    if c.phase.tries > cfg.retransmissions then AtStage(c, AfterLoop)
    else
      var c' := c.(phase := c.phase.(tries := c.phase.tries + 1));
      if sent then Log(AtStage(c', Asleep), Transmitted(c.phase.msg)) else Log(c', Failed(c.phase.msg))
  }

  function Pause(cfg: Config): Event {
    Slept(cfg.timeout / 1000, cfg.timeout % 1000 * 1000 * 1000)
  }

  /** The pause is over and the confirmation array is scanned. */
  function OnWake(cfg: Config, c: Client): Client
    requires c.phase.Sending? && |c.phase.msg| >= 3
  {
    var c' := Log(c, Pause(cfg));
    match Search(c.table, MsgId(c.phase.msg))
    case Found => AtStage(c', AfterLoop)
    case Absent => AtStage(c', LoopHead)
    case OutOfBounds => AtStage(c', LoopHead).(fate := Undefined)
  }

  /** The scan after the loop decides between returning and leaving the process. */
  function OnDecide(c: Client): Client
    requires c.phase.Sending? && |c.phase.msg| >= 3
  {
    match Search(c.table, MsgId(c.phase.msg))
    case Found => c.(phase := Idle, fate := if c.phase.bye then Exited(EXIT_SUCCESS) else Running)
    case Absent => c.(fate := Exited(EXIT_FAILURE))
    case OutOfBounds => c.(fate := Undefined)
  }

  // ----- the listener thread -----

  /** Long enough for its type, with the terminator the first of two fields needs. */
  predicate WellFormed(d: Bytes) {
    && |d| >= 3
    && (d[0] == REPLY ==> |d| >= 8)
    && (d[0] in {MSG, ERR} ==> |d| >= 7 && 3 + Strlen(d[3..]) < |d|)
    && (d[0] == BYE ==> |d| >= 5)
  }

  /** On well-formed datagrams the deserializers return the message of the announced type, never the null pointer. */
  lemma WellFormedDecodes(d: Bytes)
    requires WellFormed(d)
    ensures NameTerminated(d)
    ensures match Decode(d)
            case None => d[0] !in {CONFIRM, REPLY, MSG, PING, ERR, BYE}
            case Some(m) => Readable(m) && Type(m) == d[0] && m.id == MsgId(d) && (m.ReplyMsg? ==> m.result == d[3])
  {
  }

  /** Well-formed are exactly the datagrams that can be read without leaving them, or whose type nobody reads. */
  lemma WellFormedExactly(d: Bytes)
    ensures WellFormed(d) <==>
      |d| >= 3 && NameTerminated(d) && (d[0] in {0, 1, 4, 0xFD, 0xFE, 0xFF} ==> Decode(d).Some?)
  {
  }

  /** What one datagram does to the globals the listener owns, and what it makes the process put out. */
  datatype Effect = Effect(state: AppState, table: Table, seen: seq<Id>, fate: Fate, events: seq<Event>)

  function Unchanged(c: Client): Effect {
    Effect(c.state, c.table, c.seen, c.fate, [])
  }

  /** `add_confirmed_msg_id`. */
  function OnConfirm(c: Client, id: Id): Effect {
    match Record(c.table, id)
    case Some(t) => Unchanged(c).(table := t)
    case None => Unchanged(c).(fate := Undefined)
  }

  /** The three handlers of a REPLY, and its refusal in START. */
  function OnReply(c: Client, m: Message): Effect
    requires m.ReplyMsg?
  {
    var outcome := Outcome(m.result == 1, m.content);
    if c.state == Start || m.result > 1 then Unchanged(c).(fate := Exited(EXIT_FAILURE))
    else if c.state == Open then Unchanged(c).(fate := Exited(EXIT_SUCCESS), events := [outcome])
    else Unchanged(c).(
      state := if c.state == Auth && m.result == 0 then Auth else Open,
      events := [outcome, ConfirmSent(m.id)])
  }

  /** The deduplicated display of MSG and ERR, and the CONFIRM that follows in any case. */
  function OnText(c: Client, id: Id, name: CString, content: CString): Effect {
    if id in c.seen then Unchanged(c).(events := [ConfirmSent(id)])
    else Unchanged(c).(seen := Remember(c.seen, id), events := [Shown(id, name, content), ConfirmSent(id)])
  }

  function OnOther(c: Client, id: Id): Effect {
    Unchanged(c).(events := [ConfirmSent(id)])
  }

  /** The dispatch of `process_received_udp_message`; `None` is a type the client does not know. */
  function ReactTo(c: Client, id: Id, received: Option<Message>): Effect {
    match received
    case Some(ConfirmMsg(_)) => OnConfirm(c, id)
    case Some(ReplyMsg(_, _, _, _)) => OnReply(c, received.value)
    case Some(ChatMsg(_, name, content)) => if c.state == Start then Unchanged(c) else OnText(c, id, name, content)
    case Some(PingMsg(_)) => OnOther(c, id)
    case Some(ErrMsg(_, name, content)) => OnText(c, id, name, content).(fate := Exited(EXIT_SUCCESS))
    case Some(ByeMsg(_, _)) => OnOther(c, id).(fate := Exited(EXIT_SUCCESS))
    case _ => OnOther(c, id).(fate := Exited(EXIT_FAILURE))
  }

  function React(c: Client, d: Bytes): Effect {
    if WellFormed(d) then ReactTo(c, MsgId(d), Decode(d)) else Unchanged(c).(fate := Undefined)
  }

  function Apply(c: Client, d: Bytes, e: Effect): Client {
    c.(state := e.state, table := e.table, seen := e.seen, fate := e.fate,
       log := c.log + [Heard(c.state, d)] + e.events)
  }

  function OnHear(c: Client, d: Bytes): Client {
    Apply(c, d, React(c, d))
  }

  // ----- steps -----

  predicate Enabled(c: Client, a: Action) {
    && c.fate == Running
    && match a {
      case Input(_) => c.phase.Idle?
      case EndOfInput => c.phase.Idle?
      case Attempt(_) => c.phase.Sending? && c.phase.stage == LoopHead
      case Wake => c.phase.Sending? && c.phase.stage == Asleep && |c.phase.msg| >= 3
      case Decide => c.phase.Sending? && c.phase.stage == AfterLoop && |c.phase.msg| >= 3
      case Hear(_) => true
    }
  }

  function Step(cfg: Config, c: Client, a: Action): Client
    requires Enabled(c, a)
  {
    match a
    case Input(cmd) => OnInput(c, cmd)
    case EndOfInput => BeginSend(c, ByeRequest(c.name), true)
    case Attempt(sent) => OnAttempt(cfg, c, sent)
    case Wake => OnWake(cfg, c)
    case Decide => OnDecide(c)
    case Hear(d) => OnHear(c, d)
  }

  // ----- the datagrams with an identifier of their own -----

  /** The datagrams handed to `send_network_msg_udp` for reliable delivery, in order. */
  function EmitsIn(log: seq<Event>): seq<Bytes> {
    if log == [] then []
    else
      var before, e := EmitsIn(log[..|log| - 1]), log[|log| - 1];
      if e.Emitted? then before + [e.msg] else before
  }

  function Emits(c: Client): seq<Bytes> {
    EmitsIn(c.log)
  }

  lemma EmitsOne(log: seq<Event>, e: Event)
    ensures EmitsIn(log + [e]) == if e.Emitted? then EmitsIn(log) + [e.msg] else EmitsIn(log)
  {
    assert (log + [e])[..|log|] == log;
  }

  lemma {:induction false} EmitsAppendOthers(log: seq<Event>, more: seq<Event>)
    requires forall e :: e in more ==> !e.Emitted?
    ensures EmitsIn(log + more) == EmitsIn(log)
  {
    if more == [] {
      assert log + more == log;
    } else {
      var front := more[..|more| - 1];
      assert log + more == log + front + [more[|more| - 1]];
      EmitsOne(log + front, more[|more| - 1]);
      EmitsAppendOthers(log, front);
    }
  }

  // ----- invariant of the confirmation mechanism -----

  ghost predicate EmitsNumbered(c: Client) {
    && |Emits(c)| == c.table.index
    && forall k :: 0 <= k < |Emits(c)| ==>
      |Emits(c)[k]| >= 3 && Emits(c)[k][0] != CONFIRM && MsgId(Emits(c)[k]) == ToId(k)
  }

  /** The main thread waits for the datagram emitted last; between sends nothing is waited for. */
  ghost predicate PhaseInStep(cfg: Config, c: Client) {
    match c.phase
    case Idle => Settled(c.table)
    case Sending(stage, msg, tries, _) =>
      && c.table.index > 0 && |Emits(c)| == c.table.index && msg == Emits(c)[c.table.index - 1]
      && tries <= cfg.retransmissions + 1
  }

  ghost predicate SendInv(cfg: Config, c: Client) {
    c.fate != Undefined && Shape(c.table) && EmitsNumbered(c) && PhaseInStep(cfg, c)
  }

  /** The peer sends complete datagrams and confirms only identifiers already issued. */
  ghost predicate Honest(c: Client, a: Action) {
    a.Hear? ==> WellFormed(a.d) && (a.d[0] == CONFIRM ==> Issued(c.table, MsgId(a.d)))
  }

  /** The client starts in START as "unknown", with nothing sent, seen or logged. */
  lemma InitialIs()
    ensures var c := InitialClient();
      && c.state == Start && c.name == Ascii("unknown") && c.table.index == 0
      && c.seen == [] && c.phase == Idle && c.fate == Running && c.log == []
  {
  }

  lemma InitialSendInv(cfg: Config)
    ensures SendInv(cfg, InitialClient())
  {
    InitialShape();
  }

  lemma BeginSendKeepsInv(cfg: Config, c: Client, r: Request, bye: bool)
    requires SendInv(cfg, c) && c.phase.Idle?
    ensures SendInv(cfg, BeginSend(c, r, bye))
  {
    var m := ToMessage(r, ToId(c.table.index));
    EncodedId(m);
    AdvanceKeepsShape(c.table);
    EmitsOne(c.log, Emitted(Encode(m)));
  }

  predicate ListenerEvent(e: Event) {
    e.Shown? || e.Outcome? || e.ConfirmSent?
  }

  lemma EventsOfDispatch(c: Client, id: Id, m: Option<Message>)
    ensures forall e :: e in ReactTo(c, id, m).events ==> ListenerEvent(e)
    ensures |ReactTo(c, id, m).events| <= 2
  {
  }

  /** The listener only displays and confirms. */
  lemma EventsOfReact(c: Client, d: Bytes)
    ensures forall e :: e in React(c, d).events ==> ListenerEvent(e)
    ensures |React(c, d).events| <= 2
  {
    if WellFormed(d) {
      EventsOfDispatch(c, MsgId(d), Decode(d));
    }
  }

  /** The listener touches the confirmation array for a CONFIRM only, and stays inside it. */
  lemma TableOfReact(c: Client, d: Bytes)
    requires c.fate == Running && Shape(c.table) && Honest(c, Hear(d))
    ensures var e := React(c, d);
            e.fate != Undefined && e.table == if d[0] == CONFIRM then Record(c.table, MsgId(d)).value else c.table
  {
    if d[0] == CONFIRM {
      RecordKeepsShape(c.table, MsgId(d));
    }
    WellFormedDecodes(d);
  }

  lemma ApplyEmitsNothing(c: Client, d: Bytes, e: Effect)
    requires forall x :: x in e.events ==> ListenerEvent(x)
    ensures Emits(Apply(c, d, e)) == Emits(c)
  {
    EmitsOne(c.log, Heard(c.state, d));
    EmitsAppendOthers(c.log + [Heard(c.state, d)], e.events);
  }

  lemma HearEmitsNothing(c: Client, d: Bytes)
    ensures Emits(OnHear(c, d)) == Emits(c)
  {
    EventsOfReact(c, d);
    ApplyEmitsNothing(c, d, React(c, d));
  }

  lemma ApplyKeepsSendInv(cfg: Config, c: Client, d: Bytes, e: Effect)
    requires SendInv(cfg, c) && e.fate != Undefined
    requires forall x :: x in e.events ==> ListenerEvent(x)
    requires Shape(e.table) && e.table.index == c.table.index && (Settled(c.table) ==> Settled(e.table))
    ensures SendInv(cfg, Apply(c, d, e))
  {
    ApplyEmitsNothing(c, d, e);
  }

  lemma HearKeepsSendInv(cfg: Config, c: Client, d: Bytes)
    requires SendInv(cfg, c) && Enabled(c, Hear(d)) && Honest(c, Hear(d))
    ensures SendInv(cfg, OnHear(c, d))
  {
    var e := React(c, d);
    EventsOfReact(c, d);
    TableOfReact(c, d);
    if d[0] == CONFIRM {
      RecordKeepsShape(c.table, MsgId(d));
    }
    ApplyKeepsSendInv(cfg, c, d, e);
  }

  lemma InputKeepsSendInv(cfg: Config, c: Client, cmd: Command)
    requires SendInv(cfg, c) && c.phase.Idle?
    ensures SendInv(cfg, OnInput(c, cmd))
  {
    var r := Dispatch(false, c.state, c.name, cmd);
    var c' := c.(state := r.state, name := r.name);
    assert Emits(c') == Emits(c);
    if r.emit.Some? {
      BeginSendKeepsInv(cfg, c', r.emit.value, false);
    }
  }

  lemma SameTable(c: Client, c': Client)
    requires Shape(c.table) && EmitsNumbered(c) && c'.table == c.table && Emits(c') == Emits(c)
    ensures Shape(c'.table) && EmitsNumbered(c')
  {
  }

  lemma AttemptKeepsSendInv(cfg: Config, c: Client, sent: bool)
    requires SendInv(cfg, c) && c.phase.Sending?
    ensures SendInv(cfg, OnAttempt(cfg, c, sent))
  {
    EmitsOne(c.log, Transmitted(c.phase.msg));
    EmitsOne(c.log, Failed(c.phase.msg));
    SameTable(c, OnAttempt(cfg, c, sent));
  }

  lemma ScanKeepsSendInv(cfg: Config, c: Client)
    requires SendInv(cfg, c) && c.phase.Sending?
    ensures SendInv(cfg, OnWake(cfg, c)) && SendInv(cfg, OnDecide(c))
  {
    EmitsOne(c.log, Pause(cfg));
    ScanMeansSettled(c.table);
    SameTable(c, OnWake(cfg, c));
    SameTable(c, OnDecide(c));
  }

  /** Every step of either thread keeps the joint invariant; in particular none leaves an array. */
  lemma StepKeepsSendInv(cfg: Config, c: Client, a: Action)
    requires SendInv(cfg, c) && Enabled(c, a) && Honest(c, a)
    ensures SendInv(cfg, Step(cfg, c, a))
  {
    match a
    case Input(cmd) => InputKeepsSendInv(cfg, c, cmd);
    case EndOfInput => BeginSendKeepsInv(cfg, c, ByeRequest(c.name), true);
    case Attempt(sent) => AttemptKeepsSendInv(cfg, c, sent);
    case Wake => ScanKeepsSendInv(cfg, c);
    case Decide => ScanKeepsSendInv(cfg, c);
    case Hear(d) => HearKeepsSendInv(cfg, c, d);
  }
}
