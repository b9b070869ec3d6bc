/**
 * The UDP client against the published automaton (diagrams/protocol_fsm_client.dot): which steps of a run take
 * one of its edges, and which do not.
 */
module UdpDiagram {
  import opened Base
  import opened Commands
  import opened ConfirmedIds
  import opened Diagram
  import opened UdpCodec
  import opened UdpClient
  import opened UdpNetwork
  import opened UdpTheorems

  // ----- user input -----

  /** The negative REPLY that the edge from AUTH to AUTH waits for. */
  predicate Refuses(e: Event) {
    e.Heard? && e.state == Auth && WellFormed(e.d) && e.d[0] == REPLY && e.d[3] == 0
  }

  predicate EmitsAuth(e: Event) {
    e.Emitted? && |e.msg| > 0 && e.msg[0] == AUTH
  }

  /** A negative REPLY was heard in AUTH, and no AUTH has been sent since. */
  ghost predicate RefusalPending(log: seq<Event>) {
    exists j :: 0 <= j < |log| && Refuses(log[j]) && forall k :: j < k < |log| ==> !EmitsAuth(log[k])
  }

  ghost predicate Triggered(trigger: Trigger, log: seq<Event>) {
    trigger == Refusal ==> RefusalPending(log)
  }

  /** What a step that hands over this request, or none, adds to the log. */
  function Handover(c: Client, emit: Option<Request>): seq<Event> {
    if emit.Some? then [Emitted(Encode(ToMessage(emit.value, ToId(c.table.index))))] else []
  }

  /** The step takes a published edge that is due: with its states, its output, and what it waits for. */
  ghost predicate TakesPublishedEdge(c: Client, c': Client) {
    exists trigger, emit :: Triggered(trigger, c.log) && PublishedEdge(c.state, trigger, emit, c'.state) &&
      c'.log == c.log + Handover(c, emit)
  }

  /** /auth with acceptable parameters although the server has not refused since the last AUTH. */
  ghost predicate UncalledAuth(c: Client, cmd: Command) {
    c.state == Auth && cmd.AuthCmd? && Accepted(cmd.args) && !RefusalPending(c.log)
  }

  lemma SameHandover(c: Client, a: Option<Request>, b: Option<Request>)
    requires c.log + Handover(c, a) == c.log + Handover(c, b)
    ensures a == b
  {
    var s, t := c.log + Handover(c, a), c.log + Handover(c, b);
    assert Handover(c, a) == s[|c.log|..];
    assert Handover(c, b) == t[|c.log|..];
    if a.Some? {
      var id := ToId(c.table.index);
      assert Encode(ToMessage(a.value, id)) + [] == Encode(ToMessage(b.value, id)) + [];
      EncodePrefixFree(ToMessage(a.value, id), [], ToMessage(b.value, id), []);
    }
  }

  lemma InputHandsOver(c: Client, cmd: Command)
    ensures OnInput(c, cmd).state == Dispatch(false, c.state, c.name, cmd).state
    ensures OnInput(c, cmd).log == c.log + Handover(c, Dispatch(false, c.state, c.name, cmd).emit)
  {
  }

  lemma DispatchedEdge(c: Client, cmd: Command)
    ensures var r := Dispatch(false, c.state, c.name, cmd);
      (exists trigger :: Triggered(trigger, c.log) && PublishedEdge(c.state, trigger, r.emit, r.state)) <==>
        !RefusedAuth(c.state, cmd) && !UncalledAuth(c, cmd)
  {
    var r := Dispatch(false, c.state, c.name, cmd);
    assert Triggered(Spontaneous, c.log);
    assert Triggered(Refusal, c.log) <==> RefusalPending(c.log);
    if PublishedEdge(c.state, Spontaneous, r.emit, r.state) {
    } else if RefusalPending(c.log) && PublishedEdge(c.state, Refusal, r.emit, r.state) {
    }
  }

  /**
   * A line of input takes an edge of the published automaton if and only if it is neither a refused /auth in
   * START nor an /auth repeated in AUTH without a negative REPLY since the last AUTH.
   */
  lemma InputTakesEdgeExactly(c: Client, cmd: Command)
    ensures TakesPublishedEdge(c, OnInput(c, cmd)) <==> !RefusedAuth(c.state, cmd) && !UncalledAuth(c, cmd)
  {
    var c', r := OnInput(c, cmd), Dispatch(false, c.state, c.name, cmd);
    InputHandsOver(c, cmd);
    DispatchedEdge(c, cmd);
    if TakesPublishedEdge(c, c') {
      var trigger, emit :| Triggered(trigger, c.log) && PublishedEdge(c.state, trigger, emit, c'.state) &&
        c'.log == c.log + Handover(c, emit);
      SameHandover(c, emit, r.emit);
    }
  }

  /** Every step of a run that is a line of input follows the published automaton. */
  ghost predicate InputsFollowDiagram(cfg: Config, run: seq<Move>) {
    forall i, w :: 0 <= i < |run| && Reaches(cfg, run[..i], w) && IsInput(run[i]) ==>
      TakesPublishedEdge(w.client, OnInput(w.client, run[i].a.cmd))
  }

  predicate IsInput(m: Move) {
    m.Local? && m.a.Input?
  }

  /** Over whole runs: the inputs follow the diagram exactly when none of them is one of the two exceptions. */
  lemma InputsFollowDiagramExactly(cfg: Config, run: seq<Move>)
    ensures InputsFollowDiagram(cfg, run) <==>
      forall i, w :: 0 <= i < |run| && Reaches(cfg, run[..i], w) && IsInput(run[i]) ==>
        !RefusedAuth(w.client.state, run[i].a.cmd) && !UncalledAuth(w.client, run[i].a.cmd)
  {
    forall i, w | 0 <= i < |run| && Reaches(cfg, run[..i], w) && IsInput(run[i])
      ensures TakesPublishedEdge(w.client, OnInput(w.client, run[i].a.cmd)) <==>
        !RefusedAuth(w.client.state, run[i].a.cmd) && !UncalledAuth(w.client, run[i].a.cmd)
    {
      InputTakesEdgeExactly(w.client, run[i].a.cmd);
    }
  }

  /** The first exception is open to every run: /auth without parameters as the first input. */
  lemma RefusedAuthHappens(cfg: Config)
    ensures Reaches(cfg, [], INITIAL_WORLD) && Possible(INITIAL_WORLD, Local(Input(AuthCmd([]))))
    ensures OnInput(INITIAL_WORLD.client, AuthCmd([])).state == Auth
    ensures !TakesPublishedEdge(INITIAL_WORLD.client, OnInput(INITIAL_WORLD.client, AuthCmd([])))
  {
    InputTakesEdgeExactly(INITIAL_WORLD.client, AuthCmd([]));
  }

  lemma UncalledLogin(w: World, n: nat)
    requires Ready(w, n) && n > 0
    ensures UncalledAuth(w.client, Login(ALICE))
  {
    LoginReaction(w.client, ALICE);
    assert Dispatch(false, w.client.state, w.client.name, Login(ALICE)).emit.Some?;
    forall j | 0 <= j < |w.client.log| ensures !Refuses(w.client.log[j]) {
      assert w.client.log[j] in w.client.log;
    }
  }

  /** The second exception happens after any number of AUTH messages, none of which the server ever answered. */
  lemma UncalledAuthHappens(cfg: Config, n: nat) returns (run: seq<Move>, w: World)
    requires n > 0
    ensures Reaches(cfg, run, w) && Possible(w, Local(Input(Login(ALICE))))
    ensures |Emits(w.client)| == n && OnlyConfirms(w.client.log)
    ensures !TakesPublishedEdge(w.client, OnInput(w.client, Login(ALICE)))
  {
    run, w := ReadyIsReachable(cfg, n);
    RunKeepsInv(cfg, run, w);
    UncalledLogin(w, n);
    InputTakesEdgeExactly(w.client, Login(ALICE));
  }

  // ----- messages of the server -----

  function KindOf(d: Bytes): Kind
    requires WellFormed(d)
  {
    if d[0] == REPLY && d[3] == 1 then PositiveReply
    else if d[0] == REPLY && d[3] == 0 then NegativeReply
    else if d[0] == MSG then ChatMessage
    else if d[0] == ERR then ErrorMessage
    else if d[0] == BYE then ByeMessage
    else Unlisted
  }

  predicate IsErr(e: Event) {
    e.Emitted? && |e.msg| > 0 && e.msg[0] == ERR
  }

  /** The step ends up where the diagram does on this message, with an ERR emitted if that is due. */
  ghost predicate HearFollows(c: Client, c': Client, d: Bytes)
    requires WellFormed(d) && |c.log| <= |c'.log|
  {
    && c'.fate != Undefined
    && var err := exists e :: e in c'.log[|c.log|..] && IsErr(e);
    Arrives(c.state, c'.state, c'.fate.Exited?, err, Published(c.state, KindOf(d)))
  }

  lemma HearNeverErrs(c: Client, d: Bytes)
    ensures |c.log| <= |OnHear(c, d).log|
    ensures forall e :: e in OnHear(c, d).log[|c.log|..] ==> !IsErr(e)
  {
    EventsOfReact(c, d);
    var more := OnHear(c, d).log[|c.log|..];
    assert OnHear(c, d).log == c.log + ([Heard(c.state, d)] + React(c, d).events);
    assert more == [Heard(c.state, d)] + React(c, d).events;
    forall e | e in more ensures !IsErr(e) {
      if e != Heard(c.state, d) {
        assert e in React(c, d).events;
      }
    }
  }

  /**
   * The datagrams on which the client leaves the diagram: a REPLY in START or OPEN or with an illegal result, a MSG
   * in AUTH, and an unknown type.
   */
  predicate StraysOn(state: AppState, d: Bytes)
    requires WellFormed(d)
  {
    || (d[0] == REPLY && (state in {Start, AppState.Open} || d[3] > 1))
    || (d[0] == MSG && state == Auth)
    || d[0] !in {CONFIRM, REPLY, MSG, PING, ERR, BYE}
  }

  /**
   * On a datagram the client goes where the diagram goes, and stays put where it has no edge, if and only if the
   * datagram is not one of the listed ones.
   */
  lemma HearTakesEdgeExactly(c: Client, d: Bytes)
    requires c.fate == Running && Shape(c.table) && Honest(c, Hear(d)) && WellFormed(d)
    ensures |c.log| <= |OnHear(c, d).log|
    ensures HearFollows(c, OnHear(c, d), d) <==> !StraysOn(c.state, d)
  {
    WellFormedDecodes(d);
    HearNeverErrs(c, d);
    TableOfReact(c, d);
  }

  // ----- every step -----

  ghost predicate FollowsDiagram(cfg: Config, c: Client, a: Action)
    requires Enabled(c, a)
  {
    var c' := Step(cfg, c, a);
    match a
    case Input(cmd) => TakesPublishedEdge(c, c')
    case EndOfInput => c'.fate == Running && c'.log == c.log + Handover(c, Some(ByeRequest(c.name)))
    case Hear(d) => WellFormed(d) && |c.log| <= |c'.log| && HearFollows(c, c', d)
    // Inside a send nothing happens, except that the client may end once its BYE is out.
    case _ => (c'.fate == Running && c'.state == c.state) || (c.phase.bye && c'.fate.Exited?)
  }

  /** All the ways to leave the diagram. The last one is an exit because a message stayed unconfirmed. */
  ghost predicate Strays(c: Client, a: Action) {
    match a
    case Input(cmd) => RefusedAuth(c.state, cmd) || UncalledAuth(c, cmd)
    case Hear(d) => WellFormed(d) && StraysOn(c.state, d)
    case Decide => c.phase.Sending? && !c.phase.bye && !Settled(c.table)
    case _ => false
  }

  lemma SendFollows(cfg: Config, c: Client, a: Action)
    requires SendInv(cfg, c) && Enabled(c, a) && (a.Attempt? || a.Wake? || a.Decide?)
    ensures FollowsDiagram(cfg, c, a) <==> !Strays(c, a)
  {
    ScanMeansSettled(c.table);
  }

  lemma StepFollowsExactly(cfg: Config, c: Client, a: Action)
    requires SendInv(cfg, c) && Enabled(c, a) && Honest(c, a)
    ensures FollowsDiagram(cfg, c, a) <==> !Strays(c, a)
  {
    match a
    case Input(cmd) => InputTakesEdgeExactly(c, cmd);
    case EndOfInput =>
    case Hear(d) => HearTakesEdgeExactly(c, d);
    case _ => SendFollows(cfg, c, a);
  }

  /** In every run a step of the client follows the diagram if and only if it is none of the listed exceptions. */
  lemma RunStepFollowsExactly(cfg: Config, run: seq<Move>, w: World, a: Action)
    requires Reaches(cfg, run, w) && Possible(w, Local(a))
    ensures FollowsDiagram(cfg, w.client, a) <==> !Strays(w.client, a)
  {
    RunKeepsInv(cfg, run, w);
    if a.Hear? {
      InboundIsHonest(cfg, w, a.d);
    }
    StepFollowsExactly(cfg, w.client, a);
  }

  // ----- runs that leave the diagram -----

  // "MSG" from "a" with content "b", and a positive REPLY.
  const SOME_CHAT: Bytes := [MSG, 0, 0, 0x61, 0, 0x62, 0]
  const SOME_REPLY: Bytes := [REPLY, 0, 0, 1, 0, 0, 0x61, 0]

  lemma SamplesWellFormed()
    ensures WellFormed(SOME_CHAT) && WellFormed(SOME_REPLY)
  {
    assert SOME_CHAT[3..] == [0x61] + [0] + [0x62, 0];
    StrlenOfField([0x61], [0x62, 0]);
  }

  lemma SayAnything(cfg: Config, run: seq<Move>, w: World, d: Bytes) returns (run': seq<Move>, w': World)
    requires Reaches(cfg, run, w) && w.client.fate == Running && WellFormed(d) && d[0] != CONFIRM
    ensures Reaches(cfg, run', w') && Possible(w', Local(Hear(d))) && w'.client == w.client
  {
    run', w' := Extend(cfg, run, w, ServerSays(d));
  }

  /** The run can be continued by this step, and the step leaves the diagram. */
  ghost predicate CanStray(cfg: Config, run: seq<Move>, w: World, a: Action) {
    Reaches(cfg, run, w) && Possible(w, Local(a)) && Strays(w.client, a) && !FollowsDiagram(cfg, w.client, a)
  }

  /** A MSG in AUTH happens, and is only displayed. */
  lemma ChatInAuthHappens(cfg: Config) returns (run: seq<Move>, w: World)
    ensures CanStray(cfg, run, w, Hear(SOME_CHAT)) && w.client.state == Auth
    ensures OnHear(w.client, SOME_CHAT).fate == Running
  {
    SamplesWellFormed();
    run, w := ReadyIsReachable(cfg, 1);
    run, w := SayAnything(cfg, run, w, SOME_CHAT);
    RunStepFollowsExactly(cfg, run, w, Hear(SOME_CHAT));
    WellFormedDecodes(SOME_CHAT);
  }

  lemma WelcomeOpens(cfg: Config, run: seq<Move>, w: World)
    requires Reaches(cfg, run, w) && w.client.fate == Running && w.client.state == Auth && SOME_REPLY in w.inbound
    ensures var c' := OnHear(w.client, SOME_REPLY); c'.fate == Running && c'.state == AppState.Open
  {
    SamplesWellFormed();
    RunStepFollowsExactly(cfg, run, w, Hear(SOME_REPLY));
  }

  /** A REPLY in OPEN happens when the network delivers the positive REPLY of AUTH twice: the copy ends the client. */
  lemma ReplyInOpenHappens(cfg: Config) returns (run: seq<Move>, w: World)
    ensures CanStray(cfg, run, w, Hear(SOME_REPLY)) && w.client.state == AppState.Open
    ensures Heard(Auth, SOME_REPLY) in w.client.log
  {
    SamplesWellFormed();
    run, w := ReadyIsReachable(cfg, 1);
    run, w := SayAnything(cfg, run, w, SOME_REPLY);
    WelcomeOpens(cfg, run, w);
    assert Heard(Auth, SOME_REPLY) in OnHear(w.client, SOME_REPLY).log;
    run, w := Extend(cfg, run, w, Local(Hear(SOME_REPLY)));
    RunStepFollowsExactly(cfg, run, w, Hear(SOME_REPLY));
  }

  /** The same in any state the client is idle in: a REPLY out of range, and a type nobody knows, each end it. */
  lemma StrangeDatagramHappens(cfg: Config, n: nat, d: Bytes) returns (run: seq<Move>, w: World)
    requires d in {BAD_REPLY, STRANGE}
    ensures CanStray(cfg, run, w, Hear(d)) && w.client.state == (if n == 0 then Start else Auth)
    ensures OnHear(w.client, d).fate == Exited(1)
  {
    run, w := ReadyIsReachable(cfg, n);
    run, w := SayAnything(cfg, run, w, d);
    RunStepFollowsExactly(cfg, run, w, Hear(d));
    StrangeDatagramEnds(w.client, d);
  }

  const BAD_REPLY: Bytes := [REPLY, 0, 0, 2, 0, 0, 0x61, 0]
  const STRANGE: Bytes := [0x77, 0, 0]

  lemma StrangeDatagramEnds(c: Client, d: Bytes)
    requires d in {BAD_REPLY, STRANGE}
    ensures WellFormed(d) && OnHear(c, d).fate == Exited(1)
  {
    WellFormedDecodes(d);
  }

  /** A REPLY in START happens before anything else does, and ends the client as a failure. */
  lemma ReplyInStartHappens(cfg: Config) returns (run: seq<Move>, w: World)
    ensures CanStray(cfg, run, w, Hear(SOME_REPLY)) && w.client == InitialClient()
    ensures OnHear(w.client, SOME_REPLY).fate == Exited(1)
  {
    SamplesWellFormed();
    run, w := SayAnything(cfg, [], INITIAL_WORLD, SOME_REPLY);
    RunStepFollowsExactly(cfg, run, w, Hear(SOME_REPLY));
    WellFormedDecodes(SOME_REPLY);
  }

  /** The first AUTH of a run after n attempts that all failed. */
  ghost predicate Failing(w: World, stage: Stage, n: nat) {
    && w.client.fate == Running && w.client.state == Auth
    && w.client.phase == Sending(stage, LoginMsg(ALICE, 0), n, false)
    && w.client.table == Advance(InitialTable())
  }

  lemma {:induction false} FailingAttempts(cfg: Config, n: nat) returns (run: seq<Move>, w: World)
    requires n <= cfg.retransmissions + 1
    ensures Reaches(cfg, run, w) && Failing(w, LoopHead, n)
  {
    if n == 0 {
      LoginReaction(InitialClient(), ALICE);
      run, w := Extend(cfg, [], INITIAL_WORLD, Local(Input(Login(ALICE))));
    } else {
      run, w := FailingAttempts(cfg, n - 1);
      run, w := Extend(cfg, run, w, Local(Attempt(false)));
    }
  }

  lemma LoopGivesUp(cfg: Config, w: World)
    requires Failing(w, LoopHead, cfg.retransmissions + 1)
    ensures Possible(w, Local(Attempt(false)))
    ensures Failing(Next(cfg, w, Local(Attempt(false))), AfterLoop, cfg.retransmissions + 1)
  {
  }

  lemma FailingStrays(w: World, n: nat)
    requires Failing(w, AfterLoop, n)
    ensures Possible(w, Local(Decide)) && Strays(w.client, Decide)
  {
    EncodedId(AuthMsg(ToId(0), ALICE, ALICE, ALICE));
    assert w.client.table.slots[0] == SENTINEL;
  }

  /** An unconfirmed message ends the client in AUTH, where the diagram would have it wait. */
  lemma UnconfirmedExitHappens(cfg: Config) returns (run: seq<Move>, w: World)
    ensures CanStray(cfg, run, w, Decide) && w.client.table.index == 1 && w.client.state == Auth
  {
    run, w := FailingAttempts(cfg, cfg.retransmissions + 1);
    LoopGivesUp(cfg, w);
    run, w := Extend(cfg, run, w, Local(Attempt(false)));
    FailingStrays(w, cfg.retransmissions + 1);
    RunStepFollowsExactly(cfg, run, w, Decide);
  }
}
