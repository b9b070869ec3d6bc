/** What the invariants say about complete runs of the UDP variant. */
module UdpTheorems {
  import opened Base
  import opened ConfirmedIds
  import opened SeenIds
  import opened Validation
  import opened Commands
  import opened UdpCodec
  import opened UdpClient
  import opened UdpHistory
  import opened UdpNetwork

  // ----- delivery -----

  /** The slots that must be filled are filled, and each of them vouches for a message at the server. */
  lemma FilledSlots(cfg: Config, w: World, k: nat)
    requires WorldInv(cfg, w) && k < w.client.table.index && k < SENTINEL
    requires k < w.client.table.index - 1 || Settled(w.client.table)
    ensures k < |Emits(w.client)| && Emits(w.client)[k] in w.received
  {
    var t := w.client.table;
    CapacityGap(|t.slots|);
    assert t.slots[k] == k;
  }

  /** Stop-and-wait: every message but the one in flight has reached the server, for the first 65535 messages. */
  lemma EarlierMessagesReceived(cfg: Config, run: seq<Move>, w: World, k: nat)
    requires Reaches(cfg, run, w)
    requires k < |Emits(w.client)| && k < 65535
    requires w.client.phase.Idle? || k < |Emits(w.client)| - 1
    ensures Emits(w.client)[k] in w.received
  {
    RunKeepsInv(cfg, run, w);
    FilledSlots(cfg, w, k);
  }

  /** The call that sends message n is about to return normally. */
  ghost predicate Returning(w: World, n: nat) {
    Enabled(w.client, Decide) && OnDecide(w.client).phase.Idle? && w.client.table.index == n + 1
  }

  /** Whatever the network, the other thread and an honest server do, message n was received when its send returns. */
  ghost predicate DeliveryGuaranteed(cfg: Config, n: nat) {
    forall run, w :: Reaches(cfg, run, w) && Returning(w, n) ==> w.client.phase.msg in w.received
  }

  lemma ReturnMeansReceived(cfg: Config, w: World, n: nat)
    requires WorldInv(cfg, w) && Returning(w, n) && n < SENTINEL
    ensures w.client.phase.msg in w.received
  {
    ScanMeansSettled(w.client.table);
    FilledSlots(cfg, w, n);
  }

  // Runs that send any number of AUTH messages, each one confirmed by the server as long as that is needed.

  const ALICE: CString := [0x61]
  const BOB: CString := [0x62]

  function Login(user: CString): Command {
    AuthCmd([user, user, user])
  }

  function LoginMsg(user: CString, n: nat): Bytes {
    Encode(AuthMsg(ToId(n), user, user, user))
  }

  ghost predicate HeardFromAlice(w: World) {
    forall r :: r in w.received ==> |r| > 3 && r[3] == ALICE[0]
  }

  /** The client has heard nothing but confirmations. */
  ghost predicate OnlyConfirms(log: seq<Event>) {
    forall e :: e in log && e.Heard? ==> |e.d| > 0 && e.d[0] == CONFIRM
  }

  /** Idle after n messages, without a REPLY to any, and the server has heard from Alice only. */
  ghost predicate Ready(w: World, n: nat) {
    && w.client.fate == Running && w.client.phase.Idle? && w.client.state == (if n == 0 then Start else Auth)
    && w.client.table.index == n
    && HeardFromAlice(w) && OnlyConfirms(w.client.log)
  }

  /** Message n is on the wire once and the sender pauses. */
  ghost predicate Pausing(w: World, n: nat, user: CString) {
    && w.client.fate == Running && w.client.state == Auth
    && w.client.phase == Sending(Asleep, LoginMsg(user, n), 1, false)
    && w.client.table.index == n + 1
    && Transmitted(LoginMsg(user, n)) in w.client.log
    && HeardFromAlice(w) && OnlyConfirms(w.client.log)
  }

  lemma LoginReaction(c: Client, user: CString)
    requires c.state in {Start, Auth} && user in {ALICE, BOB}
    ensures Dispatch(false, c.state, c.name, Login(user)) == Reaction(Auth, user, Some(AuthRequest(user, user, user)))
  {
    assert Alnum(user[0]);
  }

  lemma LoginStep(cfg: Config, w: World, n: nat, user: CString)
    requires Ready(w, n) && user in {ALICE, BOB}
    ensures Possible(w, Local(Input(Login(user))))
    ensures var w1 := Next(cfg, w, Local(Input(Login(user))));
            Possible(w1, Local(Attempt(true))) && Pausing(Next(cfg, w1, Local(Attempt(true))), n, user)
  {
    LoginReaction(w.client, user);
  }

  /** Hearing the confirmation of the message in flight fills its slot and changes nothing else. */
  lemma AckSettles(c: Client, n: nat)
    requires c.fate == Running && Shape(c.table) && c.table.index == n + 1 && n < SENTINEL
    ensures var e := React(c, Encode(ConfirmMsg(n)));
            e == Unchanged(c).(table := e.table) && e.table.index == n + 1 && Settled(e.table)
  {
    var ack := Encode(ConfirmMsg(n));
    EncodedId(ConfirmMsg(n));
    WellFormedDecodes(ack);
    assert ToId(n) == n;
    RecordKeepsShape(c.table, n);
    ScanMeansSettled(c.table);
  }

  /** The server has the message of Pausing(w, n, ALICE) and may confirm it. */
  ghost predicate Served(w: World, n: nat) {
    Pausing(w, n, ALICE) && LoginMsg(ALICE, n) in w.received
  }

  lemma GetStep(cfg: Config, w: World, n: nat)
    requires Pausing(w, n, ALICE)
    ensures Possible(w, ServerGets(LoginMsg(ALICE, n)))
    ensures Served(Next(cfg, w, ServerGets(LoginMsg(ALICE, n))), n)
  {
    EncodedId(AuthMsg(ToId(n), ALICE, ALICE, ALICE));
    assert LoginMsg(ALICE, n)[3] == ALICE[0];
  }

  lemma LoginAck(n: nat)
    requires n < SENTINEL
    ensures var msg, ack := LoginMsg(ALICE, n), Encode(ConfirmMsg(n));
      |msg| >= 3 && msg[0] != CONFIRM && WellFormed(ack) && MsgId(msg) == MsgId(ack)
  {
    EncodedId(AuthMsg(n, ALICE, ALICE, ALICE));
    EncodedId(ConfirmMsg(n));
  }

  lemma SayStep(cfg: Config, w: World, msg: Bytes, ack: Bytes)
    requires msg in w.received && |msg| >= 3 && msg[0] != CONFIRM && WellFormed(ack) && MsgId(msg) == MsgId(ack)
    ensures Possible(w, ServerSays(ack)) && Next(cfg, w, ServerSays(ack)) == w.(inbound := w.inbound + {ack})
  {
  }

  lemma HearStep(cfg: Config, w: World, n: nat)
    requires Served(w, n) && n < SENTINEL && Shape(w.client.table) && Encode(ConfirmMsg(n)) in w.inbound
    ensures var ack := Local(Hear(Encode(ConfirmMsg(n))));
      Possible(w, ack) && Pausing(Next(cfg, w, ack), n, ALICE) && Settled(Next(cfg, w, ack).client.table)
  {
    AckSettles(w.client, n);
  }

  /** With the slot filled, or not waited for, the sender leaves the loop towards a normal return. */
  lemma WakeStep(cfg: Config, w: World, n: nat, user: CString)
    requires Pausing(w, n, user) && Shape(w.client.table) && Settled(w.client.table)
    ensures Possible(w, Local(Wake))
    ensures var w' := Next(cfg, w, Local(Wake));
      && Returning(w', n) && w'.client.phase == Sending(AfterLoop, LoginMsg(user, n), 1, false)
      && w'.client.state == Auth && HeardFromAlice(w') && OnlyConfirms(w'.client.log)
  {
    EncodedId(AuthMsg(ToId(n), user, user, user));
    ScanMeansSettled(w.client.table);
  }

  lemma RunLogin(cfg: Config, run: seq<Move>, w: World, n: nat, user: CString) returns (run': seq<Move>, w': World)
    requires Reaches(cfg, run, w) && Ready(w, n) && user in {ALICE, BOB}
    ensures Reaches(cfg, run', w') && Pausing(w', n, user)
  {
    LoginStep(cfg, w, n, user);
    run', w' := Extend(cfg, run, w, Local(Input(Login(user))));
    run', w' := Extend(cfg, run', w', Local(Attempt(true)));
  }

  lemma Extend(cfg: Config, run: seq<Move>, w: World, m: Move) returns (run': seq<Move>, w': World)
    requires Reaches(cfg, run, w) && Possible(w, m)
    ensures w' == Next(cfg, w, m) && Reaches(cfg, run', w')
  {
    ReachesOne(cfg, run, w, m);
    run', w' := run + [m], Next(cfg, w, m);
  }

  lemma RunAck(cfg: Config, run: seq<Move>, w: World, n: nat) returns (run': seq<Move>, w': World)
    requires Reaches(cfg, run, w) && Pausing(w, n, ALICE) && n < SENTINEL
    ensures Reaches(cfg, run', w') && Pausing(w', n, ALICE) && Settled(w'.client.table)
  {
    GetStep(cfg, w, n);
    run', w' := Extend(cfg, run, w, ServerGets(LoginMsg(ALICE, n)));
    LoginAck(n);
    SayStep(cfg, w', LoginMsg(ALICE, n), Encode(ConfirmMsg(n)));
    run', w' := Extend(cfg, run', w', ServerSays(Encode(ConfirmMsg(n))));
    RunKeepsInv(cfg, run', w');
    HearStep(cfg, w', n);
    run', w' := Extend(cfg, run', w', Local(Hear(Encode(ConfirmMsg(n)))));
  }

  lemma RunWake(cfg: Config, run: seq<Move>, w: World, n: nat, user: CString) returns (run': seq<Move>, w': World)
    requires Reaches(cfg, run, w) && Pausing(w, n, user) && Settled(w.client.table)
    ensures Reaches(cfg, run', w') && Returning(w', n)
    ensures w'.client.phase == Sending(AfterLoop, LoginMsg(user, n), 1, false)
    ensures w'.client.state == Auth && HeardFromAlice(w') && OnlyConfirms(w'.client.log)
  {
    RunKeepsInv(cfg, run, w);
    WakeStep(cfg, w, n, user);
    run', w' := Extend(cfg, run, w, Local(Wake));
  }

  lemma RunDecide(cfg: Config, run: seq<Move>, w: World, n: nat) returns (run': seq<Move>, w': World)
    requires Reaches(cfg, run, w) && Returning(w, n) && !w.client.phase.bye
    requires w.client.state == Auth && HeardFromAlice(w) && OnlyConfirms(w.client.log)
    ensures Reaches(cfg, run', w') && Ready(w', n + 1)
  {
    run', w' := Extend(cfg, run, w, Local(Decide));
  }

  /** One message more, confirmed while confirmation is needed. */
  lemma RunOneMore(cfg: Config, run: seq<Move>, w: World, n: nat) returns (run': seq<Move>, w': World)
    requires Reaches(cfg, run, w) && Ready(w, n)
    ensures Reaches(cfg, run', w') && Ready(w', n + 1)
  {
    run', w' := RunLogin(cfg, run, w, n, ALICE);
    if n < SENTINEL {
      run', w' := RunAck(cfg, run', w', n);
    }
    run', w' := RunWake(cfg, run', w', n, ALICE);
    run', w' := RunDecide(cfg, run', w', n);
  }

  /** Any number of messages can be sent: the state with n messages sent and nothing pending is reachable. */
  lemma {:induction false} ReadyIsReachable(cfg: Config, n: nat) returns (run: seq<Move>, w: World)
    ensures Reaches(cfg, run, w) && Ready(w, n)
  {
    if n == 0 {
      run, w := [], INITIAL_WORLD;
    } else {
      run, w := ReadyIsReachable(cfg, n - 1);
      run, w := RunOneMore(cfg, run, w, n - 1);
    }
  }

  /** Past the sentinel a send returns although its message was lost. */
  lemma LostYetReturned(cfg: Config, n: nat) returns (run: seq<Move>, w: World)
    requires n >= 65535
    ensures Reaches(cfg, run, w) && Returning(w, n) && w.client.phase.msg !in w.received
  {
    run, w := ReadyIsReachable(cfg, n);
    run, w := RunLogin(cfg, run, w, n, BOB);
    run, w := RunWake(cfg, run, w, n, BOB);
    assert w.client.phase.msg[3] == BOB[0];
  }

  /**
   * A normal return guarantees delivery exactly for the messages numbered 0 to 65534. From number 65535 on,
   * whose identifier is the filler of the array and after which identifiers repeat, it guarantees nothing.
   */
  lemma DeliveryExactlyBelowSentinel(cfg: Config, n: nat)
    ensures DeliveryGuaranteed(cfg, n) <==> n < 65535
  {
    if n < SENTINEL {
      forall run, w | Reaches(cfg, run, w) && Returning(w, n) ensures w.client.phase.msg in w.received {
        RunKeepsInv(cfg, run, w);
        ReturnMeansReceived(cfg, w, n);
      }
    } else {
      var run, w := LostYetReturned(cfg, n);
    }
  }

  // ----- identifiers and the confirmation array -----

  /** The k-th message of a run is a legal request under identifier k modulo 65536, and the index counts them. */
  lemma IdDiscipline(cfg: Config, run: seq<Move>, w: World)
    requires Reaches(cfg, run, w)
    ensures |Emits(w.client)| == w.client.table.index
    ensures forall k :: 0 <= k < |Emits(w.client)| ==>
      LegalEmit(k, Emits(w.client)[k]) && |Emits(w.client)[k]| >= 3 && MsgId(Emits(w.client)[k]) == ToId(k)
  {
    RunKeepsInv(cfg, run, w);
  }

  /** No run reads or writes outside the arrays, and the array keeps its shape however the threads interleave. */
  lemma ArraysStayInBounds(cfg: Config, run: seq<Move>, w: World)
    requires Reaches(cfg, run, w)
    ensures w.client.fate != Undefined && Shape(w.client.table)
    ensures var t := w.client.table;
      && (t.index <= |t.slots| <==> t.index <= 102400)
      && (|t.slots| == 100 || |t.slots| <= 2 * t.index) && |t.slots| <= 102400
      && exists k: nat :: |t.slots| == 100 * Pow2(k)
    ensures forall id: Id :: Issued(w.client.table, id) ==>
      Search(w.client.table, id) != OutOfBounds && Record(w.client.table, id).Some?
  {
    RunKeepsInv(cfg, run, w);
    IndexWithinCapacity(w.client.table, 0);
    forall id: Id | Issued(w.client.table, id)
      ensures Search(w.client.table, id) != OutOfBounds && Record(w.client.table, id).Some?
    {
      IndexWithinCapacity(w.client.table, id);
      RecordKeepsShape(w.client.table, id);
    }
  }

  // ----- what the user and the server see -----

  /** Each server identifier is displayed at most once, in the order of first arrival, and none is left out. */
  lemma DisplaysAreFirstArrivals(cfg: Config, run: seq<Move>, w: World)
    requires Reaches(cfg, run, w)
    ensures Ids(Displays, w.client.log) == FirstOccurrences(Ids(Arrivals, w.client.log))
    ensures Distinct(Ids(Displays, w.client.log)) && |Ids(Displays, w.client.log)| <= 0x1_0000
  {
    RunKeepsInv(cfg, run, w);
    RememberAllIsFirstOccurrences(Ids(Arrivals, w.client.log));
    Pigeonhole(Ids(Displays, w.client.log), 0x1_0000);
  }

  /** The CONFIRMs sent are, in order, one for each datagram that calls for one, duplicates included. */
  lemma ConfirmsAnswerArrivals(cfg: Config, run: seq<Move>, w: World)
    requires Reaches(cfg, run, w)
    ensures Ids(Confirms, w.client.log) == Ids(Owed, w.client.log)
  {
    RunKeepsInv(cfg, run, w);
  }

  lemma MulMonotone(a: nat, b: nat, t: nat)
    requires a <= b
    ensures a * t <= b * t
  {
  }

  lemma RoundBlocksBriefly(cfg: Config, r: Round)
    requires RoundInBounds(cfg, r)
    ensures PausedNanos(r.pauses) <= (cfg.retransmissions + 1) * (cfg.timeout * 1_000_000)
  {
    PauseLength(cfg, r.pauses);
    MulMonotone(|r.pauses|, cfg.retransmissions + 1, cfg.timeout * 1_000_000);
  }

  /** Each message goes out in identical copies, in at most `retransmissions` + 1 attempts, within a bounded time. */
  lemma RetriesAreBounded(cfg: Config, run: seq<Move>, w: World, k: nat)
    requires Reaches(cfg, run, w) && k < |Emits(w.client)|
    ensures |Rounds(w.client.log)| == |Emits(w.client)|
    ensures var r := Rounds(w.client.log)[k];
      && r.msg == Emits(w.client)[k] && RoundInBounds(cfg, r)
      && PausedNanos(r.pauses) <= (cfg.retransmissions + 1) * (cfg.timeout * 1_000_000)
  {
    RunKeepsInv(cfg, run, w);
    var rounds := Rounds(w.client.log);
    assert rounds[k] in rounds;
    RoundBlocksBriefly(cfg, rounds[k]);
  }

  // ----- states -----

  /** Every chat message and every JOIN comes after the positive REPLY that was handled in AUTH. */
  lemma SendsFollowWelcome(cfg: Config, run: seq<Move>, w: World, i: nat)
    requires Reaches(cfg, run, w) && i < |w.client.log| && Gated(w.client.log[i])
    ensures exists j :: 0 <= j < i && Welcomes(w.client.log[j])
  {
    RunKeepsInv(cfg, run, w);
    var before := w.client.log[..i];
    assert Admitted(before);
    var e :| e in before && Welcomes(e);
    var j :| 0 <= j < |before| && before[j] == e;
    assert Welcomes(w.client.log[j]);
  }

  function Rank(s: AppState): nat {
    match s
    case Start => 0
    case Auth => 1
    case Open => 2
    case Join => 2
  }

  lemma MoveKeepsRank(cfg: Config, w: World, m: Move)
    requires Possible(w, m)
    ensures Rank(w.client.state) <= Rank(Next(cfg, w, m).client.state)
  {
    if m.Local? {
      StepTakesOwnEdge(cfg, w.client, m.a);
    }
  }

  /** A state once left behind is never entered again: START before AUTH before OPEN and JOIN. */
  lemma {:induction false} StatesNeverGoBack(cfg: Config, run: seq<Move>, more: seq<Move>, w: World, w': World)
    requires Reaches(cfg, run, w) && Reaches(cfg, run + more, w')
    ensures Rank(w.client.state) <= Rank(w'.client.state)
  {
    if more == [] {
      assert run + more == run;
    } else {
      var v := LastMove(cfg, run + more, w');
      assert (run + more)[..|run + more| - 1] == run + more[..|more| - 1];
      StatesNeverGoBack(cfg, run, more[..|more| - 1], w, v);
      MoveKeepsRank(cfg, v, (run + more)[|run + more| - 1]);
    }
  }
}
