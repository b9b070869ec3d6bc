/**
 * The UDP client on a network that loses, duplicates, delays and reorders datagrams, facing a server
 * that confirms only what it received. A run interleaves steps of the main thread, of the listener and
 * of the server in any order. Anything ever put on the network may arrive any number of times, or never.
 */
module UdpNetwork {
  import opened Base
  import opened ConfirmedIds
  import opened UdpCodec
  import opened UdpClient
  import opened UdpHistory

  /** `received`: what reached the server. `inbound`: what the server ever sent. */
  datatype World = World(client: Client, received: set<Bytes>, inbound: set<Bytes>)

  datatype Move = Local(a: Action) | ServerGets(d: Bytes) | ServerSays(d: Bytes)

  const INITIAL_WORLD := World(InitialClient(), {}, {})

  /** The client put this datagram on the network at some point. */
  ghost predicate OnWire(log: seq<Event>, d: Bytes) {
    Transmitted(d) in log || exists id: Id :: ConfirmSent(id) in log && d == Encode(ConfirmMsg(id))
  }

  /** The server may confirm an identifier once it received a message carrying it. */
  ghost predicate Acknowledges(received: set<Bytes>, d: Bytes)
    requires |d| >= 3
  {
    exists r :: r in received && |r| >= 3 && r[0] != CONFIRM && MsgId(r) == MsgId(d)
  }

  ghost predicate Possible(w: World, m: Move) {
    match m
    case Local(a) => Enabled(w.client, a) && (a.Hear? ==> a.d in w.inbound)
    case ServerGets(d) => OnWire(w.client.log, d)
    case ServerSays(d) => WellFormed(d) && (d[0] == CONFIRM ==> Acknowledges(w.received, d))
  }

  ghost function Next(cfg: Config, w: World, m: Move): World
    requires Possible(w, m)
  {
    match m
    case Local(a) => w.(client := Step(cfg, w.client, a))
    case ServerGets(d) => w.(received := w.received + {d})
    case ServerSays(d) => w.(inbound := w.inbound + {d})
  }

  /** Where a run leads; `None` if some move of it is not possible. */
  ghost function After(cfg: Config, run: seq<Move>): Option<World> {
    if run == [] then Some(INITIAL_WORLD)
    else
      match After(cfg, run[..|run| - 1])
      case Some(w) => if Possible(w, run[|run| - 1]) then Some(Next(cfg, w, run[|run| - 1])) else None
      case None => None
  }

  ghost predicate Reaches(cfg: Config, run: seq<Move>, w: World) {
    After(cfg, run) == Some(w)
  }

  lemma ReachesOne(cfg: Config, run: seq<Move>, w: World, m: Move)
    requires Reaches(cfg, run, w) && Possible(w, m)
    ensures Reaches(cfg, run + [m], Next(cfg, w, m))
  {
    assert (run + [m])[..|run|] == run;
  }

  lemma LastMove(cfg: Config, run: seq<Move>, w: World) returns (v: World)
    requires Reaches(cfg, run, w) && run != []
    ensures var m := run[|run| - 1]; Reaches(cfg, run[..|run| - 1], v) && Possible(v, m) && w == Next(cfg, v, m)
  {
    v := After(cfg, run[..|run| - 1]).value;
  }

  // ----- the invariant across client, network and server -----

  ghost predicate CopiesEmitted(c: Client) {
    forall d :: Transmitted(d) in c.log ==> d in Emits(c)
  }

  ghost predicate ReceivedEmitted(w: World) {
    forall r :: r in w.received ==> |r| >= 3 && (r[0] != CONFIRM ==> r in Emits(w.client))
  }

  ghost predicate InboundHonest(w: World) {
    forall d :: d in w.inbound ==> WellFormed(d) && (d[0] == CONFIRM ==> Acknowledges(w.received, d))
  }

  /** A filled slot is a proof of reception, for every identifier but the sentinel. */
  ghost predicate FilledMeansReceived(w: World) {
    var t := w.client.table;
    forall k :: 0 <= k < t.index && k < SENTINEL && k < |t.slots| && k < |Emits(w.client)| && t.slots[k] == k ==>
      Emits(w.client)[k] in w.received
  }

  ghost predicate WorldInv(cfg: Config, w: World) {
    && SendInv(cfg, w.client)
    && CopiesEmitted(w.client)
    && ReceivedEmitted(w)
    && InboundHonest(w)
    && FilledMeansReceived(w)
  }

  /** The emitted datagrams only grow, by one at a time. */
  lemma EmitsGrow(cfg: Config, c: Client, a: Action)
    requires Enabled(c, a)
    ensures Emits(c) <= Emits(Step(cfg, c, a))
  {
    match a
    case Hear(d) =>
      HearEmitsNothing(c, d);
    case _ =>
      forall e: Event ensures Emits(c) <= EmitsIn(c.log + [e]) {
        EmitsOne(c.log, e);
      }
  }

  lemma StepKeepsCopiesEmitted(cfg: Config, c: Client, a: Action)
    requires SendInv(cfg, c) && CopiesEmitted(c) && Enabled(c, a)
    ensures CopiesEmitted(Step(cfg, c, a))
  {
    EmitsGrow(cfg, c, a);
    var c' := Step(cfg, c, a);
    match a
    case Hear(d) =>
      EventsOfReact(c, d);
      forall x | Transmitted(x) in c'.log ensures Transmitted(x) in c.log {
        assert Transmitted(x) !in [Heard(c.state, d)];
      }
    case _ =>
      forall x | Transmitted(x) in c'.log ensures x in Emits(c') {
      }
  }

  /** A confirmation the server may send is for an identifier the client issued. */
  lemma InboundIsHonest(cfg: Config, w: World, d: Bytes)
    requires WorldInv(cfg, w) && d in w.inbound
    ensures Honest(w.client, Hear(d))
  {
    if d[0] == CONFIRM {
      var r :| r in w.received && |r| >= 3 && r[0] != CONFIRM && MsgId(r) == MsgId(d);
      assert r in Emits(w.client);
      var k :| 0 <= k < |Emits(w.client)| && Emits(w.client)[k] == r;
      assert ToId(k) == MsgId(d);
    }
  }

  /** If a confirmation fills a slot, the server holds the datagram the slot stands for. */
  lemma RecordedWasReceived(w: World, d: Bytes)
    requires EmitsNumbered(w.client) && ReceivedEmitted(w) && |d| >= 3 && Acknowledges(w.received, d)
    requires w.client.table.index <= SENTINEL && MsgId(d) == w.client.table.index - 1
    ensures Emits(w.client)[w.client.table.index - 1] in w.received
  {
    var emits := Emits(w.client);
    var r :| r in w.received && |r| >= 3 && r[0] != CONFIRM && MsgId(r) == MsgId(d);
    var k :| 0 <= k < |emits| && emits[k] == r;
    assert MsgId(emits[k]) == ToId(k);
  }

  /** Only the last slot can be filled anew, and then its message is at the server. */
  lemma TableKeepsFilled(w: World, c': Client)
    requires FilledMeansReceived(w) && Shape(w.client.table) && Emits(c') == Emits(w.client)
    requires c'.table.index == w.client.table.index == |Emits(c')|
    requires c'.table == w.client.table || (|Emits(c')| > 0 && Emits(c')[|Emits(c')| - 1] in w.received)
    ensures FilledMeansReceived(w.(client := c'))
  {
    var t, t' := w.client.table, c'.table;
    CapacityGap(|t.slots|);
    forall k | 0 <= k < t'.index && k < SENTINEL && k < |t'.slots| && t'.slots[k] == k ensures Emits(c')[k] in w.received {
      if k < t.index - 1 {
        assert t.slots[k] == k;
      }
    }
  }

  lemma HearKeepsFilled(cfg: Config, w: World, d: Bytes)
    requires WorldInv(cfg, w) && d in w.inbound && Enabled(w.client, Hear(d))
    ensures FilledMeansReceived(w.(client := OnHear(w.client, d)))
  {
    var c := w.client;
    InboundIsHonest(cfg, w, d);
    HearEmitsNothing(c, d);
    TableOfReact(c, d);
    if d[0] == CONFIRM {
      RecordKeepsShape(c.table, MsgId(d));
      if Record(c.table, MsgId(d)).value != c.table {
        RecordedWasReceived(w, d);
      }
    }
    TableKeepsFilled(w, OnHear(c, d));
  }

  lemma BeginKeepsFilled(w: World, c': Client)
    requires FilledMeansReceived(w) && Shape(w.client.table)
    requires Emits(w.client) <= Emits(c') && |Emits(w.client)| == w.client.table.index
    requires c'.table == w.client.table || c'.table == Advance(w.client.table)
    ensures FilledMeansReceived(w.(client := c'))
  {
    var t := w.client.table;
    forall k | 0 <= k < c'.table.index && k < SENTINEL && k < |t.slots| && k < |Emits(c')| && t.slots[k] == k
      ensures Emits(c')[k] in w.received
    {
      assert k < t.index;
      assert Emits(c')[k] == Emits(w.client)[k];
    }
  }

  lemma LocalKeepsWorldInv(cfg: Config, w: World, a: Action)
    requires WorldInv(cfg, w) && Possible(w, Local(a))
    ensures WorldInv(cfg, Next(cfg, w, Local(a)))
  {
    var c' := Step(cfg, w.client, a);
    if a.Hear? {
      InboundIsHonest(cfg, w, a.d);
      HearKeepsFilled(cfg, w, a.d);
    }
    StepKeepsSendInv(cfg, w.client, a);
    StepKeepsCopiesEmitted(cfg, w.client, a);
    EmitsGrow(cfg, w.client, a);
    if !a.Hear? {
      BeginKeepsFilled(w, c');
    }
  }

  lemma ServerKeepsWorldInv(cfg: Config, w: World, m: Move)
    requires WorldInv(cfg, w) && Possible(w, m) && !m.Local?
    ensures WorldInv(cfg, Next(cfg, w, m))
  {
    if m.ServerGets? {
      var w' := Next(cfg, w, m);
      forall d | d in w.inbound && d[0] == CONFIRM ensures Acknowledges(w'.received, d) {
        var r :| r in w.received && |r| >= 3 && r[0] != CONFIRM && MsgId(r) == MsgId(d);
        assert r in w'.received;
      }
      if m.d[0] != CONFIRM {
        assert Transmitted(m.d) in w.client.log;
      }
    }
  }

  /** What the log of the client says, with the legality of everything it sends. */
  ghost predicate HistoryInv(cfg: Config, c: Client) {
    LogInv(cfg, c) && EmitsLegal(c)
  }

  lemma StepKeepsHistoryInv(cfg: Config, c: Client, a: Action)
    requires HistoryInv(cfg, c) && Enabled(c, a) && EmitsNumbered(Step(cfg, c, a))
    ensures HistoryInv(cfg, Step(cfg, c, a))
  {
    StepKeepsLogInv(cfg, c, a);
    StepKeepsLegal(cfg, c, a);
  }

  lemma MoveKeepsInv(cfg: Config, w: World, m: Move)
    requires WorldInv(cfg, w) && HistoryInv(cfg, w.client) && Possible(w, m)
    ensures WorldInv(cfg, Next(cfg, w, m)) && HistoryInv(cfg, Next(cfg, w, m).client)
  {
    match m
    case Local(a) =>
      LocalKeepsWorldInv(cfg, w, a);
      StepKeepsHistoryInv(cfg, w.client, a);
    case _ =>
      ServerKeepsWorldInv(cfg, w, m);
  }

  /** Both invariants hold after every run. */
  lemma {:induction false} RunKeepsInv(cfg: Config, run: seq<Move>, w: World)
    requires Reaches(cfg, run, w)
    ensures WorldInv(cfg, w) && HistoryInv(cfg, w.client)
  {
    if run == [] {
      InitialSendInv(cfg);
    } else {
      var v := LastMove(cfg, run, w);
      RunKeepsInv(cfg, run[..|run| - 1], v);
      MoveKeepsInv(cfg, v, run[|run| - 1]);
    }
  }
}
