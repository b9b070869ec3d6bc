/**
 * The two transports side by side: user input and replies of the server drive the same automaton
 * (src/network_tcp.c, `process_tcp_reply_message`; src/state_auth.c and src/state_join.c for UDP).
 */
module Variants {
  import opened Base
  import opened Commands
  import opened TcpText
  import UdpCodec
  import UdpClient

  /** One atomic event: a command with the send it causes, or a REPLY. */
  datatype Stimulus = Typed(cmd: Command) | Replied(ok: bool)

  /** `Gone` when the process has exited. */
  datatype Peer = Alive(state: AppState, name: CString) | Gone

  const FIRST_PEER := Alive(Start, UdpClient.DEFAULT_NAME)

  // ----- TCP -----

  function TcpNext(p: Peer, s: Stimulus): Peer {
    if p.Gone? then Gone
    else
      match s
      case Typed(cmd) =>
        var r := Dispatch(true, p.state, p.name, cmd);
        Alive(r.state, r.name)
      case Replied(ok) => Alive(VerdictState(p.state, ReplyLine(ok, [])), p.name)
  }

  // ----- UDP -----

  /** The globals of an idle UDP client that has just arrived in this state. */
  function UdpView(p: Peer): UdpClient.Client
    requires p.Alive?
  {
    UdpClient.InitialClient().(state := p.state, name := p.name)
  }

  function FromUdp(state: AppState, name: CString, fate: UdpClient.Fate): Peer {
    if fate == UdpClient.Running then Alive(state, name) else Gone
  }

  function UdpNext(p: Peer, s: Stimulus): Peer {
    if p.Gone? then Gone
    else
      match s
      case Typed(cmd) =>
        var c := UdpClient.OnInput(UdpView(p), cmd);
        FromUdp(c.state, c.name, c.fate)
      case Replied(ok) =>
        var e := UdpClient.OnReply(UdpView(p), UdpCodec.ReplyMsg(0, if ok then 1 else 0, 0, []));
        FromUdp(e.state, p.name, e.fate)
  }

  /** The identifiers and the content of a REPLY, the tables and the log have no influence on the state it leads to. */
  lemma ReplyDependsOnStateOnly(c: UdpClient.Client, m: UdpCodec.Message, p: Peer)
    requires m.ReplyMsg? && m.result <= 1 && c.fate == UdpClient.Running && p == Alive(c.state, c.name)
    ensures var e := UdpClient.OnReply(c, m);
            FromUdp(e.state, c.name, e.fate) == UdpNext(p, Replied(m.result == 1))
  {
  }

  lemma InputDependsOnStateOnly(c: UdpClient.Client, cmd: Command, p: Peer)
    requires c.fate == UdpClient.Running && p == Alive(c.state, c.name)
    ensures var c' := UdpClient.OnInput(c, cmd);
            FromUdp(c'.state, c'.name, c'.fate) == UdpNext(p, Typed(cmd))
  {
  }

  // ----- agreement -----

  function TcpAfter(stimuli: seq<Stimulus>): Peer {
    if stimuli == [] then FIRST_PEER else TcpNext(TcpAfter(stimuli[..|stimuli| - 1]), stimuli[|stimuli| - 1])
  }

  function UdpAfter(stimuli: seq<Stimulus>): Peer {
    if stimuli == [] then FIRST_PEER else UdpNext(UdpAfter(stimuli[..|stimuli| - 1]), stimuli[|stimuli| - 1])
  }

  /** Every REPLY arrives while one is awaited. */
  predicate RepliesAwaited(stimuli: seq<Stimulus>) {
    forall k :: 0 <= k < |stimuli| && stimuli[k].Replied? ==>
      TcpAfter(stimuli[..k]).Alive? && TcpAfter(stimuli[..k]).state in {Auth, Join}
  }

  /** The edges a REPLY takes in the published automaton. */
  predicate ReplyEdge(from: AppState, ok: bool, to: AppState) {
    || (from == Auth && ok && to == Open)
    || (from == Auth && !ok && to == Auth)
    || (from == Join && to == Open)
  }

  lemma StepAgrees(p: Peer, s: Stimulus)
    requires p.Alive?
    ensures UdpNext(p, s) == TcpNext(p, s) <==> (s.Replied? ==> p.state in {Auth, Join})
    ensures s.Replied? && UdpNext(p, s) != TcpNext(p, s) ==> UdpNext(p, s) == Gone
    ensures s.Replied? && p.state in {Auth, Join} ==> ReplyEdge(p.state, s.ok, TcpNext(p, s).state)
    ensures TcpNext(p, s).Alive?
  {
    if s.Typed? {
      DispatchSameForBoth(p.state, p.name, s.cmd);
    }
  }

  lemma RepliesAwaitedFront(stimuli: seq<Stimulus>)
    requires stimuli != []
    ensures var n := |stimuli| - 1;
      RepliesAwaited(stimuli) <==>
        (RepliesAwaited(stimuli[..n]) &&
         (stimuli[n].Replied? ==> TcpAfter(stimuli[..n]).Alive? && TcpAfter(stimuli[..n]).state in {Auth, Join}))
  {
    var n := |stimuli| - 1;
    assert forall k :: 0 <= k <= n ==> stimuli[..n][..k] == stimuli[..k];
  }

  lemma {:induction false} AgreeOrGone(stimuli: seq<Stimulus>)
    ensures TcpAfter(stimuli).Alive?
    ensures UdpAfter(stimuli) == if RepliesAwaited(stimuli) then TcpAfter(stimuli) else Gone
  {
    if stimuli != [] {
      var n := |stimuli| - 1;
      AgreeOrGone(stimuli[..n]);
      RepliesAwaitedFront(stimuli);
      StepAgrees(TcpAfter(stimuli[..n]), stimuli[n]);
    }
  }

  /**
   * After any sequence of commands and replies both variants are in the same state with the same display
   * name exactly when no REPLY came outside AUTH and JOIN; otherwise the UDP variant has exited.
   */
  lemma VariantsAgreeExactly(stimuli: seq<Stimulus>)
    ensures UdpAfter(stimuli) == TcpAfter(stimuli) <==> RepliesAwaited(stimuli)
    ensures !RepliesAwaited(stimuli) ==> UdpAfter(stimuli) == Gone
  {
    AgreeOrGone(stimuli);
  }

  /** Where they part: a REPLY before any command ends the UDP client and leaves the TCP client in START. */
  lemma EarlyReplyParts(ok: bool)
    ensures !RepliesAwaited([Replied(ok)])
    ensures UdpAfter([Replied(ok)]) == Gone && TcpAfter([Replied(ok)]) == FIRST_PEER
  {
    var stimuli := [Replied(ok)];
    assert stimuli[..0] == [];
    assert stimuli[0].Replied?;
    VariantsAgreeExactly(stimuli);
  }
}
