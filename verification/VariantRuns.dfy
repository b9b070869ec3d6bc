/**
 * Runs of the two clients, compared: each is reduced to the commands and replies it took, and these decide its
 * state and display name. Threads, retransmissions, tables and chunks have no influence on them.
 */
module VariantRuns {
  import opened Base
  import opened Commands
  import opened Variants
  import U = UdpClient
  import UdpCodec
  import UdpHistory
  import UdpNetwork
  import UdpAnswers
  import T = TcpClient
  import TcpText
  import TcpFraming
  import TcpOutput

  // ----- UDP -----

  /** A REPLY with a legal result. */
  predicate IsReply(d: Bytes) {
    U.WellFormed(d) && d[0] == UdpCodec.REPLY && d[3] <= 1
  }

  function UdpStimulus(a: U.Action): seq<Stimulus> {
    match a
    case Input(cmd) => [Typed(cmd)]
    case Hear(d) => if IsReply(d) then [Replied(d[3] == 1)] else []
    case _ => []
  }

  /** The commands and replies of a run, in the order in which the two threads took them. */
  function UdpStimuli(run: seq<UdpNetwork.Move>): seq<Stimulus> {
    if run == [] then []
    else
      var front, m := UdpStimuli(run[..|run| - 1]), run[|run| - 1];
      front + if m.Local? then UdpStimulus(m.a) else []
  }

  /** A REPLY that came outside AUTH and JOIN. */
  predicate Unawaited(e: U.Event) {
    e.Heard? && IsReply(e.d) && e.state in {Start, Open}
  }

  ghost predicate HeardUnawaited(log: seq<U.Event>) {
    exists e :: e in log && Unawaited(e)
  }

  /** What the automaton sees of a client: other ways to exit are not its business. */
  ghost function UdpPeer(c: U.Client): Peer {
    if HeardUnawaited(c.log) then Gone else Alive(c.state, c.name)
  }

  lemma HearingUnawaited(c: U.Client, d: Bytes)
    ensures HeardUnawaited(U.OnHear(c, d).log) <==> HeardUnawaited(c.log) || Unawaited(U.Heard(c.state, d))
  {
    U.EventsOfReact(c, d);
    var heard, log' := U.Heard(c.state, d), U.OnHear(c, d).log;
    if HeardUnawaited(c.log) {
      var e :| e in c.log && Unawaited(e);
      assert e in log';
    }
    if Unawaited(heard) {
      assert heard in log';
    }
  }

  lemma MainHearsNothing(cfg: U.Config, c: U.Client, a: U.Action)
    requires U.Enabled(c, a) && !a.Hear?
    ensures HeardUnawaited(U.Step(cfg, c, a).log) <==> HeardUnawaited(c.log)
  {
    UdpHistory.StepMainLogs(cfg, c, a);
    var log' := U.Step(cfg, c, a).log;
    if HeardUnawaited(c.log) {
      var e :| e in c.log && Unawaited(e);
      assert e in log';
    }
  }

  /** A REPLY moves the client as the automaton says, and as the reply handlers do. */
  lemma ReplyMoves(c: U.Client, d: Bytes)
    requires c.fate == U.Running && !HeardUnawaited(c.log) && IsReply(d)
    ensures UdpPeer(U.OnHear(c, d)) == UdpNext(Alive(c.state, c.name), Replied(d[3] == 1))
  {
    var m := UdpCodec.ReplyMsg(UdpCodec.MsgId(d), d[3], UdpCodec.FromShort(d[4], d[5]), CStr(d[6..]));
    assert U.React(c, d) == U.OnReply(c, m);
    ReplyDependsOnStateOnly(c, m, Alive(c.state, c.name));
    HearingUnawaited(c, d);
  }

  lemma OthersDoNotMove(c: U.Client, d: Bytes)
    requires c.fate == U.Running && !IsReply(d)
    ensures UdpPeer(U.OnHear(c, d)) == UdpPeer(c)
  {
    HearingUnawaited(c, d);
    if U.WellFormed(d) {
      U.WellFormedDecodes(d);
    }
  }

  lemma MainMoves(cfg: U.Config, c: U.Client, a: U.Action)
    requires U.Enabled(c, a) && !a.Hear? && !HeardUnawaited(c.log)
    ensures UdpPeer(U.Step(cfg, c, a)) ==
      if a.Input? then UdpNext(Alive(c.state, c.name), Typed(a.cmd)) else Alive(c.state, c.name)
  {
    MainHearsNothing(cfg, c, a);
    if a.Input? {
      InputDependsOnStateOnly(c, a.cmd, Alive(c.state, c.name));
    }
  }

  lemma UdpAfterOne(stimuli: seq<Stimulus>, s: Stimulus)
    ensures UdpAfter(stimuli + [s]) == UdpNext(UdpAfter(stimuli), s)
  {
    assert (stimuli + [s])[..|stimuli|] == stimuli;
  }

  lemma StepMoves(cfg: U.Config, c: U.Client, a: U.Action, stimuli: seq<Stimulus>)
    requires U.Enabled(c, a) && !HeardUnawaited(c.log) && UdpAfter(stimuli) == UdpPeer(c)
    ensures UdpAfter(stimuli + UdpStimulus(a)) == UdpPeer(U.Step(cfg, c, a))
  {
    if UdpStimulus(a) == [] {
      assert stimuli + [] == stimuli;
    } else {
      UdpAfterOne(stimuli, UdpStimulus(a)[0]);
    }
    if a.Hear? {
      if IsReply(a.d) {
        ReplyMoves(c, a.d);
      } else {
        OthersDoNotMove(c, a.d);
      }
    } else {
      MainMoves(cfg, c, a);
    }
  }

  /** A client that still runs has not heard a REPLY out of place. */
  lemma RunningHeardNone(cfg: U.Config, c: U.Client)
    requires UdpAnswers.FateExplained(cfg, c) && c.fate == U.Running
    ensures !HeardUnawaited(c.log)
  {
    forall e | e in c.log ensures !Unawaited(e) {
      assert e.Heard? ==> UdpAnswers.EndsWith(e, U.Running);
    }
  }

  /** State, name and end of every run of the two threads are those the automaton computes from its commands and replies. */
  lemma {:induction false} UdpRunIsAutomaton(cfg: U.Config, run: seq<UdpNetwork.Move>, w: UdpNetwork.World)
    requires UdpNetwork.Reaches(cfg, run, w)
    ensures UdpAfter(UdpStimuli(run)) == UdpPeer(w.client)
  {
    if run != [] {
      var v := UdpNetwork.LastMove(cfg, run, w);
      var front, m := run[..|run| - 1], run[|run| - 1];
      UdpRunIsAutomaton(cfg, front, v);
      if m.Local? {
        UdpAnswers.RunKeepsAnswers(cfg, front, v);
        RunningHeardNone(cfg, v.client);
        StepMoves(cfg, v.client, m.a, UdpStimuli(front));
      } else {
        assert UdpStimuli(front) + [] == UdpStimuli(front);
      }
    }
  }

  /** In a run of the two threads the variants agree exactly while no REPLY came outside AUTH and JOIN. */
  lemma UdpRunAgreesExactly(cfg: U.Config, run: seq<UdpNetwork.Move>, w: UdpNetwork.World)
    requires UdpNetwork.Reaches(cfg, run, w)
    ensures UdpPeer(w.client) == TcpAfter(UdpStimuli(run)) <==> !HeardUnawaited(w.client.log)
    ensures w.client.fate == U.Running ==> TcpAfter(UdpStimuli(run)) == Alive(w.client.state, w.client.name)
    ensures HeardUnawaited(w.client.log) ==> w.client.fate != U.Running
  {
    UdpRunIsAutomaton(cfg, run, w);
    AgreeOrGone(UdpStimuli(run));
    UdpAnswers.RunKeepsAnswers(cfg, run, w);
    if w.client.fate == U.Running {
      RunningHeardNone(cfg, w.client);
    }
  }

  // ----- TCP -----

  /** A command, or a line that is a REPLY. */
  function TcpStimulus(e: T.Event): seq<Stimulus> {
    match e
    case Typed(cmd) => [Stimulus.Typed(cmd)]
    case Sent(_) => []
    case Line(_, line) =>
      var v := TcpText.ProcessLine(line);
      if v.ReplyLine? then [Replied(v.ok)] else []
  }

  /** The commands and replies of a TCP run, read from its log. */
  function TcpStimuli(log: seq<T.Event>): seq<Stimulus> {
    if log == [] then [] else TcpStimuli(log[..|log| - 1]) + TcpStimulus(log[|log| - 1])
  }

  lemma TcpStimuliOne(log: seq<T.Event>, e: T.Event)
    ensures TcpStimuli(log + [e]) == TcpStimuli(log) + TcpStimulus(e)
  {
    assert (log + [e])[..|log|] == log;
  }

  /** The automaton after one more event of the log. */
  lemma TcpAfterEvent(log: seq<T.Event>, e: T.Event)
    ensures TcpAfter(TcpStimuli(log + [e])) ==
      if TcpStimulus(e) == [] then TcpAfter(TcpStimuli(log)) else TcpNext(TcpAfter(TcpStimuli(log)), TcpStimulus(e)[0])
  {
    TcpStimuliOne(log, e);
    var before := TcpStimuli(log);
    if TcpStimulus(e) == [] {
      assert before + [] == before;
    } else {
      assert TcpStimulus(e) == [TcpStimulus(e)[0]];
      assert (before + TcpStimulus(e))[..|before|] == before;
    }
  }

  lemma LineMoves(log: seq<T.Event>, state: AppState, name: CString, e: T.Event)
    requires e.Line? && TcpAfter(TcpStimuli(log)) == Alive(state, name)
    ensures TcpAfter(TcpStimuli(log + [e])) == Alive(TcpText.LineState(state, e.line), name)
  {
    TcpAfterEvent(log, e);
  }

  lemma LastEvent(log: seq<T.Event>, state: AppState, lines: seq<Bytes>)
    requires lines != []
    ensures var front := lines[..|lines| - 1];
      log + T.LineEvents(state, lines) ==
        log + T.LineEvents(state, front) + [T.Line(TcpText.StateAfter(state, front), lines[|lines| - 1])]
  {
  }

  lemma {:induction false} LinesMove(log: seq<T.Event>, state: AppState, name: CString, lines: seq<Bytes>)
    requires TcpAfter(TcpStimuli(log)) == Alive(state, name)
    ensures TcpAfter(TcpStimuli(log + T.LineEvents(state, lines))) == Alive(TcpText.StateAfter(state, lines), name)
  {
    if lines == [] {
      assert log + [] == log;
    } else {
      var front, last := lines[..|lines| - 1], lines[|lines| - 1];
      var state' := TcpText.StateAfter(state, front);
      LinesMove(log, state, name, front);
      LastEvent(log, state, lines);
      LineMoves(log + T.LineEvents(state, front), state', name, T.Line(state', last));
    }
  }

  lemma TypingMoves(c: T.Client, cmd: Command)
    requires TcpAfter(TcpStimuli(c.log)) == Alive(c.state, c.name)
    ensures var c' := T.OnInput(c, cmd); TcpAfter(TcpStimuli(c'.log)) == Alive(c'.state, c'.name)
  {
    var emit := Dispatch(true, c.state, c.name, cmd).emit;
    TcpAfterEvent(c.log, T.Typed(cmd));
    if emit.Some? {
      TcpAfterEvent(c.log + [T.Typed(cmd)], T.Sent(emit.value));
    } else {
      assert c.log + [T.Typed(cmd)] + [] == c.log + [T.Typed(cmd)];
    }
  }

  /** State and name after every run of the TCP client are those the automaton computes from its commands and reply lines. */
  lemma {:induction false} TcpRunIsAutomaton(run: seq<T.Action>, c: T.Client)
    requires T.Reaches(U.DEFAULT_NAME, run, c)
    ensures TcpAfter(TcpStimuli(c.log)) == Alive(c.state, c.name)
  {
    if run != [] {
      var v := T.LastAction(U.DEFAULT_NAME, run, c);
      TcpRunIsAutomaton(run[..|run| - 1], v);
      match run[|run| - 1]
      case Input(cmd) => TypingMoves(v, cmd);
      case EndOfInput => TcpAfterEvent(v.log, T.Sent(ByeRequest(v.name)));
      case Receive(chunk) =>
        T.AbsorbExtends(TcpOutput.EndsProcess, v.stream, CStr(chunk));
        var st := TcpFraming.Absorb(TcpOutput.EndsProcess, v.stream, CStr(chunk));
        LinesMove(v.log, v.state, v.name, T.NewLines(v.stream, st));
    }
  }

  // ----- both -----

  /**
   * A run of the UDP client and a run of the TCP client that took the same commands and replies, in the same order,
   * are in the same state under the same name, as long as the UDP client runs.
   */
  lemma RunsOfBothAgree(cfg: U.Config, run: seq<UdpNetwork.Move>, w: UdpNetwork.World, tcpRun: seq<T.Action>, c: T.Client)
    requires UdpNetwork.Reaches(cfg, run, w) && T.Reaches(U.DEFAULT_NAME, tcpRun, c)
    requires UdpStimuli(run) == TcpStimuli(c.log)
    ensures !HeardUnawaited(w.client.log) <==> UdpPeer(w.client) == Alive(c.state, c.name)
    ensures w.client.fate == U.Running ==> w.client.state == c.state && w.client.name == c.name
  {
    UdpRunAgreesExactly(cfg, run, w);
    TcpRunIsAutomaton(tcpRun, c);
  }
}
