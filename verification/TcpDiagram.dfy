/** The TCP client against the published automaton: which inputs and which lines take one of its edges. */
module TcpDiagram {
  import opened Base
  import opened Commands
  import opened Diagram
  import opened TcpText
  import opened TcpFraming
  import opened TcpOutput
  import opened TcpClient

  // ----- user input -----

  /** The negative REPLY that the edge from AUTH to AUTH waits for. */
  predicate Refuses(e: Event) {
    e.Line? && e.state == Auth && ProcessLine(e.line).ReplyLine? && !ProcessLine(e.line).ok
  }

  /** A negative REPLY was handled in AUTH, and no AUTH has been sent since. */
  ghost predicate RefusalPending(log: seq<Event>) {
    exists j :: 0 <= j < |log| && Refuses(log[j]) &&
      forall k :: j < k < |log| ==> !(log[k].Sent? && log[k].request.AuthRequest?)
  }

  ghost predicate Triggered(trigger: Trigger, log: seq<Event>) {
    trigger == Refusal ==> RefusalPending(log)
  }

  /** The step takes a published edge that is due: with its states, its output, and what it waits for. */
  ghost predicate TakesPublishedEdge(c: Client, cmd: Command, c': Client) {
    exists trigger, emit :: Triggered(trigger, c.log) && PublishedEdge(c.state, trigger, emit, c'.state) &&
      c'.log == c.log + [Typed(cmd)] + Sends(emit)
  }

  ghost predicate UncalledAuth(c: Client, cmd: Command) {
    c.state == Auth && cmd.AuthCmd? && Accepted(cmd.args) && !RefusalPending(c.log)
  }

  lemma SameSends(log: seq<Event>, a: Option<Request>, b: Option<Request>)
    requires log + Sends(a) == log + Sends(b)
    ensures a == b
  {
    assert Sends(a) == (log + Sends(a))[|log|..];
    assert Sends(b) == (log + Sends(b))[|log|..];
    if a.Some? {
      assert Sends(a)[0] == Sends(b)[0];
    }
  }

  /** As in the UDP variant, the inputs off the diagram are a refused /auth in START and an /auth in AUTH nobody refused. */
  lemma InputTakesEdgeExactly(c: Client, cmd: Command)
    ensures TakesPublishedEdge(c, cmd, OnInput(c, cmd)) <==> !RefusedAuth(c.state, cmd) && !UncalledAuth(c, cmd)
  {
    var c', r := OnInput(c, cmd), Dispatch(true, c.state, c.name, cmd);
    assert Triggered(Spontaneous, c.log);
    assert Triggered(Refusal, c.log) <==> RefusalPending(c.log);
    if TakesPublishedEdge(c, cmd, c') {
      var trigger, emit :| Triggered(trigger, c.log) && PublishedEdge(c.state, trigger, emit, c'.state) &&
        c'.log == c.log + [Typed(cmd)] + Sends(emit);
      SameSends(c.log + [Typed(cmd)], emit, r.emit);
    }
    if PublishedEdge(c.state, Spontaneous, r.emit, r.state) {
    } else if RefusalPending(c.log) && PublishedEdge(c.state, Refusal, r.emit, r.state) {
    }
  }

  // ----- lines -----

  function KindOf(line: Bytes): Kind {
    match ProcessLine(line)
    case ReplyLine(ok, _) => if ok then PositiveReply else NegativeReply
    case Chat(_, _) => ChatMessage
    case Fatal(_, _) => ErrorMessage
    case Goodbye => ByeMessage
    case _ => Unlisted
  }

  /** The client goes where the diagram goes; the only ERR it ever sends is the one for an unknown line. */
  predicate LineFollows(state: AppState, line: Bytes) {
    Arrives(state, LineState(state, line), EndsProcess(line), ProcessLine(line).Unknown?, Published(state, KindOf(line)))
  }

  /** A REPLY in OPEN, which is ignored; a MSG in AUTH, which is displayed; an unknown line, which ends the client. */
  predicate StraysOn(state: AppState, line: Bytes) {
    var v := ProcessLine(line);
    (v.ReplyLine? && state == AppState.Open) || (v.Chat? && state == Auth) || v.Unknown?
  }

  lemma LineFollowsExactly(state: AppState, line: Bytes)
    ensures LineFollows(state, line) <==> !StraysOn(state, line)
  {
  }

  /** The step of a chunk follows the diagram if every line it completes does, in the state it finds. */
  ghost predicate ChunkFollows(c: Client, c': Client)
    requires |c.log| <= |c'.log|
  {
    forall i :: |c.log| <= i < |c'.log| && c'.log[i].Line? ==> LineFollows(c'.log[i].state, c'.log[i].line)
  }

  /** A chunk takes edges of the diagram exactly when none of its lines is one of the listed ones. */
  lemma ReceiveTakesEdgesExactly(c: Client, chunk: Bytes)
    ensures var c' := OnReceive(c, chunk);
      && |c.log| <= |c'.log|
      && (ChunkFollows(c, c') <==>
        forall i :: |c.log| <= i < |c'.log| && c'.log[i].Line? ==> !StraysOn(c'.log[i].state, c'.log[i].line))
  {
    var c' := OnReceive(c, chunk);
    forall i | |c.log| <= i < |c'.log| && c'.log[i].Line?
      ensures LineFollows(c'.log[i].state, c'.log[i].line) <==> !StraysOn(c'.log[i].state, c'.log[i].line)
    {
      LineFollowsExactly(c'.log[i].state, c'.log[i].line);
    }
  }

  lemma AbsorbOneLine(st: Stream, line: Bytes)
    requires st.Open? && st.carry == [] && !HasCrlf(line)
    ensures Absorb(EndsProcess, st, line + CRLF) == TakeLine(EndsProcess, st, line)
  {
    var chunk := line + CRLF;
    assert chunk + [] == chunk;
    FindAtEnd(line, []);
    assert chunk[..|line|] == line && chunk[|line| + 2..] == [];
    FindAbsent([], CRLF);
    var st' := TakeLine(EndsProcess, st, line);
    assert st'.Open? ==> st'.carry + [] == [];
    assert Absorb(EndsProcess, st', []) == st';
  }

  lemma OneLineEvent(state: AppState, line: Bytes)
    ensures LineEvents(state, [line]) == [Line(state, line)] && StateAfter(state, [line]) == LineState(state, line)
  {
    assert [line][..0] == [];
    assert StateAfter(state, []) == state && LineEvents(state, []) == [];
  }

  lemma HandleOneLine(c: Client, line: Bytes)
    requires c.stream.Open? && c.stream.carry == []
    ensures |c.stream.handled| <= |TakeLine(EndsProcess, c.stream, line).handled|
    ensures var c' := Handle(c, TakeLine(EndsProcess, c.stream, line));
      && c'.log == c.log + [Line(c.state, line)] && c'.state == LineState(c.state, line) && c'.name == c.name
      && c'.quit == c.quit && c'.stream.Ended? == EndsProcess(line) && (c'.stream.Open? ==> c'.stream.carry == [])
      && c'.shown == c.shown + Displayed([line])
  {
    var st := TakeLine(EndsProcess, c.stream, line);
    assert [] + line == line;
    assert NewLines(c.stream, st) == [line];
    OneLineEvent(c.state, line);
  }

  /** A whole line in one chunk, to a client that carries nothing over. */
  lemma ReceiveLine(c: Client, line: CString)
    requires c.stream.Open? && c.stream.carry == [] && !HasCrlf(line)
    ensures var c' := OnReceive(c, line + CRLF);
      && c'.log == c.log + [Line(c.state, line)] && c'.state == LineState(c.state, line) && c'.name == c.name
      && c'.quit == c.quit && c'.stream.Ended? == EndsProcess(line) && (c'.stream.Open? ==> c'.stream.carry == [])
      && c'.shown == c.shown + Displayed([line])
  {
    NoNul(line + CRLF);
    AbsorbOneLine(c.stream, line);
    HandleOneLine(c, line);
  }

  // ----- runs that leave the diagram -----

  const SOME_NAME: CString := [0x61]

  lemma SampleChat()
    ensures var chat := Body(SayRequest(SOME_NAME, SOME_NAME));
      !HasCrlf(chat) && ProcessLine(chat) == Chat(SOME_NAME, SOME_NAME)
  {
    BodyFacts(SayRequest(SOME_NAME, SOME_NAME));
    ValidNamesRoundTrip(SOME_NAME, SOME_NAME);
  }

  lemma SampleReply()
    ensures var reply := ReplyText(true, SOME_NAME);
      NulFree(reply) && !HasCrlf(reply) && ProcessLine(reply) == ReplyLine(true, SOME_NAME)
  {
    ReplyRoundTrip(true, SOME_NAME);
    PlainJoin(REPLY_WORD, OK);
    PlainJoin(REPLY_WORD + OK, IS_MARK);
    PlainJoin(REPLY_WORD + OK + IS_MARK, SOME_NAME);
  }

  ghost predicate Plain(s: Bytes) {
    NulFree(s) && NoCr(s)
  }

  lemma PlainJoin(a: Bytes, b: Bytes)
    requires Plain(a) && Plain(b)
    ensures Plain(a + b)
  {
  }

  lemma Continue(name: CString, run: seq<Action>, c: Client, a: Action)
    requires Reaches(name, run, c) && Running(c)
    ensures Reaches(name, run + [a], Step(c, a))
  {
    assert (run + [a])[..|run|] == run;
  }

  /** Nothing is carried over, and the client listens. */
  ghost predicate Listening(name: CString, run: seq<Action>, c: Client, state: AppState) {
    Reaches(name, run, c) && Running(c) && c.stream.carry == [] && c.state == state
  }

  const LOGIN := AuthCmd([SOME_NAME, SOME_NAME, SOME_NAME])

  /** A client in AUTH, with the AUTH sent and nothing heard. */
  lemma LoggingIn(name: CString) returns (run: seq<Action>, c: Client)
    ensures Listening(name, run, c, Auth) && forall e :: e in c.log ==> !e.Line?
  {
    var cmd := LOGIN;
    assert Reaches(name, [], InitialClient(name));
    Continue(name, [], InitialClient(name), Input(cmd));
    run, c := [Input(cmd)], OnInput(InitialClient(name), cmd);
    assert [] + [Input(cmd)] == run;
    DispatchTakesEffect(true, Start, name, cmd);
  }

  lemma HearLine(name: CString, run: seq<Action>, c: Client, state: AppState, line: CString)
    returns (run': seq<Action>, c': Client)
    requires Listening(name, run, c, state) && !HasCrlf(line)
    ensures Reaches(name, run', c') && c' == OnReceive(c, line + CRLF) && c'.state == LineState(state, line)
    ensures !EndsProcess(line) ==> Listening(name, run', c', LineState(state, line))
    ensures EndsProcess(line) ==> !Running(c')
    ensures |c.log| <= |c'.log| && (ChunkFollows(c, c') <==> !StraysOn(state, line))
  {
    ReceiveLine(c, line);
    Continue(name, run, c, Receive(line + CRLF));
    run', c' := run + [Receive(line + CRLF)], OnReceive(c, line + CRLF);
    LineFollowsExactly(state, line);
    assert c'.log[|c.log|] == Line(state, line);
  }

  /** Both exceptions among the inputs: a first /auth without parameters, and a second /auth with the first unanswered. */
  lemma InputExceptionsHappen(name: CString) returns (run: seq<Action>, c: Client)
    ensures !TakesPublishedEdge(InitialClient(name), AuthCmd([]), OnInput(InitialClient(name), AuthCmd([])))
    ensures Listening(name, run, c, Auth) && !TakesPublishedEdge(c, LOGIN, OnInput(c, LOGIN))
  {
    InputTakesEdgeExactly(InitialClient(name), AuthCmd([]));
    run, c := LoggingIn(name);
    forall j | 0 <= j < |c.log| ensures !Refuses(c.log[j]) {
      assert c.log[j] in c.log;
    }
    assert Clip(SOME_NAME, 1) == SOME_NAME;
    InputTakesEdgeExactly(c, LOGIN);
  }

  /** A MSG in AUTH is displayed, and the client stays. */
  lemma ChatInAuthHappens(name: CString) returns (run: seq<Action>, c: Client, c': Client)
    ensures Listening(name, run, c, Auth) && |c.log| <= |c'.log|
    ensures c' == OnReceive(c, Body(SayRequest(SOME_NAME, SOME_NAME)) + CRLF) && Running(c') && !ChunkFollows(c, c')
  {
    SampleChat();
    run, c := LoggingIn(name);
    var run';
    run', c' := HearLine(name, run, c, Auth, Body(SayRequest(SOME_NAME, SOME_NAME)));
  }

  /** A second positive REPLY, in OPEN, is ignored. */
  lemma ReplyInOpenHappens(name: CString) returns (run: seq<Action>, c: Client, c': Client)
    ensures Listening(name, run, c, AppState.Open) && |c.log| <= |c'.log|
    ensures NulFree(ReplyText(true, SOME_NAME))
    ensures c' == OnReceive(c, ReplyText(true, SOME_NAME) + CRLF) && Running(c') && !ChunkFollows(c, c')
  {
    SampleReply();
    run, c := LoggingIn(name);
    run, c := HearLine(name, run, c, Auth, ReplyText(true, SOME_NAME));
    var run';
    run', c' := HearLine(name, run, c, AppState.Open, ReplyText(true, SOME_NAME));
  }

  /** A line of no known type ends the client in its first state. */
  lemma UnknownLineHappens(name: CString) returns (run: seq<Action>, c': Client)
    ensures Reaches(name, run, c') && !Running(c') && c' == OnReceive(InitialClient(name), SOME_NAME + CRLF)
    ensures |InitialClient(name).log| <= |c'.log| && !ChunkFollows(InitialClient(name), c')
  {
    assert Listening(name, [], InitialClient(name), Start);
    run, c' := HearLine(name, [], InitialClient(name), Start, SOME_NAME);
  }
}
