/**
 * The TCP client as a whole: lines of input and chunks of the stream, in any order, driving one state and one
 * display name, with everything it handles and sends.
 */
module TcpClient {
  import opened Base
  import opened Validation
  import opened Commands
  import opened TcpText
  import opened TcpFraming
  import opened TcpOutput
  import opened TcpListener

  /** What happens at the boundary of the process, in order. */
  datatype Event =
    | Typed(cmd: Command)
    | Sent(request: Request)
    | Line(state: AppState, line: Bytes)

  /** `shown` is what was written for the user. */
  datatype Client = Client(
    state: AppState, name: CString, stream: Stream, shown: seq<Verdict>, quit: bool, log: seq<Event>)

  datatype Action = Input(cmd: Command) | EndOfInput | Receive(chunk: Bytes)

  function InitialClient(name: CString): Client {
    Client(Start, name, NEW_STREAM, [], false, [])
  }

  /** Neither the end of the input nor a line has ended the process. */
  predicate Running(c: Client) {
    !c.quit && c.stream.Open?
  }

  function Sends(emit: Option<Request>): seq<Event> {
    if emit.Some? then [Sent(emit.value)] else []
  }

  function OnInput(c: Client, cmd: Command): Client {
    var r := Dispatch(true, c.state, c.name, cmd);
    c.(state := r.state, name := r.name, log := c.log + [Typed(cmd)] + Sends(r.emit))
  }

  /** `graceful_quit`. */
  function OnEndOfInput(c: Client): Client {
    c.(quit := true, log := c.log + [Sent(ByeRequest(c.name))])
  }

  /** The handled lines, each with the state it found. */
  function LineEvents(state: AppState, lines: seq<Bytes>): seq<Event> {
    if lines == [] then []
    else
      var front := lines[..|lines| - 1];
      LineEvents(state, front) + [Line(StateAfter(state, front), lines[|lines| - 1])]
  }

  /** The lines a longer stream has beyond a shorter one. */
  function NewLines(st: Stream, st': Stream): seq<Bytes>
    requires |st.handled| <= |st'.handled|
  {
    st'.handled[|st.handled|..]
  }

  lemma {:induction false} AbsorbExtends(ends: Judge, st: Stream, chunk: Bytes)
    ensures st.handled <= Absorb(ends, st, chunk).handled
    decreases |chunk|
  {
    if st.Open? {
      match Find(chunk, CRLF)
      case None =>
      case Some(i) => AbsorbExtends(ends, TakeLine(ends, st, chunk[..i]), chunk[i + 2..]);
    }
  }

  function Handle(c: Client, st: Stream): Client
    requires |c.stream.handled| <= |st.handled|
  {
    var lines := NewLines(c.stream, st);
    c.(stream := st, state := StateAfter(c.state, lines), shown := c.shown + Displayed(lines),
       log := c.log + LineEvents(c.state, lines))
  }

  /** One chunk; the bytes behind a NUL are not seen. */
  function OnReceive(c: Client, chunk: Bytes): Client {
    AbsorbExtends(EndsProcess, c.stream, CStr(chunk));
    Handle(c, Absorb(EndsProcess, c.stream, CStr(chunk)))
  }

  function Step(c: Client, a: Action): Client {
    match a
    case Input(cmd) => OnInput(c, cmd)
    case EndOfInput => OnEndOfInput(c)
    case Receive(chunk) => OnReceive(c, chunk)
  }

  /** The client after a run; `None` if a step was asked of a client that had ended. */
  function After(name: CString, run: seq<Action>): Option<Client> {
    if run == [] then Some(InitialClient(name))
    else
      match After(name, run[..|run| - 1])
      case Some(c) => if Running(c) then Some(Step(c, run[|run| - 1])) else None
      case None => None
  }

  ghost predicate Reaches(name: CString, run: seq<Action>, c: Client) {
    After(name, run) == Some(c)
  }

  lemma LastAction(name: CString, run: seq<Action>, c: Client) returns (v: Client)
    requires Reaches(name, run, c) && run != []
    ensures Reaches(name, run[..|run| - 1], v) && Running(v) && c == Step(v, run[|run| - 1])
  {
    v := After(name, run[..|run| - 1]).value;
  }

  // ----- chunks -----

  lemma {:induction false} LineEventsAppend(state: AppState, lines: seq<Bytes>, more: seq<Bytes>)
    ensures LineEvents(state, lines + more) == LineEvents(state, lines) + LineEvents(StateAfter(state, lines), more)
  {
    if more == [] {
      assert lines + more == lines;
    } else {
      var front, last := more[..|more| - 1], more[|more| - 1];
      assert (lines + more)[..|lines + more| - 1] == lines + front;
      LineEventsAppend(state, lines, front);
      StateAfterAppend(state, lines, front);
    }
  }

  lemma NewLinesTwice(a: Stream, b: Stream, c: Stream)
    requires a.handled <= b.handled <= c.handled
    ensures NewLines(a, c) == NewLines(a, b) + NewLines(b, c)
  {
  }

  lemma EventsTwice(log: seq<Event>, state: AppState, lines: seq<Bytes>, more: seq<Bytes>)
    ensures log + LineEvents(state, lines) + LineEvents(StateAfter(state, lines), more) ==
      log + LineEvents(state, lines + more)
  {
    LineEventsAppend(state, lines, more);
  }

  lemma ShownTwice(shown: seq<Verdict>, lines: seq<Bytes>, more: seq<Bytes>)
    ensures shown + Displayed(lines) + Displayed(more) == shown + Displayed(lines + more)
  {
    DisplayedAppend(lines, more);
  }

  lemma HandleTwice(c: Client, st: Stream, st': Stream)
    requires c.stream.handled <= st.handled <= st'.handled
    ensures Handle(Handle(c, st), st') == Handle(c, st')
  {
    NewLinesTwice(c.stream, st, st');
    StateAfterAppend(c.state, NewLines(c.stream, st), NewLines(st, st'));
    EventsTwice(c.log, c.state, NewLines(c.stream, st), NewLines(st, st'));
    ShownTwice(c.shown, NewLines(c.stream, st), NewLines(st, st'));
  }

  lemma NoNul(s: Bytes)
    requires NulFree(s)
    ensures CStr(s) == s
  {
    assert s[..|s|] == s;
    StrlenUnique(s, |s|);
  }

  /** Two chunks in a row do to the whole client what their concatenation does, unless they cut a terminator it waits for. */
  lemma ChunksJoin(c: Client, a: CString, b: CString)
    requires CutsTerminator(a, b) ==> OnReceive(c, a).stream.Ended?
    ensures OnReceive(OnReceive(c, a), b) == OnReceive(c, a + b)
  {
    NoNul(a);
    NoNul(b);
    NoNul(a + b);
    var st := Absorb(EndsProcess, c.stream, a);
    AbsorbExtends(EndsProcess, c.stream, a);
    AbsorbExtends(EndsProcess, st, b);
    AbsorbTwo(EndsProcess, c.stream, a, b);
    HandleTwice(c, st, Absorb(EndsProcess, st, b));
  }

  /** The chunks a run received, up to their first NUL. */
  function Chunks(run: seq<Action>): seq<Bytes> {
    if run == [] then []
    else
      var front, a := Chunks(run[..|run| - 1]), run[|run| - 1];
      if a.Receive? then front + [CStr(a.chunk)] else front
  }

  lemma {:induction false} StreamOfRun(name: CString, run: seq<Action>, c: Client)
    requires Reaches(name, run, c)
    ensures c.stream == AbsorbAll(EndsProcess, Chunks(run))
  {
    if run != [] {
      var v := LastAction(name, run, c);
      StreamOfRun(name, run[..|run| - 1], v);
      var front, a := Chunks(run[..|run| - 1]), run[|run| - 1];
      if a.Receive? {
        assert (front + [CStr(a.chunk)])[..|front|] == front;
      }
    }
  }

  /** Whatever is typed meanwhile, the stream is handled as a whole exactly when no awaited terminator is cut. */
  lemma RunHandlesStreamExactly(name: CString, run: seq<Action>, c: Client)
    requires Reaches(name, run, c) && NonEmpty(Chunks(run))
    ensures c.stream == Reference(EndsProcess, Concat(Chunks(run))) <==> NoTerminatorCut(EndsProcess, Chunks(run))
  {
    StreamOfRun(name, run, c);
    ChunkingIrrelevantExactly(EndsProcess, Chunks(run));
  }

  // ----- what the user sees, and what ends the client -----

  /** The lines a log tells of. */
  function LinesOf(log: seq<Event>): seq<Bytes> {
    if log == [] then []
    else
      var front, e := LinesOf(log[..|log| - 1]), log[|log| - 1];
      if e.Line? then front + [e.line] else front
  }

  lemma LinesOfOne(log: seq<Event>, e: Event)
    ensures LinesOf(log + [e]) == LinesOf(log) + if e.Line? then [e.line] else []
  {
    assert (log + [e])[..|log|] == log;
  }

  lemma LastLineEvent(log: seq<Event>, state: AppState, lines: seq<Bytes>)
    requires lines != []
    ensures var front := lines[..|lines| - 1];
      log + LineEvents(state, lines) ==
        log + LineEvents(state, front) + [Line(StateAfter(state, front), lines[|lines| - 1])]
  {
  }

  lemma {:induction false} LinesOfEvents(log: seq<Event>, state: AppState, lines: seq<Bytes>)
    ensures LinesOf(log + LineEvents(state, lines)) == LinesOf(log) + lines
  {
    if lines == [] {
      assert log + [] == log;
    } else {
      var front, last := lines[..|lines| - 1], lines[|lines| - 1];
      LinesOfEvents(log, state, front);
      LastLineEvent(log, state, lines);
      LinesOfOne(log + LineEvents(state, front), Line(StateAfter(state, front), last));
      assert front + [last] == lines;
    }
  }

  lemma InputLines(c: Client, cmd: Command)
    ensures LinesOf(OnInput(c, cmd).log) == LinesOf(c.log)
  {
    var emit := Dispatch(true, c.state, c.name, cmd).emit;
    LinesOfOne(c.log, Typed(cmd));
    if emit.Some? {
      LinesOfOne(c.log + [Typed(cmd)], Sent(emit.value));
    } else {
      assert c.log + [Typed(cmd)] + [] == c.log + [Typed(cmd)];
    }
  }

  lemma ReceiveLines(c: Client, chunk: Bytes)
    requires LinesOf(c.log) == c.stream.handled && c.shown == Displayed(c.stream.handled)
    ensures var c' := OnReceive(c, chunk); LinesOf(c'.log) == c'.stream.handled && c'.shown == Displayed(c'.stream.handled)
  {
    var st := Absorb(EndsProcess, c.stream, CStr(chunk));
    AbsorbExtends(EndsProcess, c.stream, CStr(chunk));
    var lines := NewLines(c.stream, st);
    assert st.handled == c.stream.handled + lines;
    LinesOfEvents(c.log, c.state, lines);
    DisplayedAppend(c.stream.handled, lines);
  }

  /** The log tells of the handled lines, and they alone decide what is shown. */
  lemma {:induction false} RunShowsItsLines(name: CString, run: seq<Action>, c: Client)
    requires Reaches(name, run, c)
    ensures LinesOf(c.log) == c.stream.handled && c.shown == Displayed(c.stream.handled)
  {
    if run != [] {
      var v := LastAction(name, run, c);
      RunShowsItsLines(name, run[..|run| - 1], v);
      match run[|run| - 1]
      case Input(cmd) => InputLines(v, cmd);
      case EndOfInput => LinesOfOne(v.log, Sent(ByeRequest(v.name)));
      case Receive(chunk) => ReceiveLines(v, chunk);
    }
  }

  /** What the user sees is what the lines of the whole stream call for, when no awaited terminator is cut. */
  lemma UserSeesTheStream(name: CString, run: seq<Action>, c: Client)
    requires Reaches(name, run, c) && NonEmpty(Chunks(run)) && NoTerminatorCut(EndsProcess, Chunks(run))
    ensures c.shown == Displayed(Reference(EndsProcess, Concat(Chunks(run))).handled)
  {
    RunShowsItsLines(name, run, c);
    RunHandlesStreamExactly(name, run, c);
  }

  /** What a list of chat messages ought to show. */
  function Chats(rs: seq<Request>): seq<Verdict>
    requires AllChats(rs)
  {
    if rs == [] then [] else Chats(rs[..|rs| - 1]) + [Chat(rs[|rs| - 1].name, rs[|rs| - 1].content)]
  }

  predicate AllChats(rs: seq<Request>) {
    forall i :: 0 <= i < |rs| ==> rs[i].SayRequest?
  }

  lemma ChatDisplayed(lines: seq<Bytes>, name: CString, content: CString)
    requires ValidName(name)
    ensures Displayed(lines + [Body(SayRequest(name, content))]) == Displayed(lines) + [Chat(name, content)]
  {
    ValidNamesRoundTrip(name, content);
    DisplayedOne(lines, Body(SayRequest(name, content)));
  }

  lemma {:induction false} BodiesLast(rs: seq<Request>, r: Request)
    ensures Bodies(rs + [r]) == Bodies(rs) + [Body(r)]
  {
    if rs == [] {
      assert [r][1..] == [];
    } else {
      assert (rs + [r])[1..] == rs[1..] + [r];
      BodiesLast(rs[1..], r);
    }
  }

  lemma {:induction false} ChatsDisplayed(rs: seq<Request>)
    requires AllValid(rs) && AllChats(rs)
    ensures Displayed(Bodies(rs)) == Chats(rs)
  {
    if rs != [] {
      var front, last := rs[..|rs| - 1], rs[|rs| - 1];
      ChatsDisplayed(front);
      BodiesLast(front, last);
      assert rs == front + [last];
      ChatDisplayed(Bodies(front), last.name, last.content);
    }
  }

  /**
   * From one user to another: valid chat messages, framed by a sender and relayed as they are, are shown with their
   * names and contents, in order and nothing else, whatever the receiver types meanwhile and however the stream is
   * chunked, as long as no terminator is cut.
   */
  lemma UserSeesTheChat(name: CString, run: seq<Action>, c: Client, rs: seq<Request>)
    requires Reaches(name, run, c) && NonEmpty(Chunks(run)) && NoTerminatorCut(EndsProcess, Chunks(run))
    requires AllValid(rs) && AllFit(rs) && Concat(Chunks(run)) == Output(rs)
    requires AllChats(rs)
    ensures c.shown == Chats(rs)
  {
    StreamOfRun(name, run, c);
    ChatSurvivesTheNetwork(rs, Chunks(run));
    RunShowsItsLines(name, run, c);
    ChatsDisplayed(rs);
  }

  /** The last line ended the client, and no line before it did; while the client listens, none did. */
  ghost predicate EndsOnce(st: Stream) {
    var lines := st.handled;
    && (st.Ended? ==> lines != [] && EndsProcess(lines[|lines| - 1]))
    && forall i :: 0 <= i < |lines| && (st.Open? || i < |lines| - 1) ==> !EndsProcess(lines[i])
  }

  lemma {:induction false} AbsorbEndsOnce(st: Stream, chunk: Bytes)
    requires EndsOnce(st)
    ensures EndsOnce(Absorb(EndsProcess, st, chunk))
    decreases |chunk|
  {
    if st.Open? {
      match Find(chunk, CRLF)
      case None =>
      case Some(i) => AbsorbEndsOnce(TakeLine(EndsProcess, st, chunk[..i]), chunk[i + 2..]);
    }
  }

  predicate IsBye(e: Event) {
    e.Sent? && e.request.ByeRequest?
  }

  /** BYE is the last thing sent, and only by `graceful_quit`. */
  ghost predicate QuitByBye(c: Client) {
    c.quit <==> exists e :: e in c.log && IsBye(e)
  }

  lemma InputSaysNoBye(c: Client, cmd: Command)
    requires QuitByBye(c) && !c.quit
    ensures QuitByBye(OnInput(c, cmd))
  {
    DispatchCarries(true, c.state, c.name, cmd);
  }

  lemma ReceiveSaysNoBye(c: Client, chunk: Bytes)
    requires QuitByBye(c) && !c.quit
    ensures QuitByBye(OnReceive(c, chunk))
  {
    AbsorbExtends(EndsProcess, c.stream, CStr(chunk));
    LinesAdmit(c.state, NewLines(c.stream, Absorb(EndsProcess, c.stream, CStr(chunk))));
  }

  lemma QuitSaysBye(c: Client)
    ensures QuitByBye(OnEndOfInput(c))
  {
    var bye := Sent(ByeRequest(c.name));
    assert bye in OnEndOfInput(c).log && IsBye(bye);
  }

  lemma {:induction false} RunEnds(name: CString, run: seq<Action>, c: Client)
    requires Reaches(name, run, c)
    ensures EndsOnce(c.stream) && QuitByBye(c)
  {
    if run != [] {
      var v := LastAction(name, run, c);
      RunEnds(name, run[..|run| - 1], v);
      match run[|run| - 1]
      case Input(cmd) => InputSaysNoBye(v, cmd);
      case EndOfInput => QuitSaysBye(v);
      case Receive(chunk) =>
        ReceiveSaysNoBye(v, chunk);
        AbsorbEndsOnce(v.stream, CStr(chunk));
    }
  }

  /**
   * The client has ended if and only if it said BYE or handled an ERR, a BYE or a line of no known type; such a line
   * is the last one it handled.
   */
  lemma ExitsAreExplained(name: CString, run: seq<Action>, c: Client)
    requires Reaches(name, run, c)
    ensures !Running(c) <==>
      (exists e :: e in c.log && IsBye(e)) || (exists i :: 0 <= i < |c.stream.handled| && EndsProcess(c.stream.handled[i]))
    ensures forall i :: 0 <= i < |c.stream.handled| && EndsProcess(c.stream.handled[i]) ==> i == |c.stream.handled| - 1
  {
    RunEnds(name, run, c);
  }

  // ----- what is sent, and when -----

  /** The positive REPLY that ends authentication. */
  predicate Welcomes(e: Event) {
    e.Line? && e.state == Auth && ProcessLine(e.line).ReplyLine? && ProcessLine(e.line).ok
  }

  predicate Gated(e: Event) {
    e.Sent? && (e.request.SayRequest? || e.request.JoinRequest?)
  }

  ghost predicate Admitted(log: seq<Event>) {
    exists e :: e in log && Welcomes(e)
  }

  ghost predicate GatedAfterWelcome(c: Client) {
    && (c.state in {AppState.Open, Join} ==> Admitted(c.log))
    && (forall i :: 0 <= i < |c.log| && Gated(c.log[i]) ==> Admitted(c.log[..i]))
  }

  lemma AdmittedAppend(log: seq<Event>, more: seq<Event>)
    ensures Admitted(log + more) <==> Admitted(log) || Admitted(more)
  {
    if Admitted(log) {
      var e :| e in log && Welcomes(e);
      assert e in log + more;
    }
    if Admitted(more) {
      var e :| e in more && Welcomes(e);
      assert e in log + more;
    }
  }

  lemma AppendKeepsGates(log: seq<Event>, more: seq<Event>)
    requires forall i :: 0 <= i < |log| && Gated(log[i]) ==> Admitted(log[..i])
    requires Admitted(log) || forall e :: e in more ==> !Gated(e)
    ensures forall i :: 0 <= i < |log + more| && Gated((log + more)[i]) ==> Admitted((log + more)[..i])
  {
    var all := log + more;
    forall i | 0 <= i < |all| && Gated(all[i]) ensures Admitted(all[..i]) {
      if i < |log| {
        assert all[..i] == log[..i];
      } else {
        assert all[i] in more;
        assert all[..i] == log + more[..i - |log|];
        AdmittedAppend(log, more[..i - |log|]);
      }
    }
  }

  /** Lines open the state only if one of them is the welcome. */
  lemma {:induction false} LinesAdmit(state: AppState, lines: seq<Bytes>)
    ensures StateAfter(state, lines) in {AppState.Open, Join} ==>
      state in {AppState.Open, Join} || Admitted(LineEvents(state, lines))
    ensures forall e :: e in LineEvents(state, lines) ==> e.Line?
  {
    if lines != [] {
      var front, last := lines[..|lines| - 1], lines[|lines| - 1];
      LinesAdmit(state, front);
      var e := Line(StateAfter(state, front), last);
      AdmittedAppend(LineEvents(state, front), [e]);
      assert Welcomes(e) ==> e in [e];
    }
  }

  lemma ReceiveKeepsGates(c: Client, chunk: Bytes)
    requires GatedAfterWelcome(c)
    ensures GatedAfterWelcome(OnReceive(c, chunk))
  {
    AbsorbExtends(EndsProcess, c.stream, CStr(chunk));
    var lines := NewLines(c.stream, Absorb(EndsProcess, c.stream, CStr(chunk)));
    LinesAdmit(c.state, lines);
    AdmittedAppend(c.log, LineEvents(c.state, lines));
    AppendKeepsGates(c.log, LineEvents(c.state, lines));
  }

  lemma InputKeepsGates(c: Client, cmd: Command)
    requires GatedAfterWelcome(c) && ValidName(c.name)
    ensures GatedAfterWelcome(OnInput(c, cmd)) && ValidName(OnInput(c, cmd).name)
  {
    var r := Dispatch(true, c.state, c.name, cmd);
    DispatchIsSafe(true, c.state, c.name, cmd);
    var more := [Typed(cmd)] + Sends(r.emit);
    assert c.log + [Typed(cmd)] + Sends(r.emit) == c.log + more;
    AdmittedAppend(c.log, more);
    AppendKeepsGates(c.log, more);
  }

  lemma QuitKeepsGates(c: Client)
    requires GatedAfterWelcome(c)
    ensures GatedAfterWelcome(OnEndOfInput(c))
  {
    AdmittedAppend(c.log, [Sent(ByeRequest(c.name))]);
    AppendKeepsGates(c.log, [Sent(ByeRequest(c.name))]);
  }

  lemma {:induction false} RunKeepsGates(name: CString, run: seq<Action>, c: Client)
    requires Reaches(name, run, c) && ValidName(name)
    ensures GatedAfterWelcome(c) && ValidName(c.name)
  {
    if run != [] {
      var v := LastAction(name, run, c);
      RunKeepsGates(name, run[..|run| - 1], v);
      match run[|run| - 1]
      case Input(cmd) => InputKeepsGates(v, cmd);
      case EndOfInput => QuitKeepsGates(v);
      case Receive(chunk) => ReceiveKeepsGates(v, chunk);
    }
  }

  /** Every MSG and JOIN the TCP client sends comes after a positive REPLY line handled in AUTH, whatever bytes arrive. */
  lemma SendsFollowWelcome(name: CString, run: seq<Action>, c: Client, i: nat)
    requires Reaches(name, run, c) && ValidName(name) && i < |c.log| && Gated(c.log[i])
    ensures exists j :: 0 <= j < i && Welcomes(c.log[j])
  {
    RunKeepsGates(name, run, c);
    var before := c.log[..i];
    assert Admitted(before);
    var e :| e in before && Welcomes(e);
    var j :| 0 <= j < |before| && before[j] == e;
    assert Welcomes(c.log[j]);
  }

  /** The requests sent, in order. */
  function Requests(log: seq<Event>): seq<Request> {
    if log == [] then []
    else
      var front, e := Requests(log[..|log| - 1]), log[|log| - 1];
      if e.Sent? then front + [e.request] else front
  }

  lemma InputRequests(c: Client, cmd: Command)
    requires ValidName(c.name) && AllValid(Requests(c.log))
    ensures AllValid(Requests(OnInput(c, cmd).log))
  {
    var emit := Dispatch(true, c.state, c.name, cmd).emit;
    DispatchIsSafe(true, c.state, c.name, cmd);
    RequestsOne(c.log, Typed(cmd));
    if emit.Some? {
      RequestsOne(c.log + [Typed(cmd)], Sent(emit.value));
    } else {
      assert c.log + [Typed(cmd)] + [] == c.log + [Typed(cmd)];
    }
  }

  lemma RequestsOne(log: seq<Event>, e: Event)
    ensures Requests(log + [e]) == if e.Sent? then Requests(log) + [e.request] else Requests(log)
  {
    assert (log + [e])[..|log|] == log;
  }

  lemma {:induction false} LinesRequestNothing(log: seq<Event>, more: seq<Event>)
    requires forall e :: e in more ==> !e.Sent?
    ensures Requests(log + more) == Requests(log)
  {
    if more == [] {
      assert log + more == log;
    } else {
      var front, last := more[..|more| - 1], more[|more| - 1];
      assert !last.Sent?;
      assert log + more == log + front + [last];
      RequestsOne(log + front, last);
      LinesRequestNothing(log, front);
    }
  }

  lemma ReceiveRequests(c: Client, chunk: Bytes)
    ensures Requests(OnReceive(c, chunk).log) == Requests(c.log)
  {
    AbsorbExtends(EndsProcess, c.stream, CStr(chunk));
    var lines := NewLines(c.stream, Absorb(EndsProcess, c.stream, CStr(chunk)));
    LinesAdmit(c.state, lines);
    LinesRequestNothing(c.log, LineEvents(c.state, lines));
  }

  lemma AllValidAppend(rs: seq<Request>, r: Request)
    requires AllValid(rs) && ValidRequest(r)
    ensures AllValid(rs + [r])
  {
  }

  lemma StepRequests(c: Client, a: Action)
    requires ValidName(c.name) && AllValid(Requests(c.log))
    ensures AllValid(Requests(Step(c, a).log))
  {
    match a
    case Input(cmd) => InputRequests(c, cmd);
    case EndOfInput =>
      RequestsOne(c.log, Sent(ByeRequest(c.name)));
      AllValidAppend(Requests(c.log), ByeRequest(c.name));
    case Receive(chunk) => ReceiveRequests(c, chunk);
  }

  lemma {:induction false} RequestsAreValid(name: CString, run: seq<Action>, c: Client)
    requires Reaches(name, run, c) && ValidName(name)
    ensures AllValid(Requests(c.log))
  {
    if run != [] {
      var v := LastAction(name, run, c);
      RequestsAreValid(name, run[..|run| - 1], v);
      RunKeepsGates(name, run[..|run| - 1], v);
      StepRequests(v, run[|run| - 1]);
    }
  }

  /** The bytes a whole run sends cut back into exactly its messages if and only if each of them fits the send buffer. */
  lemma RunOutputCutsBack(name: CString, run: seq<Action>, c: Client)
    requires Reaches(name, run, c) && ValidName(name)
    ensures Split(Output(Requests(c.log))) == Cut(Bodies(Requests(c.log)), []) <==> AllFit(Requests(c.log))
  {
    RequestsAreValid(name, run, c);
    OutputSelfDelimitingExactly(Requests(c.log));
  }

  // ----- as the source writes it -----

  /** The process: the globals, the listener and the two threads that share them. */
  class Process {
    const session: Session
    const listener: Listener
    var quit: bool
    ghost var log: seq<Event>

    ghost predicate Valid()
      reads this, listener, listener.line
    {
      session.tcp && listener.session == session && listener.Valid()
    }

    ghost function View(): Client
      reads this, session, listener, listener.line
    {
      Client(session.state, session.name, listener.View(), listener.shown, quit, log)
    }

    constructor (name: CString)
      ensures Valid() && View() == InitialClient(name)
      ensures fresh(session) && fresh(listener) && (listener.line != null ==> fresh(listener.line))
    {
      var globals := new Session(true, name);
      session := globals;
      listener := new Listener(globals);
      quit, log := false, [];
    }

    /** One line of input. */
    method RunCommand(cmd: Command) returns (sent: Option<Bytes>)
      requires Valid() && Running(View())
      modifies this`log, session
      ensures Valid() && View() == OnInput(old(View()), cmd)
      ensures sent == match Dispatch(true, old(session.state), old(session.name), cmd).emit
                      case Some(r) => Some(Frame(r)) case None => None
    {
      var emit := session.Run(cmd);
      log := log + [Typed(cmd)] + Sends(emit);
      sent := if emit.Some? then Some(Frame(emit.value)) else None;
    }

    /** The end of the input. */
    method Quit() returns (sent: Bytes)
      requires Valid() && Running(View())
      modifies this
      ensures Valid() && View() == OnEndOfInput(old(View())) && sent == Frame(ByeRequest(session.name))
    {
      sent := Frame(ByeRequest(session.name));
      quit := true;
      log := log + [Sent(ByeRequest(session.name))];
    }

    /** One return of `recv` with `n` bytes. */
    method Receive(recv: array<byte>, n: nat)
      requires Valid() && Running(View()) && n < recv.Length && recv != listener.line
      modifies this`log, session`state, listener, listener.line, recv
      ensures Valid() && View() == OnReceive(old(View()), old(recv[..n]))
    {
      ghost var c := View();
      ghost var before := |listener.handled|;
      listener.Feed(recv, n);
      log := log + LineEvents(c.state, listener.handled[before..]);
    }
  }
}
