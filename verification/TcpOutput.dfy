/** Streams of framed requests: what the receiver of the client's output, or the client itself, reads back. */
module TcpOutput {
  import opened Base
  import opened Validation
  import opened Commands
  import opened TcpText
  import opened TcpFraming

  /** The bytes written for a list of requests, one `send` after the other. */
  function Output(rs: seq<Request>): Bytes {
    if rs == [] then [] else Frame(rs[0]) + Output(rs[1..])
  }

  function Bodies(rs: seq<Request>): seq<Bytes> {
    if rs == [] then [] else [Body(rs[0])] + Bodies(rs[1..])
  }

  lemma {:induction false} BodiesAt(rs: seq<Request>)
    ensures |Bodies(rs)| == |rs| && forall i :: 0 <= i < |rs| ==> Bodies(rs)[i] == Body(rs[i])
  {
    if rs != [] {
      BodiesAt(rs[1..]);
      forall i | 0 <= i < |rs| ensures Bodies(rs)[i] == Body(rs[i]) {
        if i > 0 {
          assert Bodies(rs)[i] == Bodies(rs[1..])[i - 1] && rs[1..][i - 1] == rs[i];
        }
      }
    }
  }

  predicate AllValid(rs: seq<Request>) {
    forall i :: 0 <= i < |rs| ==> ValidRequest(rs[i])
  }

  predicate AllFit(rs: seq<Request>) {
    forall i :: 0 <= i < |rs| ==> Fits(rs[i])
  }

  // ----- self-delimiting output -----

  /** A frame starts with a capital letter, and its carriage return, if any, is one of its last two bytes. */
  predicate FrameLike(f: Bytes) {
    f != [] && f[0] != LF && forall i :: 0 <= i < |f| - 1 && f[i] == CR ==> i == |f| - 2 && f[i + 1] == LF
  }

  lemma OverlongFrame(r: Request)
    requires ValidRequest(r) && !Fits(r)
    ensures FrameLike(Frame(r)) && !HasCrlf(Frame(r))
  {
    BodyHasNoCr(r);
    var full, f := Body(r) + CRLF, Frame(r);
    assert Body(r)[0] == 0x4D;
    assert |full| == 15 + |r.name| + |r.content|;
    assert forall i :: 0 <= i < |f| - 1 ==> f[i] == Body(r)[i];
  }

  lemma NoCrlfJoin(p: Bytes, q: Bytes)
    requires !HasCrlf(p) && !HasCrlf(q) && q != [] && q[0] != LF
    ensures !HasCrlf(p + q)
  {
    var s := p + q;
    forall j | 0 <= j < |s| - 1 ensures !(s[j] == CR && s[j + 1] == LF) {
      if j >= |p| {
        assert s[j] == q[j - |p|] && s[j + 1] == q[j + 1 - |p|];
      } else if j < |p| - 1 {
        assert s[j] == p[j] && s[j + 1] == p[j + 1];
      }
    }
  }

  function CountFitting(rs: seq<Request>): nat {
    if rs == [] then 0 else CountFitting(rs[1..]) + if Fits(rs[0]) then 1 else 0
  }

  lemma FittingStep(p: Bytes, r: Request, rest: Bytes)
    requires ValidRequest(r) && Fits(r) && !HasCrlf(p)
    ensures |Split(p + (Frame(r) + rest)).lines| == 1 + |Split(rest).lines|
  {
    BodyFacts(r);
    TerminatorSurvives(r);
    NoCrlfJoin(p, Body(r));
    assert p + (Body(r) + CRLF + rest) == p + Body(r) + CRLF + rest;
    SplitAtFirst(p + Body(r), rest);
  }

  lemma OverlongStep(p: Bytes, r: Request, rest: Bytes)
    requires ValidRequest(r) && !Fits(r) && !HasCrlf(p)
    ensures !HasCrlf(p + Frame(r)) && p + (Frame(r) + rest) == p + Frame(r) + rest
  {
    OverlongFrame(r);
    NoCrlfJoin(p, Frame(r));
    Assoc(p, Frame(r), rest);
  }

  lemma NoLines(p: Bytes)
    requires !HasCrlf(p)
    ensures Split(p).lines == []
  {
    FindSpec(p, CRLF);
    if Find(p, CRLF).Some? {
      CrlfAt(p, Find(p, CRLF).value);
    }
  }

  /** The receiver sees one line per request that fits; the others melt into what follows. */
  lemma {:induction false} LinesSeen(p: Bytes, rs: seq<Request>)
    requires AllValid(rs) && !HasCrlf(p)
    ensures |Split(p + Output(rs)).lines| == CountFitting(rs)
    decreases |rs|
  {
    if rs == [] {
      assert p + [] == p;
      NoLines(p);
    } else {
      var rest := Output(rs[1..]);
      if Fits(rs[0]) {
        FittingStep(p, rs[0], rest);
        LinesSeen([], rs[1..]);
        assert [] + rest == rest;
      } else {
        OverlongStep(p, rs[0], rest);
        LinesSeen(p + Frame(rs[0]), rs[1..]);
      }
    }
  }

  lemma BodyFacts(r: Request)
    requires ValidRequest(r)
    ensures Body(r) != [] && Body(r)[0] != LF && !HasCrlf(Body(r))
  {
    BodyHasNoCr(r);
  }

  lemma {:induction false} CountAll(rs: seq<Request>)
    ensures CountFitting(rs) <= |rs| && (CountFitting(rs) == |rs| <==> AllFit(rs))
  {
    if rs != [] {
      CountAll(rs[1..]);
      assert forall i :: 1 <= i < |rs| ==> rs[i] == rs[1..][i - 1];
    }
  }

  lemma {:induction false} SplitOutput(rs: seq<Request>)
    requires AllValid(rs) && AllFit(rs)
    ensures Split(Output(rs)) == Cut(Bodies(rs), [])
  {
    if rs == [] {
      FindAbsent([], CRLF);
    } else {
      BodyFacts(rs[0]);
      TerminatorSurvives(rs[0]);
      SplitOutput(rs[1..]);
      SplitAtFirst(Body(rs[0]), Output(rs[1..]));
    }
  }

  /** The client's output cuts back into exactly its messages if and only if every one of them fits. */
  lemma OutputSelfDelimitingExactly(rs: seq<Request>)
    requires AllValid(rs)
    ensures Split(Output(rs)) == Cut(Bodies(rs), []) <==> AllFit(rs)
  {
    if AllFit(rs) {
      SplitOutput(rs);
    } else {
      LinesSeen([], rs);
      assert [] + Output(rs) == Output(rs);
      CountAll(rs);
      BodiesAt(rs);
    }
  }

  /** A list of valid messages that does not cut back into its lines. */
  lemma LongChatMeltsIntoNext() returns (rs: seq<Request>)
    ensures AllValid(rs) && Split(Output(rs)) != Cut(Bodies(rs), [])
  {
    var r := LongChatLosesTerminator();
    rs := [r];
    TerminatorSurvives(r);
    assert !Fits(rs[0]);
    OutputSelfDelimitingExactly(rs);
  }

  // ----- the output determines the requests -----

  ghost predicate NoSpace(s: Bytes) {
    forall i :: 0 <= i < |s| ==> s[i] != 0x20
  }

  /** Fields without a space, each followed by a space or by nothing, can be told apart. */
  lemma FieldsAgree(f: Bytes, x: Bytes, g: Bytes, y: Bytes)
    requires NoSpace(f) && NoSpace(g) && f + x == g + y
    requires (x != [] ==> x[0] == 0x20) && (y != [] ==> y[0] == 0x20) && (x == [] <==> y == [])
    ensures f == g && x == y
  {
    var s := f + x;
    assert forall i :: 0 <= i < |f| ==> s[i] == f[i];
    assert forall i :: 0 <= i < |g| ==> s[i] == g[i];
    assert x != [] ==> s[|f|] == x[0] && s[|g|] == y[0];
    assert f == s[..|f|] && g == s[..|g|];
    assert x == s[|f|..] && y == s[|g|..];
  }

  lemma DropPrefix(p: Bytes, x: Bytes, y: Bytes)
    requires p + x == p + y
    ensures x == y
  {
    assert x == (p + x)[|p|..];
    assert y == (p + y)[|p|..];
  }

  lemma FirstLetter(r: Request)
    ensures Body(r) != []
    ensures Body(r)[0] == match r
      case AuthRequest(_, _, _) => 0x41
      case JoinRequest(_, _) => 0x4A
      case SayRequest(_, _) => 0x4D
      case ByeRequest(_) => 0x42
  {
  }

  lemma BodyInjective(r: Request, q: Request)
    requires ValidRequest(r) && ValidRequest(q) && Body(r) == Body(q)
    ensures r == q
  {
    FirstLetter(r);
    FirstLetter(q);
    match r
    case AuthRequest(u, n, s) => AuthInjective(u, n, s, q.username, q.name, q.secret);
    case JoinRequest(ch, n) => JoinInjective(ch, n, q.channel, q.name);
    case SayRequest(n, c) => SayInjective(n, c, q.name, q.content);
    case ByeRequest(n) => DropPrefix(BYE_FROM, n, q.name);
  }

  lemma JoinInjective(ch: CString, n: CString, ch': CString, n': CString)
    requires ValidId(ch) && ValidId(ch') && Body(JoinRequest(ch, n)) == Body(JoinRequest(ch', n'))
    ensures ch == ch' && n == n'
  {
    assert Body(JoinRequest(ch, n)) == JOIN_WORD + (ch + (AS_MARK + n));
    assert Body(JoinRequest(ch', n')) == JOIN_WORD + (ch' + (AS_MARK + n'));
    DropPrefix(JOIN_WORD, ch + (AS_MARK + n), ch' + (AS_MARK + n'));
    FieldsAgree(ch, AS_MARK + n, ch', AS_MARK + n');
    DropPrefix(AS_MARK, n, n');
  }

  lemma SayInjective(n: CString, c: CString, n': CString, c': CString)
    requires ValidName(n) && ValidName(n') && Body(SayRequest(n, c)) == Body(SayRequest(n', c'))
    ensures n == n' && c == c'
  {
    assert Body(SayRequest(n, c)) == MSG_FROM + (n + (IS_MARK + c));
    assert Body(SayRequest(n', c')) == MSG_FROM + (n' + (IS_MARK + c'));
    DropPrefix(MSG_FROM, n + (IS_MARK + c), n' + (IS_MARK + c'));
    FieldsAgree(n, IS_MARK + c, n', IS_MARK + c');
    DropPrefix(IS_MARK, c, c');
  }

  lemma AuthInjective(u: CString, n: CString, s: CString, u': CString, n': CString, s': CString)
    requires ValidRequest(AuthRequest(u, n, s)) && ValidRequest(AuthRequest(u', n', s'))
    requires Body(AuthRequest(u, n, s)) == Body(AuthRequest(u', n', s'))
    ensures u == u' && n == n' && s == s'
  {
    var x, x' := n + (USING_MARK + s), n' + (USING_MARK + s');
    assert Body(AuthRequest(u, n, s)) == AUTH_WORD + (u + (AS_MARK + x));
    assert Body(AuthRequest(u', n', s')) == AUTH_WORD + (u' + (AS_MARK + x'));
    DropPrefix(AUTH_WORD, u + (AS_MARK + x), u' + (AS_MARK + x'));
    FieldsAgree(u, AS_MARK + x, u', AS_MARK + x');
    DropPrefix(AS_MARK, x, x');
    FieldsAgree(n, USING_MARK + s, n', USING_MARK + s');
    DropPrefix(USING_MARK, s, s');
  }

  /** Two lists of requests with the same output on the wire are the same list. */
  lemma OutputInjective(rs: seq<Request>, qs: seq<Request>)
    requires AllValid(rs) && AllFit(rs) && AllValid(qs) && AllFit(qs)
    requires Output(rs) == Output(qs)
    ensures rs == qs
  {
    SplitOutput(rs);
    SplitOutput(qs);
    BodiesAt(rs);
    BodiesAt(qs);
    forall i | 0 <= i < |rs| ensures rs[i] == qs[i] {
      assert Body(rs[i]) == Bodies(rs)[i];
      assert Body(qs[i]) == Bodies(qs)[i];
      BodyInjective(rs[i], qs[i]);
    }
  }

  // ----- from formatter to parser across the network -----

  /** `exit` is reached while this line is processed. */
  predicate EndsProcess(line: Bytes) {
    Ends(ProcessLine(line))
  }

  lemma {:induction false} ChatLinesDoNotEnd(rs: seq<Request>)
    requires AllValid(rs) && forall i :: 0 <= i < |rs| ==> rs[i].SayRequest?
    ensures UpToEnd(EndsProcess, Bodies(rs)) == None
  {
    if rs != [] {
      ValidNamesRoundTrip(rs[0].name, rs[0].content);
      ChatLinesDoNotEnd(rs[1..]);
      assert Bodies(rs)[1..] == Bodies(rs[1..]);
    }
  }

  /**
   * Chat messages framed as the client frames them and received in any chunks come out as the same names and
   * contents, in order, exactly when no chunk boundary falls inside a terminator.
   */
  lemma ChatSurvivesTheNetwork(rs: seq<Request>, chunks: seq<Bytes>)
    requires AllValid(rs) && AllFit(rs) && forall i :: 0 <= i < |rs| ==> rs[i].SayRequest?
    requires NonEmpty(chunks) && Concat(chunks) == Output(rs)
    ensures AbsorbAll(EndsProcess, chunks) == Stream.Open(Bodies(rs), []) <==> NoTerminatorCut(EndsProcess, chunks)
    ensures |Bodies(rs)| == |rs|
    ensures forall i :: 0 <= i < |rs| ==> ProcessLine(Bodies(rs)[i]) == Chat(rs[i].name, rs[i].content)
  {
    ChunkingIrrelevantExactly(EndsProcess, chunks);
    SplitOutput(rs);
    ChatLinesDoNotEnd(rs);
    BodiesAt(rs);
    forall i | 0 <= i < |rs| ensures ProcessLine(Bodies(rs)[i]) == Chat(rs[i].name, rs[i].content) {
      ValidNamesRoundTrip(rs[i].name, rs[i].content);
    }
  }
}
