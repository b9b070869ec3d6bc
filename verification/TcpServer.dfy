/**
 * What the other end of a TCP connection makes of the client's bytes, read by the grammar of the protocol with its
 * words spelled out, and the lines a server sends, spelled out the same way.
 */
module TcpServer {
  import opened Base
  import opened Validation
  import opened Commands
  import opened TcpText
  import opened TcpFraming
  import opened TcpOutput
  import TcpDiagram
  import C = TcpClient

  // ----- the words of the protocol -----

  lemma Words()
    ensures AUTH_WORD == Ascii("AUTH ") && JOIN_WORD == Ascii("JOIN ")
    ensures MSG_FROM == Ascii("MSG FROM ") && ERR_FROM == Ascii("ERR FROM ") && BYE_FROM == Ascii("BYE FROM ")
    ensures AS_MARK == Ascii(" AS ") && USING_MARK == Ascii(" USING ") && IS_MARK == Ascii(" IS ")
    ensures FROM_WORD == Ascii("FROM ")
  {
  }

  lemma ReplyWords()
    ensures REPLY_WORD == Ascii("REPLY ") && OK == Ascii("OK") && NOK == Ascii("NOK") && IS_WORD == Ascii("IS")
  {
  }

  // ----- reading what the client sends -----

  /** The text before a marker and the text behind it. */
  function CutAt(s: CString, mark: Bytes): Option<(CString, CString)> {
    match Find(s, mark)
    case None => None
    case Some(i) => Some((s[..i], s[i + |mark|..]))
  }

  /** AUTH {name} AS {display name} USING {secret}, JOIN {channel} AS {display name}, MSG FROM .. IS .., BYE FROM .. */
  function ServerReads(line: CString): Option<Request> {
    if Ascii("AUTH ") <= line then ReadAuth(line[5..])
    else if Ascii("JOIN ") <= line then ReadJoin(line[5..])
    else if Ascii("MSG FROM ") <= line then ReadSay(line[9..])
    else if Ascii("BYE FROM ") <= line then Some(ByeRequest(line[9..]))
    else None
  }

  function ReadAuth(rest: CString): Option<Request> {
    match CutAt(rest, Ascii(" AS "))
    case None => None
    case Some((username, more)) =>
      match CutAt(more, Ascii(" USING "))
      case None => None
      case Some((name, secret)) => Some(AuthRequest(username, name, secret))
  }

  function ReadJoin(rest: CString): Option<Request> {
    match CutAt(rest, Ascii(" AS "))
    case None => None
    case Some((channel, name)) => Some(JoinRequest(channel, name))
  }

  function ReadSay(rest: CString): Option<Request> {
    match CutAt(rest, Ascii(" IS "))
    case None => None
    case Some((name, content)) => Some(SayRequest(name, content))
  }

  lemma JoinNulFree(a: Bytes, b: Bytes)
    requires NulFree(a) && NulFree(b)
    ensures NulFree(a + b)
  {
  }

  /** A field without a space is cut off at the marker that follows it, whatever comes behind. */
  lemma CutField(f: CString, mark: CString, rest: CString)
    requires NoSpace(f) && mark != [] && mark[0] == 0x20
    ensures NulFree(f + (mark + rest)) && CutAt(f + (mark + rest), mark) == Some((f, rest))
  {
    JoinNulFree(mark, rest);
    JoinNulFree(f, mark + rest);
    var s := f + (mark + rest);
    assert s[|f|..] == mark + rest;
    forall j | 0 <= j < |f| ensures !(mark <= s[j..]) {
      assert s[j..][0] == f[j];
    }
    FindUnique(s, mark, |f|);
    assert s[..|f|] == f;
    assert s[|f| + |mark|..] == rest;
  }

  lemma AuthLine(rest: CString)
    ensures NulFree(AUTH_WORD + rest) && ServerReads(AUTH_WORD + rest) == ReadAuth(rest)
  {
    Words();
    JoinNulFree(AUTH_WORD, rest);
    assert (AUTH_WORD + rest)[5..] == rest;
  }

  lemma JoinLine(rest: CString)
    ensures NulFree(JOIN_WORD + rest) && ServerReads(JOIN_WORD + rest) == ReadJoin(rest)
  {
    Words();
    JoinNulFree(JOIN_WORD, rest);
    assert (JOIN_WORD + rest)[5..] == rest;
    assert (JOIN_WORD + rest)[0] == JOIN_WORD[0] && AUTH_WORD[0] != JOIN_WORD[0];
  }

  lemma SayLine(rest: CString)
    ensures NulFree(MSG_FROM + rest) && ServerReads(MSG_FROM + rest) == ReadSay(rest)
  {
    Words();
    JoinNulFree(MSG_FROM, rest);
    assert (MSG_FROM + rest)[9..] == rest;
    assert (MSG_FROM + rest)[0] == MSG_FROM[0];
  }

  lemma AuthFields(username: CString, name: CString, secret: CString)
    requires NoSpace(username) && NoSpace(name)
    ensures var rest := username + (AS_MARK + (name + (USING_MARK + secret)));
      NulFree(rest) && ReadAuth(rest) == Some(AuthRequest(username, name, secret))
  {
    Words();
    CutField(name, USING_MARK, secret);
    CutField(username, AS_MARK, name + (USING_MARK + secret));
  }

  lemma ReadsAuth(username: CString, name: CString, secret: CString)
    requires NoSpace(username) && NoSpace(name)
    ensures ServerReads(Body(AuthRequest(username, name, secret))) == Some(AuthRequest(username, name, secret))
  {
    AuthFields(username, name, secret);
    AuthLine(username + (AS_MARK + (name + (USING_MARK + secret))));
    AuthBody(username, name, secret);
  }

  lemma AuthBody(username: CString, name: CString, secret: CString)
    ensures Body(AuthRequest(username, name, secret))
         == AUTH_WORD + (username + (AS_MARK + (name + (USING_MARK + secret))))
  {
    Assoc(AUTH_WORD + username + AS_MARK + name, USING_MARK, secret);
    Assoc(AUTH_WORD + username + AS_MARK, name, USING_MARK + secret);
    Assoc(AUTH_WORD + username, AS_MARK, name + (USING_MARK + secret));
    Assoc(AUTH_WORD, username, AS_MARK + (name + (USING_MARK + secret)));
  }

  lemma JoinFields(channel: CString, name: CString)
    requires NoSpace(channel)
    ensures var rest := channel + (AS_MARK + name); NulFree(rest) && ReadJoin(rest) == Some(JoinRequest(channel, name))
  {
    Words();
    CutField(channel, AS_MARK, name);
  }

  lemma ReadsJoin(channel: CString, name: CString)
    requires NoSpace(channel)
    ensures ServerReads(Body(JoinRequest(channel, name))) == Some(JoinRequest(channel, name))
  {
    JoinFields(channel, name);
    JoinLine(channel + (AS_MARK + name));
    Assoc(JOIN_WORD + channel, AS_MARK, name);
    Assoc(JOIN_WORD, channel, AS_MARK + name);
  }

  lemma SayFields(name: CString, content: CString)
    requires NoSpace(name)
    ensures var rest := name + (IS_MARK + content); NulFree(rest) && ReadSay(rest) == Some(SayRequest(name, content))
  {
    Words();
    CutField(name, IS_MARK, content);
  }

  lemma ReadsSay(name: CString, content: CString)
    requires NoSpace(name)
    ensures ServerReads(Body(SayRequest(name, content))) == Some(SayRequest(name, content))
  {
    SayFields(name, content);
    SayLine(name + (IS_MARK + content));
    Assoc(MSG_FROM + name, IS_MARK, content);
    Assoc(MSG_FROM, name, IS_MARK + content);
  }

  lemma ReadsBye(name: CString)
    ensures ServerReads(Body(ByeRequest(name))) == Some(ByeRequest(name))
  {
    Words();
    var line := Body(ByeRequest(name));
    assert line[9..] == name;
    assert line[0] == BYE_FROM[0];
  }

  lemma ValidFieldsHaveNoSpace(r: Request)
    requires ValidRequest(r)
    ensures NoSpace(r.name)
    ensures r.AuthRequest? ==> NoSpace(r.username)
    ensures r.JoinRequest? ==> NoSpace(r.channel)
  {
  }

  /** A server that follows the grammar reads every field of every valid message in its place. */
  lemma ServerReadsBody(r: Request)
    requires ValidRequest(r)
    ensures ServerReads(Body(r)) == Some(r)
  {
    ValidFieldsHaveNoSpace(r);
    match r
    case AuthRequest(username, name, secret) => ReadsAuth(username, name, secret);
    case JoinRequest(channel, name) => ReadsJoin(channel, name);
    case SayRequest(name, content) => ReadsSay(name, content);
    case ByeRequest(name) => ReadsBye(name);
  }

  /** The frame on the wire is the line the server reads, with CRLF behind it. */
  lemma ServerReadsFrame(r: Request)
    requires ValidRequest(r) && Fits(r)
    ensures Split(Frame(r)) == Cut([Body(r)], []) && ServerReads(Body(r)) == Some(r)
  {
    TerminatorSurvives(r);
    BodyFacts(r);
    assert Body(r) + CRLF + [] == Body(r) + CRLF;
    SplitAtFirst(Body(r), []);
    FindAbsent([], CRLF);
    ServerReadsBody(r);
  }

  /** How a message is cut when it does not fit the send buffer: after 60006 bytes, whatever they are. */
  lemma FrameExactly(r: Request)
    ensures var full := Body(r) + [13, 10]; Frame(r) == if |full| <= 60006 then full else full[..60006]
    ensures Fits(r) <==> (r.SayRequest? ==> |r.name| + |r.content| <= 59991)
  {
  }

  // ----- from the keyboard to the server -----

  predicate LineReads(line: Bytes, r: Request) {
    (forall i :: 0 <= i < |line| ==> line[i] != 0) && ServerReads(line) == Some(r)
  }

  /** The lines of these bytes are these requests, and nothing is left over. */
  ghost predicate HeardExactly(s: Bytes, rs: seq<Request>) {
    var cut := Split(s);
    |cut.lines| == |rs| && cut.tail == [] && forall i :: 0 <= i < |rs| ==> LineReads(cut.lines[i], rs[i])
  }

  lemma BodyReads(r: Request)
    requires ValidRequest(r)
    ensures LineReads(Body(r), r)
  {
    ServerReadsBody(r);
  }

  lemma OutputIsHeard(rs: seq<Request>)
    requires AllValid(rs) && AllFit(rs)
    ensures HeardExactly(Output(rs), rs)
  {
    SplitOutput(rs);
    BodiesAt(rs);
    forall i | 0 <= i < |rs| ensures LineReads(Bodies(rs)[i], rs[i]) {
      BodyReads(rs[i]);
    }
  }

  /** Over every run: what the server reads from all the bytes sent is what was sent, message by message. */
  lemma ServerHearsTheRun(name: CString, run: seq<C.Action>, c: C.Client)
    requires C.Reaches(name, run, c) && ValidName(name) && AllFit(C.Requests(c.log))
    ensures HeardExactly(Output(C.Requests(c.log)), C.Requests(c.log))
  {
    C.RequestsAreValid(name, run, c);
    OutputIsHeard(C.Requests(c.log));
  }

  /** Every input sends what the commands make of it, and nothing else, and leaves their state and name. */
  lemma InputIsSent(c: C.Client, cmd: Command)
    ensures var r, c' := Dispatch(true, c.state, c.name, cmd), C.OnInput(c, cmd);
      && C.Requests(c'.log) == C.Requests(c.log) + (if r.emit.Some? then [r.emit.value] else [])
      && c'.state == r.state && c'.name == r.name && c'.stream == c.stream && c'.shown == c.shown && c'.quit == c.quit
  {
    var emit := Dispatch(true, c.state, c.name, cmd).emit;
    C.RequestsOne(c.log, C.Typed(cmd));
    if emit.Some? {
      C.RequestsOne(c.log + [C.Typed(cmd)], C.Sent(emit.value));
    } else {
      assert c.log + [C.Typed(cmd)] + [] == c.log + [C.Typed(cmd)];
    }
  }

  /** What a command in order means to the server. */
  function Meaning(c: C.Client, cmd: Command): Request
    requires InOrder(c.state, c.name, cmd) && !cmd.RenameCmd?
  {
    match cmd
    case AuthCmd(args) => AuthRequest(args[0], args[2], args[1])
    case JoinCmd(args) => JoinRequest(args[0], c.name)
    case SayCmd(line) => SayRequest(c.name, line)
  }

  /** A command in order adds one message to those sent, and the server reads the typed parameters from its line. */
  lemma TypedIsRead(c: C.Client, cmd: Command)
    requires InOrder(c.state, c.name, cmd) && !cmd.RenameCmd? && ValidName(c.name)
    ensures C.Requests(C.OnInput(c, cmd).log) == C.Requests(c.log) + [Meaning(c, cmd)]
    ensures ServerReads(Body(Meaning(c, cmd))) == Some(Meaning(c, cmd))
  {
    DispatchTakesEffect(true, c.state, c.name, cmd);
    DispatchIsSafe(true, c.state, c.name, cmd);
    C.RequestsOne(c.log, C.Typed(cmd));
    C.RequestsOne(c.log + [C.Typed(cmd)], C.Sent(Meaning(c, cmd)));
    ServerReadsBody(Meaning(c, cmd));
  }

  /** The end of the input adds a BYE with the current name, as the server reads it. */
  lemma QuitIsRead(c: C.Client)
    requires ValidName(c.name)
    ensures C.Requests(C.OnEndOfInput(c).log) == C.Requests(c.log) + [ByeRequest(c.name)]
    ensures ServerReads(Body(ByeRequest(c.name))) == Some(ByeRequest(c.name)) && C.OnEndOfInput(c).quit
  {
    C.RequestsOne(c.log, C.Sent(ByeRequest(c.name)));
    ServerReadsBody(ByeRequest(c.name));
  }

  // ----- what a server sends, and what the client makes of it -----

  /** The four kinds of lines the client knows, by their first words; every other line is unknown to it. */
  lemma UnknownLines(line: CString)
    ensures ProcessLine(line).Unknown? <==>
      !(Ascii("REPLY ") <= line) && !(Ascii("MSG FROM ") <= line) && !(Ascii("ERR FROM ") <= line) &&
      !(Ascii("BYE FROM ") <= line)
  {
    Words();
    ReplyWords();
  }

  lemma ByeLines(line: CString)
    ensures ProcessLine(line).Goodbye? <==> Ascii("BYE FROM ") <= line
  {
    Words();
    if BYE_FROM <= line {
      assert line[0] == BYE_FROM[0];
    }
  }

  lemma OtherLines(line: CString)
    ensures ProcessLine(line).ReplyLine? ==> Ascii("REPLY ") <= line
    ensures ProcessLine(line).Chat? ==> Ascii("MSG FROM ") <= line
    ensures ProcessLine(line).Fatal? ==> Ascii("ERR FROM ") <= line
  {
    Words();
    ReplyWords();
  }

  /** A name is what precedes the first " IS ", cut to 20 bytes; the content is what follows. */
  lemma TextLinesExactly(text: CString)
    ensures ProcessLine(Ascii("MSG FROM ") + text) == match Find(text, Ascii(" IS ")) {
      case None => Malformed
      case Some(k) => Chat(text[..if k <= 20 then k else 20], text[k + 4..]) }
    ensures ProcessLine(Ascii("ERR FROM ") + text) == match Find(text, Ascii(" IS ")) {
      case None => Malformed
      case Some(k) => Fatal(text[..if k <= 20 then k else 20], text[k + 4..]) }
  {
    Words();
    ProcessNamed(MSG_FROM, text);
    ProcessNamed(ERR_FROM, text);
    var r := Find(text, IS_MARK);
    if r.Some? {
      assert text[..r.value][..if r.value <= 20 then r.value else 20] == text[..if r.value <= 20 then r.value else 20];
    }
    assert MSG_FROM[0] != ERR_FROM[0];
  }

  // The format "REPLY %3s IS %[^\r\n]", as a shape.

  /** White space in the C locale. */
  predicate Blank(s: Bytes) {
    forall i :: 0 <= i < |s| ==> s[i] in {9, 10, 11, 12, 13, 32}
  }

  predicate Solid(s: Bytes) {
    s == [] || s[0] !in {9, 10, 11, 12, 13, 32}
  }

  predicate OneLine(s: Bytes) {
    forall i :: 0 <= i < |s| ==> s[i] != 13 && s[i] != 10
  }

  lemma {:induction false} SkipsBlanks(blanks: Bytes, s: Bytes)
    requires Blank(blanks) && Solid(s)
    ensures SkipSpace(blanks + s) == s
  {
    if blanks == [] {
      assert blanks + s == s;
    } else {
      assert (blanks + s)[1..] == blanks[1..] + s;
      SkipsBlanks(blanks[1..], s);
    }
  }

  /** A REPLY line in pieces. */
  datatype Pieces = Pieces(b0: Bytes, ok: bool, b1: Bytes, b2: Bytes, content: Bytes, rest: Bytes)

  predicate WellShaped(p: Pieces) {
    && Blank(p.b0) && Blank(p.b1) && Blank(p.b2)
    && (p.ok ==> p.b1 != [])
    && p.content != [] && Solid(p.content) && OneLine(p.content)
    && (p.rest == [] || p.rest[0] in {13, 10})
  }

  /** "REPLY " and blanks, the word, blanks, "IS", blanks, the content, and a rest that is not read. */
  function Assembled(p: Pieces): Bytes {
    Ascii("REPLY ") + (p.b0 + (Word(p.ok) + (p.b1 + (Ascii("IS") + (p.b2 + (p.content + p.rest))))))
  }

  function Word(ok: bool): Bytes {
    if ok then Ascii("OK") else Ascii("NOK")
  }

  lemma ReadsOk(rest: Bytes)
    requires rest == [] || Space(rest[0])
    ensures Token(OK + rest, 3) == OK
  {
    var s := OK + rest;
    assert s[1..] == [0x4B] + rest;
    assert s[1..][1..] == rest;
    assert Token(s[1..][1..], 1) == [];
  }

  lemma ReadsNok(rest: Bytes)
    ensures Token(NOK + rest, 3) == NOK
  {
    var s := NOK + rest;
    assert s[1..] == [0x4F, 0x4B] + rest;
    assert s[1..][1..] == [0x4B] + rest;
    assert Token(s[1..][1..], 1) == [0x4B] + Token(s[1..][1..][1..], 0);
  }

  lemma ReadsContent(b2: Bytes, content: Bytes, rest: Bytes)
    requires Blank(b2) && content != [] && Solid(content) && OneLine(content) && (rest == [] || rest[0] in {13, 10})
    ensures UntilBreak(SkipSpace(b2 + (content + rest))) == content
  {
    SkipsBlanks(b2, content + rest);
    UntilBreakOf(content, rest);
  }

  /** Behind the word: blanks, "IS", and what `tail` holds. */
  lemma ReadsIs(b1: Bytes, tail: Bytes)
    requires Blank(b1)
    ensures var s := SkipSpace(b1 + (IS_WORD + tail)); IS_WORD <= s && s[2..] == tail
  {
    SkipsBlanks(b1, IS_WORD + tail);
  }

  lemma ReadsWord(ok: bool, tail: Bytes)
    requires ok ==> tail == [] || Space(tail[0])
    ensures var word := if ok then OK else NOK; Token(word + tail, 3) == word && (word + tail)[|word|..] == tail
  {
    if ok {
      ReadsOk(tail);
    } else {
      ReadsNok(tail);
    }
  }

  lemma ReadsStart(b0: Bytes, s: Bytes)
    requires Blank(b0) && Solid(s)
    ensures var line := REPLY_WORD + (b0 + s); REPLY_WORD <= line && SkipSpace(line[5..]) == s
  {
    var line := REPLY_WORD + (b0 + s);
    assert line[5..] == ([0x20] + b0) + s;
    SkipsBlanks([0x20] + b0, s);
  }

  /** Every line of this shape is read as the result and the content it holds. */
  lemma ShapedLinesAreRead(p: Pieces)
    requires WellShaped(p)
    ensures REPLY_WORD <= Assembled(p) && ProcessLine(Assembled(p)) == ReplyLine(p.ok, p.content)
  {
    ReplyWords();
    var word := if p.ok then OK else NOK;
    var tail := p.b2 + (p.content + p.rest);
    var more := p.b1 + (IS_WORD + tail);
    assert p.ok ==> more[0] == p.b1[0];
    ReadsStart(p.b0, word + more);
    ReadsWord(p.ok, more);
    ReadsIs(p.b1, tail);
    ReadsContent(p.b2, p.content, p.rest);
  }

  lemma {:induction false} Blanks(s: Bytes) returns (b: Bytes)
    ensures s == b + SkipSpace(s) && Blank(b) && Solid(SkipSpace(s))
  {
    if s != [] && Space(s[0]) {
      b := Blanks(s[1..]);
      b := [s[0]] + b;
    } else {
      b := [];
    }
  }

  lemma {:induction false} LineEnds(s: Bytes)
    ensures var c := UntilBreak(s); OneLine(c) && c <= s && (|c| < |s| ==> s[|c|] in {13, 10})
  {
    if s != [] && s[0] != CR && s[0] != LF {
      LineEnds(s[1..]);
      var c := UntilBreak(s[1..]);
      assert UntilBreak(s) == [s[0]] + c;
    }
  }

  lemma OkEnds(s: Bytes)
    requires Token(s, 3) == OK
    ensures |s| >= 2 && (|s| > 2 ==> Space(s[2]))
  {
    var r := Token(s[1..], 2);
    assert OK == [s[0]] + r;
    assert r == OK[1..];
    var q := Token(s[1..][1..], 1);
    assert r == [s[1..][0]] + q;
    assert q == [];
    assert |s| > 2 ==> s[1..][1..][0] == s[2];
  }

  lemma ReplyPrefix(line: Bytes)
    requires ProcessLine(line).ReplyLine?
    ensures REPLY_WORD <= line && ParseReply(line) == ProcessLine(line) && ScanReply(line).Some?
  {
  }

  /** The pieces behind the word. */
  lemma RestOfReply(s: Bytes, ok: bool) returns (b1: Bytes, b2: Bytes, rest: Bytes)
    requires IS_WORD <= SkipSpace(s) && (ok ==> s == [] || Space(s[0]))
    requires UntilBreak(SkipSpace(SkipSpace(s)[2..])) != []
    ensures var content := UntilBreak(SkipSpace(SkipSpace(s)[2..]));
      && s == b1 + (IS_WORD + (b2 + (content + rest)))
      && Blank(b1) && Blank(b2) && (ok ==> b1 != []) && Solid(content) && OneLine(content)
      && (rest == [] || rest[0] in {13, 10})
  {
    b1 := Blanks(s);
    var s' := SkipSpace(s);
    b2 := Blanks(s'[2..]);
    var t := SkipSpace(s'[2..]);
    LineEnds(t);
    rest := t[|UntilBreak(t)|..];
    assert t == UntilBreak(t) + rest;
    assert s' == IS_WORD + s'[2..];
  }

  /** And only lines of this shape are read as a REPLY. */
  lemma ReadRepliesAreShaped(line: Bytes) returns (p: Pieces)
    requires ProcessLine(line).ReplyLine?
    ensures WellShaped(p) && Assembled(p) == line && ProcessLine(line) == ReplyLine(p.ok, p.content)
  {
    ReplyWords();
    ReplyPrefix(line);
    var ok := ProcessLine(line).ok;
    var word := if ok then OK else NOK;
    var b := Blanks(line[5..]);
    var s := SkipSpace(line[5..]);
    assert line[5..][0] == REPLY_WORD[5];
    assert Token(s, 3) == word;
    if ok {
      OkEnds(s);
    }
    var b1, b2, rest := RestOfReply(s[|word|..], ok);
    p := Pieces(b[1..], ok, b1, b2, ProcessLine(line).content, rest);
    assert s == word + s[|word|..];
    PutTogether(line, b, s, p);
  }

  lemma PutTogether(line: Bytes, b: Bytes, s: Bytes, p: Pieces)
    requires REPLY_WORD <= line && line[5..] == b + s && b != [] && b[0] == 0x20 && p.b0 == b[1..]
    requires s == (if p.ok then OK else NOK) + (p.b1 + (IS_WORD + (p.b2 + (p.content + p.rest))))
    ensures Assembled(p) == line
  {
    ReplyWords();
    var tail := p.b0 + s;
    assert b + s == [0x20] + tail;
    assert line == line[..5] + line[5..];
    assert REPLY_WORD == line[..5] + [0x20];
    Assoc(line[..5], [0x20], tail);
  }

  // ----- what a line shows -----

  /** What the user is to see of a line: the outcome of a REPLY, a chat message, an error; nothing of other lines. */
  function Owed(line: Bytes): seq<Verdict> {
    match ProcessLine(line)
    case ReplyLine(ok, content) => [ReplyLine(ok, content)]
    case Chat(name, content) => [Chat(name, content)]
    case Fatal(name, content) => [Fatal(name, content)]
    case Goodbye => []
    case Unknown => []
    case Malformed => []
  }

  function OwedAll(lines: seq<Bytes>): seq<Verdict> {
    if lines == [] then [] else OwedAll(lines[..|lines| - 1]) + Owed(lines[|lines| - 1])
  }

  lemma OwedOne(line: Bytes)
    ensures Owed(line) == if Displays(ProcessLine(line)) then [ProcessLine(line)] else []
  {
  }

  lemma {:induction false} DisplayedIsOwed(lines: seq<Bytes>)
    ensures Displayed(lines) == OwedAll(lines)
  {
    if lines != [] {
      DisplayedIsOwed(lines[..|lines| - 1]);
      OwedOne(lines[|lines| - 1]);
    }
  }

  /** Over every run: the output is what the handled lines owe the user, line by line. */
  lemma RunShowsWhatIsOwed(name: CString, run: seq<C.Action>, c: C.Client)
    requires C.Reaches(name, run, c)
    ensures c.shown == OwedAll(c.stream.handled)
  {
    C.RunShowsItsLines(name, run, c);
    DisplayedIsOwed(c.stream.handled);
  }

  /** A listening client with nothing carried over receives a whole line: exactly what it owes the user is added. */
  lemma ReceiveShows(c: C.Client, line: CString)
    requires c.stream.Open? && c.stream.carry == [] && !HasCrlf(line)
    ensures C.OnReceive(c, line + CRLF).shown == c.shown + Owed(line)
  {
    TcpDiagram.ReceiveLine(c, line);
    DisplayedIsOwed([line]);
    assert [line][..0] == [];
    assert OwedAll([]) + Owed(line) == Owed(line);
  }

  lemma NoCrNoCrlf(line: Bytes)
    requires NoCr(line)
    ensures !HasCrlf(line)
  {
  }

  /** The outcome of a REPLY is shown, with its content. */
  lemma ReplyIsShown(c: C.Client, ok: bool, content: CString, line: CString)
    requires c.stream.Open? && c.stream.carry == [] && content != [] && Solid(content) && OneLine(content)
    requires line == (if ok then Ascii("REPLY OK IS ") else Ascii("REPLY NOK IS ")) + content
    ensures C.OnReceive(c, line + [13, 10]).shown == c.shown + [ReplyLine(ok, content)]
  {
    ReplyStart();
    ReplyOwed(ok, content);
    ReceiveShows(c, line);
  }

  lemma ReplyStart()
    ensures Ascii("REPLY OK IS ") == REPLY_WORD + OK + IS_MARK && Ascii("REPLY NOK IS ") == REPLY_WORD + NOK + IS_MARK
  {
  }

  lemma ReplyOwed(ok: bool, content: CString)
    requires content != [] && Solid(content) && OneLine(content)
    ensures Owed(ReplyText(ok, content)) == [ReplyLine(ok, content)] && !HasCrlf(ReplyText(ok, content))
  {
    ReplyRoundTrip(ok, content);
    ReplyHasNoCrlf(ok, content);
  }

  lemma ReplyHasNoCrlf(ok: bool, content: CString)
    requires OneLine(content)
    ensures !HasCrlf(ReplyText(ok, content))
  {
    NoCrJoin(REPLY_WORD + (if ok then OK else NOK) + IS_MARK, content);
    NoCrNoCrlf(ReplyText(ok, content));
  }

  lemma ErrorOwed(name: CString, content: CString)
    requires ValidName(name)
    ensures Owed(ERR_FROM + name + IS_MARK + content) == [Fatal(name, content)]
  {
    ValidNamesRoundTrip(name, content);
  }

  /** An error of the server is shown, with its sender and content. */
  lemma ErrorIsShown(c: C.Client, name: CString, content: CString, line: CString)
    requires c.stream.Open? && c.stream.carry == [] && ValidName(name) && !HasCrlf(line)
    requires line == Ascii("ERR FROM ") + name + Ascii(" IS ") + content
    ensures C.OnReceive(c, line + [13, 10]).shown == c.shown + [Fatal(name, content)]
  {
    Words();
    ErrorOwed(name, content);
    ReceiveShows(c, line);
  }

  /** A BYE, an unknown line and a malformed one show nothing. */
  lemma OthersAreNotShown(c: C.Client, line: CString)
    requires c.stream.Open? && c.stream.carry == [] && !HasCrlf(line)
    requires ProcessLine(line) in {Goodbye, Unknown, Malformed}
    ensures C.OnReceive(c, line + [13, 10]).shown == c.shown
  {
    ReceiveShows(c, line);
  }
}
