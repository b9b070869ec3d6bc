/** The text messages of the TCP variant: the send_tcp_* formatters and the process_tcp_* parsers of src/network_tcp.c. */
module TcpText {
  import opened Base
  import opened Validation
  import opened Commands

  const REPLY_WORD: CString := [0x52, 0x45, 0x50, 0x4C, 0x59, 0x20]                          // "REPLY "
  const MSG_FROM: CString := [0x4D, 0x53, 0x47, 0x20, 0x46, 0x52, 0x4F, 0x4D, 0x20]     // "MSG FROM "
  const ERR_FROM: CString := [0x45, 0x52, 0x52, 0x20, 0x46, 0x52, 0x4F, 0x4D, 0x20]     // "ERR FROM "
  const BYE_FROM: CString := [0x42, 0x59, 0x45, 0x20, 0x46, 0x52, 0x4F, 0x4D, 0x20]     // "BYE FROM "
  const FROM_WORD: CString := [0x46, 0x52, 0x4F, 0x4D, 0x20]                                 // "FROM "
  const IS_MARK: CString := [0x20, 0x49, 0x53, 0x20]                                        // " IS "
  const AUTH_WORD: CString := [0x41, 0x55, 0x54, 0x48, 0x20]                                 // "AUTH "
  const JOIN_WORD: CString := [0x4A, 0x4F, 0x49, 0x4E, 0x20]                                 // "JOIN "
  const AS_MARK: CString := [0x20, 0x41, 0x53, 0x20]                                        // " AS "
  const USING_MARK: CString := [0x20, 0x55, 0x53, 0x49, 0x4E, 0x47, 0x20]                   // " USING "
  const OK: CString := [0x4F, 0x4B]
  const NOK: CString := [0x4E, 0x4F, 0x4B]
  const IS_WORD: CString := [0x49, 0x53]

  // ----- searching -----

  /** `strstr`: the first position at which the pattern occurs. */
  function Find(s: Bytes, p: Bytes): (r: Option<nat>)
    ensures r.Some? ==> r.value + |p| <= |s|
  {
    if p <= s then Some(0)
    else if s == [] then None
    else
      match Find(s[1..], p)
      case Some(i) => Some(i + 1)
      case None => None
  }

  /** The result is an occurrence, and there is none before it; no result means no occurrence. */
  lemma {:induction false} FindSpec(s: Bytes, p: Bytes)
    ensures match Find(s, p)
            case Some(i) => p <= s[i..] && forall j :: 0 <= j < i ==> !(p <= s[j..])
            case None => forall j :: 0 <= j <= |s| ==> !(p <= s[j..])
  {
    if !(p <= s) && s != [] {
      FindSpec(s[1..], p);
      assert forall j :: 1 <= j <= |s| ==> s[j..] == s[1..][j - 1..];
    }
  }

  lemma FindUnique(s: Bytes, p: Bytes, i: nat)
    requires i <= |s| && p <= s[i..] && forall j :: 0 <= j < i ==> !(p <= s[j..])
    ensures Find(s, p) == Some(i)
  {
    FindSpec(s, p);
  }

  lemma FindAbsent(s: Bytes, p: Bytes)
    requires forall j :: 0 <= j <= |s| ==> !(p <= s[j..])
    ensures Find(s, p) == None
  {
    FindSpec(s, p);
  }

  // ----- sending -----

  /** `snprintf` into a buffer of `size` bytes. */
  function Snprintf(size: nat, s: Bytes): Bytes
    requires size > 0
  {
    if |s| < size then s else s[..size - 1]
  }

  const MAX_MSG_SIZE: nat := MAX_CONTENT + 2 + 4 + 1

  function Body(r: Request): CString {
    match r
    case AuthRequest(username, name, secret) => AUTH_WORD + username + AS_MARK + name + USING_MARK + secret
    case JoinRequest(channel, name) => JOIN_WORD + channel + AS_MARK + name
    case SayRequest(name, content) => MSG_FROM + name + IS_MARK + content
    case ByeRequest(name) => BYE_FROM + name
  }

  /** send_tcp_auth_msg, send_tcp_join_msg, send_tcp_msg_msg and send_tcp_bye_msg. */
  function Frame(r: Request): Bytes {
    Snprintf(MAX_MSG_SIZE, Body(r) + CRLF)
  }

  /** The longest chat line that leaves room for the terminator. */
  const LONGEST_CHAT: nat := 59991

  predicate Fits(r: Request) {
    r.SayRequest? ==> |r.name| + |r.content| <= LONGEST_CHAT
  }

  ghost predicate NoCr(s: Bytes) {
    forall i :: 0 <= i < |s| ==> s[i] != CR
  }

  lemma NoCrJoin(a: Bytes, b: Bytes)
    requires NoCr(a) && NoCr(b)
    ensures NoCr(a + b)
  {
  }

  lemma BodyHasNoCr(r: Request)
    requires ValidRequest(r)
    ensures NoCr(Body(r))
  {
    match r
    case AuthRequest(username, name, secret) =>
      NoCrJoin(AUTH_WORD, username);
      NoCrJoin(AUTH_WORD + username, AS_MARK);
      NoCrJoin(AUTH_WORD + username + AS_MARK, name);
      NoCrJoin(AUTH_WORD + username + AS_MARK + name, USING_MARK);
      NoCrJoin(AUTH_WORD + username + AS_MARK + name + USING_MARK, secret);
    case JoinRequest(channel, name) =>
      NoCrJoin(JOIN_WORD, channel);
      NoCrJoin(JOIN_WORD + channel, AS_MARK);
      NoCrJoin(JOIN_WORD + channel + AS_MARK, name);
    case SayRequest(name, content) =>
      NoCrJoin(MSG_FROM, name);
      NoCrJoin(MSG_FROM + name, IS_MARK);
      NoCrJoin(MSG_FROM + name + IS_MARK, content);
    case ByeRequest(name) =>
      NoCrJoin(BYE_FROM, name);
  }

  predicate EndsWithCrlf(s: Bytes) {
    |s| >= 2 && s[|s| - 2..] == CRLF
  }

  /** A valid request goes out with its terminator exactly when it fits; only chat lines can be too long. */
  lemma TerminatorSurvives(r: Request)
    requires ValidRequest(r)
    ensures EndsWithCrlf(Frame(r)) <==> Fits(r)
    ensures Fits(r) ==> Frame(r) == Body(r) + CRLF
  {
    BodyHasNoCr(r);
    var full := Body(r) + CRLF;
    assert full[|full| - 2..] == CRLF;
    if |full| >= MAX_MSG_SIZE {
      var f := Frame(r);
      assert f[|f| - 2] == Body(r)[|f| - 2];
      assert f[|f| - 2..][0] == f[|f| - 2];
    }
  }

  /** A valid chat line that does not fit: a name of one byte and a content of 59991. */
  lemma LongChatLosesTerminator() returns (r: Request)
    ensures ValidRequest(r) && r.SayRequest? && |r.name| + |r.content| == LONGEST_CHAT + 1
    ensures !EndsWithCrlf(Frame(r))
  {
    var content: CString := seq(LONGEST_CHAT, _ => 0x61);
    r := SayRequest([0x61], content);
    TerminatorSurvives(r);
  }

  // ----- receiving -----

  /** What `process_tcp_message` makes of a line. */
  datatype Verdict =
    | ReplyLine(ok: bool, content: Bytes)
    | Chat(name: Bytes, content: Bytes)
    | Fatal(name: Bytes, content: Bytes)
    | Goodbye
    | Unknown
    | Malformed

  /** These end the process. */
  predicate Ends(v: Verdict) {
    v.Fatal? || v.Goodbye? || v.Unknown?
  }

  function Clipped(s: Bytes): Bytes {
    if |s| <= MAX_NAME then s else s[..MAX_NAME]
  }

  /** The second search: the name before the marker, the content after it. */
  function ParseNamed(rest: Bytes): Option<(Bytes, Bytes)> {
    match Find(rest, IS_MARK)
    case None => None
    case Some(k) => Some((Clipped(rest[..k]), rest[k + |IS_MARK|..]))
  }

  /** The two `strstr` searches of process_tcp_msg_message and process_tcp_err_message. */
  function ParseText(line: Bytes): Option<(Bytes, Bytes)> {
    match Find(line, FROM_WORD)
    case None => None
    case Some(f) => ParseNamed(line[f + |FROM_WORD|..])
  }

  /** `isspace` in the C locale. */
  predicate Space(c: byte) {
    c == 0x20 || 0x09 <= c <= 0x0D
  }

  function SkipSpace(s: Bytes): (r: Bytes)
    ensures |r| <= |s|
    ensures s != [] && Space(s[0]) ==> |r| < |s|
    ensures s != [] && !Space(s[0]) ==> r == s
  {
    if s != [] && Space(s[0]) then SkipSpace(s[1..]) else s
  }

  /** `%3s` after the white space: at most `width` bytes that are not white space. */
  function Token(s: Bytes, width: nat): (r: Bytes)
    ensures r <= s
  {
    if width == 0 || s == [] || Space(s[0]) then [] else [s[0]] + Token(s[1..], width - 1)
  }

  /** `%[^\r\n]`: everything before the first line break. */
  function UntilBreak(s: Bytes): (r: Bytes)
    ensures r <= s
    ensures r == s <==> forall i :: 0 <= i < |s| ==> s[i] != CR && s[i] != LF
  {
    if s == [] || s[0] == CR || s[0] == LF then []
    else
      assert forall i :: 1 <= i < |s| ==> s[i] == s[1..][i - 1];
      assert s == [s[0]] + s[1..];
      [s[0]] + UntilBreak(s[1..])
  }

  lemma {:induction false} UntilBreakOf(content: Bytes, rest: Bytes)
    requires forall i :: 0 <= i < |content| ==> content[i] != CR && content[i] != LF
    requires rest == [] || rest[0] == CR || rest[0] == LF
    ensures UntilBreak(content + rest) == content
  {
    if content == [] {
      assert content + rest == rest;
    } else {
      assert (content + rest)[1..] == content[1..] + rest;
      UntilBreakOf(content[1..], rest);
    }
  }

  /** `sscanf(message, "REPLY %3s IS %[^\r\n]", ...)` on a line that starts with "REPLY "; `None` below two conversions. */
  function ScanReply(line: Bytes): Option<(Bytes, Bytes)>
    requires REPLY_WORD <= line
  {
    var s := SkipSpace(line[5..]);
    var result := Token(s, 3);
    var s' := SkipSpace(s[|result|..]);
    if result == [] || !(IS_WORD <= s') then None
    else
      var content := UntilBreak(SkipSpace(s'[2..]));
      if content == [] then None else Some((result, content))
  }

  function ParseReply(line: Bytes): Verdict
    requires REPLY_WORD <= line
  {
    match ScanReply(line)
    case None => Malformed
    case Some((result, content)) =>
      if result == OK then ReplyLine(true, content)
      else if result == NOK then ReplyLine(false, content)
      else Malformed
  }

  function ProcessLine(line: Bytes): Verdict {
    if REPLY_WORD <= line then ParseReply(line)
    else if MSG_FROM <= line then
      match ParseText(line) {
        case Some((name, content)) => Chat(name, content)
        case None => Malformed
      }
    else if ERR_FROM <= line then
      match ParseText(line) {
        case Some((name, content)) => Fatal(name, content)
        case None => Malformed
      }
    else if BYE_FROM <= line then Goodbye
    else Unknown
  }

  /** What a line does to the state: a positive REPLY opens from AUTH, any REPLY opens from JOIN. */
  function VerdictState(state: AppState, v: Verdict): AppState {
    if v.ReplyLine? && (state == Join || (state == Auth && v.ok)) then Open else state
  }

  function LineState(state: AppState, line: Bytes): AppState {
    VerdictState(state, ProcessLine(line))
  }

  function StateAfter(state: AppState, lines: seq<Bytes>): AppState {
    if lines == [] then state else LineState(StateAfter(state, lines[..|lines| - 1]), lines[|lines| - 1])
  }

  lemma StateAfterOne(state: AppState, lines: seq<Bytes>, line: Bytes)
    ensures StateAfter(state, lines + [line]) == LineState(StateAfter(state, lines), line)
  {
    assert (lines + [line])[..|lines|] == lines;
  }

  lemma {:induction false} StateAfterAppend(state: AppState, lines: seq<Bytes>, more: seq<Bytes>)
    ensures StateAfter(state, lines + more) == StateAfter(StateAfter(state, lines), more)
  {
    if more == [] {
      assert lines + more == lines;
    } else {
      var front, last := more[..|more| - 1], more[|more| - 1];
      assert lines + more == lines + front + [last];
      StateAfterOne(state, lines + front, last);
      StateAfterAppend(state, lines, front);
    }
  }

  /** These are written for the user. */
  predicate Displays(v: Verdict) {
    v.ReplyLine? || v.Chat? || v.Fatal?
  }

  /** What a list of lines shows the user. */
  function Displayed(lines: seq<Bytes>): seq<Verdict> {
    if lines == [] then []
    else
      var v := ProcessLine(lines[|lines| - 1]);
      Displayed(lines[..|lines| - 1]) + if Displays(v) then [v] else []
  }

  lemma DisplayedOne(lines: seq<Bytes>, line: Bytes)
    ensures Displayed(lines + [line]) == Displayed(lines) + if Displays(ProcessLine(line)) then [ProcessLine(line)] else []
  {
    assert (lines + [line])[..|lines|] == lines;
  }

  lemma {:induction false} DisplayedAppend(lines: seq<Bytes>, more: seq<Bytes>)
    ensures Displayed(lines + more) == Displayed(lines) + Displayed(more)
  {
    if more == [] {
      assert lines + more == lines;
    } else {
      var front, last := more[..|more| - 1], more[|more| - 1];
      assert lines + more == lines + front + [last];
      DisplayedOne(lines + front, last);
      DisplayedAppend(lines, front);
    }
  }

  // ----- the fixed buffers of the parsers -----

  const NAME_BUFFER: nat := MAX_NAME + 1
  const CONTENT_BUFFER: nat := MAX_CONTENT + 1

  /** Every string the handlers copy out of this line fits its buffer. */
  predicate CopiesFit(line: Bytes) {
    if REPLY_WORD <= line then
      match ScanReply(line) {
        case Some((_, content)) => CopyFits(content, CONTENT_BUFFER)
        case None => true
      }
    else if MSG_FROM <= line || ERR_FROM <= line then
      match ParseText(line) {
        case Some((name, content)) => CopyFits(name, NAME_BUFFER) && CopyFits(content, CONTENT_BUFFER)
        case None => true
      }
    else if BYE_FROM <= line then
      match Find(line, FROM_WORD) {
        case Some(f) => CopyFits(line[f + |FROM_WORD|..], NAME_BUFFER)
        case None => true
      }
    else true
  }

  /** The marker ends the name: it does not occur earlier, even overlapping the marker itself. */
  predicate Separable(name: Bytes) {
    Find(name + IS_MARK, IS_MARK) == Some(|name|)
  }

  lemma MarkAt(s: Bytes, j: nat)
    requires j <= |s|
    ensures IS_MARK <= s[j..] <==>
      j + 3 < |s| && s[j] == 0x20 && s[j + 1] == 0x49 && s[j + 2] == 0x53 && s[j + 3] == 0x20
  {
    if j + 3 < |s| {
      assert s[j..][0] == s[j] && s[j..][1] == s[j + 1] && s[j..][2] == s[j + 2] && s[j..][3] == s[j + 3];
    }
  }

  /** Told without the parser's search over the marker: " IS " is not in the name, nor " IS" at its end. */
  lemma SeparableMeans(name: Bytes)
    ensures Separable(name) <==> Find(name + [0x20], IS_MARK) == None
  {
    var s, t := name + IS_MARK, name + [0x20];
    FindSpec(s, IS_MARK);
    FindSpec(t, IS_MARK);
    MarkAt(s, |name|);
    forall j | 0 <= j < |name| ensures IS_MARK <= s[j..] <==> IS_MARK <= t[j..] {
      MarkAt(s, j);
      MarkAt(t, j);
    }
    MarkAt(t, |name|);
    MarkAt(t, |name| + 1);
  }

  lemma NoSpaceSeparable(name: Bytes)
    requires forall i :: 0 <= i < |name| ==> name[i] != 0x20
    ensures Separable(name)
  {
    var s := name + IS_MARK;
    assert s[|name|..] == IS_MARK;
    forall j | 0 <= j < |name| ensures !(IS_MARK <= s[j..]) {
      assert s[j..][0] == name[j];
    }
    FindUnique(s, IS_MARK, |name|);
  }

  lemma OccursAt(s: Bytes, p: Bytes, j: nat)
    requires j <= |s|
    ensures p <= s[j..] <==> j + |p| <= |s| && s[j..j + |p|] == p
  {
    if j + |p| <= |s| {
      assert s[j..][..|p|] == s[j..j + |p|];
    }
  }

  /** The marker occurs before the end of the name only if the content has no part in it. */
  lemma MarkerInName(name: Bytes, content: Bytes, j: nat)
    requires j < |name|
    ensures IS_MARK <= (name + IS_MARK + content)[j..] <==> IS_MARK <= (name + IS_MARK)[j..]
  {
    var s, t := name + IS_MARK + content, name + IS_MARK;
    OccursAt(s, IS_MARK, j);
    OccursAt(t, IS_MARK, j);
    assert s[j..j + 4] == t[j..j + 4];
  }

  lemma MarkerAfterName(name: Bytes, content: Bytes)
    ensures IS_MARK <= (name + IS_MARK + content)[|name|..] && IS_MARK <= (name + IS_MARK)[|name|..]
  {
    OccursAt(name + IS_MARK + content, IS_MARK, |name|);
    OccursAt(name + IS_MARK, IS_MARK, |name|);
  }

  /** Searching for the marker in a name, the marker and anything else finds the name's end exactly for separable names. */
  lemma MarkerFound(name: Bytes, content: Bytes)
    ensures var r := Find(name + IS_MARK + content, IS_MARK);
            r.Some? && r.value <= |name| && (r == Some(|name|) <==> Separable(name))
  {
    var s, t := name + IS_MARK + content, name + IS_MARK;
    FindSpec(s, IS_MARK);
    FindSpec(t, IS_MARK);
    MarkerAfterName(name, content);
    forall j | 0 <= j < |name| ensures IS_MARK <= s[j..] <==> IS_MARK <= t[j..] {
      MarkerInName(name, content, j);
    }
  }

  /** "MSG FROM " and "ERR FROM " contain "FROM " at position 4 and nowhere before. */
  lemma FromFound(prefix: Bytes, rest: Bytes)
    requires prefix == MSG_FROM || prefix == ERR_FROM
    ensures Find(prefix + rest, FROM_WORD) == Some(4)
  {
    var s := prefix + rest;
    assert s[4..9] == FROM_WORD;
    assert s[4..] == FROM_WORD + rest;
    forall j | 0 <= j < 4 ensures !(FROM_WORD <= s[j..]) {
      assert s[j..][0] == prefix[j];
    }
    FindUnique(s, FROM_WORD, 4);
  }

  lemma ParseNamedOf(name: Bytes, content: Bytes)
    ensures var r := ParseNamed(name + IS_MARK + content);
      r.Some? && (r == Some((name, content)) <==> |name| <= MAX_NAME && Separable(name))
  {
    var rest := name + IS_MARK + content;
    MarkerFound(name, content);
    var k := Find(rest, IS_MARK).value;
    if k == |name| {
      assert rest[..k] == name;
      assert rest[k + 4..] == content;
    } else {
      assert |Clipped(rest[..k])| < |name|;
    }
  }

  /** The dispatch of `process_tcp_message` on a line that announces a chat message or an error. */
  lemma ProcessNamed(prefix: Bytes, tail: Bytes)
    requires prefix == MSG_FROM || prefix == ERR_FROM
    ensures ParseText(prefix + tail) == ParseNamed(tail)
    ensures ProcessLine(prefix + tail) == match ParseNamed(tail) {
      case None => Malformed
      case Some((name, content)) => if prefix == MSG_FROM then Chat(name, content) else Fatal(name, content)
    }
  {
    var line := prefix + tail;
    FromFound(prefix, tail);
    assert line[9..] == tail;
    assert line[0] == prefix[0] && prefix <= line;
  }

  /** The client reads back the MSG it would write itself exactly for names of at most 20 bytes that the marker can end. */
  lemma ChatRoundTrip(name: CString, content: CString)
    ensures ProcessLine(Body(SayRequest(name, content))) == Chat(name, content) <==> |name| <= MAX_NAME && Separable(name)
  {
    var tail := name + IS_MARK + content;
    assert Body(SayRequest(name, content)) == MSG_FROM + tail;
    ProcessNamed(MSG_FROM, tail);
    ParseNamedOf(name, content);
  }

  /** Names that are not read back: one with the marker inside, and one of 21 bytes. */
  lemma NamesNotReadBack(content: CString) returns (marked: CString, long: CString)
    ensures |marked| <= MAX_NAME && !Separable(marked) && |long| == MAX_NAME + 1 && Separable(long)
    ensures ProcessLine(Body(SayRequest(marked, content))) != Chat(marked, content)
    ensures ProcessLine(Body(SayRequest(long, content))) != Chat(long, content)
  {
    marked := IS_MARK;
    long := seq(MAX_NAME + 1, _ => 0x61);
    FindSpec(marked + IS_MARK, IS_MARK);
    MarkAt(marked + IS_MARK, 0);
    NoSpaceSeparable(long);
    ChatRoundTrip(marked, content);
    ChatRoundTrip(long, content);
  }

  lemma ValidNameParses(name: Bytes, content: Bytes)
    requires ValidName(name)
    ensures ParseNamed(name + IS_MARK + content) == Some((name, content))
  {
    NoSpaceSeparable(name);
    ParseNamedOf(name, content);
  }

  lemma NamedLine(prefix: Bytes, name: Bytes, content: Bytes)
    requires (prefix == MSG_FROM || prefix == ERR_FROM) && ValidName(name)
    ensures ProcessLine(prefix + name + IS_MARK + content) ==
            if prefix == MSG_FROM then Chat(name, content) else Fatal(name, content)
  {
    ValidNameParses(name, content);
    ProcessNamed(prefix, name + IS_MARK + content);
    Assoc(prefix, name, IS_MARK);
    Assoc(prefix, name + IS_MARK, content);
  }

  /** Names made of printable characters without space are read back whatever the content, markers included. */
  lemma ValidNamesRoundTrip(name: CString, content: CString)
    requires ValidName(name)
    ensures ProcessLine(Body(SayRequest(name, content))) == Chat(name, content)
    ensures ProcessLine(ERR_FROM + name + IS_MARK + content) == Fatal(name, content)
  {
    NamedLine(MSG_FROM, name, content);
    NamedLine(ERR_FROM, name, content);
    assert ERR_FROM[0] != MSG_FROM[0];
  }

  lemma ByeNameAt(line: Bytes)
    requires BYE_FROM <= line
    ensures Find(line, FROM_WORD) == Some(4)
  {
    assert line[4..9] == FROM_WORD;
    assert line[4..][..5] == FROM_WORD;
    forall j | 0 <= j < 4 ensures !(FROM_WORD <= line[j..]) {
      assert line[j..][0] == BYE_FROM[j];
    }
    FindUnique(line, FROM_WORD, 4);
  }

  /** The name of a BYE is copied without a check: it stays inside its buffer exactly for lines of at most 29 bytes. */
  lemma ByeCopyFitsExactly(line: Bytes)
    requires BYE_FROM <= line
    ensures CopiesFit(line) <==> |line| <= |BYE_FROM| + MAX_NAME
  {
    ByeNameAt(line);
    assert line[0] == BYE_FROM[0];
  }

  /** A BYE line whose copy does not fit. */
  lemma LongByeOverruns() returns (line: CString)
    ensures ProcessLine(line) == Goodbye && |line| == |BYE_FROM| + MAX_NAME + 1 && !CopiesFit(line)
  {
    var name: CString := seq(MAX_NAME + 1, _ => 0x61);
    line := BYE_FROM + name;
    assert line[0] == BYE_FROM[0];
    ByeCopyFitsExactly(line);
  }

  /** The name of MSG and ERR is cut first; the content fits exactly up to 60000 bytes. */
  lemma TextCopyFitsExactly(prefix: Bytes, name: Bytes, content: Bytes)
    requires (prefix == MSG_FROM || prefix == ERR_FROM) && Separable(name)
    ensures CopiesFit(prefix + (name + IS_MARK + content)) <==> |content| <= MAX_CONTENT
  {
    var tail := name + IS_MARK + content;
    ProcessNamed(prefix, tail);
    MarkerFound(name, content);
    assert tail[..|name|] == name && tail[|name| + |IS_MARK|..] == content;
    assert (prefix + tail)[0] == prefix[0] && prefix <= prefix + tail;
  }

  lemma ParseNamedShape(tail: Bytes) returns (name: Bytes)
    requires ParseNamed(tail).Some?
    ensures tail == name + IS_MARK + ParseNamed(tail).value.1 && ParseNamed(tail).value.0 == Clipped(name)
  {
    FindSpec(tail, IS_MARK);
    var k := Find(tail, IS_MARK).value;
    OccursAt(tail, IS_MARK, k);
    name := tail[..k];
    assert tail == tail[..k] + tail[k..k + 4] + tail[k + 4..];
  }

  lemma ChatStartsWithPrefix(line: Bytes)
    requires ProcessLine(line).Chat?
    ensures MSG_FROM <= line
  {
  }

  /** Reading never invents anything: a chat line is the format around the full name and the content. */
  lemma ChatLineShape(line: Bytes) returns (name: Bytes)
    requires ProcessLine(line).Chat?
    ensures line == MSG_FROM + (name + IS_MARK + ProcessLine(line).content)
    ensures ProcessLine(line).name == Clipped(name)
  {
    ChatStartsWithPrefix(line);
    var tail := line[9..];
    assert line == MSG_FROM + tail;
    ProcessNamed(MSG_FROM, tail);
    name := ParseNamedShape(tail);
  }

  function ReplyText(ok: bool, content: Bytes): Bytes {
    REPLY_WORD + (if ok then OK else NOK) + IS_MARK + content
  }

  lemma SkipOneSpace(s: Bytes)
    ensures SkipSpace([0x20] + s) == SkipSpace(s)
  {
    assert ([0x20] + s)[1..] == s;
  }

  /** The part of the format after the result word. */
  lemma AfterWord(content: Bytes)
    ensures var s := SkipSpace(IS_MARK + content);
            IS_WORD <= s && SkipSpace(s[2..]) == SkipSpace(content)
  {
    var t := IS_WORD + ([0x20] + content);
    assert IS_MARK + content == [0x20] + t;
    SkipOneSpace(t);
    assert t[2..] == [0x20] + content;
    SkipOneSpace(content);
  }

  /** A REPLY is read back exactly when its content is a non-empty single line that does not start with white space. */
  lemma ReplyRoundTrip(ok: bool, content: Bytes)
    ensures ProcessLine(ReplyText(ok, content)) == ReplyLine(ok, content) <==>
      content != [] && !Space(content[0]) && forall i :: 0 <= i < |content| ==> content[i] != CR && content[i] != LF
  {
    var word := if ok then OK else NOK;
    var line, rest := ReplyText(ok, content), IS_MARK + content;
    assert REPLY_WORD <= line;
    assert line[5..] == [0x20] + (word + rest);
    SkipOneSpace(word + rest);
    TokenOfWord(word, rest);
    assert (word + rest)[|word|..] == rest;
    AfterWord(content);
    assert ProcessLine(line) == ParseReply(line);
    var parsed := UntilBreak(SkipSpace(content));
    assert ParseReply(line) == if parsed == [] then Malformed else ReplyLine(ok, parsed);
    assert |parsed| <= |SkipSpace(content)|;
  }

  lemma TokenOfWord(word: Bytes, rest: Bytes)
    requires word == OK || word == NOK
    requires rest != [] && Space(rest[0])
    ensures Token(word + rest, 3) == word
  {
    var s := word + rest;
    assert s[1..] == word[1..] + rest;
    assert s[1..][1..] == word[2..] + rest;
    if word == NOK {
      assert s[1..][1..][1..] == rest;
      assert Token(s[1..][1..], 1) == [0x4B];
    } else {
      assert Token(s[1..][1..], 1) == [];
    }
  }

  /** REPLY contents that are not read back: none at all, a leading space, a second line. */
  lemma RepliesNotReadBack(ok: bool)
    ensures ProcessLine(ReplyText(ok, [])) != ReplyLine(ok, [])
    ensures ProcessLine(ReplyText(ok, [0x20, 0x61])) != ReplyLine(ok, [0x20, 0x61])
    ensures ProcessLine(ReplyText(ok, [0x61, LF, 0x61])) != ReplyLine(ok, [0x61, LF, 0x61])
  {
    var lines: Bytes := [0x61, LF, 0x61];
    assert lines[1] == LF;
    ReplyRoundTrip(ok, []);
    ReplyRoundTrip(ok, [0x20, 0x61]);
    ReplyRoundTrip(ok, lines);
  }

  /** The same for the content of a REPLY. */
  lemma ReplyCopyFitsExactly(ok: bool, content: Bytes)
    requires ProcessLine(ReplyText(ok, content)) == ReplyLine(ok, content)
    ensures CopiesFit(ReplyText(ok, content)) <==> |content| <= MAX_CONTENT
  {
    assert REPLY_WORD <= ReplyText(ok, content);
  }
}
