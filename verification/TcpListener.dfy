/**
 * `tcp_listener` and `process_tcp_message` of src/network_tcp.c as they are written: C strings in a receive
 * buffer that is cut in place, and a growing line buffer with explicit capacity.
 */
module TcpListener {
  import opened Base
  import opened Commands
  import opened TcpText
  import opened TcpFraming
  import opened TcpOutput

  // ----- the C library -----

  /** `strlen` of the C string that starts at `from`. */
  method CLength(a: array<byte>, from: nat) returns (n: nat)
    requires from <= a.Length && from + Strlen(a[from..]) < a.Length
    ensures n == Strlen(a[from..])
  {
    n := 0;
    ghost var s := a[from..];
    while a[from + n] != 0
      invariant n <= Strlen(s)
      decreases Strlen(s) - n
    {
      assert a[from + n] == s[n];
      n := n + 1;
    }
    assert s[..Strlen(s)][..n] == s[..n];
    assert a[from + n] == s[n];
    StrlenUnique(s, n);
  }

  /** `strstr(start, "\r\n")` on the C string between `start` and its terminator at `limit`. */
  method FindCrlf(a: array<byte>, start: nat, ghost limit: nat) returns (r: Option<nat>)
    requires start <= limit < a.Length && a[limit] == 0 && NulFree(a[start..limit])
    ensures r.Some? ==> start <= r.value && Find(a[start..limit], CRLF) == Some(r.value - start)
    ensures r.None? ==> Find(a[start..limit], CRLF) == None
  {
    ghost var s := a[start..limit];
    var i := start;
    while a[i] != 0
      invariant start <= i <= limit
      invariant forall j :: 0 <= j < i - start ==> !(CRLF <= s[j..])
      decreases limit - i
    {
      assert a[i] == s[i - start];
      CrlfAt(s, i - start);
      if a[i] == CR && a[i + 1] == LF {
        assert i + 1 != limit;
        FindUnique(s, CRLF, i - start);
        return Some(i);
      }
      i := i + 1;
    }
    assert i == limit;
    CrlfAt(s, i - start);
    FindAbsent(s, CRLF);
    return None;
  }

  /** `strstr` in general. */
  method Strstr(s: Bytes, p: Bytes) returns (r: Option<nat>)
    ensures r == Find(s, p)
  {
    var i := 0;
    while i <= |s|
      invariant forall j :: 0 <= j < i && j <= |s| ==> !(p <= s[j..])
    {
      if p <= s[i..] {
        FindUnique(s, p, i);
        return Some(i);
      }
      i := i + 1;
    }
    FindAbsent(s, p);
    return None;
  }

  /** The searches of process_tcp_msg_message and process_tcp_err_message. */
  method ExtractText(message: Bytes) returns (r: Option<(Bytes, Bytes)>)
    ensures r == ParseText(message)
  {
    var from := Strstr(message, FROM_WORD);
    if from == None {
      return None;
    }
    var rest := message[from.value + 5..];
    var mark := Strstr(rest, IS_MARK);
    if mark == None {
      return None;
    }
    var length := mark.value;
    if length > Validation.MAX_NAME {
      length := Validation.MAX_NAME;
    }
    assert rest[..mark.value][..length] == rest[..length];
    return Some((rest[..length], rest[mark.value + 4..]));
  }

  // ----- `sscanf(message, "REPLY %3s IS %[^\r\n]", result, content)` -----

  /** White space in the format, and before `%3s`. */
  method SkipBlanks(s: Bytes, from: nat) returns (i: nat)
    requires from <= |s|
    ensures from <= i <= |s| && s[i..] == SkipSpace(s[from..])
  {
    i := from;
    while i < |s| && Space(s[i])
      invariant from <= i <= |s| && SkipSpace(s[i..]) == SkipSpace(s[from..])
    {
      assert s[i..][1..] == s[i + 1..];
      i := i + 1;
    }
  }

  /** `%3s`. */
  method ScanWord(s: Bytes, from: nat, width: nat) returns (i: nat)
    requires from <= |s|
    ensures from <= i <= |s| && s[from..i] == Token(s[from..], width)
  {
    i := from;
    while i < |s| && i - from < width && !Space(s[i])
      invariant from <= i <= |s| && i - from <= width
      invariant i - from + |Token(s[i..], width - (i - from))| == |Token(s[from..], width)|
    {
      assert s[i..][1..] == s[i + 1..];
      i := i + 1;
    }
    assert Token(s[from..], width) == s[from..][..i - from];
    assert s[from..i] == s[from..][..i - from];
  }

  /** `%[^\r\n]`. */
  method ScanLine(s: Bytes, from: nat) returns (i: nat)
    requires from <= |s|
    ensures from <= i <= |s| && s[from..i] == UntilBreak(s[from..])
  {
    i := from;
    while i < |s| && s[i] != CR && s[i] != LF
      invariant from <= i <= |s| && forall k :: from <= k < i ==> s[k] != CR && s[k] != LF
    {
      i := i + 1;
    }
    assert s[from..] == s[from..i] + s[i..];
    UntilBreakOf(s[from..i], s[i..]);
  }

  /** The part of the format behind the result word; an empty content is a failed conversion. */
  method ScanContent(s: Bytes, from: nat) returns (content: Option<Bytes>)
    requires from <= |s|
    ensures var rest := SkipSpace(s[from..]);
      content == if IS_WORD <= rest && UntilBreak(SkipSpace(rest[2..])) != []
                 then Some(UntilBreak(SkipSpace(rest[2..]))) else None
  {
    var i := SkipBlanks(s, from);
    if !(IS_WORD <= s[i..]) {
      return None;
    }
    assert s[i..][2..] == s[i + 2..];
    var j := SkipBlanks(s, i + 2);
    var k := ScanLine(s, j);
    content := if j < k then Some(s[j..k]) else None;
  }

  /** The parsing in `process_tcp_reply_message`. */
  method ReadReply(message: Bytes) returns (v: Verdict)
    requires REPLY_WORD <= message
    ensures v == ParseReply(message)
  {
    var i := SkipBlanks(message, 5);
    var j := ScanWord(message, i, 3);
    var result := message[i..j];
    assert message[i..][|result|..] == message[j..];
    var content := ScanContent(message, j);
    if result == [] || content == None {
      return Malformed;
    }
    if result == OK {
      return ReplyLine(true, content.value);
    } else if result == NOK {
      return ReplyLine(false, content.value);
    }
    return Malformed;
  }

  /** `process_tcp_message` with the handlers it calls, up to what they do to the state. */
  method ProcessMessage(message: Bytes) returns (v: Verdict)
    ensures v == ProcessLine(message)
  {
    if REPLY_WORD <= message {
      v := ReadReply(message);
    } else if MSG_FROM <= message || ERR_FROM <= message {
      var text := ExtractText(message);
      match text
      case None => return Malformed;
      case Some((name, content)) => return if MSG_FROM <= message then Chat(name, content) else Fatal(name, content);
    } else if BYE_FROM <= message {
      return Goodbye;
    } else {
      return Unknown;
    }
  }

  /** What the handlers of a line do to the global `state`. */
  method HandleVerdict(session: Session, v: Verdict)
    modifies session`state
    ensures session.state == VerdictState(old(session.state), v)
  {
    match v
    case ReplyLine(ok, content) =>
      if ok {
        if session.state == Auth {
          session.state := AppState.Open;
        } else if session.state == Join {
          session.state := AppState.Open;
        }
      } else if session.state == Join {
        session.state := AppState.Open;
      }
    case _ =>
  }

  // ----- the listener -----

  class Listener {
    /** The globals it shares with the main thread. */
    const session: Session
    /** `line_buffer`, null before the first allocation; `line_buffer_size` is its length. */
    var line: array?<byte>
    /** The lines handed to `process_tcp_message`, and whether one of them ended the process. */
    var handled: seq<Bytes>
    var ended: bool
    /** What was written for the user. */
    var shown: seq<Verdict>

    /** The line buffer always holds a C string: its length plus the terminator fit its size. */
    ghost predicate Valid()
      reads this, line
    {
      line != null ==> Strlen(line[..]) < line.Length
    }

    ghost function Carry(): Bytes
      reads this, line
    {
      if line == null then [] else CStr(line[..])
    }

    ghost function View(): Stream
      reads this, line
    {
      if ended then Ended(handled) else Stream.Open(handled, Carry())
    }

    function Size(): nat
      reads this
    {
      if line == null then 0 else line.Length
    }

    /** State and output are what the lines handled since there were `n` of them made of `from` and `was`. */
    ghost predicate Follows(from: AppState, was: seq<Verdict>, n: nat)
      reads this, session
    {
      && n <= |handled|
      && session.state == StateAfter(from, handled[n..])
      && shown == was + Displayed(handled[n..])
    }

    constructor (session: Session)
      ensures Valid() && View() == NEW_STREAM && Size() == 0 && this.session == session
      ensures shown == []
    {
      this.session := session;
      line, handled, ended, shown := null, [], false, [];
    }

    /** `malloc` or `realloc` of the line buffer so that `extra` more bytes fit. */
    method Reserve(extra: nat)
      requires Valid()
      modifies this`line
      ensures Valid() && line != null && Carry() == old(Carry())
      ensures |Carry()| + extra + 1 <= line.Length
      ensures Size() >= old(Size())
      ensures line == old(line) || fresh(line)
    {
      if line == null {
        line := new byte[extra + 1](_ => 0);
        StrlenUnique(line[..], 0);
      } else {
        var current := line;
        assert current[0..] == current[..];
        var length := CLength(current, 0);
        if current.Length < length + extra + 1 {
          var bigger := new byte[length + extra + 1](_ => 0);
          for i := 0 to length
            invariant line == current && unchanged(current)
            invariant bigger[..i] == current[..i]
            invariant forall k :: i <= k < bigger.Length ==> bigger[k] == 0
          {
            bigger[i] := current[i];
          }
          assert bigger[..][..length] == current[..][..length];
          StrlenUnique(bigger[..], length);
          line := bigger;
        }
      }
    }

    /** `strcat(line_buffer, start)`: the bytes of `src` from `start` up to its terminator. */
    method Append(src: array<byte>, start: nat, ghost limit: nat)
      requires Valid() && line != null && src != line
      requires start <= limit < src.Length && src[limit] == 0 && NulFree(src[start..limit])
      requires |Carry()| + (limit - start) + 1 <= line.Length
      modifies line
      ensures Valid() && Carry() == old(Carry()) + src[start..limit]
    {
      ghost var carry := Carry();
      ghost var piece := src[start..limit];
      var end := CLength(line, 0);
      assert line[0..] == line[..];
      var i := 0;
      while src[start + i] != 0
        invariant start + i <= limit
        invariant forall k :: 0 <= k < end ==> line[k] == carry[k]
        invariant forall k :: 0 <= k < i ==> line[end + k] == piece[k]
        decreases limit - start - i
      {
        assert src[start + i] == piece[i];
        line[end + i] := src[start + i];
        i := i + 1;
      }
      assert i == |piece|;
      line[end + i] := 0;
      assert line[..][..end + i] == carry + piece;
      StrlenUnique(line[..], end + i);
    }

    /** `line_buffer[0] = '\0'`. */
    method Reset()
      requires line != null && line.Length > 0
      modifies line
      ensures Valid() && Carry() == []
    {
      line[0] := 0;
      StrlenUnique(line[..], 0);
    }

    /** One more line, as `Follows` counts them. */
    lemma Extended(from: AppState, n: nat, message: Bytes)
      requires n <= |handled|
      ensures StateAfter(from, (handled + [message])[n..]) == LineState(StateAfter(from, handled[n..]), message)
      ensures var v := ProcessLine(message);
        Displayed((handled + [message])[n..]) == Displayed(handled[n..]) + if Displays(v) then [v] else []
    {
      assert (handled + [message])[n..] == handled[n..] + [message];
      StateAfterOne(from, handled[n..], message);
      DisplayedOne(handled[n..], message);
    }

    /** A terminator was found at `end`: the segment before it completes the line in the buffer. */
    method Gather(recv: array<byte>, start: nat, end: nat) returns (message: CString)
      requires Valid() && recv != line
      requires start <= end < recv.Length && NulFree(recv[start..end])
      modifies this`line, line, recv
      ensures Valid() && line != null && line.Length > 0 && (line == old(line) || fresh(line)) && Size() >= old(Size())
      ensures message == old(Carry()) + old(recv[start..end])
      ensures forall k :: end < k < recv.Length ==> recv[k] == old(recv[k])
    {
      ghost var piece := recv[start..end];
      recv[end] := 0;
      assert recv[start..end] == piece;
      var length := CLengthAt(recv, start, end);
      Reserve(length);
      Append(recv, start, end);
      message := CValue(line);
    }

    /** `process_tcp_message`: what it writes, what it does to the state, and whether it ends the process. */
    method HandleLine(message: Bytes, ghost from: AppState, ghost was: seq<Verdict>, ghost n: nat)
      requires !ended && Follows(from, was, n)
      modifies this`handled, this`shown, this`ended, session`state
      ensures Follows(from, was, n) && handled == old(handled) + [message] && ended == EndsProcess(message)
    {
      var v := ProcessMessage(message);
      HandleVerdict(session, v);
      Extended(from, n, message);
      handled := handled + [message];
      shown := shown + if Displays(v) then [v] else [];
      ended := Ends(v);
    }

    /** The line is processed, and the buffer cleared. */
    method CompleteLine(recv: array<byte>, start: nat, end: nat, ghost from: AppState, ghost was: seq<Verdict>, ghost n: nat)
      requires Valid() && !ended && recv != line && Follows(from, was, n)
      requires start <= end < recv.Length && NulFree(recv[start..end])
      modifies this, line, recv, session`state
      ensures Valid() && (line == old(line) || fresh(line)) && Size() >= old(Size())
      ensures View() == TakeLine(EndsProcess, old(View()), old(recv[start..end])) && Follows(from, was, n)
      ensures forall k :: end < k < recv.Length ==> recv[k] == old(recv[k])
    {
      var message := Gather(recv, start, end);
      HandleLine(message, from, was, n);
      if !ended {
        Reset();
      }
    }

    /** The body of the line loop, with the part of the chunk that is still to come. */
    method NextLine(recv: array<byte>, start: nat, end: nat, ghost s: CString, ghost st: Stream, ghost rest: Bytes,
        ghost goal: Stream, ghost from: AppState, ghost was: seq<Verdict>, ghost n: nat)
      returns (ghost st': Stream, ghost rest': Bytes)
      requires Valid() && !ended && recv != line && View() == st && Follows(from, was, n)
      requires start <= end <= |s| && Holds(recv, start, s) && rest == s[start..]
      requires Located(recv, start, s, Some(end)) && Absorb(EndsProcess, st, rest) == goal
      modifies this, line, recv, session`state
      ensures Valid() && Grown(recv) && Follows(from, was, n)
      ensures View() == st' && end + 2 <= |s| && rest' == s[end + 2..] && Holds(recv, end + 2, s)
      ensures Absorb(EndsProcess, st', rest') == goal && (ended ==> st' == goal)
    {
      st', rest' := AbsorbLine(st, s, start, end, rest, goal);
      CompleteLine(recv, start, end, from, was, n);
      if ended {
        AbsorbEnd(st', rest', goal);
      }
    }

    /** The line buffer is the old one or was allocated since, and did not shrink. */
    twostate predicate Grown(recv: array<byte>)
      reads this
    {
      && (line == old(line) || fresh(line))
      && (recv != old(line) ==> recv != line)
      && Size() >= old(Size())
    }

    /** The unfinished line at the end of a chunk is saved. */
    method StoreTail(recv: array<byte>, start: nat, ghost limit: nat)
      requires Valid() && !ended && recv != line
      requires start <= limit < recv.Length && recv[limit] == 0 && NulFree(recv[start..limit])
      modifies this`line, line
      ensures Valid() && (line == old(line) || fresh(line)) && Size() >= old(Size())
      ensures View() == Stream.Open(handled, old(Carry()) + recv[start..limit])
    {
      if recv[start] != 0 {
        var remaining := CLengthAt(recv, start, limit);
        Reserve(remaining);
        Append(recv, start, limit);
      } else {
        assert start == limit;
      }
    }

    /** The loop over the complete lines of a chunk; what is left starts at `start`, unless a line ended the process. */
    method FeedLines(recv: array<byte>, ghost s: CString, ghost goal: Stream, ghost from: AppState,
        ghost was: seq<Verdict>, ghost n: nat)
      returns (start: nat, ghost rest: Bytes)
      requires Valid() && !ended && recv != line && Follows(from, was, n)
      requires Holds(recv, 0, s) && Absorb(EndsProcess, View(), s) == goal
      modifies this, line, recv, session`state
      ensures Valid() && Grown(recv) && Follows(from, was, n)
      ensures ended ==> View() == goal
      ensures !ended ==> start <= |s| && Holds(recv, start, s) && Located(recv, start, s, None) && rest == s[start..]
      ensures !ended ==> Absorb(EndsProcess, View(), rest) == goal
    {
      assert s[0..] == s;
      start, rest := 0, s;
      ghost var st := View();
      var end := FindRest(recv, start, s);
      while end.Some?
        invariant Valid() && !ended && recv != line && Grown(recv)
        invariant start <= |s| && Holds(recv, start, s) && rest == s[start..]
        invariant Located(recv, start, s, end)
        invariant View() == st && Follows(from, was, n)
        invariant Absorb(EndsProcess, st, rest) == goal
        decreases |s| - start
      {
        st, rest := NextLine(recv, start, end.value, s, st, rest, goal, from, was, n);
        start := end.value + 2;
        if ended {
          return;
        }
        end := FindRest(recv, start, s);
      }
    }

    /** One chunk from `recv`, `n` bytes long, and the bookkeeping around it. */
    method Feed(recv: array<byte>, n: nat)
      requires Valid() && !ended && n < recv.Length && recv != line
      modifies this, line, recv, session`state
      ensures Valid() && Grown(recv)
      ensures View() == Absorb(EndsProcess, old(View()), CStr(old(recv[..n])))
      ensures Follows(old(session.state), old(shown), |old(handled)|)
    {
      ghost var s := CStr(recv[..n]);
      ghost var goal := Absorb(EndsProcess, View(), s);
      recv[n] := 0;
      assert handled[|handled|..] == [];
      ghost var rest;
      var start;
      start, rest := FeedLines(recv, s, goal, session.state, shown, |handled|);
      if !ended {
        AbsorbTail(View(), rest, goal);
        StoreTail(recv, start, |s|);
      }
    }
  }

  /** From `start` on the buffer still holds the received C string. */
  ghost predicate Holds(recv: array<byte>, start: nat, s: CString)
    reads recv
  {
    |s| < recv.Length && recv[|s|] == 0 && forall k :: start <= k < |s| ==> recv[k] == s[k]
  }

  /** The next terminator, or the certainty that there is none, with the bytes before it. */
  ghost predicate Located(recv: array<byte>, start: nat, s: CString, end: Option<nat>)
    requires start <= |s| < recv.Length
    reads recv
  {
    match end
    case None => Find(s[start..], CRLF) == None && recv[start..|s|] == s[start..]
    case Some(e) =>
      && start <= e <= |s| && recv[start..e] == s[start..e]
      && Find(s[start..], CRLF) == Some(e - start)
  }

  method FindRest(recv: array<byte>, start: nat, ghost s: CString) returns (r: Option<nat>)
    requires start <= |s| && Holds(recv, start, s)
    ensures Located(recv, start, s, r)
  {
    assert recv[start..|s|] == s[start..];
    r := FindCrlf(recv, start, |s|);
    if r.Some? {
      assert recv[start..r.value] == s[start..r.value];
    }
  }

  /** One line of a chunk, in terms of positions in the chunk. */
  lemma AbsorbLine(st: Stream, s: CString, start: nat, end: nat, rest: Bytes, goal: Stream)
    returns (st': Stream, rest': Bytes)
    requires start <= end && start <= |s| && rest == s[start..] && st.Open? && Find(rest, CRLF) == Some(end - start)
    requires Absorb(EndsProcess, st, rest) == goal
    ensures end + 2 <= |s| && NulFree(s[start..end])
    ensures st' == TakeLine(EndsProcess, st, s[start..end]) && rest' == s[end + 2..]
    ensures Absorb(EndsProcess, st', rest') == goal
  {
    st', rest' := TakeLine(EndsProcess, st, rest[..end - start]), rest[end - start + 2..];
    assert rest[..end - start] == s[start..end];
    assert rest' == s[end + 2..];
  }

  lemma AbsorbEnd(st: Stream, rest: Bytes, goal: Stream)
    requires st.Ended? && Absorb(EndsProcess, st, rest) == goal
    ensures st == goal
  {
  }

  lemma AbsorbTail(st: Stream, rest: Bytes, goal: Stream)
    requires st.Open? && Find(rest, CRLF) == None && Absorb(EndsProcess, st, rest) == goal
    ensures Stream.Open(st.handled, st.carry + rest) == goal
  {
  }

  /** `strlen` when the position of the terminator is known to the proof. */
  method CLengthAt(a: array<byte>, from: nat, ghost limit: nat) returns (n: nat)
    requires from <= limit < a.Length && a[limit] == 0 && NulFree(a[from..limit])
    ensures n == limit - from
  {
    ghost var s := a[from..];
    assert s[..limit - from] == a[from..limit] && s[limit - from] == a[limit];
    StrlenUnique(s, limit - from);
    n := CLength(a, from);
  }

  /** The C string in a buffer, as a value. */
  method CValue(a: array<byte>) returns (s: CString)
    requires Strlen(a[..]) < a.Length
    ensures s == CStr(a[..])
  {
    assert a[0..] == a[..];
    var n := CLength(a, 0);
    s := a[..n];
  }
}
