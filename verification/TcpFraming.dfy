/**
 * Cutting the TCP byte stream into lines (src/network_tcp.c, `tcp_listener`). The source searches each
 * received chunk for CRLF and carries the unfinished line over to the next chunk. The reference cuts
 * the whole stream at once.
 */
module TcpFraming {
  import opened Base
  import opened TcpText

  /** The listener between two calls of `recv`: the lines handed to `process_tcp_message`, and the unfinished one. */
  datatype Stream = Open(handled: seq<Bytes>, carry: Bytes) | Ended(handled: seq<Bytes>)

  /** Does this line end the process? For the client that is `Ends(ProcessLine(line))`. */
  type Judge = Bytes -> bool

  const NEW_STREAM := Stream.Open([], [])

  /** A line is complete: hand it over, and go on unless it ends the process. */
  function TakeLine(ends: Judge, st: Stream, piece: Bytes): Stream
    requires st.Open?
  {
    var line := st.carry + piece;
    if ends(line) then Ended(st.handled + [line]) else Stream.Open(st.handled + [line], [])
  }

  /** One chunk: complete its lines one by one, stop for good when one of them ends the process, keep the rest. */
  function Absorb(ends: Judge, st: Stream, chunk: Bytes): Stream
    decreases |chunk|
  {
    if st.Ended? then st
    else
      match Find(chunk, CRLF)
      case None => Stream.Open(st.handled, st.carry + chunk)
      case Some(i) => Absorb(ends, TakeLine(ends, st, chunk[..i]), chunk[i + 2..])
  }

  function AbsorbAll(ends: Judge, chunks: seq<Bytes>): Stream {
    if chunks == [] then NEW_STREAM else Absorb(ends, AbsorbAll(ends, chunks[..|chunks| - 1]), chunks[|chunks| - 1])
  }

  // ----- the reference -----

  datatype Cut = Cut(lines: seq<Bytes>, tail: Bytes)

  /** The lines of a stream: everything between terminators, and what follows the last one. */
  function Split(s: Bytes): Cut
    decreases |s|
  {
    match Find(s, CRLF)
    case None => Cut([], s)
    case Some(i) =>
      var rest := Split(s[i + 2..]);
      Cut([s[..i]] + rest.lines, rest.tail)
  }

  /** Lines up to and including the first that ends the process, if there is one. */
  function UpToEnd(ends: Judge, lines: seq<Bytes>): Option<seq<Bytes>> {
    if lines == [] then None
    else if ends(lines[0]) then Some(lines[..1])
    else
      match UpToEnd(ends, lines[1..])
      case Some(more) => Some([lines[0]] + more)
      case None => None
  }

  /** What the listener ought to have done with a stream, however it arrived. */
  function Reference(ends: Judge, s: Bytes): Stream {
    var cut := Split(s);
    match UpToEnd(ends, cut.lines)
    case Some(handled) => Ended(handled)
    case None => Stream.Open(cut.lines, cut.tail)
  }

  function Concat(chunks: seq<Bytes>): Bytes {
    if chunks == [] then [] else Concat(chunks[..|chunks| - 1]) + chunks[|chunks| - 1]
  }

  /** Adding earlier lines in front. */
  function Prepend(lines: seq<Bytes>, st: Stream): Stream {
    st.(handled := lines + st.handled)
  }

  lemma PrependTwo(a: seq<Bytes>, b: seq<Bytes>, st: Stream)
    ensures Prepend(a, Prepend(b, st)) == Prepend(a + b, st)
  {
    assert a + (b + st.handled) == a + b + st.handled;
  }

  lemma {:induction false} AbsorbIsReference(ends: Judge, handled: seq<Bytes>, s: Bytes)
    ensures Absorb(ends, Stream.Open(handled, []), s) == Prepend(handled, Reference(ends, s))
    decreases |s|
  {
    var r := Find(s, CRLF);
    if r == None {
      assert Reference(ends, s) == Stream.Open([], s);
      assert [] + s == s && handled + [] == handled;
    } else {
      var line, rest := s[..r.value], s[r.value + 2..];
      assert [] + line == line;
      assert Absorb(ends, Stream.Open(handled, []), s) == Absorb(ends, TakeLine(ends, Stream.Open(handled, []), line), rest);
      ReferenceStep(ends, s, r.value);
      if !ends(line) {
        AbsorbIsReference(ends, handled + [line], rest);
        PrependTwo(handled, [line], Reference(ends, rest));
      }
    }
  }

  lemma WholeStream(ends: Judge, s: Bytes)
    ensures Absorb(ends, NEW_STREAM, s) == Reference(ends, s)
  {
    AbsorbIsReference(ends, [], s);
    assert [] + Reference(ends, s).handled == Reference(ends, s).handled;
  }

  lemma ReferenceStep(ends: Judge, s: Bytes, i: nat)
    requires Find(s, CRLF) == Some(i)
    ensures Reference(ends, s) == if ends(s[..i]) then Ended([s[..i]]) else Prepend([s[..i]], Reference(ends, s[i + 2..]))
  {
    var rest := Split(s[i + 2..]);
    var lines := [s[..i]] + rest.lines;
    assert lines[0] == s[..i] && lines[1..] == rest.lines && lines[..1] == [s[..i]];
  }

  // ----- chunks -----

  /** A chunk boundary falls between the two bytes of a terminator. */
  predicate CutsTerminator(a: Bytes, b: Bytes) {
    a != [] && b != [] && a[|a| - 1] == CR && b[0] == LF
  }

  lemma CrlfAt(s: Bytes, j: nat)
    requires j <= |s|
    ensures CRLF <= s[j..] <==> j + 1 < |s| && s[j] == CR && s[j + 1] == LF
  {
    if j + 1 < |s| {
      assert s[j..][0] == s[j] && s[j..][1] == s[j + 1];
    }
  }

  lemma FindInFirst(a: Bytes, b: Bytes)
    requires Find(a, CRLF).Some?
    ensures Find(a + b, CRLF) == Find(a, CRLF)
  {
    FindSpec(a, CRLF);
    var i := Find(a, CRLF).value;
    CrlfAt(a, i);
    CrlfAt(a + b, i);
    forall j | 0 <= j < i ensures !(CRLF <= (a + b)[j..]) {
      CrlfAt(a, j);
      CrlfAt(a + b, j);
    }
    FindUnique(a + b, CRLF, i);
  }

  /** Occurrences across a boundary that cuts no terminator lie on one side of it. */
  lemma CrlfAcross(a: Bytes, b: Bytes, j: nat)
    requires Find(a, CRLF).None? && !CutsTerminator(a, b) && j <= |a + b|
    ensures CRLF <= (a + b)[j..] <==> j >= |a| && CRLF <= b[j - |a|..]
  {
    CrlfAt(a + b, j);
    if j >= |a| {
      CrlfAt(b, j - |a|);
    } else {
      FindSpec(a, CRLF);
      CrlfAt(a, j);
    }
  }

  lemma FindInSecond(a: Bytes, b: Bytes)
    requires Find(a, CRLF).None? && !CutsTerminator(a, b)
    ensures Find(a + b, CRLF) == match Find(b, CRLF) case None => None case Some(j) => Some(|a| + j)
  {
    FindSpec(b, CRLF);
    if Find(b, CRLF).None? {
      forall j | 0 <= j <= |a + b| ensures !(CRLF <= (a + b)[j..]) {
        CrlfAcross(a, b, j);
      }
      FindAbsent(a + b, CRLF);
    } else {
      var i := |a| + Find(b, CRLF).value;
      CrlfAcross(a, b, i);
      forall j | 0 <= j < i ensures !(CRLF <= (a + b)[j..]) {
        CrlfAcross(a, b, j);
      }
      FindUnique(a + b, CRLF, i);
    }
  }

  /** A line that ends in the second chunk is the same line in the joined chunk. */
  lemma LineAcross(ends: Judge, st: Stream, a: Bytes, b: Bytes, j: nat)
    requires st.Open? && j + 2 <= |b|
    ensures TakeLine(ends, Stream.Open(st.handled, st.carry + a), b[..j]) == TakeLine(ends, st, (a + b)[..|a| + j])
    ensures b[j + 2..] == (a + b)[|a| + j + 2..]
  {
    assert (a + b)[..|a| + j] == a + b[..j];
    Assoc(st.carry, a, b[..j]);
  }

  lemma SameLineSameEnd(ends: Judge, st: Stream, c: Bytes, i: nat, st': Stream, c': Bytes, i': nat)
    requires st.Open? && st'.Open? && Find(c, CRLF) == Some(i) && Find(c', CRLF) == Some(i')
    requires TakeLine(ends, st, c[..i]) == TakeLine(ends, st', c'[..i']) && c[i + 2..] == c'[i' + 2..]
    ensures Absorb(ends, st, c) == Absorb(ends, st', c')
  {
  }

  lemma AbsorbSecond(ends: Judge, st: Stream, a: Bytes, b: Bytes)
    requires st.Open? && Find(a, CRLF).None? && !CutsTerminator(a, b)
    ensures Absorb(ends, Stream.Open(st.handled, st.carry + a), b) == Absorb(ends, st, a + b)
  {
    FindInSecond(a, b);
    var r := Find(b, CRLF);
    if r.Some? {
      LineAcross(ends, st, a, b, r.value);
      SameLineSameEnd(ends, Stream.Open(st.handled, st.carry + a), b, r.value, st, a + b, |a| + r.value);
    } else {
      Assoc(st.carry, a, b);
    }
  }

  /** Two chunks act like one, unless the boundary cuts a terminator that is still looked for. */
  lemma {:induction false} AbsorbTwo(ends: Judge, st: Stream, a: Bytes, b: Bytes)
    requires CutsTerminator(a, b) ==> Absorb(ends, st, a).Ended?
    ensures Absorb(ends, Absorb(ends, st, a), b) == Absorb(ends, st, a + b)
    decreases |a|
  {
    if st.Open? {
      match Find(a, CRLF)
      case Some(i) =>
        FindInFirst(a, b);
        assert (a + b)[..i] == a[..i];
        assert (a + b)[i + 2..] == a[i + 2..] + b;
        AbsorbTwo(ends, TakeLine(ends, st, a[..i]), a[i + 2..], b);
      case None =>
        AbsorbSecond(ends, st, a, b);
    }
  }

  // ----- what a cut terminator does -----

  ghost predicate HasCrlf(s: Bytes) {
    exists j :: 0 <= j < |s| - 1 && s[j] == CR && s[j + 1] == LF
  }

  /** A terminator got stuck inside a line. No cut of a stream at its terminators looks like this. */
  ghost predicate Poisoned(st: Stream) {
    !Clean(st.handled) || (st.Open? && HasCrlf(st.carry))
  }

  lemma NoCrlfBeforeFirst(s: Bytes, n: nat)
    requires n <= |s| && forall j :: 0 <= j < n ==> !(CRLF <= s[j..])
    ensures !HasCrlf(s[..n])
  {
    forall j | 0 <= j < n - 1 ensures !(s[j] == CR && s[j + 1] == LF) {
      CrlfAt(s, j);
    }
  }

  ghost predicate Clean(lines: seq<Bytes>) {
    forall i :: 0 <= i < |lines| ==> !HasCrlf(lines[i])
  }

  lemma CleanCons(line: Bytes, lines: seq<Bytes>)
    requires !HasCrlf(line) && Clean(lines)
    ensures Clean([line] + lines)
  {
  }

  lemma {:induction false} SplitIsClean(s: Bytes)
    ensures Clean(Split(s).lines) && !HasCrlf(Split(s).tail)
    decreases |s|
  {
    FindSpec(s, CRLF);
    var r := Find(s, CRLF);
    if r == None {
      NoCrlfBeforeFirst(s, |s|);
      assert s[..|s|] == s;
    } else {
      NoCrlfBeforeFirst(s, r.value);
      SplitIsClean(s[r.value + 2..]);
      CleanCons(s[..r.value], Split(s[r.value + 2..]).lines);
    }
  }

  /** Text without a terminator inside, followed by one: the first terminator is right there. */
  lemma FindAtEnd(text: Bytes, rest: Bytes)
    requires !HasCrlf(text)
    ensures Find(text + CRLF + rest, CRLF) == Some(|text|)
  {
    var s := text + CRLF + rest;
    var n := |text|;
    CrlfAt(s, n);
    forall j | 0 <= j < n ensures !(CRLF <= s[j..]) {
      CrlfAt(s, j);
      assert s[j] == text[j] && s[n] == CR;
      assert j + 1 < n ==> s[j + 1] == text[j + 1];
    }
    FindUnique(s, CRLF, n);
  }

  lemma SplitAtFirst(text: Bytes, rest: Bytes)
    requires !HasCrlf(text)
    ensures Split(text + CRLF + rest) == Cut([text] + Split(rest).lines, Split(rest).tail)
  {
    var s := text + CRLF + rest;
    FindAtEnd(text, rest);
    assert s[..|text|] == text && s[|text| + 2..] == rest;
  }

  /** Terminated lines, one after the other. */
  function Terminated(lines: seq<Bytes>): Bytes {
    if lines == [] then [] else lines[0] + CRLF + Terminated(lines[1..])
  }

  lemma CutAtFirst(s: Bytes, i: nat)
    requires Find(s, CRLF) == Some(i)
    ensures s == s[..i] + CRLF + s[i + 2..]
  {
    FindSpec(s, CRLF);
    CrlfAt(s, i);
  }

  lemma TerminatedCons(line: Bytes, lines: seq<Bytes>, tail: Bytes)
    ensures Terminated([line] + lines) + tail == line + CRLF + (Terminated(lines) + tail)
  {
    assert ([line] + lines)[1..] == lines;
    Assoc(line + CRLF, Terminated(lines), tail);
  }

  lemma {:induction false} SplitLossless(s: Bytes)
    ensures Terminated(Split(s).lines) + Split(s).tail == s
    decreases |s|
  {
    var r := Find(s, CRLF);
    if r == None {
      assert [] + s == s;
    } else {
      CutAtFirst(s, r.value);
      SplitLossless(s[r.value + 2..]);
      TerminatedCons(s[..r.value], Split(s[r.value + 2..]).lines, Split(s[r.value + 2..]).tail);
    }
  }

  lemma {:induction false} SplitOfTerminated(lines: seq<Bytes>, tail: Bytes)
    requires Clean(lines) && !HasCrlf(tail)
    ensures Split(Terminated(lines) + tail) == Cut(lines, tail)
  {
    if lines == [] {
      assert [] + tail == tail;
      forall j | 0 <= j <= |tail| ensures !(CRLF <= tail[j..]) {
        CrlfAt(tail, j);
      }
      FindAbsent(tail, CRLF);
    } else {
      assert !HasCrlf(lines[0]);
      assert forall i :: 0 <= i < |lines| - 1 ==> lines[1..][i] == lines[i + 1];
      SplitOfTerminated(lines[1..], tail);
      TerminatedCons(lines[0], lines[1..], tail);
      SplitAtFirst(lines[0], Terminated(lines[1..]) + tail);
      assert [lines[0]] + lines[1..] == lines;
    }
  }

  /** The cut of a stream is the only way to write it as terminated lines and a rest, none with a terminator inside. */
  lemma SplitExactly(s: Bytes, lines: seq<Bytes>, tail: Bytes)
    ensures Split(s) == Cut(lines, tail) <==> Terminated(lines) + tail == s && Clean(lines) && !HasCrlf(tail)
  {
    SplitLossless(s);
    SplitIsClean(s);
    if Clean(lines) && !HasCrlf(tail) {
      SplitOfTerminated(lines, tail);
    }
  }

  lemma {:induction false} UpToEndIsPrefix(ends: Judge, lines: seq<Bytes>)
    ensures UpToEnd(ends, lines).Some? ==> UpToEnd(ends, lines).value <= lines
  {
    if lines != [] {
      UpToEndIsPrefix(ends, lines[1..]);
      assert lines == [lines[0]] + lines[1..];
    }
  }

  lemma ReferenceIsClean(ends: Judge, s: Bytes)
    ensures !Poisoned(Reference(ends, s))
  {
    SplitIsClean(s);
    UpToEndIsPrefix(ends, Split(s).lines);
  }

  lemma HasCrlfAppend(a: Bytes, b: Bytes)
    requires HasCrlf(a) || CutsTerminator(a, b)
    ensures HasCrlf(a + b)
  {
    var s := a + b;
    if HasCrlf(a) {
      var j :| 0 <= j < |a| - 1 && a[j] == CR && a[j + 1] == LF;
      assert s[j] == CR && s[j + 1] == LF;
    } else {
      assert s[|a| - 1] == CR && s[|a|] == LF;
    }
  }

  lemma TakePoisoned(ends: Judge, st: Stream, piece: Bytes)
    requires st.Open? && (Poisoned(st) || CutsTerminator(st.carry, piece))
    ensures Poisoned(TakeLine(ends, st, piece))
  {
    var line := st.carry + piece;
    var handled := st.handled + [line];
    if Clean(st.handled) {
      HasCrlfAppend(st.carry, piece);
      assert handled[|st.handled|] == line;
    } else {
      var i :| 0 <= i < |st.handled| && HasCrlf(st.handled[i]);
      assert handled[i] == st.handled[i];
    }
  }

  lemma {:induction false} PoisonStays(ends: Judge, st: Stream, chunk: Bytes)
    requires Poisoned(st)
    ensures Poisoned(Absorb(ends, st, chunk))
    decreases |chunk|
  {
    if st.Open? {
      match Find(chunk, CRLF)
      case None =>
        if HasCrlf(st.carry) {
          HasCrlfAppend(st.carry, chunk);
        }
      case Some(i) =>
        TakePoisoned(ends, st, chunk[..i]);
        PoisonStays(ends, TakeLine(ends, st, chunk[..i]), chunk[i + 2..]);
    }
  }

  /** A line feed right after a carried carriage return is swallowed into the line. */
  lemma CutPoisons(ends: Judge, st: Stream, chunk: Bytes)
    requires st.Open? && CutsTerminator(st.carry, chunk)
    ensures Poisoned(Absorb(ends, st, chunk))
  {
    match Find(chunk, CRLF)
    case None =>
      HasCrlfAppend(st.carry, chunk);
    case Some(i) =>
      FindSpec(chunk, CRLF);
      CrlfAt(chunk, i);
      assert i > 0 && chunk[..i][0] == LF;
      TakePoisoned(ends, st, chunk[..i]);
      PoisonStays(ends, TakeLine(ends, st, chunk[..i]), chunk[i + 2..]);
  }

  predicate EndsInCr(s: Bytes) {
    s != [] && s[|s| - 1] == CR
  }

  lemma AfterFirstCrlf(s: Bytes)
    requires EndsInCr(s) && Find(s, CRLF).Some?
    ensures EndsInCr(s[Find(s, CRLF).value + 2..])
  {
    FindSpec(s, CRLF);
    CrlfAt(s, Find(s, CRLF).value);
  }

  /** While the listener is open, what it carries is the end of the stream. */
  lemma {:induction false} CarryIsTail(s: Bytes)
    requires EndsInCr(s)
    ensures EndsInCr(Split(s).tail)
    decreases |s|
  {
    if Find(s, CRLF).Some? {
      AfterFirstCrlf(s);
      CarryIsTail(s[Find(s, CRLF).value + 2..]);
    }
  }

  /** No boundary cuts a terminator, except possibly after the line that ended the process. */
  predicate NoTerminatorCut(ends: Judge, chunks: seq<Bytes>) {
    forall k :: 0 < k < |chunks| && CutsTerminator(chunks[k - 1], chunks[k]) ==> Reference(ends, Concat(chunks[..k])).Ended?
  }

  /** `recv` never hands over an empty chunk: zero bytes mean that the connection is closed. */
  ghost predicate NonEmpty(chunks: seq<Bytes>) {
    forall k :: 0 <= k < |chunks| ==> chunks[k] != []
  }

  lemma NoTerminatorCutFront(ends: Judge, chunks: seq<Bytes>)
    requires chunks != []
    ensures var n := |chunks| - 1;
      NoTerminatorCut(ends, chunks) <==>
        (NoTerminatorCut(ends, chunks[..n]) &&
         (n > 0 && CutsTerminator(chunks[n - 1], chunks[n]) ==> Reference(ends, Concat(chunks[..n])).Ended?))
  {
    var n := |chunks| - 1;
    var front := chunks[..n];
    assert forall k :: 0 <= k <= n ==> front[..k] == chunks[..k];
  }

  lemma LastByte(chunks: seq<Bytes>)
    requires chunks != [] && NonEmpty(chunks)
    ensures var s, c := Concat(chunks), chunks[|chunks| - 1]; s != [] && s[|s| - 1] == c[|c| - 1]
  {
  }

  /** Either the chunks act like the stream, or a cut terminator is stuck in a line for good. */
  lemma {:induction false} ChunksOrPoison(ends: Judge, chunks: seq<Bytes>)
    requires NonEmpty(chunks)
    ensures NoTerminatorCut(ends, chunks) ==> AbsorbAll(ends, chunks) == Reference(ends, Concat(chunks))
    ensures !NoTerminatorCut(ends, chunks) ==> Poisoned(AbsorbAll(ends, chunks))
  {
    if chunks != [] {
      var n := |chunks| - 1;
      var front, last := chunks[..n], chunks[n];
      ChunksOrPoison(ends, front);
      NoTerminatorCutFront(ends, chunks);
      if NoTerminatorCut(ends, front) {
        OneMoreChunk(ends, front, last);
      } else {
        PoisonStays(ends, AbsorbAll(ends, front), last);
      }
    }
  }

  lemma OneMoreChunk(ends: Judge, front: seq<Bytes>, last: Bytes)
    requires NonEmpty(front) && last != [] && AbsorbAll(ends, front) == Reference(ends, Concat(front))
    ensures var cut := front != [] && CutsTerminator(front[|front| - 1], last) && Reference(ends, Concat(front)).Open?;
      var st := Absorb(ends, AbsorbAll(ends, front), last);
      (cut ==> Poisoned(st)) && (!cut ==> st == Reference(ends, Concat(front) + last))
  {
    var s := Concat(front);
    WholeStream(ends, s);
    WholeStream(ends, s + last);
    if front != [] {
      LastByte(front);
    }
    if CutsTerminator(s, last) && Reference(ends, s).Open? {
      CarryIsTail(s);
      CutPoisons(ends, Reference(ends, s), last);
    } else {
      AbsorbTwo(ends, NEW_STREAM, s, last);
    }
  }

  /** The listener treats a chunked stream like the whole stream exactly when no boundary cuts a terminator it still waits for. */
  lemma ChunkingIrrelevantExactly(ends: Judge, chunks: seq<Bytes>)
    requires NonEmpty(chunks)
    ensures AbsorbAll(ends, chunks) == Reference(ends, Concat(chunks)) <==> NoTerminatorCut(ends, chunks)
  {
    ChunksOrPoison(ends, chunks);
    ReferenceIsClean(ends, Concat(chunks));
  }

  /** The shortest failing stream: one terminator in two chunks. */
  lemma CutTerminatorIsMissed(ends: Judge)
    ensures NonEmpty([[CR], [LF]]) && !NoTerminatorCut(ends, [[CR], [LF]])
    ensures AbsorbAll(ends, [[CR], [LF]]) != Reference(ends, Concat([[CR], [LF]]))
  {
    var chunks: seq<Bytes> := [[CR], [LF]];
    assert CutsTerminator(chunks[0], chunks[1]);
    assert chunks[..1] == [[CR]];
    assert Concat(chunks[..1]) == [CR] by {
      assert chunks[..1][..0] == [];
    }
    assert Find([CR], CRLF) == None by {
      FindSpec([CR], CRLF);
    }
    assert Reference(ends, [CR]).Open?;
    ChunkingIrrelevantExactly(ends, chunks);
  }
}
