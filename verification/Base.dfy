/** Machine-level vocabulary shared by every other module: bytes, 16-bit identifiers and C strings. */
module Base {
  /** `uint8_t`, and the value of a C `char` as it travels on the wire. */
  type byte = b: int | 0 <= b < 0x100

  /** `uint16_t`, the type of every message identifier. */
  type Id = i: int | 0 <= i < 0x1_0000

  type Bytes = seq<byte>

  datatype Option<+T> = None | Some(value: T)

  const CR: byte := 0x0D
  const LF: byte := 0x0A
  const CRLF: Bytes := [CR, LF]

  /** The bytes of a piece of ASCII text. */
  function Ascii(text: string): Bytes {
    seq(|text|, i requires 0 <= i < |text| => text[i] as int % 0x100)
  }

  /** Conversion of a counter to `uint16_t`: the high bits are dropped. */
  function ToId(n: nat): Id {
    n % 0x1_0000
  }

  ghost predicate NulFree(s: Bytes) {
    forall i :: 0 <= i < |s| ==> s[i] != 0
  }

  /** The contents of a C string: bytes none of which is the terminator. */
  type CString = s: Bytes | NulFree(s)

  /** `strlen` on a buffer, stopping at the end of the buffer when it holds no terminator. */
  function Strlen(s: Bytes): (n: nat)
    ensures n <= |s| && NulFree(s[..n])
    ensures n < |s| ==> s[n] == 0
  {
    if s == [] || s[0] == 0 then 0
    else
      var n := Strlen(s[1..]);
      assert forall i :: 1 <= i <= n ==> s[i] == s[1..][..n][i - 1];
      n + 1
  }

  /** The C string that starts at the first byte of a buffer. */
  function CStr(s: Bytes): CString {
    s[..Strlen(s)]
  }

  /** Two positions that both look like the end of the same C string are the same position. */
  lemma StrlenUnique(s: Bytes, n: nat)
    requires n <= |s| && NulFree(s[..n]) && (n < |s| ==> s[n] == 0)
    ensures Strlen(s) == n
  {
    var m := Strlen(s);
    assert forall i :: 0 <= i < n ==> s[i] == s[..n][i];
    assert forall i :: 0 <= i < m ==> s[i] == s[..m][i];
  }

  lemma StrlenOfField(f: CString, rest: Bytes)
    ensures Strlen(f + [0] + rest) == |f|
    ensures CStr(f + [0] + rest) == f
  {
    var s := f + [0] + rest;
    assert s[..|f|] == f;
    StrlenUnique(s, |f|);
  }

  lemma Assoc(h: Bytes, a: Bytes, b: Bytes)
    ensures h + a + b == h + (a + b)
  {
  }

  function Pow2(k: nat): (p: nat)
    ensures p > 0
  {
    if k == 0 then 1 else 2 * Pow2(k - 1)
  }

  lemma {:induction false} Pow2Monotone(j: nat, k: nat)
    requires j <= k
    ensures Pow2(j) <= Pow2(k)
  {
    if j < k {
      Pow2Monotone(j, k - 1);
    }
  }

  const INITIAL_CAPACITY: nat := 100

  /** The sizes a growable identifier array can have: it starts at 100 slots and only ever doubles. */
  ghost predicate IsCapacity(c: nat) {
    exists k: nat :: c == INITIAL_CAPACITY * Pow2(k)
  }

  const LARGEST_CAPACITY: nat := 102400

  lemma InitialIsCapacity()
    ensures IsCapacity(INITIAL_CAPACITY)
  {
    assert INITIAL_CAPACITY == INITIAL_CAPACITY * Pow2(0);
  }

  lemma DoubledIsCapacity(c: nat)
    requires IsCapacity(c)
    ensures IsCapacity(2 * c)
  {
    var k: nat :| c == INITIAL_CAPACITY * Pow2(k);
    assert 2 * c == INITIAL_CAPACITY * Pow2(k + 1);
  }

  /** No capacity lies strictly between 51200 and 102400. */
  lemma CapacityGap(c: nat)
    requires IsCapacity(c)
    ensures c >= INITIAL_CAPACITY
    ensures c <= 51200 || c >= LARGEST_CAPACITY
  {
    var k: nat :| c == INITIAL_CAPACITY * Pow2(k);
    Pow2Monotone(0, k);
    assert Pow2(5) == 32;
    assert Pow2(9) == 16 * Pow2(5);
    if k <= 9 {
      Pow2Monotone(k, 9);
    } else {
      Pow2Monotone(10, k);
      assert Pow2(10) == 2 * Pow2(9);
    }
  }
}
