/** Byte strings as the build loop sees them: process output lines (`OsStr` on
    Unix, an arbitrary byte string) and the Rust `str` view of them when they
    are well-formed UTF-8. */
module ByteStrings {

  newtype byte = b: int | 0 <= b < 0x100

  type Bytes = seq<byte>

  /** The line feed that `.` in a regular expression does not match. */
  const LF: byte := 0x0A
  /** The single quote that delimits every capture of the log patterns. */
  const Quote: byte := 0x27

  /** The bytes of an ASCII string literal. */
  function Ascii(s: string): (r: Bytes)
    requires forall i | 0 <= i < |s| :: s[i] as int < 0x80
    ensures |r| == |s| && IsAscii(r)
    ensures forall i | 0 <= i < |s| :: r[i] as int == s[i] as int
  {
    seq(|s|, i requires 0 <= i < |s| => s[i] as int as byte)
  }

  predicate IsPrefix(p: Bytes, s: Bytes) {
    |p| <= |s| && s[..|p|] == p
  }

  predicate NoNewline(s: Bytes) {
    forall i | 0 <= i < |s| :: s[i] != LF
  }

  /** A slice of a line has no line feed either. */
  lemma NoNewlineSlice(s: Bytes, lo: nat, hi: nat)
    requires NoNewline(s) && lo <= hi <= |s|
    ensures NoNewline(s[lo..hi])
  {
    assert forall i | 0 <= i < hi - lo :: s[lo..hi][i] == s[lo + i];
  }

  predicate IsAscii(s: Bytes) {
    forall i | 0 <= i < |s| :: s[i] < 0x80
  }

  predicate IsContinuation(b: byte) {
    0x80 <= b <= 0xBF
  }

  /** The length of the well-formed UTF-8 sequence `s` starts with, or 0 when
      it does not start with one (Table 3-7 of the Unicode Standard, which is
      what `str::from_utf8` accepts: no overlong forms, no surrogates, nothing
      above U+10FFFF). */
  function ScalarLength(s: Bytes): (n: nat)
    ensures n <= |s| && n <= 4
    ensures |s| > 0 && s[0] < 0x80 ==> n == 1
    ensures n > 1 ==> s[0] >= 0xC2 && forall k | 1 <= k < n :: IsContinuation(s[k])
  {
    if |s| == 0 then 0
    else if s[0] < 0x80 then 1
    else if 0xC2 <= s[0] <= 0xDF then
      if |s| >= 2 && IsContinuation(s[1]) then 2 else 0
    else if s[0] == 0xE0 then
      if |s| >= 3 && 0xA0 <= s[1] <= 0xBF && IsContinuation(s[2]) then 3 else 0
    else if 0xE1 <= s[0] <= 0xEC || 0xEE <= s[0] <= 0xEF then
      if |s| >= 3 && IsContinuation(s[1]) && IsContinuation(s[2]) then 3 else 0
    else if s[0] == 0xED then
      if |s| >= 3 && 0x80 <= s[1] <= 0x9F && IsContinuation(s[2]) then 3 else 0
    else if s[0] == 0xF0 then
      if |s| >= 4 && 0x90 <= s[1] <= 0xBF && IsContinuation(s[2]) && IsContinuation(s[3]) then 4 else 0
    else if 0xF1 <= s[0] <= 0xF3 then
      if |s| >= 4 && IsContinuation(s[1]) && IsContinuation(s[2]) && IsContinuation(s[3]) then 4 else 0
    else if s[0] == 0xF4 then
      if |s| >= 4 && 0x80 <= s[1] <= 0x8F && IsContinuation(s[2]) && IsContinuation(s[3]) then 4 else 0
    else 0
  }

  /** `OsStr::to_str` succeeds exactly on well-formed UTF-8. */
  predicate ValidUtf8(s: Bytes)
    decreases |s|
  {
    |s| == 0 || (ScalarLength(s) > 0 && ValidUtf8(s[ScalarLength(s)..]))
  }

  /** Every ASCII byte string is well-formed UTF-8. */
  lemma {:induction false} AsciiIsValidUtf8(s: Bytes)
    requires IsAscii(s)
    ensures ValidUtf8(s)
  {
    if |s| > 0 {
      AsciiIsValidUtf8(s[1..]);
    }
  }

  /** Well-formed UTF-8 is closed under concatenation. */
  lemma {:induction false} ConcatValidUtf8(a: Bytes, b: Bytes)
    requires ValidUtf8(a) && ValidUtf8(b)
    ensures ValidUtf8(a + b)
  {
    if |a| > 0 {
      var n := ScalarLength(a);
      var ab := a + b;
      ScalarLengthPrefix(a, b);
      assert ab[n..] == a[n..] + b;
      ConcatValidUtf8(a[n..], b);
      assert ValidUtf8(ab[ScalarLength(ab)..]);
    } else {
      assert a + b == b;
    }
  }

  /** The first scalar's length depends only on its own bytes. */
  lemma ScalarLengthPrefix(a: Bytes, b: Bytes)
    requires ScalarLength(a) > 0
    ensures ScalarLength(a + b) == ScalarLength(a)
  {
  }

  /** Cutting well-formed UTF-8 in front of an ASCII byte leaves two
      well-formed halves: an ASCII byte never continues a multi-byte
      sequence, so such a cut is a character boundary. */
  lemma {:induction false} SplitValidUtf8AtAscii(a: Bytes, c: byte, b: Bytes)
    requires c < 0x80
    requires ValidUtf8(a + [c] + b)
    ensures ValidUtf8(a) && ValidUtf8(b)
  {
    var s := a + [c] + b;
    if |a| == 0 {
      assert s[1..] == b;
    } else {
      var n := ScalarLength(s);
      assert a[..n] == s[..n];
      assert ScalarLength(a) == n by {
        ScalarLengthOfPrefix(s, a, n);
      }
      assert s[n..] == a[n..] + [c] + b;
      SplitValidUtf8AtAscii(a[n..], c, b);
    }
  }

  lemma ScalarLengthOfPrefix(s: Bytes, a: Bytes, n: nat)
    requires 0 < n == ScalarLength(s) <= |a| <= |s|
    requires a == s[..|a|]
    ensures ScalarLength(a) == n
  {
  }

  /** An ASCII prefix is made of whole characters, so what follows it is
      well-formed on its own. */
  lemma {:induction false} DropAsciiPrefix(p: Bytes, s: Bytes)
    requires IsAscii(p) && ValidUtf8(p + s)
    ensures ValidUtf8(s)
  {
    if |p| > 0 {
      var q := p[..|p| - 1];
      assert p + s == q + [p[|p| - 1]] + s;
      SplitValidUtf8AtAscii(q, p[|p| - 1], s);
    } else {
      assert p + s == s;
    }
  }

  /** Printable text with no line feed and no quote: what paths and
      attribute names in the unit tests look like. */
  predicate Plain(s: Bytes) {
    IsAscii(s) && NoNewline(s) && Quote !in s
  }

  lemma PlainAscii(s: string)
    requires forall i | 0 <= i < |s| :: s[i] as int < 0x80 && s[i] != '\n' && s[i] != '\''
    ensures Plain(Ascii(s))
  {
    var r := Ascii(s);
    assert forall i | 0 <= i < |s| :: r[i] != LF && r[i] != Quote;
  }

  lemma PlainConcat(a: Bytes, b: Bytes)
    requires Plain(a) && Plain(b)
    ensures Plain(a + b)
  {
    assert forall i | 0 <= i < |a + b| :: (a + b)[i] == if i < |a| then a[i] else b[i - |a|];
  }

  lemma PlainIsValidUtf8(s: Bytes)
    requires Plain(s)
    ensures ValidUtf8(s)
  {
    AsciiIsValidUtf8(s);
  }
}
