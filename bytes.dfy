/** Byte-level vocabulary used by every decoder: the byte type, little-endian
    integers, searching ("memchr" and pattern search), UTF-8 well-formedness,
    decimal rendering and parsing, and splitting on a separator byte. */
module Bytes {
  import opened Errors

  type byte = b: int | 0 <= b < 256

  const LF: byte := 10
  const CR: byte := 13
  const TAB: byte := 9

  const U8_LIMIT: nat := 0x100
  const U16_LIMIT: nat := 0x1_0000
  const U32_LIMIT: nat := 0x1_0000_0000
  const U64_LIMIT: nat := 0x1_0000_0000_0000_0000
  const I32_MIN: int := -0x8000_0000

  /** The bytes of a string literal whose characters are all below 256. */
  function Lit(s: string): (r: seq<byte>)
    requires forall i :: 0 <= i < |s| ==> s[i] as int < 256
    ensures |r| == |s|
    ensures forall i :: 0 <= i < |s| ==> r[i] == s[i] as int
  {
    seq(|s|, i requires 0 <= i < |s| => s[i] as int)
  }

  function Pow256(k: nat): (p: nat)
    ensures p >= 1
  {
    if k == 0 then 1 else 256 * Pow256(k - 1)
  }

  /** Unsigned little-endian value of the bytes `s` (least significant first). */
  function LE(s: seq<byte>): (n: nat)
    ensures n < Pow256(|s|)
    ensures |s| == 4 ==> n < U32_LIMIT
  {
    Pow256Four();
    if |s| == 0 then 0 else s[0] + 256 * LE(s[1..])
  }

  /** `n` as `width` little-endian bytes (`to_le_bytes`); `LE` reads it back. */
  function ToLE(n: nat, width: nat): (r: seq<byte>)
    requires n < Pow256(width)
    ensures |r| == width && LE(r) == n
  {
    if width == 0 then []
    else
      var r := [n % 256] + ToLE(n / 256, width - 1);
      assert r[1..] == ToLE(n / 256, width - 1);
      r
  }

  lemma Pow256Four()
    ensures Pow256(4) == U32_LIMIT
  {
    assert Pow256(2) == 0x1_0000;
  }

  /** A `u32` as its four little-endian bytes. */
  function U32(n: nat): (r: seq<byte>)
    requires n < U32_LIMIT
    ensures |r| == 4 && LE(r) == n
  {
    Pow256Four();
    ToLE(n, 4)
  }

  /** A `u16` as its two little-endian bytes. */
  function U16(n: nat): (r: seq<byte>)
    requires n < U16_LIMIT
    ensures |r| == 2 && LE(r) == n
  {
    assert Pow256(2) == U16_LIMIT;
    ToLE(n, 2)
  }

  /** An `i32` as the four little-endian bytes of its two's complement;
      `AsI32` reads it back. */
  function I32(v: int): (r: seq<byte>)
    requires I32_MIN <= v < -I32_MIN
    ensures |r| == 4 && AsI32(LE(r)) == v
  {
    U32(CastUnsigned(v, U32_LIMIT))
  }

  /** The little-endian `u32` in the four bytes from `i`. */
  function U32At(s: seq<byte>, i: nat): (n: nat)
    requires i + 4 <= |s|
    ensures n < U32_LIMIT
  {
    s[i] as nat + 0x100 * s[i + 1] as nat + 0x1_0000 * s[i + 2] as nat + 0x100_0000 * s[i + 3] as nat
  }

  /** `U32At` is `LE` on the four bytes. */
  lemma U32AtIsLE(s: seq<byte>, i: nat)
    requires i + 4 <= |s|
    ensures U32At(s, i) == LE(s[i..i + 4])
  {
    var b := s[i..i + 4];
    assert b[3..][1..] == [];
    assert LE(b[3..]) == b[3];
    assert b[2..][1..] == b[3..];
    assert LE(b[2..]) == b[2] + 256 * LE(b[3..]);
    assert b[1..][1..] == b[2..];
    assert LE(b[1..]) == b[1] + 256 * LE(b[2..]);
    assert LE(b) == b[0] + 256 * LE(b[1..]);
  }

  /** Four bytes written by `U32` read back as the value. */
  lemma U32AtWritten(s: seq<byte>, i: nat, n: nat)
    requires n < U32_LIMIT && i + 4 <= |s| && s[i..i + 4] == U32(n)
    ensures U32At(s, i) == n
  {
    U32AtIsLE(s, i);
  }

  /** `U32` read back at the start of its own bytes. */
  lemma U32AtOf(n: nat)
    requires n < U32_LIMIT
    ensures U32At(U32(n), 0) == n
  {
    assert U32(n)[0..4] == U32(n);
    U32AtWritten(U32(n), 0, n);
  }

  lemma U32AtAppend(x: seq<byte>, y: seq<byte>, i: nat)
    requires i + 4 <= |x|
    ensures U32At(x + y, i) == U32At(x, i)
  {
  }

  lemma U32AtPrepend(x: seq<byte>, y: seq<byte>, i: nat)
    requires i + 4 <= |y|
    ensures U32At(x + y, |x| + i) == U32At(y, i)
  {
  }

  /** Two's-complement reading of a 32-bit unsigned value (an `i32`). */
  function AsI32(n: nat): (r: int)
    requires n < U32_LIMIT
    ensures I32_MIN <= r < -I32_MIN
    ensures r % U32_LIMIT == n
  {
    if n >= 0x8000_0000 then n - U32_LIMIT else n
  }

  /** `x as u64` / `x as u32` for a signed value that fits in the target
      width: negative values wrap around to `x + limit`. */
  function CastUnsigned(x: int, limit: nat): (r: nat)
    requires -(limit as int) <= x < limit
    ensures r < limit
    ensures x >= 0 ==> r == x
    ensures x < 0 ==> r == x + limit
  {
    if x < 0 then x + limit else x
  }

  /** memchr: the first index at or after `from` holding `b`. */
  function FindByte(s: seq<byte>, b: byte, from: nat): (r: Option<nat>)
    decreases |s| - from
    ensures r.Some? ==> from <= r.value < |s| && s[r.value] == b
    ensures r.Some? ==> forall j :: from <= j < r.value ==> s[j] != b
    ensures r.None? ==> forall j :: from <= j < |s| ==> s[j] != b
  {
    if from >= |s| then None
    else if s[from] == b then Some(from)
    else FindByte(s, b, from + 1)
  }

  /** Every later index at or after `from` and before `i` differs from `b`,
      and `s[i]` is `b`: then memchr answers `i`. */
  lemma FindByteIs(s: seq<byte>, b: byte, from: nat, i: nat)
    requires from <= i < |s| && s[i] == b
    requires forall j :: from <= j < i ==> s[j] != b
    ensures FindByte(s, b, from) == Some(i)
    decreases i - from
  {
    if from < i {
      FindByteIs(s, b, from + 1, i);
    }
  }

  /** memchr on the tail `s[k..]` answers relative to `k`. */
  lemma FindByteTail(s: seq<byte>, b: byte, k: nat)
    requires k <= |s|
    ensures FindByte(s[k..], b, 0).Some? <==> FindByte(s, b, k).Some?
    ensures FindByte(s, b, k).Some? ==> FindByte(s[k..], b, 0).value == FindByte(s, b, k).value - k
  {
    match FindByte(s, b, k)
    case Some(i) => FindByteIs(s[k..], b, 0, i - k);
    case None =>
  }

  /** A byte found in a prefix is found at the same place in the whole. */
  lemma {:induction false} FindByteExtend(s: seq<byte>, t: seq<byte>, b: byte, from: nat)
    requires FindByte(s, b, from).Some?
    ensures FindByte(s + t, b, from) == FindByte(s, b, from)
    decreases |s| - from
  {
    if s[from] != b {
      FindByteExtend(s, t, b, from + 1);
    }
  }

  /** A line without LF or CR. */
  predicate Plain(s: seq<byte>)
  {
    forall i :: 0 <= i < |s| ==> s[i] != LF && s[i] != CR
  }

  /** The line terminator: LF, or CR LF. */
  function LineEnd(crlf: bool): seq<byte>
  {
    if crlf then [CR, LF] else [LF]
  }

  predicate MatchesAt(s: seq<byte>, pat: seq<byte>, i: nat)
  {
    i + |pat| <= |s| && s[i..i + |pat|] == pat
  }

  /** The first index at or after `from` where `pat` occurs in `s`. */
  function FindPattern(s: seq<byte>, pat: seq<byte>, from: nat): (r: Option<nat>)
    decreases |s| - from
    ensures r.Some? ==> from <= r.value && MatchesAt(s, pat, r.value)
    ensures r.Some? ==> forall j :: from <= j < r.value ==> !MatchesAt(s, pat, j)
    ensures r.None? ==> forall j :: from <= j ==> !MatchesAt(s, pat, j)
  {
    if from + |pat| > |s| then None
    else if s[from..from + |pat|] == pat then Some(from)
    else FindPattern(s, pat, from + 1)
  }

  lemma MatchesAtAppend(x: seq<byte>, y: seq<byte>, at: nat, pat: seq<byte>)
    requires MatchesAt(x, pat, at)
    ensures MatchesAt(x + y, pat, at)
  {
    assert (x + y)[at..at + |pat|] == x[at..at + |pat|];
  }

  lemma MatchesAtPrepend(x: seq<byte>, y: seq<byte>, at: nat, pat: seq<byte>)
    requires MatchesAt(y, pat, at)
    ensures MatchesAt(x + y, pat, |x| + at)
  {
    assert (x + y)[|x| + at..|x| + at + |pat|] == y[at..at + |pat|];
  }

  /** A pattern at `from` is the first one found from there. */
  lemma MarkerFound(s: seq<byte>, pat: seq<byte>, from: nat)
    requires MatchesAt(s, pat, from)
    ensures FindPattern(s, pat, from) == Some(from)
  {
  }

  /** Concatenation groups either way. */
  lemma AppendAssoc<T>(a: seq<T>, b: seq<T>, c: seq<T>)
    ensures a + (b + c) == (a + b) + c
  {
  }

  /** A slice made of two parts splits where the first part ends. */
  lemma SliceSplit(data: seq<byte>, a: nat, b: nat, c: nat, x: seq<byte>, y: seq<byte>)
    requires a <= b <= c <= |data| && |x| == b - a
    requires data[a..c] == x + y
    ensures data[a..b] == x && data[b..c] == y
  {
    assert data[a..b] == data[a..c][..b - a];
    assert data[b..c] == data[a..c][b - a..];
  }

  // ---------------------------------------------------------------------------
  // UTF-8 (the well-formed byte sequences of section 4 of RFC 3629, which is
  // what Rust's `str::from_utf8` accepts)

  predicate IsCont(b: byte) { 0x80 <= b < 0xC0 }

  /** Length of the well-formed UTF-8 character at the front of `s`, or 0. */
  function Utf8CharLen(s: seq<byte>): (n: nat)
    requires |s| > 0
    ensures n <= 4 && n <= |s|
    ensures s[0] < 0x80 <==> n == 1
  {
    var b := s[0];
    if b < 0x80 then 1
    else if 0xC2 <= b <= 0xDF then
      (if |s| >= 2 && IsCont(s[1]) then 2 else 0)
    else if b == 0xE0 then
      (if |s| >= 3 && 0xA0 <= s[1] <= 0xBF && IsCont(s[2]) then 3 else 0)
    else if (0xE1 <= b <= 0xEC) || b == 0xEE || b == 0xEF then
      (if |s| >= 3 && IsCont(s[1]) && IsCont(s[2]) then 3 else 0)
    else if b == 0xED then
      (if |s| >= 3 && 0x80 <= s[1] <= 0x9F && IsCont(s[2]) then 3 else 0)
    else if b == 0xF0 then
      (if |s| >= 4 && 0x90 <= s[1] <= 0xBF && IsCont(s[2]) && IsCont(s[3]) then 4 else 0)
    else if 0xF1 <= b <= 0xF3 then
      (if |s| >= 4 && IsCont(s[1]) && IsCont(s[2]) && IsCont(s[3]) then 4 else 0)
    else if b == 0xF4 then
      (if |s| >= 4 && 0x80 <= s[1] <= 0x8F && IsCont(s[2]) && IsCont(s[3]) then 4 else 0)
    else 0
  }

  predicate ValidUtf8(s: seq<byte>)
    decreases |s|
  {
    |s| == 0 || (Utf8CharLen(s) > 0 && ValidUtf8(s[Utf8CharLen(s)..]))
  }

  predicate IsAscii(s: seq<byte>)
  {
    forall i :: 0 <= i < |s| ==> s[i] < 0x80
  }

  /** Every ASCII byte string is valid UTF-8. */
  lemma {:induction false} AsciiIsUtf8(s: seq<byte>)
    requires IsAscii(s)
    ensures ValidUtf8(s)
    decreases |s|
  {
    if |s| > 0 {
      assert Utf8CharLen(s) == 1;
      AsciiIsUtf8(s[1..]);
    }
  }

  /** `alloc::str::from_utf8`: the bytes themselves when they are UTF-8. */
  function FromUtf8(s: seq<byte>): (r: Result<seq<byte>>)
    ensures r.Ok? <==> ValidUtf8(s)
    ensures r.Ok? ==> r.value == s
  {
    if ValidUtf8(s) then Ok(s) else Err(Malformed("invalid utf-8"))
  }

  // ---------------------------------------------------------------------------
  // Decimal numbers

  predicate IsDigit(b: byte) { 48 <= b <= 57 }

  predicate AllDigits(s: seq<byte>)
  {
    forall i :: 0 <= i < |s| ==> IsDigit(s[i])
  }

  /** ASCII decimal rendering, as `to_string()` gives it for an unsigned value. */
  function Decimal(n: nat): (r: seq<byte>)
    ensures |r| > 0 && AllDigits(r)
    ensures n >= 10 ==> r[0] != 48
  {
    if n < 10 then [48 + n] else Decimal(n / 10) + [48 + n % 10]
  }

  /** The value of a string of ASCII decimal digits. */
  function DigitsValue(s: seq<byte>): nat
    requires AllDigits(s)
  {
    if |s| == 0 then 0 else 10 * DigitsValue(s[..|s| - 1]) + (s[|s| - 1] - 48)
  }

  /** Rendering then reading back gives the number again. */
  lemma {:induction false} DecimalRoundTrip(n: nat)
    ensures DigitsValue(Decimal(n)) == n
  {
    var d := Decimal(n);
    if n >= 10 {
      DecimalRoundTrip(n / 10);
      assert d[..|d| - 1] == Decimal(n / 10);
    }
  }

  /** `str::parse` of an unsigned integer type below `limit`: an optional `+`
      then at least one decimal digit, with the value in range. */
  function ParseUnsigned(s: seq<byte>, limit: nat): (r: Option<nat>)
    ensures r.Some? ==> r.value < limit
    ensures AllDigits(s) && |s| > 0 && DigitsValue(s) < limit ==> r == Some(DigitsValue(s))
    ensures |s| == 0 ==> r.None?
  {
    var digits := if |s| > 0 && s[0] == 43 then s[1..] else s;
    if |digits| > 0 && AllDigits(digits) && DigitsValue(digits) < limit
    then Some(DigitsValue(digits)) else None
  }

  /** `str::parse::<i32>()`: an optional `+` or `-` sign, then digits. */
  function ParseI32(s: seq<byte>): (r: Option<int>)
    ensures r.Some? ==> I32_MIN <= r.value < -I32_MIN
    ensures |s| == 0 ==> r.None?
  {
    var neg := |s| > 0 && s[0] == 45;
    var digits := if |s| > 0 && (s[0] == 43 || s[0] == 45) then s[1..] else s;
    if |digits| == 0 || !AllDigits(digits) then None
    else
      var v: int := if neg then -(DigitsValue(digits) as int) else DigitsValue(digits);
      if I32_MIN <= v < -I32_MIN then Some(v) else None
  }

  // ---------------------------------------------------------------------------
  // Splitting on a separator (`<[u8]>::split`) and joining

  /** The pieces of `s` between occurrences of `sep`; never empty. */
  function Split(s: seq<byte>, sep: byte): (r: seq<seq<byte>>)
    decreases |s|
    ensures |r| > 0
    ensures forall k, j :: 0 <= k < |r| && 0 <= j < |r[k]| ==> r[k][j] != sep
  {
    match FindByte(s, sep, 0)
    case None => [s]
    case Some(i) => [s[..i]] + Split(s[i + 1..], sep)
  }

  /** The pieces of `parts` with `sep` between consecutive ones. */
  function Join(parts: seq<seq<byte>>, sep: byte): seq<byte>
    requires |parts| > 0
    decreases |parts|
  {
    if |parts| == 1 then parts[0] else parts[0] + [sep] + Join(parts[1..], sep)
  }

  /** Joining the pieces of a split gives back the input. */
  lemma {:induction false} JoinSplit(s: seq<byte>, sep: byte)
    ensures Join(Split(s, sep), sep) == s
    decreases |s|
  {
    match FindByte(s, sep, 0)
    case None =>
    case Some(i) =>
      JoinSplit(s[i + 1..], sep);
      assert s == s[..i] + [sep] + s[i + 1..];
  }

  /** Splitting pieces that do not contain `sep` after joining them gives
      the pieces back. */
  lemma {:induction false} SplitJoin(parts: seq<seq<byte>>, sep: byte)
    requires |parts| > 0
    requires forall k, j :: 0 <= k < |parts| && 0 <= j < |parts[k]| ==> parts[k][j] != sep
    ensures Split(Join(parts, sep), sep) == parts
    decreases |parts|
  {
    var p := parts[0];
    if |parts| == 1 {
      assert parts[0] == p;
      assert FindByte(p, sep, 0).None?;
    } else {
      var s := Join(parts, sep);
      assert s == p + [sep] + Join(parts[1..], sep);
      FindByteIs(s, sep, 0, |p|);
      assert s[..|p|] == p;
      assert s[|p| + 1..] == Join(parts[1..], sep);
      SplitJoin(parts[1..], sep);
      assert parts == [p] + parts[1..];
    }
  }

  /** Joining one more piece appends the separator and the piece. */
  lemma {:induction false} JoinSnoc(parts: seq<seq<byte>>, last: seq<byte>, sep: byte)
    requires |parts| > 0
    ensures Join(parts + [last], sep) == Join(parts, sep) + [sep] + last
    decreases |parts|
  {
    assert (parts + [last])[0] == parts[0];
    if |parts| == 1 {
      assert (parts + [last])[1..] == [last];
    } else {
      JoinSnoc(parts[1..], last, sep);
      assert (parts + [last])[1..] == parts[1..] + [last];
    }
  }

  /** The number of pieces is one more than the number of separators. */
  function Count(s: seq<byte>, b: byte): nat
  {
    if |s| == 0 then 0 else (if s[0] == b then 1 else 0) + Count(s[1..], b)
  }

  lemma {:induction false} CountSplit(s: seq<byte>, sep: byte)
    ensures |Split(s, sep)| == Count(s, sep) + 1
    decreases |s|
  {
    match FindByte(s, sep, 0)
    case None =>
      CountAbsent(s, sep);
    case Some(i) =>
      CountSplit(s[i + 1..], sep);
      CountAbsent(s[..i], sep);
      CountAppend(s[..i], s[i..], sep);
      assert s[i..][1..] == s[i + 1..];
      assert s[..i] + s[i..] == s;
  }

  lemma {:induction false} CountAbsent(s: seq<byte>, b: byte)
    requires forall j :: 0 <= j < |s| ==> s[j] != b
    ensures Count(s, b) == 0
  {
    if |s| > 0 {
      CountAbsent(s[1..], b);
    }
  }

  lemma {:induction false} CountAppend(s: seq<byte>, t: seq<byte>, b: byte)
    ensures Count(s + t, b) == Count(s, b) + Count(t, b)
  {
    if |s| > 0 {
      CountAppend(s[1..], t, b);
      assert (s + t)[1..] == s[1..] + t;
    } else {
      assert s + t == t;
    }
  }
}
