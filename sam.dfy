/** SAM text records (`readers/sam.rs`): the `@` header lines skipped when a
    reader opens, and each later line split on tabs into the eleven
    mandatory fields of section 1.4 of the SAM format specification (SAMv1)
    plus any optional ones. */
module Sam {
  import opened Errors
  import opened Bytes
  import opened Buffer

  const AT: byte := 64
  const PIPE: byte := 124
  /** `*`: the text of an absent name, CIGAR, sequence or quality. */
  const STAR: seq<byte> := [42]
  /** `0`: the text of an absent position. */
  const ZERO: seq<byte> := [48]
  /** `255`: the text of an absent mapping quality. */
  const NO_MAPQ: seq<byte> := [50, 53, 53]

  /** What a failed `str::parse` of an integer field becomes. */
  const BadInteger: EtError := Malformed("invalid integer")
  const TooShort: EtError := Malformed("Sam record too short")
  /** A 1-based position of 0 written other than as `0` (`00`, `+0`). */
  const Underflow: EtError := Panic("attempt to subtract with overflow")

  /** A record of a SAM file; names are UTF-8, positions 0-based. */
  datatype SamRecord = SamRecord(
    queryName: seq<byte>,
    flag: nat,
    refName: seq<byte>,
    pos: Option<nat>,
    mapq: Option<nat>,
    cigar: seq<byte>,
    rnext: seq<byte>,
    pnext: Option<nat>,
    tlen: int,
    sequence: seq<byte>,
    quality: seq<byte>,
    extra: seq<byte>)

  // ---------------------------------------------------------------------------
  // One field

  /** A reference name: `*` is no name, anything else must be UTF-8. */
  function Name(c: seq<byte>): (r: Result<seq<byte>>)
    ensures c == STAR ==> r == Ok([])
    ensures c != STAR ==> (r.Ok? <==> ValidUtf8(c)) && (r.Ok? ==> r.value == c)
  {
    if c == STAR then Ok([]) else FromUtf8(c)
  }

  /** `from_utf8(c)?.parse::<uN>()?` for the unsigned type below `limit`. */
  function Number(c: seq<byte>, limit: nat): (r: Result<nat>)
    ensures r.Ok? <==> ValidUtf8(c) && ParseUnsigned(c, limit).Some?
    ensures r.Ok? ==> r.value < limit && ParseUnsigned(c, limit) == Some(r.value)
    ensures ValidUtf8(c) && ParseUnsigned(c, limit).None? ==> r == Err(BadInteger)
  {
    match FromUtf8(c)
    case Err(e) => Err(e)
    case Ok(text) =>
      match ParseUnsigned(text, limit)
      case None => Err(BadInteger)
      case Some(n) => Ok(n)
  }

  /** A 1-based position: `0` is absent, anything else is parsed and made
      0-based by subtracting one, which underflows for a parsed 0. */
  function Position(c: seq<byte>, limit: nat): (r: Result<Option<nat>>)
    ensures c == ZERO ==> r == Ok(None)
    ensures r.Ok? && r.value.Some? ==> c != ZERO && Number(c, limit) == Ok(r.value.value + 1)
    ensures c != ZERO && Number(c, limit) == Ok(0) ==> r == Err(Underflow)
    ensures r.Ok? && r.value.None? ==> c == ZERO
  {
    if c == ZERO then Ok(None)
    else match Number(c, limit)
      case Err(e) => Err(e)
      case Ok(n) => if n == 0 then Err(Underflow) else Ok(Some(n - 1))
  }

  /** The mapping quality, a `u8`; `255` is absent. */
  function Mapq(c: seq<byte>): (r: Result<Option<nat>>)
    ensures r.Ok? && r.value.None? <==> c == NO_MAPQ
    ensures r.Ok? && r.value.Some? ==> r.value.value < U8_LIMIT && Number(c, U8_LIMIT) == Ok(r.value.value)
  {
    if c == NO_MAPQ then Ok(None)
    else match Number(c, U8_LIMIT)
      case Err(e) => Err(e)
      case Ok(n) => Ok(Some(n))
  }

  /** The template length, an `i32`. */
  function TemplateLength(c: seq<byte>): (r: Result<int>)
    ensures r.Ok? <==> ValidUtf8(c) && ParseI32(c).Some?
    ensures r.Ok? ==> I32_MIN <= r.value < -I32_MIN && ParseI32(c) == Some(r.value)
  {
    match FromUtf8(c)
    case Err(e) => Err(e)
    case Ok(text) =>
      match ParseI32(text)
      case None => Err(BadInteger)
      case Some(n) => Ok(n)
  }

  /** CIGAR, sequence and quality: `*` is empty, anything else is kept. */
  function OrEmpty(c: seq<byte>): seq<byte>
  {
    if c == STAR then [] else c
  }

  /** The optional fields after the eleventh, joined with `|`. */
  function Extra(chunks: seq<seq<byte>>): (r: seq<byte>)
    requires |chunks| >= 11
    ensures |chunks| == 11 ==> r == []
    ensures |chunks| > 11 ==> r == Join(chunks[11..], PIPE)
  {
    if |chunks| == 11 then []
    else if |chunks| == 12 then chunks[11]
    else Join(chunks[11..], PIPE)
  }

  // ---------------------------------------------------------------------------
  // One line

  /** `strs_to_sam`: the record the tab-separated fields `chunks` describe,
      with the failures in the order the fields are converted: reference
      name, position, mapping quality, next reference name, next position,
      then query name, flag and template length. */
  function StrsToSam(chunks: seq<seq<byte>>): (r: Result<SamRecord>)
    ensures |chunks| < 11 ==> r == Err(TooShort)
    ensures r.Ok? ==> Converted(chunks, r.value)
  {
    if |chunks| < 11 then Err(TooShort)
    else Convert(chunks, Extra(chunks))
  }

  /** The guarantees of the field types of a converted record: the names are
      `str`, the flag a `u16`, the positions a `u64` and a `u32` less one, the
      mapping quality a `u8`, the template length an `i32`, and the raw
      fields are kept apart from the `*` convention. */
  ghost predicate Converted(chunks: seq<seq<byte>>, rec: SamRecord)
  {
    |chunks| >= 11
    && rec.queryName == chunks[0] && ValidUtf8(rec.queryName)
    && rec.flag < U16_LIMIT
    && rec.refName == OrEmpty(chunks[2]) && ValidUtf8(rec.refName)
    && rec.rnext == OrEmpty(chunks[6]) && ValidUtf8(rec.rnext)
    && (chunks[3] == ZERO <==> rec.pos.None?)
    && (rec.pos.Some? ==> rec.pos.value + 1 < U64_LIMIT)
    && (chunks[4] == NO_MAPQ <==> rec.mapq.None?)
    && (rec.mapq.Some? ==> rec.mapq.value < U8_LIMIT)
    && (chunks[7] == ZERO <==> rec.pnext.None?)
    && (rec.pnext.Some? ==> rec.pnext.value + 1 < U32_LIMIT)
    && I32_MIN <= rec.tlen < -I32_MIN
    && rec.cigar == OrEmpty(chunks[5])
    && rec.sequence == OrEmpty(chunks[9])
    && rec.quality == OrEmpty(chunks[10])
    && rec.extra == Extra(chunks)
  }

  /** The conversion of the fields of a line with at least eleven, given the
      joined optional fields. */
  function Convert(chunks: seq<seq<byte>>, extra: seq<byte>): (r: Result<SamRecord>)
    requires |chunks| >= 11
    ensures r.Ok? && extra == Extra(chunks) ==> Converted(chunks, r.value)
  {
    match Name(chunks[2])
    case Err(e) => Err(e)
    case Ok(refName) =>
    match Position(chunks[3], U64_LIMIT)
    case Err(e) => Err(e)
    case Ok(pos) =>
    match Mapq(chunks[4])
    case Err(e) => Err(e)
    case Ok(mapq) =>
    match Name(chunks[6])
    case Err(e) => Err(e)
    case Ok(rnext) =>
    match Position(chunks[7], U32_LIMIT)
    case Err(e) => Err(e)
    case Ok(pnext) =>
    match FromUtf8(chunks[0])
    case Err(e) => Err(e)
    case Ok(queryName) =>
    match Number(chunks[1], U16_LIMIT)
    case Err(e) => Err(e)
    case Ok(flag) =>
    match TemplateLength(chunks[8])
    case Err(e) => Err(e)
    case Ok(tlen) =>
      Ok(SamRecord(queryName, flag, refName, pos, mapq, OrEmpty(chunks[5]), rnext, pnext,
                   tlen, OrEmpty(chunks[9]), OrEmpty(chunks[10]), extra))
  }

  /** The loop of `strs_to_sam` that joins the optional fields. */
  method JoinExtra(chunks: seq<seq<byte>>) returns (extra: seq<byte>)
    requires |chunks| >= 11
    ensures extra == Extra(chunks)
  {
    if |chunks| == 11 {
      return [];
    }
    if |chunks| == 12 {
      return chunks[11];
    }
    extra := chunks[11];
    assert chunks[11..12] == [chunks[11]];
    var i := 12;
    while i < |chunks|
      invariant 12 <= i <= |chunks|
      invariant extra == Join(chunks[11..i], PIPE)
    {
      JoinSnoc(chunks[11..i], chunks[i], PIPE);
      assert chunks[11..i] + [chunks[i]] == chunks[11..i + 1];
      extra := extra + [PIPE] + chunks[i];
      i := i + 1;
    }
    assert chunks[11..i] == chunks[11..];
  }

  // ---------------------------------------------------------------------------
  // The field conventions

  /** Decimal digits are ASCII, hence UTF-8. */
  lemma DecimalIsUtf8(n: nat)
    ensures ValidUtf8(Decimal(n))
  {
    var d := Decimal(n);
    assert IsAscii(d) by {
      forall i | 0 <= i < |d|
        ensures d[i] < 0x80
      {
        assert IsDigit(d[i]);
      }
    }
    AsciiIsUtf8(d);
  }

  /** The decimal text of a number below `limit` reads back as that number. */
  lemma NumberDecimal(n: nat, limit: nat)
    requires n < limit
    ensures Number(Decimal(n), limit) == Ok(n)
  {
    DecimalIsUtf8(n);
    DecimalRoundTrip(n);
  }

  /** Only zero is written `0`, so `0` can stand for an absent position. */
  lemma DecimalZero(n: nat)
    requires n > 0
    ensures Decimal(n) != ZERO
  {
    DecimalRoundTrip(n);
    assert DigitsValue(ZERO) == 0;
  }

  /** SAM positions are 1-based: the text of `n > 0` is the 0-based
      position `n - 1`, and `0` is an absent position. */
  lemma PositionOneBased(n: nat, limit: nat)
    requires 0 < n < limit
    ensures Position(Decimal(n), limit) == Ok(Some(n - 1))
    ensures Position(ZERO, limit) == Ok(None)
  {
    DecimalZero(n);
    NumberDecimal(n, limit);
  }

  /** A zero written `00` is not the absent position `0`: it is parsed, and
      making it 0-based underflows. */
  lemma PositionZeroPadded(limit: nat)
    requires limit > 0
    ensures Position([48, 48], limit) == Err(Underflow)
  {
    var c: seq<byte> := [48, 48];
    assert IsAscii(c);
    AsciiIsUtf8(c);
    assert c[..1] == [48];
    assert DigitsValue(c) == 0;
  }

  /** A mapping quality below 255 is written in decimal and read back. */
  lemma MapqDecimal(m: nat)
    requires m < 255
    ensures Mapq(Decimal(m)) == Ok(Some(m))
    ensures Mapq(NO_MAPQ) == Ok(None)
  {
    DecimalRoundTrip(m);
    NumberDecimal(m, U8_LIMIT);
    NoMapqValue();
  }

  lemma NoMapqValue()
    ensures DigitsValue(NO_MAPQ) == 255
  {
    var two: seq<byte> := [50, 53];
    var one: seq<byte> := [50];
    assert one[..0] == [] && DigitsValue(one) == 2;
    assert two[..1] == one && DigitsValue(two) == 25;
    assert NO_MAPQ[..2] == two;
  }

  /** `to_string()` of an `i32`: a `-` before the digits of a negative value. */
  function SignedDecimal(t: int): seq<byte>
  {
    if t < 0 then [45] + Decimal(-t) else Decimal(t)
  }

  /** A template length is written in decimal and read back. */
  lemma TemplateLengthDecimal(t: int)
    requires I32_MIN <= t < -I32_MIN
    ensures TemplateLength(SignedDecimal(t)) == Ok(t)
  {
    var k: nat := if t < 0 then -t else t;
    var d := Decimal(k);
    DecimalRoundTrip(k);
    DecimalIsUtf8(k);
    assert IsDigit(d[0]);
    if t < 0 {
      var s := [45] + d;
      assert s[1..] == d;
      assert Utf8CharLen(s) == 1;
      assert s[Utf8CharLen(s)..] == d;
    }
  }

  /** The text of an optional field: `*` for an empty one. */
  function Field(s: seq<byte>): seq<byte>
  {
    if s == [] then STAR else s
  }

  function PositionText(p: Option<nat>): seq<byte>
  {
    match p
    case None => ZERO
    case Some(v) => Decimal(v + 1)
  }

  function MapqText(m: Option<nat>): seq<byte>
  {
    match m
    case None => NO_MAPQ
    case Some(v) => Decimal(v)
  }

  /** The fields of the line that writes `rec`, the optional fields (if
      any) as one twelfth field. */
  function SamFields(rec: SamRecord): (r: seq<seq<byte>>)
    ensures 11 <= |r| <= 12
  {
    [rec.queryName, Decimal(rec.flag), Field(rec.refName), PositionText(rec.pos),
     MapqText(rec.mapq), Field(rec.cigar), Field(rec.rnext), PositionText(rec.pnext),
     SignedDecimal(rec.tlen), Field(rec.sequence), Field(rec.quality)]
    + (if rec.extra == [] then [] else [rec.extra])
  }

  /** The SAM line of `rec`, without its line end. */
  function SamLine(rec: SamRecord): seq<byte>
  {
    Join(SamFields(rec), TAB)
  }

  predicate NoTab(s: seq<byte>)
  {
    forall j :: 0 <= j < |s| ==> s[j] != TAB
  }

  /** The records a SAM line can express: text fields without tabs, names in
      UTF-8, the values in range of their field types, no field whose own
      text is `*`, and a mapping quality other than the absent 255. */
  ghost predicate Writable(rec: SamRecord)
  {
    NoTab(rec.queryName) && ValidUtf8(rec.queryName)
    && rec.flag < U16_LIMIT
    && rec.refName != STAR && NoTab(rec.refName) && ValidUtf8(rec.refName)
    && (rec.pos.Some? ==> rec.pos.value + 1 < U64_LIMIT)
    && (rec.mapq.Some? ==> rec.mapq.value < 255)
    && rec.cigar != STAR && NoTab(rec.cigar)
    && rec.rnext != STAR && NoTab(rec.rnext) && ValidUtf8(rec.rnext)
    && (rec.pnext.Some? ==> rec.pnext.value + 1 < U32_LIMIT)
    && I32_MIN <= rec.tlen < -I32_MIN
    && rec.sequence != STAR && NoTab(rec.sequence)
    && rec.quality != STAR && NoTab(rec.quality)
    && NoTab(rec.extra)
  }

  /** An empty name or raw field is written `*` and read back empty. */
  lemma FieldRoundTrip(s: seq<byte>)
    requires s != STAR
    ensures OrEmpty(Field(s)) == s
    ensures ValidUtf8(s) ==> Name(Field(s)) == Ok(s)
  {
    if s == [] {
      assert Field(s) == STAR;
    }
  }

  lemma PositionRoundTrip(p: Option<nat>, limit: nat)
    requires p.Some? ==> p.value + 1 < limit
    ensures Position(PositionText(p), limit) == Ok(p)
  {
    if p.Some? {
      PositionOneBased(p.value + 1, limit);
    }
  }

  lemma MapqRoundTrip(m: Option<nat>)
    requires m.Some? ==> m.value < 255
    ensures Mapq(MapqText(m)) == Ok(m)
  {
    if m.Some? {
      MapqDecimal(m.value);
    }
  }

  /** No field of a writable record's line holds a tab. */
  lemma FieldsNoTab(rec: SamRecord)
    requires Writable(rec)
    ensures forall k, j :: 0 <= k < |SamFields(rec)| && 0 <= j < |SamFields(rec)[k]| ==> SamFields(rec)[k][j] != TAB
  {
    var fields := SamFields(rec);
    forall k | 0 <= k < |fields|
      ensures NoTab(fields[k])
    {
      var f := fields[k];
      if f == Decimal(rec.flag) || f == MapqText(rec.mapq) || f == PositionText(rec.pos) || f == PositionText(rec.pnext) {
        assert forall j :: 0 <= j < |f| ==> IsDigit(f[j]);
      } else if k == 8 {
        assert forall j :: 1 <= j < |f| && rec.tlen < 0 ==> f[j] == Decimal(-rec.tlen)[j - 1];
      }
    }
  }

  /** The conversion of fields whose every part converts to the part of
      `rec` it stands for. */
  lemma ConvertParts(chunks: seq<seq<byte>>, rec: SamRecord)
    requires |chunks| >= 11
    requires FromUtf8(chunks[0]) == Ok(rec.queryName)
    requires Number(chunks[1], U16_LIMIT) == Ok(rec.flag)
    requires Name(chunks[2]) == Ok(rec.refName)
    requires Position(chunks[3], U64_LIMIT) == Ok(rec.pos)
    requires Mapq(chunks[4]) == Ok(rec.mapq)
    requires OrEmpty(chunks[5]) == rec.cigar
    requires Name(chunks[6]) == Ok(rec.rnext)
    requires Position(chunks[7], U32_LIMIT) == Ok(rec.pnext)
    requires TemplateLength(chunks[8]) == Ok(rec.tlen)
    requires OrEmpty(chunks[9]) == rec.sequence
    requires OrEmpty(chunks[10]) == rec.quality
    ensures Convert(chunks, rec.extra) == Ok(rec)
  {
  }

  /** The text fields of a writable record's line read back. */
  lemma TextFieldsRoundTrip(rec: SamRecord, fields: seq<seq<byte>>)
    requires Writable(rec) && fields == SamFields(rec)
    ensures FromUtf8(fields[0]) == Ok(rec.queryName)
    ensures Name(fields[2]) == Ok(rec.refName) && Name(fields[6]) == Ok(rec.rnext)
    ensures OrEmpty(fields[5]) == rec.cigar
    ensures OrEmpty(fields[9]) == rec.sequence && OrEmpty(fields[10]) == rec.quality
  {
    assert Name(fields[2]) == Ok(rec.refName) by {
      FieldRoundTrip(rec.refName);
    }
    assert OrEmpty(fields[5]) == rec.cigar by {
      FieldRoundTrip(rec.cigar);
    }
    assert Name(fields[6]) == Ok(rec.rnext) by {
      FieldRoundTrip(rec.rnext);
    }
    assert OrEmpty(fields[9]) == rec.sequence by {
      FieldRoundTrip(rec.sequence);
    }
    assert OrEmpty(fields[10]) == rec.quality by {
      FieldRoundTrip(rec.quality);
    }
  }

  /** The flag, mapping quality and template length fields of a writable
      record's line read back. */
  lemma NumberFieldsRoundTrip(rec: SamRecord, fields: seq<seq<byte>>)
    requires Writable(rec) && fields == SamFields(rec)
    ensures Number(fields[1], U16_LIMIT) == Ok(rec.flag)
    ensures Mapq(fields[4]) == Ok(rec.mapq)
    ensures TemplateLength(fields[8]) == Ok(rec.tlen)
  {
    assert Number(fields[1], U16_LIMIT) == Ok(rec.flag) by {
      NumberDecimal(rec.flag, U16_LIMIT);
    }
    assert Mapq(fields[4]) == Ok(rec.mapq) by {
      MapqRoundTrip(rec.mapq);
    }
    assert TemplateLength(fields[8]) == Ok(rec.tlen) by {
      TemplateLengthDecimal(rec.tlen);
    }
  }

  /** The two position fields of a writable record's line read back. */
  lemma PositionFieldsRoundTrip(rec: SamRecord, fields: seq<seq<byte>>)
    requires Writable(rec) && fields == SamFields(rec)
    ensures Position(fields[3], U64_LIMIT) == Ok(rec.pos)
    ensures Position(fields[7], U32_LIMIT) == Ok(rec.pnext)
  {
    assert Position(fields[3], U64_LIMIT) == Ok(rec.pos) by {
      PositionRoundTrip(rec.pos, U64_LIMIT);
    }
    assert Position(fields[7], U32_LIMIT) == Ok(rec.pnext) by {
      PositionRoundTrip(rec.pnext, U32_LIMIT);
    }
  }

  /** The fields of a writable record's line convert back to the record. */
  lemma FieldsRoundTrip(rec: SamRecord)
    requires Writable(rec)
    ensures StrsToSam(SamFields(rec)) == Ok(rec)
  {
    var fields := SamFields(rec);
    assert Extra(fields) == rec.extra;
    TextFieldsRoundTrip(rec, fields);
    NumberFieldsRoundTrip(rec, fields);
    PositionFieldsRoundTrip(rec, fields);
    ConvertParts(fields, rec);
  }

  /** Writing a record as a SAM line and reading the line back gives the
      record again. */
  lemma SamLineRoundTrip(rec: SamRecord)
    requires Writable(rec)
    ensures StrsToSam(Split(SamLine(rec), TAB)) == Ok(rec)
  {
    FieldsNoTab(rec);
    SplitJoin(SamFields(rec), TAB);
    FieldsRoundTrip(rec);
  }

  // ---------------------------------------------------------------------------
  // The optional fields

  /** Optional fields without `|` can be told apart again in the joined
      value. */
  lemma ExtraSplits(chunks: seq<seq<byte>>)
    requires |chunks| >= 12
    requires forall k, j :: 11 <= k < |chunks| && 0 <= j < |chunks[k]| ==> chunks[k][j] != PIPE
    ensures Split(Extra(chunks), PIPE) == chunks[11..]
  {
    var parts := chunks[11..];
    assert forall k, j :: 0 <= k < |parts| && 0 <= j < |parts[k]| ==> parts[k][j] != PIPE by {
      forall k, j | 0 <= k < |parts| && 0 <= j < |parts[k]|
        ensures parts[k][j] != PIPE
      {
        assert parts[k] == chunks[11 + k];
      }
    }
    SplitJoin(parts, PIPE);
  }

  /** The join loses the boundary between two optional fields: a line whose
      twelfth and thirteenth fields are `a` and `b` gives the same record as
      one whose twelfth field is `a|b`. */
  lemma ExtraMerges(chunks: seq<seq<byte>>, a: seq<byte>, b: seq<byte>)
    requires |chunks| == 11
    ensures StrsToSam(chunks + [a, b]) == StrsToSam(chunks + [a + [PIPE] + b])
  {
    var two := chunks + [a, b];
    var one := chunks + [a + [PIPE] + b];
    assert two[11..] == [a, b] && two[11..][1..] == [b];
    assert Join(two[11..], PIPE) == a + [PIPE] + Join([b], PIPE);
    assert Extra(two) == Extra(one);
    assert two[..11] == one[..11];
    forall i | 0 <= i < 11
      ensures two[i] == one[i]
    {
      assert two[i] == two[..11][i];
    }
  }

  // ---------------------------------------------------------------------------
  // Reading a SAM file

  /** The stream after its header: each leading line that starts with `@`
      is dropped, a last one without LF with the rest of the stream. */
  function AfterHeader(s: seq<byte>): (r: seq<byte>)
    ensures r == [] || r[0] != AT
    decreases |s|
  {
    if |s| > 0 && s[0] == AT then
      match FindByte(s, LF, 0)
      case None => []
      case Some(i) => AfterHeader(s[i + 1..])
    else s
  }

  /** The length of the header at the front of `s`. */
  function HeaderLength(s: seq<byte>): (n: nat)
    ensures n <= |s|
    decreases |s|
  {
    if |s| > 0 && s[0] == AT then
      match FindByte(s, LF, 0)
      case None => |s|
      case Some(i) => i + 1 + HeaderLength(s[i + 1..])
    else 0
  }

  /** Skipping the header only removes the header from the front of the
      stream. */
  lemma {:induction false} AfterHeaderSuffix(s: seq<byte>)
    ensures AfterHeader(s) == s[HeaderLength(s)..]
    decreases |s|
  {
    if |s| > 0 && s[0] == AT && FindByte(s, LF, 0).Some? {
      var i := FindByte(s, LF, 0).value;
      var t := s[i + 1..];
      assert AfterHeader(s) == AfterHeader(t);
      assert HeaderLength(s) == i + 1 + HeaderLength(t);
      AfterHeaderSuffix(t);
      assert s[i + 1 + HeaderLength(t)..] == t[HeaderLength(t)..];
    } else if |s| > 0 && s[0] == AT {
      assert HeaderLength(s) == |s|;
    } else {
      assert s[0..] == s;
    }
  }

  /** A header line, from `@` to its LF, is skipped. */
  lemma HeaderLineSkipped(line: seq<byte>, t: seq<byte>)
    requires |line| > 0 && line[0] == AT
    requires forall j :: 0 <= j < |line| ==> line[j] != LF
    ensures AfterHeader(line + [LF] + t) == AfterHeader(t)
  {
    var s := line + [LF] + t;
    FindByteIs(s, LF, 0, |line|);
    assert s[|line| + 1..] == t;
  }

  /** A header-only file has no records: `@HD\ttest\n` leaves nothing to read. */
  lemma HeaderOnlyFile(input: seq<byte>, at: nat, index: nat)
    requires input == [AT, 72, 68, TAB, 116, 101, 115, 116, LF]
    ensures AfterHeader(input) == []
    ensures NextSam(AfterHeader(input), at, index) == Ok(None)
  {
    HeaderLineSkipped(input[..8], []);
    assert input == input[..8] + [LF] + [];
  }

  /** `SamState::get`: skips the header lines at the front of the stream.
      The loop tests the window, as the source does, so it also stops when a
      header line ends exactly where the window ends; only when the window
      still holds bytes (or the stream is empty) are all header lines gone. */
  method SkipHeader(rb: ReadBuffer)
    requires rb.Valid()
    modifies rb
    ensures rb.Valid() && rb.chunk == old(rb.chunk) && rb.recordPos == old(rb.recordPos)
    ensures AfterHeader(rb.Stream()) == AfterHeader(old(rb.Stream()))
    ensures rb.Primed() ==> rb.Stream() == AfterHeader(old(rb.Stream()))
    ensures rb.readerPos == old(rb.readerPos) + (|old(rb.Stream())| - |rb.Stream()|)
  {
    rb.Reserve(1);
    while |rb.data| > 0 && rb.data[0] == AT
      invariant rb.Valid() && rb.chunk == old(rb.chunk) && rb.recordPos == old(rb.recordPos)
      invariant AfterHeader(rb.Stream()) == AfterHeader(old(rb.Stream()))
      invariant |rb.Stream()| <= |old(rb.Stream())|
      invariant rb.readerPos == old(rb.readerPos) + (|old(rb.Stream())| - |rb.Stream()|)
      decreases |rb.Stream()|
    {
      var found := SkipLine(rb);
      if !found {
        break;
      }
    }
  }

  /** One turn of the header loop: seeks the LF of the header line at the
      front of the stream and consumes up to and including it, or, with no
      LF left, consumes everything and answers false. */
  method SkipLine(rb: ReadBuffer) returns (found: bool)
    requires rb.Valid() && |rb.Stream()| > 0 && rb.Stream()[0] == AT
    modifies rb
    ensures rb.Valid() && rb.chunk == old(rb.chunk) && rb.recordPos == old(rb.recordPos)
    ensures AfterHeader(rb.Stream()) == AfterHeader(old(rb.Stream()))
    ensures |rb.Stream()| < |old(rb.Stream())|
    ensures !found ==> rb.Stream() == []
    ensures rb.readerPos == old(rb.readerPos) + (|old(rb.Stream())| - |rb.Stream()|)
  {
    ghost var s := rb.Stream();
    found := rb.SeekByte(LF);
    if found {
      ghost var i := FindByte(s, LF, 0).value;
      var _ := rb.ExtractBytes(1);
      assert rb.Stream() == s[i + 1..];
    }
  }

  /** The next record of the stream `s`, read at byte offset `at` after
      `index` records: its next line split on tabs and converted. */
  function NextSam(s: seq<byte>, at: nat, index: nat): (r: Result<Option<SamRecord>>)
    ensures r == Ok(None) <==> s == []
    ensures r.Err? && r.error.Fail? ==> r.error.byte == Some(at) && r.error.record == Some(index + 1)
  {
    match NextLine(s).0
    case None => Ok(None)
    case Some(line) =>
      match StrsToSam(Split(line, TAB))
      case Err(e) => Err(Locate(e, at, index + 1))
      case Ok(rec) => Ok(Some(rec))
  }

  /** `Option<SamRecord>::get`: the next line as a record, its failures
      tagged with the offset and the 1-based number of the record. */
  method ReadRecord(rb: ReadBuffer) returns (r: Result<Option<SamRecord>>)
    requires rb.Valid()
    modifies rb
    ensures rb.Valid() && rb.chunk == old(rb.chunk) && rb.recordPos == old(rb.recordPos)
    ensures r == NextSam(old(rb.Stream()), old(rb.readerPos), old(rb.recordPos))
    ensures rb.Stream() == NextLine(old(rb.Stream())).1
  {
    var byte, record := rb.readerPos, rb.recordPos;
    var line := rb.ExtractLine();
    match line
    case None =>
      r := Ok(None);
    case Some(text) =>
      var chunks := Split(text, TAB);
      if |chunks| < 11 {
        r := Err(Locate(TooShort, byte, record + 1));
      } else {
        var extra := JoinExtra(chunks);
        match Convert(chunks, extra)
        case Err(e) =>
          r := Err(Locate(e, byte, record + 1));
        case Ok(rec) =>
          r := Ok(Some(rec));
      }
  }

  /** A writable record's line, ended by LF, is read back as the record,
      and reading stops right after the LF. */
  lemma SamRecordRead(rec: SamRecord, rest: seq<byte>, at: nat, index: nat)
    requires Writable(rec) && Plain(SamLine(rec))
    ensures NextSam(SamLine(rec) + [LF] + rest, at, index) == Ok(Some(rec))
    ensures NextLine(SamLine(rec) + [LF] + rest).1 == rest
  {
    var line := SamLine(rec);
    var s := line + [LF] + rest;
    FindByteIs(s, LF, 0, |line|);
    assert s[..|line|] == line && s[|line| + 1..] == rest;
    assert |line| > 0 ==> s[|line| - 1] == line[|line| - 1];
    SamLineRoundTrip(rec);
  }
}
