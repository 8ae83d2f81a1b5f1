/** FASTQ records, parsed from a slice of the input.

    A record is four lines: `@` and an id, the sequence, `+` and an
    optional repeat of the id, and the quality string, which is as long as
    the sequence. `parse` finds the offsets of the parts in the slice and
    how many bytes the record takes; `get` cuts the parts out. Either line
    terminator, LF or CR LF, is accepted, and the last record of the input
    may lack its final terminator. */
module Fastq {
  import opened Errors
  import opened Bytes

  const AT: byte := 64
  const PLUS: byte := 43

  /** Where the parts of one record lie in the slice: the id is
      `1..headerEnd`, the sequence `seqStart..seqEnd`, the `+` line starts
      at `id2Start`, the quality is `qualStart..qualEnd` and the record
      takes `recEnd` bytes. */
  datatype FastqLayout = FastqLayout(
    headerEnd: nat, seqStart: nat, seqEnd: nat, id2Start: nat,
    qualStart: nat, qualEnd: nat, recEnd: nat)

  /** The id ends before the LF at `p`, and before a CR right in front of
      it. */
  function HeaderEnd(buf: seq<byte>, p: nat): nat
    requires p < |buf|
  {
    if p > 0 && buf[p - 1] == CR then p - 1 else p
  }

  /** The sequence ends before the terminator in front of the `+` at
      `id2Start`: one byte (LF) or two (CR LF). */
  function SeqEnd(buf: seq<byte>, id2Start: nat): nat
    requires 2 <= id2Start < |buf|
  {
    if id2Start > 2 && buf[id2Start - 2] == CR then id2Start - 2 else id2Start - 1
  }

  /** What `parse` finds in `buf`: `Ok(None)` at the end of the input,
      the layout of the record at the front, or the reason there is none
      (flagged incomplete when more bytes could complete it). */
  function RecordLayout(buf: seq<byte>, eof: bool): (r: Result<Option<FastqLayout>>)
    ensures r.Err? ==> r.error.Fail?
    ensures r == Ok(None) <==> |buf| == 0 && eof
    ensures |buf| == 0 && !eof ==> r.Err? && r.error.Fail? && r.error.incomplete
    ensures |buf| > 0 && buf[0] != AT ==> r.Err? && r.error.Fail? && !r.error.incomplete
    ensures r.Ok? && r.value.Some? ==> InOrder(buf, r.value.value)
  {
    if |buf| == 0 then
      if eof then Ok(None) else Err(Incomplete("No FASTQ could be parsed"))
    else if buf[0] != AT then Err(Malformed("Valid FASTQ records start with '@'"))
    else match FindByte(buf, LF, 0)
      case None => Err(Incomplete("Record ended prematurely in header"))
      case Some(p) => SequenceLine(buf, eof, p)
  }

  /** The steps of `RecordLayout` after the header LF at `p`: the sequence
      runs to the first `+`, which must start a line. */
  function SequenceLine(buf: seq<byte>, eof: bool, p: nat): (r: Result<Option<FastqLayout>>)
    requires 0 < p < |buf| && buf[0] == AT && buf[p] == LF
    ensures r.Err? ==> r.error.Fail?
    ensures r.Ok? ==> r.value.Some? && InOrder(buf, r.value.value)
  {
    match FindByte(buf, PLUS, p + 1)
    case None => Err(Incomplete("Record ended prematurely in sequence"))
    case Some(id2Start) =>
      if id2Start == p + 1 || buf[id2Start - 1] != LF then
        Err(Malformed("Unexpected + found in sequence"))
      else SecondHeader(buf, eof, p, id2Start)
  }

  /** The steps of `RecordLayout` after the `+` at `id2Start`: the `+` line
      runs to the next LF. */
  function SecondHeader(buf: seq<byte>, eof: bool, p: nat, id2Start: nat): (r: Result<Option<FastqLayout>>)
    requires 0 < p && p + 1 < id2Start < |buf| && buf[0] == AT && buf[p] == LF && buf[id2Start - 1] == LF
    ensures r.Err? ==> r.error.Fail?
    ensures r.Ok? ==> r.value.Some? && InOrder(buf, r.value.value)
  {
    match FindByte(buf, LF, id2Start)
    case None => Err(Incomplete("Record ended prematurely in second header"))
    case Some(n) =>
      QualityEnd(buf, eof, FastqLayout(HeaderEnd(buf, p), p + 1, SeqEnd(buf, id2Start), id2Start, n + 1, 0, 0))
  }

  /** The last step of `RecordLayout`: the quality is as long as the sequence and
      is followed by a terminator as long as the sequence's, which may be
      missing at the end of the input. */
  function QualityEnd(buf: seq<byte>, eof: bool, l: FastqLayout): (r: Result<Option<FastqLayout>>)
    requires l.seqStart <= l.seqEnd < l.id2Start
    ensures r.Err? ==> r.error.Fail?
    ensures r.Ok? ==> r.value.Some? && r.value.value.qualEnd - l.qualStart == l.seqEnd - l.seqStart
    ensures r.Ok? ==> r.value.value == l.(qualEnd := r.value.value.qualEnd, recEnd := r.value.value.recEnd)
    ensures r.Ok? ==> r.value.value.qualEnd <= r.value.value.recEnd <= |buf|
  {
    var qualEnd := l.qualStart + (l.seqEnd - l.seqStart);
    var full := qualEnd + (l.id2Start - l.seqEnd);
    var recEnd := if full > |buf| && eof then full - (l.id2Start - l.seqEnd) else full;
    if recEnd > |buf| then Err(Incomplete("Record ended prematurely in quality"))
    else Ok(Some(l.(qualEnd := qualEnd, recEnd := recEnd)))
  }

  /** The parts of a parsed record lie in order inside the slice, and the
      quality is exactly as long as the sequence. */
  predicate InOrder(buf: seq<byte>, l: FastqLayout)
  {
    && 0 < l.headerEnd < l.seqStart <= l.seqEnd < l.id2Start < l.qualStart <= l.qualEnd <= l.recEnd <= |buf|
    && l.qualEnd - l.qualStart == l.seqEnd - l.seqStart
  }

  /** A FASTQ record at the front of `buf`, described by its lines: the
      header runs to the first LF, the sequence to the first `+` after it,
      which must start a line; the `+` line runs to the next LF, and the
      quality, as long as the sequence, is followed by a terminator as long
      as the sequence's, which may be missing only at the end of the input. */
  ghost predicate IsRecord(buf: seq<byte>, eof: bool, l: FastqLayout)
  {
    HeaderOk(buf, l) && SequenceOk(buf, l) && SecondHeaderOk(buf, l) && QualityOk(buf, eof, l)
  }

  /** `@`, then the id up to the first LF, without a CR in front of it. */
  ghost predicate HeaderOk(buf: seq<byte>, l: FastqLayout)
  {
    && |buf| > 0 && buf[0] == AT
    && 1 < l.seqStart <= |buf| && buf[l.seqStart - 1] == LF
    && (forall j :: 0 <= j < l.seqStart - 1 ==> buf[j] != LF)
    && l.headerEnd == (if buf[l.seqStart - 2] == CR then l.seqStart - 2 else l.seqStart - 1)
  }

  /** The sequence, up to the first `+`, which starts a line. */
  ghost predicate SequenceOk(buf: seq<byte>, l: FastqLayout)
  {
    && 1 < l.seqStart < l.id2Start < |buf| && buf[l.id2Start] == PLUS && buf[l.id2Start - 1] == LF
    && (forall j :: l.seqStart <= j < l.id2Start ==> buf[j] != PLUS)
    && l.seqEnd == (if buf[l.id2Start - 2] == CR then l.id2Start - 2 else l.id2Start - 1)
  }

  /** The `+` line, up to the next LF. */
  ghost predicate SecondHeaderOk(buf: seq<byte>, l: FastqLayout)
  {
    && l.id2Start < l.qualStart <= |buf| && buf[l.qualStart - 1] == LF
    && (forall j :: l.id2Start <= j < l.qualStart - 1 ==> buf[j] != LF)
  }

  /** The quality, as long as the sequence, and its terminator. */
  ghost predicate QualityOk(buf: seq<byte>, eof: bool, l: FastqLayout)
  {
    && l.seqStart <= l.seqEnd < l.id2Start
    && l.qualEnd == l.qualStart + (l.seqEnd - l.seqStart)
    && (|| l.recEnd == l.qualEnd + (l.id2Start - l.seqEnd) <= |buf|
        || (eof && l.recEnd == l.qualEnd <= |buf| < l.qualEnd + (l.id2Start - l.seqEnd)))
  }

  /** Every layout `parse` reports describes a record. */
  lemma ParseSound(buf: seq<byte>, eof: bool)
    requires RecordLayout(buf, eof).Ok? && RecordLayout(buf, eof).value.Some?
    ensures IsRecord(buf, eof, RecordLayout(buf, eof).value.value)
  {
    var p, id2Start, n := LinesFound(buf, eof);
    QualitySound(buf, eof, FastqLayout(HeaderEnd(buf, p), p + 1, SeqEnd(buf, id2Start), id2Start, n + 1, 0, 0));
  }

  /** After a successful `parse` the offsets it stored are the layout's:
      the header LF and the `+` it found are the record's. */
  lemma ParsedOffsets(buf: seq<byte>, eof: bool)
    requires RecordLayout(buf, eof).Ok? && RecordLayout(buf, eof).value.Some?
    ensures var l := RecordLayout(buf, eof).value.value;
      && HeaderLF(buf) == Some(l.seqStart - 1) && PlusLine(buf) == Some(l.id2Start)
      && l.headerEnd == HeaderEnd(buf, l.seqStart - 1) && l.seqEnd == SeqEnd(buf, l.id2Start)
  {
    var p, id2Start, n := LinesFound(buf, eof);
    QualitySound(buf, eof, FastqLayout(HeaderEnd(buf, p), p + 1, SeqEnd(buf, id2Start), id2Start, n + 1, 0, 0));
  }

  /** The three LFs and the `+` that a successful `RecordLayout` found. */
  lemma LinesFound(buf: seq<byte>, eof: bool) returns (p: nat, id2Start: nat, n: nat)
    requires RecordLayout(buf, eof).Ok? && RecordLayout(buf, eof).value.Some?
    ensures |buf| > 0 && buf[0] == AT && FindByte(buf, LF, 0) == Some(p)
    ensures p + 1 < id2Start && FindByte(buf, PLUS, p + 1) == Some(id2Start) && buf[id2Start - 1] == LF
    ensures FindByte(buf, LF, id2Start) == Some(n)
    ensures RecordLayout(buf, eof)
         == QualityEnd(buf, eof, FastqLayout(HeaderEnd(buf, p), p + 1, SeqEnd(buf, id2Start), id2Start, n + 1, 0, 0))
  {
    p := FindByte(buf, LF, 0).value;
    id2Start := FindByte(buf, PLUS, p + 1).value;
    n := FindByte(buf, LF, id2Start).value;
  }

  /** What `QualityEnd` finds is a quality and terminator as `IsRecord`
      describes them. */
  lemma QualitySound(buf: seq<byte>, eof: bool, front: FastqLayout)
    requires front.seqStart <= front.seqEnd < front.id2Start && QualityEnd(buf, eof, front).Ok?
    ensures var l := QualityEnd(buf, eof, front).value.value;
      && l == front.(qualEnd := l.qualEnd, recEnd := l.recEnd)
      && l.qualEnd == l.qualStart + (l.seqEnd - l.seqStart)
      && (|| l.recEnd == l.qualEnd + (l.id2Start - l.seqEnd) <= |buf|
          || (eof && l.recEnd == l.qualEnd <= |buf| < l.qualEnd + (l.id2Start - l.seqEnd)))
  {
  }

  /** Every record is what `parse` reports: the layout is determined by the
      bytes. */
  lemma ParseComplete(buf: seq<byte>, eof: bool, l: FastqLayout)
    requires IsRecord(buf, eof, l)
    ensures RecordLayout(buf, eof) == Ok(Some(l))
  {
    var front := l.(qualEnd := 0, recEnd := 0);
    LinesAt(buf, eof, l.seqStart - 1, l.id2Start, l.qualStart - 1, front);
    QualityIs(buf, eof, front, l);
  }

  /** The first three steps of `RecordLayout` together: the header, the
      sequence and the `+` line end where the bytes say. */
  lemma LinesAt(buf: seq<byte>, eof: bool, p: nat, id2Start: nat, n: nat, front: FastqLayout)
    requires |buf| > 0 && buf[0] == AT && p < |buf| && buf[p] == LF
    requires forall j :: 0 <= j < p ==> buf[j] != LF
    requires p + 1 < id2Start < |buf| && buf[id2Start] == PLUS && buf[id2Start - 1] == LF
    requires forall j :: p + 1 <= j < id2Start ==> buf[j] != PLUS
    requires id2Start <= n < |buf| && buf[n] == LF
    requires forall j :: id2Start <= j < n ==> buf[j] != LF
    requires front == FastqLayout(HeaderEnd(buf, p), p + 1, SeqEnd(buf, id2Start), id2Start, n + 1, 0, 0)
    ensures RecordLayout(buf, eof) == QualityEnd(buf, eof, front)
  {
    HeaderAt(buf, eof, p);
    PlusAt(buf, eof, p, id2Start);
    QualityAt(buf, eof, p, id2Start, n);
  }

  /** The last step: a quality and terminator as `IsRecord` describes them
      are what `QualityEnd` finds. */
  lemma QualityIs(buf: seq<byte>, eof: bool, front: FastqLayout, l: FastqLayout)
    requires l.seqStart <= l.seqEnd < l.id2Start && front == l.(qualEnd := 0, recEnd := 0)
    requires l.qualEnd == l.qualStart + (l.seqEnd - l.seqStart)
    requires || l.recEnd == l.qualEnd + (l.id2Start - l.seqEnd) <= |buf|
             || (eof && l.recEnd == l.qualEnd <= |buf| < l.qualEnd + (l.id2Start - l.seqEnd))
    ensures QualityEnd(buf, eof, front) == Ok(Some(l))
  {
  }

  /** The first step of `RecordLayout`: the header runs to its first LF. */
  lemma HeaderAt(buf: seq<byte>, eof: bool, p: nat)
    requires |buf| > 0 && buf[0] == AT && p < |buf| && buf[p] == LF
    requires forall j :: 0 <= j < p ==> buf[j] != LF
    ensures p > 0 && RecordLayout(buf, eof) == SequenceLine(buf, eof, p)
  {
    FindByteIs(buf, LF, 0, p);
  }

  /** The second step: the sequence runs to the first `+`, here at the
      start of a line. */
  lemma PlusAt(buf: seq<byte>, eof: bool, p: nat, id2Start: nat)
    requires 0 < p && p + 1 < id2Start < |buf| && buf[0] == AT && buf[p] == LF
    requires buf[id2Start] == PLUS && buf[id2Start - 1] == LF
    requires forall j :: p + 1 <= j < id2Start ==> buf[j] != PLUS
    ensures SequenceLine(buf, eof, p) == SecondHeader(buf, eof, p, id2Start)
  {
    FindByteIs(buf, PLUS, p + 1, id2Start);
  }

  /** The third step: the `+` line runs to its first LF, at `n`. */
  lemma QualityAt(buf: seq<byte>, eof: bool, p: nat, id2Start: nat, n: nat)
    requires 0 < p && p + 1 < id2Start < |buf| && buf[0] == AT && buf[p] == LF && buf[id2Start - 1] == LF
    requires id2Start <= n < |buf| && buf[n] == LF
    requires forall j :: id2Start <= j < n ==> buf[j] != LF
    ensures SecondHeader(buf, eof, p, id2Start)
         == QualityEnd(buf, eof, FastqLayout(HeaderEnd(buf, p), p + 1, SeqEnd(buf, id2Start), id2Start, n + 1, 0, 0))
  {
    FindByteIs(buf, LF, id2Start, n);
  }

  // ---------------------------------------------------------------------------
  // Records written out

  /** A record written in the four-line form, each line ending in LF or in
      CR LF; the last terminator is left off when `terminated` is false. */
  function RecordText(id: seq<byte>, sequence: seq<byte>, id2: seq<byte>, quality: seq<byte>,
                      crlf: bool, terminated: bool): seq<byte>
  {
    [AT] + id + LineEnd(crlf) + sequence + LineEnd(crlf) + [PLUS] + id2 + LineEnd(crlf)
      + quality + (if terminated then LineEnd(crlf) else [])
  }

  /** What a writer of FASTQ promises: plain id and sequence lines, a
      sequence without `+`, a one-line `+` line and a quality as long as
      the sequence. */
  predicate WellFormed(id: seq<byte>, sequence: seq<byte>, id2: seq<byte>, quality: seq<byte>)
  {
    Plain(id) && Plain(sequence) && PLUS !in sequence && LF !in id2
      && |quality| == |sequence|
  }

  /** Where `parse` finds the parts of a written record. */
  function TextLayout(id: seq<byte>, sequence: seq<byte>, id2: seq<byte>, crlf: bool, terminated: bool): FastqLayout
  {
    var e := |LineEnd(crlf)|;
    var seqStart := 1 + |id| + e;
    var seqEnd := seqStart + |sequence|;
    var id2Start := seqEnd + e;
    var qualStart := id2Start + 1 + |id2| + e;
    var qualEnd := qualStart + |sequence|;
    FastqLayout(1 + |id|, seqStart, seqEnd, id2Start, qualStart, qualEnd, if terminated then qualEnd + e else qualEnd)
  }

  /** The header line of a written record. */
  lemma HeaderText(buf: seq<byte>, id: seq<byte>, crlf: bool, l: FastqLayout)
    requires Plain(id) && l.headerEnd == 1 + |id| && l.seqStart == l.headerEnd + |LineEnd(crlf)| <= |buf|
    requires buf[..l.seqStart] == [AT] + id + LineEnd(crlf)
    ensures HeaderOk(buf, l) && buf[1..l.headerEnd] == id
  {
    var h := buf[..l.seqStart];
    assert forall j :: 0 <= j < l.seqStart ==> buf[j] == h[j];
    assert h[1..l.headerEnd] == id;
  }

  /** The sequence line of a written record, up to the `+`. */
  lemma SequenceText(buf: seq<byte>, pre: seq<byte>, sequence: seq<byte>, crlf: bool, l: FastqLayout)
    requires Plain(sequence) && PLUS !in sequence
    requires 1 < l.seqStart == |pre| && l.seqEnd == l.seqStart + |sequence| && l.id2Start == l.seqEnd + |LineEnd(crlf)| < |buf|
    requires buf[l.seqStart - 1] == LF
    requires buf[..l.id2Start + 1] == pre + sequence + LineEnd(crlf) + [PLUS]
    ensures SequenceOk(buf, l) && buf[l.seqStart..l.seqEnd] == sequence
  {
    var t := buf[..l.id2Start + 1];
    assert forall j :: 0 <= j <= l.id2Start ==> buf[j] == t[j];
    assert forall j :: 0 <= j < |sequence| ==> t[l.seqStart + j] == sequence[j];
  }

  /** The `+` line of a written record. */
  lemma SecondHeaderText(buf: seq<byte>, pre: seq<byte>, id2: seq<byte>, crlf: bool, l: FastqLayout)
    requires LF !in id2 && l.id2Start == |pre| && l.qualStart == l.id2Start + 1 + |id2| + |LineEnd(crlf)| <= |buf|
    requires buf[..l.qualStart] == pre + [PLUS] + id2 + LineEnd(crlf)
    ensures SecondHeaderOk(buf, l)
  {
    var t := buf[..l.qualStart];
    assert forall j :: 0 <= j < l.qualStart ==> buf[j] == t[j];
    assert forall j :: 0 <= j < |id2| ==> t[l.id2Start + 1 + j] == id2[j];
  }

  /** A written record is a record, and its parts are where `TextLayout`
      puts them. */
  lemma TextIsRecord(id: seq<byte>, sequence: seq<byte>, id2: seq<byte>, quality: seq<byte>,
                     crlf: bool, terminated: bool, rest: seq<byte>, eof: bool)
    requires WellFormed(id, sequence, id2, quality)
    requires terminated || (eof && rest == [])
    ensures var buf := RecordText(id, sequence, id2, quality, crlf, terminated) + rest;
      var l := TextLayout(id, sequence, id2, crlf, terminated);
      && IsRecord(buf, eof, l) && l.recEnd == |RecordText(id, sequence, id2, quality, crlf, terminated)|
      && buf[1..l.headerEnd] == id && buf[l.seqStart..l.seqEnd] == sequence && buf[l.qualStart..l.qualEnd] == quality
  {
    var e := LineEnd(crlf);
    var buf := RecordText(id, sequence, id2, quality, crlf, terminated) + rest;
    var l := TextLayout(id, sequence, id2, crlf, terminated);
    TextFront(id, sequence, id2, quality, crlf, terminated, rest);
    var beforePlus := [AT] + id + e + sequence + e;
    var beforeQuality := beforePlus + [PLUS] + id2 + e;
    assert |buf| == l.qualEnd + |if terminated then e else []| + |rest|;
    assert buf[..l.qualStart] == beforePlus + [PLUS] + id2 + e;
    SecondHeaderText(buf, beforePlus, id2, crlf, l);
    assert buf[..l.qualEnd] == beforeQuality + quality;
    SliceAfter(buf, beforeQuality, quality);
  }

  /** The header and sequence lines of a written record. */
  lemma TextFront(id: seq<byte>, sequence: seq<byte>, id2: seq<byte>, quality: seq<byte>,
                  crlf: bool, terminated: bool, rest: seq<byte>)
    requires WellFormed(id, sequence, id2, quality)
    ensures var buf := RecordText(id, sequence, id2, quality, crlf, terminated) + rest;
      var l := TextLayout(id, sequence, id2, crlf, terminated);
      && HeaderOk(buf, l) && SequenceOk(buf, l) && buf[1..l.headerEnd] == id && buf[l.seqStart..l.seqEnd] == sequence
  {
    var e := LineEnd(crlf);
    var buf := RecordText(id, sequence, id2, quality, crlf, terminated) + rest;
    var l := TextLayout(id, sequence, id2, crlf, terminated);
    var header := [AT] + id + e;
    assert buf[..l.seqStart] == header;
    HeaderText(buf, id, crlf, l);
    assert buf[..l.id2Start + 1] == header + sequence + e + [PLUS];
    SequenceText(buf, header, sequence, crlf, l);
  }

  /** A part of the input whose prefix is known. */
  lemma SliceAfter(buf: seq<byte>, pre: seq<byte>, part: seq<byte>)
    requires |pre| + |part| <= |buf| && buf[..|pre| + |part|] == pre + part
    ensures buf[|pre|..|pre| + |part|] == part
  {
    assert forall j :: |pre| <= j < |pre| + |part| ==> buf[j] == (pre + part)[j];
  }

  /** Reading a written record: its id, sequence and quality come back, and
      it takes exactly its own bytes, whatever follows it. The id must be
      UTF-8. */
  lemma ReadsRecord(id: seq<byte>, sequence: seq<byte>, id2: seq<byte>, quality: seq<byte>,
                    crlf: bool, terminated: bool, rest: seq<byte>, eof: bool)
    requires WellFormed(id, sequence, id2, quality)
    requires terminated || (eof && rest == [])
    ensures var text := RecordText(id, sequence, id2, quality, crlf, terminated);
      Next(text + rest, eof)
        == if ValidUtf8(id) then Ok(Some((FastqRecord(id, sequence, quality), |text|)))
           else Err(Malformed("invalid utf-8"))
  {
    var l := TextLayout(id, sequence, id2, crlf, terminated);
    TextIsRecord(id, sequence, id2, quality, crlf, terminated, rest, eof);
    ParseComplete(RecordText(id, sequence, id2, quality, crlf, terminated) + rest, eof, l);
  }

  /** Both line terminators give the same record. */
  lemma CrlfLikeLf(id: seq<byte>, sequence: seq<byte>, id2: seq<byte>, quality: seq<byte>)
    requires WellFormed(id, sequence, id2, quality)
    ensures var crlfNext := Next(RecordText(id, sequence, id2, quality, true, true), true);
      var lfNext := Next(RecordText(id, sequence, id2, quality, false, true), true);
      && (crlfNext.Ok? <==> lfNext.Ok?)
      && (crlfNext.Ok? ==> crlfNext.value.value.0 == lfNext.value.value.0)
  {
    var crlfText := RecordText(id, sequence, id2, quality, true, true);
    var lfText := RecordText(id, sequence, id2, quality, false, true);
    assert Next(crlfText, true) == if ValidUtf8(id) then Ok(Some((FastqRecord(id, sequence, quality), |crlfText|)))
                                   else Err(Malformed("invalid utf-8")) by {
      ReadsRecord(id, sequence, id2, quality, true, true, [], true);
      assert crlfText + [] == crlfText;
    }
    assert Next(lfText, true) == if ValidUtf8(id) then Ok(Some((FastqRecord(id, sequence, quality), |lfText|)))
                                 else Err(Malformed("invalid utf-8")) by {
      ReadsRecord(id, sequence, id2, quality, false, true, [], true);
      assert lfText + [] == lfText;
    }
  }

  /** Before the end of the input, a record missing its last terminator is
      incomplete: more bytes could still belong to it. */
  lemma UnterminatedIsIncomplete(id: seq<byte>, sequence: seq<byte>, id2: seq<byte>, quality: seq<byte>, crlf: bool)
    requires WellFormed(id, sequence, id2, quality)
    ensures var r := RecordLayout(RecordText(id, sequence, id2, quality, crlf, false), false);
      r.Err? && r.error.Fail? && r.error.incomplete
  {
    var buf := RecordText(id, sequence, id2, quality, crlf, false);
    var l := TextLayout(id, sequence, id2, crlf, false);
    TextIsRecord(id, sequence, id2, quality, crlf, false, [], true);
    var front := l.(qualEnd := 0, recEnd := 0);
    LinesAt(buf, false, l.seqStart - 1, l.id2Start, l.qualStart - 1, front);
  }

  // ---------------------------------------------------------------------------
  // More input

  /** A record found before the end of the input stays the same whatever
      bytes arrive after it: only incomplete errors depend on them. */
  lemma FoundIsStable(buf: seq<byte>, more: seq<byte>, eof: bool)
    requires RecordLayout(buf, false).Ok? && RecordLayout(buf, false).value.Some?
    ensures RecordLayout(buf + more, eof) == RecordLayout(buf, false)
  {
    var l := RecordLayout(buf, false).value.value;
    ParseSound(buf, false);
    var s := buf + more;
    assert forall j :: 0 <= j < |buf| ==> s[j] == buf[j];
    assert IsRecord(s, eof, l);
    ParseComplete(s, eof, l);
  }

  /** An error not flagged incomplete stays the same whatever bytes arrive
      after it, so reading more cannot repair it. */
  lemma HardErrorIsStable(buf: seq<byte>, more: seq<byte>, eof: bool)
    requires RecordLayout(buf, false).Err? && !RecordLayout(buf, false).error.incomplete
    ensures RecordLayout(buf + more, eof) == RecordLayout(buf, false)
  {
    var s := buf + more;
    if buf[0] == AT {
      var p := FindByte(buf, LF, 0).value;
      FindByteExtend(buf, more, LF, 0);
      assert RecordLayout(buf, false) == SequenceLine(buf, false, p);
      assert RecordLayout(s, eof) == SequenceLine(s, eof, p);
      var i := FindByte(buf, PLUS, p + 1).value;
      FindByteExtend(buf, more, PLUS, p + 1);
      assert i == p + 1 || buf[i - 1] != LF;
    }
  }

  // ---------------------------------------------------------------------------
  // Examples

  /** `@id`, `ACGT`, `+`, `!!!!` and a second record without its final LF:
      the first record takes 16 bytes, which leaves the second (below). */
  lemma FirstOfTwoExample(input: seq<byte>)
    requires input == [64, 105, 100, 10, 65, 67, 71, 84, 10, 43, 10, 33, 33, 33, 33, 10,
                       64, 105, 100, 50, 10, 84, 71, 67, 65, 10, 43, 10, 33, 33, 33, 33]
    ensures Next(input, true) == Ok(Some((FastqRecord([105, 100], [65, 67, 71, 84], [33, 33, 33, 33]), 16)))
  {
    var id, acgt, quality := [105, 100], [65, 67, 71, 84], [33, 33, 33, 33];
    assert IsAscii(id) && Plain(id) && Plain(acgt) && PLUS !in acgt;
    var first := RecordText(id, acgt, [], quality, false, true);
    FirstRecordText(input[..16], id, acgt, quality, false);
    assert input == first + input[16..];
    ReadsAscii(id, acgt, quality, false, true, input[16..]);
  }

  /** The second record of that input, without its final LF: it is read at
      the end of the input, and then the input is done. */
  lemma SecondOfTwoExample(input: seq<byte>)
    requires input == [64, 105, 100, 50, 10, 84, 71, 67, 65, 10, 43, 10, 33, 33, 33, 33]
    ensures Next(input, true) == Ok(Some((FastqRecord([105, 100, 50], [84, 71, 67, 65], [33, 33, 33, 33]), 16)))
    ensures Next(input[16..], true) == Ok(None)
  {
    var id2, tgca, quality := [105, 100, 50], [84, 71, 67, 65], [33, 33, 33, 33];
    assert IsAscii(id2) && Plain(id2) && Plain(tgca) && PLUS !in tgca;
    assert input == RecordText(id2, tgca, [], quality, false, false) + [];
    ReadsAscii(id2, tgca, quality, false, false, []);
  }

  /** The same two records with CR LF terminators, the last one included:
      the first record takes 20 bytes, which leaves the second (below). */
  lemma FirstOfTwoCrlfExample(input: seq<byte>)
    requires input == [64, 105, 100, 13, 10, 65, 67, 71, 84, 13, 10, 43, 13, 10, 33, 33, 33, 33, 13, 10,
                       64, 105, 100, 50, 13, 10, 84, 71, 67, 65, 13, 10, 43, 13, 10, 33, 33, 33, 33, 13, 10]
    ensures Next(input, true) == Ok(Some((FastqRecord([105, 100], [65, 67, 71, 84], [33, 33, 33, 33]), 20)))
  {
    var id, acgt, quality := [105, 100], [65, 67, 71, 84], [33, 33, 33, 33];
    assert IsAscii(id) && Plain(id) && Plain(acgt) && PLUS !in acgt;
    var first := RecordText(id, acgt, [], quality, true, true);
    FirstRecordText(input[..20], id, acgt, quality, true);
    assert input == first + input[20..];
    ReadsAscii(id, acgt, quality, true, true, input[20..]);
  }

  /** The second CR LF record: it takes the rest of the input, and then the
      input is done. */
  lemma SecondOfTwoCrlfExample(input: seq<byte>)
    requires input == [64, 105, 100, 50, 13, 10, 84, 71, 67, 65, 13, 10, 43, 13, 10, 33, 33, 33, 33, 13, 10]
    ensures Next(input, true) == Ok(Some((FastqRecord([105, 100, 50], [84, 71, 67, 65], [33, 33, 33, 33]), 21)))
    ensures Next(input[21..], true) == Ok(None)
  {
    var id2, tgca, quality := [105, 100, 50], [84, 71, 67, 65], [33, 33, 33, 33];
    assert IsAscii(id2) && Plain(id2) && Plain(tgca) && PLUS !in tgca;
    assert input == [AT] + id2 + [CR, LF] + tgca + [CR, LF] + [PLUS] + [CR, LF] + quality + [CR, LF];
    assert input == RecordText(id2, tgca, [], quality, true, true) + [];
    ReadsAscii(id2, tgca, quality, true, true, []);
    assert input[21..] == [];
  }

  /** The bytes of the first record of both examples. */
  lemma FirstRecordText(text: seq<byte>, id: seq<byte>, acgt: seq<byte>, quality: seq<byte>, crlf: bool)
    requires id == [105, 100] && acgt == [65, 67, 71, 84] && quality == [33, 33, 33, 33]
    requires text == if crlf then [64, 105, 100, 13, 10, 65, 67, 71, 84, 13, 10, 43, 13, 10, 33, 33, 33, 33, 13, 10]
                     else [64, 105, 100, 10, 65, 67, 71, 84, 10, 43, 10, 33, 33, 33, 33, 10]
    ensures text == RecordText(id, acgt, [], quality, crlf, true)
  {
    if crlf {
      assert text == [AT] + id + [CR, LF] + acgt + [CR, LF] + [PLUS] + [CR, LF] + quality + [CR, LF];
    } else {
      assert text == [AT] + id + [LF] + acgt + [LF] + [PLUS] + [LF] + quality + [LF];
    }
  }

  /** `ReadsRecord` for an ASCII id and an empty `+` line, as in the
      examples. */
  lemma ReadsAscii(id: seq<byte>, sequence: seq<byte>, quality: seq<byte>, crlf: bool, terminated: bool, rest: seq<byte>)
    requires IsAscii(id) && Plain(id) && Plain(sequence) && PLUS !in sequence && |quality| == |sequence|
    requires terminated || rest == []
    ensures var text := RecordText(id, sequence, [], quality, crlf, terminated);
      Next(text + rest, true) == Ok(Some((FastqRecord(id, sequence, quality), |text|)))
  {
    AsciiIsUtf8(id);
    ReadsRecord(id, sequence, [], quality, crlf, terminated, rest, true);
  }

  /** `@DF`, `+`, `+`, `!`: the `+` right after the header is rejected as
      a `+` inside the sequence. */
  lemma PlusAfterHeaderExample()
    ensures RecordLayout([64, 68, 70, 10, 43, 10, 43, 10, 33], true) == Err(Malformed("Unexpected + found in sequence"))
  {
    var buf := [64, 68, 70, 10, 43, 10, 43, 10, 33];
    assert FindByte(buf, LF, 0) == Some(3);
    assert FindByte(buf, PLUS, 4) == Some(4);
  }

  /** A lone header is an error even at the end of the input. */
  lemma HeaderOnlyExample()
    ensures RecordLayout([64, 10], true) == Err(Incomplete("Record ended prematurely in sequence"))
  {
    assert FindByte([64, 10], LF, 0) == Some(1);
  }

  // ---------------------------------------------------------------------------
  // The parser state and `parse`

  /** How `parse` reports its outcome: whether a record was found. */
  function Verdict(r: Result<Option<FastqLayout>>): Result<bool>
  {
    match r
    case Ok(None) => Ok(false)
    case Ok(Some(_)) => Ok(true)
    case Err(e) => Err(e)
  }

  /** The header LF `parse` finds before it can fail later on. */
  function HeaderLF(buf: seq<byte>): Option<nat>
  {
    if |buf| > 0 && buf[0] == AT then FindByte(buf, LF, 0) else None
  }

  /** The `+` that `parse` accepts as the start of the `+` line. */
  function PlusLine(buf: seq<byte>): (r: Option<nat>)
    ensures r.Some? ==> HeaderLF(buf).Some? && HeaderLF(buf).value + 1 < r.value < |buf|
    ensures r.Some? ==> buf[r.value] == PLUS && buf[r.value - 1] == LF
  {
    match HeaderLF(buf)
    case None => None
    case Some(p) =>
      match FindByte(buf, PLUS, p + 1)
      case None => None
      case Some(i) => if i == p + 1 || buf[i - 1] != LF then None else Some(i)
  }

  /** memchr over the tail `buf[k..]`: an index relative to `k`. */
  method MemchrFrom(buf: seq<byte>, b: byte, k: nat) returns (r: Option<nat>)
    requires k <= |buf|
    ensures r.Some? <==> FindByte(buf, b, k).Some?
    ensures r.Some? ==> k + r.value == FindByte(buf, b, k).value
  {
    FindByteTail(buf, b, k);
    r := FindByte(buf[k..], b, 0);
  }

  class FastqState {
    var headerEnd: nat
    var seqRange: (nat, nat)
    var qualRange: (nat, nat)

    constructor ()
      ensures headerEnd == 0 && seqRange == (0, 0) && qualRange == (0, 0)
    {
      headerEnd := 0;
      seqRange := (0, 0);
      qualRange := (0, 0);
    }

    /** `parse`: finds the record at the front of `buf`, stores its offsets
        and adds its length to the `consumed` counter. The header and
        sequence offsets are stored as soon as they are known, even when a
        later part is missing. */
    method Parse(buf: seq<byte>, eof: bool, consumed: nat) returns (r: Result<bool>, consumedOut: nat)
      modifies this
      ensures r == Verdict(RecordLayout(buf, eof))
      ensures Stored(buf, RecordLayout(buf, eof), consumed, consumedOut, old(qualRange))
      ensures headerEnd == if HeaderLF(buf).Some? then HeaderEnd(buf, HeaderLF(buf).value) else old(headerEnd)
      ensures seqRange == if PlusLine(buf).Some?
                     then (HeaderLF(buf).value + 1, SeqEnd(buf, PlusLine(buf).value)) else old(seqRange)
    {
      consumedOut := consumed;
      if |buf| == 0 {
        if eof {
          return Ok(false), consumedOut;
        }
        return Err(Incomplete("No FASTQ could be parsed")), consumedOut;
      }
      if buf[0] != AT {
        return Err(Malformed("Valid FASTQ records start with '@'")), consumedOut;
      }
      var header := FindByte(buf, LF, 0);
      if header.None? {
        return Err(Incomplete("Record ended prematurely in header")), consumedOut;
      }
      var p := header.value;
      assert HeaderLF(buf) == Some(p) && RecordLayout(buf, eof) == SequenceLine(buf, eof, p);
      if p > 0 && buf[p - 1] == CR {
        headerEnd := p - 1;
      } else {
        headerEnd := p;
      }
      r, consumedOut := ParseSequence(buf, eof, consumed, p);
    }

    /** The rest of `parse` once the header LF is at `p`: the sequence and
        the `+` line. */
    method ParseSequence(buf: seq<byte>, eof: bool, consumed: nat, p: nat) returns (r: Result<bool>, consumedOut: nat)
      requires 0 < p < |buf| && buf[0] == AT && buf[p] == LF && HeaderLF(buf) == Some(p)
      modifies this
      ensures headerEnd == old(headerEnd)
      ensures r == Verdict(SequenceLine(buf, eof, p))
      ensures Stored(buf, SequenceLine(buf, eof, p), consumed, consumedOut, old(qualRange))
      ensures seqRange == if PlusLine(buf).Some? then (p + 1, SeqEnd(buf, PlusLine(buf).value)) else old(seqRange)
    {
      consumedOut := consumed;
      var seqStart := p + 1;
      var plus := MemchrFrom(buf, PLUS, seqStart);
      if plus.None? {
        assert PlusLine(buf).None?;
        return Err(Incomplete("Record ended prematurely in sequence")), consumedOut;
      }
      var k := plus.value;
      var id2Start := seqStart + k;
      assert FindByte(buf, PLUS, seqStart) == Some(id2Start);
      if k == 0 || buf[seqStart + k - 1] != LF {
        assert PlusLine(buf).None?;
        return Err(Malformed("Unexpected + found in sequence")), consumedOut;
      }
      assert PlusLine(buf) == Some(id2Start);
      assert SequenceLine(buf, eof, p) == SecondHeader(buf, eof, p, id2Start);
      r, consumedOut := ParseSecondHeader(buf, eof, consumed, p, id2Start);
    }

    /** The `+` line of `parse`, once the `+` is at `id2Start`: stores the
        sequence offsets and finds where the quality starts. */
    method ParseSecondHeader(buf: seq<byte>, eof: bool, consumed: nat, p: nat, id2Start: nat)
      returns (r: Result<bool>, consumedOut: nat)
      requires 0 < p && p + 1 < id2Start < |buf| && buf[0] == AT && buf[p] == LF && buf[id2Start - 1] == LF
      modifies this
      ensures headerEnd == old(headerEnd) && seqRange == (p + 1, SeqEnd(buf, id2Start))
      ensures r == Verdict(SecondHeader(buf, eof, p, id2Start))
      ensures Stored(buf, SecondHeader(buf, eof, p, id2Start), consumed, consumedOut, old(qualRange))
    {
      var seqStart := p + 1;
      var seqEnd: nat;
      if id2Start > 2 && buf[id2Start - 2] == CR {
        seqEnd := id2Start - 2;
      } else {
        seqEnd := id2Start - 1;
      }
      seqRange := (seqStart, seqEnd);
      var id2 := MemchrFrom(buf, LF, id2Start);
      if id2.None? {
        return Err(Incomplete("Record ended prematurely in second header")), consumed;
      }
      var qualStart := id2Start + id2.value + 1;
      ghost var l := FastqLayout(HeaderEnd(buf, p), seqStart, seqEnd, id2Start, qualStart, 0, 0);
      assert SecondHeader(buf, eof, p, id2Start) == QualityEnd(buf, eof, l);
      r, consumedOut := ParseQuality(buf, eof, consumed, seqStart, seqEnd, id2Start, qualStart, l);
    }

    /** The end of `parse`: the quality and its terminator. */
    method ParseQuality(buf: seq<byte>, eof: bool, consumed: nat, seqStart: nat, seqEnd: nat, id2Start: nat, qualStart: nat,
                        ghost l: FastqLayout) returns (r: Result<bool>, consumedOut: nat)
      requires seqStart <= seqEnd < id2Start
      requires l.seqStart == seqStart && l.seqEnd == seqEnd && l.id2Start == id2Start && l.qualStart == qualStart
      modifies this`qualRange
      ensures r == Verdict(QualityEnd(buf, eof, l))
      ensures Stored(buf, QualityEnd(buf, eof, l), consumed, consumedOut, old(qualRange))
    {
      var qualEnd := qualStart + (seqEnd - seqStart);
      var recEnd := qualEnd + (id2Start - seqEnd);
      if recEnd > |buf| && eof {
        recEnd := recEnd - (id2Start - seqEnd);
      }
      if recEnd > |buf| {
        return Err(Incomplete("Record ended prematurely in quality")), consumed;
      }
      qualRange := (qualStart, qualEnd);
      consumedOut := consumed + recEnd;
      r := Ok(true);
    }

    /** What `parse` leaves behind for the outcome `found`: the quality
        offsets and the byte count of a record, and nothing new otherwise. */
    ghost predicate Stored(buf: seq<byte>, found: Result<Option<FastqLayout>>, consumed: nat, consumedOut: nat,
                           oldQual: (nat, nat))
      reads this
    {
      if found.Ok? && found.value.Some?
      then qualRange == (found.value.value.qualStart, found.value.value.qualEnd)
        && consumedOut == consumed + found.value.value.recEnd
      else consumedOut == consumed && qualRange == oldQual
    }
  }

  // ---------------------------------------------------------------------------
  // `get` and the record handed to callers

  datatype FastqRecord = FastqRecord(id: seq<byte>, sequence: seq<byte>, quality: seq<byte>)

  /** `get`: cuts the id (which must be UTF-8), the sequence and the quality
      out of the slice at the stored offsets. */
  function Get(buf: seq<byte>, headerEnd: nat, seqRange: (nat, nat), qualRange: (nat, nat)): (r: Result<FastqRecord>)
    requires 1 <= headerEnd <= |buf| && seqRange.0 <= seqRange.1 <= |buf| && qualRange.0 <= qualRange.1 <= |buf|
    ensures r.Ok? <==> ValidUtf8(buf[1..headerEnd])
    ensures r.Ok? ==> |r.value.sequence| == seqRange.1 - seqRange.0 && |r.value.quality| == qualRange.1 - qualRange.0
  {
    var id := FromUtf8(buf[1..headerEnd]);
    if id.Err? then Err(id.error)
    else Ok(FastqRecord(id.value, buf[seqRange.0..seqRange.1], buf[qualRange.0..qualRange.1]))
  }

  /** A `parse` followed by a `get`, as the reader performs them: the record
      at the front of `buf` and the number of bytes it takes. */
  function Next(buf: seq<byte>, eof: bool): (r: Result<Option<(FastqRecord, nat)>>)
    ensures r == Ok(None) <==> |buf| == 0 && eof
    ensures r.Ok? && r.value.Some? ==> 0 < r.value.value.1 <= |buf|
  {
    match RecordLayout(buf, eof)
    case Err(e) => Err(e)
    case Ok(None) => Ok(None)
    case Ok(Some(l)) =>
      match Get(buf, l.headerEnd, (l.seqStart, l.seqEnd), (l.qualStart, l.qualEnd))
      case Err(e) => Err(e)
      case Ok(rec) => Ok(Some((rec, l.recEnd)))
  }

  /** A record handed to callers has a quality as long as its sequence, a
      sequence without `+`, and a UTF-8 id on one line. */
  lemma NextSound(buf: seq<byte>, eof: bool)
    requires Next(buf, eof).Ok? && Next(buf, eof).value.Some?
    ensures var rec := Next(buf, eof).value.value.0;
      && |rec.quality| == |rec.sequence| && PLUS !in rec.sequence
      && LF !in rec.id && ValidUtf8(rec.id)
  {
    var l := RecordLayout(buf, eof).value.value;
    ParseSound(buf, eof);
    assert Next(buf, eof).value.value.0
        == FastqRecord(buf[1..l.headerEnd], buf[l.seqStart..l.seqEnd], buf[l.qualStart..l.qualEnd]);
    PartsClean(buf, eof, l);
  }

  /** The id and sequence slices of a record hold no LF and no `+`. */
  lemma PartsClean(buf: seq<byte>, eof: bool, l: FastqLayout)
    requires IsRecord(buf, eof, l) && l.headerEnd <= l.seqStart
    ensures LF !in buf[1..l.headerEnd] && PLUS !in buf[l.seqStart..l.seqEnd]
  {
    var id := buf[1..l.headerEnd];
    var sequence := buf[l.seqStart..l.seqEnd];
    assert forall j :: 0 <= j < |sequence| ==> sequence[j] == buf[l.seqStart + j];
    assert forall j :: 0 <= j < |id| ==> id[j] == buf[1 + j];
  }
}
