/** The Inficon Hapsite decoder (`parsers/inficon.rs`), a reverse-engineered
    binary format: a setup pass that reads the m/z lists of the collection
    segments and the size of the scan data, then a state machine that hands
    out one (time, m/z, intensity) point per call.

    Both passes follow the slice protocol: `parse` reads the bytes at the
    front of an immutable slice through a local offset and, on success,
    adds the bytes it read to a `consumed` counter.  The m/z values are kept
    as the raw integers of the file (hundredths of m/z), the scan time as
    the raw signed milliseconds and the intensity as the raw bits of its
    `f32`; the divisions and the float conversion are not modelled. */
module Inficon {
  import opened Errors
  import opened Bytes
  import Buffer

  const MAGIC: seq<byte> := [4, 3, 2, 1]
  /** The marker found a fixed distance before the number of segments. */
  const MZ_MARKER: seq<byte> :=
    [255, 255, 255, 255, 0, 0, 0, 0, 0, 0, 0, 0, 0, 0, 0, 0, 0, 0, 0, 0, 0, 0, 0, 0,
     0, 0, 0, 0, 0, 0, 0, 0, 0, 0, 0, 0, 246, 255, 255, 255, 0, 0, 0, 0]
  /** `\xFF\xFF\xFF\xFFHapsGPIR`, found a fixed distance before the scan data. */
  const SCAN_MARKER: seq<byte> := [255, 255, 255, 255, 72, 97, 112, 115, 71, 80, 73, 82]
  /** `HapsScan`, the name of the scan data section. */
  const HAPS_SCAN: seq<byte> := [72, 97, 112, 115, 83, 99, 97, 110]

  const MAX_SEGMENTS: nat := 10_000
  const MAX_RANGES: nat := 100_000
  const MAX_END: nat := 4_000_000_000
  const MAX_SPAN: nat := 200_000
  /** The distance between consecutive m/z values of a full-scan range. */
  const STEP: nat := 100
  /** The size of one m/z range entry. */
  const ENTRY: nat := 32

  /** `n` zero bytes, the padding a writer puts where the reader skips. */
  function Zeros(n: nat): (r: seq<byte>)
    ensures |r| == n && forall i :: 0 <= i < n ==> r[i] == 0
  {
    seq(n, _ => 0)
  }

  /** The error of every read past the end of the slice. */
  const EndOfData: EtError := Buffer.EndOfData

  /** `extract_opt::<SeekPattern>`: the offset of the first `pat` at or after
      `from`; a slice without it means "no pattern" only at the end of the
      input, and "more bytes needed" before. */
  function Seek(rb: seq<byte>, eof: bool, from: nat, pat: seq<byte>): (r: Result<Option<nat>>)
    ensures r.Ok? && r.value.Some? ==> from <= r.value.value && MatchesAt(rb, pat, r.value.value)
    ensures r.Ok? && r.value.Some? ==> forall j :: from <= j < r.value.value ==> !MatchesAt(rb, pat, j)
    ensures r.Ok? && r.value.None? ==> eof && forall j :: from <= j ==> !MatchesAt(rb, pat, j)
    ensures r.Err? ==> !eof && r.error == EndOfData
  {
    match FindPattern(rb, pat, from)
    case Some(i) => Ok(Some(i))
    case None => if eof then Ok(None) else Err(EndOfData)
  }

  // ---------------------------------------------------------------------------
  // m/z ranges

  /** `n` values `start`, `start + 100`, ... */
  function Steps(start: nat, n: nat): (r: seq<nat>)
    ensures |r| == n
  {
    if n == 0 then [] else Steps(start, n - 1) + [start + STEP * (n - 1)]
  }

  /** Value `k` of the steps is `start + 100 * k`. */
  lemma {:induction false} StepsAt(start: nat, n: nat)
    ensures forall k :: 0 <= k < n ==> Steps(start, n)[k] == start + STEP * k
  {
    if n > 0 {
      StepsAt(start, n - 1);
    }
  }

  /** The values of a full-scan range: every 100th one from `start` up to
      and including `end`. */
  function Expand(start: nat, end: nat): (r: seq<nat>)
    requires start <= end
  {
    Steps(start, (end - start) / STEP + 1)
  }

  /** A range expands to values from `start` in steps of 100, none past
      `end`, the last less than 100 below it. */
  lemma ExpandValues(start: nat, end: nat)
    requires start <= end
    ensures |Expand(start, end)| == (end - start) / STEP + 1
    ensures Expand(start, end)[0] == start
    ensures forall k :: 0 <= k < |Expand(start, end)| ==> start <= Expand(start, end)[k] <= end
    ensures forall k :: 0 < k < |Expand(start, end)| ==> Expand(start, end)[k] == Expand(start, end)[k - 1] + STEP
    ensures end - Expand(start, end)[|Expand(start, end)| - 1] < STEP
  {
    var r := Expand(start, end);
    var q := (end - start) / STEP;
    StepsAt(start, q + 1);
    assert STEP * q <= end - start < STEP * q + STEP;
    forall k | 0 <= k < |r|
      ensures start <= r[k] <= end
    {
      assert k <= q;
      assert STEP * k <= STEP * q;
    }
  }

  /** The full-scan loop: pushes `mz` and adds 100 while `mz < end + 1`.
      The 4e9 cap on `end` keeps `end + 1` and `mz + 100` inside `u32`. */
  method ExpandRange(start: nat, end: nat) returns (values: seq<nat>)
    requires start < end <= MAX_END && end - start < MAX_SPAN
    ensures values == Expand(start, end)
  {
    assert end + 1 < U32_LIMIT;
    values := [];
    var mz := start;
    while mz < end + 1
      invariant mz == start + STEP * |values| && mz <= end + STEP
      invariant values == Steps(start, |values|)
      invariant STEP * (|values| - 1) <= end - start
      decreases end + 1 - mz
    {
      assert mz + STEP < U32_LIMIT;
      values := values + [mz];
      mz := mz + STEP;
    }
    CountOfSteps(|values|, end - start);
  }

  /** `n` steps of 100 reach past `d` and `n - 1` do not: then `n` is
      `d / 100 + 1`. */
  lemma CountOfSteps(n: nat, d: nat)
    requires STEP * (n - 1) <= d < STEP * n
    ensures n == d / STEP + 1
  {
    var q := d / STEP;
    assert STEP * q <= d < STEP * q + STEP;
    assert n <= q ==> STEP * n <= STEP * q;
    assert n >= q + 2 ==> STEP * (n - 1) >= STEP * (q + 1);
  }

  /** One 32-byte range entry at `at`: the start, the end, 16 bytes, the
      type and 4 more. Type 0 is one m/z value; any other type a full-scan
      range, which must be non-empty and narrower than 200,000. */
  function Range(rb: seq<byte>, at: nat): (r: Result<seq<nat>>)
    ensures r.Ok? ==> at + ENTRY <= |rb| && |r.value| > 0
    ensures |rb| < at + 8 ==> r == Err(EndOfData)
    ensures |rb| >= at + 8 && U32At(rb, at + 4) > MAX_END ==> r == Err(Malformed("End of m/z range is invalid"))
    ensures r.Ok? ==> U32At(rb, at + 4) <= MAX_END
    ensures r.Ok? && U32At(rb, at + 24) == 0 ==> r.value == [U32At(rb, at)]
    ensures r.Ok? && U32At(rb, at + 24) != 0 ==>
      var start, end := U32At(rb, at), U32At(rb, at + 4);
      start < end && end - start < MAX_SPAN && r.value == Expand(start, end)
    ensures |rb| >= at + ENTRY && U32At(rb, at + 4) <= MAX_END && U32At(rb, at + 24) != 0 ==>
      var start, end := U32At(rb, at), U32At(rb, at + 4);
      (start >= end || end - start >= MAX_SPAN) ==> r == Err(Malformed("m/z range is too big or invalid"))
  {
    if |rb| < at + 8 then Err(EndOfData)
    else if U32At(rb, at + 4) > MAX_END then Err(Malformed("End of m/z range is invalid"))
    else if |rb| < at + ENTRY then Err(EndOfData)
    else
      var start, end := U32At(rb, at), U32At(rb, at + 4);
      if U32At(rb, at + 24) == 0 then Ok([start])
      else if start >= end || end - start >= MAX_SPAN then Err(Malformed("m/z range is too big or invalid"))
      else Ok(Expand(start, end))
  }

  /** `count` range entries from `at`, their values appended to `acc`, and
      the offset after them. */
  function Ranges(rb: seq<byte>, at: nat, count: nat, acc: seq<nat>): (r: Result<(seq<nat>, nat)>)
    ensures r.Ok? ==> r.value.1 == at + 32 * count && (count > 0 ==> r.value.1 <= |rb|)
    ensures r.Ok? ==> |r.value.0| >= |acc| + count
    decreases count
  {
    if count == 0 then Ok((acc, at))
    else match Range(rb, at)
      case Err(e) => Err(e)
      case Ok(values) => Ranges(rb, at + ENTRY, count - 1, acc + values)
  }

  /** One collection segment at `at`: 96 bytes, the number of range
      entries (at most 100,000), then the entries. */
  function Segment(rb: seq<byte>, at: nat): (r: Result<(seq<nat>, nat)>)
    ensures r.Ok? ==> at + 100 <= r.value.1 <= |rb|
    ensures |rb| < at + 100 ==> r == Err(EndOfData)
    ensures |rb| >= at + 100 && U32At(rb, at + 96) > MAX_RANGES ==> r == Err(Malformed("Too many m/z ranges"))
    ensures r.Ok? ==> U32At(rb, at + 96) <= MAX_RANGES
    ensures r.Ok? ==> r.value.1 == at + 100 + 32 * U32At(rb, at + 96)
    ensures r.Ok? ==> |r.value.0| >= U32At(rb, at + 96)
  {
    if |rb| < at + 100 then Err(EndOfData)
    else if U32At(rb, at + 96) > MAX_RANGES then Err(Malformed("Too many m/z ranges"))
    else Ranges(rb, at + 100, U32At(rb, at + 96), [])
  }

  /** `n` segments from `at`, appended to `acc`, and the offset after them. */
  function Segments(rb: seq<byte>, at: nat, n: nat, acc: seq<seq<nat>>): (r: Result<(seq<seq<nat>>, nat)>)
    ensures r.Ok? ==> |r.value.0| == |acc| + n
    ensures r.Ok? ==> at <= r.value.1 && (n > 0 ==> r.value.1 <= |rb|)
    decreases n
  {
    if n == 0 then Ok((acc, at))
    else match Segment(rb, at)
      case Err(e) => Err(e)
      case Ok((values, next)) => Segments(rb, next, n - 1, acc + [values])
  }

  /** Reading range entries only appends to the values already collected. */
  lemma {:induction false} RangesExtend(rb: seq<byte>, at: nat, count: nat, acc: seq<nat>)
    requires Ranges(rb, at, count, acc).Ok?
    ensures Ranges(rb, at, count, acc).value.0[..|acc|] == acc
    decreases count
  {
    if count > 0 {
      var values := Range(rb, at).value;
      RangesExtend(rb, at + ENTRY, count - 1, acc + values);
      assert (acc + values)[..|acc|] == acc;
    }
  }

  /** Reading segments only appends to the segments already collected. */
  lemma {:induction false} SegmentsExtend(rb: seq<byte>, at: nat, n: nat, acc: seq<seq<nat>>)
    requires Segments(rb, at, n, acc).Ok?
    ensures Segments(rb, at, n, acc).value.0[..|acc|] == acc
    decreases n
  {
    if n > 0 {
      var (values, next) := Segment(rb, at).value;
      SegmentsExtend(rb, next, n - 1, acc + [values]);
      assert (acc + [values])[..|acc|] == acc;
    }
  }

  /** One range entry, read as the body of the entry loop of `parse` reads
      it. */
  method ReadRange(rb: seq<byte>, at: nat) returns (r: Result<seq<nat>>)
    ensures r == Range(rb, at)
  {
    if |rb| < at + 8 {
      return Err(EndOfData);
    }
    var start := U32At(rb, at);
    var end := U32At(rb, at + 4);
    if end > MAX_END {
      return Err(Malformed("End of m/z range is invalid"));
    }
    if |rb| < at + ENTRY {
      return Err(EndOfData);
    }
    var iType := U32At(rb, at + 24);
    if iType == 0 {
      return Ok([start]);
    }
    if start >= end || end - start >= MAX_SPAN {
      return Err(Malformed("m/z range is too big or invalid"));
    }
    var values := ExpandRange(start, end);
    r := Ok(values);
  }

  /** The entry loop: the values of `count` entries from `at`, pushed onto
      the segment in order. */
  method ReadRanges(rb: seq<byte>, at: nat, count: nat) returns (r: Result<(seq<nat>, nat)>)
    ensures r == Ranges(rb, at, count, [])
  {
    var segment: seq<nat> := [];
    var con: nat := at;
    var i := 0;
    while i < count
      invariant i <= count
      invariant Ranges(rb, at, count, []) == Ranges(rb, con, count - i, segment)
    {
      var values := ReadRange(rb, con);
      if values.Err? {
        return Err(values.error);
      }
      segment := segment + values.value;
      con := con + ENTRY;
      i := i + 1;
    }
    r := Ok((segment, con));
  }

  /** One segment of the segment loop. */
  method ReadSegment(rb: seq<byte>, at: nat) returns (r: Result<(seq<nat>, nat)>)
    ensures r == Segment(rb, at)
  {
    if |rb| < at + 100 {
      return Err(EndOfData);
    }
    var count := U32At(rb, at + 96);
    if count > MAX_RANGES {
      return Err(Malformed("Too many m/z ranges"));
    }
    r := ReadRanges(rb, at + 100, count);
  }

  /** The segment loop: `n` segments from `at`. */
  method ReadSegments(rb: seq<byte>, at: nat, n: nat) returns (r: Result<(seq<seq<nat>>, nat)>)
    ensures r == Segments(rb, at, n, [])
  {
    var segments: seq<seq<nat>> := [];
    var con: nat := at;
    var i := 0;
    while i < n
      invariant i <= n
      invariant Segments(rb, at, n, []) == Segments(rb, con, n - i, segments)
    {
      var segment := ReadSegment(rb, con);
      if segment.Err? {
        return Err(segment.error);
      }
      segments := segments + [segment.value.0];
      con := segment.value.1;
      i := i + 1;
    }
    r := Ok((segments, con));
  }

  // ---------------------------------------------------------------------------
  // Setup

  /** What the setup pass hands to the reader state: the m/z values of each
      segment, the size of the scan data, and the bytes read. */
  datatype Setup = Setup(segments: seq<seq<nat>>, dataLeft: nat, consumed: nat)

  /** `InficonState::parse` on the slice `rb`: the magic, the m/z marker, 148
      bytes from it the number of segments (at most 10,000), the segments,
      then the scan-data part. */
  function SetupOf(rb: seq<byte>, eof: bool): (r: Result<Setup>)
    ensures r.Ok? ==> |r.value.segments| <= MAX_SEGMENTS && r.value.dataLeft < U32_LIMIT
    ensures r.Ok? ==> |rb| >= 4 && rb[..4] == MAGIC && 0 < r.value.consumed <= |rb|
    ensures |rb| >= 4 && rb[..4] != MAGIC ==> r == Err(Malformed("Inficon file has bad magic bytes"))
    ensures |rb| >= 4 && rb[..4] == MAGIC && FindPattern(rb, MZ_MARKER, 4).None? ==>
      r == Err(if eof then Malformed("Could not find m/z header list") else EndOfData)
    ensures r.Ok? ==> FindPattern(rb, MZ_MARKER, 4).Some?
    ensures FindPattern(rb, MZ_MARKER, 4).Some? && |rb| >= 4 && rb[..4] == MAGIC ==>
      var m := FindPattern(rb, MZ_MARKER, 4).value;
      |rb| >= m + 152 && U32At(rb, m + 148) > MAX_SEGMENTS ==> r == Err(Malformed("Inficon file has too many segments"))
    ensures r.Ok? ==>
      var m := FindPattern(rb, MZ_MARKER, 4).value;
      |rb| >= m + 152 && |r.value.segments| == U32At(rb, m + 148)
  {
    if |rb| < 4 then Err(EndOfData)
    else if rb[..4] != MAGIC then Err(Malformed("Inficon file has bad magic bytes"))
    else match Seek(rb, eof, 4, MZ_MARKER)
      case Err(e) => Err(e)
      case Ok(None) => Err(Malformed("Could not find m/z header list"))
      case Ok(Some(m)) =>
        if |rb| < m + 152 then Err(EndOfData)
        else if U32At(rb, m + 148) > MAX_SEGMENTS then Err(Malformed("Inficon file has too many segments"))
        else match Segments(rb, m + 152, U32At(rb, m + 148), [])
          case Err(e) => Err(e)
          case Ok((segments, at)) => ScanData(rb, eof, at, segments)
  }

  /** The scan-data part of the setup from `at`: the `HapsGPIR` marker, 180
      bytes from it the size of the scan data, then 8 bytes, `HapsScan` and
      56 more bytes. */
  function ScanData(rb: seq<byte>, eof: bool, at: nat, segments: seq<seq<nat>>): (r: Result<Setup>)
    ensures r.Ok? ==> r.value.segments == segments && r.value.dataLeft < U32_LIMIT
    ensures r.Ok? ==> at + 256 <= r.value.consumed <= |rb|
    ensures r.Ok? ==> rb[r.value.consumed - 64..r.value.consumed - 56] == HAPS_SCAN
    ensures r.Ok? ==> FindPattern(rb, SCAN_MARKER, at) == Some(r.value.consumed - 256)
    ensures r.Ok? ==> r.value.dataLeft == U32At(rb, r.value.consumed - 76)
    ensures FindPattern(rb, SCAN_MARKER, at).None? ==>
      r == Err(if eof then Malformed("Could not find start of scan data") else EndOfData)
    ensures FindPattern(rb, SCAN_MARKER, at).Some? ==>
      var m := FindPattern(rb, SCAN_MARKER, at).value;
      |rb| >= m + 200 && rb[m + 192..m + 200] != HAPS_SCAN ==> r == Err(Malformed("Data header was malformed"))
  {
    match Seek(rb, eof, at, SCAN_MARKER)
    case Err(e) => Err(e)
    case Ok(None) => Err(Malformed("Could not find start of scan data"))
    case Ok(Some(m)) =>
      if |rb| < m + 200 then Err(EndOfData)
      else if rb[m + 192..m + 200] != HAPS_SCAN then Err(Malformed("Data header was malformed"))
      else if |rb| < m + 256 then Err(EndOfData)
      else Ok(Setup(segments, U32At(rb, m + 180), m + 256))
  }

  /** `InficonState::parse`: the m/z lists, the size of the scan data and
      the bytes read, or the first error. */
  method ParseSetup(rb: seq<byte>, eof: bool) returns (r: Result<Setup>)
    ensures r == SetupOf(rb, eof)
  {
    if |rb| < 4 {
      return Err(EndOfData);
    }
    if rb[..4] != MAGIC {
      return Err(Malformed("Inficon file has bad magic bytes"));
    }
    var marker := Seek(rb, eof, 4, MZ_MARKER);
    if marker.Err? {
      return Err(marker.error);
    }
    if marker.value.None? {
      return Err(Malformed("Could not find m/z header list"));
    }
    var con := marker.value.value;
    if |rb| < con + 152 {
      return Err(EndOfData);
    }
    var n := U32At(rb, con + 148);
    if n > MAX_SEGMENTS {
      return Err(Malformed("Inficon file has too many segments"));
    }
    var read := ReadSegments(rb, con + 152, n);
    if read.Err? {
      return Err(read.error);
    }
    r := ReadScanData(rb, eof, read.value.1, read.value.0);
  }

  /** The scan-data part of `parse`. */
  method ReadScanData(rb: seq<byte>, eof: bool, at: nat, segments: seq<seq<nat>>) returns (r: Result<Setup>)
    ensures r == ScanData(rb, eof, at, segments)
  {
    var marker := Seek(rb, eof, at, SCAN_MARKER);
    if marker.Err? {
      return Err(marker.error);
    }
    if marker.value.None? {
      return Err(Malformed("Could not find start of scan data"));
    }
    var con := marker.value.value;
    if |rb| < con + 200 {
      return Err(EndOfData);
    }
    var dataLength := U32At(rb, con + 180);
    if rb[con + 192..con + 200] != HAPS_SCAN {
      return Err(Malformed("Data header was malformed"));
    }
    if |rb| < con + 256 {
      return Err(EndOfData);
    }
    r := Ok(Setup(segments, dataLength, con + 256));
  }

  // ---------------------------------------------------------------------------
  // Writing a setup

  /** A range entry as a writer describes it: start, end and type. */
  datatype Entry = Entry(start: nat, end: nat, kind: nat)

  /** An entry the setup pass accepts: type 0 is one value; any other type
      a non-empty range narrower than 200,000; the end at most 4e9. */
  predicate EntryOk(e: Entry)
  {
    e.start < U32_LIMIT && e.end <= MAX_END && e.kind < U32_LIMIT
    && (e.kind != 0 ==> e.start < e.end && e.end - e.start < MAX_SPAN)
  }

  predicate EntriesOk(es: seq<Entry>)
    decreases |es|
  {
    |es| == 0 || (EntryOk(es[0]) && EntriesOk(es[1..]))
  }

  /** A segment the setup pass accepts: at most 100,000 entries. */
  predicate SegmentOk(es: seq<Entry>)
  {
    |es| <= MAX_RANGES && EntriesOk(es)
  }

  predicate SegmentsOk(segs: seq<seq<Entry>>)
  {
    |segs| <= MAX_SEGMENTS && AllSegmentsOk(segs)
  }

  predicate AllSegmentsOk(segs: seq<seq<Entry>>)
    decreases |segs|
  {
    |segs| == 0 || (SegmentOk(segs[0]) && AllSegmentsOk(segs[1..]))
  }

  /** The m/z values an entry stands for. */
  function EntryValues(e: Entry): seq<nat>
    requires EntryOk(e)
  {
    if e.kind == 0 then [e.start] else Expand(e.start, e.end)
  }

  /** The m/z values a segment's entries stand for, in order. */
  function EntriesValues(es: seq<Entry>): seq<nat>
    requires EntriesOk(es)
  {
    if |es| == 0 then [] else EntryValues(es[0]) + EntriesValues(es[1..])
  }

  /** The m/z list of each segment. */
  function SegmentsValues(segs: seq<seq<Entry>>): (r: seq<seq<nat>>)
    requires AllSegmentsOk(segs)
    ensures |r| == |segs|
  {
    if |segs| == 0 then [] else
      [EntriesValues(segs[0])] + SegmentsValues(segs[1..])
  }

  /** An entry as 32 bytes: start, end, 16 bytes, type, 4 bytes. */
  function EntryBytes(e: Entry): (r: seq<byte>)
    requires EntryOk(e)
    ensures |r| == ENTRY
  {
    U32(e.start) + U32(e.end) + Zeros(16) + U32(e.kind) + Zeros(4)
  }

  function EntriesBytes(es: seq<Entry>): (r: seq<byte>)
    requires EntriesOk(es)
    ensures |r| == 32 * |es|
  {
    if |es| == 0 then [] else EntryBytes(es[0]) + EntriesBytes(es[1..])
  }

  /** A segment: 96 bytes, the number of entries, the entries. */
  function SegmentBytes(es: seq<Entry>): (r: seq<byte>)
    requires SegmentOk(es)
    ensures |r| == 100 + 32 * |es|
  {
    Zeros(96) + U32(|es|) + EntriesBytes(es)
  }

  /** The number of bytes the segments take up. */
  function SegmentsSize(segs: seq<seq<Entry>>): nat
  {
    if |segs| == 0 then 0 else 100 + 32 * |segs[0]| + SegmentsSize(segs[1..])
  }

  function SegmentsBytes(segs: seq<seq<Entry>>): (r: seq<byte>)
    requires AllSegmentsOk(segs)
    ensures |r| == SegmentsSize(segs)
  {
    if |segs| == 0 then [] else SegmentBytes(segs[0]) + SegmentsBytes(segs[1..])
  }

  /** The scan-data part: the `HapsGPIR` marker, 168 bytes, the size of the
      scan data, 8 bytes, `HapsScan` and 56 bytes. */
  function ScanBytes(size: nat): (r: seq<byte>)
    requires size < U32_LIMIT
    ensures |r| == 256
  {
    SCAN_MARKER + Zeros(168) + U32(size) + Zeros(8) + HAPS_SCAN + Zeros(56)
  }

  /** The first 156 bytes of a setup: the magic, the m/z marker right after
      it, 104 bytes and the number of segments. */
  function SetupHead(n: nat): (r: seq<byte>)
    requires n < U32_LIMIT
    ensures |r| == 156
  {
    assert |MZ_MARKER| == 44;
    MAGIC + MZ_MARKER + Zeros(104) + U32(n)
  }

  /** A whole setup: the head, the segments and the scan-data part. */
  function SetupBytes(segs: seq<seq<Entry>>, size: nat): (r: seq<byte>)
    requires SegmentsOk(segs) && size < U32_LIMIT
    ensures |r| == 156 + SegmentsSize(segs) + 256
  {
    SetupHead(|segs|) + SegmentsBytes(segs) + ScanBytes(size)
  }

  // The layout the setup pass expects, field by field.

  /** Entry `e` at `at`: start, end and type at bytes 0, 4 and 24 of 32. */
  predicate EntryAt(rb: seq<byte>, at: nat, e: Entry)
  {
    at + ENTRY <= |rb| && U32At(rb, at) == e.start && U32At(rb, at + 4) == e.end && U32At(rb, at + 24) == e.kind
  }

  /** The entries one after another from `at`. */
  predicate EntriesAt(rb: seq<byte>, at: nat, es: seq<Entry>)
    decreases |es|
  {
    |es| == 0 || (EntryAt(rb, at, es[0]) && EntriesAt(rb, at + ENTRY, es[1..]))
  }

  /** A segment at `at`: the number of entries at byte 96, the entries from
      byte 100. */
  predicate SegmentLaid(rb: seq<byte>, at: nat, es: seq<Entry>)
  {
    at + 100 <= |rb| && U32At(rb, at + 96) == |es| && EntriesAt(rb, at + 100, es)
  }

  /** The segments one after another from `at`. */
  predicate SegmentsLaid(rb: seq<byte>, at: nat, segs: seq<seq<Entry>>)
    decreases |segs|
  {
    |segs| == 0 || (SegmentLaid(rb, at, segs[0]) && SegmentsLaid(rb, at + 100 + 32 * |segs[0]|, segs[1..]))
  }

  /** The scan-data part at `at`: the marker, the size at byte 180,
      `HapsScan` at byte 192, 256 bytes in all. */
  predicate ScanLaid(rb: seq<byte>, at: nat, size: nat)
  {
    at + 256 <= |rb| && MatchesAt(rb, SCAN_MARKER, at) && U32At(rb, at + 180) == size
    && MatchesAt(rb, HAPS_SCAN, at + 192)
  }

  /** The head of a setup at the start of `rb`, with `n` segments. */
  predicate HeadLaid(rb: seq<byte>, n: nat)
  {
    156 <= |rb| && MatchesAt(rb, MAGIC, 0) && MatchesAt(rb, MZ_MARKER, 4) && U32At(rb, 152) == n
  }

  /** A setup at the start of `rb`. */
  predicate SetupLaid(rb: seq<byte>, segs: seq<seq<Entry>>, size: nat)
  {
    HeadLaid(rb, |segs|) && SegmentsLaid(rb, 156, segs) && ScanLaid(rb, 156 + SegmentsSize(segs), size)
  }

  // The setup pass on that layout.

  /** An entry in place reads back as the values it stands for. */
  lemma RangeRead(rb: seq<byte>, at: nat, e: Entry)
    requires EntryOk(e) && EntryAt(rb, at, e)
    ensures Range(rb, at) == Ok(EntryValues(e))
  {
  }

  /** Entries in place read back as their values, in order. */
  lemma {:induction false} RangesRead(rb: seq<byte>, at: nat, es: seq<Entry>, acc: seq<nat>)
    requires EntriesOk(es) && EntriesAt(rb, at, es)
    ensures Ranges(rb, at, |es|, acc) == Ok((acc + EntriesValues(es), at + 32 * |es|))
    decreases |es|
  {
    if |es| == 0 {
      assert acc + [] == acc;
    } else {
      RangeRead(rb, at, es[0]);
      RangesRead(rb, at + ENTRY, es[1..], acc + EntryValues(es[0]));
      RangesStep(rb, at, |es|, acc, EntryValues(es[0]), EntriesValues(es[1..]));
    }
  }

  /** Reading entries is reading the first and then the others. */
  lemma RangesStep(rb: seq<byte>, at: nat, n: nat, acc: seq<nat>, first: seq<nat>, others: seq<nat>)
    requires n > 0 && Range(rb, at) == Ok(first)
    requires Ranges(rb, at + ENTRY, n - 1, acc + first) == Ok((acc + first + others, at + ENTRY + 32 * (n - 1)))
    ensures Ranges(rb, at, n, acc) == Ok((acc + (first + others), at + 32 * n))
  {
    AppendAssoc(acc, first, others);
  }

  /** A segment whose count is in range is its entries. */
  lemma SegmentUnfold(rb: seq<byte>, at: nat, n: nat)
    requires at + 100 <= |rb| && U32At(rb, at + 96) == n <= MAX_RANGES
    ensures Segment(rb, at) == Ranges(rb, at + 100, n, [])
  {
  }

  /** A segment in place reads back as the values of its entries. */
  lemma SegmentRead(rb: seq<byte>, at: nat, es: seq<Entry>)
    requires SegmentOk(es) && SegmentLaid(rb, at, es)
    ensures Segment(rb, at) == Ok((EntriesValues(es), at + 100 + 32 * |es|))
  {
    var vs := EntriesValues(es);
    assert Ranges(rb, at + 100, |es|, []) == Ok((vs, at + 100 + 32 * |es|)) by {
      RangesRead(rb, at + 100, es, []);
      assert [] + vs == vs;
    }
    SegmentUnfold(rb, at, |es|);
  }

  /** Reading segments is reading the first and then the others. */
  lemma SegmentsStep(rb: seq<byte>, at: nat, n: nat, acc: seq<seq<nat>>, first: seq<nat>, next: nat,
                     others: seq<seq<nat>>, end: nat)
    requires n > 0 && Segment(rb, at) == Ok((first, next))
    requires Segments(rb, next, n - 1, acc + [first]) == Ok((acc + [first] + others, end))
    ensures Segments(rb, at, n, acc) == Ok((acc + ([first] + others), end))
  {
    AppendAssoc(acc, [first], others);
  }

  /** Segments in place read back as their m/z lists, in order. */
  lemma {:induction false} SegmentsRead(rb: seq<byte>, at: nat, segs: seq<seq<Entry>>, acc: seq<seq<nat>>)
    requires AllSegmentsOk(segs) && SegmentsLaid(rb, at, segs)
    ensures Segments(rb, at, |segs|, acc) == Ok((acc + SegmentsValues(segs), at + SegmentsSize(segs)))
    decreases |segs|
  {
    if |segs| == 0 {
      assert acc + [] == acc;
    } else {
      var next := at + 100 + 32 * |segs[0]|;
      var rest := segs[1..];
      SegmentsRead(rb, next, rest, acc + [EntriesValues(segs[0])]);
      SegmentsReadStep(rb, at, segs[0], |segs|, acc, SegmentsValues(rest), next + SegmentsSize(rest));
      SegmentsSplit(segs);
    }
  }

  /** The step of `SegmentsRead`: the segment `es` in place at `at`, then
      `n - 1` more segments as the induction hypothesis reads them. */
  lemma SegmentsReadStep(rb: seq<byte>, at: nat, es: seq<Entry>, n: nat, acc: seq<seq<nat>>, others: seq<seq<nat>>, end: nat)
    requires n > 0 && SegmentOk(es) && SegmentLaid(rb, at, es)
    requires Segments(rb, at + 100 + 32 * |es|, n - 1, acc + [EntriesValues(es)]) == Ok((acc + [EntriesValues(es)] + others, end))
    ensures Segments(rb, at, n, acc) == Ok((acc + ([EntriesValues(es)] + others), end))
  {
    SegmentRead(rb, at, es);
    SegmentsStep(rb, at, n, acc, EntriesValues(es), at + 100 + 32 * |es|, others, end);
  }

  /** The m/z lists and the size of segments are those of the first followed
      by those of the others. */
  lemma SegmentsSplit(segs: seq<seq<Entry>>)
    requires |segs| > 0 && AllSegmentsOk(segs)
    ensures SegmentsValues(segs) == [EntriesValues(segs[0])] + SegmentsValues(segs[1..])
    ensures SegmentsSize(segs) == 100 + 32 * |segs[0]| + SegmentsSize(segs[1..])
  {
  }

  /** A scan-data part in place gives the size it holds. */
  lemma ScanDataRead(rb: seq<byte>, eof: bool, at: nat, segments: seq<seq<nat>>, size: nat)
    requires ScanLaid(rb, at, size)
    ensures ScanData(rb, eof, at, segments) == Ok(Setup(segments, size, at + 256))
  {
    MarkerFound(rb, SCAN_MARKER, at);
  }

  /** A setup whose magic, m/z marker and segment count are in place is its
      segments followed by its scan-data part. */
  lemma SetupOfUnfold(rb: seq<byte>, eof: bool, n: nat)
    requires 156 <= |rb| && rb[..4] == MAGIC && Seek(rb, eof, 4, MZ_MARKER) == Ok(Some(4))
    requires U32At(rb, 152) == n <= MAX_SEGMENTS
    ensures SetupOf(rb, eof) == match Segments(rb, 156, n, [])
      case Err(e) => Err(e)
      case Ok((segments, at)) => ScanData(rb, eof, at, segments)
  {
  }

  /** The magic and the m/z marker of a head in place are found. */
  lemma HeadFound(rb: seq<byte>, eof: bool, n: nat)
    requires HeadLaid(rb, n)
    ensures rb[..4] == MAGIC && Seek(rb, eof, 4, MZ_MARKER) == Ok(Some(4))
  {
    assert rb[..4] == rb[0..4];
    MarkerFound(rb, MZ_MARKER, 4);
  }

  /** A setup in place reads back as its m/z lists and scan data size. */
  lemma SetupRead(rb: seq<byte>, eof: bool, segs: seq<seq<Entry>>, size: nat)
    requires SegmentsOk(segs) && SetupLaid(rb, segs, size)
    ensures SetupOf(rb, eof) == Ok(Setup(SegmentsValues(segs), size, 156 + SegmentsSize(segs) + 256))
  {
    HeadFound(rb, eof, |segs|);
    SetupOfUnfold(rb, eof, |segs|);
    SegmentsRead(rb, 156, segs, []);
    var vs := SegmentsValues(segs);
    assert [] + vs == vs;
    ScanDataRead(rb, eof, 156 + SegmentsSize(segs), vs, size);
  }

  // A layout stays in place when bytes are added after it, and moves along
  // when bytes are added before it.

  lemma EntryAppend(x: seq<byte>, y: seq<byte>, at: nat, e: Entry)
    requires EntryAt(x, at, e)
    ensures EntryAt(x + y, at, e)
  {
    U32AtAppend(x, y, at);
    U32AtAppend(x, y, at + 4);
    U32AtAppend(x, y, at + 24);
  }

  lemma EntryPrepend(x: seq<byte>, y: seq<byte>, at: nat, e: Entry)
    requires EntryAt(y, at, e)
    ensures EntryAt(x + y, |x| + at, e)
  {
    U32AtPrepend(x, y, at);
    U32AtPrepend(x, y, at + 4);
    U32AtPrepend(x, y, at + 24);
  }

  lemma {:induction false} EntriesAppend(x: seq<byte>, y: seq<byte>, at: nat, es: seq<Entry>)
    requires EntriesAt(x, at, es)
    ensures EntriesAt(x + y, at, es)
    decreases |es|
  {
    if |es| > 0 {
      EntryAppend(x, y, at, es[0]);
      EntriesAppend(x, y, at + ENTRY, es[1..]);
    }
  }

  lemma {:induction false} EntriesPrepend(x: seq<byte>, y: seq<byte>, at: nat, es: seq<Entry>)
    requires EntriesAt(y, at, es)
    ensures EntriesAt(x + y, |x| + at, es)
    decreases |es|
  {
    if |es| > 0 {
      EntryPrepend(x, y, at, es[0]);
      EntriesPrepend(x, y, at + ENTRY, es[1..]);
    }
  }

  lemma {:induction false} SegmentsAppend(x: seq<byte>, y: seq<byte>, at: nat, segs: seq<seq<Entry>>)
    requires SegmentsLaid(x, at, segs)
    ensures SegmentsLaid(x + y, at, segs)
    decreases |segs|
  {
    if |segs| > 0 {
      U32AtAppend(x, y, at + 96);
      EntriesAppend(x, y, at + 100, segs[0]);
      SegmentsAppend(x, y, at + 100 + 32 * |segs[0]|, segs[1..]);
    }
  }

  lemma {:induction false} SegmentsPrepend(x: seq<byte>, y: seq<byte>, at: nat, segs: seq<seq<Entry>>)
    requires SegmentsLaid(y, at, segs)
    ensures SegmentsLaid(x + y, |x| + at, segs)
    decreases |segs|
  {
    if |segs| > 0 {
      U32AtPrepend(x, y, at + 96);
      EntriesPrepend(x, y, at + 100, segs[0]);
      SegmentsPrepend(x, y, at + 100 + 32 * |segs[0]|, segs[1..]);
    }
  }

  lemma ScanAppend(x: seq<byte>, y: seq<byte>, at: nat, size: nat)
    requires ScanLaid(x, at, size)
    ensures ScanLaid(x + y, at, size)
  {
    MatchesAtAppend(x, y, at, SCAN_MARKER);
    U32AtAppend(x, y, at + 180);
    MatchesAtAppend(x, y, at + 192, HAPS_SCAN);
  }

  lemma ScanPrepend(x: seq<byte>, y: seq<byte>, at: nat, size: nat)
    requires ScanLaid(y, at, size)
    ensures ScanLaid(x + y, |x| + at, size)
  {
    MatchesAtPrepend(x, y, at, SCAN_MARKER);
    U32AtPrepend(x, y, at + 180);
    MatchesAtPrepend(x, y, at + 192, HAPS_SCAN);
  }

  lemma HeadAppend(x: seq<byte>, y: seq<byte>, n: nat)
    requires HeadLaid(x, n)
    ensures HeadLaid(x + y, n)
  {
    MatchesAtAppend(x, y, 0, MAGIC);
    MatchesAtAppend(x, y, 4, MZ_MARKER);
    U32AtAppend(x, y, 152);
  }

  // The bytes a writer puts down have that layout.

  /** A written entry has its fields in place. */
  lemma EntryWritten(e: Entry)
    requires EntryOk(e)
    ensures EntryAt(EntryBytes(e), 0, e)
  {
    var start, end, kind := U32(e.start), U32(e.end), U32(e.kind);
    U32AtOf(e.start);
    U32AtOf(e.end);
    U32AtOf(e.kind);
    U32AtPrepend(start, end, 0);
    U32AtAppend(start, end, 0);
    var a := start + end;
    U32AtAppend(a, Zeros(16), 0);
    U32AtAppend(a, Zeros(16), 4);
    var c := a + Zeros(16);
    U32AtPrepend(c, kind, 0);
    U32AtAppend(c, kind, 0);
    U32AtAppend(c, kind, 4);
    var d := c + kind;
    U32AtAppend(d, Zeros(4), 0);
    U32AtAppend(d, Zeros(4), 4);
    U32AtAppend(d, Zeros(4), 24);
  }

  lemma {:induction false} EntriesWritten(es: seq<Entry>)
    requires EntriesOk(es)
    ensures EntriesAt(EntriesBytes(es), 0, es)
    decreases |es|
  {
    if |es| > 0 {
      var first, others := EntryBytes(es[0]), EntriesBytes(es[1..]);
      EntryWritten(es[0]);
      EntryAppend(first, others, 0, es[0]);
      EntriesWritten(es[1..]);
      EntriesPrepend(first, others, 0, es[1..]);
    }
  }

  /** A written segment has its count and entries in place. */
  lemma SegmentWritten(es: seq<Entry>)
    requires SegmentOk(es)
    ensures SegmentLaid(SegmentBytes(es), 0, es)
  {
    var pad, count, entries := Zeros(96), U32(|es|), EntriesBytes(es);
    U32AtOf(|es|);
    U32AtPrepend(pad, count, 0);
    U32AtAppend(pad + count, entries, 96);
    EntriesWritten(es);
    EntriesPrepend(pad + count, entries, 0, es);
  }

  lemma {:induction false} SegmentsWritten(segs: seq<seq<Entry>>)
    requires AllSegmentsOk(segs)
    ensures SegmentsLaid(SegmentsBytes(segs), 0, segs)
    decreases |segs|
  {
    if |segs| > 0 {
      var first, others := SegmentBytes(segs[0]), SegmentsBytes(segs[1..]);
      SegmentWritten(segs[0]);
      SegmentsWritten(segs[1..]);
      SegmentsCons(first, others, segs);
    }
  }

  /** A segment laid out, followed by the others laid out, lays out all of
      them. */
  lemma SegmentsCons(first: seq<byte>, others: seq<byte>, segs: seq<seq<Entry>>)
    requires |segs| > 0 && SegmentLaid(first, 0, segs[0]) && |first| == 100 + 32 * |segs[0]|
    requires SegmentsLaid(others, 0, segs[1..])
    ensures SegmentsLaid(first + others, 0, segs)
  {
    U32AtAppend(first, others, 96);
    EntriesAppend(first, others, 100, segs[0]);
    SegmentsPrepend(first, others, 0, segs[1..]);
  }

  /** A written scan-data part has its marker, size and `HapsScan` in place. */
  lemma ScanWritten(size: nat)
    requires size < U32_LIMIT
    ensures ScanLaid(ScanBytes(size), 0, size)
  {
    var scan := ScanBytes(size);
    var value := U32(size);
    var a := SCAN_MARKER + Zeros(168);
    U32AtOf(size);
    U32AtPrepend(a, value, 0);
    var b := a + value + Zeros(8);
    assert scan == b + HAPS_SCAN + Zeros(56);
    U32AtAppend(a + value, Zeros(8), 180);
    U32AtAppend(b, HAPS_SCAN, 180);
    U32AtAppend(b + HAPS_SCAN, Zeros(56), 180);
    assert scan[0..12] == SCAN_MARKER;
    assert scan[192..200] == HAPS_SCAN;
  }

  /** A written head has its magic, marker and count in place. */
  lemma HeadWritten(n: nat)
    requires n < U32_LIMIT
    ensures HeadLaid(SetupHead(n), n)
  {
    var head := SetupHead(n);
    var a := MAGIC + MZ_MARKER + Zeros(104);
    U32AtOf(n);
    U32AtPrepend(a, U32(n), 0);
    assert head[0..4] == MAGIC;
    assert head[4..48] == MZ_MARKER;
  }

  /** A head, segments and a scan-data part, each laid out, followed by
      anything, make up a setup laid out. */
  lemma PartsLaid(head: seq<byte>, body: seq<byte>, scan: seq<byte>, rest: seq<byte>,
                  segs: seq<seq<Entry>>, size: nat)
    requires HeadLaid(head, |segs|) && |head| == 156
    requires SegmentsLaid(body, 0, segs) && |body| == SegmentsSize(segs) && ScanLaid(scan, 0, size)
    ensures SetupLaid(head + body + scan + rest, segs, size)
  {
    HeadPartLaid(head, body, scan, rest, |segs|);
    SegmentsPartLaid(head, body, scan, rest, segs);
    ScanPartLaid(head + body, scan, rest, size);
  }

  /** The head stays in place whatever follows it. */
  lemma HeadPartLaid(head: seq<byte>, body: seq<byte>, scan: seq<byte>, rest: seq<byte>, n: nat)
    requires HeadLaid(head, n)
    ensures HeadLaid(head + body + scan + rest, n)
  {
    HeadAppend(head, body, n);
    HeadAppend(head + body, scan, n);
    HeadAppend(head + body + scan, rest, n);
  }

  /** The segments stay in place after a 156-byte head, whatever follows. */
  lemma SegmentsPartLaid(head: seq<byte>, body: seq<byte>, scan: seq<byte>, rest: seq<byte>, segs: seq<seq<Entry>>)
    requires |head| == 156 && SegmentsLaid(body, 0, segs)
    ensures SegmentsLaid(head + body + scan + rest, 156, segs)
  {
    SegmentsPrepend(head, body, 0, segs);
    SegmentsAppend(head + body, scan, 156, segs);
    SegmentsAppend(head + body + scan, rest, 156, segs);
  }

  /** The scan-data part stays in place after what precedes it, whatever
      follows. */
  lemma ScanPartLaid(front: seq<byte>, scan: seq<byte>, rest: seq<byte>, size: nat)
    requires ScanLaid(scan, 0, size)
    ensures ScanLaid(front + scan + rest, |front|, size)
  {
    ScanPrepend(front, scan, 0, size);
    ScanAppend(front + scan, rest, |front|, size);
  }

  /** The setup pass reads back what a writer wrote, whatever follows it:
      the m/z lists of the entries, the scan data size, and exactly the bytes
      written. */
  lemma SetupRoundTrip(segs: seq<seq<Entry>>, size: nat, rest: seq<byte>, eof: bool)
    requires SegmentsOk(segs) && size < U32_LIMIT
    ensures SetupOf(SetupBytes(segs, size) + rest, eof)
      == Ok(Setup(SegmentsValues(segs), size, |SetupBytes(segs, size)|))
  {
    HeadWritten(|segs|);
    SegmentsWritten(segs);
    ScanWritten(size);
    PartsLaid(SetupHead(|segs|), SegmentsBytes(segs), ScanBytes(size), rest, segs, size);
    SetupRead(SetupBytes(segs, size) + rest, eof, segs, size);
  }

  // ---------------------------------------------------------------------------
  // Records

  /** One point: the scan time, the m/z value and the intensity, raw. */
  datatype InficonRecord = InficonRecord(time: int, mz: nat, intensity: nat)

  /** The reader state between two calls: the setup's m/z lists and scan
      data size, the last point, the segment of the current scan and how
      many of its m/z values are still to come. */
  datatype Scan = Scan(
    segments: seq<seq<nat>>,
    dataLeft: nat,
    time: int,
    mz: nat,
    intensity: nat,
    segment: nat,
    mzsLeft: nat)

  /** Within a scan the segment exists and still holds the values to come. */
  ghost predicate InScan(st: Scan)
  {
    st.mzsLeft > 0 ==> st.segment < |st.segments| && st.mzsLeft <= |st.segments[st.segment]|
  }

  /** `usize::saturating_sub`. */
  function SaturatingSub(a: nat, b: nat): (r: nat)
    ensures r == if a < b then 0 else a - b
  {
    if a < b then 0 else a - b
  }

  /** The decimal text of `n`, as `format!` writes it. */
  function Text(n: nat): string
  {
    var d := Decimal(n);
    seq(|d|, i requires 0 <= i < |d| => d[i] as char)
  }

  /** `InficonRecord::parse` on the slice `rb`: the outcome, the new state
      and the bytes read. No scan data left ends the stream; with no m/z
      value left in the scan a 16-byte scan header comes first; then the
      4-byte intensity of the next m/z value of the segment. */
  function Step(st: Scan, rb: seq<byte>): (r: (Result<bool>, Scan, nat))
    ensures r.0 == Ok(false) <==> st.dataLeft == 0
    ensures r.0 == Ok(false) ==> r.1 == st && r.2 == 0
    ensures r.0.Err? ==> r.2 == 0 && r.1.segments == st.segments && r.1.dataLeft == st.dataLeft
    ensures r.0.Err? ==> r.1.mzsLeft == st.mzsLeft && r.1.mz == st.mz
    ensures r.0 == Ok(true) ==> r.2 > 0 && r.1.segments == st.segments
    ensures r.0 == Ok(true) ==> r.1.dataLeft == SaturatingSub(st.dataLeft, r.2) < st.dataLeft
  {
    if st.dataLeft == 0 then (Ok(false), st, 0)
    else if st.mzsLeft == 0 then ScanStart(st, rb)
    else Point(st, rb, 0, st.mzsLeft)
  }

  /** The scan header: record number, time (`i32`), a constant, the number
      of m/z values (`u16`), a constant, and the segment in the top 12 bits
      of a `u16`, which must exist and hold exactly that many values. */
  function ScanStart(st: Scan, rb: seq<byte>): (r: (Result<bool>, Scan, nat))
    requires st.dataLeft > 0
    ensures r.0 != Ok(false)
    ensures r.0.Err? ==> r.2 == 0 && r.1.segments == st.segments && r.1.dataLeft == st.dataLeft
    ensures r.0.Err? ==> r.1.mzsLeft == st.mzsLeft && r.1.mz == st.mz
    ensures r.0 == Ok(true) ==> r.2 == 20 && r.1.segments == st.segments
    ensures r.0 == Ok(true) ==> r.1.dataLeft == SaturatingSub(st.dataLeft, 20)
    ensures |rb| < 16 ==> r.0 == Err(EndOfData)
    ensures |rb| >= 16 && LE(rb[14..16]) / 16 >= |st.segments| ==>
      r.0 == Err(Malformed("Invalid segment number (" + Text(LE(rb[14..16]) / 16) + ") specified"))
    ensures |rb| >= 16 && LE(rb[14..16]) / 16 < |st.segments| && LE(rb[10..12]) != |st.segments[LE(rb[14..16]) / 16]| ==>
      r.0 == Err(Malformed("Number of intensities (" + Text(LE(rb[10..12])) + ") doesn't match number of mzs ("
                           + Text(|st.segments[LE(rb[14..16]) / 16]|) + ")"))
    ensures r.0 == Ok(true) ==> |rb| >= 20 && r.1.segment == LE(rb[14..16]) / 16 < |st.segments|
    ensures r.0 == Ok(true) ==> LE(rb[10..12]) == |st.segments[r.1.segment]| > 0
    ensures r.0 == Ok(true) ==> r.1.time == AsI32(LE(rb[4..8])) && r.1.intensity == LE(rb[16..20])
    ensures r.0 == Ok(true) ==> r.1.mz == st.segments[r.1.segment][0] && r.1.mzsLeft == LE(rb[10..12]) - 1
  {
    if |rb| < 8 then (Err(EndOfData), st, 0)
    else
      var timed := st.(time := AsI32(LE(rb[4..8])));
      if |rb| < 16 then (Err(EndOfData), timed, 0)
      else
        var n := LE(rb[10..12]);
        var started := timed.(segment := LE(rb[14..16]) / 16);
        if started.segment >= |started.segments| then
          (Err(Malformed("Invalid segment number (" + Text(started.segment) + ") specified")), started, 0)
        else if n != |started.segments[started.segment]| then
          (Err(Malformed("Number of intensities (" + Text(n) + ") doesn't match number of mzs ("
                         + Text(|started.segments[started.segment]|) + ")")), started, 0)
        else Point(started, rb, 16, n)
  }

  /** The intensity at `con` and the next m/z value of the segment, with
      `left` values of the scan still to come. */
  function Point(st: Scan, rb: seq<byte>, con: nat, left: nat): (r: (Result<bool>, Scan, nat))
    requires st.dataLeft > 0
    ensures r.0 != Ok(false)
    ensures r.0.Err? ==> r.2 == 0 && r.1.segments == st.segments && r.1.dataLeft == st.dataLeft
    ensures r.0.Err? ==> r.1.mzsLeft == st.mzsLeft && r.1.mz == st.mz
    ensures r.0 == Ok(true) ==> r.2 == con + 4 && r.1.segments == st.segments && r.1.segment == st.segment
    ensures r.0 == Ok(true) ==> r.1.dataLeft == SaturatingSub(st.dataLeft, con + 4)
    ensures r.0 == Ok(true) ==> st.segment < |st.segments| && 0 < left <= |st.segments[st.segment]|
    ensures r.0 == Ok(true) ==> r.1.mzsLeft == left - 1
    ensures r.0 == Ok(true) ==> r.1.mz == st.segments[st.segment][|st.segments[st.segment]| - left]
    ensures r.0 == Ok(true) ==> con + 4 <= |rb| && r.1.intensity == LE(rb[con..con + 4]) && r.1.time == st.time
  {
    if |rb| < con + 4 then (Err(EndOfData), st, 0)
    else
      var measured := st.(intensity := LE(rb[con..con + 4]));
      if st.segment >= |st.segments| then (Err(Panic("index out of bounds")), measured, 0)
      else
        var values := st.segments[st.segment];
        if left > |values| then (Err(Malformed("Invalid m/z segment")), measured, 0)
        else if left == 0 then (Err(Panic("index out of bounds")), measured, 0)
        else
          (Ok(true),
           measured.(mz := values[|values| - left], mzsLeft := left - 1,
                     dataLeft := SaturatingSub(st.dataLeft, con + 4)),
           con + 4)
  }

  /** The point a state holds: its time, m/z value and intensity. */
  function Reading(st: Scan): (rec: InficonRecord)
  {
    InficonRecord(st.time, st.mz, st.intensity)
  }

  /** After a step that yields a point, the point read is the scan's time,
      the segment's m/z value `left` places from its end and the intensity
      at `con`. */
  lemma PointReading(st: Scan, rb: seq<byte>, con: nat, left: nat)
    requires st.dataLeft > 0 && Point(st, rb, con, left).0 == Ok(true)
    ensures st.segment < |st.segments| && 0 < left <= |st.segments[st.segment]| && con + 4 <= |rb|
    ensures Reading(Point(st, rb, con, left).1)
         == InficonRecord(st.time, st.segments[st.segment][|st.segments[st.segment]| - left], LE(rb[con..con + 4]))
  {
  }

  class InficonState {
    var mzSegments: seq<seq<nat>>
    var dataLeft: nat
    var curTime: int
    var curMz: nat
    var curIntensity: nat
    var curSegment: nat
    var mzsLeft: nat

    function Snapshot(): Scan
      reads this
    {
      Scan(mzSegments, dataLeft, curTime, curMz, curIntensity, curSegment, mzsLeft)
    }

    /** `InficonState::default()` followed by `get`: the setup's m/z lists
        and scan data size, everything else zero. */
    constructor (setup: Setup)
      ensures Snapshot() == Scan(setup.segments, setup.dataLeft, 0, 0, 0, 0, 0)
      ensures InScan(Snapshot())
    {
      mzSegments := setup.segments;
      dataLeft := setup.dataLeft;
      curTime := 0;
      curMz := 0;
      curIntensity := 0;
      curSegment := 0;
      mzsLeft := 0;
    }

    /** `InficonRecord::parse`: updates the state field by field, as far as
        it gets, and adds the bytes read to `consumed` on success. */
    method ParseRecord(rb: seq<byte>, eof: bool, consumed: nat) returns (r: Result<bool>, consumedOut: nat)
      modifies this
      ensures r == Step(old(Snapshot()), rb).0 && Snapshot() == Step(old(Snapshot()), rb).1
      ensures consumedOut == consumed + Step(old(Snapshot()), rb).2
    {
      if dataLeft == 0 {
        return Ok(false), consumed;
      }
      ghost var st := Snapshot();
      var left := mzsLeft;
      var con := 0;
      if left == 0 {
        if |rb| < 8 {
          return Err(EndOfData), consumed;
        }
        curTime := AsI32(LE(rb[4..8]));
        if |rb| < 16 {
          return Err(EndOfData), consumed;
        }
        var n := LE(rb[10..12]);
        curSegment := LE(rb[14..16]) / 16;
        if curSegment >= |mzSegments| {
          return Err(Malformed("Invalid segment number (" + Text(curSegment) + ") specified")), consumed;
        }
        if n != |mzSegments[curSegment]| {
          return Err(Malformed("Number of intensities (" + Text(n) + ") doesn't match number of mzs ("
                               + Text(|mzSegments[curSegment]|) + ")")), consumed;
        }
        assert ScanStart(st, rb) == Point(Snapshot(), rb, 16, n);
        left := n;
        con := 16;
      }
      r, consumedOut := TakePoint(rb, consumed, con, left);
    }

    /** The end of `parse`: the intensity at `con` and the next m/z value. */
    method TakePoint(rb: seq<byte>, consumed: nat, con: nat, left: nat) returns (r: Result<bool>, consumedOut: nat)
      requires dataLeft > 0
      modifies this
      ensures r == Point(old(Snapshot()), rb, con, left).0 && Snapshot() == Point(old(Snapshot()), rb, con, left).1
      ensures consumedOut == consumed + Point(old(Snapshot()), rb, con, left).2
    {
      if |rb| < con + 4 {
        return Err(EndOfData), consumed;
      }
      curIntensity := LE(rb[con..con + 4]);
      if curSegment >= |mzSegments| {
        return Err(Panic("index out of bounds")), consumed;
      }
      var values := mzSegments[curSegment];
      if left > |values| {
        return Err(Malformed("Invalid m/z segment")), consumed;
      }
      if left == 0 {
        return Err(Panic("index out of bounds")), consumed;
      }
      curMz := values[|values| - left];
      mzsLeft := left - 1;
      dataLeft := SaturatingSub(dataLeft, con + 4);
      consumedOut := consumed + con + 4;
      r := Ok(true);
    }

    /** `InficonRecord::get`: the point the last `parse` found. */
    function Get(): (rec: InficonRecord)
      reads this
      ensures rec == Reading(Snapshot())
    {
      InficonRecord(curTime, curMz, curIntensity)
    }
  }

  // ---------------------------------------------------------------------------
  // Properties of the record parser

  /** A step keeps the scan consistent. */
  lemma StepKeepsInScan(st: Scan, rb: seq<byte>)
    requires InScan(st)
    ensures InScan(Step(st, rb).1)
  {
  }

  /** Within a consistent scan no step panics; the only panic left is an
      empty segment announced by a scan header. */
  lemma NoPanicInScan(st: Scan, rb: seq<byte>)
    requires InScan(st) && st.mzsLeft > 0
    ensures !Step(st, rb).0.Err? || !Step(st, rb).0.error.Panic?
  {
  }

  /** A scan header that announces zero values for an empty segment makes
      the parser index past the end of that segment. */
  lemma EmptySegmentPanics(st: Scan, rb: seq<byte>)
    requires st.dataLeft > 0 && st.mzsLeft == 0 && |rb| >= 20
    requires LE(rb[10..12]) == 0
    requires LE(rb[14..16]) / 16 < |st.segments| && st.segments[LE(rb[14..16]) / 16] == []
    ensures Step(st, rb).0 == Err(Panic("index out of bounds"))
  {
  }

  /** The m/z values of the points that `parse` hands out over the slices
      `bufs`, one call per slice, up to the first call that gives no point,
      and the state after the last call. */
  ghost function Run(st: Scan, bufs: seq<seq<byte>>): (seq<nat>, Scan)
    decreases |bufs|
  {
    if bufs == [] then ([], st)
    else
      var step := Step(st, bufs[0]);
      if step.0 == Ok(true) then
        var rest := Run(step.1, bufs[1..]);
        ([step.1.mz] + rest.0, rest.1)
      else ([], step.1)
  }

  /** Every point reads scan data, so a stream holds at most as many points
      as the setup announced bytes of scan data. */
  lemma {:induction false} RunBounded(st: Scan, bufs: seq<seq<byte>>)
    ensures |Run(st, bufs).0| <= st.dataLeft
    decreases |bufs|
  {
    if bufs != [] {
      var step := Step(st, bufs[0]);
      if step.0 == Ok(true) {
        RunBounded(step.1, bufs[1..]);
      }
    }
  }

  /** Within a scan, the points come with the segment's m/z values in
      order, starting where the scan stands. */
  lemma {:induction false} ScanInOrder(st: Scan, bufs: seq<seq<byte>>)
    requires st.segment < |st.segments| && |bufs| <= st.mzsLeft <= |st.segments[st.segment]|
    requires |Run(st, bufs).0| == |bufs|
    ensures var values := st.segments[st.segment];
      Run(st, bufs).0 == values[|values| - st.mzsLeft..|values| - st.mzsLeft + |bufs|]
    ensures Run(st, bufs).1.segment == st.segment && Run(st, bufs).1.segments == st.segments
    ensures Run(st, bufs).1.mzsLeft == st.mzsLeft - |bufs|
    decreases |bufs|
  {
    if bufs != [] {
      var step := Step(st, bufs[0]);
      assert step.0 == Ok(true);
      ScanInOrder(step.1, bufs[1..]);
    }
  }

  /** A scan read from its header on hands out exactly the m/z values of
      the segment its header names, in order, and then stands at the start
      of the next scan. */
  lemma {:induction false} WholeScan(st: Scan, bufs: seq<seq<byte>>)
    requires st.mzsLeft == 0 && |bufs| > 0 && |Run(st, bufs).0| == |bufs|
    requires |bufs| == |Step(st, bufs[0]).1.segments[Step(st, bufs[0]).1.segment]|
    ensures Run(st, bufs).0 == Step(st, bufs[0]).1.segments[Step(st, bufs[0]).1.segment]
    ensures Run(st, bufs).1.mzsLeft == 0
  {
    var step := Step(st, bufs[0]);
    assert step.0 == Ok(true);
    var values := step.1.segments[step.1.segment];
    assert step.1.mz == values[0] && step.1.mzsLeft == |values| - 1;
    ScanInOrder(step.1, bufs[1..]);
    assert Run(st, bufs).0 == [values[0]] + values[1..];
  }
}
