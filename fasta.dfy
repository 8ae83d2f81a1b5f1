/** FASTA records read straight from the streaming buffer.

    A record is a `>` header line followed by sequence lines; it ends at the
    first line break in the sequence block that is followed by `>`, or at the
    end of the input.  The sequence is returned with its line breaks (LF, and
    CR when right before an LF) removed. */
module Fasta {
  import opened Errors
  import opened Bytes
  import opened Buffer

  const GT: byte := 62

  datatype FastaRecord = FastaRecord(id: seq<byte>, sequence: seq<byte>)

  // ---------------------------------------------------------------------------
  // Specification on the whole remaining input

  /** Position `i` of `s` is a line break: an LF, or a CR right before an LF. */
  predicate IsBreak(s: seq<byte>, i: nat)
    requires i < |s|
  {
    s[i] == LF || (s[i] == CR && i + 1 < |s| && s[i + 1] == LF)
  }

  /** The bytes of `s` from `i` on that are not line breaks, in order. */
  function KeptFrom(s: seq<byte>, i: nat): seq<byte>
    requires i <= |s|
    decreases |s| - i
  {
    if i == |s| then []
    else (if IsBreak(s, i) then [] else [s[i]]) + KeptFrom(s, i + 1)
  }

  function RemoveBreaks(s: seq<byte>): seq<byte>
  {
    KeptFrom(s, 0)
  }

  /** `q` is an LF followed by `>`: the last byte of a record. */
  predicate IsRecordEnd(s: seq<byte>, q: nat)
  {
    q + 1 < |s| && s[q] == LF && s[q + 1] == GT
  }

  /** The first record end at or after `from`. */
  function FirstRecordEnd(s: seq<byte>, from: nat): (r: Option<nat>)
    decreases |s| - from
    ensures r.Some? ==> from <= r.value && IsRecordEnd(s, r.value)
    ensures r.Some? ==> forall j :: from <= j < r.value ==> !IsRecordEnd(s, j)
    ensures r.None? ==> forall j :: from <= j ==> !IsRecordEnd(s, j)
  {
    if from + 1 >= |s| then None
    else if IsRecordEnd(s, from) then Some(from)
    else FirstRecordEnd(s, from + 1)
  }

  /** What one read does to the remaining input: its result and how many
      bytes it consumes. */
  datatype Outcome = Outcome(result: Result<Option<FastaRecord>>, consumed: nat)

  /** The record at the front of the remaining input `s`. */
  function NextRecord(s: seq<byte>): (o: Outcome)
    ensures o.consumed <= |s|
  {
    if |s| == 0 then Outcome(Ok(None), 0)
    else if s[0] != GT then Outcome(Err(Malformed("Valid FASTA records start with '>'")), 0)
    else match FindByte(s, LF, 0)
      case None => Outcome(Err(Malformed("Incomplete record")), 0)
      case Some(p) => RecordUpTo(s, p, RecordEnd(s, p + 1))
  }

  /** Where the record whose sequence block starts at `from` ends: after the
      first LF followed by `>`, or at the end of the input. */
  function RecordEnd(s: seq<byte>, from: nat): (r: nat)
    requires from <= |s|
    ensures from < r <= |s| || r == from == |s|
    ensures r == |s| || (IsRecordEnd(s, r - 1) && s[r] == GT)
  {
    match FirstRecordEnd(s, from)
    case Some(q) => q + 1
    case None => |s|
  }

  /** The record whose header line ends with the LF at `p` and which ends
      before `recEnd`. */
  function RecordUpTo(s: seq<byte>, p: nat, recEnd: nat): Outcome
    requires 0 < p < recEnd <= |s| && s[0] == GT
  {
    var headerEnd := if p > 0 && s[p - 1] == CR then p - 1 else p;
    var id := s[1..headerEnd];
    var sequence := RemoveBreaks(s[p + 1..recEnd]);
    Outcome(if ValidUtf8(id) then Ok(Some(FastaRecord(id, sequence)))
            else Err(Malformed("invalid utf-8")), recEnd)
  }

  // ---------------------------------------------------------------------------
  // Properties of the specification

  /** No LF survives in a returned sequence. */
  lemma {:induction false} KeptHasNoLF(s: seq<byte>, i: nat)
    requires i <= |s|
    ensures LF !in KeptFrom(s, i)
    decreases |s| - i
  {
    if i < |s| {
      KeptHasNoLF(s, i + 1);
    }
  }

  /** Empty input gives no record; a first byte other than `>` is an error;
      a header without LF is an error; none of these consume anything. */
  lemma NextRecordEdges(s: seq<byte>)
    ensures |s| == 0 ==> NextRecord(s) == Outcome(Ok(None), 0)
    ensures |s| > 0 && s[0] != GT ==> NextRecord(s).result.Err? && NextRecord(s).consumed == 0
    ensures |s| > 0 && FindByte(s, LF, 0).None? ==> NextRecord(s).result.Err? && NextRecord(s).consumed == 0
  {
  }

  /** A record read leaves the input at the next `>` or at its end, and the
      record's id is the header line without `>` and without a CR before
      its LF. */
  lemma NextRecordShape(s: seq<byte>)
    requires NextRecord(s).result.Ok? && NextRecord(s).result.value.Some?
    ensures FindByte(s, LF, 0).Some? && 0 < FindByte(s, LF, 0).value < NextRecord(s).consumed
    ensures NextRecord(s).consumed == |s| || s[NextRecord(s).consumed] == GT
    ensures var p := FindByte(s, LF, 0).value;
      NextRecord(s).result.value.value.id == (if s[p - 1] == CR then s[1..p - 1] else s[1..p])
    ensures LF !in NextRecord(s).result.value.value.sequence
  {
    assert |s| > 0 && s[0] == GT && FindByte(s, LF, 0).Some?;
    var p := FindByte(s, LF, 0).value;
    var recEnd := RecordEnd(s, p + 1);
    assert NextRecord(s) == RecordUpTo(s, p, recEnd);
    assert NextRecord(s).result.value.value.sequence == KeptFrom(s[p + 1..recEnd], 0);
    KeptHasNoLF(s[p + 1..recEnd], 0);
  }

  lemma {:induction false} KeptShift(a: seq<byte>, b: seq<byte>, j: nat)
    requires j <= |b|
    ensures KeptFrom(a + b, |a| + j) == KeptFrom(b, j)
    decreases |b| - j
  {
    if j < |b| {
      var x := a + b;
      var i := |a| + j;
      assert x[i] == b[j];
      assert IsBreak(x, i) == IsBreak(b, j) by {
        if j + 1 < |b| {
          assert x[i + 1] == b[j + 1];
        }
      }
      KeptShift(a, b, j + 1);
      assert KeptFrom(x, i) == (if IsBreak(x, i) then [] else [x[i]]) + KeptFrom(x, i + 1);
      assert KeptFrom(b, j) == (if IsBreak(b, j) then [] else [b[j]]) + KeptFrom(b, j + 1);
    }
  }

  lemma {:induction false} KeptPlainPrefix(a: seq<byte>, b: seq<byte>, i: nat)
    requires Plain(a) && i <= |a|
    ensures KeptFrom(a + b, i) == a[i..] + KeptFrom(b, 0)
    decreases |a| - i
  {
    if i == |a| {
      KeptShift(a, b, 0);
    } else {
      KeptPlainPrefix(a, b, i + 1);
      assert (a + b)[i] == a[i] && !IsBreak(a + b, i);
      assert KeptFrom(a + b, i) == [a[i]] + KeptFrom(a + b, i + 1);
      assert a[i..] == [a[i]] + a[i + 1..];
      AppendAssoc([a[i]], a[i + 1..], KeptFrom(b, 0));
    }
  }

  /** A plain line followed by a line end keeps the line and drops the line
      end. */
  lemma RemoveBreaksLine(line: seq<byte>, crlf: bool, rest: seq<byte>)
    requires Plain(line)
    ensures RemoveBreaks(line + LineEnd(crlf) + rest) == line + RemoveBreaks(rest)
  {
    var tail := LineEnd(crlf) + rest;
    assert line + LineEnd(crlf) + rest == line + tail;
    KeptPlainPrefix(line, tail, 0);
    KeptShift(LineEnd(crlf), rest, 0);
    if crlf {
      assert IsBreak(tail, 0) && IsBreak(tail, 1);
    } else {
      assert IsBreak(tail, 0);
    }
  }

  lemma RemoveBreaksPlain(line: seq<byte>)
    requires Plain(line)
    ensures RemoveBreaks(line) == line
  {
    KeptPlainPrefix(line, [], 0);
    assert line + [] == line;
  }

  /** The characterisation of the first record end, as a way to compute it. */
  lemma FirstRecordEndIs(s: seq<byte>, from: nat, q: nat)
    requires from <= q && IsRecordEnd(s, q)
    requires forall j :: from <= j < q ==> !IsRecordEnd(s, j)
    ensures FirstRecordEnd(s, from) == Some(q)
  {
  }

  /** The characterisation of the first LF, as a way to compute it. */
  lemma FirstNewlineIs(s: seq<byte>, p: nat)
    requires p < |s| && s[p] == LF
    requires forall j :: 0 <= j < p ==> s[j] != LF
    ensures FindByte(s, LF, 0) == Some(p)
  {
  }

  /** The bytes of the sample text used below. */
  const ACGT: seq<byte> := [65, 67, 71, 84]
  const AAAA: seq<byte> := [65, 65, 65, 65]
  const TGCA: seq<byte> := [84, 71, 67, 65]
  const ID: seq<byte> := [105, 100]
  const ID2: seq<byte> := [105, 100, 50]

  /** `>id2\nTGCA` at the end of the input is one record, "id2"/"TGCA". */
  lemma LastRecordExample()
    ensures NextRecord([GT] + ID2 + [LF] + TGCA) == Outcome(Ok(Some(FastaRecord(ID2, TGCA))), 9)
  {
    var t := [GT] + ID2 + [LF] + TGCA;
    FirstNewlineIs(t, 4);
    assert FirstRecordEnd(t, 5).None?;
    assert t[1..4] == ID2;
    AsciiIsUtf8(ID2);
    assert t[5..9] == TGCA;
    RemoveBreaksPlain(TGCA);
    assert |t| == 9 && t[0] == GT && t[3] != CR;
    assert RemoveBreaks(t[5..|t|]) == TGCA;
    assert ValidUtf8(t[1..4]);
    assert NextRecord(t).consumed == 9;
    assert NextRecord(t).result == Ok(Some(FastaRecord(ID2, TGCA)));
  }

  /** `>id2\r\nTGCA\r\n` at the end of the input is one record,
      "id2"/"TGCA". */
  lemma LastCrlfRecordExample()
    ensures NextRecord([GT] + ID2 + [CR, LF] + TGCA + [CR, LF])
         == Outcome(Ok(Some(FastaRecord(ID2, TGCA))), 12)
  {
    var t := [GT] + ID2 + [CR, LF] + TGCA + [CR, LF];
    FirstNewlineIs(t, 5);
    assert FirstRecordEnd(t, 6).None?;
    assert t[1..4] == ID2;
    AsciiIsUtf8(ID2);
    assert t[6..12] == TGCA + LineEnd(true) + [];
    RemoveBreaksLine(TGCA, true, []);
    assert |t| == 12 && t[0] == GT && t[4] == CR;
    assert RemoveBreaks(t[6..|t|]) == TGCA;
    assert ValidUtf8(t[1..4]);
    assert NextRecord(t).result == Ok(Some(FastaRecord(ID2, TGCA)));
  }

  /** The multi-line example `>id\nACGT\nAAAA\n>id2\nTGCA` gives
      "id"/"ACGTAAAA" and leaves the second record. */
  lemma MultilineExample()
    ensures var first := [GT] + ID + [LF] + ACGT + [LF] + AAAA + [LF];
      var second := [GT] + ID2 + [LF] + TGCA;
      && NextRecord(first + second) == Outcome(Ok(Some(FastaRecord(ID, ACGT + AAAA))), |first|)
      && NextRecord(second) == Outcome(Ok(Some(FastaRecord(ID2, TGCA))), |second|)
  {
    var first := [GT] + ID + [LF] + ACGT + [LF] + AAAA + [LF];
    var second := [GT] + ID2 + [LF] + TGCA;
    var s := first + second;
    FirstNewlineIs(s, 3);
    assert IsRecordEnd(s, 13);
    FirstRecordEndIs(s, 4, 13);
    assert s[1..3] == ID;
    AsciiIsUtf8(ID);
    assert s[4..14] == ACGT + LineEnd(false) + (AAAA + LineEnd(false) + []);
    RemoveBreaksLine(ACGT, false, AAAA + LineEnd(false) + []);
    RemoveBreaksLine(AAAA, false, []);
    assert RemoveBreaks(s[4..14]) == ACGT + AAAA;
    assert s[0] == GT && s[2] != CR && ValidUtf8(s[1..3]);
    assert NextRecord(s).result == Ok(Some(FastaRecord(ID, ACGT + AAAA)));
    LastRecordExample();
  }

  /** The CRLF variant `>id\r\nACGT\r\nAAAA\r\n>id2\r\nTGCA\r\n` gives
      the same records. */
  lemma CrlfExample()
    ensures var first := [GT] + ID + [CR, LF] + ACGT + [CR, LF] + AAAA + [CR, LF];
      var second := [GT] + ID2 + [CR, LF] + TGCA + [CR, LF];
      && NextRecord(first + second) == Outcome(Ok(Some(FastaRecord(ID, ACGT + AAAA))), |first|)
      && NextRecord(second) == Outcome(Ok(Some(FastaRecord(ID2, TGCA))), |second|)
  {
    var first := [GT] + ID + [CR, LF] + ACGT + [CR, LF] + AAAA + [CR, LF];
    var second := [GT] + ID2 + [CR, LF] + TGCA + [CR, LF];
    var s := first + second;
    FirstNewlineIs(s, 4);
    assert IsRecordEnd(s, 16);
    FirstRecordEndIs(s, 5, 16);
    assert s[1..3] == ID;
    AsciiIsUtf8(ID);
    assert s[5..17] == ACGT + LineEnd(true) + (AAAA + LineEnd(true) + []);
    RemoveBreaksLine(ACGT, true, AAAA + LineEnd(true) + []);
    RemoveBreaksLine(AAAA, true, []);
    assert RemoveBreaks(s[5..17]) == ACGT + AAAA;
    assert s[0] == GT && s[3] == CR && ValidUtf8(s[1..3]);
    assert NextRecord(s).result == Ok(Some(FastaRecord(ID, ACGT + AAAA)));
    LastCrlfRecordExample();
  }

  /** Empty ids and sequences are legal: `>hd\n\n>\n\n` gives ("hd", "")
      and leaves `>\n\n`, which gives ("", ""); an empty stream gives
      nothing. */
  lemma EmptySequenceExample()
    ensures NextRecord([GT, 104, 100, LF, LF, GT, LF, LF])
         == Outcome(Ok(Some(FastaRecord([104, 100], []))), 5)
    ensures NextRecord([]) == Outcome(Ok(None), 0)
  {
    var s: seq<byte> := [GT, 104, 100, LF, LF, GT, LF, LF];
    FirstNewlineIs(s, 3);
    assert IsRecordEnd(s, 4);
    FirstRecordEndIs(s, 4, 4);
    assert s[1..3] == [104, 100];
    AsciiIsUtf8([104, 100]);
    var none: seq<byte> := [];
    assert s[4..5] == none + LineEnd(false) + none;
    RemoveBreaksLine(none, false, none);
    assert RemoveBreaks(s[4..5]) == [];
    assert NextRecord(s).result == Ok(Some(FastaRecord([104, 100], [])));
  }

  lemma EmptyRecordExample()
    ensures NextRecord([GT, LF, LF]) == Outcome(Ok(Some(FastaRecord([], []))), 3)
  {
    var s: seq<byte> := [GT, LF, LF];
    FirstNewlineIs(s, 1);
    assert FirstRecordEnd(s, 2).None?;
    var none: seq<byte> := [];
    assert s[2..3] == none + LineEnd(false) + none;
    RemoveBreaksLine(none, false, none);
    assert s[1..1] == [] && ValidUtf8([]);
    assert RemoveBreaks(s[2..|s|]) == [];
    assert NextRecord(s).result == Ok(Some(FastaRecord([], [])));
  }

  // ---------------------------------------------------------------------------
  // The list of line-break positions the reader collects

  /** The line-break positions `i` of `s` with `a <= i < b`, in increasing
      order. */
  function BreaksIn(s: seq<byte>, a: nat, b: nat): seq<nat>
    requires b <= |s|
    decreases b
  {
    if b <= a then [] else BreaksIn(s, a, b - 1) + (if IsBreak(s, b - 1) then [b - 1] else [])
  }

  predicate Increasing(l: seq<nat>)
  {
    forall i, j :: 0 <= i < j < |l| ==> l[i] < l[j]
  }

  lemma {:induction false} BreaksInOrder(s: seq<byte>, a: nat, b: nat)
    requires b <= |s|
    ensures Increasing(BreaksIn(s, a, b))
    ensures forall k :: 0 <= k < |BreaksIn(s, a, b)| ==> a <= BreaksIn(s, a, b)[k] < b
    decreases b
  {
    if b > a {
      BreaksInOrder(s, a, b - 1);
    }
  }

  lemma {:induction false} BreaksInFirst(s: seq<byte>, a: nat, b: nat)
    requires b <= |s|
    ensures |BreaksIn(s, a, b)| > 0 ==> BreaksIn(s, a, b)[0] >= a
    decreases b
  {
    if b > a {
      BreaksInFirst(s, a, b - 1);
    }
  }

  /** The list for `a..c` is the list for `a..b` followed by that for `b..c`. */
  lemma {:induction false} BreaksInSplit(s: seq<byte>, a: nat, b: nat, c: nat)
    requires a <= b <= c <= |s|
    ensures BreaksIn(s, a, c) == BreaksIn(s, a, b) + BreaksIn(s, b, c)
    decreases c
  {
    if b < c {
      BreaksInSplit(s, a, b, c - 1);
    }
  }

  /** No new entries between `a` and `b` when nothing there is a break. */
  lemma {:induction false} BreaksUnchanged(s: seq<byte>, a: nat, b: nat)
    requires a <= b <= |s|
    requires forall i :: a <= i < b ==> !IsBreak(s, i)
    ensures BreaksIn(s, 0, b) == BreaksIn(s, 0, a)
    decreases b - a
  {
    if a < b {
      BreaksUnchanged(s, a, b - 1);
    }
  }

  /** Meeting the next LF at `r` (none in `a..r`) adds `r`, preceded by `r-1`
      when that is a CR scanned in this step. */
  lemma BreaksAtNewline(s: seq<byte>, a: nat, r: nat)
    requires a <= r < |s| && s[r] == LF
    requires forall i :: a <= i < r ==> s[i] != LF
    ensures BreaksIn(s, 0, r + 1)
         == BreaksIn(s, 0, a) + (if a < r && s[r - 1] == CR then [r - 1] else []) + [r]
  {
    if a < r {
      BreaksUnchanged(s, a, r - 1);
    }
  }

  /** The lists agree for two inputs that agree on which positions below `n`
      are breaks. */
  lemma {:induction false} BreaksAgree(s: seq<byte>, t: seq<byte>, n: nat)
    requires n <= |s| && n <= |t|
    requires forall i :: 0 <= i < n ==> (IsBreak(s, i) <==> IsBreak(t, i))
    ensures BreaksIn(s, 0, n) == BreaksIn(t, 0, n)
  {
    if n > 0 {
      BreaksAgree(s, t, n - 1);
    }
  }

  /** Breaks below `n` only look at the first `n` bytes when byte `n-1` is not
      a CR. */
  lemma BreaksPrefix(s: seq<byte>, n: nat)
    requires n <= |s| && (n > 0 ==> s[n - 1] != CR)
    ensures BreaksIn(s, 0, n) == BreaksIn(s[..n], 0, n)
  {
    BreaksAgree(s, s[..n], n);
  }

  /** Every listed position is a break. */
  lemma {:induction false} BreaksInAreBreaks(s: seq<byte>, a: nat, b: nat)
    requires b <= |s|
    ensures forall k :: 0 <= k < |BreaksIn(s, a, b)| ==> BreaksIn(s, a, b)[k] < b && IsBreak(s, BreaksIn(s, a, b)[k])
    decreases b
  {
    if b > a {
      BreaksInAreBreaks(s, a, b - 1);
    }
  }

  /** A run of breaks lists every position of the run. */
  lemma {:induction false} BreaksInRun(s: seq<byte>, a: nat, b: nat)
    requires a <= b <= |s|
    requires forall i :: a <= i < b ==> IsBreak(s, i)
    ensures BreaksIn(s, a, b) == Range(a, b)
    decreases b
  {
    if a < b {
      BreaksInRun(s, a, b - 1);
      assert IsBreak(s, b - 1);
      assert BreaksIn(s, a, b) == BreaksIn(s, a, b - 1) + [b - 1];
      RangeSnoc(a, b - 1);
    }
  }

  lemma {:induction false} RangeSnoc(lo: nat, hi: nat)
    requires lo <= hi
    ensures Range(lo, hi + 1) == Range(lo, hi) + [hi]
  {
  }

  // ---------------------------------------------------------------------------
  // Rebuilding the sequence from the collected positions

  /** `s` from `start` on with the positions in `l` left out, for positions
      listed in increasing order (the reader never lists them otherwise;
      an out-of-order position ends the removal). */
  function WithoutFrom(s: seq<byte>, l: seq<nat>, start: nat): seq<byte>
    requires start <= |s|
    decreases |l|
  {
    if |l| == 0 || !(start <= l[0] < |s|) then s[start..]
    else s[start..l[0]] + WithoutFrom(s, l[1..], l[0] + 1)
  }

  /** Each listed position removes exactly one byte. */
  lemma {:induction false} WithoutLength(s: seq<byte>, l: seq<nat>, start: nat)
    requires start <= |s| && Increasing(l)
    requires forall k :: 0 <= k < |l| ==> start <= l[k] < |s|
    ensures |WithoutFrom(s, l, start)| == |s| - start - |l|
    decreases |l|
  {
    if |l| > 0 {
      WithoutLength(s, l[1..], l[0] + 1);
    }
  }

  /** A byte before every listed position is kept. */
  lemma WithoutKeepsFirst(s: seq<byte>, l: seq<nat>, start: nat)
    requires start < |s| && (|l| > 0 ==> start < l[0])
    ensures WithoutFrom(s, l, start) == [s[start]] + WithoutFrom(s, l, start + 1)
  {
    if |l| > 0 && l[0] < |s| {
      assert s[start..l[0]] == [s[start]] + s[start + 1..l[0]];
    } else {
      assert s[start..] == [s[start]] + s[start + 1..];
    }
  }

  lemma {:induction false} KeptAllBreaks(s: seq<byte>, a: nat)
    requires a <= |s|
    requires forall i :: a <= i < |s| ==> IsBreak(s, i)
    ensures KeptFrom(s, a) == []
    decreases |s| - a
  {
    if a < |s| {
      KeptAllBreaks(s, a + 1);
    }
  }

  /** Leaving the break positions in `start..e` out of `s[..e]`, when every
      position from `e` on is a break, removes all breaks of `s` from
      `start` on. */
  lemma {:induction false} WithoutIsRemoveBreaks(s: seq<byte>, e: nat, start: nat)
    requires start <= e <= |s|
    requires forall i :: e <= i < |s| ==> IsBreak(s, i)
    ensures WithoutFrom(s[..e], BreaksIn(s, start, e), start) == KeptFrom(s, start)
    decreases e - start
  {
    if start == e {
      KeptAllBreaks(s, e);
    } else {
      WithoutIsRemoveBreaks(s, e, start + 1);
      RemoveStep(s, e, start);
    }
  }

  /** One step of the induction above: position `start` is either dropped
      as a break or kept. */
  lemma RemoveStep(s: seq<byte>, e: nat, start: nat)
    requires start < e <= |s|
    requires WithoutFrom(s[..e], BreaksIn(s, start + 1, e), start + 1) == KeptFrom(s, start + 1)
    ensures WithoutFrom(s[..e], BreaksIn(s, start, e), start) == KeptFrom(s, start)
  {
    BreaksInCons(s, start, e);
    if IsBreak(s, start) {
      DropBreak(s[..e], s, start, BreaksIn(s, start, e), BreaksIn(s, start + 1, e));
    } else {
      KeepByte(s[..e], s, start, BreaksIn(s, start, e), BreaksIn(s, start + 1, e));
    }
  }

  /** The breaks from `start` on: `start` itself if it is one, then the
      later ones. */
  lemma BreaksInCons(s: seq<byte>, start: nat, e: nat)
    requires start < e <= |s|
    ensures BreaksIn(s, start, e) == (if IsBreak(s, start) then [start] else []) + BreaksIn(s, start + 1, e)
    ensures |BreaksIn(s, start + 1, e)| > 0 ==> start < BreaksIn(s, start + 1, e)[0]
  {
    var head: seq<nat> := if IsBreak(s, start) then [start] else [];
    assert BreaksIn(s, start, start + 1) == head by {
      assert BreaksIn(s, start, start) == [];
      assert BreaksIn(s, start, start + 1) == [] + head;
    }
    BreaksInSplit(s, start, start + 1, e);
    BreaksInFirst(s, start + 1, e);
  }

  lemma DropBreak(t: seq<byte>, s: seq<byte>, start: nat, l: seq<nat>, rest: seq<nat>)
    requires start < |t| <= |s| && IsBreak(s, start)
    requires l == [start] + rest
    requires WithoutFrom(t, rest, start + 1) == KeptFrom(s, start + 1)
    ensures WithoutFrom(t, l, start) == KeptFrom(s, start)
  {
    assert l[0] == start && l[1..] == rest;
    assert t[start..start] == [];
  }

  lemma KeepByte(t: seq<byte>, s: seq<byte>, start: nat, l: seq<nat>, rest: seq<nat>)
    requires start < |t| <= |s| && t[start] == s[start] && !IsBreak(s, start)
    requires l == rest && (|rest| > 0 ==> start < rest[0])
    requires WithoutFrom(t, rest, start + 1) == KeptFrom(s, start + 1)
    ensures WithoutFrom(t, l, start) == KeptFrom(s, start)
  {
    WithoutKeepsFirst(t, rest, start);
  }

  /** The reassembly loop: copies the raw sequence, skipping the listed
      positions. */
  method Reassemble(raw: seq<byte>, newlines: seq<nat>) returns (out: seq<byte>)
    requires Increasing(newlines)
    requires forall k :: 0 <= k < |newlines| ==> newlines[k] < |raw|
    ensures out == WithoutFrom(raw, newlines, 0)
    ensures |out| == |raw| - |newlines|
  {
    WithoutLength(raw, newlines, 0);
    out := [];
    var start: nat := 0;
    assert newlines[0..] == newlines;
    for k := 0 to |newlines|
      invariant Copied(raw, newlines, k, start, out)
    {
      CopyStep(raw, newlines, k, start, out);
      out := out + raw[start..newlines[k]];
      start := newlines[k] + 1;
    }
    assert newlines[|newlines|..] == [];
    out := out + raw[start..];
  }

  /** The reassembly loop's state after `k` positions: `out` followed by
      the rest of the removal from `start` is the whole removal. */
  ghost predicate Copied(raw: seq<byte>, newlines: seq<nat>, k: nat, start: nat, out: seq<byte>)
  {
    && k <= |newlines| && start <= |raw|
    && (forall j :: k <= j < |newlines| ==> start <= newlines[j] < |raw|)
    && out + WithoutFrom(raw, newlines[k..], start) == WithoutFrom(raw, newlines, 0)
  }

  lemma CopyStep(raw: seq<byte>, newlines: seq<nat>, k: nat, start: nat, out: seq<byte>)
    requires Increasing(newlines) && Copied(raw, newlines, k, start, out) && k < |newlines|
    ensures start <= newlines[k] < |raw|
    ensures Copied(raw, newlines, k + 1, newlines[k] + 1, out + raw[start..newlines[k]])
  {
    var pos := newlines[k];
    var after := WithoutFrom(raw, newlines[k + 1..], pos + 1);
    assert forall j :: k + 1 <= j < |newlines| ==> pos + 1 <= newlines[j] < |raw|;
    assert out + WithoutFrom(raw, newlines[k..], start) == (out + raw[start..pos]) + after by {
      var left := newlines[k..];
      assert left[0] == pos && left[1..] == newlines[k + 1..];
      assert WithoutFrom(raw, left, start) == raw[start..pos] + after;
      AppendAssoc(out, raw[start..pos], after);
    }
  }

  /** Pops the record-ending LF, then every position directly before the
      last one popped: the trailing run of breaks. */
  method TrimTrailingBreaks(newlines: seq<nat>, ghost span: seq<byte>) returns (kept: seq<nat>, endpos: nat)
    requires |span| > 0 && span[|span| - 1] == LF && newlines == BreaksIn(span, 0, |span|)
    ensures endpos < |span| && newlines == kept + Range(endpos, |span|)
    ensures endpos > 0 && |kept| > 0 ==> kept[|kept| - 1] != endpos - 1
    ensures Increasing(kept) && forall k :: 0 <= k < |kept| ==> kept[k] < endpos
    ensures WithoutFrom(span[..endpos], kept, 0) == RemoveBreaks(span)
  {
    assert |newlines| > 0 && newlines[|newlines| - 1] == |span| - 1 by {
      BreaksEndAtLF(span);
    }
    kept := newlines[..|newlines| - 1];
    endpos := newlines[|newlines| - 1];
    assert newlines == kept + Range(endpos, endpos + 1);
    while endpos > 0 && |kept| > 0 && kept[|kept| - 1] == endpos - 1
      invariant newlines == kept + Range(endpos, |span|)
      invariant endpos < |span|
      decreases |kept|
    {
      PopBreak(newlines, kept, endpos, |span|);
      endpos := kept[|kept| - 1];
      kept := kept[..|kept| - 1];
    }
    TrimmedIsRemoveBreaks(span, kept, endpos);
  }


  /** Popping a break that sits just before a trailing run lengthens the run. */
  lemma PopBreak(newlines: seq<nat>, kept: seq<nat>, e: nat, n: nat)
    requires e <= n && newlines == kept + Range(e, n)
    requires e > 0 && |kept| > 0 && kept[|kept| - 1] == e - 1
    ensures newlines == kept[..|kept| - 1] + Range(e - 1, n)
  {
    assert kept == kept[..|kept| - 1] + [e - 1];
    assert Range(e - 1, n) == [e - 1] + Range(e, n);
  }

  /** The integers `lo, lo+1, …, hi-1`. */
  function Range(lo: nat, hi: nat): (r: seq<nat>)
    ensures |r| == if lo <= hi then hi - lo else 0
    ensures forall k :: 0 <= k < |r| ==> r[k] == lo + k
    decreases hi - lo
  {
    if lo >= hi then [] else [lo] + Range(lo + 1, hi)
  }

  // ---------------------------------------------------------------------------
  // The reader

  /** A record found in the window stays where it is when more input
      follows. */
  lemma FirstRecordEndExtend(w: seq<byte>, t: seq<byte>, from: nat)
    requires FirstRecordEnd(w, from).Some?
    ensures FirstRecordEnd(w + t, from) == FirstRecordEnd(w, from)
  {
    var q := FirstRecordEnd(w, from).value;
    assert forall j :: from <= j < q ==> !IsRecordEnd(w + t, j) by {
      forall j | from <= j < q
        ensures !IsRecordEnd(w + t, j)
      {
        assert !IsRecordEnd(w, j);
      }
    }
    FirstRecordEndIs(w + t, from, q);
  }

  /** One LF met by the scan adds its break positions, a CR before it
      included. */
  lemma ScanStep(w: seq<byte>, seqStart: nat, scanned: nat, pos: nat, before: seq<nat>, newlines: seq<nat>)
    requires Scanned(w, seqStart, scanned, before) && FindByte(w, LF, scanned) == Some(pos)
    requires w[pos - 1] == CR ==> pos > seqStart && newlines == before + [pos - seqStart - 1] + [pos - seqStart]
    requires w[pos - 1] != CR ==> newlines == before + [pos - seqStart]
    ensures newlines == BreaksIn(w[seqStart..], 0, pos + 1 - seqStart)
  {
    var span := w[seqStart..];
    BreaksAtNewline(span, scanned - seqStart, pos - seqStart);
    if scanned < pos {
      assert span[pos - seqStart - 1] == w[pos - 1];
    }
  }

  /** The scan stops at a record end: what it collected are the breaks of
      the sequence block up to and including that LF. */
  lemma ScanFound(w: seq<byte>, seqStart: nat, scanned: nat, before: seq<nat>, q: nat, newlines: seq<nat>)
    requires Scanned(w, seqStart, scanned, before) && FindByte(w, LF, scanned) == Some(q)
    requires q + 1 < |w| && w[q + 1] == GT
    requires newlines == BreaksIn(w[seqStart..], 0, q + 1 - seqStart)
    ensures FirstRecordEnd(w, seqStart) == Some(q)
    ensures newlines == BreaksIn(w[seqStart..q + 1], 0, q + 1 - seqStart)
  {
    assert IsRecordEnd(w, q);
    assert forall j :: scanned <= j < q ==> w[j] != LF;
    FirstRecordEndIs(w, seqStart, q);
    var span := w[seqStart..];
    BreaksPrefix(span, q + 1 - seqStart);
    assert span[..q + 1 - seqStart] == w[seqStart..q + 1];
  }

  /** The scan runs out of LFs: there is no record end, and no break after
      the last LF it met. */
  lemma ScanExhausted(w: seq<byte>, seqStart: nat, scanned: nat)
    requires 0 < seqStart <= scanned <= |w|
    requires forall j :: seqStart <= j < scanned ==> !IsRecordEnd(w, j)
    requires forall j :: scanned <= j < |w| ==> w[j] != LF
    ensures FirstRecordEnd(w, seqStart).None?
    ensures BreaksIn(w[seqStart..], 0, |w| - seqStart) == BreaksIn(w[seqStart..], 0, scanned - seqStart)
  {
    var span := w[seqStart..];
    forall i | scanned - seqStart <= i < |span|
      ensures !IsBreak(span, i)
    {
      assert span[i] == w[seqStart + i];
      if i + 1 < |span| {
        assert span[i + 1] == w[seqStart + i + 1];
      }
    }
    BreaksUnchanged(span, scanned - seqStart, |span|);
  }

  /** The `memchr_iter` loop over the sequence block of the window `w`,
      which starts right after an LF at `seqStart`: collects the break
      positions (relative to `seqStart`) until it meets a record end `q`. */
  method ScanSequence(w: seq<byte>, seqStart: nat) returns (newlines: seq<nat>, found: bool, q: nat)
    requires 0 < seqStart <= |w| && w[seqStart - 1] == LF
    ensures found ==> FirstRecordEnd(w, seqStart) == Some(q)
    ensures found ==> newlines == BreaksIn(w[seqStart..q + 1], 0, q + 1 - seqStart)
    ensures !found ==> FirstRecordEnd(w, seqStart).None?
    ensures !found ==> newlines == BreaksIn(w[seqStart..], 0, |w| - seqStart)
  {
    newlines := [];
    found := false;
    q := 0;
    var scanned := seqStart;
    var next := FindByte(w, LF, seqStart);
    while next.Some?
      invariant Scanned(w, seqStart, scanned, newlines)
      invariant next == FindByte(w, LF, scanned)
      decreases |w| - scanned
    {
      var pos := next.value;
      var atEnd;
      newlines, atEnd := ScanLine(w, seqStart, scanned, pos, newlines);
      if atEnd {
        found := true;
        q := pos;
        return;
      }
      scanned := pos + 1;
      next := FindByte(w, LF, scanned);
    }
    ScanExhausted(w, seqStart, scanned);
  }

  /** One LF met by the scan at `pos`: records its break position, and the
      CR before it if there is one, and tells whether a '>' follows. */
  method ScanLine(w: seq<byte>, seqStart: nat, scanned: nat, pos: nat, newlines: seq<nat>)
    returns (added: seq<nat>, atEnd: bool)
    requires Scanned(w, seqStart, scanned, newlines) && FindByte(w, LF, scanned) == Some(pos)
    ensures atEnd <==> pos + 1 < |w| && w[pos + 1] == GT
    ensures atEnd ==> FirstRecordEnd(w, seqStart) == Some(pos)
    ensures atEnd ==> added == BreaksIn(w[seqStart..pos + 1], 0, pos + 1 - seqStart)
    ensures !atEnd ==> Scanned(w, seqStart, pos + 1, added)
  {
    var rawPos: nat := pos - seqStart;
    added := newlines;
    if w[pos - 1] == CR {
      var crPos: nat := rawPos - 1;
      added := added + [crPos];
    }
    added := added + [rawPos];
    ScanStep(w, seqStart, scanned, pos, newlines, added);
    atEnd := pos + 1 < |w| && w[pos + 1] == GT;
    if atEnd {
      ScanFound(w, seqStart, scanned, newlines, pos, added);
    } else {
      ScanAdvance(w, seqStart, scanned, pos, newlines, added);
    }
  }

  /** The scan's state: the sequence part up to `scanned` holds no record
      end and its breaks are `newlines`. */
  ghost predicate Scanned(w: seq<byte>, seqStart: nat, scanned: nat, newlines: seq<nat>)
  {
    && 0 < seqStart <= scanned <= |w| && w[scanned - 1] == LF
    && newlines == BreaksIn(w[seqStart..], 0, scanned - seqStart)
    && forall j :: seqStart <= j < scanned ==> !IsRecordEnd(w, j)
  }

  lemma ScanAdvance(w: seq<byte>, seqStart: nat, scanned: nat, pos: nat, before: seq<nat>, newlines: seq<nat>)
    requires Scanned(w, seqStart, scanned, before) && FindByte(w, LF, scanned) == Some(pos)
    requires !(pos + 1 < |w| && w[pos + 1] == GT)
    requires newlines == BreaksIn(w[seqStart..], 0, pos + 1 - seqStart)
    ensures Scanned(w, seqStart, pos + 1, newlines)
  {
    assert forall j :: scanned <= j < pos ==> w[j] != LF;
  }

  /** A record found whole in the window `w` is the record `NextRecord`
      reads from the window followed by any further input. */
  lemma NextRecordInWindow(w: seq<byte>, t: seq<byte>, p: nat, q: nat)
    requires |w| > 0 && w[0] == GT && FindByte(w, LF, 0) == Some(p)
    requires FirstRecordEnd(w, p + 1) == Some(q)
    ensures 0 < p < q + 1 <= |w|
    ensures NextRecord(w + t) == RecordUpTo(w, p, q + 1)
  {
    var s := w + t;
    assert FindByte(s, LF, 0) == Some(p) by {
      FindByteExtend(w, t, LF, 0);
    }
    assert RecordEnd(s, p + 1) == q + 1 by {
      FirstRecordEndExtend(w, t, p + 1);
    }
    assert NextRecord(s) == RecordUpTo(s, p, q + 1);
    RecordUpToExtend(w, t, p, q + 1);
  }

  /** A record that ends inside the window reads the same whatever follows. */
  lemma RecordUpToExtend(w: seq<byte>, t: seq<byte>, p: nat, recEnd: nat)
    requires 0 < p < recEnd <= |w| && w[0] == GT
    ensures RecordUpTo(w + t, p, recEnd) == RecordUpTo(w, p, recEnd)
  {
    var headerEnd := if w[p - 1] == CR then p - 1 else p;
    assert (w + t)[p - 1] == w[p - 1];
    AppendSlice(w, t, 1, headerEnd);
    AppendSlice(w, t, p + 1, recEnd);
  }

  /** A sequence block that ends with an LF has its last break there. */
  lemma BreaksEndAtLF(span: seq<byte>)
    requires |span| > 0 && span[|span| - 1] == LF
    ensures var l := BreaksIn(span, 0, |span|);
      |l| > 0 && l[|l| - 1] == |span| - 1 && Increasing(l)
  {
    BreaksInOrder(span, 0, |span|);
  }

  /** At the end of the input a record with no record end after it runs to
      the end. */
  lemma NextRecordAtEnd(w: seq<byte>, p: nat)
    requires |w| > 0 && w[0] == GT && FindByte(w, LF, 0) == Some(p)
    requires FirstRecordEnd(w, p + 1).None?
    ensures 0 < p < |w|
    ensures NextRecord(w) == RecordUpTo(w, p, |w|)
  {
  }

  /** The positions popped at the end of a record form a run of breaks. */
  lemma TrailingRunIsBreaks(span: seq<byte>, kept: seq<nat>, e: nat)
    requires e < |span|
    requires BreaksIn(span, 0, |span|) == kept + Range(e, |span|)
    ensures forall i :: e <= i < |span| ==> IsBreak(span, i)
  {
    var all := BreaksIn(span, 0, |span|);
    BreaksInAreBreaks(span, 0, |span|);
    forall i | e <= i < |span|
      ensures IsBreak(span, i)
    {
      assert all[|kept| + (i - e)] == i;
    }
  }

  /** What is left after the trailing run is popped is the list of breaks
      before the run. */
  lemma TrimmedIsBreaksBefore(span: seq<byte>, kept: seq<nat>, e: nat)
    requires e < |span|
    requires BreaksIn(span, 0, |span|) == kept + Range(e, |span|)
    ensures kept == BreaksIn(span, 0, e)
    ensures forall i :: e <= i < |span| ==> IsBreak(span, i)
  {
    TrailingRunIsBreaks(span, kept, e);
    BreaksInRun(span, e, |span|);
    BreaksInSplit(span, 0, e, |span|);
    var all := BreaksIn(span, 0, |span|);
    var before := BreaksIn(span, 0, e);
    assert |before| == |kept|;
    assert kept == all[..|kept|] == before;
  }

  /** After the trailing run of breaks is popped, what is left removes
      exactly the line breaks from the sequence block. */
  lemma TrimmedIsRemoveBreaks(span: seq<byte>, kept: seq<nat>, e: nat)
    requires e < |span|
    requires BreaksIn(span, 0, |span|) == kept + Range(e, |span|)
    ensures Increasing(kept) && forall k :: 0 <= k < |kept| ==> kept[k] < e
    ensures WithoutFrom(span[..e], kept, 0) == RemoveBreaks(span)
  {
    TrimmedIsBreaksBefore(span, kept, e);
    BreaksInOrder(span, 0, e);
    WithoutIsRemoveBreaks(span, e, 0);
  }

  lemma AppendSlice(w: seq<byte>, t: seq<byte>, i: nat, j: nat)
    requires i <= j <= |w|
    ensures (w + t)[i..j] == w[i..j]
  {
  }

  lemma SliceOfSlice(w: seq<byte>, i: nat, j: nat, k: nat)
    requires i <= j <= |w| && k <= j - i
    ensures w[i..j][..k] == w[i..i + k]
  {
  }

  lemma SliceOfPrefix(w: seq<byte>, n: nat, i: nat, j: nat)
    requires i <= j <= n <= |w|
    ensures w[..n][i..j] == w[i..j]
  {
  }

  /** Where the record at the front of the window lies: the header line
      ends with the LF at `p`, the id is `[1, headerEnd)`, the sequence
      block `[seqStart, seqEnd)` minus the breaks at `kept` (relative to
      `seqStart`), and the record takes `recEnd` bytes. */
  datatype Located = Located(p: nat, headerEnd: nat, seqStart: nat, seqEnd: nat, recEnd: nat, kept: seq<nat>)

  /** What `Locate` finds: the record at the front of the remaining input
      `S`, of which the window holds the first `window` bytes. */
  ghost predicate LocatedIn(S: seq<byte>, window: nat, l: Located)
  {
    LocatedHeader(S, window, l) && LocatedSequence(S, l)
  }

  /** The header line and the extent of the record. */
  ghost predicate LocatedHeader(S: seq<byte>, window: nat, l: Located)
  {
    && window <= |S| && |S| > 0 && S[0] == GT
    && FindByte(S, LF, 0) == Some(l.p)
    && l.headerEnd == (if l.p > 0 && S[l.p - 1] == CR then l.p - 1 else l.p)
    && l.seqStart == l.p + 1 <= l.seqEnd <= l.recEnd <= window
    && l.recEnd == RecordEnd(S, l.p + 1)
  }

  /** The kept breaks cut the line breaks out of the sequence block. */
  ghost predicate LocatedSequence(S: seq<byte>, l: Located)
  {
    && l.seqStart <= l.seqEnd <= l.recEnd <= |S|
    && Increasing(l.kept) && (forall k :: 0 <= k < |l.kept| ==> l.kept[k] < l.seqEnd - l.seqStart)
    && WithoutFrom(S[l.seqStart..l.seqEnd], l.kept, 0) == RemoveBreaks(S[l.seqStart..l.recEnd])
  }

  /** The header and extent of a record whose end is in the window `w`,
      with more input `t` after the window. */
  lemma HeaderFound(w: seq<byte>, t: seq<byte>, p: nat, q: nat, l: Located)
    requires |w| > 0 && w[0] == GT && FindByte(w, LF, 0) == Some(p)
    requires FirstRecordEnd(w, p + 1) == Some(q)
    requires l.p == p && l.headerEnd == (if p > 0 && w[p - 1] == CR then p - 1 else p)
    requires l.seqStart == p + 1 <= l.seqEnd <= l.recEnd == q + 1
    ensures LocatedHeader(w + t, |w|, l)
  {
    FindByteExtend(w, t, LF, 0);
    FirstRecordEndExtend(w, t, p + 1);
  }

  /** The sequence of a record whose end is in the window. */
  lemma SequenceFound(w: seq<byte>, t: seq<byte>, seqStart: nat, recEnd: nat, span: seq<byte>, kept: seq<nat>, e: nat, l: Located)
    requires seqStart <= recEnd <= |w| && span == w[seqStart..recEnd] && e <= |span|
    requires Increasing(kept) && forall k :: 0 <= k < |kept| ==> kept[k] < e
    requires WithoutFrom(span[..e], kept, 0) == RemoveBreaks(span)
    requires l.seqStart == seqStart && l.seqEnd == seqStart + e && l.recEnd == recEnd && l.kept == kept
    ensures LocatedSequence(w + t, l)
  {
    var S := w + t;
    var a := S[l.seqStart..l.seqEnd];
    var b := S[l.seqStart..l.recEnd];
    assert a == span[..e] by {
      AppendSlice(w, t, seqStart, seqStart + e);
      SliceOfSlice(w, seqStart, recEnd, e);
    }
    assert b == span by {
      AppendSlice(w, t, seqStart, recEnd);
    }
    assert WithoutFrom(a, kept, 0) == RemoveBreaks(b);
  }

  /** The header and extent of a record that runs to the end of the input. */
  lemma HeaderAtEnd(w: seq<byte>, p: nat, l: Located)
    requires |w| > 0 && w[0] == GT && FindByte(w, LF, 0) == Some(p)
    requires FirstRecordEnd(w, p + 1).None?
    requires l.p == p && l.headerEnd == (if p > 0 && w[p - 1] == CR then p - 1 else p)
    requires l.seqStart == p + 1 && l.seqEnd == l.recEnd == |w|
    ensures LocatedHeader(w, |w|, l)
  {
    assert RecordEnd(w, p + 1) == |w|;
  }

  /** The sequence of a record that runs to the end of the input. */
  lemma SequenceAtEnd(w: seq<byte>, p: nat, newlines: seq<nat>, l: Located)
    requires p < |w|
    requires newlines == BreaksIn(w[p + 1..], 0, |w| - (p + 1))
    requires l.seqStart == p + 1 && l.seqEnd == l.recEnd == |w| && l.kept == newlines
    ensures LocatedSequence(w, l)
  {
    var span := w[p + 1..];
    assert span == w[p + 1..|w|];
    assert Increasing(newlines) && forall k :: 0 <= k < |newlines| ==> newlines[k] < |span| by {
      BreaksInOrder(span, 0, |span|);
    }
    assert WithoutFrom(span, newlines, 0) == RemoveBreaks(span) by {
      WithoutIsRemoveBreaks(span, |span|, 0);
      assert span[..|span|] == span;
    }
  }

  /** The `loop` of `get`: refills until the window holds the header line
      and the end of the record (or the source ends), then trims the
      trailing breaks. */
  method Locate(rb: ReadBuffer) returns (r: Result<Located>)
    requires rb.Valid() && |rb.data| > 0 && rb.data[0] == GT
    modifies rb
    ensures rb.Valid() && rb.Stream() == old(rb.Stream()) && rb.chunk == old(rb.chunk)
    ensures rb.readerPos == old(rb.readerPos) && rb.recordPos == old(rb.recordPos)
    ensures rb.data != []
    ensures r.Err? <==> FindByte(rb.Stream(), LF, 0).None?
    ensures r.Err? ==> r.error == Malformed("Incomplete record")
    ensures r.Ok? ==> LocatedIn(rb.Stream(), |rb.data|, r.value)
    ensures r.Ok? ==> r.value.recEnd < |rb.data| || rb.Stream() == rb.data
  {
    ghost var S := rb.Stream();
    var newlines: seq<nat> := [];
    var p: nat, headerEnd: nat, seqStart: nat;
    var found: bool, q: nat;
    while true
      invariant rb.Valid() && rb.Stream() == S && rb.chunk == old(rb.chunk)
      invariant rb.readerPos == old(rb.readerPos) && rb.recordPos == old(rb.recordPos)
      invariant |rb.data| > 0 && rb.data[0] == GT
      invariant newlines == []
      decreases rb.Pending()
    {
      var lf := FindByte(rb.data, LF, 0);
      if lf.None? {
        if rb.eof {
          assert S == rb.data;
          return Err(Malformed("Incomplete record"));
        }
        var _ := rb.Refill();
        continue;
      }
      p := lf.value;
      headerEnd, seqStart := if p > 0 && rb.data[p - 1] == CR then p - 1 else p, p + 1;
      var f: bool, e: nat;
      newlines, f, e := ScanSequence(rb.data, seqStart);
      if !f && !rb.eof {
        var _ := rb.Refill();
        newlines := [];
        continue;
      }
      found, q := f, e;
      break;
    }
    assert headerEnd == if p > 0 && rb.data[p - 1] == CR then p - 1 else p;
    var l := Delimit(rb.data, rb.rest, p, newlines, found, q);
    r := Ok(l);
  }

  /** The end of the `loop` of `get`: the extent of the record once the
      scan is over, with the trailing breaks popped. `t` is the input after
      the window, empty when no record end was found. */
  method Delimit(w: seq<byte>, ghost t: seq<byte>, p: nat, newlines: seq<nat>, found: bool, q: nat)
    returns (l: Located)
    requires |w| > 0 && w[0] == GT && FindByte(w, LF, 0) == Some(p)
    requires found ==> FirstRecordEnd(w, p + 1) == Some(q) && newlines == BreaksIn(w[p + 1..q + 1], 0, q - p)
    requires !found ==> t == [] && FirstRecordEnd(w, p + 1).None?
    requires !found ==> newlines == BreaksIn(w[p + 1..], 0, |w| - (p + 1))
    ensures LocatedIn(w + t, |w|, l)
    ensures l.p == p && l.headerEnd == (if p > 0 && w[p - 1] == CR then p - 1 else p)
    ensures l.recEnd < |w| || t == []
  {
    if found {
      l := DelimitFound(w, t, p, newlines, q);
    } else {
      l := DelimitAtEnd(w, p, newlines);
      assert w + t == w;
    }
  }

  /** `Delimit` when the scan met the end `q` of the record: the trailing
      breaks are popped and the sequence ends where they begin. */
  method DelimitFound(w: seq<byte>, ghost t: seq<byte>, p: nat, newlines: seq<nat>, q: nat)
    returns (l: Located)
    requires |w| > 0 && w[0] == GT && FindByte(w, LF, 0) == Some(p)
    requires FirstRecordEnd(w, p + 1) == Some(q) && newlines == BreaksIn(w[p + 1..q + 1], 0, q - p)
    ensures LocatedIn(w + t, |w|, l)
    ensures l.p == p && l.headerEnd == (if p > 0 && w[p - 1] == CR then p - 1 else p)
    ensures l.recEnd < |w|
  {
    var headerEnd := if p > 0 && w[p - 1] == CR then p - 1 else p;
    var seqStart := p + 1;
    ghost var span := w[seqStart..q + 1];
    FoundSpan(w, p, q, span);
    var kept, e := TrimTrailingBreaks(newlines, span);
    l := Located(p, headerEnd, seqStart, seqStart + e, q + 1, kept);
    FoundLocated(w, t, p, q, span, kept, e, l);
  }

  /** The sequence block of a record whose end is in the window ends with
      the line feed of that end. */
  lemma FoundSpan(w: seq<byte>, p: nat, q: nat, span: seq<byte>)
    requires FirstRecordEnd(w, p + 1) == Some(q) && span == w[p + 1..q + 1]
    ensures q + 1 < |w| && |span| == q - p > 0 && span[|span| - 1] == LF
  {
  }

  /** A record whose end is in the window, with its trailing breaks trimmed,
      is located in any input that continues the window. */
  lemma FoundLocated(w: seq<byte>, t: seq<byte>, p: nat, q: nat, span: seq<byte>, kept: seq<nat>, e: nat, l: Located)
    requires |w| > 0 && w[0] == GT && FindByte(w, LF, 0) == Some(p)
    requires FirstRecordEnd(w, p + 1) == Some(q) && span == w[p + 1..q + 1] && e < |span|
    requires Increasing(kept) && forall k :: 0 <= k < |kept| ==> kept[k] < e
    requires WithoutFrom(span[..e], kept, 0) == RemoveBreaks(span)
    requires l == Located(p, if p > 0 && w[p - 1] == CR then p - 1 else p, p + 1, p + 1 + e, q + 1, kept)
    ensures LocatedIn(w + t, |w|, l) && l.recEnd < |w|
  {
    HeaderFound(w, t, p, q, l);
    SequenceFound(w, t, p + 1, q + 1, span, kept, e, l);
  }

  /** `Delimit` when the window holds the rest of the input: the record runs
      to its end and every break in its sequence is left out. */
  method DelimitAtEnd(w: seq<byte>, p: nat, newlines: seq<nat>) returns (l: Located)
    requires |w| > 0 && w[0] == GT && FindByte(w, LF, 0) == Some(p)
    requires FirstRecordEnd(w, p + 1).None? && newlines == BreaksIn(w[p + 1..], 0, |w| - (p + 1))
    ensures LocatedIn(w, |w|, l)
    ensures l.p == p && l.headerEnd == (if p > 0 && w[p - 1] == CR then p - 1 else p)
  {
    var headerEnd := if p > 0 && w[p - 1] == CR then p - 1 else p;
    l := Located(p, headerEnd, p + 1, |w|, |w|, newlines);
    assert LocatedHeader(w, |w|, l) by {
      HeaderAtEnd(w, p, l);
    }
    assert LocatedSequence(w, l) by {
      SequenceAtEnd(w, p, newlines, l);
    }
  }

  /** `FromBuffer::get` for a FASTA record: on a window that is not empty it
      reads the record at the front of the remaining input as `NextRecord`
      describes it, refilling as needed, and consumes it. */
  method Get(rb: ReadBuffer) returns (r: Result<Option<FastaRecord>>)
    requires rb.Valid()
    modifies rb
    ensures rb.Valid() && rb.chunk == old(rb.chunk) && rb.recordPos == old(rb.recordPos)
    ensures old(rb.data) == [] ==> r == Ok(None) && rb.Stream() == old(rb.Stream())
    ensures old(rb.data) == [] ==> rb.readerPos == old(rb.readerPos)
    ensures old(rb.data) != [] ==> r == NextRecord(old(rb.Stream())).result
    ensures old(rb.data) != [] ==> rb.Stream() == old(rb.Stream())[NextRecord(old(rb.Stream())).consumed..]
    ensures old(rb.data) != [] ==> rb.readerPos == old(rb.readerPos) + NextRecord(old(rb.Stream())).consumed
    ensures old(rb.data) != [] ==> rb.Primed()
  {
    if |rb.data| == 0 {
      return Ok(None);
    }
    if rb.data[0] != GT {
      return Err(Malformed("Valid FASTA records start with '>'"));
    }
    ghost var S := rb.Stream();
    assert S[0] == GT;
    var loc := Locate(rb);
    if loc.Err? {
      assert S[0..] == S;
      return Err(loc.error);
    }
    var l := loc.value;
    assert NextRecord(S) == RecordUpTo(S, l.p, l.recEnd);
    r := Take(rb, l);
  }

  /** Consumes the record `l` locates at the front of the window and builds
      it: the header without '>' and the sequence with its line breaks
      removed, rejected when the header is not UTF-8. */
  method Take(rb: ReadBuffer, l: Located) returns (r: Result<Option<FastaRecord>>)
    requires rb.Valid() && LocatedIn(rb.Stream(), |rb.data|, l)
    requires l.recEnd < |rb.data| || rb.rest == []
    modifies rb
    ensures rb.Valid() && rb.chunk == old(rb.chunk) && rb.recordPos == old(rb.recordPos)
    ensures 0 < l.p < l.recEnd <= |old(rb.Stream())| && old(rb.Stream())[0] == GT
    ensures r == RecordUpTo(old(rb.Stream()), l.p, l.recEnd).result
    ensures rb.Stream() == old(rb.Stream())[l.recEnd..]
    ensures rb.readerPos == old(rb.readerPos) + l.recEnd
    ensures rb.Primed()
  {
    ghost var S := rb.Stream();
    var record := rb.Consume(l.recEnd);
    assert record == S[..l.recEnd];
    var header := record[1..l.headerEnd];
    var raw := record[l.seqStart..l.seqEnd];
    SliceOfPrefix(S, l.recEnd, 1, l.headerEnd);
    SliceOfPrefix(S, l.recEnd, l.seqStart, l.seqEnd);
    var sequence: seq<byte>;
    if l.kept == [] {
      sequence := raw;
    } else {
      sequence := Reassemble(raw, l.kept);
    }
    assert sequence == WithoutFrom(raw, l.kept, 0);
    TakenRecord(S, |old(rb.data)|, l, header, sequence);
    var id := FromUtf8(header);
    if id.Err? {
      r := Err(id.error);
    } else {
      r := Ok(Some(FastaRecord(id.value, sequence)));
    }
  }

  /** The record a located extent stands for: its header after '>' and its
      sequence with the kept breaks cut out. */
  lemma TakenRecord(S: seq<byte>, window: nat, l: Located, header: seq<byte>, sequence: seq<byte>)
    requires LocatedIn(S, window, l)
    requires header == S[1..l.headerEnd] && sequence == WithoutFrom(S[l.seqStart..l.seqEnd], l.kept, 0)
    ensures 0 < l.p < l.recEnd <= |S| && S[0] == GT
    ensures RecordUpTo(S, l.p, l.recEnd).result
         == if ValidUtf8(header) then Ok(Some(FastaRecord(header, sequence))) else Err(Malformed("invalid utf-8"))
  {
  }

  /** The record handed to callers: FASTA has no quality line. */
  datatype SequenceRecord = SequenceRecord(id: seq<byte>, sequence: seq<byte>, quality: Option<seq<byte>>)

  function AsSequenceRecord(r: Result<Option<FastaRecord>>): Result<Option<SequenceRecord>>
  {
    match r
    case Err(e) => Err(e)
    case Ok(None) => Ok(None)
    case Ok(Some(rec)) => Ok(Some(SequenceRecord(rec.id, rec.sequence, None)))
  }

  class FastaReader {
    var rb: ReadBuffer

    ghost predicate Valid()
      reads this, rb
    {
      rb.Valid() && rb.Primed()
    }

    constructor (rb: ReadBuffer)
      requires rb.Valid() && rb.Primed()
      ensures this.rb == rb && Valid()
    {
      this.rb := rb;
    }

    /** The next record of the input, or nothing at its end. */
    method Next() returns (r: Result<Option<SequenceRecord>>)
      requires Valid()
      modifies rb
      ensures Valid()
      ensures r == AsSequenceRecord(NextRecord(old(rb.Stream())).result)
      ensures rb.Stream() == old(rb.Stream())[NextRecord(old(rb.Stream())).consumed..]
    {
      var rec := Get(rb);
      r := AsSequenceRecord(rec);
    }
  }
}
