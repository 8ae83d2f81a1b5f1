/** The BAM record reader: `extract_bam_record` and the `get` that takes one
    record from the buffer, written as the step-by-step code they are and
    proved to decode what `BamRecords` specifies. */
module BamReader {
  import opened Errors
  import opened Bytes
  import opened Buffer
  import opened Bam
  import opened BamRecords

  /** The next `w` bytes of the stream, when the stream is `s0` from offset
      `k` on; an incomplete error when fewer are left. */
  method TakeAt(rb: ReadBuffer, ghost s0: seq<byte>, k: nat, w: nat) returns (r: Result<seq<byte>>)
    requires rb.Valid() && k <= |s0| && rb.Stream() == s0[k..]
    modifies rb
    ensures rb.Valid() && rb.chunk == old(rb.chunk) && rb.recordPos == old(rb.recordPos)
    ensures r.Ok? <==> k + w <= |s0|
    ensures r.Ok? ==> r.value == s0[k..k + w] && k + w <= |s0| && rb.Stream() == s0[k + w..]
    ensures r.Err? ==> r.error == EndOfData
  {
    r := rb.ExtractBytes(w);
    if r.Ok? {
      assert s0[k..][..w] == s0[k..k + w] && s0[k..][w..] == s0[k + w..];
    }
  }

  lemma LEOne(s: seq<byte>, i: nat)
    requires i < |s|
    ensures LE(s[i..i + 1]) == s[i]
  {
    assert s[i..i + 1][1..] == [];
  }

  /** The position, the name length, the mapping quality and the index bin,
      which is read and dropped. */
  method ReadPlacement(rb: ReadBuffer, ghost s: seq<byte>) returns (r: Result<(nat, nat, nat)>)
    requires rb.Valid() && 4 <= |s| && rb.Stream() == s[4..]
    modifies rb
    ensures rb.Valid() && rb.chunk == old(rb.chunk) && rb.recordPos == old(rb.recordPos)
    ensures r.Ok? <==> 12 <= |s|
    ensures r.Ok? ==> rb.Stream() == s[12..] && r.value == (LE(s[4..8]), s[8], s[9])
    ensures r.Err? ==> r.error == EndOfData
  {
    var pos := TakeAt(rb, s, 4, 4);
    if pos.Err? { return Err(pos.error); }
    var nameLen := TakeAt(rb, s, 8, 1);
    if nameLen.Err? { return Err(nameLen.error); }
    var mapq := TakeAt(rb, s, 9, 1);
    if mapq.Err? { return Err(mapq.error); }
    var bin := TakeAt(rb, s, 10, 2);
    if bin.Err? { return Err(bin.error); }
    LEOne(s, 8);
    LEOne(s, 9);
    r := Ok((LE(pos.value), LE(nameLen.value), LE(mapq.value)));
  }

  /** The operation count, the flag and the sequence length. */
  method ReadSizes(rb: ReadBuffer, ghost s: seq<byte>) returns (r: Result<(nat, nat, nat)>)
    requires rb.Valid() && 12 <= |s| && rb.Stream() == s[12..]
    modifies rb
    ensures rb.Valid() && rb.chunk == old(rb.chunk) && rb.recordPos == old(rb.recordPos)
    ensures r.Ok? <==> 20 <= |s|
    ensures r.Ok? ==> rb.Stream() == s[20..] && r.value == (LE(s[12..14]), LE(s[14..16]), LE(s[16..20]))
    ensures r.Err? ==> r.error == EndOfData
  {
    var cigarOps := TakeAt(rb, s, 12, 2);
    if cigarOps.Err? { return Err(cigarOps.error); }
    var flag := TakeAt(rb, s, 14, 2);
    if flag.Err? { return Err(flag.error); }
    var seqLen := TakeAt(rb, s, 16, 4);
    if seqLen.Err? { return Err(seqLen.error); }
    r := Ok((LE(cigarOps.value), LE(flag.value), LE(seqLen.value)));
  }

  /** The next-reference ID, checked as soon as it is read, then the
      next position and the template length. */
  method ReadMate(rb: ReadBuffer, ghost s: seq<byte>, refs: seq<Reference>)
    returns (r: Result<(seq<byte>, Option<nat>, int)>)
    requires rb.Valid() && 20 <= |s| && rb.Stream() == s[20..]
    modifies rb
    ensures rb.Valid() && rb.chunk == old(rb.chunk) && rb.recordPos == old(rb.recordPos)
    ensures |s| < 24 ==> r == Err(EndOfData)
    ensures |s| >= 24 && RefName(AsI32(LE(s[20..24])), refs).None? ==> r == Err(Malformed("Invalid next reference sequence ID"))
    ensures |s| >= 24 && RefName(AsI32(LE(s[20..24])), refs).Some? && |s| < 32 ==> r == Err(EndOfData)
    ensures |s| >= 32 && RefName(AsI32(LE(s[20..24])), refs).Some? ==>
              r == Ok((RefName(AsI32(LE(s[20..24])), refs).value, Position(AsI32(LE(s[24..28])), U32_LIMIT), AsI32(LE(s[28..32]))))
              && rb.Stream() == s[32..]
  {
    var rnextId := TakeAt(rb, s, 20, 4);
    if rnextId.Err? { return Err(rnextId.error); }
    var rnext := RefName(AsI32(LE(rnextId.value)), refs);
    if rnext.None? { return Err(Malformed("Invalid next reference sequence ID")); }
    var pnext := TakeAt(rb, s, 24, 4);
    if pnext.Err? { return Err(pnext.error); }
    var tlen := TakeAt(rb, s, 28, 4);
    if tlen.Err? { return Err(tlen.error); }
    r := Ok((rnext.value, Position(AsI32(LE(pnext.value)), U32_LIMIT), AsI32(LE(tlen.value))));
  }

  /** The fixed fields, read one after the other as the source does: the
      reference ID is checked as soon as it is read, the next-reference ID
      after the 24 bytes before it. */
  method ReadFixed(rb: ReadBuffer, refs: seq<Reference>) returns (r: Result<Fixed>)
    requires rb.Valid()
    modifies rb
    ensures rb.Valid() && rb.chunk == old(rb.chunk) && rb.recordPos == old(rb.recordPos)
    ensures r.Ok? <==> FixedFields(old(rb.Stream()), refs).Ok?
    ensures r.Ok? ==> (r.value, rb.Stream()) == FixedFields(old(rb.Stream()), refs).value
    ensures r.Err? ==> r.error == FixedFields(old(rb.Stream()), refs).error
  {
    ghost var s := rb.Stream();
    var id := TakeAt(rb, s, 0, 4);
    if id.Err? { return Err(id.error); }
    var refName := RefName(AsI32(LE(id.value)), refs);
    if refName.None? { return Err(Malformed("Invalid reference sequence ID")); }
    var placement := ReadPlacement(rb, s);
    if placement.Err? { return Err(placement.error); }
    var (pos, nameLen, mapq) := placement.value;
    var sizes := ReadSizes(rb, s);
    if sizes.Err? { return Err(sizes.error); }
    var (cigarOps, flag, seqLen) := sizes.value;
    var mate := ReadMate(rb, s, refs);
    if mate.Err? { return Err(mate.error); }
    var (rnext, pnext, tlen) := mate.value;
    r := Ok(Fixed(refName.value, Position(AsI32(pos), U64_LIMIT), nameLen,
                  if mapq == 255 then None else Some(mapq),
                  cigarOps, flag, seqLen, rnext, pnext, tlen));
  }

  // ---------------------------------------------------------------------------
  // The variable-length block

  /** One more operation read leaves the rest of the reading unchanged. */
  lemma CigarCarry(data: seq<byte>, start: nat, left: nat, acc: seq<byte>)
    requires left > 0 && start + 4 <= |data|
    ensures Cigar(data, start, left, acc) == Cigar(data, start + 4, left - 1, acc + CigarOp(LE(data[start..start + 4])))
  {
  }

  /** The CIGAR loop: `n` operations from `start` on, each rendered as its
      length in decimal and its letter; an operation cut short by the end of
      the block is an incomplete error. */
  method ReadCigar(data: seq<byte>, start: nat, n: nat) returns (r: Result<(seq<byte>, nat)>)
    requires start <= |data|
    ensures r == Cigar(data, start, n, [])
  {
    var cigar: seq<byte> := [];
    var at: nat := start;
    var left: nat := n;
    while left > 0
      invariant at <= |data|
      invariant Cigar(data, start, n, []) == Cigar(data, at, left, cigar)
    {
      if |data| - at < 4 {
        return Err(EndOfData);
      }
      var op := LE(data[at..at + 4]);
      CigarCarry(data, at, left, cigar);
      var text := Decimal(op / 16) + [OPS[op % 8]];
      cigar := cigar + text;
      at := at + 4;
      left := left - 1;
    }
    r := Ok((cigar, at));
  }

  /** The base loop: each code unpacked, high half first, and looked up in
      "=ACMGRSVTWYHKDBN", into a fresh array as long as the sequence. */
  method ReadBases(data: seq<byte>, start: nat, n: nat) returns (bases: seq<byte>)
    requires start + n / 2 < |data|
    ensures bases == Bases(data, start, n)
  {
    var a := new byte[n];
    for idx := 0 to n
      invariant forall k :: 0 <= k < idx ==> a[k] == BASES[Code(data, start, k)]
    {
      var b := data[start + idx / 2];
      var code := if idx % 2 == 0 then b / 16 else b % 16;
      a[idx] := BASES[code];
    }
    bases := a[..];
    assert forall k :: 0 <= k < n ==> bases[k] == Bases(data, start, n)[k];
  }

  /** The quality scores at `q`: none for a leading 255, otherwise each of
      the next `n` bytes raised by 33, aborting on a byte past the block or
      a sum past 255. */
  method ReadQuality(data: seq<byte>, q: nat, n: nat) returns (r: Result<seq<byte>>)
    ensures r == Quality(data, q, n)
  {
    if q >= |data| {
      return Err(Panic("index out of bounds"));
    }
    if data[q] == 255 {
      return Ok([]);
    }
    if q + n > |data| {
      return Err(Panic("range end index out of range"));
    }
    var scores: seq<byte> := [];
    for i := 0 to n
      invariant |scores| == i
      invariant forall k :: q <= k < q + i ==> data[k] < 223
      invariant forall k :: 0 <= k < i ==> scores[k] == data[q + k] + 33
    {
      if data[q + i] >= 223 {
        assert q <= q + i < q + n && data[q + i] >= 223;
        return Err(Panic("attempt to add with overflow"));
      }
      scores := scores + [data[q + i] + 33];
    }
    assert scores == seq(n, i requires 0 <= i < n => data[q + i] + 33);
    r := Ok(scores);
  }

  /** The variable-length block of a record with fixed fields `f`: the query
      name (without its NUL) and the CIGAR loop, then the rest. */
  method ReadVariable(f: Fixed, data: seq<byte>) returns (r: Result<BamRecord>)
    ensures r == Variable(f, data)
  {
    if f.nameLen > |data| {
      return Err(Malformed("Invalid query name length"));
    }
    var queryName := data[..f.nameLen];
    if f.nameLen > 0 && queryName[f.nameLen - 1] == 0 {
      queryName := queryName[..f.nameLen - 1];
    }
    var ops := ReadCigar(data, f.nameLen, f.cigarOps);
    if ops.Err? {
      return Err(ops.error);
    }
    var (cigar, start) := ops.value;
    VariableStart(f, data, cigar, start);
    r := ReadSequence(f, data, queryName, cigar, start);
  }

  /** The rest of the block from `start`: the sequence length check, the
      base loop, the quality scores and, last, the UTF-8 check of the name. */
  method ReadSequence(f: Fixed, data: seq<byte>, queryName: seq<byte>, cigar: seq<byte>, start: nat)
    returns (r: Result<BamRecord>)
    requires f.nameLen <= start <= |data|
    requires queryName == data[..NameEnd(data, f.nameLen)]
    ensures r == Sequence(f, data, cigar, start)
  {
    if start + f.seqLen / 2 >= |data| {
      return Err(Malformed("Record ended abruptly while reading sequence"));
    }
    var sequence := ReadBases(data, start, f.seqLen);
    var quality := ReadQuality(data, start + (f.seqLen + 1) / 2, f.seqLen);
    if quality.Err? {
      return Err(quality.error);
    }
    var name := FromUtf8(queryName);
    if name.Err? {
      return Err(name.error);
    }
    r := Ok(BamRecord(name.value, f.flag, f.refName, f.pos, f.mapq, cigar, f.rnext, f.pnext, f.tlen,
                      sequence, quality.value, []));
  }

  // ---------------------------------------------------------------------------
  // Whole records

  /** `extract_bam_record`: a record of `recordLen` bytes after its length
      field: the fixed fields from the stream, then the rest of the record
      taken from the stream at once and decoded. */
  method ExtractRecord(rb: ReadBuffer, recordLen: nat, refs: seq<Reference>) returns (r: Result<BamRecord>)
    requires rb.Valid()
    modifies rb
    ensures rb.Valid() && rb.chunk == old(rb.chunk) && rb.recordPos == old(rb.recordPos)
    ensures r.Ok? <==> Record(old(rb.Stream()), recordLen, refs).Ok?
    ensures r.Ok? ==> (r.value, rb.Stream()) == Record(old(rb.Stream()), recordLen, refs).value
    ensures r.Err? ==> r.error == Record(old(rb.Stream()), recordLen, refs).error
  {
    if recordLen < 32 {
      return Err(Malformed("Record is unexpectedly short"));
    }
    ghost var s := rb.Stream();
    var f := ReadFixed(rb, refs);
    if f.Err? {
      return Err(f.error);
    }
    ghost var t := rb.Stream();
    var data := rb.ExtractBytes(recordLen - 32);
    if data.Err? {
      return Err(data.error);
    }
    assert data.value == t[..recordLen - 32] && rb.Stream() == t[recordLen - 32..];
    r := ReadVariable(f.value, data.value);
  }

  /** `get` for a BAM record: a refill (each record may start a new
      compressed block), nothing at the end of the data, otherwise the
      record length and the record; errors in the record, but not in its
      length, are tagged with where the record starts. */
  method NextRecord(rb: ReadBuffer, state: BamState) returns (r: Result<Option<BamRecord>>)
    requires rb.Valid()
    modifies rb
    ensures rb.Valid() && rb.chunk == old(rb.chunk) && rb.recordPos == old(rb.recordPos)
    ensures var spec := NextBam(old(rb.Stream()), state.references, old(rb.readerPos), old(rb.recordPos));
            (r.Err? <==> spec.Err?) && (r.Err? ==> r.error == spec.error)
            && (r.Ok? ==> (r.value.None? <==> spec.value.None?))
            && (r.Ok? && r.value.Some? ==> spec.value.value == (r.value.value, rb.Stream()))
  {
    ghost var s := rb.Stream();
    var _ := rb.Refill();
    if |rb.data| == 0 && rb.eof {
      return Ok(None);
    }
    var byte, record := rb.readerPos, rb.recordPos;
    var recordLen := rb.ExtractLE(4);
    if recordLen.Err? {
      return Err(recordLen.error);
    }
    var rec := ExtractRecord(rb, recordLen.value, state.references);
    if rec.Err? {
      return Err(Locate(rec.error, byte, record + 1));
    }
    r := Ok(Some(rec.value));
  }
}
