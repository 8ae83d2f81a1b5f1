/** Decoding one BAM alignment record: the 32 bytes of fixed fields, then the
    variable-length block holding the query name, the CIGAR operations, the
    packed bases and the quality scores (section 4.2 of the Sequence
    Alignment/Map Format Specification). */
module BamRecords {
  import opened Errors
  import opened Bytes
  import opened Buffer
  import opened Bam

  /** "MIDNSHP=X": the CIGAR operation letters. */
  const OPS: seq<byte> := [77, 73, 68, 78, 83, 72, 80, 61, 88]

  /** "=ACMGRSVTWYHKDBN": the base each 4-bit code stands for. */
  const BASES: seq<byte> := [61, 65, 67, 77, 71, 82, 83, 86, 84, 87, 89, 72, 75, 68, 66, 78]

  datatype BamRecord = BamRecord(
    queryName: seq<byte>,
    flag: nat,
    refName: seq<byte>,
    pos: Option<nat>,
    mapq: Option<nat>,
    cigar: seq<byte>,
    rnext: seq<byte>,
    pnext: Option<nat>,
    tlen: int,
    sequence: seq<byte>,
    quality: seq<byte>,
    extra: seq<byte>)

  /** The fixed-size fields, as read from the first 32 bytes. */
  datatype Fixed = Fixed(
    refName: seq<byte>,
    pos: Option<nat>,
    nameLen: nat,
    mapq: Option<nat>,
    cigarOps: nat,
    flag: nat,
    seqLen: nat,
    rnext: seq<byte>,
    pnext: Option<nat>,
    tlen: int)

  // ---------------------------------------------------------------------------
  // The fixed fields

  /** The reference name a signed reference ID selects: empty for a negative
      ID, nothing for an ID past the end of the list. */
  function RefName(id: int, refs: seq<Reference>): (r: Option<seq<byte>>)
    ensures r.None? <==> id >= |refs|
    ensures id < 0 ==> r == Some([])
    ensures 0 <= id < |refs| ==> r == Some(refs[id].name)
  {
    if id < 0 then Some([])
    else if id >= |refs| then None
    else Some(refs[id].name)
  }

  /** A signed 32-bit position: -1 stands for "none", anything else is cast
      to an unsigned integer below `limit` (`as u64`, `as u32`), so the other
      negative values wrap around. */
  function Position(v: int, limit: nat): (r: Option<nat>)
    requires I32_MIN <= v < -I32_MIN && limit >= U32_LIMIT
    ensures r.None? <==> v == -1
    ensures r.Some? ==> r.value < limit && (r.value - v) % limit == 0
    ensures r.Some? && v >= 0 ==> r.value == v
  {
    if v == -1 then None else Some(CastUnsigned(v, limit))
  }

  /** The fixed fields at the front of the stream `s`, in the order they are
      read; a bad reference ID is reported as soon as its four bytes are
      read, before the source is found short. */
  function FixedFields(s: seq<byte>, refs: seq<Reference>): (r: Result<(Fixed, seq<byte>)>)
    ensures r.Ok? ==> |s| >= 32 && r.value.1 == s[32..]
    ensures |s| < 4 ==> r == Err(EndOfData)
  {
    if |s| < 4 then Err(EndOfData)
    else
      var refName := RefName(AsI32(LE(s[..4])), refs);
      if refName.None? then Err(Malformed("Invalid reference sequence ID"))
      else if |s| < 24 then Err(EndOfData)
      else
        var rnext := RefName(AsI32(LE(s[20..24])), refs);
        if rnext.None? then Err(Malformed("Invalid next reference sequence ID"))
        else if |s| < 32 then Err(EndOfData)
        else
          Ok((Fixed(refName.value, Position(AsI32(LE(s[4..8])), U64_LIMIT), s[8],
                    if s[9] == 255 then None else Some(s[9] as nat),
                    LE(s[12..14]), LE(s[14..16]), LE(s[16..20]), rnext.value,
                    Position(AsI32(LE(s[24..28])), U32_LIMIT), AsI32(LE(s[28..32]))),
              s[32..]))
  }

  /** The two reference checks: an ID past the end of the reference list
      fails as soon as it is read, the reference ID before the next one. */
  lemma FixedErrors(s: seq<byte>, refs: seq<Reference>)
    ensures |s| >= 4 && RefName(AsI32(LE(s[..4])), refs).None?
            ==> FixedFields(s, refs) == Err(Malformed("Invalid reference sequence ID"))
    ensures |s| >= 24 && RefName(AsI32(LE(s[..4])), refs).Some? && RefName(AsI32(LE(s[20..24])), refs).None?
            ==> FixedFields(s, refs) == Err(Malformed("Invalid next reference sequence ID"))
  {
  }

  /** What decoded fixed fields hold: the names the two IDs select (empty
      for a negative one), the one-byte name length, the mapping quality
      with 255 read as none, the two-byte operation count and flag, the
      four-byte sequence length, and a next position cast to `u32`. */
  lemma FixedValues(s: seq<byte>, refs: seq<Reference>)
    requires FixedFields(s, refs).Ok?
    ensures |s| >= 32
    ensures RefName(AsI32(LE(s[..4])), refs) == Some(FixedFields(s, refs).value.0.refName)
    ensures RefName(AsI32(LE(s[20..24])), refs) == Some(FixedFields(s, refs).value.0.rnext)
    ensures AsI32(LE(s[..4])) < 0 ==> FixedFields(s, refs).value.0.refName == []
    ensures FixedFields(s, refs).value.0.mapq.None? <==> s[9] == 255
    ensures FixedFields(s, refs).value.0.mapq.Some? ==> FixedFields(s, refs).value.0.mapq.value == s[9]
    ensures FixedFields(s, refs).value.0.nameLen == s[8]
    ensures FixedFields(s, refs).value.0.cigarOps == LE(s[12..14])
    ensures FixedFields(s, refs).value.0.flag == LE(s[14..16])
    ensures FixedFields(s, refs).value.0.seqLen == LE(s[16..20])
    ensures FixedFields(s, refs).value.0.pnext.None? <==> AsI32(LE(s[24..28])) == -1
    ensures FixedFields(s, refs).value.0.pnext.Some? ==> FixedFields(s, refs).value.0.pnext.value < U32_LIMIT
  {
  }

  // ---------------------------------------------------------------------------
  // The variable-length block

  /** One CIGAR operation as text: its length in decimal, then its letter,
      chosen by the low three bits of the code. */
  function CigarOp(op: nat): (r: seq<byte>)
  {
    Decimal(op / 16) + [OPS[op % 8]]
  }

  /** `n` CIGAR operations of four little-endian bytes each from `start` on,
      appended to `acc`, with the offset after them. */
  function Cigar(data: seq<byte>, start: nat, n: nat, acc: seq<byte>): (r: Result<(seq<byte>, nat)>)
    requires start <= |data|
    ensures r.Ok? ==> r.value.1 == start + 4 * n && r.value.1 <= |data|
    ensures r.Err? ==> r.error == EndOfData && |data| < start + 4 * n
    decreases n
  {
    if n == 0 then Ok((acc, start))
    else if |data| - start < 4 then Err(EndOfData)
    else Cigar(data, start + 4, n - 1, acc + CigarOp(LE(data[start..start + 4])))
  }

  /** The 4-bit code of base `i` of a packed sequence: the high half of a
      byte first. */
  function Code(data: seq<byte>, start: nat, i: nat): (c: nat)
    requires start + i / 2 < |data|
    ensures c < 16
  {
    if i % 2 == 0 then data[start + i / 2] / 16 else data[start + i / 2] % 16
  }

  /** The `n` bases packed two to a byte from `start` on. */
  function Bases(data: seq<byte>, start: nat, n: nat): (r: seq<byte>)
    requires n == 0 || start + (n - 1) / 2 < |data|
    ensures |r| == n
  {
    seq(n, i requires 0 <= i < n => BASES[Code(data, start, i)])
  }

  /** The quality scores at `q`: none when the first byte is 255, otherwise
      `n` bytes each raised by 33 into printable Phred+33.  Reading past the
      block and a byte of 223 or more (whose sum overflows a byte) abort. */
  function Quality(data: seq<byte>, q: nat, n: nat): (r: Result<seq<byte>>)
    ensures r.Ok? ==> q < |data| && (data[q] == 255 ==> r.value == [])
    ensures r.Ok? && data[q] != 255 ==> q + n <= |data| && |r.value| == n
    ensures r.Ok? && data[q] != 255 ==> forall i :: 0 <= i < n ==> r.value[i] as int == data[q + i] as int + 33
  {
    if q >= |data| then Err(Panic("index out of bounds"))
    else if data[q] == 255 then Ok([])
    else if q + n > |data| then Err(Panic("range end index out of range"))
    else if exists i :: q <= i < q + n && data[i] >= 223 then Err(Panic("attempt to add with overflow"))
    else Ok(seq(n, i requires 0 <= i < n => data[q + i] + 33))
  }

  /** The variable-length block `data` of a record with fixed fields `f`:
      the query name, then the CIGAR operations. */
  function Variable(f: Fixed, data: seq<byte>): (r: Result<BamRecord>)
    ensures f.nameLen > |data| ==> r == Err(Malformed("Invalid query name length"))
    ensures f.nameLen <= |data| < f.nameLen + 4 * f.cigarOps ==> r == Err(EndOfData)
    ensures r.Ok? ==> f.nameLen + 4 * f.cigarOps + f.seqLen / 2 < |data|
    ensures r.Ok? ==> |r.value.sequence| == f.seqLen && r.value.extra == []
  {
    if f.nameLen > |data| then Err(Malformed("Invalid query name length"))
    else match Cigar(data, f.nameLen, f.cigarOps, [])
      case Err(e) => Err(e)
      case Ok((cigar, start)) => Sequence(f, data, cigar, start)
  }

  /** The rest of the block from `start`, where the bases begin: the length
      check, then the quality scores. */
  function Sequence(f: Fixed, data: seq<byte>, cigar: seq<byte>, start: nat): (r: Result<BamRecord>)
    requires f.nameLen <= start <= |data|
    ensures start + f.seqLen / 2 >= |data| ==> r == Err(Malformed("Record ended abruptly while reading sequence"))
    ensures r.Ok? ==> start + f.seqLen / 2 < |data| && |r.value.sequence| == f.seqLen && r.value.extra == []
    ensures r.Ok? ==> r.value.quality == [] || |r.value.quality| == f.seqLen
  {
    if start + f.seqLen / 2 >= |data| then Err(Malformed("Record ended abruptly while reading sequence"))
    else match Quality(data, start + (f.seqLen + 1) / 2, f.seqLen)
      case Err(e) => Err(e)
      case Ok(quality) => Assemble(f, data, cigar, Bases(data, start, f.seqLen), quality)
  }

  /** Where the query name ends: before its NUL terminator when it has one. */
  function NameEnd(data: seq<byte>, nameLen: nat): (e: nat)
    requires nameLen <= |data|
    ensures e == nameLen || e == nameLen - 1
    ensures e < nameLen <==> nameLen > 0 && data[nameLen - 1] == 0
  {
    if nameLen > 0 && data[nameLen - 1] == 0 then nameLen - 1 else nameLen
  }

  /** The record, once the query name is found to be UTF-8. */
  function Assemble(f: Fixed, data: seq<byte>, cigar: seq<byte>, sequence: seq<byte>, quality: seq<byte>): (r: Result<BamRecord>)
    requires f.nameLen <= |data|
    ensures r.Ok? <==> ValidUtf8(data[..NameEnd(data, f.nameLen)])
    ensures r.Err? ==> r.error == Malformed("invalid utf-8")
    ensures r.Ok? ==> r.value.queryName == data[..NameEnd(data, f.nameLen)] && r.value.extra == []
    ensures r.Ok? ==> r.value.cigar == cigar && r.value.sequence == sequence && r.value.quality == quality
    ensures r.Ok? ==> r.value.flag == f.flag && r.value.refName == f.refName && r.value.pos == f.pos
    ensures r.Ok? ==> r.value.mapq == f.mapq && r.value.rnext == f.rnext && r.value.pnext == f.pnext && r.value.tlen == f.tlen
  {
    var name := data[..NameEnd(data, f.nameLen)];
    if !ValidUtf8(name) then Err(Malformed("invalid utf-8"))
    else Ok(BamRecord(name, f.flag, f.refName, f.pos, f.mapq, cigar, f.rnext, f.pnext, f.tlen, sequence, quality, []))
  }

  /** A record of `recordLen` bytes (the length field excluded) at the front
      of the stream `s`, and the stream after it. */
  function Record(s: seq<byte>, recordLen: nat, refs: seq<Reference>): (r: Result<(BamRecord, seq<byte>)>)
    ensures recordLen < 32 ==> r == Err(Malformed("Record is unexpectedly short"))
    ensures r.Ok? ==> |s| >= recordLen && r.value.1 == s[recordLen..]
  {
    if recordLen < 32 then Err(Malformed("Record is unexpectedly short"))
    else match FixedFields(s, refs)
      case Err(e) => Err(e)
      case Ok((f, t)) =>
        if |t| < recordLen - 32 then Err(EndOfData)
        else match Variable(f, t[..recordLen - 32])
          case Err(e) => Err(e)
          case Ok(rec) => Ok((rec, t[recordLen - 32..]))
  }

  /** One step of the BAM reader over the stream `s`, whose first byte is at
      offset `at`, after `index` records: nothing at the end of the stream,
      otherwise a 32-bit record length and the record.  A short length field
      is reported as it is; errors in the record are tagged with the offset
      of its length field and its 1-based number. */
  function NextBam(s: seq<byte>, refs: seq<Reference>, at: nat, index: nat): (r: Result<Option<(BamRecord, seq<byte>)>>)
    ensures r == Ok(None) <==> s == []
    ensures 0 < |s| < 4 ==> r == Err(EndOfData)
    ensures r.Ok? && r.value.Some? ==> |s| >= 4 && |s| >= 4 + LE(s[..4]) && r.value.value.1 == s[4 + LE(s[..4])..]
    ensures |s| >= 4 && r.Err? && r.error.Fail? ==> r.error.byte == Some(at) && r.error.record == Some(index + 1)
  {
    if s == [] then Ok(None)
    else if |s| < 4 then Err(EndOfData)
    else match Record(s[4..], LE(s[..4]), refs)
      case Err(e) => Err(Locate(e, at, index + 1))
      case Ok((rec, rest)) => Ok(Some((rec, rest)))
  }

  // ---------------------------------------------------------------------------
  // CIGAR operations

  /** An operation of length `len` and code `code`, as a writer packs it. */
  function OpCode(len: nat, code: nat): nat
  {
    len * 16 + code
  }

  /** The operations `ops` as a writer lays them out, four bytes each. */
  function CigarBytes(ops: seq<nat>): (r: seq<byte>)
    requires forall i :: 0 <= i < |ops| ==> ops[i] < U32_LIMIT
    ensures |r| == 4 * |ops|
  {
    if |ops| == 0 then [] else U32(ops[0]) + CigarBytes(ops[1..])
  }

  /** The text of the operations `ops`, one after the other. */
  function CigarText(ops: seq<nat>): seq<byte>
  {
    if |ops| == 0 then [] else CigarOp(ops[0]) + CigarText(ops[1..])
  }

  /** The operation text is the length in decimal followed by the letter of
      the code; code 8, `X` in the format, comes out as `M`, and `X` never
      appears. */
  lemma CigarOpText(len: nat, code: nat)
    requires code < 9
    ensures CigarOp(OpCode(len, code)) == Decimal(len) + [if code == 8 then 77 else OPS[code]]
    ensures CigarOp(OpCode(len, code))[|CigarOp(OpCode(len, code))| - 1] != 88
  {
    var op := OpCode(len, code);
    OpCodeParts(len, code);
    var letter := if code == 8 then 77 else OPS[code];
    assert OPS[op % 8] == letter;
    assert CigarOp(op) == Decimal(len) + [letter];
  }

  lemma OpCodeParts(len: nat, code: nat)
    requires code < 16
    ensures OpCode(len, code) / 16 == len && OpCode(len, code) % 8 == code % 8
  {
  }

  /** Written operations found between `start` and `end` read back as their
      text and the offset after them. */
  lemma {:induction false} CigarRead(data: seq<byte>, start: nat, end: nat, ops: seq<nat>, n: nat, acc: seq<byte>)
    requires forall i :: 0 <= i < |ops| ==> ops[i] < U32_LIMIT
    requires n == |ops| && end == start + 4 * n && end <= |data|
    requires data[start..end] == CigarBytes(ops)
    ensures Cigar(data, start, n, acc) == Ok((acc + CigarText(ops), end))
    decreases n
  {
    if n == 0 {
      assert acc + CigarText(ops) == acc;
    } else {
      SliceSplit(data, start, start + 4, end, U32(ops[0]), CigarBytes(ops[1..]));
      CigarRead(data, start + 4, end, ops[1..], n - 1, acc + CigarOp(ops[0]));
      assert acc + CigarOp(ops[0]) + CigarText(ops[1..]) == acc + CigarText(ops);
    }
  }

  /** Reading written operations gives their text and the offset after them,
      whatever precedes and follows them in the block. */
  lemma CigarRoundTrip(ops: seq<nat>, pre: seq<byte>, post: seq<byte>, acc: seq<byte>)
    requires forall i :: 0 <= i < |ops| ==> ops[i] < U32_LIMIT
    ensures Cigar(pre + CigarBytes(ops) + post, |pre|, |ops|, acc) == Ok((acc + CigarText(ops), |pre| + 4 * |ops|))
  {
    var data := pre + CigarBytes(ops) + post;
    assert data[|pre|..|pre| + 4 * |ops|] == CigarBytes(ops);
    CigarRead(data, |pre|, |pre| + 4 * |ops|, ops, |ops|, acc);
  }

  // ---------------------------------------------------------------------------
  // Packed bases

  /** The 4-bit codes `codes` packed two to a byte, the first in the high
      half; an odd last code leaves the low half zero. */
  function Pack(codes: seq<nat>): (r: seq<byte>)
    requires forall i :: 0 <= i < |codes| ==> codes[i] < 16
    ensures |r| == (|codes| + 1) / 2
    decreases |codes|
  {
    if |codes| == 0 then []
    else if |codes| == 1 then [codes[0] * 16]
    else [codes[0] * 16 + codes[1]] + Pack(codes[2..])
  }

  lemma {:induction false} PackCode(codes: seq<nat>, pre: seq<byte>, post: seq<byte>, i: nat)
    requires forall k :: 0 <= k < |codes| ==> codes[k] < 16
    requires i < |codes|
    ensures |pre| + i / 2 < |pre + Pack(codes) + post|
    ensures Code(pre + Pack(codes) + post, |pre|, i) == codes[i]
    decreases i
  {
    var data := pre + Pack(codes) + post;
    if i >= 2 {
      var pre' := pre + [codes[0] * 16 + codes[1]];
      assert data == pre' + Pack(codes[2..]) + post;
      PackCode(codes[2..], pre', post, i - 2);
      assert |pre'| + (i - 2) / 2 == |pre| + i / 2;
    } else {
      assert data[|pre|] == if |codes| == 1 then codes[0] * 16 else codes[0] * 16 + codes[1];
    }
  }

  /** The bases 4-bit codes stand for. */
  function Letters(codes: seq<nat>): (r: seq<byte>)
    requires forall k :: 0 <= k < |codes| ==> codes[k] < 16
    ensures |r| == |codes|
  {
    seq(|codes|, i requires 0 <= i < |codes| => BASES[codes[i]])
  }

  /** Unpacking packed codes gives the bases they stand for, whatever
      precedes and follows them in the block. */
  lemma BasesRoundTrip(codes: seq<nat>, pre: seq<byte>, post: seq<byte>)
    requires forall k :: 0 <= k < |codes| ==> codes[k] < 16
    requires |codes| > 0
    ensures |pre| + (|codes| - 1) / 2 < |pre + Pack(codes) + post|
    ensures Bases(pre + Pack(codes) + post, |pre|, |codes|) == Letters(codes)
  {
    var data := pre + Pack(codes) + post;
    forall i | 0 <= i < |codes|
      ensures Code(data, |pre|, i) == codes[i]
    {
      PackCode(codes, pre, post, i);
    }
  }

  // ---------------------------------------------------------------------------
  // Quality scores and whole blocks

  /** Scores as printable Phred+33 text. */
  function Phred33(phred: seq<byte>): (r: seq<byte>)
    requires forall i :: 0 <= i < |phred| ==> phred[i] < 223
    ensures |r| == |phred|
  {
    seq(|phred|, i requires 0 <= i < |phred| => phred[i] + 33)
  }

  /** Scores below 223 stored at `q` read back raised by 33. */
  lemma QualityRoundTrip(data: seq<byte>, q: nat, phred: seq<byte>)
    requires |phred| > 0 && forall i :: 0 <= i < |phred| ==> phred[i] < 223
    requires q + |phred| <= |data| && data[q..q + |phred|] == phred
    ensures Quality(data, q, |phred|) == Ok(Phred33(phred))
  {
    var n := |phred|;
    assert data[q] == phred[0];
    assert forall i :: q <= i < q + n ==> data[i] == phred[i - q];
    assert !exists i :: q <= i < q + n && data[i] >= 223;
    assert seq(n, i requires 0 <= i < n => data[q + i] + 33) == Phred33(phred);
  }

  /** A variable-length block as a writer lays it out: the query name with
      its NUL, the CIGAR operations, the packed bases, the scores. */
  function VariableBytes(name: seq<byte>, ops: seq<nat>, codes: seq<nat>, phred: seq<byte>): seq<byte>
    requires forall i :: 0 <= i < |ops| ==> ops[i] < U32_LIMIT
    requires forall i :: 0 <= i < |codes| ==> codes[i] < 16
  {
    name + [0] + CigarBytes(ops) + Pack(codes) + phred
  }

  /** Once the operations are read, the block decodes as its remainder from
      where the bases begin. */
  lemma VariableStart(f: Fixed, data: seq<byte>, cigar: seq<byte>, start: nat)
    requires f.nameLen <= |data|
    requires Cigar(data, f.nameLen, f.cigarOps, []) == Ok((cigar, start))
    ensures f.nameLen <= start <= |data|
    ensures Variable(f, data) == Sequence(f, data, cigar, start)
  {
  }

  /** With the length check passed and the scores read, the remainder
      decodes as the record assembled from its parts. */
  lemma SequenceParts(f: Fixed, data: seq<byte>, cigar: seq<byte>, start: nat, sequence: seq<byte>, quality: seq<byte>)
    requires f.nameLen <= start <= |data|
    requires start + f.seqLen / 2 < |data|
    requires Bases(data, start, f.seqLen) == sequence
    requires Quality(data, start + (f.seqLen + 1) / 2, f.seqLen) == Ok(quality)
    ensures Sequence(f, data, cigar, start) == Assemble(f, data, cigar, sequence, quality)
  {
  }

  /** Fewer bytes after the operations than the bases need is the
      abrupt-end error. */
  lemma SequenceShort(f: Fixed, data: seq<byte>, cigar: seq<byte>, start: nat)
    requires f.nameLen <= start <= |data| && start + f.seqLen / 2 >= |data|
    ensures Sequence(f, data, cigar, start) == Err(Malformed("Record ended abruptly while reading sequence"))
  {
  }

  /** A record whose query name is UTF-8 is assembled without error. */
  lemma AssembleName(f: Fixed, data: seq<byte>, name: seq<byte>, cigar: seq<byte>, sequence: seq<byte>, quality: seq<byte>)
    requires f.nameLen <= |data|
    requires NameEnd(data, f.nameLen) == |name| && data[..|name|] == name && ValidUtf8(name)
    ensures Assemble(f, data, cigar, sequence, quality)
         == Ok(BamRecord(name, f.flag, f.refName, f.pos, f.mapq, cigar, f.rnext, f.pnext, f.tlen, sequence, quality, []))
  {
  }

  /** Where the bases begin in a block with fixed fields `f`, once the
      operations are read. */
  function BasesStart(f: Fixed): nat
  {
    f.nameLen + 4 * f.cigarOps
  }

  lemma NameFacts(data: seq<byte>, name: seq<byte>, nameLen: nat)
    requires nameLen == |name| + 1 && nameLen <= |data| && data[..nameLen] == name + [0]
    ensures NameEnd(data, nameLen) == |name| && data[..|name|] == name
  {
    assert data[nameLen - 1] == (name + [0])[|name|];
    assert data[..|name|] == data[..nameLen][..|name|];
  }

  lemma BlockCigar(f: Fixed, name: seq<byte>, ops: seq<nat>, codes: seq<nat>, phred: seq<byte>)
    requires forall i :: 0 <= i < |ops| ==> ops[i] < U32_LIMIT
    requires forall i :: 0 <= i < |codes| ==> codes[i] < 16
    requires f.nameLen == |name| + 1 && f.cigarOps == |ops|
    ensures f.nameLen <= |VariableBytes(name, ops, codes, phred)|
    ensures Cigar(VariableBytes(name, ops, codes, phred), f.nameLen, f.cigarOps, []) == Ok((CigarText(ops), BasesStart(f)))
  {
    var data := VariableBytes(name, ops, codes, phred);
    assert data == (name + [0]) + CigarBytes(ops) + (Pack(codes) + phred);
    CigarRoundTrip(ops, name + [0], Pack(codes) + phred, []);
    assert [] + CigarText(ops) == CigarText(ops);
  }

  lemma BlockBases(f: Fixed, name: seq<byte>, ops: seq<nat>, codes: seq<nat>, phred: seq<byte>)
    requires forall i :: 0 <= i < |ops| ==> ops[i] < U32_LIMIT
    requires forall i :: 0 <= i < |codes| ==> codes[i] < 16
    requires f.nameLen == |name| + 1 && f.cigarOps == |ops| && f.seqLen == |codes| == |phred| > 0
    ensures f.nameLen <= BasesStart(f) <= |VariableBytes(name, ops, codes, phred)|
    ensures BasesStart(f) + f.seqLen / 2 < |VariableBytes(name, ops, codes, phred)|
    ensures Bases(VariableBytes(name, ops, codes, phred), BasesStart(f), f.seqLen) == Letters(codes)
  {
    var pre := name + [0] + CigarBytes(ops);
    assert VariableBytes(name, ops, codes, phred) == pre + Pack(codes) + phred;
    BasesRoundTrip(codes, pre, phred);
  }

  lemma BlockQuality(f: Fixed, name: seq<byte>, ops: seq<nat>, codes: seq<nat>, phred: seq<byte>)
    requires forall i :: 0 <= i < |ops| ==> ops[i] < U32_LIMIT
    requires forall i :: 0 <= i < |codes| ==> codes[i] < 16
    requires forall i :: 0 <= i < |phred| ==> phred[i] < 223
    requires f.nameLen == |name| + 1 && f.cigarOps == |ops| && f.seqLen == |codes| == |phred| > 0
    ensures Quality(VariableBytes(name, ops, codes, phred), BasesStart(f) + (f.seqLen + 1) / 2, f.seqLen)
         == Ok(Phred33(phred))
  {
    var data := VariableBytes(name, ops, codes, phred);
    var pre := name + [0] + CigarBytes(ops) + Pack(codes);
    var q := BasesStart(f) + (f.seqLen + 1) / 2;
    assert data == pre + phred && |pre| == q;
    assert data[q..q + |phred|] == phred;
    QualityRoundTrip(data, q, phred);
  }

  lemma BlockName(f: Fixed, name: seq<byte>, ops: seq<nat>, codes: seq<nat>, phred: seq<byte>)
    requires forall i :: 0 <= i < |ops| ==> ops[i] < U32_LIMIT
    requires forall i :: 0 <= i < |codes| ==> codes[i] < 16
    requires f.nameLen == |name| + 1
    ensures f.nameLen <= |VariableBytes(name, ops, codes, phred)|
    ensures NameEnd(VariableBytes(name, ops, codes, phred), f.nameLen) == |name|
    ensures VariableBytes(name, ops, codes, phred)[..|name|] == name
  {
    var data := VariableBytes(name, ops, codes, phred);
    assert data == (name + [0]) + (CigarBytes(ops) + Pack(codes) + phred);
    assert data[..|name| + 1] == name + [0];
    NameFacts(data, name, |name| + 1);
  }

  /** The bases and scores of a written block decode as the codes and
      scores written. */
  lemma BlockSequence(f: Fixed, name: seq<byte>, ops: seq<nat>, codes: seq<nat>, phred: seq<byte>)
    requires forall i :: 0 <= i < |ops| ==> ops[i] < U32_LIMIT
    requires forall i :: 0 <= i < |codes| ==> codes[i] < 16
    requires forall i :: 0 <= i < |phred| ==> phred[i] < 223
    requires ValidUtf8(name) && f.nameLen == |name| + 1 && f.cigarOps == |ops|
    requires f.seqLen == |codes| == |phred| > 0
    ensures f.nameLen <= BasesStart(f) <= |VariableBytes(name, ops, codes, phred)|
    ensures Sequence(f, VariableBytes(name, ops, codes, phred), CigarText(ops), BasesStart(f))
         == Assemble(f, VariableBytes(name, ops, codes, phred), CigarText(ops), Letters(codes), Phred33(phred))
  {
    BlockBases(f, name, ops, codes, phred);
    BlockQuality(f, name, ops, codes, phred);
    SequenceParts(f, VariableBytes(name, ops, codes, phred), CigarText(ops), BasesStart(f), Letters(codes), Phred33(phred));
  }

  /** A block written from a UTF-8 name, operations, at least one base and
      as many scores below 223 reads back as those fields. */
  lemma VariableRoundTrip(f: Fixed, name: seq<byte>, ops: seq<nat>, codes: seq<nat>, phred: seq<byte>)
    requires forall i :: 0 <= i < |ops| ==> ops[i] < U32_LIMIT
    requires forall i :: 0 <= i < |codes| ==> codes[i] < 16
    requires forall i :: 0 <= i < |phred| ==> phred[i] < 223
    requires ValidUtf8(name) && f.nameLen == |name| + 1 && f.cigarOps == |ops|
    requires f.seqLen == |codes| == |phred| > 0
    ensures Variable(f, VariableBytes(name, ops, codes, phred))
         == Ok(BamRecord(name, f.flag, f.refName, f.pos, f.mapq, CigarText(ops), f.rnext, f.pnext, f.tlen,
                         Letters(codes), Phred33(phred), []))
  {
    BlockCigar(f, name, ops, codes, phred);
    VariableStart(f, VariableBytes(name, ops, codes, phred), CigarText(ops), BasesStart(f));
    BlockSequence(f, name, ops, codes, phred);
    BlockName(f, name, ops, codes, phred);
    AssembleName(f, VariableBytes(name, ops, codes, phred), name, CigarText(ops), Letters(codes), Phred33(phred));
  }

  /** Operations that end the block read back to its end. */
  lemma CigarWhole(ops: seq<nat>, pre: seq<byte>)
    requires forall i :: 0 <= i < |ops| ==> ops[i] < U32_LIMIT
    ensures Cigar(pre + CigarBytes(ops), |pre|, |ops|, []) == Ok((CigarText(ops), |pre + CigarBytes(ops)|))
  {
    CigarRoundTrip(ops, pre, [], []);
    assert pre + CigarBytes(ops) + [] == pre + CigarBytes(ops);
    assert [] + CigarText(ops) == CigarText(ops);
  }

  /** A record with no bases and so no quality bytes, as the format allows,
      is refused: the sequence check wants a byte after the operations. */
  lemma EmptySequenceRefused(f: Fixed, name: seq<byte>, ops: seq<nat>)
    requires forall i :: 0 <= i < |ops| ==> ops[i] < U32_LIMIT
    requires f.nameLen == |name| + 1 && f.cigarOps == |ops| && f.seqLen == 0
    ensures Variable(f, name + [0] + CigarBytes(ops)) == Err(Malformed("Record ended abruptly while reading sequence"))
  {
    var data := name + [0] + CigarBytes(ops);
    CigarWhole(ops, name + [0]);
    VariableStart(f, data, CigarText(ops), |data|);
    SequenceShort(f, data, CigarText(ops), |data|);
  }

  /** One base and no quality byte: the sequence check lets it through
      (it counts half the bases, rounded down) and reading the quality
      marker then indexes past the block. */
  lemma OddSequencePanics()
    ensures Variable(Fixed([], None, 0, None, 0, 0, 1, [], None, 0), [0x10]) == Err(Panic("index out of bounds"))
  {
    assert Cigar([0x10], 0, 0, []) == Ok(([], 0));
  }

  /** Two bases and a single quality byte: slicing the scores runs past the
      block. */
  lemma ShortQualityPanics()
    ensures Variable(Fixed([], None, 0, None, 0, 0, 2, [], None, 0), [0x12, 5]) == Err(Panic("range end index out of range"))
  {
    assert Cigar([0x12, 5], 0, 0, []) == Ok(([], 0));
  }

  /** A quality byte of 223 or more overflows when raised by 33. */
  lemma HighQualityPanics()
    ensures Variable(Fixed([], None, 0, None, 0, 0, 1, [], None, 0), [0x10, 230]) == Err(Panic("attempt to add with overflow"))
  {
    var data: seq<byte> := [0x10, 230];
    assert Cigar(data, 0, 0, []) == Ok(([], 0));
    assert data[1] >= 223;
  }

  // ---------------------------------------------------------------------------
  // Writing the fixed fields and whole records

  /** The signed value a writer stores for an optional position: -1 for
      none. */
  function RawPosition(p: Option<nat>): (v: int)
    ensures p.None? <==> v == -1
    ensures p.Some? ==> v == p.value
  {
    if p.None? then -1 else p.value
  }

  /** Fixed fields a writer can lay out: positions that are non-negative
      `i32`s, a one-byte name length, a mapping quality below the 255 that
      stands for none, two-byte counts and flag, a `u32` sequence length and
      an `i32` template length. */
  predicate Encodable(f: Fixed)
  {
    (f.pos.Some? ==> f.pos.value < -I32_MIN) && f.nameLen < U8_LIMIT
    && (f.mapq.Some? ==> f.mapq.value < 255) && f.cigarOps < U16_LIMIT && f.flag < U16_LIMIT
    && f.seqLen < U32_LIMIT && (f.pnext.Some? ==> f.pnext.value < -I32_MIN) && I32_MIN <= f.tlen < -I32_MIN
  }

  /** The 32 bytes of fixed fields as a writer lays them out, with the
      reference IDs `refId` and `nextId` and the index bin `bin`. */
  function FixedBytes(f: Fixed, refId: int, nextId: int, bin: nat): (r: seq<byte>)
    requires Encodable(f) && I32_MIN <= refId < -I32_MIN && I32_MIN <= nextId < -I32_MIN && bin < U16_LIMIT
    ensures |r| == 32
  {
    I32(refId) + I32(RawPosition(f.pos)) + [f.nameLen as byte, if f.mapq.None? then 255 else f.mapq.value as byte] + U16(bin)
    + U16(f.cigarOps) + U16(f.flag) + U32(f.seqLen)
    + I32(nextId) + I32(RawPosition(f.pnext)) + I32(f.tlen)
  }

  /** Fixed fields whose bytes hold the given raw values decode as `f`. */
  lemma FixedRead(s: seq<byte>, f: Fixed, refId: int, nextId: int, refs: seq<Reference>)
    requires |s| >= 32 && Encodable(f)
    requires AsI32(LE(s[..4])) == refId && AsI32(LE(s[20..24])) == nextId
    requires RefName(refId, refs) == Some(f.refName) && RefName(nextId, refs) == Some(f.rnext)
    requires AsI32(LE(s[4..8])) == RawPosition(f.pos) && AsI32(LE(s[24..28])) == RawPosition(f.pnext)
    requires s[8] == f.nameLen && s[9] == (if f.mapq.None? then 255 else f.mapq.value)
    requires LE(s[12..14]) == f.cigarOps && LE(s[14..16]) == f.flag && LE(s[16..20]) == f.seqLen
    requires AsI32(LE(s[28..32])) == f.tlen
    ensures FixedFields(s, refs) == Ok((f, s[32..]))
  {
  }

  /** Where each field of a fixed block laid out piece by piece lies. */
  lemma FixedLaid(id: seq<byte>, pos: seq<byte>, nameLen: byte, mapq: byte, bin: seq<byte>, ops: seq<byte>,
                  flag: seq<byte>, seqLen: seq<byte>, next: seq<byte>, pnext: seq<byte>, tlen: seq<byte>, rest: seq<byte>)
    requires |id| == |pos| == |seqLen| == |next| == |pnext| == |tlen| == 4 && |bin| == |ops| == |flag| == 2
    ensures var s := id + pos + [nameLen, mapq] + bin + ops + flag + seqLen + next + pnext + tlen + rest;
            |s| >= 32 && s[..4] == id && s[4..8] == pos && s[8] == nameLen && s[9] == mapq
            && s[12..14] == ops && s[14..16] == flag && s[16..20] == seqLen
            && s[20..24] == next && s[24..28] == pnext && s[28..32] == tlen && s[32..] == rest
  {
  }

  /** Written fixed fields read back as the fields, followed by whatever
      comes after them, when both IDs name the references the fields
      hold. */
  lemma FixedRoundTrip(f: Fixed, refId: int, nextId: int, bin: nat, refs: seq<Reference>, rest: seq<byte>)
    requires Encodable(f) && I32_MIN <= refId < -I32_MIN && I32_MIN <= nextId < -I32_MIN && bin < U16_LIMIT
    requires RefName(refId, refs) == Some(f.refName) && RefName(nextId, refs) == Some(f.rnext)
    ensures FixedFields(FixedBytes(f, refId, nextId, bin) + rest, refs) == Ok((f, rest))
  {
    FixedLaid(I32(refId), I32(RawPosition(f.pos)), f.nameLen, if f.mapq.None? then 255 else f.mapq.value, U16(bin),
              U16(f.cigarOps), U16(f.flag), U32(f.seqLen), I32(nextId), I32(RawPosition(f.pnext)), I32(f.tlen), rest);
    FixedRead(FixedBytes(f, refId, nextId, bin) + rest, f, refId, nextId, refs);
  }

  /** Fixed fields followed by a block that decodes make the record. */
  lemma RecordParts(t0: seq<byte>, block: seq<byte>, rest: seq<byte>, refs: seq<Reference>, f: Fixed, rec: BamRecord)
    requires FixedFields(t0, refs) == Ok((f, block + rest)) && Variable(f, block) == Ok(rec)
    ensures Record(t0, |block| + 32, refs) == Ok((rec, rest))
  {
    assert (block + rest)[..|block|] == block && (block + rest)[|block|..] == rest;
  }

  /** A record after a length field that gives its size is the next record
      of the stream. */
  lemma NextBamOf(len: seq<byte>, t: seq<byte>, refs: seq<Reference>, at: nat, index: nat, rec: BamRecord, rest: seq<byte>)
    requires |len| == 4 && Record(t, LE(len), refs) == Ok((rec, rest))
    ensures NextBam(len + t, refs, at, index) == Ok(Some((rec, rest)))
  {
    assert (len + t)[..4] == len && (len + t)[4..] == t;
  }

  /** A length field, fixed fields that decode and a block of the size the
      length gives that decodes make the next record of the stream. */
  lemma RecordFrom(s: seq<byte>, len: seq<byte>, fixed: seq<byte>, block: seq<byte>, rest: seq<byte>, refs: seq<Reference>,
                   f: Fixed, rec: BamRecord, at: nat, index: nat)
    requires s == len + fixed + block + rest
    requires |len| == 4 && LE(len) == 32 + |block|
    requires FixedFields(fixed + (block + rest), refs) == Ok((f, block + rest))
    requires Variable(f, block) == Ok(rec)
    ensures NextBam(s, refs, at, index) == Ok(Some((rec, rest)))
  {
    RecordParts(fixed + (block + rest), block, rest, refs, f, rec);
    NextBamOf(len, fixed + (block + rest), refs, at, index, rec, rest);
    AppendAssoc(fixed, block, rest);
    AppendAssoc(len, fixed, block);
    AppendAssoc(len, fixed + block, rest);
  }

  /** A written record, after four bytes that give its size as a
      little-endian `u32` and followed by anything, is the next record of
      the stream and leaves exactly what follows it. */
  lemma RecordRoundTrip(f: Fixed, refId: int, nextId: int, bin: nat, refs: seq<Reference>,
                        name: seq<byte>, ops: seq<nat>, codes: seq<nat>, phred: seq<byte>,
                        len: seq<byte>, rest: seq<byte>, at: nat, index: nat)
    requires Encodable(f) && I32_MIN <= refId < -I32_MIN && I32_MIN <= nextId < -I32_MIN && bin < U16_LIMIT
    requires RefName(refId, refs) == Some(f.refName) && RefName(nextId, refs) == Some(f.rnext)
    requires forall i :: 0 <= i < |ops| ==> ops[i] < U32_LIMIT
    requires forall i :: 0 <= i < |codes| ==> codes[i] < 16
    requires forall i :: 0 <= i < |phred| ==> phred[i] < 223
    requires ValidUtf8(name) && f.nameLen == |name| + 1 && f.cigarOps == |ops|
    requires f.seqLen == |codes| == |phred| > 0
    requires |len| == 4 && LE(len) == 32 + |VariableBytes(name, ops, codes, phred)|
    ensures NextBam(len + FixedBytes(f, refId, nextId, bin) + VariableBytes(name, ops, codes, phred) + rest, refs, at, index)
         == Ok(Some((BamRecord(name, f.flag, f.refName, f.pos, f.mapq, CigarText(ops), f.rnext, f.pnext, f.tlen,
                               Letters(codes), Phred33(phred), []), rest)))
  {
    var v := VariableBytes(name, ops, codes, phred);
    var fb := FixedBytes(f, refId, nextId, bin);
    FixedRoundTrip(f, refId, nextId, bin, refs, v + rest);
    VariableRoundTrip(f, name, ops, codes, phred);
    RecordFrom(len + fb + v + rest, len, fb, v, rest, refs, f,
               BamRecord(name, f.flag, f.refName, f.pos, f.mapq, CigarText(ops), f.rnext, f.pnext, f.tlen,
                         Letters(codes), Phred33(phred), []), at, index);
  }

}
