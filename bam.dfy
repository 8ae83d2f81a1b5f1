/** The BAM reader: the binary header with its list of reference sequences,
    and the alignment records that follow it, each a 32-byte block of fixed
    fields and a block of variable-length ones (section 4.2 of the Sequence
    Alignment/Map Format Specification). */
module Bam {
  import opened Errors
  import opened Bytes
  import opened Buffer

  /** "BAM\1" */
  const MAGIC: seq<byte> := [66, 65, 77, 1]

  datatype Reference = Reference(name: seq<byte>, length: nat)

  /** What the reader keeps from the header: the reference list. */
  datatype BamState = BamState(references: seq<Reference>)

  // ---------------------------------------------------------------------------
  // The header

  /** The fixed part of the header at the front of the stream `s`: the magic,
      the header text and the number of references; with the stream left
      after it. */
  function Preamble(s: seq<byte>): (r: Result<(nat, seq<byte>)>)
    ensures r.Ok? ==> |s| >= 12 && s[..4] == MAGIC && |r.value.1| <= |s| - 12
    ensures |s| >= 4 && s[..4] != MAGIC ==> r == Err(Malformed("Not a valid BAM file"))
  {
    if |s| < 4 then Err(EndOfData)
    else if s[..4] != MAGIC then Err(Malformed("Not a valid BAM file"))
    else SkipText(s[4..])
  }

  /** The header text length, the text, and the reference count.  The text is
      skipped when the source holds all of it; when it does not, the failed
      extraction is ignored and the count is read right after the length. */
  function SkipText(u: seq<byte>): (r: Result<(nat, seq<byte>)>)
    ensures r.Ok? ==> |r.value.1| + 8 <= |u|
  {
    if |u| < 4 then Err(EndOfData)
    else
      var textLen := LE(u[..4]);
      var v := u[4..];
      var w := if textLen <= |v| then v[textLen..] else v;
      if |w| < 4 then Err(EndOfData)
      else Ok((LE(w[..4]), w[4..]))
  }

  /** The header at the front of the stream `s`: its references, and the
      stream left after it. */
  function Header(s: seq<byte>): (r: Result<(seq<Reference>, seq<byte>)>)
    ensures |s| < 4 ==> r == Err(EndOfData)
    ensures |s| >= 4 && s[..4] != MAGIC ==> r == Err(Malformed("Not a valid BAM file"))
    ensures r.Ok? ==> Preamble(s).Ok? && |r.value.0| == Preamble(s).value.0
    ensures r.Ok? ==> forall i :: 0 <= i < |r.value.0| ==> ValidUtf8(r.value.0[i].name)
  {
    match Preamble(s)
    case Err(e) => Err(e)
    case Ok((count, rest)) => References(rest, count, [])
  }

  /** The reference entry at the front of `t` and the stream after it: the
      name length, the name (without its NUL terminator when it has one, and
      UTF-8 checked) and the sequence length. */
  function OneReference(t: seq<byte>): (r: Result<(Reference, seq<byte>)>)
    ensures r.Ok? ==> |r.value.1| + 8 <= |t| && ValidUtf8(r.value.0.name)
  {
    if |t| < 4 then Err(EndOfData)
    else
      var nameLen := LE(t[..4]);
      if |t| < 4 + nameLen then Err(EndOfData)
      else
        var nameEnd := if nameLen > 0 && t[3 + nameLen] == 0 then 3 + nameLen else 4 + nameLen;
        var name := t[4..nameEnd];
        if !ValidUtf8(name) then Err(Malformed("invalid utf-8"))
        else if |t| < 8 + nameLen then Err(EndOfData)
        else Ok((Reference(name, LE(t[4 + nameLen..8 + nameLen])), t[8 + nameLen..]))
  }

  /** `n` more references at the front of `t`, after the ones in `acc`, and
      the stream left after them. */
  function References(t: seq<byte>, n: nat, acc: seq<Reference>): (r: Result<(seq<Reference>, seq<byte>)>)
    ensures r.Ok? ==> |r.value.1| <= |t|
    ensures r.Ok? ==> |r.value.0| == |acc| + n && r.value.0[..|acc|] == acc
    ensures r.Ok? ==> forall i :: |acc| <= i < |r.value.0| ==> ValidUtf8(r.value.0[i].name)
    ensures r.Err? ==> n > 0
    decreases n
  {
    if n == 0 then Ok((acc, t))
    else match OneReference(t)
      case Err(e) => Err(e)
      case Ok((ref, rest)) => References(rest, n - 1, acc + [ref])
  }

  /** `BamState::get`: checks the magic, skips the header text and reads the
      reference list, leaving the stream at the first record. */
  method ReadState(rb: ReadBuffer) returns (r: Result<BamState>)
    requires rb.Valid()
    modifies rb
    ensures rb.Valid() && rb.chunk == old(rb.chunk) && rb.recordPos == old(rb.recordPos)
    ensures r.Err? ==> Header(old(rb.Stream())) == Err(r.error)
    ensures r.Ok? ==> Header(old(rb.Stream())) == Ok((r.value.references, rb.Stream()))
    ensures r.Ok? ==> rb.readerPos == old(rb.readerPos) + (|old(rb.Stream())| - |rb.Stream()|)
  {
    var count := ReadPreamble(rb);
    if count.Err? {
      return Err(count.error);
    }
    var refs := ReadReferences(rb, count.value);
    if refs.Err? {
      return Err(refs.error);
    }
    return Ok(BamState(refs.value));
  }

  /** The magic, the header text (skipped) and the reference count. */
  method ReadPreamble(rb: ReadBuffer) returns (r: Result<nat>)
    requires rb.Valid()
    modifies rb
    ensures rb.Valid() && rb.chunk == old(rb.chunk) && rb.recordPos == old(rb.recordPos)
    ensures r.Err? ==> Preamble(old(rb.Stream())) == Err(r.error)
    ensures r.Ok? ==> Preamble(old(rb.Stream())) == Ok((r.value, rb.Stream()))
    ensures r.Ok? ==> rb.readerPos == old(rb.readerPos) + (|old(rb.Stream())| - |rb.Stream()|)
  {
    var magic := rb.ExtractBytes(4);
    if magic.Err? {
      return Err(magic.error);
    }
    if magic.value != MAGIC {
      return Err(Malformed("Not a valid BAM file"));
    }
    r := ReadText(rb);
  }

  /** The header text length, the text and the reference count. */
  method ReadText(rb: ReadBuffer) returns (r: Result<nat>)
    requires rb.Valid()
    modifies rb
    ensures rb.Valid() && rb.chunk == old(rb.chunk) && rb.recordPos == old(rb.recordPos)
    ensures r.Err? ==> SkipText(old(rb.Stream())) == Err(r.error)
    ensures r.Ok? ==> SkipText(old(rb.Stream())) == Ok((r.value, rb.Stream()))
    ensures r.Ok? ==> rb.readerPos == old(rb.readerPos) + (|old(rb.Stream())| - |rb.Stream()|)
  {
    var textLen := rb.ExtractLE(4);
    if textLen.Err? {
      return Err(textLen.error);
    }
    // the outcome of this extraction is dropped, failure included
    var _ := rb.ExtractBytes(textLen.value);
    var count := rb.ExtractLE(4);
    if count.Err? {
      return Err(count.error);
    }
    return Ok(count.value);
  }

  /** The loop over the reference list. */
  method ReadReferences(rb: ReadBuffer, n: nat) returns (r: Result<seq<Reference>>)
    requires rb.Valid()
    modifies rb
    ensures rb.Valid() && rb.chunk == old(rb.chunk) && rb.recordPos == old(rb.recordPos)
    ensures r.Err? ==> References(old(rb.Stream()), n, []) == Err(r.error)
    ensures r.Ok? ==> References(old(rb.Stream()), n, []) == Ok((r.value, rb.Stream()))
    ensures r.Ok? ==> rb.readerPos == old(rb.readerPos) + (|old(rb.Stream())| - |rb.Stream()|)
  {
    var left := n;
    var refs: seq<Reference> := [];
    ghost var t := rb.Stream();
    while left > 0
      invariant rb.Valid() && rb.chunk == old(rb.chunk) && rb.recordPos == old(rb.recordPos)
      invariant rb.Stream() == t && |t| <= |old(rb.Stream())|
      invariant rb.readerPos == old(rb.readerPos) + (|old(rb.Stream())| - |t|)
      invariant References(t, left, refs) == References(old(rb.Stream()), n, [])
      decreases left
    {
      ghost var t0, left0, refs0 := t, left, refs;
      var one := ReadReference(rb);
      if one.Err? {
        return Err(one.error);
      }
      refs := refs + [one.value];
      left := left - 1;
      t := rb.Stream();
      CarryReferences(References(old(rb.Stream()), n, []), t0, left0, refs0, t, left, refs, one.value);
    }
    return Ok(refs);
  }

  /** Carries the loop invariant of `ReadReferences` over to the updated
      loop variables. */
  lemma CarryReferences(goal: Result<(seq<Reference>, seq<byte>)>, t0: seq<byte>, left0: nat, refs0: seq<Reference>,
                        t1: seq<byte>, left1: nat, refs1: seq<Reference>, v: Reference)
    requires References(t0, left0, refs0) == goal
    requires left0 > 0 && left1 == left0 - 1 && refs1 == refs0 + [v] && OneReference(t0) == Ok((v, t1))
    ensures References(t1, left1, refs1) == goal
  {
    var step := OneReference(t0);
    assert step == Ok((v, t1));
    assert References(t0, left0, refs0) == References(step.value.1, left0 - 1, refs0 + [step.value.0]);
  }

  /** One pass of the loop: name length, name, sequence length. */
  method ReadReference(rb: ReadBuffer) returns (r: Result<Reference>)
    requires rb.Valid()
    modifies rb
    ensures rb.Valid() && rb.chunk == old(rb.chunk) && rb.recordPos == old(rb.recordPos)
    ensures r.Err? ==> OneReference(old(rb.Stream())) == Err(r.error)
    ensures r.Ok? ==> OneReference(old(rb.Stream())) == Ok((r.value, rb.Stream()))
    ensures r.Ok? ==> rb.readerPos == old(rb.readerPos) + (|old(rb.Stream())| - |rb.Stream()|)
  {
    ghost var t := rb.Stream();
    var nameLen := rb.ExtractLE(4);
    if nameLen.Err? {
      return Err(nameLen.error);
    }
    var k := nameLen.value;
    var raw := rb.ExtractBytes(k);
    if raw.Err? {
      return Err(raw.error);
    }
    assert raw.value == t[4..4 + k] && rb.Stream() == t[4 + k..];
    var name := raw.value;
    if |name| > 0 && name[|name| - 1] == 0 {
      name := name[..|name| - 1];
    }
    assert name == t[4..if k > 0 && t[3 + k] == 0 then 3 + k else 4 + k];
    var checked := FromUtf8(name);
    if checked.Err? {
      return Err(checked.error);
    }
    var length := rb.ExtractLE(4);
    if length.Err? {
      return Err(length.error);
    }
    assert t[4 + k..][..4] == t[4 + k..8 + k] && t[4 + k..][4..] == t[8 + k..];
    return Ok(Reference(name, length.value));
  }

  // ---------------------------------------------------------------------------
  // Writing a header, and reading it back

  /** A reference a header can carry: a UTF-8 name whose length with its NUL
      terminator, and a sequence length, that fit in 32 bits. */
  predicate Encodable(ref: Reference)
  {
    ValidUtf8(ref.name) && |ref.name| + 1 < U32_LIMIT && ref.length < U32_LIMIT
  }

  /** One reference entry as a BAM writer lays it out: the name length
      (counting the NUL), the name, a NUL, the sequence length. */
  function ReferenceBytes(ref: Reference): (r: seq<byte>)
    requires Encodable(ref)
    ensures |r| == |ref.name| + 9
  {
    U32(|ref.name| + 1) + ref.name + [0] + U32(ref.length)
  }

  function ReferencesBytes(refs: seq<Reference>): (r: seq<byte>)
    requires forall i :: 0 <= i < |refs| ==> Encodable(refs[i])
  {
    if |refs| == 0 then [] else ReferenceBytes(refs[0]) + ReferencesBytes(refs[1..])
  }

  /** A whole header: magic, text length, text, reference count, references. */
  function HeaderBytes(text: seq<byte>, refs: seq<Reference>): (r: seq<byte>)
    requires |text| < U32_LIMIT && |refs| < U32_LIMIT
    requires forall i :: 0 <= i < |refs| ==> Encodable(refs[i])
  {
    MAGIC + U32(|text|) + text + U32(|refs|) + ReferencesBytes(refs)
  }

  /** A written reference entry reads back as the same reference, the NUL
      terminator stripped, with the stream after it untouched. */
  lemma OneReferenceRoundTrip(ref: Reference, rest: seq<byte>)
    requires Encodable(ref)
    ensures OneReference(ReferenceBytes(ref) + rest) == Ok((ref, rest))
  {
    var t := ReferenceBytes(ref) + rest;
    var k := |ref.name| + 1;
    assert t[..4] == U32(k);
    assert t[3 + k] == 0;
    assert t[4..3 + k] == ref.name;
    assert t[4 + k..8 + k] == U32(ref.length);
    assert t[8 + k..] == rest;
  }

  /** The bytes of a non-empty list start with those of its first entry. */
  lemma ReferencesBytesFront(refs: seq<Reference>, rest: seq<byte>)
    requires forall i :: 0 <= i < |refs| ==> Encodable(refs[i])
    requires |refs| > 0
    ensures ReferencesBytes(refs) + rest == ReferenceBytes(refs[0]) + (ReferencesBytes(refs[1..]) + rest)
  {
  }

  /** One more written reference in front of a list that reads back reads
      back too. */
  lemma ReferencesMore(refs: seq<Reference>, n: nat, rest: seq<byte>, acc: seq<Reference>)
    requires forall i :: 0 <= i < |refs| ==> Encodable(refs[i])
    requires n == |refs| > 0
    requires References(ReferencesBytes(refs[1..]) + rest, n - 1, acc + [refs[0]]) == Ok((acc + [refs[0]] + refs[1..], rest))
    ensures References(ReferencesBytes(refs) + rest, n, acc) == Ok((acc + refs, rest))
  {
    var tail := ReferencesBytes(refs[1..]) + rest;
    ReferencesBytesFront(refs, rest);
    OneReferenceRoundTrip(refs[0], tail);
    assert acc + [refs[0]] + refs[1..] == acc + refs;
  }

  lemma {:induction false} ReferencesRoundTrip(refs: seq<Reference>, n: nat, rest: seq<byte>, acc: seq<Reference>)
    requires forall i :: 0 <= i < |refs| ==> Encodable(refs[i])
    requires n == |refs|
    ensures References(ReferencesBytes(refs) + rest, n, acc) == Ok((acc + refs, rest))
    decreases n
  {
    if n == 0 {
      assert ReferencesBytes(refs) + rest == rest;
      assert acc + refs == acc;
    } else {
      ReferencesRoundTrip(refs[1..], n - 1, rest, acc + [refs[0]]);
      ReferencesMore(refs, n, rest, acc);
    }
  }

  /** The magic, a text and a count, as written, read back as the count. */
  lemma PreambleRoundTrip(text: seq<byte>, n: nat, body: seq<byte>)
    requires |text| < U32_LIMIT && n < U32_LIMIT
    ensures Preamble(MAGIC + U32(|text|) + text + U32(n) + body) == Ok((n, body))
  {
    var u := U32(|text|) + text + U32(n) + body;
    assert MAGIC + U32(|text|) + text + U32(n) + body == MAGIC + u;
    assert (MAGIC + u)[..4] == MAGIC && (MAGIC + u)[4..] == u;
    assert u[..4] == U32(|text|);
    assert u[4..][|text|..] == U32(n) + body;
  }

  /** Reading a written header gives back its references and leaves the
      stream at what followed it; the text is skipped whatever it holds. */
  lemma HeaderRoundTrip(text: seq<byte>, refs: seq<Reference>, rest: seq<byte>)
    requires |text| < U32_LIMIT && |refs| < U32_LIMIT
    requires forall i :: 0 <= i < |refs| ==> Encodable(refs[i])
    ensures Header(HeaderBytes(text, refs) + rest) == Ok((refs, rest))
  {
    var body := ReferencesBytes(refs) + rest;
    assert HeaderBytes(text, refs) + rest == MAGIC + U32(|text|) + text + U32(|refs|) + body;
    PreambleRoundTrip(text, |refs|, body);
    ReferencesRoundTrip(refs, |refs|, rest, []);
    assert [] + refs == refs;
  }

  /** A header whose text length runs past the end of the source: the failed
      skip is ignored and the count is read from the bytes right after the
      length, here a header with no references. */
  lemma TruncatedTextIgnored()
    ensures Header([66, 65, 77, 1, 100, 0, 0, 0, 0, 0, 0, 0]) == Ok(([], []))
  {
    var s: seq<byte> := [66, 65, 77, 1, 100, 0, 0, 0, 0, 0, 0, 0];
    assert s[..4] == MAGIC;
    assert s[4..][..4] == [100, 0, 0, 0];
    assert LE([100, 0, 0, 0]) >= 100 by {
      assert [100, 0, 0, 0][1..] == [0, 0, 0];
    }
    assert s[4..][4..] == [0, 0, 0, 0];
    assert LE([0, 0, 0, 0]) == 0 by {
      assert [0, 0, 0, 0][1..] == [0, 0, 0];
      assert [0, 0, 0][1..] == [0, 0];
      assert [0, 0][1..] == [0];
    }
    assert s[4..][4..][..4] == [0, 0, 0, 0] && s[4..][4..][4..] == [];
    assert SkipText(s[4..]) == Ok((0, []));
    assert Preamble(s) == Ok((0, []));
  }
}
