/** The streaming buffer the decoders read from.

    Its source is not part of this model, so it is given abstract contracts:
    the window `data` holds bytes read from the source and not yet consumed,
    `rest` the source bytes not read yet, and a refill moves the next chunk of
    the source into the window or, once the source is exhausted, sets `eof`.
    `Stream()`, the window followed by the unread source, is what a decoder
    still has to decode; refilling never changes it and consuming removes its
    front. */
module Buffer {
  import opened Errors
  import opened Bytes

  /** The error every extraction reports when the source runs out. */
  const EndOfData: EtError := Incomplete("unexpected end of data")

  class ReadBuffer {
    var data: seq<byte>
    var rest: seq<byte>
    var chunk: nat
    var eof: bool
    /** absolute offset of `data[0]` in the source */
    var readerPos: nat
    /** number of records taken from the buffer so far */
    var recordPos: nat

    ghost predicate Valid()
      reads this
    {
      chunk > 0 && (eof ==> rest == [])
    }

    ghost function Stream(): seq<byte>
      reads this
    {
      data + rest
    }

    /** Decreases with every refill made before the end of the source. */
    ghost function Pending(): nat
      reads this
    {
      |rest| + if eof then 0 else 1
    }

    /** Decoders that test `is_empty()` rely on this: the window is only
        empty when nothing is left to decode. */
    ghost predicate Primed()
      reads this
    {
      data != [] || Stream() == []
    }

    /** A buffer over `source`, holding its first chunk. */
    constructor (source: seq<byte>, chunk: nat)
      requires chunk > 0
      ensures Valid() && Primed() && Stream() == source && !eof
      ensures this.chunk == chunk && readerPos == 0 && recordPos == 0
    {
      var n := if chunk < |source| then chunk else |source|;
      assert source == source[..n] + source[n..];
      data := source[..n];
      rest := source[n..];
      this.chunk := chunk;
      eof := false;
      readerPos := 0;
      recordPos := 0;
    }

    /** Reads the next chunk of the source into the window; at the end of the
        source reads nothing and sets `eof`. */
    method Refill() returns (got: bool)
      requires Valid()
      modifies this
      ensures Valid() && Stream() == old(Stream())
      ensures chunk == old(chunk) && readerPos == old(readerPos) && recordPos == old(recordPos)
      ensures got <==> old(rest) != []
      ensures !got ==> eof && data == old(data)
      ensures got ==> eof == old(eof) && |data| > |old(data)| && data[..|old(data)|] == old(data)
      ensures got ==> data == old(Stream())[..|data|]
      ensures !old(eof) ==> Pending() < old(Pending())
    {
      if rest == [] {
        eof := true;
        got := false;
      } else {
        var n := if chunk < |rest| then chunk else |rest|;
        assert rest == rest[..n] + rest[n..];
        data := data + rest[..n];
        rest := rest[n..];
        got := true;
      }
    }

    /** Refills until at least `n` bytes are in the window or the source ends. */
    method Reserve(n: nat)
      requires Valid()
      modifies this
      ensures Valid() && Stream() == old(Stream())
      ensures chunk == old(chunk) && readerPos == old(readerPos) && recordPos == old(recordPos)
      ensures |data| >= n || (eof && data == Stream())
      ensures old(|data|) >= n ==> data == old(data) && eof == old(eof)
    {
      while |data| < n && !eof
        invariant Valid() && Stream() == old(Stream())
        invariant chunk == old(chunk) && readerPos == old(readerPos) && recordPos == old(recordPos)
        invariant old(|data|) >= n ==> data == old(data) && eof == old(eof)
        decreases Pending()
      {
        var _ := Refill();
      }
    }

    /** Removes the first `n` window bytes and returns them. */
    method Consume(n: nat) returns (taken: seq<byte>)
      requires Valid() && n <= |data|
      modifies this
      ensures Valid() && taken == old(data)[..n] && data == old(data)[n..]
      ensures Stream() == old(Stream())[n..]
      ensures rest == old(rest) && eof == old(eof) && chunk == old(chunk)
      ensures readerPos == old(readerPos) + n && recordPos == old(recordPos)
    {
      taken := data[..n];
      data := data[n..];
      readerPos := readerPos + n;
    }

    /** `extract::<&[u8]>(n)`: the next `n` bytes of the stream, or an
        incomplete error (consuming nothing) when the source has fewer. */
    method ExtractBytes(n: nat) returns (r: Result<seq<byte>>)
      requires Valid()
      modifies this
      ensures Valid() && chunk == old(chunk) && recordPos == old(recordPos)
      ensures n <= |old(Stream())| ==> r == Ok(old(Stream())[..n]) && Stream() == old(Stream())[n..]
      ensures n <= |old(Stream())| ==> readerPos == old(readerPos) + n
      ensures n > |old(Stream())| ==> r == Err(EndOfData)
      ensures n > |old(Stream())| ==> Stream() == old(Stream()) && readerPos == old(readerPos)
    {
      Reserve(n);
      if |data| < n {
        r := Err(EndOfData);
      } else {
        assert Stream()[..n] == data[..n];
        var taken := Consume(n);
        r := Ok(taken);
      }
    }

    /** `extract::<uN>(Endian::Little)`: a `width`-byte little-endian integer. */
    method ExtractLE(width: nat) returns (r: Result<nat>)
      requires Valid()
      modifies this
      ensures Valid() && chunk == old(chunk) && recordPos == old(recordPos)
      ensures width <= |old(Stream())| ==> r == Ok(LE(old(Stream())[..width]))
      ensures width <= |old(Stream())| ==> Stream() == old(Stream())[width..]
      ensures width <= |old(Stream())| ==> readerPos == old(readerPos) + width
      ensures width > |old(Stream())| ==> r == Err(EndOfData)
      ensures width > |old(Stream())| ==> Stream() == old(Stream()) && readerPos == old(readerPos)
    {
      var bytes := ExtractBytes(width);
      if bytes.Err? {
        r := Err(bytes.error);
      } else {
        r := Ok(LE(bytes.value));
      }
    }

    /** `seek_pattern` for a one-byte needle: refills until `b` is in the
        window, then drops the bytes before it and answers true; at the end of
        the source without `b`, drops everything and answers false. */
    method SeekByte(b: byte) returns (found: bool)
      requires Valid()
      modifies this
      ensures Valid() && chunk == old(chunk) && recordPos == old(recordPos)
      ensures found <==> FindByte(old(Stream()), b, 0).Some?
      ensures found ==> Stream() == old(Stream())[FindByte(old(Stream()), b, 0).value..]
      ensures !found ==> Stream() == []
      ensures readerPos == old(readerPos) + (|old(Stream())| - |Stream()|)
    {
      ghost var s0 := Stream();
      while FindByte(data, b, 0).None? && !eof
        invariant Valid() && Stream() == s0 && chunk == old(chunk)
        invariant readerPos == old(readerPos) && recordPos == old(recordPos)
        decreases Pending()
      {
        var _ := Refill();
      }
      match FindByte(data, b, 0)
      case Some(i) =>
        assert s0 == data + rest;
        assert FindByte(s0, b, 0) == Some(i) by { FindByteExtend(data, rest, b, 0); }
        var _ := Consume(i);
        found := true;
      case None =>
        assert FindByte(s0, b, 0).None? by { assert rest == [] && s0 == data; }
        var _ := Consume(|data|);
        found := false;
    }

    /** `extract::<NewLine>`: the next line without its LF (and without a CR
        right before the LF); the last line may lack its LF at the end of the
        source; nothing when the stream is empty. */
    method ExtractLine() returns (r: Option<seq<byte>>)
      requires Valid()
      modifies this
      ensures Valid() && chunk == old(chunk) && recordPos == old(recordPos)
      ensures (r, Stream()) == NextLine(old(Stream()))
      ensures readerPos == old(readerPos) + (|old(Stream())| - |Stream()|)
    {
      ghost var s0 := Stream();
      while FindByte(data, LF, 0).None? && !eof
        invariant Valid() && Stream() == s0 && chunk == old(chunk)
        invariant readerPos == old(readerPos) && recordPos == old(recordPos)
        decreases Pending()
      {
        var _ := Refill();
      }
      if |data| == 0 {
        assert s0 == [] by { assert eof; }
        r := None;
      } else {
        match FindByte(data, LF, 0)
        case Some(i) =>
          assert FindByte(s0, LF, 0) == Some(i) by { FindByteExtend(data, rest, LF, 0); }
          var line := Consume(i + 1);
          assert line == s0[..i + 1];
          assert line[..i] == s0[..i] && (i > 0 ==> line[..i - 1] == s0[..i - 1]);
          r := Some(if i > 0 && line[i - 1] == CR then line[..i - 1] else line[..i]);
          assert Stream() == s0[i + 1..];
        case None =>
          assert rest == [] && s0 == data;
          var line := Consume(|data|);
          r := Some(line);
          assert Stream() == [];
      }
    }
  }

  /** The line splitting `ExtractLine` performs, on the whole stream. */
  function NextLine(s: seq<byte>): (Option<seq<byte>>, seq<byte>)
  {
    if |s| == 0 then (None, s)
    else match FindByte(s, LF, 0)
      case Some(i) => (Some(if i > 0 && s[i - 1] == CR then s[..i - 1] else s[..i]), s[i + 1..])
      case None => (Some(s), [])
  }
}
