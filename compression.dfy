/** Unwrapping a compressed stream: the stream is sniffed, and when it is one
    of the four compression containers it is decoded once and sniffed again.
    The decoders themselves are not part of this model; `decode` stands for
    them. */
module Compression {
  import opened Errors
  import opened Bytes
  import opened FileTypes

  predicate IsCompression(ft: FileType)
  {
    ft == Gzip || ft == Bzip || ft == Lzma || ft == Zstd
  }

  /** The decoded stream, its sniffed type and the container that was removed,
      if any. */
  datatype Unwrapped = Unwrapped(stream: seq<byte>, fileType: FileType, container: Option<FileType>)

  function Decompress(raw: seq<byte>, decode: (FileType, seq<byte>) -> seq<byte>): (r: Unwrapped)
    ensures r.fileType == FromMagic(r.stream)
    ensures r.container.Some? <==> IsCompression(FromMagic(raw))
    ensures r.container.Some? ==> r.container.value == FromMagic(raw) && r.stream == decode(FromMagic(raw), raw)
    ensures r.container.None? ==> r.stream == raw
  {
    var outer := FromMagic(raw);
    if IsCompression(outer) then
      var inner := decode(outer, raw);
      Unwrapped(inner, FromMagic(inner), Some(outer))
    else Unwrapped(raw, outer, None)
  }

  /** Only one layer is removed: a gzip stream holding another gzip stream
      reports the inner container as its type, still compressed. */
  lemma OneLayer(raw: seq<byte>, decode: (FileType, seq<byte>) -> seq<byte>)
    requires FromMagic(raw) == Gzip
    requires |decode(Gzip, raw)| >= 2 && decode(Gzip, raw)[0] == 0x1F && decode(Gzip, raw)[1] == 0x8B
    ensures Decompress(raw, decode).container == Some(Gzip)
    ensures Decompress(raw, decode).fileType == Gzip
  {
    CompressionMagic(decode(Gzip, raw));
  }

  /** An input with no compression magic passes through untouched. */
  lemma PlainPassesThrough(raw: seq<byte>, decode: (FileType, seq<byte>) -> seq<byte>)
    requires |raw| >= 2 && raw[0] == 62 && raw[1] == 0x41
    ensures Decompress(raw, decode) == Unwrapped(raw, Fasta, None)
  {
    if |raw| > 8 {
      assert raw[..8][0] == 62;
      NoMagic8(raw[..8]);
    }
    if |raw| > 4 {
      NoMagic4(raw);
    }
    assert raw[..2] == [62, 0x41];
  }
}
