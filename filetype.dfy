/** File format detection: classifying the first bytes of a stream by magic
    numbers, and the exact-match tables from file extensions and parser names
    to formats and back. */
module FileTypes {
  import opened Errors
  import opened Bytes

  datatype FileType =
    // compression containers
    | Gzip | Bzip | Lzma | Zstd
    // bioinformatics
    | Bam | Fasta | Fastq | Facs | Sam | Scf | Ztr
    // chemoinformatics
    | AgilentMsMsScan | AgilentChemstationFid | AgilentChemstationMs
    | AgilentChemstationMwd | AgilentChemstationUv | AgilentDad
    | BrukerBaf | BrukerMsms | InficonHapsite | ThermoRaw | ThermoCf
    | ThermoDxf | WatersAutospec | NetCdf | MzXml
    // geology
    | Las
    // catch all
    | Png | Hdf5 | DelimitedText(delimiter: byte) | Unknown

  // ---------------------------------------------------------------------------
  // Magic numbers

  const PNG_SIGNATURE: seq<byte> := [0x89, 0x50, 0x4E, 0x47, 0x0D, 0x0A, 0x1A, 0x0A]
  const HDF5_SIGNATURE: seq<byte> := [0x89, 0x48, 0x44, 0x46, 0x0D, 0x0A, 0x1A, 0x0A]
  const INFICON_SIGNATURE: seq<byte> := [0x04, 0x03, 0x02, 0x01, 0x53, 0x50, 0x41, 0x48]
  const ZTR_SIGNATURE: seq<byte> := [0xAE, 0x5A, 0x54, 0x52, 0x0D, 0x0A, 0x1A, 0x0A]
  const THERMO_RAW_SIGNATURE: seq<byte> := [0x01, 0xA1, 0x46, 0x00, 0x69, 0x00, 0x6E, 0x00]
  const ZSTD_MAGIC: seq<byte> := [0x28, 0xB5, 0x2F, 0xFD]
  const BAM_MAGIC: seq<byte> := [0x42, 0x41, 0x4D, 0x01]
  /** "CIsoGC" in UTF-16LE, expected at bytes 52..64 of a Thermo CF file */
  const CISOGC_UTF16: seq<byte> := [0x43, 0, 0x49, 0, 0x73, 0, 0x6F, 0, 0x47, 0, 0x43, 0]

  /** The table of 8-byte magics. */
  function Magic8(m: seq<byte>): (r: Option<FileType>)
    requires |m| == 8
    ensures r.Some? ==> m[0] in {0x46, 0x7E, 0x89, 0x04, 0xAE, 0x01}
    ensures r == Some(Png) ==> m == PNG_SIGNATURE
    ensures r == Some(Hdf5) ==> m == HDF5_SIGNATURE
    ensures r == Some(InficonHapsite) ==> m == INFICON_SIGNATURE
    ensures r == Some(Ztr) ==> m == ZTR_SIGNATURE
    ensures r == Some(ThermoRaw) ==> m == THERMO_RAW_SIGNATURE
  {
    if m == Lit("FCS2.0  ") || m == Lit("FCS3.0  ") || m == Lit("FCS3.1  ") then Some(Facs)
    else if m == Lit("~VERSION") || m == Lit("~Version") then Some(Las)
    else if m == PNG_SIGNATURE then Some(Png)
    else if m == HDF5_SIGNATURE then Some(Hdf5)
    else if m == INFICON_SIGNATURE then Some(InficonHapsite)
    else if m == ZTR_SIGNATURE then Some(Ztr)
    else if m == THERMO_RAW_SIGNATURE then Some(ThermoRaw)
    else None
  }

  /** The two 4-byte magics of the Thermo isotope formats. */
  predicate ThermoMagic(m: seq<byte>)
  {
    m == [0xFF, 0xFF, 0x06, 0x00] || m == [0xFF, 0xFF, 0x05, 0x00]
  }

  /** The table of 4-byte magics; the Thermo isotope pair also looks further
      into the input for the UTF-16 "CIsoGC" marker. */
  function Magic4(magic: seq<byte>): (r: Option<FileType>)
    requires |magic| > 4
    ensures r == Some(Bam) <==> magic[..4] == BAM_MAGIC
    ensures r == Some(Zstd) <==> magic[..4] == ZSTD_MAGIC
    ensures r == Some(Sam) <==> magic[..4] == [0x40, 0x48, 0x44, 0x09] || magic[..4] == [0x40, 0x53, 0x51, 0x09]
    ensures r == Some(ThermoCf) <==> ThermoMagic(magic[..4]) && |magic| >= 78 && magic[52..64] == CISOGC_UTF16
    ensures r == Some(ThermoDxf) <==> ThermoMagic(magic[..4]) && !(|magic| >= 78 && magic[52..64] == CISOGC_UTF16)
  {
    var m := magic[..4];
    if m == BAM_MAGIC then Some(Bam)
    else if m == [0x40, 0x48, 0x44, 0x09] || m == [0x40, 0x53, 0x51, 0x09] then Some(Sam)
    else if m == [0x2E, 0x73, 0x63, 0x66] then Some(Scf)
    else if m == [0x02, 0x38, 0x31, 0x00] then Some(AgilentChemstationFid)
    else if m == [0x01, 0x32, 0x00, 0x00] then Some(AgilentChemstationMs)
    else if m == [0x02, 0x33, 0x30, 0x00] then Some(AgilentChemstationMwd)
    else if m == [0x03, 0x31, 0x33, 0x31] then Some(AgilentChemstationUv)
    else if m == ZSTD_MAGIC then Some(Zstd)
    else if ThermoMagic(m) then
      (if |magic| >= 78 && magic[52..64] == CISOGC_UTF16 then Some(ThermoCf) else Some(ThermoDxf))
    else None
  }

  /** The table of 2-byte magics. */
  function Magic2(m: seq<byte>): (r: Option<FileType>)
    requires |m| == 2
    ensures r.Some? ==> r.value in {Gzip, Bzip, Lzma, BrukerBaf, NetCdf}
    ensures r == Some(Gzip) <==> (m[0] == 0x0F || m[0] == 0x1F) && m[1] == 0x8B
    ensures r == Some(Bzip) <==> m == [0x42, 0x5A]
    ensures r == Some(Lzma) <==> m == [0xFD, 0x37]
  {
    if (m[0] == 0x0F || m[0] == 0x1F) && m[1] == 0x8B then Some(Gzip)
    else if m == [0x42, 0x5A] then Some(Bzip)
    else if m == [0xFD, 0x37] then Some(Lzma)
    else if m == [0x24, 0x00] then Some(BrukerBaf)
    else if m == [0x43, 0x44] then Some(NetCdf)
    else None
  }

  /** Guesses the format of a file from its first bytes: the 8-byte table
      (only when more than 8 bytes are given), then the 4-byte table (more
      than 4), then the 2-byte table, then the first character. */
  function FromMagic(magic: seq<byte>): (r: FileType)
    ensures |magic| < 2 ==> r == Unknown
    ensures r == Fasta ==> magic[0] == 62
    ensures r == Fastq ==> magic[0] == 64
  {
    if |magic| > 8 && Magic8(magic[..8]).Some? then Magic8(magic[..8]).value
    else if |magic| > 4 && Magic4(magic).Some? then Magic4(magic).value
    else if |magic| < 2 then Unknown
    else if Magic2(magic[..2]).Some? then Magic2(magic[..2]).value
    else if magic[0] == 62 then Fasta
    else if magic[0] == 64 then Fastq
    else Unknown
  }

  /** No 8-byte magic starts with any other byte. */
  lemma NoMagic8(m: seq<byte>)
    requires |m| == 8
    requires m[0] !in {0x46, 0x7E, 0x89, 0x04, 0xAE, 0x01}
    ensures Magic8(m).None?
  {
  }

  /** Each binary 8-byte signature is recognised as its own format. */
  lemma Magic8Signatures()
    ensures Magic8(PNG_SIGNATURE) == Some(Png) && Magic8(HDF5_SIGNATURE) == Some(Hdf5)
    ensures Magic8(INFICON_SIGNATURE) == Some(InficonHapsite) && Magic8(ZTR_SIGNATURE) == Some(Ztr)
    ensures Magic8(THERMO_RAW_SIGNATURE) == Some(ThermoRaw)
  {
  }

  /** No 4-byte magic starts with any other byte pair. */
  lemma NoMagic4(magic: seq<byte>)
    requires |magic| > 4
    requires magic[0] !in {0x40, 0x2E, 0x02, 0x01, 0x03, 0x28, 0xFF}
    requires magic[0] == 0x42 ==> magic[1] != 0x41
    ensures Magic4(magic).None?
  {
    assert magic[..4][0] == magic[0] && magic[..4][1] == magic[1];
  }

  /** The compression containers are recognised from their first two bytes
      alone (no longer magic starts with them). */
  lemma CompressionMagic(magic: seq<byte>)
    requires |magic| >= 2
    ensures (magic[0] == 0x1F || magic[0] == 0x0F) && magic[1] == 0x8B ==> FromMagic(magic) == Gzip
    ensures magic[0] == 0x42 && magic[1] == 0x5A ==> FromMagic(magic) == Bzip
    ensures magic[0] == 0xFD && magic[1] == 0x37 ==> FromMagic(magic) == Lzma
  {
    if magic[0] in {0x1F, 0x0F, 0x42, 0xFD} {
      if |magic| > 8 {
        assert magic[..8][0] == magic[0];
        NoMagic8(magic[..8]);
      }
      if |magic| > 4 && (magic[0] != 0x42 || magic[1] == 0x5A) {
        NoMagic4(magic);
      }
      assert magic[..2] == [magic[0], magic[1]];
    }
  }

  /** Zstandard frames and BAM files are recognised from their first four
      bytes when anything follows them. */
  lemma FourByteMagic(magic: seq<byte>)
    requires |magic| > 4
    ensures magic[..4] == ZSTD_MAGIC ==> FromMagic(magic) == Zstd
    ensures magic[..4] == BAM_MAGIC ==> FromMagic(magic) == Bam
  {
    if |magic| > 8 {
      assert magic[..8][0] == magic[0];
      assert magic[..4][0] == magic[0];
    }
  }

  /** A registered 8-byte magic decides the type of any longer input,
      whatever follows it. */
  lemma Magic8Decides(magic: seq<byte>, other: seq<byte>)
    requires |magic| > 8 && |other| > 8 && magic[..8] == other[..8]
    requires Magic8(magic[..8]).Some?
    ensures FromMagic(magic) == FromMagic(other) == Magic8(magic[..8]).value
  {
  }

  /** The comparison with 8 is strict: the bare 8-byte PNG signature is not
      recognised as PNG, but anything longer starting with it is. */
  lemma PngNeedsMoreThanEight(tail: seq<byte>)
    requires |tail| > 0
    ensures FromMagic(PNG_SIGNATURE) == Unknown
    ensures FromMagic(PNG_SIGNATURE + tail) == Png
  {
    BarePngSignature();
    assert (PNG_SIGNATURE + tail)[..8] == PNG_SIGNATURE;
  }

  lemma BarePngSignature()
    ensures FromMagic(PNG_SIGNATURE) == Unknown
  {
    assert PNG_SIGNATURE[..4] == [0x89, 0x50, 0x4E, 0x47];
  }

  /** A lone `>` or `@` is too short to be classified. */
  lemma SingleByteIsUnknown()
    ensures FromMagic([62]) == Unknown && FromMagic([64]) == Unknown
  {
  }

  /** The Thermo isotope pair: CF exactly when the input has at least 78 bytes
      and "CIsoGC" in UTF-16LE at bytes 52..64, DXF otherwise. */
  lemma ThermoPair(magic: seq<byte>)
    requires |magic| > 4 && magic[0] == 0xFF && magic[1] == 0xFF
    requires (magic[2] == 0x05 || magic[2] == 0x06) && magic[3] == 0x00
    ensures FromMagic(magic) == ThermoCf <==> |magic| >= 78 && magic[52..64] == CISOGC_UTF16
    ensures FromMagic(magic) != ThermoCf ==> FromMagic(magic) == ThermoDxf
  {
    assert |magic| > 8 ==> Magic8(magic[..8]).None? by {
      if |magic| > 8 { assert magic[..8][0] == 0xFF; }
    }
    assert magic[..4] == [0xFF, 0xFF, magic[2], 0x00];
  }

  /** SAM headers are recognised from the 4-byte table. */
  lemma SamHeaderMagic(magic: seq<byte>)
    requires |magic| > 4 && magic[0] == 64 && magic[3] == TAB
    requires (magic[1] == 0x48 && magic[2] == 0x44) || (magic[1] == 0x53 && magic[2] == 0x51)
    ensures FromMagic(magic) == Sam
  {
    assert |magic| > 8 ==> Magic8(magic[..8]).None? by {
      if |magic| > 8 { assert magic[..8][0] == 64; }
    }
    assert magic[..4] == [64, magic[1], magic[2], TAB];
  }

  /** Text without a magic number: `@` gives FASTQ, `>` FASTA, anything else
      Unknown. */
  lemma LeadingCharacter(magic: seq<byte>)
    requires |magic| >= 2
    requires |magic| > 8 ==> Magic8(magic[..8]).None?
    requires |magic| > 4 ==> Magic4(magic).None?
    requires Magic2(magic[..2]).None?
    ensures FromMagic(magic) == Fastq <==> magic[0] == 64
    ensures FromMagic(magic) == Fasta <==> magic[0] == 62
    ensures magic[0] != 64 && magic[0] != 62 ==> FromMagic(magic) == Unknown
  {
  }

  // ---------------------------------------------------------------------------
  // Extension and parser-name tables

  /** The formats a file with extension `ext` could be in. */
  function FromExtension(ext: string): (r: seq<FileType>)
    ensures |r| > 0
    ensures ext == "ch" ==> r == [AgilentChemstationFid, AgilentChemstationMwd]
    ensures Unknown in r ==> r == [Unknown]
    ensures ext == "" ==> r == [Unknown]
  {
    match ext
    case "gz" => [Gzip]
    case "gzip" => [Gzip]
    case "bz" => [Bzip]
    case "bz2" => [Bzip]
    case "bzip" => [Bzip]
    case "xz" => [Lzma]
    case "zstd" => [Zstd]
    case "ch" => [AgilentChemstationFid, AgilentChemstationMwd]
    case "ms" => [AgilentChemstationMs]
    case "uv" => [AgilentChemstationUv]
    case "bam" => [Bam]
    case "baf" => [BrukerBaf]
    case "ami" => [BrukerMsms]
    case "fcs" => [Facs]
    case "lmd" => [Facs]
    case "fa" => [Fasta]
    case "faa" => [Fasta]
    case "fasta" => [Fasta]
    case "fna" => [Fasta]
    case "faq" => [Fastq]
    case "fastq" => [Fastq]
    case "fq" => [Fastq]
    case "hdf" => [Hdf5]
    case "raw" => [ThermoRaw]
    case "mzxml" => [MzXml]
    case "cdf" => [NetCdf]
    case "png" => [Png]
    case "hps" => [InficonHapsite]
    case "sam" => [Sam]
    case "scf" => [Scf]
    case "cf" => [ThermoCf]
    case "dxf" => [ThermoDxf]
    case "idx" => [WatersAutospec]
    case "ztr" => [Ztr]
    case _ => [Unknown]
  }

  /** The format a parser name stands for. */
  function FromParserName(name: string): (r: FileType)
    ensures |name| > 0 && name[0] == 'u' ==> r == Unknown
    ensures r.DelimitedText? ==> r.delimiter == ',' as int || r.delimiter == TAB
  {
    match name
    case "chemstation_fid" => AgilentChemstationFid
    case "chemstation_ms" => AgilentChemstationMs
    case "chemstation_mwd" => AgilentChemstationMwd
    case "chemstation_uv" => AgilentChemstationUv
    case "csv" => DelimitedText(',' as int)
    case "bam" => Bam
    case "fcs" => Facs
    case "fasta" => Fasta
    case "fastq" => Fastq
    case "inficon" => InficonHapsite
    case "png" => Png
    case "sam" => Sam
    case "thermo_cf" => ThermoCf
    case "thermo_dxf" => ThermoDxf
    case "tsv" => DelimitedText(TAB)
    case _ => Unknown
  }

  /** The fifteen formats that have a parser. */
  predicate HasParser(ft: FileType)
  {
    ft in {AgilentChemstationFid, AgilentChemstationMs, AgilentChemstationMwd,
           AgilentChemstationUv, Bam, Facs, Fasta, Fastq, InficonHapsite, Png, Sam,
           ThermoCf, ThermoDxf, DelimitedText(',' as int), DelimitedText(TAB)}
  }

  /** The decimal digits of `n` as characters. */
  function DecimalString(n: nat): string
  {
    var d := Decimal(n);
    seq(|d|, i requires 0 <= i < |d| => d[i] as char)
  }

  /** The `Debug` rendering of a format: its variant name, with the delimiter
      byte in decimal for delimited text. */
  function DebugName(ft: FileType): string
  {
    match ft
    case Gzip => "Gzip"
    case Bzip => "Bzip"
    case Lzma => "Lzma"
    case Zstd => "Zstd"
    case Bam => "Bam"
    case Fasta => "Fasta"
    case Fastq => "Fastq"
    case Facs => "Facs"
    case Sam => "Sam"
    case Scf => "Scf"
    case Ztr => "Ztr"
    case AgilentMsMsScan => "AgilentMsMsScan"
    case AgilentChemstationFid => "AgilentChemstationFid"
    case AgilentChemstationMs => "AgilentChemstationMs"
    case AgilentChemstationMwd => "AgilentChemstationMwd"
    case AgilentChemstationUv => "AgilentChemstationUv"
    case AgilentDad => "AgilentDad"
    case BrukerBaf => "BrukerBaf"
    case BrukerMsms => "BrukerMsms"
    case InficonHapsite => "InficonHapsite"
    case ThermoRaw => "ThermoRaw"
    case ThermoCf => "ThermoCf"
    case ThermoDxf => "ThermoDxf"
    case WatersAutospec => "WatersAutospec"
    case NetCdf => "NetCdf"
    case MzXml => "MzXml"
    case Las => "Las"
    case Png => "Png"
    case Hdf5 => "Hdf5"
    case DelimitedText(b) => "DelimitedText(" + DecimalString(b) + ")"
    case Unknown => "Unknown"
  }

  /** The parser name of a format; formats without a parser get
      "unsupported/" followed by their debug name. */
  function ToParserName(ft: FileType): (r: string)
    ensures |r| > 0
    ensures !HasParser(ft) ==> |r| > 12 && r[..12] == "unsupported/"
  {
    match ft
    case AgilentChemstationFid => "chemstation_fid"
    case AgilentChemstationMs => "chemstation_ms"
    case AgilentChemstationMwd => "chemstation_mwd"
    case AgilentChemstationUv => "chemstation_uv"
    case Bam => "bam"
    case Facs => "fcs"
    case Fasta => "fasta"
    case Fastq => "fastq"
    case InficonHapsite => "inficon"
    case Png => "png"
    case Sam => "sam"
    case ThermoCf => "thermo_cf"
    case ThermoDxf => "thermo_dxf"
    case DelimitedText(b) =>
      if b == ',' as int then "csv"
      else if b == TAB then "tsv"
      else "unsupported/" + DebugName(ft)
    case _ => "unsupported/" + DebugName(ft)
  }

  /** Every format with a parser survives the trip through its parser name. */
  lemma ParserNameRoundTrip(ft: FileType)
    requires HasParser(ft)
    ensures FromParserName(ToParserName(ft)) == ft
  {
    match ft
    case AgilentChemstationFid =>
    case AgilentChemstationMs =>
    case AgilentChemstationMwd =>
    case AgilentChemstationUv =>
    case Bam =>
    case Facs =>
    case Fasta =>
    case Fastq =>
    case InficonHapsite =>
    case Png =>
    case Sam =>
    case ThermoCf =>
    case ThermoDxf =>
    case DelimitedText(b) =>
    case _ =>
  }

  /** Every parser name survives the trip through its format. */
  lemma FormatRoundTrip(name: string)
    requires FromParserName(name) != Unknown
    ensures ToParserName(FromParserName(name)) == name
  {
    match name
    case "chemstation_fid" =>
    case "chemstation_ms" =>
    case "chemstation_mwd" =>
    case "chemstation_uv" =>
    case "csv" =>
    case "bam" =>
    case "fcs" =>
    case "fasta" =>
    case "fastq" =>
    case "inficon" =>
    case "png" =>
    case "sam" =>
    case "thermo_cf" =>
    case "thermo_dxf" =>
    case "tsv" =>
    case _ =>
  }

  /** A format without a parser renders as "unsupported/…", which reads back
      as Unknown. */
  lemma UnsupportedIsUnknown(ft: FileType)
    requires !HasParser(ft)
    ensures FromParserName(ToParserName(ft)) == Unknown
  {
    assert ToParserName(ft)[0] == 'u';
  }
}
