# entab core, modelled in Dafny

entab reads bioinformatics and chemistry file formats as streams of records.
This project models the parts of it that decide what a stream is and how its
records are cut out of the bytes:

- **Format sniffing** (`filetype.dfy`, module `FileTypes`): the magic-number
  classifier `FileType::from_magic` and the lookups between file types,
  file extensions and parser names.
- **One layer of decompression** (`compression.dfy`, module `Compression`):
  a stream that sniffs as gzip, bzip2, xz or zstd is decoded once and sniffed
  again. The decoder is a parameter.
- **The read buffer** (`buffer.dfy`, class `Buffer.ReadBuffer`): a window of
  bytes read from a source, refilled chunk by chunk, with the extract, seek and
  line primitives the readers call. The window plus the unread source is the
  stream still to decode. Refilling never changes that stream; extracting
  removes its front.
- **FASTA** (`fasta.dfy`): `FromBuffer::get` for `Option<FastaRecord>`. It
  holds the refill-and-retry loop, the collection of line-break positions and
  the reassembly of the sequence without its line breaks. `FastaReader` wraps
  it. Every record is proved equal to a specification over the whole remaining
  stream, so the result does not depend on how the source was chunked.
- **FASTQ** (`fastq.dfy`): `FromSlice::parse` for `FastqRecord`. It writes the
  offsets of header, sequence and quality into a `FastqState` and adds the
  record's length to `consumed`; `get` cuts the fields out. Both steps are
  proved against a layout function, and records written with either LF or
  CR LF read back.
- **BAM** (`bam.dfy`, `bam_record.dfy`, `bam_reader.dfy`):
  - the header with its reference table;
  - the 32-byte fixed block with its sentinel values;
  - the CIGAR text, the 4-bit bases and the qualities raised by 33.

  Each has a decoder written step by step over the buffer, proved to compute
  a specification. Writers lay out the header, the fixed block and the
  variable block, and the specification reads each back. A whole record
  behind a length field holding its size reads back as the record
  (`BamRecords.RecordRoundTrip`). Errors inside a record carry the offset
  of its length field and its 1-based number.
- **SAM** (`sam.dfy`):
  - header-line skipping;
  - the tab split and field conversion of `strs_to_sam`;
  - record reading with errors tagged by byte offset and record number;
  - a writer whose lines read back as the same record.
- **Inficon Hapsite** (`inficon.dfy`): two passes.
  - The setup pass checks the magic and seeks the two markers. It reads the
    capped segment and range tables, expands full-scan ranges in steps of 100,
    and reads the size of the scan data.
  - The per-point state machine, a class whose fields the record parser updates
    in place, is proved against a step function. Lemmas show that a scan hands
    out its segment's m/z values in order.

Shared vocabulary lives in `errors.dfy` and `bytes.dfy`:

- the error value, with its "incomplete" flag and position;
- little-endian integers, `memchr` and pattern search;
- UTF-8 well-formedness (section 4 of RFC 3629);
- decimal rendering and parsing;
- splitting on a byte.

Where the Rust code would panic (an index out of bounds, an integer overflow
in a debug build), the model returns the distinct error `Panic(site)`. Lemmas
exhibit the inputs that reach each such panic:

- `BamRecords.OddSequencePanics`, `BamRecords.ShortQualityPanics` and
  `BamRecords.HighQualityPanics`;
- `Sam.PositionZeroPadded`;
- `Inficon.EmptySegmentPanics`.

## Model

| member | source | states |
|---|---|---|
| Errors.Malformed | entab/src/readers/sam.rs:27 | a message turned into an error is a complete failure without a position |
| Errors.Incomplete | entab/src/parsers/fastq.rs:55 | an `.incomplete()` error keeps its message, is flagged as needing more data and has no position |
| Errors.Locate | entab/src/readers/sam.rs:209-215 | a failure gets the byte offset and record number of the record, keeping message and flag; a panic is left alone |
| Bytes.LE | entab/src/readers/sam.rs:29 | a little-endian value of `k` bytes is below `256^k`; of four bytes, inside `u32` |
| Bytes.ToLE | entab/src/readers/sam.rs:29 | every value below `256^width` has `width` little-endian bytes that read back as it |
| Bytes.U32 | entab/src/readers/sam.rs:35 | every `u32` has four little-endian bytes that read back as it |
| Bytes.U16 | entab/src/readers/sam.rs:84-85 | every `u16` has two little-endian bytes that read back as it |
| Bytes.I32 | entab/src/readers/sam.rs:61 | every `i32` has four little-endian bytes whose `i32` reading is that value |
| Bytes.AsI32 | entab/src/parsers/inficon.rs:147 | the `i32` reading of a `u32` lies in the `i32` range and agrees with it modulo `2^32` |
| Bytes.CastUnsigned | entab/src/readers/sam.rs:73 | `as u64`/`as u32` keeps non-negative values and wraps negative ones to `x + limit`, inside the target width |
| Bytes.FindByte | entab/src/parsers/fastq.rs:61 | `memchr` answers the first index at or after the start holding the byte, and no index exactly when the byte is absent there |
| Bytes.FindByteExtend | entab/src/readers/fasta.rs:32-42 | a byte found in the window is found at the same place once more data is appended after a refill |
| Bytes.FindPattern | entab/src/parsers/inficon.rs:48 | the pattern search answers the first occurrence at or after the start, and nothing exactly when there is none |
| Bytes.AsciiIsUtf8 | entab/src/readers/sam.rs:293 | every ASCII byte string passes `from_utf8` |
| Bytes.FromUtf8 | entab/src/readers/sam.rs:44 | `from_utf8` succeeds exactly on well-formed UTF-8 and then returns the same bytes |
| Bytes.Decimal | entab/src/readers/sam.rs:114-120 | the decimal text of a number is non-empty digits without a leading zero |
| Bytes.DecimalRoundTrip | entab/src/readers/sam.rs:114-120 | the decimal text of a number reads back as that number |
| Bytes.ParseUnsigned | entab/src/readers/sam.rs:346 | `parse` of an unsigned type only gives values in range, reads every in-range digit string, and rejects the empty string |
| Bytes.ParseI32 | entab/src/readers/sam.rs:353 | `parse::<i32>` only gives values in the `i32` range and rejects the empty string |
| Bytes.Split | entab/src/readers/sam.rs:366 | splitting on a byte gives at least one piece, and no piece holds the separator |
| Bytes.JoinSplit | entab/src/readers/sam.rs:366 | the pieces of a split, joined with the separator, give back the line |
| Bytes.SplitJoin | entab/src/readers/sam.rs:366 | pieces without the separator, joined and split again, come back unchanged |
| Bytes.JoinSnoc | entab/src/readers/sam.rs:332-343 | joining one more piece appends the separator and the piece |
| Bytes.CountSplit | entab/src/readers/sam.rs:366 | a split gives one more piece than there are separators |
| Buffer.ReadBuffer.constructor | entab/src/readers/fasta.rs:137 | a buffer over a source holds the whole source as the stream still to decode, with its first chunk in the window |
| Buffer.ReadBuffer.Refill | entab/src/readers/sam.rs:201 | a refill never changes the stream: it grows the window by the next bytes of the source, or, at the end of the source, sets `eof` |
| Buffer.ReadBuffer.Reserve | entab/src/readers/sam.rs:234 | reserving leaves at least `n` bytes in the window, or the whole stream at the end of the source, without changing the stream |
| Buffer.ReadBuffer.Consume | entab/src/readers/fasta.rs:81 | consuming returns and removes exactly the first `n` bytes and advances the reader position by `n` |
| Buffer.ReadBuffer.ExtractBytes | entab/src/readers/sam.rs:26 | `extract::<&[u8]>` returns the next `n` bytes of the stream and removes them, or fails with "unexpected end of data" removing nothing |
| Buffer.ReadBuffer.ExtractLE | entab/src/readers/sam.rs:29 | `extract::<u32>` returns the little-endian value of the next bytes and removes them, or fails removing nothing |
| Buffer.ReadBuffer.SeekByte | entab/src/readers/sam.rs:236 | seeking a byte answers whether it occurs in the stream, and drops exactly the bytes before it, or the whole stream when it is absent |
| Buffer.ReadBuffer.ExtractLine | entab/src/readers/sam.rs:365 | `extract::<NewLine>` returns the next line without LF or CR LF, the last line even without LF, nothing on an empty stream, and removes exactly that line |
| FileTypes.FromMagic | entab/src/filetype.rs:81-129 | fewer than two bytes are Unknown; FASTA is reported only for a leading `>` and FASTQ only for a leading `@` |
| FileTypes.Magic8 | entab/src/filetype.rs:82-93 | only inputs starting with `F`, `~`, `89`, `04`, `AE` or `01` match the eight-byte table; a PNG, HDF5, Inficon, ZTR or Thermo RAW answer means the bytes are exactly that signature |
| FileTypes.Magic8Signatures | entab/src/filetype.rs:86-90 | each binary eight-byte signature is recognised as its own format |
| FileTypes.Magic4 | entab/src/filetype.rs:94-112 | BAM, zstd and SAM are answered exactly for their four-byte magics; after `FF FF 05/06 00`, Thermo CF exactly when there are at least 78 bytes with "CIsoGC" in UTF-16LE at 52..64, Thermo DXF exactly otherwise |
| FileTypes.Magic2 | entab/src/filetype.rs:116-121 | only gzip, bzip2, xz, Bruker BAF and netCDF come from the two-byte table; gzip exactly for `0F/1F 8B`, bzip2 exactly for `BZ`, xz exactly for `FD 37` |
| FileTypes.NoMagic8 | entab/src/filetype.rs:82-93 | a first byte that starts none of the eight-byte signatures never matches the eight-byte table |
| FileTypes.NoMagic4 | entab/src/filetype.rs:94-112 | a first byte that starts none of the four-byte signatures never matches the four-byte table |
| FileTypes.CompressionMagic | entab/src/filetype.rs:116-119 | `1F 8B` / `0F 8B` is gzip, `BZ` is bzip2 and `FD 37` is xz, whatever follows |
| FileTypes.FourByteMagic | entab/src/filetype.rs:94-103 | the zstd and BAM four-byte magics are recognised whenever more than four bytes are given |
| FileTypes.Magic8Decides | entab/src/filetype.rs:82-93 | once an eight-byte signature matches, the bytes after the eighth do not change the answer |
| FileTypes.PngNeedsMoreThanEight | entab/src/filetype.rs:82-86 | the bare eight-byte PNG signature is Unknown; one more byte makes it PNG, because the test is `len > 8` |
| FileTypes.SingleByteIsUnknown | entab/src/filetype.rs:113-115 | a lone `>` or `@` is Unknown, because inputs shorter than two bytes are never classified |
| FileTypes.ThermoPair | entab/src/filetype.rs:104-109 | after `FF FF 05/06 00`, Thermo CF exactly when there are at least 78 bytes and "CIsoGC" in UTF-16LE at bytes 52..64, Thermo DXF otherwise |
| FileTypes.SamHeaderMagic | entab/src/filetype.rs:97 | input starting `@HD<TAB>` or `@SQ<TAB>` is SAM, not FASTQ |
| FileTypes.LeadingCharacter | entab/src/filetype.rs:124-128 | when no longer signature matches, the result is FASTQ exactly for `@` and FASTA exactly for `>` |
| FileTypes.FromExtension | entab/src/filetype.rs:134-166 | every extension gives a non-empty list; `ch` gives the two ChemStation formats; an unknown or empty extension gives exactly `[Unknown]` |
| FileTypes.FromParserName | entab/src/filetype.rs:170-189 | names starting with `u` are Unknown; the only delimited formats are `,` and tab |
| FileTypes.ToParserName | entab/src/filetype.rs:193-213 | the name is never empty; formats without a parser render as `unsupported/` followed by their debug name |
| FileTypes.ParserNameRoundTrip | entab/src/filetype.rs:220-242 | for every format with a parser, the name reads back to the same format (the repository's own test, for all such formats) |
| FileTypes.FormatRoundTrip | entab/src/filetype.rs:170-213 | every recognised parser name survives the trip through its format |
| FileTypes.UnsupportedIsUnknown | entab/src/filetype.rs:170-213 | an `unsupported/…` name reads back as Unknown |
| Compression.Decompress | entab/src/compression.rs:28-55 | the reported type is always the sniffed type of the stream handed back; a container is reported exactly when the outer bytes sniff as gzip, bzip2, xz or zstd, and then the stream is the decoded one; otherwise the input passes through |
| Compression.OneLayer | entab/src/compression.rs:32-37 | only one layer is removed: gzip inside gzip is reported as type gzip with container gzip |
| Compression.PlainPassesThrough | entab/src/compression.rs:53 | a FASTA stream is returned unchanged with no container |
| Fasta.FirstRecordEnd | entab/src/readers/fasta.rs:46-56 | finds the first LF followed by `>` at or after a position, and there is none before it; `None` means there is none at all |
| Fasta.NextRecord | entab/src/readers/fasta.rs:23-102 | the record at the front of the remaining input never consumes more than there is |
| Fasta.RecordEnd | entab/src/readers/fasta.rs:62-77 | a record ends right after the LF before the next `>`, or at the end of the input |
| Fasta.KeptHasNoLF | entab/src/readers/fasta.rs:85-96 | no LF survives in a returned sequence |
| Fasta.NextRecordEdges | entab/src/readers/fasta.rs:24-44 | empty input gives no record; a first byte other than `>` and a header without LF are errors that consume nothing |
| Fasta.NextRecordShape | entab/src/readers/fasta.rs:31-101 | after a record the input is at the next `>` or at its end; the id is the header without `>` and without a CR before its LF; the sequence holds no LF |
| Fasta.RemoveBreaksLine | entab/src/readers/fasta.rs:46-51 | a line and its LF or CRLF ending contribute just the line to the sequence |
| Fasta.FirstRecordEndIs | entab/src/readers/fasta.rs:46-56 | the first LF followed by `>` after a position is the one `FirstRecordEnd` returns |
| Fasta.LastRecordExample | entab/src/readers/fasta.rs:134-157 | `>id2\nTGCA` at the end of the input is the record id2 / TGCA |
| Fasta.LastCrlfRecordExample | entab/src/readers/fasta.rs:195-229 | `>id2\r\nTGCA\r\n` at the end of the input is the record id2 / TGCA |
| Fasta.MultilineExample | entab/src/readers/fasta.rs:159-193 | `>id\nACGT\nAAAA\n>id2\nTGCA` gives id / ACGTAAAA and then id2 / TGCA |
| Fasta.CrlfExample | entab/src/readers/fasta.rs:195-229 | the CRLF version of the multi-line input gives the same two records |
| Fasta.EmptySequenceExample | entab/src/readers/fasta.rs:231-265 | `>hd\n\n>\n\n` gives hd with an empty sequence first; an empty input gives no record |
| Fasta.EmptyRecordExample | entab/src/readers/fasta.rs:231-265 | `>\n\n` gives a record with empty id and empty sequence |
| Fasta.BreaksInOrder | entab/src/readers/fasta.rs:46-51 | the collected break positions are strictly increasing and inside the scanned range |
| Fasta.BreaksInSplit | entab/src/readers/fasta.rs:46-51 | the breaks of a range are those of its first part followed by those of its second |
| Fasta.BreaksAtNewline | entab/src/readers/fasta.rs:46-51 | meeting an LF records the CR before it (if any) and then the LF |
| Fasta.BreaksAgree | entab/src/readers/fasta.rs:46-51 | two inputs with the same break positions below `n` collect the same list |
| Fasta.BreaksInAreBreaks | entab/src/readers/fasta.rs:46-51 | every collected position is a line break |
| Fasta.BreaksInRun | entab/src/readers/fasta.rs:68-72 | a run of consecutive breaks collects every position of the run |
| Fasta.WithoutLength | entab/src/readers/fasta.rs:88 | leaving out `k` listed positions shortens the sequence by exactly `k` |
| Fasta.WithoutIsRemoveBreaks | entab/src/readers/fasta.rs:85-96 | cutting the collected positions out of the raw sequence removes exactly its line breaks |
| Fasta.Reassemble | entab/src/readers/fasta.rs:85-96 | the copy loop yields the raw sequence without the listed positions, and its length is the raw length minus the number of positions |
| Fasta.TrimTrailingBreaks | entab/src/readers/fasta.rs:62-73 | popping the final LF and the run of breaks before it leaves a sorted list below the new end that, cut out of the shortened block, removes every line break of the block |
| Fasta.Range | entab/src/readers/fasta.rs:68-72 | the consecutive integers `lo..hi` |
| Fasta.FirstRecordEndExtend | entab/src/readers/fasta.rs:52-61 | a record end found in the window stays the first one when more input follows, so refilling cannot change a record already found |
| Fasta.ScanFound | entab/src/readers/fasta.rs:52-55 | when the scan stops at an LF followed by `>`, that is the first record end and the collected breaks are those of the block up to it |
| Fasta.ScanExhausted | entab/src/readers/fasta.rs:57-61 | when the scan runs out of LFs there is no record end in the window |
| Fasta.ScanSequence | entab/src/readers/fasta.rs:45-56 | the `memchr_iter` loop: reports the first record end of the window, if any, with the break positions of the sequence block up to it (or up to the window's end) |
| Fasta.ScanLine | entab/src/readers/fasta.rs:47-55 | one LF of the loop: records its breaks and stops exactly when a `>` follows |
| Fasta.NextRecordInWindow | entab/src/readers/fasta.rs:31-79 | a record whose end lies in the window is the record read from the whole remaining input |
| Fasta.BreaksEndAtLF | entab/src/readers/fasta.rs:62-66 | a block ending with an LF has that LF as its last break, so the `pop().unwrap()` cannot fail |
| Fasta.NextRecordAtEnd | entab/src/readers/fasta.rs:74-77 | at the end of the input, a record with no later `>` line runs to the end |
| Fasta.TrimmedIsRemoveBreaks | entab/src/readers/fasta.rs:62-96 | after the trailing breaks are popped, the remaining positions cut out of the block remove exactly its line breaks |
| Fasta.HeaderFound | entab/src/readers/fasta.rs:32-38 | the header range and record extent of a record whose end is in the window |
| Fasta.SequenceAtEnd | entab/src/readers/fasta.rs:74-77 | the sequence of a record running to the end of input keeps all collected breaks for removal |
| Fasta.Locate | entab/src/readers/fasta.rs:31-79 | the refill loop changes no input; it fails with "Incomplete record" exactly when the remaining input has no LF; otherwise the window holds the whole record or the whole input |
| Fasta.Delimit | entab/src/readers/fasta.rs:62-78 | the record's header range, sequence range, kept break list and end, from the scan's outcome |
| Fasta.DelimitFound | entab/src/readers/fasta.rs:62-73 | with a record end found, the sequence ends where the trailing breaks begin and the record ends after the LF |
| Fasta.DelimitAtEnd | entab/src/readers/fasta.rs:74-77 | with no record end, sequence and record run to the end of the input |
| Fasta.Get | entab/src/readers/fasta.rs:23-102 | an empty window gives no record and consumes nothing; otherwise the result and the bytes consumed are exactly those of `NextRecord` on the remaining input, whatever the buffer's chunk size |
| Fasta.Take | entab/src/readers/fasta.rs:81-101 | consumes the located record and returns the header without `>` and the sequence without breaks, or the UTF-8 error |
| Fasta.FastaReader.constructor | entab/src/readers/fasta.rs:110-112 | the reader wraps the given buffer |
| Fasta.FastaReader.Next | entab/src/readers/fasta.rs:116-124 | each call returns the next record of the remaining input as a sequence record without quality and consumes it |
| Fastq.RecordLayout | entab/src/parsers/fastq.rs:45-110 | `Ok(None)` exactly for an empty slice at the end of the input; an empty slice before it is an incomplete error; a first byte other than `@` is a hard error; a found layout has its parts in order with the quality as long as the sequence |
| Fastq.SequenceLine | entab/src/parsers/fastq.rs:72-88 | after the header, a found layout has its parts in order; every failure is an error value |
| Fastq.SecondHeader | entab/src/parsers/fastq.rs:89-94 | after the `+`, a found layout has its parts in order |
| Fastq.QualityEnd | entab/src/parsers/fastq.rs:95-109 | the quality is exactly as long as the sequence, the other offsets are kept, and the record ends within the slice |
| Fastq.ParseSound | entab/src/parsers/fastq.rs:45-110 | every layout `parse` reports describes a four-line record |
| Fastq.ParsedOffsets | entab/src/parsers/fastq.rs:61-88 | the header LF and the `+` that a successful `parse` used are the first LF and the first `+` after it |
| Fastq.LinesFound | entab/src/parsers/fastq.rs:61-94 | a successful `parse` found the header LF, a `+` that starts a line and the LF ending the `+` line |
| Fastq.QualitySound | entab/src/parsers/fastq.rs:96-105 | the quality found is as long as the sequence, followed by a terminator as long as the sequence's, which may be missing only at the end of the input |
| Fastq.ParseComplete | entab/src/parsers/fastq.rs:45-110 | every four-line record at the front of the slice is found by `parse` with exactly its layout |
| Fastq.LinesAt | entab/src/parsers/fastq.rs:61-94 | header, sequence and `+` lines end where the bytes say |
| Fastq.QualityIs | entab/src/parsers/fastq.rs:96-105 | a quality and terminator of the right lengths are what the last step finds |
| Fastq.TextIsRecord | entab/src/parsers/fastq.rs:45-110 | a well-formed record written with LF or CRLF terminators is a record, with its parts where the writer put them |
| Fastq.ReadsRecord | entab/src/parsers/fastq.rs:45-117 | reading a written record gives back its id, sequence and quality and consumes exactly its bytes, whatever follows; an id that is not UTF-8 is an error |
| Fastq.CrlfLikeLf | entab/src/parsers/fastq.rs:62-84 | a record with CRLF terminators reads as the same record as with LF |
| Fastq.UnterminatedIsIncomplete | entab/src/parsers/fastq.rs:98-105 | before the end of the input, a record missing its last terminator is an incomplete error |
| Fastq.FoundIsStable | entab/src/parsers/fastq.rs:45-110 | a record found before the end of the input stays the same whatever bytes arrive after it |
| Fastq.HardErrorIsStable | entab/src/parsers/fastq.rs:57-76 | an error not flagged incomplete stays the same whatever bytes arrive, so refilling cannot repair it |
| Fastq.FirstOfTwoExample | entab/src/parsers/fastq.rs:126-159 | the first record of the two-record test input is id / ACGT / `!!!!` and takes 16 bytes |
| Fastq.SecondOfTwoExample | entab/src/parsers/fastq.rs:126-159 | the unterminated second record is read at the end of the input, and then nothing is left |
| Fastq.FirstOfTwoCrlfExample | entab/src/parsers/fastq.rs:161-194 | with CRLF terminators the first record is the same and takes 20 bytes |
| Fastq.SecondOfTwoCrlfExample | entab/src/parsers/fastq.rs:161-194 | the second CRLF record takes the rest of the input, and then nothing is left |
| Fastq.ReadsAscii | entab/src/parsers/fastq.rs:45-117 | a written record with an ASCII id is read back at the end of the input |
| Fastq.PlusAfterHeaderExample | entab/src/parsers/fastq.rs:196-200 | `@DF\n+\n+\n!` is rejected with "Unexpected + found in sequence" |
| Fastq.HeaderOnlyExample | entab/src/parsers/fastq.rs:202-204 | `@\n` is an error even at the end of the input |
| Fastq.PlusLine | entab/src/parsers/fastq.rs:73-76 | an accepted `+` lies after the header LF and right after an LF |
| Fastq.MemchrFrom | entab/src/parsers/fastq.rs:73 | memchr over a tail finds the first occurrence, as an index relative to the tail |
| Fastq.FastqState.constructor | entab/src/parsers/fastq.rs:25-30 | the default state is all zero |
| Fastq.FastqState.Parse | entab/src/parsers/fastq.rs:45-110 | the verdict is that of `RecordLayout`; the header end, the sequence range and the quality range are stored as far as parsing gets, and `consumed` grows by the record's length only on success |
| Fastq.FastqState.ParseSequence | entab/src/parsers/fastq.rs:72-88 | the sequence step updates the sequence range as far as it gets |
| Fastq.FastqState.ParseSecondHeader | entab/src/parsers/fastq.rs:89-94 | the `+` line step stores the sequence range and defers to the quality step |
| Fastq.FastqState.ParseQuality | entab/src/parsers/fastq.rs:95-109 | the quality step stores the quality range and the consumed count only on success |
| Fastq.Get | entab/src/parsers/fastq.rs:112-117 | succeeds exactly when the id is UTF-8; the sequence and quality are the stored ranges |
| Fastq.Next | entab/src/parsers/fastq.rs:45-117 | `Ok(None)` exactly at the end of the input; a record takes at least one byte and no more than there are |
| Fastq.NextSound | entab/src/parsers/fastq.rs:45-117 | a record handed out has a quality as long as its sequence, no `+` in its sequence, and a one-line UTF-8 id |
| Fastq.PartsClean | entab/src/parsers/fastq.rs:61-88 | the id and the sequence of a record hold no LF and no `+` |
| Bam.Preamble | entab/src/readers/sam.rs:24-35 | a header starts with `BAM\1`, else "Not a valid BAM file"; the magic, text length and reference count take at least 12 bytes |
| Bam.Header | entab/src/readers/sam.rs:24-50 | `BamState::get` on the stream: too short for the magic is the end-of-data error; a wrong magic is "Not a valid BAM file"; a header read has as many references as its count announces, each with a UTF-8 name |
| Bam.SkipText | entab/src/readers/sam.rs:29-35 | the text length, the text and the reference count take at least eight bytes of the stream |
| Bam.OneReference | entab/src/readers/sam.rs:39-46 | a reference entry takes at least eight bytes and its name is UTF-8 |
| Bam.References | entab/src/readers/sam.rs:37-48 | reading `n` references after those in `acc` keeps `acc` in front, adds exactly `n` entries whose names are UTF-8, and never grows the stream; only a non-empty list can fail |
| Bam.ReadState | entab/src/readers/sam.rs:24-50 | `BamState::get`: the references and the stream left after the header are those of `Header` on the remaining input, and the reader position advances by the bytes read |
| Bam.ReadPreamble | entab/src/readers/sam.rs:26-35 | the magic check, text skip and reference count read from the buffer agree with `Preamble` |
| Bam.ReadText | entab/src/readers/sam.rs:29-35 | the text skip, whose failure is ignored, agrees with `SkipText` |
| Bam.ReadReferences | entab/src/readers/sam.rs:37-48 | the loop reads exactly the `References` of the remaining input |
| Bam.ReadReference | entab/src/readers/sam.rs:39-46 | one pass of the loop reads exactly `OneReference` |
| Bam.ReferenceBytes | entab/src/readers/sam.rs:39-46 | a written reference entry is nine bytes longer than its name |
| Bam.OneReferenceRoundTrip | entab/src/readers/sam.rs:39-46 | a written reference entry reads back as the same reference, the NUL terminator stripped, leaving what follows |
| Bam.ReferencesRoundTrip | entab/src/readers/sam.rs:37-48 | a written reference list reads back whole and in order |
| Bam.PreambleRoundTrip | entab/src/readers/sam.rs:26-35 | the magic, any text and a count read back as the count, leaving what follows |
| Bam.HeaderRoundTrip | entab/src/readers/sam.rs:24-50 | a written header reads back as its references, leaving the stream at the first record, whatever the text holds |
| Bam.TruncatedTextIgnored | entab/src/readers/sam.rs:32 | a text length that runs past the end of the input is ignored and the count is read right after the length |
| BamRecords.Position | entab/src/readers/sam.rs:69-74 | -1 and only -1 means no position; other values are cast to the unsigned width, so non-negative values keep their value and negative ones wrap around |
| BamRecords.RefName | entab/src/readers/sam.rs:62-68 | a negative reference ID selects the empty name, an ID inside the list its name, and an ID past the end nothing |
| BamRecords.FixedFields | entab/src/readers/sam.rs:61-101 | the fixed fields take exactly 32 bytes and leave the stream after them; fewer than four bytes is the end-of-data error |
| BamRecords.FixedErrors | entab/src/readers/sam.rs:61-68 | a reference ID past the end of the list is "Invalid reference sequence ID" as soon as its four bytes are read; a bad next-reference ID, after a good reference ID, is "Invalid next reference sequence ID" as soon as it is read |
| BamRecords.FixedValues | entab/src/readers/sam.rs:61-101 | decoded fields hold the names the two IDs select (empty for a negative ID), the one-byte name length, the mapping quality with 255 as none and any other byte kept, the operation count, flag and sequence length from bytes 12..20, and a next position that is none exactly for -1 and otherwise cast to `u32` |
| BamRecords.RawPosition | entab/src/readers/sam.rs:69-74 | a writer stores -1 exactly for an absent position and the position itself otherwise |
| BamRecords.FixedBytes | entab/src/readers/sam.rs:61-101 | a writer lays the fixed fields out in exactly 32 bytes |
| BamRecords.FixedRead | entab/src/readers/sam.rs:61-101 | bytes holding the raw values of fields at the offsets `extract_bam_record` reads decode as those fields |
| BamRecords.FixedRoundTrip | entab/src/readers/sam.rs:61-101 | written fixed fields read back as the same fields, leaving whatever follows, when both IDs select the names the fields hold |
| BamRecords.Cigar | entab/src/readers/sam.rs:114-120 | `n` operations take exactly `4n` bytes after the start; running out of bytes is the end-of-data error |
| BamRecords.Code | entab/src/readers/sam.rs:125-127 | a packed base code is a 4-bit value |
| BamRecords.Bases | entab/src/readers/sam.rs:124-129 | unpacking yields exactly `seq_len` bases |
| BamRecords.Quality | entab/src/readers/sam.rs:131-137 | a first byte of 255 means no scores; otherwise exactly `seq_len` scores, each the stored byte plus 33 |
| BamRecords.Variable | entab/src/readers/sam.rs:103-120 | a name length past the block is "Invalid query name length"; operations running past the block are the end-of-data error; a decoded block has `seq_len` bases, no extra fields and a byte after the operations and half the bases |
| BamRecords.Sequence | entab/src/readers/sam.rs:121-137 | too few bytes after the operations for the bases is "Record ended abruptly while reading sequence"; otherwise a record has `seq_len` bases and either no scores or `seq_len` of them |
| BamRecords.NameEnd | entab/src/readers/sam.rs:110-113 | the query name ends at its stated length, or one byte earlier exactly when that last byte is a NUL |
| BamRecords.Assemble | entab/src/readers/sam.rs:139-153 | a record is built exactly when the query name is UTF-8 ("invalid utf-8" otherwise), with that name, the fixed fields unchanged, the parts read and no extra fields |
| BamRecords.Record | entab/src/readers/sam.rs:53-60 | a record length below 32 is "Record is unexpectedly short"; a record consumes exactly its length |
| BamRecords.NextBam | entab/src/readers/sam.rs:198-217 | no record exactly at the end of the stream; one to three bytes is the untagged end-of-data error of the length field; a record consumes its four-byte length field and the length it gives; any failure inside the record carries the offset of the length field and the 1-based record number |
| BamRecords.CigarBytes | entab/src/readers/sam.rs:114-120 | written operations take four bytes each |
| BamRecords.CigarOpText | entab/src/readers/sam.rs:116-118 | an operation reads as its length in decimal and its letter; code 8 reads as `M` because only the low three bits select the letter, so `X` never appears |
| BamRecords.OpCodeParts | entab/src/readers/sam.rs:116-118 | the length sits above the low four bits, and the low three bits give the letter |
| BamRecords.CigarRead | entab/src/readers/sam.rs:114-120 | written operations read back as their text with the offset after them |
| BamRecords.CigarRoundTrip | entab/src/readers/sam.rs:114-120 | written operations read back as their text whatever precedes and follows them |
| BamRecords.Pack | entab/src/readers/sam.rs:124-130 | packing `n` codes takes `(n+1)/2` bytes |
| BamRecords.PackCode | entab/src/readers/sam.rs:125-127 | each packed code reads back from its half byte, high half first |
| BamRecords.Letters | entab/src/readers/sam.rs:128 | one base letter per code |
| BamRecords.BasesRoundTrip | entab/src/readers/sam.rs:124-129 | packed codes unpack to the letters they stand for, whatever surrounds them |
| BamRecords.Phred33 | entab/src/readers/sam.rs:135 | one printable score per stored score |
| BamRecords.QualityRoundTrip | entab/src/readers/sam.rs:131-137 | stored scores below 223 read back raised by 33 |
| BamRecords.VariableStart | entab/src/readers/sam.rs:106-120 | once the operations are read, the block decodes from where the bases begin |
| BamRecords.SequenceParts | entab/src/readers/sam.rs:121-153 | with the length check passed and the scores read, the record is assembled from its parts |
| BamRecords.AssembleName | entab/src/readers/sam.rs:139-153 | a UTF-8 query name gives the record with the fixed fields, the parts read and an empty `extra` |
| BamRecords.BlockSequence | entab/src/readers/sam.rs:121-137 | the bases and scores of a written block decode as the codes and scores written |
| BamRecords.VariableRoundTrip | entab/src/readers/sam.rs:103-153 | a written variable block (name with NUL, operations, packed bases, scores) decodes as the record holding exactly those parts |
| BamRecords.EmptySequenceRefused | entab/src/readers/sam.rs:121-123 | a record with no bases, which the format allows, is refused because the check wants a byte after the operations |
| BamRecords.OddSequencePanics | entab/src/readers/sam.rs:121-131 | one base and no quality byte passes the check and then indexes past the block |
| BamRecords.ShortQualityPanics | entab/src/readers/sam.rs:134 | two bases with a single quality byte slice past the block |
| BamRecords.HighQualityPanics | entab/src/readers/sam.rs:135 | a stored score of 223 or more overflows when raised by 33 |
| BamRecords.SequenceShort | entab/src/readers/sam.rs:121-123 | fewer bytes after the operations than half the bases is the abrupt-end error |
| BamRecords.CigarWhole | entab/src/readers/sam.rs:114-120 | written operations after the name read to the end of the block |
| BamRecords.RecordParts | entab/src/readers/sam.rs:53-103 | fixed fields followed by a block that decodes make a record as long as the block plus 32 |
| BamRecords.NextBamOf | entab/src/readers/sam.rs:198-217 | a record after a length field that gives its size is the next record of the stream |
| BamRecords.RecordFrom | entab/src/readers/sam.rs:198-217 | a length field, fixed fields that decode and a block of the size the length gives that decodes make the next record |
| BamRecords.RecordRoundTrip | entab/src/readers/sam.rs:53-217 | a written record after any four bytes giving its size as a `u32` reads back as the record with its fixed fields, name, CIGAR text, bases and raised scores, leaving exactly what follows it |
| BamReader.TakeAt | entab/src/readers/sam.rs:104 | takes the next `w` bytes of the stream, or fails with the end-of-data error when fewer are left |
| BamReader.ReadPlacement | entab/src/readers/sam.rs:69-83 | reads the position, the name length, the mapping quality and the dropped index bin from bytes 4..12 of the record |
| BamReader.ReadSizes | entab/src/readers/sam.rs:84-86 | reads the operation count, the flag and the sequence length from bytes 12..20 |
| BamReader.ReadMate | entab/src/readers/sam.rs:87-101 | checks the next-reference ID as soon as it is read, then reads the next position (cast to `u32`) and the template length |
| BamReader.ReadFixed | entab/src/readers/sam.rs:61-101 | the fixed fields read from the buffer, and the stream left, are exactly `FixedFields` of the remaining input, errors included |
| BamReader.CigarCarry | entab/src/readers/sam.rs:115-120 | one operation read leaves the rest of the CIGAR reading unchanged |
| BamReader.ReadCigar | entab/src/readers/sam.rs:114-120 | the CIGAR loop yields exactly `Cigar` of the block |
| BamReader.ReadBases | entab/src/readers/sam.rs:124-129 | the base loop over a fresh array yields exactly `Bases` of the block |
| BamReader.ReadQuality | entab/src/readers/sam.rs:131-137 | the score mapping yields exactly `Quality` of the block, its panics included |
| BamReader.ReadVariable | entab/src/readers/sam.rs:106-120 | the name and CIGAR part of the block agree with `Variable` |
| BamReader.ReadSequence | entab/src/readers/sam.rs:121-153 | the length check, bases, scores and name check agree with `Sequence` |
| BamReader.ExtractRecord | entab/src/readers/sam.rs:53-154 | `extract_bam_record` returns exactly `Record` of the remaining input and leaves the stream after it |
| BamReader.NextRecord | entab/src/readers/sam.rs:198-217 | `get` returns exactly `NextBam` of the remaining input: nothing at the end of the data, otherwise the record with the stream after it, errors inside the record tagged with its byte offset and 1-based number as `NextBam` states |
| Sam.StrsToSam | entab/src/readers/sam.rs:286-358 | fewer than eleven fields is "Sam record too short"; a converted record has UTF-8 names, a `u16` flag, `0` exactly for an absent position (otherwise one less than the text, within `u64`/`u32`), `255` exactly for an absent mapping quality, an `i32` template length, `*` read as empty, and the optional fields joined with `\|` |
| Sam.Convert | entab/src/readers/sam.rs:290-357 | each field converts with the type and the `*`/`0`/`255` conventions of its column, in the order the source converts them |
| Sam.Name | entab/src/readers/sam.rs:290-294 | `*` is the empty name; any other field is accepted exactly when it is UTF-8, and then kept |
| Sam.Number | entab/src/readers/sam.rs:346 | an unsigned field is accepted exactly when it is UTF-8 that `parse` reads in range, giving that value; text that does not parse is "invalid integer" |
| Sam.Position | entab/src/readers/sam.rs:295-302 | `0` is no position; any other accepted text is one more than the position; text reading as zero underflows |
| Sam.Mapq | entab/src/readers/sam.rs:303-307 | no mapping quality exactly for `255`; any other accepted value is the `u8` its text reads as |
| Sam.TemplateLength | entab/src/readers/sam.rs:353 | accepted exactly when UTF-8 text `parse::<i32>` reads, giving that `i32` |
| Sam.Extra | entab/src/readers/sam.rs:332-343 | eleven fields give no extra text; more give the fields after the eleventh joined with `\|` |
| Sam.JoinExtra | entab/src/readers/sam.rs:332-343 | the join loop yields the optional fields after the eleventh, separated by `\|` |
| Sam.NumberDecimal | entab/src/readers/sam.rs:306 | the decimal text of a number in range reads back as that number |
| Sam.DecimalZero | entab/src/readers/sam.rs:295 | only zero is written `0`, so `0` can stand for an absent position |
| Sam.PositionOneBased | entab/src/readers/sam.rs:295-302 | positions are 1-based: the text of `n > 0` gives `n - 1`, and `0` gives no position |
| Sam.PositionZeroPadded | entab/src/readers/sam.rs:299-300 | `00` is parsed as zero and the conversion to 0-based then underflows |
| Sam.MapqDecimal | entab/src/readers/sam.rs:303-307 | a mapping quality below 255 reads back from its decimal text; `255` is absent |
| Sam.TemplateLengthDecimal | entab/src/readers/sam.rs:353 | every `i32` template length reads back from its signed decimal text |
| Sam.SamFields | entab/src/readers/sam.rs:286-358 | a written record has eleven fields, or twelve with optional fields |
| Sam.FieldRoundTrip | entab/src/readers/sam.rs:290-331 | an empty field written as `*` reads back empty; any other field reads back as itself |
| Sam.PositionRoundTrip | entab/src/readers/sam.rs:295-325 | a position in range, or none, reads back from its 1-based text |
| Sam.MapqRoundTrip | entab/src/readers/sam.rs:303-307 | a mapping quality below 255, or none, reads back |
| Sam.FieldsNoTab | entab/src/readers/sam.rs:366 | no field of a writable record's line holds a tab |
| Sam.ConvertParts | entab/src/readers/sam.rs:290-357 | fields that each convert to the matching part of a record convert to that record |
| Sam.TextFieldsRoundTrip | entab/src/readers/sam.rs:290-331 | the name, CIGAR, sequence and quality fields of a written record read back |
| Sam.NumberFieldsRoundTrip | entab/src/readers/sam.rs:303-353 | the flag, mapping quality and template length fields of a written record read back |
| Sam.PositionFieldsRoundTrip | entab/src/readers/sam.rs:295-325 | the two position fields of a written record read back |
| Sam.FieldsRoundTrip | entab/src/readers/sam.rs:286-358 | the fields of a written record convert back to the record |
| Sam.SamLineRoundTrip | entab/src/readers/sam.rs:366-367 | a record written as a tab-separated line and split on tabs converts back to the same record |
| Sam.ExtraSplits | entab/src/readers/sam.rs:332-343 | optional fields without `\|` can be recovered from the joined value |
| Sam.ExtraMerges | entab/src/readers/sam.rs:332-343 | the join is lossy: fields `a` and `b` give the same record as one field `a\|b` |
| Sam.AfterHeader | entab/src/readers/sam.rs:235-241 | after the header the stream is empty or does not start with `@` |
| Sam.HeaderLength | entab/src/readers/sam.rs:235-241 | the header is no longer than the stream |
| Sam.AfterHeaderSuffix | entab/src/readers/sam.rs:235-241 | skipping the header only removes a prefix of the stream |
| Sam.HeaderLineSkipped | entab/src/readers/sam.rs:236-240 | an `@` line and its LF are skipped |
| Sam.HeaderOnlyFile | entab/src/readers/sam.rs:410-416 | `@HD\ttest\n` leaves nothing, and reading then gives no record |
| Sam.SkipHeader | entab/src/readers/sam.rs:231-244 | the header loop only removes header lines; when the window still holds bytes afterwards, or the stream is empty, every header line is gone |
| Sam.SkipLine | entab/src/readers/sam.rs:236-240 | one turn of the loop removes part of a header line and nothing after the header; with no LF left it consumes everything |
| Sam.NextSam | entab/src/readers/sam.rs:363-377 | no record exactly at the end of the stream; every conversion error carries the record's byte offset and 1-based number |
| Sam.ReadRecord | entab/src/readers/sam.rs:363-377 | `get` returns exactly `NextSam` of the remaining input and consumes exactly one line |
| Sam.SamRecordRead | entab/src/readers/sam.rs:363-377 | a written record's line ending in LF reads back as the record, and reading stops right after the LF |
| Inficon.Seek | entab/src/parsers/inficon.rs:48-50 | the marker search finds the first occurrence at or after the offset; no occurrence is "not found" only at the end of the input, and "more data needed" before it |
| Inficon.ExpandValues | entab/src/parsers/inficon.rs:82-90 | a full-scan range expands to `(end - start) / 100 + 1` values from `start` in steps of 100, none past `end`, the last less than 100 below it |
| Inficon.ExpandRange | entab/src/parsers/inficon.rs:86-90 | the push loop yields exactly the expansion of the range, and `end + 1` and `mz + 100` stay inside `u32` because `end` is at most 4e9 |
| Inficon.CountOfSteps | entab/src/parsers/inficon.rs:87-90 | the loop stops after `(end - start) / 100 + 1` turns |
| Inficon.Range | entab/src/parsers/inficon.rs:68-91 | a range entry is 32 bytes; an end above 4e9 is "End of m/z range is invalid"; type 0 gives just the start; any other type needs `start < end` and a span below 200,000, else "m/z range is too big or invalid", and gives the expansion of the range |
| Inficon.Ranges | entab/src/parsers/inficon.rs:67-92 | `count` entries end `32 * count` bytes later and append at least `count` values after the ones already collected |
| Inficon.Segment | entab/src/parsers/inficon.rs:59-92 | a segment is 96 bytes, a count of at most 100,000 ranges ("Too many m/z ranges" otherwise), then the entries, all inside the slice |
| Inficon.Segments | entab/src/parsers/inficon.rs:58-93 | `n` segments give exactly `n` m/z lists, appended in order |
| Inficon.RangesExtend | entab/src/parsers/inficon.rs:67-92 | reading range entries only appends to the values already collected |
| Inficon.SegmentsExtend | entab/src/parsers/inficon.rs:58-93 | reading segments only appends to the m/z lists already collected |
| Inficon.ReadRange | entab/src/parsers/inficon.rs:68-91 | the body of the entry loop reads exactly `Range` |
| Inficon.ReadRanges | entab/src/parsers/inficon.rs:67-92 | the entry loop reads exactly `Ranges` |
| Inficon.ReadSegment | entab/src/parsers/inficon.rs:62-92 | one turn of the segment loop reads exactly `Segment` |
| Inficon.ReadSegments | entab/src/parsers/inficon.rs:58-93 | the segment loop reads exactly `Segments` |
| Inficon.SetupOf | entab/src/parsers/inficon.rs:33-111 | a wrong magic is "Inficon file has bad magic bytes"; a missing m/z marker is "Could not find m/z header list" at the end of input and more data needed before it; more than 10,000 segments is "Inficon file has too many segments"; an accepted file has as many m/z lists as the count 148 bytes after the marker |
| Inficon.ScanData | entab/src/parsers/inficon.rs:94-110 | a missing `HapsGPIR` is "Could not find start of scan data" at the end of input and more data needed before it; a section name other than `HapsScan` 192 bytes after it is "Data header was malformed"; an accepted part ends 256 bytes after the marker, keeps the segments and carries the `u32` 180 bytes after the marker as the data size |
| Inficon.ParseSetup | entab/src/parsers/inficon.rs:33-111 | the setup pass returns exactly `SetupOf` |
| Inficon.ReadScanData | entab/src/parsers/inficon.rs:94-110 | the scan-data part of the pass returns exactly `ScanData` |
| Inficon.SegmentsValues | entab/src/parsers/inficon.rs:58-93 | a writer's segments stand for one m/z list each |
| Inficon.SetupBytes | entab/src/parsers/inficon.rs:33-111 | a written setup is its 156-byte head, its segments and the 256-byte scan-data part |
| Inficon.SetupRoundTrip | entab/src/parsers/inficon.rs:33-111 | the setup pass reads back what a writer wrote, whatever follows: the m/z lists of the entries, the scan data size and exactly the bytes written |
| Inficon.SaturatingSub | entab/src/parsers/inficon.rs:181 | the remaining data size never goes below zero |
| Inficon.Step | entab/src/parsers/inficon.rs:133-184 | no point exactly when no scan data is left, and then nothing changes; an error reads nothing and keeps the m/z lists, the data size and the position in the scan; a point reads bytes, keeps the m/z lists and strictly lowers the data size by the bytes read, saturating at zero |
| Inficon.ScanStart | entab/src/parsers/inficon.rs:144-170 | an unknown segment is "Invalid segment number (N) specified"; a count different from the segment's size is "Number of intensities (n) doesn't match number of mzs (m)"; a started scan reads 20 bytes, takes its segment from the top 12 bits, its time as an `i32`, and the segment's first m/z value with the first intensity |
| Inficon.Point | entab/src/parsers/inficon.rs:171-183 | a point reads its 4-byte intensity after what was read before; it needs an existing segment with `0 < left <=` its size, gives the value `left` from the end of the segment and leaves `left - 1` values to come |
| Inficon.PointReading | entab/src/parsers/inficon.rs:171-191 | after a point is read, the record holds the scan time, the segment's m/z value `left` places from its end and the intensity read |
| Inficon.InficonState.constructor | entab/src/parsers/inficon.rs:113-117 | the reader state starts from the setup's m/z lists and data size, with every other field zero, at the start of a scan |
| Inficon.InficonState.ParseRecord | entab/src/parsers/inficon.rs:133-184 | the record parse returns the outcome of `Step` on the state it finds, leaves the state `Step` gives, and adds the bytes read to `consumed` |
| Inficon.InficonState.TakePoint | entab/src/parsers/inficon.rs:171-183 | the end of the record parse updates the state exactly as `Point` does |
| Inficon.InficonState.Get | entab/src/parsers/inficon.rs:186-191 | `get` returns the time, m/z value and intensity the state holds |
| Inficon.StepKeepsInScan | entab/src/parsers/inficon.rs:143-180 | every call keeps the current segment valid and large enough for the values still to come |
| Inficon.NoPanicInScan | entab/src/parsers/inficon.rs:172-179 | in the middle of a scan the indexing of the segment never panics |
| Inficon.EmptySegmentPanics | entab/src/parsers/inficon.rs:161-179 | a scan header that names an empty segment and announces zero values passes both checks and then indexes past the end of the segment |
| Inficon.RunBounded | entab/src/parsers/inficon.rs:139-181 | a stream yields at most as many points as the setup announced bytes of scan data |
| Inficon.ScanInOrder | entab/src/parsers/inficon.rs:177-180 | within a scan the points carry the segment's m/z values in order, from where the scan stands |
| Inficon.WholeScan | entab/src/parsers/inficon.rs:144-180 | a scan read from its header yields exactly the m/z values of the segment the header names, in order, and ends at the start of the next scan |

## Left out

- `buffer.rs` is not part of this model. The read buffer has abstract contracts:
  - a failed extract consumes nothing;
  - a refill moves the next chunk of the source;
  - I/O errors during a refill are not modelled.
- The seek primitive `SeekPattern` (`common.rs` is not part of this model) is taken to report the offset of the start of the pattern. A missing pattern reports "none" only at the end of input, and "more data needed" otherwise.
- `record_pos` is never incremented by the BAM and SAM readers. The buffer code that does so is not part of this model, so record numbers in tagged errors count from the value the buffer holds.
- BamRecords.Cigar: a `u32::out_of` that finds fewer than four bytes left in the block is modelled as the incomplete end-of-data error. The message `out_of` reports is in `buffer.rs`, which is not part of this model.
- BamRecords.FixedFields: the field values are stated by the lemma `BamRecords.FixedValues` and the two reference errors by `BamRecords.FixedErrors`, not by the function's own contract.
- `u32::out_of` and the other width conversions (`usize::try_from`, `as usize`) are modelled as lossless. `usize` is taken to be at least 32 bits wide.
- Error messages from `str::parse` and `str::from_utf8` are represented as "invalid integer" and "invalid utf-8". The `From` conversions into `EtError` (`error.rs`) are not part of this model.
- Inficon: floating point is not modelled. The model keeps the raw integers the file stores:
  - m/z values in hundredths (the source divides by 100);
  - scan times in milliseconds as `i32` (the source divides by 60000);
  - intensities as the raw bits of the `f32`.
- Inficon.InficonState.ParseRecord: the `eof` argument is accepted and unused, as in the source.
- Sam.SkipHeader: when a refill leaves the window empty before the end of the stream, the loop stops as the source's `is_empty` test does. The contract then only states that no non-header byte was removed.
- Compression.Decompress: the gzip, bzip2, xz and zstd decoders and `std::io::Read` plumbing are left out; the decoder is a function parameter.
- The `impl_reader!` macro (the refill-and-retry driver around `FromSlice` parsers and the `Reader` wrappers) is not part of this model. `Fastq.FoundIsStable` and `Fastq.HardErrorIsStable` state why retrying after an incomplete error is sound.
- `StateMetadata::header`, `impl_record!` and the `Debug` text of `to_parser_name` for types without a parser are not modelled beyond the `unsupported/` prefix.
- The `entab-js` WebAssembly binding is host glue and is left out.
- The fuzz inputs of the source's tests are not transcribed. The error paths they exercise are modelled as `Result` values.
