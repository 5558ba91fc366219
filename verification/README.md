# rustycasc parsers in Dafny

A Dafny model of the parsers at the core of rustycasc, a client for Blizzard's
CASC content distribution formats. Each parser is a pure function from bytes (or
text) to a structured result or an error. The model covers:

- **Root table** (`src/root.rs`): FileDataID to content key. It handles the TSFM
  layout and the legacy interleaved layout, running-sum FileDataID deltas, and
  name-hash skipping. `f2c` returns the first matching entry.
- **Encoding table** (`src/encoding.rs`): a 22-byte header, the espec table,
  checksummed content and encoding pages with their page tables, and the
  content-key map. `c2e` returns the first encoding key.
- **Archive index** (`src/archive.rs`): footer, table-of-contents and block
  checksums, a block scan up to each block's last key, duplicate-key refusal,
  and the element count.
- **BLTE container** (`src/blte.rs`): the chunk table, per-chunk checksum, mode
  byte and size checks, and concatenation of the chunk outputs.
- **Ribbit text parsers** (`src/ribbit.rs`, module `parsers`): `dec32`, `hex128`,
  and the pipe-delimited `summary` and `versions` tables.
- **DB2 string extraction**: WDC5 in `src/db2.rs` and WDC3 in `src/wdc3.rs`. Both
  share one layout parser; the only difference is the 132 bytes of padding
  after the WDC5 magic. The model covers the string-reference arithmetic of
  `strings` and the NUL split of the WDC3 string table.
- **Key newtypes** (`src/types.rs`): the `{:032x}` display and its
  injectivity.

MD5 (`util::md5hash`) and zlib inflate are function-typed parameters
(`md5: Bytes -> U128`, `inflate: Bytes -> Option<Bytes>`). Every check that uses
them is an equality the model states without computing either.

Rust panics become error values. Short `get_*` reads and slice indexing become
`ShortRead`. i32 overflow becomes `FdidOverflow`, and a DB2 string reference
before the start of the string table becomes `OffsetUnderflow`. Indexing
`sections[0]` of an empty list becomes `NoSections`. Arithmetic is modelled with
overflow checks on, as in a debug build.

Each parser has a writer and a round-trip lemma: writing a value and parsing the
bytes gives the value back. Several lemmas derive from the round trip what a
caller can rely on: lookups answer from the last record written for a key,
locale flags play no part, and a field whose string would lie before the start
of the string table makes the whole call fail.

Files:

- Shared modules:
  - `wrappers.dfy`: `Option`, `Result`, `Collect`.
  - `bytes.dfy`: fixed-width integers.
  - `maps.dfy`: insertion in order.
  - `digits.dfy`: decimal and hex text.
  - `text.dfy`: UTF-8, NUL split and join.
- One module per source file: `root`, `encoding`, `archive`, `blte`, `ribbit`,
  `db2`, `wdc3`, `types`. `db2_layout` holds the layout shared by `db2` and
  `wdc3`.
- A `*_roundtrip` module per format holds the writer and the round-trip lemmas.

## Model

| member | source | states |
|---|---|---|
| Root.SelectLayout | src/root.rs:27-40 | Under 4 bytes is `EmptyRoot`. A TSFM prefix selects the non-interleaved layout, needs 8 more header bytes, and enables name-hash skipping exactly when the total and named counts differ. Any other prefix is interleaved with skipping off, and its blocks start at byte 0. |
| Root.RunningIds | src/root.rs:51-56 | Each id is the previous id (or the start value) plus its delta plus one. Every id is a non-negative i32. A negative id or an i32 overflow fails. |
| Root.ReadColumns | src/root.rs:57-75 | Yields one key and one name hash per record. When the layout skips names and the block has flag 0x10000000, every name hash is 0. |
| Root.ParseBlock | src/root.rs:43-82 | Under 12 bytes is `TruncatedBlock`. Fewer than 4·num_records delta bytes is `TruncatedDeltas`. On success the running ids and the columns after the deltas both read. Entry i is the i-th running id with the i-th key and name hash, and skipped name hashes are 0. |
| Root.ReadDeltas | src/root.rs:51-56 | One delta per record, delta `i` being the little-endian i32 at byte 4·i. |
| Root.ReadInterleavedAt | src/root.rs:57-63 | In the interleaved layout, record `i` is the 24 bytes at 24·i: a big-endian content key, then a little-endian name hash. |
| Root.ParseBlocks | src/root.rs:42-83 | Empty input yields no entries. A block that fails fails the whole parse with its error. On success the first block's entries lead the result, and the blocks after it yield the rest. |
| Root.Parse | src/root.rs:25-85 | Under 4 bytes is `EmptyRoot`, and a TSFM prefix with fewer than 12 bytes is `TruncatedHeader`. On success the header selected a layout, and the result is the block parse of the bytes after the header. |
| Root.F2C | src/root.rs:15-22 | Succeeds exactly when some entry has the FileDataID. It returns the content key of the first such entry, and otherwise fails with `NoContentKey(fdid)`. |
| RootRoundTrip.RunningIdsOfDeltas | src/root.rs:52-56 | The running sum recovers any non-negative i32 ids from their deltas. |
| RootRoundTrip.ColumnsRoundTrip | src/root.rs:57-75 | Keys and name hashes read back in either layout, with or without skipping. |
| RootRoundTrip.BlockRoundTrip | src/root.rs:43-82 | A written block parses to its entries and leaves the bytes after it. |
| RootRoundTrip.BlocksRoundTrip | src/root.rs:42-83 | Blocks parse until the input ends, with entries in block order and then record order. |
| RootRoundTrip.TsfmHeaderRoundTrip | src/root.rs:30-36 | A TSFM header selects the column layout, with skipping enabled exactly when the counts differ. |
| RootRoundTrip.LegacyHeaderRoundTrip | src/root.rs:37-40 | Headerless blocks select the interleaved layout and are read from byte 0, provided the first record count does not spell "TSFM". |
| RootRoundTrip.RootRoundTrip | src/root.rs:25-85 | A written root file parses to the entries of its blocks, in order. |
| RootRoundTrip.ParsedLength | src/root.rs:76-83 | The parse result has as many entries as the blocks' record counts add up to. |
| RootRoundTrip.LocaleFlagsIgnored | src/root.rs:46 | Two files that differ only in locale flags parse alike. |
| RootRoundTrip.BlockIgnoresLocale | src/root.rs:46 | Changing the four locale bytes of any block input leaves the block parse unchanged. |
| Encoding.ParseHeaderAsWritten | src/encoding.rs:31-41 | The header as the code checks it: only 16 bytes are required up front. Success still implies 22 bytes were present. |
| Encoding.ShortHeaderPanics | src/encoding.rs:31-38 | A 16-byte input passes the length check and the field checks, then reads past its end. The corrected header parser rejects it as truncated. |
| Encoding.ParseHeader | src/encoding.rs:31-41 | With all 22 bytes required first: on success the magic is "EN", the version 1, both hash sizes 16 and byte 17 zero. The rest starts at byte 22, and no read runs past the end. |
| Encoding.ParseHeaderAgrees | src/encoding.rs:31 | Outside 16 to 21 bytes, the corrected header parser and the as-written one agree. |
| Encoding.ShortInputErrorDiffers | src/encoding.rs:31-32 | On 16 zero bytes the code reports `NotEncodingFormat`, while the corrected parse reports `TruncatedHeader`. |
| Encoding.CheckHeader | src/encoding.rs:32-41 | The field checks in source order: a wrong magic is `NotEncodingFormat`, then the version is checked. |
| Encoding.ParseEspecs | src/encoding.rs:42-47 | A table longer than the input is `TruncatedEspecTable`, and a non-UTF-8 piece is `BadEspec`. On success the pieces are NUL-free UTF-8, there is at least one, and joined with NUL they rebuild the table. |
| Encoding.FileSize | src/encoding.rs:64 | The size is below 2^40, and its high byte and low u32 are recovered from it. |
| Encoding.ReadPageTable | src/encoding.rs:48-52 | One entry per page, entry `i` being the big-endian first key and MD5 at byte 32·i. |
| Encoding.ScanContentPage | src/encoding.rs:60-75 | The scan stops with no records below 22 bytes or at ASCII '0'. A first record with another key is `FirstKeyMismatch`. The first record carries the declared key, and every record has a 40-bit size and under 256 keys. |
| Encoding.ZeroPaddingReadsAsRecord | src/encoding.rs:62 | Zero padding does not stop a scan: 22 zero bytes read as one more record. |
| Encoding.ScanEncodingPage | src/encoding.rs:89-99 | The scan stops below 25 bytes or at ASCII '0'. It checks the first key, and sizes are 40-bit. |
| Encoding.CheckPages | src/encoding.rs:54-59 | On success each page's MD5 equals its table hash, and each page scans to its records. |
| Encoding.ScanPages | src/encoding.rs:53-76 | On success one page is cut per table entry, and the pages and the rest rebuild the input. Page `i` of the input has the MD5 of table entry `i`, and it scans to the `i`-th result. |
| Encoding.ParsePages | src/encoding.rs:29-108 | On success the especs and the trailing espec are UTF-8. The especs are the table after the 22-byte header. The content pages are the scan of the pages after the content page table, and the encoding pages those after the encoding page table, which leave the trailing espec. The content map inserts every content record of those pages in file order, and the encoding map likewise. |
| Encoding.Parse | src/encoding.rs:29-108 | Input shorter than 22 bytes is `TruncatedHeader` (the corrected header check of the Findings row). Otherwise it succeeds exactly when the page parse does, with the same table. |
| Encoding.C2E | src/encoding.rs:18-26 | Succeeds exactly when the key is present with a non-empty list, and returns its first encoding key. An absent key is `NoEncodingKey` and an empty list is `MissingEncodingKey`. |
| Encoding.C2ELastRecord | src/encoding.rs:53-74 | A lookup answers from the last record with the key. If that record lists no encoding key the answer is `MissingEncodingKey`, whatever earlier records listed. |
| Encoding.C2EAbsent | src/encoding.rs:18-22 | A key no record carries is not found. |
| EncodingRoundTrip.HeaderRoundTrip | src/encoding.rs:31-41 | A written header reads back field by field. |
| EncodingRoundTrip.ContentRecordsRoundTrip | src/encoding.rs:60-74 | Written content records scan back, given the first key and a tail that stops the scan. |
| EncodingRoundTrip.EncodingRecordsRoundTrip | src/encoding.rs:89-98 | Written encoding records scan back. |
| EncodingRoundTrip.PageRoundTrip | src/encoding.rs:60-75 | A written page of either kind, padded with a '0' terminator, scans back to its records. |
| EncodingRoundTrip.CheckPagesRoundTrip | src/encoding.rs:54-76 | Pages whose table holds their first keys and MD5s check and scan back, page by page. |
| EncodingRoundTrip.PageTableRoundTrip | src/encoding.rs:48-52 | A written page table reads back entry by entry. |
| EncodingRoundTrip.EspecsRoundTrip | src/encoding.rs:42-47 | NUL-free UTF-8 especs, joined with NUL, read back as themselves. |
| EncodingRoundTrip.FileRoundTrip | src/encoding.rs:29-108 | A written file parses to its especs, its pages and its trailing espec. The maps insert every record in file order. |
| EncodingRoundTrip.LookupAfterWrite | src/encoding.rs:18-26 | On a written file, `c2e` answers from the last content record for the key over all pages. |
| EncodingRoundTrip.LookupAbsentAfterWrite | src/encoding.rs:18-22 | On a written file, a key no record carries is `NoEncodingKey`. |
| Archive.CheckFormat | src/archive.rs:31-50 | Succeeds exactly when the format bytes are 1, 0, 0, 4, 4, 4, 16, 8. Otherwise the first differing byte decides the error. |
| Archive.ScanBlock | src/archive.rs:73-88 | Success adds at least the block's last key and keeps every earlier location. Failures are only `DuplicateKey` or `LastKeyMismatch`. |
| Archive.BlockEntries | src/archive.rs:75-87 | The entries of a block up to and including the first with the last key. |
| ArchiveRoundTrip.ReadEntryBytes | src/archive.rs:76-78 | A written entry reads back as its key, size and offset, in that order, and leaves the bytes after its 24 bytes. |
| Archive.ScanBlockMeaning | src/archive.rs:73-88 | The scan succeeds exactly when the block holds its last key and the entries up to it are new and pairwise distinct. It then inserts exactly those entries. |
| Archive.InsertFreshCount | src/archive.rs:79-82 | Fresh entries grow the map by exactly their number. |
| Archive.ScanBlocks | src/archive.rs:66-90 | No blocks leave the map as it is. A first block with the wrong checksum is `BlockChecksum`, and a failing scan of it fails the whole. On success the first block scans on the map given, and the rest scan on the map it leaves. Earlier locations are kept, and new ones name the archive. |
| Archive.FreshAppend | src/archive.rs:79-82 | Two runs of entries are duplicate-free together exactly when the first is, and the second is free of the keys the first inserts. |
| Archive.ScanBlocksMeaning | src/archive.rs:66-90 | The blocks succeed exactly when each matches its checksum, each holds its last key, and no key repeats among the entries up to the last keys, across all blocks. The map is then the insertion of exactly those entries. |
| Archive.CheckFooter | src/archive.rs:23-61 | Succeeds exactly when the MD5 of the footer is the name, the TOC checksum matches, the format bytes are as expected, and the footer checksum over bytes 8..20 zero-padded matches. It returns the little-endian element count. |
| Archive.FooterToCheck | src/archive.rs:55-56 | The footer-checksum input is footer bytes 8..20 padded to 20 bytes. |
| Archive.WholeBlocks | src/archive.rs:16-22 | The non-footer size must be a multiple of 4120, and the block count is the quotient. |
| Archive.ParseRegions | src/archive.rs:62-95 | On success the footer checks pass, and the blocks, with the last keys and checksums of the table of contents, scan from the empty map to the result. The element count equals the footer's, and every location names the archive. |
| Archive.ParseIndex | src/archive.rs:14-96 | Under 28 bytes is `TruncatedIndex`, and a size that is not whole blocks is `InvalidFormat`. On success the footer's MD5 is the name, the format bytes are as expected, and the map size is the footer count. The result is the parse of the blocks, table of contents and footer cut from the input. |
| Archive.ParseIndexMeaning | src/archive.rs:14-96 | A parsed index has whole blocks, each matching its checksum and holding its last key. No key repeats among the entries up to the last keys, the map holds exactly those entries, and their number is the footer count. |
| Archive.ParseIndexRegions | src/archive.rs:16-26 | An index of blocks, TOC and footer is cut at those boundaries. |
| ArchiveRoundTrip.BlockEntriesOfBytes | src/archive.rs:75-87 | Written entries read back up to the last key. |
| ArchiveRoundTrip.FooterRoundTrip | src/archive.rs:23-61 | A written footer passes every footer check and announces its count. |
| ArchiveRoundTrip.ScanBlocksOfEntries | src/archive.rs:66-90 | Written blocks of fresh entries check and scan to the insertion of all their entries. |
| ArchiveRoundTrip.IndexRoundTrip | src/archive.rs:14-96 | A written index parses to exactly its entries, each located in the archive its footer names. |
| ArchiveRoundTrip.IndexLookup | src/archive.rs:76-80 | Every written entry is found, with size then offset as written. |
| Blte.DecodeChunk | src/blte.rs:6-16 | 'N' yields the payload unchanged, and 'Z' yields its inflation or `InflateError`. Any other mode byte is `InvalidEncoding`, and an empty chunk is a short read. |
| Blte.ReadChunkInfos | src/blte.rs:29-35 | Succeeds exactly when 24·n bytes remain. It yields n entries, entry `i` read from byte 24·i, and leaves the bytes after them. |
| Blte.ChunkCount | src/blte.rs:27 | The chunk count is 24-bit. |
| Blte.DecodeChunks | src/blte.rs:37-44 | On success the input holds every chunk, each cut where the previous ended. Every chunk has its entry's MD5, decodes, and yields its entry's uncompressed size. The output is the decoded chunks concatenated in table order, and the rest is what follows the last chunk. |
| Blte.CutChunks | src/blte.rs:37-44 | Chunk `i` is as long as entry `i`'s compressed size, and the chunks concatenated are the input up to the compressed total. |
| Blte.DecodeChunksAccepts | src/blte.rs:37-44 | Conversely, an input that holds every chunk, each matching its entry, decodes to the chunks' data concatenated, with the rest after the last chunk. |
| Blte.ParseTable | src/blte.rs:26-46 | With a non-zero header size, success needs flag 0x0F, header size 24·count+12, and chunks that exactly fill the input and each match their entry. |
| Blte.ParseAccepts | src/blte.rs:18-47 | Conversely, a well-formed header and table whose chunks fill the input and each match their entry decode to the chunks' data in order. |
| Blte.Parse | src/blte.rs:18-47 | Under 12 bytes is `TruncatedHeader` and a wrong magic is `NotBlte`. Header size 0 decodes the rest as one chunk. Otherwise success needs flag 0x0F and header size 24·count+12. The chunks must fill the input after the table exactly, every chunk must match its entry's MD5 and uncompressed size, and the output is their decoded data in table order. |
| BlteRoundTrip.DecodeChunksBytes | src/blte.rs:37-44 | Written chunks decode to their data concatenated in order. |
| BlteRoundTrip.ReadInfoBytes | src/blte.rs:30-34 | A written table entry reads back as compressed size, uncompressed size and MD5, in that order. |
| BlteRoundTrip.BlteRoundTrip | src/blte.rs:18-47 | A written container decodes to its chunks' data, concatenated in header order. |
| BlteRoundTrip.SingleRoundTrip | src/blte.rs:22-25 | A table-less container of at least 12 bytes decodes its single chunk. |
| BlteRoundTrip.ShortSingleRefused | src/blte.rs:20 | A table-less container under 12 bytes is refused even when its chunk is well formed. |
| Ribbit.Dec32 | src/ribbit.rs:51-53 | Succeeds exactly when a digit run starts the input and its value fits in a u32. It returns that value and the rest after the run. |
| Ribbit.Hex128 | src/ribbit.rs:55-57 | Succeeds exactly when a hex run starts the input and its value fits in a u128. |
| Ribbit.TakeUntilNewline | src/ribbit.rs:102 | Succeeds exactly when the input holds a newline. It splits the input before the first newline, so the taken part has none. |
| Ribbit.SeqnLine | src/ribbit.rs:105 | Succeeds exactly when the input starts with `## seqn = `, then a `dec32`, then a newline. It returns that number and the text after the newline. |
| Ribbit.SummaryRowP | src/ribbit.rs:66-73 | A parsed row's product is a non-empty run without a bar, and the row consumes input. |
| Ribbit.SetField | src/ribbit.rs:78-83 | The named field is set, and the other two are unchanged. |
| Ribbit.MergeRows | src/ribbit.rs:74-86 | The merged map has exactly the starting products and the products named by rows. |
| Ribbit.MergeRowsFields | src/ribbit.rs:77-84 | Each field is the number of the last row for that product and flag. Failing that it is the starting value, and otherwise None. |
| Ribbit.MergeRowsSnoc | src/ribbit.rs:75-85 | One more row updates one field of one entry and nothing else. |
| Ribbit.SummaryRows | src/ribbit.rs:65-87 | The fold stops where no row parses. |
| Ribbit.ParseSummary | src/ribbit.rs:59-98 | On success the input starts with the exact header line, and the next line is `## seqn = ` with a u32. The rows consume the rest of the input, and the entries are the rows merged per product. |
| Ribbit.VersionsRowP | src/ribbit.rs:106-114 | A versions row's region is a non-empty run without a bar. |
| Ribbit.VersionsRows | src/ribbit.rs:106-130 | The fold stops where no row parses, and every collected row has a non-empty, bar-free region. |
| Ribbit.ParseVersions | src/ribbit.rs:100-136 | On success the first line ends at a newline, whatever it holds, and the second line is the seqn line giving `seqn`. The rows consume the rest of the input. The entries are the rows inserted by region in order, so every key is its entry's region. |
| Ribbit.KeyedByRegion | src/ribbit.rs:116-128 | Inserting entries under their regions keeps every key equal to its entry's region. |
| RibbitRoundTrip.Dec32Of | src/ribbit.rs:51-53 | A decimal u32 followed by a non-digit reads back. |
| RibbitRoundTrip.Hex128Of | src/ribbit.rs:55-57 | A 32-digit lower-case hash followed by a non-hex character reads back. |
| RibbitRoundTrip.ReadSummaryRow | src/ribbit.rs:66-73 | A row of product, number and flag reads back. |
| RibbitRoundTrip.SummaryRoundTrip | src/ribbit.rs:59-98 | A written summary parses to its seqn and its rows merged per product. |
| RibbitRoundTrip.SummaryMeaning | src/ribbit.rs:74-86 | A parsed summary has one entry per product named in a row. Per flag, the entry holds the last number given for it, or None. |
| RibbitRoundTrip.MergeExample | src/ribbit.rs:185-207 | The rows of the repository's test merge to the expected two entries. |
| RibbitRoundTrip.ReadVersionsRow | src/ribbit.rs:107-114 | A versions row, with its empty column between the cdn config and the build id, reads back. |
| RibbitRoundTrip.VersionsRoundTrip | src/ribbit.rs:100-136 | A written versions table parses to its seqn and its entries keyed by region, whatever its first line holds. |
| RibbitRoundTrip.VersionsMeaning | src/ribbit.rs:116-128 | The parsed entry for a region is the last row written for it. |
| Db2Layout.ParseHeader | src/db2.rs:7-29 | Succeeds exactly when the 72 header bytes plus the padding are present. The magic is the first 4 bytes. |
| Db2Layout.ParseSectionHeader | src/db2.rs:31-42 | Succeeds exactly when 40 bytes are present, and consumes exactly those 40 bytes. |
| Db2Layout.ParseSectionHeaders | src/db2.rs:118-119 | Succeeds exactly when 40 bytes per header are present. It yields the announced number of headers and leaves the bytes after them. |
| Db2Layout.ParseSection | src/db2.rs:80-98 | On success there are record_count records of record_size bytes, string_table_size table bytes and id_list_size/4 ids. The section ends where the relationship data ends. |
| Db2Layout.ParseSections | src/db2.rs:100-112 | One section per header. The first section is parsed at the start, and the remaining sections are parsed from where it ended. A section that does not fit fails the whole parse. Every record has the record size. |
| Db2Layout.ParseFile | src/db2.rs:114-130 | The parsed file has as many sections as the header says, with records of the header's record size. |
| Db2LayoutRoundTrip.FileRoundTrip | src/db2.rs:114-130 | A written file parses back to itself, with either header padding. |
| Db2.RecordBaseIsProduct | src/db2.rs:168 | The distance from record k to the string table is (num_records - k)·rsize. |
| Db2.FieldString | src/db2.rs:164-173 | A decoded string is NUL-free UTF-8. It fails with `OffsetUnderflow` exactly when the string would start before the table (value + offset below the base, the corrected order of the Findings row), and otherwise only on the UTF-8 check. |
| Db2.FieldStringMeaning | src/db2.rs:164-171 | A field refers to the NUL-terminated string at value - (num_records - k)·rsize + offset. It fails with `OffsetUnderflow` exactly when that position is negative, and otherwise as the UTF-8 check of that string decides. |
| Db2.FieldStringAsWritten | src/db2.rs:164-173 | As written, the early subtraction makes the field fail with `OffsetUnderflow` exactly when its value is below the base. |
| Db2.FieldStringAsWrittenMeaning | src/db2.rs:168 | As written, `OffsetUnderflow` occurs exactly when the table position is below the field's own offset. That includes positions inside the table. |
| Db2.FieldStringAgrees | src/db2.rs:168 | The written and corrected computations agree whenever the value reaches the base, and whenever the string would lie before the table. |
| Db2.UnderflowAsWritten | src/db2.rs:168 | In a single 8-byte record, a field at byte 4 holding 4 refers to table position 0. As written it underflows, and the corrected computation returns the first string. |
| Wrappers.Collect | src/db2.rs:175-177 | The collected list succeeds exactly when every element does, and then lists their values in order. On failure the error is that of the first failing element. |
| Db2.FieldStrings | src/db2.rs:161-175 | One string per field word on success, each NUL-free UTF-8. |
| Db2.RecordsStrings | src/db2.rs:157-177 | Succeeds exactly when every record's fields decode, and then lists them record by record. |
| Db2.FileStrings | src/db2.rs:143-178 | A wrong magic, wrong flags or a section count other than 1 are rejected, in that order. On success the file passes all checks, and the result inserts id k with the strings of record k, in order. |
| Db2.Strings | src/db2.rs:132-143 | A layout failure is `ParseError`, and a parsed file gives the strings of that file. Success implies the magic is WDC5. |
| Db2.FileStringsMeaning | src/db2.rs:157-178 | For the last record with an id, the entry has rsize/4 strings. Field j is the C string at the table position of its u32 value, which is not negative. |
| Db2.FileStringsKeys | src/db2.rs:178 | The result's keys are exactly the section's ids. |
| Db2.UnderflowFails | src/db2.rs:168 | A single field whose string would lie before the start of the string table makes the call fail. |
| Db2.StringsOfWritten | src/db2.rs:132-143 | A written WDC5 file yields the strings of the file it was written from. |
| Wdc3.Strings | src/wdc3.rs:128-137 | A layout failure is `ParseError`, and no sections is `NoSections`. Success holds exactly when every piece is UTF-8. There are k+1 pieces for k NULs, NUL-free, and joined with NUL they rebuild the table. |
| Wdc3.StringsRoundTrip | src/wdc3.rs:128-137 | A file whose first table is NUL-joined NUL-free UTF-8 strings yields exactly those strings. |
| Types.KeyHex | src/types.rs:3-13 | The display is 32 lower-case hex digits whose base-16 value is the key. |
| Types.ArchiveKey.ToString | src/types.rs:3-5 | An archive key displays as 32 lower-case hex digits whose value is the key. |
| Types.ContentKey.ToString | src/types.rs:7-9 | A content key displays as 32 lower-case hex digits whose value is the key. |
| Types.EncodingKey.ToString | src/types.rs:11-13 | An encoding key displays as 32 lower-case hex digits whose value is the key. |
| Types.KeyHexCanonical | src/types.rs:3-13 | Any 32-digit lower-case spelling of the value is the display, so displays are unique. |
| Types.ContentKeyDisplayInjective | src/types.rs:7-9 | Two content keys display alike exactly when they are equal. |

## Left out

- `src/main.rs` (HTTP fetching) and the `Ribbit` struct with `new` and `command` (`src/ribbit.rs:139-176`) are I/O: a TCP socket and MIME multipart reading.
- `util::md5hash` and zlib inflate are parameters, not implemented.
- HashMap iteration order and hashing are not modelled. Maps are Dafny `map`s.
- Rust `String`s built from bytes are modelled as their bytes, with a UTF-8 well-formedness predicate. The Ribbit parsers take `string` input, because they parse a `&str`.
- nom error values are not modelled. A failed Ribbit or DB2 parse is `None`, which `strings` reports as "parse error".
- Panics are errors: short reads (`ShortRead`), i32 overflow of the FileDataID sum (`FdidOverflow`), a DB2 skip count below zero (`OffsetUnderflow`), `data[0]` on an empty BLTE chunk, and `sections[0]` with no sections (`NoSections`).
- Conversions with `try_into()` from u32 to usize are assumed to succeed, as on 64-bit targets. On such targets no usize product in these parsers can overflow, because each multiplies two u32 values.
- The encoding table's `_emap` and `_especs` are built and kept, but nothing reads them; no lookup on them is modelled.
- Encoding.Parse: uses the corrected header check of the Findings row. On inputs of 16 to 21 bytes the code reports the first failing field check, or panics, where the model reports `TruncatedHeader`. `Encoding.ShortInputErrorDiffers` shows this on 16 zero bytes, and `Encoding.ParseHeaderAgrees` shows that the two checks agree on every other length.
- Arithmetic is modelled with Rust's overflow checks on, as in a debug build: an overflowing i32 or unsigned operation is an error where a release build would wrap. The sources include no Cargo profile that would settle which build is meant.
- Db2.Strings: uses the corrected skip count of the Findings row. Where the code's early subtraction `value - (num_records - k) * rsize` underflows but adding the offset brings the count back into the table, the model returns that string, while the code panics in a debug build. `Db2.UnderflowAsWritten` shows one such field, and `Db2.FieldStringAgrees` shows that the two agree on every other field.
- Root.Parse: its contract gives the header errors and reduces success to `Root.ParseBlocks`. Which entries a file yields is stated by `RootRoundTrip.RootRoundTrip` and `RootRoundTrip.ParsedLength`, for files the writer produces.
- Db2.FieldStrings: states only which errors can occur. `Wrappers.Collect` states that the first failing field decides the error.
- The page scans stop at ASCII '0' (0x30), not at a zero byte. The model follows the code, and `Encoding.ZeroPaddingReadsAsRecord` records the consequence. Whether a NUL was intended cannot be told from the code.
- `f2c` has no locale selection. It returns the first entry with the FileDataID.
- The encoding lookup has no binary search over sorted pages. Every page is scanned, and the later record for a key wins.
- `c2e` on a content key with an empty encoding-key list fails with `MissingEncodingKey`.
- Archive index entries are read size then offset.
- A key listed twice in one archive index is an error, not tolerated.

## Findings

| source | as written | input that shows it | evidently intended | confidence | as-written member | corrected member |
|---|---|---|---|---|---|---|
| src/encoding.rs:31 | The header check requires 16 bytes, but the header is 22 bytes long. | The 16 bytes "EN", 1, 16, 16 and eleven zeros pass every check up to the encoding page count, whose read runs past the end (a panic). | Require all 22 header bytes before reading, and report "truncated encoding header". | high; not executed | Encoding.ShortHeaderPanics | Encoding.ParseHeader |
| src/db2.rs:168 | The skip count is computed as `value - (num_records - k) * rsize + offset`, left to right. The subtraction underflows whenever a field's string lies at a table position below the field's own offset. | One record of 8 bytes whose field at byte 4 holds 4: its string starts at table position 0, but `4 - 8` underflows (a panic with overflow checks on). | `value + offset - (num_records - k) * rsize`, which underflows only for a string before the table. | medium; not executed (a release build wraps and reaches the intended position) | Db2.FieldStringAsWritten | Db2.FieldString |
