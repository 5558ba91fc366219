/** The encoding table (`src/encoding.rs`): content key -> encoding keys.

    The file is a 22-byte big-endian header, an "espec" string table, a
    table of content pages (first key and MD5 of each page), the content
    pages, a table of encoding pages, the encoding pages, and a trailing
    espec string.  Every page is checksummed and scanned for fixed-layout
    records; each record is inserted into a map, a later record for the
    same key replacing an earlier one.  MD5 is a parameter. */
module Encoding {
  import opened Wrappers
  import opened Bytes
  import opened Text
  import opened Maps
  import opened Types

  datatype EncodingError =
    | TruncatedHeader         // "truncated encoding header"
    | NotEncodingFormat       // "not encoding format"
    | UnsupportedVersion      // "unsupported encoding version"
    | UnsupportedCKeySize     // "unsupported ckey hash size"
    | UnsupportedEKeySize     // "unsupported ekey hash size"
    | NonzeroHeaderByte       // "unexpected nonzero byte in header"
    | TruncatedEspecTable     // "truncated espec table"
    | BadEspec                // "parsing encoding espec"
    | TruncatedPageTable      // the page table is longer than the input
    | ContentPageChecksum     // "content page checksum"
    | EncodingPageChecksum    // "encoding page checksum"
    | FirstKeyMismatch        // "first key mismatch in content"
    | TruncatedEKeys          // a record's encoding keys overrun its page
    | BadTrailingEspec        // the trailing espec is not UTF-8
    | ShortRead               // a read past the end of the input (a panic)
    | NoEncodingKey(c: ContentKey)       // "no encoding key for content key {}"
    | MissingEncodingKey(c: ContentKey)  // "missing encoding key for content key {}"

  /** The header fields the parser keeps. */
  datatype Header = Header(cpagekb: U16, epagekb: U16, ccount: U32, ecount: U32, especSize: U32)

  const Magic: Bytes := [0x45, 0x4E]   // "EN"
  const HeaderSize: nat := 22

  /** Header checks as the source writes them: only 16 bytes are required up
      front, although the header is 22 bytes long, so an input of 16 to 21
      bytes that passes the first checks reads past its end. */
  function ParseHeaderAsWritten(data: Bytes): (r: Result<(Header, Bytes), EncodingError>)
    ensures |data| < 16 ==> r == Err(TruncatedHeader)
    ensures r.Ok? ==> |data| >= HeaderSize && r.value.1 == data[HeaderSize..]
  {
    if |data| < 16 then Err(TruncatedHeader)
    else CheckHeader(data)
  }

  /** The header, requiring all 22 bytes before reading any field. */
  function ParseHeader(data: Bytes): (r: Result<(Header, Bytes), EncodingError>)
    ensures |data| < HeaderSize ==> r == Err(TruncatedHeader)
    ensures r != Err(ShortRead)
    ensures r.Ok? ==>
      && |data| >= HeaderSize
      && data[..2] == Magic && data[2] == 1 && data[3] == 16 && data[4] == 16 && data[17] == 0
      && r.value.1 == data[HeaderSize..]
  {
    if |data| < HeaderSize then Err(TruncatedHeader)
    else CheckHeader(data)
  }

  /** The field checks shared by both versions, in the source's order; a
      read past the end is `ShortRead`. */
  function CheckHeader(data: Bytes): (r: Result<(Header, Bytes), EncodingError>)
    requires |data| >= 16
    ensures |data| >= HeaderSize ==> r != Err(ShortRead)
    ensures data[..2] != Magic ==> r == Err(NotEncodingFormat)
    ensures data[..2] == Magic && data[2] != 1 ==> r == Err(UnsupportedVersion)
    ensures r.Ok? ==>
      && |data| >= HeaderSize
      && data[..2] == Magic && data[2] == 1 && data[3] == 16 && data[4] == 16 && data[17] == 0
      && r.value.1 == data[HeaderSize..]
  {
    if data[..2] != Magic then Err(NotEncodingFormat)
    else if data[2] != 1 then Err(UnsupportedVersion)
    else if data[3] != 16 then Err(UnsupportedCKeySize)
    else if data[4] != 16 then Err(UnsupportedEKeySize)
    else if |data| < 18 then Err(ShortRead)
    else if data[17] != 0 then Err(NonzeroHeaderByte)
    else if |data| < HeaderSize then Err(ShortRead)
    else
      Ok((Header(U16BE(data[5..]), U16BE(data[7..]), U32BE(data[9..]), U32BE(data[13..]),
                 U32BE(data[18..])), data[HeaderSize..]))
  }

  /** Sixteen bytes that pass the source's header checks and then run out
      while the encoding page count is read. */
  const ShortHeader: Bytes := Magic + [1, 16, 16] + Zeros(11)

  lemma ShortHeaderPanics()
    ensures |ShortHeader| == 16
    ensures ParseHeaderAsWritten(ShortHeader) == Err(ShortRead)
    ensures ParseHeader(ShortHeader) == Err(TruncatedHeader)
  {
    assert ShortHeader[..2] == Magic;
  }

  /** Outside the 16..21-byte gap the two header parsers agree. */
  lemma ParseHeaderAgrees(data: Bytes)
    requires |data| < 16 || |data| >= HeaderSize
    ensures ParseHeader(data) == ParseHeaderAsWritten(data)
  {
  }

  /** Between 16 and 21 bytes the corrected header reports truncation
      where the code reports the first failing field check: 16 zero bytes
      are "not encoding format" as written. */
  lemma ShortInputErrorDiffers(md5: Bytes -> U128)
    ensures ParseHeaderAsWritten(Zeros(16)) == Err(NotEncodingFormat)
    ensures Parse(md5, Zeros(16)) == Err(TruncatedHeader)
  {
    assert Zeros(16)[..2] == [0, 0];
  }

  /** The espec table: `size` bytes split on NUL, every piece UTF-8. */
  function ParseEspecs(p: Bytes, size: nat): (r: Result<(seq<Bytes>, Bytes), EncodingError>)
    ensures |p| < size ==> r == Err(TruncatedEspecTable)
    ensures |p| >= size && !AllUtf8(Split(p[..size], 0)) ==> r == Err(BadEspec)
    ensures r.Ok? ==>
      && |p| >= size
      && |r.value.0| >= 1
      && Join(r.value.0, 0) == p[..size]
      && AllUtf8(r.value.0)
      && (forall i :: 0 <= i < |r.value.0| ==> 0 !in r.value.0[i])
      && r.value.1 == p[size..]
  {
    if |p| < size then Err(TruncatedEspecTable)
    else
      var especs := Split(p[..size], 0);
      if !AllUtf8(especs) then Err(BadEspec)
      else
        JoinSplit(p[..size], 0);
        SplitShape(p[..size], 0);
        Ok((especs, p[size..]))
  }

  /** A page-table entry: the first key of the page and the page's MD5. */
  datatype PageEntry = PageEntry(firstKey: U128, hash: U128)

  function ReadPageTable(p: Bytes, n: nat): (t: seq<PageEntry>)
    requires |p| >= 32 * n
    ensures |t| == n
    ensures forall i :: 0 <= i < n ==> t[i] == PageEntry(U128BE(p[32 * i..]), U128BE(p[32 * i + 16..]))
    decreases n
  {
    if n == 0 then []
    else
      var more := ReadPageTable(p[32..], n - 1);
      var t := [PageEntry(U128BE(p), U128BE(p[16..]))] + more;
      assert forall i :: 1 <= i < n ==> t[i] == PageEntry(U128BE(p[32 * i..]), U128BE(p[32 * i + 16..])) by {
        forall i | 1 <= i < n
          ensures t[i] == PageEntry(U128BE(p[32 * i..]), U128BE(p[32 * i + 16..]))
        {
          assert t[i] == more[i - 1];
          assert p[32..][32 * (i - 1)..] == p[32 * i..];
          assert p[32..][32 * (i - 1) + 16..] == p[32 * i + 16..];
        }
      }
      t
  }

  /** `(u64::from(high) << 32) | u64::from(low)`: a 40-bit size. */
  function FileSize(high: Byte, low: U32): (r: U64)
    ensures r < 0x100_0000_0000
    ensures r / TwoTo32 == high && r % TwoTo32 == low
  {
    high * TwoTo32 + low
  }

  /** The byte that ends a page scan: ASCII '0'. */
  const AsciiZero: Byte := 0x30

  const ContentRecordSize: nat := 22
  const EncodingRecordSize: nat := 25

  /** The scan of a page stops when fewer than `recordSize` bytes remain or
      the next byte is ASCII '0'. */
  predicate ScanStops(page: Bytes, recordSize: nat)
    requires recordSize > 0
  {
    |page| < recordSize || page[0] == AsciiZero
  }

  datatype ContentRecord = ContentRecord(ckey: ContentKey, ekeys: seq<EncodingKey>, fileSize: U64)

  function EncodingKeys(ks: seq<U128>): (es: seq<EncodingKey>)
    ensures |es| == |ks| && forall i :: 0 <= i < |ks| ==> es[i] == EncodingKey(ks[i])
  {
    seq(|ks|, i requires 0 <= i < |ks| => EncodingKey(ks[i]))
  }

  /** The records of one content page: a key count byte, a 40-bit file
      size, the content key, then that many encoding keys.  The first
      record of the page must carry the page's declared first key. */
  function ScanContentPage(page: Bytes, firstKey: U128, first: bool): (r: Result<seq<ContentRecord>, EncodingError>)
    ensures ScanStops(page, ContentRecordSize) ==> r == Ok([])
    ensures !ScanStops(page, ContentRecordSize) && first && U128BE(page[6..]) != firstKey ==>
      r == Err(FirstKeyMismatch)
    ensures r.Ok? && first && |r.value| > 0 ==> r.value[0].ckey == ContentKey(firstKey)
    ensures r.Ok? ==> forall i :: 0 <= i < |r.value| ==>
      r.value[i].fileSize < 0x100_0000_0000 && |r.value[i].ekeys| < 0x100
    decreases |page|
  {
    if ScanStops(page, ContentRecordSize) then Ok([])
    else
      var keyCount: nat := page[0];
      var fileSize := FileSize(page[1], U32BE(page[2..]));
      var ckey := U128BE(page[6..]);
      if first && ckey != firstKey then Err(FirstKeyMismatch)
      else
        var body := page[ContentRecordSize..];
        if |body| < 16 * keyCount then Err(TruncatedEKeys)
        else
          var rest :- ScanContentPage(body[16 * keyCount..], firstKey, false);
          Ok([ContentRecord(ContentKey(ckey), EncodingKeys(U128BEs(body, keyCount)), fileSize)] + rest)
  }

  /** Zero padding does not end a scan: after the first record, 22 zero
      bytes read as one more record, with the all-zero content key, no
      encoding keys and size 0. */
  lemma ZeroPaddingReadsAsRecord(firstKey: U128)
    ensures ScanContentPage(Zeros(ContentRecordSize), firstKey, false)
      == Ok([ContentRecord(ContentKey(0), [], 0)])
  {
    var z := Zeros(ContentRecordSize);
    assert z[2..][..4] == Zeros(4);
    assert z[6..][..16] == Zeros(16);
    BEZeros(4);
    BEZeros(16);
    assert z[0] == 0 && z[1] == 0;
    assert U32BE(z[2..]) == 0 && U128BE(z[6..]) == 0;
    assert FileSize(z[1], U32BE(z[2..])) == 0;
    var body := z[ContentRecordSize..];
    assert body == [] && body[0..] == [];
    assert EncodingKeys(U128BEs(body, 0)) == [];
    assert ScanContentPage(body, firstKey, false) == Ok([]);
    var rec := ContentRecord(ContentKey(0), [], 0);
    assert [rec] + [] == [rec];
  }

  datatype EncodingRecord = EncodingRecord(ekey: U128, index: U32, fileSize: U64)

  /** The records of one encoding page: the encoding key, a u32 index and a
      40-bit file size. */
  function ScanEncodingPage(page: Bytes, firstKey: U128, first: bool): (r: Result<seq<EncodingRecord>, EncodingError>)
    ensures ScanStops(page, EncodingRecordSize) ==> r == Ok([])
    ensures !ScanStops(page, EncodingRecordSize) && first && U128BE(page) != firstKey ==>
      r == Err(FirstKeyMismatch)
    ensures r.Ok? && first && |r.value| > 0 ==> r.value[0].ekey == firstKey
    ensures r.Ok? ==> forall i :: 0 <= i < |r.value| ==> r.value[i].fileSize < 0x100_0000_0000
    decreases |page|
  {
    if ScanStops(page, EncodingRecordSize) then Ok([])
    else
      var ekey := U128BE(page);
      var index := U32BE(page[16..]);
      var fileSize := FileSize(page[20], U32BE(page[21..]));
      if first && ekey != firstKey then Err(FirstKeyMismatch)
      else
        var rest :- ScanEncodingPage(page[EncodingRecordSize..], firstKey, false);
        Ok([EncodingRecord(ekey, index, fileSize)] + rest)
  }

  /** Which kind of page a scan reads. */
  datatype PageKind = ContentPages | EncodingPages

  /** The records of a page of either kind. */
  datatype PageRecords = CRecords(crecs: seq<ContentRecord>) | ERecords(erecs: seq<EncodingRecord>)

  function ScanPage(kind: PageKind, page: Bytes, firstKey: U128): (r: Result<PageRecords, EncodingError>)
    ensures r.Ok? ==> (r.value.CRecords? <==> kind == ContentPages)
  {
    match kind
    case ContentPages =>
      var rs :- ScanContentPage(page, firstKey, true);
      Ok(CRecords(rs))
    case EncodingPages =>
      var rs :- ScanEncodingPage(page, firstKey, true);
      Ok(ERecords(rs))
  }

  function ChecksumError(kind: PageKind): EncodingError
  {
    match kind
    case ContentPages => ContentPageChecksum
    case EncodingPages => EncodingPageChecksum
  }

  /** Each page in table order: its checksum is compared with the table
      entry, then it is scanned.  A table entry without a whole page left
      in the input is a read past the end. */
  function CheckPages(md5: Bytes -> U128, kind: PageKind, pages: seq<Bytes>, table: seq<PageEntry>)
    : (r: Result<seq<PageRecords>, EncodingError>)
    ensures r.Ok? ==> |pages| >= |table| && |r.value| == |table|
    ensures r.Ok? ==> forall i :: 0 <= i < |table| ==> md5(pages[i]) == table[i].hash
    ensures r.Ok? ==> forall i :: 0 <= i < |table| ==>
      ScanPage(kind, pages[i], table[i].firstKey) == Ok(r.value[i])
    decreases |table|
  {
    if |table| == 0 then Ok([])
    else if |pages| == 0 then Err(ShortRead)
    else if table[0].hash != md5(pages[0]) then Err(ChecksumError(kind))
    else
      var recs :- ScanPage(kind, pages[0], table[0].firstKey);
      var rest :- CheckPages(md5, kind, pages[1..], table[1..]);
      assert forall i :: 1 <= i < |table| ==> pages[i] == pages[1..][i - 1] && table[i] == table[1..][i - 1];
      Ok([recs] + rest)
  }

  /** The pages that follow a page table, one per table entry, each
      `pageSize` bytes.  The result lists the scanned records page by page
      and the input after the last page. */
  function ScanPages(md5: Bytes -> U128, kind: PageKind, p: Bytes, table: seq<PageEntry>, pageSize: nat)
    : (r: Result<(seq<PageRecords>, Bytes), EncodingError>)
    ensures r.Ok? ==> |Chunks(p, |table|, pageSize)| == |table|
    ensures r.Ok? ==> Flatten(Chunks(p, |table|, pageSize)) + r.value.1 == p
    ensures r.Ok? ==> CheckPages(md5, kind, Chunks(p, |table|, pageSize), table) == Ok(r.value.0)
    ensures r.Ok? ==> |r.value.0| == |table| && forall i :: 0 <= i < |table| ==>
      && md5(Chunks(p, |table|, pageSize)[i]) == table[i].hash
      && ScanPage(kind, Chunks(p, |table|, pageSize)[i], table[i].firstKey) == Ok(r.value.0[i])
  {
    var pages := Chunks(p, |table|, pageSize);
    var recs :- CheckPages(md5, kind, pages, table);
    var used := |Flatten(pages)|;
    assert p == p[..used] + p[used..];
    Ok((recs, p[used..]))
  }

  datatype CEntry = CEntry(ekeys: seq<EncodingKey>, fileSize: U64)
  datatype EEntry = EEntry(index: U32, fileSize: U64)

  /** The parsed table.  Only `cmap` is consulted by lookups. */
  datatype EncodingTable = EncodingTable(
    especs: seq<Bytes>,
    cmap: map<ContentKey, CEntry>,
    emap: map<U128, EEntry>,
    espec: Bytes)

  function ContentPairs(rs: seq<ContentRecord>): (kvs: seq<(ContentKey, CEntry)>)
    ensures |kvs| == |rs|
    ensures forall i :: 0 <= i < |rs| ==> kvs[i] == (rs[i].ckey, CEntry(rs[i].ekeys, rs[i].fileSize))
  {
    seq(|rs|, i requires 0 <= i < |rs| => (rs[i].ckey, CEntry(rs[i].ekeys, rs[i].fileSize)))
  }

  function EncodingPairs(rs: seq<EncodingRecord>): (kvs: seq<(U128, EEntry)>)
    ensures |kvs| == |rs|
    ensures forall i :: 0 <= i < |rs| ==> kvs[i] == (rs[i].ekey, EEntry(rs[i].index, rs[i].fileSize))
  {
    seq(|rs|, i requires 0 <= i < |rs| => (rs[i].ekey, EEntry(rs[i].index, rs[i].fileSize)))
  }

  /** All content records, page after page. */
  function ContentRecords(pages: seq<PageRecords>): seq<ContentRecord>
  {
    if |pages| == 0 then []
    else (if pages[0].CRecords? then pages[0].crecs else []) + ContentRecords(pages[1..])
  }

  function EncodingRecords(pages: seq<PageRecords>): seq<EncodingRecord>
  {
    if |pages| == 0 then []
    else (if pages[0].ERecords? then pages[0].erecs else []) + EncodingRecords(pages[1..])
  }

  /** The content map: every record inserted in file order. */
  function ContentMap(rs: seq<ContentRecord>): map<ContentKey, CEntry>
  {
    InsertAll(map[], ContentPairs(rs))
  }

  function EncodingMap(rs: seq<EncodingRecord>): map<U128, EEntry>
  {
    InsertAll(map[], EncodingPairs(rs))
  }

  /** The result of a successful parse, the pieces it was built from, and
      where the trailing espec starts. */
  datatype Parsed = Parsed(table: EncodingTable, cpages: seq<PageRecords>, epages: seq<PageRecords>)

  /** `encoding::parse`, also returning the scanned pages. */
  function ParsePages(md5: Bytes -> U128, data: Bytes): (r: Result<Parsed, EncodingError>)
    ensures |data| < HeaderSize ==> r == Err(TruncatedHeader)
    ensures r.Ok? ==> ValidUtf8(r.value.table.espec) && AllUtf8(r.value.table.especs)
    ensures r.Ok? ==> r.value.table.cmap == ContentMap(ContentRecords(r.value.cpages))
    ensures r.Ok? ==> r.value.table.emap == EncodingMap(EncodingRecords(r.value.epages))
    ensures r.Ok? ==>
      && ParseHeader(data).Ok?
      && var h := ParseHeader(data).value.0;
         var afterHeader := ParseHeader(data).value.1;
         && |afterHeader| >= h.especSize
         && var p := afterHeader[h.especSize..];
            && ParseEspecs(afterHeader, h.especSize) == Ok((r.value.table.especs, p))
            && |p| >= 32 * h.ccount
            && var cp := ScanPages(md5, ContentPages, p[32 * h.ccount..], ReadPageTable(p, h.ccount), h.cpagekb * 1024);
               && cp.Ok? && cp.value.0 == r.value.cpages
               && |cp.value.1| >= 32 * h.ecount
               && ScanPages(md5, EncodingPages, cp.value.1[32 * h.ecount..], ReadPageTable(cp.value.1, h.ecount),
                            h.epagekb * 1024) == Ok((r.value.epages, r.value.table.espec))
  {
    var hp :- ParseHeader(data);
    var h := hp.0;
    var ep :- ParseEspecs(hp.1, h.especSize);
    var p := ep.1;
    if |p| < 32 * h.ccount then Err(TruncatedPageTable)
    else
      var ctable := ReadPageTable(p, h.ccount);
      var cp :- ScanPages(md5, ContentPages, p[32 * h.ccount..], ctable, h.cpagekb * 1024);
      var q := cp.1;
      if |q| < 32 * h.ecount then Err(TruncatedPageTable)
      else
        var etable := ReadPageTable(q, h.ecount);
        var epr :- ScanPages(md5, EncodingPages, q[32 * h.ecount..], etable, h.epagekb * 1024);
        if !ValidUtf8(epr.1) then Err(BadTrailingEspec)
        else
          var cmap := ContentMap(ContentRecords(cp.0));
          var emap := EncodingMap(EncodingRecords(epr.0));
          Ok(Parsed(EncodingTable(ep.0, cmap, emap, epr.1), cp.0, epr.0))
  }

  /** `encoding::parse`. */
  function Parse(md5: Bytes -> U128, data: Bytes): (r: Result<EncodingTable, EncodingError>)
    ensures |data| < HeaderSize ==> r == Err(TruncatedHeader)
    ensures r.Ok? <==> ParsePages(md5, data).Ok?
    ensures r.Ok? ==> r.value == ParsePages(md5, data).value.table
  {
    var parsed :- ParsePages(md5, data);
    Ok(parsed.table)
  }

  /** `Encoding::c2e`: the first encoding key listed for the content key. */
  function C2E(e: EncodingTable, c: ContentKey): (r: Result<EncodingKey, EncodingError>)
    ensures r.Ok? <==> c in e.cmap && |e.cmap[c].ekeys| > 0
    ensures r.Ok? ==> r.value == e.cmap[c].ekeys[0]
    ensures c !in e.cmap ==> r == Err(NoEncodingKey(c))
    ensures c in e.cmap && |e.cmap[c].ekeys| == 0 ==> r == Err(MissingEncodingKey(c))
  {
    if c !in e.cmap then Err(NoEncodingKey(c))
    else if |e.cmap[c].ekeys| == 0 then Err(MissingEncodingKey(c))
    else Ok(e.cmap[c].ekeys[0])
  }

  /** Looking up a content key in a table built from records answers from
      the last record carrying that key: its first encoding key, or a
      failure when that record lists none, even if an earlier record for
      the same key listed some. */
  lemma C2ELastRecord(rs: seq<ContentRecord>, i: int, e: EncodingTable)
    requires e.cmap == ContentMap(rs)
    requires 0 <= i < |rs| && forall j :: i < j < |rs| ==> rs[j].ckey != rs[i].ckey
    ensures |rs[i].ekeys| > 0 ==> C2E(e, rs[i].ckey) == Ok(rs[i].ekeys[0])
    ensures |rs[i].ekeys| == 0 ==> C2E(e, rs[i].ckey) == Err(MissingEncodingKey(rs[i].ckey))
  {
    assert IsLast(ContentPairs(rs), i);
    InsertAllLastWins(map[], ContentPairs(rs), i);
  }

  /** A content key no record carries is not found. */
  lemma C2EAbsent(rs: seq<ContentRecord>, c: ContentKey, e: EncodingTable)
    requires e.cmap == ContentMap(rs)
    requires forall j :: 0 <= j < |rs| ==> rs[j].ckey != c
    ensures C2E(e, c) == Err(NoEncodingKey(c))
  {
    InsertAllUntouched(map[], ContentPairs(rs), c);
  }
}
