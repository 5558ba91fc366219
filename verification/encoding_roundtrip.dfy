/** A writer for the encoding table and the round trip that pins the
    parser down: a file written from especs, pages of content records,
    pages of encoding records and a trailing espec parses back to exactly
    those records, and its content map answers every lookup from the last
    record for the key.

    The writer ends every page that has room left with an ASCII '0' byte,
    the byte the parser stops a page scan at, followed by zeros. */
module EncodingRoundTrip {
  import opened Wrappers
  import opened Bytes
  import opened Text
  import opened Maps
  import opened Types
  import opened Encoding

  function EncodeHeader(h: Header): (s: Bytes)
    ensures |s| == HeaderSize
  {
    Magic + ([1, 16, 16] + (U16BEBytes(h.cpagekb) + (U16BEBytes(h.epagekb)
      + (U32BEBytes(h.ccount) + (U32BEBytes(h.ecount) + ([0] + U32BEBytes(h.especSize)))))))
  }

  /** A written header reads back as itself and is followed by what came
      after it. */
  lemma HeaderRoundTrip(h: Header, rest: Bytes)
    ensures ParseHeader(EncodeHeader(h) + rest) == Ok((h, rest))
  {
    var s := EncodeHeader(h) + rest;
    var e := EncodeHeader(h);
    assert s[..2] == Magic;
    assert s[5..][..2] == e[5..7] == U16BEBytes(h.cpagekb);
    assert s[7..][..2] == e[7..9] == U16BEBytes(h.epagekb);
    assert s[9..][..4] == e[9..13] == U32BEBytes(h.ccount);
    assert s[13..][..4] == e[13..17] == U32BEBytes(h.ecount);
    assert s[18..][..4] == e[18..22] == U32BEBytes(h.especSize);
    assert s[HeaderSize..] == rest;
  }

  function KeyValues(ks: seq<EncodingKey>): (vs: seq<U128>)
    ensures |vs| == |ks| && forall i :: 0 <= i < |ks| ==> vs[i] == ks[i].value
  {
    seq(|ks|, i requires 0 <= i < |ks| => ks[i].value)
  }

  /** A content record the writer can lay out so that the scan reads it
      back: at most 255 keys, a 40-bit size, and a key count other than
      the byte that stops a scan. */
  predicate WritableContentRecord(r: ContentRecord)
  {
    |r.ekeys| < 0x100 && |r.ekeys| != AsciiZero && r.fileSize < 0x100_0000_0000
  }

  function EncodeContentRecord(r: ContentRecord): (s: Bytes)
    requires WritableContentRecord(r)
    ensures |s| == ContentRecordSize + 16 * |r.ekeys|
    ensures s[0] == |r.ekeys|
  {
    [|r.ekeys|, r.fileSize / TwoTo32]
      + (U32BEBytes(r.fileSize % TwoTo32) + (U128BEBytes(r.ckey.value) + U128BEsBytes(KeyValues(r.ekeys))))
  }

  /** The fields of a written content record read back as the record. */
  lemma ContentRecordFields(r: ContentRecord, rest: Bytes)
    requires WritableContentRecord(r)
    ensures var s := EncodeContentRecord(r) + rest;
      && |s| >= ContentRecordSize + 16 * |r.ekeys|
      && s[0] == |r.ekeys|
      && FileSize(s[1], U32BE(s[2..])) == r.fileSize
      && U128BE(s[6..]) == r.ckey.value
      && EncodingKeys(U128BEs(s[ContentRecordSize..], |r.ekeys|)) == r.ekeys
      && s[ContentRecordSize..][16 * |r.ekeys|..] == rest
  {
    var s := EncodeContentRecord(r) + rest;
    var keys := U128BEsBytes(KeyValues(r.ekeys));
    var lo := U32BEBytes(r.fileSize % TwoTo32);
    var ck := U128BEBytes(r.ckey.value);
    ConcatAssoc(lo + (ck + keys), rest, []);
    assert s == [|r.ekeys|, r.fileSize / TwoTo32] + (lo + (ck + (keys + rest)));
    assert s[2..] == lo + (ck + (keys + rest));
    ReadU32BE(r.fileSize % TwoTo32, ck + (keys + rest));
    assert s[6..] == ck + (keys + rest);
    ReadU128BE(r.ckey.value, keys + rest);
    assert s[ContentRecordSize..] == keys + rest;
    ReadU128BEs(KeyValues(r.ekeys), rest);
  }

  function EncodeContentRecords(rs: seq<ContentRecord>): Bytes
    requires forall i :: 0 <= i < |rs| ==> WritableContentRecord(rs[i])
  {
    if |rs| == 0 then [] else EncodeContentRecord(rs[0]) + EncodeContentRecords(rs[1..])
  }

  /** One written content record, then whatever the scan reads after it. */
  lemma ScanContentStep(r: ContentRecord, rest: Bytes, page: Bytes, firstKey: U128, first: bool, more: seq<ContentRecord>)
    requires WritableContentRecord(r) && page == EncodeContentRecord(r) + rest
    requires first ==> r.ckey == ContentKey(firstKey)
    requires ScanContentPage(rest, firstKey, false) == Ok(more)
    ensures ScanContentPage(page, firstKey, first) == Ok([r] + more)
  {
    ContentRecordFields(r, rest);
  }

  /** A page scan reads the written records back, provided the page's first
      record carries the first key and what follows them stops the scan. */
  lemma {:induction false} ContentRecordsRoundTrip(rs: seq<ContentRecord>, tail: Bytes, firstKey: U128, first: bool)
    requires forall i :: 0 <= i < |rs| ==> WritableContentRecord(rs[i])
    requires first && |rs| > 0 ==> rs[0].ckey == ContentKey(firstKey)
    requires ScanStops(tail, ContentRecordSize)
    ensures ScanContentPage(EncodeContentRecords(rs) + tail, firstKey, first) == Ok(rs)
  {
    if |rs| == 0 {
      assert EncodeContentRecords(rs) + tail == tail;
    } else {
      ContentRecordsRoundTrip(rs[1..], tail, firstKey, false);
      ScanContentsStep(rs, tail, firstKey, first);
    }
  }

  /** The first written record, then the rest of the page. */
  lemma ScanContentsStep(rs: seq<ContentRecord>, tail: Bytes, firstKey: U128, first: bool)
    requires |rs| > 0 && forall i :: 0 <= i < |rs| ==> WritableContentRecord(rs[i])
    requires first ==> rs[0].ckey == ContentKey(firstKey)
    requires ScanContentPage(EncodeContentRecords(rs[1..]) + tail, firstKey, false) == Ok(rs[1..])
    ensures ScanContentPage(EncodeContentRecords(rs) + tail, firstKey, first) == Ok(rs)
  {
    var r, more := rs[0], rs[1..];
    var rest := EncodeContentRecords(more) + tail;
    var page := EncodeContentRecords(rs) + tail;
    assert page == EncodeContentRecord(r) + rest by {
      ConcatAssoc(EncodeContentRecord(r), EncodeContentRecords(more), tail);
    }
    ScanContentStep(r, rest, page, firstKey, first, more);
    assert rs == [r] + more;
  }

  /** An encoding record the scan reads back: a 40-bit size and a key whose
      first byte is not the byte that stops a scan. */
  predicate WritableEncodingRecord(r: EncodingRecord)
  {
    r.fileSize < 0x100_0000_0000 && U128BEBytes(r.ekey)[0] != AsciiZero
  }

  function EncodeEncodingRecord(r: EncodingRecord): (s: Bytes)
    requires WritableEncodingRecord(r)
    ensures |s| == EncodingRecordSize
  {
    U128BEBytes(r.ekey) + (U32BEBytes(r.index)
      + ([r.fileSize / TwoTo32] + U32BEBytes(r.fileSize % TwoTo32)))
  }

  lemma EncodingRecordFields(r: EncodingRecord, rest: Bytes)
    requires WritableEncodingRecord(r)
    ensures var s := EncodeEncodingRecord(r) + rest;
      && |s| >= EncodingRecordSize
      && s[0] != AsciiZero
      && U128BE(s) == r.ekey
      && U32BE(s[16..]) == r.index
      && FileSize(s[20], U32BE(s[21..])) == r.fileSize
      && s[EncodingRecordSize..] == rest
  {
    var s := EncodeEncodingRecord(r) + rest;
    var ek := U128BEBytes(r.ekey);
    var ix := U32BEBytes(r.index);
    var lo := U32BEBytes(r.fileSize % TwoTo32);
    var t3 := [r.fileSize / TwoTo32] + (lo + rest);
    ConcatAssoc(ek, ix + ([r.fileSize / TwoTo32] + lo), rest);
    ConcatAssoc(ix, [r.fileSize / TwoTo32] + lo, rest);
    ConcatAssoc([r.fileSize / TwoTo32], lo, rest);
    assert s == ek + (ix + t3);
    ReadU128BE(r.ekey, ix + t3);
    ReadU32BE(r.index, t3);
    assert s[16..] == ix + t3;
    assert s[20..] == t3;
    assert s[21..] == lo + rest;
    ReadU32BE(r.fileSize % TwoTo32, rest);
  }

  function EncodeEncodingRecords(rs: seq<EncodingRecord>): Bytes
    requires forall i :: 0 <= i < |rs| ==> WritableEncodingRecord(rs[i])
  {
    if |rs| == 0 then [] else EncodeEncodingRecord(rs[0]) + EncodeEncodingRecords(rs[1..])
  }

  lemma {:induction false} EncodingRecordsRoundTrip(rs: seq<EncodingRecord>, tail: Bytes, firstKey: U128, first: bool)
    requires forall i :: 0 <= i < |rs| ==> WritableEncodingRecord(rs[i])
    requires first && |rs| > 0 ==> rs[0].ekey == firstKey
    requires ScanStops(tail, EncodingRecordSize)
    ensures ScanEncodingPage(EncodeEncodingRecords(rs) + tail, firstKey, first) == Ok(rs)
  {
    if |rs| == 0 {
      assert EncodeEncodingRecords(rs) + tail == tail;
    } else {
      var r := rs[0];
      var rest := EncodeEncodingRecords(rs[1..]) + tail;
      ConcatAssoc(EncodeEncodingRecord(r), EncodeEncodingRecords(rs[1..]), tail);
      EncodingRecordFields(r, rest);
      EncodingRecordsRoundTrip(rs[1..], tail, firstKey, false);
      assert rs == [r] + rs[1..];
    }
  }

  /** What the writer puts after a page's records: ASCII '0', which ends
      the scan, then zeros. */
  function Terminator(k: nat): (s: Bytes)
    ensures |s| == k
    ensures ScanStops(s, ContentRecordSize) && ScanStops(s, EncodingRecordSize)
  {
    if k == 0 then [] else [AsciiZero] + Zeros(k - 1)
  }

  function KindOf(pr: PageRecords): PageKind
  {
    if pr.CRecords? then ContentPages else EncodingPages
  }

  predicate WritableRecords(pr: PageRecords)
  {
    match pr
    case CRecords(rs) => forall i :: 0 <= i < |rs| ==> WritableContentRecord(rs[i])
    case ERecords(rs) => forall i :: 0 <= i < |rs| ==> WritableEncodingRecord(rs[i])
  }

  function RecordBytes(pr: PageRecords): Bytes
    requires WritableRecords(pr)
  {
    match pr
    case CRecords(rs) => EncodeContentRecords(rs)
    case ERecords(rs) => EncodeEncodingRecords(rs)
  }

  /** Records that fit in a page of `size` bytes. */
  predicate WritablePage(pr: PageRecords, size: nat)
  {
    WritableRecords(pr) && |RecordBytes(pr)| <= size
  }

  function PageBytes(pr: PageRecords, size: nat): (s: Bytes)
    requires WritablePage(pr, size)
    ensures |s| == size
  {
    RecordBytes(pr) + Terminator(size - |RecordBytes(pr)|)
  }

  /** The key a page-table entry declares for a page: that of its first
      record (any key will do for an empty page). */
  function FirstKey(pr: PageRecords): U128
  {
    match pr
    case CRecords(rs) => if |rs| > 0 then rs[0].ckey.value else 0
    case ERecords(rs) => if |rs| > 0 then rs[0].ekey else 0
  }

  /** Scanning a written page gives back its records. */
  lemma PageRoundTrip(pr: PageRecords, size: nat)
    requires WritablePage(pr, size)
    ensures ScanPage(KindOf(pr), PageBytes(pr, size), FirstKey(pr)) == Ok(pr)
  {
    match pr
    case CRecords(rs) => ContentPageRoundTrip(rs, size);
    case ERecords(rs) => EncodingPageRoundTrip(rs, size);
  }

  lemma ContentPageRoundTrip(rs: seq<ContentRecord>, size: nat)
    requires WritablePage(CRecords(rs), size)
    ensures ScanPage(ContentPages, PageBytes(CRecords(rs), size), FirstKey(CRecords(rs))) == Ok(CRecords(rs))
  {
    var pr := CRecords(rs);
    var t := Terminator(size - |RecordBytes(pr)|);
    assert PageBytes(pr, size) == EncodeContentRecords(rs) + t;
    ContentRecordsRoundTrip(rs, t, FirstKey(pr), true);
  }

  lemma EncodingPageRoundTrip(rs: seq<EncodingRecord>, size: nat)
    requires WritablePage(ERecords(rs), size)
    ensures ScanPage(EncodingPages, PageBytes(ERecords(rs), size), FirstKey(ERecords(rs))) == Ok(ERecords(rs))
  {
    var pr := ERecords(rs);
    var t := Terminator(size - |RecordBytes(pr)|);
    assert PageBytes(pr, size) == EncodeEncodingRecords(rs) + t;
    EncodingRecordsRoundTrip(rs, t, FirstKey(pr), true);
  }

  function AllPageBytes(prs: seq<PageRecords>, size: nat): (ps: seq<Bytes>)
    requires forall i :: 0 <= i < |prs| ==> WritablePage(prs[i], size)
    ensures |ps| == |prs| && forall i :: 0 <= i < |prs| ==> ps[i] == PageBytes(prs[i], size)
  {
    seq(|prs|, i requires 0 <= i < |prs| => PageBytes(prs[i], size))
  }

  /** The page table the writer emits: each page's first key and MD5. */
  function Table(md5: Bytes -> U128, prs: seq<PageRecords>, size: nat): (t: seq<PageEntry>)
    requires forall i :: 0 <= i < |prs| ==> WritablePage(prs[i], size)
    ensures |t| == |prs|
    ensures forall i :: 0 <= i < |prs| ==> t[i] == PageEntry(FirstKey(prs[i]), md5(PageBytes(prs[i], size)))
  {
    seq(|prs|, i requires 0 <= i < |prs| => PageEntry(FirstKey(prs[i]), md5(PageBytes(prs[i], size))))
  }

  /** One step of `CheckPages` on a page whose checksum and scan succeed. */
  lemma CheckPagesStep(md5: Bytes -> U128, kind: PageKind, pages: seq<Bytes>, table: seq<PageEntry>, pr: PageRecords, tail: seq<PageRecords>)
    requires |pages| > 0 && |table| > 0 && table[0].hash == md5(pages[0])
    requires ScanPage(kind, pages[0], table[0].firstKey) == Ok(pr)
    requires CheckPages(md5, kind, pages[1..], table[1..]) == Ok(tail)
    ensures CheckPages(md5, kind, pages, table) == Ok([pr] + tail)
  {
  }

  lemma {:induction false} CheckPagesRoundTrip(md5: Bytes -> U128, kind: PageKind, prs: seq<PageRecords>, size: nat)
    requires forall i :: 0 <= i < |prs| ==> WritablePage(prs[i], size) && KindOf(prs[i]) == kind
    ensures CheckPages(md5, kind, AllPageBytes(prs, size), Table(md5, prs, size)) == Ok(prs)
  {
    if |prs| > 0 {
      var ps := AllPageBytes(prs, size);
      var t := Table(md5, prs, size);
      PageRoundTrip(prs[0], size);
      CheckPagesRoundTrip(md5, kind, prs[1..], size);
      assert ps[1..] == AllPageBytes(prs[1..], size);
      assert t[1..] == Table(md5, prs[1..], size);
      CheckPagesStep(md5, kind, ps, t, prs[0], prs[1..]);
      assert prs == [prs[0]] + prs[1..];
    }
  }

  /** Scanning the written pages gives back their records and stops right
      after the last page. */
  lemma ScanPagesRoundTrip(md5: Bytes -> U128, kind: PageKind, prs: seq<PageRecords>, size: nat, rest: Bytes)
    requires forall i :: 0 <= i < |prs| ==> WritablePage(prs[i], size) && KindOf(prs[i]) == kind
    ensures ScanPages(md5, kind, Flatten(AllPageBytes(prs, size)) + rest, Table(md5, prs, size), size)
      == Ok((prs, rest))
  {
    var ps := AllPageBytes(prs, size);
    ChunksOfFlatten(ps, size, rest);
    CheckPagesRoundTrip(md5, kind, prs, size);
    var p := Flatten(ps) + rest;
    assert p[|Flatten(ps)|..] == rest;
  }

  function TableBytes(t: seq<PageEntry>): (s: Bytes)
    ensures |s| == 32 * |t|
  {
    if |t| == 0 then []
    else U128BEBytes(t[0].firstKey) + (U128BEBytes(t[0].hash) + TableBytes(t[1..]))
  }

  lemma {:induction false} PageTableRoundTrip(t: seq<PageEntry>, rest: Bytes)
    ensures ReadPageTable(TableBytes(t) + rest, |t|) == t
    ensures (TableBytes(t) + rest)[32 * |t|..] == rest
  {
    if |t| > 0 {
      var tail := TableBytes(t[1..]) + rest;
      var h := U128BEBytes(t[0].hash);
      ConcatAssoc(U128BEBytes(t[0].firstKey), h + TableBytes(t[1..]), rest);
      ConcatAssoc(h, TableBytes(t[1..]), rest);
      ReadU128BE(t[0].firstKey, h + tail);
      ReadU128BE(t[0].hash, tail);
      var s := TableBytes(t) + rest;
      assert s[16..] == h + tail;
      assert s[32..] == tail;
      PageTableRoundTrip(t[1..], rest);
      assert t == [t[0]] + t[1..];
    }
  }

  /** What a file is written from. */
  datatype Contents = Contents(
    especs: seq<Bytes>,
    cpagekb: U16,
    epagekb: U16,
    cpages: seq<seq<ContentRecord>>,
    epages: seq<seq<EncodingRecord>>,
    espec: Bytes)

  function CPages(c: Contents): (prs: seq<PageRecords>)
    ensures |prs| == |c.cpages| && forall i :: 0 <= i < |prs| ==> prs[i] == CRecords(c.cpages[i])
  {
    seq(|c.cpages|, i requires 0 <= i < |c.cpages| => CRecords(c.cpages[i]))
  }

  function EPages(c: Contents): (prs: seq<PageRecords>)
    ensures |prs| == |c.epages| && forall i :: 0 <= i < |prs| ==> prs[i] == ERecords(c.epages[i])
  {
    seq(|c.epages|, i requires 0 <= i < |c.epages| => ERecords(c.epages[i]))
  }

  /** Contents the writer can lay out: NUL-free UTF-8 especs, counts and
      sizes that fit their header fields, records that fit their pages, and
      a UTF-8 trailing espec. */
  predicate Writable(c: Contents)
  {
    && |c.especs| >= 1
    && AllUtf8(c.especs)
    && (forall i :: 0 <= i < |c.especs| ==> 0 !in c.especs[i])
    && |Join(c.especs, 0)| < TwoTo32
    && |c.cpages| < TwoTo32
    && |c.epages| < TwoTo32
    && (forall i :: 0 <= i < |c.cpages| ==> WritablePage(CRecords(c.cpages[i]), c.cpagekb * 1024))
    && (forall i :: 0 <= i < |c.epages| ==> WritablePage(ERecords(c.epages[i]), c.epagekb * 1024))
    && ValidUtf8(c.espec)
  }

  function HeaderOf(c: Contents): Header
    requires Writable(c)
  {
    Header(c.cpagekb, c.epagekb, |c.cpages|, |c.epages|, |Join(c.especs, 0)|)
  }

  /** The bytes after the espec table: both page tables with their pages,
      then the trailing espec. */
  function PagesBytes(md5: Bytes -> U128, c: Contents): Bytes
    requires Writable(c)
  {
    var csize := c.cpagekb * 1024;
    var esize := c.epagekb * 1024;
    TableBytes(Table(md5, CPages(c), csize)) + (Flatten(AllPageBytes(CPages(c), csize))
      + (TableBytes(Table(md5, EPages(c), esize)) + (Flatten(AllPageBytes(EPages(c), esize))
      + c.espec)))
  }

  function EncodeFile(md5: Bytes -> U128, c: Contents): Bytes
    requires Writable(c)
  {
    EncodeHeader(HeaderOf(c)) + (Join(c.especs, 0) + PagesBytes(md5, c))
  }

  function Concat<T>(ss: seq<seq<T>>): seq<T>
  {
    if |ss| == 0 then [] else ss[0] + Concat(ss[1..])
  }

  lemma {:induction false} ContentRecordsOfPages(cpages: seq<seq<ContentRecord>>, prs: seq<PageRecords>)
    requires |prs| == |cpages| && forall i :: 0 <= i < |prs| ==> prs[i] == CRecords(cpages[i])
    ensures ContentRecords(prs) == Concat(cpages)
  {
    if |prs| > 0 {
      ContentRecordsOfPages(cpages[1..], prs[1..]);
    }
  }

  lemma {:induction false} EncodingRecordsOfPages(epages: seq<seq<EncodingRecord>>, prs: seq<PageRecords>)
    requires |prs| == |epages| && forall i :: 0 <= i < |prs| ==> prs[i] == ERecords(epages[i])
    ensures EncodingRecords(prs) == Concat(epages)
  {
    if |prs| > 0 {
      EncodingRecordsOfPages(epages[1..], prs[1..]);
    }
  }

  /** The espec table of a written file reads back as the especs. */
  lemma EspecsRoundTrip(especs: seq<Bytes>, rest: Bytes)
    requires |especs| >= 1 && AllUtf8(especs)
    requires forall i :: 0 <= i < |especs| ==> 0 !in especs[i]
    ensures ParseEspecs(Join(especs, 0) + rest, |Join(especs, 0)|) == Ok((especs, rest))
  {
    var s := Join(especs, 0) + rest;
    assert s[..|Join(especs, 0)|] == Join(especs, 0);
    assert s[|Join(especs, 0)|..] == rest;
    SplitJoin(especs, 0);
  }

  /** A page table followed by its pages reads back as the pages' records,
      leaving what follows the last page. */
  lemma TablePagesRoundTrip(md5: Bytes -> U128, kind: PageKind, prs: seq<PageRecords>, size: nat, rest: Bytes)
    requires forall i :: 0 <= i < |prs| ==> WritablePage(prs[i], size) && KindOf(prs[i]) == kind
    ensures var p := TableBytes(Table(md5, prs, size)) + (Flatten(AllPageBytes(prs, size)) + rest);
      && |p| >= 32 * |prs|
      && ScanPages(md5, kind, p[32 * |prs|..], ReadPageTable(p, |prs|), size) == Ok((prs, rest))
  {
    var t := Table(md5, prs, size);
    PageTableRoundTrip(t, Flatten(AllPageBytes(prs, size)) + rest);
    ScanPagesRoundTrip(md5, kind, prs, size, rest);
  }

  /** The page tables and pages of a written file scan back as its pages,
      leaving the trailing espec. */
  lemma PagesRoundTrip(md5: Bytes -> U128, c: Contents)
    requires Writable(c)
    ensures var p := PagesBytes(md5, c);
      && |p| >= 32 * |c.cpages|
      && ScanPages(md5, ContentPages, p[32 * |c.cpages|..], ReadPageTable(p, |c.cpages|), c.cpagekb * 1024).Ok?
      && var cp := ScanPages(md5, ContentPages, p[32 * |c.cpages|..], ReadPageTable(p, |c.cpages|), c.cpagekb * 1024).value;
      && cp.0 == CPages(c)
      && |cp.1| >= 32 * |c.epages|
      && ScanPages(md5, EncodingPages, cp.1[32 * |c.epages|..], ReadPageTable(cp.1, |c.epages|), c.epagekb * 1024)
        == Ok((EPages(c), c.espec))
  {
    var esize := c.epagekb * 1024;
    var q := TableBytes(Table(md5, EPages(c), esize)) + (Flatten(AllPageBytes(EPages(c), esize)) + c.espec);
    TablePagesRoundTrip(md5, ContentPages, CPages(c), c.cpagekb * 1024, q);
    TablePagesRoundTrip(md5, EncodingPages, EPages(c), esize, c.espec);
  }

  /** `ParsePages` when every stage succeeds, stage by stage. */
  lemma ParsePagesStages(md5: Bytes -> U128, data: Bytes, h: Header, t1: Bytes, especs: seq<Bytes>, p: Bytes,
                         cps: seq<PageRecords>, q: Bytes, eps: seq<PageRecords>, espec: Bytes)
    requires ParseHeader(data) == Ok((h, t1))
    requires ParseEspecs(t1, h.especSize) == Ok((especs, p))
    requires |p| >= 32 * h.ccount
    requires ScanPages(md5, ContentPages, p[32 * h.ccount..], ReadPageTable(p, h.ccount), h.cpagekb * 1024)
      == Ok((cps, q))
    requires |q| >= 32 * h.ecount
    requires ScanPages(md5, EncodingPages, q[32 * h.ecount..], ReadPageTable(q, h.ecount), h.epagekb * 1024)
      == Ok((eps, espec))
    requires ValidUtf8(espec)
    ensures ParsePages(md5, data) == Ok(Parsed(
      EncodingTable(especs, ContentMap(ContentRecords(cps)), EncodingMap(EncodingRecords(eps)), espec),
      cps, eps))
  {
  }

  /** Parsing a written file gives back its especs, its pages of records and
      its trailing espec; the maps hold every record, a later record for a
      key replacing an earlier one. */
  lemma FileRoundTrip(md5: Bytes -> U128, c: Contents)
    requires Writable(c)
    ensures ParsePages(md5, EncodeFile(md5, c)) == Ok(Parsed(
      EncodingTable(c.especs, ContentMap(Concat(c.cpages)), EncodingMap(Concat(c.epages)), c.espec),
      CPages(c), EPages(c)))
  {
    var h := HeaderOf(c);
    var j := Join(c.especs, 0);
    var p := PagesBytes(md5, c);
    HeaderRoundTrip(h, j + p);
    EspecsRoundTrip(c.especs, p);
    PagesRoundTrip(md5, c);
    var cp := ScanPages(md5, ContentPages, p[32 * |c.cpages|..], ReadPageTable(p, |c.cpages|), c.cpagekb * 1024).value;
    ParsePagesStages(md5, EncodeFile(md5, c), h, j + p, c.especs, p, CPages(c), cp.1, EPages(c), c.espec);
    ContentRecordsOfPages(c.cpages, CPages(c));
    EncodingRecordsOfPages(c.epages, EPages(c));
  }

  /** `c2e` on a written file answers from the last content record for the
      key, over all content pages in order: its first encoding key, or a
      failure when that record lists none. */
  lemma LookupAfterWrite(md5: Bytes -> U128, c: Contents, i: int)
    requires Writable(c)
    requires 0 <= i < |Concat(c.cpages)|
    requires forall j :: i < j < |Concat(c.cpages)| ==> Concat(c.cpages)[j].ckey != Concat(c.cpages)[i].ckey
    ensures Parse(md5, EncodeFile(md5, c)).Ok?
    ensures var r := Concat(c.cpages)[i];
      && (|r.ekeys| > 0 ==> C2E(Parse(md5, EncodeFile(md5, c)).value, r.ckey) == Ok(r.ekeys[0]))
      && (|r.ekeys| == 0 ==> C2E(Parse(md5, EncodeFile(md5, c)).value, r.ckey) == Err(MissingEncodingKey(r.ckey)))
  {
    FileRoundTrip(md5, c);
    C2ELastRecord(Concat(c.cpages), i, Parse(md5, EncodeFile(md5, c)).value);
  }

  /** A content key no written record carries is not found. */
  lemma LookupAbsentAfterWrite(md5: Bytes -> U128, c: Contents, k: ContentKey)
    requires Writable(c)
    requires forall j :: 0 <= j < |Concat(c.cpages)| ==> Concat(c.cpages)[j].ckey != k
    ensures Parse(md5, EncodeFile(md5, c)).Ok?
    ensures C2E(Parse(md5, EncodeFile(md5, c)).value, k) == Err(NoEncodingKey(k))
  {
    FileRoundTrip(md5, c);
    C2EAbsent(Concat(c.cpages), k, Parse(md5, EncodeFile(md5, c)).value);
  }
}
