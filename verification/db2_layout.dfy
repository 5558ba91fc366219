/** The DB2 client-database layout read by `src/db2.rs` (WDC5) and
    `src/wdc3.rs` (WDC3).

    Both files derive the same nom parser from the same structures: a
    header, `section_count` section headers of 40 bytes, `total_field_count`
    field structures (4 bytes) and field storage infos (24 bytes), the
    pallet and common data, then one section per section header.  The only
    difference is 132 unused bytes after the WDC5 magic.  All fields are
    little-endian; everything the string extraction does not use is
    skipped.  Bytes after the last section are ignored. */
module Db2Layout {
  import opened Wrappers
  import opened Bytes

  const Wdc5Padding: nat := 132
  const Wdc3Padding: nat := 0

  /** `n` bytes, or nothing if the input is shorter. */
  function Take(p: Bytes, n: nat): (r: Option<(Bytes, Bytes)>)
    ensures r.Some? <==> |p| >= n
    ensures r.Some? ==> r.value.0 + r.value.1 == p && |r.value.0| == n
  {
    if |p| < n then None else Some((p[..n], p[n..]))
  }

  function U32Field(p: Bytes): (r: Option<(U32, Bytes)>)
    ensures r.Some? <==> |p| >= 4
    ensures r.Some? ==> r.value.0 == U32LE(p) && r.value.1 == p[4..]
  {
    if |p| < 4 then None else Some((U32LE(p), p[4..]))
  }

  function U16Field(p: Bytes): (r: Option<(U16, Bytes)>)
    ensures r.Some? <==> |p| >= 2
    ensures r.Some? ==> r.value.0 == U16LE(p) && r.value.1 == p[2..]
  {
    if |p| < 2 then None else Some((U16LE(p), p[2..]))
  }

  // ---- header ----

  /** The header fields the parser uses. */
  datatype Header = Header(magic: Bytes, recordSize: U32, flags: U16, totalFieldCount: U32,
                           commonDataSize: U32, palletDataSize: U32, sectionCount: U32)

  /** The header: magic, `padding` unused bytes, record count, field count,
      record size, string table size, table hash, layout hash, min and max
      id, locale, flags (u16), id index (u16), total field count,
      bitpacked data offset, lookup column count, field storage info size,
      common data size, pallet data size, section count. */
  function ParseHeader(p: Bytes, padding: nat): (r: Option<(Header, Bytes)>)
    ensures r.Some? <==> |p| >= 72 + padding
    ensures r.Some? ==> r.value.1 == p[72 + padding..] && r.value.0.magic == p[..4]
  {
    var (magic, p1) :- Take(p, 4);
    var (_, p2) :- Take(p1, padding + 8);
    var (recordSize, p3) :- U32Field(p2);
    var (_, p4) :- Take(p3, 24);
    var (flags, p5) :- U16Field(p4);
    var (_, p6) :- Take(p5, 2);
    var (totalFieldCount, p7) :- U32Field(p6);
    var (_, p8) :- Take(p7, 12);
    var (commonDataSize, p9) :- U32Field(p8);
    var (palletDataSize, p10) :- U32Field(p9);
    var (sectionCount, p11) :- U32Field(p10);
    Some((Header(magic, recordSize, flags, totalFieldCount, commonDataSize, palletDataSize, sectionCount), p11))
  }

  // ---- section headers ----

  datatype SectionHeader = SectionHeader(recordCount: U32, stringTableSize: U32, idListSize: U32,
                                         relationshipDataSize: U32, offsetMapIdCount: U32,
                                         copyTableCount: U32)

  /** A section header: tact key hash (u64), file offset, record count,
      string table size, offset of the records' end, id list size,
      relationship data size, offset map id count, copy table count. */
  function ParseSectionHeader(p: Bytes): (r: Option<(SectionHeader, Bytes)>)
    ensures r.Some? <==> |p| >= 40
    ensures r.Some? ==> r.value.1 == p[40..]
  {
    var (_, p1) :- Take(p, 12);
    var (recordCount, p2) :- U32Field(p1);
    var (stringTableSize, p3) :- U32Field(p2);
    var (_, p4) :- Take(p3, 4);
    var (idListSize, p5) :- U32Field(p4);
    var (relationshipDataSize, p6) :- U32Field(p5);
    var (offsetMapIdCount, p7) :- U32Field(p6);
    var (copyTableCount, p8) :- U32Field(p7);
    Some((SectionHeader(recordCount, stringTableSize, idListSize, relationshipDataSize,
                        offsetMapIdCount, copyTableCount), p8))
  }

  function ParseSectionHeaders(p: Bytes, n: nat): (r: Option<(seq<SectionHeader>, Bytes)>)
    ensures r.Some? <==> |p| >= 40 * n
    ensures r.Some? ==> |r.value.0| == n && r.value.1 == p[40 * n..]
    decreases n
  {
    if n == 0 then Some(([], p))
    else
      var (h, p1) :- ParseSectionHeader(p);
      var (more, p2) :- ParseSectionHeaders(p1, n - 1);
      Some(([h] + more, p2))
  }

  // ---- sections ----

  /** The parts of a section the string extraction reads. */
  datatype Section = Section(records: seq<Bytes>, stringTable: Bytes, idList: seq<U32>)

  predicate RecordsOfSize(s: Section, recordSize: nat)
  {
    forall i :: 0 <= i < |s.records| ==> |s.records[i]| == recordSize
  }

  /** The bytes a section occupies.  The id list is read as
      `id_list_size / 4` whole u32s, so up to three trailing bytes of a
      size that is not a multiple of 4 are left for the next field. */
  function SectionSize(h: SectionHeader, recordSize: nat): nat
  {
    h.recordCount * recordSize + h.stringTableSize + 4 * (h.idListSize / 4)
      + 8 * h.copyTableCount + 6 * h.offsetMapIdCount + h.relationshipDataSize
  }

  /** A section: the records, the string table, the id list, the copy
      table (8-byte entries), the offset map (6-byte entries) and the
      relationship data. */
  function ParseSection(p: Bytes, recordSize: nat, h: SectionHeader): (r: Option<(Section, Bytes)>)
    ensures r.Some? <==> |p| >= SectionSize(h, recordSize)
    ensures r.Some? ==> r.value.1 == p[SectionSize(h, recordSize)..]
    ensures r.Some? ==> |r.value.0.records| == h.recordCount
    ensures r.Some? ==> |r.value.0.stringTable| == h.stringTableSize
    ensures r.Some? ==> |r.value.0.idList| == h.idListSize / 4
    ensures r.Some? ==> RecordsOfSize(r.value.0, recordSize)
  {
    var (_, p1) :- Take(p, h.recordCount * recordSize);
    var (table, p2) :- Take(p1, h.stringTableSize);
    var (_, p3) :- Take(p2, 4 * (h.idListSize / 4));
    var (_, p4) :- Take(p3, 8 * h.copyTableCount);
    var (_, p5) :- Take(p4, 6 * h.offsetMapIdCount);
    var (_, p6) :- Take(p5, h.relationshipDataSize);
    var records := Chunks(p, h.recordCount, recordSize);
    Some((Section(records, table, U32LEs(p2, h.idListSize / 4)), p6))
  }

  /** `parse_sections`: the sections in header order, each starting where
      the previous one ended. */
  function ParseSections(p: Bytes, recordSize: nat, hs: seq<SectionHeader>): (r: Option<(seq<Section>, Bytes)>)
    ensures r.Some? ==> |r.value.0| == |hs|
    ensures r.Some? ==> forall i :: 0 <= i < |hs| ==> RecordsOfSize(r.value.0[i], recordSize)
    ensures r.Some? && |hs| > 0 ==>
      ParseSection(p, recordSize, hs[0]).Some? && r.value.0[0] == ParseSection(p, recordSize, hs[0]).value.0
    ensures r.Some? && |hs| > 0 ==>
      ParseSections(ParseSection(p, recordSize, hs[0]).value.1, recordSize, hs[1..]) == Some((r.value.0[1..], r.value.1))
    ensures |hs| > 0 && ParseSection(p, recordSize, hs[0]).None? ==> r.None?
    decreases |hs|
  {
    if |hs| == 0 then Some(([], p))
    else
      var (s, p1) :- ParseSection(p, recordSize, hs[0]);
      var (more, p2) :- ParseSections(p1, recordSize, hs[1..]);
      assert ([s] + more)[1..] == more;
      Some(([s] + more, p2))
  }

  // ---- the file ----

  datatype File = File(header: Header, sections: seq<Section>)

  /** `File::parse`; `None` is the nom error `strings` reports as "parse
      error". */
  function ParseFile(data: Bytes, padding: nat): (r: Option<File>)
    ensures r.Some? ==> ParseHeader(data, padding).Some? && r.value.header == ParseHeader(data, padding).value.0
    ensures r.Some? ==> |r.value.sections| == r.value.header.sectionCount
    ensures r.Some? ==> forall i :: 0 <= i < |r.value.sections| ==> RecordsOfSize(r.value.sections[i], r.value.header.recordSize)
  {
    var (h, p1) :- ParseHeader(data, padding);
    var (shs, p2) :- ParseSectionHeaders(p1, h.sectionCount);
    var (_, p3) :- Take(p2, 4 * h.totalFieldCount);
    var (_, p4) :- Take(p3, 24 * h.totalFieldCount);
    var (_, p5) :- Take(p4, h.palletDataSize);
    var (_, p6) :- Take(p5, h.commonDataSize);
    var (sections, _) :- ParseSections(p6, h.recordSize, shs);
    Some(File(h, sections))
  }
}
