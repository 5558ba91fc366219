/** Writing DB2 files and reading them back with `Db2Layout.ParseFile`.

    The writer emits every field the parser uses and zeros for the ones it
    skips (hashes, ids, the field tables, pallet and common data).  Each
    section header is derived from its section: record count, string table
    size and id list size in bytes, with empty copy table, offset map and
    relationship data.  Writers take the bytes that follow them as `rest`,
    so the read-back lemmas compose without reassociating concatenations. */
module Db2LayoutRoundTrip {
  import opened Wrappers
  import opened Bytes
  import opened Db2Layout

  // ---- fields ----

  lemma TakeOf(a: Bytes, rest: Bytes)
    ensures Take(a + rest, |a|) == Some((a, rest))
  {
    assert (a + rest)[..|a|] == a;
  }

  lemma U32FieldOf(v: U32, rest: Bytes)
    ensures U32Field(U32LEBytes(v) + rest) == Some((v, rest))
  {
    ReadU32LE(v, rest);
  }

  lemma U16FieldOf(v: U16, rest: Bytes)
    ensures U16Field(U16LEBytes(v) + rest) == Some((v, rest))
  {
    ReadU16LE(v, rest);
  }

  // ---- header ----

  /** The header followed by `rest`. */
  function HeaderBytes(h: Header, padding: nat, rest: Bytes): Bytes
  {
    h.magic + (Zeros(padding + 8) + (U32LEBytes(h.recordSize) + (Zeros(24) + (U16LEBytes(h.flags) +
      (Zeros(2) + (U32LEBytes(h.totalFieldCount) + (Zeros(12) + (U32LEBytes(h.commonDataSize) +
      (U32LEBytes(h.palletDataSize) + (U32LEBytes(h.sectionCount) + rest))))))))))
  }

  lemma ReadHeaderBytes(h: Header, padding: nat, rest: Bytes)
    requires |h.magic| == 4
    ensures ParseHeader(HeaderBytes(h, padding, rest), padding) == Some((h, rest))
  {
    var t10 := U32LEBytes(h.sectionCount) + rest;
    var t9 := U32LEBytes(h.palletDataSize) + t10;
    var t8 := U32LEBytes(h.commonDataSize) + t9;
    var t7 := Zeros(12) + t8;
    var t6 := U32LEBytes(h.totalFieldCount) + t7;
    var t5 := Zeros(2) + t6;
    var t4 := U16LEBytes(h.flags) + t5;
    var t3 := Zeros(24) + t4;
    var t2 := U32LEBytes(h.recordSize) + t3;
    var t1 := Zeros(padding + 8) + t2;
    TakeOf(h.magic, t1);
    TakeOf(Zeros(padding + 8), t2);
    U32FieldOf(h.recordSize, t3);
    TakeOf(Zeros(24), t4);
    U16FieldOf(h.flags, t5);
    TakeOf(Zeros(2), t6);
    U32FieldOf(h.totalFieldCount, t7);
    TakeOf(Zeros(12), t8);
    U32FieldOf(h.commonDataSize, t9);
    U32FieldOf(h.palletDataSize, t10);
    U32FieldOf(h.sectionCount, rest);
  }

  // ---- section headers ----

  function SectionHeaderBytes(h: SectionHeader, rest: Bytes): Bytes
  {
    Zeros(12) + (U32LEBytes(h.recordCount) + (U32LEBytes(h.stringTableSize) + (Zeros(4) +
      (U32LEBytes(h.idListSize) + (U32LEBytes(h.relationshipDataSize) + (U32LEBytes(h.offsetMapIdCount) +
      (U32LEBytes(h.copyTableCount) + rest)))))))
  }

  lemma ReadSectionHeaderBytes(h: SectionHeader, rest: Bytes)
    ensures ParseSectionHeader(SectionHeaderBytes(h, rest)) == Some((h, rest))
  {
    var t7 := U32LEBytes(h.copyTableCount) + rest;
    var t6 := U32LEBytes(h.offsetMapIdCount) + t7;
    var t5 := U32LEBytes(h.relationshipDataSize) + t6;
    var t4 := U32LEBytes(h.idListSize) + t5;
    var t3 := Zeros(4) + t4;
    var t2 := U32LEBytes(h.stringTableSize) + t3;
    var t1 := U32LEBytes(h.recordCount) + t2;
    TakeOf(Zeros(12), t1);
    U32FieldOf(h.recordCount, t2);
    U32FieldOf(h.stringTableSize, t3);
    TakeOf(Zeros(4), t4);
    U32FieldOf(h.idListSize, t5);
    U32FieldOf(h.relationshipDataSize, t6);
    U32FieldOf(h.offsetMapIdCount, t7);
    U32FieldOf(h.copyTableCount, rest);
  }

  function SectionHeadersBytes(hs: seq<SectionHeader>, rest: Bytes): Bytes
  {
    if |hs| == 0 then rest else SectionHeaderBytes(hs[0], SectionHeadersBytes(hs[1..], rest))
  }

  lemma {:induction false} ReadSectionHeadersBytes(hs: seq<SectionHeader>, rest: Bytes)
    ensures ParseSectionHeaders(SectionHeadersBytes(hs, rest), |hs|) == Some((hs, rest))
  {
    if |hs| > 0 {
      var h, more := hs[0], hs[1..];
      assert hs == [h] + more;
      ReadSectionHeaderBytes(h, SectionHeadersBytes(more, rest));
      ReadSectionHeadersBytes(more, rest);
    }
  }

  // ---- sections ----

  /** Sections the writer can lay out for records of `recordSize` bytes. */
  predicate WritableSections(ss: seq<Section>, recordSize: nat)
  {
    && (forall i :: 0 <= i < |ss| ==> Describable(ss[i]))
    && (forall i :: 0 <= i < |ss| ==> RecordsOfSize(ss[i], recordSize))
  }

  /** Every size of `s` fits its u32 header field. */
  predicate Describable(s: Section)
  {
    |s.records| < TwoTo32 && |s.stringTable| < TwoTo32 && 4 * |s.idList| < TwoTo32
  }

  /** The header describing `s`. */
  function SectionHeaderOf(s: Section): SectionHeader
    requires Describable(s)
  {
    SectionHeader(|s.records|, |s.stringTable|, 4 * |s.idList|, 0, 0, 0)
  }

  /** Records, string table and id list, followed by `rest`. */
  function SectionBytes(s: Section, rest: Bytes): Bytes
  {
    Flatten(s.records) + (s.stringTable + (U32LEsBytes(s.idList) + rest))
  }

  lemma ReadSectionBytes(s: Section, recordSize: nat, rest: Bytes)
    requires Describable(s) && RecordsOfSize(s, recordSize)
    ensures ParseSection(SectionBytes(s, rest), recordSize, SectionHeaderOf(s)) == Some((s, rest))
  {
    var h := SectionHeaderOf(s);
    var t2 := U32LEsBytes(s.idList) + rest;
    var t1 := s.stringTable + t2;
    FlattenLength(s.records, recordSize);
    assert |s.records| * recordSize == recordSize * |s.records|;
    TakeOf(Flatten(s.records), t1);
    TakeOf(s.stringTable, t2);
    assert 4 * (h.idListSize / 4) == |U32LEsBytes(s.idList)|;
    TakeOf(U32LEsBytes(s.idList), rest);
    TakeOf([], rest);
    assert [] + rest == rest;
    ChunksOfFlatten(s.records, recordSize, t1);
    ReadU32LEs(s.idList, rest);
  }

  function HeadersOf(ss: seq<Section>): (hs: seq<SectionHeader>)
    requires forall i :: 0 <= i < |ss| ==> Describable(ss[i])
    ensures |hs| == |ss|
    ensures forall i :: 0 <= i < |ss| ==> hs[i] == SectionHeaderOf(ss[i])
  {
    seq(|ss|, i requires 0 <= i < |ss| => SectionHeaderOf(ss[i]))
  }

  function SectionsBytes(ss: seq<Section>, rest: Bytes): Bytes
  {
    if |ss| == 0 then rest else SectionBytes(ss[0], SectionsBytes(ss[1..], rest))
  }

  lemma {:induction false} ReadSectionsBytes(ss: seq<Section>, recordSize: nat, rest: Bytes)
    requires WritableSections(ss, recordSize)
    ensures ParseSections(SectionsBytes(ss, rest), recordSize, HeadersOf(ss)) == Some((ss, rest))
  {
    if |ss| > 0 {
      var s, more := ss[0], ss[1..];
      assert ss == [s] + more;
      assert HeadersOf(ss)[1..] == HeadersOf(more);
      ReadSectionBytes(s, recordSize, SectionsBytes(more, rest));
      ReadSectionsBytes(more, recordSize, rest);
    }
  }

  // ---- the file ----

  predicate WritableFile(f: File)
  {
    && |f.header.magic| == 4
    && f.header.sectionCount == |f.sections|
    && WritableSections(f.sections, f.header.recordSize)
  }

  /** Header, section headers, zeroed field tables, pallet and common
      data, then the sections. */
  function FileBytes(f: File, padding: nat): Bytes
    requires WritableFile(f)
  {
    var h := f.header;
    var skipped := Zeros(4 * h.totalFieldCount) + (Zeros(24 * h.totalFieldCount) +
      (Zeros(h.palletDataSize) + (Zeros(h.commonDataSize) + SectionsBytes(f.sections, []))));
    HeaderBytes(h, padding, SectionHeadersBytes(HeadersOf(f.sections), skipped))
  }

  /** A written file parses back to itself, for either header padding. */
  lemma FileRoundTrip(f: File, padding: nat)
    requires WritableFile(f)
    ensures ParseFile(FileBytes(f, padding), padding) == Some(f)
  {
    var h := f.header;
    var t4 := Zeros(h.commonDataSize) + SectionsBytes(f.sections, []);
    var t3 := Zeros(h.palletDataSize) + t4;
    var t2 := Zeros(24 * h.totalFieldCount) + t3;
    var t1 := Zeros(4 * h.totalFieldCount) + t2;
    ReadHeaderBytes(h, padding, SectionHeadersBytes(HeadersOf(f.sections), t1));
    ReadSectionHeadersBytes(HeadersOf(f.sections), t1);
    TakeOf(Zeros(4 * h.totalFieldCount), t2);
    TakeOf(Zeros(24 * h.totalFieldCount), t3);
    TakeOf(Zeros(h.palletDataSize), t4);
    TakeOf(Zeros(h.commonDataSize), SectionsBytes(f.sections, []));
    ReadSectionsBytes(f.sections, h.recordSize, []);
  }
}
