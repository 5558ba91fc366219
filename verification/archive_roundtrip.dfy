/** Writing an archive index and reading it back.

    The writer lays the entries out as `Archive.ParseIndex` expects: each
    block is its entries followed by zero padding to 4096 bytes, the table
    of contents holds each block's last key and then each block's checksum,
    and the footer carries the table's checksum, the format bytes, the
    number of entries and its own checksum.  The archive is named by the
    MD5 of the footer. */
module ArchiveRoundTrip {
  import opened Wrappers
  import opened Bytes
  import opened Maps
  import opened Types
  import opened Archive

  /** Entries of a block: at most 170 fit in 4096 bytes. */
  const MaxBlockEntries: nat := 170

  function EntryBytes(e: Entry): (s: Bytes)
    ensures |s| == EntrySize
  {
    U128BEBytes(e.ekey.value) + (U32BEBytes(e.size) + U32BEBytes(e.offset))
  }

  lemma ReadEntryBytes(e: Entry, rest: Bytes)
    ensures |EntryBytes(e) + rest| >= EntrySize
    ensures ReadEntry(EntryBytes(e) + rest) == e
    ensures (EntryBytes(e) + rest)[EntrySize..] == rest
  {
    var s := EntryBytes(e) + rest;
    ConcatAssoc(U128BEBytes(e.ekey.value), U32BEBytes(e.size) + U32BEBytes(e.offset), rest);
    ConcatAssoc(U32BEBytes(e.size), U32BEBytes(e.offset), rest);
    ReadU128BE(e.ekey.value, U32BEBytes(e.size) + (U32BEBytes(e.offset) + rest));
    ReadU32BE(e.size, U32BEBytes(e.offset) + rest);
    ReadU32BE(e.offset, rest);
    assert s[16..][4..] == s[20..];
  }

  function EntriesBytes(es: seq<Entry>): (s: Bytes)
    ensures |s| == EntrySize * |es|
  {
    if |es| == 0 then [] else EntryBytes(es[0]) + EntriesBytes(es[1..])
  }

  function LastKey(es: seq<Entry>): U128
    requires |es| > 0
  {
    es[|es| - 1].ekey.value
  }

  /** A block: its entries, then zeros up to the block size. */
  function BlockBytes(es: seq<Entry>): (s: Bytes)
    requires |es| <= MaxBlockEntries
    ensures |s| == BlockSize
  {
    EntriesBytes(es) + Zeros(BlockSize - EntrySize * |es|)
  }

  /** Reading entries back stops at the first with the wanted key. */
  lemma {:induction false} BlockEntriesOfBytes(es: seq<Entry>, rest: Bytes)
    requires |es| > 0
    requires forall i :: 0 <= i < |es| - 1 ==> es[i].ekey.value != LastKey(es)
    ensures BlockEntries(EntriesBytes(es) + rest, LastKey(es)) == Some(es)
  {
    var s := EntriesBytes(es) + rest;
    ConcatAssoc(EntryBytes(es[0]), EntriesBytes(es[1..]), rest);
    ReadEntryBytes(es[0], EntriesBytes(es[1..]) + rest);
    if |es| > 1 {
      assert LastKey(es[1..]) == LastKey(es);
      assert forall i :: 0 <= i < |es| - 2 ==> es[1..][i] == es[i + 1];
      BlockEntriesOfBytes(es[1..], rest);
      assert es == [es[0]] + es[1..];
    } else {
      assert es == [es[0]];
    }
  }

  /** Every entry of every block, in order. */
  function AllEntries(bs: seq<seq<Entry>>): (es: seq<Entry>)
  {
    if |bs| == 0 then [] else bs[0] + AllEntries(bs[1..])
  }

  predicate WritableBlocks(bs: seq<seq<Entry>>)
  {
    && (forall i :: 0 <= i < |bs| ==> 0 < |bs[i]| <= MaxBlockEntries)
    && Fresh(map[], AllEntries(bs))
    && |AllEntries(bs)| < TwoTo32
  }

  function Blocks(bs: seq<seq<Entry>>): (ps: seq<Bytes>)
    requires forall i :: 0 <= i < |bs| ==> 0 < |bs[i]| <= MaxBlockEntries
    ensures |ps| == |bs|
    ensures forall i :: 0 <= i < |bs| ==> ps[i] == BlockBytes(bs[i]) && |ps[i]| == BlockSize
  {
    seq(|bs|, i requires 0 <= i < |bs| => BlockBytes(bs[i]))
  }

  function Lasts(bs: seq<seq<Entry>>): (ks: seq<U128>)
    requires forall i :: 0 <= i < |bs| ==> 0 < |bs[i]|
    ensures |ks| == |bs|
    ensures forall i :: 0 <= i < |bs| ==> ks[i] == LastKey(bs[i])
  {
    seq(|bs|, i requires 0 <= i < |bs| => LastKey(bs[i]))
  }

  function Sums(md5: Bytes -> U128, ps: seq<Bytes>): (vs: seq<U64>)
    ensures |vs| == |ps|
    ensures forall i :: 0 <= i < |ps| ==> vs[i] == High64(md5(ps[i]))
  {
    seq(|ps|, i requires 0 <= i < |ps| => High64(md5(ps[i])))
  }

  /** A written block scans as the insertion of its entries. */
  lemma ScanBlockOfEntries(m: map<EncodingKey, Location>, es: seq<Entry>, archive: U128)
    requires 0 < |es| <= MaxBlockEntries
    requires Fresh(m, es)
    ensures ScanBlock(m, BlockBytes(es), LastKey(es), archive) == Ok(InsertAll(m, Pairs(es, archive)))
  {
    forall i | 0 <= i < |es| - 1 ensures es[i].ekey.value != LastKey(es) {
      assert es[i].ekey != es[|es| - 1].ekey;
    }
    BlockEntriesOfBytes(es, Zeros(BlockSize - EntrySize * |es|));
    ScanBlockMeaning(m, BlockBytes(es), LastKey(es), archive);
  }

  /** The first block's row of the tables, and the tables of the rest. */
  lemma BlockTables(md5: Bytes -> U128, bs: seq<seq<Entry>>)
    requires 0 < |bs| && forall i :: 0 <= i < |bs| ==> 0 < |bs[i]| <= MaxBlockEntries
    ensures Blocks(bs)[1..] == Blocks(bs[1..])
    ensures Lasts(bs)[1..] == Lasts(bs[1..])
    ensures Sums(md5, Blocks(bs))[1..] == Sums(md5, Blocks(bs[1..]))
  {
  }

  /** Checked and scanned block by block, the blocks insert all their
      entries. */
  lemma {:induction false} ScanBlocksOfEntries(md5: Bytes -> U128, archive: U128, m: map<EncodingKey, Location>,
                                               bs: seq<seq<Entry>>)
    requires forall i :: 0 <= i < |bs| ==> 0 < |bs[i]| <= MaxBlockEntries
    requires Fresh(m, AllEntries(bs))
    ensures ScanBlocks(md5, archive, m, Blocks(bs), Lasts(bs), Sums(md5, Blocks(bs)))
      == Ok(InsertAll(m, Pairs(AllEntries(bs), archive)))
    decreases |bs|
  {
    if |bs| > 0 {
      var es, more := bs[0], AllEntries(bs[1..]);
      FreshAppend(m, es, more, archive);
      ScanBlockOfEntries(m, es, archive);
      var m' := InsertAll(m, Pairs(es, archive));
      ScanBlocksOfEntries(md5, archive, m', bs[1..]);
      BlockTables(md5, bs);
      PairsAppend(es, more, archive);
      InsertAllAppend(m, Pairs(es, archive), Pairs(more, archive));
    }
  }

  /** The table of contents: last keys, then block checksums. */
  function Toc(md5: Bytes -> U128, bs: seq<seq<Entry>>): (s: Bytes)
    requires forall i :: 0 <= i < |bs| ==> 0 < |bs[i]| <= MaxBlockEntries
    ensures |s| == TocEntrySize * |bs|
  {
    U128BEsBytes(Lasts(bs)) + U64BEsBytes(Sums(md5, Blocks(bs)))
  }

  /** Footer bytes 8..20: the format bytes and the entry count. */
  function FooterBody(count: U32): (s: Bytes)
    ensures |s| == 12
  {
    FooterFormat + U32LEBytes(count)
  }

  function Footer(md5: Bytes -> U128, toc: Bytes, count: U32): (s: Bytes)
    ensures |s| == FooterSize
  {
    U64BEBytes(High64(md5(toc))) + (FooterBody(count) + U64BEBytes(High64(md5(FooterBody(count) + Zeros(8)))))
  }

  /** The written footer passes the footer checks and announces `count`. */
  lemma FooterRoundTrip(md5: Bytes -> U128, toc: Bytes, count: U32)
    ensures var f := Footer(md5, toc, count);
      CheckFooter(md5, md5(f), f, toc) == Ok(count)
  {
    var f := Footer(md5, toc, count);
    var body := FooterBody(count);
    var sum := U64BEBytes(High64(md5(body + Zeros(8))));
    ReadU64BE(High64(md5(toc)), body + sum);
    assert f[8..] == body + sum;
    assert f[8..20] == body;
    assert f[8..16] == FooterFormat;
    assert f[16..] == U32LEBytes(count) + sum;
    ReadU32LE(count, sum);
    assert f[20..] == sum + [];
    ReadU64BE(High64(md5(body + Zeros(8))), []);
    assert CheckFormat(FooterFormat, 0).Ok?;
  }

  /** Blocks, table of contents, footer. */
  function IndexBytes(md5: Bytes -> U128, bs: seq<seq<Entry>>): Bytes
    requires WritableBlocks(bs)
  {
    var toc := Toc(md5, bs);
    Flatten(Blocks(bs)) + (toc + Footer(md5, toc, |AllEntries(bs)|))
  }

  /** The name of the written archive: the MD5 of its footer. */
  function IndexName(md5: Bytes -> U128, bs: seq<seq<Entry>>): U128
    requires WritableBlocks(bs)
  {
    var toc := Toc(md5, bs);
    md5(Footer(md5, toc, |AllEntries(bs)|))
  }

  /** The table of contents reads back as the last keys and checksums. */
  lemma ReadToc(md5: Bytes -> U128, bs: seq<seq<Entry>>)
    requires forall i :: 0 <= i < |bs| ==> 0 < |bs[i]| <= MaxBlockEntries
    ensures var toc := Toc(md5, bs);
      && |toc| >= 16 * |bs| && |toc[16 * |bs|..]| >= 8 * |bs|
      && U128BEs(toc, |bs|) == Lasts(bs)
      && U64BEs(toc[16 * |bs|..], |bs|) == Sums(md5, Blocks(bs))
  {
    var sums := U64BEsBytes(Sums(md5, Blocks(bs)));
    ReadU128BEs(Lasts(bs), sums);
    ReadU64BEs(Sums(md5, Blocks(bs)), []);
    assert sums + [] == sums;
  }

  /** Every entry written is there, located in the written archive, and
      nothing else is. */
  lemma {:induction false} IndexRoundTrip(md5: Bytes -> U128, bs: seq<seq<Entry>>)
    requires WritableBlocks(bs)
    ensures ParseIndex(md5, IndexName(md5, bs), IndexBytes(md5, bs))
      == Ok(Index(InsertAll(map[], Pairs(AllEntries(bs), IndexName(md5, bs)))))
  {
    var name := IndexName(md5, bs);
    var toc := Toc(md5, bs);
    var count: U32 := |AllEntries(bs)|;
    var blocks := Flatten(Blocks(bs));
    FlattenLength(Blocks(bs), BlockSize);
    ParseIndexRegions(md5, name, blocks, toc, Footer(md5, toc, count), |bs|);
    FooterRoundTrip(md5, toc, count);
    ReadToc(md5, bs);
    ChunksOfFlatten(Blocks(bs), BlockSize, []);
    assert blocks + [] == blocks;
    ScanBlocksOfEntries(md5, name, map[], bs);
    InsertFreshCount(map[], AllEntries(bs), name);
  }

  /** After the round trip each written entry is found at its location. */
  lemma IndexLookup(md5: Bytes -> U128, bs: seq<seq<Entry>>, i: nat)
    requires WritableBlocks(bs) && i < |AllEntries(bs)|
    ensures var e := AllEntries(bs)[i];
      var r := ParseIndex(md5, IndexName(md5, bs), IndexBytes(md5, bs));
      && r.Ok? && e.ekey in r.value.locations
      && r.value.locations[e.ekey] == Location(IndexName(md5, bs), e.size, e.offset)
  {
    var es := AllEntries(bs);
    var kvs := Pairs(es, IndexName(md5, bs));
    IndexRoundTrip(md5, bs);
    assert IsLast(kvs, i);
    InsertAllLastWins(map[], kvs, i);
  }
}
