/** A writer for the root format and the round trip that pins the parser
    down: writing blocks in either layout and parsing the bytes gives back
    the entries of the blocks, in order.  From it follow the length of the
    result (the sum of the blocks' record counts), the running-sum coding
    of FileDataIDs, and that locale flags play no part. */
module RootRoundTrip {
  import opened Wrappers
  import opened Bytes
  import opened Root

  /** A block as written: its flags and its records. */
  datatype Block = Block(contentFlags: U32, localeFlags: U32, entries: seq<RootData>)

  /** The file header: TSFM with its two counts, or none (legacy). */
  datatype Header = TsfmHeader(totalFileCount: U32, namedFileCount: U32) | LegacyHeader

  function LayoutOf(h: Header): Layout
  {
    match h
    case TsfmHeader(total, named) => Layout(false, total != named)
    case LegacyHeader => Layout(true, false)
  }

  function Entries(bs: seq<Block>): seq<RootData>
  {
    if |bs| == 0 then [] else bs[0].entries + Entries(bs[1..])
  }

  function Fdids(es: seq<RootData>): (ids: seq<U32>)
    ensures |ids| == |es| && forall i :: 0 <= i < |es| ==> ids[i] == es[i].fdid
  {
    seq(|es|, i requires 0 <= i < |es| => es[i].fdid)
  }

  function Keys(es: seq<RootData>): (ks: seq<U128>)
    ensures |ks| == |es| && forall i :: 0 <= i < |es| ==> ks[i] == es[i].contentKey
  {
    if |es| == 0 then [] else [es[0].contentKey] + Keys(es[1..])
  }

  function Names(es: seq<RootData>): (hs: seq<U64>)
    ensures |hs| == |es| && forall i :: 0 <= i < |es| ==> hs[i] == es[i].nameHash
  {
    if |es| == 0 then [] else [es[0].nameHash] + Names(es[1..])
  }

  predicate IdsFitI32(ids: seq<U32>) { forall i :: 0 <= i < |ids| ==> ids[i] < 0x8000_0000 }

  /** A block the writer can produce for the given layout: its count fits
      a u32, its ids are non-negative i32 values, and when the layout
      skips its name hashes they are 0. */
  predicate ValidBlock(layout: Layout, b: Block)
  {
    && |b.entries| < TwoTo32
    && IdsFitI32(Fdids(b.entries))
    && (NamesSkipped(layout, b.contentFlags) ==>
          forall i :: 0 <= i < |b.entries| ==> b.entries[i].nameHash == 0)
  }

  function TwosComplement(d: int): (u: U32)
    requires InI32(d)
  {
    if d < 0 then d + TwoTo32 else d
  }

  /** The stored deltas: each id minus its predecessor minus one. */
  function DeltasOf(ids: seq<U32>, prev: int): (ds: seq<int>)
    ensures |ds| == |ids|
  {
    if |ids| == 0 then [] else [ids[0] - prev - 1] + DeltasOf(ids[1..], ids[0])
  }

  function EncodeDeltas(ids: seq<U32>, prev: int): (s: Bytes)
    requires -1 <= prev < 0x8000_0000 && IdsFitI32(ids)
    ensures |s| == 4 * |ids|
  {
    if |ids| == 0 then []
    else U32LEBytes(TwosComplement(ids[0] - prev - 1)) + EncodeDeltas(ids[1..], ids[0])
  }

  function KeyBytes(es: seq<RootData>): (s: Bytes)
    ensures |s| == 16 * |es|
  {
    U128BEsBytes(Keys(es))
  }

  function NameBytes(es: seq<RootData>): (s: Bytes)
    ensures |s| == 8 * |es|
  {
    if |es| == 0 then [] else U64LEBytes(es[0].nameHash) + NameBytes(es[1..])
  }

  function InterleavedBytes(es: seq<RootData>): (s: Bytes)
    ensures |s| == 24 * |es|
  {
    if |es| == 0 then []
    else U128BEBytes(es[0].contentKey) + U64LEBytes(es[0].nameHash) + InterleavedBytes(es[1..])
  }

  function BodyBytes(layout: Layout, b: Block): (s: Bytes)
  {
    if layout.interleave then InterleavedBytes(b.entries)
    else if NamesSkipped(layout, b.contentFlags) then KeyBytes(b.entries)
    else KeyBytes(b.entries) + NameBytes(b.entries)
  }

  function EncodeBlock(layout: Layout, b: Block): Bytes
    requires ValidBlock(layout, b)
  {
    U32LEBytes(|b.entries|) + (U32LEBytes(b.contentFlags) + (U32LEBytes(b.localeFlags)
      + (EncodeDeltas(Fdids(b.entries), -1) + BodyBytes(layout, b))))
  }

  function EncodeBlocks(layout: Layout, bs: seq<Block>): Bytes
    requires forall i :: 0 <= i < |bs| ==> ValidBlock(layout, bs[i])
  {
    if |bs| == 0 then [] else EncodeBlock(layout, bs[0]) + EncodeBlocks(layout, bs[1..])
  }

  /** The record count whose little-endian bytes spell "TSFM". */
  const TsfmAsCount: nat := 0x4D46_5354

  /** What a writer can produce: valid blocks and, in the legacy layout, at
      least one block, the first not holding `TsfmAsCount` records (so its
      first four bytes do not spell "TSFM"). */
  predicate Encodable(h: Header, bs: seq<Block>)
  {
    && (forall i :: 0 <= i < |bs| ==> ValidBlock(LayoutOf(h), bs[i]))
    && (h.LegacyHeader? ==>
          |bs| > 0 && |bs[0].entries| != TsfmAsCount)
  }

  function EncodeRoot(h: Header, bs: seq<Block>): Bytes
    requires Encodable(h, bs)
  {
    match h
    case TsfmHeader(total, named) =>
      Tsfm + U32LEBytes(total) + U32LEBytes(named) + EncodeBlocks(LayoutOf(h), bs)
    case LegacyHeader => EncodeBlocks(LayoutOf(h), bs)
  }

  lemma {:induction false} ReadDeltasOf(ids: seq<U32>, prev: int, rest: Bytes)
    requires -1 <= prev < 0x8000_0000 && IdsFitI32(ids)
    ensures ReadDeltas(EncodeDeltas(ids, prev) + rest, |ids|) == DeltasOf(ids, prev)
  {
    if |ids| > 0 {
      var d := ids[0] - prev - 1;
      var tail := EncodeDeltas(ids[1..], ids[0]) + rest;
      var s := U32LEBytes(TwosComplement(d)) + tail;
      assert EncodeDeltas(ids, prev) + rest == s;
      ReadU32LE(TwosComplement(d), tail);
      assert I32LE(s) == d;
      ReadDeltasOf(ids[1..], ids[0], rest);
    }
  }

  /** The running sum undoes the delta coding. */
  lemma {:induction false} RunningIdsOfDeltas(ids: seq<U32>, prev: int)
    requires -1 <= prev < 0x8000_0000 && IdsFitI32(ids)
    ensures RunningIds(DeltasOf(ids, prev), prev) == Ok(ids)
  {
    if |ids| > 0 {
      RunningIdsOfDeltas(ids[1..], ids[0]);
      assert DeltasOf(ids, prev)[1..] == DeltasOf(ids[1..], ids[0]);
      assert ids == [ids[0]] + ids[1..];
    }
  }

  lemma ReadKeyBytes(es: seq<RootData>, rest: Bytes)
    ensures U128BEs(KeyBytes(es) + rest, |es|) == Keys(es)
    ensures (KeyBytes(es) + rest)[16 * |es|..] == rest
  {
    ReadU128BEs(Keys(es), rest);
  }

  lemma {:induction false} ReadNameBytes(es: seq<RootData>, rest: Bytes)
    ensures ReadNameHashes(NameBytes(es) + rest, |es|) == Names(es)
  {
    if |es| > 0 {
      var t := NameBytes(es[1..]) + rest;
      assert NameBytes(es) + rest == U64LEBytes(es[0].nameHash) + t;
      ReadU64LE(es[0].nameHash, t);
      ReadNameBytes(es[1..], rest);
    }
  }

  lemma {:induction false} ReadInterleavedBytes(es: seq<RootData>, rest: Bytes)
    ensures ReadInterleaved(InterleavedBytes(es) + rest, |es|).keys == Keys(es)
    ensures ReadInterleaved(InterleavedBytes(es) + rest, |es|).names == Names(es)
    ensures ReadInterleaved(InterleavedBytes(es) + rest, |es|).rest == rest
  {
    var s := InterleavedBytes(es) + rest;
    if |es| == 0 {
      assert s == rest;
    } else {
      var n := |es|;
      var t := InterleavedBytes(es[1..]) + rest;
      var h := U64LEBytes(es[0].nameHash);
      assert s == U128BEBytes(es[0].contentKey) + (h + t);
      ReadU128BE(es[0].contentKey, h + t);
      ReadU64LE(es[0].nameHash, t);
      assert s[24..] == t;
      ReadInterleavedBytes(es[1..], rest);
      var c := ReadInterleaved(t, n - 1);
      assert ReadInterleaved(s, n) == Columns([U128BE(s)] + c.keys, [U64LE(s[16..])] + c.names, c.rest);
    }
  }

  lemma ZipOfEntries(es: seq<RootData>)
    ensures Zip(Fdids(es), Keys(es), Names(es)) == es
  {
  }

  lemma ColumnsRoundTrip(layout: Layout, b: Block, rest: Bytes)
    requires ValidBlock(layout, b)
    ensures ReadColumns(BodyBytes(layout, b) + rest, |b.entries|, layout, b.contentFlags)
      == Ok(Columns(Keys(b.entries), Names(b.entries), rest))
  {
    var es := b.entries;
    var n := |es|;
    if layout.interleave {
      ReadInterleavedBytes(es, rest);
    } else if NamesSkipped(layout, b.contentFlags) {
      ReadKeyBytes(es, rest);
      assert (KeyBytes(es) + rest)[16 * n..] == rest;
      assert Zeros(n) == Names(es);
    } else {
      ReadKeyBytes(es, NameBytes(es) + rest);
      assert BodyBytes(layout, b) + rest == KeyBytes(es) + (NameBytes(es) + rest);
      assert (KeyBytes(es) + (NameBytes(es) + rest))[16 * n..] == NameBytes(es) + rest;
      ReadNameBytes(es, rest);
      assert (NameBytes(es) + rest)[8 * n..] == rest;
    }
  }

  /** The twelve header bytes of a written block read back as its record
      count and content flags, and the deltas follow them. */
  lemma BlockHeaderRoundTrip(layout: Layout, b: Block, rest: Bytes)
    requires ValidBlock(layout, b)
    ensures |EncodeBlock(layout, b) + rest| >= 12
    ensures U32LE(EncodeBlock(layout, b) + rest) == |b.entries|
    ensures U32LE((EncodeBlock(layout, b) + rest)[4..]) == b.contentFlags
    ensures (EncodeBlock(layout, b) + rest)[12..]
      == EncodeDeltas(Fdids(b.entries), -1) + (BodyBytes(layout, b) + rest)
  {
    var d := EncodeDeltas(Fdids(b.entries), -1);
    var body := BodyBytes(layout, b);
    var h2 := U32LEBytes(b.contentFlags);
    var h3 := U32LEBytes(b.localeFlags);
    var t3 := d + (body + rest);
    var t2 := h3 + t3;
    var t1 := h2 + t2;
    var p := EncodeBlock(layout, b) + rest;
    ConcatAssoc(d, body, rest);
    ConcatAssoc(h3, d + body, rest);
    ConcatAssoc(h2, h3 + (d + body), rest);
    ConcatAssoc(U32LEBytes(|b.entries|), h2 + (h3 + (d + body)), rest);
    assert p == U32LEBytes(|b.entries|) + t1;
    ReadU32LE(|b.entries|, t1);
    ReadU32LE(b.contentFlags, t2);
    ReadU32LE(b.localeFlags, t3);
    assert p[12..] == t1[4..][4..];
  }

  /** Parsing one written block gives back its records and stops exactly
      where the block ends. */
  lemma {:induction false} BlockRoundTrip(layout: Layout, b: Block, rest: Bytes)
    requires ValidBlock(layout, b)
    ensures ParseBlock(EncodeBlock(layout, b) + rest, layout) == Ok(BlockParse(b.entries, rest))
  {
    var es := b.entries;
    var n := |es|;
    var p := EncodeBlock(layout, b) + rest;
    var body := BodyBytes(layout, b);
    BlockHeaderRoundTrip(layout, b, rest);
    var deltas := p[12..];
    assert RunningIds(ReadDeltas(deltas, n), -1) == Ok(Fdids(es)) by {
      ReadDeltasOf(Fdids(es), -1, body + rest);
      RunningIdsOfDeltas(Fdids(es), -1);
    }
    assert ReadColumns(deltas[4 * n..], n, layout, b.contentFlags)
        == Ok(Columns(Keys(es), Names(es), rest)) by {
      assert deltas[4 * n..] == body + rest;
      ColumnsRoundTrip(layout, b, rest);
    }
    ZipOfEntries(es);
  }

  lemma {:induction false} BlocksRoundTrip(layout: Layout, bs: seq<Block>)
    requires forall i :: 0 <= i < |bs| ==> ValidBlock(layout, bs[i])
    ensures ParseBlocks(EncodeBlocks(layout, bs), layout) == Ok(Entries(bs))
  {
    if |bs| > 0 {
      var tail := EncodeBlocks(layout, bs[1..]);
      BlockRoundTrip(layout, bs[0], tail);
      BlockHeaderRoundTrip(layout, bs[0], tail);
      BlocksRoundTrip(layout, bs[1..]);
    }
  }

  /** A TSFM header selects the column layout, skipping enabled exactly
      when its two counts differ, and the blocks start after it. */
  lemma TsfmHeaderRoundTrip(total: U32, named: U32, blocks: Bytes)
    ensures SelectLayout(Tsfm + U32LEBytes(total) + U32LEBytes(named) + blocks)
      == Ok((Layout(false, total != named), blocks))
  {
    var data := Tsfm + U32LEBytes(total) + U32LEBytes(named) + blocks;
    assert data == Tsfm + (U32LEBytes(total) + (U32LEBytes(named) + blocks));
    assert data[..4] == Tsfm;
    assert data[4..] == U32LEBytes(total) + (U32LEBytes(named) + blocks);
    ReadU32LE(total, U32LEBytes(named) + blocks);
    ReadU32LE(named, blocks);
  }

  /** Any other first four bytes select the interleaved layout and the
      blocks start at the first byte. */
  lemma LegacyHeaderRoundTrip(layout: Layout, bs: seq<Block>)
    requires layout == Layout(true, false)
    requires forall i :: 0 <= i < |bs| ==> ValidBlock(layout, bs[i])
    requires |bs| > 0 && |bs[0].entries| != TsfmAsCount
    ensures SelectLayout(EncodeBlocks(layout, bs)) == Ok((layout, EncodeBlocks(layout, bs)))
  {
    var data := EncodeBlocks(layout, bs);
    BlockHeaderRoundTrip(layout, bs[0], EncodeBlocks(layout, bs[1..]));
    assert U32LE(data) == |bs[0].entries|;
    assert LE(Tsfm) == TsfmAsCount;
  }

  /** Parsing a written root file gives back every record of every block,
      in block order then record order. */
  lemma RootRoundTrip(h: Header, bs: seq<Block>)
    requires Encodable(h, bs)
    ensures Parse(EncodeRoot(h, bs)) == Ok(Entries(bs))
  {
    var blocks := EncodeBlocks(LayoutOf(h), bs);
    BlocksRoundTrip(LayoutOf(h), bs);
    match h
    case TsfmHeader(total, named) =>
      TsfmHeaderRoundTrip(total, named, blocks);
    case LegacyHeader =>
      LegacyHeaderRoundTrip(LayoutOf(h), bs);
  }

  /** The number of records a root file yields is the sum of its blocks'
      record counts. */
  function RecordCount(bs: seq<Block>): nat
  {
    if |bs| == 0 then 0 else |bs[0].entries| + RecordCount(bs[1..])
  }

  lemma {:induction false} EntriesLength(bs: seq<Block>)
    ensures |Entries(bs)| == RecordCount(bs)
  {
    if |bs| > 0 {
      EntriesLength(bs[1..]);
    }
  }

  lemma ParsedLength(h: Header, bs: seq<Block>)
    requires Encodable(h, bs)
    ensures Parse(EncodeRoot(h, bs)).Ok? && |Parse(EncodeRoot(h, bs)).value| == RecordCount(bs)
  {
    RootRoundTrip(h, bs);
    EntriesLength(bs);
  }

  /** Locale flags never influence the parse: two files that differ only in
      their blocks' locale flags parse to the same entries. */
  lemma LocaleFlagsIgnored(h: Header, bs: seq<Block>, bs': seq<Block>)
    requires Encodable(h, bs) && Encodable(h, bs')
    requires |bs| == |bs'|
    requires forall i :: 0 <= i < |bs| ==>
      bs[i].contentFlags == bs'[i].contentFlags && bs[i].entries == bs'[i].entries
    ensures Parse(EncodeRoot(h, bs)) == Parse(EncodeRoot(h, bs'))
  {
    RootRoundTrip(h, bs);
    RootRoundTrip(h, bs');
    SameEntries(bs, bs');
  }

  lemma {:induction false} SameEntries(bs: seq<Block>, bs': seq<Block>)
    requires |bs| == |bs'|
    requires forall i :: 0 <= i < |bs| ==> bs[i].entries == bs'[i].entries
    ensures Entries(bs) == Entries(bs')
  {
    if |bs| > 0 {
      SameEntries(bs[1..], bs'[1..]);
    }
  }

  /** The same holds of any single block, written or not: overwriting its
      locale-flag bytes does not change what it parses to. */
  lemma BlockIgnoresLocale(p: Bytes, locale: Bytes, layout: Layout)
    requires |p| >= 12 && |locale| == 4
    ensures ParseBlock(p[..8] + locale + p[12..], layout) == ParseBlock(p, layout)
  {
    var p' := p[..8] + locale + p[12..];
    assert p'[..4] == p[..4];
    assert p'[4..][..4] == p[4..][..4];
    assert p'[12..] == p[12..];
  }
}
