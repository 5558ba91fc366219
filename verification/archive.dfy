/** An archive index (`src/archive.rs`): encoding key -> (archive, size,
    offset).

    An index file is a run of 4096-byte blocks of 24-byte entries, a table
    of contents (the last key of every block, then the checksum of every
    block) and a 28-byte footer.  The footer is named by its own MD5; it
    carries the table's checksum, eight format bytes, the number of
    entries and a checksum of part of itself.  Each block is scanned up to
    and including its last key; a key seen twice is an error.  MD5 is a
    parameter. */
module Archive {
  import opened Wrappers
  import opened Bytes
  import opened Maps
  import opened Types

  datatype ArchiveError =
    | TruncatedIndex        // "truncated archive index data"
    | InvalidFormat         // "invalid archive index format"
    | BadFooterName         // "bad footer name"
    | TocChecksum           // "archive index toc checksum"
    | UnexpectedVersion     // "unexpected archive index version"
    | NonzeroByte           // "unexpected archive index nonzero byte"
    | BadBlockSize          // "unexpected archive index block size"
    | BadOffsetBytes        // "unexpected archive index offset bytes"
    | BadSizeBytes          // "unexpected archive index size bytes"
    | BadKeySize            // "unexpected archive index key size"
    | BadChecksumSize       // "unexpected archive index checksum size"
    | FooterChecksum        // "archive index footer checksum"
    | BlockChecksum         // "archive index block checksum"
    | DuplicateKey          // "duplicate key in index"
    | LastKeyMismatch       // "last ekey mismatch"
    | NumElementsWrong      // "num_elements wrong in index"

  /** Where the bytes of an encoding key live. */
  datatype Location = Location(archive: U128, size: U32, offset: U32)

  datatype Index = Index(locations: map<EncodingKey, Location>)

  const FooterSize: nat := 28
  const BlockSize: nat := 4096
  const TocEntrySize: nat := 24
  const BytesPerBlock: nat := 4120   // a block and its table-of-contents entry
  const EntrySize: nat := 24

  /** Version 1, two zero bytes, block size 4 (KiB), 4 offset bytes, 4 size
      bytes, 16 key bytes, 8 checksum bytes. */
  const FooterFormat: Bytes := [1, 0, 0, 4, 4, 4, 16, 8]

  function FormatError(i: nat): ArchiveError
    requires i < 8
  {
    [UnexpectedVersion, NonzeroByte, NonzeroByte, BadBlockSize, BadOffsetBytes, BadSizeBytes,
     BadKeySize, BadChecksumSize][i]
  }

  /** The format bytes are checked in order; the first that differs
      decides the error. */
  function CheckFormat(format: Bytes, i: nat): (r: Result<(), ArchiveError>)
    requires |format| == 8 && i <= 8
    ensures r.Ok? <==> forall k :: i <= k < 8 ==> format[k] == FooterFormat[k]
    ensures i == 0 ==> (r.Ok? <==> format == FooterFormat)
    ensures r.Err? ==> exists j :: (i <= j < 8 && format[j] != FooterFormat[j] &&
                                    (forall k :: i <= k < j ==> format[k] == FooterFormat[k]) &&
                                    r.error == FormatError(j))
    decreases 8 - i
  {
    if i == 8 then Ok(())
    else if format[i] != FooterFormat[i] then Err(FormatError(i))
    else CheckFormat(format, i + 1)
  }

  /** One 24-byte entry: key, size, offset, all big-endian. */
  datatype Entry = Entry(ekey: EncodingKey, size: U32, offset: U32)

  function ReadEntry(b: Bytes): Entry
    requires |b| >= EntrySize
  {
    Entry(EncodingKey(U128BE(b)), U32BE(b[16..]), U32BE(b[20..]))
  }

  /** The scan of one block as the source runs it: each entry is inserted
      (a key already present is an error) until the block's last key has
      been inserted; running out of whole entries first is an error. */
  function ScanBlock(m: map<EncodingKey, Location>, block: Bytes, last: U128, archive: U128)
    : (r: Result<map<EncodingKey, Location>, ArchiveError>)
    ensures r.Ok? ==> m.Keys < r.value.Keys
    ensures r.Ok? ==> forall k :: k in m ==> r.value[k] == m[k]
    ensures r.Ok? ==> EncodingKey(last) in r.value
    ensures r.Err? ==> r.error == DuplicateKey || r.error == LastKeyMismatch
    decreases |block|
  {
    if |block| < EntrySize then Err(LastKeyMismatch)
    else
      var e := ReadEntry(block);
      if e.ekey in m then Err(DuplicateKey)
      else
        var m' := m[e.ekey := Location(archive, e.size, e.offset)];
        if e.ekey.value == last then Ok(m')
        else ScanBlock(m', block[EntrySize..], last, archive)
  }

  /** The entries of a block up to and including the first one with the
      block's last key, if it has one. */
  function BlockEntries(block: Bytes, last: U128): (r: Option<seq<Entry>>)
    ensures r.Some? ==> |r.value| > 0 && r.value[|r.value| - 1].ekey.value == last
    ensures r.Some? ==> forall i :: 0 <= i < |r.value| - 1 ==> r.value[i].ekey.value != last
    decreases |block|
  {
    if |block| < EntrySize then None
    else
      var e := ReadEntry(block);
      if e.ekey.value == last then Some([e])
      else
        var rest :- BlockEntries(block[EntrySize..], last);
        Some([e] + rest)
  }

  /** Keys that are pairwise distinct and new to `m`. */
  predicate Fresh(m: map<EncodingKey, Location>, es: seq<Entry>)
  {
    && (forall i :: 0 <= i < |es| ==> es[i].ekey !in m)
    && (forall i, j :: 0 <= i < j < |es| ==> es[i].ekey != es[j].ekey)
  }

  function Pairs(es: seq<Entry>, archive: U128): (kvs: seq<(EncodingKey, Location)>)
    ensures |kvs| == |es|
    ensures forall i :: 0 <= i < |es| ==> kvs[i] == (es[i].ekey, Location(archive, es[i].size, es[i].offset))
  {
    seq(|es|, i requires 0 <= i < |es| => (es[i].ekey, Location(archive, es[i].size, es[i].offset)))
  }

  /** The scan succeeds exactly when the block holds its last key and the
      entries up to it are fresh; it then adds exactly those entries. */
  lemma {:induction false} ScanBlockMeaning(m: map<EncodingKey, Location>, block: Bytes, last: U128, archive: U128)
    ensures ScanBlock(m, block, last, archive).Ok? <==>
      BlockEntries(block, last).Some? && Fresh(m, BlockEntries(block, last).value)
    ensures ScanBlock(m, block, last, archive).Ok? ==>
      ScanBlock(m, block, last, archive).value == InsertAll(m, Pairs(BlockEntries(block, last).value, archive))
    decreases |block|
  {
    if |block| >= EntrySize {
      var e := ReadEntry(block);
      var m' := m[e.ekey := Location(archive, e.size, e.offset)];
      if e.ekey.value != last {
        ScanBlockMeaning(m', block[EntrySize..], last, archive);
        var rest := BlockEntries(block[EntrySize..], last);
        if rest.Some? {
          var es := [e] + rest.value;
          assert es[1..] == rest.value;
          FreshCons(m, e, rest.value, archive);
          PairsTail(es, archive);
        }
      }
    }
  }

  lemma FreshCons(m: map<EncodingKey, Location>, e: Entry, es: seq<Entry>, archive: U128)
    ensures Fresh(m, [e] + es) <==>
      e.ekey !in m && Fresh(m[e.ekey := Location(archive, e.size, e.offset)], es)
  {
    var m' := m[e.ekey := Location(archive, e.size, e.offset)];
    var all := [e] + es;
    if e.ekey !in m && Fresh(m', es) {
      forall i | 0 <= i < |all| ensures all[i].ekey !in m {
        if i > 0 { assert all[i] == es[i - 1]; }
      }
      forall i, j | 0 <= i < j < |all| ensures all[i].ekey != all[j].ekey {
        assert all[j] == es[j - 1];
        if i > 0 { assert all[i] == es[i - 1]; }
      }
    }
    if Fresh(m, all) {
      forall i | 0 <= i < |es| ensures es[i].ekey !in m' {
        assert es[i] == all[i + 1] && all[0] == e;
      }
      forall i, j | 0 <= i < j < |es| ensures es[i].ekey != es[j].ekey {
        assert es[i] == all[i + 1] && es[j] == all[j + 1];
      }
    }
  }

  lemma PairsTail(es: seq<Entry>, archive: U128)
    requires |es| > 0
    ensures Pairs(es, archive)[1..] == Pairs(es[1..], archive)
  {
    var a, b := Pairs(es, archive)[1..], Pairs(es[1..], archive);
    forall i | 0 <= i < |a| ensures a[i] == b[i] {
      assert es[1..][i] == es[i + 1];
    }
  }

  /** Fresh entries grow the map by exactly their number. */
  lemma {:induction false} InsertFreshCount(m: map<EncodingKey, Location>, es: seq<Entry>, archive: U128)
    requires Fresh(m, es)
    ensures |InsertAll(m, Pairs(es, archive))| == |m| + |es|
    decreases |es|
  {
    if |es| > 0 {
      var m' := m[es[0].ekey := Location(archive, es[0].size, es[0].offset)];
      assert Fresh(m', es[1..]);
      PairsTail(es, archive);
      InsertFreshCount(m', es[1..], archive);
    }
  }

  /** The blocks in order: checksum (upper 64 bits of the MD5), then scan. */
  function ScanBlocks(md5: Bytes -> U128, archive: U128, m: map<EncodingKey, Location>,
                      blocks: seq<Bytes>, lasts: seq<U128>, sums: seq<U64>)
    : (r: Result<map<EncodingKey, Location>, ArchiveError>)
    requires |blocks| == |lasts| == |sums|
    ensures r.Ok? ==> forall i :: 0 <= i < |blocks| ==> High64(md5(blocks[i])) == sums[i]
    ensures r.Ok? ==> m.Keys <= r.value.Keys
    ensures r.Ok? ==> forall k :: k in m ==> r.value[k] == m[k]
    ensures r.Ok? ==> forall k :: k in r.value ==> k in m || r.value[k].archive == archive
    ensures |blocks| == 0 ==> r == Ok(m)
    ensures |blocks| > 0 && High64(md5(blocks[0])) != sums[0] ==> r == Err(BlockChecksum)
    ensures |blocks| > 0 && ScanBlock(m, blocks[0], lasts[0], archive).Err? ==> r.Err?
    ensures r.Ok? && |blocks| > 0 ==>
      && ScanBlock(m, blocks[0], lasts[0], archive).Ok?
      && ScanBlocks(md5, archive, ScanBlock(m, blocks[0], lasts[0], archive).value,
                    blocks[1..], lasts[1..], sums[1..]) == r
    decreases |blocks|
  {
    if |blocks| == 0 then Ok(m)
    else if High64(md5(blocks[0])) != sums[0] then Err(BlockChecksum)
    else
      var m' :- ScanBlock(m, blocks[0], lasts[0], archive);
      ScanBlockArchive(m, blocks[0], lasts[0], archive);
      var r := ScanBlocks(md5, archive, m', blocks[1..], lasts[1..], sums[1..]);
      assert r.Ok? ==> forall i :: 0 <= i < |blocks| ==> High64(md5(blocks[i])) == sums[i] by {
        if r.Ok? {
          forall i | 1 <= i < |blocks| ensures High64(md5(blocks[i])) == sums[i] {
            assert blocks[i] == blocks[1..][i - 1] && sums[i] == sums[1..][i - 1];
          }
        }
      }
      r
  }

  /** A scanned block only adds locations in the scanned archive. */
  lemma {:induction false} ScanBlockArchive(m: map<EncodingKey, Location>, block: Bytes, last: U128, archive: U128)
    requires ScanBlock(m, block, last, archive).Ok?
    ensures forall k :: k in ScanBlock(m, block, last, archive).value ==>
      (k in m || ScanBlock(m, block, last, archive).value[k].archive == archive)
    decreases |block|
  {
    var e := ReadEntry(block);
    var m' := m[e.ekey := Location(archive, e.size, e.offset)];
    if e.ekey.value != last {
      ScanBlockArchive(m', block[EntrySize..], last, archive);
    }
  }

  /** The entries the blocks contribute, in order: each block's entries up
      to its last key, provided every block holds its last key. */
  function IndexEntries(blocks: seq<Bytes>, lasts: seq<U128>): (r: Option<seq<Entry>>)
    requires |blocks| == |lasts|
    ensures |blocks| == 0 ==> r == Some([])
    ensures |blocks| > 0 && BlockEntries(blocks[0], lasts[0]).None? ==> r.None?
    decreases |blocks|
  {
    if |blocks| == 0 then Some([])
    else
      var es :- BlockEntries(blocks[0], lasts[0]);
      var more :- IndexEntries(blocks[1..], lasts[1..]);
      Some(es + more)
  }

  lemma PairsAppend(a: seq<Entry>, b: seq<Entry>, archive: U128)
    ensures Pairs(a + b, archive) == Pairs(a, archive) + Pairs(b, archive)
  {
  }

  /** A run of entries is fresh for `m` exactly when its first part is,
      and its second part is fresh for the map the first part produces. */
  lemma FreshAppend(m: map<EncodingKey, Location>, a: seq<Entry>, b: seq<Entry>, archive: U128)
    ensures Fresh(m, a + b) <==> Fresh(m, a) && Fresh(InsertAll(m, Pairs(a, archive)), b)
  {
    var all := a + b;
    var m' := InsertAll(m, Pairs(a, archive));
    if Fresh(m, all) {
      forall i | 0 <= i < |a| ensures a[i].ekey !in m { assert a[i] == all[i]; }
      forall i, j | 0 <= i < j < |a| ensures a[i].ekey != a[j].ekey {
        assert a[i] == all[i] && a[j] == all[j];
      }
      forall j | 0 <= j < |b| ensures b[j].ekey !in m' {
        assert b[j] == all[|a| + j];
        forall i | 0 <= i < |a| ensures Pairs(a, archive)[i].0 != b[j].ekey {
          assert a[i] == all[i];
        }
      }
      forall i, j | 0 <= i < j < |b| ensures b[i].ekey != b[j].ekey {
        assert b[i] == all[|a| + i] && b[j] == all[|a| + j];
      }
    }
    if Fresh(m, a) && Fresh(m', b) {
      forall i | 0 <= i < |all| ensures all[i].ekey !in m {
        if i >= |a| { assert all[i] == b[i - |a|]; }
      }
      forall i, j | 0 <= i < j < |all| ensures all[i].ekey != all[j].ekey {
        if j >= |a| {
          assert all[j] == b[j - |a|];
          if i < |a| {
            assert Pairs(a, archive)[i].0 == all[i].ekey;
            assert all[i].ekey in m';
          } else {
            assert all[i] == b[i - |a|];
          }
        }
      }
    }
  }

  /** The blocks check and scan exactly when every block matches its
      checksum and holds its last key, and the entries up to the last keys
      are fresh across all blocks together; the scan then inserts exactly
      those entries. */
  lemma {:induction false} ScanBlocksMeaning(md5: Bytes -> U128, archive: U128, m: map<EncodingKey, Location>,
                                             blocks: seq<Bytes>, lasts: seq<U128>, sums: seq<U64>)
    requires |blocks| == |lasts| == |sums|
    ensures ScanBlocks(md5, archive, m, blocks, lasts, sums).Ok? <==>
      && (forall i :: 0 <= i < |blocks| ==> High64(md5(blocks[i])) == sums[i])
      && IndexEntries(blocks, lasts).Some?
      && Fresh(m, IndexEntries(blocks, lasts).value)
    ensures ScanBlocks(md5, archive, m, blocks, lasts, sums).Ok? ==>
      ScanBlocks(md5, archive, m, blocks, lasts, sums).value
        == InsertAll(m, Pairs(IndexEntries(blocks, lasts).value, archive))
    decreases |blocks|
  {
    if |blocks| > 0 {
      ChecksumsCons(md5, blocks, sums);
      ScanBlockMeaning(m, blocks[0], lasts[0], archive);
      var first := BlockEntries(blocks[0], lasts[0]);
      if High64(md5(blocks[0])) == sums[0] && first.Some? {
        var m' := InsertAll(m, Pairs(first.value, archive));
        ScanBlocksMeaning(md5, archive, m', blocks[1..], lasts[1..], sums[1..]);
        var more := IndexEntries(blocks[1..], lasts[1..]);
        if more.Some? {
          FreshAppend(m, first.value, more.value, archive);
          PairsAppend(first.value, more.value, archive);
          InsertAllAppend(m, Pairs(first.value, archive), Pairs(more.value, archive));
        }
      }
    }
  }

  /** Every block matches its checksum exactly when the first does and
      every later one does. */
  lemma ChecksumsCons(md5: Bytes -> U128, blocks: seq<Bytes>, sums: seq<U64>)
    requires |blocks| == |sums| > 0
    ensures (forall i :: 0 <= i < |blocks| ==> High64(md5(blocks[i])) == sums[i]) <==>
      && High64(md5(blocks[0])) == sums[0]
      && (forall i :: 0 <= i < |blocks| - 1 ==> High64(md5(blocks[1..][i])) == sums[1..][i])
  {
    assert forall i :: 1 <= i < |blocks| ==> blocks[1..][i - 1] == blocks[i] && sums[1..][i - 1] == sums[i];
  }

  /** The footer checksum covers footer bytes 8..20 zero-padded to 20. */
  function FooterToCheck(footer: Bytes): (s: Bytes)
    requires |footer| == FooterSize
    ensures |s| == 20 && s[..12] == footer[8..20]
  {
    footer[8..20] + Zeros(8)
  }

  /** The footer checks, in the source's order: the footer is named
      `name`, the table of contents matches its checksum, the format bytes
      are as expected, and the footer matches its own checksum.  The result
      is the number of entries the footer announces. */
  function CheckFooter(md5: Bytes -> U128, name: U128, footer: Bytes, toc: Bytes): (r: Result<U32, ArchiveError>)
    requires |footer| == FooterSize
    ensures r.Ok? <==>
      && md5(footer) == name
      && High64(md5(toc)) == U64BE(footer)
      && footer[8..16] == FooterFormat
      && High64(md5(FooterToCheck(footer))) == U64BE(footer[20..])
    ensures r.Ok? ==> r.value == U32LE(footer[16..])
    ensures md5(footer) != name ==> r == Err(BadFooterName)
  {
    if md5(footer) != name then Err(BadFooterName)
    else if High64(md5(toc)) != U64BE(footer) then Err(TocChecksum)
    else
      var formatOk :- CheckFormat(footer[8..16], 0);
      var numElements := U32LE(footer[16..]);
      var footerChecksum := U64BE(footer[20..]);
      if High64(md5(FooterToCheck(footer))) != footerChecksum then Err(FooterChecksum)
      else Ok(numElements)
  }

  /** The checks and scans after the index has been cut into its blocks,
      table of contents and footer. */
  function ParseRegions(md5: Bytes -> U128, name: U128, blocks: Bytes, toc: Bytes, footer: Bytes, numBlocks: nat)
    : (r: Result<Index, ArchiveError>)
    requires |blocks| == 4096 * numBlocks && |toc| == 24 * numBlocks && |footer| == FooterSize
    ensures r.Ok? ==> CheckFooter(md5, name, footer, toc).Ok? &&
                      |r.value.locations| == CheckFooter(md5, name, footer, toc).value
    ensures r.Ok? ==> forall k :: k in r.value.locations ==> r.value.locations[k].archive == name
    ensures r.Ok? ==>
      ScanBlocks(md5, name, map[], Chunks(blocks, numBlocks, 4096),
                 U128BEs(toc, numBlocks), U64BEs(toc[16 * numBlocks..], numBlocks)) == Ok(r.value.locations)
  {
    var numElements :- CheckFooter(md5, name, footer, toc);
    var m :- ScanBlocks(md5, name, map[], Chunks(blocks, numBlocks, 4096),
                        U128BEs(toc, numBlocks), U64BEs(toc[16 * numBlocks..], numBlocks));
    if |m| != numElements then Err(NumElementsWrong)
    else Ok(Index(m))
  }

  /** The number of blocks (each with its table-of-contents entry) that
      exactly fill `size` bytes, if any. */
  function WholeBlocks(size: nat): (r: Option<nat>)
    ensures r.Some? <==> size % BytesPerBlock == 0
    ensures r.Some? ==> size == BytesPerBlock * r.value
  {
    if size % 4120 != 0 then None else Some(size / 4120)
  }

  lemma WholeBlocksOf(n: nat)
    ensures WholeBlocks(4120 * n) == Some(n)
  {
    var q := 4120 * n;
    assert q == 4120 * (q / 4120) + q % 4120;
    assert 4120 * (n - q / 4120) == q % 4120;
  }

  /** `archive::parse_index`: the index file `data` of the archive `name`.
      The bytes before the footer must be whole blocks and their
      table-of-contents entries; the blocks come first, then the table. */
  function ParseIndex(md5: Bytes -> U128, name: U128, data: Bytes): (r: Result<Index, ArchiveError>)
    ensures |data| < FooterSize ==> r == Err(TruncatedIndex)
    ensures |data| >= FooterSize && (|data| - FooterSize) % BytesPerBlock != 0 ==> r == Err(InvalidFormat)
    ensures r.Ok? ==> |data| >= FooterSize && md5(data[|data| - FooterSize..]) == name
    ensures r.Ok? ==> data[|data| - 20..|data| - 12] == FooterFormat
    ensures r.Ok? ==> |r.value.locations| == U32LE(data[|data| - 12..])
    ensures r.Ok? ==> forall k :: k in r.value.locations ==> r.value.locations[k].archive == name
    ensures r.Ok? ==> |data| >= FooterSize && (|data| - FooterSize) % BytesPerBlock == 0
    ensures r.Ok? ==>
      var n := (|data| - FooterSize) / BytesPerBlock;
      ParseRegions(md5, name, data[..4096 * n], data[4096 * n..|data| - FooterSize],
                   data[|data| - FooterSize..], n) == r
  {
    if |data| < FooterSize then Err(TruncatedIndex)
    else
      var nonFooterSize := |data| - FooterSize;
      match WholeBlocks(nonFooterSize)
      case None => Err(InvalidFormat)
      case Some(numBlocks) =>
        var footer := data[nonFooterSize..];
        var r := ParseRegions(md5, name, data[..4096 * numBlocks],
                              data[4096 * numBlocks..nonFooterSize], footer, numBlocks);
        assert footer[8..16] == data[|data| - 20..|data| - 12];
        assert footer[16..][..4] == data[|data| - 12..][..4];
        r
  }

  /** What a parsed index is: every block matches its checksum in the
      table of contents and holds the last key listed there, no key occurs
      twice among the entries up to those last keys, and the map holds
      exactly those entries, as many as the footer announces. */
  lemma ParseIndexMeaning(md5: Bytes -> U128, name: U128, data: Bytes)
    requires ParseIndex(md5, name, data).Ok?
    ensures |data| >= FooterSize && (|data| - FooterSize) % BytesPerBlock == 0
    ensures var n := (|data| - FooterSize) / BytesPerBlock;
      var blocks := Chunks(data[..4096 * n], n, 4096);
      var toc := data[4096 * n..|data| - FooterSize];
      && |blocks| == n
      && (forall i :: 0 <= i < n ==> High64(md5(blocks[i])) == U64BEs(toc[16 * n..], n)[i])
      && IndexEntries(blocks, U128BEs(toc, n)).Some?
      && Fresh(map[], IndexEntries(blocks, U128BEs(toc, n)).value)
      && ParseIndex(md5, name, data).value.locations
           == InsertAll(map[], Pairs(IndexEntries(blocks, U128BEs(toc, n)).value, name))
      && |IndexEntries(blocks, U128BEs(toc, n)).value| == U32LE(data[|data| - 12..])
  {
    var n := (|data| - FooterSize) / BytesPerBlock;
    var blocks := Chunks(data[..4096 * n], n, 4096);
    var toc := data[4096 * n..|data| - FooterSize];
    ScanBlocksMeaning(md5, name, map[], blocks, U128BEs(toc, n), U64BEs(toc[16 * n..], n));
    var es := IndexEntries(blocks, U128BEs(toc, n)).value;
    InsertFreshCount(map[], es, name);
  }

  /** An index whose length fits whole blocks parses as its regions. */
  lemma ParseIndexCut(md5: Bytes -> U128, name: U128, data: Bytes, numBlocks: nat)
    requires |data| == 4120 * numBlocks + FooterSize
    ensures ParseIndex(md5, name, data) ==
      ParseRegions(md5, name, data[..4096 * numBlocks], data[4096 * numBlocks..4120 * numBlocks],
                   data[4120 * numBlocks..], numBlocks)
  {
    WholeBlocksOf(numBlocks);
  }

  /** An index laid out as blocks, table of contents and footer parses as
      those regions. */
  lemma ParseIndexRegions(md5: Bytes -> U128, name: U128, blocks: Bytes, toc: Bytes, footer: Bytes, numBlocks: nat)
    requires |blocks| == 4096 * numBlocks && |toc| == 24 * numBlocks && |footer| == FooterSize
    ensures ParseIndex(md5, name, blocks + (toc + footer)) == ParseRegions(md5, name, blocks, toc, footer, numBlocks)
  {
    var data := blocks + (toc + footer);
    var b, t := 4096 * numBlocks, 4120 * numBlocks;
    assert data[..b] == blocks && data[b..t] == toc && data[t..] == footer by {
      assert data[b..] == toc + footer;
    }
    ParseIndexCut(md5, name, data, numBlocks);
  }
}
