/** The root table (`src/root.rs`): FileDataID -> content key.

    A root file is either the "TSFM" layout (a 12-byte header with total
    and named file counts, then blocks whose content keys and name hashes
    are stored column-wise) or the legacy layout (no header, content key
    and name hash interleaved per record).  Each block starts with
    `num_records`, content flags and locale flags, then `num_records`
    FileDataID deltas.  The parse result lists one entry per record, in
    block order then record order. */
module Root {
  import opened Wrappers
  import opened Bytes

  datatype RootData = RootData(fdid: U32, contentKey: U128, nameHash: U64)

  datatype RootError =
    | EmptyRoot                 // "empty root?"
    | TruncatedHeader           // "truncated root header"
    | TruncatedBlock            // "truncated root cas block"
    | TruncatedDeltas           // "truncated filedataid delta block"
    | FdidOverflow              // i32 overflow of the running sum (a panic)
    | NegativeFdid              // `fdid.try_into::<u32>()` of a negative id
    | ShortRead                 // a content-key or name-hash read past the end (a panic)
    | NoContentKey(fdid: U32)   // "no content key for fdid {}"

  /** How the blocks are laid out, fixed by the file header. */
  datatype Layout = Layout(interleave: bool, canSkip: bool)

  const Tsfm: Bytes := [0x54, 0x53, 0x46, 0x4D]

  /** The content flag that, in a TSFM file with unnamed files, marks a
      block without name hashes. */
  const NoNameHashFlag: nat := 0x1000_0000

  predicate HasFlag(flags: U32, flag: nat)
    requires flag == NoNameHashFlag
  {
    (flags / flag) % 2 == 1
  }

  /** The block stores no name hashes (they read as 0). */
  predicate NamesSkipped(layout: Layout, contentFlags: U32)
  {
    !layout.interleave && layout.canSkip && HasFlag(contentFlags, NoNameHashFlag)
  }

  predicate InI32(x: int) { -0x8000_0000 <= x < 0x8000_0000 }

  /** The header: which layout applies and where the blocks start. */
  function SelectLayout(data: Bytes): (r: Result<(Layout, Bytes), RootError>)
    ensures |data| < 4 ==> r == Err(EmptyRoot)
    ensures r.Ok? ==> (r.value.0.interleave <==> data[..4] != Tsfm)
    ensures r.Ok? ==> (r.value.0.canSkip <==>
      data[..4] == Tsfm && |data| >= 12 && U32LE(data[4..]) != U32LE(data[8..]))
    ensures r.Ok? && r.value.0.interleave ==> r.value.1 == data
    ensures r.Ok? && !r.value.0.interleave ==> |data| >= 12 && r.value.1 == data[12..]
    ensures |data| >= 4 && data[..4] == Tsfm && |data| < 12 ==> r == Err(TruncatedHeader)
  {
    if |data| < 4 then Err(EmptyRoot)
    else if data[..4] == Tsfm then
      if |data| - 4 < 8 then Err(TruncatedHeader)
      else
        var totalFileCount := U32LE(data[4..]);
        var namedFileCount := U32LE(data[8..]);
        Ok((Layout(false, totalFileCount != namedFileCount), data[12..]))
    else Ok((Layout(true, false), data))
  }

  /** The stored deltas of a block, each a little-endian i32. */
  function ReadDeltas(p: Bytes, n: nat): (ds: seq<int>)
    requires |p| >= 4 * n
    ensures |ds| == n
    ensures forall i :: 0 <= i < n ==> InI32(ds[i])
    ensures forall i :: 0 <= i < n ==> ds[i] == I32LE(p[4 * i..])
    decreases n
  {
    if n == 0 then []
    else
      var more := ReadDeltas(p[4..], n - 1);
      assert forall i :: 1 <= i < n ==> p[4..][4 * (i - 1)..] == p[4 * i..];
      [I32LE(p)] + more
  }

  /** The FileDataIDs of a block: `fdid = fdid + delta + 1` starting from
      `prev`, in i32 arithmetic (an overflow is a failure), each id checked
      to be non-negative before it is stored as a u32. */
  function RunningIds(ds: seq<int>, prev: int): (r: Result<seq<U32>, RootError>)
    ensures r.Ok? ==> |r.value| == |ds|
    ensures r.Ok? ==> forall i :: 0 <= i < |ds| ==>
      r.value[i] == (if i == 0 then prev else r.value[i - 1]) + ds[i] + 1
    ensures r.Ok? ==> forall i :: 0 <= i < |ds| ==> r.value[i] < 0x8000_0000
  {
    if |ds| == 0 then Ok([])
    else
      var sum := prev + ds[0];
      if !InI32(sum) || !InI32(sum + 1) then Err(FdidOverflow)
      else if sum + 1 < 0 then Err(NegativeFdid)
      else
        var rest :- RunningIds(ds[1..], sum + 1);
        Ok([sum + 1] + rest)
  }

  function ReadNameHashes(p: Bytes, n: nat): (hs: seq<U64>)
    requires |p| >= 8 * n
    ensures |hs| == n
    decreases n
  {
    if n == 0 then [] else [U64LE(p)] + ReadNameHashes(p[8..], n - 1)
  }

  /** The content keys and name hashes of a block, and what follows them. */
  datatype Columns = Columns(keys: seq<U128>, names: seq<U64>, rest: Bytes)

  /** Legacy layout: per record a big-endian content key then a
      little-endian name hash. */
  function ReadInterleaved(p: Bytes, n: nat): (c: Columns)
    requires |p| >= 24 * n
    ensures |c.keys| == n && |c.names| == n
    ensures c.rest == p[24 * n..]
    decreases n
  {
    if n == 0 then Columns([], [], p)
    else
      var c := ReadInterleaved(p[24..], n - 1);
      Columns([U128BE(p)] + c.keys, [U64LE(p[16..])] + c.names, c.rest)
  }

  /** Record `i` of the interleaved layout is the 24 bytes at `24 * i`: a
      big-endian content key, then a little-endian name hash. */
  lemma {:induction false} ReadInterleavedAt(p: Bytes, n: nat, i: nat)
    requires |p| >= 24 * n && i < n
    ensures ReadInterleaved(p, n).keys[i] == U128BE(p[24 * i..])
    ensures ReadInterleaved(p, n).names[i] == U64LE(p[24 * i + 16..])
    decreases i
  {
    if i > 0 {
      ReadInterleavedShift(p, n, i);
      ReadInterleavedAt(p[24..], n - 1, i - 1);
    }
  }

  lemma ReadInterleavedShift(p: Bytes, n: nat, i: nat)
    requires |p| >= 24 * n && 0 < i < n
    ensures ReadInterleaved(p, n).keys[i] == ReadInterleaved(p[24..], n - 1).keys[i - 1]
    ensures ReadInterleaved(p, n).names[i] == ReadInterleaved(p[24..], n - 1).names[i - 1]
    ensures p[24..][24 * (i - 1)..] == p[24 * i..]
    ensures p[24..][24 * (i - 1) + 16..] == p[24 * i + 16..]
  {
  }

  /** The columns after the deltas: interleaved pairs in the legacy layout;
      all keys, then all name hashes unless the block skips them, in the
      TSFM layout. */
  function ReadColumns(q: Bytes, n: nat, layout: Layout, contentFlags: U32): (r: Result<Columns, RootError>)
    ensures r.Ok? ==> |r.value.keys| == n && |r.value.names| == n && |r.value.rest| <= |q|
    ensures r.Ok? && NamesSkipped(layout, contentFlags) ==>
      forall i :: 0 <= i < n ==> r.value.names[i] == 0
  {
    if layout.interleave then
      if |q| < 24 * n then Err(ShortRead) else Ok(ReadInterleaved(q, n))
    else if |q| < 16 * n then Err(ShortRead)
    else
      var keys := U128BEs(q, n);
      var q' := q[16 * n..];
      if NamesSkipped(layout, contentFlags) then Ok(Columns(keys, Zeros(n), q'))
      else if |q'| < 8 * n then Err(ShortRead)
      else Ok(Columns(keys, ReadNameHashes(q', n), q'[8 * n..]))
  }

  function Zip(ids: seq<U32>, keys: seq<U128>, names: seq<U64>): (es: seq<RootData>)
    requires |ids| == |keys| == |names|
    ensures |es| == |ids|
    ensures forall i :: 0 <= i < |es| ==> es[i] == RootData(ids[i], keys[i], names[i])
  {
    seq(|ids|, i requires 0 <= i < |ids| => RootData(ids[i], keys[i], names[i]))
  }

  datatype BlockParse = BlockParse(entries: seq<RootData>, rest: Bytes)

  /** One block.  The locale flags are read and dropped. */
  function ParseBlock(p: Bytes, layout: Layout): (r: Result<BlockParse, RootError>)
    ensures |p| < 12 ==> r == Err(TruncatedBlock)
    ensures |p| >= 12 && |p| - 12 < 4 * U32LE(p) ==> r == Err(TruncatedDeltas)
    ensures r.Ok? ==> |p| >= 12 && |r.value.entries| == U32LE(p) && |r.value.rest| < |p|
    ensures r.Ok? && NamesSkipped(layout, U32LE(p[4..])) ==>
      forall i :: 0 <= i < |r.value.entries| ==> r.value.entries[i].nameHash == 0
    ensures r.Ok? ==>
      && RunningIds(ReadDeltas(p[12..], U32LE(p)), -1).Ok?
      && ReadColumns(p[12 + 4 * U32LE(p)..], U32LE(p), layout, U32LE(p[4..])).Ok?
      && var ids := RunningIds(ReadDeltas(p[12..], U32LE(p)), -1).value;
         var cols := ReadColumns(p[12 + 4 * U32LE(p)..], U32LE(p), layout, U32LE(p[4..])).value;
         && (forall i :: 0 <= i < |r.value.entries| ==>
               r.value.entries[i] == RootData(ids[i], cols.keys[i], cols.names[i]))
         && r.value.rest == cols.rest
  {
    if |p| < 12 then Err(TruncatedBlock)
    else
      var n := U32LE(p);
      var contentFlags := U32LE(p[4..]);
      var deltas := p[12..];
      if |deltas| < 4 * n then Err(TruncatedDeltas)
      else
        var ids :- RunningIds(ReadDeltas(deltas, n), -1);
        assert deltas[4 * n..] == p[12 + 4 * n..];
        var cols :- ReadColumns(deltas[4 * n..], n, layout, contentFlags);
        Ok(BlockParse(Zip(ids, cols.keys, cols.names), cols.rest))
  }

  /** Blocks until the input is exhausted, entries concatenated in order. */
  function ParseBlocks(p: Bytes, layout: Layout): (r: Result<seq<RootData>, RootError>)
    ensures |p| == 0 ==> r == Ok([])
    ensures |p| > 0 && ParseBlock(p, layout).Err? ==> r == Err(ParseBlock(p, layout).error)
    ensures r.Ok? && |p| > 0 ==>
      && ParseBlock(p, layout).Ok?
      && ParseBlock(p, layout).value.entries <= r.value
      && ParseBlocks(ParseBlock(p, layout).value.rest, layout)
           == Ok(r.value[|ParseBlock(p, layout).value.entries|..])
    decreases |p|
  {
    if |p| == 0 then Ok([])
    else
      var b :- ParseBlock(p, layout);
      var tail :- ParseBlocks(b.rest, layout);
      Ok(b.entries + tail)
  }

  /** `root::parse`. */
  function Parse(data: Bytes): (r: Result<seq<RootData>, RootError>)
    ensures |data| < 4 ==> r == Err(EmptyRoot)
    ensures |data| >= 4 && data[..4] == Tsfm && |data| < 12 ==> r == Err(TruncatedHeader)
    ensures r.Ok? ==>
      && SelectLayout(data).Ok?
      && ParseBlocks(SelectLayout(data).value.1, SelectLayout(data).value.0) == r
  {
    var header :- SelectLayout(data);
    ParseBlocks(header.1, header.0)
  }

  /** `Root::f2c`: the content key of the first entry with the given
      FileDataID. */
  function F2C(root: seq<RootData>, fdid: U32): (r: Result<U128, RootError>)
    ensures r.Ok? <==> exists i :: 0 <= i < |root| && root[i].fdid == fdid
    ensures r.Ok? ==> exists i :: (0 <= i < |root| && root[i].fdid == fdid &&
      root[i].contentKey == r.value && forall j :: 0 <= j < i ==> root[j].fdid != fdid)
    ensures r.Err? ==> r.error == NoContentKey(fdid)
  {
    if |root| == 0 then Err(NoContentKey(fdid))
    else if root[0].fdid == fdid then Ok(root[0].contentKey)
    else
      var r := F2C(root[1..], fdid);
      assert forall i :: 1 <= i < |root| ==> root[i] == root[1..][i - 1];
      r
  }
}
