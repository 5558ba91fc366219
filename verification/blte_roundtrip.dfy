/** Writing BLTE containers and reading them back.

    A chunk is stored plainly or as a zlib stream that inflates to its
    data.  The writer emits the header, the chunk table (sizes and MD5 of
    each stored chunk) and the stored chunks; `Blte.Parse` returns the
    chunks' data concatenated in order. */
module BlteRoundTrip {
  import opened Wrappers
  import opened Bytes
  import opened Blte

  datatype Chunk = Plain(data: Bytes) | Zlib(packed: Bytes, data: Bytes)

  /** A chunk as stored: mode byte, then payload. */
  function ChunkBytes(c: Chunk): (s: Bytes)
    ensures |s| > 0
  {
    match c
    case Plain(data) => [PlainMode] + data
    case Zlib(packed, _) => [ZlibMode] + packed
  }

  predicate WritableChunk(inflate: Bytes -> Option<Bytes>, c: Chunk)
  {
    && |ChunkBytes(c)| < TwoTo32
    && |c.data| < TwoTo32
    && (c.Zlib? ==> inflate(c.packed) == Some(c.data))
  }

  lemma DecodeChunkBytes(inflate: Bytes -> Option<Bytes>, c: Chunk)
    requires c.Zlib? ==> inflate(c.packed) == Some(c.data)
    ensures DecodeChunk(inflate, ChunkBytes(c)) == Ok(c.data)
  {
    match c
    case Plain(data) => assert ChunkBytes(c)[1..] == data;
    case Zlib(packed, _) => assert ChunkBytes(c)[1..] == packed;
  }

  function InfoOf(md5: Bytes -> U128, c: Chunk): ChunkInfo
    requires |ChunkBytes(c)| < TwoTo32 && |c.data| < TwoTo32
  {
    ChunkInfo(|ChunkBytes(c)|, |c.data|, md5(ChunkBytes(c)))
  }

  function Infos(md5: Bytes -> U128, inflate: Bytes -> Option<Bytes>, cs: seq<Chunk>): (infos: seq<ChunkInfo>)
    requires forall i :: 0 <= i < |cs| ==> WritableChunk(inflate, cs[i])
    ensures |infos| == |cs|
  {
    if |cs| == 0 then []
    else
      assert WritableChunk(inflate, cs[0]);
      [InfoOf(md5, cs[0])] + Infos(md5, inflate, cs[1..])
  }

  function InfoBytes(info: ChunkInfo): (s: Bytes)
    ensures |s| == ChunkInfoSize
  {
    U32BEBytes(info.compressedSize) + (U32BEBytes(info.uncompressedSize) + U128BEBytes(info.checksum))
  }

  function InfosBytes(infos: seq<ChunkInfo>): (s: Bytes)
    ensures |s| == ChunkInfoSize * |infos|
  {
    if |infos| == 0 then [] else InfoBytes(infos[0]) + InfosBytes(infos[1..])
  }

  lemma ReadInfoBytes(info: ChunkInfo, rest: Bytes)
    ensures ReadChunkInfo(InfoBytes(info) + rest) == info
    ensures (InfoBytes(info) + rest)[ChunkInfoSize..] == rest
  {
    var s := InfoBytes(info) + rest;
    var a, b, c := U32BEBytes(info.compressedSize), U32BEBytes(info.uncompressedSize), U128BEBytes(info.checksum);
    ConcatAssoc(a, b + c, rest);
    ConcatAssoc(b, c, rest);
    ReadU32BE(info.compressedSize, b + (c + rest));
    ReadU32BE(info.uncompressedSize, c + rest);
    ReadU128BE(info.checksum, rest);
    assert s[4..][4..] == s[8..];
  }

  lemma {:induction false} ReadInfosBytes(infos: seq<ChunkInfo>, rest: Bytes)
    ensures ReadChunkInfos(InfosBytes(infos) + rest, |infos|) == Ok((infos, rest))
  {
    if |infos| > 0 {
      ConcatAssoc(InfoBytes(infos[0]), InfosBytes(infos[1..]), rest);
      ReadInfoBytes(infos[0], InfosBytes(infos[1..]) + rest);
      ReadInfosBytes(infos[1..], rest);
      assert infos == [infos[0]] + infos[1..];
    }
  }

  function ChunksBytes(cs: seq<Chunk>): Bytes
  {
    if |cs| == 0 then [] else ChunkBytes(cs[0]) + ChunksBytes(cs[1..])
  }

  /** The decoded output: every chunk's data in order. */
  function Outputs(cs: seq<Chunk>): Bytes
  {
    if |cs| == 0 then [] else cs[0].data + Outputs(cs[1..])
  }

  lemma {:induction false} DecodeChunksBytes(md5: Bytes -> U128, inflate: Bytes -> Option<Bytes>,
                                             cs: seq<Chunk>, rest: Bytes)
    requires forall i :: 0 <= i < |cs| ==> WritableChunk(inflate, cs[i])
    ensures DecodeChunks(md5, inflate, Infos(md5, inflate, cs), ChunksBytes(cs) + rest) == Ok((Outputs(cs), rest))
  {
    if |cs| > 0 {
      var c := cs[0];
      var p := ChunksBytes(cs) + rest;
      ConcatAssoc(ChunkBytes(c), ChunksBytes(cs[1..]), rest);
      assert p[..|ChunkBytes(c)|] == ChunkBytes(c);
      assert p[|ChunkBytes(c)|..] == ChunksBytes(cs[1..]) + rest;
      DecodeChunkBytes(inflate, c);
      DecodeChunksBytes(md5, inflate, cs[1..], rest);
    }
  }

  /** The chunk count as the three header bytes 9..12. */
  function CountBytes(n: nat): (s: Bytes)
    requires n < 0x100_0000
    ensures |s| == 3
  {
    [n / 0x1_0000] + U16BEBytes(n % 0x1_0000)
  }

  /** The chunk count reads back from its three bytes. */
  lemma ReadCountBytes(n: nat, prefix: Bytes, rest: Bytes)
    requires n < 0x100_0000 && |prefix| == 9
    ensures |prefix + (CountBytes(n) + rest)| >= HeaderPrefixSize
    ensures ChunkCount(prefix + (CountBytes(n) + rest)) == n
    ensures (prefix + (CountBytes(n) + rest))[12..] == rest
  {
    var data := prefix + (CountBytes(n) + rest);
    var low := U16BEBytes(n % 0x1_0000);
    ReadU16BE(n % 0x1_0000, rest);
    assert data[10..] == low + rest;
    assert data[9] == n / 0x1_0000;
  }

  /** The 12-byte header of a container of `n` chunks. */
  function HeaderBytes(n: nat): (s: Bytes)
    requires n < 0x100_0000
    ensures |s| == HeaderPrefixSize
  {
    BlteMagic + (U32BEBytes(24 * n + 12) + [FlagByte]) + CountBytes(n)
  }

  /** A container with a chunk table. */
  function Encode(md5: Bytes -> U128, inflate: Bytes -> Option<Bytes>, cs: seq<Chunk>): Bytes
    requires |cs| < 0x100_0000
    requires forall i :: 0 <= i < |cs| ==> WritableChunk(inflate, cs[i])
  {
    HeaderBytes(|cs|) + (InfosBytes(Infos(md5, inflate, cs)) + ChunksBytes(cs))
  }

  /** The header reads back: magic, header size, flag and chunk count. */
  lemma ReadHeader(n: nat, rest: Bytes)
    requires n < 0x100_0000
    ensures var data := HeaderBytes(n) + rest;
      && |data| >= HeaderPrefixSize
      && data[..4] == BlteMagic
      && U32BE(data[4..]) == 24 * n + 12
      && data[8] == FlagByte
      && ChunkCount(data) == n
      && data[12..] == rest
  {
    var size := U32BEBytes(24 * n + 12);
    var prefix := BlteMagic + (size + [FlagByte]);
    var data := HeaderBytes(n) + rest;
    ConcatAssoc(prefix, CountBytes(n), rest);
    ReadCountBytes(n, prefix, rest);
    assert data[4..] == size + ([FlagByte] + (CountBytes(n) + rest));
    ReadU32BE(24 * n + 12, [FlagByte] + (CountBytes(n) + rest));
  }

  /** The chunks' data, concatenated, is what the container decodes to. */
  lemma BlteRoundTrip(md5: Bytes -> U128, inflate: Bytes -> Option<Bytes>, cs: seq<Chunk>)
    requires |cs| < 0x100_0000
    requires forall i :: 0 <= i < |cs| ==> WritableChunk(inflate, cs[i])
    ensures Parse(md5, inflate, Encode(md5, inflate, cs)) == Ok(Outputs(cs))
  {
    var infos := Infos(md5, inflate, cs);
    var body := InfosBytes(infos) + ChunksBytes(cs);
    ReadHeader(|cs|, body);
    ReadInfosBytes(infos, ChunksBytes(cs));
    DecodeChunksBytes(md5, inflate, cs, []);
    assert ChunksBytes(cs) + [] == ChunksBytes(cs);
    ParseStages(md5, inflate, Encode(md5, inflate, cs), infos, ChunksBytes(cs), Outputs(cs));
  }

  /** A container without a chunk table: header size zero, then one chunk. */
  function EncodeSingle(c: Chunk): Bytes
  {
    BlteMagic + (U32BEBytes(0) + ChunkBytes(c))
  }

  /** A single chunk reads back if the container reaches the 12 bytes the
      header check demands. */
  lemma SingleRoundTrip(inflate: Bytes -> Option<Bytes>, md5: Bytes -> U128, c: Chunk)
    requires c.Zlib? ==> inflate(c.packed) == Some(c.data)
    requires |ChunkBytes(c)| >= 4
    ensures Parse(md5, inflate, EncodeSingle(c)) == Ok(c.data)
  {
    var data := EncodeSingle(c);
    ReadU32BE(0, ChunkBytes(c));
    assert data[4..] == U32BEBytes(0) + ChunkBytes(c);
    assert data[8..] == ChunkBytes(c);
    DecodeChunkBytes(inflate, c);
  }

  /** Below 12 bytes even a well-formed single chunk is refused. */
  lemma ShortSingleRefused(inflate: Bytes -> Option<Bytes>, md5: Bytes -> U128, c: Chunk)
    requires |ChunkBytes(c)| < 4
    ensures Parse(md5, inflate, EncodeSingle(c)) == Err(TruncatedHeader)
  {
  }
}
