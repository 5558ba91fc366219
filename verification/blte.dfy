/** The BLTE container (`src/blte.rs`): a sequence of chunks, each stored
    plainly or zlib-compressed.

    A 12-byte header or more: "BLTE", the header size, and, unless the
    header size is zero, a flag byte 0x0F, a 24-bit chunk count and one
    24-byte entry per chunk (compressed size, uncompressed size, MD5).  A
    header size of zero means the rest of the input is one chunk with no
    table.  Each chunk is a mode byte ('N' plain, 'Z' zlib) and a payload;
    the output is the decoded chunks in order.  MD5 and inflate are
    parameters. */
module Blte {
  import opened Wrappers
  import opened Bytes

  datatype BlteError =
    | TruncatedHeader          // "truncated header"
    | NotBlte                  // "not BLTE format"
    | BadFlagByte              // "bad flag byte"
    | HeaderSizeMismatch       // "header size mismatch"
    | ChunkChecksum            // "chunk checksum error"
    | InvalidEncoding          // "invalid encoding"
    | InflateError             // "inflate error"
    | InvalidUncompressedSize  // "invalid uncompressed size"
    | TrailingData             // "trailing blte data"
    | ShortRead                // a read past the end of the input (a panic)

  const BlteMagic: Bytes := [0x42, 0x4C, 0x54, 0x45]   // "BLTE"
  const HeaderPrefixSize: nat := 12
  const FlagByte: Byte := 0x0F
  const ChunkInfoSize: nat := 24
  const PlainMode: Byte := 0x4E      // 'N'
  const ZlibMode: Byte := 0x5A       // 'Z'

  /** `parse_blte_chunk`: the mode byte decides how the payload decodes.
      An empty chunk has no mode byte (the source indexes past the end). */
  function DecodeChunk(inflate: Bytes -> Option<Bytes>, chunk: Bytes): (r: Result<Bytes, BlteError>)
    ensures |chunk| == 0 ==> r == Err(ShortRead)
    ensures |chunk| > 0 && chunk[0] == PlainMode ==> r == Ok(chunk[1..])
    ensures |chunk| > 0 && chunk[0] == ZlibMode ==>
      r == (if inflate(chunk[1..]).Some? then Ok(inflate(chunk[1..]).value) else Err(InflateError))
    ensures |chunk| > 0 && chunk[0] != PlainMode && chunk[0] != ZlibMode ==> r == Err(InvalidEncoding)
  {
    if |chunk| == 0 then Err(ShortRead)
    else if chunk[0] == PlainMode then Ok(chunk[1..])
    else if chunk[0] == ZlibMode then
      match inflate(chunk[1..])
      case Some(data) => Ok(data)
      case None => Err(InflateError)
    else Err(InvalidEncoding)
  }

  datatype ChunkInfo = ChunkInfo(compressedSize: U32, uncompressedSize: U32, checksum: U128)

  function ReadChunkInfo(p: Bytes): ChunkInfo
    requires |p| >= ChunkInfoSize
  {
    ChunkInfo(U32BE(p), U32BE(p[4..]), U128BE(p[8..]))
  }

  /** The chunk table: `n` entries read in order; running out is a panic. */
  function ReadChunkInfos(p: Bytes, n: nat): (r: Result<(seq<ChunkInfo>, Bytes), BlteError>)
    ensures r.Ok? <==> |p| >= ChunkInfoSize * n
    ensures r.Ok? ==> |r.value.0| == n && r.value.1 == p[ChunkInfoSize * n..]
    ensures r.Ok? ==> forall i :: 0 <= i < n ==> r.value.0[i] == ReadChunkInfo(p[ChunkInfoSize * i..])
    decreases n
  {
    if n == 0 then Ok(([], p))
    else if |p| < ChunkInfoSize then Err(ShortRead)
    else
      var more :- ReadChunkInfos(p[24..], n - 1);
      var infos := [ReadChunkInfo(p)] + more.0;
      assert forall i :: 1 <= i < n ==> p[24..][ChunkInfoSize * (i - 1)..] == p[ChunkInfoSize * i..];
      Ok((infos, more.1))
  }

  function UncompressedTotal(infos: seq<ChunkInfo>): nat
  {
    if |infos| == 0 then 0 else infos[0].uncompressedSize + UncompressedTotal(infos[1..])
  }

  function CompressedTotal(infos: seq<ChunkInfo>): nat
  {
    if |infos| == 0 then 0 else infos[0].compressedSize + CompressedTotal(infos[1..])
  }

  /** The input cut into the table's chunks: chunk `i` starts where chunk
      `i - 1` ends and is as long as entry `i`'s compressed size. */
  function CutChunks(p: Bytes, infos: seq<ChunkInfo>): (cs: seq<Bytes>)
    requires |p| >= CompressedTotal(infos)
    ensures |cs| == |infos|
    ensures forall i :: 0 <= i < |infos| ==> |cs[i]| == infos[i].compressedSize
    ensures Flatten(cs) == p[..CompressedTotal(infos)]
    decreases |infos|
  {
    if |infos| == 0 then []
    else
      var c := infos[0].compressedSize;
      var more := CutChunks(p[c..], infos[1..]);
      var cs := [p[..c]] + more;
      assert cs[1..] == more;
      assert p[..CompressedTotal(infos)] == p[..c] + p[c..][..CompressedTotal(infos[1..])];
      cs
  }

  /** A chunk agrees with its table entry: its MD5 is the entry's checksum,
      its mode byte decodes, and the output has the uncompressed size. */
  predicate ChunkMatches(md5: Bytes -> U128, inflate: Bytes -> Option<Bytes>, info: ChunkInfo, chunk: Bytes)
  {
    && md5(chunk) == info.checksum
    && DecodeChunk(inflate, chunk).Ok?
    && |DecodeChunk(inflate, chunk).value| == info.uncompressedSize
  }

  /** The outputs of chunks that all match their entries, concatenated in
      order. */
  function DecodedAll(md5: Bytes -> U128, inflate: Bytes -> Option<Bytes>, infos: seq<ChunkInfo>, cs: seq<Bytes>): Bytes
    requires |cs| == |infos|
    requires forall i :: 0 <= i < |infos| ==> ChunkMatches(md5, inflate, infos[i], cs[i])
  {
    if |cs| == 0 then []
    else
      assert forall i :: 0 <= i < |infos| - 1 ==> infos[1..][i] == infos[i + 1] && cs[1..][i] == cs[i + 1];
      assert ChunkMatches(md5, inflate, infos[0], cs[0]);
      DecodeChunk(inflate, cs[0]).value + DecodedAll(md5, inflate, infos[1..], cs[1..])
  }

  /** The chunks in table order: each is cut from the input, checked
      against its MD5, decoded and checked against its uncompressed size;
      the outputs are concatenated.  The second result is what follows the
      last chunk. */
  function DecodeChunks(md5: Bytes -> U128, inflate: Bytes -> Option<Bytes>, infos: seq<ChunkInfo>, p: Bytes)
    : (r: Result<(Bytes, Bytes), BlteError>)
    ensures r.Ok? ==> |r.value.0| == UncompressedTotal(infos)
    ensures r.Ok? ==> |p| == CompressedTotal(infos) + |r.value.1| && r.value.1 == p[CompressedTotal(infos)..]
    ensures r.Ok? ==> forall i :: 0 <= i < |infos| ==> ChunkMatches(md5, inflate, infos[i], CutChunks(p, infos)[i])
    ensures r.Ok? ==> r.value.0 == DecodedAll(md5, inflate, infos, CutChunks(p, infos))
    decreases |infos|
  {
    if |infos| == 0 then Ok(([], p))
    else
      var info := infos[0];
      if |p| < info.compressedSize then Err(ShortRead)
      else
        var chunk := p[..info.compressedSize];
        if info.checksum != md5(chunk) then Err(ChunkChecksum)
        else
          var data :- DecodeChunk(inflate, chunk);
          if |data| != info.uncompressedSize then Err(InvalidUncompressedSize)
          else
            var more :- DecodeChunks(md5, inflate, infos[1..], p[info.compressedSize..]);
            DecodeChunksStep(md5, inflate, infos, p, more.0);
            Ok((data + more.0, more.1))
  }

  /** The cons step of `DecodeChunks`: a first chunk that matches its entry,
      followed by chunks that all match theirs. */
  lemma DecodeChunksStep(md5: Bytes -> U128, inflate: Bytes -> Option<Bytes>, infos: seq<ChunkInfo>, p: Bytes, out: Bytes)
    requires |infos| > 0 && |p| >= infos[0].compressedSize
    requires ChunkMatches(md5, inflate, infos[0], p[..infos[0].compressedSize])
    requires var q := p[infos[0].compressedSize..];
      && |q| >= CompressedTotal(infos[1..])
      && (forall i :: 0 <= i < |infos| - 1 ==> ChunkMatches(md5, inflate, infos[1..][i], CutChunks(q, infos[1..])[i]))
      && out == DecodedAll(md5, inflate, infos[1..], CutChunks(q, infos[1..]))
    ensures |p| >= CompressedTotal(infos)
    ensures forall i :: 0 <= i < |infos| ==> ChunkMatches(md5, inflate, infos[i], CutChunks(p, infos)[i])
    ensures DecodedAll(md5, inflate, infos, CutChunks(p, infos))
      == DecodeChunk(inflate, p[..infos[0].compressedSize]).value + out
  {
    var c := infos[0].compressedSize;
    var cs := CutChunks(p, infos);
    assert cs == [p[..c]] + CutChunks(p[c..], infos[1..]);
    assert cs[1..] == CutChunks(p[c..], infos[1..]);
  }

  /** The first cut chunk, and the cut of the input after it. */
  lemma CutChunksCons(p: Bytes, infos: seq<ChunkInfo>)
    requires |infos| > 0 && |p| >= CompressedTotal(infos)
    ensures |p| >= infos[0].compressedSize
    ensures CutChunks(p, infos)[0] == p[..infos[0].compressedSize]
    ensures CutChunks(p, infos)[1..] == CutChunks(p[infos[0].compressedSize..], infos[1..])
  {
    var c := infos[0].compressedSize;
    assert CutChunks(p, infos) == [p[..c]] + CutChunks(p[c..], infos[1..]);
  }

  /** Entries and chunks that all match still match after dropping the
      first of each, and the output splits off the first chunk's. */
  lemma MatchesCons(md5: Bytes -> U128, inflate: Bytes -> Option<Bytes>, infos: seq<ChunkInfo>, cs: seq<Bytes>)
    requires |infos| > 0 && |cs| == |infos|
    requires forall i :: 0 <= i < |infos| ==> ChunkMatches(md5, inflate, infos[i], cs[i])
    ensures ChunkMatches(md5, inflate, infos[0], cs[0])
    ensures forall i :: 0 <= i < |infos| - 1 ==> ChunkMatches(md5, inflate, infos[1..][i], cs[1..][i])
    ensures DecodedAll(md5, inflate, infos, cs)
      == DecodeChunk(inflate, cs[0]).value + DecodedAll(md5, inflate, infos[1..], cs[1..])
  {
    assert forall i :: 0 <= i < |infos| - 1 ==> infos[1..][i] == infos[i + 1] && cs[1..][i] == cs[i + 1];
  }

  /** The converse of `DecodeChunks`'s contract: when the input holds every
      chunk and each matches its entry, the chunks decode to their outputs
      concatenated, and the rest is what follows the last chunk. */
  lemma {:induction false} DecodeChunksAccepts(md5: Bytes -> U128, inflate: Bytes -> Option<Bytes>,
                                               infos: seq<ChunkInfo>, p: Bytes)
    requires |p| >= CompressedTotal(infos)
    requires forall i :: 0 <= i < |infos| ==> ChunkMatches(md5, inflate, infos[i], CutChunks(p, infos)[i])
    ensures DecodeChunks(md5, inflate, infos, p)
      == Ok((DecodedAll(md5, inflate, infos, CutChunks(p, infos)), p[CompressedTotal(infos)..]))
    decreases |infos|
  {
    if |infos| > 0 {
      var c := infos[0].compressedSize;
      CutChunksCons(p, infos);
      MatchesCons(md5, inflate, infos, CutChunks(p, infos));
      DecodeChunksAccepts(md5, inflate, infos[1..], p[c..]);
      assert p[c..][CompressedTotal(infos[1..])..] == p[CompressedTotal(infos)..];
    }
  }

  /** A table's chunks as `Parse` sees them: everything after the header
      and the table, each chunk matching its entry, with nothing left over;
      the output is their decoded data in table order. */
  predicate ChunksAccepted(md5: Bytes -> U128, inflate: Bytes -> Option<Bytes>, infos: seq<ChunkInfo>,
                           chunks: Bytes, out: Bytes)
  {
    && |chunks| == CompressedTotal(infos)
    && (forall i :: 0 <= i < |infos| ==> ChunkMatches(md5, inflate, infos[i], CutChunks(chunks, infos)[i]))
    && out == DecodedAll(md5, inflate, infos, CutChunks(chunks, infos))
    && |out| == UncompressedTotal(infos)
  }

  /** `blte::parse`. */
  function Parse(md5: Bytes -> U128, inflate: Bytes -> Option<Bytes>, data: Bytes): (r: Result<Bytes, BlteError>)
    ensures |data| < HeaderPrefixSize ==> r == Err(TruncatedHeader)
    ensures |data| >= HeaderPrefixSize && data[..4] != BlteMagic ==> r == Err(NotBlte)
    ensures |data| >= HeaderPrefixSize && data[..4] == BlteMagic && U32BE(data[4..]) == 0 ==>
      r == DecodeChunk(inflate, data[8..])
    ensures r.Ok? && U32BE(data[4..]) != 0 ==>
      && data[8] == FlagByte
      && U32BE(data[4..]) == 24 * ChunkCount(data) + 12
      && ReadChunkInfos(data[12..], ChunkCount(data)).Ok?
      && ChunksAccepted(md5, inflate, ReadChunkInfos(data[12..], ChunkCount(data)).value.0,
                        data[12 + 24 * ChunkCount(data)..], r.value)
  {
    if |data| < HeaderPrefixSize then Err(TruncatedHeader)
    else if data[..4] != BlteMagic then Err(NotBlte)
    else if U32BE(data[4..]) == 0 then DecodeChunk(inflate, data[8..])
    else ParseTable(md5, inflate, data)
  }

  /** The part of `blte::parse` after a non-zero header size: the flag
      byte, the chunk count, the table and the chunks. */
  function ParseTable(md5: Bytes -> U128, inflate: Bytes -> Option<Bytes>, data: Bytes): (r: Result<Bytes, BlteError>)
    requires |data| >= HeaderPrefixSize
    ensures r.Ok? ==>
      && data[8] == FlagByte
      && U32BE(data[4..]) == 24 * ChunkCount(data) + 12
      && ReadChunkInfos(data[12..], ChunkCount(data)).Ok?
      && ChunksAccepted(md5, inflate, ReadChunkInfos(data[12..], ChunkCount(data)).value.0,
                        data[12 + 24 * ChunkCount(data)..], r.value)
  {
    if data[8] != FlagByte then Err(BadFlagByte)
    else
      var chunkCount := ChunkCount(data);
      if U32BE(data[4..]) != chunkCount * 24 + 12 then Err(HeaderSizeMismatch)
      else
        var (infos, p) :- ReadChunkInfos(data[12..], chunkCount);
        var (out, rest) :- DecodeChunks(md5, inflate, infos, p);
        assert p == data[12 + 24 * chunkCount..];
        if |rest| != 0 then Err(TrailingData)
        else Ok(out)
  }

  /** The 24-bit chunk count: byte 9 above the big-endian u16 at 10. */
  function ChunkCount(data: Bytes): (n: nat)
    requires |data| >= HeaderPrefixSize
    ensures n < 0x100_0000
  {
    data[9] * 0x1_0000 + U16BE(data[10..])
  }

  /** `Parse` succeeds when the header is well-formed and the table and
      chunks decode with nothing left over. */
  lemma ParseStages(md5: Bytes -> U128, inflate: Bytes -> Option<Bytes>, data: Bytes,
                    infos: seq<ChunkInfo>, p: Bytes, out: Bytes)
    requires |data| >= HeaderPrefixSize && data[..4] == BlteMagic && data[8] == FlagByte
    requires U32BE(data[4..]) == 24 * ChunkCount(data) + 12
    requires ReadChunkInfos(data[12..], ChunkCount(data)) == Ok((infos, p))
    requires DecodeChunks(md5, inflate, infos, p) == Ok((out, []))
    ensures Parse(md5, inflate, data) == Ok(out)
  {
  }

  /** The converse of `Parse`'s contract for a container with a table: a
      well-formed header and table whose chunks fill the rest of the input
      and each match their entry decode to the chunks' data in order. */
  lemma ParseAccepts(md5: Bytes -> U128, inflate: Bytes -> Option<Bytes>, data: Bytes)
    requires |data| >= HeaderPrefixSize && data[..4] == BlteMagic && data[8] == FlagByte
    requires U32BE(data[4..]) == 24 * ChunkCount(data) + 12
    requires ReadChunkInfos(data[12..], ChunkCount(data)).Ok?
    requires var infos := ReadChunkInfos(data[12..], ChunkCount(data)).value.0;
      var chunks := data[12 + 24 * ChunkCount(data)..];
      && |chunks| == CompressedTotal(infos)
      && forall i :: 0 <= i < |infos| ==> ChunkMatches(md5, inflate, infos[i], CutChunks(chunks, infos)[i])
    ensures var infos := ReadChunkInfos(data[12..], ChunkCount(data)).value.0;
      var chunks := data[12 + 24 * ChunkCount(data)..];
      Parse(md5, inflate, data) == Ok(DecodedAll(md5, inflate, infos, CutChunks(chunks, infos)))
  {
    var infos := ReadChunkInfos(data[12..], ChunkCount(data)).value.0;
    var chunks := data[12 + 24 * ChunkCount(data)..];
    DecodeChunksAccepts(md5, inflate, infos, chunks);
    assert chunks[CompressedTotal(infos)..] == [];
  }
}
