/** Bytes, fixed-width unsigned integers and their big/little-endian codings.

    The Rust code reads its binary formats through `bytes::Buf`
    (`get_u32`, `get_u128`, `get_u32_le`, ...).  Here a buffer is a
    `seq<Byte>` and a field of width `n` is the natural number `BE` or `LE`
    of its `n` bytes.  `BEBytes`/`LEBytes` are the inverse codings, used by
    the encoders that state the round-trip properties of the parsers. */
module Bytes {

  type Byte = x: int | 0 <= x < 0x100
  type U16 = x: int | 0 <= x < 0x1_0000
  type U32 = x: int | 0 <= x < 0x1_0000_0000
  type U64 = x: int | 0 <= x < 0x1_0000_0000_0000_0000
  type U128 = x: int | 0 <= x < 0x1_0000_0000_0000_0000_0000_0000_0000_0000
  type Bytes = seq<Byte>

  const TwoTo32: nat := 0x1_0000_0000
  const TwoTo64: nat := 0x1_0000_0000_0000_0000

  function Pow256(n: nat): (r: nat)
    ensures r > 0
  {
    if n == 0 then 1 else 256 * Pow256(n - 1)
  }

  lemma Pow256Widths()
    ensures Pow256(1) == 0x100
    ensures Pow256(2) == 0x1_0000
    ensures Pow256(3) == 0x100_0000
    ensures Pow256(4) == 0x1_0000_0000
    ensures Pow256(8) == 0x1_0000_0000_0000_0000
    ensures Pow256(16) == 0x1_0000_0000_0000_0000_0000_0000_0000_0000
  {
  }

  /** The big-endian value of `s` (network order, `Buf::get_uN`). */
  function BE(s: Bytes): (r: nat)
    ensures r < Pow256(|s|)
  {
    if |s| == 0 then 0 else BE(s[..|s| - 1]) * 256 + s[|s| - 1]
  }

  /** The little-endian value of `s` (`Buf::get_uN_le`). */
  function LE(s: Bytes): (r: nat)
    ensures r < Pow256(|s|)
  {
    if |s| == 0 then 0 else s[0] + 256 * LE(s[1..])
  }

  /** The `n`-byte big-endian coding of `v`. */
  function BEBytes(v: nat, n: nat): (s: Bytes)
    requires v < Pow256(n)
    ensures |s| == n
    ensures BE(s) == v
  {
    if n == 0 then []
    else
      var s := BEBytes(v / 256, n - 1) + [v % 256];
      assert s[..|s| - 1] == BEBytes(v / 256, n - 1);
      s
  }

  /** The `n`-byte little-endian coding of `v`. */
  function LEBytes(v: nat, n: nat): (s: Bytes)
    requires v < Pow256(n)
    ensures |s| == n
    ensures LE(s) == v
  {
    if n == 0 then []
    else
      var s := [v % 256] + LEBytes(v / 256, n - 1);
      assert s[1..] == LEBytes(v / 256, n - 1);
      s
  }

  /** A number below 256 is the last base-256 digit of `a * 256 + d`. */
  lemma LastDigit(a: nat, d: nat, b: nat, e: nat)
    requires d < 256 && e < 256 && a * 256 + d == b * 256 + e
    ensures a == b && d == e
  {
    var x := a * 256 + d;
    assert x / 256 == a && x % 256 == d;
    assert x / 256 == b && x % 256 == e;
  }

  /** A byte string is determined by its width and big-endian value. */
  lemma {:induction false} BEInjective(s: Bytes, t: Bytes)
    requires |s| == |t| && BE(s) == BE(t)
    ensures s == t
  {
    if |s| > 0 {
      var n := |s|;
      LastDigit(BE(s[..n - 1]), s[n - 1], BE(t[..n - 1]), t[n - 1]);
      BEInjective(s[..n - 1], t[..n - 1]);
      assert s == s[..n - 1] + [s[n - 1]];
      assert t == t[..n - 1] + [t[n - 1]];
    }
  }

  /** A byte string is determined by its width and little-endian value. */
  lemma {:induction false} LEInjective(s: Bytes, t: Bytes)
    requires |s| == |t| && LE(s) == LE(t)
    ensures s == t
  {
    if |s| > 0 {
      LastDigit(LE(s[1..]), s[0], LE(t[1..]), t[0]);
      LEInjective(s[1..], t[1..]);
      assert s == [s[0]] + s[1..];
      assert t == [t[0]] + t[1..];
    }
  }

  /** Decoding then re-encoding a big-endian field gives back its bytes. */
  lemma BEBytesOfBE(s: Bytes)
    ensures BEBytes(BE(s), |s|) == s
  {
    BEInjective(BEBytes(BE(s), |s|), s);
  }

  function U32BE(s: Bytes): (r: U32)
    requires |s| >= 4
  {
    Pow256Widths();
    BE(s[..4])
  }

  function U32LE(s: Bytes): (r: U32)
    requires |s| >= 4
  {
    Pow256Widths();
    LE(s[..4])
  }

  function U64BE(s: Bytes): (r: U64)
    requires |s| >= 8
  {
    Pow256Widths();
    BE(s[..8])
  }

  function U64LE(s: Bytes): (r: U64)
    requires |s| >= 8
  {
    Pow256Widths();
    LE(s[..8])
  }

  function U128BE(s: Bytes): (r: U128)
    requires |s| >= 16
  {
    Pow256Widths();
    BE(s[..16])
  }

  function U16BE(s: Bytes): (r: U16)
    requires |s| >= 2
  {
    Pow256Widths();
    BE(s[..2])
  }

  function U16LE(s: Bytes): (r: U16)
    requires |s| >= 2
  {
    Pow256Widths();
    LE(s[..2])
  }

  /** `n` consecutive big-endian u128 fields. */
  function U128BEs(p: Bytes, n: nat): (ks: seq<U128>)
    requires |p| >= 16 * n
    ensures |ks| == n
    decreases n
  {
    if n == 0 then [] else [U128BE(p)] + U128BEs(p[16..], n - 1)
  }

  /** `n` consecutive big-endian u64 fields. */
  function U64BEs(p: Bytes, n: nat): (vs: seq<U64>)
    requires |p| >= 8 * n
    ensures |vs| == n
    decreases n
  {
    if n == 0 then [] else [U64BE(p)] + U64BEs(p[8..], n - 1)
  }

  /** `n` consecutive little-endian u32 fields. */
  function U32LEs(p: Bytes, n: nat): (vs: seq<U32>)
    requires |p| >= 4 * n
    ensures |vs| == n
    decreases n
  {
    if n == 0 then [] else [U32LE(p)] + U32LEs(p[4..], n - 1)
  }

  /** Writers of the fixed-width fields, each with the read-back fact the
      round-trip proofs use: the field reads as the value written, and what
      follows it is untouched. */
  function U16BEBytes(v: U16): (s: Bytes)
    ensures |s| == 2
  {
    Pow256Widths();
    BEBytes(v, 2)
  }

  function U16LEBytes(v: U16): (s: Bytes)
    ensures |s| == 2
  {
    Pow256Widths();
    LEBytes(v, 2)
  }

  function U32LEBytes(v: U32): (s: Bytes)
    ensures |s| == 4
  {
    Pow256Widths();
    LEBytes(v, 4)
  }

  function U32BEBytes(v: U32): (s: Bytes)
    ensures |s| == 4
  {
    Pow256Widths();
    BEBytes(v, 4)
  }

  function U64LEBytes(v: U64): (s: Bytes)
    ensures |s| == 8
  {
    Pow256Widths();
    LEBytes(v, 8)
  }

  function U64BEBytes(v: U64): (s: Bytes)
    ensures |s| == 8
  {
    Pow256Widths();
    BEBytes(v, 8)
  }

  function U128BEBytes(v: U128): (s: Bytes)
    ensures |s| == 16
  {
    Pow256Widths();
    BEBytes(v, 16)
  }

  lemma ReadU16BE(v: U16, rest: Bytes)
    ensures U16BE(U16BEBytes(v) + rest) == v
    ensures (U16BEBytes(v) + rest)[2..] == rest
  {
    assert (U16BEBytes(v) + rest)[..2] == U16BEBytes(v);
  }

  lemma ReadU16LE(v: U16, rest: Bytes)
    ensures U16LE(U16LEBytes(v) + rest) == v
    ensures (U16LEBytes(v) + rest)[2..] == rest
  {
    assert (U16LEBytes(v) + rest)[..2] == U16LEBytes(v);
  }

  lemma ReadU32LE(v: U32, rest: Bytes)
    ensures U32LE(U32LEBytes(v) + rest) == v
    ensures (U32LEBytes(v) + rest)[4..] == rest
  {
    assert (U32LEBytes(v) + rest)[..4] == U32LEBytes(v);
  }

  lemma ReadU32BE(v: U32, rest: Bytes)
    ensures U32BE(U32BEBytes(v) + rest) == v
    ensures (U32BEBytes(v) + rest)[4..] == rest
  {
    assert (U32BEBytes(v) + rest)[..4] == U32BEBytes(v);
  }

  lemma ReadU64LE(v: U64, rest: Bytes)
    ensures U64LE(U64LEBytes(v) + rest) == v
    ensures (U64LEBytes(v) + rest)[8..] == rest
  {
    assert (U64LEBytes(v) + rest)[..8] == U64LEBytes(v);
  }

  lemma ReadU64BE(v: U64, rest: Bytes)
    ensures U64BE(U64BEBytes(v) + rest) == v
    ensures (U64BEBytes(v) + rest)[8..] == rest
  {
    assert (U64BEBytes(v) + rest)[..8] == U64BEBytes(v);
  }

  lemma ReadU128BE(v: U128, rest: Bytes)
    ensures U128BE(U128BEBytes(v) + rest) == v
    ensures (U128BEBytes(v) + rest)[16..] == rest
  {
    assert (U128BEBytes(v) + rest)[..16] == U128BEBytes(v);
  }

  /** `n` big-endian u128 fields, the inverse of `U128BEs`. */
  function U128BEsBytes(ks: seq<U128>): (s: Bytes)
    ensures |s| == 16 * |ks|
  {
    if |ks| == 0 then [] else U128BEBytes(ks[0]) + U128BEsBytes(ks[1..])
  }

  lemma {:induction false} ReadU128BEs(ks: seq<U128>, rest: Bytes)
    ensures U128BEs(U128BEsBytes(ks) + rest, |ks|) == ks
    ensures (U128BEsBytes(ks) + rest)[16 * |ks|..] == rest
  {
    if |ks| > 0 {
      var t := U128BEsBytes(ks[1..]) + rest;
      ConcatAssoc(U128BEBytes(ks[0]), U128BEsBytes(ks[1..]), rest);
      ReadU128BE(ks[0], t);
      ReadU128BEs(ks[1..], rest);
      assert ks == [ks[0]] + ks[1..];
    }
  }

  /** `n` big-endian u64 fields, the inverse of `U64BEs`. */
  function U64BEsBytes(vs: seq<U64>): (s: Bytes)
    ensures |s| == 8 * |vs|
  {
    if |vs| == 0 then [] else U64BEBytes(vs[0]) + U64BEsBytes(vs[1..])
  }

  lemma {:induction false} ReadU64BEs(vs: seq<U64>, rest: Bytes)
    ensures U64BEs(U64BEsBytes(vs) + rest, |vs|) == vs
    ensures (U64BEsBytes(vs) + rest)[8 * |vs|..] == rest
  {
    if |vs| > 0 {
      var t := U64BEsBytes(vs[1..]) + rest;
      ConcatAssoc(U64BEBytes(vs[0]), U64BEsBytes(vs[1..]), rest);
      ReadU64BE(vs[0], t);
      ReadU64BEs(vs[1..], rest);
      assert vs == [vs[0]] + vs[1..];
    }
  }

  /** `n` little-endian u32 fields, the inverse of `U32LEs`. */
  function U32LEsBytes(vs: seq<U32>): (s: Bytes)
    ensures |s| == 4 * |vs|
  {
    if |vs| == 0 then [] else U32LEBytes(vs[0]) + U32LEsBytes(vs[1..])
  }

  lemma {:induction false} ReadU32LEs(vs: seq<U32>, rest: Bytes)
    ensures U32LEs(U32LEsBytes(vs) + rest, |vs|) == vs
    ensures (U32LEsBytes(vs) + rest)[4 * |vs|..] == rest
  {
    if |vs| > 0 {
      var t := U32LEsBytes(vs[1..]) + rest;
      ConcatAssoc(U32LEBytes(vs[0]), U32LEsBytes(vs[1..]), rest);
      ReadU32LE(vs[0], t);
      ReadU32LEs(vs[1..], rest);
      assert vs == [vs[0]] + vs[1..];
    }
  }

  /** Field `i` of `U32LEs` is the u32 at byte `4 * i`. */
  lemma {:induction false} U32LEsAt(p: Bytes, n: nat, i: nat)
    requires |p| >= 4 * n && i < n
    ensures U32LEs(p, n)[i] == U32LE(p[4 * i..])
    decreases i
  {
    if i > 0 {
      U32LEsAt(p[4..], n - 1, i - 1);
      assert p[4..][4 * (i - 1)..] == p[4 * i..];
    }
  }

  /** `Buf::get_i32_le`: the two's-complement reading of four bytes. */
  function I32LE(s: Bytes): (r: int)
    requires |s| >= 4
    ensures -0x8000_0000 <= r < 0x8000_0000
  {
    var u := U32LE(s);
    if u < 0x8000_0000 then u else u - TwoTo32
  }

  /** The upper 64 bits of a 128-bit value: `(v >> 64) as u64`. */
  function High64(v: U128): (r: U64)
  {
    v / TwoTo64
  }

  function Zeros(n: nat): (s: Bytes)
    ensures |s| == n
    ensures forall i :: 0 <= i < n ==> s[i] == 0
  {
    if n == 0 then [] else [0] + Zeros(n - 1)
  }

  lemma {:induction false} BEZeros(n: nat)
    ensures BE(Zeros(n)) == 0
  {
    if n > 0 {
      assert Zeros(n)[..n - 1] == Zeros(n - 1);
      BEZeros(n - 1);
    }
  }

  function Flatten(ss: seq<Bytes>): Bytes
  {
    if |ss| == 0 then [] else ss[0] + Flatten(ss[1..])
  }

  lemma ConcatAssoc(a: Bytes, b: Bytes, c: Bytes)
    ensures (a + b) + c == a + (b + c)
  {
  }

  lemma MulStep(n: nat, size: nat)
    requires n > 0
    ensures n * size == size + (n - 1) * size
  {
  }

  /** The first `n` consecutive `size`-byte pieces of `p`, fewer if `p`
      runs out; together they are a prefix of `p`. */
  function Chunks(p: Bytes, n: nat, size: nat): (cs: seq<Bytes>)
    ensures |cs| <= n
    ensures forall i :: 0 <= i < |cs| ==> |cs[i]| == size
    ensures Flatten(cs) <= p
    ensures |cs| < n ==> |p| - |Flatten(cs)| < size
    ensures |p| >= n * size ==> |cs| == n
    decreases n
  {
    if n == 0 || |p| < size then []
    else
      MulStep(n, size);
      var cs := [p[..size]] + Chunks(p[size..], n - 1, size);
      assert cs[1..] == Chunks(p[size..], n - 1, size);
      assert p == p[..size] + p[size..];
      cs
  }

  /** One step of `Chunks` on an input holding a whole piece. */
  lemma ChunksStep(p: Bytes, n: nat, size: nat)
    requires n > 0 && |p| >= size
    ensures Chunks(p, n, size) == [p[..size]] + Chunks(p[size..], n - 1, size)
  {
  }

  /** Cutting pieces of equal width back out of their concatenation. */
  lemma {:induction false} ChunksOfFlatten(ps: seq<Bytes>, size: nat, rest: Bytes)
    requires forall i :: 0 <= i < |ps| ==> |ps[i]| == size
    ensures Chunks(Flatten(ps) + rest, |ps|, size) == ps
  {
    if |ps| > 0 {
      var a, more := ps[0], ps[1..];
      assert ps == [a] + more;
      ChunksOfFlatten(more, size, rest);
      var p := Flatten(ps) + rest;
      ConcatAssoc(a, Flatten(more), rest);
      assert p == a + (Flatten(more) + rest);
      assert p[..size] == a;
      assert p[size..] == Flatten(more) + rest;
      ChunksStep(p, |ps|, size);
    }
  }

  lemma {:induction false} FlattenLength(ps: seq<Bytes>, size: nat)
    requires forall i :: 0 <= i < |ps| ==> |ps[i]| == size
    ensures |Flatten(ps)| == size * |ps|
  {
    if |ps| > 0 {
      FlattenLength(ps[1..], size);
      assert size * |ps| == size + size * (|ps| - 1);
    }
  }

  lemma {:induction false} FlattenAppend(ss: seq<Bytes>, ts: seq<Bytes>)
    ensures Flatten(ss + ts) == Flatten(ss) + Flatten(ts)
  {
    if |ss| == 0 {
      assert ss + ts == ts;
    } else {
      assert (ss + ts)[1..] == ss[1..] + ts;
      FlattenAppend(ss[1..], ts);
    }
  }
}
