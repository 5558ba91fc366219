/** Text carried inside binary tables.

    A Rust `String` built with `String::from_utf8` is modelled by its byte
    sequence together with the proof that those bytes are well-formed UTF-8
    (the well-formed sequences of section 4 of RFC 3629, which is exactly
    what `from_utf8` accepts).  The module also holds the two ways the
    formats cut strings out of a byte table: splitting on a separator byte
    (`<[u8]>::split`) and reading a NUL-terminated string. */
module Text {
  import opened Bytes

  predicate IsContinuation(b: Byte) { 0x80 <= b <= 0xBF }

  /** The length of the well-formed UTF-8 sequence `s` starts with, or 0
      when `s` does not start with one. */
  function SequenceLength(s: Bytes): (n: nat)
    requires |s| > 0
    ensures n <= 4 && n <= |s|
  {
    var b := s[0];
    if b < 0x80 then 1
    else if 0xC2 <= b <= 0xDF then
      if |s| >= 2 && IsContinuation(s[1]) then 2 else 0
    else if 0xE0 <= b <= 0xEF then
      var lo := if b == 0xE0 then 0xA0 else 0x80;
      var hi := if b == 0xED then 0x9F else 0xBF;
      if |s| >= 3 && lo <= s[1] <= hi && IsContinuation(s[2]) then 3 else 0
    else if 0xF0 <= b <= 0xF4 then
      var lo := if b == 0xF0 then 0x90 else 0x80;
      var hi := if b == 0xF4 then 0x8F else 0xBF;
      if |s| >= 4 && lo <= s[1] <= hi && IsContinuation(s[2]) && IsContinuation(s[3]) then 4 else 0
    else 0
  }

  /** `String::from_utf8(s)` succeeds. */
  predicate ValidUtf8(s: Bytes)
    decreases |s|
  {
    |s| == 0 || (SequenceLength(s) > 0 && ValidUtf8(s[SequenceLength(s)..]))
  }

  predicate IsAscii(s: Bytes) { forall i :: 0 <= i < |s| ==> s[i] < 0x80 }

  /** Pure ASCII bytes are valid UTF-8. */
  lemma {:induction false} AsciiIsUtf8(s: Bytes)
    requires IsAscii(s)
    ensures ValidUtf8(s)
  {
    if |s| > 0 {
      assert SequenceLength(s) == 1;
      AsciiIsUtf8(s[1..]);
    }
  }

  /** Every piece of `ps` is valid UTF-8 (a `collect::<Result<Vec<String>>>`
      over `from_utf8` succeeds). */
  predicate AllUtf8(ps: seq<Bytes>)
  {
    forall i :: 0 <= i < |ps| ==> ValidUtf8(ps[i])
  }

  function Count(s: Bytes, x: Byte): nat
  {
    if |s| == 0 then 0 else (if s[0] == x then 1 else 0) + Count(s[1..], x)
  }

  /** `s.split(|b| *b == sep)`: the maximal runs between separators. */
  function Split(s: Bytes, sep: Byte): (ps: seq<Bytes>)
    ensures |ps| >= 1
    decreases |s|
  {
    if |s| == 0 then [[]]
    else
      var rest := Split(s[1..], sep);
      if s[0] == sep then [[]] + rest
      else [[s[0]] + rest[0]] + rest[1..]
  }

  /** Concatenation of `ps` with one `sep` between neighbours. */
  function Join(ps: seq<Bytes>, sep: Byte): Bytes
    requires |ps| >= 1
  {
    if |ps| == 1 then ps[0] else ps[0] + [sep] + Join(ps[1..], sep)
  }

  /** Splitting yields one more piece than there are separators, and no
      piece contains a separator. */
  lemma {:induction false} SplitShape(s: Bytes, sep: Byte)
    ensures |Split(s, sep)| == Count(s, sep) + 1
    ensures forall i :: 0 <= i < |Split(s, sep)| ==> sep !in Split(s, sep)[i]
  {
    if |s| > 0 {
      SplitShape(s[1..], sep);
      var rest := Split(s[1..], sep);
      if s[0] != sep {
        var ps := Split(s, sep);
        assert ps[0] == [s[0]] + rest[0];
        forall i | 0 <= i < |ps|
          ensures sep !in ps[i]
        {
          if i > 0 { assert ps[i] == rest[i]; }
        }
      }
    }
  }

  /** Joining the pieces with the separator gives back the original bytes. */
  lemma {:induction false} JoinSplit(s: Bytes, sep: Byte)
    ensures Join(Split(s, sep), sep) == s
  {
    if |s| > 0 {
      JoinSplit(s[1..], sep);
      var rest := Split(s[1..], sep);
      if s[0] == sep {
        assert Split(s, sep)[1..] == rest;
        assert s == [sep] + s[1..];
      } else {
        var ps := Split(s, sep);
        if |rest| == 1 {
          assert ps == [[s[0]] + rest[0]];
          assert s == [s[0]] + s[1..];
        } else {
          assert ps[1..] == rest[1..];
          assert Join(rest, sep) == rest[0] + [sep] + Join(rest[1..], sep);
          assert s == [s[0]] + s[1..];
        }
      }
    }
  }

  lemma {:induction false} SplitSeparatorFree(p: Bytes, t: Bytes, sep: Byte)
    requires sep !in p
    ensures Split(p + t, sep) == [p + Split(t, sep)[0]] + Split(t, sep)[1..]
  {
    if |p| > 0 {
      assert (p + t)[1..] == p[1..] + t;
      SplitSeparatorFree(p[1..], t, sep);
      var ps := Split(t, sep);
      var rest := Split(p[1..] + t, sep);
      assert rest[0] == p[1..] + ps[0] && rest[1..] == ps[1..];
      assert (p + t)[0] == p[0] && p[0] != sep;
      assert Split(p + t, sep) == [[p[0]] + rest[0]] + rest[1..];
      assert [p[0]] + (p[1..] + ps[0]) == p + ps[0];
    } else {
      var ps := Split(t, sep);
      assert p + t == t && p + ps[0] == ps[0];
      assert ps == [ps[0]] + ps[1..];
    }
  }

  /** Splitting separator-free pieces joined by the separator gives the
      pieces back. */
  lemma {:induction false} SplitJoin(ps: seq<Bytes>, sep: Byte)
    requires |ps| >= 1
    requires forall i :: 0 <= i < |ps| ==> sep !in ps[i]
    ensures Split(Join(ps, sep), sep) == ps
  {
    if |ps| == 1 {
      SplitSeparatorFree(ps[0], [], sep);
      assert ps[0] + [] == ps[0];
    } else {
      SplitJoin(ps[1..], sep);
      var j := Join(ps[1..], sep);
      assert Join(ps, sep) == ps[0] + ([sep] + j);
      SplitSeparatorFree(ps[0], [sep] + j, sep);
      assert ([sep] + j)[1..] == j;
      assert Split([sep] + j, sep) == [[]] + ps[1..];
      assert ps[0] + [] == ps[0];
    }
  }

  /** The bytes of `s` before its first NUL (all of `s` if it has none):
      the `take_while(|&b| *b != 0)` of a C string. */
  function UntilNul(s: Bytes): (r: Bytes)
    ensures r <= s
    ensures 0 !in r
    ensures |r| == |s| || s[|r|] == 0
  {
    if |s| == 0 || s[0] == 0 then [] else [s[0]] + UntilNul(s[1..])
  }

  /** A NUL-free string followed by a NUL or by nothing reads back. */
  lemma {:induction false} UntilNulOf(s: Bytes, rest: Bytes)
    requires 0 !in s
    requires |rest| == 0 || rest[0] == 0
    ensures UntilNul(s + rest) == s
  {
    if |s| > 0 {
      assert (s + rest)[1..] == s[1..] + rest;
      UntilNulOf(s[1..], rest);
      assert s == [s[0]] + s[1..];
    }
  }

  /** `table.iter().skip(i).take_while(|&b| *b != 0)`: the NUL-terminated
      string at index `i`, empty when `i` is past the end. */
  function CStringAt(table: Bytes, i: nat): Bytes
  {
    if i >= |table| then [] else UntilNul(table[i..])
  }
}
