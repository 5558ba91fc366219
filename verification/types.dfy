/** The key newtypes of `src/types.rs`.

    Each key wraps a 128-bit integer (a `FileDataID` a 32-bit one); equality
    is that of the wrapped integer, which a single-field datatype gives for
    free.  The derived `Display` prints the key as `{:032x}`: 32 lowercase
    hex digits, zero-padded on the left. */
module Types {
  import opened Bytes
  import opened Digits

  lemma Pow16Of32()
    ensures Pow16(32) == 0x1_0000_0000_0000_0000_0000_0000_0000_0000
  {
    assert Pow16(4) == 0x1_0000;
    Pow16Split(4, 4);
    Pow16Split(8, 8);
    Pow16Split(16, 16);
  }

  lemma {:induction false} Pow16Split(a: nat, b: nat)
    ensures Pow16(a + b) == Pow16(a) * Pow16(b)
  {
    if a > 0 {
      Pow16Split(a - 1, b);
    }
  }

  /** `format!("{:032x}", v)`. */
  function KeyHex(v: U128): (s: string)
    ensures |s| == 32 && AllLowerHexDigits(s) && AllHexDigits(s)
    ensures HexValue(s) == v
  {
    Pow16Of32();
    LowerHex(v, 32)
  }

  datatype ArchiveKey = ArchiveKey(value: U128) {
    function ToString(): (s: string)
      ensures |s| == 32 && AllLowerHexDigits(s) && AllHexDigits(s)
      ensures HexValue(s) == value
    {
      KeyHex(value)
    }
  }

  datatype ContentKey = ContentKey(value: U128) {
    function ToString(): (s: string)
      ensures |s| == 32 && AllLowerHexDigits(s) && AllHexDigits(s)
      ensures HexValue(s) == value
    {
      KeyHex(value)
    }
  }

  datatype EncodingKey = EncodingKey(value: U128) {
    function ToString(): (s: string)
      ensures |s| == 32 && AllLowerHexDigits(s) && AllHexDigits(s)
      ensures HexValue(s) == value
    {
      KeyHex(value)
    }
  }

  datatype FileDataID = FileDataID(value: U32)

  /** The display is the only 32-character lowercase spelling of the value:
      any such string that reads back as `v` is `KeyHex(v)`, so two keys
      print alike exactly when they are equal. */
  lemma {:induction false} KeyHexCanonical(s: string, v: U128)
    requires |s| == 32 && AllLowerHexDigits(s) && AllHexDigits(s)
    requires HexValue(s) == v
    ensures s == KeyHex(v)
  {
    Pow16Of32();
    LowerHexOfValue(s);
  }

  lemma ContentKeyDisplayInjective(a: ContentKey, b: ContentKey)
    ensures a.ToString() == b.ToString() <==> a == b
  {
  }
}
