/** String fields of a WDC5 client database (`src/db2.rs`, `strings`).

    Every record is read as `record_size / 4` u32 fields, each taken as a
    string reference: the field's value is the distance from the field
    itself to the start of a NUL-terminated string, where the string table
    is thought of as following the records directly.  The result maps each
    record's id to its decoded fields. */
module Db2 {
  import opened Wrappers
  import opened Bytes
  import opened Text
  import opened Maps
  import opened Db2Layout
  import opened Db2LayoutRoundTrip

  datatype Db2Error =
    | ParseError              // the layout does not parse
    | UnsupportedMagic        // the magic is not `WDC5`
    | UnsupportedFlags        // the header flags are not 4
    | UnsupportedSections     // not exactly one section
    | UnexpectedRecordCount   // id list and records differ in length
    | UnexpectedRecordSize    // the record size is not a multiple of 4
    | OffsetUnderflow         // a referenced string would start before the string table
    | InvalidUtf8             // a referenced string is not UTF-8

  const Wdc5Magic: Bytes := [0x57, 0x44, 0x43, 0x35]
  const Wdc5Flags: nat := 4

  /** Where, counted from the start of the string table, the field at byte
      `offset` of record `k` of `n` records of `rsize` bytes points when
      its value is `value`: the field's own position in the record area,
      plus `value`, minus the size of the record area. */
  function TablePosition(n: nat, k: nat, rsize: nat, offset: nat, value: nat): int
  {
    k * rsize + offset + value - n * rsize
  }

  /** The bytes of records `k` to `n - 1`: the distance from the start of
      record `k` to the string table. */
  function RecordBase(n: nat, k: nat, rsize: nat): nat
    requires k < n
    decreases n - k
  {
    if k == n - 1 then rsize else rsize + RecordBase(n, k + 1, rsize)
  }

  /** The sum is the product `(num_records - k) * rsize` the source
      computes. */
  lemma {:induction false} RecordBaseIsProduct(n: nat, k: nat, rsize: nat)
    requires k < n
    ensures RecordBase(n, k, rsize) == (n - k) * rsize
    decreases n - k
  {
    if k < n - 1 {
      RecordBaseIsProduct(n, k + 1, rsize);
      MulStep(n - k, rsize);
    }
  }

  /** Counted from the field, the table lies `RecordBase` bytes on, less
      the field's offset. */
  lemma PositionOfBase(n: nat, k: nat, rsize: nat, offset: nat, value: nat)
    requires k < n
    ensures TablePosition(n, k, rsize, offset, value) == value - RecordBase(n, k, rsize) + offset
  {
    RecordBaseIsProduct(n, k, rsize);
    assert (n - k) * rsize == n * rsize - k * rsize;
  }

  /** The string a field holding `value` refers to, for a field at byte
      `offset` of a record that lies `base` bytes of records before the
      string table, as the source computes it: the skip count is
      `value - base + offset` in unsigned arithmetic, evaluated left to
      right, so its subtraction panics whenever `value < base`, even when
      adding `offset` would bring the count back into the table. */
  function FieldStringAsWritten(table: Bytes, value: nat, base: nat, offset: nat): (r: Result<Bytes, Db2Error>)
    ensures r.Ok? ==> 0 !in r.value && ValidUtf8(r.value)
    ensures r == Err(OffsetUnderflow) <==> value < base
  {
    if value < base then Err(OffsetUnderflow)
    else
      var s := CStringAt(table, value - base + offset);
      if ValidUtf8(s) then Ok(s) else Err(InvalidUtf8)
  }

  /** The string a field holding `value` refers to, with the skip count
      computed as `value + offset - base`: it underflows only when the
      string would lie before the start of the table. */
  function FieldString(table: Bytes, value: nat, base: nat, offset: nat): (r: Result<Bytes, Db2Error>)
    ensures r.Ok? ==> 0 !in r.value && ValidUtf8(r.value)
    ensures r.Ok? || r == Err(OffsetUnderflow) || r == Err(InvalidUtf8)
    ensures r == Err(OffsetUnderflow) <==> value + offset < base
  {
    if value + offset < base then Err(OffsetUnderflow)
    else
      var s := CStringAt(table, value + offset - base);
      if ValidUtf8(s) then Ok(s) else Err(InvalidUtf8)
  }

  /** The two computations agree except where the source's early
      subtraction underflows. */
  lemma FieldStringAgrees(table: Bytes, value: nat, base: nat, offset: nat)
    ensures value >= base ==> FieldStringAsWritten(table, value, base, offset) == FieldString(table, value, base, offset)
    ensures value + offset < base ==> FieldStringAsWritten(table, value, base, offset) == FieldString(table, value, base, offset)
  {
  }

  /** As written, the field at byte 4 of the only record of 8 bytes that
      holds 4 refers to the first string of the table, yet the source's
      subtraction `4 - 8` underflows before `+ 4` is added. */
  lemma UnderflowAsWritten()
    ensures TablePosition(1, 0, 8, 4, 4) == 0
    ensures FieldStringAsWritten([0x41, 0], 4, RecordBase(1, 0, 8), 4) == Err(OffsetUnderflow)
    ensures FieldString([0x41, 0], 4, RecordBase(1, 0, 8), 4) == Ok([0x41])
  {
    var table: Bytes := [0x41, 0];
    assert RecordBase(1, 0, 8) == 8;
    assert table[0..] == [0x41] + [0];
    UntilNulOf([0x41], [0]);
    AsciiIsUtf8([0x41]);
  }

  /** For record `k` of `n` records of `rsize` bytes, whose base is
      `RecordBase(n, k, rsize)`, the field refers to the string at
      `TablePosition` in the table; it fails with `OffsetUnderflow` exactly
      when that position lies before the table, and otherwise as the
      string's UTF-8 check decides. */
  lemma FieldStringMeaning(table: Bytes, value: nat, n: nat, k: nat, rsize: nat, offset: nat)
    requires k < n
    ensures var pos := TablePosition(n, k, rsize, offset, value);
      var r := FieldString(table, value, RecordBase(n, k, rsize), offset);
      && (r == Err(OffsetUnderflow) <==> pos < 0)
      && (pos >= 0 ==> r == if ValidUtf8(CStringAt(table, pos)) then Ok(CStringAt(table, pos)) else Err(InvalidUtf8))
  {
    var base := RecordBase(n, k, rsize);
    PositionOfBase(n, k, rsize, offset, value);
    assert TablePosition(n, k, rsize, offset, value) == value + offset - base;
  }

  /** As written, the field fails with `OffsetUnderflow` exactly when its
      table position lies before the field's own offset, which includes
      the table positions below that offset. */
  lemma FieldStringAsWrittenMeaning(table: Bytes, value: nat, n: nat, k: nat, rsize: nat, offset: nat)
    requires k < n
    ensures var pos := TablePosition(n, k, rsize, offset, value);
      (FieldStringAsWritten(table, value, RecordBase(n, k, rsize), offset) == Err(OffsetUnderflow) <==> pos < offset)
  {
    PositionOfBase(n, k, rsize, offset, value);
  }

  /** Each field of a record read as u32 words, paired with its offset. */
  function Fields(table: Bytes, words: seq<U32>, base: nat): (rs: seq<Result<Bytes, Db2Error>>)
    ensures |rs| == |words|
    ensures forall i :: 0 <= i < |words| ==> rs[i] == FieldString(table, words[i], base, 4 * i)
  {
    seq(|words|, i requires 0 <= i < |words| => FieldString(table, words[i], base, 4 * i))
  }

  /** The strings of a record's fields, in order; the first failing field
      decides the error. */
  function FieldStrings(table: Bytes, words: seq<U32>, base: nat): (r: Result<seq<Bytes>, Db2Error>)
    ensures r.Ok? ==> |r.value| == |words|
    ensures r.Ok? ==> forall i :: 0 <= i < |r.value| ==> 0 !in r.value[i] && ValidUtf8(r.value[i])
    ensures r.Err? ==> r.error == OffsetUnderflow || r.error == InvalidUtf8
  {
    Collect(Fields(table, words, base))
  }

  /** All fields of record `k` of section `s`: its `rsize / 4` u32 words,
      with the records from `k` on lying between it and the string table. */
  function RecordStrings(s: Section, rsize: nat, k: nat): Result<seq<Bytes>, Db2Error>
    requires k < |s.records| && |s.records[k]| == rsize
  {
    FieldStrings(s.stringTable, U32LEs(s.records[k], rsize / 4), RecordBase(|s.records|, k, rsize))
  }

  /** Each record's fields, record by record. */
  function RecordResults(s: Section, rsize: nat): (rs: seq<Result<seq<Bytes>, Db2Error>>)
    requires RecordsOfSize(s, rsize)
    ensures |rs| == |s.records|
    ensures forall k :: 0 <= k < |s.records| ==> rs[k] == RecordStrings(s, rsize, k)
  {
    seq(|s.records|, k requires 0 <= k < |s.records| && |s.records[k]| == rsize => RecordStrings(s, rsize, k))
  }

  /** The fields of every record, record by record. */
  function RecordsStrings(s: Section, rsize: nat): (r: Result<seq<seq<Bytes>>, Db2Error>)
    requires RecordsOfSize(s, rsize)
    ensures r.Ok? <==> forall k :: 0 <= k < |s.records| ==> RecordStrings(s, rsize, k).Ok?
    ensures r.Ok? ==> |r.value| == |s.records|
    ensures r.Ok? ==> forall k :: 0 <= k < |s.records| ==> r.value[k] == RecordStrings(s, rsize, k).value
    ensures r.Err? ==> r.error == OffsetUnderflow || r.error == InvalidUtf8
  {
    var rs := RecordResults(s, rsize);
    var r := Collect(rs);
    assert r.Err? ==> exists k :: 0 <= k < |rs| && rs[k].Err? && rs[k].error == r.error;
    r
  }

  /** Ids paired with values, position by position. */
  function Zip<A, B>(xs: seq<A>, ys: seq<B>): (r: seq<(A, B)>)
    requires |xs| == |ys|
    ensures |r| == |xs| && forall i :: 0 <= i < |r| ==> r[i] == (xs[i], ys[i])
  {
    seq(|xs|, i requires 0 <= i < |xs| => (xs[i], ys[i]))
  }

  /** The checks `strings` makes of a parsed file before reading it. */
  predicate Supported(f: File)
  {
    && f.header.magic == Wdc5Magic
    && f.header.flags == Wdc5Flags
    && |f.sections| == 1
    && |f.sections[0].idList| == |f.sections[0].records|
    && f.header.recordSize % 4 == 0
  }

  /** The checks and the extraction `strings` performs on a parsed file. */
  function FileStrings(f: File): (r: Result<map<U32, seq<Bytes>>, Db2Error>)
    requires forall i :: 0 <= i < |f.sections| ==> RecordsOfSize(f.sections[i], f.header.recordSize)
    ensures f.header.magic != Wdc5Magic ==> r == Err(UnsupportedMagic)
    ensures f.header.magic == Wdc5Magic && f.header.flags != Wdc5Flags ==> r == Err(UnsupportedFlags)
    ensures f.header.magic == Wdc5Magic && f.header.flags == Wdc5Flags && |f.sections| != 1
      ==> r == Err(UnsupportedSections)
    ensures r != Err(ParseError)
    ensures r.Ok? ==>
      && Supported(f)
      && var s := f.sections[0];
         var values := RecordsStrings(s, f.header.recordSize);
         values.Ok? && r.value == InsertAll(map[], Zip(s.idList, values.value))
  {
    var h := f.header;
    if h.magic != Wdc5Magic then Err(UnsupportedMagic)
    else if h.flags != Wdc5Flags then Err(UnsupportedFlags)
    else if |f.sections| != 1 then Err(UnsupportedSections)
    else
      var s := f.sections[0];
      if |s.idList| != |s.records| then Err(UnexpectedRecordCount)
      else if h.recordSize % 4 != 0 then Err(UnexpectedRecordSize)
      else
        var values :- RecordsStrings(s, h.recordSize);
        Ok(InsertAll(map[], Zip(s.idList, values)))
  }

  /** `strings`: the decoded fields of every record, keyed by record id;
      for an id listed twice the later record wins. */
  function Strings(data: Bytes): (r: Result<map<U32, seq<Bytes>>, Db2Error>)
    ensures ParseFile(data, Wdc5Padding).None? <==> r == Err(ParseError)
    ensures ParseFile(data, Wdc5Padding).Some? ==> r == FileStrings(ParseFile(data, Wdc5Padding).value)
    ensures r.Ok? ==> data[..4] == Wdc5Magic
  {
    match ParseFile(data, Wdc5Padding)
    case None => Err(ParseError)
    case Some(f) => FileStrings(f)
  }

  /** What `strings` returns for an id: if record `k` is the last one with
      its id, the entry holds one string per field, and field `j` is the
      NUL-terminated string found `TablePosition` bytes into the table. */
  lemma FileStringsMeaning(f: File, k: nat, j: nat)
    requires forall i :: 0 <= i < |f.sections| ==> RecordsOfSize(f.sections[i], f.header.recordSize)
    requires FileStrings(f).Ok?
    requires k < |f.sections[0].idList|
    requires forall k' :: k < k' < |f.sections[0].idList| ==> f.sections[0].idList[k'] != f.sections[0].idList[k]
    ensures var s := f.sections[0];
      var rsize := f.header.recordSize;
      var id := s.idList[k];
      && id in FileStrings(f).value
      && |FileStrings(f).value[id]| == rsize / 4
      && (j < rsize / 4 ==>
            var pos := TablePosition(|s.records|, k, rsize, 4 * j, U32LE(s.records[k][4 * j..]));
            pos >= 0 && FileStrings(f).value[id][j] == CStringAt(s.stringTable, pos))
  {
    var s := f.sections[0];
    var rsize := f.header.recordSize;
    assert RecordsOfSize(s, rsize);
    var values := RecordsStrings(s, rsize).value;
    var pairs := Zip(s.idList, values);
    assert IsLast(pairs, k);
    InsertAllLastWins(map[], pairs, k);
    assert k < |s.records|;
    var rec := s.records[k];
    assert |rec| == rsize;
    var words := U32LEs(rec, rsize / 4);
    var base := RecordBase(|s.records|, k, rsize);
    assert values[k] == FieldStrings(s.stringTable, words, base).value;
    if j < rsize / 4 {
      assert values[k][j] == Fields(s.stringTable, words, base)[j].value;
      U32LEsAt(rec, rsize / 4, j);
      FieldStringMeaning(s.stringTable, words[j], |s.records|, k, rsize, 4 * j);
    }
  }

  /** The ids in the result are exactly the section's ids. */
  lemma FileStringsKeys(f: File)
    requires forall i :: 0 <= i < |f.sections| ==> RecordsOfSize(f.sections[i], f.header.recordSize)
    requires FileStrings(f).Ok?
    ensures forall id :: id in FileStrings(f).value <==> id in f.sections[0].idList
  {
    var s := f.sections[0];
    assert RecordsOfSize(s, f.header.recordSize);
    var values := RecordsStrings(s, f.header.recordSize).value;
    var pairs := Zip(s.idList, values);
    forall id | id in s.idList
      ensures id in FileStrings(f).value
    {
      var i :| 0 <= i < |s.idList| && s.idList[i] == id;
      assert pairs[i].0 == id;
    }
  }

  /** A field whose string would start before the string table makes the whole call
      fail, whatever the other fields hold. */
  lemma UnderflowFails(f: File, k: nat, j: nat)
    requires forall i :: 0 <= i < |f.sections| ==> RecordsOfSize(f.sections[i], f.header.recordSize)
    requires Supported(f)
    requires k < |f.sections[0].records| && j < |f.sections[0].records[k]| / 4
    requires TablePosition(|f.sections[0].records|, k, f.header.recordSize, 4 * j,
                           U32LE(f.sections[0].records[k][4 * j..])) < 0
    ensures FileStrings(f).Err?
  {
    var s := f.sections[0];
    var rsize := f.header.recordSize;
    assert RecordsOfSize(s, rsize);
    var rec := s.records[k];
    var words := U32LEs(rec, rsize / 4);
    U32LEsAt(rec, rsize / 4, j);
    FieldStringMeaning(s.stringTable, words[j], |s.records|, k, rsize, 4 * j);
    assert Fields(s.stringTable, words, RecordBase(|s.records|, k, rsize))[j].Err?;
    assert RecordStrings(s, rsize, k).Err?;
  }

  /** A file laid out with the WDC5 padding reads back to the strings of
      the file it was written from. */
  lemma StringsOfWritten(f: File)
    requires WritableFile(f)
    ensures forall i :: 0 <= i < |f.sections| ==> RecordsOfSize(f.sections[i], f.header.recordSize)
    ensures Strings(FileBytes(f, Wdc5Padding)) == FileStrings(f)
  {
    FileRoundTrip(f, Wdc5Padding);
  }
}
