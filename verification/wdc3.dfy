/** The string table of a WDC3 client database (`src/wdc3.rs`, `strings`):
    the first section's string table cut at every NUL byte, each piece
    decoded as UTF-8.  The header's magic and flags are not checked. */
module Wdc3 {
  import opened Wrappers
  import opened Bytes
  import opened Text
  import opened Db2Layout
  import opened Db2LayoutRoundTrip

  datatype Wdc3Error =
    | ParseError   // the layout does not parse
    | NoSections   // the file has no section to index (a panic)
    | InvalidUtf8  // a piece of the table is not UTF-8

  /** `strings`: every NUL-separated piece of the first string table, in
      order, including the empty piece after a trailing NUL. */
  function Strings(data: Bytes): (r: Result<seq<Bytes>, Wdc3Error>)
    ensures ParseFile(data, Wdc3Padding).None? <==> r == Err(ParseError)
    ensures var f := ParseFile(data, Wdc3Padding);
      f.Some? ==>
        && (|f.value.sections| == 0 <==> r == Err(NoSections))
        && (|f.value.sections| > 0 ==> (r.Ok? <==> AllUtf8(Split(f.value.sections[0].stringTable, 0))))
    ensures r.Ok? ==>
      var table := ParseFile(data, Wdc3Padding).value.sections[0].stringTable;
      && |r.value| == Count(table, 0) + 1
      && Join(r.value, 0) == table
      && (forall i :: 0 <= i < |r.value| ==> 0 !in r.value[i] && ValidUtf8(r.value[i]))
  {
    match ParseFile(data, Wdc3Padding)
    case None => Err(ParseError)
    case Some(f) =>
      if |f.sections| == 0 then Err(NoSections)
      else
        var pieces := Split(f.sections[0].stringTable, 0);
        SplitShape(f.sections[0].stringTable, 0);
        JoinSplit(f.sections[0].stringTable, 0);
        if AllUtf8(pieces) then Ok(pieces) else Err(InvalidUtf8)
  }

  /** A file whose first string table is the NUL-joined list `ps` of
      NUL-free UTF-8 strings yields exactly `ps`. */
  lemma StringsRoundTrip(f: File, ps: seq<Bytes>)
    requires WritableFile(f) && |f.sections| > 0
    requires |ps| >= 1 && f.sections[0].stringTable == Join(ps, 0)
    requires forall i :: 0 <= i < |ps| ==> 0 !in ps[i] && ValidUtf8(ps[i])
    ensures Strings(FileBytes(f, Wdc3Padding)) == Ok(ps)
  {
    FileRoundTrip(f, Wdc3Padding);
    SplitJoin(ps, 0);
  }
}
