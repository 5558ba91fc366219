/** The Ribbit text parsers (`src/ribbit.rs`, module `parsers`).

    `summary` reads a pipe-delimited table of `product|number|flag` rows
    into one entry per product, a row setting the field its flag names;
    `versions` reads `region|build config|cdn config||build id|name|product
    config` rows into one entry per region.  Both start with a header line
    and a `## seqn = N` line and must consume the whole input.

    The parsers are written with nom; the few primitives used are modelled
    here as functions on `string` returning the value and the unconsumed
    input, or `None` where nom reports an error. */
module Ribbit {
  import opened Wrappers
  import opened Bytes
  import opened Digits
  import opened Maps

  // ---- nom primitives ----

  /** The characters a run-taking primitive accepts. */
  datatype CharClass = DecimalDigits | HexDigits | NotBar | NotNewline

  predicate InClass(c: char, k: CharClass)
  {
    match k
    case DecimalDigits => IsDigit(c)
    case HexDigits => IsHexDigit(c)
    case NotBar => c != '|'
    case NotNewline => c != '\n'
  }

  /** The length of the longest prefix of `s` whose characters are in `k`. */
  function Span(s: string, k: CharClass): (n: nat)
    ensures n <= |s|
    ensures forall i :: 0 <= i < n ==> InClass(s[i], k)
    ensures n < |s| ==> !InClass(s[n], k)
    decreases |s|
  {
    if |s| == 0 || !InClass(s[0], k) then 0
    else
      var n := 1 + Span(s[1..], k);
      assert forall i :: 1 <= i < n ==> s[i] == s[1..][i - 1];
      n
  }

  /** The span is pinned down by where the class first fails. */
  lemma SpanOf(t: string, rest: string, k: CharClass)
    requires forall i :: 0 <= i < |t| ==> InClass(t[i], k)
    requires |rest| == 0 || !InClass(rest[0], k)
    ensures Span(t + rest, k) == |t|
  {
    var s := t + rest;
    assert forall i :: 0 <= i < |t| ==> InClass(s[i], k);
    assert |rest| > 0 ==> !InClass(s[|t|], k);
  }

  /** `tag(t)`: the input must start with `t`. */
  function Tag(t: string, s: string): (r: Option<string>)
    ensures r.Some? <==> t <= s
    ensures r.Some? ==> s == t + r.value
  {
    if t <= s then Some(s[|t|..]) else None
  }

  /** A run of at least one character of class `k` (`digit1`,
      `hex_digit1`, `is_not`). */
  function Run1(s: string, k: CharClass): (r: Option<(string, string)>)
    ensures r.Some? <==> Span(s, k) > 0
    ensures r.Some? ==> r.value.0 + r.value.1 == s && |r.value.0| == Span(s, k)
  {
    var n := Span(s, k);
    if n == 0 then None else Some((s[..n], s[n..]))
  }

  function Newline(s: string): Option<string>
  {
    Tag("\n", s)
  }

  /** `take_until("\n")`: everything before the first newline, which must
      exist. */
  function TakeUntilNewline(s: string): (r: Option<(string, string)>)
    ensures r.Some? <==> exists i :: 0 <= i < |s| && s[i] == '\n'
    ensures r.Some? ==> r.value.0 + r.value.1 == s && '\n' !in r.value.0 && r.value.1[0] == '\n'
  {
    var n := Span(s, NotNewline);
    if n == |s| then None
    else
      assert forall i :: 0 <= i < n ==> s[..n][i] == s[i];
      Some((s[..n], s[n..]))
  }

  /** `dec32`: `digit1` parsed as a `u32`; a value that does not fit fails. */
  function Dec32(s: string): (r: Option<(U32, string)>)
    ensures r.Some? <==> Span(s, DecimalDigits) > 0 && DecValue(s[..Span(s, DecimalDigits)]) < TwoTo32
    ensures r.Some? ==> r.value.0 == DecValue(s[..Span(s, DecimalDigits)]) && r.value.1 == s[Span(s, DecimalDigits)..]
  {
    var n := Span(s, DecimalDigits);
    if n == 0 then None
    else
      var v := DecValue(s[..n]);
      if v >= TwoTo32 then None else Some((v, s[n..]))
  }

  /** `hex128`: `hex_digit1` parsed base 16 as a `u128`; a value that does
      not fit fails. */
  function Hex128(s: string): (r: Option<(U128, string)>)
    ensures r.Some? <==> Span(s, HexDigits) > 0 && HexValue(s[..Span(s, HexDigits)]) < Pow256(16)
    ensures r.Some? ==> r.value.0 == HexValue(s[..Span(s, HexDigits)]) && r.value.1 == s[Span(s, HexDigits)..]
  {
    var n := Span(s, HexDigits);
    Pow256Widths();
    if n == 0 then None
    else
      var v := HexValue(s[..n]);
      if v >= Pow256(16) then None else Some((v, s[n..]))
  }

  /** A run of non-bar characters and the bar that ends it. */
  function BarColumn(s: string): (r: Option<(string, string)>)
    ensures r.Some? ==> s == r.value.0 + "|" + r.value.1
    ensures r.Some? ==> |r.value.0| > 0 && '|' !in r.value.0
  {
    var (text, r1) :- Run1(s, NotBar);
    var r2 :- Tag("|", r1);
    assert forall i :: 0 <= i < |text| ==> text[i] == s[i];
    Some((text, r2))
  }

  const SeqnPrefix: string := "## seqn = "

  /** `delimited(tag("## seqn = "), dec32, newline)`. */
  function SeqnLine(s: string): (r: Option<(U32, string)>)
    ensures r.Some? <==>
      && SeqnPrefix <= s
      && Dec32(s[|SeqnPrefix|..]).Some?
      && "\n" <= Dec32(s[|SeqnPrefix|..]).value.1
    ensures r.Some? ==>
      && r.value.0 == Dec32(s[|SeqnPrefix|..]).value.0
      && Dec32(s[|SeqnPrefix|..]).value.1 == "\n" + r.value.1
      && |r.value.1| < |s|
  {
    var r1 :- Tag(SeqnPrefix, s);
    var (n, r2) :- Dec32(r1);
    var r3 :- Newline(r2);
    Some((n, r3))
  }

  // ---- summary ----

  datatype SummaryEntry = SummaryEntry(seqn: Option<U32>, cdn: Option<U32>, bgdl: Option<U32>)

  datatype Summary = Summary(seqn: U32, entries: map<string, SummaryEntry>)

  /** The third column of a summary row: "" names the sequence number. */
  datatype Flag = SeqnFlag | CdnFlag | BgdlFlag

  datatype SummaryRow = SummaryRow(product: string, number: U32, flag: Flag)

  const SummaryHeader: string := "Product!STRING:0|Seqn!DEC:4|Flags!STRING:0\n"

  /** `alt((tag("bgdl"), tag("cdn"), tag("")))`: the last alternative
      always matches, consuming nothing. */
  function FlagTag(s: string): (r: (Flag, string))
    ensures s == FlagName(r.0) + r.1
  {
    if "bgdl" <= s then (BgdlFlag, s[4..])
    else if "cdn" <= s then (CdnFlag, s[3..])
    else (SeqnFlag, s)
  }

  function FlagName(f: Flag): string
  {
    match f
    case SeqnFlag => ""
    case CdnFlag => "cdn"
    case BgdlFlag => "bgdl"
  }

  /** One row: `is_not("|")`, `|`, `dec32`, `|`, the flag, a newline. The
      product is any non-empty run without a bar (newlines included). */
  function SummaryRowP(s: string): (r: Option<(SummaryRow, string)>)
    ensures r.Some? ==> |r.value.1| < |s|
    ensures r.Some? ==> |r.value.0.product| > 0 && '|' !in r.value.0.product
  {
    var (product, r1) :- BarColumn(s);
    var (n, r2) :- Dec32(r1);
    var r3 :- Tag("|", r2);
    var (flag, r4) := FlagTag(r3);
    var r5 :- Newline(r4);
    Some((SummaryRow(product, n, flag), r5))
  }

  /** `fold_many0` collects rows for as long as the row parser succeeds. */
  function SummaryRows(s: string): (r: (seq<SummaryRow>, string))
    ensures |r.1| <= |s|
    ensures SummaryRowP(r.1).None?
    decreases |s|
  {
    match SummaryRowP(s)
    case None => ([], s)
    case Some((row, rest)) =>
      var (rows, tail) := SummaryRows(rest);
      ([row] + rows, tail)
  }

  /** One step of the fold: a row that parses is followed by the rows
      after it. */
  lemma SummaryRowsStep(s: string, row: SummaryRow, rest: string)
    requires SummaryRowP(s) == Some((row, rest))
    ensures SummaryRows(s) == ([row] + SummaryRows(rest).0, SummaryRows(rest).1)
  {
  }

  function Field(e: SummaryEntry, f: Flag): Option<U32>
  {
    match f
    case SeqnFlag => e.seqn
    case CdnFlag => e.cdn
    case BgdlFlag => e.bgdl
  }

  /** Set the one field `f` names. */
  function SetField(e: SummaryEntry, f: Flag, n: U32): (r: SummaryEntry)
    ensures Field(r, f) == Some(n)
    ensures forall g :: g != f ==> Field(r, g) == Field(e, g)
  {
    match f
    case SeqnFlag => e.(seqn := Some(n))
    case CdnFlag => e.(cdn := Some(n))
    case BgdlFlag => e.(bgdl := Some(n))
  }

  const NoFields := SummaryEntry(None, None, None)

  /** The fold step: take the product's entry (or an empty one), set one
      field, put it back. */
  function MergeRows(m: map<string, SummaryEntry>, rows: seq<SummaryRow>): (r: map<string, SummaryEntry>)
    ensures forall p :: p in r <==> p in m || exists i :: 0 <= i < |rows| && rows[i].product == p
    decreases |rows|
  {
    if |rows| == 0 then m
    else
      var row := rows[0];
      var e := if row.product in m then m[row.product] else NoFields;
      var r := MergeRows(m[row.product := SetField(e, row.flag, row.number)], rows[1..]);
      assert forall i :: 1 <= i < |rows| ==> rows[i] == rows[1..][i - 1];
      r
  }

  /** `parsers::summary`. */
  function ParseSummary(s: string): (r: Option<Summary>)
    ensures r.Some? ==> SummaryHeader <= s
    ensures r.Some? ==>
      && SeqnLine(s[|SummaryHeader|..]).Some?
      && r.value.seqn == SeqnLine(s[|SummaryHeader|..]).value.0
      && SummaryRows(SeqnLine(s[|SummaryHeader|..]).value.1).1 == ""
      && r.value.entries == MergeRows(map[], SummaryRows(SeqnLine(s[|SummaryHeader|..]).value.1).0)
  {
    var r1 :- Tag(SummaryHeader, s);
    var (seqn, r2) :- SeqnLine(r1);
    var (rows, r3) := SummaryRows(r2);
    if r3 != "" then None else Some(Summary(seqn, MergeRows(map[], rows)))
  }

  /** The number the last row for product `p` with flag `f` carries. */
  function LastNumber(rows: seq<SummaryRow>, p: string, f: Flag): (r: Option<U32>)
    ensures r.Some? <==> exists i :: 0 <= i < |rows| && rows[i].product == p && rows[i].flag == f
    decreases |rows|
  {
    if |rows| == 0 then None
    else
      var last := rows[|rows| - 1];
      if last.product == p && last.flag == f then Some(last.number)
      else
        var r := LastNumber(rows[..|rows| - 1], p, f);
        assert forall i :: 0 <= i < |rows| - 1 ==> rows[..|rows| - 1][i] == rows[i];
        r
  }

  /** Each field of each merged entry is the last number given for it, or
      what the starting map held, or nothing: a row changes only the one
      field it names. */
  lemma {:induction false} MergeRowsFields(m: map<string, SummaryEntry>, rows: seq<SummaryRow>, p: string, f: Flag)
    requires p in MergeRows(m, rows)
    ensures Field(MergeRows(m, rows)[p], f) ==
      if LastNumber(rows, p, f).Some? then LastNumber(rows, p, f)
      else if p in m then Field(m[p], f)
      else None
    decreases |rows|
  {
    if |rows| > 0 {
      var n := |rows|;
      var init, last := rows[..n - 1], rows[n - 1];
      MergeRowsLast(m, rows);
      if p != last.product || p in MergeRows(m, init) {
        MergeRowsFields(m, init, p, f);
      }
    }
  }

  /** Merging one more row at the end. */
  lemma {:induction false} MergeRowsSnoc(m: map<string, SummaryEntry>, rows: seq<SummaryRow>, row: SummaryRow)
    ensures var mid := MergeRows(m, rows);
      var e := if row.product in mid then mid[row.product] else NoFields;
      MergeRows(m, rows + [row]) == mid[row.product := SetField(e, row.flag, row.number)]
    decreases |rows|
  {
    if |rows| > 0 {
      var e0 := if rows[0].product in m then m[rows[0].product] else NoFields;
      var m' := m[rows[0].product := SetField(e0, rows[0].flag, rows[0].number)];
      assert (rows + [row])[1..] == rows[1..] + [row];
      MergeRowsSnoc(m', rows[1..], row);
    }
  }

  /** `MergeRowsSnoc` for a non-empty sequence split before its last row. */
  lemma MergeRowsLast(m: map<string, SummaryEntry>, rows: seq<SummaryRow>)
    requires |rows| > 0
    ensures var mid := MergeRows(m, rows[..|rows| - 1]);
      var row := rows[|rows| - 1];
      var e := if row.product in mid then mid[row.product] else NoFields;
      MergeRows(m, rows) == mid[row.product := SetField(e, row.flag, row.number)]
  {
    var init, last := rows[..|rows| - 1], rows[|rows| - 1];
    assert init + [last] == rows;
    MergeRowsSnoc(m, init, last);
  }

  // ---- versions ----

  datatype VersionsEntry = VersionsEntry(region: string, buildConfig: U128, cdnConfig: U128,
                                         buildId: U32, name: string, productConfig: U128)

  datatype Versions = Versions(seqn: U32, entries: map<string, VersionsEntry>)

  /** A `hex128` followed by the separator `sep`. */
  function HexColumn(s: string, sep: string): (r: Option<(U128, string)>)
    ensures r.Some? ==> |r.value.1| < |s|
  {
    var (v, r1) :- Hex128(s);
    var r2 :- Tag(sep, r1);
    Some((v, r2))
  }

  /** One row: region, build config, cdn config, an empty column, build id,
      name, product config. */
  function VersionsRowP(s: string): (r: Option<(VersionsEntry, string)>)
    ensures r.Some? ==> |r.value.1| < |s|
    ensures r.Some? ==> |r.value.0.region| > 0 && '|' !in r.value.0.region
  {
    var (region, r1) :- BarColumn(s);
    var (buildConfig, r2) :- HexColumn(r1, "|");
    var (cdnConfig, r3) :- HexColumn(r2, "||");
    var (buildId, r4) :- Dec32(r3);
    var r5 :- Tag("|", r4);
    var (name, r6) :- BarColumn(r5);
    var (productConfig, r7) :- HexColumn(r6, "\n");
    Some((VersionsEntry(region, buildConfig, cdnConfig, buildId, name, productConfig), r7))
  }

  function VersionsRows(s: string): (r: (seq<VersionsEntry>, string))
    ensures |r.1| <= |s|
    ensures VersionsRowP(r.1).None?
    ensures forall i :: 0 <= i < |r.0| ==> |r.0[i].region| > 0 && '|' !in r.0[i].region
    decreases |s|
  {
    match VersionsRowP(s)
    case None => ([], s)
    case Some((row, rest)) =>
      var (rows, tail) := VersionsRows(rest);
      ([row] + rows, tail)
  }

  lemma VersionsRowsStep(s: string, e: VersionsEntry, rest: string)
    requires VersionsRowP(s) == Some((e, rest))
    ensures VersionsRows(s) == ([e] + VersionsRows(rest).0, VersionsRows(rest).1)
  {
  }

  /** Each entry keyed by its region. */
  function ByRegion(rows: seq<VersionsEntry>): (kvs: seq<(string, VersionsEntry)>)
    ensures |kvs| == |rows|
    ensures forall i :: 0 <= i < |rows| ==> kvs[i] == (rows[i].region, rows[i])
  {
    seq(|rows|, i requires 0 <= i < |rows| => (rows[i].region, rows[i]))
  }

  /** `parsers::versions`: the first line is skipped whatever it holds. */
  function ParseVersions(s: string): (r: Option<Versions>)
    ensures r.Some? ==> forall k :: k in r.value.entries ==> r.value.entries[k].region == k
    ensures r.Some? ==>
      && TakeUntilNewline(s).Some?
      && var second := TakeUntilNewline(s).value.1[1..];
         && SeqnLine(second).Some?
         && r.value.seqn == SeqnLine(second).value.0
         && VersionsRows(SeqnLine(second).value.1).1 == ""
         && r.value.entries == InsertAll(map[], ByRegion(VersionsRows(SeqnLine(second).value.1).0))
  {
    var (_, r1) :- TakeUntilNewline(s);
    var r2 :- Newline(r1);
    var (seqn, r3) :- SeqnLine(r2);
    var (rows, r4) := VersionsRows(r3);
    if r4 != "" then None
    else
      var entries := InsertAll(map[], ByRegion(rows));
      KeyedByRegion(map[], rows);
      Some(Versions(seqn, entries))
  }

  /** Inserting entries under their own regions keeps every key equal to
      its entry's region. */
  lemma {:induction false} KeyedByRegion(m: map<string, VersionsEntry>, rows: seq<VersionsEntry>)
    requires forall k :: k in m ==> m[k].region == k
    ensures forall k :: k in InsertAll(m, ByRegion(rows)) ==> InsertAll(m, ByRegion(rows))[k].region == k
    decreases |rows|
  {
    if |rows| > 0 {
      var m' := m[rows[0].region := rows[0]];
      assert ByRegion(rows)[1..] == ByRegion(rows[1..]);
      KeyedByRegion(m', rows[1..]);
    }
  }
}
