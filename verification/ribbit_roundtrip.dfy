/** Writing Ribbit summary and versions tables and reading them back.

    Numbers are written in decimal without leading zeros and the 128-bit
    configuration hashes as 32 lower-case hex digits, the way the CDN
    serves them.  A product, region or name column must be non-empty and
    free of bars. */
module RibbitRoundTrip {
  import opened Wrappers
  import opened Bytes
  import opened Digits
  import opened Maps
  import opened Types
  import opened Ribbit

  predicate ValidColumn(t: string)
  {
    |t| > 0 && '|' !in t
  }

  // ---- columns ----

  /** A text column and its closing bar, followed by `rest`. */
  function BarText(t: string, rest: string): string
  {
    t + ("|" + rest)
  }

  /** A hash in 32 lower-case hex digits and the separator `sep`. */
  function HexText(v: U128, sep: string, rest: string): string
  {
    KeyHex(v) + (sep + rest)
  }

  /** A decimal number and a closing bar. */
  function DecText(n: U32, rest: string): string
  {
    DecimalString(n) + ("|" + rest)
  }

  lemma BarColumnOf(t: string, rest: string)
    requires ValidColumn(t)
    ensures BarColumn(BarText(t, rest)) == Some((t, rest))
  {
    var s := t + ("|" + rest);
    SpanOf(t, "|" + rest, NotBar);
    assert s[..|t|] == t;
    assert s[|t|..] == "|" + rest;
  }

  /** A decimal number followed by a non-digit reads back. */
  lemma Dec32Of(n: U32, rest: string)
    requires |rest| == 0 || !IsDigit(rest[0])
    ensures Dec32(DecimalString(n) + rest) == Some((n, rest))
  {
    var t := DecimalString(n);
    SpanOf(t, rest, DecimalDigits);
    assert (t + rest)[..|t|] == t;
    assert (t + rest)[|t|..] == rest;
  }

  lemma DecColumnOf(n: U32, rest: string)
    ensures var r := Dec32(DecText(n, rest));
      r == Some((n, "|" + rest)) && Tag("|", r.value.1) == Some(rest)
  {
    Dec32Of(n, "|" + rest);
    assert ("|" + rest)[1..] == rest;
  }

  /** A 32-digit hash followed by a non-hex character reads back. */
  lemma Hex128Of(v: U128, rest: string)
    requires |rest| == 0 || !IsHexDigit(rest[0])
    ensures Hex128(KeyHex(v) + rest) == Some((v, rest))
  {
    var t := KeyHex(v);
    Pow256Widths();
    SpanOf(t, rest, HexDigits);
    assert (t + rest)[..|t|] == t;
    assert (t + rest)[|t|..] == rest;
  }

  lemma HexColumnOf(v: U128, sep: string, rest: string)
    requires |sep| > 0 && !IsHexDigit(sep[0])
    ensures HexColumn(HexText(v, sep, rest), sep) == Some((v, rest))
  {
    Hex128Of(v, sep + rest);
  }

  lemma SeqnLineOf(n: U32, rest: string)
    ensures SeqnLine(SeqnPrefix + (DecimalString(n) + ("\n" + rest))) == Some((n, rest))
  {
    var s := SeqnPrefix + (DecimalString(n) + ("\n" + rest));
    assert s[|SeqnPrefix|..] == DecimalString(n) + ("\n" + rest);
    Dec32Of(n, "\n" + rest);
  }

  // ---- summary ----

  /** `product|number|flag` and a newline, followed by `rest`. */
  function SummaryRowText(row: SummaryRow, rest: string): string
  {
    BarText(row.product, DecText(row.number, FlagName(row.flag) + ("\n" + rest)))
  }

  /** A flag followed by a newline reads back. */
  lemma FlagTagOf(f: Flag, rest: string)
    ensures FlagTag(FlagName(f) + ("\n" + rest)) == (f, "\n" + rest)
    ensures Newline("\n" + rest) == Some(rest)
  {
    var t := "\n" + rest;
    assert t[1..] == rest;
    match f
    case SeqnFlag =>
      assert FlagName(f) + t == t;
      assert !("bgdl" <= t) && !("cdn" <= t) by { assert t[0] == '\n'; }
    case CdnFlag =>
      assert (FlagName(f) + t)[3..] == t;
      assert !("bgdl" <= FlagName(f) + t) by { assert (FlagName(f) + t)[0] == 'c'; }
    case BgdlFlag =>
      assert (FlagName(f) + t)[4..] == t;
  }

  lemma ReadSummaryRow(row: SummaryRow, rest: string)
    requires ValidColumn(row.product)
    ensures SummaryRowP(SummaryRowText(row, rest)) == Some((row, rest))
  {
    var t4 := FlagName(row.flag) + ("\n" + rest);
    BarColumnOf(row.product, DecText(row.number, t4));
    DecColumnOf(row.number, t4);
    FlagTagOf(row.flag, rest);
  }

  /** The rows in order, followed by `rest`. */
  function SummaryRowsText(rows: seq<SummaryRow>, rest: string): string
  {
    if |rows| == 0 then rest else SummaryRowText(rows[0], SummaryRowsText(rows[1..], rest))
  }

  lemma {:induction false} ReadSummaryRows(rows: seq<SummaryRow>, rest: string)
    requires forall i :: 0 <= i < |rows| ==> ValidColumn(rows[i].product)
    requires SummaryRowP(rest).None?
    ensures SummaryRows(SummaryRowsText(rows, rest)) == (rows, rest)
  {
    if |rows| > 0 {
      var row, more := rows[0], rows[1..];
      assert rows == [row] + more;
      var tail := SummaryRowsText(more, rest);
      ReadSummaryRows(more, rest);
      ReadSummaryRow(row, tail);
      SummaryRowsStep(SummaryRowText(row, tail), row, tail);
    }
  }

  /** A whole summary response. */
  function SummaryText(seqn: U32, rows: seq<SummaryRow>): string
  {
    SummaryHeader + (SeqnPrefix + (DecimalString(seqn) + ("\n" + SummaryRowsText(rows, ""))))
  }

  /** A written summary parses to its rows merged per product. */
  lemma SummaryRoundTrip(seqn: U32, rows: seq<SummaryRow>)
    requires forall i :: 0 <= i < |rows| ==> ValidColumn(rows[i].product)
    ensures ParseSummary(SummaryText(seqn, rows)) == Some(Summary(seqn, MergeRows(map[], rows)))
  {
    var body := SummaryRowsText(rows, "");
    var s := SummaryText(seqn, rows);
    assert s[|SummaryHeader|..] == SeqnPrefix + (DecimalString(seqn) + ("\n" + body));
    SeqnLineOf(seqn, body);
    ReadSummaryRows(rows, "");
  }

  /** What a parsed summary holds: one entry per product named in a row,
      and in it, per flag, the number of the last row for that product and
      flag, if any. */
  lemma SummaryMeaning(seqn: U32, rows: seq<SummaryRow>, p: string, f: Flag)
    requires forall i :: 0 <= i < |rows| ==> ValidColumn(rows[i].product)
    ensures var r := ParseSummary(SummaryText(seqn, rows));
      && r.Some? && r.value.seqn == seqn
      && (p in r.value.entries <==> exists i :: 0 <= i < |rows| && rows[i].product == p)
      && (p in r.value.entries ==> Field(r.value.entries[p], f) == LastNumber(rows, p, f))
  {
    SummaryRoundTrip(seqn, rows);
    if p in MergeRows(map[], rows) {
      MergeRowsFields(map[], rows, p, f);
    }
  }

  // ---- versions ----

  predicate WritableEntry(e: VersionsEntry)
  {
    ValidColumn(e.region) && ValidColumn(e.name)
  }

  /** `region|build config|cdn config||build id|name|product config` and
      a newline, followed by `rest`. */
  function VersionsRowText(e: VersionsEntry, rest: string): string
  {
    BarText(e.region, HexText(e.buildConfig, "|", HexText(e.cdnConfig, "||",
      DecText(e.buildId, BarText(e.name, HexText(e.productConfig, "\n", rest))))))
  }

  lemma ReadVersionsRow(e: VersionsEntry, rest: string)
    requires WritableEntry(e)
    ensures VersionsRowP(VersionsRowText(e, rest)) == Some((e, rest))
  {
    var t6 := HexText(e.productConfig, "\n", rest);
    var t5 := BarText(e.name, t6);
    var t4 := DecText(e.buildId, t5);
    var t3 := HexText(e.cdnConfig, "||", t4);
    var t2 := HexText(e.buildConfig, "|", t3);
    BarColumnOf(e.region, t2);
    HexColumnOf(e.buildConfig, "|", t3);
    HexColumnOf(e.cdnConfig, "||", t4);
    DecColumnOf(e.buildId, t5);
    BarColumnOf(e.name, t6);
    HexColumnOf(e.productConfig, "\n", rest);
  }

  /** The rows in order, followed by `rest`. */
  function VersionsRowsText(es: seq<VersionsEntry>, rest: string): string
  {
    if |es| == 0 then rest else VersionsRowText(es[0], VersionsRowsText(es[1..], rest))
  }

  lemma {:induction false} ReadVersionsRows(es: seq<VersionsEntry>, rest: string)
    requires forall i :: 0 <= i < |es| ==> WritableEntry(es[i])
    requires VersionsRowP(rest).None?
    ensures VersionsRows(VersionsRowsText(es, rest)) == (es, rest)
  {
    if |es| > 0 {
      var e, more := es[0], es[1..];
      assert es == [e] + more;
      var tail := VersionsRowsText(more, rest);
      ReadVersionsRows(more, rest);
      ReadVersionsRow(e, tail);
      VersionsRowsStep(VersionsRowText(e, tail), e, tail);
    }
  }

  /** A whole versions response; its first line is a column header the
      parser skips. */
  function VersionsText(first: string, seqn: U32, es: seq<VersionsEntry>): string
  {
    first + ("\n" + (SeqnPrefix + (DecimalString(seqn) + ("\n" + VersionsRowsText(es, "")))))
  }

  lemma VersionsRoundTrip(first: string, seqn: U32, es: seq<VersionsEntry>)
    requires '\n' !in first
    requires forall i :: 0 <= i < |es| ==> WritableEntry(es[i])
    ensures ParseVersions(VersionsText(first, seqn, es)) == Some(Versions(seqn, InsertAll(map[], ByRegion(es))))
  {
    var body := VersionsRowsText(es, "");
    var line := SeqnPrefix + (DecimalString(seqn) + ("\n" + body));
    var s := VersionsText(first, seqn, es);
    SpanOf(first, "\n" + line, NotNewline);
    assert s[..|first|] == first;
    assert s[|first|..] == "\n" + line;
    assert TakeUntilNewline(s) == Some((first, "\n" + line));
    assert ("\n" + line)[1..] == line;
    SeqnLineOf(seqn, body);
    ReadVersionsRows(es, "");
  }

  /** What a parsed versions table holds: one entry per region, the last
      row written for it. */
  lemma VersionsMeaning(first: string, seqn: U32, es: seq<VersionsEntry>, i: int)
    requires '\n' !in first
    requires forall j :: 0 <= j < |es| ==> WritableEntry(es[j])
    requires 0 <= i < |es| && forall j :: i < j < |es| ==> es[j].region != es[i].region
    ensures var r := ParseVersions(VersionsText(first, seqn, es));
      r.Some? && es[i].region in r.value.entries && r.value.entries[es[i].region] == es[i]
  {
    VersionsRoundTrip(first, seqn, es);
    assert IsLast(ByRegion(es), i);
    InsertAllLastWins(map[], ByRegion(es), i);
  }

  // ---- the crate's own example ----

  /** The rows `moo|123|`, `moo|456|cdn` and `cow|789|`: two rows for one
      product set two of its fields; a product with one row has only that
      field.  By `SummaryRoundTrip` this is what a summary holding these
      rows parses to. */
  lemma MergeExample()
    ensures MergeRows(map[], [SummaryRow("moo", 123, SeqnFlag), SummaryRow("moo", 456, CdnFlag),
                              SummaryRow("cow", 789, SeqnFlag)])
      == map["moo" := SummaryEntry(Some(123), Some(456), None),
             "cow" := SummaryEntry(Some(789), None, None)]
  {
    var rows := [SummaryRow("moo", 123, SeqnFlag), SummaryRow("moo", 456, CdnFlag), SummaryRow("cow", 789, SeqnFlag)];
    var m1 := map["moo" := SummaryEntry(Some(123), None, None)];
    var m2 := map["moo" := SummaryEntry(Some(123), Some(456), None)];
    assert MergeRows(map[], rows) == MergeRows(m1, rows[1..]);
    assert MergeRows(m1, rows[1..]) == MergeRows(m2, rows[2..]);
    assert MergeRows(m2, rows[2..]) == m2["cow" := SummaryEntry(Some(789), None, None)];
  }
}
