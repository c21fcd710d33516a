/** The CSV side of the view: a header and one row per tracked test in display
    order, gated on at least one test having a value. */
module CsvExport {
  import opened Fhir
  import opened Text
  import opened Loinc
  import opened Selection
  import opened Panel

  /** The header row; unlike the data rows its fields are not quoted. */
  const Header: string := "Test,LOINC Code,Value,Unit"

  function Quote(s: string): string {
    "\"" + s + "\""
  }

  /** `"label","code","value","unit"`. */
  function PresentRow(item: OrderItem, value: string, unit: string): string {
    Quote(item.name) + "," + Quote(item.code.Text()) + "," + Quote(value) + "," + Quote(unit)
  }

  /** `"label","code",,""`: an empty, unquoted value field and an empty unit. */
  function AbsentRow(item: OrderItem): string {
    Quote(item.name) + "," + Quote(item.code.Text()) + "," + ",\"\""
  }

  /** The row pushed for one entry of the display order; `show` is `String(val)`. */
  function RowFor(item: OrderItem, slot: Option<Latest>, show: real -> string): string {
    match slot
    case Some(l) => PresentRow(item, show(l.value), l.unit)
    case None => AbsentRow(item)
  }

  /** The header followed by the four rows in display order. */
  function CsvRows(t: Table, show: real -> string): seq<string>
    requires t.Keys == Tracked
  {
    [Header] + seq(|Order|, k requires 0 <= k < |Order| => RowFor(Order[k], SlotOf(t, k), show))
  }

  /** The `hasAny` flag after the loop: some tracked slot is filled. */
  predicate AnyFilled(t: Table)
    requires t.Keys == Tracked
  {
    exists k :: 0 <= k < |Order| && SlotOf(t, k).Some?
  }

  /** The `order.forEach` loop of `exportCholesterolCSV`. */
  method BuildCsvRows(latest: Table, show: real -> string) returns (rows: seq<string>, hasAny: bool)
    requires latest.Keys == Tracked
    ensures rows == CsvRows(latest, show)
    ensures hasAny == AnyFilled(latest)
  {
    OrderCoversTracked();
    rows := [Header];
    hasAny := false;
    for i := 0 to |Order|
      invariant rows == CsvRows(latest, show)[..i + 1]
      invariant hasAny == exists k :: 0 <= k < i && SlotOf(latest, k).Some?
    {
      var item := Order[i];
      var entry := latest[item.code];
      if entry.Some? {
        hasAny := true;
        var val := show(entry.value.value);
        var unit := entry.value.unit;
        rows := rows + [Quote(item.name) + "," + Quote(item.code.Text()) + "," + Quote(val) + "," + Quote(unit)];
      } else {
        rows := rows + [Quote(item.name) + "," + Quote(item.code.Text()) + "," + ",\"\""];
      }
      assert CsvRows(latest, show)[..i + 2] == CsvRows(latest, show)[..i + 1] + [CsvRows(latest, show)[i + 1]];
    }
    assert CsvRows(latest, show)[..|Order| + 1] == CsvRows(latest, show);
  }

  /** `exportCholesterolCSV`, up to the download: `None` when there is nothing
      to export, else the rows joined by newlines. */
  method ExportCholesterolCsv(data: Bundle, show: real -> string) returns (csv: Option<string>)
    ensures var t := Select(data.entry.GetOr([]));
      csv == if AnyFilled(t) then Some(Join(CsvRows(t, show), "\n")) else None
    ensures csv.None? <==>
      forall j, c :: 0 <= j < |data.entry.GetOr([])| && c in Tracked ==> !Accepts(data.entry.GetOr([])[j], c)
  {
    var latest := SelectLatest(data);
    var rows, hasAny := BuildCsvRows(latest, show);
    GatesAgree(latest);
    NoDataIff(data.entry.GetOr([]));
    if !hasAny {
      return None;
    }
    csv := Some(Join(rows, "\n"));
  }

  /** The text of a field, without the quotes around it if it has them. */
  function Unquote(f: string): string {
    if |f| >= 2 && f[0] == '"' && f[|f| - 1] == '"' then f[1..|f| - 1] else f
  }

  /** The field texts of a row, split at every comma. */
  function Fields(row: string): seq<string> {
    var raw := Split(row, ',');
    seq(|raw|, i requires 0 <= i < |raw| => Unquote(raw[i]))
  }

  /** A text that needs no escaping in a row: no comma, quote or newline. */
  predicate Plain(s: string) {
    ',' !in s && '"' !in s && '\n' !in s
  }

  lemma QuotePlain(s: string)
    requires Plain(s)
    ensures ',' !in Quote(s) && '\n' !in Quote(s) && Unquote(Quote(s)) == s
  {
  }

  lemma LabelsPlain()
    ensures Plain("Total Cholesterol") && Plain("LDL") && Plain("HDL") && Plain("Triglycerides")
  {
  }

  lemma CodesPlain()
    ensures Plain("2093-3") && Plain("13457-7") && Plain("2085-9") && Plain("2571-8")
  {
  }

  /** The labels and codes of the display order need no escaping. */
  lemma OrderPlain(k: nat)
    requires k < |Order|
    ensures Plain(Order[k].name) && Plain(Order[k].code.Text())
  {
    LabelsPlain();
    CodesPlain();
    assert Order[k] in Order;
  }

  /** A row as the join of its four raw fields. */
  lemma RowPieces(k: nat, slot: Option<Latest>, show: real -> string) returns (pieces: seq<string>)
    requires k < |Order|
    ensures |pieces| == 4 && RowFor(Order[k], slot, show) == Join(pieces, ",")
    ensures pieces[0] == Quote(Order[k].name) && pieces[1] == Quote(Order[k].code.Text())
    ensures slot.Some? ==> pieces[2] == Quote(show(slot.value.value)) && pieces[3] == Quote(slot.value.unit)
    ensures slot.None? ==> pieces[2] == "" && pieces[3] == "\"\""
  {
    var item := Order[k];
    var a, b := Quote(item.name), Quote(item.code.Text());
    if slot.Some? {
      pieces := [a, b, Quote(show(slot.value.value)), Quote(slot.value.unit)];
      Join4(a, b, pieces[2], pieces[3]);
    } else {
      pieces := [a, b, "", "\"\""];
      Join4(a, b, "", "\"\"");
      assert a + "," + b + "," + "" + "," + "\"\"" == AbsentRow(item);
    }
  }

  /** Reading a row back: the label, the code, the value text and the unit; the
      value field is empty, and unquoted, exactly for a test without a value.
      This needs value and unit texts free of commas, quotes and newlines. */
  lemma RowRoundTrip(k: nat, slot: Option<Latest>, show: real -> string)
    requires k < |Order|
    requires slot.Some? ==> Plain(show(slot.value.value)) && Plain(slot.value.unit)
    ensures var row := RowFor(Order[k], slot, show);
      Fields(row) == [Order[k].name, Order[k].code.Text(),
                      if slot.Some? then show(slot.value.value) else "",
                      if slot.Some? then slot.value.unit else ""]
      && (Split(row, ',')[2] == "" <==> slot.None?)
  {
    OrderPlain(k);
    QuotePlain(Order[k].name);
    QuotePlain(Order[k].code.Text());
    if slot.Some? {
      QuotePlain(show(slot.value.value));
      QuotePlain(slot.value.unit);
    }
    var pieces := RowPieces(k, slot, show);
    SplitOfJoin(pieces, ',');
  }

  /** With value and unit texts free of newlines, no row contains one. */
  lemma RowHasNoBreak(k: nat, slot: Option<Latest>, show: real -> string)
    requires k < |Order|
    requires slot.Some? ==> '\n' !in show(slot.value.value) && '\n' !in slot.value.unit
    ensures '\n' !in RowFor(Order[k], slot, show)
  {
    OrderPlain(k);
  }

  /** Every printed line is a whole row: with value and unit texts free of
      newlines, the export is exactly five lines, the header first. */
  lemma FiveLines(t: Table, show: real -> string)
    requires t.Keys == Tracked
    requires forall x :: '\n' !in show(x)
    requires forall c :: c in t && t[c].Some? ==> '\n' !in t[c].value.unit
    ensures Lines(Join(CsvRows(t, show), "\n")) == CsvRows(t, show)
    ensures |CsvRows(t, show)| == 5 && CsvRows(t, show)[0] == Header
  {
    OrderCoversTracked();
    var rows := CsvRows(t, show);
    forall k | 0 <= k < 5 ensures '\n' !in rows[k] {
      if k > 0 {
        assert Order[k - 1].code in t;
        RowHasNoBreak(k - 1, SlotOf(t, k - 1), show);
      }
    }
    SplitOfJoin(rows, '\n');
  }

  /** The absent row is never a present row: they differ right after the code. */
  lemma RowsDiffer(item: OrderItem, value: string, unit: string)
    ensures PresentRow(item, value, unit) != AbsentRow(item)
  {
    var n := |Quote(item.name) + "," + Quote(item.code.Text()) + ","|;
    assert PresentRow(item, value, unit)[n] == '"';
    assert AbsentRow(item)[n] == ',';
  }

  /** The chart and the CSV agree slot by slot: a point has no value exactly when
      its row is the absent row, and a point's value is the one its row prints. */
  lemma AdaptersAgree(t: Table, show: real -> string, k: nat)
    requires t.Keys == Tracked && k < |Order|
    ensures var p, row := PanelPoints(t)[k], CsvRows(t, show)[k + 1];
      (p.y.None? <==> row == AbsentRow(Order[k]))
      && (p.y.Some? ==> row == PresentRow(Order[k], show(p.y.value), SlotOf(t, k).value.unit))
  {
    if SlotOf(t, k).Some? {
      RowsDiffer(Order[k], show(SlotOf(t, k).value.value), SlotOf(t, k).value.unit);
    }
  }

  /** The two "no data" gates agree: the chart draws exactly when the CSV
      exports. */
  lemma GatesAgree(t: Table)
    requires t.Keys == Tracked
    ensures HasAnyValue(PanelPoints(t)) <==> AnyFilled(t)
  {
    if AnyFilled(t) {
      var k :| 0 <= k < |Order| && SlotOf(t, k).Some?;
      assert PanelPoints(t)[k].y.Some?;
    }
  }
}
