/** The chart side of the view: from the `latest` table to the categories, the
    data points and the axis unit handed to the chart, the "no data" gate, the
    title and subtitle, and the tooltip text of a point. */
module Panel {
  import opened Fhir
  import opened Text
  import opened Loinc
  import opened RiskColor
  import opened Selection
  import opened PatientInfo

  /** One bar: `y` is `null` for a test without a value. */
  datatype Point = Point(y: Option<real>, color: Color, code: TestCode, name: string, dateDisplay: Option<string>)

  /** `rawDate ? String(rawDate).substring(0, 10) : null`. */
  function DateDisplay(raw: Option<string>): (d: Option<string>)
    ensures d.Some? <==> Truthy(raw)
    ensures d.Some? ==> d.value <= raw.value && |d.value| == if |raw.value| < 10 then |raw.value| else 10
  {
    if Truthy(raw) then Some(raw.value[..if |raw.value| < 10 then |raw.value| else 10]) else None
  }

  /** The point pushed for one entry of the display order. */
  function PointFor(item: OrderItem, slot: Option<Latest>): Point {
    match slot
    case Some(l) => Point(Some(l.value), CholesterolColor(item.code.Text(), l.value), item.code, item.name, DateDisplay(l.date))
    case None => Point(None, NoDataGrey, item.code, item.name, None)
  }

  /** The data points in display order, one per tracked test. */
  function PanelPoints(t: Table): seq<Point>
    requires t.Keys == Tracked
  {
    seq(|Order|, k requires 0 <= k < |Order| => PointFor(Order[k], SlotOf(t, k)))
  }

  /** Whether the `k`-th slot in display order has a non-empty unit. */
  predicate HasUnit(t: Table, k: nat)
    requires t.Keys == Tracked && k < |Order|
  {
    SlotOf(t, k).Some? && SlotOf(t, k).value.unit != ""
  }

  /** The axis unit after the first `n` iterations of the display loop. */
  function UnitAfter(t: Table, n: nat): string
    requires t.Keys == Tracked && n <= |Order|
  {
    if n == 0 then "mg/dL"
    else if HasUnit(t, n - 1) then SlotOf(t, n - 1).value.unit
    else UnitAfter(t, n - 1)
  }

  /** The display unit is that of the last slot, in display order, that has a
      non-empty unit; "mg/dL" when no slot has one. */
  lemma {:induction false} UnitIsLast(t: Table, n: nat)
    requires t.Keys == Tracked && n <= |Order|
    ensures (forall k :: 0 <= k < n ==> !HasUnit(t, k)) ==> UnitAfter(t, n) == "mg/dL"
    ensures forall k :: 0 <= k < n && HasUnit(t, k) && (forall j :: k < j < n ==> !HasUnit(t, j))
              ==> UnitAfter(t, n) == SlotOf(t, k).value.unit
    decreases n
  {
    if n > 0 {
      UnitIsLast(t, n - 1);
    }
  }

  /** `dataPoints.some(p => p.y !== null)`. */
  predicate HasAnyValue(points: seq<Point>) {
    exists k :: 0 <= k < |points| && points[k].y.Some?
  }

  /** The `order.forEach` loop of `handleCholesterolData`. */
  method BuildPanel(latest: Table) returns (categories: seq<string>, dataPoints: seq<Point>, unit: string)
    requires latest.Keys == Tracked
    ensures categories == Labels
    ensures dataPoints == PanelPoints(latest)
    ensures unit == UnitAfter(latest, |Order|)
  {
    OrderCoversTracked();
    categories, dataPoints, unit := [], [], "mg/dL";
    for i := 0 to |Order|
      invariant categories == Labels[..i]
      invariant dataPoints == PanelPoints(latest)[..i]
      invariant unit == UnitAfter(latest, i)
    {
      var item := Order[i];
      categories := categories + [item.name];
      assert Labels[..i + 1] == Labels[..i] + [Labels[i]];
      match latest[item.code]
      case Some(l) =>
        var v := l.value;
        var color := CholesterolColor(item.code.Text(), v);
        var dateDisplay := DateDisplay(l.date);
        dataPoints := dataPoints + [Point(Some(v), color, item.code, item.name, dateDisplay)];
        if l.unit != "" {
          unit := l.unit;
        }
      case None =>
        dataPoints := dataPoints + [Point(None, NoDataGrey, item.code, item.name, None)];
      assert PanelPoints(latest)[..i + 1] == PanelPoints(latest)[..i] + [PanelPoints(latest)[i]];
    }
    assert Labels[..|Order|] == Labels;
    assert PanelPoints(latest)[..|Order|] == PanelPoints(latest);
  }

  /** The panel has four points, labelled and coded in display order; a filled
      slot shows its value, its risk colour and the day of its date, an empty
      one `null`, grey and no date. */
  lemma PanelShape(t: Table)
    requires t.Keys == Tracked
    ensures |PanelPoints(t)| == 4
    ensures forall k :: 0 <= k < 4 ==>
      var p := PanelPoints(t)[k];
      p.name == Labels[k] && p.code == Order[k].code && p.code.Tracked()
      && (SlotOf(t, k).Some? ==>
            p.y == Some(SlotOf(t, k).value.value)
            && p.color == CholesterolColor(Order[k].code.Text(), SlotOf(t, k).value.value)
            && p.color in {Green, Orange, Red}
            && p.dateDisplay == DateDisplay(SlotOf(t, k).value.date))
      && (SlotOf(t, k).None? ==> p.y.None? && p.color == NoDataGrey && p.dateDisplay.None?)
  {
    OrderCoversTracked();
  }

  /** The `k`-th bar shows the value of the first entry of the bundle accepted
      for the `k`-th test, and nothing when there is none. */
  lemma PointFromEntries(es: seq<Entry>, k: nat)
    requires k < |Order|
    ensures var p := PanelPoints(Select(es))[k];
      (p.y.None? <==> FirstMatch(es, Order[k].code).None?)
      && (p.y.Some? ==> p.y.value == FirstMatch(es, Order[k].code).value.value)
  {
    OrderCoversTracked();
    SelectIsFirstMatch(es, Order[k].code);
  }

  /** The chart's "no data" gate fires exactly when no entry of the bundle is
      accepted for any tracked code. */
  lemma NoDataIff(es: seq<Entry>)
    ensures !HasAnyValue(PanelPoints(Select(es)))
        <==> forall j, c :: 0 <= j < |es| && c in Tracked ==> !Accepts(es[j], c)
  {
    var t := Select(es);
    OrderCoversTracked();
    forall c | c in Tracked ensures t[c].None? <==> forall j :: 0 <= j < |es| ==> !Accepts(es[j], c) {
      SlotEmptyIff(es, c);
    }
    if HasAnyValue(PanelPoints(t)) {
      var k :| 0 <= k < 4 && PanelPoints(t)[k].y.Some?;
      assert t[Order[k].code].Some?;
    } else {
      forall c | c in Tracked ensures t[c].None? {
        var k :| 0 <= k < 4 && Order[k].code == c;
        assert PanelPoints(t)[k].y.None?;
      }
    }
  }

  const Legend: string := "Green = normal \U{00B7} Orange = borderline \U{00B7} Red = high"

  /** `"Cholesterol Levels for " + (name || "Selected Patient")`. */
  function Title(name: string): (s: string)
    ensures name != "" ==> s == "Cholesterol Levels for " + name
    ensures name == "" ==> s == "Cholesterol Levels for Selected Patient"
  {
    "Cholesterol Levels for " + (if name != "" then name else "Selected Patient")
  }

  /** `g.charAt(0).toUpperCase() + g.slice(1).toLowerCase()`, for ASCII letters. */
  function Capitalize(g: string): (r: string)
    ensures |r| == |g|
    ensures |g| > 0 ==> r[0] == ToUpperAscii(g[0])
    ensures forall i :: 1 <= i < |g| ==> r[i] == ToLowerAscii(g[i])
  {
    if |g| == 0 then "" else [ToUpperAscii(g[0])] + LowerAscii(g[1..])
  }

  /** Capitalizing ignores the case the server sent: "male", "MALE" and "mAlE"
      all become "Male"; and capitalizing again changes nothing. */
  lemma CapitalizeIgnoresCase(g: string, h: string)
    requires |g| == |h| && forall i :: 0 <= i < |g| ==> ToLowerAscii(g[i]) == ToLowerAscii(h[i])
    ensures Capitalize(g) == Capitalize(h)
    ensures Capitalize(Capitalize(g)) == Capitalize(g)
  {
    if |g| > 0 {
      assert ToUpperAscii(g[0]) == ToUpperAscii(h[0]);
    }
  }

  /** The parts of the subtitle: sex, then age, then the colour legend. */
  function SubtitleParts(info: Info): seq<string> {
    (if Truthy(info.gender) then ["Sex: " + Capitalize(info.gender.value)] else [])
    + (if info.age.Some? then ["Age: " + IntText(info.age.value)] else [])
    + [Legend]
  }

  function Subtitle(info: Info): string {
    Join(SubtitleParts(info), " \U{00B7} ")
  }

  /** The subtitle written out: the capitalised sex when it is known, then the
      age when it is known, then the legend, with a spaced middle dot between
      consecutive parts. Hence it always ends with the legend, is the legend alone
      exactly when neither sex nor age is known, and begins with the sex
      when that is known. */
  lemma SubtitleShape(info: Info)
    ensures var s := Subtitle(info);
      s == (if Truthy(info.gender) then "Sex: " + Capitalize(info.gender.value) + " \U{00B7} " else "")
           + (if info.age.Some? then "Age: " + IntText(info.age.value) + " \U{00B7} " else "")
           + Legend
      && |s| >= |Legend| && s[|s| - |Legend|..] == Legend
      && (s == Legend <==> !Truthy(info.gender) && info.age.None?)
      && (Truthy(info.gender) ==> s[..5] == "Sex: ")
  {
    var sep := " \U{00B7} ";
    var sex := if Truthy(info.gender) then ["Sex: " + Capitalize(info.gender.value)] else [];
    var age := if info.age.Some? then ["Age: " + IntText(info.age.value)] else [];
    var front := sex + age;
    assert SubtitleParts(info) == front + [Legend];
    if |front| == 0 {
      assert SubtitleParts(info) == [Legend];
    } else {
      JoinSnoc(front, Legend, sep);
      if |front| == 2 {
        assert front == [front[0]] + [front[1]];
        assert [front[0]][1..] == [];
        JoinSnoc([front[0]], front[1], sep);
      }
    }
  }

  /** The tooltip formatter: label, then either "No value available" or the
      value with the axis unit and, when there is one, the date. */
  function Tooltip(p: Point, unit: string, show: real -> string): string {
    if p.y.None? then "<b>" + p.name + "</b><br/>No value available"
    else
      "<b>" + p.name + "</b><br/>" + "Value: <b>" + show(p.y.value) + " " + unit + "</b>"
      + (if Truthy(p.dateDisplay) then "<br/>Date: <b>" + p.dateDisplay.value + "</b>" else "")
  }

  /** The tooltip names the point's label in every case, and reads "No value
      available" exactly for a point without a value. For a point with a value
      it goes on with the value and the axis unit, in bold, and then with the
      date line exactly when the point has a date. */
  lemma TooltipTellsAbsence(p: Point, unit: string, show: real -> string)
    ensures var head := "<b>" + p.name + "</b><br/>";
      var s := Tooltip(p, unit, show);
      (s == head + "No value available" <==> p.y.None?)
      && |s| > |head| && s[..|head|] == head
      && (p.y.Some? ==>
            var v := "Value: <b>" + show(p.y.value) + " " + unit + "</b>";
            |s| >= |head| + |v| && s[|head|..|head| + |v|] == v
            && (s == head + v <==> !Truthy(p.dateDisplay))
            && (Truthy(p.dateDisplay) ==> s[|head| + |v|..] == "<br/>Date: <b>" + p.dateDisplay.value + "</b>"))
  {
    var head := "<b>" + p.name + "</b><br/>";
    var s := Tooltip(p, unit, show);
    if p.y.Some? {
      assert s[|head|] == 'V';
      assert (head + "No value available")[|head|] == 'N';
      var v := "Value: <b>" + show(p.y.value) + " " + unit + "</b>";
      var date := if Truthy(p.dateDisplay) then "<br/>Date: <b>" + p.dateDisplay.value + "</b>" else "";
      assert s == head + v + date;
      assert s[|head|..|head| + |v|] == v;
      assert s[|head| + |v|..] == date;
    }
  }

  /** The configuration handed to the chart library. */
  datatype Chart = Chart(title: string, subtitle: string, categories: seq<string>, unit: string, points: seq<Point>)

  /** What the view does with a bundle: report that there is no data, or draw. */
  datatype ChartOutcome = NoCholesterolData | Draw(chart: Chart)

  /** `handleCholesterolData(data, patientInfo)`, up to the call that draws. */
  method HandleCholesterolData(data: Bundle, info: Info) returns (r: ChartOutcome)
    ensures var t := Select(data.entry.GetOr([]));
      r == if HasAnyValue(PanelPoints(t))
           then Draw(Chart(Title(info.name), Subtitle(info), Labels, UnitAfter(t, |Order|), PanelPoints(t)))
           else NoCholesterolData
    ensures r.NoCholesterolData? <==>
      forall j, c :: 0 <= j < |data.entry.GetOr([])| && c in Tracked ==> !Accepts(data.entry.GetOr([])[j], c)
  {
    var latest := SelectLatest(data);
    var categories, dataPoints, unit := BuildPanel(latest);
    NoDataIff(data.entry.GetOr([]));
    var hasAnyValue := exists k :: 0 <= k < |dataPoints| && dataPoints[k].y.Some?;
    if !hasAnyValue {
      return NoCholesterolData;
    }
    var titleText := Title(info.name);
    var subtitleText := Subtitle(info);
    r := Draw(Chart(titleText, subtitleText, categories, unit, dataPoints));
  }
}
