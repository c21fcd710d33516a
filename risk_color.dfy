/** The bar colour of a lab value: green for normal, orange for borderline,
    red for high, blue for a code the page has no thresholds for. */
module RiskColor {

  datatype Color = Green | Orange | Red | DefaultBlue | NoDataGrey {

    /** The CSS colour the chart is given. */
    function Hex(): string {
      match this
      case Green => "#2ecc71"
      case Orange => "#f1c40f"
      case Red => "#e74c3c"
      case DefaultBlue => "#3498db"
      case NoDataGrey => "#cccccc"
    }

    /** Risk rank of the three band colours; the other two rank as normal. */
    function Severity(): nat {
      match this
      case Orange => 1
      case Red => 2
      case _ => 0
    }
  }

  /** `getCholesterolColor(code, value)`: thresholds in mg/dL on the code text. */
  function CholesterolColor(code: string, value: real): (r: Color)
    ensures r != NoDataGrey
    ensures r == DefaultBlue <==> code !in {"2093-3", "2085-9", "13457-7", "2571-8"}
  {
    if code == "2093-3" then
      if value < 200.0 then Green else if value < 240.0 then Orange else Red
    else if code == "2085-9" then
      if value >= 60.0 then Green else if value >= 40.0 then Orange else Red
    else if code == "13457-7" then
      if value < 100.0 then Green else if value < 160.0 then Orange else Red
    else if code == "2571-8" then
      if value < 150.0 then Green else if value < 200.0 then Orange else Red
    else DefaultBlue
  }

  /** The band table: for the three "lower is better" tests, borderline is
      `[lo, hi)`; for HDL ("higher is better") borderline is `[lo, hi)` too,
      but values at or above `hi` are normal and below `lo` high. */
  datatype Bands = LowerIsBetter(lo: real, hi: real) | HigherIsBetter(lo: real, hi: real) | NoBands

  function BandsOf(code: string): Bands {
    if code == "2093-3" then LowerIsBetter(200.0, 240.0)
    else if code == "13457-7" then LowerIsBetter(100.0, 160.0)
    else if code == "2571-8" then LowerIsBetter(150.0, 200.0)
    else if code == "2085-9" then HigherIsBetter(40.0, 60.0)
    else NoBands
  }

  /** The colour for a value, read off the band table by interval membership. */
  function BandColor(code: string, value: real): Color {
    match BandsOf(code)
    case NoBands => DefaultBlue
    case LowerIsBetter(lo, hi) =>
      if value < lo then Green else if lo <= value < hi then Orange else Red
    case HigherIsBetter(lo, hi) =>
      if hi <= value then Green else if lo <= value < hi then Orange else Red
  }

  /** The branch chain of the page agrees with the band table on every input. */
  lemma ColorMatchesBands(code: string, value: real)
    ensures CholesterolColor(code, value) == BandColor(code, value)
  {
  }

  /** A higher value is never less severe, except for HDL where it is never more severe. */
  lemma SeverityMonotone(code: string, v: real, w: real)
    requires v <= w
    ensures code != "2085-9" ==> CholesterolColor(code, v).Severity() <= CholesterolColor(code, w).Severity()
    ensures code == "2085-9" ==> CholesterolColor(code, v).Severity() >= CholesterolColor(code, w).Severity()
  {
  }

  /** The boundaries are half-open: each threshold value itself falls in the worse
      band for the three "lower is better" tests and in the better band for HDL. */
  lemma Boundaries()
    ensures CholesterolColor("2093-3", 199.999) == Green && CholesterolColor("2093-3", 200.0) == Orange
    ensures CholesterolColor("2093-3", 239.999) == Orange && CholesterolColor("2093-3", 240.0) == Red
    ensures CholesterolColor("2085-9", 59.999) == Orange && CholesterolColor("2085-9", 60.0) == Green
    ensures CholesterolColor("2085-9", 39.999) == Red && CholesterolColor("2085-9", 40.0) == Orange
    ensures CholesterolColor("13457-7", 99.999) == Green && CholesterolColor("13457-7", 100.0) == Orange
    ensures CholesterolColor("13457-7", 159.999) == Orange && CholesterolColor("13457-7", 160.0) == Red
    ensures CholesterolColor("2571-8", 149.999) == Green && CholesterolColor("2571-8", 150.0) == Orange
    ensures CholesterolColor("2571-8", 199.999) == Orange && CholesterolColor("2571-8", 200.0) == Red
  {
  }

  /** The five colours are five different CSS strings, so the no-data grey of an
      empty slot can never be confused with the blue of an unknown code. */
  lemma HexDistinct(a: Color, b: Color)
    requires a != b
    ensures a.Hex() != b.Hex()
  {
    assert a.Hex()[1] != b.Hex()[1];
  }
}
