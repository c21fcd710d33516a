/** The four LOINC tests of a cholesterol panel and the order the page shows them in. */
module Loinc {

  /** A test identifier: one of the four tracked LOINC codes, or any other code text. */
  datatype TestCode = TotalCholesterol | Hdl | Ldl | Triglycerides | Other(text: string) {

    predicate Tracked() {
      !Other?
    }

    /** The LOINC code text. */
    function Text(): string {
      match this
      case TotalCholesterol => "2093-3"
      case Hdl => "2085-9"
      case Ldl => "13457-7"
      case Triglycerides => "2571-8"
      case Other(s) => s
    }
  }

  const TrackedTexts: set<string> := {"2093-3", "2085-9", "13457-7", "2571-8"}

  /** The keys of the page's `latest` table. */
  const Tracked: set<TestCode> := {TotalCholesterol, Hdl, Ldl, Triglycerides}

  /** Reads a code text into a `TestCode`; a tracked code never comes back as `Other`. */
  function Parse(s: string): (c: TestCode)
    ensures c.Text() == s
    ensures c.Tracked() <==> s in TrackedTexts
    ensures c in Tracked <==> s in TrackedTexts
  {
    if s == "2093-3" then TotalCholesterol
    else if s == "2085-9" then Hdl
    else if s == "13457-7" then Ldl
    else if s == "2571-8" then Triglycerides
    else Other(s)
  }

  /** Parsing is the inverse of `Text` on the tracked codes. */
  lemma ParseText(c: TestCode)
    requires c.Tracked()
    ensures Parse(c.Text()) == c
  {
  }

  /** One entry of the page's fixed display order. */
  datatype OrderItem = OrderItem(code: TestCode, name: string)

  /** Total Cholesterol, LDL, HDL, Triglycerides: not the order of the code list. */
  const Order: seq<OrderItem> := [
    OrderItem(TotalCholesterol, "Total Cholesterol"),
    OrderItem(Ldl, "LDL"),
    OrderItem(Hdl, "HDL"),
    OrderItem(Triglycerides, "Triglycerides")
  ]

  /** The labels in display order: the chart's categories. */
  const Labels: seq<string> := ["Total Cholesterol", "LDL", "HDL", "Triglycerides"]

  /** The display order lists every tracked code exactly once, with its label. */
  lemma OrderCoversTracked()
    ensures |Order| == |Labels| == 4
    ensures forall k :: 0 <= k < 4 ==> Order[k].code in Tracked && Order[k].name == Labels[k]
    ensures forall c :: c in Tracked ==> exists k :: 0 <= k < 4 && Order[k].code == c
    ensures forall j, k :: 0 <= j < k < 4 ==> Order[j].code != Order[k].code
  {
    assert Order[0].code == TotalCholesterol && Order[1].code == Ldl;
    assert Order[2].code == Hdl && Order[3].code == Triglycerides;
  }
}
