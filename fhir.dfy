/** The part of a FHIR search-result bundle that the cholesterol view reads.
    Every property the page tests for presence is an `Option`; an absent
    property and JavaScript's `undefined` are both `None`. */
module Fhir {

  datatype Option<+T> = None | Some(value: T) {
    function GetOr(default: T): T {
      match this
      case Some(v) => v
      case None => default
    }
  }

  /** `valueQuantity`: the measured number, its unit text and its unit code. */
  datatype Quantity = Quantity(value: Option<real>, unit: Option<string>, code: Option<string>)

  /** One element of `code.coding`; only its `code` is read. */
  datatype Coding = Coding(code: Option<string>)

  datatype CodeableConcept = CodeableConcept(coding: Option<seq<Coding>>)

  datatype Observation = Observation(
    code: Option<CodeableConcept>,
    valueQuantity: Option<Quantity>,
    effectiveDateTime: Option<string>,
    issued: Option<string>)

  /** `data.entry[i]`: a wrapper whose `resource` may be missing. */
  datatype Entry = Entry(resource: Option<Observation>)

  /** The search result: `data.entry` may be missing altogether. */
  datatype Bundle = Bundle(entry: Option<seq<Entry>>)

  /** Whether an optional string is truthy in JavaScript: present and non-empty. */
  predicate Truthy(s: Option<string>) {
    s.Some? && s.value != ""
  }

  /** JavaScript's `a || b` over optional strings: the first truthy one, else none. */
  function FirstTruthy(a: Option<string>, b: Option<string>): (r: Option<string>)
    ensures r.Some? <==> Truthy(a) || Truthy(b)
    ensures r.Some? ==> r.value != "" && (r == a || r == b)
    ensures Truthy(a) ==> r == a
  {
    if Truthy(a) then a else if Truthy(b) then b else None
  }
}
