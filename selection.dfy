/** The reduction of a bundle's observations to one stored value per tracked
    test: the `latest` table built by the `for` loop of the chart view and,
    identically apart from the `date` the CSV export never reads, of the export. */
module Selection {
  import opened Fhir
  import opened Loinc

  /** What the table stores for a test. */
  datatype Latest = Latest(value: real, unit: string, date: Option<string>)

  /** The `latest` table: a key per tracked code, `None` while the slot is free. */
  type Table = map<TestCode, Option<Latest>>

  const EmptyTable: Table :=
    map[TotalCholesterol := None, Hdl := None, Ldl := None, Triglycerides := None]

  /** `obs.valueQuantity.unit || obs.valueQuantity.code || ""`. */
  function UnitText(q: Quantity): (u: string)
    ensures Truthy(q.unit) ==> u == q.unit.value
    ensures !Truthy(q.unit) && Truthy(q.code) ==> u == q.code.value
    ensures !Truthy(q.unit) && !Truthy(q.code) ==> u == ""
  {
    FirstTruthy(q.unit, q.code).GetOr("")
  }

  /** `obs.effectiveDateTime || obs.issued || null`. */
  function DateOf(obs: Observation): (d: Option<string>)
    ensures d.Some? ==> d.value != ""
    ensures Truthy(obs.effectiveDateTime) ==> d == obs.effectiveDateTime
    ensures !Truthy(obs.effectiveDateTime) ==> d == FirstTruthy(obs.issued, None)
  {
    FirstTruthy(obs.effectiveDateTime, obs.issued)
  }

  /** The code an entry is filed under and what it would store, or `None` when
      the entry is skipped whatever the table holds: no resource, no `code`,
      no or an empty `coding`, no `coding[0].code`, no `valueQuantity` or no
      `valueQuantity.value`. An untracked code still yields a candidate; the
      table has no key for it. */
  function Candidate(e: Entry): Option<(TestCode, Latest)> {
    match e.resource
    case None => None
    case Some(obs) =>
      if obs.code.None? || obs.code.value.coding.None? || |obs.code.value.coding.value| == 0 then None
      else
        var coding := obs.code.value.coding.value[0];
        if coding.code.None? || obs.valueQuantity.None? || obs.valueQuantity.value.value.None? then None
        else
          var q := obs.valueQuantity.value;
          Some((Parse(coding.code.value), Latest(q.value.value, UnitText(q), DateOf(obs))))
  }

  /** Whether entry `e` is well formed and filed under code `c`. */
  predicate Accepts(e: Entry, c: TestCode) {
    Candidate(e).Some? && Candidate(e).value.0 == c
  }

  /** What an accepted entry stores. */
  function Stored(e: Entry): Latest
    requires Candidate(e).Some?
  {
    Candidate(e).value.1
  }

  /** One iteration of the loop: fill the entry's slot if the table has that key
      and the slot is still free. */
  function Step(t: Table, e: Entry): Table {
    match Candidate(e)
    case None => t
    case Some((c, l)) => if c in t && t[c].None? then t[c := Some(l)] else t
  }

  /** The table after the loop has run over all of `es`, in input order. */
  function Select(es: seq<Entry>): (t: Table)
    ensures t.Keys == Tracked
    decreases |es|
  {
    if |es| == 0 then EmptyTable else Step(Select(es[..|es| - 1]), es[|es| - 1])
  }

  /** The slot of the `k`-th test in display order. */
  function SlotOf(t: Table, k: nat): Option<Latest>
    requires t.Keys == Tracked && k < |Order|
  {
    OrderCoversTracked();
    t[Order[k].code]
  }

  /** Reference definition: the first entry of `es` accepted for `c`, if any. */
  function FirstMatch(es: seq<Entry>, c: TestCode): Option<Latest>
    decreases |es|
  {
    if |es| == 0 then None
    else if Accepts(es[0], c) then Some(Stored(es[0]))
    else FirstMatch(es[1..], c)
  }

  /** The selection loop of `handleCholesterolData` and `exportCholesterolCSV`. */
  method SelectLatest(data: Bundle) returns (latest: Table)
    ensures latest == Select(data.entry.GetOr([]))
    ensures latest.Keys == Tracked
  {
    latest := EmptyTable;
    if data.entry.Some? {
      var entries := data.entry.value;
      var i := 0;
      while i < |entries|
        invariant 0 <= i <= |entries|
        invariant latest == Select(entries[..i])
      {
        assert entries[..i + 1][..i] == entries[..i];
        var e := entries[i];
        if e.resource.Some? {
          var obs := e.resource.value;
          if obs.code.Some? && obs.code.value.coding.Some? && |obs.code.value.coding.value| > 0 {
            var coding := obs.code.value.coding.value[0];
            if coding.code.Some? {
              var code := Parse(coding.code.value);
              if code in latest && latest[code].None? && obs.valueQuantity.Some?
                 && obs.valueQuantity.value.value.Some?
              {
                var q := obs.valueQuantity.value;
                latest := latest[code := Some(Latest(q.value.value, UnitText(q), DateOf(obs)))];
              }
            }
          }
        }
        i := i + 1;
      }
      assert entries[..|entries|] == entries;
    }
  }

  lemma {:induction false} FirstMatchSnoc(es: seq<Entry>, e: Entry, c: TestCode)
    ensures FirstMatch(es + [e], c) ==
      if FirstMatch(es, c).Some? then FirstMatch(es, c)
      else if Accepts(e, c) then Some(Stored(e)) else None
    decreases |es|
  {
    if |es| == 0 {
      assert [e][1..] == [];
    } else {
      assert (es + [e])[0] == es[0];
      assert (es + [e])[1..] == es[1..] + [e];
      FirstMatchSnoc(es[1..], e, c);
    }
  }

  /** For a tracked code, the loop stores exactly the first accepted entry. */
  lemma {:induction false} SelectIsFirstMatch(es: seq<Entry>, c: TestCode)
    requires c in Tracked
    ensures Select(es)[c] == FirstMatch(es, c)
    decreases |es|
  {
    if |es| > 0 {
      var init, e := es[..|es| - 1], es[|es| - 1];
      assert es == init + [e];
      SelectIsFirstMatch(init, c);
      FirstMatchSnoc(init, e, c);
    }
  }

  lemma {:induction false} FirstMatchAt(es: seq<Entry>, c: TestCode, i: nat)
    requires i < |es| && Accepts(es[i], c)
    requires forall j :: 0 <= j < i ==> !Accepts(es[j], c)
    ensures FirstMatch(es, c) == Some(Stored(es[i]))
    decreases i
  {
    if i > 0 {
      assert !Accepts(es[0], c);
      FirstMatchAt(es[1..], c, i - 1);
    }
  }

  lemma {:induction false} FirstMatchNone(es: seq<Entry>, c: TestCode)
    ensures FirstMatch(es, c).None? <==> forall j :: 0 <= j < |es| ==> !Accepts(es[j], c)
    decreases |es|
  {
    if |es| > 0 {
      FirstMatchNone(es[1..], c);
      assert forall j :: 1 <= j < |es| ==> es[j] == es[1..][j - 1];
    }
  }

  /** First wins: a tracked slot holds what the first entry accepted for that
      code stores, however many accepted entries follow it. */
  lemma FirstWins(es: seq<Entry>, c: TestCode, i: nat)
    requires c in Tracked
    requires i < |es| && Accepts(es[i], c)
    requires forall j :: 0 <= j < i ==> !Accepts(es[j], c)
    ensures Select(es)[c] == Some(Stored(es[i]))
  {
    SelectIsFirstMatch(es, c);
    FirstMatchAt(es, c, i);
  }

  /** A tracked slot stays free exactly when no entry is accepted for its code;
      in particular entries that are malformed or carry untracked codes fill nothing. */
  lemma SlotEmptyIff(es: seq<Entry>, c: TestCode)
    requires c in Tracked
    ensures Select(es)[c].None? <==> forall j :: 0 <= j < |es| ==> !Accepts(es[j], c)
  {
    SelectIsFirstMatch(es, c);
    FirstMatchNone(es, c);
  }

  /** Later entries never change a filled slot. */
  lemma {:induction false} LaterEntriesIgnored(es: seq<Entry>, more: seq<Entry>, c: TestCode)
    requires c in Tracked && Select(es)[c].Some?
    ensures Select(es + more)[c] == Select(es)[c]
    decreases |more|
  {
    if |more| == 0 {
      assert es + more == es;
    } else {
      var init := more[..|more| - 1];
      assert (es + more)[..|es + more| - 1] == es + init;
      LaterEntriesIgnored(es, init, c);
    }
  }

  /** A skipped entry changes nothing, wherever it stands: the table is that of
      the input without it. */
  lemma {:induction false} SkippedEntryInvisible(es: seq<Entry>, e: Entry, rest: seq<Entry>)
    requires Candidate(e).None? || Candidate(e).value.0 !in Tracked
    ensures Select(es + [e] + rest) == Select(es + rest)
    decreases |rest|
  {
    if |rest| == 0 {
      assert es + [e] + rest == es + [e];
      assert (es + [e])[..|es|] == es;
      assert es + rest == es;
    } else {
      var init, last := rest[..|rest| - 1], rest[|rest| - 1];
      assert es + [e] + rest == (es + [e] + init) + [last];
      assert es + rest == (es + init) + [last];
      SkippedEntryInvisible(es, e, init);
    }
  }

  /** A second accepted entry for a code already filled leaves the whole table
      unchanged: running on `es + [e]` is running on `es` alone. */
  lemma DuplicateIgnored(es: seq<Entry>, e: Entry, i: nat)
    requires i < |es| && Candidate(e).Some? && Accepts(es[i], Candidate(e).value.0)
    ensures Select(es + [e]) == Select(es)
  {
    var c := Candidate(e).value.0;
    assert (es + [e])[..|es|] == es;
    if c in Tracked {
      SlotEmptyIff(es, c);
    }
  }
}
