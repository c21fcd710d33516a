/** `getPatientInfo`: the display name, sex and age in whole years of a patient
    record. The birth date arrives already parsed and "today" is a parameter. */
module PatientInfo {
  import opened Fhir
  import opened Text

  datatype HumanName = HumanName(given: Option<seq<string>>, family: Option<string>)

  /** A calendar date. Only differences of months and days are read, so whether
      months count from 0 or from 1 does not matter. */
  datatype Date = Date(year: int, month: int, day: int)

  /** `birthDate` is `None` when it is missing or does not parse as a date. */
  datatype Patient = Patient(name: Option<seq<HumanName>>, gender: Option<string>, birthDate: Option<Date>)

  /** The result of `getPatientInfo`: `gender` and `age` are `null` when unknown. */
  datatype Info = Info(name: string, gender: Option<string>, age: Option<int>)

  /** Lexicographic order of dates: `a` is the same day as `b` or earlier. */
  predicate OnOrBefore(a: Date, b: Date) {
    a.year < b.year
    || (a.year == b.year && (a.month < b.month || (a.month == b.month && a.day <= b.day)))
  }

  /** Year difference, less one if this year's birthday is still to come. */
  function Age(today: Date, birth: Date): (age: int)
    ensures OnOrBefore(Date(birth.year + age, birth.month, birth.day), today)
    ensures !OnOrBefore(Date(birth.year + age + 1, birth.month, birth.day), today)
  {
    var years := today.year - birth.year;
    var m := today.month - birth.month;
    if m < 0 || (m == 0 && today.day < birth.day) then years - 1 else years
  }

  /** The age is the number of completed birthdays: never negative for a birth
      date on or before today, and one more after each anniversary. */
  lemma AgeCountsBirthdays(today: Date, birth: Date)
    ensures OnOrBefore(birth, today) ==> Age(today, birth) >= 0
    ensures Age(Date(today.year + 1, today.month, today.day), birth) == Age(today, birth) + 1
    ensures Age(Date(birth.year, birth.month, birth.day), birth) == 0
  {
  }

  /** `(given.join(" ") + " " + family).trim()` for the first name entry, else "". */
  function FullName(p: Option<Patient>): (name: string)
    ensures name == [] || (!IsSpace(name[0]) && !IsSpace(name[|name| - 1]))
  {
    if p.Some? && p.value.name.Some? && |p.value.name.value| > 0 then
      var n := p.value.name.value[0];
      var given := if n.given.Some? then Join(n.given.value, " ") else "";
      Trim(given + " " + n.family.GetOr(""))
    else ""
  }

  function GetPatientInfo(p: Option<Patient>, today: Date): (info: Info)
    ensures info.name == FullName(p)
    ensures info.gender.Some? <==> p.Some? && Truthy(p.value.gender)
    ensures info.gender.Some? ==> info.gender == p.value.gender
    ensures info.age.Some? <==> p.Some? && p.value.birthDate.Some?
    ensures info.age.Some? ==> info.age.value == Age(today, p.value.birthDate.value)
  {
    Info(
      FullName(p),
      if p.Some? && Truthy(p.value.gender) then p.value.gender else None,
      if p.Some? && p.value.birthDate.Some? then Some(Age(today, p.value.birthDate.value)) else None)
  }

  lemma TrimUnpadded(s: string)
    requires |s| > 0 && !IsSpace(s[0]) && !IsSpace(s[|s| - 1])
    ensures Trim(s) == s
  {
    assert TrimStart(s) == s;
    assert TrimEnd(s) == s;
  }

  /** One given name and a family name, neither padded with white space, give
      "given family". */
  lemma FullNameOfOneGiven(p: Patient, g: string, f: string)
    requires p.name.Some? && |p.name.value| > 0 && p.name.value[0] == HumanName(Some([g]), Some(f))
    requires |g| > 0 && !IsSpace(g[0]) && |f| > 0 && !IsSpace(f[|f| - 1])
    ensures FullName(Some(p)) == g + " " + f
  {
    var s := g + " " + f;
    assert s[0] == g[0] && s[|s| - 1] == f[|f| - 1];
    TrimUnpadded(s);
  }

  /** What the name is made of, from the first name entry: nothing without an
      entry; the trimmed family without given names; the trimmed given names,
      joined by spaces, without a family; and "given family" when the given
      names start, and the family ends, with a character that is not white space. */
  lemma FullNameCases(p: Option<Patient>)
    ensures (p.None? || p.value.name.None? || |p.value.name.value| == 0) ==> FullName(p) == ""
    ensures p.Some? && p.value.name.Some? && |p.value.name.value| > 0 ==>
      var n := p.value.name.value[0];
      var g := if n.given.Some? then Join(n.given.value, " ") else "";
      var f := n.family.GetOr("");
      (g == "" ==> FullName(p) == Trim(f))
      && (f == "" ==> FullName(p) == Trim(g))
      && (g != "" && f != "" && !IsSpace(g[0]) && !IsSpace(f[|f| - 1]) ==> FullName(p) == g + " " + f)
  {
    if p.Some? && p.value.name.Some? && |p.value.name.value| > 0 {
      var n := p.value.name.value[0];
      var g := if n.given.Some? then Join(n.given.value, " ") else "";
      var f := n.family.GetOr("");
      if g == "" {
        assert g + " " + f == " " + f;
        TrimSpaceBefore(f);
      }
      if f == "" {
        assert g + " " + f == g + " ";
        TrimSpaceAfter(g);
      }
      if g != "" && f != "" && !IsSpace(g[0]) && !IsSpace(f[|f| - 1]) {
        var s := g + " " + f;
        assert s[0] == g[0] && s[|s| - 1] == f[|f| - 1];
        TrimUnpadded(s);
      }
    }
  }

  /** Several given names are joined by single spaces: "John", "Q" and "Doe"
      give "John Q Doe". */
  lemma FullNameOfTwoGiven()
    ensures FullName(Some(Patient(Some([HumanName(Some(["John", "Q"]), Some("Doe"))]), None, None)))
      == "John Q Doe"
  {
    var p := Some(Patient(Some([HumanName(Some(["John", "Q"]), Some("Doe"))]), None, None));
    assert ["John", "Q"][1..] == ["Q"];
    assert Join(["John", "Q"], " ") == "John Q";
    FullNameCases(p);
  }
}
