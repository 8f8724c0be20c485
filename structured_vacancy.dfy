/**
  The second vacancy record: fields are stored exactly as given and the salary
  stays a mapping; the numeric salary is optional and comes from the mapping's
  `from` entry alone.
*/
module StructuredVacancy {
  import opened Wrappers
  import opened PyValues
  import Text

  /** The constructor assigns the four arguments unchanged, so the record is just its fields. */
  datatype Vacancy = Vacancy(name: Value, url: Value, salary: Value, description: Value)

  /**
    `_get_numeric_salary`: `None` unless the salary is truthy and its `from`
    entry is an integer (returned as is; `bool` counts as `int` in Python) or
    a non-empty string of digits (returned as its value). The `to` entry is
    never looked at. A truthy salary that is not a mapping has no `.get`.
  */
  function NumericSalary(v: Vacancy): (r: Result<Option<int>, PyError>)
    ensures !Truthy(v.salary) ==> r == Ok(None)
    ensures r.Err? <==> Truthy(v.salary) && v.salary.Atom?
    ensures r.Err? ==> r.error == AttributeError
    ensures r.Ok? && r.value.Some? ==>
              && v.salary.Object? && "from" in v.salary.fields
              && (var from := v.salary.fields["from"];
                  || (from.Int? && r.value.value == from.i)
                  || (from.Bool? && r.value.value == (if from.b then 1 else 0))
                  || (from.Str? && Text.IsDigitString(from.s) && r.value.value == Text.DigitsValue(from.s)))
    ensures v.salary.Object? && "from" in v.salary.fields && v.salary.fields["from"].Int?
            ==> r == Ok(Some(v.salary.fields["from"].i))
    ensures v.salary.Object? && "from" in v.salary.fields && v.salary.fields["from"].Bool?
            ==> r == Ok(Some(if v.salary.fields["from"].b then 1 else 0))
    ensures v.salary.Object? && "from" in v.salary.fields && v.salary.fields["from"].Str?
            ==> (r.value.Some? <==> Text.IsDigitString(v.salary.fields["from"].s))
  {
    if !Truthy(v.salary) then Ok(None)
    else
      match v.salary
      case Atom(_) => Err(AttributeError)
      case Object(m) =>
        var from := Get(m, "from", Null);
        if from.Str? && Text.IsDigitString(from.s) then Ok(Some(Text.DigitsValue(from.s)))
        else if from.Int? then Ok(Some(from.i))
        else if from.Bool? then Ok(Some(if from.b then 1 else 0))
        else Ok(None)
  }

  /** The upper bound plays no part: adding, changing or removing `to` leaves the result alone. */
  lemma NumericSalaryIgnoresTo(v: Vacancy, m: map<string, Scalar>, to: Scalar)
    requires v.salary == Object(m)
    ensures NumericSalary(v.(salary := Object(m["to" := to]))) == NumericSalary(v)
    ensures NumericSalary(v.(salary := Object(m - {"to"}))) == NumericSalary(v)
  {
  }

  /** A lower bound written as digits and the same bound as an integer give the same number. */
  lemma {:induction false} DigitStringAgreesWithInt(v: Vacancy, n: nat)
    requires v.salary == Object(map["from" := Str(Text.NatToDecimal(n))])
    ensures NumericSalary(v) == Ok(Some(n))
    ensures NumericSalary(v.(salary := Object(map["from" := Int(n)]))) == Ok(Some(n))
  {
    assert Text.NatToDecimal(n) != "";
  }

  /**
    Strings that are not all digits give no number, e.g. "", "-5" and "1,000":
    worked instances of the string clause of `NumericSalary`'s contract.
  */
  lemma NonDigitStringsGiveNone(v: Vacancy)
    requires v.salary.Object? && "from" in v.salary.fields
    requires v.salary.fields["from"] in {Str(""), Str("-5"), Str("1,000")}
    ensures NumericSalary(v) == Ok(None)
  {
    var s := v.salary.fields["from"].s;
    assert s == "" || !Text.IsDigit(s[0]) || !Text.IsDigit(s[1]);
  }

  /** `to_dict`: exactly the four keys, holding the stored values. */
  function ToDict(v: Vacancy): (d: map<string, Value>)
    ensures d.Keys == {"name", "url", "salary", "description"}
    ensures d["name"] == v.name && d["url"] == v.url
    ensures d["salary"] == v.salary && d["description"] == v.description
  {
    map["name" := v.name, "url" := v.url, "salary" := v.salary, "description" := v.description]
  }

  /** The placeholders `from_dict` uses for a missing name and description. */
  const UnknownName: string := "Неизвестно"
  const NoDescription: string := "Нет описания"

  /** `from_dict`: every key is optional and falls back to a default. */
  function FromDict(d: map<string, Value>): (v: Vacancy)
    ensures "name" in d ==> v.name == d["name"]
    ensures "name" !in d ==> v.name == Atom(Str(UnknownName))
    ensures "url" in d ==> v.url == d["url"]
    ensures "url" !in d ==> v.url == Atom(Str(""))
    ensures "salary" in d ==> v.salary == d["salary"]
    ensures "salary" !in d ==> v.salary == Atom(Null)
    ensures "description" in d ==> v.description == d["description"]
    ensures "description" !in d ==> v.description == Atom(Str(NoDescription))
  {
    Vacancy(
      if "name" in d then d["name"] else Atom(Str(UnknownName)),
      if "url" in d then d["url"] else Atom(Str("")),
      if "salary" in d then d["salary"] else Atom(Null),
      if "description" in d then d["description"] else Atom(Str(NoDescription)))
  }

  /** Converting to a dict and back gives the same vacancy. */
  lemma RoundTrip(v: Vacancy)
    ensures FromDict(ToDict(v)) == v
  {
  }

  /** A dict with no salary entry, or with `None` there, has no numeric salary. */
  lemma MissingSalaryGivesNone(d: map<string, Value>)
    requires "salary" !in d || d["salary"] == Atom(Null)
    ensures NumericSalary(FromDict(d)) == Ok(None)
  {
  }
}
