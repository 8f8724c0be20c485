/**
  The vacancy record that the interactive program uses: every field is kept
  as a string, the salary is rendered into display text when it arrives as a
  mapping, and vacancies are ordered by a number read back out of that text.
*/
module Vacancy {
  import opened Wrappers
  import opened PyValues
  import Text

  /** The display text meaning "no usable salary". */
  const Unspecified: string := "Salary not specified"

  /** One normalised job posting; all four fields are strings. */
  datatype Vacancy = Vacancy(title: string, link: string, salary: string, description: string)

  /** `_validate_string`: `None` becomes the empty string, anything else its `str()`. */
  function ValidateString(x: Scalar): (r: string)
    ensures x.Null? ==> r == ""
    ensures x.Str? ==> r == x.s
    ensures x.Int? && x.i >= 0 ==> Text.AllDigits(r) && Text.DigitsValue(r) == x.i
    ensures !x.Null? ==> r == PyStr(x)
  {
    if x.Null? then "" else PyStr(x)
  }

  /**
    `_validate_salary`: a string is kept verbatim, a falsy value becomes the
    sentinel, a mapping is rendered from its `from`, `to` and `currency`
    entries. Any other truthy value has no `.get` and raises.
  */
  function ValidateSalary(salary: Value): (r: Result<string, PyError>)
    ensures salary.Atom? && salary.a.Str? ==> r == Ok(salary.a.s)
    ensures salary.Atom? && !salary.a.Str? && !ScalarTruthy(salary.a) ==> r == Ok(Unspecified)
    ensures r.Err? <==> salary.Atom? && !salary.a.Str? && ScalarTruthy(salary.a)
    ensures r.Err? ==> r.error == AttributeError
    ensures (salary.Object? && !ScalarTruthy(Get(salary.fields, "from", Null))
                             && !ScalarTruthy(Get(salary.fields, "to", Null)))
            ==> r == Ok(Unspecified)
    ensures (salary.Object? && ScalarTruthy(Get(salary.fields, "from", Null))
                             && ScalarTruthy(Get(salary.fields, "to", Null)))
            ==> r == Ok(PyStr(Get(salary.fields, "from", Null)) + "-" + PyStr(Get(salary.fields, "to", Null))
                        + " " + PyStr(Get(salary.fields, "currency", Str(""))))
    ensures (salary.Object? && ScalarTruthy(Get(salary.fields, "from", Null))
                             && !ScalarTruthy(Get(salary.fields, "to", Null)))
            ==> r == Ok("from " + PyStr(Get(salary.fields, "from", Null))
                        + " " + PyStr(Get(salary.fields, "currency", Str(""))))
    ensures (salary.Object? && !ScalarTruthy(Get(salary.fields, "from", Null))
                             && ScalarTruthy(Get(salary.fields, "to", Null)))
            ==> r == Ok("up to " + PyStr(Get(salary.fields, "to", Null))
                        + " " + PyStr(Get(salary.fields, "currency", Str(""))))
  {
    match salary
    case Atom(x) =>
      if x.Str? then Ok(x.s)
      else if !ScalarTruthy(x) then Ok(Unspecified)
      else Err(AttributeError)
    case Object(m) =>
      if |m| == 0 then Ok(Unspecified)
      else
        var from := Get(m, "from", Null);
        var to := Get(m, "to", Null);
        var currency := Get(m, "currency", Str(""));
        if ScalarTruthy(from) && ScalarTruthy(to) then
          Ok(PyStr(from) + "-" + PyStr(to) + " " + PyStr(currency))
        else if ScalarTruthy(from) then
          Ok("from " + PyStr(from) + " " + PyStr(currency))
        else if ScalarTruthy(to) then
          Ok("up to " + PyStr(to) + " " + PyStr(currency))
        else
          Ok(Unspecified)
  }

  /** `Vacancy(title, link, salary, description)`. */
  function NewVacancy(title: Scalar, link: Scalar, salary: Value, description: Scalar): (r: Result<Vacancy, PyError>)
    ensures r.Ok? <==> ValidateSalary(salary).Ok?
    ensures r.Ok? ==> r.value == Vacancy(ValidateString(title), ValidateString(link),
                                         ValidateSalary(salary).value, ValidateString(description))
  {
    var s := ValidateSalary(salary);
    if s.Err? then Err(s.error)
    else Ok(Vacancy(ValidateString(title), ValidateString(link), s.value, ValidateString(description)))
  }

  /**
    `_get_numeric_salary`: 0 for the sentinel; otherwise the largest run of
    digits in the salary text once commas are removed, or 0 when there is none.
  */
  function NumericSalary(v: Vacancy): (r: nat)
    ensures v.salary == Unspecified || Text.NoDigits(v.salary) ==> r == 0
    ensures Text.IsDigitString(v.salary) ==> r == Text.DigitsValue(v.salary)
  {
    if v.salary == Unspecified then 0
    else
      var runs := Text.DigitRuns(Text.StripCommas(v.salary));
      assert Text.NoDigits(v.salary) ==> runs == [] by {
        if Text.NoDigits(v.salary) {
          Text.StripCommasNoDigits(v.salary);
          Text.DigitRunsOfNoDigits(Text.StripCommas(v.salary));
        }
      }
      assert Text.IsDigitString(v.salary) ==> runs == [v.salary] by {
        if Text.IsDigitString(v.salary) {
          Text.DigitsHaveNoComma(v.salary);
          Text.StripCommasNoComma(v.salary);
          Text.DigitRunsOfDigitString(v.salary);
        }
      }
      Text.MaxValue(runs)
  }

  /**
    What the numeric salary means: 0 for the sentinel; otherwise no digit run
    of the comma-stripped salary text exceeds it, and it is one of those runs,
    or 0 when there are none.
  */
  lemma NumericSalaryIsLargestRun(v: Vacancy)
    ensures v.salary == Unspecified ==> NumericSalary(v) == 0
    ensures var runs := Text.DigitRuns(Text.StripCommas(v.salary));
            v.salary != Unspecified ==>
              && (forall i :: 0 <= i < |runs| ==> Text.DigitsValue(runs[i]) <= NumericSalary(v))
              && (runs == [] ==> NumericSalary(v) == 0)
              && (runs != [] ==> exists i :: 0 <= i < |runs| && NumericSalary(v) == Text.DigitsValue(runs[i]))
  {
    if v.salary != Unspecified {
      var runs := Text.DigitRuns(Text.StripCommas(v.salary));
      assert NumericSalary(v) == Text.MaxValue(runs);
    }
  }

  // The six rich comparisons: each looks at the numeric salaries only.

  predicate Lt(a: Vacancy, b: Vacancy) { NumericSalary(a) < NumericSalary(b) }
  predicate Le(a: Vacancy, b: Vacancy) { NumericSalary(a) <= NumericSalary(b) }
  predicate Gt(a: Vacancy, b: Vacancy) { NumericSalary(a) > NumericSalary(b) }
  predicate Ge(a: Vacancy, b: Vacancy) { NumericSalary(a) >= NumericSalary(b) }
  predicate Eq(a: Vacancy, b: Vacancy) { NumericSalary(a) == NumericSalary(b) }
  predicate Ne(a: Vacancy, b: Vacancy) { NumericSalary(a) != NumericSalary(b) }

  /** Exactly one of `<`, `==`, `>` holds, and the other three operators are their combinations. */
  lemma ComparisonsConsistent(a: Vacancy, b: Vacancy)
    ensures (Lt(a, b) && !Eq(a, b) && !Gt(a, b))
         || (!Lt(a, b) && Eq(a, b) && !Gt(a, b))
         || (!Lt(a, b) && !Eq(a, b) && Gt(a, b))
    ensures Le(a, b) <==> Lt(a, b) || Eq(a, b)
    ensures Ge(a, b) <==> Gt(a, b) || Eq(a, b)
    ensures Ne(a, b) <==> !Eq(a, b)
    ensures Gt(a, b) <==> Lt(b, a)
    ensures Ge(a, b) <==> Le(b, a)
  {
  }

  /** `<=` is a total preorder, so sorting by it is well defined. */
  lemma LeTotalPreorder(a: Vacancy, b: Vacancy, c: Vacancy)
    ensures Le(a, b) || Le(b, a)
    ensures Le(a, b) && Le(b, c) ==> Le(a, c)
  {
  }

  /** Equality ignores title, link and description. */
  lemma EqIgnoresOtherFields(a: Vacancy, title: string, link: string, description: string)
    ensures Eq(a, Vacancy(title, link, a.salary, description))
    ensures Eq(a, a.(title := title, link := link, description := description))
  {
  }

  /** `__str__`: the title followed by the salary in parentheses. */
  function Display(v: Vacancy): (r: string)
    ensures |r| == |v.title| + |v.salary| + 3
    ensures r[..|v.title|] == v.title
    ensures r[|v.title|..|v.title| + 2] == " ("
    ensures r[|v.title| + 2..|r| - 1] == v.salary
    ensures r[|r| - 1] == ')'
  {
    v.title + " (" + v.salary + ")"
  }

  /** The four keys `to_dict` writes and `from_dict` reads. */
  const Keys: set<string> := {"title", "link", "salary", "description"}

  /** `to_dict`: the four fields under their own names, as strings. */
  function ToDict(v: Vacancy): (d: map<string, Value>)
    ensures d.Keys == Keys
    ensures d["title"] == Atom(Str(v.title)) && d["link"] == Atom(Str(v.link))
    ensures d["salary"] == Atom(Str(v.salary)) && d["description"] == Atom(Str(v.description))
  {
    map["title" := Atom(Str(v.title)), "link" := Atom(Str(v.link)),
        "salary" := Atom(Str(v.salary)), "description" := Atom(Str(v.description))]
  }

  /**
    Entries that reach `str()` are scalars; `str()` of a mapping is outside
    this model.
  */
  predicate TextFieldsAtomic(d: map<string, Value>) {
    && ("title" in d ==> d["title"].Atom?)
    && ("link" in d ==> d["link"].Atom?)
    && ("description" in d ==> d["description"].Atom?)
  }

  /**
    `from_dict`: all four keys are required, looked up in the order title,
    link, salary, description; the values go through the constructor.
  */
  function FromDict(d: map<string, Value>): (r: Result<Vacancy, PyError>)
    requires TextFieldsAtomic(d)
    ensures "title" !in d ==> r == Err(KeyError("title"))
    ensures "title" in d && "link" !in d ==> r == Err(KeyError("link"))
    ensures "title" in d && "link" in d && "salary" !in d ==> r == Err(KeyError("salary"))
    ensures "title" in d && "link" in d && "salary" in d && "description" !in d ==> r == Err(KeyError("description"))
    ensures r.Err? && r.error.KeyError? ==> r.error.key in Keys && r.error.key !in d
    ensures r.Ok? ==> Keys <= d.Keys
    ensures Keys <= d.Keys ==> r == NewVacancy(d["title"].a, d["link"].a, d["salary"], d["description"].a)
    ensures Keys <= d.Keys && d["salary"].Atom? && !d["salary"].a.Str? && ScalarTruthy(d["salary"].a)
            ==> r == Err(AttributeError)
  {
    if "title" !in d then Err(KeyError("title"))
    else if "link" !in d then Err(KeyError("link"))
    else if "salary" !in d then Err(KeyError("salary"))
    else if "description" !in d then Err(KeyError("description"))
    else NewVacancy(d["title"].a, d["link"].a, d["salary"], d["description"].a)
  }

  /**
    Storing and reloading loses nothing: every stored field is already a
    string, and strings pass through normalisation unchanged.
  */
  lemma RoundTrip(v: Vacancy)
    ensures TextFieldsAtomic(ToDict(v))
    ensures FromDict(ToDict(v)) == Ok(v)
  {
  }

  /**
    A mapping with positive integer bounds X and Y renders as "X-Y C" and
    reads back as max(X, Y), provided the currency text has no digits.
  */
  lemma RangeSalaryNumeric(m: map<string, Scalar>, x: nat, y: nat, title: Scalar, link: Scalar, description: Scalar)
    requires Get(m, "from", Null) == Int(x) && x > 0
    requires Get(m, "to", Null) == Int(y) && y > 0
    requires Text.NoDigits(PyStr(Get(m, "currency", Str(""))))
    ensures var r := NewVacancy(title, link, Object(m), description);
            r.Ok? && NumericSalary(r.value) == Text.Max(x, y)
  {
    var dx, dy := Text.NatToDecimal(x), Text.NatToDecimal(y);
    var c := PyStr(Get(m, "currency", Str("")));
    var s := dx + "-" + dy + " " + c;
    RangeRendering(m, x, y);
    assert s[0] == dx[0];
    Text.RangeTextRuns(dx, dy, c);
    Text.MaxValuePair(dx, dy);
  }

  /** Both bounds present: the salary text is "X-Y C". */
  lemma RangeRendering(m: map<string, Scalar>, x: nat, y: nat)
    requires Get(m, "from", Null) == Int(x) && x > 0
    requires Get(m, "to", Null) == Int(y) && y > 0
    ensures ValidateSalary(Object(m))
         == Ok(Text.NatToDecimal(x) + "-" + Text.NatToDecimal(y) + " " + PyStr(Get(m, "currency", Str(""))))
  {
  }

  /** Only a positive lower bound X: "from X C" reads back as X. */
  lemma FromSalaryNumeric(m: map<string, Scalar>, x: nat, title: Scalar, link: Scalar, description: Scalar)
    requires Get(m, "from", Null) == Int(x) && x > 0
    requires !ScalarTruthy(Get(m, "to", Null))
    requires Text.NoDigits(PyStr(Get(m, "currency", Str(""))))
    ensures var r := NewVacancy(title, link, Object(m), description);
            r.Ok? && NumericSalary(r.value) == x
  {
    var dx := Text.NatToDecimal(x);
    var s := "from " + dx + " " + PyStr(Get(m, "currency", Str("")));
    assert ValidateSalary(Object(m)) == Ok(s);
    var r := NewVacancy(title, link, Object(m), description);
    assert s[0] == 'f';
    Text.LabelledTextRuns("from ", dx, PyStr(Get(m, "currency", Str(""))));
    SingleRunNumeric(r.value, dx);
  }

  /** Only a positive upper bound Y: "up to Y C" reads back as Y. */
  lemma UpToSalaryNumeric(m: map<string, Scalar>, y: nat, title: Scalar, link: Scalar, description: Scalar)
    requires !ScalarTruthy(Get(m, "from", Null))
    requires Get(m, "to", Null) == Int(y) && y > 0
    requires Text.NoDigits(PyStr(Get(m, "currency", Str(""))))
    ensures var r := NewVacancy(title, link, Object(m), description);
            r.Ok? && NumericSalary(r.value) == y
  {
    var dy := Text.NatToDecimal(y);
    var s := "up to " + dy + " " + PyStr(Get(m, "currency", Str("")));
    assert ValidateSalary(Object(m)) == Ok(s);
    var r := NewVacancy(title, link, Object(m), description);
    assert s[0] == 'u';
    Text.LabelledTextRuns("up to ", dy, PyStr(Get(m, "currency", Str(""))));
    SingleRunNumeric(r.value, dy);
  }

  /** A salary text whose only digit run is `d` reads back as `d`. */
  lemma SingleRunNumeric(v: Vacancy, d: string)
    requires v.salary != Unspecified
    requires Text.IsDigitString(d) && Text.DigitRuns(Text.StripCommas(v.salary)) == [d]
    ensures NumericSalary(v) == Text.DigitsValue(d)
  {
    assert [d][1..] == [];
  }
}
