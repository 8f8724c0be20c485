/**
  The slice of Python's value space that the vacancy code handles: JSON-like
  scalars, one level of mapping (a salary object such as
  `{"from": 100000, "to": 150000, "currency": "RUR"}`), and the exceptions the
  code can raise on them.
*/
module PyValues {
  import Text

  /** `None`, `bool`, `int` and `str`. */
  datatype Scalar = Null | Bool(b: bool) | Int(i: int) | Str(s: string)

  /** A scalar, or a mapping from string keys to scalars. */
  datatype Value = Atom(a: Scalar) | Object(fields: map<string, Scalar>)

  /** The exceptions the modelled code lets escape. */
  datatype PyError =
    | KeyError(key: string)      // `d[key]` on a dict without that key
    | AttributeError             // `.get` called on something that is not a dict
    | JsonDecodeError            // a line that `json.loads` rejects

  /** Python truthiness of a scalar: `None`, `False`, `0` and `""` are falsy. */
  predicate ScalarTruthy(x: Scalar) {
    match x
    case Null => false
    case Bool(b) => b
    case Int(i) => i != 0
    case Str(s) => s != ""
  }

  /** Python truthiness of a value: an empty mapping is falsy. */
  predicate Truthy(v: Value) {
    match v
    case Atom(x) => ScalarTruthy(x)
    case Object(m) => |m| != 0
  }

  /** `str(x)`, which is also what an f-string inserts for `x`. */
  function PyStr(x: Scalar): (r: string)
    ensures x.Str? ==> r == x.s
    ensures x.Int? && x.i >= 0 ==> Text.AllDigits(r) && Text.DigitsValue(r) == x.i
    ensures x.Int? && x.i == 0 ==> r == "0"
    ensures x.Int? && x.i > 0 ==> r[0] != '0'
    ensures x.Int? && x.i < 0 ==> |r| > 1 && r[0] == '-' && r[1] != '0'
                                  && Text.IsDigitString(r[1..]) && Text.DigitsValue(r[1..]) == -x.i
    ensures x.Null? ==> r == "None"
    ensures x.Bool? ==> r == (if x.b then "True" else "False")
  {
    match x
    case Null => "None"
    case Bool(b) => if b then "True" else "False"
    case Int(i) => Text.IntToDecimal(i)
    case Str(s) => s
  }

  /**
    A vacancy dict as the stores keep it: string keys, and values that JSON
    carries unchanged (null, booleans, integers, strings, and mappings of those).
  */
  type Record = map<string, Value>

  /** `m.get(key, default)` on a salary mapping. */
  function Get(m: map<string, Scalar>, key: string, default: Scalar): Scalar
  {
    if key in m then m[key] else default
  }
}
