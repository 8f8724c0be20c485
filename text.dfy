/**
  Character and string primitives the vacancy code relies on: ASCII decimal
  digits, decimal rendering of integers (`str(int)`), comma stripping, the
  digit runs that the regular expression `\d+` finds, the largest of them,
  lower-casing and substring search.
*/
module Text {

  predicate IsDigit(c: char) {
    '0' <= c <= '9'
  }

  /** Every character is a decimal digit (true of the empty string). */
  predicate AllDigits(s: string) {
    forall i :: 0 <= i < |s| ==> IsDigit(s[i])
  }

  /** No character is a decimal digit. */
  predicate NoDigits(s: string) {
    forall i :: 0 <= i < |s| ==> !IsDigit(s[i])
  }

  /** Python's `s.isdigit()` restricted to ASCII: non-empty and all digits. */
  predicate IsDigitString(s: string) {
    |s| > 0 && AllDigits(s)
  }

  function DigitValue(c: char): (d: nat)
    requires IsDigit(c)
    ensures d < 10
  {
    (c as int) - ('0' as int)
  }

  function DigitChar(d: nat): (c: char)
    requires d < 10
    ensures IsDigit(c) && DigitValue(c) == d
  {
    ('0' as int + d) as char
  }

  /** `int(s)` for a string of ASCII digits; leading zeros are allowed. */
  function DigitsValue(s: string): (r: nat)
    requires AllDigits(s)
    ensures |s| > 0 && s[0] != '0' ==> r > 0
  {
    if s == [] then 0 else 10 * DigitsValue(s[..|s| - 1]) + DigitValue(s[|s| - 1])
  }

  /** `int` ignores leading zeros: `int("0" + s) == int(s)`. */
  lemma {:induction false} DigitsValueLeadingZero(s: string)
    requires AllDigits(s)
    ensures DigitsValue("0" + s) == DigitsValue(s)
    decreases |s|
  {
    if s != [] {
      var p := s[..|s| - 1];
      assert ("0" + s)[..|s|] == "0" + p;
      DigitsValueLeadingZero(p);
    }
  }

  /** A digit string without a leading zero is what `str` gives back for its value. */
  lemma {:induction false} DecimalOfDigits(s: string)
    requires IsDigitString(s) && s[0] != '0'
    ensures NatToDecimal(DigitsValue(s)) == s
    decreases |s|
  {
    var p := s[..|s| - 1];
    var n := DigitsValue(s);
    if |s| > 1 {
      assert p[0] == s[0];
      DecimalOfDigits(p);
      assert n == 10 * DigitsValue(p) + DigitValue(s[|s| - 1]);
      assert n / 10 == DigitsValue(p) && n % 10 == DigitValue(s[|s| - 1]);
      assert DigitChar(n % 10) == s[|s| - 1];
      assert p + [s[|s| - 1]] == s;
    } else {
      assert p == [];
      assert DigitsValue(p) == 0;
      assert n == DigitValue(s[0]);
    }
  }

  /** `str(n)` for a non-negative integer. */
  function NatToDecimal(n: nat): (r: string)
    ensures IsDigitString(r) && DigitsValue(r) == n
    ensures n == 0 ==> r == "0"
    ensures n > 0 ==> r[0] != '0'
    decreases n
  {
    if n < 10 then
      [DigitChar(n)]
    else
      var prefix := NatToDecimal(n / 10);
      var r := prefix + [DigitChar(n % 10)];
      assert r[..|r| - 1] == prefix;
      r
  }

  /** `str(i)` for any integer: a minus sign, then the magnitude. */
  function IntToDecimal(i: int): (r: string)
    ensures i >= 0 ==> IsDigitString(r) && DigitsValue(r) == i
    ensures i < 0 ==> |r| > 1 && r[0] == '-' && IsDigitString(r[1..]) && DigitsValue(r[1..]) == -i
    ensures i == 0 ==> r == "0"
    ensures i > 0 ==> r[0] != '0'
    ensures i < 0 ==> r[1] != '0'
  {
    if i < 0 then "-" + NatToDecimal(-i) else NatToDecimal(i)
  }

  /** `s.replace(",", "")`. */
  function StripCommas(s: string): (r: string)
    ensures ',' !in r
    ensures |r| <= |s|
  {
    if s == [] then []
    else (if s[0] == ',' then [] else [s[0]]) + StripCommas(s[1..])
  }

  lemma {:induction false} StripCommasAppend(a: string, b: string)
    ensures StripCommas(a + b) == StripCommas(a) + StripCommas(b)
    decreases |a|
  {
    if a != [] {
      assert (a + b)[1..] == a[1..] + b;
      StripCommasAppend(a[1..], b);
    } else {
      assert a + b == b;
    }
  }

  /** A comma is dropped and the text on either side of it is kept. */
  lemma StripCommasDropsComma(a: string, b: string)
    ensures StripCommas(a + [','] + b) == StripCommas(a) + StripCommas(b)
  {
    var sa := StripCommas(a);
    StripCommasAppend(a + [','], b);
    StripCommasAppend(a, [',']);
    StripCommasOfComma();
    assert sa + [] == sa;
  }

  lemma StripCommasOfComma()
    ensures StripCommas([',']) == []
  {
    assert [','][1..] == [];
  }

  /** A string without commas is left as it is. */
  lemma {:induction false} StripCommasNoComma(s: string)
    requires ',' !in s
    ensures StripCommas(s) == s
    decreases |s|
  {
    if s != [] {
      StripCommasNoComma(s[1..]);
      assert [s[0]] + s[1..] == s;
    }
  }

  /** Removing commas cannot introduce a digit. */
  lemma {:induction false} StripCommasNoDigits(s: string)
    requires NoDigits(s)
    ensures NoDigits(StripCommas(s))
    decreases |s|
  {
    if s != [] {
      StripCommasNoDigits(s[1..]);
    }
  }

  /** A string of digits contains no comma. */
  lemma DigitsHaveNoComma(s: string)
    requires AllDigits(s)
    ensures ',' !in s
  {
  }

  /** The number of digits at the front of `s`. */
  function LeadingDigits(s: string): (k: nat)
    ensures k <= |s|
    ensures AllDigits(s[..k])
    ensures k < |s| ==> !IsDigit(s[k])
  {
    if s == [] || !IsDigit(s[0]) then 0
    else
      var k := 1 + LeadingDigits(s[1..]);
      assert forall j :: 1 <= j < k ==> s[..k][j] == s[1..][..k - 1][j - 1];
      k
  }

  /**
    `re.findall(r"\d+", s)`: the maximal runs of ASCII digits in `s`, from
    left to right.
  */
  function DigitRuns(s: string): (runs: seq<string>)
    ensures forall i :: 0 <= i < |runs| ==> IsDigitString(runs[i])
    decreases |s|
  {
    if s == [] then []
    else if !IsDigit(s[0]) then DigitRuns(s[1..])
    else
      var k := LeadingDigits(s);
      [s[..k]] + DigitRuns(s[k..])
  }

  /** `"".join(ss)`. */
  function Concat(ss: seq<string>): string {
    if ss == [] then "" else ss[0] + Concat(ss[1..])
  }

  /** The digits of `s` in order, everything else dropped. */
  function KeepDigits(s: string): string {
    if s == [] then ""
    else (if IsDigit(s[0]) then [s[0]] else []) + KeepDigits(s[1..])
  }

  lemma {:induction false} KeepDigitsAppend(a: string, b: string)
    ensures KeepDigits(a + b) == KeepDigits(a) + KeepDigits(b)
    decreases |a|
  {
    if a != [] {
      assert (a + b)[1..] == a[1..] + b;
      KeepDigitsAppend(a[1..], b);
    } else {
      assert a + b == b;
    }
  }

  lemma {:induction false} KeepDigitsOfDigits(s: string)
    requires AllDigits(s)
    ensures KeepDigits(s) == s
    decreases |s|
  {
    if s != [] {
      KeepDigitsOfDigits(s[1..]);
      assert [s[0]] + s[1..] == s;
    }
  }

  /**
    The runs found by `\d+` lose nothing and invent nothing: put back
    together they are exactly the digits of the string.
  */
  lemma {:induction false} DigitRunsCoverDigits(s: string)
    ensures Concat(DigitRuns(s)) == KeepDigits(s)
    decreases |s|
  {
    if s == [] {
    } else if !IsDigit(s[0]) {
      DigitRunsCoverDigits(s[1..]);
    } else {
      var k := LeadingDigits(s);
      var runs := DigitRuns(s);
      assert runs == [s[..k]] + DigitRuns(s[k..]);
      assert runs[1..] == DigitRuns(s[k..]);
      DigitRunsCoverDigits(s[k..]);
      assert s == s[..k] + s[k..];
      KeepDigitsAppend(s[..k], s[k..]);
      KeepDigitsOfDigits(s[..k]);
    }
  }

  /** A string without digits has no digit runs. */
  lemma {:induction false} DigitRunsOfNoDigits(s: string)
    requires NoDigits(s)
    ensures DigitRuns(s) == []
    decreases |s|
  {
    if s != [] {
      DigitRunsOfNoDigits(s[1..]);
    }
  }

  /** A non-empty string of digits is one run. */
  lemma DigitRunsOfDigitString(s: string)
    requires IsDigitString(s)
    ensures DigitRuns(s) == [s]
  {
    var k := LeadingDigits(s);
    assert k == |s|;
    assert s[k..] == [];
    assert s[..k] == s;
  }

  lemma {:induction false} LeadingDigitsStop(a: string, c: char, b: string)
    requires !IsDigit(c)
    ensures LeadingDigits(a + [c] + b) == LeadingDigits(a)
    decreases |a|
  {
    if a != [] && IsDigit(a[0]) {
      assert (a + [c] + b)[1..] == a[1..] + [c] + b;
      LeadingDigitsStop(a[1..], c, b);
    }
  }

  /** A non-digit separates runs: no run reaches across it. */
  lemma {:induction false} DigitRunsSplit(a: string, c: char, b: string)
    requires !IsDigit(c)
    ensures DigitRuns(a + [c] + b) == DigitRuns(a) + DigitRuns(b)
    decreases |a|
  {
    var s := a + [c] + b;
    if a == [] {
      assert s[1..] == b;
    } else if !IsDigit(a[0]) {
      assert s[1..] == a[1..] + [c] + b;
      DigitRunsSplit(a[1..], c, b);
    } else {
      var k := LeadingDigits(a);
      LeadingDigitsStop(a, c, b);
      assert s[..k] == a[..k];
      assert s[k..] == a[k..] + [c] + b;
      DigitRunsSplit(a[k..], c, b);
    }
  }

  /** Digit-free text in front contributes no run. */
  lemma {:induction false} DigitRunsSkip(prefix: string, rest: string)
    requires NoDigits(prefix)
    ensures DigitRuns(prefix + rest) == DigitRuns(rest)
    decreases |prefix|
  {
    if prefix != [] {
      assert (prefix + rest)[1..] == prefix[1..] + rest;
      DigitRunsSkip(prefix[1..], rest);
    } else {
      assert prefix + rest == rest;
    }
  }

  /** Commas are removed only where they are: a comma-free head is kept. */
  lemma StripCommasAfter(head: string, c: string)
    requires ',' !in head
    ensures StripCommas(head + c) == head + StripCommas(c)
  {
    StripCommasNoComma(head);
    StripCommasAppend(head, c);
  }

  /** The runs of "X-Y C" are X and Y when C has no digits. */
  lemma RangeRuns(dx: string, dy: string, c: string)
    requires IsDigitString(dx) && IsDigitString(dy) && NoDigits(c)
    ensures DigitRuns(dx + "-" + dy + " " + c) == [dx, dy]
  {
    var rest := dy + [' '] + c;
    assert dx + "-" + dy + " " + c == dx + ['-'] + rest;
    DigitRunsSplit(dx, '-', rest);
    DigitRunsSplit(dy, ' ', c);
    DigitRunsOfDigitString(dx);
    DigitRunsOfDigitString(dy);
    DigitRunsOfNoDigits(c);
  }

  /** The runs of "X-Y C" are X and Y, once commas are stripped. */
  lemma RangeTextRuns(dx: string, dy: string, c: string)
    requires IsDigitString(dx) && IsDigitString(dy) && NoDigits(c)
    ensures DigitRuns(StripCommas(dx + "-" + dy + " " + c)) == [dx, dy]
  {
    DigitsHaveNoComma(dx);
    DigitsHaveNoComma(dy);
    CommaFreeAppend(dx, "-");
    CommaFreeAppend(dx + "-", dy);
    CommaFreeAppend(dx + "-" + dy, " ");
    StripCommasAfter(dx + "-" + dy + " ", c);
    StripCommasNoDigits(c);
    RangeRuns(dx, dy, StripCommas(c));
  }

  /** The runs of "L X C", for digit-free L and C, are just X. */
  lemma LabelledRuns(prefix: string, d: string, c: string)
    requires NoDigits(prefix) && IsDigitString(d) && NoDigits(c)
    ensures DigitRuns(prefix + d + " " + c) == [d]
  {
    var tail := d + [' '] + c;
    assert prefix + d + " " + c == prefix + tail;
    DigitRunsSkip(prefix, tail);
    DigitRunsSplit(d, ' ', c);
    DigitRunsOfDigitString(d);
    DigitRunsOfNoDigits(c);
  }

  /** The runs of "L X C", for digit- and comma-free L and C, are just X. */
  lemma LabelledTextRuns(prefix: string, d: string, c: string)
    requires NoDigits(prefix) && ',' !in prefix && IsDigitString(d) && NoDigits(c)
    ensures DigitRuns(StripCommas(prefix + d + " " + c)) == [d]
  {
    DigitsHaveNoComma(d);
    CommaFreeAppend(prefix, d);
    CommaFreeAppend(prefix + d, " ");
    StripCommasAfter(prefix + d + " ", c);
    StripCommasNoDigits(c);
    LabelledRuns(prefix, d, StripCommas(c));
  }

  /** Joining two comma-free texts gives a comma-free text. */
  lemma CommaFreeAppend(a: string, b: string)
    requires ',' !in a && ',' !in b
    ensures ',' !in a + b
  {
    var s := a + b;
    forall i | 0 <= i < |s|
      ensures s[i] != ','
    {
      if i < |a| {
        assert s[i] == a[i];
      } else {
        assert s[i] == b[i - |a|];
      }
    }
  }

  function Max(a: nat, b: nat): nat {
    if a < b then b else a
  }

  /** `max(map(int, runs))`, and 0 when there are no runs. */
  function MaxValue(runs: seq<string>): (m: nat)
    requires forall i :: 0 <= i < |runs| ==> AllDigits(runs[i])
    ensures forall i :: 0 <= i < |runs| ==> DigitsValue(runs[i]) <= m
    ensures runs == [] ==> m == 0
    ensures runs != [] ==> exists i :: 0 <= i < |runs| && m == DigitsValue(runs[i])
  {
    if runs == [] then 0
    else
      var rest := MaxValue(runs[1..]);
      assert forall i :: 1 <= i < |runs| ==> runs[i] == runs[1..][i - 1];
      Max(DigitsValue(runs[0]), rest)
  }

  /** The larger of two runs. */
  lemma MaxValuePair(a: string, b: string)
    requires AllDigits(a) && AllDigits(b)
    ensures MaxValue([a, b]) == Max(DigitsValue(a), DigitsValue(b))
  {
    assert [a, b][1..] == [b];
    assert [b][1..] == [];
  }

  /**
    Python's `str.lower()` on the characters the job texts use: the ASCII
    capitals and the capitals of the Cyrillic blocks U+0400-U+052F map to
    their small letters, everything else is kept.
  */
  function LowerChar(c: char): char {
    var n := c as int;
    if 'A' <= c <= 'Z' then (n + 32) as char
    else if 0x0410 <= n <= 0x042F then (n + 32) as char   // А..Я
    else if 0x0400 <= n <= 0x040F then (n + 80) as char   // Ѐ..Џ
    else if n == 0x04C0 then 0x04CF as char               // Ӏ
    else if 0x04C1 <= n <= 0x04CE && n % 2 == 1 then (n + 1) as char   // Ӂ..Ӎ, capital first at odd points
    else if (0x0460 <= n <= 0x0481 || 0x048A <= n <= 0x04BF || 0x04D0 <= n <= 0x052F) && n % 2 == 0
    then (n + 1) as char                                  // Ѡ, Ґ, Ӑ, Ԁ ...: capital first at even points
    else c
  }

  function Lower(s: string): (r: string)
    ensures |r| == |s|
    ensures forall i :: 0 <= i < |s| ==> r[i] == LowerChar(s[i])
  {
    if s == [] then "" else [LowerChar(s[0])] + Lower(s[1..])
  }

  /** `sub` occurs in `s` starting at index `i`. */
  predicate OccursAt(s: string, sub: string, i: int) {
    0 <= i <= |s| - |sub| && s[i..i + |sub|] == sub
  }

  /** Python's `sub in s` for strings. */
  predicate Contains(s: string, sub: string) {
    exists i | 0 <= i <= |s| :: OccursAt(s, sub, i)
  }
}
