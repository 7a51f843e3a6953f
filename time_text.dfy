/**
 * The pieces of text formatting the time string relies on: `%d` and `%02d`
 * for non-negative numbers, fields joined and split on ':', and the decimal
 * reading that undoes them.
 */
module TimeText {
  import opened Wrappers

  predicate IsDigit(c: char) {
    '0' <= c <= '9'
  }

  predicate AllDigits(s: string) {
    forall i :: 0 <= i < |s| ==> IsDigit(s[i])
  }

  function DigitChar(d: nat): (c: char)
    requires d < 10
    ensures IsDigit(c)
  {
    ('0' as int + d) as char
  }

  function DigitValue(c: char): (d: nat)
    requires IsDigit(c)
    ensures d < 10
  {
    c as int - '0' as int
  }

  /** `%d` of a non-negative number: its decimal digits, without leading zeros. */
  function Decimal(n: nat): (s: string)
    ensures AllDigits(s) && |s| >= 1
    ensures |s| == 1 <==> n < 10
    ensures |s| > 1 ==> s[0] != '0'
  {
    if n < 10 then [DigitChar(n)] else Decimal(n / 10) + [DigitChar(n % 10)]
  }

  /** `%02d` of a non-negative number: at least two digits, padded with a leading zero. */
  function Pad2(n: nat): (s: string)
    ensures AllDigits(s) && |s| >= 2
    ensures n < 100 ==> |s| == 2
  {
    if n < 10 then "0" + Decimal(n) else Decimal(n)
  }

  /** The number a string of decimal digits denotes (0 for the empty string). */
  function DigitsValue(s: string): nat
    requires AllDigits(s)
  {
    if s == [] then 0 else DigitsValue(s[..|s| - 1]) * 10 + DigitValue(s[|s| - 1])
  }

  /** Reads a non-empty string of decimal digits; anything else is refused. */
  function ParseDecimal(s: string): (r: Option<nat>)
    ensures r.Some? <==> |s| >= 1 && AllDigits(s)
  {
    if s != [] && AllDigits(s) then Some(DigitsValue(s)) else None
  }

  lemma {:induction false} DecimalRoundTrip(n: nat)
    ensures ParseDecimal(Decimal(n)) == Some(n)
    decreases n
  {
    var s := Decimal(n);
    if n < 10 {
      assert s[..0] == [];
      assert DigitsValue(s) == DigitValue(DigitChar(n)) == n;
    } else {
      DecimalRoundTrip(n / 10);
      assert s[..|s| - 1] == Decimal(n / 10);
      assert DigitValue(s[|s| - 1]) == n % 10;
      assert DigitsValue(s) == (n / 10) * 10 + n % 10 == n;
    }
  }

  lemma {:induction false} LeadingZero(s: string)
    requires AllDigits(s)
    ensures AllDigits("0" + s) && DigitsValue("0" + s) == DigitsValue(s)
  {
    if s != [] {
      var t := "0" + s;
      assert t[..|t| - 1] == "0" + s[..|s| - 1];
      LeadingZero(s[..|s| - 1]);
    }
  }

  lemma Pad2RoundTrip(n: nat)
    ensures ParseDecimal(Pad2(n)) == Some(n)
  {
    DecimalRoundTrip(n);
    if n < 10 {
      LeadingZero(Decimal(n));
    }
  }

  /** Fields separated by ':', as a format string such as "%d:%02d" lays them out. */
  function Join(fields: seq<string>): (s: string)
    requires |fields| >= 1
  {
    if |fields| == 1 then fields[0] else fields[0] + ":" + Join(fields[1..])
  }

  lemma JoinTwo(a: string, b: string)
    ensures Join([a, b]) == a + ":" + b
  {
    assert [a, b][1..] == [b];
  }

  lemma JoinThree(a: string, b: string, c: string)
    ensures Join([a, b, c]) == a + ":" + b + ":" + c
  {
    assert [a, b, c][1..] == [b, c];
    JoinTwo(b, c);
  }

  lemma JoinFour(a: string, b: string, c: string, d: string)
    ensures Join([a, b, c, d]) == a + ":" + b + ":" + c + ":" + d
  {
    assert [a, b, c, d][1..] == [b, c, d];
    JoinThree(b, c, d);
  }

  /** The ':'-separated fields of a string (one empty field for the empty string). */
  function Split(s: string): (fields: seq<string>)
    ensures |fields| >= 1
  {
    if s == [] then [""]
    else if s[0] == ':' then [""] + Split(s[1..])
    else
      var rest := Split(s[1..]);
      [[s[0]] + rest[0]] + rest[1..]
  }

  lemma {:induction false} SplitNoColon(f: string)
    requires ':' !in f
    ensures Split(f) == [f]
  {
    if f != [] {
      SplitNoColon(f[1..]);
      assert [f[0]] + f[1..] == f;
    }
  }

  lemma {:induction false} SplitColon(f: string, t: string)
    requires ':' !in f
    ensures Split(f + ":" + t) == [f] + Split(t)
  {
    var s := f + ":" + t;
    if f == [] {
      assert s == ":" + t && s[1..] == t;
    } else {
      assert s[0] == f[0] && s[1..] == f[1..] + ":" + t;
      SplitColon(f[1..], t);
      assert [f[0]] + f[1..] == f;
    }
  }

  lemma {:induction false} SplitJoin(fields: seq<string>)
    requires |fields| >= 1
    requires forall i :: 0 <= i < |fields| ==> ':' !in fields[i]
    ensures Split(Join(fields)) == fields
  {
    if |fields| == 1 {
      SplitNoColon(fields[0]);
      assert fields == [fields[0]];
    } else {
      SplitJoin(fields[1..]);
      SplitColon(fields[0], Join(fields[1..]));
      assert fields == [fields[0]] + fields[1..];
    }
  }

  lemma DigitsHaveNoColon(s: string)
    requires AllDigits(s)
    ensures ':' !in s
  {
  }

  /** Reads every field as a decimal number; fails if any field is not one. */
  function ParseFields(fields: seq<string>): (r: Option<seq<nat>>)
    ensures r.Some? ==> |r.value| == |fields|
  {
    if fields == [] then Some([])
    else
      match ParseDecimal(fields[0])
      case None => None
      case Some(v) =>
        match ParseFields(fields[1..])
        case None => None
        case Some(vs) => Some([v] + vs)
  }

  lemma {:induction false} ParseFieldsOf(fields: seq<string>, values: seq<nat>)
    requires |fields| == |values|
    requires forall i :: 0 <= i < |fields| ==> ParseDecimal(fields[i]) == Some(values[i])
    ensures ParseFields(fields) == Some(values)
  {
    if fields != [] {
      ParseFieldsOf(fields[1..], values[1..]);
      assert values == [values[0]] + values[1..];
    }
  }

  /**
   * The number of seconds a clock reading denotes: "m:s", "h:m:s" or
   * "d:h:m:s", with 24 hours to a day and 60 to the other units.
   */
  function ClockSeconds(values: seq<nat>): nat
    requires 2 <= |values| <= 4
  {
    if |values| == 2 then values[0] * 60 + values[1]
    else if |values| == 3 then (values[0] * 60 + values[1]) * 60 + values[2]
    else ((values[0] * 24 + values[1]) * 60 + values[2]) * 60 + values[3]
  }

  /** Reads a clock string of two to four ':'-separated decimal fields back into seconds. */
  function ParseClock(s: string): Option<nat>
  {
    var fields := Split(s);
    if |fields| < 2 || |fields| > 4 then None
    else
      match ParseFields(fields)
      case None => None
      case Some(values) => Some(ClockSeconds(values))
  }
}
