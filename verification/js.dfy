/** The few JavaScript value conversions the inventory code leans on:
    truthiness, `String(v)`, `Number(v)`, `parseInt(s)`, `Math.max(...)`, and the
    `x || default` idiom. Numbers are integers; NaN and -Infinity are explicit
    because `Math.max` and `parseInt` produce them. */
module Js {
  import opened Text

  /** A dynamically typed value, as it comes out of a spreadsheet cell or a JSON record. */
  datatype Value = Undefined | Null | Bool(b: bool) | Int(i: int) | Str(s: string)

  /** A JavaScript number as far as this model needs one. */
  datatype Number = Finite(v: int) | NaN | NegInfinity

  predicate IsDigit(c: char)
  {
    '0' <= c <= '9'
  }

  predicate AllDigits(s: string)
  {
    forall i | 0 <= i < |s| :: IsDigit(s[i])
  }

  function DigitChar(d: nat): (c: char)
    requires d < 10
    ensures IsDigit(c)
  {
    ('0' as int + d) as char
  }

  function DigitValue(c: char): (d: nat)
    requires IsDigit(c)
    ensures d < 10 && DigitChar(d) == c
  {
    c as int - '0' as int
  }

  /** Decimal digits of `n`, most significant first, without leading zeros. */
  function DigitsOf(n: nat): (r: string)
    ensures |r| > 0 && AllDigits(r)
    ensures |r| > 1 ==> r[0] != '0'
    decreases n
  {
    if n < 10 then [DigitChar(n)] else DigitsOf(n / 10) + [DigitChar(n % 10)]
  }

  /** The value of a string of decimal digits. */
  function DigitsValue(s: string): nat
    requires AllDigits(s)
  {
    if |s| == 0 then 0 else DigitsValue(s[..|s| - 1]) * 10 + DigitValue(s[|s| - 1])
  }

  lemma {:induction false} DigitsRoundTrip(n: nat)
    ensures DigitsValue(DigitsOf(n)) == n
    decreases n
  {
    if n >= 10 {
      DigitsRoundTrip(n / 10);
      var d := DigitsOf(n);
      assert d[..|d| - 1] == DigitsOf(n / 10);
    }
  }

  /** `String(n)` for an integer. */
  function Show(n: int): (r: string)
    ensures |r| > 0
    ensures IsDigit(r[0]) || r[0] == '-'
    ensures forall i | 0 < i < |r| :: IsDigit(r[i])
  {
    if n < 0 then "-" + DigitsOf(-n) else DigitsOf(n)
  }

  /** The longest prefix of `s` made of decimal digits. */
  function LeadingDigits(s: string): (r: string)
    ensures IsPrefix(r, s) && AllDigits(r)
    ensures |r| == |s| || !IsDigit(s[|r|])
  {
    if |s| == 0 || !IsDigit(s[0]) then [] else [s[0]] + LeadingDigits(s[1..])
  }

  /** `parseInt(s)` in base 10: an optional sign, then as many digits as follow;
      NaN when no digit follows. */
  function ParseInt(s: string): (r: Number)
    ensures r != NegInfinity
    ensures |s| == 0 ==> r == NaN
    ensures |s| > 0 && IsDigit(s[0]) ==> r.Finite? && r.v >= 0
    ensures |s| > 0 && !IsDigit(s[0]) && s[0] != '-' && s[0] != '+' ==> r == NaN
  {
    var signed := |s| > 0 && (s[0] == '-' || s[0] == '+');
    var body := if signed then s[1..] else s;
    var digits := LeadingDigits(body);
    if |digits| == 0 then NaN
    else if signed && s[0] == '-' then Finite(-(DigitsValue(digits) as int))
    else Finite(DigitsValue(digits))
  }

  /** Reading back the text of an integer yields that integer. */
  lemma ParseIntShow(n: int)
    ensures ParseInt(Show(n)) == Finite(n)
  {
    var m := if n < 0 then -n else n;
    DigitsRoundTrip(m);
    assert LeadingDigits(DigitsOf(m)) == DigitsOf(m) by {
      LeadingDigitsAll(DigitsOf(m));
    }
    if n < 0 {
      assert Show(n)[1..] == DigitsOf(m);
    }
  }

  lemma {:induction false} LeadingDigitsAll(s: string)
    requires AllDigits(s)
    ensures LeadingDigits(s) == s
    decreases |s|
  {
    if |s| > 0 {
      LeadingDigitsAll(s[1..]);
    }
  }

  /** Different integers have different texts. */
  lemma ShowInjective(a: int, b: int)
    requires Show(a) == Show(b)
    ensures a == b
  {
    ParseIntShow(a);
    ParseIntShow(b);
  }

  /** `Number(s)` for a string holding an integer, possibly signed; a blank string
      is 0 and anything else is NaN. */
  function ParseNumber(s: string): (r: Number)
    ensures r != NegInfinity
    ensures IsBlank(s) ==> r == Finite(0)
  {
    if IsBlank(s) then Finite(0)
    else
      var signed := s[0] == '-' || s[0] == '+';
      var body := if signed then s[1..] else s;
      if |body| == 0 || !AllDigits(body) then NaN
      else if s[0] == '-' then Finite(-(DigitsValue(body) as int))
      else Finite(DigitsValue(body))
  }

  /** `Math.max(a, b)`: NaN if either is NaN; -Infinity is the identity. */
  function Max(a: Number, b: Number): (r: Number)
    ensures r.NaN? <==> a.NaN? || b.NaN?
    ensures r.NegInfinity? <==> a.NegInfinity? && b.NegInfinity?
    ensures r.Finite? ==> (r == a || r == b)
    ensures r.Finite? ==> (a.Finite? ==> a.v <= r.v) && (b.Finite? ==> b.v <= r.v)
  {
    match (a, b)
    case (NaN, _) => NaN
    case (_, NaN) => NaN
    case (NegInfinity, _) => b
    case (_, NegInfinity) => a
    case (Finite(x), Finite(y)) => if x < y then b else a
  }

  /** `Math.max(...ns)`. */
  function MaxOf(ns: seq<Number>): (r: Number)
    ensures r.NaN? <==> NaN in ns
    ensures r.NegInfinity? <==> forall i | 0 <= i < |ns| :: ns[i].NegInfinity?
    ensures r.Finite? ==> r in ns
    ensures r.Finite? ==> forall i | 0 <= i < |ns| && ns[i].Finite? :: ns[i].v <= r.v
  {
    if |ns| == 0 then NegInfinity
    else
      var init := ns[..|ns| - 1];
      assert ns == init + [ns[|ns| - 1]];
      Max(MaxOf(init), ns[|ns| - 1])
  }

  /** `n + k`: NaN and -Infinity absorb any finite addend. */
  function Plus(n: Number, k: int): (r: Number)
    ensures r.Finite? <==> n.Finite?
    ensures r.Finite? ==> r.v == n.v + k
    ensures !n.Finite? ==> r == n
  {
    if n.Finite? then Finite(n.v + k) else n
  }

  /** `String(n)` / `n.toString()`. */
  function NumberText(n: Number): string
  {
    match n
    case Finite(v) => Show(v)
    case NaN => "NaN"
    case NegInfinity => "-Infinity"
  }

  /** `!!v`. */
  predicate Truthy(v: Value)
  {
    match v
    case Undefined => false
    case Null => false
    case Bool(b) => b
    case Int(i) => i != 0
    case Str(s) => s != ""
  }

  /** `String(v)`. */
  function ToText(v: Value): (r: string)
    ensures Truthy(v) ==> r != ""
    ensures v.Str? ==> r == v.s
    ensures v.Int? ==> ParseInt(r) == Finite(v.i)
  {
    match v
    case Undefined => "undefined"
    case Null => "null"
    case Bool(b) => if b then "true" else "false"
    case Int(i) => ParseIntShow(i); Show(i)
    case Str(s) => s
  }

  /** `Number(v)`. */
  function ToNumber(v: Value): (r: Number)
    ensures r != NegInfinity
    ensures v.Int? ==> r == Finite(v.i)
    ensures v == Undefined ==> r == NaN
    ensures v.Str? && IsBlank(v.s) ==> r == Finite(0)
  {
    match v
    case Undefined => NaN
    case Null => Finite(0)
    case Bool(b) => Finite(if b then 1 else 0)
    case Int(i) => Finite(i)
    case Str(s) => ParseNumber(s)
  }

  /** `Number(String(n))` is `n`: a number written to a cell as text reads back
      as that number. */
  lemma NumberShow(n: int)
    ensures ToNumber(Str(Show(n))) == Finite(n)
  {
    var m := if n < 0 then -n else n;
    DigitsRoundTrip(m);
    assert !IsBlank(Show(n)) by {
      assert !IsSpace(Show(n)[0]);
    }
    if n < 0 {
      assert Show(n)[1..] == DigitsOf(m);
    }
  }

  /** `Number(v) || d`: the numeric value unless it is NaN or zero, which fall back to `d`. */
  function NumberOr(v: Value, d: int): (r: int)
    ensures ToNumber(v).Finite? && ToNumber(v).v != 0 ==> r == ToNumber(v).v
    ensures !(ToNumber(v).Finite? && ToNumber(v).v != 0) ==> r == d
    ensures r == d || ToNumber(v) == Finite(r)
    ensures d != 0 ==> r != 0
  {
    var n := ToNumber(v);
    if n.Finite? && n.v != 0 then n.v else d
  }

  /** `v || d` where `d` is a string and the result is used as text. */
  function TextOr(v: Value, d: string): (r: string)
    ensures Truthy(v) ==> r == ToText(v)
    ensures !Truthy(v) ==> r == d
    ensures r == d || r == ToText(v)
    ensures d == "" ==> (r != "" <==> Truthy(v))
  {
    if Truthy(v) then ToText(v) else d
  }
}
