/** JavaScript values as the two services see them in records, and the
    coercions the services apply to them: truthiness and `||`, `parseInt`,
    the numeric conversion behind `>=`, and `===`. */
module Js {

  datatype Option<T> = None | Some(value: T)

  /** A field value. `Ref(id)` is a lookup object `{Id, Name}` that the
      backend returns for a reference column; only its `Id` matters to the
      services. Numbers are integers; `NaN` is what a failed `parseInt` gives. */
  datatype Value = Undefined | Null | Bool(b: bool) | Num(n: int) | NaN | Str(s: string) | Ref(id: int)

  const Empty: Value := Str("")

  predicate Truthy(v: Value) {
    match v
    case Undefined => false
    case Null => false
    case Bool(b) => b
    case Num(n) => n != 0
    case NaN => false
    case Str(s) => s != ""
    case Ref(_) => true
  }

  /** `a || b`: the first operand when it is truthy, else the second. */
  function Or(a: Value, b: Value): (r: Value)
    ensures r == a || r == b
    ensures Truthy(r) <==> Truthy(a) || Truthy(b)
    ensures !Truthy(b) && r == b ==> !Truthy(a)
    ensures Truthy(a) ==> r == a
    ensures !Truthy(a) ==> r == b
  {
    if Truthy(a) then a else b
  }

  /** A column of a record under construction after
      `if (given !== undefined) record.column = written`. */
  function IfGiven(given: Value, written: Value, current: Value): (r: Value)
    ensures given != Undefined ==> r == written
    ensures given == Undefined ==> r == current
  {
    if given != Undefined then written else current
  }

  /** `a === b`. Primitives compare by value and NaN equals nothing. Objects
      compare by identity, and a lookup object read from a record is a
      fresh object, the same object as no value the services compare it
      with; so a lookup object equals nothing either. */
  predicate StrictEquals(a: Value, b: Value): (r: bool)
    ensures r ==> a == b
    ensures a == b && (a == Undefined || a == Null || a.Bool? || a.Num? || a.Str?) ==> r
    ensures a == NaN || b == NaN || a.Ref? || b.Ref? ==> !r
  {
    a == b && a != NaN && !a.Ref?
  }

  predicate IsDigit(c: char) {
    '0' <= c <= '9'
  }

  predicate AllDigits(s: string) {
    forall i :: 0 <= i < |s| ==> IsDigit(s[i])
  }

  function DigitChar(d: nat): (c: char)
    requires d < 10
    ensures IsDigit(c) && (c as int) - ('0' as int) == d
  {
    (('0' as int) + d) as char
  }

  /** The value of a string of decimal digits, most significant first. */
  function DigitsValue(ds: string): nat
    requires AllDigits(ds)
  {
    if ds == [] then 0
    else 10 * DigitsValue(ds[..|ds| - 1]) + ((ds[|ds| - 1] as int) - ('0' as int))
  }

  /** The decimal numeral of `n` without leading zeros: `String(n)` for n >= 0. */
  function Numeral(n: nat): (r: string)
    ensures |r| > 0 && AllDigits(r)
    ensures r[0] != '-' && r[0] != '+'
  {
    if n < 10 then [DigitChar(n)] else Numeral(n / 10) + [DigitChar(n % 10)]
  }

  /** `String(n)` for an integer `n`. */
  function Decimal(n: int): string {
    if n < 0 then "-" + Numeral(-n) else Numeral(n)
  }

  /** The longest prefix of `s` made of decimal digits. */
  function LeadingDigits(s: string): (r: string)
    ensures |r| <= |s| && r == s[..|r|]
    ensures AllDigits(r)
    ensures |r| < |s| ==> !IsDigit(s[|r|])
  {
    if s == [] || !IsDigit(s[0]) then [] else [s[0]] + LeadingDigits(s[1..])
  }

  /** An optional leading sign, split off: the sign as +1 or -1 and the rest. */
  function SplitSign(s: string): (int, string) {
    if s != [] && s[0] == '-' then (-1, s[1..])
    else if s != [] && s[0] == '+' then (1, s[1..])
    else (1, s)
  }

  /** `parseInt(s)` on a string: a sign, then as many decimal digits as
      there are; no digit at all gives NaN (here `None`). */
  function ParseIntString(s: string): (r: Option<int>)
    ensures s == [] ==> r.None?
    ensures s != [] && IsDigit(s[0]) ==> r.Some? && r.value >= 0
    ensures s != [] && !IsDigit(s[0]) && s[0] != '-' && s[0] != '+' ==> r.None?
    ensures |s| >= 2 && s[0] == '-' && IsDigit(s[1]) ==> r.Some? && r.value <= 0
    ensures |s| >= 2 && s[0] == '+' && IsDigit(s[1]) ==> r.Some? && r.value >= 0
    ensures |s| >= 1 && (s[0] == '-' || s[0] == '+') && (|s| == 1 || !IsDigit(s[1])) ==> r.None?
  {
    var (sign, rest) := SplitSign(s);
    var ds := LeadingDigits(rest);
    if ds == [] then None else Some(sign * DigitsValue(ds))
  }

  /** `parseInt(v)`: the argument is turned into a string first. A number
      becomes its numeral; `undefined`, `null`, `NaN`, booleans and objects
      become words ("undefined", "true", "[object Object]", ...) that start
      with no digit, so they all give NaN. */
  function ParseInt(v: Value): (r: Option<int>)
    ensures v.Str? ==> r == ParseIntString(v.s)
    ensures v == Undefined || v == Null || v == NaN || v.Bool? || v.Ref? ==> r.None?
  {
    match v
    case Str(s) => ParseIntString(s)
    case Num(n) => ParseIntString(Decimal(n))
    case _ => None
  }

  /** `parseInt(v)` as a value: a number, or NaN. */
  function ParseIntValue(v: Value): (r: Value)
    ensures r.Num? || r == NaN
  {
    match ParseInt(v)
    case Some(n) => Num(n)
    case None => NaN
  }

  /** `parseInt(v) || 0`: always a number; 0 when the input does not parse. */
  function ParseIntOrZero(v: Value): (r: Value)
    ensures r.Num?
    ensures ParseInt(v).Some? ==> r == Num(ParseInt(v).value)
    ensures ParseInt(v).None? ==> r == Num(0)
  {
    Or(ParseIntValue(v), Num(0))
  }

  /** The number that `>=` compares a value as (`None` for NaN): `null`
      and `""` are 0, booleans are 0 or 1, a string must be an optionally
      signed run of digits. */
  function RelationalNumber(v: Value): (r: Option<int>)
    ensures v.Num? ==> r == Some(v.n)
    ensures v == Null || v == Empty || v == Bool(false) ==> r == Some(0)
    ensures v == Bool(true) ==> r == Some(1)
    ensures v == Undefined || v == NaN || v.Ref? ==> r.None?
  {
    match v
    case Undefined => None
    case Null => Some(0)
    case Bool(b) => Some(if b then 1 else 0)
    case Num(n) => Some(n)
    case NaN => None
    case Str(s) =>
      if s == "" then Some(0)
      else
        var (sign, rest) := SplitSign(s);
        if rest != [] && AllDigits(rest) then Some(sign * DigitsValue(rest)) else None
    case Ref(_) => None
  }

  /** `n >= v` for an integer `n`: false whenever `v` converts to NaN. */
  predicate AtLeast(n: int, v: Value): (r: bool)
    ensures v.Num? ==> (r <==> n >= v.n)
    ensures v == Null || v == Empty || v == Bool(false) ==> (r <==> n >= 0)
    ensures RelationalNumber(v).None? ==> !r
  {
    match RelationalNumber(v)
    case Some(c) => n >= c
    case None => false
  }

  lemma {:induction false} DigitsValueOfNumeral(n: nat)
    ensures DigitsValue(Numeral(n)) == n
  {
    if n >= 10 {
      var init := Numeral(n / 10);
      var s := init + [DigitChar(n % 10)];
      assert s[..|s| - 1] == init;
      DigitsValueOfNumeral(n / 10);
    }
  }

  /** The digits in front of a non-digit are exactly the leading digits. */
  lemma {:induction false} LeadingDigitsOfPrefix(ds: string, rest: string)
    requires AllDigits(ds)
    requires rest == [] || !IsDigit(rest[0])
    ensures LeadingDigits(ds + rest) == ds
  {
    if ds == [] {
      assert ds + rest == rest;
    } else {
      assert (ds + rest)[0] == ds[0] && IsDigit(ds[0]);
      assert (ds + rest)[1..] == ds[1..] + rest;
      LeadingDigitsOfPrefix(ds[1..], rest);
    }
  }

  lemma LeadingDigitsOfDigits(s: string)
    requires AllDigits(s)
    ensures LeadingDigits(s) == s
  {
    assert s + [] == s;
    LeadingDigitsOfPrefix(s, []);
  }

  /** Parsing the numeral of a natural number gives the number back. */
  lemma ParseIntOfNumeral(m: nat)
    ensures ParseIntString(Numeral(m)) == Some(m)
  {
    var s := Numeral(m);
    assert SplitSign(s) == (1, s);
    LeadingDigitsOfDigits(s);
    DigitsValueOfNumeral(m);
  }

  /** `parseInt(n) === n` for every integer `n` written as its plain
      decimal numeral: parsing the numeral of a number gives the number
      back. */
  lemma ParseIntOfNumber(n: int)
    ensures ParseInt(Num(n)) == Some(n)
  {
    if n < 0 {
      var s := Numeral(-n);
      assert ("-" + s)[1..] == s;
      assert SplitSign("-" + s) == (-1, s);
      LeadingDigitsOfDigits(s);
      DigitsValueOfNumeral(-n);
    } else {
      ParseIntOfNumeral(n);
    }
  }

  /** `parseInt` stops at the first non-digit: `parseInt("12abc")` is 12. */
  lemma ParseIntOfPrefix(m: nat, rest: string)
    requires rest == [] || !IsDigit(rest[0])
    ensures ParseIntString(Numeral(m) + rest) == Some(m)
  {
    var s := Numeral(m) + rest;
    assert s[0] == Numeral(m)[0];
    assert SplitSign(s) == (1, s);
    LeadingDigitsOfPrefix(Numeral(m), rest);
    DigitsValueOfNumeral(m);
  }

  /** A string holding an integer's numeral compares under `>=` as that
      integer: `"10"` is 10. */
  lemma RelationalNumberOfNumeral(m: int)
    ensures RelationalNumber(Str(Decimal(m))) == Some(m)
  {
    if m < 0 {
      var s := Numeral(-m);
      assert ("-" + s)[1..] == s;
      assert SplitSign("-" + s) == (-1, s);
      DigitsValueOfNumeral(-m);
    } else {
      var s := Numeral(m);
      assert SplitSign(s) == (1, s);
      DigitsValueOfNumeral(m);
    }
  }

  /** Hence a capacity stored as a numeral string bounds a count exactly as
      the number would. */
  lemma AtLeastNumeral(n: int, m: int)
    ensures AtLeast(n, Str(Decimal(m))) <==> n >= m
  {
    RelationalNumberOfNumeral(m);
  }

  /** Hence `parseInt(n) || 0` stores `n` itself for every integer. */
  lemma ParseIntOrZeroOfNumber(n: int)
    ensures ParseIntOrZero(Num(n)) == Num(n)
  {
    ParseIntOfNumber(n);
  }
}
