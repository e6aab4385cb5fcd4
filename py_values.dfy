/**
  Python's built-in conversions as the ingestion code relies on them: `str` and `int` on
  integers, and truthiness, `str` and `int` on the scalars `json.loads` produces.
 */
module PyValues {
  import opened Wrappers

  /** The Python exceptions the modelled code can raise. */
  datatype PyError = TypeError | ValueError | OverflowError | KeyError | AttributeError(name: string)

  predicate IsDigit(c: char) {
    '0' <= c <= '9'
  }

  predicate AllDigits(s: string) {
    forall i :: 0 <= i < |s| ==> IsDigit(s[i])
  }

  function DigitChar(d: nat): (c: char)
    requires d < 10
    ensures IsDigit(c) && DigitValue(c) == d
  {
    ('0' as int + d) as char
  }

  function DigitValue(c: char): (d: nat)
    requires IsDigit(c)
    ensures d < 10
  {
    c as int - '0' as int
  }

  /** The decimal digits of `n`, most significant first, without leading zeros. */
  function NatDigits(n: nat): (s: string)
    ensures |s| > 0 && AllDigits(s)
    ensures |s| > 1 ==> s[0] != '0'
    decreases n
  {
    if n < 10 then [DigitChar(n)] else NatDigits(n / 10) + [DigitChar(n % 10)]
  }

  /** The value of a string of decimal digits read in base 10 (leading zeros allowed). */
  function DigitsValue(s: string): nat
    requires AllDigits(s)
  {
    if s == [] then 0 else DigitsValue(s[..|s| - 1]) * 10 + DigitValue(s[|s| - 1])
  }

  /** `str(n)` for a Python int. */
  function Show(n: int): (s: string)
    ensures forall i :: 0 <= i < |s| ==> IsDigit(s[i]) || s[i] == '-'
  {
    if n < 0 then "-" + NatDigits(-n) else NatDigits(n)
  }

  /**
    `int(s)` for a str holding an optional sign and one or more ASCII digits;
    `None` where Python raises ValueError.
   */
  function Parse(s: string): (r: Option<int>)
    ensures r.Some? <==> |s| > 0 && (AllDigits(s) || ((s[0] == '-' || s[0] == '+') && |s| > 1 && AllDigits(s[1..])))
  {
    if |s| > 1 && (s[0] == '-' || s[0] == '+') && AllDigits(s[1..]) then
      var v: int := DigitsValue(s[1..]); Some(if s[0] == '-' then -v else v)
    else if |s| > 0 && AllDigits(s) then
      Some(DigitsValue(s))
    else
      None
  }

  lemma {:induction false} DigitsValueOfNatDigits(n: nat)
    ensures DigitsValue(NatDigits(n)) == n
    decreases n
  {
    if n >= 10 {
      var s := NatDigits(n);
      assert s[..|s| - 1] == NatDigits(n / 10);
      DigitsValueOfNatDigits(n / 10);
    }
  }

  /** `int(str(n)) == n`: parsing undoes rendering. */
  lemma ParseShow(n: int)
    ensures Parse(Show(n)) == Some(n)
  {
    if n < 0 {
      assert Show(n)[1..] == NatDigits(-n);
      DigitsValueOfNatDigits(-n);
    } else {
      DigitsValueOfNatDigits(n);
    }
  }

  /** A scalar as `json.loads` produces it. A float is opaque: it carries its `str()` rendering and its `int()` truncation. */
  datatype Value = Null | Bool(b: bool) | Int(i: int) | Float(text: string, trunc: int) | Str(s: string)

  /** Python truthiness; `str()` renders a float zero as "0.0" or "-0.0". */
  predicate Truthy(v: Value) {
    match v
    case Null => false
    case Bool(b) => b
    case Int(i) => i != 0
    case Float(text, _) => text != "0.0" && text != "-0.0"
    case Str(s) => s != ""
  }

  /** `int(v)`: TypeError for None; ValueError for a non-numeric string or NaN; OverflowError for an infinity. */
  function IntOf(v: Value): (r: Result<int, PyError>)
    ensures v.Null? ==> r == Err(TypeError)
    ensures v.Int? ==> r == Ok(v.i)
    ensures v.Str? ==> (r.Ok? <==> Parse(v.s).Some?) && (r.Ok? ==> r.value == Parse(v.s).value)
    ensures r == Err(OverflowError) <==> v.Float? && (v.text == "inf" || v.text == "-inf")
    ensures r.Err? ==> r.error == TypeError || r.error == ValueError || r.error == OverflowError
  {
    match v
    case Null => Err(TypeError)
    case Bool(b) => Ok(if b then 1 else 0)
    case Int(i) => Ok(i)
    case Float(text, t) =>
      if text == "inf" || text == "-inf" then Err(OverflowError)
      else if text == "nan" then Err(ValueError)
      else Ok(t)
    case Str(s) => if Parse(s).Some? then Ok(Parse(s).value) else Err(ValueError)
  }

  /** `str(v)`. */
  function StrOf(v: Value): (s: string)
    ensures v.Int? ==> Parse(s) == Some(v.i)
  {
    match v
    case Null => "None"
    case Bool(b) => if b then "True" else "False"
    case Int(i) => ParseShow(i); Show(i)
    case Float(text, _) => text
    case Str(s) => s
  }
}
