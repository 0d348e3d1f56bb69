/** Scalar JSON values as the API delivers them, and the tolerant integer coercion `int_or_none`. */
module Json {
  import opened Wrappers

  /** A JSON value; lists and objects are lumped together, floats are not modelled. */
  datatype Value = Null | Bool(b: bool) | Int(i: int) | Str(s: string) | Compound

  predicate IsDigit(c: char) { '0' <= c <= '9' }

  predicate AllDigits(s: string) {
    forall k :: 0 <= k < |s| ==> IsDigit(s[k])
  }

  /** The number a string of decimal digits denotes. */
  function DigitsValue(s: string): nat
    requires AllDigits(s)
  {
    if s == [] then 0
    else DigitsValue(s[..|s| - 1]) * 10 + ((s[|s| - 1] as int) - ('0' as int))
  }

  /** The usual decimal rendering of a natural number. */
  function DecimalString(n: nat): (s: string)
    ensures s != [] && AllDigits(s)
  {
    var d := ((n % 10) + ('0' as int)) as char;
    if n < 10 then [d] else DecimalString(n / 10) + [d]
  }

  /** The ASCII characters Python's `str.isspace` accepts: tab to carriage return, `\x1c` to `\x1f`, and space. */
  predicate IsSpace(c: char) {
    ('\t' <= c <= '\r') || ('\U{001C}' <= c <= '\U{001F}') || c == ' '
  }

  /** `str.strip()` restricted to ASCII whitespace. */
  function Strip(s: string): (r: string)
    ensures |r| <= |s|
    ensures forall c :: c in s && !IsSpace(c) ==> c in r
    decreases |s|
  {
    if s != [] && IsSpace(s[0]) then Strip(s[1..])
    else if s != [] && IsSpace(s[|s| - 1]) then Strip(s[..|s| - 1])
    else s
  }

  /** Python's `int(s)` on a string: optional surrounding spaces, an optional sign, decimal digits. */
  function ParseInt(s: string): Option<int> {
    var t := Strip(s);
    if t != [] && (t[0] == '+' || t[0] == '-') then
      var digits := t[1..];
      if digits != [] && AllDigits(digits) then
        var magnitude: int := DigitsValue(digits);
        Some(if t[0] == '-' then -magnitude else magnitude)
      else None
    else if t != [] && AllDigits(t) then Some(DigitsValue(t))
    else None
  }

  /** `int_or_none(v)`: the integer `int(v)` gives, or nothing where `int(v)` would raise. */
  function IntOrNone(v: Value): Option<int> {
    match v
    case Null => None
    case Bool(b) => Some(if b then 1 else 0)
    case Int(i) => Some(i)
    case Str(s) => if s == [] then None else ParseInt(s)
    case Compound => None
  }

  lemma {:induction false} DigitsOfDecimal(n: nat)
    ensures DigitsValue(DecimalString(n)) == n
  {
    var s := DecimalString(n);
    if n >= 10 {
      DigitsOfDecimal(n / 10);
      assert s[..|s| - 1] == DecimalString(n / 10);
    }
  }

  /** A duration delivered as a decimal string is coerced to exactly that number. */
  lemma IntOrNoneDecimal(n: nat)
    ensures IntOrNone(Str(DecimalString(n))) == Some(n)
    ensures IntOrNone(Int(n)) == Some(n)
  {
    var s := DecimalString(n);
    assert !IsSpace(s[0]) && !IsSpace(s[|s| - 1]);
    assert Strip(s) == s;
    DigitsOfDecimal(n);
  }

  /** A signed decimal text coerces to the signed number, and so does a negative number itself. */
  lemma IntOrNoneSigned(n: nat)
    ensures IntOrNone(Str("-" + DecimalString(n))) == Some(-(n as int))
    ensures IntOrNone(Str("+" + DecimalString(n))) == Some(n as int)
    ensures IntOrNone(Int(-(n as int))) == Some(-(n as int))
  {
    var d := DecimalString(n);
    assert "-" + d == ['-'] + d && "+" + d == ['+'] + d;
    SignedDecimal('-', n);
    SignedDecimal('+', n);
  }

  lemma SignedDecimal(sign: char, n: nat)
    requires sign == '-' || sign == '+'
    ensures ParseInt([sign] + DecimalString(n)) == Some(if sign == '-' then -(n as int) else n as int)
  {
    SignedDigits(sign, DecimalString(n));
    DigitsOfDecimal(n);
  }

  /** A sign followed by digits is read as that signed number. */
  lemma SignedDigits(sign: char, digits: string)
    requires (sign == '-' || sign == '+') && digits != [] && AllDigits(digits)
    ensures ParseInt([sign] + digits) == Some(if sign == '-' then -(DigitsValue(digits) as int) else DigitsValue(digits) as int)
  {
    var s := [sign] + digits;
    assert s[0] == sign && s[|s| - 1] == digits[|digits| - 1];
    assert IsDigit(digits[|digits| - 1]);
    assert !IsSpace(s[0]) && !IsSpace(s[|s| - 1]);
    assert Strip(s) == s;
    assert s[1..] == digits;
  }

  /** A string carrying a letter never coerces: the value is absent rather than an error. */
  lemma IntOrNoneRejectsLetters(s: string, k: nat)
    requires k < |s| && ('a' <= s[k] <= 'z' || 'A' <= s[k] <= 'Z')
    ensures IntOrNone(Str(s)) == None
  {
    var t := Strip(s);
    assert s[k] in t;
    var j :| 0 <= j < |t| && t[j] == s[k];
    if j > 0 {
      assert t[1..][j - 1] == s[k];
    }
  }
}
