/** Configuration values and the classifier `string_or_numeric`, which turns
    the text of a `.env` value into an integer, a float or the text itself. */
module Values {
  import opened Text

  datatype Option<+T> = None | Some(value: T)

  /** A value held in the configuration mapping. The loader only produces
      `Int`, `Float` and `Str`; the other constructors stand for what the
      cast pass may store, with `Other` holding, by its `repr`, any literal
      kind without a constructor of its own (bytes, complex numbers,
      `Ellipsis`). A float is kept as the literal text it was read from
      (the number itself is floating-point arithmetic, which this model
      does not interpret). */
  datatype Value =
    | Int(i: int)
    | Float(literal: string)
    | Str(s: string)
    | Bool(b: bool)
    | NoneLiteral
    | List(items: seq<Value>)
    | Tuple(items: seq<Value>)
    | Set(items: seq<Value>)
    | Dict(entries: seq<(Value, Value)>)
    | Other(repr: string)

  predicate IsDigit(c: char) { '0' <= c <= '9' }

  predicate AllDigits(s: string) {
    forall i :: 0 <= i < |s| ==> IsDigit(s[i])
  }

  /** The number a string of ASCII decimal digits denotes. */
  function DigitsValue(d: string): nat
    requires AllDigits(d)
  {
    if d == [] then 0
    else DigitsValue(d[..|d| - 1]) * 10 + (d[|d| - 1] as int - '0' as int)
  }

  /** `int(text)` for a `str` argument: surrounding whitespace, an optional
      sign, then one or more ASCII digits (leading zeros allowed). */
  function ParseInt(text: string): Option<int> {
    ParseSigned(Strip(text))
  }

  /** An optional sign followed by one or more ASCII digits, and nothing
      else. */
  function ParseSigned(t: string): Option<int> {
    if |t| > 0 && (t[0] == '+' || t[0] == '-') then
      if |t| > 1 && AllDigits(t[1..]) then
        var n: int := DigitsValue(t[1..]);
        Some(if t[0] == '-' then -n else n)
      else None
    else if |t| > 0 && AllDigits(t) then Some(DigitsValue(t))
    else None
  }

  /** The canonical decimal spelling of a natural number, as `str(n)` gives. */
  function NatDigits(n: nat): (d: string)
    ensures |d| > 0 && AllDigits(d)
  {
    var last := ['0' + (n % 10) as char];
    if n < 10 then last else NatDigits(n / 10) + last
  }

  /** `str(n)` for an integer. */
  function DecimalString(n: int): string {
    if n < 0 then "-" + NatDigits(-n) else NatDigits(n)
  }

  lemma {:induction false} NatDigitsValue(n: nat)
    ensures DigitsValue(NatDigits(n)) == n
  {
    var d := NatDigits(n);
    if n >= 10 {
      assert d[..|d| - 1] == NatDigits(n / 10);
      NatDigitsValue(n / 10);
    }
  }

  /** `int` reads back what `str` writes for every integer, surrounded by
      whitespace within the modelled whitespace set. */
  lemma ParseIntDecimal(pre: string, n: int, post: string)
    requires AllSpace(pre) && AllSpace(post)
    ensures ParseInt(pre + DecimalString(n) + post) == Some(n)
  {
    var d := DecimalString(n);
    assert !IsSpace(d[0]) && !IsSpace(d[|d| - 1]);
    StripPadded(pre, d, post);
    ParseSignedDecimal(n);
  }

  lemma ParseSignedDecimal(n: int)
    ensures ParseSigned(DecimalString(n)) == Some(n)
  {
    var d := DecimalString(n);
    var digits := NatDigits(if n < 0 then -n else n);
    NatDigitsValue(if n < 0 then -n else n);
    if n < 0 {
      assert d[1..] == digits;
    } else {
      assert d[0] != '+' && d[0] != '-';
    }
  }

  /** `string_or_numeric(value)`: an integer when `int(value)` succeeds, else
      a float when `float(value)` succeeds (the recogniser `isFloat` stands
      for Python's float syntax), else the string itself. */
  function StringOrNumeric(value: string, isFloat: string -> bool): (r: Value)
    ensures r.Int? || r.Float? || r.Str?
    ensures r.Int? <==> ParseInt(value).Some?
    ensures r.Int? ==> r.i == ParseInt(value).value
    ensures r.Float? <==> ParseInt(value).None? && isFloat(value)
    ensures r.Float? ==> r.literal == value
    ensures r.Str? ==> r.s == value
  {
    match ParseInt(value)
    case Some(n) => Int(n)
    case None => if isFloat(value) then Float(value) else Str(value)
  }

  /** Integer parsing takes precedence: a decimal integer is classified as
      an `Int`, whatever the float recogniser says about the same text. */
  lemma ClassifyDecimal(pre: string, n: int, post: string, isFloat: string -> bool)
    requires AllSpace(pre) && AllSpace(post)
    ensures StringOrNumeric(pre + DecimalString(n) + post, isFloat) == Int(n)
  {
    ParseIntDecimal(pre, n, post);
  }

  /** A text of ASCII digits, optionally signed and surrounded by
      whitespace, is read as the number the digits denote, leading zeros
      and an explicit `+` allowed (`007`, `+5`, `-0`). */
  lemma ParseIntDigits(pre: string, sign: string, d: string, post: string)
    requires AllSpace(pre) && AllSpace(post)
    requires sign == "" || sign == "+" || sign == "-"
    requires d != [] && AllDigits(d)
    ensures ParseInt(pre + sign + d + post) ==
              Some(if sign == "-" then -(DigitsValue(d) as int) else DigitsValue(d))
  {
    var t := sign + d;
    assert pre + sign + d + post == pre + t + post;
    SignedDigits(sign, d);
    StripPadded(pre, t, post);
  }

  lemma SignedDigits(sign: string, d: string)
    requires sign == "" || sign == "+" || sign == "-"
    requires d != [] && AllDigits(d)
    ensures Trimmed(sign + d)
    ensures ParseSigned(sign + d) == Some(if sign == "-" then -(DigitsValue(d) as int) else DigitsValue(d))
  {
    var t := sign + d;
    assert t[|t| - 1] == d[|d| - 1];
    if sign == "" {
      assert t == d;
    } else {
      assert t[0] == sign[0];
      assert t[1..] == d;
    }
  }

  /** Every signed digit string is classified as that integer, whatever the
      float recogniser says. */
  lemma ClassifyDigits(pre: string, sign: string, d: string, post: string, isFloat: string -> bool)
    requires AllSpace(pre) && AllSpace(post)
    requires sign == "" || sign == "+" || sign == "-"
    requires d != [] && AllDigits(d)
    ensures StringOrNumeric(pre + sign + d + post, isFloat) ==
              Int(if sign == "-" then -(DigitsValue(d) as int) else DigitsValue(d))
  {
    ParseIntDigits(pre, sign, d, post);
  }

  /** Text containing a character that cannot occur in an integer literal is
      never an `Int`: it is a `Float` when it is a float literal and is
      otherwise returned unchanged. */
  lemma ClassifyNonInteger(value: string, i: nat, isFloat: string -> bool)
    requires i < |value|
    requires !IsDigit(value[i]) && !IsSpace(value[i]) && value[i] != '+' && value[i] != '-'
    ensures StringOrNumeric(value, isFloat) == if isFloat(value) then Float(value) else Str(value)
  {
    NonIntegerText(value, i);
  }

  lemma NonIntegerText(value: string, i: nat)
    requires i < |value|
    requires !IsDigit(value[i]) && !IsSpace(value[i]) && value[i] != '+' && value[i] != '-'
    ensures ParseInt(value).None?
  {
    var c := value[i];
    NonSpaceInStrip(value, c);
    var t := Strip(value);
    assert ParseInt(value) == ParseSigned(t);
    assert c in t;
    var j :| 0 <= j < |t| && t[j] == c;
    assert !AllDigits(t);
    if |t| > 1 {
      assert j > 0 ==> t[1..][j - 1] == t[j];
      assert (t[0] == '+' || t[0] == '-') ==> !AllDigits(t[1..]);
    }
  }
}
