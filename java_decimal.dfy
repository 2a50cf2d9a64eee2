/**
 * Decimal text of Java ints: `Integer.toString` (writes the canonical
 * decimal form) and `Integer.valueOf(String)` (reads an optional sign and
 * one or more decimal digits, rejecting `null`, empty text, other
 * characters and values outside the `int` range with a
 * `NumberFormatException`).
 */
module JavaDecimal {
  import opened Wrappers
  import opened JavaInt

  /** The exception `Integer.valueOf` throws. */
  datatype NumberFormatException = NumberFormatException

  predicate IsDigit(c: char) {
    '0' <= c <= '9'
  }

  predicate AllDigits(s: string) {
    forall i :: 0 <= i < |s| ==> IsDigit(s[i])
  }

  function DigitChar(d: nat): (c: char)
    requires d < 10
    ensures IsDigit(c)
  {
    ('0' as int + d) as char
  }

  function DigitValue(c: char): (d: nat)
    requires IsDigit(c)
    ensures d < 10
    ensures DigitChar(d) == c
  {
    c as int - '0' as int
  }

  /** The decimal digits of `n`, most significant first, without leading zeros. */
  function NatDigits(n: nat): (s: string)
    ensures |s| > 0 && AllDigits(s)
    ensures s[0] == '0' ==> n == 0
    decreases n
  {
    if n < 10 then [DigitChar(n)] else NatDigits(n / 10) + [DigitChar(n % 10)]
  }

  /**
   * The number a non-empty run of decimal digits denotes (Horner's rule,
   * most significant digit first); `None` for empty text or any other
   * character.
   */
  function ParseDigits(t: string): (r: Option<nat>)
    ensures r.Some? ==> |t| > 0 && IsDigit(t[|t| - 1])
  {
    if t == [] || !IsDigit(t[|t| - 1]) then None
    else if |t| == 1 then Some(DigitValue(t[0]))
    else match ParseDigits(t[..|t| - 1])
      case None => None
      case Some(p) => Some(p * 10 + DigitValue(t[|t| - 1]))
  }

  /** Digits are read back as exactly the runs of digits. */
  lemma {:induction false} ParseDigitsAccepts(t: string)
    ensures ParseDigits(t).Some? <==> |t| > 0 && AllDigits(t)
  {
    if |t| > 1 {
      var p := t[..|t| - 1];
      ParseDigitsAccepts(p);
      assert forall i :: 0 <= i < |p| ==> p[i] == t[i];
    }
  }

  lemma {:induction false} DigitsRoundTrip(n: nat)
    ensures ParseDigits(NatDigits(n)) == Some(n)
  {
    if n >= 10 {
      var s := NatDigits(n);
      assert s[..|s| - 1] == NatDigits(n / 10);
      DigitsRoundTrip(n / 10);
    }
  }

  /** `Integer.toString(v)`: a minus sign for negative values, then the digits. */
  function ToString(v: int): (s: string)
    ensures |s| > 0
    ensures (s[0] == '-') <==> v < 0
    ensures v < 0 ==> AllDigits(s[1..]) && |s| > 1 && s[1] != '0'
    ensures v >= 0 ==> AllDigits(s) && (s[0] == '0' ==> s == "0")
  {
    if v < 0 then "-" + NatDigits(-v) else NatDigits(v)
  }

  /** `Integer.valueOf(s)` for a string that may be `null`. */
  function ValueOf(s: Option<string>): (r: Result<int, NumberFormatException>)
    ensures r.Ok? ==> IsInt32(r.value)
    ensures s == None || s == Some("") || s == Some("-") || s == Some("+") ==> r.Err?
    ensures r.Ok? ==> s.Some? && |s.value| > 0 && IsDigit(s.value[|s.value| - 1])
  {
    match s
    case None => Err(NumberFormatException)
    case Some(t) =>
      if t == [] then Err(NumberFormatException)
      else
        var negative := t[0] == '-';
        var digits := if t[0] == '-' || t[0] == '+' then t[1..] else t;
        match ParseDigits(digits)
        case None => Err(NumberFormatException)
        case Some(magnitude) =>
          var unsigned: int := magnitude;
          var m := if negative then -unsigned else unsigned;
          if IsInt32(m) then Ok(m) else Err(NumberFormatException)
  }

  /** Reading back the text `Integer.toString` wrote gives the original int. */
  lemma {:induction false} ValueOfToString(v: int)
    requires IsInt32(v)
    ensures ValueOf(Some(ToString(v))) == Ok(v)
  {
    var t := ToString(v);
    if v < 0 {
      assert t[1..] == NatDigits(-v);
      DigitsRoundTrip(-v);
    } else {
      DigitsRoundTrip(v);
    }
  }

  /** `Integer.toString` is injective, so distinct rows give distinct texts. */
  lemma ToStringInjective(v: int, w: int)
    requires IsInt32(v) && IsInt32(w)
    requires ToString(v) == ToString(w)
    ensures v == w
  {
    ValueOfToString(v);
    ValueOfToString(w);
  }

  /** The canonical text of a value outside the `int` range is refused. */
  lemma {:induction false} ValueOfOutOfRange(v: int)
    requires !IsInt32(v)
    ensures ValueOf(Some(ToString(v))).Err?
  {
    var t := ToString(v);
    if v < 0 {
      assert t[1..] == NatDigits(-v);
      DigitsRoundTrip(-v);
    } else {
      DigitsRoundTrip(v);
    }
  }

  /** `Integer.valueOf` also accepts a plus sign and leading zeros. */
  lemma ValueOfLenient()
    ensures ValueOf(Some("+7")) == Ok(7)
    ensures ValueOf(Some("-07")) == Ok(-7)
  {
    assert "+7"[1..] == "7";
    assert "-07"[1..] == "07" && "07"[..1] == "0";
  }

  /**
   * Text that is not a signed run of digits is refused: `valueOf` throws on
   * a text with a character that is neither a digit nor a leading sign.
   */
  lemma ValueOfRejectsNonDigit(t: string, k: nat)
    requires k < |t| && !IsDigit(t[k])
    requires !(k == 0 && (t[0] == '-' || t[0] == '+'))
    ensures ValueOf(Some(t)).Err?
  {
    var digits := if t[0] == '-' || t[0] == '+' then t[1..] else t;
    ParseDigitsAccepts(digits);
    if t[0] == '-' || t[0] == '+' {
      assert digits[k - 1] == t[k];
    } else {
      assert digits[k] == t[k];
    }
  }

  /** Instances: a leading blank, a trailing letter and a doubled sign. */
  lemma ValueOfRejects()
    ensures ValueOf(Some(" 1")).Err?
    ensures ValueOf(Some("1a")).Err?
    ensures ValueOf(Some("--1")).Err?
  {
    ValueOfRejectsNonDigit(" 1", 0);
    ValueOfRejectsNonDigit("1a", 1);
    ValueOfRejectsNonDigit("--1", 1);
  }
}
