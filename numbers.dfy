/** JavaScript's number conversions as the page scripts use them:
    `Number(v)`, `parseFloat(v)`, `parseInt(s, 16)`, `Number.isFinite` and
    `Number.isNaN`. A finite number is kept as an exact real: rounding to
    binary64, overflow to an infinity and underflow to zero are not
    modelled. */
module Numbers {
  import opened Wrappers
  import opened Text
  import opened Json

  /** A JavaScript number. */
  datatype Number = NaN | PosInf | NegInf | Finite(r: real)

  /** `Number.isFinite`. */
  predicate IsFinite(x: Number) { x.Finite? }

  /** `Number.isNaN`. */
  predicate IsNaN(x: Number) { x.NaN? }

  /** ToBoolean on a number: NaN and zero are falsy. */
  predicate NumberTruthy(x: Number) { !x.NaN? && x != Finite(0.0) }

  /** Unary minus. */
  function Negate(x: Number): (r: Number)
    ensures r.NaN? <==> x.NaN?
    ensures IsFinite(r) <==> IsFinite(x)
  {
    match x
    case NaN => NaN
    case PosInf => NegInf
    case NegInf => PosInf
    case Finite(v) => Finite(-v)
  }

  /** `x < y` for numbers that are not NaN; NaN is below nothing. Two
      infinities of the same sign are equal, as `a - b` being NaN makes
      them for a sort comparator. */
  predicate Less(x: Number, y: Number)
  {
    match (x, y)
    case (NegInf, Finite(_)) => true
    case (NegInf, PosInf) => true
    case (Finite(a), Finite(b)) => a < b
    case (Finite(_), PosInf) => true
    case _ => false
  }

  // ---------------- decimal literals ----------------

  function Pow10(e: nat): (p: nat)
    ensures p >= 1
  {
    if e == 0 then 1 else 10 * Pow10(e - 1)
  }

  /** `x` times ten to the power `e`. */
  function Scale(x: real, e: int): real
  {
    if e >= 0 then x * Pow10(e) as real else x / Pow10(-e) as real
  }

  /** The number of decimal digits at the start of `s`. */
  function DigitRun(s: string): (n: nat)
    ensures n <= |s|
    ensures forall i :: 0 <= i < n ==> IsDigit(s[i])
    ensures n < |s| ==> !IsDigit(s[n])
  {
    if |s| == 0 || !IsDigit(s[0]) then 0 else 1 + DigitRun(s[1..])
  }

  /** An exponent part `(e|E)[+-]?digits` at index `m` of `s`: its value and
      length. Without digits there is no exponent part. */
  function ExponentAt(s: string, m: nat): (r: Option<(int, nat)>)
    ensures r.Some? ==> m + r.value.1 <= |s|
  {
    if m < |s| && (s[m] == 'e' || s[m] == 'E') then
      var signLen := if m + 1 < |s| && (s[m + 1] == '+' || s[m + 1] == '-') then 1 else 0;
      var rest := s[m + 1 + signLen..];
      var k := DigitRun(rest);
      if k == 0 then None
      else
        var v: int := DigitsValue(rest[..k]);
        Some((if signLen == 1 && s[m + 1] == '-' then -v else v, 1 + signLen + k))
    else None
  }

  /** The longest prefix of `s` that is an unsigned decimal literal
      (`Infinity`, `digits[.digits][exp]`, `digits.[exp]` or `.digits[exp]`):
      its value and length. */
  function UnsignedPrefix(s: string): (r: Option<(Number, nat)>)
    ensures r.Some? ==> 0 < r.value.1 <= |s| && !r.value.0.NaN? && !r.value.0.NegInf?
  {
    if "Infinity" <= s then Some((PosInf, 8))
    else
      var n1 := DigitRun(s);
      assert forall i :: 0 <= i < n1 ==> IsDigit(s[..n1][i]);
      var hasDot := n1 < |s| && s[n1] == '.';
      var n2 := if hasDot then DigitRun(s[n1 + 1..]) else 0;
      if n1 == 0 && n2 == 0 then None
      else
        var m := if hasDot then n1 + 1 + n2 else n1;
        var mantissa := DigitsValue(s[..n1]) as real
          + (if hasDot then DigitsValue(s[n1 + 1..m]) as real / Pow10(n2) as real else 0.0);
        match ExponentAt(s, m)
        case None => Some((Finite(mantissa), m))
        case Some((e, len)) => Some((Finite(Scale(mantissa, e)), m + len))
  }

  /** The longest prefix of `s` that is a decimal literal with an optional
      sign (ECMAScript's StrDecimalLiteral): its value and length. */
  function DecimalPrefix(s: string): (r: Option<(Number, nat)>)
    ensures r.Some? ==> 0 < r.value.1 <= |s| && !r.value.0.NaN?
  {
    if |s| > 0 && (s[0] == '+' || s[0] == '-') then
      match UnsignedPrefix(s[1..])
      case None => None
      case Some((x, n)) => Some((if s[0] == '-' then Negate(x) else x, n + 1))
    else UnsignedPrefix(s)
  }

  // ---------------- hexadecimal, octal and binary literals ----------------

  predicate IsHexDigit(c: char)
  {
    IsDigit(c) || ('a' <= c <= 'f') || ('A' <= c <= 'F')
  }

  /** The value of a hexadecimal digit (zero for any other character). */
  function HexDigitValue(c: char): (d: nat)
    ensures d < 16
  {
    if IsDigit(c) then c as int - '0' as int
    else if 'a' <= c <= 'f' then c as int - 'a' as int + 10
    else if 'A' <= c <= 'F' then c as int - 'A' as int + 10
    else 0
  }

  /** Every character of `s` is a digit of base `radix` (2, 8 or 16). */
  predicate AllInRadix(s: string, radix: nat)
  {
    forall i :: 0 <= i < |s| ==> IsHexDigit(s[i]) && HexDigitValue(s[i]) < radix
  }

  /** The value of the digits of `s` in base `radix`. */
  function RadixValue(s: string, radix: nat): nat
  {
    if |s| == 0 then 0 else RadixValue(s[..|s| - 1], radix) * radix + HexDigitValue(s[|s| - 1])
  }

  /** The radix announced by a `0x`, `0o` or `0b` prefix. */
  function RadixPrefix(s: string): (r: nat)
    ensures r == 0 || r == 2 || r == 8 || r == 16
  {
    if |s| >= 2 && s[0] == '0' then
      if s[1] == 'x' || s[1] == 'X' then 16
      else if s[1] == 'o' || s[1] == 'O' then 8
      else if s[1] == 'b' || s[1] == 'B' then 2
      else 0
    else 0
  }

  // ---------------- the conversions ----------------

  /** ToNumber applied to a string (`Number(s)`): surrounding white space
      is ignored, empty text is zero, the whole text must be one literal
      (a signed decimal literal or an unsigned `0x`/`0o`/`0b` integer),
      anything else is NaN. */
  function StringToNumber(s: string): (r: Number)
  {
    var t := Trim(s);
    if t == "" then Finite(0.0)
    else if RadixPrefix(t) != 0 then
      (if |t| > 2 && AllInRadix(t[2..], RadixPrefix(t)) then Finite(RadixValue(t[2..], RadixPrefix(t)) as real) else NaN)
    else
      match DecimalPrefix(t)
      case Some((x, n)) => if n == |t| then x else NaN
      case None => NaN
  }

  /** `Number(v)`: objects and arrays go through their string form. */
  function ToNumber(v: Value): (r: Number)
    ensures v == Undefined ==> r == NaN
    ensures v == Null ==> r == Finite(0.0)
    ensures v.Num? ==> r == Finite(v.n as real)
  {
    match v
    case Undefined => NaN
    case Null => Finite(0.0)
    case Bool(b) => Finite(if b then 1.0 else 0.0)
    case Num(n) => Finite(n as real)
    case Str(s) => StringToNumber(s)
    case _ => StringToNumber(StringOf(v))
  }

  /** `parseFloat(s)`: the longest decimal literal after leading white
      space, NaN when there is none; the rest of the text is ignored. */
  function ParseFloat(s: string): (r: Number)
    ensures r.NaN? <==> DecimalPrefix(TrimStart(s)).None?
  {
    match DecimalPrefix(TrimStart(s))
    case Some((x, _)) => x
    case None => NaN
  }

  /** `parseFloat(v)` on any value: it reads `String(v)`. */
  function ParseFloatValue(v: Value): Number
  {
    ParseFloat(StringOf(v))
  }

  /** `parseInt(s, 16)`: after leading white space, an optional sign, an
      optional `0x`/`0X`, the longest run of hexadecimal digits; `None` is
      NaN (no digits). */
  function ParseIntHex(s: string): (r: Option<int>)
  {
    var t := TrimStart(s);
    var neg := |t| > 0 && t[0] == '-';
    var u := if |t| > 0 && (t[0] == '-' || t[0] == '+') then t[1..] else t;
    var w := if |u| >= 2 && u[0] == '0' && (u[1] == 'x' || u[1] == 'X') then u[2..] else u;
    var k := HexRun(w);
    if k == 0 then None
    else
      var v: int := RadixValue(w[..k], 16);
      Some(if neg then -v else v)
  }

  /** The number of hexadecimal digits at the start of `s`. */
  function HexRun(s: string): (n: nat)
    ensures n <= |s|
    ensures forall i :: 0 <= i < n ==> IsHexDigit(s[i])
    ensures n < |s| ==> !IsHexDigit(s[n])
  {
    if |s| == 0 || !IsHexDigit(s[0]) then 0 else 1 + HexRun(s[1..])
  }

  /** `String(n)` for an integer or NaN result of `parseInt`. */
  function IntOrNaNText(x: Option<int>): string
  {
    match x
    case None => "NaN"
    case Some(i) => IntToDecimal(i)
  }

  // ---------------- properties ----------------

  /** The text `String(i)` of an integer is a decimal literal of value `i`
      spanning the whole text. */
  lemma DecimalPrefixOfDecimal(i: int)
    ensures DecimalPrefix(IntToDecimal(i)) == Some((Finite(i as real), |IntToDecimal(i)|))
  {
    var n: nat := if i < 0 then -i else i;
    var s := IntToDecimal(i);
    UnsignedOfDecimal(n);
    if i < 0 {
      assert s[1..] == NatToDecimal(n);
    } else {
      assert IsDigit(s[0]);
    }
  }

  /** A numeral written by `String(n)` reads back as `n` under `parseFloat`. */
  lemma ParseFloatOfDecimal(i: int)
    ensures ParseFloat(IntToDecimal(i)) == Finite(i as real)
  {
    DecimalPrefixOfDecimal(i);
    NumeralTrimmed(i);
  }

  /** The text `String(i)` has no surrounding white space. */
  lemma NumeralTrimmed(i: int)
    ensures TrimStart(IntToDecimal(i)) == IntToDecimal(i)
    ensures Trim(IntToDecimal(i)) == IntToDecimal(i)
  {
    var s := IntToDecimal(i);
    var n: nat := if i < 0 then -i else i;
    var d := NatToDecimal(n);
    if i < 0 {
      assert s[0] == '-' && s[|s| - 1] == d[|d| - 1];
    }
    NotSpaceAtEnds(s);
  }

  /** Text that neither starts nor ends with white space is its own trim. */
  lemma NotSpaceAtEnds(s: string)
    requires |s| > 0 && !IsSpace(s[0]) && !IsSpace(s[|s| - 1])
    ensures TrimStart(s) == s && Trim(s) == s
  {
  }

  /** A numeral written by `String(n)` reads back as `n` under `Number`. */
  lemma StringToNumberOfDecimal(i: int)
    ensures StringToNumber(IntToDecimal(i)) == Finite(i as real)
  {
    var s := IntToDecimal(i);
    DecimalPrefixOfDecimal(i);
    NumeralTrimmed(i);
    assert RadixPrefix(s) == 0 by {
      if |s| >= 2 {
        var n: nat := if i < 0 then -i else i;
        if i < 0 { assert s[1] == NatToDecimal(n)[0]; }
        assert IsDigit(s[1]);
      }
    }
  }

  /** `Number` agrees on a number and on its decimal text. */
  lemma ToNumberOfText(i: int)
    ensures ToNumber(Str(IntToDecimal(i))) == ToNumber(Num(i))
  {
    StringToNumberOfDecimal(i);
  }

  lemma {:induction false} DigitRunAll(s: string)
    requires forall i :: 0 <= i < |s| ==> IsDigit(s[i])
    ensures DigitRun(s) == |s|
  {
    if |s| > 0 {
      DigitRunAll(s[1..]);
    }
  }

  /** The decimal numeral of `n` is an unsigned literal of value `n`
      spanning the whole text. */
  lemma UnsignedOfDecimal(n: nat)
    ensures UnsignedPrefix(NatToDecimal(n)) == Some((Finite(n as real), |NatToDecimal(n)|))
  {
    var d := NatToDecimal(n);
    DigitRunAll(d);
    NatToDecimalRoundTrip(n);
    assert d[..|d|] == d;
    assert !("Infinity" <= d) by { assert IsDigit(d[0]); }
  }
}
