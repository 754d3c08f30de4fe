/**
 * The two JavaScript conversions the core relies on: unary `+` on a route parameter
 * (`+request.params.id`, `+id`) and the template literal `${n}` that puts a number into
 * an exception message; and the truthiness of a string.
 */
module Js {

  /** A JavaScript number as far as record ids care: an integer, or anything else
      (NaN, a fraction, an infinity), which is strictly equal (`===`) to no integer. */
  datatype JsNumber = Integer(value: int) | NonInteger

  predicate IsDigit(c: char) { '0' <= c <= '9' }

  predicate AllDigits(s: string) {
    forall i | 0 <= i < |s| :: IsDigit(s[i])
  }

  function DigitValue(c: char): nat
    requires IsDigit(c)
  {
    c as int - '0' as int
  }

  function Digit(d: nat): char
    requires d < 10
  {
    ('0' as int + d) as char
  }

  /** The value of a string of decimal digits, most significant first. */
  function DigitsValue(s: string): nat
    requires AllDigits(s)
  {
    if s == [] then 0 else DigitsValue(s[..|s| - 1]) * 10 + DigitValue(s[|s| - 1])
  }

  /** The white space and line terminators of ECMAScript, which unary `+` trims from both ends. */
  predicate JsSpace(c: char) {
    var n := c as int;
    || n == 0x09 || n == 0x0A || n == 0x0B || n == 0x0C || n == 0x0D || n == 0x20 || n == 0xA0
    || n == 0x1680 || 0x2000 <= n <= 0x200A || n == 0x2028 || n == 0x2029 || n == 0x202F
    || n == 0x205F || n == 0x3000 || n == 0xFEFF
  }

  predicate HexLetter(c: char) { 'a' <= c <= 'f' || 'A' <= c <= 'F' }

  /**
   * The characters a numeric string can hold besides white space: digits, signs, the decimal
   * point, hexadecimal digits (among them the exponent marks), the radix marks and the letters
   * of "Infinity".
   */
  predicate LiteralChar(c: char) {
    IsDigit(c) || HexLetter(c) || c in "+-.xXoObBIinty"
  }

  /** A character that makes any string holding it NaN under unary `+`. */
  predicate NeverNumeric(c: char) {
    !JsSpace(c) && !LiteralChar(c)
  }

  function LeadingSpace(s: string): (k: nat)
    ensures k <= |s|
    ensures forall j | 0 <= j < k :: JsSpace(s[j])
    ensures k < |s| ==> !JsSpace(s[k])
  {
    if s == [] || !JsSpace(s[0]) then 0
    else
      var k := LeadingSpace(s[1..]);
      assert forall j | 1 <= j < k + 1 :: s[j] == s[1..][j - 1];
      1 + k
  }

  function TrailingSpace(s: string): (k: nat)
    ensures k <= |s|
    ensures forall j | |s| - k <= j < |s| :: JsSpace(s[j])
    ensures k < |s| ==> !JsSpace(s[|s| - 1 - k])
  {
    if s == [] || !JsSpace(s[|s| - 1]) then 0
    else
      var k := TrailingSpace(s[..|s| - 1]);
      assert forall j | |s| - 1 - k <= j < |s| - 1 :: s[j] == s[..|s| - 1][j];
      1 + k
  }

  /** The string without its leading and trailing white space. */
  function Trim(s: string): string {
    var rest := s[LeadingSpace(s)..];
    rest[..|rest| - TrailingSpace(rest)]
  }

  /** Trimming keeps every character that is not white space, at its place after the leading space. */
  lemma TrimKeeps(s: string, i: nat)
    requires i < |s| && !JsSpace(s[i])
    ensures LeadingSpace(s) <= i < LeadingSpace(s) + |Trim(s)|
    ensures Trim(s)[i - LeadingSpace(s)] == s[i]
  {
    var a := LeadingSpace(s);
    var rest := s[a..];
    assert rest[i - a] == s[i];
  }

  /** A string that neither starts nor ends with white space is its own trim. */
  lemma TrimUnspaced(s: string)
    requires s != [] && !JsSpace(s[0]) && !JsSpace(s[|s| - 1])
    ensures Trim(s) == s
  {
    assert s[0..] == s;
  }

  function HexValue(c: char): nat
    requires IsDigit(c) || HexLetter(c)
  {
    if IsDigit(c) then DigitValue(c)
    else if 'a' <= c <= 'f' then c as int - 'a' as int + 10
    else c as int - 'A' as int + 10
  }

  predicate RadixDigit(c: char, radix: nat) {
    (IsDigit(c) || HexLetter(c)) && HexValue(c) < radix
  }

  /** The radixes of the `0x`, `0o` and `0b` literals. */
  predicate LiteralRadix(radix: nat) {
    radix == 16 || radix == 8 || radix == 2
  }

  function RadixValue(s: string, radix: nat): nat
    requires LiteralRadix(radix)
    requires forall i | 0 <= i < |s| :: RadixDigit(s[i], radix)
  {
    if s == [] then 0
    else
      var prefix := s[..|s| - 1];
      assert forall i | 0 <= i < |prefix| :: prefix[i] == s[i];
      var high := RadixValue(prefix, radix);
      assert RadixDigit(s[|s| - 1], radix);
      var low := HexValue(s[|s| - 1]);
      if radix == 16 then high * 16 + low else if radix == 8 then high * 8 + low else high * 2 + low
  }

  /** The digits after `0x`, `0o` or `0b`: at least one digit of the radix and nothing else. */
  function RadixNumber(digits: string, radix: nat): (r: JsNumber)
    requires LiteralRadix(radix)
    ensures r.Integer? ==> digits != [] && forall i | 0 <= i < |digits| :: RadixDigit(digits[i], radix)
  {
    if digits != [] && forall i | 0 <= i < |digits| :: RadixDigit(digits[i], radix)
    then Integer(RadixValue(digits, radix))
    else NonInteger
  }

  function Pow10(n: nat): (p: nat)
    ensures p > 0
  {
    if n == 0 then 1 else 10 * Pow10(n - 1)
  }

  /** The first index holding an exponent mark, or |s| when there is none. */
  function ExponentAt(s: string): (k: nat)
    ensures k <= |s|
    ensures forall j | 0 <= j < k :: s[j] != 'e' && s[j] != 'E'
    ensures k < |s| ==> s[k] == 'e' || s[k] == 'E'
  {
    if s == [] || s[0] == 'e' || s[0] == 'E' then 0
    else
      var k := ExponentAt(s[1..]);
      assert forall j | 1 <= j < k + 1 :: s[j] == s[1..][j - 1];
      1 + k
  }

  /** The first index holding a decimal point, or |s| when there is none. */
  function DotAt(s: string): (k: nat)
    ensures k <= |s|
    ensures forall j | 0 <= j < k :: s[j] != '.'
    ensures k < |s| ==> s[k] == '.'
  {
    if s == [] || s[0] == '.' then 0
    else
      var k := DotAt(s[1..]);
      assert forall j | 1 <= j < k + 1 :: s[j] == s[1..][j - 1];
      1 + k
  }

  /** The part after an exponent mark: digits with an optional sign. */
  predicate ValidExponent(x: string) {
    || (x != [] && AllDigits(x))
    || (|x| > 1 && (x[0] == '+' || x[0] == '-') && AllDigits(x[1..]))
  }

  function ExponentValue(x: string): int
    requires ValidExponent(x)
  {
    if x != [] && AllDigits(x) then DigitsValue(x)
    else if x[0] == '-' then -(DigitsValue(x[1..]) as int)
    else DigitsValue(x[1..])
  }

  lemma ExponentChars(x: string, i: nat)
    requires ValidExponent(x) && i < |x|
    ensures IsDigit(x[i]) || x[i] == '+' || x[i] == '-'
  {
    if !(x != [] && AllDigits(x)) && i > 0 {
      assert x[i] == x[1..][i - 1];
    }
  }

  /** The number m × 10^(e − f): an integer exactly when the division leaves no remainder. */
  function Scaled(m: nat, f: nat, e: int): JsNumber {
    if e >= f then Integer(m * Pow10(e - f))
    else if m % Pow10(f - e) == 0 then Integer(m / Pow10(f - e))
    else NonInteger
  }

  function Negate(n: JsNumber): JsNumber {
    match n
    case Integer(v) => Integer(-v)
    case NonInteger => NonInteger
  }

  /**
   * An unsigned decimal: "Infinity", or digits with an optional point and fraction (at least
   * one digit in all) followed by an optional exponent.
   */
  function UnsignedDecimal(u: string): (r: JsNumber)
    ensures r.Integer? ==> forall i | 0 <= i < |u| :: IsDigit(u[i]) || u[i] in ".eE+-"
  {
    if u == "Infinity" then NonInteger
    else
      var e := ExponentAt(u);
      var mantissa := u[..e];
      var d := DotAt(mantissa);
      var whole := mantissa[..d];
      var fraction := if d < |mantissa| then mantissa[d + 1..] else [];
      if (whole == [] && fraction == []) || !AllDigits(whole) || !AllDigits(fraction)
         || (e < |u| && !ValidExponent(u[e + 1..]))
      then NonInteger
      else
        assert forall i | 0 <= i < |u| :: IsDigit(u[i]) || u[i] in ".eE+-" by {
          forall i | 0 <= i < |u|
            ensures IsDigit(u[i]) || u[i] in ".eE+-"
          {
            if i < d {
              assert u[i] == whole[i];
            } else if d < i < e {
              assert u[i] == fraction[i - d - 1];
            } else if e < i {
              ExponentChars(u[e + 1..], i - e - 1);
              assert u[i] == u[e + 1..][i - e - 1];
            }
          }
        }
        assert AllDigits(whole + fraction) by {
          forall i | 0 <= i < |whole + fraction|
            ensures IsDigit((whole + fraction)[i])
          {
            if i >= |whole| {
              assert (whole + fraction)[i] == fraction[i - |whole|];
            }
          }
        }
        Scaled(DigitsValue(whole + fraction), |fraction|, if e < |u| then ExponentValue(u[e + 1..]) else 0)
  }

  /** A trimmed numeric string: empty (0), a `0x`/`0o`/`0b` literal, or a signed decimal. */
  function LiteralNumber(t: string): (r: JsNumber)
    ensures r.Integer? ==> forall i | 0 <= i < |t| :: LiteralChar(t[i])
  {
    if t == [] then Integer(0)
    else if |t| >= 2 && t[0] == '0' && t[1] in "xXoObB" then
      var r := RadixNumber(t[2..], if t[1] in "xX" then 16 else if t[1] in "oO" then 8 else 2);
      assert r.Integer? ==> forall i | 2 <= i < |t| :: LiteralChar(t[i]) by {
        if r.Integer? {
          forall i | 2 <= i < |t|
            ensures LiteralChar(t[i])
          {
            assert t[i] == t[2..][i - 2];
          }
        }
      }
      r
    else if t[0] == '-' || t[0] == '+' then
      var u := UnsignedDecimal(t[1..]);
      assert u.Integer? ==> forall i | 1 <= i < |t| :: LiteralChar(t[i]) by {
        if u.Integer? {
          forall i | 1 <= i < |t|
            ensures LiteralChar(t[i])
          {
            assert t[i] == t[1..][i - 1];
          }
        }
      }
      if t[0] == '-' then Negate(u) else u
    else UnsignedDecimal(t)
  }

  /**
   * Unary `+` on a string, as the StringToNumber operation of ECMA-262 defines it, on exact
   * values: white space is trimmed from both ends, the empty string is 0, a `0x`, `0o` or `0b`
   * literal and a signed decimal with point, fraction and exponent read as their value, and
   * anything else is NaN. A string with a character that can occur in no numeric string is NaN.
   */
  function ToNumber(s: string): (r: JsNumber)
    ensures r.Integer? ==> forall i | 0 <= i < |s| :: JsSpace(s[i]) || LiteralChar(s[i])
  {
    var r := LiteralNumber(Trim(s));
    assert r.Integer? ==> forall i | 0 <= i < |s| :: JsSpace(s[i]) || LiteralChar(s[i]) by {
      if r.Integer? {
        forall i | 0 <= i < |s| && !JsSpace(s[i])
          ensures LiteralChar(s[i])
        {
          TrimKeeps(s, i);
        }
      }
    }
    r
  }

  /** A plain string of decimal digits reads as its value. */
  lemma UnsignedDecimalOfDigits(s: string)
    requires s != [] && AllDigits(s)
    ensures UnsignedDecimal(s) == Integer(DigitsValue(s))
  {
    assert s != "Infinity" by {
      assert IsDigit(s[0]);
    }
    assert forall j | 0 <= j < |s| :: s[j] != 'e' && s[j] != 'E' && s[j] != '.' by {
      forall j | 0 <= j < |s|
        ensures s[j] != 'e' && s[j] != 'E' && s[j] != '.'
      {
        assert IsDigit(s[j]);
      }
    }
    var e := ExponentAt(s);
    assert e == |s|;
    assert s[..e] == s;
    var d := DotAt(s);
    assert d == |s|;
    assert s[..d] + [] == s;
    assert Pow10(0) == 1;
    assert UnsignedDecimal(s) == Scaled(DigitsValue(s), 0, 0);
  }

  /** Unary `+` on a non-empty string of decimal digits gives its value. */
  lemma ToNumberOfDigits(s: string)
    requires s != [] && AllDigits(s)
    ensures ToNumber(s) == Integer(DigitsValue(s))
  {
    assert IsDigit(s[0]) && IsDigit(s[|s| - 1]);
    TrimUnspaced(s);
    assert LiteralNumber(s) == UnsignedDecimal(s) by {
      assert s[0] != '-' && s[0] != '+';
      if |s| >= 2 {
        assert IsDigit(s[1]);
        assert s[1] !in "xXoObB";
      }
    }
    UnsignedDecimalOfDigits(s);
  }

  /** What unary `+` makes of the forms a path id can take besides plain digits. */
  /** `+"1.0"` is 1: a zero fraction leaves an integer. */
  lemma ToNumberOfZeroFraction()
    ensures ToNumber("1.0") == Integer(1)
  {
    TrimUnspaced("1.0");
    assert ExponentAt("1.0") == 3;
    assert "1.0"[..3] == "1.0";
    assert DotAt("1.0") == 1;
    assert "1.0"[..1] == "1" && "1.0"[2..] == "0";
    assert "1" + "0" == "10" && "10"[..1] == "1" && "1"[..0] == [];
    assert DigitsValue("1" + "0") == 10;
    assert Pow10(1) == 10;
    assert UnsignedDecimal("1.0") == Scaled(10, 1, 0);
  }

  /** `+"1.5"` is not an integer. */
  lemma ToNumberOfFraction()
    ensures ToNumber("1.5") == NonInteger
  {
    TrimUnspaced("1.5");
    assert ExponentAt("1.5") == 3;
    assert "1.5"[..3] == "1.5";
    assert DotAt("1.5") == 1;
    assert "1.5"[..1] == "1" && "1.5"[2..] == "5";
    assert "1" + "5" == "15" && "15"[..1] == "1" && "1"[..0] == [];
    assert DigitsValue("1" + "5") == 15;
    assert Pow10(1) == 10;
    assert UnsignedDecimal("1.5") == Scaled(15, 1, 0);
  }

  /** `+" 1"` is 1: surrounding white space is trimmed. */
  lemma ToNumberOfSpacedDigit()
    ensures ToNumber(" 1") == Integer(1)
  {
    assert LeadingSpace(" 1") == 1 by {
      assert " 1"[1..] == "1";
    }
    assert Trim(" 1") == "1" by {
      assert " 1"[1..] == "1";
    }
    ToNumberOfDigits("1");
  }

  /** `+"0x1"` is 1: a hexadecimal literal. */
  lemma ToNumberOfHex()
    ensures ToNumber("0x1") == Integer(1)
  {
    TrimUnspaced("0x1");
    assert "0x1"[2..] == "1";
    assert RadixValue("1", 16) == 1 by {
      assert "1"[..0] == [];
    }
  }

  /** `+"1e0"` is 1: an exponent is read. */
  lemma ToNumberOfExponent()
    ensures ToNumber("1e0") == Integer(1)
  {
    TrimUnspaced("1e0");
    assert ExponentAt("1e0") == 1;
    assert "1e0"[..1] == "1" && "1e0"[2..] == "0";
    assert DotAt("1") == 1;
    assert "1"[..1] == "1" && "1" + [] == "1" && "1"[..0] == [] && "0"[..0] == [];
  }

  /** `+"Infinity"` is not an integer. */
  lemma ToNumberOfInfinity()
    ensures ToNumber("Infinity") == NonInteger
  {
    TrimUnspaced("Infinity");
  }

  /** `+"-0x1"` is NaN: a radix literal takes no sign. */
  lemma ToNumberOfSignedHex()
    ensures ToNumber("-0x1") == NonInteger
  {
    TrimUnspaced("-0x1");
    assert "-0x1"[1..] == "0x1";
    assert ExponentAt("0x1") == 3;
    assert "0x1"[..3] == "0x1";
    assert DotAt("0x1") == 3;
    assert !IsDigit("0x1"[1]);
  }

  /** The decimal digits of a natural number, without leading zeros. */
  function NatString(n: nat): (s: string)
    ensures s != [] && AllDigits(s)
    ensures DigitsValue(s) == n
    ensures s[0] == '0' ==> n == 0
  {
    if n < 10 then [Digit(n)]
    else
      var prefix := NatString(n / 10);
      var s := prefix + [Digit(n % 10)];
      assert s[..|s| - 1] == prefix;
      s
  }

  /** `${n}`: how a number prints inside a template literal. */
  function DecimalString(n: int): string {
    if n < 0 then "-" + NatString(-n) else NatString(n)
  }

  /** Printing an integer and reading it back with unary `+` gives the integer again. */
  lemma ToNumberOfDecimalString(n: int)
    ensures ToNumber(DecimalString(n)) == Integer(n)
  {
    if n < 0 {
      var s := DecimalString(n);
      var digits := NatString(-n);
      assert s[1..] == digits;
      assert s[|s| - 1] == digits[|digits| - 1];
      assert IsDigit(digits[|digits| - 1]);
      TrimUnspaced(s);
      UnsignedDecimalOfDigits(digits);
    } else {
      ToNumberOfDigits(NatString(n));
    }
  }

  /** JavaScript truthiness of a string: every string but the empty one. */
  predicate Truthy(s: string) {
    s != ""
  }
}
