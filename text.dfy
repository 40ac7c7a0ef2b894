/** String helpers: ASCII lower-casing, prefixes, `str.split(sep)[0]`, integer
    formatting and the decimal parsing that pandas and numpy apply to cell text. */
module Text {
  import opened Wrappers

  function LowerChar(c: char): char {
    if 'A' <= c <= 'Z' then (c as int + 32) as char else c
  }

  /** Python's `str.lower()`, restricted to ASCII letters. */
  function Lower(s: string): (r: string)
    ensures |r| == |s|
    ensures forall i :: 0 <= i < |s| ==> r[i] == LowerChar(s[i])
  {
    if s == [] then [] else [LowerChar(s[0])] + Lower(s[1..])
  }

  predicate StartsWith(s: string, prefix: string) {
    |prefix| <= |s| && s[..|prefix|] == prefix
  }

  /** `sep` occurs in `s` starting at index `i`. */
  predicate OccursAt(s: string, sep: string, i: nat) {
    i + |sep| <= |s| && s[i..i + |sep|] == sep
  }

  /** `s.split(sep)[0]`: the text before the first occurrence of `sep`, or all of `s`. */
  function BeforeFirst(s: string, sep: string): (r: string)
    requires |sep| > 0
    ensures StartsWith(s, r)
    ensures |r| == |s| || OccursAt(s, sep, |r|)
    ensures forall i :: 0 <= i < |r| ==> !OccursAt(s, sep, i)
  {
    if OccursAt(s, sep, 0) then []
    else if s == [] then []
    else
      var rest := BeforeFirst(s[1..], sep);
      assert forall i :: 0 <= i <= |rest| ==> (OccursAt(s, sep, i + 1) <==> OccursAt(s[1..], sep, i)) by {
        forall i | 0 <= i <= |rest| ensures OccursAt(s, sep, i + 1) <==> OccursAt(s[1..], sep, i) {
          OccursShift(s, sep, i);
        }
      }
      assert forall i :: 1 <= i <= |rest| ==> !OccursAt(s, sep, i) by {
        forall i | 1 <= i <= |rest| ensures !OccursAt(s, sep, i) {
          assert !OccursAt(s[1..], sep, i - 1);
        }
      }
      [s[0]] + rest
  }

  /** An occurrence one place further in `s` is one in its tail. */
  lemma OccursShift(s: string, sep: string, i: nat)
    requires s != []
    ensures OccursAt(s, sep, i + 1) <==> OccursAt(s[1..], sep, i)
  {
    if i + 1 + |sep| <= |s| {
      var a, b := s[i + 1..i + 1 + |sep|], s[1..][i..i + |sep|];
      assert |a| == |b| && forall k :: 0 <= k < |a| ==> a[k] == s[i + 1 + k] == b[k];
    }
  }

  function DigitChar(d: nat): (c: char)
    requires d < 10
    ensures IsDigit(c) && DigitValue(c) == d
  {
    ('0' as int + d) as char
  }

  predicate IsDigit(c: char) {
    '0' <= c <= '9'
  }

  function DigitValue(c: char): nat
    requires IsDigit(c)
  {
    c as int - '0' as int
  }

  /** Decimal digits of `n`, most significant first, without leading zeros. */
  function NatToString(n: nat): (r: string)
    ensures |r| > 0 && forall i :: 0 <= i < |r| ==> IsDigit(r[i])
    decreases n
  {
    if n < 10 then [DigitChar(n)] else NatToString(n / 10) + [DigitChar(n % 10)]
  }

  /** Python's `str(i)` for an integer. */
  function IntToString(i: int): string {
    if i < 0 then "-" + NatToString(-i) else NatToString(i)
  }

  predicate AllDigits(s: string) {
    forall i :: 0 <= i < |s| ==> IsDigit(s[i])
  }

  /** The value of a string of decimal digits (0 for the empty string). */
  function DigitsValue(s: string): nat
    requires AllDigits(s)
  {
    if s == [] then 0 else 10 * DigitsValue(s[..|s| - 1]) + DigitValue(s[|s| - 1])
  }

  /** Reading back what NatToString wrote gives the number again. */
  lemma {:induction false} NatToStringRoundTrip(n: nat)
    ensures DigitsValue(NatToString(n)) == n
    decreases n
  {
    var r := NatToString(n);
    if n >= 10 {
      NatToStringRoundTrip(n / 10);
      assert r[..|r| - 1] == NatToString(n / 10);
    }
  }

  function Pow10(k: nat): (r: nat)
    ensures r > 0
  {
    if k == 0 then 1 else 10 * Pow10(k - 1)
  }

  predicate IsSpace(c: char) {
    c == ' ' || c == '\t' || c == '\n' || c == '\r'
  }

  function TrimStart(s: string): string {
    if s != [] && IsSpace(s[0]) then TrimStart(s[1..]) else s
  }

  function TrimEnd(s: string): string {
    if s != [] && IsSpace(s[|s| - 1]) then TrimEnd(s[..|s| - 1]) else s
  }

  /** The longest prefix of `s` made of digits. */
  function LeadingDigits(s: string): (r: string)
    ensures StartsWith(s, r) && AllDigits(r)
    ensures |r| == |s| || !IsDigit(s[|r|])
  {
    if s != [] && IsDigit(s[0]) then [s[0]] + LeadingDigits(s[1..]) else []
  }

  /** A decimal number of the form [spaces][+|-]digits[.digits][spaces], with at least
      one digit, as pandas' `to_numeric` and Python's `float` read it; None when the
      text is not such a number. */
  function ParseDecimal(s: string): Option<real> {
    ParseSignedNumber(TrimEnd(TrimStart(s)))
  }

  /** A trimmed number: an optional sign, then an unsigned number. */
  function ParseSignedNumber(t: string): Option<real> {
    if t == [] then None
    else
      var u := if t[0] == '-' || t[0] == '+' then t[1..] else t;
      var sign := if t[0] == '-' then -1.0 else 1.0;
      match ParseUnsigned(u)
      case None => None
      case Some(v) => Some(sign * v)
  }

  /** digits[.digits], with at least one digit. */
  function ParseUnsigned(u: string): Option<real> {
    var whole := LeadingDigits(u);
    var rest := u[|whole|..];
    if rest == [] then
      if whole == [] then None else Some(DigitsValue(whole) as real)
    else if rest[0] == '.' && AllDigits(rest[1..]) && |whole| + |rest| > 1 then
      var frac := rest[1..];
      Some(DigitsValue(whole) as real + Fraction(DigitsValue(frac), Pow10(|frac|)))
    else None
  }

  /** The value of the digits after the point: `n / p` with `p` a power of ten. */
  function Fraction(n: nat, p: nat): real
    requires p > 0
  {
    n as real / p as real
  }

  /** A whole number, [spaces][+|-]digits[spaces]: the texts pandas' `to_numeric`
      reads as integers. */
  predicate IsIntegerText(s: string) {
    var t := TrimEnd(TrimStart(s));
    t != [] &&
    var u := if t[0] == '-' || t[0] == '+' then t[1..] else t;
    u != [] && AllDigits(u)
  }

  /** The leading digits of digits followed by a non-digit are those digits. */
  lemma {:induction false} LeadingDigitsOf(d: string, x: string)
    requires AllDigits(d) && (x == [] || !IsDigit(x[0]))
    ensures LeadingDigits(d + x) == d
    decreases |d|
  {
    if d != [] {
      assert (d + x)[1..] == d[1..] + x;
      LeadingDigitsOf(d[1..], x);
    } else {
      assert d + x == x;
    }
  }

  /** Digits alone read as their value. */
  lemma UnsignedWhole(d: string)
    requires AllDigits(d) && d != []
    ensures ParseUnsigned(d) == Some(DigitsValue(d) as real)
  {
    LeadingDigitsOf(d, []);
    assert d + [] == d;
    assert d[|d|..] == [];
  }

  /** The value of digits, a point and digits, given where the point is. */
  lemma UnsignedPoint(u: string, w: string, rest: string)
    requires w == LeadingDigits(u) && rest == u[|w|..]
    requires rest != [] && rest[0] == '.' && AllDigits(rest[1..]) && |w| + |rest| > 1
    ensures ParseUnsigned(u) == Some(DigitsValue(w) as real + Fraction(DigitsValue(rest[1..]), Pow10(|rest[1..]|)))
  {
  }

  /** Digits followed by ".0" read as the digits' value. */
  lemma UnsignedFloat(d: string)
    requires AllDigits(d) && d != []
    ensures ParseUnsigned(d + ".0") == Some(DigitsValue(d) as real)
  {
    var tail := ".0";
    var u := d + tail;
    LeadingDigitsOf(d, tail);
    assert u[|d|..] == tail;
    assert tail[1..] == "0";
    assert DigitsValue("0") == 0 by {
      assert "0"[..0] == [];
    }
    ZeroOver(Pow10(1));
    UnsignedPoint(u, d, tail);
  }

  lemma ZeroOver(p: nat)
    requires p > 0
    ensures Fraction(0, p) == 0.0
  {
  }

  /** A whole number parses, and to a whole value. */
  lemma IntegerTextParses(s: string)
    requires IsIntegerText(s)
    ensures ParseDecimal(s).Some? && ParseDecimal(s).value.Floor as real == ParseDecimal(s).value
  {
    var t := TrimEnd(TrimStart(s));
    var u := if t[0] == '-' || t[0] == '+' then t[1..] else t;
    UnsignedWhole(u);
    WholeValue(t[0] == '-', DigitsValue(u));
  }

  lemma WholeValue(negative: bool, v: nat)
    ensures var x := (if negative then -1.0 else 1.0) * v as real; x.Floor as real == x
  {
    if negative {
      assert (-1.0) * v as real == (-(v as int)) as real;
    }
  }

  /** Text that starts and ends with something other than a space is not trimmed. */
  lemma NoTrim(r: string)
    requires r != [] && !IsSpace(r[0]) && !IsSpace(r[|r| - 1])
    ensures TrimEnd(TrimStart(r)) == r
  {
  }

  function Signed(negative: bool, u: string): string {
    (if negative then "-" else "") + u
  }

  /** Stripping the optional minus of signed digits gives the digits back. */
  lemma UnsignedPart(negative: bool, u: string)
    requires u != [] && IsDigit(u[0])
    ensures var r := Signed(negative, u);
            r != [] && (if r[0] == '-' || r[0] == '+' then r[1..] else r) == u && (r[0] == '-' <==> negative)
  {
  }

  /** Signed digits, ending in a digit, parse as the signed value of the unsigned part,
      and are a whole number exactly when the unsigned part is all digits. */
  lemma SignedNumber(negative: bool, u: string, v: real)
    requires u != [] && IsDigit(u[0]) && IsDigit(u[|u| - 1]) && ParseUnsigned(u) == Some(v)
    ensures ParseDecimal(Signed(negative, u)) == Some((if negative then -1.0 else 1.0) * v)
    ensures IsIntegerText(Signed(negative, u)) <==> AllDigits(u)
  {
    var r := Signed(negative, u);
    assert r[|r| - 1] == u[|u| - 1];
    NoTrim(r);
    UnsignedPart(negative, u);
  }

  /** An optional minus and digits read back as the signed digits, and as a whole number. */
  lemma ParseWhole(negative: bool, d: string)
    requires AllDigits(d) && d != []
    ensures IsIntegerText(Signed(negative, d))
    ensures ParseDecimal(Signed(negative, d)) == Some((if negative then -1.0 else 1.0) * DigitsValue(d) as real)
  {
    UnsignedWhole(d);
    SignedNumber(negative, d, DigitsValue(d) as real);
  }

  /** An optional minus, digits and ".0" read back as the signed digits, but not as a
      whole number. */
  lemma ParseFloat(negative: bool, d: string)
    requires AllDigits(d) && d != []
    ensures !IsIntegerText(Signed(negative, d + ".0"))
    ensures ParseDecimal(Signed(negative, d + ".0")) == Some((if negative then -1.0 else 1.0) * DigitsValue(d) as real)
  {
    var u := d + ".0";
    UnsignedFloat(d);
    assert u[|u| - 1] == '0' && u[0] == d[0];
    assert !AllDigits(u) by {
      assert u[|d|] == '.' && !IsDigit(u[|d|]);
    }
    SignedNumber(negative, u, DigitsValue(d) as real);
  }

  /** Python's `str(i)` of an integer reads back, as a whole number, as the integer. */
  lemma IntToStringParses(i: int)
    ensures IsIntegerText(IntToString(i))
    ensures ParseDecimal(IntToString(i)) == Some(i as real)
  {
    var m: nat := if i < 0 then -i else i;
    var d := NatToString(m);
    assert IntToString(i) == Signed(i < 0, d);
    ParseWhole(i < 0, d);
    NatToStringRoundTrip(m);
  }

  /** The text Python prints for an integral float, `str(i) + ".0"`, reads back as the
      same value but not as a whole number. */
  lemma FloatStringParses(i: int)
    ensures !IsIntegerText(IntToString(i) + ".0")
    ensures ParseDecimal(IntToString(i) + ".0") == Some(i as real)
  {
    var m: nat := if i < 0 then -i else i;
    var d := NatToString(m);
    assert IntToString(i) == Signed(i < 0, d);
    assert IntToString(i) + ".0" == Signed(i < 0, d + ".0");
    ParseFloat(i < 0, d);
    NatToStringRoundTrip(m);
  }
}
