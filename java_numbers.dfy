/** The two JDK number parsers the analyser calls: `Double.parseDouble` and
    `Integer.parseInt`. Failure, where Java throws `NumberFormatException`, is
    `None`. */
module JavaNumbers {
  import opened Wrappers
  import opened JavaText

  predicate IsDigit(c: char) {
    '0' <= c <= '9'
  }

  predicate AllDigits(s: string) {
    forall i :: 0 <= i < |s| ==> IsDigit(s[i])
  }

  function DigitValue(c: char): nat
    requires IsDigit(c)
  {
    c as int - '0' as int
  }

  /** The number a string of decimal digits denotes (0 for the empty string). */
  function DigitsValue(s: string): nat
    requires AllDigits(s)
    decreases |s|
  {
    if |s| == 0 then 0 else DigitsValue(s[..|s| - 1]) * 10 + DigitValue(s[|s| - 1])
  }

  /** The value of the digits after a decimal point: `25` is 0.25. Every
      such value lies in [0, 1). */
  function FractionValue(s: string): (r: real)
    requires AllDigits(s)
    ensures 0.0 <= r < 1.0
    decreases |s|
  {
    if |s| == 0 then 0.0 else (DigitValue(s[0]) as real + FractionValue(s[1..])) / 10.0
  }

  /** An unsigned decimal numeral: digits, optionally followed by a point and
      more digits, with at least one digit in all (`5`, `5.`, `.5`, `2.25`). */
  function UnsignedDecimal(s: string): Option<real> {
    var k := LastIndexOf(s, '.');
    if k < 0 then
      if |s| > 0 && AllDigits(s) then Some(DigitsValue(s) as real) else None
    else
      var whole, fraction := s[..k], s[k + 1..];
      if AllDigits(whole) && AllDigits(fraction) && |whole| + |fraction| > 0 then
        Some(PointValue(whole, fraction))
      else None
  }

  /** The value of the numeral `whole.fraction`. */
  function PointValue(whole: string, fraction: string): real
    requires AllDigits(whole) && AllDigits(fraction)
  {
    DigitsValue(whole) as real + FractionValue(fraction)
  }

  /** `Double.parseDouble(s)`: the argument is trimmed, then read as an
      optionally signed decimal numeral. */
  function ParseJavaDouble(s: string): Option<real> {
    var t := Trim(s);
    if |t| > 0 && t[0] == '-' then
      match UnsignedDecimal(t[1..])
      case Some(v) => Some(-v)
      case None => None
    else if |t| > 0 && t[0] == '+' then UnsignedDecimal(t[1..])
    else UnsignedDecimal(t)
  }

  const IntMin: int := -0x8000_0000
  const IntMax: int := 0x7fff_ffff

  /** `Integer.parseInt(s)`: an optional sign and at least one digit, no
      blanks, and the value must fit in 32 bits. */
  function ParseJavaInt(s: string): (r: Option<int>)
    ensures r.Some? ==> IntMin <= r.value <= IntMax
    ensures r.Some? ==> |s| > 0
  {
    var negative := |s| > 0 && s[0] == '-';
    var digits := if |s| > 0 && (s[0] == '-' || s[0] == '+') then s[1..] else s;
    if |digits| == 0 || !AllDigits(digits) then None
    else
      var v: int := if negative then -(DigitsValue(digits) as int) else DigitsValue(digits);
      if IntMin <= v <= IntMax then Some(v) else None
  }

  /** No character of `s` is a decimal digit. */
  predicate NoDigits(s: string) {
    forall i :: 0 <= i < |s| ==> !IsDigit(s[i])
  }

  lemma NoDigitsSlice(s: string, i: nat, j: nat)
    requires NoDigits(s) && i <= j <= |s|
    ensures NoDigits(s[i..j])
  {
    assert forall k :: 0 <= k < j - i ==> s[i..j][k] == s[i + k];
  }

  lemma NoDigitsNoNumeral(s: string)
    requires NoDigits(s)
    ensures !(|s| > 0 && AllDigits(s))
  {
    if |s| > 0 {
      assert !IsDigit(s[0]);
    }
  }

  /** Every numeral `ParseJavaDouble` accepts contains a digit, so a text
      without digits is always refused. */
  lemma ParseJavaDoubleNeedsDigit(s: string)
    requires NoDigits(s)
    ensures ParseJavaDouble(s) == None
  {
    TrimIsCore(s);
    var i, j :| 0 <= i <= j <= |s| && Trim(s) == s[i..j];
    NoDigitsSlice(s, i, j);
    var t := Trim(s);
    UnsignedNeedsDigit(t);
    if |t| > 0 {
      NoDigitsSlice(t, 1, |t|);
      UnsignedNeedsDigit(t[1..]);
    }
  }

  lemma UnsignedNeedsDigit(s: string)
    requires NoDigits(s)
    ensures UnsignedDecimal(s) == None
  {
    var k := LastIndexOf(s, '.');
    if k >= 0 {
      NoDigitsSlice(s, 0, k);
      NoDigitsSlice(s, k + 1, |s|);
      NoDigitsNoNumeral(s[..k]);
      NoDigitsNoNumeral(s[k + 1..]);
    } else {
      NoDigitsNoNumeral(s);
    }
  }

  /** The decimal numeral of a natural number, without leading zeros. */
  function NatText(n: nat): (r: string)
    ensures |r| > 0 && AllDigits(r)
    decreases n
  {
    if n < 10 then ['0' + n as char]
    else NatText(n / 10) + ['0' + (n % 10) as char]
  }

  /** Reading back a numeral gives the number it was written from. */
  lemma {:induction false} NatTextValue(n: nat)
    ensures DigitsValue(NatText(n)) == n
    decreases n
  {
    if n >= 10 {
      NatTextValue(n / 10);
      var s := NatText(n);
      assert s[..|s| - 1] == NatText(n / 10);
    }
  }

  lemma NatTextNoPoint(n: nat)
    ensures '.' !in NatText(n)
  {
  }

  /** `Double.parseDouble` reads back every natural numeral exactly. */
  lemma NatTextParsesAsDouble(n: nat)
    ensures ParseJavaDouble(NatText(n)) == Some(n as real)
  {
    var s := NatText(n);
    TrimUnblanked(s);
    NatTextValue(n);
    NatTextNoPoint(n);
  }

  /** The decimal numeral of an integer, as `Integer.toString` writes it. */
  function IntText(n: int): (r: string)
    ensures |r| > 0 && forall i :: 0 <= i < |r| ==> IsDigit(r[i]) || r[i] == '-'
  {
    if n < 0 then "-" + NatText(-n) else NatText(n)
  }

  /** `Integer.parseInt` reads back the numeral of every 32-bit integer,
      negative ones included, and refuses every numeral outside that range. */
  lemma IntTextParsesAsInt(n: int)
    ensures ParseJavaInt(IntText(n)) == if IntMin <= n <= IntMax then Some(n) else None
  {
    if n < 0 {
      NatTextValue(-n);
      assert IntText(n)[1..] == NatText(-n);
    } else {
      NatTextValue(n);
    }
  }

  /** `Integer.parseInt` reads back every numeral of a non-negative `int`, and
      refuses the ones too large for 32 bits. */
  lemma NatTextParsesAsInt(n: nat)
    ensures ParseJavaInt(NatText(n)) == if n <= IntMax then Some(n) else None
  {
    NatTextValue(n);
  }
}
