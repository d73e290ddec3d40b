/** The analyser's two text-to-number helpers: `parseDouble`, used for expected
    temperatures, and `parseEnergy`, which reads an energy quantity with an
    optional `kWh` or `Wh` unit and returns kilowatt-hours. */
module Energy {
  import opened Wrappers
  import opened JavaText
  import opened JavaNumbers

  /** `parseDouble`: every comma becomes a point, the text is trimmed and read
      by `Double.parseDouble`; any failure yields 0.0. */
  function ParseDouble(text: string): real {
    ParseJavaDouble(Trim(Replace(text, ",", "."))).GetOr(0.0)
  }

  /** The text `parseEnergy` inspects: trimmed, lower-cased, commas turned
      into points. */
  function CleanEnergy(text: string): string {
    Replace(ToLowerCase(Trim(text)), ",", ".")
  }

  /** `parseEnergy`: null is 0; otherwise a `kwh` ending is checked first (the
      number is taken as is), then a `wh` ending (the number is divided by
      1000), else the whole text is the number. The unit is removed with
      `replace`, which strips EVERY occurrence, not only the trailing one.
      `None` is the `NumberFormatException` `Double.parseDouble` throws. */
  function ParseEnergy(text: Option<string>): Option<real> {
    match text
    case None => Some(0.0)
    case Some(t) =>
      var clean := CleanEnergy(t);
      if EndsWith(clean, "kwh") then
        ParseJavaDouble(Trim(Replace(clean, "kwh", "")))
      else if EndsWith(clean, "wh") then
        match ParseJavaDouble(Trim(Replace(clean, "wh", "")))
        case Some(v) => Some(v / 1000.0)
        case None => None
      else
        ParseJavaDouble(clean)
  }

  /** Every character is one that `String.trim` would remove. */
  predicate Blank(s: string) {
    forall i :: 0 <= i < |s| ==> IsTrimmed(s[i])
  }

  /** A natural numeral, optional blanks, then a unit written in any case. */
  function Quantity(n: nat, gap: string, unit: string): string {
    NatText(n) + gap + unit
  }

  /** Cleaning a quantity leaves the numeral and the blanks and lower-cases
      the unit. */
  lemma {:induction false} CleanQuantity(n: nat, gap: string, unit: string)
    requires Blank(gap) && |unit| > 0 && !IsTrimmed(LowerChar(unit[|unit| - 1]))
    requires ',' !in ToLowerCase(unit)
    ensures CleanEnergy(Quantity(n, gap, unit)) == NatText(n) + gap + ToLowerCase(unit)
  {
    var num := NatText(n);
    var s := Quantity(n, gap, unit);
    assert s[|s| - 1] == unit[|unit| - 1];
    assert !IsTrimmed(s[|s| - 1]);
    assert !IsTrimmed(s[0]) by { assert s[0] == num[0] && IsDigit(num[0]); }
    TrimUnblanked(s);
    ToLowerCaseConcat(num + gap, unit);
    ToLowerCaseConcat(num, gap);
    assert ToLowerCase(num) == num by {
      assert forall i :: 0 <= i < |num| ==> IsDigit(num[i]);
    }
    assert ToLowerCase(gap) == gap;
    var lowered := num + gap + ToLowerCase(unit);
    assert ',' !in lowered by {
      assert forall i :: 0 <= i < |num| ==> IsDigit(num[i]);
      assert forall i :: 0 <= i < |gap| ==> IsTrimmed(gap[i]);
    }
    ReplaceAbsent(lowered, ",", ".");
  }

  /** Removing every occurrence of a unit that starts with a letter leaves
      the numeral and the blanks. */
  lemma {:induction false} StripUnit(n: nat, gap: string, unit: string)
    requires Blank(gap) && |unit| > 0 && !IsDigit(unit[0]) && !IsTrimmed(unit[0])
    ensures Replace(NatText(n) + gap + unit, unit, "") == NatText(n) + gap
  {
    var head := NatText(n) + gap;
    assert unit[0] !in head by {
      var num := NatText(n);
      assert forall i :: 0 <= i < |num| ==> IsDigit(num[i]);
      assert forall i :: 0 <= i < |gap| ==> IsTrimmed(gap[i]);
    }
    ReplaceSkipsPrefix(head, unit, unit, "");
    assert unit[..|unit|] == unit;
    assert unit[|unit|..] == [];
    assert Replace(unit, unit, "") == "" + Replace([], unit, "");
    assert head + "" == head;
  }

  /** `"2 kWh"`, `"2kwh"`, `"2 KWH"`: a `kWh` quantity is the number itself. */
  lemma KilowattHours(n: nat, gap: string, unit: string)
    requires Blank(gap) && ToLowerCase(unit) == "kwh"
    ensures ParseEnergy(Some(Quantity(n, gap, unit))) == Some(n as real)
  {
    assert |unit| == 3;
    CleanQuantity(n, gap, unit);
    var clean := NatText(n) + gap + "kwh";
    assert EndsWith(clean, "kwh");
    StripUnit(n, gap, "kwh");
    TrimNumeral(n, gap);
    NatTextParsesAsDouble(n);
  }

  /** `"500 Wh"`, `"1500Wh"`: a `Wh` quantity is divided by 1000, and the
      earlier `kwh` test does not catch it. */
  lemma WattHours(n: nat, gap: string, unit: string)
    requires Blank(gap) && ToLowerCase(unit) == "wh"
    ensures ParseEnergy(Some(Quantity(n, gap, unit))) == Some(n as real / 1000.0)
  {
    assert |unit| == 2;
    CleanQuantity(n, gap, unit);
    var num := NatText(n);
    var clean := num + gap + "wh";
    assert !EndsWith(clean, "kwh") by {
      if |clean| >= 3 {
        var c := clean[|clean| - 3];
        if |gap| > 0 {
          assert c == gap[|gap| - 1];
        } else {
          assert c == num[|num| - 1] && IsDigit(num[|num| - 1]);
        }
      }
    }
    assert EndsWith(clean, "wh");
    StripUnit(n, gap, "wh");
    TrimNumeral(n, gap);
    NatTextParsesAsDouble(n);
  }

  /** A number without a unit is read as kilowatt-hours. */
  lemma BareNumber(n: nat)
    ensures ParseEnergy(Some(NatText(n))) == Some(n as real)
  {
    var num := NatText(n);
    assert !IsTrimmed(num[0]) && !IsTrimmed(num[|num| - 1]);
    TrimUnblanked(num);
    assert ToLowerCase(num) == num;
    assert ',' !in num;
    ReplaceAbsent(num, ",", ".");
    assert !EndsWith(num, "kwh") && !EndsWith(num, "wh") by {
      assert IsDigit(num[|num| - 1]);
    }
    NatTextParsesAsDouble(n);
  }

  lemma TrimNumeral(n: nat, gap: string)
    requires Blank(gap)
    ensures Trim(NatText(n) + gap) == NatText(n)
  {
    var num := NatText(n);
    assert IsDigit(num[0]) && IsDigit(num[|num| - 1]);
    TrimDropsTrailingBlanks(num, gap);
  }

  /** Replacing with a digit-free text never creates a digit. */
  lemma {:induction false} ReplaceNoDigits(s: string, target: string, rep: string)
    requires |target| > 0 && NoDigits(s) && NoDigits(rep)
    ensures NoDigits(Replace(s, target, rep))
    decreases |s|
  {
    if |s| >= |target| {
      if s[..|target|] == target {
        NoDigitsSlice(s, |target|, |s|);
        ReplaceNoDigits(s[|target|..], target, rep);
      } else {
        NoDigitsSlice(s, 1, |s|);
        ReplaceNoDigits(s[1..], target, rep);
      }
    }
  }

  lemma TrimNoDigits(s: string)
    requires NoDigits(s)
    ensures NoDigits(Trim(s))
  {
    TrimIsCore(s);
    var i, j :| 0 <= i <= j <= |s| && Trim(s) == s[i..j];
    NoDigitsSlice(s, i, j);
  }

  /** `parseDouble` never fails: a text with no digit at all reads as 0. */
  lemma ParseDoubleDefaultsToZero(text: string)
    requires NoDigits(text)
    ensures ParseDouble(text) == 0.0
  {
    ReplaceNoDigits(text, ",", ".");
    TrimNoDigits(Replace(text, ",", "."));
    ParseJavaDoubleNeedsDigit(Trim(Replace(text, ",", ".")));
  }

  /** `parseEnergy`, unlike `parseDouble`, has no fallback: a non-null text
      with no digit makes it throw, whatever unit it ends in. */
  lemma ParseEnergyRejectsNoDigits(text: string)
    requires NoDigits(text)
    ensures ParseEnergy(Some(text)) == None
  {
    TrimNoDigits(text);
    var lowered := ToLowerCase(Trim(text));
    assert NoDigits(lowered);
    ReplaceNoDigits(lowered, ",", ".");
    var clean := CleanEnergy(text);
    ReplaceNoDigits(clean, "kwh", "");
    TrimNoDigits(Replace(clean, "kwh", ""));
    ParseJavaDoubleNeedsDigit(Trim(Replace(clean, "kwh", "")));
    ReplaceNoDigits(clean, "wh", "");
    TrimNoDigits(Replace(clean, "wh", ""));
    ParseJavaDoubleNeedsDigit(Trim(Replace(clean, "wh", "")));
    ParseJavaDoubleNeedsDigit(clean);
  }

  /** Null energy text reads as 0 kWh, and a config default of `"2 kWh"`
      reads as 2. */
  lemma Defaults()
    ensures ParseEnergy(None) == Some(0.0)
    ensures ParseEnergy(Some("2 kWh")) == Some(2.0)
    ensures ParseEnergy(Some("0")) == Some(0.0)
  {
    assert Quantity(2, " ", "kWh") == "2 kWh";
    KilowattHours(2, " ", "kWh");
    assert NatText(0) == "0";
    BareNumber(0);
  }

  /** The numeral `whole,fraction` with a decimal comma, then blanks and a
      unit. */
  function CommaQuantity(whole: nat, fraction: nat, gap: string, unit: string): string {
    NatText(whole) + "," + NatText(fraction) + gap + unit
  }

  /** `"2,5 kWh"`: a decimal comma is read as a decimal point. */
  lemma DecimalCommaKilowattHours(whole: nat, fraction: nat, gap: string, unit: string)
    requires Blank(gap) && ToLowerCase(unit) == "kwh"
    ensures ParseEnergy(Some(CommaQuantity(whole, fraction, gap, unit)))
         == Some(PointValue(NatText(whole), NatText(fraction)))
  {
    var w, f := NatText(whole), NatText(fraction);
    var point := w + "." + f;
    CleanCommaQuantity(whole, fraction, gap, unit);
    assert EndsWith(point + gap + "kwh", "kwh");
    StripPointUnit(w, f, gap);
    PointSplits(w, f);
  }

  lemma CleanCommaQuantity(whole: nat, fraction: nat, gap: string, unit: string)
    requires Blank(gap) && ToLowerCase(unit) == "kwh"
    ensures CleanEnergy(CommaQuantity(whole, fraction, gap, unit))
         == NatText(whole) + "." + NatText(fraction) + gap + "kwh"
  {
    var w, f := NatText(whole), NatText(fraction);
    var s := CommaQuantity(whole, fraction, gap, unit);
    var rest := f + gap + "kwh";
    calc {
      CleanEnergy(s);
      Replace(ToLowerCase(Trim(s)), ",", ".");
      { TrimCommaQuantity(w, f, gap, unit); }
      Replace(ToLowerCase(s), ",", ".");
      { LowerCommaQuantity(w, f, gap, unit); }
      Replace(w + ("," + rest), ",", ".");
      { NoCommaIn(w, f, gap); CommaToPoint(w, rest); }
      w + ("." + rest);
      w + "." + f + gap + "kwh";
    }
  }

  lemma TrimCommaQuantity(w: string, f: string, gap: string, unit: string)
    requires AllDigits(w) && |w| > 0 && ToLowerCase(unit) == "kwh"
    ensures Trim(w + "," + f + gap + unit) == w + "," + f + gap + unit
  {
    var s := w + "," + f + gap + unit;
    assert |unit| == 3;
    assert s[0] == w[0] && IsDigit(w[0]);
    assert s[|s| - 1] == unit[2];
    assert !IsTrimmed(s[|s| - 1]) by { assert LowerChar(unit[2]) == 'h'; }
    TrimUnblanked(s);
  }

  lemma NoCommaIn(w: string, f: string, gap: string)
    requires AllDigits(w) && AllDigits(f) && Blank(gap)
    ensures ',' !in w && ',' !in f + gap + "kwh"
  {
    assert forall i :: 0 <= i < |w| ==> IsDigit(w[i]);
    assert forall i :: 0 <= i < |f| ==> IsDigit(f[i]);
    assert forall i :: 0 <= i < |gap| ==> IsTrimmed(gap[i]);
  }

  /** The comma between two comma-free texts becomes a point. */
  lemma CommaToPoint(w: string, rest: string)
    requires ',' !in w && ',' !in rest
    ensures Replace(w + ("," + rest), ",", ".") == w + ("." + rest)
  {
    ReplaceSkipsPrefix(w, "," + rest, ",", ".");
    assert ("," + rest)[..1] == "," && ("," + rest)[1..] == rest;
    ReplaceAbsent(rest, ",", ".");
  }

  lemma LowerCommaQuantity(w: string, f: string, gap: string, unit: string)
    requires AllDigits(w) && AllDigits(f) && Blank(gap) && ToLowerCase(unit) == "kwh"
    ensures ToLowerCase(w + "," + f + gap + unit) == w + ("," + (f + gap + "kwh"))
  {
    ToLowerCaseConcat(w + "," + f + gap, unit);
    ToLowerCaseConcat(w + "," + f, gap);
    ToLowerCaseConcat(w + ",", f);
    ToLowerCaseConcat(w, ",");
    assert ToLowerCase(w) == w && ToLowerCase(f) == f && ToLowerCase(gap) == gap;
    assert ToLowerCase(",") == ",";
    assert forall i :: 0 <= i < |f| ==> IsDigit(f[i]);
    assert forall i :: 0 <= i < |gap| ==> IsTrimmed(gap[i]);
  }

  lemma StripPointUnit(w: string, f: string, gap: string)
    requires AllDigits(w) && AllDigits(f) && Blank(gap) && |w| > 0 && |f| > 0
    ensures Trim(Replace(w + "." + f + gap + "kwh", "kwh", "")) == w + "." + f
  {
    var point := w + "." + f;
    assert 'k' !in point + gap by {
      assert forall i :: 0 <= i < |w| ==> IsDigit(w[i]);
      assert forall i :: 0 <= i < |f| ==> IsDigit(f[i]);
      assert forall i :: 0 <= i < |gap| ==> IsTrimmed(gap[i]);
    }
    ReplaceSkipsPrefix(point + gap, "kwh", "kwh", "");
    assert Replace("kwh", "kwh", "") == "" + Replace([], "kwh", "");
    assert point + gap + "kwh" == (point + gap) + "kwh";
    assert !IsTrimmed(point[0]) && !IsTrimmed(point[|point| - 1]) by {
      assert point[0] == w[0] && IsDigit(w[0]);
      assert point[|point| - 1] == f[|f| - 1] && IsDigit(f[|f| - 1]);
    }
    TrimDropsTrailingBlanks(point, gap);
    assert (point + gap) + "" == point + gap;
  }

  /** The last point of `w.f`, when `f` has none, is the one between them. */
  lemma PointSplits(w: string, f: string)
    requires AllDigits(w) && AllDigits(f) && |w| > 0
    ensures ParseJavaDouble(w + "." + f) == Some(PointValue(w, f))
  {
    var p := w + "." + f;
    var k := LastIndexOf(p, '.');
    assert p[|w|] == '.';
    assert k == |w|;
    assert p[..k] == w && p[k + 1..] == f;
    assert p[0] == w[0];
    TrimUnblanked(p);
  }

  /** `"5\u212AWh"`, written with the Kelvin sign, lower-cases to `"5kwh"`
      and is 5 kWh. */
  lemma KelvinSignKilowattHours()
    ensures ParseEnergy(Some("5" + [KelvinSign] + "Wh")) == Some(5.0)
  {
    var unit := [KelvinSign] + "Wh";
    assert ToLowerCase(unit) == "kwh";
    assert NatText(5) == "5";
    assert Quantity(5, "", unit) == "5" + [KelvinSign] + "Wh";
    KilowattHours(5, "", unit);
  }

  /** `"500 Wh"` is half a kilowatt-hour. */
  lemma HalfKilowattHour()
    ensures ParseEnergy(Some("500 Wh")) == Some(0.5)
  {
    assert NatText(500) == "500";
    assert Quantity(500, " ", "Wh") == "500 Wh";
    WattHours(500, " ", "Wh");
  }
}
