// Arabic-Indic numerals for the shift report and the product page:
// digit substitution, the currency formatter and the integer formatter.
//
// Numbers are exact reals. Number.prototype.toFixed(2) is rounding half away
// from zero of the magnitude with the sign written in front; Math.round is
// rounding half towards +infinity. The thousands-grouping regular expression
// /\B(?=(\d{3})+(?!\d))/g is modelled literally: it runs on a string whose
// digits have already been substituted, and since `\d` matches ASCII digits
// only it inserts nothing there. GroupedCurrencyArabic and GroupedNumberArabic
// at the end group the ASCII digits first, as the formatters evidently mean to.

module ArabicFormat {

  import opened Common

  /** ARABIC-INDIC DIGIT ZERO; digit d is this code point plus d. */
  const ArabicZero: int := 0x0660
  /** ARABIC THOUSANDS SEPARATOR, what the grouping step would insert. */
  const ThousandsSep: char := '\U{066C}'
  /** " ج.م", the Egyptian-pound suffix. */
  const CurrencySuffix: string := " \U{062C}.\U{0645}"
  /** The fixed text for a missing or non-numeric amount: "٠٫٠٠ ج.م" (note ARABIC DECIMAL SEPARATOR). */
  const CurrencyFallback: string := "\U{0660}\U{066B}\U{0660}\U{0660}" + CurrencySuffix
  /** The fixed text for a missing or non-numeric count: "٠". */
  const NumberFallback: string := "\U{0660}"

  function DigitValue(c: char): nat
    requires IsAsciiDigit(c)
  {
    c as int - '0' as int
  }

  function ArabicDigit(d: nat): char
    requires d < 10
  {
    (ArabicZero + d) as char
  }

  predicate IsArabicDigit(c: char) { ArabicZero <= c as int < ArabicZero + 10 }

  /** The replacement callback `(digit) => arabicDigits[parseInt(digit)]`. */
  function SubstituteChar(c: char): char {
    if IsAsciiDigit(c) then ArabicDigit(DigitValue(c)) else c
  }

  /**
   * `s.replace(/\d/g, ...)`: the global replace visits the string from left
   * to right and rewrites each ASCII digit. This is toArabicNumbers of the
   * product page, applied to the string form of its argument.
   */
  function ToArabicNumbers(s: string): string {
    if s == [] then [] else [SubstituteChar(s[0])] + ToArabicNumbers(s[1..])
  }

  /** The report's toArabicNumbers: null or undefined (None) gives "٠". */
  function ToArabicNumbersOrZero(v: Option<string>): (r: string)
    ensures v.None? ==> r == NumberFallback
  {
    match v
    case None => NumberFallback
    case Some(s) => ToArabicNumbers(s)
  }

  /**
   * Each ASCII digit d becomes the d-th Arabic-Indic digit (U+0660 + d),
   * every other character is kept, and the length does not change.
   */
  lemma {:induction false} ToArabicNumbersAt(s: string)
    ensures |ToArabicNumbers(s)| == |s|
    ensures forall i :: 0 <= i < |s| && IsAsciiDigit(s[i]) ==>
      ToArabicNumbers(s)[i] as int == ArabicZero + DigitValue(s[i])
    ensures forall i :: 0 <= i < |s| && !IsAsciiDigit(s[i]) ==> ToArabicNumbers(s)[i] == s[i]
  {
    if s != [] {
      ToArabicNumbersAt(s[1..]);
      var r := ToArabicNumbers(s);
      assert forall i :: 1 <= i < |s| ==> r[i] == ToArabicNumbers(s[1..])[i - 1] && s[i] == s[1..][i - 1];
    }
  }

  /** The output holds no ASCII digit, so applying the substitution again changes nothing. */
  lemma ToArabicNumbersIdempotent(s: string)
    ensures NoDigits(ToArabicNumbers(s))
    ensures ToArabicNumbers(ToArabicNumbers(s)) == ToArabicNumbers(s)
  {
    ToArabicNumbersAt(s);
    NoDigitsUnchanged(ToArabicNumbers(s));
  }

  /** A string without ASCII digits is left as it is. */
  lemma {:induction false} NoDigitsUnchanged(s: string)
    requires NoDigits(s)
    ensures ToArabicNumbers(s) == s
  {
    if s != [] {
      assert NoDigits(s[1..]) by {
        forall i | 0 <= i < |s[1..]| ensures !IsAsciiDigit(s[1..][i]) {
          assert s[1..][i] == s[i + 1];
        }
      }
      NoDigitsUnchanged(s[1..]);
    }
  }

  /** Reading Arabic-Indic digits back as ASCII digits. */
  function FromArabicChar(c: char): char {
    if IsArabicDigit(c) then ('0' as int + (c as int - ArabicZero)) as char else c
  }

  function FromArabicNumbers(s: string): string {
    if s == [] then [] else [FromArabicChar(s[0])] + FromArabicNumbers(s[1..])
  }

  predicate NoArabicDigits(s: string) { forall i :: 0 <= i < |s| ==> !IsArabicDigit(s[i]) }

  /** Substitution loses nothing: on a string that held no Arabic-Indic digit it can be undone. */
  lemma {:induction false} FromArabicInverts(s: string)
    requires NoArabicDigits(s)
    ensures FromArabicNumbers(ToArabicNumbers(s)) == s
  {
    if s != [] {
      assert NoArabicDigits(s[1..]) by {
        forall i | 0 <= i < |s[1..]| ensures !IsArabicDigit(s[1..][i]) {
          assert s[1..][i] == s[i + 1];
        }
      }
      FromArabicInverts(s[1..]);
    }
  }

  // ---------------------------------------------------------------------
  // Number.prototype.toString on integers

  function NatToString(n: nat): (r: string)
    ensures |r| >= 1
  {
    if n < 10 then ['0' + n as char] else NatToString(n / 10) + ['0' + (n % 10) as char]
  }

  function IntToString(n: int): string {
    if n < 0 then "-" + NatToString(-n) else NatToString(n)
  }

  predicate AllAsciiDigits(s: string) { forall i :: 0 <= i < |s| ==> IsAsciiDigit(s[i]) }

  /** The decimal value of a string of ASCII digits. */
  function ParseNat(s: string): nat
    requires AllAsciiDigits(s)
  {
    if s == [] then 0 else ParseNat(s[..|s| - 1]) * 10 + DigitValue(s[|s| - 1])
  }

  /** NatToString writes only digits, without leading zeros, and reads back as n. */
  lemma {:induction false} NatToStringRoundTrip(n: nat)
    ensures AllAsciiDigits(NatToString(n))
    ensures NatToString(n)[0] != '0' || n == 0
    ensures ParseNat(NatToString(n)) == n
  {
    if n >= 10 {
      NatToStringRoundTrip(n / 10);
      var s := NatToString(n);
      assert s[..|s| - 1] == NatToString(n / 10);
    }
  }

  // ---------------------------------------------------------------------
  // The grouping regular expression /\B(?=(\d{3})+(?!\d))/g

  /** A character of the class `\w`. */
  predicate IsWordChar(c: char) {
    IsAsciiDigit(c) || IsAsciiLower(c) || IsAsciiUpper(c) || c == '_'
  }

  /** Length of the run of ASCII digits that starts at position i. */
  function DigitRun(s: string, i: nat): (r: nat)
    requires i <= |s|
    ensures r <= |s| - i
    decreases |s| - i
  {
    if i < |s| && IsAsciiDigit(s[i]) then 1 + DigitRun(s, i + 1) else 0
  }

  /**
   * The pattern matches at position i: not a word boundary (`\B`), and the
   * rest of the digit run from i is a positive multiple of three digits.
   * At 0 and at |s| the look-ahead needs a digit right after a non-word
   * position, which `\B` rules out, so only inner positions can match.
   */
  predicate GroupPoint(s: string, i: nat)
    requires i <= |s|
  {
    0 < i < |s| && IsWordChar(s[i - 1]) && DigitRun(s, i) > 0 && DigitRun(s, i) % 3 == 0
  }

  function GroupFrom(s: string, i: nat): string
    requires i <= |s|
    decreases |s| - i
  {
    if i == |s| then []
    else (if GroupPoint(s, i) then [ThousandsSep] else []) + [s[i]] + GroupFrom(s, i + 1)
  }

  /** `s.replace(/\B(?=(\d{3})+(?!\d))/g, "٬")` */
  function GroupThousands(s: string): string { GroupFrom(s, 0) }

  /** Without ASCII digits the pattern never matches, so the replace returns its input. */
  lemma {:induction false} GroupThousandsInert(s: string)
    requires NoDigits(s)
    ensures GroupThousands(s) == s
  {
    GroupFromInert(s, 0);
  }

  lemma {:induction false} GroupFromInert(s: string, i: nat)
    requires i <= |s| && NoDigits(s)
    ensures GroupFrom(s, i) == s[i..]
    decreases |s| - i
  {
    if i < |s| {
      assert DigitRun(s, i) == 0;
      GroupFromInert(s, i + 1);
    }
  }

  /** On ASCII digits the same pattern does group, so the step is not vacuous as modelled. */
  lemma GroupThousandsOnAsciiDigits()
    ensures GroupThousands("1234") == "1" + [ThousandsSep] + "234"
  {
    var s := "1234";
    assert DigitRun(s, 4) == 0;
    assert DigitRun(s, 3) == 1;
    assert DigitRun(s, 2) == 2;
    assert DigitRun(s, 1) == 3;
    assert GroupFrom(s, 3) == "4";
    assert GroupFrom(s, 2) == "34";
    assert GroupFrom(s, 1) == [ThousandsSep] + "234";
  }

  // ---------------------------------------------------------------------
  // Number(amount).toFixed(2) and the split on "."

  /** What the formatters receive: null, undefined, NaN, Infinity or -Infinity, or a finite number. */
  datatype NumericInput = Null | Undefined | NotANumber | Infinite(negative: bool) | Finite(x: real)

  /** The inputs the `null`/`undefined`/`isNaN` guard turns away; the infinities pass it. */
  predicate Guarded(v: NumericInput) { v.Null? || v.Undefined? || v.NotANumber? }

  /** The string form of Infinity and -Infinity, which toFixed and toString both give. */
  function InfinityText(negative: bool): string { (if negative then "-" else "") + "Infinity" }

  function Abs(x: real): real { if x < 0.0 then -x else x }

  /** The magnitude in hundredths, rounded half away from zero as toFixed(2) does. */
  function Cents(x: real): nat { var n := (Abs(x) * 100.0 + 0.5).Floor; if n < 0 then 0 else n }

  function TwoDigits(n: nat): (r: string)
    requires n < 100
    ensures |r| == 2 && AllAsciiDigits(r) && ParseNat(r) == n
  {
    var r := ['0' + (n / 10) as char, '0' + (n % 10) as char];
    assert r[..1] == [r[0]] && r[..1][..0] == [];
    assert ParseNat(r[..1]) == n / 10;
    r
  }

  function Sign(x: real): string { if x < 0.0 then "-" else "" }

  /** toFixed(2): sign, whole part, ".", exactly two fraction digits. */
  function ToFixed2(x: real): string {
    Sign(x) + NatToString(Cents(x) / 100) + "." + TwoDigits(Cents(x) % 100)
  }

  /** String.prototype.split(".") */
  function SplitDot(s: string): (r: seq<string>)
    ensures |r| >= 1
  {
    if s == [] then [""]
    else
      var rest := SplitDot(s[1..]);
      if s[0] == '.' then [""] + rest else [[s[0]] + rest[0]] + rest[1..]
  }

  lemma {:induction false} SplitDotNoDot(s: string)
    requires forall i :: 0 <= i < |s| ==> s[i] != '.'
    ensures SplitDot(s) == [s]
  {
    if s != [] {
      assert forall i :: 0 <= i < |s[1..]| ==> s[1..][i] == s[i + 1];
      SplitDotNoDot(s[1..]);
      assert [s[0]] + s[1..] == s;
    }
  }

  lemma {:induction false} SplitDotOne(a: string, b: string)
    requires forall i :: 0 <= i < |a| ==> a[i] != '.'
    requires forall i :: 0 <= i < |b| ==> b[i] != '.'
    ensures SplitDot(a + "." + b) == [a, b]
  {
    if a == [] {
      assert a + "." + b == ['.'] + b;
      SplitDotNoDot(b);
    } else {
      assert forall i :: 0 <= i < |a[1..]| ==> a[1..][i] == a[i + 1];
      assert (a + "." + b)[1..] == a[1..] + "." + b;
      assert (a + "." + b)[0] == a[0];
      SplitDotOne(a[1..], b);
      assert [a[0]] + a[1..] == a;
    }
  }

  /** The whole part of toFixed(2), sign included. */
  function WholeText(x: real): string { Sign(x) + NatToString(Cents(x) / 100) }

  /** The fraction part of toFixed(2). */
  function FractionText(x: real): string { TwoDigits(Cents(x) % 100) }

  /** `const [wholePart, decimalPart] = numberStr.split(".")` recovers the two parts. */
  lemma SplitToFixed(x: real)
    ensures SplitDot(ToFixed2(x)) == [WholeText(x), FractionText(x)]
  {
    NatToStringRoundTrip(Cents(x) / 100);
    var w := WholeText(x);
    assert ToFixed2(x) == w + "." + FractionText(x);
    SplitDotOne(w, FractionText(x));
  }

  /** formatCurrencyArabic */
  function FormatCurrencyArabic(amount: NumericInput): string {
    match amount
    case Finite(x) =>
      var parts := SplitDot(ToFixed2(x));
      SplitToFixed(x);
      var arabicWhole := ToArabicNumbers(parts[0]);
      var arabicDecimal := ToArabicNumbers(parts[1]);
      var withCommas := GroupThousands(arabicWhole);
      withCommas + "." + arabicDecimal + CurrencySuffix
    case Infinite(negative) =>
      // toFixed gives the text without a ".", so `decimalPart` is undefined
      var parts := SplitDot(InfinityText(negative));
      var arabicWhole := ToArabicNumbers(parts[0]);
      var arabicDecimal := ToArabicNumbersOrZero(if |parts| > 1 then Some(parts[1]) else None);
      GroupThousands(arabicWhole) + "." + arabicDecimal + CurrencySuffix
    case _ => CurrencyFallback
  }

  /** null, undefined and NaN all give exactly "٠٫٠٠ ج.م". */
  lemma CurrencyFallbackCases(amount: NumericInput)
    ensures Guarded(amount) ==> FormatCurrencyArabic(amount) == CurrencyFallback
    ensures Guarded(amount) ==> |FormatCurrencyArabic(amount)| == 8 && FormatCurrencyArabic(amount)[1] == '\U{066B}'
  {
  }

  /**
   * Infinity and -Infinity pass the guard: the currency text is "Infinity"
   * with its sign, then ".٠" from the missing fraction, then " ج.م"; the
   * integer text is "Infinity" with its sign. The corrected formatters agree.
   */
  lemma InfinityFormats(negative: bool)
    ensures FormatCurrencyArabic(Infinite(negative)) == InfinityText(negative) + "." + NumberFallback + CurrencySuffix
    ensures FormatNumberArabic(Infinite(negative)) == InfinityText(negative)
    ensures GroupedCurrencyArabic(Infinite(negative)) == FormatCurrencyArabic(Infinite(negative))
    ensures GroupedNumberArabic(Infinite(negative)) == FormatNumberArabic(Infinite(negative))
  {
    var t := InfinityText(negative);
    assert forall i :: 0 <= i < |t| ==> t[i] != '.' && !IsAsciiDigit(t[i]);
    SplitDotNoDot(t);
    NoDigitsUnchanged(t);
    GroupThousandsInert(t);
  }

  /** The whole part of toFixed(2) is an optional "-" followed by ASCII digits. */
  lemma WholeTextShape(x: real)
    ensures var w := WholeText(x);
      && (forall i :: 0 <= i < |w| ==> IsAsciiDigit(w[i]) || (i == 0 && w[i] == '-'))
      && NoArabicDigits(w)
  {
    NatToStringRoundTrip(Cents(x) / 100);
  }

  /** After the split, the formatter glues substituted parts around an ASCII "." and grouping does nothing. */
  lemma FormatCurrencyParts(x: real)
    ensures FormatCurrencyArabic(Finite(x))
      == ToArabicNumbers(WholeText(x)) + "." + ToArabicNumbers(FractionText(x)) + CurrencySuffix
  {
    SplitToFixed(x);
    ToArabicNumbersIdempotent(WholeText(x));
    GroupThousandsInert(ToArabicNumbers(WholeText(x)));
  }

  /**
   * For a number: the Arabic-Indic whole part (sign kept), an ASCII ".",
   * exactly two Arabic-Indic fraction digits and the suffix; the grouping
   * step inserts no separator. Read back, the digits are the amount in
   * hundredths, rounded as toFixed(2) rounds.
   */
  lemma FormatCurrencyFinite(x: real)
    ensures var r := FormatCurrencyArabic(Finite(x));
      var whole := ToArabicNumbers(WholeText(x));
      var fraction := ToArabicNumbers(FractionText(x));
      && r == whole + "." + fraction + CurrencySuffix
      && ThousandsSep !in r
      && |fraction| == 2 && IsArabicDigit(fraction[0]) && IsArabicDigit(fraction[1])
      && FromArabicNumbers(whole) == WholeText(x)
      && FromArabicNumbers(fraction) == FractionText(x)
      && AllAsciiDigits(NatToString(Cents(x) / 100))
      && ParseNat(FractionText(x)) + ParseNat(NatToString(Cents(x) / 100)) * 100 == Cents(x)
  {
    FormatCurrencyParts(x);
    var w := WholeText(x);
    var f := FractionText(x);
    NatToStringRoundTrip(Cents(x) / 100);
    WholeTextShape(x);
    ToArabicNumbersAt(w);
    ToArabicNumbersAt(f);
    FromArabicInverts(w);
    FromArabicInverts(f);
    var aw := ToArabicNumbers(w);
    var af := ToArabicNumbers(f);
    var r := FormatCurrencyArabic(Finite(x));
    assert forall i :: 0 <= i < |aw| ==> aw[i] == '-' || IsArabicDigit(aw[i]);
    assert ThousandsSep !in r by {
      forall i | 0 <= i < |r| ensures r[i] != ThousandsSep {
        if i < |aw| {
          assert r[i] == aw[i];
        } else if |aw| < i < |aw| + 3 {
          assert r[i] == af[i - |aw| - 1];
        }
      }
    }
  }

  /** The two missing-value paths disagree on the separator: the fallback uses "٫", a real zero uses ".". */
  lemma CurrencySeparatorQuirk()
    ensures FormatCurrencyArabic(Finite(0.0)) == "\U{0660}.\U{0660}\U{0660}" + CurrencySuffix
    ensures FormatCurrencyArabic(Finite(0.0)) != FormatCurrencyArabic(Null)
  {
    FormatCurrencyFinite(0.0);
    assert Cents(0.0) == 0;
    assert WholeText(0.0) == "0";
    assert FractionText(0.0) == "00";
    assert ToArabicNumbers("0") == "\U{0660}";
    assert ToArabicNumbers("00") == "\U{0660}\U{0660}";
    assert FormatCurrencyArabic(Finite(0.0))[1] != CurrencyFallback[1];
  }

  /** A report total of 350.75 prints as "٣٥٠.٧٥ ج.م", with the ASCII point. */
  lemma CurrencyExample()
    ensures FormatCurrencyArabic(Finite(350.75)) == "\U{0663}\U{0665}\U{0660}.\U{0667}\U{0665}" + CurrencySuffix
  {
    FormatCurrencyParts(350.75);
    CurrencyExampleParts();
  }

  lemma CurrencyExampleParts()
    ensures ToArabicNumbers(WholeText(350.75)) == "\U{0663}\U{0665}\U{0660}"
    ensures ToArabicNumbers(FractionText(350.75)) == "\U{0667}\U{0665}"
  {
    assert Cents(350.75) == 35075;
    assert NatToString(35) == "35";
    assert WholeText(350.75) == "350";
    assert FractionText(350.75) == "75";
    assert ToArabicNumbers("0") == "\U{0660}";
    assert ToArabicNumbers("5") == "\U{0665}";
  }

  // ---------------------------------------------------------------------
  // formatNumberArabic

  /** Math.round: the nearest integer, halves towards +infinity. */
  function Round(x: real): int { (x + 0.5).Floor }

  function FormatNumberArabic(number: NumericInput): string {
    match number
    case Finite(x) => GroupThousands(ToArabicNumbers(IntToString(Round(x))))
    case Infinite(negative) => GroupThousands(ToArabicNumbers(InfinityText(negative)))
    case _ => NumberFallback
  }

  /** The string form of an integer: an optional "-" and then digits only. */
  lemma IntToStringShape(n: int)
    ensures var s := IntToString(n);
      && |s| >= 1
      && (forall i :: 0 <= i < |s| ==> IsAsciiDigit(s[i]) || (i == 0 && s[i] == '-'))
      && (s[0] == '-' <==> n < 0)
  {
    var m: nat := if n < 0 then -n else n;
    NatToStringRoundTrip(m);
  }

  /**
   * "٠" for null, undefined and NaN; for a finite number the Arabic-Indic digits of
   * Math.round(number) with its sign, with no separator and no suffix.
   */
  lemma FormatNumberMeaning(number: NumericInput)
    ensures Guarded(number) ==> FormatNumberArabic(number) == NumberFallback
    ensures number.Finite? ==>
      var n := Round(number.x);
      var r := FormatNumberArabic(number);
      && r == ToArabicNumbers(IntToString(n))
      && FromArabicNumbers(r) == IntToString(n)
      && (forall i :: 0 <= i < |r| ==> IsArabicDigit(r[i]) || (i == 0 && r[i] == '-'))
  {
    if number.Finite? {
      var s := IntToString(Round(number.x));
      IntToStringShape(Round(number.x));
      ToArabicNumbersIdempotent(s);
      GroupThousandsInert(ToArabicNumbers(s));
      ToArabicNumbersAt(s);
      assert NoArabicDigits(s);
      FromArabicInverts(s);
    }
  }

  /** 1234.6 is rounded to 1235 and printed without a thousands separator: "١٢٣٥". */
  lemma NumberExample()
    ensures FormatNumberArabic(Finite(1234.6)) == "\U{0661}\U{0662}\U{0663}\U{0665}"
  {
    FormatNumberMeaning(Finite(1234.6));
    NumberExampleDigits();
  }

  lemma NumberExampleDigits()
    ensures ToArabicNumbers(IntToString(Round(1234.6))) == "\U{0661}\U{0662}\U{0663}\U{0665}"
  {
    assert Round(1234.6) == 1235;
    assert NatToString(12) == "12";
    assert IntToString(1235) == "1235";
    assert ToArabicNumbers("5") == "\U{0665}";
    assert ToArabicNumbers("35") == "\U{0663}\U{0665}";
  }

  // ---------------------------------------------------------------------
  // Grouping before substitution

  /** The string with every ARABIC THOUSANDS SEPARATOR removed. */
  function WithoutSeparators(s: string): (r: string)
    ensures |r| <= |s|
  {
    if s == [] then []
    else (if s[0] == ThousandsSep then [] else [s[0]]) + WithoutSeparators(s[1..])
  }

  predicate NoSeparator(s: string) { forall i :: 0 <= i < |s| ==> s[i] != ThousandsSep }

  lemma {:induction false} WithoutSeparatorsConcat(a: string, b: string)
    ensures WithoutSeparators(a + b) == WithoutSeparators(a) + WithoutSeparators(b)
  {
    if a != [] {
      assert (a + b)[1..] == a[1..] + b;
      WithoutSeparatorsConcat(a[1..], b);
    } else {
      assert a + b == b;
    }
  }

  lemma {:induction false} WithoutSeparatorsInert(s: string)
    requires NoSeparator(s)
    ensures WithoutSeparators(s) == s
  {
    if s != [] {
      WithoutSeparatorsInert(s[1..]);
    }
  }

  /** The grouping step only inserts separators: removing them gives back its input. */
  lemma {:induction false} GroupFromOnlyInserts(s: string, i: nat)
    requires i <= |s| && NoSeparator(s)
    ensures WithoutSeparators(GroupFrom(s, i)) == s[i..]
    decreases |s| - i
  {
    if i < |s| {
      GroupFromOnlyInserts(s, i + 1);
      var head := (if GroupPoint(s, i) then [ThousandsSep] else []) + [s[i]];
      StripOneGroup(s[i], GroupPoint(s, i));
      WithoutSeparatorsConcat(head, GroupFrom(s, i + 1));
      assert s[i..] == [s[i]] + s[i + 1..];
    }
  }

  /** One character with or without a separator in front strips to that character. */
  lemma StripOneGroup(c: char, sep: bool)
    requires c != ThousandsSep
    ensures WithoutSeparators((if sep then [ThousandsSep] else []) + [c]) == [c]
  {
    var head := (if sep then [ThousandsSep] else []) + [c];
    if sep {
      assert head[0] == ThousandsSep && head[1..] == [c];
    } else {
      assert head == [c];
    }
  }

  /** Digit substitution neither creates nor removes separators. */
  lemma {:induction false} SubstitutionKeepsSeparators(s: string)
    ensures WithoutSeparators(ToArabicNumbers(s)) == ToArabicNumbers(WithoutSeparators(s))
  {
    if s != [] {
      SubstitutionKeepsSeparators(s[1..]);
      var t := ToArabicNumbers(s);
      assert t[0] == SubstituteChar(s[0]) && t[1..] == ToArabicNumbers(s[1..]);
      assert WithoutSeparators(t) == (if t[0] == ThousandsSep then [] else [t[0]]) + WithoutSeparators(t[1..]);
      var w := WithoutSeparators(s);
      if s[0] == ThousandsSep {
        assert t[0] == ThousandsSep;
        assert w == WithoutSeparators(s[1..]);
      } else {
        assert t[0] != ThousandsSep;
        assert w == [s[0]] + WithoutSeparators(s[1..]);
        assert w[0] == s[0] && w[1..] == WithoutSeparators(s[1..]);
        assert ToArabicNumbers(w) == [SubstituteChar(w[0])] + ToArabicNumbers(w[1..]);
      }
    }
  }

  lemma DigitsHaveNoSeparator(n: int)
    ensures NoSeparator(IntToString(n))
  {
    IntToStringShape(n);
  }

  /** The part after the whole digits: an ASCII ".", the fraction digits and the suffix. */
  function CurrencyTail(x: real): string { "." + ToArabicNumbers(FractionText(x)) + CurrencySuffix }

  /** What formatCurrencyArabic evidently means: group the ASCII whole part, then substitute. */
  function GroupedCurrencyArabic(amount: NumericInput): string {
    match amount
    case Finite(x) => ToArabicNumbers(GroupThousands(WholeText(x))) + CurrencyTail(x)
    case Infinite(_) => FormatCurrencyArabic(amount)
    case _ => CurrencyFallback
  }

  /** What formatNumberArabic evidently means: group the ASCII digits, then substitute. */
  function GroupedNumberArabic(number: NumericInput): string {
    match number
    case Finite(x) => ToArabicNumbers(GroupThousands(IntToString(Round(x))))
    case Infinite(_) => FormatNumberArabic(number)
    case _ => NumberFallback
  }

  /** The formatter as written, split at the same place. */
  lemma FormatCurrencyTail(x: real)
    ensures FormatCurrencyArabic(Finite(x)) == ToArabicNumbers(WholeText(x)) + CurrencyTail(x)
  {
    FormatCurrencyParts(x);
    ConcatRegroup(ToArabicNumbers(WholeText(x)), ".", ToArabicNumbers(FractionText(x)), CurrencySuffix);
  }

  lemma ConcatRegroup(a: string, b: string, c: string, d: string)
    ensures a + b + c + d == a + (b + c + d)
  {
  }

  lemma CurrencyTailHasNoSeparator(x: real)
    ensures NoSeparator(CurrencyTail(x))
  {
    var f := FractionText(x);
    var af := ToArabicNumbers(f);
    ToArabicNumbersAt(f);
    var rest := CurrencyTail(x);
    forall i | 0 <= i < |rest| ensures rest[i] != ThousandsSep {
      if 1 <= i < 1 + |af| {
        assert rest[i] == af[i - 1];
      }
    }
  }

  /** Grouping and then substituting, followed by separator-free text, strips back to plain substitution. */
  lemma GroupedThenStripped(w: string, rest: string)
    requires NoSeparator(w) && NoSeparator(rest)
    ensures WithoutSeparators(ToArabicNumbers(GroupThousands(w)) + rest) == ToArabicNumbers(w) + rest
  {
    GroupFromOnlyInserts(w, 0);
    assert w[0..] == w;
    SubstitutionKeepsSeparators(GroupThousands(w));
    WithoutSeparatorsConcat(ToArabicNumbers(GroupThousands(w)), rest);
    WithoutSeparatorsInert(rest);
  }

  /** The grouped currency text is the ungrouped one with separators added, and nothing else changed. */
  lemma GroupedCurrencyOnlyAddsSeparators(x: real)
    ensures WithoutSeparators(GroupedCurrencyArabic(Finite(x))) == FormatCurrencyArabic(Finite(x))
  {
    var w := WholeText(x);
    WholeTextShape(x);
    CurrencyTailHasNoSeparator(x);
    GroupedThenStripped(w, CurrencyTail(x));
    FormatCurrencyTail(x);
  }

  /** The grouped integer text is the ungrouped one with separators added, and nothing else changed. */
  lemma GroupedNumberOnlyAddsSeparators(x: real)
    ensures WithoutSeparators(GroupedNumberArabic(Finite(x))) == FormatNumberArabic(Finite(x))
  {
    var s := IntToString(Round(x));
    DigitsHaveNoSeparator(Round(x));
    GroupFromOnlyInserts(s, 0);
    SubstitutionKeepsSeparators(GroupThousands(s));
    assert s[0..] == s;
    FormatNumberMeaning(Finite(x));
  }

  /** On a string of ASCII digits the digit run from i reaches the end. */
  lemma {:induction false} DigitRunToEnd(w: string, i: nat)
    requires AllAsciiDigits(w) && i <= |w|
    ensures DigitRun(w, i) == |w| - i
    decreases |w| - i
  {
    if i < |w| {
      DigitRunToEnd(w, i + 1);
    }
  }

  /**
   * On a string of ASCII digits the pattern matches before position i
   * exactly when i is inside the string and a multiple of three digits
   * follows it.
   */
  lemma DigitGroupPoints(w: string)
    requires AllAsciiDigits(w)
    ensures forall i: nat :: i <= |w| ==> (GroupPoint(w, i) <==> 0 < i < |w| && (|w| - i) % 3 == 0)
  {
    forall i: nat | i <= |w|
      ensures GroupPoint(w, i) <==> 0 < i < |w| && (|w| - i) % 3 == 0
    {
      DigitRunToEnd(w, i);
      if 0 < i < |w| {
        assert IsWordChar(w[i - 1]);
      }
    }
  }

  /** The last two digits or fewer get no separator. */
  lemma {:induction false} GroupFromLastDigits(w: string, j: nat)
    requires AllAsciiDigits(w) && |w| - 3 < j <= |w|
    ensures GroupFrom(w, j) == w[j..]
    decreases |w| - j
  {
    if j < |w| {
      DigitGroupPoints(w);
      GroupFromLastDigits(w, j + 1);
      assert w[j..] == [w[j]] + w[j + 1..];
    }
  }

  /** Grouping from i splits off the last three digits behind one separator. */
  lemma {:induction false} GroupFromSplitsLastThree(w: string, i: nat)
    requires AllAsciiDigits(w) && 3 < |w| && i <= |w| - 3
    ensures GroupFrom(w, i) == GroupFrom(w[..|w| - 3], i) + [ThousandsSep] + w[|w| - 3..]
    decreases |w| - 3 - i
  {
    var p := w[..|w| - 3];
    DigitGroupPoints(w);
    if i == |p| {
      GroupFromLastDigits(w, i + 1);
      assert w[i..] == [w[i]] + w[i + 1..];
    } else {
      SplitStep(w, i);
      GroupFromSplitsLastThree(w, i + 1);
      ConcatRegroup(GroupHead(w, i), GroupFrom(p, i + 1), [ThousandsSep], w[|w| - 3..]);
    }
  }

  /** What the grouping emits for position i: an optional separator, then the character. */
  function GroupHead(s: string, i: nat): string
    requires i < |s|
  {
    (if GroupPoint(s, i) then [ThousandsSep] else []) + [s[i]]
  }

  /** Before the last three digits, a digit string and its front emit the same at i. */
  lemma SplitStep(w: string, i: nat)
    requires AllAsciiDigits(w) && 3 < |w| && i < |w| - 3
    ensures GroupFrom(w, i) == GroupHead(w, i) + GroupFrom(w, i + 1)
    ensures GroupFrom(w[..|w| - 3], i) == GroupHead(w, i) + GroupFrom(w[..|w| - 3], i + 1)
  {
    var p := w[..|w| - 3];
    assert AllAsciiDigits(p);
    DigitGroupPoints(w);
    DigitGroupPoints(p);
    assert GroupHead(p, i) == GroupHead(w, i);
  }

  /**
   * Where the corrected formatters put the separators: up to three digits
   * stay as they are, and a longer run of digits is its grouped front
   * followed by "٬" and its last three digits. So a separator stands
   * before every block of three digits counted from the right.
   */
  lemma GroupThousandsPlacement(w: string)
    requires AllAsciiDigits(w)
    ensures |w| <= 3 ==> GroupThousands(w) == w
    ensures 3 < |w| ==> GroupThousands(w) == GroupThousands(w[..|w| - 3]) + [ThousandsSep] + w[|w| - 3..]
  {
    if |w| <= 3 {
      if w != [] {
        DigitGroupPoints(w);
        assert !GroupPoint(w, 0);
        GroupFromLastDigits(w, 1);
        assert w == [w[0]] + w[1..];
      }
    } else {
      GroupFromSplitsLastThree(w, 0);
    }
  }

  /** 1234.6 prints as "١٬٢٣٥" once grouped, where the formatter as written gives "١٢٣٥". */
  lemma GroupedNumberExample()
    ensures GroupedNumberArabic(Finite(1234.6)) == "\U{0661}\U{066C}\U{0662}\U{0663}\U{0665}"
    ensures GroupedNumberArabic(Finite(1234.6)) != FormatNumberArabic(Finite(1234.6))
  {
    assert Round(1234.6) == 1235;
    assert NatToString(12) == "12";
    assert IntToString(1235) == "1235";
    Grouped1235Arabic();
    NumberExample();
  }

  lemma Grouped1235Arabic()
    ensures ToArabicNumbers(GroupThousands("1235")) == "\U{0661}\U{066C}\U{0662}\U{0663}\U{0665}"
  {
    var s := "1235";
    assert DigitRun(s, 4) == 0;
    assert DigitRun(s, 3) == 1;
    assert DigitRun(s, 2) == 2;
    assert DigitRun(s, 1) == 3;
    assert GroupFrom(s, 3) == "5";
    assert GroupFrom(s, 2) == "35";
    assert GroupFrom(s, 1) == [ThousandsSep] + "235";
    assert GroupThousands(s) == "1" + [ThousandsSep] + "235";
    assert ToArabicNumbers("5") == "\U{0665}";
    assert ToArabicNumbers("35") == "\U{0663}\U{0665}";
    assert ToArabicNumbers("235") == "\U{0662}\U{0663}\U{0665}";
    assert ToArabicNumbers([ThousandsSep] + "235") == "\U{066C}\U{0662}\U{0663}\U{0665}";
  }

  /** An amount of 1234.5 gets a separator after its first digit once grouped; as written it gets none. */
  lemma GroupedCurrencyExample()
    ensures var r := GroupedCurrencyArabic(Finite(1234.5));
      |r| > 1 && r[0] == '\U{0661}' && r[1] == ThousandsSep
  {
    WholeOfExample();
    GroupedCurrencyOf1234(1234.5);
  }

  /** Any amount whose whole part prints as "1234" starts with "١٬" once grouped. */
  lemma GroupedCurrencyOf1234(x: real)
    requires WholeText(x) == "1234"
    ensures var r := GroupedCurrencyArabic(Finite(x));
      |r| > 1 && r[0] == '\U{0661}' && r[1] == ThousandsSep
  {
    Grouped1234Arabic();
  }

  lemma Grouped1234Arabic()
    ensures var t := ToArabicNumbers(GroupThousands("1234"));
      |t| > 1 && t[0] == '\U{0661}' && t[1] == ThousandsSep
  {
    GroupThousandsOnAsciiDigits();
    var g := GroupThousands("1234");
    var t := ToArabicNumbers(g);
    assert t[0] == SubstituteChar(g[0]);
    assert t[1..] == ToArabicNumbers(g[1..]);
    assert ToArabicNumbers(g[1..])[0] == SubstituteChar(ThousandsSep);
  }

  lemma WholeOfExample()
    ensures WholeText(1234.5) == "1234"
  {
    assert Cents(1234.5) == 123450;
    assert NatToString(12) == "12";
    assert NatToString(1234) == "1234";
  }
}
