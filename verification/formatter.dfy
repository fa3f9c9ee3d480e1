/** The formatter of `src/phone/formatter.py`: `format_phone_number`, which
    rewrites a valid number in the german, international or local layout,
    and `format_extracted_numbers`, which adds that rewrite to each entry. */
module Formatter {
  import opened Common
  import Extractor

  /** `s[len(p):]` when `s.startswith(p)`, else `s`. */
  function DropPrefix(s: string, p: string): (r: string)
    ensures StartsWith(s, p) ==> s == p + r
    ensures !StartsWith(s, p) ==> r == s
  {
    if StartsWith(s, p) then s[|p|..] else s
  }

  /** Digits without separators never contain a digit-free piece: a separator
      between two parts leaves the digit projection of the parts. */
  lemma DigitsOfJoin(a: string, sep: string, b: string)
    requires forall i :: 0 <= i < |sep| ==> !IsDigit(sep[i])
    ensures DigitsOf(a + sep + b) == DigitsOf(a) + DigitsOf(b)
  {
    DigitsOfNoDigits(sep);
    DigitsOfAppend(a, sep);
    assert DigitsOf(a) + [] == DigitsOf(a);
    assert DigitsOf(a + sep) == DigitsOf(a);
    DigitsOfAppend(a + sep, b);
  }

  /** `digits[:k] + digits[k:]` gives `digits` back, whatever the length. */
  lemma SliceFrom(s: string, k: nat)
    ensures Slice(s, 0, k) + From(s, k) == s
  {
  }

  // ---------------------------------------------------------------- german

  /** The national part of a german number: one leading "49", then one leading "0", removed. */
  function GermanNational(digits: string): (g: string)
    ensures |g| <= |digits|
  {
    DropPrefix(DropPrefix(digits, "49"), "0")
  }

  /** `f"+49 {digits[:3]} {digits[3:]}"` for the national part. */
  function GermanLayout(digits: string): string {
    var g := GermanNational(digits);
    "+49 " + Slice(g, 0, 3) + " " + From(g, 3)
  }

  // --------------------------------------------------------- international

  /** `digits` with one leading "00" removed and a '+' put in front unless one is there. */
  function WithPlus(digits: string): (d: string)
    ensures |d| > 0 && d[0] == '+'
  {
    var d := DropPrefix(digits, "00");
    if StartsWith(d, "+") then d else "+" + d
  }

  /** `re.match(r'\+(\d{1,3})', d)`, returning group 1. */
  function CountryCodeMatch(d: string): (r: Option<string>)
    ensures r.Some? <==> (|d| >= 2 && d[0] == '+' && IsDigit(d[1]))
    ensures r.Some? ==> 1 <= |r.value| <= 3 && 1 + |r.value| <= |d| && d[1..1 + |r.value|] == r.value
  {
    if |d| >= 2 && d[0] == '+' && IsDigit(d[1]) then Some(LeadingDigits(d[1..], 3)) else None
  }

  /** Which return statement of the international branch is taken. */
  datatype InternationalRule = NorthAmerican | CountryCode(code: string) | Fallback

  function RuleFor(d: string): InternationalRule {
    if StartsWith(d, "+1") then NorthAmerican
    else if StartsWith(d, "+") then
      match CountryCodeMatch(d)
      case Some(code) => CountryCode(code)
      case None => Fallback
    else Fallback
  }

  /** The international branch for a number of at least ten digits. */
  function InternationalLayout(digits: string): string {
    var d := WithPlus(digits);
    match RuleFor(d)
    case NorthAmerican =>
      "+1 " + Slice(d, 2, 5) + " " + Slice(d, 5, 8) + " " + From(d, 8)
    case CountryCode(code) =>
      var remaining := From(d, 1 + |code|);
      "+" + code + " " + Slice(remaining, 0, 3) + " " + Slice(remaining, 3, 6) + " " + From(remaining, 6)
    case Fallback =>
      GroupedByThree(d)
  }

  /** `f"{d[:3]} {d[3:6]} {d[6:9]} {d[9:]}"`. */
  function GroupedByThree(d: string): string {
    Slice(d, 0, 3) + " " + Slice(d, 3, 6) + " " + Slice(d, 6, 9) + " " + From(d, 9)
  }

  // ----------------------------------------------------------------- local

  /** `f"({digits[:3]}) {digits[3:6]}-{digits[6:10]}"`. */
  function LocalLayout(digits: string): string {
    "(" + Slice(digits, 0, 3) + ") " + Slice(digits, 3, 6) + "-" + Slice(digits, 6, 10)
  }

  // --------------------------------------------------------------- overall

  /** `format_phone_number(number, format)`. The number comes back unchanged
      when its digits are not valid, when an international or local number
      has fewer than ten digits, and for any other format name. */
  function FormatPhoneNumber(number: string, format: string): (r: string)
    ensures !Extractor.IsValidPhoneNumber(DigitsOf(number)) ==> r == number
    ensures format != "german" && format != "international" && format != "local" ==> r == number
    ensures (format == "international" || format == "local") && |DigitsOf(number)| < 10 ==> r == number
  {
    var digits := DigitsOf(number);
    if !Extractor.IsValidPhoneNumber(digits) then number
    else if format == "german" then GermanLayout(digits)
    else if format == "international" then
      if |digits| >= 10 then InternationalLayout(digits) else number
    else if format == "local" then
      if |digits| >= 10 then LocalLayout(digits) else number
    else number
  }

  /** The national part is a suffix of the digits, after "", "0", "49" or "490". */
  lemma GermanNationalSuffix(d: string)
    requires AllDigits(d)
    ensures var g := GermanNational(d);
      AllDigits(g) && (d == g || d == "0" + g || d == "49" + g || d == "490" + g)
  {
    var e := DropPrefix(d, "49");
    var g := DropPrefix(e, "0");
    assert e == d || d == "49" + e;
    assert g == e || e == "0" + g;
    if d == "49" + e && e == "0" + g {
      assert d == "490" + g;
    }
    assert forall i :: 0 <= i < |g| ==> g[i] == d[i + (|d| - |g|)];
  }

  /** The digits of the german layout are "49" and the national part. */
  lemma GermanLayoutDigits(g: string)
    requires AllDigits(g)
    ensures DigitsOf("+49 " + Slice(g, 0, 3) + " " + From(g, 3)) == "49" + g
  {
    var rest := Slice(g, 0, 3) + " " + From(g, 3);
    DigitsOfJoin(Slice(g, 0, 3), " ", From(g, 3));
    SliceFrom(g, 3);
    DigitsOfAppend(Slice(g, 0, 3), From(g, 3));
    DigitsOfDigits(g);
    assert DigitsOf(rest) == g;
    assert DigitsOf("+49 ") == "49";
    DigitsOfAppend("+49 ", rest);
    assert "+49 " + Slice(g, 0, 3) + " " + From(g, 3) == "+49 " + rest;
  }

  /** The german branch: "+49 ", then the digits with "49" and then "0"
      removed from the front, a space after the first three of them. */
  lemma GermanShape(number: string)
    requires Extractor.IsValidPhoneNumber(DigitsOf(number))
    ensures var d := DigitsOf(number);
      var g := GermanNational(d);
      var r := FormatPhoneNumber(number, "german");
      && StartsWith(r, "+49 ")
      && DigitsOf(r) == "49" + g
      && (d == g || d == "0" + g || d == "49" + g || d == "490" + g)
      && |g| >= 3 && r == "+49 " + g[..3] + " " + g[3..]
  {
    var d := DigitsOf(number);
    DigitsOfShape(number);
    DigitsOfDigits(d);
    var g := GermanNational(d);
    GermanNationalSuffix(d);
    GermanLayoutDigits(g);
    assert FormatPhoneNumber(number, "german") == GermanLayout(d);
  }

  /** For a digit string of at least three digits the country-code pattern
      always matches: no number reaches the last return of the branch. */
  lemma NoInternationalFallback(digits: string)
    requires AllDigits(digits) && |digits| >= 3
    ensures RuleFor(WithPlus(digits)) != Fallback
  {
    var d := DropPrefix(digits, "00");
    assert d == digits || d == digits[2..];
    assert IsDigit(d[0]);
  }

  /** With at least eight digits after the '+', the greedy `\d{1,3}` takes exactly three. */
  lemma CountryCodeIsThreeDigits(digits: string)
    requires AllDigits(digits) && |digits| >= 10
    ensures var d := DropPrefix(digits, "00");
      !StartsWith(d, "1") ==> RuleFor(WithPlus(digits)) == CountryCode(d[..3])
  {
    var d := DropPrefix(digits, "00");
    assert d == digits || d == digits[2..];
    assert AllDigits(d);
    assert "+" + d == WithPlus(digits);
    assert ("+" + d)[1..] == d;
    var code := LeadingDigits(d, 3);
    assert |code| == 3;
  }

  /** Appending a digit-free piece leaves the digit projection alone. */
  lemma DigitsOfSep(x: string, sep: string)
    requires forall i :: 0 <= i < |sep| ==> !IsDigit(sep[i])
    ensures DigitsOf(x + sep) == DigitsOf(x)
  {
    DigitsOfNoDigits(sep);
    DigitsOfAppend(x, sep);
    assert DigitsOf(x) + [] == DigitsOf(x);
  }

  /** Appending digits appends them to the projection. */
  lemma DigitsOfMore(x: string, a: string)
    requires AllDigits(a)
    ensures DigitsOf(x + a) == DigitsOf(x) + a
  {
    DigitsOfDigits(a);
    DigitsOfAppend(x, a);
  }

  /** The digits of `"+" a " " b " " c " " e` for digit-only pieces. */
  lemma InternationalDigits(a: string, b: string, c: string, e: string)
    requires AllDigits(a) && AllDigits(b) && AllDigits(c) && AllDigits(e)
    ensures DigitsOf("+" + a + " " + b + " " + c + " " + e) == a + b + c + e
  {
    DigitsOfNoDigits("+");
    DigitsOfMore("+", a);
    assert [] + a == a;
    DigitsOfSep("+" + a, " ");
    DigitsOfMore("+" + a + " ", b);
    DigitsOfSep("+" + a + " " + b, " ");
    DigitsOfMore("+" + a + " " + b + " ", c);
    DigitsOfSep("+" + a + " " + b + " " + c, " ");
    DigitsOfMore("+" + a + " " + b + " " + c + " ", e);
  }

  /** The digits of `"+1 " a " " b " " c` for digit-only pieces. */
  lemma NorthAmericanDigits(a: string, b: string, c: string)
    requires AllDigits(a) && AllDigits(b) && AllDigits(c)
    ensures DigitsOf("+1 " + a + " " + b + " " + c) == "1" + a + b + c
  {
    assert DigitsOf("+1 ") == "1";
    DigitsOfMore("+1 ", a);
    DigitsOfSep("+1 " + a, " ");
    DigitsOfMore("+1 " + a + " ", b);
    DigitsOfSep("+1 " + a + " " + b, " ");
    DigitsOfMore("+1 " + a + " " + b + " ", c);
  }

  /** The case split of the international branch, with the '+' put in front. */
  lemma InternationalUnfold(number: string)
    requires Extractor.IsValidPhoneNumber(DigitsOf(number)) && |DigitsOf(number)| >= 10
    ensures var d := DropPrefix(DigitsOf(number), "00");
      && AllDigits(d) && |d| >= 8
      && WithPlus(DigitsOf(number)) == "+" + d
      && FormatPhoneNumber(number, "international") == InternationalLayout(DigitsOf(number))
  {
    var digits := DigitsOf(number);
    DigitsOfShape(number);
    var d := DropPrefix(digits, "00");
    assert d == digits || d == digits[2..];
  }

  /** A number whose digits (after "00") start with 1: "+1 ddd ddd rest". */
  lemma NorthAmericanShape(number: string)
    requires Extractor.IsValidPhoneNumber(DigitsOf(number)) && |DigitsOf(number)| >= 10
    requires StartsWith(DropPrefix(DigitsOf(number), "00"), "1")
    ensures var d := DropPrefix(DigitsOf(number), "00");
      var r := FormatPhoneNumber(number, "international");
      && r == "+1 " + d[1..4] + " " + d[4..7] + " " + d[7..]
      && DigitsOf(r) == d
  {
    InternationalUnfold(number);
    var d := DropPrefix(DigitsOf(number), "00");
    var p := "+" + d;
    assert StartsWith(p, "+1");
    assert Slice(p, 2, 5) == d[1..4] && Slice(p, 5, 8) == d[4..7] && From(p, 8) == d[7..];
    assert d[..1] == "1";
    assert d == "1" + d[1..4] + d[4..7] + d[7..];
    NorthAmericanDigits(d[1..4], d[4..7], d[7..]);
  }

  /** The country-code layout for a digit string not starting with 1. */
  lemma CountryCodeLayout(digits: string)
    requires AllDigits(digits) && |digits| >= 10
    requires !StartsWith(DropPrefix(digits, "00"), "1")
    ensures var d := DropPrefix(digits, "00");
      && InternationalLayout(digits) == "+" + d[..3] + " " + d[3..6] + " " + Slice(d, 6, 9) + " " + From(d, 9)
      && DigitsOf(InternationalLayout(digits)) == d
  {
    var d := DropPrefix(digits, "00");
    assert d == digits || d == digits[2..];
    assert AllDigits(d);
    var p := "+" + d;
    assert WithPlus(digits) == p;
    CountryCodeIsThreeDigits(digits);
    var remaining := From(p, 4);
    assert remaining == d[3..];
    assert Slice(remaining, 0, 3) == d[3..6];
    assert Slice(remaining, 3, 6) == Slice(d, 6, 9);
    assert From(remaining, 6) == From(d, 9);
    assert d == d[..3] + d[3..6] + Slice(d, 6, 9) + From(d, 9);
    InternationalDigits(d[..3], d[3..6], Slice(d, 6, 9), From(d, 9));
  }

  /** Any other number: the three-digit country code, then groups of three. */
  lemma CountryCodeShape(number: string)
    requires Extractor.IsValidPhoneNumber(DigitsOf(number)) && |DigitsOf(number)| >= 10
    requires !StartsWith(DropPrefix(DigitsOf(number), "00"), "1")
    ensures var d := DropPrefix(DigitsOf(number), "00");
      var r := FormatPhoneNumber(number, "international");
      && r == "+" + d[..3] + " " + d[3..6] + " " + Slice(d, 6, 9) + " " + From(d, 9)
      && DigitsOf(r) == d
  {
    InternationalUnfold(number);
    DigitsOfShape(number);
    CountryCodeLayout(DigitsOf(number));
  }

  /** The international branch: a '+' in front, and the digits of the result
      are those of the input with one leading "00" removed. */
  lemma InternationalShape(number: string)
    requires Extractor.IsValidPhoneNumber(DigitsOf(number)) && |DigitsOf(number)| >= 10
    ensures var r := FormatPhoneNumber(number, "international");
      r[0] == '+' && DigitsOf(r) == DropPrefix(DigitsOf(number), "00")
  {
    if StartsWith(DropPrefix(DigitsOf(number), "00"), "1") {
      NorthAmericanShape(number);
    } else {
      CountryCodeShape(number);
    }
  }

  /** The local layout: its digits are the first ten. */
  lemma LocalLayoutDigits(d: string)
    requires AllDigits(d) && |d| >= 10
    ensures LocalLayout(d) == "(" + d[..3] + ") " + d[3..6] + "-" + d[6..10]
    ensures DigitsOf(LocalLayout(d)) == d[..10]
  {
    var a, b, c := d[..3], d[3..6], d[6..10];
    assert AllDigits(a) && AllDigits(b) && AllDigits(c);
    DigitsOfNoDigits("(");
    DigitsOfMore("(", a);
    assert [] + a == a;
    DigitsOfSep("(" + a, ") ");
    DigitsOfMore("(" + a + ") ", b);
    DigitsOfSep("(" + a + ") " + b, "-");
    DigitsOfMore("(" + a + ") " + b + "-", c);
    assert d[..10] == a + b + c;
  }

  /** The local branch: "(ddd) ddd-dddd" from the first ten digits only. */
  lemma LocalShape(number: string)
    requires Extractor.IsValidPhoneNumber(DigitsOf(number)) && |DigitsOf(number)| >= 10
    ensures var d := DigitsOf(number);
      var r := FormatPhoneNumber(number, "local");
      && r == "(" + d[..3] + ") " + d[3..6] + "-" + d[6..10]
      && |r| == 14
      && DigitsOf(r) == d[..10]
  {
    DigitsOfShape(number);
    LocalLayoutDigits(DigitsOf(number));
  }

  // --------------------------------------------------------- test vectors

  /** The digit string of the north american example passes the validity test. */
  lemma NorthAmericanDigitsValid(d: string)
    requires d == "12345678901"
    ensures Extractor.IsValidPhoneNumber(d)
  {
    assert AllDigits("12345678901");
    assert Extractor.RepeatFreeFrom("12345678901", 0) && Extractor.YearFreeFrom("12345678901", 0);
    Extractor.ValidDigitString(d);
  }

  lemma GermanLayoutOfExample(d: string)
    requires d == "49123456789"
    ensures GermanLayout(d) == "+49 123 456789"
  {
    assert StartsWith(d, "49");
    var e := d[2..];
    assert e == "123456789";
    assert e[..1][0] == '1';
    var g := GermanNational(d);
    assert g == "123456789";
    assert Slice(g, 0, 3) == "123";
    assert From(g, 3) == "456789";
  }

  /** Any number with the digits 49123456789, such as "+49123456789". */
  lemma GermanLayoutExample(number: string)
    requires DigitsOf(number) == "49123456789"
    ensures FormatPhoneNumber(number, "german") == "+49 123 456789"
  {
    Extractor.ValidExampleDigits(DigitsOf(number));
    GermanLayoutOfExample(DigitsOf(number));
  }

  lemma GermanExample(number: string)
    requires number == "+49123456789"
    ensures FormatPhoneNumber(number, "german") == "+49 123 456789"
  {
    DigitsOfPlus(number);
    GermanLayoutExample(number);
  }

  /** Any number with the digits 12345678901, such as "+12345678901". */
  lemma NorthAmericanLayoutExample(number: string)
    requires DigitsOf(number) == "12345678901"
    ensures FormatPhoneNumber(number, "international") == "+1 234 567 8901"
  {
    NorthAmericanDigitsValid(DigitsOf(number));
    NorthAmericanPrefix(DigitsOf(number));
    NorthAmericanSlices(DigitsOf(number));
    NorthAmericanShape(number);
  }

  lemma NorthAmericanPrefix(d: string)
    requires d == "12345678901"
    ensures DropPrefix(d, "00") == d && StartsWith(d, "1") && |d| >= 10
  {
    assert d[..2][0] == '1';
    assert d[..1] == "1";
  }

  lemma NorthAmericanSlices(d: string)
    requires d == "12345678901"
    ensures "+1 " + d[1..4] + " " + d[4..7] + " " + d[7..] == "+1 234 567 8901"
  {
    assert d[1..4] == "234" && d[4..7] == "567" && d[7..] == "8901";
  }

  lemma NorthAmericanExample(number: string)
    requires number == "+12345678901"
    ensures FormatPhoneNumber(number, "international") == "+1 234 567 8901"
  {
    DigitsOfPlus(number);
    NorthAmericanLayoutExample(number);
  }

  lemma LocalDigitsValid(d: string)
    requires d == "1234567890"
    ensures Extractor.IsValidPhoneNumber(d) && |d| >= 10
  {
    assert AllDigits("1234567890");
    assert Extractor.RepeatFreeFrom("1234567890", 0) && Extractor.YearFreeFrom("1234567890", 0);
    Extractor.ValidDigitString(d);
  }

  lemma LocalSlices(d: string)
    requires d == "1234567890"
    ensures "(" + d[..3] + ") " + d[3..6] + "-" + d[6..10] == "(123) 456-7890"
  {
    assert d[..3] == "123" && d[3..6] == "456" && d[6..10] == "7890";
  }

  /** Any number with the digits 1234567890, such as "1234567890" itself. */
  lemma LocalLayoutExample(number: string)
    requires DigitsOf(number) == "1234567890"
    ensures FormatPhoneNumber(number, "local") == "(123) 456-7890"
  {
    LocalDigitsValid(DigitsOf(number));
    LocalSlices(DigitsOf(number));
    LocalShape(number);
  }

  lemma LocalExample(number: string)
    requires number == "1234567890"
    ensures FormatPhoneNumber(number, "local") == "(123) 456-7890"
  {
    assert AllDigits(number);
    DigitsOfDigits(number);
    LocalLayoutExample(number);
  }

  lemma InvalidExample(number: string)
    requires number == "123"
    ensures FormatPhoneNumber(number, "international") == "123"
  {
    assert AllDigits("123");
    DigitsOfDigits(number);
  }

  // ------------------------------------------------------- list of entries

  /** An entry's copy with the added 'formatted' key. */
  datatype FormattedEntry = FormattedEntry(entry: Extractor.PhoneEntry, formatted: string)

  /** `format_extracted_numbers`: one formatted copy per entry, in order. */
  method FormatExtractedNumbers(entries: seq<Extractor.PhoneEntry>) returns (r: seq<FormattedEntry>)
    ensures |r| == |entries|
    ensures forall i :: 0 <= i < |entries| ==>
      r[i] == FormattedEntry(entries[i], FormatPhoneNumber(entries[i].cleaned, entries[i].format))
  {
    r := [];
    for i := 0 to |entries|
      invariant |r| == i
      invariant forall k :: 0 <= k < i ==>
        r[k] == FormattedEntry(entries[k], FormatPhoneNumber(entries[k].cleaned, entries[k].format))
    {
      var formatted := FormatPhoneNumber(entries[i].cleaned, entries[i].format);
      r := r + [FormattedEntry(entries[i], formatted)];
    }
  }

  /** What formatting does to an entry the extractor returns: its cleaned
      value is valid, so german entries always get the "+49 " layout and
      long enough international ones start with '+'. */
  lemma FormattedExtractedEntry(e: Extractor.PhoneEntry)
    requires Extractor.WellFormedEntry(e)
    ensures e.format == "german" ==> StartsWith(FormatPhoneNumber(e.cleaned, e.format), "+49 ")
    ensures e.format == "international" && |DigitsOf(e.cleaned)| >= 10 ==>
      FormatPhoneNumber(e.cleaned, e.format)[0] == '+'
    ensures e.format == "international" && |DigitsOf(e.cleaned)| < 10 ==>
      FormatPhoneNumber(e.cleaned, e.format) == e.cleaned
  {
    Extractor.IsValidPhoneNumberDigits(e.cleaned);
    if e.format == "german" {
      GermanShape(e.cleaned);
    } else if e.format == "international" && |DigitsOf(e.cleaned)| >= 10 {
      InternationalShape(e.cleaned);
    }
  }
}
