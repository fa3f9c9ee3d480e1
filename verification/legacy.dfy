/** The older, top-level `text_utils.py`: its own `clean_text` (a stricter
    whitelist that drops letters), the same validity test as the extractor,
    an `extract_phone_numbers` that cleans every match alike and keeps the
    longest number per key, and a `format_phone_number` whose international
    branch groups the digits by three with the '+' inside the first group. */
module LegacyTextUtils {
  import opened Common
  import opened Ordering
  import TextUtils
  import Extractor
  import Formatter

  // ------------------------------------------------------------- clean_text

  /** `re.match(r'[0-9\s\(\)\+\.\,\;\:\!\?]', c)`. */
  predicate Allowed(c: char) {
    IsDigit(c) || IsSpace(c) || c in "()+.,;:!?"
  }

  /** What `clean_text` returns: separators to spaces, whitespace runs to one
      space, the whitelist, `strip()` and the control-character filter. */
  function CleanTextSpec(text: string, u: TextUtils.Categories): string {
    TextUtils.WithoutControls(TextUtils.Strip(Keep(TextUtils.Collapse(TextUtils.SeparatorsToSpaces(text)), Allowed)), u)
  }

  /** `clean_text`, step by step. */
  method CleanText(text: string, u: TextUtils.Categories) returns (r: string)
    ensures r == CleanTextSpec(text, u)
  {
    r := TextUtils.ReplaceSeparators(text);
    r := TextUtils.Collapse(r);
    r := Keep(r, Allowed);
    r := TextUtils.Strip(r);
    r := TextUtils.WithoutControls(r, u);
  }

  /** `normalize_and_clean`: `clean_text` after a normalisation step given as a parameter. */
  method NormalizeAndClean(text: string, normalize: string -> string, u: TextUtils.Categories) returns (r: string)
    ensures r == CleanTextSpec(normalize(text), u)
  {
    var normalized := normalize(text);
    r := CleanText(normalized, u);
  }

  /** The characters the cleaned text may contain: digits, the space and `()+,;:!?`. */
  predicate OutputChar(c: char) {
    IsDigit(c) || c == ' ' || c in "()+,;:!?"
  }

  /** An output character is printable ASCII other than a letter or a separator. */
  lemma OutputCharFacts(c: char, u: TextUtils.Categories)
    requires TextUtils.Coherent(u)
    requires OutputChar(c)
    ensures !u.isLetter(c) && !IsAsciiLetter(c) && c !in TextUtils.Separators && !u.isControl(c)
  {
    assert IsAscii(c) && ' ' <= c < '\U{7F}' && !IsAsciiLetter(c);
  }

  /** Before the control filter, every character is an output character. */
  lemma StagesChars(text: string)
    ensures forall c :: c in TextUtils.Strip(Keep(TextUtils.Collapse(TextUtils.SeparatorsToSpaces(text)), Allowed)) ==> OutputChar(c)
  {
    var t1 := TextUtils.SeparatorsToSpaces(text);
    var t2 := TextUtils.Collapse(t1);
    var t3 := Keep(t2, Allowed);
    TextUtils.StripMembers(t3);
    forall c | c in t3 ensures OutputChar(c) {
      assert c in t2 && Allowed(c);
      var i :| 0 <= i < |t2| && t2[i] == c;
      if IsSpace(c) {
        assert c == ' ';
      } else {
        assert c in t1;
        assert c != '.';
      }
    }
  }

  /** The control filter at the end removes nothing: what is left is ASCII
      and no control character. */
  lemma ControlFilterNoOp(text: string, u: TextUtils.Categories)
    requires TextUtils.Coherent(u)
    ensures CleanTextSpec(text, u) == TextUtils.Strip(Keep(TextUtils.Collapse(TextUtils.SeparatorsToSpaces(text)), Allowed))
  {
    var t := TextUtils.Strip(Keep(TextUtils.Collapse(TextUtils.SeparatorsToSpaces(text)), Allowed));
    StagesChars(text);
    forall c | c in t ensures !u.isControl(c) {
      OutputCharFacts(c, u);
    }
    TextUtils.WithoutControlsNone(t, u);
  }

  /** Only digits, spaces and `()+,;:!?` come out: no letter of any script,
      no separator, no control character. */
  lemma CleanTextChars(text: string, u: TextUtils.Categories)
    requires TextUtils.Coherent(u)
    ensures forall c :: c in CleanTextSpec(text, u) ==>
      && OutputChar(c)
      && !u.isLetter(c) && !IsAsciiLetter(c)
      && c !in TextUtils.Separators
      && !u.isControl(c)
  {
    ControlFilterNoOp(text, u);
    StagesChars(text);
    forall c | c in CleanTextSpec(text, u)
      ensures !u.isLetter(c) && !IsAsciiLetter(c) && c !in TextUtils.Separators && !u.isControl(c)
    {
      OutputCharFacts(c, u);
    }
  }

  /** No leading or trailing whitespace. */
  lemma CleanTextEnds(text: string, u: TextUtils.Categories)
    requires TextUtils.Coherent(u)
    ensures var r := CleanTextSpec(text, u);
      r == [] || (!IsSpace(r[0]) && !IsSpace(r[|r| - 1]))
  {
    ControlFilterNoOp(text, u);
  }

  /** The cleaning neither loses nor adds a digit, and keeps their order. */
  lemma CleanTextDigits(text: string, u: TextUtils.Categories)
    requires TextUtils.Coherent(u)
    ensures DigitsOf(CleanTextSpec(text, u)) == DigitsOf(text)
  {
    var t := TextUtils.Strip(Keep(TextUtils.Collapse(TextUtils.SeparatorsToSpaces(text)), Allowed));
    ControlFilterNoOp(text, u);
    DigitsOfIsKeep(t);
    StagesKeepDigits(text);
    DigitsOfIsKeep(text);
  }

  /** Each stage before the control filter keeps every digit. */
  lemma StagesKeepDigits(text: string)
    ensures Keep(TextUtils.Strip(Keep(TextUtils.Collapse(TextUtils.SeparatorsToSpaces(text)), Allowed)), IsDigit)
         == Keep(text, IsDigit)
  {
    var t1 := TextUtils.SeparatorsToSpaces(text);
    var t2 := TextUtils.Collapse(t1);
    var t3 := Keep(t2, Allowed);
    assert forall c :: IsDigit(c) ==> c !in TextUtils.Separators && c != ' ';
    TextUtils.SeparatorsKeep(text, IsDigit);
    assert forall c :: IsDigit(c) ==> !IsSpace(c);
    TextUtils.CollapseKeep(t1, IsDigit);
    assert forall c :: IsDigit(c) ==> Allowed(c);
    KeepKeep(t2, Allowed, IsDigit);
    TextUtils.StripKeep(t3, IsDigit);
  }

  // ---------------------------------------------------- extract_phone_numbers

  /** `re.sub(r'[\s\-\.]', '', number)`, the same for every pattern. */
  function CleanMatch(text: string): (r: string)
    ensures forall c :: c in r ==> c in text && !IsSpace(c) && c != '-' && c != '.'
    ensures forall c :: c in text && Extractor.KeptInGerman(c) ==> c in r
    ensures DigitsOf(r) == DigitsOf(text)
  {
    KeepPreservesDigits(text, Extractor.KeptInGerman);
    Keep(text, Extractor.KeptInGerman)
  }

  /** The entry a match contributes to `found_numbers`, if its cleaned form is valid. */
  function Candidate(m: Extractor.RawMatch): (e: Option<Extractor.PhoneEntry>)
    ensures e.Some? <==> Extractor.IsValidPhoneNumber(CleanMatch(m.text))
  {
    var cleaned := CleanMatch(m.text);
    if Extractor.IsValidPhoneNumber(cleaned) then Some(Extractor.PhoneEntry(m.text, cleaned, m.format, m.start)) else None
  }

  /** `found_numbers` after the matches `ms` have been processed. */
  function Candidates(ms: seq<Extractor.RawMatch>): seq<Extractor.PhoneEntry>
    decreases |ms|
  {
    if ms == [] then []
    else
      var last := Candidate(ms[|ms| - 1]);
      Candidates(ms[..|ms| - 1]) + (if last.Some? then [last.value] else [])
  }

  /** The sort key of `sorted(..., key=lambda x: len(x['cleaned']), reverse=True)`:
      Python's reversed sort is stable, so it is the stable ascending sort on
      the negated length. */
  function NegatedLength(e: Extractor.PhoneEntry): int {
    -|e.cleaned|
  }

  /** `re.sub(r'^0+', '', s)`: `s` without its leading zeros. */
  function StripLeadingZeros(s: string): (r: string)
    ensures |r| <= |s| && r == s[|s| - |r|..]
    ensures forall i :: 0 <= i < |s| - |r| ==> s[i] == '0'
    ensures r == [] || r[0] != '0'
    decreases |s|
  {
    if s != [] && s[0] == '0' then
      var t := StripLeadingZeros(s[1..]);
      assert forall i :: 1 <= i < |s| - |t| ==> s[i] == s[1..][i - 1];
      t
    else s
  }

  /** The key of the duplicate check. */
  function DedupKey(e: Extractor.PhoneEntry): string {
    StripLeadingZeros(e.cleaned)
  }

  /** What `extract_phone_numbers` returns for the matches `ms`: the valid
      candidates, longest first (stably), the first entry per key. */
  function Extracted(ms: seq<Extractor.RawMatch>): seq<Extractor.PhoneEntry> {
    FirstPerKey(SortBy(Candidates(ms), NegatedLength), DedupKey, {})
  }

  lemma CandidatesSnoc(ms: seq<Extractor.RawMatch>, m: Extractor.RawMatch)
    ensures Candidates(ms + [m]) == Candidates(ms) + (if Candidate(m).Some? then [Candidate(m).value] else [])
  {
    assert (ms + [m])[..|ms|] == ms;
  }

  /** One step of the loop over the matches of one pattern. */
  lemma ScanStep(done: seq<Extractor.RawMatch>, format: string, ms: seq<Extractor.RegexMatch>, j: nat)
    requires j < |ms|
    ensures Candidates(done + Extractor.Tagged(format, ms[..j + 1]))
         == Candidates(done + Extractor.Tagged(format, ms[..j]))
            + (if Extractor.IsValidPhoneNumber(CleanMatch(ms[j].group))
               then [Extractor.PhoneEntry(ms[j].group, CleanMatch(ms[j].group), format, ms[j].start)] else [])
  {
    var m := Extractor.RawMatch(format, ms[j].group, ms[j].start);
    Extractor.TaggedSnoc(format, ms, j);
    assert done + Extractor.Tagged(format, ms[..j + 1]) == (done + Extractor.Tagged(format, ms[..j])) + [m];
    CandidatesSnoc(done + Extractor.Tagged(format, ms[..j]), m);
  }

  /** The loop over the patterns and their matches that fills `found_numbers`. */
  method CollectCandidates(cleanedText: string, finditer: (string, string) -> seq<Extractor.RegexMatch>)
    returns (found: seq<Extractor.PhoneEntry>)
    ensures found == Candidates(Extractor.ScanFormats(Extractor.Formats, cleanedText, finditer))
  {
    found := [];
    for p := 0 to |Extractor.Formats|
      invariant found == Candidates(Extractor.ScanFormats(Extractor.Formats[..p], cleanedText, finditer))
    {
      var formatName := Extractor.Formats[p];
      var matches := finditer(formatName, cleanedText);
      ghost var done := Extractor.ScanFormats(Extractor.Formats[..p], cleanedText, finditer);
      assert done + Extractor.Tagged(formatName, matches[..0]) == done;
      for j := 0 to |matches|
        invariant found == Candidates(done + Extractor.Tagged(formatName, matches[..j]))
      {
        var number := matches[j].group;
        var cleanedNumber := CleanMatch(number);
        ScanStep(done, formatName, matches, j);
        if Extractor.IsValidPhoneNumber(cleanedNumber) {
          found := found + [Extractor.PhoneEntry(number, cleanedNumber, formatName, matches[j].start)];
        }
      }
      assert matches[..|matches|] == matches;
      Extractor.ScanFormatsSnoc(Extractor.Formats, p, cleanedText, finditer);
    }
    assert Extractor.Formats[..|Extractor.Formats|] == Extractor.Formats;
  }

  /** The loop over the sorted entries that keeps the first one per key. */
  method KeepFirstPerKey(sorted: seq<Extractor.PhoneEntry>) returns (unique: seq<Extractor.PhoneEntry>)
    ensures unique == FirstPerKey(sorted, DedupKey, {})
  {
    unique := [];
    var seen: set<string> := {};
    ghost var target := FirstPerKey(sorted, DedupKey, {});
    assert sorted[0..] == sorted;
    for i := 0 to |sorted|
      invariant target == unique + FirstPerKey(sorted[i..], DedupKey, seen)
    {
      KeepStep(sorted, seen, i, unique);
      var cleaned := StripLeadingZeros(sorted[i].cleaned);
      if cleaned !in seen {
        seen := seen + {cleaned};
        unique := unique + [sorted[i]];
      }
    }
    assert sorted[|sorted|..] == [];
  }

  /** One step of the deduplication loop, with the output so far in front. */
  lemma KeepStep(sorted: seq<Extractor.PhoneEntry>, seen: set<string>, i: nat, unique: seq<Extractor.PhoneEntry>)
    requires i < |sorted|
    ensures var k := StripLeadingZeros(sorted[i].cleaned);
      unique + FirstPerKey(sorted[i..], DedupKey, seen)
        == if k in seen then unique + FirstPerKey(sorted[i + 1..], DedupKey, seen)
           else (unique + [sorted[i]]) + FirstPerKey(sorted[i + 1..], DedupKey, seen + {k})
  {
    FirstPerKeyStep(sorted, DedupKey, seen, i);
    var k := DedupKey(sorted[i]);
    if k !in seen {
      var rest := FirstPerKey(sorted[i + 1..], DedupKey, seen + {k});
      assert unique + ([sorted[i]] + rest) == (unique + [sorted[i]]) + rest;
    }
  }

  /** `extract_phone_numbers(text)`. The scan with the legacy patterns is the
      parameter `finditer`, giving for a pattern name and a text the matches
      in the order `re.finditer` yields them. */
  method ExtractPhoneNumbers(text: string, u: TextUtils.Categories, finditer: (string, string) -> seq<Extractor.RegexMatch>)
    returns (r: seq<Extractor.PhoneEntry>)
    ensures r == Extracted(Extractor.ScanFormats(Extractor.Formats, CleanTextSpec(text, u), finditer))
  {
    var cleanedText := CleanText(text, u);
    var found := CollectCandidates(cleanedText, finditer);
    var sorted := SortBy(found, NegatedLength);
    r := KeepFirstPerKey(sorted);
  }

  // ------------------------------------------------------ what is returned

  lemma ExtractedSubsequence(ms: seq<Extractor.RawMatch>)
    ensures forall e :: e in Extracted(ms) ==> e in Candidates(ms)
  {
    var sorted := SortBy(Candidates(ms), NegatedLength);
    FirstPerKeySubsequence(sorted, DedupKey, {});
    SubsequenceMembers(Extracted(ms), sorted);
    forall e | e in Extracted(ms) ensures e in Candidates(ms) {
      assert e in multiset(sorted);
    }
  }

  /** Exactly the matches whose cleaned text is valid become entries. */
  lemma {:induction false} CandidatesFromMatches(ms: seq<Extractor.RawMatch>)
    ensures forall e :: e in Candidates(ms) ==>
      && e.cleaned == CleanMatch(e.original) && Extractor.IsValidPhoneNumber(e.cleaned)
      && Extractor.RawMatch(e.format, e.original, e.position) in ms
    ensures forall m :: m in ms && Extractor.IsValidPhoneNumber(CleanMatch(m.text)) ==>
      Extractor.PhoneEntry(m.text, CleanMatch(m.text), m.format, m.start) in Candidates(ms)
    decreases |ms|
  {
    if ms != [] {
      var init := ms[..|ms| - 1];
      CandidatesFromMatches(init);
      assert ms == init + [ms[|ms| - 1]];
      assert forall m :: m in init ==> m in ms;
    }
  }

  /** Every returned entry comes from a match, passed the validity test and
      has no whitespace, '-' or '.' in its cleaned form. */
  lemma ExtractedEntriesValid(ms: seq<Extractor.RawMatch>)
    ensures forall e :: e in Extracted(ms) ==>
      && Extractor.RawMatch(e.format, e.original, e.position) in ms
      && e.cleaned == CleanMatch(e.original)
      && Extractor.IsValidPhoneNumber(e.cleaned)
      && (forall c :: c in e.cleaned ==> !IsSpace(c) && c != '-' && c != '.')
  {
    ExtractedSubsequence(ms);
    CandidatesFromMatches(ms);
  }

  /** The entries come longest cleaned form first. */
  lemma ExtractedByLength(ms: seq<Extractor.RawMatch>)
    ensures forall i, j :: 0 <= i < j < |Extracted(ms)| ==> |Extracted(ms)[i].cleaned| >= |Extracted(ms)[j].cleaned|
  {
    var sorted := SortBy(Candidates(ms), NegatedLength);
    SortBySorted(Candidates(ms), NegatedLength);
    FirstPerKeySubsequence(sorted, DedupKey, {});
    SubsequenceSorted(Extracted(ms), sorted, NegatedLength);
    var r := Extracted(ms);
    forall i, j | 0 <= i < j < |r| ensures |r[i].cleaned| >= |r[j].cleaned| {
      assert NegatedLength(r[i]) <= NegatedLength(r[j]);
    }
  }

  /** No two returned entries agree once leading zeros are dropped. */
  lemma ExtractedKeysDistinct(ms: seq<Extractor.RawMatch>)
    ensures forall i, j :: 0 <= i < j < |Extracted(ms)| ==>
      StripLeadingZeros(Extracted(ms)[i].cleaned) != StripLeadingZeros(Extracted(ms)[j].cleaned)
  {
    FirstPerKeyDistinct(SortBy(Candidates(ms), NegatedLength), DedupKey, {});
  }

  /** Every key among the candidates is represented, and each returned entry
      is the first of its key in the longest-first order, so the longest
      candidate of each key (the earliest one among equally long ones) wins. */
  lemma ExtractedFirstPerKey(ms: seq<Extractor.RawMatch>)
    ensures var sorted := SortBy(Candidates(ms), NegatedLength);
      && EachFirstOfKey(Extracted(ms), sorted, DedupKey)
      && CoversKeys(Extracted(ms), sorted, DedupKey, {})
  {
    var sorted := SortBy(Candidates(ms), NegatedLength);
    FirstPerKeyEarliest(sorted, DedupKey, {});
    FirstPerKeyComplete(sorted, DedupKey, {});
  }

  /** Two matches that differ only in leading zeros, such as "0049…" and
      "49…", collapse into the longer one, whichever was found first. */
  lemma LongerWins(a: Extractor.RawMatch, b: Extractor.RawMatch)
    requires Extractor.IsValidPhoneNumber(CleanMatch(a.text)) && Extractor.IsValidPhoneNumber(CleanMatch(b.text))
    requires StripLeadingZeros(CleanMatch(a.text)) == StripLeadingZeros(CleanMatch(b.text))
    requires |CleanMatch(a.text)| > |CleanMatch(b.text)|
    ensures Extracted([b, a]) == [Extractor.PhoneEntry(a.text, CleanMatch(a.text), a.format, a.start)]
    ensures Extracted([a, b]) == [Extractor.PhoneEntry(a.text, CleanMatch(a.text), a.format, a.start)]
  {
    var ea := Extractor.PhoneEntry(a.text, CleanMatch(a.text), a.format, a.start);
    var eb := Extractor.PhoneEntry(b.text, CleanMatch(b.text), b.format, b.start);
    TwoCandidates(b, a);
    TwoCandidates(a, b);
    LongerSortsFirst(eb, ea);
    LongerStaysFirst(eb, ea);
    SameKeyOnce(ea, eb);
  }

  lemma TwoCandidates(x: Extractor.RawMatch, y: Extractor.RawMatch)
    requires Extractor.IsValidPhoneNumber(CleanMatch(x.text)) && Extractor.IsValidPhoneNumber(CleanMatch(y.text))
    ensures Candidates([x, y]) == [Candidate(x).value, Candidate(y).value]
  {
    assert [x, y][..1] == [x];
    assert [x][..0] == [];
    assert Candidates([x]) == [] + [Candidate(x).value];
    assert Candidates([x, y]) == Candidates([x]) + [Candidate(y).value];
  }

  lemma LongerSortsFirst(short: Extractor.PhoneEntry, long: Extractor.PhoneEntry)
    requires |long.cleaned| > |short.cleaned|
    ensures SortBy([short, long], NegatedLength) == [long, short]
  {
    assert [short, long][1..] == [long] && [long][1..] == [];
    assert SortBy([long], NegatedLength) == [long];
    assert InsertBy(short, [], NegatedLength) == [short];
  }

  lemma LongerStaysFirst(short: Extractor.PhoneEntry, long: Extractor.PhoneEntry)
    requires |long.cleaned| > |short.cleaned|
    ensures SortBy([long, short], NegatedLength) == [long, short]
  {
    assert [long, short][1..] == [short] && [short][1..] == [];
    assert SortBy([short], NegatedLength) == [short];
    assert InsertBy(short, [], NegatedLength) == [short];
  }

  lemma SameKeyOnce(x: Extractor.PhoneEntry, y: Extractor.PhoneEntry)
    requires DedupKey(x) == DedupKey(y)
    ensures FirstPerKey([x, y], DedupKey, {}) == [x]
  {
    assert [x, y][1..] == [y] && [y][1..] == [];
    var seen: set<string> := {};
    assert FirstPerKey([y], DedupKey, seen + {DedupKey(x)}) == [];
  }

  // ----------------------------------------------------- format_phone_number

  /** `format_phone_number(number, format)`. The number comes back unchanged
      when its digits are not valid, when an international or local number
      has fewer than ten digits, and for any other format name. */
  function FormatPhoneNumber(number: string, format: string): (r: string)
    ensures !Extractor.IsValidPhoneNumber(DigitsOf(number)) ==> r == number
    ensures format != "german" && format != "international" && format != "local" ==> r == number
    ensures (format == "international" || format == "local") && |DigitsOf(number)| < 10 ==> r == number
  {
    var digits := DigitsOf(number);
    if !Extractor.IsValidPhoneNumber(digits) then number
    else if format == "german" then Formatter.GermanLayout(digits)
    else if format == "international" then
      if |digits| >= 10 then Formatter.GroupedByThree(Formatter.WithPlus(digits)) else number
    else if format == "local" then
      if |digits| >= 10 then Formatter.LocalLayout(digits) else number
    else number
  }

  /** The german and the local branch are those of `src/phone/formatter.py`. */
  lemma SameAsFormatterOutsideInternational(number: string, format: string)
    requires format != "international"
    ensures FormatPhoneNumber(number, format) == Formatter.FormatPhoneNumber(number, format)
  {
  }

  /** The international branch with ten digits or more: "00" dropped, '+'
      put in front, then groups of three characters, so that the '+' and the
      first two digits form the first group. Its digits are the input digits
      without the "00". */
  lemma InternationalShape(number: string)
    requires Extractor.IsValidPhoneNumber(DigitsOf(number)) && |DigitsOf(number)| >= 10
    ensures var d := Formatter.DropPrefix(DigitsOf(number), "00");
      var r := FormatPhoneNumber(number, "international");
      && |d| >= 8
      && r == "+" + d[..2] + " " + d[2..5] + " " + d[5..8] + " " + d[8..]
      && StartsWith(r, "+")
      && DigitsOf(r) == d
  {
    var digits := DigitsOf(number);
    Formatter.InternationalUnfold(number);
    var d := Formatter.DropPrefix(digits, "00");
    assert FormatPhoneNumber(number, "international") == Formatter.GroupedByThree("+" + d);
    GroupedWithPlus(d);
  }

  /** The groups of three of "+" followed by at least eight digits. */
  lemma GroupedWithPlus(d: string)
    requires AllDigits(d) && |d| >= 8
    ensures var r := Formatter.GroupedByThree("+" + d);
      && r == "+" + d[..2] + " " + d[2..5] + " " + d[5..8] + " " + d[8..]
      && StartsWith(r, "+")
      && DigitsOf(r) == d
  {
    var p := "+" + d;
    assert p[..3] == "+" + d[..2];
    assert p[3..6] == d[2..5];
    assert p[6..9] == d[5..8];
    assert p[9..] == d[8..];
    var a, b, c, e := d[..2], d[2..5], d[5..8], d[8..];
    assert AllDigits(a) && AllDigits(b) && AllDigits(c) && AllDigits(e);
    Formatter.InternationalDigits(a, b, c, e);
    assert a + b + c + e == d;
  }
}
