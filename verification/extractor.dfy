/** The extractor of `src/phone/extractor.py`: the digit-heuristic validity
    test and everything `extract_phone_numbers` does after the regular
    expression scan (per-format cleaning, validation, comparison keys, the
    stable sort by format priority and the first-per-key deduplication). */
module Extractor {
  import opened Common
  import opened Ordering
  import TextUtils

  // ------------------------------------------------------------- validity

  /** A run of five equal digits starts at `i` (`(\d)\1{4,}` matches there). */
  ghost predicate RepeatAt(d: string, i: int) {
    0 <= i && i + 5 <= |d| && IsDigit(d[i]) && forall j :: i < j < i + 5 ==> d[j] == d[i]
  }

  /** `(19|20)\d{2}` matches at `i`. */
  ghost predicate YearAt(d: string, i: int) {
    0 <= i && i + 4 <= |d|
    && ((d[i] == '1' && d[i + 1] == '9') || (d[i] == '2' && d[i + 1] == '0'))
    && IsDigit(d[i + 2]) && IsDigit(d[i + 3])
  }

  /** `re.search(r'(\d)\1{4,}', d)`, scanning from the left. */
  predicate HasRepeatRun(d: string)
    decreases |d|
  {
    |d| >= 5
    && ((IsDigit(d[0]) && d[1] == d[0] && d[2] == d[0] && d[3] == d[0] && d[4] == d[0])
        || HasRepeatRun(d[1..]))
  }

  /** `re.search(r'(19|20)\d{2}', d)`, scanning from the left. */
  predicate HasYearLike(d: string)
    decreases |d|
  {
    |d| >= 4
    && ((((d[0] == '1' && d[1] == '9') || (d[0] == '2' && d[1] == '0')) && IsDigit(d[2]) && IsDigit(d[3]))
        || HasYearLike(d[1..]))
  }

  /** `is_valid_phone_number`: the digits of `number` pass the four rules. */
  predicate IsValidPhoneNumber(number: string) {
    var digits := DigitsOf(number);
    if |digits| < 8 || |digits| > 15 then false
    else if HasRepeatRun(digits) then false
    else if HasYearLike(digits) then false
    else if StartsWith(digits, "000") then false
    else true
  }

  lemma {:induction false} HasRepeatRunIff(d: string)
    ensures HasRepeatRun(d) <==> exists i :: RepeatAt(d, i)
    decreases |d|
  {
    if |d| >= 5 {
      HasRepeatRunIff(d[1..]);
      if HasRepeatRun(d[1..]) {
        var i :| RepeatAt(d[1..], i);
        assert RepeatAt(d, i + 1);
      }
      if exists i :: RepeatAt(d, i) {
        var i :| RepeatAt(d, i);
        if i > 0 {
          assert RepeatAt(d[1..], i - 1);
        } else {
          assert d[1] == d[0] && d[2] == d[0] && d[3] == d[0] && d[4] == d[0];
        }
      }
      if IsDigit(d[0]) && d[1] == d[0] && d[2] == d[0] && d[3] == d[0] && d[4] == d[0] {
        assert RepeatAt(d, 0);
      }
    }
  }

  lemma {:induction false} HasYearLikeIff(d: string)
    ensures HasYearLike(d) <==> exists i :: YearAt(d, i)
    decreases |d|
  {
    if |d| >= 4 {
      HasYearLikeIff(d[1..]);
      if HasYearLike(d[1..]) {
        var i :| YearAt(d[1..], i);
        assert YearAt(d, i + 1);
      }
      if exists i :: YearAt(d, i) {
        var i :| YearAt(d, i);
        if i > 0 {
          assert YearAt(d[1..], i - 1);
        }
      }
      if YearAt(d, 0) {
        assert YearAt(d, 0);
      }
    }
  }

  /** The four rules, stated directly: a number is valid exactly when its
      digit string has 8 to 15 digits, no run of five equal digits, no
      "19dd"/"20dd" and no leading "000". */
  lemma IsValidPhoneNumberIff(number: string)
    ensures var d := DigitsOf(number);
      IsValidPhoneNumber(number) <==>
        && 8 <= |d| <= 15
        && (forall i :: !RepeatAt(d, i))
        && (forall i :: !YearAt(d, i))
        && !StartsWith(d, "000")
  {
    HasRepeatRunIff(DigitsOf(number));
    HasYearLikeIff(DigitsOf(number));
  }

  /** The verdict depends on the digits alone. */
  lemma IsValidPhoneNumberDigits(number: string)
    ensures IsValidPhoneNumber(number) == IsValidPhoneNumber(DigitsOf(number))
  {
    DigitsOfIdempotent(number);
  }

  /** Five equal digits in a row anywhere reject the number. */
  lemma RepeatRejected(number: string, i: int)
    requires RepeatAt(DigitsOf(number), i)
    ensures !IsValidPhoneNumber(number)
  {
    HasRepeatRunIff(DigitsOf(number));
  }

  /** "19" or "20" followed by two digits anywhere rejects the number. */
  lemma YearRejected(number: string, i: int)
    requires YearAt(DigitsOf(number), i)
    ensures !IsValidPhoneNumber(number)
  {
    HasYearLikeIff(DigitsOf(number));
  }

  /** The repeat test by index rather than by suffix: no run of five equal
      digits starts at `i` or later. Concrete strings evaluate well in this form. */
  predicate RepeatFreeFrom(d: string, i: nat)
    decreases |d| - i
  {
    i + 5 > |d|
    || (!(IsDigit(d[i]) && d[i + 1] == d[i] && d[i + 2] == d[i] && d[i + 3] == d[i] && d[i + 4] == d[i])
        && RepeatFreeFrom(d, i + 1))
  }

  /** The year test by index: no "19dd" or "20dd" starts at `i` or later. */
  predicate YearFreeFrom(d: string, i: nat)
    decreases |d| - i
  {
    i + 4 > |d|
    || (!(((d[i] == '1' && d[i + 1] == '9') || (d[i] == '2' && d[i + 1] == '0')) && IsDigit(d[i + 2]) && IsDigit(d[i + 3]))
        && YearFreeFrom(d, i + 1))
  }

  lemma {:induction false} RepeatFreeFromIff(d: string, i: nat)
    requires i <= |d|
    ensures RepeatFreeFrom(d, i) <==> !HasRepeatRun(d[i..])
    decreases |d| - i
  {
    if i + 5 <= |d| {
      RepeatFreeFromIff(d, i + 1);
      assert d[i..][1..] == d[i + 1..];
    }
  }

  lemma {:induction false} YearFreeFromIff(d: string, i: nat)
    requires i <= |d|
    ensures YearFreeFrom(d, i) <==> !HasYearLike(d[i..])
    decreases |d| - i
  {
    if i + 4 <= |d| {
      YearFreeFromIff(d, i + 1);
      assert d[i..][1..] == d[i + 1..];
    }
  }

  /** A digit string that passes the four rules, checked by index. */
  lemma ValidDigitString(d: string)
    requires AllDigits(d) && 8 <= |d| <= 15
    requires RepeatFreeFrom(d, 0) && YearFreeFrom(d, 0) && !(d[0] == '0' && d[1] == '0' && d[2] == '0')
    ensures IsValidPhoneNumber(d)
  {
    DigitsOfDigits(d);
    RepeatFreeFromIff(d, 0);
    YearFreeFromIff(d, 0);
    assert d[0..] == d;
    assert d[..3] == [d[0], d[1], d[2]];
  }

  /** The accepted examples of the test suite. */
  lemma ValidExampleInternational(number: string)
    requires number == "+49123456789"
    ensures IsValidPhoneNumber(number)
  {
    DigitsOfPlus(number);
    ValidExampleDigits(DigitsOf(number));
    IsValidPhoneNumberDigits(number);
  }

  /** The digits of "+49123456789". */
  lemma ValidExampleDigits(d: string)
    requires d == "49123456789"
    ensures IsValidPhoneNumber(d)
  {
    assert AllDigits("49123456789");
    assert RepeatFreeFrom("49123456789", 0) && YearFreeFrom("49123456789", 0);
    ValidDigitString(d);
  }

  lemma ValidExampleDoubleZero(number: string)
    requires number == "0049123456789"
    ensures IsValidPhoneNumber(number)
  {
    assert AllDigits("0049123456789");
    assert RepeatFreeFrom("0049123456789", 0) && YearFreeFrom("0049123456789", 0);
    ValidDigitString(number);
  }

  lemma ValidExampleLocal(number: string)
    requires number == "01234567890"
    ensures IsValidPhoneNumber(number)
  {
    assert AllDigits("01234567890");
    assert RepeatFreeFrom("01234567890", 0) && YearFreeFrom("01234567890", 0);
    ValidDigitString(number);
  }

  /** The rejected examples of the test suite: too short, too long, too many
      leading zeros, repeated digits. */
  lemma InvalidExampleShort(number: string)
    requires number == "123"
    ensures !IsValidPhoneNumber(number)
  {
    assert AllDigits("123");
    DigitsOfDigits(number);
  }

  lemma InvalidExampleLong(number: string)
    requires number == "1234567890123456"
    ensures !IsValidPhoneNumber(number)
  {
    assert AllDigits("1234567890123456");
    DigitsOfDigits(number);
  }

  lemma InvalidExampleZeros(number: string)
    requires number == "00000000000"
    ensures !IsValidPhoneNumber(number)
  {
    assert AllDigits("00000000000");
    DigitsOfDigits(number);
    assert HasRepeatRun("00000000000");
  }

  lemma InvalidExampleVeryLong(number: string)
    requires number == "12345678901234567890"
    ensures !IsValidPhoneNumber(number)
  {
    assert AllDigits("12345678901234567890");
    DigitsOfDigits(number);
  }

  lemma InvalidExampleRepeated(number: string)
    requires number == "11111111111"
    ensures !IsValidPhoneNumber(number)
  {
    assert AllDigits("11111111111");
    DigitsOfDigits(number);
    assert HasRepeatRun("11111111111");
  }

  // ----------------------------------------------------------- extraction

  /** One result of `re.finditer`: `match.group(0)` and `match.start()`. */
  datatype RegexMatch = RegexMatch(group: string, start: nat)

  /** A match together with the name of the pattern that produced it. */
  datatype RawMatch = RawMatch(format: string, text: string, start: nat)

  /** The dictionary `{'original', 'cleaned', 'format', 'position'}`. */
  datatype PhoneEntry = PhoneEntry(original: string, cleaned: string, format: string, position: nat)

  /** The copy carrying the temporary `comparison_key`. */
  datatype KeyedEntry = KeyedEntry(entry: PhoneEntry, comparisonKey: string)

  /** The pattern names, in the order the patterns are tried. */
  const Formats: seq<string> := ["german", "international", "local"]

  /** Removed by `[\s\-\.]`. */
  predicate KeptInGerman(c: char) {
    !IsSpace(c) && c != '-' && c != '.'
  }

  /** Removed by `[\s\-\.\(\)]`. */
  predicate KeptInOthers(c: char) {
    KeptInGerman(c) && c != '(' && c != ')'
  }

  /** The per-format cleaning of a matched string: german numbers keep their
      parentheses, the others lose them. Either way the digits are untouched. */
  function CleanMatch(format: string, text: string): (r: string)
    ensures forall c :: c in r ==> c in text && KeptInGerman(c)
    ensures format != "german" ==> forall c :: c in r ==> c != '(' && c != ')'
    ensures forall c :: c in text && KeptInOthers(c) ==> c in r
    ensures format == "german" ==> forall c :: c in text && KeptInGerman(c) ==> c in r
    ensures DigitsOf(r) == DigitsOf(text)
  {
    if format == "german" then
      KeepPreservesDigits(text, KeptInGerman);
      Keep(text, KeptInGerman)
    else
      KeepPreservesDigits(text, KeptInOthers);
      Keep(text, KeptInOthers)
  }

  /** The entry a match contributes to `found_numbers`, if its cleaned form is valid. */
  function Candidate(m: RawMatch): (e: Option<PhoneEntry>)
    ensures e.Some? <==> IsValidPhoneNumber(CleanMatch(m.format, m.text))
  {
    var cleaned := CleanMatch(m.format, m.text);
    if IsValidPhoneNumber(cleaned) then Some(PhoneEntry(m.text, cleaned, m.format, m.start)) else None
  }

  /** `found_numbers` after the matches `ms` have been processed. */
  function Candidates(ms: seq<RawMatch>): seq<PhoneEntry>
    decreases |ms|
  {
    if ms == [] then []
    else
      var last := Candidate(ms[|ms| - 1]);
      Candidates(ms[..|ms| - 1]) + (if last.Some? then [last.value] else [])
  }

  /** An entry built from a match of format `format` with text `original`. */
  predicate WellFormedEntry(e: PhoneEntry) {
    e.cleaned == CleanMatch(e.format, e.original) && IsValidPhoneNumber(e.cleaned)
  }

  /** Exactly the matches whose cleaned text is valid become entries, in order. */
  lemma {:induction false} CandidatesFromMatches(ms: seq<RawMatch>)
    ensures forall e :: e in Candidates(ms) ==>
      WellFormedEntry(e) && RawMatch(e.format, e.original, e.position) in ms
    ensures forall m :: m in ms && IsValidPhoneNumber(CleanMatch(m.format, m.text)) ==>
      PhoneEntry(m.text, CleanMatch(m.format, m.text), m.format, m.start) in Candidates(ms)
    decreases |ms|
  {
    if ms != [] {
      var init := ms[..|ms| - 1];
      CandidatesFromMatches(init);
      assert ms == init + [ms[|ms| - 1]];
      assert forall m :: m in init ==> m in ms;
    }
  }

  /** The comparison key: the digits of `cleaned`, with `+49(0)` rewritten to
      `+49` for german entries that contain `(0)`. The rewrite cannot fire,
      because the key has no '+' left in it: the key is the digit string. */
  function ComparisonKey(e: PhoneEntry): (k: string)
    ensures k == DigitsOf(e.cleaned)
  {
    var key := DigitsOf(e.cleaned);
    if e.format == "german" && Contains(e.cleaned, "(0)") then
      DigitsOfShape(e.cleaned);
      ReplaceAllAbsent(key, "+49(0)", "+49");
      ReplaceAll(key, "+49(0)", "+49")
    else key
  }

  /** `re.sub(pat, rep, s)` for a pattern without special characters:
      every non-overlapping occurrence, from the left, is replaced. */
  function ReplaceAll(s: string, pat: string, rep: string): string
    requires pat != []
    decreases |s|
  {
    if |s| < |pat| then s
    else if s[..|pat|] == pat then rep + ReplaceAll(s[|pat|..], pat, rep)
    else [s[0]] + ReplaceAll(s[1..], pat, rep)
  }

  /** A pattern whose first character does not occur is never replaced. */
  lemma {:induction false} ReplaceAllAbsent(s: string, pat: string, rep: string)
    requires pat != [] && pat[0] !in s
    ensures ReplaceAll(s, pat, rep) == s
    decreases |s|
  {
    if |s| >= |pat| {
      assert s[..|pat|][0] == s[0];
      assert pat[0] !in s[1..] by { assert forall c :: c in s[1..] ==> c in s; }
      ReplaceAllAbsent(s[1..], pat, rep);
    }
  }

  /** `format_priority.get(format, 99)`. */
  function Priority(format: string): nat {
    if format == "german" then 0
    else if format == "international" then 1
    else if format == "local" then 2
    else 99
  }

  function EntryPriority(e: PhoneEntry): int {
    Priority(e.format)
  }

  function KeyedPriority(k: KeyedEntry): int {
    Priority(k.entry.format)
  }

  function KeyOf(k: KeyedEntry): string {
    k.comparisonKey
  }

  function EntryOf(k: KeyedEntry): PhoneEntry {
    k.entry
  }

  /** `normalized_numbers` for the entries `s`: each with its comparison key. */
  function WithKeys(s: seq<PhoneEntry>): (r: seq<KeyedEntry>)
    ensures |r| == |s|
    ensures forall i :: 0 <= i < |s| ==> r[i].entry == s[i] && r[i].comparisonKey == ComparisonKey(s[i])
    decreases |s|
  {
    if s == [] then []
    else WithKeys(s[..|s| - 1]) + [KeyedEntry(s[|s| - 1], ComparisonKey(s[|s| - 1]))]
  }

  /** What `extract_phone_numbers` returns for the matches `ms`: the valid
      candidates, stably sorted by format priority, first entry per key. */
  function Extracted(ms: seq<RawMatch>): seq<PhoneEntry> {
    FirstPerKey(SortBy(Candidates(ms), EntryPriority), ComparisonKey, {})
  }

  /** The matches of one pattern, tagged with its name. */
  function Tagged(format: string, ms: seq<RegexMatch>): (r: seq<RawMatch>)
    ensures |r| == |ms|
    ensures forall i :: 0 <= i < |ms| ==> r[i] == RawMatch(format, ms[i].group, ms[i].start)
    decreases |ms|
  {
    if ms == [] then []
    else
      var m := ms[|ms| - 1];
      Tagged(format, ms[..|ms| - 1]) + [RawMatch(format, m.group, m.start)]
  }

  /** All matches of the patterns `fs` in `text`, pattern by pattern. */
  function ScanFormats(fs: seq<string>, text: string, finditer: (string, string) -> seq<RegexMatch>): seq<RawMatch>
    decreases |fs|
  {
    if fs == [] then []
    else
      var f := fs[|fs| - 1];
      ScanFormats(fs[..|fs| - 1], text, finditer) + Tagged(f, finditer(f, text))
  }

  lemma CandidatesSnoc(ms: seq<RawMatch>, m: RawMatch)
    ensures Candidates(ms + [m]) == Candidates(ms) + (if Candidate(m).Some? then [Candidate(m).value] else [])
  {
    assert (ms + [m])[..|ms|] == ms;
  }

  lemma TaggedSnoc(format: string, ms: seq<RegexMatch>, j: nat)
    requires j < |ms|
    ensures Tagged(format, ms[..j + 1]) == Tagged(format, ms[..j]) + [RawMatch(format, ms[j].group, ms[j].start)]
  {
    assert ms[..j + 1][..j] == ms[..j];
  }

  /** One step of the loop over the matches of one pattern. */
  lemma ScanStep(done: seq<RawMatch>, format: string, ms: seq<RegexMatch>, j: nat)
    requires j < |ms|
    ensures Candidates(done + Tagged(format, ms[..j + 1]))
         == Candidates(done + Tagged(format, ms[..j]))
            + (if IsValidPhoneNumber(CleanMatch(format, ms[j].group))
               then [PhoneEntry(ms[j].group, CleanMatch(format, ms[j].group), format, ms[j].start)] else [])
  {
    var m := RawMatch(format, ms[j].group, ms[j].start);
    TaggedSnoc(format, ms, j);
    assert done + Tagged(format, ms[..j + 1]) == (done + Tagged(format, ms[..j])) + [m];
    CandidatesSnoc(done + Tagged(format, ms[..j]), m);
  }

  lemma ScanFormatsSnoc(fs: seq<string>, p: nat, text: string, finditer: (string, string) -> seq<RegexMatch>)
    requires p < |fs|
    ensures ScanFormats(fs[..p + 1], text, finditer) == ScanFormats(fs[..p], text, finditer) + Tagged(fs[p], finditer(fs[p], text))
  {
    assert fs[..p + 1][..p] == fs[..p];
  }

  lemma WithKeysSnoc(s: seq<PhoneEntry>, i: nat)
    requires i < |s|
    ensures WithKeys(s[..i + 1]) == WithKeys(s[..i]) + [KeyedEntry(s[i], ComparisonKey(s[i]))]
  {
    assert s[..i + 1][..i] == s[..i];
  }

  /** Dropping the keys of `WithKeys(s)` gives back `s`. */
  lemma WithKeysEntries(s: seq<PhoneEntry>)
    ensures Map(WithKeys(s), EntryOf) == s
  {
    var m := Map(WithKeys(s), EntryOf);
    assert |m| == |s|;
    forall i | 0 <= i < |s| ensures m[i] == s[i] {
    }
  }

  /** Extraction through the comparison-key copies is extraction on the entries. */
  lemma ExtractedViaKeys(found: seq<PhoneEntry>)
    ensures Map(FirstPerKey(SortBy(WithKeys(found), KeyedPriority), KeyOf, {}), EntryOf)
         == FirstPerKey(SortBy(found, EntryPriority), ComparisonKey, {})
  {
    var ks := WithKeys(found);
    var sorted := SortBy(ks, KeyedPriority);
    assert forall x :: x in ks ==> KeyOf(x) == ComparisonKey(EntryOf(x));
    forall i | 0 <= i < |sorted| ensures KeyOf(sorted[i]) == ComparisonKey(EntryOf(sorted[i])) {
      assert sorted[i] in multiset(sorted);
      assert sorted[i] in ks;
    }
    FirstPerKeyMap(sorted, EntryOf, KeyOf, ComparisonKey, {});
    SortByMap(ks, EntryOf, KeyedPriority, EntryPriority);
    WithKeysEntries(found);
  }

  /** The loop over the patterns and their matches that fills `found_numbers`. */
  method CollectCandidates(cleanedText: string, finditer: (string, string) -> seq<RegexMatch>)
    returns (found: seq<PhoneEntry>)
    ensures found == Candidates(ScanFormats(Formats, cleanedText, finditer))
  {
    found := [];
    for p := 0 to |Formats|
      invariant found == Candidates(ScanFormats(Formats[..p], cleanedText, finditer))
    {
      var formatName := Formats[p];
      var matches := finditer(formatName, cleanedText);
      ghost var done := ScanFormats(Formats[..p], cleanedText, finditer);
      assert done + Tagged(formatName, matches[..0]) == done;
      for j := 0 to |matches|
        invariant found == Candidates(done + Tagged(formatName, matches[..j]))
      {
        var number := matches[j].group;
        var cleanedNumber := CleanMatch(formatName, number);
        ScanStep(done, formatName, matches, j);
        if IsValidPhoneNumber(cleanedNumber) {
          found := found + [PhoneEntry(number, cleanedNumber, formatName, matches[j].start)];
        }
      }
      assert matches[..|matches|] == matches;
      ScanFormatsSnoc(Formats, p, cleanedText, finditer);
    }
    assert Formats[..|Formats|] == Formats;
  }

  /** The loop that builds `normalized_numbers`: a copy of each entry with
      its comparison key. */
  method AddComparisonKeys(found: seq<PhoneEntry>) returns (normalized: seq<KeyedEntry>)
    ensures normalized == WithKeys(found)
  {
    normalized := [];
    for i := 0 to |found|
      invariant normalized == WithKeys(found[..i])
    {
      WithKeysSnoc(found, i);
      normalized := normalized + [KeyedEntry(found[i], ComparisonKey(found[i]))];
    }
    assert found[..|found|] == found;
  }

  /** The loop over the sorted copies that keeps the first one per key and
      drops the key again. */
  method KeepFirstPerKey(sorted: seq<KeyedEntry>) returns (unique: seq<PhoneEntry>)
    ensures unique == Map(FirstPerKey(sorted, KeyOf, {}), EntryOf)
  {
    unique := [];
    var seen: set<string> := {};
    assert sorted[0..] == sorted;
    for i := 0 to |sorted|
      invariant Map(FirstPerKey(sorted, KeyOf, {}), EntryOf) == unique + Map(FirstPerKey(sorted[i..], KeyOf, seen), EntryOf)
    {
      FirstPerKeyStep(sorted, KeyOf, seen, i);
      if sorted[i].comparisonKey !in seen {
        MapCons(sorted[i], FirstPerKey(sorted[i + 1..], KeyOf, seen + {sorted[i].comparisonKey}), EntryOf);
        seen := seen + {sorted[i].comparisonKey};
        unique := unique + [sorted[i].entry];
      }
    }
  }

  /** `extract_phone_numbers(text)`. The regular expression scan is the
      parameter `finditer`, giving for a pattern name and a text the matches
      in the order `re.finditer` yields them. */
  method ExtractPhoneNumbers(text: string, u: TextUtils.Categories, finditer: (string, string) -> seq<RegexMatch>)
    returns (r: seq<PhoneEntry>)
    ensures r == Extracted(ScanFormats(Formats, TextUtils.CleanTextSpec(text, u), finditer))
  {
    var cleanedText := TextUtils.CleanText(text, u);
    var found := CollectCandidates(cleanedText, finditer);
    var normalized := AddComparisonKeys(found);
    var sorted := SortBy(normalized, KeyedPriority);
    r := KeepFirstPerKey(sorted);
    ExtractedViaKeys(found);
  }

  // ------------------------------------------------------ what is returned

  lemma ExtractedSubsequence(ms: seq<RawMatch>)
    ensures forall e :: e in Extracted(ms) ==> e in Candidates(ms)
  {
    var sorted := SortBy(Candidates(ms), EntryPriority);
    FirstPerKeySubsequence(sorted, ComparisonKey, {});
    SubsequenceMembers(Extracted(ms), sorted);
    forall e | e in Extracted(ms) ensures e in Candidates(ms) {
      assert e in multiset(sorted);
    }
  }

  /** Every returned entry comes from a match, passed the validity test and
      was cleaned for its format: no whitespace, '-' or '.', and no
      parentheses unless it is german. */
  lemma ExtractedEntriesValid(ms: seq<RawMatch>)
    ensures forall e :: e in Extracted(ms) ==>
      && RawMatch(e.format, e.original, e.position) in ms
      && e.cleaned == CleanMatch(e.format, e.original)
      && IsValidPhoneNumber(e.cleaned)
      && (forall c :: c in e.cleaned ==> !IsSpace(c) && c != '-' && c != '.')
      && (e.format != "german" ==> forall c :: c in e.cleaned ==> c != '(' && c != ')')
  {
    ExtractedSubsequence(ms);
    CandidatesFromMatches(ms);
  }

  /** No two returned entries have the same digits. */
  lemma ExtractedKeysDistinct(ms: seq<RawMatch>)
    ensures forall i, j :: 0 <= i < j < |Extracted(ms)| ==>
      DigitsOf(Extracted(ms)[i].cleaned) != DigitsOf(Extracted(ms)[j].cleaned)
  {
    FirstPerKeyDistinct(SortBy(Candidates(ms), EntryPriority), ComparisonKey, {});
  }

  /** The entries come german first, then international, then local. */
  lemma ExtractedByPriority(ms: seq<RawMatch>)
    ensures SortedBy(Extracted(ms), EntryPriority)
  {
    var sorted := SortBy(Candidates(ms), EntryPriority);
    SortBySorted(Candidates(ms), EntryPriority);
    FirstPerKeySubsequence(sorted, ComparisonKey, {});
    SubsequenceSorted(Extracted(ms), sorted, EntryPriority);
  }

  /** Every digit string among the candidates is represented, and each
      returned entry is the first candidate with its digits in the order
      german, international, local (and in match order within a format,
      since the sort is stable: `Ordering.SortByStable`). */
  lemma ExtractedFirstPerKey(ms: seq<RawMatch>)
    ensures var sorted := SortBy(Candidates(ms), EntryPriority);
      && EachFirstOfKey(Extracted(ms), sorted, ComparisonKey)
      && CoversKeys(Extracted(ms), sorted, ComparisonKey, {})
  {
    var sorted := SortBy(Candidates(ms), EntryPriority);
    FirstPerKeyEarliest(sorted, ComparisonKey, {});
    FirstPerKeyComplete(sorted, ComparisonKey, {});
  }

  /** A german and an international match of the same digits, as the two
      patterns produce for "+49 (0) 123 456789", collapse into the german entry. */
  lemma GermanWinsOverInternational(g: RawMatch, i: RawMatch)
    requires g.format == "german" && i.format == "international"
    requires DigitsOf(g.text) == DigitsOf(i.text)
    requires IsValidPhoneNumber(CleanMatch(g.format, g.text))
    ensures Extracted([g, i]) == [PhoneEntry(g.text, CleanMatch(g.format, g.text), g.format, g.start)]
  {
    var eg := PhoneEntry(g.text, CleanMatch(g.format, g.text), g.format, g.start);
    var ci := CleanMatch(i.format, i.text);
    IsValidPhoneNumberDigits(ci);
    IsValidPhoneNumberDigits(CleanMatch(g.format, g.text));
    var ei := PhoneEntry(i.text, ci, i.format, i.start);
    assert [g, i][..1] == [g];
    assert Candidates([g]) == [eg];
    assert Candidates([g, i]) == [eg, ei];
    assert [eg, ei][1..] == [ei] && [ei][1..] == [];
    assert SortBy([ei], EntryPriority) == [ei];
    assert SortBy([eg, ei], EntryPriority) == [eg, ei];
    assert ComparisonKey(eg) == ComparisonKey(ei);
    var seen: set<string> := {};
    assert FirstPerKey([ei], ComparisonKey, seen + {ComparisonKey(eg)}) == [];
    assert FirstPerKey([eg, ei], ComparisonKey, seen) == [eg];
  }
}
