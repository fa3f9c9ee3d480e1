# Phone extraction core, modelled in Dafny

This project models the deterministic core of a Python tool that scrapes
websites for telephone numbers. It has six parts:

- **The digit-heuristic validity test** `is_valid_phone_number`. It keeps
  only the digits, then rejects lengths outside 8 to 15, a run of five equal
  digits, a year-like `19dd`/`20dd`, and a leading `000`.
- **Extraction after the regex scan** `extract_phone_numbers`. Matches are
  cleaned per format and validated, then given a digits-only comparison key.
  They are stably sorted german, international, local, and the first entry
  per key is kept.
- **The formatter** `format_phone_number` and `format_extracted_numbers`,
  with the german, international (North American, country-code and
  fallback rules) and local layouts.
- **The Twilio result classifier** `validate_phone_number_twilio`. It checks
  client availability, then the E.164 format, then maps the lookup outcome
  to status, validity, message and details.
- **The text cleaner** `clean_text` and `normalize_and_clean`. The steps
  are:
  - remove script blocks, then tags;
  - turn separators into spaces;
  - collapse whitespace;
  - apply the character whitelist;
  - strip;
  - append a space after script tags;
  - drop control characters.
- **Statistics** `generate_statistics`. A counting loop over per-website
  results, with its format inference and country-code rule.

The older top-level `text_utils.py` is modelled too, in module
`LegacyTextUtils`. It has:

- a stricter cleaner that drops letters;
- the same validity test (text_utils.py:86-115), reused from `Extractor`;
- an extraction that cleans every match alike and keeps the longest number
  per leading-zero-stripped key;
- a formatter whose international branch groups characters by three with
  the `+` inside the first group.

## Modules

| file | module | models |
|---|---|---|
| common.dfy | `Common` | the character classes, the `\D` digit projection, filters, Python slices, `str(int)` |
| ordering.dfy | `Ordering` | Python's stable sort and first-per-key deduplication, generically |
| extractor.dfy | `Extractor` | src/phone/extractor.py |
| formatter.dfy | `Formatter` | src/phone/formatter.py |
| validator.dfy | `TwilioValidator` | src/phone/validator.py |
| text_utils.dfy | `TextUtils` | src/text/utils.py |
| statistics.dfy | `Statistics` | src/analysis/statistics.py (`generate_statistics`) |
| legacy.dfy | `LegacyTextUtils` | text_utils.py |

### How the source is rendered

- **Loops are methods, each proved equal to a specification function.**
  The loops are the extraction, the key loop, the deduplication, the
  separator replacement, the formatting of the extracted list and the
  statistics. The properties are then lemmas about those functions.
- **Python's in-place `list.sort` and `sorted` are one pure stable
  insertion sort, `Ordering.SortBy`.** The legacy `reverse=True` sort by
  length is the stable ascending sort on the negated length. That is what
  Python's stable reverse sort yields: equal lengths keep their order.
- **The deduplication is `Ordering.FirstPerKey`.** It is a left-to-right
  scan with a seen set, proved to keep exactly the first element of each
  key.
- **`validate_phone_number_twilio` is a function.** It takes the client's
  availability and the lookup's outcome as parameters. It has no loop; the
  dictionary it fills field by field becomes one record value.

### Where the model differs from the source

These points follow from the code as written:

- **The `+49(0)` rewrite of the comparison key never changes the key.** The
  key is digits-only before the rewrite, so `Extractor.ComparisonKey`
  proves the key equals the digits of `cleaned`. The collapse of a german
  and an international match of the same number still happens, because
  both keys are the same digits (`Extractor.GermanWinsOverInternational`).
- **The last line of the formatter's international branch cannot be
  reached.** After a `+` and at least eight digits, the country-code
  pattern always matches, and greedily takes three digits
  (`Formatter.NoInternationalFallback`,
  `Formatter.CountryCodeIsThreeDigits`).
- **The text cleaner can end in a space, and one output is a single
  space.** It ends in whitespace only through the space it appends after a
  script tag. An input that is nothing but an empty script block cleans to
  `" "` (`TextUtils.EmptyScriptBlock`).

## Model

| member | source | states |
|---|---|---|
| Common.DigitsOfShape | src/phone/extractor.py:19 | the `\D`-stripped string holds only digits and is no longer than the input |
| Common.DigitsOfMembers | src/phone/extractor.py:19 | a character is in the stripped string exactly when it is a digit of the input |
| Common.DigitsOfIdempotent | src/phone/formatter.py:19-22 | stripping non-digits a second time (the formatter strips, then the validity test strips again) changes nothing |
| Common.DigitsOfAppend | src/phone/extractor.py:19 | the digit projection distributes over concatenation |
| Common.Keep | src/text/utils.py:74 | a comprehension filter is no longer than its input and holds exactly the kept characters of the input |
| Common.KeepPreservesDigits | text_utils.py:61-62 | a filter that keeps every digit leaves the digit projection unchanged |
| Common.LeadingDigits | src/analysis/statistics.py:97 | the greedy `\d{1,n}` is the longest prefix of at most n digits: a digit prefix that stops at n, at the end, or at a non-digit |
| Common.Slice | src/phone/formatter.py:30 | Python's `s[lo:hi]` clamps both bounds to the length and is the ordinary slice when they are in range |
| Common.ParseNatToString | src/phone/validator.py:128 | `str(n)` of a natural number is a digit string that reads back as n |
| Ordering.SortBy | src/phone/extractor.py:112 | the sort returns a permutation of its input |
| Ordering.SortBySorted | src/phone/extractor.py:112 | the sorted list is ordered by the key |
| Ordering.SortByStable | src/phone/extractor.py:112 | the sort is stable: the elements of each key keep their relative order |
| Ordering.FirstPerKeySubsequence | src/phone/extractor.py:115-120 | deduplication returns a subsequence of its input |
| Ordering.FirstPerKeyDistinct | src/phone/extractor.py:115-120 | no two returned elements share a key, and no key already seen is returned |
| Ordering.FirstPerKeyComplete | src/phone/extractor.py:115-120 | every key of the input not seen before is the key of some returned element |
| Ordering.FirstPerKeyEarliest | src/phone/extractor.py:115-120 | every returned element is, in the input, the first element with its key |
| Ordering.SubsequenceSorted | src/phone/extractor.py:112-120 | a subsequence of a sorted list is sorted |
| Ordering.SortByMap | src/phone/extractor.py:96-112 | sorting commutes with a map that preserves the sort key (adding and dropping the comparison key) |
| Ordering.FirstPerKeyMap | src/phone/extractor.py:96-120 | deduplication commutes with a map that preserves the key |
| Extractor.IsValidPhoneNumberIff | src/phone/extractor.py:8-37 | a number is valid exactly when its digits number 8 to 15, contain no run of five equal digits, no `19dd`/`20dd`, and do not start with `000` |
| Extractor.IsValidPhoneNumberDigits | src/phone/extractor.py:19 | the verdict depends only on the digits of the input |
| Extractor.HasRepeatRunIff | src/phone/extractor.py:26-27 | the left-to-right scan finds a repeat exactly when five equal digits sit somewhere in the string |
| Extractor.HasYearLikeIff | src/phone/extractor.py:30-31 | the left-to-right scan finds a year exactly when `19` or `20` followed by two digits occurs somewhere |
| Extractor.RepeatRejected | src/phone/extractor.py:26-27 | any run of five equal digits makes the number invalid |
| Extractor.YearRejected | src/phone/extractor.py:30-31 | any year-like `19dd`/`20dd` makes the number invalid |
| Extractor.RepeatFreeFromIff | src/phone/extractor.py:26 | the index-based repeat scan agrees with the scan of the suffix from that index |
| Extractor.YearFreeFromIff | src/phone/extractor.py:30 | the index-based year scan agrees with the scan of the suffix from that index |
| Extractor.ValidDigitString | src/phone/extractor.py:22-37 | a digit string of length 8 to 15 that passes the three pattern checks is accepted |
| Extractor.ValidExampleInternational | tests/test_phone_extractor.py:20 | "+49123456789" is valid |
| Extractor.ValidExampleDigits | tests/test_phone_extractor.py:20 | its digit string "49123456789" is valid |
| Extractor.ValidExampleDoubleZero | tests/test_phone_extractor.py:21 | "0049123456789" is valid |
| Extractor.ValidExampleLocal | tests/test_phone_extractor.py:22 | "01234567890" is valid |
| Extractor.InvalidExampleShort | tests/test_phone_extractor.py:25 | "123" is rejected as too short |
| Extractor.InvalidExampleLong | tests/test_phone_extractor.py:26 | a 16-digit number is rejected as too long |
| Extractor.InvalidExampleZeros | tests/test_phone_extractor.py:27 | "00000000000" is rejected |
| Extractor.InvalidExampleVeryLong | tests/test_phone_extractor.py:28 | a 20-digit number is rejected |
| Extractor.InvalidExampleRepeated | tests/test_phone_extractor.py:29 | "11111111111" is rejected for its repeated digits |
| Extractor.CleanMatch | src/phone/extractor.py:74-79 | the cleaned match keeps exactly the characters other than whitespace, `-` and `.`; for non-german formats it also drops both parentheses; its digits are the match's digits |
| Extractor.Candidate | src/phone/extractor.py:81-88 | a match yields an entry exactly when its cleaned text is valid |
| Extractor.Tagged | src/phone/extractor.py:68-71 | each match of one pattern is paired with that pattern's name, in order |
| Extractor.CandidatesFromMatches | src/phone/extractor.py:65-88 | every collected entry comes from a match and is valid and cleaned; every match whose cleaned text is valid is collected |
| Extractor.ComparisonKey | src/phone/extractor.py:101-105 | the comparison key is the digits of `cleaned`: the `+49(0)` rewrite never applies to a digits-only key |
| Extractor.ReplaceAllAbsent | src/phone/extractor.py:105 | `re.sub` of a pattern whose first character does not occur leaves the string unchanged |
| Extractor.WithKeys | src/phone/extractor.py:96-108 | each entry is paired with its comparison key, same length and order |
| Extractor.ExtractedViaKeys | src/phone/extractor.py:96-120 | sorting and deduplicating the keyed copies and then dropping the keys equals sorting and deduplicating the entries by key directly |
| Extractor.CollectCandidates | src/phone/extractor.py:65-88 | the nested loop over the patterns and their matches collects exactly the valid candidates, in pattern order and then text order |
| Extractor.AddComparisonKeys | src/phone/extractor.py:96-108 | the key loop builds exactly the keyed copies |
| Extractor.KeepFirstPerKey | src/phone/extractor.py:115-120 | the loop with its seen set returns the first entry per comparison key, keys removed |
| Extractor.ExtractPhoneNumbers | src/phone/extractor.py:39-122 | the whole extraction returns the deduplicated, priority-sorted valid candidates of the cleaned text's matches |
| Extractor.ExtractedSubsequence | src/phone/extractor.py:114-122 | every returned entry is a collected candidate |
| Extractor.ExtractedEntriesValid | src/phone/extractor.py:74-88 | every returned entry comes from a match, is valid, holds no whitespace, `-` or `.`, and no parentheses unless german |
| Extractor.ExtractedKeysDistinct | src/phone/extractor.py:96-120 | no two returned entries have the same digits |
| Extractor.ExtractedByPriority | src/phone/extractor.py:110-112 | the result is ordered german, then international, then local |
| Extractor.ExtractedFirstPerKey | src/phone/extractor.py:110-120 | each returned entry is the first of its key in priority order, and every key of a candidate is returned |
| Extractor.GermanWinsOverInternational | tests/test_phone_extractor.py:34-38 | a valid german match and an international match with the same digits collapse to the single german entry |
| Formatter.DropPrefix | src/phone/formatter.py:34-35 | removing a prefix when present, the input unchanged otherwise |
| Formatter.WithPlus | src/phone/formatter.py:33-37 | after the `00` and `+` handling the string starts with `+` |
| Formatter.CountryCodeMatch | src/phone/formatter.py:44-46 | `\+(\d{1,3})` matches exactly when a digit follows the `+`; the code is the one to three digits after it |
| Formatter.FormatPhoneNumber | src/phone/formatter.py:7-58 | invalid digits, an unknown format, and international or local numbers of fewer than ten digits are returned unchanged |
| Formatter.GermanNationalSuffix | src/phone/formatter.py:26-29 | the national part is the digits with at most one `49` and then at most one `0` removed |
| Formatter.GermanShape | src/phone/formatter.py:25-30 | the german layout is "+49 ", three digits, a space and the rest, and its digits are `49` plus the national part |
| Formatter.NoInternationalFallback | src/phone/formatter.py:50-52 | the fallback layout is never chosen for a digit string of at least three digits |
| Formatter.CountryCodeIsThreeDigits | src/phone/formatter.py:42-47 | outside the `+1` case the matched country code is always the first three digits |
| Formatter.InternationalUnfold | src/phone/formatter.py:32-37 | a valid number of at least ten digits takes the international layout, with `+` and the `00`-stripped digits |
| Formatter.NorthAmericanShape | src/phone/formatter.py:40-41 | a number whose digits start with 1 becomes "+1 ddd ddd rest", keeping its digits |
| Formatter.CountryCodeShape | src/phone/formatter.py:42-49 | any other number becomes "+ccc ddd ddd rest", keeping its digits |
| Formatter.CountryCodeLayout | src/phone/formatter.py:44-49 | the country-code layout of a digit string, written out slice by slice |
| Formatter.InternationalShape | src/phone/formatter.py:32-49 | the international output starts with `+`, and its digits are the input digits with one leading `00` removed |
| Formatter.LocalLayoutDigits | src/phone/formatter.py:56 | the local layout is "(ddd) ddd-dddd" over the first ten digits |
| Formatter.LocalShape | src/phone/formatter.py:54-56 | a valid number of at least ten digits becomes a 14-character "(ddd) ddd-dddd" carrying its first ten digits |
| Formatter.GermanExample | tests/test_phone_extractor.py:72 | "+49123456789" formats as "+49 123 456789" in the german format |
| Formatter.NorthAmericanExample | tests/test_phone_extractor.py:75 | "+12345678901" formats as "+1 234 567 8901" |
| Formatter.LocalExample | tests/test_phone_extractor.py:78 | "1234567890" formats as "(123) 456-7890" |
| Formatter.InvalidExample | tests/test_phone_extractor.py:81 | "123" comes back unchanged |
| Formatter.FormatExtractedNumbers | src/phone/formatter.py:60-77 | the loop returns, in order and of the same length, each entry paired with its formatted number; the input is a value and is not changed |
| Formatter.FormattedExtractedEntry | src/phone/formatter.py:60-77 | an extracted german entry formats with "+49 "; an international entry with ten or more digits formats with a leading `+`, otherwise unchanged |
| TwilioValidator.FromBlock | src/phone/validator.py:109-117 | a missing or empty block gives `None`; otherwise the block's value for the key |
| TwilioValidator.ValidatePhoneNumberTwilio | src/phone/validator.py:64-136 | the result always carries the argument. Per branch: no client gives skipped and valid; no leading `+` gives failed and invalid; a record gives successful with the record's validity and all six details (calling country code, phone number, national format, line type from its block's `type`, carrier from its block's `name`, country code); a REST or other error gives failed with unknown validity and its message |
| TwilioValidator.NoLookupBeforeChecks | src/phone/validator.py:72-84 | without a client or without a leading `+` the lookup's outcome cannot affect the result |
| TwilioValidator.IsValidFalseIff | src/phone/validator.py:79-97 | `is_valid` is False exactly in the format branch and when a record says the number is not valid |
| TwilioValidator.RestErrorReport | src/phone/validator.py:124-129 | a REST error leaves validity unknown, and its message contains "Status=" with the status and "Code=" with the code, or "Code=None" when the error has no code |
| TwilioValidator.RestErrorExample | tests/test_phone_validator.py:91-92 | the 404/20404 error reads "Status=404" and "Code=20404" |
| TextUtils.Lower | src/text/utils.py:55 | IGNORECASE folding maps each ASCII upper-case letter to its lower-case partner (code point plus 32), so every ASCII letter comes out lower case, and leaves every other character alone |
| TextUtils.CloseScriptIn | src/text/utils.py:55 | finds the first closing `</script>` in any case, or reports that there is none |
| TextUtils.ScriptMatch | src/text/utils.py:55-58 | a match exists only where `<script` opens the text at a word boundary; it stays inside the text and ends with the first `</script>` after the opening tag, with no closing tag before it; when there is no match, either the opening fails or no closing tag follows |
| TextUtils.NoCloseScriptIn | src/text/utils.py:55-58 | a stretch without `<` holds no start of a closing tag |
| TextUtils.CloseScriptFirst | src/text/utils.py:55-58 | the closing-tag search stops at the first `</script>` |
| TextUtils.RemoveScriptsPrefix | src/text/utils.py:58 | a prefix without `<` passes through script removal unchanged |
| TextUtils.RemoveScriptsUnmatched | src/text/utils.py:58 | text at none of whose positions the pattern matches passes through script removal unchanged |
| TextUtils.RemoveScripts | src/text/utils.py:58 | script removal only introduces spaces |
| TextUtils.RemoveScriptsNoTag | src/text/utils.py:55-58 | a text without `<` has no script tag and is left unchanged |
| TextUtils.ScriptBlockRemoved | src/text/utils.py:55-58 | a `<script …>…</script>` block, whose body may hold other tags and `<` but no closing tag, is replaced by one space after an unmatched prefix, and its presence is detected |
| TextUtils.HasScriptTagPrefix | src/text/utils.py:55 | a script tag found in a suffix is found in the whole text |
| TextUtils.IndexOf | src/text/utils.py:61 | the first occurrence of a character, or none |
| TextUtils.RemoveTags | src/text/utils.py:61 | tag removal only introduces spaces |
| TextUtils.TagRemoved | src/text/utils.py:61 | a tag `<…>` is replaced by one space |
| TextUtils.RemoveTagsNoTag | src/text/utils.py:61 | a text without `<` is left unchanged |
| TextUtils.ReplaceChar | src/text/utils.py:66 | `str.replace` of one character by another, position by position |
| TextUtils.SeparatorsToSpaces | src/text/utils.py:64-66 | each separator becomes a space and none is left |
| TextUtils.ReplaceSeparators | src/text/utils.py:64-66 | the loop over the separators computes exactly that replacement |
| TextUtils.LStrip | src/text/utils.py:77 | the suffix left after removing the leading whitespace |
| TextUtils.RStrip | src/text/utils.py:77 | the prefix left after removing the trailing whitespace |
| TextUtils.StripSlice | src/text/utils.py:77 | `strip()` returns a slice whose removed ends are all whitespace and whose own ends are not |
| TextUtils.Collapse | src/text/utils.py:69 | the result's only whitespace is single spaces, never two in a row; it adds no other character, is empty exactly when the input is, and starts with whitespace exactly when the input does (where each run goes is stated by the four lemmas below) |
| TextUtils.CollapseNonSpace | src/text/utils.py:69 | a non-whitespace character is kept as it is |
| TextUtils.LStripRun | src/text/utils.py:69 | a whole whitespace run is consumed up to the next non-whitespace character |
| TextUtils.CollapseRun | src/text/utils.py:69 | a maximal whitespace run becomes exactly one space |
| TextUtils.CollapseWord | src/text/utils.py:69 | a stretch without whitespace is kept unchanged |
| TextUtils.CollapseSeparatesWords | src/text/utils.py:69 | two words separated by any whitespace run come out separated by exactly one space, so words are neither merged nor split |
| TextUtils.CollapseKeep | src/text/utils.py:69 | collapsing does not change the non-whitespace characters or their order |
| TextUtils.Whitelisted | src/text/utils.py:73-74 | keeps exactly the allowed characters, Unicode letters included |
| TextUtils.WithoutControls | src/text/utils.py:84 | keeps exactly the characters that are not control characters |
| TextUtils.CleanText | src/text/utils.py:41-86 | the step-by-step cleaner computes the cleaning pipeline |
| TextUtils.NormalizeAndClean | src/text/utils.py:99-100 | `normalize_and_clean` is the cleaner applied to the normalized text |
| TextUtils.CleanTextChars | src/text/utils.py:73-74 | each output character is an ASCII letter or digit, a space, one of `()+,;:!?` or a Unicode letter, and not a control character |
| TextUtils.CleanTextNoSeparatorsOrBrackets | src/text/utils.py:58-74 | no separator, `<` or `>` survives cleaning |
| TextUtils.ControlFilterNoOp | src/text/utils.py:84 | the final control-character filter removes nothing from what the whitelist lets through |
| TextUtils.CleanTextEnds | src/text/utils.py:77-81 | without a script tag the output has no whitespace at either end; with one it ends in the single appended space |
| TextUtils.CleanTextKeepsLetters | src/text/utils.py:73-74 | for a text without tags, every letter (accented ones too) survives, in order |
| TextUtils.EmptyScriptBlock | src/text/utils.py:55-81 | an empty script block cleans to a single space |
| LegacyTextUtils.CleanText | text_utils.py:38-70 | the step-by-step legacy cleaner computes the legacy pipeline |
| LegacyTextUtils.NormalizeAndClean | text_utils.py:72-84 | the legacy `normalize_and_clean` is the legacy cleaner after normalisation |
| LegacyTextUtils.CleanTextChars | text_utils.py:61-62 | every output character is a digit, a space or one of `()+,;:!?`: no letter, separator or control character |
| LegacyTextUtils.ControlFilterNoOp | text_utils.py:68 | the control-character filter removes nothing after the whitelist |
| LegacyTextUtils.CleanTextEnds | text_utils.py:65 | the output has no whitespace at either end |
| LegacyTextUtils.CleanTextDigits | text_utils.py:52-68 | cleaning keeps every digit of the input, in order |
| LegacyTextUtils.CleanMatch | text_utils.py:151 | every match is cleaned of whitespace, `-` and `.` only, whatever its format; digits are kept |
| LegacyTextUtils.Candidate | text_utils.py:154-160 | a match yields an entry exactly when its cleaned text is valid |
| LegacyTextUtils.CandidatesFromMatches | text_utils.py:145-160 | every collected entry comes from a match and is valid and cleaned; every match with valid cleaned text is collected |
| LegacyTextUtils.StripLeadingZeros | text_utils.py:167 | `re.sub(r'^0+', '', s)` is the suffix after a run of zeros and does not start with `0` |
| LegacyTextUtils.CollectCandidates | text_utils.py:142-160 | the nested scan loop collects exactly the valid candidates |
| LegacyTextUtils.KeepFirstPerKey | text_utils.py:163-170 | the loop with its seen set keeps the first entry per leading-zero-stripped key |
| LegacyTextUtils.ExtractPhoneNumbers | text_utils.py:117-172 | the legacy extraction returns the length-sorted, deduplicated valid candidates of the cleaned text's matches |
| LegacyTextUtils.ExtractedSubsequence | text_utils.py:163-172 | every returned entry is a collected candidate |
| LegacyTextUtils.ExtractedEntriesValid | text_utils.py:151-160 | every returned entry comes from a match, is valid and holds no whitespace, `-` or `.` |
| LegacyTextUtils.ExtractedByLength | text_utils.py:166 | the result is ordered by cleaned length, longest first |
| LegacyTextUtils.ExtractedKeysDistinct | text_utils.py:166-170 | no two returned entries share their leading-zero-stripped cleaned text |
| LegacyTextUtils.ExtractedFirstPerKey | text_utils.py:163-172 | each returned entry is the first (longest) of its key, and every key of a candidate is returned |
| LegacyTextUtils.LongerWins | text_utils.py:163-172 | of two valid matches with the same key, exactly the longer one is kept, in either order of the two matches |
| LegacyTextUtils.FormatPhoneNumber | text_utils.py:174-211 | invalid digits, an unknown format, and short international or local numbers are returned unchanged |
| LegacyTextUtils.SameAsFormatterOutsideInternational | text_utils.py:185-197 | the legacy formatter agrees with the current one on every format but international |
| LegacyTextUtils.InternationalShape | text_utils.py:199-205 | the international output is "+dd ddd ddd rest": the `+` is inside the first group of three, and the digits are kept with `00` removed |
| LegacyTextUtils.GroupedWithPlus | text_utils.py:205 | grouping "+" and digits by three characters writes out as "+dd ddd ddd rest" |
| Statistics.FormatBucket | src/analysis/statistics.py:39-58 | an explicit format is used; otherwise the region decides (german exactly for DE, AT, CH, international for any other region); otherwise international exactly when `original` starts with `+`, else local |
| Statistics.CodeAfterPlus | src/analysis/statistics.py:67-79 | the code read after a `+` is one or two digits taken right after it |
| Statistics.SearchCode | src/analysis/statistics.py:94-103 | `\+(\d{1,3})` searched in `original` gives one to three digits, and only when there is a `+` |
| Statistics.CountryCode | src/analysis/statistics.py:60-103 | the code is one to three digits, and there is none when no field holds a `+` |
| Statistics.Inc | src/analysis/statistics.py:105-106 | a `defaultdict(int)` increment raises one count by one and leaves the others alone |
| Statistics.GenerateStatistics | src/analysis/statistics.py:11-112 | the nested counting loop computes the statistics of its input |
| Statistics.StatisticsCounts | src/analysis/statistics.py:21-58 | the total is the number of websites; those with numbers are no more; the number count is the total length; format counts sum to it; country counts sum to at most it |
| Statistics.TallySum | src/analysis/statistics.py:41-58 | the counts of a tally sum to the number of keys counted |
| Statistics.SumValuesInc | src/analysis/statistics.py:105-106 | one increment raises the sum of the counts by one |
| Statistics.SumOfLengthsIsCount | src/analysis/statistics.py:35 | the running total of list lengths is the number of numbers |
| Statistics.CodeKeysAreDigits | src/analysis/statistics.py:60-106 | every counted country code is one to three digits |
| Statistics.CodeExamples | src/analysis/statistics.py:70-74 | "+1…" gives "1"; otherwise two digits after the `+` give those two |
| Statistics.GermanRecordCode | tests/test_analysis.py:61-64 | the german test record with cleaned "+49(0)987654321" counts under "49" |

## Left out

- **The regular-expression scans.** The `finditer` calls (src/phone/extractor.py:54-69, text_utils.py:131-147) are a parameter that returns the matches of a named pattern. Everything from the per-match cleaning onward is modelled. The legacy patterns differ from the current ones only inside that parameter.
- **`normalize_text`.** Charset detection and NFKC normalisation are a parameter of `NormalizeAndClean`.
- **Unicode categories.** `unicodedata.category` letter and control tests, and the `\w` class behind `\b`, are the `TextUtils.Categories` parameter. `TextUtils.Coherent` states the table facts the lemmas use: letters are not controls or whitespace, and the ASCII classification.
- **IGNORECASE.** The `<script` match folds only ASCII letters. Python also folds a few non-ASCII letters, such as U+017F and U+0131.
- **`\d` and `str.isdigit`.** Both are taken as the ASCII digits; the Unicode digits outside ASCII are not modelled.
- **`str(text)` in `clean_text`.** The input is taken to be a string already.
- **The Twilio client.** Construction from environment variables and the HTTP lookup (src/phone/validator.py:7-34, 92-94) are the `clientAvailable` and `outcome` parameters. Logging is not modelled.
- **TwilioValidator.ValidatePhoneNumberTwilio: a missing attribute and a `None` attribute are one case.** Every `hasattr(..) else None` reads the same either way, so nothing is lost.
- **Statistics.FormatBucket: a missing key and a key holding `None` are merged into `None`.** In the source, a record whose `format` key holds `None` is counted under the key `None`, not inferred. A `region` key holding `None` counts as international. A `formatted` or `original` key holding `None` would raise. The model follows the missing-key behaviour in all of these cases.
- **Statistics.CountryCode: a `cleaned` key holding `None` reads as missing.** In the source, when `e164` is missing, empty or `None`, a `cleaned` holding `None` makes `startswith` raise (src/analysis/statistics.py:61-66). The model has no such failure and reads the key as empty.
- **Formatter.FormatPhoneNumber: the default argument `format='international'` is not modelled.** Callers pass the format explicitly (src/phone/formatter.py:7).
- **LegacyTextUtils.FormatPhoneNumber: the default argument `format='international'` is not modelled.** Callers pass the format explicitly (text_utils.py:174).
- **The `errors` list of the statistics.** It is always empty; the model returns `[]`.
- **`defaultdict` and `dict`.** Both are one `map<string, nat>`. The conversion at src/analysis/statistics.py:109-110 changes nothing observable.
- **Update in place and aliasing.** The in-place `list.sort`, `del number['comparison_key']` and the dictionary copies are modelled on values. The model therefore cannot express that `format_extracted_numbers` does not mutate its input; the entries are values and cannot be mutated.
- **The `position` field.** It is carried along unchanged. Since the scan is a parameter, nothing is proved about it.
- **Everything outside the six parts above.** Database code, file walking, report writing (`save_results`, `print_statistics`), the CLI, the scripts, setup and logging are not part of this model. They are I/O and orchestration.
