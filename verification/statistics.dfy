/** `generate_statistics` of `src/analysis/statistics.py`: the counting loop
    over the per-website extraction results, with the format inference and
    the country-code rule it applies to each number. */
module Statistics {
  import opened Common

  /** One extracted number as a dictionary; `None` is a missing key. */
  datatype NumberRecord = NumberRecord(
    format: Option<string>,
    region: Option<string>,
    original: Option<string>,
    cleaned: Option<string>,
    e164: Option<string>,
    formatted: Option<string>)

  /** One website's result; a missing or empty 'numbers' list is `[]`. */
  datatype WebsiteResult = WebsiteResult(website: string, numbers: seq<NumberRecord>)

  /** The returned dictionary. */
  datatype Stats = Stats(
    totalWebsites: nat,
    websitesWithNumbers: nat,
    totalNumbersFound: nat,
    formatCounts: map<string, nat>,
    countryCodes: map<string, nat>,
    errors: seq<string>,
    results: seq<WebsiteResult>)

  /** `d.get(key, '')`. */
  function GetOrEmpty(v: Option<string>): string {
    if v.Some? then v.value else ""
  }

  // ------------------------------------------------------------ buckets

  /** The format bucket a number is counted in: its 'format' if it has one;
      otherwise by 'region' (DE, AT, CH are german, anything else
      international); otherwise international exactly when 'original'
      starts with '+'. */
  function FormatBucket(n: NumberRecord): (b: string)
    ensures n.format.Some? ==> b == n.format.value
    ensures n.format.None? ==> b == "german" || b == "international" || b == "local"
    ensures n.format.None? && n.region.Some? ==> (b == "german" <==> n.region.value in {"DE", "AT", "CH"})
    ensures n.format.None? && n.region.Some? && n.region.value !in {"DE", "AT", "CH"} ==> b == "international"
    ensures n.format.None? && n.region.None? ==> (b == "international" <==> StartsWith(GetOrEmpty(n.original), "+"))
  {
    if n.format.Some? then n.format.value
    else if n.region.Some? then
      var region := n.region.value;
      if region == "US" then "international"
      else if region == "DE" || region == "AT" || region == "CH" then "german"
      else "international"
    else if StartsWith(GetOrEmpty(n.original), "+") then "international"
    else "local"
  }

  /** The code read from a string starting with '+': "1" after "+1",
      otherwise the two characters after '+' if the string is longer than
      three and both are digits, otherwise the one after '+' if the string is
      longer than two and it is a digit. */
  function CodeAfterPlus(p: string): (c: Option<string>)
    ensures c.Some? ==> 1 <= |c.value| <= 2 && AllDigits(c.value)
    ensures c.Some? ==> 1 + |c.value| <= |p| && p[1..1 + |c.value|] == c.value
  {
    if StartsWith(p, "+1") then Some("1")
    else if |p| > 3 && IsDigit(p[1]) && IsDigit(p[2]) then Some(p[1..3])
    else if |p| > 2 && IsDigit(p[1]) then Some(p[1..2])
    else None
  }

  /** `re.search(r'\+(\d{1,3})', s)`: the digits after the leftmost '+'
      that is followed by a digit. */
  function SearchCode(s: string): (c: Option<string>)
    ensures c.Some? ==> 1 <= |c.value| <= 3 && AllDigits(c.value)
    ensures c.Some? ==> '+' in s
    decreases |s|
  {
    if |s| < 2 then None
    else if s[0] == '+' && IsDigit(s[1]) then Some(LeadingDigits(s[1..], 3))
    else
      var c := SearchCode(s[1..]);
      assert c.Some? ==> '+' in s by {
        if c.Some? { assert forall x :: x in s[1..] ==> x in s; }
      }
      c
  }

  /** The e164 value, or the cleaned one when e164 is missing or empty. */
  function E164Or(n: NumberRecord): string {
    var e := GetOrEmpty(n.e164);
    if e != "" then e else GetOrEmpty(n.cleaned)
  }

  /** The country code of a number: from e164 (or cleaned) when it starts
      with '+', else from 'formatted' when it does, else searched in 'original'. */
  function CountryCode(n: NumberRecord): (c: Option<string>)
    ensures c.Some? ==> 1 <= |c.value| <= 3 && AllDigits(c.value)
    ensures '+' !in E164Or(n) && '+' !in GetOrEmpty(n.formatted) && '+' !in GetOrEmpty(n.original) ==> c == None
  {
    var e := E164Or(n);
    var f := GetOrEmpty(n.formatted);
    if StartsWith(e, "+") then assert e[0] in e; CodeAfterPlus(e)
    else if StartsWith(f, "+") then assert f[0] in f; CodeAfterPlus(f)
    else
      var o := GetOrEmpty(n.original);
      if '+' in o then SearchCode(o) else None
  }

  /** `if country_code:` — present and non-empty. */
  predicate Counted(c: Option<string>) {
    c.Some? && c.value != ""
  }

  // ------------------------------------------------------- specification

  /** The numbers of all websites, in order. */
  function AllNumbers(rs: seq<WebsiteResult>): seq<NumberRecord>
    decreases |rs|
  {
    if rs == [] then [] else AllNumbers(rs[..|rs| - 1]) + rs[|rs| - 1].numbers
  }

  function WithNumbers(rs: seq<WebsiteResult>): (k: nat)
    ensures k <= |rs|
    decreases |rs|
  {
    if rs == [] then 0
    else WithNumbers(rs[..|rs| - 1]) + (if rs[|rs| - 1].numbers != [] then 1 else 0)
  }

  /** The sum of the lengths of the 'numbers' lists. */
  function SumOfLengths(rs: seq<WebsiteResult>): nat
    decreases |rs|
  {
    if rs == [] then 0 else SumOfLengths(rs[..|rs| - 1]) + |rs[|rs| - 1].numbers|
  }

  function FormatKeys(ns: seq<NumberRecord>): (ks: seq<string>)
    ensures |ks| == |ns|
    decreases |ns|
  {
    if ns == [] then [] else FormatKeys(ns[..|ns| - 1]) + [FormatBucket(ns[|ns| - 1])]
  }

  function CodeKeys(ns: seq<NumberRecord>): (ks: seq<string>)
    ensures |ks| <= |ns|
    decreases |ns|
  {
    if ns == [] then []
    else
      var c := CountryCode(ns[|ns| - 1]);
      CodeKeys(ns[..|ns| - 1]) + (if Counted(c) then [c.value] else [])
  }

  /** `counts[k] += 1` on a `defaultdict(int)`. */
  function Inc(m: map<string, nat>, k: string): (r: map<string, nat>)
    ensures k in r && r[k] == (if k in m then m[k] else 0) + 1
    ensures r.Keys == m.Keys + {k}
    ensures forall j :: j in m && j != k ==> r[j] == m[j]
  {
    m[k := (if k in m then m[k] else 0) + 1]
  }

  /** The counts of the keys `ks`. */
  function Tally(ks: seq<string>): map<string, nat>
    decreases |ks|
  {
    if ks == [] then map[] else Inc(Tally(ks[..|ks| - 1]), ks[|ks| - 1])
  }

  /** What `generate_statistics(results)` returns. */
  function StatisticsOf(rs: seq<WebsiteResult>): Stats {
    var ns := AllNumbers(rs);
    Stats(|rs|, WithNumbers(rs), SumOfLengths(rs), Tally(FormatKeys(ns)), Tally(CodeKeys(ns)), [], rs)
  }

  // -------------------------------------------------------------- method

  lemma AllNumbersStep(rs: seq<WebsiteResult>, i: nat)
    requires i < |rs|
    ensures AllNumbers(rs[..i + 1]) == AllNumbers(rs[..i]) + rs[i].numbers
    ensures WithNumbers(rs[..i + 1]) == WithNumbers(rs[..i]) + (if rs[i].numbers != [] then 1 else 0)
    ensures SumOfLengths(rs[..i + 1]) == SumOfLengths(rs[..i]) + |rs[i].numbers|
  {
    assert rs[..i + 1][..i] == rs[..i];
  }

  lemma KeysStep(done: seq<NumberRecord>, ns: seq<NumberRecord>, j: nat)
    requires j < |ns|
    ensures FormatKeys(done + ns[..j + 1]) == FormatKeys(done + ns[..j]) + [FormatBucket(ns[j])]
    ensures CodeKeys(done + ns[..j + 1])
         == CodeKeys(done + ns[..j]) + (if Counted(CountryCode(ns[j])) then [CountryCode(ns[j]).value] else [])
  {
    assert (done + ns[..j + 1])[..|done + ns[..j]|] == done + ns[..j];
    assert (done + ns[..j + 1])[|done + ns[..j]|] == ns[j];
  }

  lemma TallyStep(ks: seq<string>, k: string)
    ensures Tally(ks + [k]) == Inc(Tally(ks), k)
  {
    assert (ks + [k])[..|ks|] == ks;
  }

  /** `generate_statistics(results)`. */
  method GenerateStatistics(results: seq<WebsiteResult>) returns (stats: Stats)
    ensures stats == StatisticsOf(results)
  {
    var websitesWithNumbers := 0;
    var totalNumbersFound := 0;
    var formatCounts: map<string, nat> := map[];
    var countryCodes: map<string, nat> := map[];
    for i := 0 to |results|
      invariant websitesWithNumbers == WithNumbers(results[..i])
      invariant totalNumbersFound == SumOfLengths(results[..i])
      invariant formatCounts == Tally(FormatKeys(AllNumbers(results[..i])))
      invariant countryCodes == Tally(CodeKeys(AllNumbers(results[..i])))
    {
      var numbers := results[i].numbers;
      AllNumbersStep(results, i);
      ghost var done := AllNumbers(results[..i]);
      if numbers != [] {
        websitesWithNumbers := websitesWithNumbers + 1;
        totalNumbersFound := totalNumbersFound + |numbers|;
        assert done + numbers[..0] == done;
        for j := 0 to |numbers|
          invariant formatCounts == Tally(FormatKeys(done + numbers[..j]))
          invariant countryCodes == Tally(CodeKeys(done + numbers[..j]))
        {
          var number := numbers[j];
          KeysStep(done, numbers, j);
          var bucket := FormatBucket(number);
          TallyStep(FormatKeys(done + numbers[..j]), bucket);
          formatCounts := Inc(formatCounts, bucket);
          var countryCode := CountryCode(number);
          if Counted(countryCode) {
            TallyStep(CodeKeys(done + numbers[..j]), countryCode.value);
            countryCodes := Inc(countryCodes, countryCode.value);
          } else {
            assert CodeKeys(done + numbers[..j]) + [] == CodeKeys(done + numbers[..j]);
          }
        }
        assert numbers[..|numbers|] == numbers;
      } else {
        assert done + numbers == done;
      }
    }
    assert results[..|results|] == results;
    stats := Stats(|results|, websitesWithNumbers, totalNumbersFound, formatCounts, countryCodes, [], results);
  }

  // --------------------------------------------------------- sums of maps

  /** The sum of `m[k]` over the keys `keys`. */
  ghost function SumOver(m: map<string, nat>, keys: set<string>): nat
    requires keys <= m.Keys
    decreases keys
  {
    if keys == {} then 0
    else
      var k :| k in keys;
      m[k] + SumOver(m, keys - {k})
  }

  /** The sum of all values of a map. */
  ghost function SumValues(m: map<string, nat>): nat {
    SumOver(m, m.Keys)
  }

  /** Any key can be taken out first. */
  lemma {:induction false} SumOverRemove(m: map<string, nat>, keys: set<string>, k: string)
    requires keys <= m.Keys && k in keys
    ensures SumOver(m, keys) == m[k] + SumOver(m, keys - {k})
    decreases keys
  {
    var j :| j in keys && SumOver(m, keys) == m[j] + SumOver(m, keys - {j});
    if j != k {
      SumOverRemove(m, keys - {j}, k);
      SumOverRemove(m, keys - {k}, j);
      assert keys - {j} - {k} == keys - {k} - {j};
    }
  }

  /** Two maps that agree on `keys` have the same sum over them. */
  lemma {:induction false} SumOverAgree(m1: map<string, nat>, m2: map<string, nat>, keys: set<string>)
    requires keys <= m1.Keys && keys <= m2.Keys
    requires forall k :: k in keys ==> m1[k] == m2[k]
    ensures SumOver(m1, keys) == SumOver(m2, keys)
    decreases keys
  {
    if keys != {} {
      var k :| k in keys && SumOver(m1, keys) == m1[k] + SumOver(m1, keys - {k});
      SumOverRemove(m2, keys, k);
      SumOverAgree(m1, m2, keys - {k});
    }
  }

  /** One increment adds one to the sum. */
  lemma SumValuesInc(m: map<string, nat>, k: string)
    ensures SumValues(Inc(m, k)) == SumValues(m) + 1
  {
    var r := Inc(m, k);
    if k in m {
      assert r.Keys == m.Keys;
      SumOverRemove(r, r.Keys, k);
      SumOverRemove(m, m.Keys, k);
      SumOverAgree(r, m, m.Keys - {k});
    } else {
      SumOverRemove(r, r.Keys, k);
      assert r.Keys - {k} == m.Keys;
      SumOverAgree(r, m, m.Keys);
    }
  }

  /** The counts of a list of keys sum to its length. */
  lemma {:induction false} TallySum(ks: seq<string>)
    ensures SumValues(Tally(ks)) == |ks|
    decreases |ks|
  {
    if ks != [] {
      TallySum(ks[..|ks| - 1]);
      SumValuesInc(Tally(ks[..|ks| - 1]), ks[|ks| - 1]);
    }
  }

  lemma {:induction false} SumOfLengthsIsCount(rs: seq<WebsiteResult>)
    ensures SumOfLengths(rs) == |AllNumbers(rs)|
    decreases |rs|
  {
    if rs != [] {
      SumOfLengthsIsCount(rs[..|rs| - 1]);
    }
  }

  // --------------------------------------------------------- properties

  /** The counters of the returned statistics: one per website, at most one
      website count per website, every number in exactly one format bucket
      and in at most one country-code bucket. */
  lemma StatisticsCounts(rs: seq<WebsiteResult>)
    ensures var s := StatisticsOf(rs);
      && s.totalWebsites == |rs| && s.results == rs
      && s.websitesWithNumbers <= s.totalWebsites
      && s.totalNumbersFound == |AllNumbers(rs)|
      && SumValues(s.formatCounts) == s.totalNumbersFound
      && SumValues(s.countryCodes) <= s.totalNumbersFound
  {
    SumOfLengthsIsCount(rs);
    TallySum(FormatKeys(AllNumbers(rs)));
    TallySum(CodeKeys(AllNumbers(rs)));
  }

  /** Every country code that is counted is one to three digits. */
  lemma {:induction false} CodeKeysAreDigits(ns: seq<NumberRecord>)
    ensures forall k :: k in CodeKeys(ns) ==> 1 <= |k| <= 3 && AllDigits(k)
    decreases |ns|
  {
    if ns != [] {
      CodeKeysAreDigits(ns[..|ns| - 1]);
    }
  }

  /** A North American number gives "1", and a "+49(0)…" number gives "49". */
  lemma CodeExamples(p: string)
    requires StartsWith(p, "+") && |p| > 3
    ensures StartsWith(p, "+1") ==> CodeAfterPlus(p) == Some("1")
    ensures p[1] != '1' && IsDigit(p[1]) && IsDigit(p[2]) ==> CodeAfterPlus(p) == Some(p[1..3])
  {
    if p[1] != '1' {
      assert !StartsWith(p, "+1") by { assert p[..2][1] == p[1]; }
    }
  }

  /** The german record of the test data, whose cleaned form is
      "+49(0)987654321", is counted under "49". */
  lemma GermanRecordCode(n: NumberRecord)
    requires n.e164 == None && n.cleaned == Some("+49(0)987654321")
    ensures CountryCode(n) == Some("49")
  {
    var e := "+49(0)987654321";
    assert E164Or(n) == e;
    assert e[..1] == "+";
    assert e[..2] != "+1" by { assert e[..2][1] == '4'; }
    assert e[1..3] == "49";
  }
}
