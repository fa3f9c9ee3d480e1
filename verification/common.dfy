/** Character classes and string operations shared by every module: the
    ASCII digit class `\d` and Python's whitespace class `\s`, the digit
    projection `re.sub(r'\D', '', s)`, character filters, Python's clamping
    slices and integer-to-text conversion. */
module Common {

  datatype Option<T> = None | Some(value: T)

  /** `\d` and `str.isdigit()`, restricted to the ASCII digits. */
  predicate IsDigit(c: char) {
    '0' <= c <= '9'
  }

  predicate IsAsciiLetter(c: char) {
    ('a' <= c <= 'z') || ('A' <= c <= 'Z')
  }

  predicate IsAscii(c: char) {
    c < '\U{80}'
  }

  /** Python's whitespace class (`\s` in a str pattern, `str.isspace()`,
      what `str.strip()` removes). */
  predicate IsSpace(c: char) {
    || ('\t' <= c <= '\r')            // \t \n \x0b \x0c \r
    || ('\U{1C}' <= c <= ' ')          // \x1c .. \x1f and the space
    || c == '\U{85}' || c == '\U{A0}' || c == '\U{1680}'
    || ('\U{2000}' <= c <= '\U{200A}')
    || c == '\U{2028}' || c == '\U{2029}' || c == '\U{202F}'
    || c == '\U{205F}' || c == '\U{3000}'
  }

  predicate AllDigits(s: string) {
    forall i :: 0 <= i < |s| ==> IsDigit(s[i])
  }

  /** `re.sub(r'\D', '', s)`: the digits of `s`, in order. */
  function DigitsOf(s: string): string
    decreases |s|
  {
    if s == [] then []
    else (if IsDigit(s[0]) then [s[0]] else []) + DigitsOf(s[1..])
  }

  /** The projection is made of digits and is no longer than its input. */
  lemma {:induction false} DigitsOfShape(s: string)
    ensures AllDigits(DigitsOf(s)) && |DigitsOf(s)| <= |s|
    decreases |s|
  {
    if s != [] {
      DigitsOfShape(s[1..]);
    }
  }

  lemma {:induction false} DigitsOfAppend(a: string, b: string)
    ensures DigitsOf(a + b) == DigitsOf(a) + DigitsOf(b)
    decreases |a|
  {
    if a == [] {
      assert a + b == b;
    } else {
      assert (a + b)[0] == a[0];
      assert (a + b)[1..] == a[1..] + b;
      DigitsOfAppend(a[1..], b);
    }
  }

  /** A string made of digits is its own digit projection, so the
      projection is idempotent. */
  lemma {:induction false} DigitsOfDigits(s: string)
    requires AllDigits(s)
    ensures DigitsOf(s) == s
    decreases |s|
  {
    if s != [] {
      assert AllDigits(s[1..]);
      DigitsOfDigits(s[1..]);
    }
  }

  lemma DigitsOfIdempotent(s: string)
    ensures DigitsOf(DigitsOf(s)) == DigitsOf(s)
  {
    DigitsOfShape(s);
    DigitsOfDigits(DigitsOf(s));
  }

  /** A '+' followed by digits projects to those digits. */
  lemma DigitsOfPlus(n: string)
    requires |n| > 0 && n[0] == '+' && AllDigits(n[1..])
    ensures DigitsOf(n) == n[1..]
  {
    DigitsOfDigits(n[1..]);
  }

  /** A string without digits projects to the empty string. */
  lemma {:induction false} DigitsOfNoDigits(s: string)
    requires forall i :: 0 <= i < |s| ==> !IsDigit(s[i])
    ensures DigitsOf(s) == []
    decreases |s|
  {
    if s != [] {
      DigitsOfNoDigits(s[1..]);
    }
  }

  /** Membership in the projection: exactly the digits of the input. */
  lemma {:induction false} DigitsOfMembers(s: string, c: char)
    ensures c in DigitsOf(s) <==> (c in s && IsDigit(c))
    decreases |s|
  {
    if s != [] {
      DigitsOfMembers(s[1..], c);
      assert s == [s[0]] + s[1..];
    }
  }

  /** `''.join(c for c in s if keep(c))`, and `re.sub(cls, '', s)` with the
      complement of `keep` as the class. */
  function Keep(s: string, keep: char -> bool): (r: string)
    ensures |r| <= |s|
    ensures forall c :: c in r ==> c in s && keep(c)
    ensures forall c :: c in s && keep(c) ==> c in r
    decreases |s|
  {
    if s == [] then []
    else (if keep(s[0]) then [s[0]] else []) + Keep(s[1..], keep)
  }

  lemma {:induction false} KeepAppend(a: string, b: string, keep: char -> bool)
    ensures Keep(a + b, keep) == Keep(a, keep) + Keep(b, keep)
    decreases |a|
  {
    if a == [] {
      assert a + b == b;
    } else {
      assert (a + b)[0] == a[0];
      assert (a + b)[1..] == a[1..] + b;
      KeepAppend(a[1..], b, keep);
    }
  }

  /** A string none of whose characters is kept filters to nothing. */
  lemma {:induction false} KeepNone(s: string, keep: char -> bool)
    requires forall c :: c in s ==> !keep(c)
    ensures Keep(s, keep) == []
    decreases |s|
  {
    if s != [] {
      assert forall c :: c in s[1..] ==> c in s;
      KeepNone(s[1..], keep);
    }
  }

  /** Keeping every character changes nothing. */
  lemma {:induction false} KeepAll(s: string, keep: char -> bool)
    requires forall c :: c in s ==> keep(c)
    ensures Keep(s, keep) == s
    decreases |s|
  {
    if s != [] {
      assert forall c :: c in s[1..] ==> c in s;
      KeepAll(s[1..], keep);
    }
  }

  /** A filter that keeps every digit leaves the digit projection alone. */
  lemma {:induction false} KeepPreservesDigits(s: string, keep: char -> bool)
    requires forall c :: IsDigit(c) ==> keep(c)
    ensures DigitsOf(Keep(s, keep)) == DigitsOf(s)
    decreases |s|
  {
    if s != [] {
      var head := if keep(s[0]) then [s[0]] else [];
      KeepPreservesDigits(s[1..], keep);
      DigitsOfAppend(head, Keep(s[1..], keep));
      if keep(s[0]) {
        assert DigitsOf(head) == if IsDigit(s[0]) then [s[0]] else [];
      } else {
        assert !IsDigit(s[0]);
      }
    }
  }

  /** A second filter that only keeps what the first one kept sees through the first. */
  lemma {:induction false} KeepKeep(s: string, first: char -> bool, second: char -> bool)
    requires forall c :: second(c) ==> first(c)
    ensures Keep(Keep(s, first), second) == Keep(s, second)
    decreases |s|
  {
    if s != [] {
      KeepKeep(s[1..], first, second);
      KeepAppend(if first(s[0]) then [s[0]] else [], Keep(s[1..], first), second);
    }
  }

  /** The digit projection is the filter on `IsDigit`. */
  lemma {:induction false} DigitsOfIsKeep(s: string)
    ensures DigitsOf(s) == Keep(s, IsDigit)
    decreases |s|
  {
    if s != [] {
      DigitsOfIsKeep(s[1..]);
    }
  }

  /** The greedy `\d{1,n}`: the longest prefix of at most `n` digits. */
  function LeadingDigits(s: string, n: nat): (r: string)
    ensures |r| <= n && |r| <= |s| && r == s[..|r|] && AllDigits(r)
    ensures |r| < n && |r| < |s| ==> !IsDigit(s[|r|])
    decreases n
  {
    if n == 0 || s == [] || !IsDigit(s[0]) then []
    else [s[0]] + LeadingDigits(s[1..], n - 1)
  }

  predicate StartsWith(s: string, prefix: string) {
    |prefix| <= |s| && s[..|prefix|] == prefix
  }

  /** `t in s` on strings: `t` occurs in `s` at some offset. */
  predicate Contains(s: string, t: string) {
    exists i :: 0 <= i <= |s| && t <= s[i..]
  }

  function Min(a: int, b: int): int {
    if a <= b then a else b
  }

  /** Python's `s[lo:hi]` for non-negative bounds: both clamp to the length. */
  function Slice(s: string, lo: nat, hi: nat): (r: string)
    ensures |r| == if Min(hi, |s|) <= lo then 0 else Min(hi, |s|) - lo
    ensures lo <= hi <= |s| ==> r == s[lo..hi]
  {
    var h := Min(hi, |s|);
    var l := Min(lo, h);
    s[l..h]
  }

  /** Python's `s[lo:]`. */
  function From(s: string, lo: nat): (r: string)
    ensures lo <= |s| ==> r == s[lo..]
    ensures |s| <= lo ==> r == []
  {
    if lo <= |s| then s[lo..] else []
  }

  function DigitChar(n: nat): (c: char)
    requires n < 10
    ensures IsDigit(c)
  {
    ('0' as int + n) as char
  }

  /** `str(n)` for a natural number. */
  function NatToString(n: nat): (s: string)
    ensures |s| > 0 && AllDigits(s)
    decreases n
  {
    if n < 10 then [DigitChar(n)] else NatToString(n / 10) + [DigitChar(n % 10)]
  }

  /** The value of a string of decimal digits, the inverse of NatToString. */
  function ParseNat(s: string): nat
    requires AllDigits(s)
    decreases |s|
  {
    if s == [] then 0
    else 10 * ParseNat(s[..|s| - 1]) + (s[|s| - 1] as int - '0' as int)
  }

  lemma {:induction false} ParseNatToString(n: nat)
    ensures ParseNat(NatToString(n)) == n
    decreases n
  {
    if n >= 10 {
      var s := NatToString(n);
      assert s[..|s| - 1] == NatToString(n / 10);
      ParseNatToString(n / 10);
    }
  }

  /** `str(i)` for any integer. */
  function IntToString(i: int): string {
    if i < 0 then "-" + NatToString(-i) else NatToString(i)
  }
}
