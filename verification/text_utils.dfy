/** The text cleaner of `src/text/utils.py`: script and tag removal,
    separator replacement, whitespace collapse, a character whitelist,
    stripping, and a control-character filter. The Unicode category tables
    are parameters (`Categories`); `Coherent` states the facts about them the
    lemmas rely on. */
module TextUtils {
  import opened Common

  /** `unicodedata.category(c).startswith('L')`, `unicodedata.category(c)[0] == 'C'`,
      and the word-character class behind `\b`. */
  datatype Categories = Categories(isLetter: char -> bool, isControl: char -> bool, isWord: char -> bool)

  /** What the Unicode tables say about these classes and that the lemmas use:
      letters are neither control characters nor whitespace, and on ASCII the
      three classes are the familiar ones. */
  ghost predicate Coherent(u: Categories) {
    && (forall c :: u.isLetter(c) ==> !u.isControl(c) && !IsSpace(c))
    && (forall c :: IsAscii(c) ==> (u.isLetter(c) <==> IsAsciiLetter(c)))
    && (forall c :: IsAscii(c) ==> (u.isControl(c) <==> (c < ' ' || c == '\U{7F}')))
    && (forall c :: IsAscii(c) ==> (u.isWord(c) <==> (IsAsciiLetter(c) || IsDigit(c) || c == '_')))
  }

  // ---------------------------------------------------------------- scripts

  /** ASCII case folding, as IGNORECASE applies it to the ASCII letters. */
  function Lower(c: char): (r: char)
    ensures IsAsciiLetter(c) ==> 'a' <= r <= 'z'
    ensures 'A' <= c <= 'Z' ==> r as int == c as int + 32
    ensures !('A' <= c <= 'Z') ==> r == c
  {
    if 'A' <= c <= 'Z' then (c as int + 32) as char else c
  }

  /** `t` starts with `word` (lower case), ignoring ASCII case. */
  predicate StartsWithIgnoringCase(t: string, word: string) {
    |word| <= |t| && forall j :: 0 <= j < |word| ==> Lower(t[j]) == word[j]
  }

  const OpenScript: string := "<script"
  const CloseScript: string := "</script>"

  /** The offset of the first `</script>` (any case) in `t`. */
  function CloseScriptIn(t: string): (k: Option<nat>)
    ensures k.Some? ==> k.value + 9 <= |t| && StartsWithIgnoringCase(t[k.value..], CloseScript)
    ensures k.Some? ==> forall j :: 0 <= j < k.value ==> !StartsWithIgnoringCase(t[j..], CloseScript)
    ensures k.None? ==> forall j :: 0 <= j <= |t| ==> !StartsWithIgnoringCase(t[j..], CloseScript)
    decreases |t|
  {
    if |t| < 9 then None
    else if StartsWithIgnoringCase(t, CloseScript) then Some(0)
    else match CloseScriptIn(t[1..]) {
      case None =>
        assert forall j :: 1 <= j <= |t| ==> t[j..] == t[1..][j - 1..];
        None
      case Some(k) =>
        assert forall j :: 1 <= j <= k + 1 ==> t[j..] == t[1..][j - 1..];
        Some(k + 1)
    }
  }

  /** `<script\b` at the start of `s`. */
  predicate OpensScript(s: string, u: Categories) {
    StartsWithIgnoringCase(s, OpenScript) && (|s| == 7 || !u.isWord(s[7]))
  }

  /** The length of the match of the script pattern at the start of `s`:
      the opening `<script\b` up to and including the first `</script>`
      after it. The greedy body `[^<]*(?:(?!</script>)<[^<]*)*` cannot pass a
      closing tag, so the match ends at the first one; without a closing tag
      there is no match. */
  function ScriptMatch(s: string, u: Categories): (e: Option<nat>)
    ensures e.Some? ==> OpensScript(s, u) && 16 <= e.value <= |s|
    ensures e.Some? ==> StartsWithIgnoringCase(s[e.value - 9..], CloseScript)
    ensures e.Some? ==> forall j :: 7 <= j < e.value - 9 ==> !StartsWithIgnoringCase(s[j..], CloseScript)
    ensures e.None? ==> !OpensScript(s, u) || forall j :: 7 <= j <= |s| ==> !StartsWithIgnoringCase(s[j..], CloseScript)
  {
    if OpensScript(s, u) then
      assert forall j :: 7 <= j <= |s| ==> s[j..] == s[7..][j - 7..];
      match CloseScriptIn(s[7..]) {
        case None => None
        case Some(k) => Some(7 + k + 9)
      }
    else None
  }

  /** `re.search(script_pattern, s, re.IGNORECASE)` succeeds. */
  predicate HasScriptTag(s: string, u: Categories)
    decreases |s|
  {
    s != [] && (ScriptMatch(s, u).Some? || HasScriptTag(s[1..], u))
  }

  /** `re.sub(script_pattern, ' ', s, flags=re.IGNORECASE)`. */
  function RemoveScripts(s: string, u: Categories): (r: string)
    ensures forall c :: c in r ==> c in s || c == ' '
    decreases |s|
  {
    if s == [] then []
    else match ScriptMatch(s, u) {
      case Some(e) => [' '] + RemoveScripts(s[e..], u)
      case None => [s[0]] + RemoveScripts(s[1..], u)
    }
  }

  /** A text without '<' has no script tag and is left alone. */
  lemma {:induction false} RemoveScriptsNoTag(s: string, u: Categories)
    requires '<' !in s
    ensures !HasScriptTag(s, u)
    ensures RemoveScripts(s, u) == s
    decreases |s|
  {
    if s != [] {
      assert ScriptMatch(s, u).None? by {
        assert Lower(s[0]) != OpenScript[0];
      }
      assert '<' !in s[1..] by { assert forall c :: c in s[1..] ==> c in s; }
      RemoveScriptsNoTag(s[1..], u);
    }
  }

  /** The script pattern matches at none of the first `n` positions of `s`. */
  predicate NoScriptBefore(s: string, n: nat, u: Categories) {
    n <= |s| && forall i :: 0 <= i < n ==> ScriptMatch(s[i..], u).None?
  }

  /** No closing tag starts at any of the first `n` positions of `t`. */
  predicate NoCloseBefore(t: string, n: nat) {
    n <= |t| && forall j :: 0 <= j < n ==> !StartsWithIgnoringCase(t[j..], CloseScript)
  }

  /** A prefix at none of whose positions the script pattern matches
      passes through script removal unchanged. */
  lemma {:induction false} RemoveScriptsUnmatched(a: string, b: string, u: Categories)
    requires NoScriptBefore(a + b, |a|, u)
    ensures RemoveScripts(a + b, u) == a + RemoveScripts(b, u)
    decreases |a|
  {
    if a != [] {
      var s := a + b;
      assert s[0..] == s;
      assert s[0] == a[0] && s[1..] == a[1..] + b;
      assert ScriptMatch(s[0..], u).None?;
      forall i | 0 <= i < |a[1..]|
        ensures ScriptMatch((a[1..] + b)[i..], u).None?
      {
        assert (a[1..] + b)[i..] == s[i + 1..];
      }
      assert NoScriptBefore(a[1..] + b, |a[1..]|, u);
      RemoveScriptsUnmatched(a[1..], b, u);
      assert a == [a[0]] + a[1..];
    } else {
      assert a + b == b;
    }
  }

  /** A prefix without '<' passes through script removal unchanged. */
  lemma RemoveScriptsPrefix(a: string, b: string, u: Categories)
    requires '<' !in a
    ensures RemoveScripts(a + b, u) == a + RemoveScripts(b, u)
  {
    forall i | 0 <= i < |a|
      ensures ScriptMatch((a + b)[i..], u).None?
    {
      assert (a + b)[i..][0] == a[i];
      assert Lower(a[i]) != OpenScript[0];
    }
    assert NoScriptBefore(a + b, |a|, u);
    RemoveScriptsUnmatched(a, b, u);
  }

  /** The first closing tag of `t` is at `n` when one starts there and none before. */
  lemma CloseScriptFirst(t: string, n: nat)
    requires n <= |t| && StartsWithIgnoringCase(t[n..], CloseScript)
    requires NoCloseBefore(t, n)
    ensures CloseScriptIn(t) == Some(n)
  {
    var k := CloseScriptIn(t);
    assert k.Some?;
    assert k.value <= n;
    assert k.value >= n;
  }

  /** A stretch without '<' holds no closing tag. */
  lemma NoCloseScriptIn(body: string, rest: string)
    requires '<' !in body
    ensures NoCloseBefore(body + rest, |body|)
  {
    forall j | 0 <= j < |body|
      ensures !StartsWithIgnoringCase((body + rest)[j..], CloseScript)
    {
      assert (body + rest)[j..][0] == body[j];
      assert Lower(body[j]) != CloseScript[0];
    }
  }

  /** A text beginning with a lower-case word begins with it ignoring case. */
  lemma StartsWithItself(t: string, w: string)
    requires w <= t
    requires forall j :: 0 <= j < |w| ==> !('A' <= w[j] <= 'Z')
    ensures StartsWithIgnoringCase(t, w)
  {
    forall j | 0 <= j < |w| ensures Lower(t[j]) == w[j] {
      assert t[j] == w[j];
    }
  }

  /** The script pattern matches a whole block, up to the first closing tag
      after the opening one. */
  lemma ScriptMatchBlock(body: string, b: string, u: Categories)
    requires body != [] && !u.isWord(body[0])
    requires NoCloseBefore(body + (CloseScript + b), |body|)
    ensures ScriptMatch(OpenScript + (body + (CloseScript + b)), u) == Some(16 + |body|)
  {
    var rest := CloseScript + b;
    var block := OpenScript + (body + rest);
    StartsWithItself(block, OpenScript);
    assert block[7] == body[0];
    assert OpensScript(block, u);
    assert block[7..] == body + rest;
    StartsWithItself(rest, CloseScript);
    assert (body + rest)[|body|..] == rest;
    CloseScriptFirst(body + rest, |body|);
  }

  /** A `<script …>…</script>` block becomes one space, its content with it,
      when the pattern matches nowhere in the text before it and the body
      holds no closing tag of its own. The body may hold other tags and any
      '<', as in `<script>if (a<b) f()</script>`. */
  lemma ScriptBlockRemoved(a: string, body: string, b: string, u: Categories)
    requires NoScriptBefore(a + OpenScript + body + CloseScript + b, |a|, u)
    requires body != [] && !u.isWord(body[0])
    requires NoCloseBefore(body + CloseScript + b, |body|)
    ensures RemoveScripts(a + OpenScript + body + CloseScript + b, u) == a + " " + RemoveScripts(b, u)
    ensures HasScriptTag(a + OpenScript + body + CloseScript + b, u)
  {
    Regroup(a, OpenScript, body, CloseScript, b);
    assert body + CloseScript + b == body + (CloseScript + b);
    BlockBecomesSpace(body, b, u);
    PrefixThenBlock(a, OpenScript + (body + (CloseScript + b)), RemoveScripts(b, u), u);
  }

  /** A block that becomes one space stays one space behind an unmatched prefix. */
  lemma PrefixThenBlock(a: string, block: string, r: string, u: Categories)
    requires NoScriptBefore(a + block, |a|, u)
    requires RemoveScripts(block, u) == " " + r && HasScriptTag(block, u)
    ensures RemoveScripts(a + block, u) == a + " " + r
    ensures HasScriptTag(a + block, u)
  {
    RemoveScriptsUnmatched(a, block, u);
    HasScriptTagPrefix(a, block, u);
  }

  /** Concatenation regrouped to the right. */
  lemma Regroup(a: string, o: string, body: string, c: string, b: string)
    ensures a + o + body + c + b == a + (o + (body + (c + b)))
  {
  }

  /** The block alone, at the head of the text, becomes one space. */
  lemma BlockBecomesSpace(body: string, b: string, u: Categories)
    requires body != [] && !u.isWord(body[0])
    requires NoCloseBefore(body + (CloseScript + b), |body|)
    ensures RemoveScripts(OpenScript + (body + (CloseScript + b)), u) == " " + RemoveScripts(b, u)
    ensures HasScriptTag(OpenScript + (body + (CloseScript + b)), u)
  {
    var block := OpenScript + (body + (CloseScript + b));
    ScriptMatchBlock(body, b, u);
    assert block[16 + |body|..] == b;
  }

  lemma {:induction false} HasScriptTagPrefix(a: string, b: string, u: Categories)
    requires HasScriptTag(b, u)
    ensures HasScriptTag(a + b, u)
    decreases |a|
  {
    if a != [] {
      assert (a + b)[1..] == a[1..] + b;
      HasScriptTagPrefix(a[1..], b, u);
    } else {
      assert a + b == b;
    }
  }

  // ------------------------------------------------------------------- tags

  /** The offset of the first `c` in `s`. */
  function IndexOf(s: string, c: char): (k: Option<nat>)
    ensures k.Some? ==> k.value < |s| && s[k.value] == c && forall j :: 0 <= j < k.value ==> s[j] != c
    ensures k.None? ==> c !in s
    decreases |s|
  {
    if s == [] then None
    else if s[0] == c then Some(0)
    else match IndexOf(s[1..], c) {
      case None => None
      case Some(k) => Some(k + 1)
    }
  }

  /** `re.sub(r'<[^>]*>', ' ', s)`: every '<' that has a '>' after it starts a
      tag ending at the first such '>'. */
  function RemoveTags(s: string): (r: string)
    ensures forall c :: c in r ==> c in s || c == ' '
    decreases |s|
  {
    if s == [] then []
    else if s[0] == '<' && IndexOf(s[1..], '>').Some? then
      [' '] + RemoveTags(s[1..][IndexOf(s[1..], '>').value + 1..])
    else [s[0]] + RemoveTags(s[1..])
  }

  /** A prefix without '<' passes through tag removal unchanged. */
  lemma {:induction false} RemoveTagsPrefix(a: string, b: string)
    requires '<' !in a
    ensures RemoveTags(a + b) == a + RemoveTags(b)
    decreases |a|
  {
    if a != [] {
      assert (a + b)[0] == a[0] && (a + b)[1..] == a[1..] + b;
      assert '<' !in a[1..] by { assert forall c :: c in a[1..] ==> c in a; }
      RemoveTagsPrefix(a[1..], b);
    } else {
      assert a + b == b;
    }
  }

  /** A tag `<…>` (no '>' inside) becomes one space. */
  lemma TagRemoved(a: string, inner: string, b: string)
    requires '<' !in a && '>' !in inner
    ensures RemoveTags(a + "<" + inner + ">" + b) == a + " " + RemoveTags(b)
  {
    var tag := "<" + inner + ">" + b;
    assert a + "<" + inner + ">" + b == a + tag;
    RemoveTagsPrefix(a, tag);
    assert tag[1..] == inner + ">" + b;
    assert forall j :: 0 <= j < |inner| ==> tag[1..][j] == inner[j];
    assert tag[1..][|inner|] == '>';
    assert IndexOf(tag[1..], '>') == Some(|inner|);
    assert tag[1..][|inner| + 1..] == b;
  }

  /** A text without '<' is left alone by tag removal. */
  lemma RemoveTagsNoTag(s: string)
    requires '<' !in s
    ensures RemoveTags(s) == s
  {
    RemoveTagsPrefix(s, []);
    assert s + [] == s;
  }

  // ------------------------------------------------------------- separators

  const Separators: seq<char> := ['-', '.', '/', '\\', '|', '_']

  /** `s.replace(a, b)` for single characters. */
  function ReplaceChar(s: string, a: char, b: char): (r: string)
    ensures |r| == |s|
    ensures forall i :: 0 <= i < |s| ==> r[i] == if s[i] == a then b else s[i]
    decreases |s|
  {
    if s == [] then []
    else [if s[0] == a then b else s[0]] + ReplaceChar(s[1..], a, b)
  }

  function SeparatorToSpace(c: char): char {
    if c in Separators then ' ' else c
  }

  /** The text after the loop over the separators: each separator becomes a space. */
  function SeparatorsToSpaces(s: string): (r: string)
    ensures |r| == |s|
    ensures forall i :: 0 <= i < |s| ==> r[i] == SeparatorToSpace(s[i])
    ensures forall c :: c in r ==> c !in Separators
    decreases |s|
  {
    if s == [] then []
    else [SeparatorToSpace(s[0])] + SeparatorsToSpaces(s[1..])
  }

  /** `for sep in separators: text = text.replace(sep, ' ')`. */
  method ReplaceSeparators(s: string) returns (r: string)
    ensures r == SeparatorsToSpaces(s)
  {
    r := s;
    for k := 0 to |Separators|
      invariant |r| == |s|
      invariant forall i :: 0 <= i < |s| ==> r[i] == if s[i] in Separators[..k] then ' ' else s[i]
    {
      assert Separators[..k + 1] == Separators[..k] + [Separators[k]];
      r := ReplaceChar(r, Separators[k], ' ');
    }
    assert Separators[..|Separators|] == Separators;
  }

  // ------------------------------------------------------------- whitespace

  /** `s.lstrip()`: `s` without its leading whitespace. */
  function LStrip(s: string): (r: string)
    ensures |r| <= |s| && r == s[|s| - |r|..]
    ensures forall i :: 0 <= i < |s| - |r| ==> IsSpace(s[i])
    ensures r == [] || !IsSpace(r[0])
    decreases |s|
  {
    if s != [] && IsSpace(s[0]) then LStrip(s[1..]) else s
  }

  /** `s.rstrip()`: `s` without its trailing whitespace. */
  function RStrip(s: string): (r: string)
    ensures |r| <= |s| && r == s[..|r|]
    ensures forall i :: |r| <= i < |s| ==> IsSpace(s[i])
    ensures r == [] || !IsSpace(r[|r| - 1])
    decreases |s|
  {
    if s != [] && IsSpace(s[|s| - 1]) then RStrip(s[..|s| - 1]) else s
  }

  /** `s.strip()`: the part of `s` between its leading and trailing whitespace. */
  function Strip(s: string): (r: string)
    ensures r == [] || (!IsSpace(r[0]) && !IsSpace(r[|r| - 1]))
  {
    var l := LStrip(s);
    var r := RStrip(l);
    assert r != [] ==> r[0] == l[0];
    r
  }

  /** Where the stripped text sits in `s`: only whitespace lies around it. */
  lemma StripSlice(s: string)
    ensures var r := Strip(s); var lo := |s| - |LStrip(s)|;
      && lo + |r| <= |s| && r == s[lo..lo + |r|]
      && (forall i :: 0 <= i < lo ==> IsSpace(s[i]))
      && (forall i :: lo + |r| <= i < |s| ==> IsSpace(s[i]))
  {
    var l := LStrip(s);
    var r := RStrip(l);
    var lo := |s| - |l|;
    assert l == s[lo..] && r == l[..|r|];
    forall i | lo + |r| <= i < |s| ensures IsSpace(s[i]) {
      assert s[i] == l[i - lo];
    }
  }

  lemma StripMembers(s: string)
    ensures forall c :: c in Strip(s) ==> c in s
  {
    var r := Strip(s);
    var lo := |s| - |LStrip(s)|;
    StripSlice(s);
    forall c | c in r ensures c in s {
      var i :| 0 <= i < |r| && r[i] == c;
      assert s[lo + i] == c;
    }
  }

  /** `re.sub(r'\s+', ' ', s)`: every maximal run of whitespace becomes one space. */
  function Collapse(s: string): (r: string)
    ensures forall i :: 0 <= i < |r| && IsSpace(r[i]) ==> r[i] == ' '
    ensures forall i :: 0 <= i < |r| - 1 ==> !(IsSpace(r[i]) && IsSpace(r[i + 1]))
    ensures forall c :: c in r ==> c in s || c == ' '
    ensures r == [] <==> s == []
    ensures r != [] ==> (IsSpace(r[0]) <==> IsSpace(s[0]))
    decreases |s|
  {
    if s == [] then []
    else if IsSpace(s[0]) then
      var t := LStrip(s[1..]);
      assert forall c :: c in t ==> c in s[1..];
      [' '] + Collapse(t)
    else [s[0]] + Collapse(s[1..])
  }

  /** A non-whitespace character is copied as it is. */
  lemma CollapseNonSpace(c: char, t: string)
    requires !IsSpace(c)
    ensures Collapse([c] + t) == [c] + Collapse(t)
  {
    assert ([c] + t)[1..] == t;
  }

  /** A maximal run of whitespace, however long and of whatever kind, becomes
      exactly one space. Together with CollapseNonSpace this determines the
      collapse of every string, run by run. */
  lemma CollapseRun(w: string, t: string)
    requires w != [] && forall i :: 0 <= i < |w| ==> IsSpace(w[i])
    requires t == [] || !IsSpace(t[0])
    ensures Collapse(w + t) == [' '] + Collapse(t)
  {
    var s := w + t;
    assert s[0] == w[0] && s[1..] == w[1..] + t;
    LStripRun(w[1..], t);
    CollapseSpaceHead(s);
  }

  /** The collapse of a text starting with whitespace, one step unfolded. */
  lemma CollapseSpaceHead(s: string)
    requires s != [] && IsSpace(s[0])
    ensures Collapse(s) == [' '] + Collapse(LStrip(s[1..]))
  {
  }

  /** `lstrip()` removes exactly a leading run of whitespace. */
  lemma {:induction false} LStripRun(w: string, t: string)
    requires forall i :: 0 <= i < |w| ==> IsSpace(w[i])
    requires t == [] || !IsSpace(t[0])
    ensures LStrip(w + t) == t
    decreases |w|
  {
    if w == [] {
      assert w + t == t;
    } else {
      assert (w + t)[0] == w[0] && (w + t)[1..] == w[1..] + t;
      LStripRun(w[1..], t);
    }
  }

  /** A stretch without whitespace is copied as it is. */
  lemma {:induction false} CollapseWord(a: string, t: string)
    requires forall i :: 0 <= i < |a| ==> !IsSpace(a[i])
    ensures Collapse(a + t) == a + Collapse(t)
    decreases |a|
  {
    if a == [] {
      assert a + t == t;
    } else {
      assert a + t == [a[0]] + (a[1..] + t);
      CollapseNonSpace(a[0], a[1..] + t);
      CollapseWord(a[1..], t);
      assert a == [a[0]] + a[1..];
    }
  }

  /** Words separated by whitespace stay separated by one space: "a \t b"
      collapses to "a b". */
  lemma CollapseSeparatesWords(a: string, w: string, b: string)
    requires forall i :: 0 <= i < |a| ==> !IsSpace(a[i])
    requires forall i :: 0 <= i < |b| ==> !IsSpace(b[i])
    requires w != [] && forall i :: 0 <= i < |w| ==> IsSpace(w[i])
    ensures Collapse(a + w + b) == a + " " + b
  {
    var e: string := [];
    var wb := w + b;
    assert a + w + b == a + wb;
    CollapseWord(a, wb);
    assert b == [] || !IsSpace(b[0]);
    CollapseRun(w, b);
    assert b + e == b;
    CollapseWord(b, e);
    assert Collapse(e) == [];
    assert Collapse(b) == b;
    assert Collapse(wb) == [' '] + b;
    assert a + ([' '] + b) == a + " " + b;
  }

  /** Stripping leading whitespace keeps every non-whitespace character. */
  lemma LStripKeep(s: string, keep: char -> bool)
    requires forall c :: keep(c) ==> !IsSpace(c)
    ensures Keep(LStrip(s), keep) == Keep(s, keep)
  {
    var r := LStrip(s);
    var n := |s| - |r|;
    assert s == s[..n] + r;
    KeepAppend(s[..n], r, keep);
    KeepNone(s[..n], keep);
  }

  /** The collapse only touches whitespace: the other characters keep their
      order, none is added and none is lost. */
  lemma {:induction false} CollapseKeep(s: string, keep: char -> bool)
    requires forall c :: keep(c) ==> !IsSpace(c)
    ensures Keep(Collapse(s), keep) == Keep(s, keep)
    decreases |s|
  {
    if s != [] {
      if IsSpace(s[0]) {
        CollapseKeep(LStrip(s[1..]), keep);
        LStripKeep(s[1..], keep);
        assert !keep(' ');
      } else {
        CollapseKeep(s[1..], keep);
      }
    }
  }

  // ------------------------------------------------------------- whitelists

  /** `re.match(r'[0-9a-zA-Z\s\(\)\+\.\,\;\:\!\?\-]', c)` or a Unicode letter. */
  predicate Allowed(c: char, u: Categories) {
    IsDigit(c) || IsAsciiLetter(c) || IsSpace(c) || c in "()+.,;:!?-" || u.isLetter(c)
  }

  function Whitelisted(s: string, u: Categories): (r: string)
    ensures forall c :: c in r ==> c in s && Allowed(c, u)
    ensures forall c :: c in s && Allowed(c, u) ==> c in r
    decreases |s|
  {
    if s == [] then []
    else (if Allowed(s[0], u) then [s[0]] else []) + Whitelisted(s[1..], u)
  }

  /** The final filter on `unicodedata.category(c)[0] != 'C'`. */
  function WithoutControls(s: string, u: Categories): (r: string)
    ensures forall c :: c in r ==> c in s && !u.isControl(c)
    ensures forall c :: c in s && !u.isControl(c) ==> c in r
    decreases |s|
  {
    if s == [] then []
    else (if !u.isControl(s[0]) then [s[0]] else []) + WithoutControls(s[1..], u)
  }

  /** Both filters are `Keep` with their own predicate. */
  lemma {:induction false} WhitelistedKeep(s: string, u: Categories, keep: char -> bool)
    requires forall c :: keep(c) ==> Allowed(c, u)
    ensures Keep(Whitelisted(s, u), keep) == Keep(s, keep)
    decreases |s|
  {
    if s != [] {
      WhitelistedKeep(s[1..], u, keep);
      KeepAppend(if Allowed(s[0], u) then [s[0]] else [], Whitelisted(s[1..], u), keep);
    }
  }

  lemma {:induction false} WithoutControlsKeep(s: string, u: Categories, keep: char -> bool)
    requires forall c :: keep(c) ==> !u.isControl(c)
    ensures Keep(WithoutControls(s, u), keep) == Keep(s, keep)
    decreases |s|
  {
    if s != [] {
      WithoutControlsKeep(s[1..], u, keep);
      KeepAppend(if !u.isControl(s[0]) then [s[0]] else [], WithoutControls(s[1..], u), keep);
    }
  }

  lemma {:induction false} WithoutControlsNone(s: string, u: Categories)
    requires forall c :: c in s ==> !u.isControl(c)
    ensures WithoutControls(s, u) == s
    decreases |s|
  {
    if s != [] {
      assert forall c :: c in s[1..] ==> c in s;
      WithoutControlsNone(s[1..], u);
    }
  }

  // ------------------------------------------------------------- clean_text

  /** What `clean_text` returns. */
  function CleanTextSpec(text: string, u: Categories): string {
    var t := Strip(Whitelisted(Collapse(SeparatorsToSpaces(RemoveTags(RemoveScripts(text, u)))), u));
    WithoutControls(if HasScriptTag(text, u) then t + " " else t, u)
  }

  /** `clean_text`, step by step. */
  method CleanText(text: string, u: Categories) returns (r: string)
    ensures r == CleanTextSpec(text, u)
  {
    var hadScriptTags := HasScriptTag(text, u);
    r := RemoveScripts(text, u);
    r := RemoveTags(r);
    r := ReplaceSeparators(r);
    r := Collapse(r);
    r := Whitelisted(r, u);
    r := Strip(r);
    if hadScriptTags {
      r := r + " ";
    }
    r := WithoutControls(r, u);
  }

  /** `normalize_and_clean`: `clean_text` after a normalisation step given as a parameter. */
  method NormalizeAndClean(text: string, normalize: string -> string, u: Categories) returns (r: string)
    ensures r == CleanTextSpec(normalize(text), u)
  {
    var normalized := normalize(text);
    r := CleanText(normalized, u);
  }

  /** The characters the cleaned text may contain. */
  predicate OutputChar(c: char, u: Categories) {
    IsDigit(c) || IsAsciiLetter(c) || c == ' ' || c in "()+,;:!?" || u.isLetter(c)
  }

  /** Every character of the whitelisted, collapsed text is an output character. */
  lemma StagesChars(s: string, u: Categories)
    ensures forall c :: c in Whitelisted(Collapse(SeparatorsToSpaces(s)), u) ==> OutputChar(c, u)
  {
    var t3 := SeparatorsToSpaces(s);
    var t4 := Collapse(t3);
    forall c | c in Whitelisted(t4, u) ensures OutputChar(c, u) {
      assert c in t4 && Allowed(c, u);
      var i :| 0 <= i < |t4| && t4[i] == c;
      assert c != '-' && c != '.' by {
        if c != ' ' {
          assert c in t3;
        }
      }
    }
  }

  /** The character set of `clean_text`'s output: ASCII letters and digits,
      the space, `()+,;:!?` and letters; never a control character. */
  lemma CleanTextChars(text: string, u: Categories)
    ensures forall c :: c in CleanTextSpec(text, u) ==> OutputChar(c, u) && !u.isControl(c)
  {
    var t5 := Whitelisted(Collapse(SeparatorsToSpaces(RemoveTags(RemoveScripts(text, u)))), u);
    StagesChars(RemoveTags(RemoveScripts(text, u)), u);
    StripMembers(t5);
  }

  /** With the real Unicode tables, an output character is not a separator,
      not an angle bracket and not a control character. */
  lemma OutputCharFacts(c: char, u: Categories)
    requires Coherent(u)
    requires OutputChar(c, u)
    ensures c !in Separators && c != '<' && c != '>'
    ensures !u.isControl(c)
  {
    if u.isLetter(c) {
      assert !IsAscii(c) || IsAsciiLetter(c);
    } else {
      assert IsAscii(c) && ' ' <= c < '\U{7F}';
    }
  }

  /** With the real Unicode tables: no separator and no angle bracket survives. */
  lemma CleanTextNoSeparatorsOrBrackets(text: string, u: Categories)
    requires Coherent(u)
    ensures forall c :: c in CleanTextSpec(text, u) ==> c !in Separators && c != '<' && c != '>'
  {
    var r := CleanTextSpec(text, u);
    CleanTextChars(text, u);
    forall c | c in r ensures c !in Separators && c != '<' && c != '>' {
      OutputCharFacts(c, u);
    }
  }

  /** With the real Unicode tables, the control filter at the end removes nothing. */
  lemma ControlFilterNoOp(text: string, u: Categories)
    requires Coherent(u)
    ensures var t := Strip(Whitelisted(Collapse(SeparatorsToSpaces(RemoveTags(RemoveScripts(text, u)))), u));
      CleanTextSpec(text, u) == if HasScriptTag(text, u) then t + " " else t
  {
    var t5 := Whitelisted(Collapse(SeparatorsToSpaces(RemoveTags(RemoveScripts(text, u)))), u);
    var t := Strip(t5);
    var t7 := if HasScriptTag(text, u) then t + " " else t;
    StagesChars(RemoveTags(RemoveScripts(text, u)), u);
    StripMembers(t5);
    forall c | c in t7 ensures !u.isControl(c) {
      assert c in t || c == ' ';
      OutputCharFacts(c, u);
    }
    WithoutControlsNone(t7, u);
  }

  /** No leading or trailing whitespace, except the one space that is
      appended when the input held a script block. */
  lemma CleanTextEnds(text: string, u: Categories)
    requires Coherent(u)
    ensures var r := CleanTextSpec(text, u);
      && (!HasScriptTag(text, u) ==> r == [] || (!IsSpace(r[0]) && !IsSpace(r[|r| - 1])))
      && (HasScriptTag(text, u) ==>
            r != [] && r[|r| - 1] == ' ' && (r == " " || (!IsSpace(r[0]) && !IsSpace(r[|r| - 2]))))
  {
    ControlFilterNoOp(text, u);
  }

  function Letters(s: string, u: Categories): (r: string)
    ensures forall c :: c in r ==> u.isLetter(c)
  {
    Keep(s, u.isLetter)
  }

  /** With the real Unicode tables, every letter of a text without markup
      survives the cleaning, in order (accented letters included). */
  lemma CleanTextKeepsLetters(text: string, u: Categories)
    requires Coherent(u)
    requires '<' !in text
    ensures Letters(CleanTextSpec(text, u), u) == Letters(text, u)
  {
    var p := u.isLetter;
    RemoveScriptsNoTag(text, u);
    RemoveTagsNoTag(text);
    var t3 := SeparatorsToSpaces(text);
    SeparatorsKeep(text, p);
    CollapseKeep(t3, p);
    var t4 := Collapse(t3);
    WhitelistedKeep(t4, u, p);
    var t5 := Whitelisted(t4, u);
    var t := Strip(t5);
    StripKeep(t5, p);
    ControlFilterNoOp(text, u);
    assert !HasScriptTag(text, u);
  }

  lemma {:induction false} SeparatorsKeep(s: string, keep: char -> bool)
    requires forall c :: keep(c) ==> c !in Separators && c != ' '
    ensures Keep(SeparatorsToSpaces(s), keep) == Keep(s, keep)
    decreases |s|
  {
    if s != [] {
      SeparatorsKeep(s[1..], keep);
    }
  }

  lemma StripKeep(s: string, keep: char -> bool)
    requires forall c :: keep(c) ==> !IsSpace(c)
    ensures Keep(Strip(s), keep) == Keep(s, keep)
  {
    LStripKeep(s, keep);
    RStripKeep(LStrip(s), keep);
  }

  /** Stripping trailing whitespace keeps every non-whitespace character. */
  lemma RStripKeep(s: string, keep: char -> bool)
    requires forall c :: keep(c) ==> !IsSpace(c)
    ensures Keep(RStrip(s), keep) == Keep(s, keep)
  {
    var r := RStrip(s);
    var suf := s[|r|..];
    assert s == r + suf;
    assert forall c :: c in suf ==> IsSpace(c);
    KeepAppend(r, suf, keep);
    KeepNone(suf, keep);
    assert Keep(r, keep) + [] == Keep(r, keep);
  }

  /** `clean_text("<script></script>")` is a single space. */
  lemma EmptyScriptBlock(u: Categories)
    requires Coherent(u)
    ensures CleanTextSpec(OpenScript + ">" + CloseScript, u) == " "
  {
    var s := OpenScript + ">" + CloseScript;
    EmptyScriptRemoved(u);
    SpaceStages(" ", u);
    ControlFilterNoOp(s, u);
    assert [] + " " == " ";
  }

  lemma EmptyScriptRemoved(u: Categories)
    requires Coherent(u)
    ensures RemoveScripts(OpenScript + ">" + CloseScript, u) == " "
    ensures HasScriptTag(OpenScript + ">" + CloseScript, u)
  {
    var e: string := [];
    assert !u.isWord('>');
    NoCloseScriptIn(">", CloseScript + e);
    assert ">" + CloseScript + e == ">" + (CloseScript + e);
    ScriptBlockRemoved(e, ">", e, u);
    assert e + OpenScript + ">" + CloseScript + e == OpenScript + ">" + CloseScript;
    assert RemoveScripts(e, u) == e;
    assert e + " " + e == " ";
  }

  /** A single space goes through the later stages to the empty string. */
  lemma SpaceStages(s: string, u: Categories)
    requires s == " "
    ensures Strip(Whitelisted(Collapse(SeparatorsToSpaces(RemoveTags(s))), u)) == []
  {
    assert RemoveTags(s) == " ";
    assert SeparatorsToSpaces(" ") == " ";
    assert Collapse(" ") == " ";
    assert Whitelisted(" ", u) == " ";
    assert Strip(" ") == [];
  }
}
