/** The two list operations the extractors build on: Python's stable sort
    (`list.sort(key=...)` and `sorted(..., key=...)`), modelled as a stable
    insertion sort on values, and the "keep the first entry of each key"
    loop driven by a `seen` set. */
module Ordering {

  predicate SortedBy<T>(s: seq<T>, key: T -> int) {
    forall i, j :: 0 <= i < j < |s| ==> key(s[i]) <= key(s[j])
  }

  /** The elements of `s` whose key is `k`, in their order in `s`. A sort is
      stable exactly when it leaves every such selection unchanged. */
  function Select<T>(s: seq<T>, key: T -> int, k: int): (r: seq<T>)
    ensures forall x :: x in r ==> x in s && key(x) == k
    decreases |s|
  {
    if s == [] then []
    else (if key(s[0]) == k then [s[0]] else []) + Select(s[1..], key, k)
  }

  /** Inserts `x` in front of the first element whose key is not smaller. */
  function InsertBy<T>(x: T, s: seq<T>, key: T -> int): (r: seq<T>)
    ensures multiset(r) == multiset(s) + multiset{x}
    decreases |s|
  {
    if s == [] || key(x) <= key(s[0]) then [x] + s
    else
      assert s == [s[0]] + s[1..];
      [s[0]] + InsertBy(x, s[1..], key)
  }

  /** The result of a stable sort of `s` by ascending `key`. */
  function SortBy<T>(s: seq<T>, key: T -> int): (r: seq<T>)
    ensures multiset(r) == multiset(s)
    decreases |s|
  {
    if s == [] then []
    else
      assert s == [s[0]] + s[1..];
      InsertBy(s[0], SortBy(s[1..], key), key)
  }

  lemma SortedCons<T>(x: T, s: seq<T>, key: T -> int)
    requires SortedBy(s, key)
    requires forall y :: y in s ==> key(x) <= key(y)
    ensures SortedBy([x] + s, key)
  {
    var r := [x] + s;
    forall i, j | 0 <= i < j < |r| ensures key(r[i]) <= key(r[j]) {
      if i == 0 {
        assert r[j] == s[j - 1];
      } else {
        assert r[i] == s[i - 1] && r[j] == s[j - 1];
      }
    }
  }

  lemma {:induction false} InsertBySorted<T>(x: T, s: seq<T>, key: T -> int)
    requires SortedBy(s, key)
    ensures SortedBy(InsertBy(x, s, key), key)
    decreases |s|
  {
    if s == [] || key(x) <= key(s[0]) {
      forall y | y in s ensures key(x) <= key(y) {
        var j :| 0 <= j < |s| && s[j] == y;
        assert key(s[0]) <= key(s[j]);
      }
      SortedCons(x, s, key);
    } else {
      var t := InsertBy(x, s[1..], key);
      assert SortedBy(s[1..], key);
      InsertBySorted(x, s[1..], key);
      forall y | y in t ensures key(s[0]) <= key(y) {
        assert y in multiset(t);
        if y != x {
          assert y in multiset(s[1..]);
          var j :| 0 <= j < |s[1..]| && s[1..][j] == y;
          assert s[j + 1] == y;
        }
      }
      SortedCons(s[0], t, key);
    }
  }

  /** The sorted order: keys never decrease along the result. */
  lemma {:induction false} SortBySorted<T>(s: seq<T>, key: T -> int)
    ensures SortedBy(SortBy(s, key), key)
    decreases |s|
  {
    if s != [] {
      SortBySorted(s[1..], key);
      InsertBySorted(s[0], SortBy(s[1..], key), key);
    }
  }

  lemma {:induction false} SelectAppend<T>(a: seq<T>, b: seq<T>, key: T -> int, k: int)
    ensures Select(a + b, key, k) == Select(a, key, k) + Select(b, key, k)
    decreases |a|
  {
    if a == [] {
      assert a + b == b;
    } else {
      assert (a + b)[1..] == a[1..] + b;
      SelectAppend(a[1..], b, key, k);
    }
  }

  lemma {:induction false} SelectInsertBy<T>(x: T, s: seq<T>, key: T -> int, k: int)
    ensures Select(InsertBy(x, s, key), key, k) == (if key(x) == k then [x] else []) + Select(s, key, k)
    decreases |s|
  {
    if s == [] || key(x) <= key(s[0]) {
      SelectAppend([x], s, key, k);
    } else {
      SelectInsertBy(x, s[1..], key, k);
      SelectAppend([s[0]], InsertBy(x, s[1..], key), key, k);
      assert s == [s[0]] + s[1..];
      SelectAppend([s[0]], s[1..], key, k);
    }
  }

  /** Stability: for every key, the elements with that key keep their
      relative order. With SortBySorted and the multiset postcondition this
      determines the result completely. */
  lemma {:induction false} SortByStable<T>(s: seq<T>, key: T -> int, k: int)
    ensures Select(SortBy(s, key), key, k) == Select(s, key, k)
    decreases |s|
  {
    if s != [] {
      SortByStable(s[1..], key, k);
      SelectInsertBy(s[0], SortBy(s[1..], key), key, k);
    }
  }

  /** `a` is obtained from `b` by deleting elements. */
  predicate IsSubsequence<T(==)>(a: seq<T>, b: seq<T>)
    decreases |b|
  {
    a == [] || (b != [] && ((a[0] == b[0] && IsSubsequence(a[1..], b[1..])) || IsSubsequence(a, b[1..])))
  }

  lemma {:induction false} SubsequenceMembers<T>(a: seq<T>, b: seq<T>)
    requires IsSubsequence(a, b)
    ensures forall x :: x in a ==> x in b
    decreases |b|
  {
    if a != [] {
      if a[0] == b[0] && IsSubsequence(a[1..], b[1..]) {
        SubsequenceMembers(a[1..], b[1..]);
        forall x | x in a ensures x in b {
          if x != a[0] {
            assert x in a[1..];
          }
        }
      } else {
        SubsequenceMembers(a, b[1..]);
      }
    }
  }

  /** Deleting elements from a sorted list leaves it sorted. */
  lemma {:induction false} SubsequenceSorted<T>(a: seq<T>, b: seq<T>, key: T -> int)
    requires IsSubsequence(a, b) && SortedBy(b, key)
    ensures SortedBy(a, key)
    decreases |b|
  {
    if a != [] {
      assert SortedBy(b[1..], key);
      if a[0] == b[0] && IsSubsequence(a[1..], b[1..]) {
        SubsequenceSorted(a[1..], b[1..], key);
        SubsequenceMembers(a[1..], b[1..]);
        forall y | y in a[1..] ensures key(a[0]) <= key(y) {
          var j :| 0 <= j < |b[1..]| && b[1..][j] == y;
          assert b[j + 1] == y;
        }
        assert a == [a[0]] + a[1..];
        SortedCons(a[0], a[1..], key);
      } else {
        SubsequenceSorted(a, b[1..], key);
      }
    }
  }

  /** The loop `for x in s: if key(x) not in seen: seen.add(key(x)); out.append(x)`,
      started with the given `seen` set. */
  function FirstPerKey<T, K(==)>(s: seq<T>, key: T -> K, seen: set<K>): (r: seq<T>)
    decreases |s|
  {
    if s == [] then []
    else if key(s[0]) in seen then FirstPerKey(s[1..], key, seen)
    else [s[0]] + FirstPerKey(s[1..], key, seen + {key(s[0])})
  }

  lemma {:induction false} FirstPerKeySubsequence<T, K>(s: seq<T>, key: T -> K, seen: set<K>)
    ensures IsSubsequence(FirstPerKey(s, key, seen), s)
    decreases |s|
  {
    if s != [] {
      if key(s[0]) in seen {
        FirstPerKeySubsequence(s[1..], key, seen);
        var r := FirstPerKey(s, key, seen);
        if r != [] {
          assert IsSubsequence(r, s[1..]);
        }
      } else {
        FirstPerKeySubsequence(s[1..], key, seen + {key(s[0])});
      }
    }
  }

  /** One step of the deduplication loop. */
  lemma FirstPerKeyStep<T, K>(s: seq<T>, key: T -> K, seen: set<K>, i: nat)
    requires i < |s|
    ensures FirstPerKey(s[i..], key, seen)
         == if key(s[i]) in seen then FirstPerKey(s[i + 1..], key, seen)
            else [s[i]] + FirstPerKey(s[i + 1..], key, seen + {key(s[i])})
  {
    assert s[i..][1..] == s[i + 1..];
  }

  /** No two elements of `r` share a key. */
  ghost predicate KeysDistinct<T, K>(r: seq<T>, key: T -> K) {
    forall i, j :: 0 <= i < j < |r| ==> key(r[i]) != key(r[j])
  }

  /** No element of `r` has a key in `seen`. */
  ghost predicate KeysOutside<T, K>(r: seq<T>, key: T -> K, seen: set<K>) {
    forall i :: 0 <= i < |r| ==> key(r[i]) !in seen
  }

  /** Every key of `s` that is not in `seen` is the key of some element of `r`. */
  ghost predicate CoversKeys<T, K>(r: seq<T>, s: seq<T>, key: T -> K, seen: set<K>) {
    forall i :: 0 <= i < |s| && key(s[i]) !in seen ==> exists j :: 0 <= j < |r| && key(r[j]) == key(s[i])
  }

  /** No element before index `i` of `s` shares the key of `s[i]`. */
  ghost predicate FirstOfKeyAt<T, K>(s: seq<T>, key: T -> K, i: int) {
    0 <= i < |s| && forall j :: 0 <= j < i ==> key(s[j]) != key(s[i])
  }

  /** Every element of `r` is, in `s`, the first element carrying its key. */
  ghost predicate EachFirstOfKey<T, K>(r: seq<T>, s: seq<T>, key: T -> K) {
    forall k :: 0 <= k < |r| ==> exists i :: 0 <= i < |s| && s[i] == r[k] && FirstOfKeyAt(s, key, i)
  }

  /** No key appears twice in the result, and no key of `seen` appears. */
  lemma {:induction false} FirstPerKeyDistinct<T, K>(s: seq<T>, key: T -> K, seen: set<K>)
    ensures KeysOutside(FirstPerKey(s, key, seen), key, seen)
    ensures KeysDistinct(FirstPerKey(s, key, seen), key)
    decreases |s|
  {
    if s != [] {
      if key(s[0]) in seen {
        FirstPerKeyDistinct(s[1..], key, seen);
      } else {
        var seen' := seen + {key(s[0])};
        FirstPerKeyDistinct(s[1..], key, seen');
        var t := FirstPerKey(s[1..], key, seen');
        var r := [s[0]] + t;
        forall i, j | 0 <= i < j < |r| ensures key(r[i]) != key(r[j]) {
          assert r[j] == t[j - 1];
          if i > 0 {
            assert r[i] == t[i - 1];
          }
        }
        forall i | 0 <= i < |r| ensures key(r[i]) !in seen {
          if i > 0 {
            assert r[i] == t[i - 1];
          }
        }
      }
    }
  }

  /** Every key of `s` outside `seen` is represented in the result. */
  lemma {:induction false} FirstPerKeyComplete<T, K>(s: seq<T>, key: T -> K, seen: set<K>)
    ensures CoversKeys(FirstPerKey(s, key, seen), s, key, seen)
    decreases |s|
  {
    if s != [] {
      var r := FirstPerKey(s, key, seen);
      if key(s[0]) in seen {
        FirstPerKeyComplete(s[1..], key, seen);
        forall i | 0 <= i < |s| && key(s[i]) !in seen
          ensures exists j :: 0 <= j < |r| && key(r[j]) == key(s[i])
        {
          assert s[i] == s[1..][i - 1];
        }
      } else {
        var seen' := seen + {key(s[0])};
        FirstPerKeyComplete(s[1..], key, seen');
        var t := FirstPerKey(s[1..], key, seen');
        forall i | 0 <= i < |s| && key(s[i]) !in seen
          ensures exists j :: 0 <= j < |r| && key(r[j]) == key(s[i])
        {
          if key(s[i]) == key(s[0]) {
            assert r[0] == s[0];
          } else {
            assert s[i] == s[1..][i - 1];
            var j :| 0 <= j < |t| && key(t[j]) == key(s[i]);
            assert r[j + 1] == t[j];
          }
        }
      }
    }
  }

  /** Where the element at index `k` of the result comes from in `s`. */
  lemma {:induction false} FirstPerKeyOrigin<T, K>(s: seq<T>, key: T -> K, seen: set<K>, k: nat) returns (i: nat)
    requires k < |FirstPerKey(s, key, seen)|
    ensures i < |s| && s[i] == FirstPerKey(s, key, seen)[k] && FirstOfKeyAt(s, key, i)
    decreases |s|
  {
    var r := FirstPerKey(s, key, seen);
    if key(s[0]) !in seen && k == 0 {
      i := 0;
    } else {
      var seen' := if key(s[0]) in seen then seen else seen + {key(s[0])};
      var t := FirstPerKey(s[1..], key, seen');
      var k' := if key(s[0]) in seen then k else k - 1;
      assert r[k] == t[k'];
      var i' := FirstPerKeyOrigin(s[1..], key, seen', k');
      FirstPerKeyDistinct(s[1..], key, seen');
      assert key(t[k']) !in seen';
      i := i' + 1;
      forall j | 0 <= j < i ensures key(s[j]) != key(s[i]) {
        if j > 0 {
          assert s[j] == s[1..][j - 1];
        }
      }
    }
  }

  /** Each kept element is the first element of `s` carrying its key. */
  lemma FirstPerKeyEarliest<T, K>(s: seq<T>, key: T -> K, seen: set<K>)
    ensures EachFirstOfKey(FirstPerKey(s, key, seen), s, key)
  {
    var r := FirstPerKey(s, key, seen);
    forall k | 0 <= k < |r| ensures exists i :: 0 <= i < |s| && s[i] == r[k] && FirstOfKeyAt(s, key, i) {
      var i := FirstPerKeyOrigin(s, key, seen, k);
    }
    assert forall k :: 0 <= k < |r| ==> exists i :: 0 <= i < |s| && s[i] == r[k] && FirstOfKeyAt(s, key, i);
  }

  /** `[f(x) for x in s]`. */
  function Map<A, B>(s: seq<A>, f: A -> B): (r: seq<B>)
    ensures |r| == |s|
    ensures forall i :: 0 <= i < |s| ==> r[i] == f(s[i])
    decreases |s|
  {
    if s == [] then [] else [f(s[0])] + Map(s[1..], f)
  }

  lemma MapCons<A, B>(x: A, s: seq<A>, f: A -> B)
    ensures Map([x] + s, f) == [f(x)] + Map(s, f)
  {
    assert ([x] + s)[1..] == s;
  }

  /** Inserting commutes with a map that carries the sort key along. */
  lemma {:induction false} InsertByMap<A, B>(x: A, s: seq<A>, f: A -> B, keyA: A -> int, keyB: B -> int)
    requires forall y :: keyA(y) == keyB(f(y))
    ensures Map(InsertBy(x, s, keyA), f) == InsertBy(f(x), Map(s, f), keyB)
    decreases |s|
  {
    if s != [] && keyA(x) > keyA(s[0]) {
      InsertByMap(x, s[1..], f, keyA, keyB);
      assert Map(s, f)[1..] == Map(s[1..], f);
    }
  }

  /** Sorting commutes with a map that carries the sort key along. */
  lemma {:induction false} SortByMap<A, B>(s: seq<A>, f: A -> B, keyA: A -> int, keyB: B -> int)
    requires forall y :: keyA(y) == keyB(f(y))
    ensures Map(SortBy(s, keyA), f) == SortBy(Map(s, f), keyB)
    decreases |s|
  {
    if s != [] {
      SortByMap(s[1..], f, keyA, keyB);
      InsertByMap(s[0], SortBy(s[1..], keyA), f, keyA, keyB);
      assert Map(s, f)[1..] == Map(s[1..], f);
    }
  }

  /** Keeping the first element per key commutes with a map that carries
      the key along on the elements of `s`. */
  lemma {:induction false} FirstPerKeyMap<A, B, K>(s: seq<A>, f: A -> B, keyA: A -> K, keyB: B -> K, seen: set<K>)
    requires forall i :: 0 <= i < |s| ==> keyA(s[i]) == keyB(f(s[i]))
    ensures Map(FirstPerKey(s, keyA, seen), f) == FirstPerKey(Map(s, f), keyB, seen)
    decreases |s|
  {
    if s != [] {
      var seen' := if keyA(s[0]) in seen then seen else seen + {keyA(s[0])};
      assert forall i :: 0 <= i < |s[1..]| ==> s[1..][i] == s[i + 1];
      FirstPerKeyMap(s[1..], f, keyA, keyB, seen');
      assert Map(s, f)[1..] == Map(s[1..], f);
      assert Map(s, f)[0] == f(s[0]);
    }
  }
}
