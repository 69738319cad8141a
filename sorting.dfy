/**
 * The two sorts the pipeline relies on: Python's ordering of strings (used by
 * `sorted()` on file names and series UIDs) and the stable `list.sort(key=...)`
 * with an integer key (used to order the slices of a series).
 */
module Sorting {

  // ---------------------------------------------------------------------------
  // Python's str ordering: lexicographic on code points
  // ---------------------------------------------------------------------------

  /** a <= b for Python strings. */
  predicate LexLe(a: string, b: string)
    decreases |a|
  {
    a == [] || (b != [] && (a[0] < b[0] || (a[0] == b[0] && LexLe(a[1..], b[1..]))))
  }

  lemma {:induction false} LexLeReflexive(a: string)
    ensures LexLe(a, a)
    decreases |a|
  {
    if a != [] {
      LexLeReflexive(a[1..]);
    }
  }

  lemma {:induction false} LexLeTotal(a: string, b: string)
    ensures LexLe(a, b) || LexLe(b, a)
    decreases |a|
  {
    if a != [] && b != [] && a[0] == b[0] {
      LexLeTotal(a[1..], b[1..]);
    }
  }

  lemma {:induction false} LexLeTransitive(a: string, b: string, c: string)
    requires LexLe(a, b) && LexLe(b, c)
    ensures LexLe(a, c)
    decreases |a|
  {
    if a != [] && b != [] && c != [] && a[0] == b[0] == c[0] {
      LexLeTransitive(a[1..], b[1..], c[1..]);
    }
  }

  lemma {:induction false} LexLeAntisymmetric(a: string, b: string)
    requires LexLe(a, b) && LexLe(b, a)
    ensures a == b
    decreases |a|
  {
    if a != [] {
      LexLeAntisymmetric(a[1..], b[1..]);
      assert a == [a[0]] + a[1..] && b == [b[0]] + b[1..];
    }
  }

  predicate SortedStrings(s: seq<string>)
  {
    forall i, j :: 0 <= i < j < |s| ==> LexLe(s[i], s[j])
  }

  /** An element of a permutation of `s` plus `x` is `x` or an element of `s`. */
  lemma InPermutation<T>(t: seq<T>, s: seq<T>, x: T, j: nat)
    requires multiset(t) == multiset(s) + multiset{x} && j < |t|
    ensures t[j] == x || exists k :: 0 <= k < |s| && s[k] == t[j]
  {
    assert t[j] in multiset(t);
    if t[j] != x {
      assert t[j] in multiset(s);
    }
  }

  lemma SortedStringsTail(a: seq<string>)
    requires a != [] && SortedStrings(a)
    ensures SortedStrings(a[1..])
  {
    forall i, j | 0 <= i < j < |a[1..]| ensures LexLe(a[1..][i], a[1..][j]) {
      assert a[1..][i] == a[i + 1] && a[1..][j] == a[j + 1];
    }
  }

  /** The multiset of a sequence without its head. */
  lemma MultisetTail<T>(a: seq<T>)
    requires a != []
    ensures multiset(a[1..]) == multiset(a) - multiset{a[0]}
  {
    assert a == [a[0]] + a[1..];
  }

  /** The heads of two sorted permutations of one another are equal: both are the least element. */
  lemma SortedHeads(a: seq<string>, b: seq<string>)
    requires a != [] && b != [] && SortedStrings(a) && SortedStrings(b)
    requires multiset(a) == multiset(b)
    ensures a[0] == b[0]
  {
    assert a[0] in multiset(b) && b[0] in multiset(a);
    var i :| 0 <= i < |b| && b[i] == a[0];
    var j :| 0 <= j < |a| && a[j] == b[0];
    assert LexLe(b[0], b[i]) by { if i == 0 { LexLeReflexive(b[0]); } }
    assert LexLe(a[0], a[j]) by { if j == 0 { LexLeReflexive(a[0]); } }
    LexLeAntisymmetric(a[0], b[0]);
  }

  /** Insert `x` into the sorted list `r`, before the first element greater than it. */
  function InsertString(r: seq<string>, x: string): (t: seq<string>)
    requires SortedStrings(r)
    ensures SortedStrings(t)
    ensures multiset(t) == multiset(r) + multiset{x}
  {
    if r == [] then [x]
    else if !LexLe(r[0], x) then
      LexLeTotal(r[0], x);
      forall j | 0 <= j < |r| ensures LexLe(x, r[j]) {
        if j > 0 { LexLeTransitive(x, r[0], r[j]); }
      }
      ConsSortedStrings(x, r);
      [x] + r
    else
      SortedStringsTail(r);
      var t' := InsertString(r[1..], x);
      InsertedStringsAbove(r, x, t');
      ConsSortedStrings(r[0], t');
      MultisetCons(r, x, t');
      [r[0]] + t'
  }

  /** Putting a lower bound in front of a sorted list keeps it sorted. */
  lemma ConsSortedStrings(h: string, t: seq<string>)
    requires SortedStrings(t)
    requires forall j :: 0 <= j < |t| ==> LexLe(h, t[j])
    ensures SortedStrings([h] + t)
  {
    var c := [h] + t;
    forall i, j | 0 <= i < j < |c| ensures LexLe(c[i], c[j]) {
      if i == 0 { assert c[j] == t[j - 1]; } else { assert c[i] == t[i - 1] && c[j] == t[j - 1]; }
    }
  }

  /** The head of a sorted list is a lower bound of the tail with `x` inserted, when it is at most `x`. */
  lemma InsertedStringsAbove(r: seq<string>, x: string, t': seq<string>)
    requires r != [] && SortedStrings(r) && LexLe(r[0], x)
    requires multiset(t') == multiset(r[1..]) + multiset{x}
    ensures forall j :: 0 <= j < |t'| ==> LexLe(r[0], t'[j])
  {
    forall j | 0 <= j < |t'| ensures LexLe(r[0], t'[j]) {
      InPermutation(t', r[1..], x, j);
      if t'[j] != x {
        var k :| 0 <= k < |r[1..]| && r[1..][k] == t'[j];
        assert r[k + 1] == t'[j];
      }
    }
  }

  /** Replacing the tail of `r` by a permutation of it plus `x` adds `x` to the multiset. */
  lemma MultisetCons<T>(r: seq<T>, x: T, t': seq<T>)
    requires r != []
    requires multiset(t') == multiset(r[1..]) + multiset{x}
    ensures multiset([r[0]] + t') == multiset(r) + multiset{x}
  {
    assert r == [r[0]] + r[1..];
  }

  /** Python's sorted() on a list of strings: ascending and a permutation of the input. */
  function SortStrings(s: seq<string>): (r: seq<string>)
    ensures SortedStrings(r)
    ensures multiset(r) == multiset(s)
  {
    if s == [] then []
    else
      assert s == s[..|s| - 1] + [s[|s| - 1]];
      InsertString(SortStrings(s[..|s| - 1]), s[|s| - 1])
  }

  /** Two sorted permutations of one another are equal: the result of sorted() is determined. */
  lemma {:induction false} SortedPermutationUnique(a: seq<string>, b: seq<string>)
    requires SortedStrings(a) && SortedStrings(b)
    requires multiset(a) == multiset(b)
    ensures a == b
    decreases |a|
  {
    assert |a| == |multiset(a)| == |b|;
    if a != [] {
      SortedHeads(a, b);
      MultisetTail(a);
      MultisetTail(b);
      SortedStringsTail(a);
      SortedStringsTail(b);
      SortedPermutationUnique(a[1..], b[1..]);
      assert a == [a[0]] + a[1..] && b == [b[0]] + b[1..];
    }
  }

  // ---------------------------------------------------------------------------
  // list.sort(key=...) with an integer key: stable
  // ---------------------------------------------------------------------------

  predicate SortedByKey<T>(s: seq<T>, key: T -> int)
  {
    forall i, j :: 0 <= i < j < |s| ==> key(s[i]) <= key(s[j])
  }

  lemma SortedByKeyTail<T>(r: seq<T>, key: T -> int)
    requires r != [] && SortedByKey(r, key)
    ensures SortedByKey(r[1..], key)
  {
    forall i, j | 0 <= i < j < |r[1..]| ensures key(r[1..][i]) <= key(r[1..][j]) {
      assert r[1..][i] == r[i + 1] && r[1..][j] == r[j + 1];
    }
  }

  /** Insert `x` after every element whose key is at most key(x). */
  function InsertByKey<T>(r: seq<T>, x: T, key: T -> int): (t: seq<T>)
    requires SortedByKey(r, key)
    ensures SortedByKey(t, key)
    ensures multiset(t) == multiset(r) + multiset{x}
  {
    if r == [] then [x]
    else if key(x) < key(r[0]) then
      ConsSortedByKey(x, r, key);
      [x] + r
    else
      SortedByKeyTail(r, key);
      var t' := InsertByKey(r[1..], x, key);
      InsertedKeysAbove(r, x, t', key);
      ConsSortedByKey(r[0], t', key);
      MultisetCons(r, x, t');
      [r[0]] + t'
  }

  /** Putting an element whose key is at most every key of a sorted list in front keeps it sorted. */
  lemma ConsSortedByKey<T>(h: T, t: seq<T>, key: T -> int)
    requires SortedByKey(t, key)
    requires forall j :: 0 <= j < |t| ==> key(h) <= key(t[j])
    ensures SortedByKey([h] + t, key)
  {
    var c := [h] + t;
    forall i, j | 0 <= i < j < |c| ensures key(c[i]) <= key(c[j]) {
      if i == 0 { assert c[j] == t[j - 1]; } else { assert c[i] == t[i - 1] && c[j] == t[j - 1]; }
    }
  }

  /** The head's key bounds the tail with `x` inserted, when it is at most key(x). */
  lemma InsertedKeysAbove<T>(r: seq<T>, x: T, t': seq<T>, key: T -> int)
    requires r != [] && SortedByKey(r, key) && key(r[0]) <= key(x)
    requires multiset(t') == multiset(r[1..]) + multiset{x}
    ensures forall j :: 0 <= j < |t'| ==> key(r[0]) <= key(t'[j])
  {
    forall j | 0 <= j < |t'| ensures key(r[0]) <= key(t'[j]) {
      InPermutation(t', r[1..], x, j);
      if t'[j] != x {
        var k :| 0 <= k < |r[1..]| && r[1..][k] == t'[j];
        assert r[k + 1] == t'[j];
      }
    }
  }

  /** Python's stable sort by an integer key: ascending by key and a permutation of the input. */
  function SortByKey<T>(s: seq<T>, key: T -> int): (r: seq<T>)
    ensures SortedByKey(r, key)
    ensures multiset(r) == multiset(s)
  {
    if s == [] then []
    else
      assert s == s[..|s| - 1] + [s[|s| - 1]];
      InsertByKey(SortByKey(s[..|s| - 1], key), s[|s| - 1], key)
  }

  /** The elements of `s` whose key is `k`, in their order in `s`. */
  function WithKey<T>(s: seq<T>, key: T -> int, k: int): seq<T>
  {
    if s == [] then []
    else (if key(s[0]) == k then [s[0]] else []) + WithKey(s[1..], key, k)
  }

  lemma {:induction false} WithKeyConcat<T>(a: seq<T>, b: seq<T>, key: T -> int, k: int)
    ensures WithKey(a + b, key, k) == WithKey(a, key, k) + WithKey(b, key, k)
    decreases |a|
  {
    if a != [] {
      assert (a + b)[1..] == a[1..] + b;
      WithKeyConcat(a[1..], b, key, k);
    } else {
      assert a + b == b;
    }
  }

  lemma {:induction false} WithKeyAbove<T>(s: seq<T>, key: T -> int, k: int)
    requires forall i :: 0 <= i < |s| ==> k < key(s[i])
    ensures WithKey(s, key, k) == []
    decreases |s|
  {
    if s != [] {
      WithKeyAbove(s[1..], key, k);
    }
  }

  /** WithKey of a list with a given head. */
  lemma WithKeyCons<T>(h: T, t: seq<T>, key: T -> int, k: int)
    ensures WithKey([h] + t, key, k) == (if key(h) == k then [h] else []) + WithKey(t, key, k)
  {
    assert ([h] + t)[1..] == t;
  }

  lemma {:induction false} WithKeyInsert<T>(r: seq<T>, x: T, key: T -> int, k: int)
    requires SortedByKey(r, key)
    ensures WithKey(InsertByKey(r, x, key), key, k)
         == WithKey(r, key, k) + (if key(x) == k then [x] else [])
    decreases |r|
  {
    if r == [] {
      assert InsertByKey(r, x, key) == [x];
    } else if key(x) < key(r[0]) {
      WithKeyInsertFront(r, x, key, k);
    } else {
      SortedByKeyTail(r, key);
      WithKeyInsert(r[1..], x, key, k);
      WithKeyInsertBehind(r, x, key, k);
    }
  }

  lemma WithKeyInsertBehind<T>(r: seq<T>, x: T, key: T -> int, k: int)
    requires SortedByKey(r, key) && r != [] && key(r[0]) <= key(x)
    requires SortedByKey(r[1..], key)
    requires WithKey(InsertByKey(r[1..], x, key), key, k)
          == WithKey(r[1..], key, k) + (if key(x) == k then [x] else [])
    ensures WithKey(InsertByKey(r, x, key), key, k)
         == WithKey(r, key, k) + (if key(x) == k then [x] else [])
  {
    InsertByKeyBehind(r, x, key);
    WithKeyPrepend(r, InsertByKey(r[1..], x, key), if key(x) == k then [x] else [], key, k);
  }

  lemma InsertByKeyBehind<T>(r: seq<T>, x: T, key: T -> int)
    requires SortedByKey(r, key) && r != [] && key(r[0]) <= key(x)
    ensures InsertByKey(r, x, key) == [r[0]] + InsertByKey(r[1..], x, key)
  {
  }

  /** Putting back the head of `r` in front of a list whose selection extends that of r's tail. */
  lemma WithKeyPrepend<T>(r: seq<T>, t: seq<T>, extra: seq<T>, key: T -> int, k: int)
    requires r != []
    requires WithKey(t, key, k) == WithKey(r[1..], key, k) + extra
    ensures WithKey([r[0]] + t, key, k) == WithKey(r, key, k) + extra
  {
    WithKeyCons(r[0], t, key, k);
    assert WithKey(r, key, k) == (if key(r[0]) == k then [r[0]] else []) + WithKey(r[1..], key, k);
  }

  lemma WithKeyInsertFront<T>(r: seq<T>, x: T, key: T -> int, k: int)
    requires SortedByKey(r, key) && r != [] && key(x) < key(r[0])
    ensures WithKey([x] + r, key, k) == WithKey(r, key, k) + (if key(x) == k then [x] else [])
  {
    WithKeyCons(x, r, key, k);
    if key(x) == k {
      forall i | 0 <= i < |r| ensures k < key(r[i]) {
        if i > 0 { assert key(r[0]) <= key(r[i]); }
      }
      WithKeyAbove(r, key, k);
    }
  }

  /** Stability: among elements with equal keys, the sort keeps the input order. */
  lemma {:induction false} SortByKeyStable<T>(s: seq<T>, key: T -> int, k: int)
    ensures WithKey(SortByKey(s, key), key, k) == WithKey(s, key, k)
    decreases |s|
  {
    if s != [] {
      var init, x := s[..|s| - 1], s[|s| - 1];
      var tail := if key(x) == k then [x] else [];
      assert s == init + [x];
      assert WithKey([x], key, k) == tail by {
        assert [x][1..] == [];
      }
      calc {
        WithKey(SortByKey(s, key), key, k);
        WithKey(InsertByKey(SortByKey(init, key), x, key), key, k);
      == { WithKeyInsert(SortByKey(init, key), x, key, k); }
        WithKey(SortByKey(init, key), key, k) + tail;
      == { SortByKeyStable(init, key, k); }
        WithKey(init, key, k) + tail;
      == { WithKeyConcat(init, [x], key, k); }
        WithKey(s, key, k);
      }
    }
  }
}
