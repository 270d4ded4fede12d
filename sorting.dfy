/** Stable sorting of a sequence by a string key, as Python's
    `sorted(xs, key=..., reverse=...)` does: the result is ordered by the key
    (non-increasing when `descending`), is a permutation of the input, and keeps
    elements with equal keys in their input order. */
module Sorting {
  import opened Text

  /** The key `a` may stand before the key `b`. */
  predicate InOrder(a: string, b: string, descending: bool)
  {
    if descending then LexLe(b, a) else LexLe(a, b)
  }

  /** The key `a` must stand strictly before the key `b`. */
  predicate StrictlyBefore(a: string, b: string, descending: bool)
  {
    !InOrder(b, a, descending)
  }

  ghost predicate SortedBy<T>(s: seq<T>, key: T -> string, descending: bool)
  {
    forall i, j :: 0 <= i < j < |s| ==> InOrder(key(s[i]), key(s[j]), descending)
  }

  /** The subsequence of the elements of `s` whose key is `k`, in order. */
  function WithKey<T>(s: seq<T>, key: T -> string, k: string): (r: seq<T>)
    ensures |r| <= |s|
  {
    if s == [] then []
    else (if key(s[0]) == k then [s[0]] else []) + WithKey(s[1..], key, k)
  }

  /** Equal keys: the order of the stable sort is the order of the input. */
  ghost predicate Stable<T>(r: seq<T>, s: seq<T>, key: T -> string)
  {
    forall k :: WithKey(r, key, k) == WithKey(s, key, k)
  }

  lemma InOrderTransitive(a: string, b: string, c: string, descending: bool)
    requires InOrder(a, b, descending) && InOrder(b, c, descending)
    ensures InOrder(a, c, descending)
  {
    if descending { LexLeTransitive(c, b, a); } else { LexLeTransitive(a, b, c); }
  }

  lemma InOrderTotal(a: string, b: string, descending: bool)
    ensures InOrder(a, b, descending) || InOrder(b, a, descending)
  {
    LexLeTotal(a, b);
  }

  lemma StrictlyBeforeInOrder(a: string, b: string, c: string, descending: bool)
    requires StrictlyBefore(a, b, descending) && InOrder(b, c, descending)
    ensures StrictlyBefore(a, c, descending) && a != c
  {
    if InOrder(c, a, descending) {
      InOrderTransitive(b, c, a, descending);
    }
    if a == c {
      LexLeReflexive(a);
    }
  }

  lemma {:induction false} WithKeyConcat<T>(a: seq<T>, b: seq<T>, key: T -> string, k: string)
    ensures WithKey(a + b, key, k) == WithKey(a, key, k) + WithKey(b, key, k)
    decreases |a|
  {
    if a != [] {
      var h := if key(a[0]) == k then [a[0]] else [];
      assert (a + b)[0] == a[0] && (a + b)[1..] == a[1..] + b;
      assert WithKey(a + b, key, k) == h + WithKey(a[1..] + b, key, k);
      WithKeyConcat(a[1..], b, key, k);
      assert WithKey(a, key, k) == h + WithKey(a[1..], key, k);
    } else {
      assert a + b == b;
    }
  }

  /** No element of `s` has key `k`. */
  lemma {:induction false} WithKeyNone<T>(s: seq<T>, key: T -> string, k: string)
    requires forall i :: 0 <= i < |s| ==> key(s[i]) != k
    ensures WithKey(s, key, k) == []
    decreases |s|
  {
    if s != [] {
      WithKeyNone(s[1..], key, k);
    }
  }

  /** Insert `x` after every element whose key is not strictly after its own. */
  function Insert<T>(x: T, s: seq<T>, key: T -> string, descending: bool): (r: seq<T>)
    ensures multiset(r) == multiset(s) + multiset{x} && |r| == |s| + 1
    decreases |s|
  {
    if s == [] then [x]
    else if StrictlyBefore(key(x), key(s[0]), descending) then [x] + s
    else
      assert s == [s[0]] + s[1..];
      [s[0]] + Insert(x, s[1..], key, descending)
  }

  lemma SortedTail<T>(s: seq<T>, key: T -> string, descending: bool)
    requires s != [] && SortedBy(s, key, descending)
    ensures SortedBy(s[1..], key, descending)
  {
    forall i, j | 0 <= i < j < |s[1..]|
      ensures InOrder(key(s[1..][i]), key(s[1..][j]), descending)
    {
      assert s[1..][i] == s[i + 1] && s[1..][j] == s[j + 1];
    }
  }

  /** Inserting into a sorted sequence keeps it sorted, and puts `x` after
      every element with the same key. */
  lemma {:induction false} InsertSorted<T>(x: T, s: seq<T>, key: T -> string, descending: bool)
    requires SortedBy(s, key, descending)
    ensures SortedBy(Insert(x, s, key, descending), key, descending)
    ensures forall k :: WithKey(Insert(x, s, key, descending), key, k)
                        == WithKey(s, key, k) + (if key(x) == k then [x] else [])
    decreases |s|
  {
    var r := Insert(x, s, key, descending);
    if s == [] {
      assert r == [x];
      forall k ensures WithKey(r, key, k) == WithKey(s, key, k) + (if key(x) == k then [x] else []) {
        assert WithKey(r, key, k) == (if key(x) == k then [x] else []) + WithKey(r[1..], key, k);
      }
    } else if StrictlyBefore(key(x), key(s[0]), descending) {
      InsertFront(x, s, key, descending);
    } else {
      SortedTail(s, key, descending);
      InsertSorted(x, s[1..], key, descending);
      InsertBehind(x, s, key, descending);
    }
  }

  /** The case where `x` goes in front. */
  lemma InsertFront<T>(x: T, s: seq<T>, key: T -> string, descending: bool)
    requires SortedBy(s, key, descending)
    requires s != [] && StrictlyBefore(key(x), key(s[0]), descending)
    ensures SortedBy(Insert(x, s, key, descending), key, descending)
    ensures forall k :: WithKey(Insert(x, s, key, descending), key, k)
                        == WithKey(s, key, k) + (if key(x) == k then [x] else [])
  {
    var r := Insert(x, s, key, descending);
    assert r == [x] + s && r[1..] == s;
    forall i, j | 0 <= i < j < |r|
      ensures InOrder(key(r[i]), key(r[j]), descending)
    {
      if i == 0 {
        InOrderTotal(key(x), key(s[0]), descending);
        if j > 1 { InOrderTransitive(key(x), key(s[0]), key(s[j - 1]), descending); }
      } else {
        assert r[i] == s[i - 1] && r[j] == s[j - 1];
      }
    }
    forall i | 0 <= i < |s| ensures key(s[i]) != key(x) {
      if i > 0 {
        StrictlyBeforeInOrder(key(x), key(s[0]), key(s[i]), descending);
      } else {
        LexLeReflexive(key(x));
      }
    }
    WithKeyNone(s, key, key(x));
    forall k ensures WithKey(r, key, k) == WithKey(s, key, k) + (if key(x) == k then [x] else []) {
      assert WithKey(r, key, k) == (if key(x) == k then [x] else []) + WithKey(s, key, k);
    }
  }

  /** The case where `x` goes behind the first element. */
  lemma InsertBehind<T>(x: T, s: seq<T>, key: T -> string, descending: bool)
    requires SortedBy(s, key, descending)
    requires s != [] && !StrictlyBefore(key(x), key(s[0]), descending)
    requires SortedBy(Insert(x, s[1..], key, descending), key, descending)
    requires forall k :: WithKey(Insert(x, s[1..], key, descending), key, k)
                         == WithKey(s[1..], key, k) + (if key(x) == k then [x] else [])
    ensures SortedBy(Insert(x, s, key, descending), key, descending)
    ensures forall k :: WithKey(Insert(x, s, key, descending), key, k)
                        == WithKey(s, key, k) + (if key(x) == k then [x] else [])
  {
    var r := Insert(x, s, key, descending);
    var t := Insert(x, s[1..], key, descending);
    assert r == [s[0]] + t;
    InsertBehindSorted(x, s, t, key, descending);
    InsertBehindStable(x, s, t, key);
  }

  lemma InsertBehindStable<T>(x: T, s: seq<T>, t: seq<T>, key: T -> string)
    requires s != []
    requires forall k :: WithKey(t, key, k) == WithKey(s[1..], key, k) + (if key(x) == k then [x] else [])
    ensures forall k :: WithKey([s[0]] + t, key, k) == WithKey(s, key, k) + (if key(x) == k then [x] else [])
  {
    forall k ensures WithKey([s[0]] + t, key, k) == WithKey(s, key, k) + (if key(x) == k then [x] else []) {
      var h := if key(s[0]) == k then [s[0]] else [];
      assert ([s[0]] + t)[0] == s[0] && ([s[0]] + t)[1..] == t;
      assert WithKey([s[0]] + t, key, k) == h + WithKey(t, key, k);
      assert WithKey(s, key, k) == h + WithKey(s[1..], key, k);
    }
  }

  lemma InsertBehindSorted<T>(x: T, s: seq<T>, t: seq<T>, key: T -> string, descending: bool)
    requires SortedBy(s, key, descending) && SortedBy(t, key, descending)
    requires s != [] && !StrictlyBefore(key(x), key(s[0]), descending)
    requires multiset(t) == multiset(s[1..]) + multiset{x}
    ensures SortedBy([s[0]] + t, key, descending)
  {
    var r := [s[0]] + t;
    forall j | 0 <= j < |t| ensures InOrder(key(s[0]), key(t[j]), descending) {
      assert t[j] in multiset(t);
      if t[j] == x {
        InOrderTotal(key(x), key(s[0]), descending);
      } else {
        assert t[j] in multiset(s[1..]);
        var m :| 0 <= m < |s[1..]| && s[1..][m] == t[j];
        assert s[m + 1] == t[j];
      }
    }
    forall i, j | 0 <= i < j < |r|
      ensures InOrder(key(r[i]), key(r[j]), descending)
    {
      if i == 0 { assert r[j] == t[j - 1]; } else { assert r[i] == t[i - 1] && r[j] == t[j - 1]; }
    }
  }

  /** `sorted(s, key=key, reverse=descending)`, as an insertion sort. */
  function SortBy<T>(s: seq<T>, key: T -> string, descending: bool): (r: seq<T>)
    ensures multiset(r) == multiset(s) && |r| == |s|
    ensures SortedBy(r, key, descending)
    ensures Stable(r, s, key)
    decreases |s|
  {
    if s == [] then []
    else
      var init, last := s[..|s| - 1], s[|s| - 1];
      assert s == init + [last];
      var t := SortBy(init, key, descending);
      InsertSorted(last, t, key, descending);
      SortByStableStep(init, last, t, key);
      Insert(last, t, key, descending)
  }

  lemma SortByStableStep<T>(init: seq<T>, last: T, t: seq<T>, key: T -> string)
    requires Stable(t, init, key)
    ensures forall k :: WithKey(init + [last], key, k)
                        == WithKey(t, key, k) + (if key(last) == k then [last] else [])
  {
    forall k ensures WithKey(init + [last], key, k)
                     == WithKey(t, key, k) + (if key(last) == k then [last] else [])
    {
      WithKeyConcat(init, [last], key, k);
      assert WithKey([last], key, k) == (if key(last) == k then [last] else []) + WithKey([last][1..], key, k);
    }
  }

  /** An element whose key is in order after every key of `s` goes last. */
  lemma {:induction false} InsertAtEnd<T>(x: T, s: seq<T>, key: T -> string, descending: bool)
    requires forall i :: 0 <= i < |s| ==> InOrder(key(s[i]), key(x), descending)
    ensures Insert(x, s, key, descending) == s + [x]
    decreases |s|
  {
    if s != [] {
      assert !StrictlyBefore(key(x), key(s[0]), descending);
      InsertAtEnd(x, s[1..], key, descending);
      assert s == [s[0]] + s[1..];
    }
  }

  /** Sorting what is already sorted changes nothing. */
  lemma {:induction false} SortBySorted<T>(s: seq<T>, key: T -> string, descending: bool)
    requires SortedBy(s, key, descending)
    ensures SortBy(s, key, descending) == s
    decreases |s|
  {
    if s != [] {
      var init, last := s[..|s| - 1], s[|s| - 1];
      assert s == init + [last];
      assert SortedBy(init, key, descending) by {
        forall i, j | 0 <= i < j < |init| ensures InOrder(key(init[i]), key(init[j]), descending) {
          assert init[i] == s[i] && init[j] == s[j];
        }
      }
      SortBySorted(init, key, descending);
      forall i | 0 <= i < |init| ensures InOrder(key(init[i]), key(last), descending) {
        assert init[i] == s[i];
      }
      InsertAtEnd(last, init, key, descending);
    }
  }

  /** An element counted at most once occurs at one position only. */
  lemma SingleEntry<T>(s: seq<T>, i: nat, j: nat)
    requires i < j < |s| && multiset(s)[s[j]] <= 1
    ensures s[i] != s[j]
  {
    assert s == s[..j] + s[j..];
    assert s[j..][0] == s[j];
    assert s[j] in multiset(s[j..]);
    assert s[j] !in multiset(s[..j]);
    assert s[..j][i] == s[i];
    assert s[i] in multiset(s[..j]);
  }

  /** Pairwise distinct elements are each counted at most once. */
  lemma {:induction false} DistinctCountedOnce<T>(s: seq<T>, x: T)
    requires forall i, j :: 0 <= i < j < |s| ==> s[i] != s[j]
    ensures multiset(s)[x] <= 1
    decreases |s|
  {
    if s != [] {
      assert s == [s[0]] + s[1..];
      assert forall i, j :: 0 <= i < j < |s[1..]| ==> s[1..][i] == s[i + 1] && s[1..][j] == s[j + 1];
      DistinctCountedOnce(s[1..], x);
      assert s[0] !in s[1..];
    }
  }
}
