/** Sequence facts shared by the models: stable sorting by an integer key, removal of one position,
    the elements of a sequence as a set, least and greatest elements, and the pigeonhole fact behind
    "distinct and exactly 0..n-1". Nothing here belongs to one source file; the sort is Python's, which
    keeps equal keys in order. */
module Sequences {

  datatype Option<+T> = None | Some(value: T)

  function Min(a: int, b: int): int { if a <= b then a else b }
  function Max(a: int, b: int): int { if a <= b then b else a }

  /** Python's `min` and `max` of a non-empty list. */
  function MinOf(s: seq<int>): (m: int)
    requires s != []
    ensures forall i :: 0 <= i < |s| ==> m <= s[i]
    ensures exists i :: 0 <= i < |s| && s[i] == m
  {
    if |s| == 1 then s[0] else Min(MinOf(s[..|s| - 1]), s[|s| - 1])
  }

  function MaxOf(s: seq<int>): (m: int)
    requires s != []
    ensures forall i :: 0 <= i < |s| ==> s[i] <= m
    ensures exists i :: 0 <= i < |s| && s[i] == m
  {
    if |s| == 1 then s[0] else Max(MaxOf(s[..|s| - 1]), s[|s| - 1])
  }

  /** Python's `sorted(s, key=key)`: x goes behind every element whose key is not larger. */
  function InsertBy<T>(s: seq<T>, x: T, key: T -> int): (r: seq<T>)
    ensures |r| == |s| + 1
  {
    if s == [] || key(s[|s| - 1]) <= key(x) then s + [x]
    else InsertBy(s[..|s| - 1], x, key) + [s[|s| - 1]]
  }

  function SortBy<T>(s: seq<T>, key: T -> int): (r: seq<T>)
    ensures |r| == |s|
  {
    if s == [] then [] else InsertBy(SortBy(s[..|s| - 1], key), s[|s| - 1], key)
  }

  ghost predicate SortedBy<T>(s: seq<T>, key: T -> int) {
    forall i, j :: 0 <= i < j < |s| ==> key(s[i]) <= key(s[j])
  }

  /** The elements of s whose key is v, in the order of s. */
  function WithKey<T>(s: seq<T>, key: T -> int, v: int): seq<T> {
    if s == [] then []
    else WithKey(s[..|s| - 1], key, v) + (if key(s[|s| - 1]) == v then [s[|s| - 1]] else [])
  }

  lemma {:induction false} InsertByMembers<T>(s: seq<T>, x: T, key: T -> int)
    ensures forall y :: y in InsertBy(s, x, key) ==> y in s || y == x
  {
    if !(s == [] || key(s[|s| - 1]) <= key(x)) {
      InsertByMembers(s[..|s| - 1], x, key);
    }
  }

  lemma SortedSnoc<T>(r: seq<T>, last: T, key: T -> int)
    requires SortedBy(r, key) && forall y :: y in r ==> key(y) <= key(last)
    ensures SortedBy(r + [last], key)
  {
  }

  lemma {:induction false} InsertByProperties<T>(s: seq<T>, x: T, key: T -> int)
    requires SortedBy(s, key)
    ensures SortedBy(InsertBy(s, x, key), key)
    ensures multiset(InsertBy(s, x, key)) == multiset(s) + multiset{x}
  {
    if s == [] || key(s[|s| - 1]) <= key(x) {
    } else {
      var init, last := s[..|s| - 1], s[|s| - 1];
      assert s == init + [last];
      InsertByProperties(init, x, key);
      InsertByMembers(init, x, key);
      var r := InsertBy(init, x, key);
      SortedSnoc(r, last, key);
    }
  }

  lemma {:induction false} InsertByWithKey<T>(s: seq<T>, x: T, key: T -> int, v: int)
    requires SortedBy(s, key)
    ensures WithKey(InsertBy(s, x, key), key, v) == WithKey(s + [x], key, v)
  {
    assert (s + [x])[..|s|] == s;
    if s == [] || key(s[|s| - 1]) <= key(x) {
    } else {
      var init, last := s[..|s| - 1], s[|s| - 1];
      InsertByWithKey(init, x, key, v);
      assert (init + [x])[..|init|] == init;
      assert (InsertBy(init, x, key) + [last])[..|s|] == InsertBy(init, x, key);
      if key(x) == v {
        assert WithKey(init, key, v) + [x] == WithKey(s + [x], key, v);
      }
    }
  }

  /** Sorting orders the keys, keeps every element, and keeps the order among equal keys. */
  lemma {:induction false} SortByProperties<T>(s: seq<T>, key: T -> int)
    ensures SortedBy(SortBy(s, key), key)
    ensures multiset(SortBy(s, key)) == multiset(s)
    ensures forall v :: WithKey(SortBy(s, key), key, v) == WithKey(s, key, v)
  {
    if s != [] {
      var init, last := s[..|s| - 1], s[|s| - 1];
      assert s == init + [last];
      SortByProperties(init, key);
      var t := SortBy(init, key);
      InsertByProperties(t, last, key);
      forall v ensures WithKey(SortBy(s, key), key, v) == WithKey(s, key, v) {
        InsertByWithKey(t, last, key, v);
        assert (t + [last])[..|t|] == t;
        assert WithKey(t, key, v) == WithKey(init, key, v);
      }
    }
  }

  /** A sequence already in order is its own sorted form. */
  lemma {:induction false} SortByOfSorted<T>(s: seq<T>, key: T -> int)
    requires SortedBy(s, key)
    ensures SortBy(s, key) == s
  {
    if s != [] {
      var init := s[..|s| - 1];
      SortByOfSorted(init, key);
      assert s == init + [s[|s| - 1]];
    }
  }

  function RemoveAt<T>(s: seq<T>, i: nat): (r: seq<T>)
    requires i < |s|
    ensures |r| == |s| - 1
    ensures forall x :: x in r ==> x in s
  {
    s[..i] + s[i + 1..]
  }

  lemma RemoveAtMultiset<T>(s: seq<T>, i: nat)
    requires i < |s|
    ensures multiset(s) == multiset(RemoveAt(s, i)) + multiset{s[i]}
  {
    assert s == s[..i] + [s[i]] + s[i + 1..];
  }

  /** Sequences with the same multiset have the same members. */
  lemma SameMembers<T>(a: seq<T>, b: seq<T>)
    requires multiset(a) == multiset(b)
    ensures forall x :: x in a <==> x in b
  {
    forall x ensures x in a <==> x in b {
      assert x in a <==> x in multiset(a);
      assert x in b <==> x in multiset(b);
    }
  }

  ghost predicate Distinct<T>(s: seq<T>) {
    forall i, j :: 0 <= i < j < |s| ==> s[i] != s[j]
  }

  ghost predicate IsRange(s: seq<int>) {
    Distinct(s) && forall p :: p in s <==> 0 <= p < |s|
  }

  function RangeSet(n: nat): (r: set<int>)
    ensures |r| == n && forall p :: p in r <==> 0 <= p < n
  {
    if n == 0 then {} else RangeSet(n - 1) + {n - 1}
  }

  function Elements<T>(s: seq<T>): set<T> {
    set x | x in s
  }

  lemma {:induction false} DistinctSize<T>(s: seq<T>)
    requires Distinct(s)
    ensures |Elements(s)| == |s|
  {
    if s != [] {
      DistinctSize(s[1..]);
      assert Elements(s) == Elements(s[1..]) + {s[0]};
    }
  }

  lemma {:induction false} ElementsSize<T>(s: seq<T>)
    ensures |Elements(s)| <= |s|
  {
    if s != [] {
      ElementsSize(s[1..]);
      assert Elements(s) == Elements(s[1..]) + {s[0]};
    }
  }

  lemma {:induction false} SizeDistinct<T>(s: seq<T>)
    requires |Elements(s)| == |s|
    ensures Distinct(s)
  {
    if s != [] {
      assert Elements(s) == Elements(s[1..]) + {s[0]};
      ElementsSize(s[1..]);
      SizeDistinct(s[1..]);
      assert s[0] !in Elements(s[1..]);
      forall j | 0 < j < |s| ensures s[0] != s[j] {
        assert s[1..][j - 1] in Elements(s[1..]);
      }
    }
  }

  lemma SubsetSameSize<T>(a: set<T>, b: set<T>)
    requires a <= b && |a| == |b|
    ensures a == b
  {
    assert b == a + (b - a);
    assert |b| == |a| + |b - a|;
  }

  /** Having no repeated element is a property of the multiset alone. */
  lemma DistinctMultiset<T>(s: seq<T>)
    ensures Distinct(s) <==> forall x :: multiset(s)[x] <= 1
  {
    if Distinct(s) {
      forall x ensures multiset(s)[x] <= 1 { DistinctCount(s, x); }
    }
    if !Distinct(s) {
      var i, j :| 0 <= i < j < |s| && s[i] == s[j];
      TwiceCount(s, i, j);
    }
  }

  lemma TwiceCount<T>(s: seq<T>, i: nat, j: nat)
    requires i < j < |s| && s[i] == s[j]
    ensures multiset(s)[s[i]] >= 2
  {
    RemoveAtMultiset(s, j);
    assert RemoveAt(s, j)[i] == s[i];
    assert s[i] in RemoveAt(s, j);
  }

  lemma {:induction false} DistinctCount<T>(s: seq<T>, x: T)
    requires Distinct(s)
    ensures multiset(s)[x] <= 1
  {
    if s != [] {
      assert s == [s[0]] + s[1..];
      DistinctCount(s[1..], x);
      if s[0] == x { assert x !in s[1..]; }
    }
  }

  lemma DistinctTransfers<T>(a: seq<T>, b: seq<T>)
    requires Distinct(a) && multiset(a) == multiset(b)
    ensures Distinct(b)
  {
    DistinctMultiset(a);
    DistinctMultiset(b);
  }

  /** A duplicate-free sequence whose members are exactly 0..n-1 has length n. */
  lemma DistinctRange(s: seq<int>, n: nat)
    requires Distinct(s)
    requires forall p :: p in s <==> 0 <= p < n
    ensures |s| == n
  {
    DistinctSize(s);
    assert Elements(s) == RangeSet(n);
  }

  /** The counts of 0..k-1 and nothing else make a sequence a permutation of 0..k-1. */
  lemma CountsOfRange(s: seq<int>, k: nat)
    requires forall p :: multiset(s)[p] == if 0 <= p < k then 1 else 0
    ensures IsRange(s) && |s| == k
  {
    forall i, j | 0 <= i < j < |s| ensures s[i] != s[j] {
      if s[i] == s[j] { TwiceCount(s, i, j); }
    }
    forall p ensures p in s <==> 0 <= p < k {
      assert p in s <==> multiset(s)[p] > 0;
    }
    DistinctRange(s, k);
  }

  lemma IntSetEmpty(s: set<int>)
    requires forall x :: x !in s
    ensures s == {}
  {
    forall x: int | true ensures x !in s {}
  }

  lemma IntSetMember(s: set<int>)
    requires s != {}
    ensures exists x :: x in s
  {
    if forall x :: x !in s { IntSetEmpty(s); }
  }
}
