/** Result types and sequence facts shared by the component models. */
module Wrappers {

  datatype Option<+T> = None | Some(value: T)

  datatype Result<+T, +E> = Ok(value: T) | Err(error: E)
}

/** Insertion-ordered collections, filters and a stable sort over `seq`. */
module Seqs {

  function SetOf<T>(s: seq<T>): set<T> {
    set x | x in s
  }

  lemma SetOfPush<T>(s: seq<T>, x: T)
    ensures SetOf(s + [x]) == SetOf(s) + {x}
  {
  }

  lemma TakeMore<T>(s: seq<T>, k: nat)
    requires k < |s|
    ensures s[..k + 1] == s[..k] + [s[k]]
  {
  }

  ghost predicate NoDup<T>(s: seq<T>) {
    forall i, j :: 0 <= i < j < |s| ==> s[i] != s[j]
  }

  function Filter<T>(s: seq<T>, p: T -> bool): seq<T> {
    if s == [] then [] else (if p(s[0]) then [s[0]] else []) + Filter(s[1..], p)
  }

  function Map<A, B>(s: seq<A>, f: A -> B): (r: seq<B>)
    ensures |r| == |s|
    ensures forall i :: 0 <= i < |s| ==> r[i] == f(s[i])
  {
    seq(|s|, i requires 0 <= i < |s| => f(s[i]))
  }

  /** The distinct values of `s` in order of first occurrence: a `Set` built from `s`. */
  function Distinct<T(==,!new)>(s: seq<T>): (r: seq<T>)
    ensures NoDup(r)
    ensures forall x :: x in r <==> x in s
  {
    if s == [] then []
    else
      var front := Distinct(s[..|s| - 1]);
      var last := s[|s| - 1];
      assert s == s[..|s| - 1] + [last];
      if last in front then front else front + [last]
  }

  lemma SameMembers<T(!new)>(s: seq<T>, t: seq<T>)
    requires multiset(s) == multiset(t)
    ensures forall x :: x in s <==> x in t
  {
    forall x ensures x in s <==> x in t {
      assert x in s <==> x in multiset(s);
    }
  }

  lemma {:induction false} SizeOfSetOf<T>(s: seq<T>)
    ensures |SetOf(s)| <= |s|
    ensures NoDup(s) ==> |SetOf(s)| == |s|
  {
    if s == [] {
    } else {
      var n := |s| - 1;
      SizeOfSetOf(s[..n]);
      assert s == s[..n] + [s[n]];
      assert SetOf(s) == SetOf(s[..n]) + {s[n]};
      if NoDup(s) {
        assert s[n] !in SetOf(s[..n]);
      }
    }
  }

  lemma NoDupConcat<T(!new)>(s: seq<T>, t: seq<T>)
    requires NoDup(s) && NoDup(t)
    requires forall x :: x in s ==> x !in t
    ensures NoDup(s + t)
  {
    var r := s + t;
    forall i, j | 0 <= i < j < |r| ensures r[i] != r[j] {
      if i < |s| && |s| <= j {
        assert r[i] in s && r[j] == t[j - |s|] && r[j] in t;
      }
    }
  }

  lemma SubsetSize<T>(a: set<T>, b: set<T>)
    requires a <= b
    ensures |a| <= |b|
    ensures |a| == |b| ==> a == b
  {
    assert b == a + (b - a);
    assert |b| == |a| + |b - a|;
  }

  lemma {:induction false} FilterConcat<T>(s: seq<T>, t: seq<T>, p: T -> bool)
    ensures Filter(s + t, p) == Filter(s, p) + Filter(t, p)
  {
    if s == [] {
      assert s + t == t;
    } else {
      FilterConcat(s[1..], t, p);
      var head := if p(s[0]) then [s[0]] else [];
      calc {
        Filter(s + t, p);
        { assert (s + t)[1..] == s[1..] + t; }
        head + Filter(s[1..] + t, p);
        head + (Filter(s[1..], p) + Filter(t, p));
        { assert forall a: seq<T>, b: seq<T> :: head + (a + b) == (head + a) + b; }
        Filter(s, p) + Filter(t, p);
      }
    }
  }

  lemma FilterCons<T>(x: T, s: seq<T>, p: T -> bool)
    ensures Filter([x] + s, p) == (if p(x) then [x] else []) + Filter(s, p)
  {
    assert ([x] + s)[1..] == s;
  }

  lemma {:induction false} FilterMembers<T(!new)>(s: seq<T>, p: T -> bool)
    ensures forall x :: x in Filter(s, p) <==> x in s && p(x)
    ensures |Filter(s, p)| <= |s|
  {
    if s != [] {
      FilterMembers(s[1..], p);
      assert s == [s[0]] + s[1..];
    }
  }

  lemma {:induction false} FilterNoDup<T(!new)>(s: seq<T>, p: T -> bool)
    requires NoDup(s)
    ensures NoDup(Filter(s, p))
  {
    if s != [] {
      FilterNoDup(s[1..], p);
      FilterMembers(s[1..], p);
      assert forall k :: 0 <= k < |s[1..]| ==> s[1..][k] == s[k + 1] != s[0];
    }
  }

  lemma {:induction false} FilterMultiset<T(!new)>(s: seq<T>, p: T -> bool)
    ensures forall x :: multiset(Filter(s, p))[x] == if p(x) then multiset(s)[x] else 0
  {
    if s != [] {
      FilterMultiset(s[1..], p);
      assert s == [s[0]] + s[1..];
    }
  }

  /** Two filters in a row are one. */
  lemma {:induction false} FilterFilter<T>(s: seq<T>, p: T -> bool, q: T -> bool, both: T -> bool)
    requires forall x :: x in s ==> both(x) == (p(x) && q(x))
    ensures Filter(Filter(s, p), q) == Filter(s, both)
  {
    if s != [] {
      assert s[0] in s;
      FilterFilter(s[1..], p, q, both);
      if p(s[0]) {
        FilterCons(s[0], Filter(s[1..], p), q);
      } else {
        assert Filter(s, p) == Filter(s[1..], p);
      }
    }
  }

  lemma {:induction false} FilterSame<T>(s: seq<T>, p: T -> bool, q: T -> bool)
    requires forall x :: x in s ==> p(x) == q(x)
    ensures Filter(s, p) == Filter(s, q)
  {
    if s != [] {
      FilterSame(s[1..], p, q);
    }
  }

  lemma {:induction false} FilterAll<T>(s: seq<T>, p: T -> bool)
    requires forall x :: x in s ==> p(x)
    ensures Filter(s, p) == s
  {
    if s != [] {
      FilterAll(s[1..], p);
    }
  }

  lemma {:induction false} FilterNone<T>(s: seq<T>, p: T -> bool)
    requires forall x :: x in s ==> !p(x)
    ensures Filter(s, p) == []
  {
    if s != [] {
      FilterNone(s[1..], p);
    }
  }

  // ----- the stable sort of ECMA-262 section 23.1.3.30, by a numeric key

  function Insert<T>(x: T, s: seq<T>, key: T -> real): seq<T> {
    if s == [] || key(x) <= key(s[0]) then [x] + s else [s[0]] + Insert(x, s[1..], key)
  }

  function StableSort<T>(s: seq<T>, key: T -> real): seq<T> {
    if s == [] then [] else Insert(s[0], StableSort(s[1..], key), key)
  }

  ghost predicate SortedBy<T>(s: seq<T>, key: T -> real) {
    forall i, j :: 0 <= i < j < |s| ==> key(s[i]) <= key(s[j])
  }

  lemma SmallerKeyFirst<T>(s: seq<T>, key: T -> real, i: nat, j: nat)
    requires SortedBy(s, key)
    requires i < |s| && j < |s| && key(s[i]) < key(s[j])
    ensures i < j
  {
  }

  lemma SortedCons<T>(head: T, tail: seq<T>, key: T -> real)
    requires SortedBy(tail, key)
    requires forall i :: 0 <= i < |tail| ==> key(head) <= key(tail[i])
    ensures SortedBy([head] + tail, key)
  {
  }

  lemma {:induction false} InsertSorts<T>(x: T, s: seq<T>, key: T -> real)
    requires SortedBy(s, key)
    ensures SortedBy(Insert(x, s, key), key)
    ensures multiset(Insert(x, s, key)) == multiset(s) + multiset{x}
  {
    if s == [] || key(x) <= key(s[0]) {
    } else {
      var head, tail := s[0], s[1..];
      assert s == [head] + tail;
      InsertSorts(x, tail, key);
      var r := Insert(x, tail, key);
      hide Insert;
      HeadIsLeast(x, s, key);
      AllAtLeast(r, s, x, key(head), key);
      SortedCons(head, r, key);
    }
  }

  lemma HeadIsLeast<T>(x: T, s: seq<T>, key: T -> real)
    requires s != [] && SortedBy(s, key)
    ensures forall k :: 0 <= k < |s| ==> key(s[0]) <= key(s[k])
  {
  }

  lemma AllAtLeast<T>(r: seq<T>, s: seq<T>, x: T, least: real, key: T -> real)
    requires s != [] && multiset(r) == multiset(s[1..]) + multiset{x}
    requires least <= key(x) && forall k :: 0 <= k < |s| ==> least <= key(s[k])
    ensures forall i :: 0 <= i < |r| ==> least <= key(r[i])
  {
    forall i | 0 <= i < |r| ensures least <= key(r[i]) {
      assert r[i] in multiset(r);
      if r[i] != x {
        assert r[i] in s[1..];
      }
    }
  }

  lemma {:induction false} StableSortSorts<T>(s: seq<T>, key: T -> real)
    ensures SortedBy(StableSort(s, key), key)
    ensures multiset(StableSort(s, key)) == multiset(s)
  {
    if s != [] {
      StableSortSorts(s[1..], key);
      InsertSorts(s[0], StableSort(s[1..], key), key);
      assert s == [s[0]] + s[1..];
    }
  }

  /** Keys that compare alike sort alike, ties included. */
  lemma {:induction false} SameOrderSortsAlike<T>(s: seq<T>, key1: T -> real, key2: T -> real)
    requires forall x, y :: x in s && y in s ==> (key1(x) <= key1(y) <==> key2(x) <= key2(y))
    ensures StableSort(s, key1) == StableSort(s, key2)
  {
    if s != [] {
      SameOrderSortsAlike(s[1..], key1, key2);
      var sorted := StableSort(s[1..], key1);
      StableSortSorts(s[1..], key1);
      forall y | y in sorted ensures key1(s[0]) <= key1(y) <==> key2(s[0]) <= key2(y) {
        assert y in multiset(s[1..]);
        assert y in s;
      }
      SameOrderInsertsAlike(s[0], sorted, key1, key2);
    }
  }

  lemma {:induction false} SameOrderInsertsAlike<T>(x: T, s: seq<T>, key1: T -> real, key2: T -> real)
    requires forall y :: y in s ==> (key1(x) <= key1(y) <==> key2(x) <= key2(y))
    ensures Insert(x, s, key1) == Insert(x, s, key2)
  {
    if s != [] {
      SameOrderInsertsAlike(x, s[1..], key1, key2);
    }
  }

  /** Elements selected by `p`, when they all share one key, keep their relative order. */
  lemma {:induction false} StableSortKeeps<T>(s: seq<T>, key: T -> real, p: T -> bool)
    requires forall x, y :: x in s && y in s && p(x) && p(y) ==> key(x) == key(y)
    ensures Filter(StableSort(s, key), p) == Filter(s, p)
  {
    if s != [] {
      StableSortKeeps(s[1..], key, p);
      StableSortSorts(s[1..], key);
      assert multiset(StableSort(s[1..], key)) == multiset(s[1..]);
      forall y | y in StableSort(s[1..], key) && p(y) && p(s[0]) ensures key(y) == key(s[0]) {
        assert y in multiset(s[1..]);
        assert y in s;
      }
      InsertKeeps(s[0], StableSort(s[1..], key), key, p);
    }
  }

  lemma {:induction false} InsertKeeps<T>(x: T, s: seq<T>, key: T -> real, p: T -> bool)
    requires forall y :: y in s && p(y) && p(x) ==> key(y) == key(x)
    ensures Filter(Insert(x, s, key), p) == (if p(x) then [x] else []) + Filter(s, p)
  {
    if s == [] || key(x) <= key(s[0]) {
      FilterCons(x, s, p);
    } else {
      var head, tail := s[0], s[1..];
      assert s == [head] + tail && head in s;
      InsertKeeps(x, tail, key, p);
      FilterCons(head, Insert(x, tail, key), p);
      FilterCons(head, tail, p);
      var rest := Filter(tail, p);
      if p(x) {
        assert !p(head);
        assert [] + ([x] + rest) == [x] + ([] + rest);
      } else {
        assert [] + rest == rest;
      }
    }
  }
}
