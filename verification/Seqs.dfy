/** Sequence facts shared by the engines: filtering, order-preserving sublists, distinctness and a stable sort. */
module Seqs {

  // ----- filtering -----

  function Filter<T>(p: T -> bool, s: seq<T>): (r: seq<T>)
    ensures |r| <= |s|
  {
    if s == [] then []
    else if p(s[0]) then [s[0]] + Filter(p, s[1..])
    else Filter(p, s[1..])
  }

  lemma {:induction false} FilterMember<T>(p: T -> bool, s: seq<T>)
    ensures forall x :: x in Filter(p, s) ==> x in s && p(x)
    ensures forall x :: x in s && p(x) ==> x in Filter(p, s)
  {
    if s != [] {
      FilterMember(p, s[1..]);
      assert forall x :: x in s <==> x == s[0] || x in s[1..];
    }
  }

  /** Two tests that agree on the elements keep the same elements. */
  lemma {:induction false} FilterAgrees<T>(p: T -> bool, q: T -> bool, s: seq<T>)
    requires forall x :: x in s ==> (p(x) <==> q(x))
    ensures Filter(p, s) == Filter(q, s)
  {
    if s != [] {
      FilterAgrees(p, q, s[1..]);
    }
  }

  /** Filtering twice keeps what both tests accept. */
  lemma {:induction false} FilterTwice<T>(p: T -> bool, q: T -> bool, both: T -> bool, s: seq<T>)
    requires forall x :: both(x) <==> p(x) && q(x)
    ensures Filter(q, Filter(p, s)) == Filter(both, s)
  {
    if s != [] {
      FilterTwice(p, q, both, s[1..]);
      if p(s[0]) {
        assert Filter(p, s)[1..] == Filter(p, s[1..]);
      }
    }
  }

  lemma {:induction false} FilterConcat<T>(p: T -> bool, a: seq<T>, b: seq<T>)
    ensures Filter(p, a + b) == Filter(p, a) + Filter(p, b)
  {
    if a == [] {
      assert a + b == b;
    } else {
      assert (a + b)[1..] == a[1..] + b;
      FilterConcat(p, a[1..], b);
    }
  }

  lemma {:induction false} FilterAll<T>(p: T -> bool, s: seq<T>)
    requires forall x :: x in s ==> p(x)
    ensures Filter(p, s) == s
  {
    if s != [] {
      FilterAll(p, s[1..]);
    }
  }

  lemma {:induction false} FilterNone<T>(p: T -> bool, s: seq<T>)
    requires forall x :: x in s ==> !p(x)
    ensures Filter(p, s) == []
  {
    if s != [] {
      FilterNone(p, s[1..]);
    }
  }

  // ----- order-preserving sublists -----

  /** a is obtained from b by deleting elements. */
  ghost predicate Sublist<T>(a: seq<T>, b: seq<T>)
    decreases |b|
  {
    if a == [] then true
    else if b == [] then false
    else if a[0] == b[0] then Sublist(a[1..], b[1..])
    else Sublist(a, b[1..])
  }

  lemma {:induction false} SublistMember<T>(a: seq<T>, b: seq<T>)
    requires Sublist(a, b)
    ensures |a| <= |b|
    ensures forall x :: x in a ==> x in b
    decreases |b|
  {
    if a != [] {
      if a[0] == b[0] {
        SublistMember(a[1..], b[1..]);
        assert forall x :: x in a ==> x == a[0] || x in a[1..];
      } else {
        SublistMember(a, b[1..]);
      }
    }
  }

  lemma {:induction false} SublistTail<T>(a: seq<T>, b: seq<T>)
    requires Sublist(a, b) && a != []
    ensures Sublist(a[1..], b)
    decreases |b|, 0
  {
    if a[0] == b[0] {
      SublistLonger(a[1..], b[1..], b[0]);
      assert [b[0]] + b[1..] == b;
    } else {
      SublistTail(a, b[1..]);
      SublistLonger(a[1..], b[1..], b[0]);
      assert [b[0]] + b[1..] == b;
    }
  }

  lemma {:induction false} SublistLonger<T>(a: seq<T>, b: seq<T>, y: T)
    requires Sublist(a, b)
    ensures Sublist(a, [y] + b)
    decreases |b|, 1
  {
    assert ([y] + b)[1..] == b;
    if a != [] && a[0] == y {
      SublistTail(a, b);
    }
  }

  lemma {:induction false} SublistAppend<T>(a: seq<T>, b: seq<T>, x: T)
    requires Sublist(a, b)
    ensures Sublist(a + [x], b + [x])
    decreases |b|
  {
    if a == [] {
      SublistLast(b, x);
      assert a + [x] == [x];
    } else if a[0] == b[0] {
      SublistAppend(a[1..], b[1..], x);
      assert (a + [x])[1..] == a[1..] + [x] && (b + [x])[1..] == b[1..] + [x];
    } else {
      SublistAppend(a, b[1..], x);
      assert (b + [x])[1..] == b[1..] + [x];
    }
  }

  lemma {:induction false} SublistAppendRight<T>(a: seq<T>, b: seq<T>, x: T)
    requires Sublist(a, b)
    ensures Sublist(a, b + [x])
    decreases |b|
  {
    if a != [] {
      assert (b + [x])[1..] == b[1..] + [x];
      if a[0] == b[0] {
        SublistAppendRight(a[1..], b[1..], x);
      } else {
        SublistAppendRight(a, b[1..], x);
      }
    }
  }

  lemma {:induction false} SublistLast<T>(b: seq<T>, x: T)
    ensures Sublist([x], b + [x])
  {
    if b != [] {
      SublistLast(b[1..], x);
      assert (b + [x])[1..] == b[1..] + [x];
    }
  }

  /** Filtering keeps sublists, and removes no more from the shorter side than from the longer. */
  lemma {:induction false} SublistFilter<T>(p: T -> bool, a: seq<T>, b: seq<T>)
    requires Sublist(a, b)
    ensures Sublist(Filter(p, a), Filter(p, b))
    ensures |a| - |Filter(p, a)| <= |b| - |Filter(p, b)|
    decreases |b|
  {
    if a == [] {
    } else if a[0] == b[0] {
      SublistFilter(p, a[1..], b[1..]);
      if p(a[0]) {
        assert Filter(p, a)[1..] == Filter(p, a[1..]);
        assert Filter(p, b)[1..] == Filter(p, b[1..]);
      }
    } else {
      SublistFilter(p, a, b[1..]);
      if p(b[0]) {
        SublistLonger(Filter(p, a), Filter(p, b[1..]), b[0]);
      }
    }
  }

  // ----- distinct elements -----

  ghost predicate Distinct<T>(s: seq<T>) {
    forall i, j :: 0 <= i < j < |s| ==> s[i] != s[j]
  }

  lemma {:induction false} DistinctCardinality<T>(s: seq<T>)
    requires Distinct(s)
    ensures |set x | x in s| == |s|
  {
    if s == [] {
      assert (set x | x in s) == {};
    } else {
      DistinctCardinality(s[1..]);
      assert (set x | x in s) == {s[0]} + set x | x in s[1..];
    }
  }

  lemma {:induction false} SubsetCardinality<T>(a: set<T>, b: set<T>)
    requires a <= b
    ensures |a| <= |b|
  {
    if a != {} {
      var x :| x in a;
      SubsetCardinality(a - {x}, b - {x});
    }
  }

  // ----- a stable sort by key -----

  /** Places x before the first element whose key is not smaller. */
  function Insert<T>(key: T -> int, x: T, s: seq<T>): seq<T> {
    if s == [] || key(x) <= key(s[0]) then [x] + s else [s[0]] + Insert(key, x, s[1..])
  }

  /** Python's sorted(s, key=key): ascending and stable. With a negated key it is sorted(..., reverse=True). */
  function StableSort<T>(key: T -> int, s: seq<T>): seq<T> {
    if s == [] then [] else Insert(key, s[0], StableSort(key, s[1..]))
  }

  ghost predicate SortedBy<T>(key: T -> int, s: seq<T>) {
    forall i, j :: 0 <= i < j < |s| ==> key(s[i]) <= key(s[j])
  }

  lemma {:induction false} InsertPermutes<T>(key: T -> int, x: T, s: seq<T>)
    ensures multiset(Insert(key, x, s)) == multiset{x} + multiset(s)
  {
    if s == [] || key(x) <= key(s[0]) {
    } else {
      InsertPermutes(key, x, s[1..]);
      assert s == [s[0]] + s[1..];
    }
  }

  lemma {:induction false} InsertSorts<T>(key: T -> int, x: T, s: seq<T>)
    requires SortedBy(key, s)
    ensures SortedBy(key, Insert(key, x, s))
  {
    if s == [] || key(x) <= key(s[0]) {
    } else {
      var rest := Insert(key, x, s[1..]);
      InsertSorts(key, x, s[1..]);
      InsertPermutes(key, x, s[1..]);
      forall j | 0 <= j < |rest| ensures key(s[0]) <= key(rest[j]) {
        assert rest[j] in multiset(rest);
        assert rest[j] == x || rest[j] in s[1..];
      }
    }
  }

  /** The sort is a permutation in ascending key order. */
  lemma {:induction false} StableSortSorts<T>(key: T -> int, s: seq<T>)
    ensures SortedBy(key, StableSort(key, s))
    ensures multiset(StableSort(key, s)) == multiset(s)
  {
    if s != [] {
      StableSortSorts(key, s[1..]);
      InsertSorts(key, s[0], StableSort(key, s[1..]));
      InsertPermutes(key, s[0], StableSort(key, s[1..]));
      assert s == [s[0]] + s[1..];
    }
  }

  function KeyIs<T>(key: T -> int, v: int): T -> bool {
    (x: T) => key(x) == v
  }

  lemma {:induction false} InsertIsStable<T>(key: T -> int, x: T, s: seq<T>, v: int)
    ensures Filter(KeyIs(key, v), Insert(key, x, s)) == Filter(KeyIs(key, v), [x] + s)
  {
    if s == [] || key(x) <= key(s[0]) {
    } else {
      InsertIsStable(key, x, s[1..], v);
      var rest := Insert(key, x, s[1..]);
      assert ([s[0]] + rest)[1..] == rest && ([x] + s)[1..] == s && ([x] + s[1..])[1..] == s[1..];
    }
  }

  /** Elements with equal keys keep their order. */
  lemma {:induction false} StableSortIsStable<T>(key: T -> int, s: seq<T>, v: int)
    ensures Filter(KeyIs(key, v), StableSort(key, s)) == Filter(KeyIs(key, v), s)
  {
    if s != [] {
      StableSortIsStable(key, s[1..], v);
      InsertIsStable(key, s[0], StableSort(key, s[1..]), v);
      assert ([s[0]] + StableSort(key, s[1..]))[1..] == StableSort(key, s[1..]);
    }
  }
}
