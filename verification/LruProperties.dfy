/**
  Properties of whole runs of the LRU tier: a smaller tier is always an order-preserving sublist of a larger
  one fed with the same operations, and a key survives exactly while few enough other keys are touched.
 */
module LruProperties {
  import opened Wrappers
  import opened Seqs
  import opened MemoryLru

  // ----- two runs that differ in max_size only -----

  ghost predicate Paired<V>(small: Lru<V>, large: Lru<V>) {
    && Valid(small) && Valid(large)
    && small.maxSize <= large.maxSize
    && Sublist(small.store, large.store)
    && |large.store| - |small.store| <= large.maxSize - small.maxSize
    && small.sets == large.sets
    && small.hits <= large.hits
    && small.hits + small.misses == large.hits + large.misses
  }

  /** The live entry that a get of k returns, if there is one. */
  function Live<V>(s: Lru<V>, k: Key, now: int): Option<Entry<V>> {
    var i := IndexOf(s.store, k);
    if i < |s.store| && !Expired(s.store[i], now) then Some(s.store[i]) else None
  }

  lemma SublistSameEntry<V>(small: seq<Entry<V>>, large: seq<Entry<V>>, k: Key)
    requires UniqueKeys(large) && Sublist(small, large)
    ensures Has(small, k) ==> Has(large, k) && large[IndexOf(large, k)] == small[IndexOf(small, k)]
  {
    if Has(small, k) {
      var e := small[IndexOf(small, k)];
      SublistMember(small, large);
      assert e in small && e in large;
      AbsentMeansNoEntry(large, k);
      var j :| 0 <= j < |large| && large[j] == e;
    }
  }

  lemma SublistTails<T>(a: seq<T>, b: seq<T>)
    requires Sublist(a, b) && a != [] && b != []
    ensures Sublist(a[1..], b[1..])
  {
    if a[0] != b[0] {
      SublistTail(a, b[1..]);
    }
  }

  /** Taking a key out of two paired lists leaves them paired. */
  lemma WithoutPaired<V>(a: seq<Entry<V>>, b: seq<Entry<V>>, k: Key)
    requires UniqueKeys(a) && UniqueKeys(b) && Sublist(a, b)
    ensures Sublist(Without(a, k), Without(b, k))
    ensures |Without(a, k)| == |a| - (if Has(a, k) then 1 else 0) && |Without(b, k)| == |b| - (if Has(b, k) then 1 else 0)
    ensures (!Has(a, k) ==> Without(a, k) == a) && (!Has(b, k) ==> Without(b, k) == b)
    ensures Has(a, k) ==> Has(b, k) && a[IndexOf(a, k)] == b[IndexOf(b, k)]
  {
    SublistSameEntry(a, b, k);
    SublistFilter(KeyIsNot(k), a, b);
    WithoutSplits(a, k);
    WithoutSplits(b, k);
  }

  lemma PairedGet<V>(small: Lru<V>, large: Lru<V>, k: Key, now: int)
    requires Paired(small, large)
    ensures Paired(GetStep(small, k, now).0, GetStep(large, k, now).0)
    ensures Live(small, k, now).Some? ==> Live(large, k, now) == Live(small, k, now)
  {
    ApplyKeepsValid(small, Op.Get(k), now);
    ApplyKeepsValid(large, Op.Get(k), now);
    WithoutPaired(small.store, large.store, k);
    if Has(large.store, k) {
      var e := large.store[IndexOf(large.store, k)];
      SublistAppend(Without(small.store, k), Without(large.store, k), e);
      SublistAppendRight(Without(small.store, k), Without(large.store, k), e);
    }
  }

  /** Making room keeps the two stores paired, with space for the new entry on both sides. */
  lemma PairedRoom<V>(small: Lru<V>, large: Lru<V>, k: Key)
    requires Paired(small, large) && small.maxSize > 0
    ensures Sublist(Room(small, k), Room(large, k))
    ensures |Room(large, k)| - |Room(small, k)| <= large.maxSize - small.maxSize
  {
    WithoutPaired(small.store, large.store, k);
    SublistMember(small.store, large.store);
    if Evicts(small, k) {
      if Evicts(large, k) {
        SublistTails(small.store, large.store);
      } else {
        SublistTail(small.store, Without(large.store, k));
      }
    }
  }

  lemma PairedSet<V>(small: Lru<V>, large: Lru<V>, k: Key, v: Option<V>, ttl: Option<int>, now: int)
    requires Paired(small, large)
    ensures Paired(SetStep(small, k, v, ttl, now).0, SetStep(large, k, v, ttl, now).0)
  {
    SetKeepsValid(small, k, v, ttl, now);
    SetKeepsValid(large, k, v, ttl, now);
    RoomIsUnique(small, k);
    RoomIsUnique(large, k);
    if small.maxSize > 0 {
      PairedRoom(small, large, k);
      var e := Entry(k, v, Deadline(now, ttl));
      SublistAppend(Room(small, k), Room(large, k), e);
      SublistFilter(NotDue(now), Room(small, k) + [e], Room(large, k) + [e]);
    }
  }

  /** One operation, given to both tiers, keeps them paired; a hit or a positive exists in the smaller is the same in the larger. */
  lemma PairedStep<V>(small: Lru<V>, large: Lru<V>, op: Op<V>, now: int)
    requires Paired(small, large)
    ensures Paired(Apply(small, op, now).0, Apply(large, op, now).0)
    ensures op.Get? && Live(small, op.key, now).Some? ==> Apply(small, op, now).1 == Apply(large, op, now).1
    ensures op.Exists? && Apply(small, op, now).1 == Answer(true) ==> Apply(large, op, now).1 == Answer(true)
  {
    match op
    case Get(k) => PairedGet(small, large, k, now);
    case Set(k, v, ttl) => PairedSet(small, large, k, v, ttl, now);
    case Delete(k) => PairedDelete(small, large, k, now);
    case Exists(k) => PairedExists(small, large, k, now);
    case Clear =>
  }

  lemma PairedDelete<V>(small: Lru<V>, large: Lru<V>, k: Key, now: int)
    requires Paired(small, large)
    ensures Paired(DeleteStep(small, k).0, DeleteStep(large, k).0)
  {
    ApplyKeepsValid(small, Op.Delete(k), now);
    ApplyKeepsValid(large, Op.Delete(k), now);
    WithoutPaired(small.store, large.store, k);
  }

  lemma PairedExists<V>(small: Lru<V>, large: Lru<V>, k: Key, now: int)
    requires Paired(small, large)
    ensures Paired(ExistsStep(small, k, now).0, ExistsStep(large, k, now).0)
    ensures ExistsStep(small, k, now).1 == Answer(true) ==> ExistsStep(large, k, now).1 == Answer(true)
  {
    ApplyKeepsValid(small, Op.Exists(k), now);
    ApplyKeepsValid(large, Op.Exists(k), now);
    WithoutPaired(small.store, large.store, k);
  }

  /** Capacity monotonicity: the pairing holds after every run, whatever the operations and the clock. */
  lemma {:induction false} CapacityMonotone<V>(small: Lru<V>, large: Lru<V>, ops: seq<Timed<V>>)
    requires Paired(small, large)
    ensures Paired(Run(small, ops), Run(large, ops))
    decreases |ops|
  {
    if ops != [] {
      PairedStep(small, large, ops[0].op, ops[0].now);
      CapacityMonotone(Apply(small, ops[0].op, ops[0].now).0, Apply(large, ops[0].op, ops[0].now).0, ops[1..]);
    }
  }

  /** From two empty tiers: every key the smaller run can still serve, the larger serves with the same value and expiry. */
  lemma SmallerHitIsLargerHit<V>(n: nat, m: nat, ops: seq<Timed<V>>, k: Key, now: int)
    requires n <= m
    ensures var small, large := Run(Empty<V>(n), ops), Run(Empty<V>(m), ops);
      && (Live(small, k, now).Some? ==>
            Live(large, k, now) == Live(small, k, now) && GetStep(large, k, now).1 == GetStep(small, k, now).1)
      && small.hits <= large.hits
      && |small.store| <= |large.store| <= |small.store| + (m - n)
  {
    var small, large := Empty<V>(n), Empty<V>(m);
    CapacityMonotone(small, large, ops);
    RunKeepsValid(small, ops);
    RunKeepsValid(large, ops);
    PairedGet(Run(small, ops), Run(large, ops), k, now);
    SublistMember(Run(small, ops).store, Run(large, ops).store);
  }

  // ----- retention -----

  /** e is in the store and every entry behind it has a key in touched. */
  ghost predicate KeptBefore<V>(store: seq<Entry<V>>, e: Entry<V>, touched: set<Key>) {
    exists i :: 0 <= i < |store| && store[i] == e && BehindIn(store, i, touched)
  }

  ghost predicate BehindIn<V>(store: seq<Entry<V>>, i: nat, touched: set<Key>) {
    forall j :: i < j < |store| ==> store[j].key in touched
  }

  /** The key an operation moves to the recent end: a key that is set, or that a get hits. */
  function Touches<V>(s: Lru<V>, op: Op<V>, now: int): set<Key> {
    match op
    case Set(k, _, _) => {k}
    case Get(k) => if Live(s, k, now).Some? then {k} else {}
    case _ => {}
  }

  /** The distinct keys touched along a run. */
  function Touched<V>(s: Lru<V>, ops: seq<Timed<V>>): set<Key>
    decreases |ops|
  {
    if ops == [] then {}
    else Touches(s, ops[0].op, ops[0].now) + Touched(Apply(s, ops[0].op, ops[0].now).0, ops[1..])
  }

  /** Operations that neither remove k nor give it a new value. */
  predicate Spares<V>(op: Op<V>, k: Key) {
    !op.Clear? && (op.Set? || op.Delete? ==> op.key != k)
  }

  lemma KeepThroughFilter<V>(p: Entry<V> -> bool, store: seq<Entry<V>>, e: Entry<V>, touched: set<Key>)
    requires KeptBefore(store, e, touched) && p(e)
    ensures KeptBefore(Filter(p, store), e, touched)
  {
    var i :| 0 <= i < |store| && store[i] == e && BehindIn(store, i, touched);
    var front, back := store[..i], store[i + 1..];
    SplitAt(store, i);
    FilterAround(p, front, e, back);
    FilterMember(p, back);
    forall x | x in back ensures x.key in touched {
      var b :| 0 <= b < |back| && back[b] == x;
      assert store[i + 1 + b] == x;
    }
    KeptInFrontOf(Filter(p, front), e, Filter(p, back), touched);
  }

  lemma KeptInFrontOf<V>(front: seq<Entry<V>>, e: Entry<V>, back: seq<Entry<V>>, touched: set<Key>)
    requires forall x :: x in back ==> x.key in touched
    ensures KeptBefore(front + [e] + back, e, touched)
  {
    var store := front + [e] + back;
    forall j | |front| < j < |store| ensures store[j].key in touched {
      assert store[j] == back[j - |front| - 1];
    }
    assert store[|front|] == e && BehindIn(store, |front|, touched);
  }

  lemma KeepThroughAppend<V>(store: seq<Entry<V>>, e: Entry<V>, touched: set<Key>, x: Entry<V>)
    requires KeptBefore(store, e, touched)
    ensures KeptBefore(store + [x], e, touched + {x.key})
  {
    var i :| 0 <= i < |store| && store[i] == e && BehindIn(store, i, touched);
    assert (store + [x])[i] == e && BehindIn(store + [x], i, touched + {x.key});
  }

  /** Distinct keys drawn from a set are no more than the set. */
  lemma BehindIsSmall<V>(store: seq<Entry<V>>, i: nat, touched: set<Key>, absent: Key)
    requires UniqueKeys(store) && i < |store| && BehindIn(store, i, touched)
    requires !Has(store, absent)
    ensures |store| - i - 1 <= |touched - {absent}|
  {
    var keys := seq(|store| - i - 1, j requires 0 <= j < |store| - i - 1 => store[i + 1 + j].key);
    forall a, b | 0 <= a < b < |keys| ensures keys[a] != keys[b] {}
    DistinctCardinality(keys);
    AbsentMeansNoEntry(store, absent);
    forall x | x in keys ensures x in touched - {absent} {
      var j :| 0 <= j < |keys| && keys[j] == x;
      assert store[i + 1 + j] in store;
    }
    SubsetCardinality((set x | x in keys), touched - {absent});
  }

  /** One operation keeps e while it is unexpired and at most max_size - 1 other keys have been touched. */
  lemma KeepStep<V>(s: Lru<V>, op: Op<V>, now: int, e: Entry<V>, touched: set<Key>)
    requires Valid(s) && KeptBefore(s.store, e, touched) && e.key !in touched
    requires Spares(op, e.key) && (e.expiry.Some? ==> now < e.expiry.value)
    requires |touched + Touches(s, op, now) - {e.key}| < s.maxSize
    ensures KeptBefore(Apply(s, op, now).0.store, e, touched + Touches(s, op, now) - {e.key})
  {
    assert touched + {} - {e.key} == touched;
    match op
    case Get(k) => KeepThroughGet(s, k, now, e, touched);
    case Set(k, v, ttl) =>
      assert touched + {k} - {e.key} == touched + {k};
      KeepThroughSet(s, k, v, ttl, now, e, touched);
    case Delete(k) => KeepThroughFilter(KeyIsNot(k), s.store, e, touched);
    case Exists(k) => KeepThroughExists(s, k, now, e, touched);
  }

  lemma KeepThroughGet<V>(s: Lru<V>, k: Key, now: int, e: Entry<V>, touched: set<Key>)
    requires Valid(s) && KeptBefore(s.store, e, touched) && e.key !in touched
    requires e.expiry.Some? ==> now < e.expiry.value
    ensures KeptBefore(GetStep(s, k, now).0.store, e, touched + Touches(s, Op.Get(k), now) - {e.key})
  {
    assert touched + {} - {e.key} == touched && touched + {e.key} - {e.key} == touched;
    if k == e.key {
      FindKept(s.store, e, touched);
      var moved := Without(s.store, k) + [e];
      assert moved[|moved| - 1] == e && BehindIn(moved, |moved| - 1, touched);
    } else {
      assert touched + {k} - {e.key} == touched + {k};
      KeepThroughFilter(KeyIsNot(k), s.store, e, touched);
      if Live(s, k, now).Some? {
        KeepThroughAppend(Without(s.store, k), e, touched, Live(s, k, now).value);
      }
    }
  }

  lemma KeepThroughExists<V>(s: Lru<V>, k: Key, now: int, e: Entry<V>, touched: set<Key>)
    requires Valid(s) && KeptBefore(s.store, e, touched)
    requires e.expiry.Some? ==> now < e.expiry.value
    ensures KeptBefore(ExistsStep(s, k, now).0.store, e, touched)
  {
    if k == e.key {
      FindKept(s.store, e, touched);
    } else {
      KeepThroughFilter(KeyIsNot(k), s.store, e, touched);
    }
  }

  lemma FindKept<V>(store: seq<Entry<V>>, e: Entry<V>, touched: set<Key>)
    requires UniqueKeys(store) && KeptBefore(store, e, touched)
    ensures Has(store, e.key) && store[IndexOf(store, e.key)] == e
  {
    var i :| 0 <= i < |store| && store[i] == e && BehindIn(store, i, touched);
    IndexOfUnique(store, i);
  }

  lemma IndexOfUnique<V>(store: seq<Entry<V>>, i: nat)
    requires UniqueKeys(store) && i < |store|
    ensures IndexOf(store, store[i].key) == i
  {
  }

  lemma KeepThroughSet<V>(s: Lru<V>, k: Key, v: Option<V>, ttl: Option<int>, now: int, e: Entry<V>, touched: set<Key>)
    requires Valid(s) && KeptBefore(s.store, e, touched) && k != e.key && e.key !in touched
    requires e.expiry.Some? ==> now < e.expiry.value
    requires |touched + {k}| < s.maxSize
    ensures KeptBefore(SetStep(s, k, v, ttl, now).0.store, e, touched + {k})
  {
    var i :| 0 <= i < |s.store| && s.store[i] == e && BehindIn(s.store, i, touched);
    if Evicts(s, k) {
      BehindIsSmall(s.store, i, touched, k);
      assert touched + {k} == (touched - {k}) + {k};
      assert i > 0;
      assert Room(s, k)[i - 1] == e && BehindIn(Room(s, k), i - 1, touched);
    } else {
      KeepThroughFilter(KeyIsNot(k), s.store, e, touched);
    }
    var x := Entry(k, v, Deadline(now, ttl));
    KeepThroughAppend(Room(s, k), e, touched, x);
    KeepThroughFilter(NotDue(now), Room(s, k) + [x], e, touched + {k});
  }

  /** The clock of a run never goes back. */
  ghost predicate Ordered<V>(ops: seq<Timed<V>>, end: int) {
    (forall i, j :: 0 <= i < j < |ops| ==> ops[i].now <= ops[j].now) && forall i :: 0 <= i < |ops| ==> ops[i].now <= end
  }

  lemma {:induction false} KeepThroughRun<V>(s: Lru<V>, ops: seq<Timed<V>>, end: int, e: Entry<V>, touched: set<Key>)
    requires Valid(s) && KeptBefore(s.store, e, touched) && e.key !in touched && Ordered(ops, end)
    requires forall i :: 0 <= i < |ops| ==> Spares(ops[i].op, e.key)
    requires e.expiry.Some? ==> end < e.expiry.value
    requires |touched + Touched(s, ops) - {e.key}| < s.maxSize
    ensures e in Run(s, ops).store
    decreases |ops|
  {
    if ops == [] {
    } else {
      var op, now := ops[0].op, ops[0].now;
      var next := Apply(s, op, now).0;
      var more := touched + Touches(s, op, now) - {e.key};
      SubsetCardinality(more, touched + Touched(s, ops) - {e.key});
      KeepStep(s, op, now, e, touched);
      ApplyKeepsValid(s, op, now);
      assert more + Touched(next, ops[1..]) - {e.key} == touched + Touched(s, ops) - {e.key};
      KeepThroughRun(next, ops[1..], end, e, more);
    }
  }

  /** The entry an operation leaves for the key it sets or hits. */
  function TouchedEntry<V>(s: Lru<V>, op: Op<V>, now: int): Entry<V>
    requires op.Set? || (op.Get? && Live(s, op.key, now).Some?)
  {
    if op.Set? then Entry(op.key, op.value, Deadline(now, op.ttl)) else Live(s, op.key, now).value
  }

  /** An operation that sets a key or hits it puts its live entry last. */
  lemma TouchPutsLast<V>(s: Lru<V>, op: Op<V>, now: int)
    requires Valid(s) && Touches(s, op, now) != {} && s.maxSize > 0
    requires op.Set? && op.ttl.Some? ==> op.ttl.value > 0
    ensures var after := Apply(s, op, now).0;
      after.store != [] && after.store[|after.store| - 1] == TouchedEntry(s, op, now)
    ensures TouchedEntry(s, op, now).key == op.key
  {
    if op.Set? {
      FilterConcat(NotDue(now), Room(s, op.key), [TouchedEntry(s, op, now)]);
      RoomIsUnique(s, op.key);
    }
  }

  /**
    LRU retention: a key that was set or hit is still served with that entry at any later time strictly before
    its expiry, if it was not deleted, cleared or overwritten since and fewer than max_size distinct other keys
    were set or hit since.
   */
  lemma Retention<V>(s: Lru<V>, op: Op<V>, now: int, ops: seq<Timed<V>>, end: int)
    requires Valid(s) && s.maxSize > 0 && Touches(s, op, now) != {} && Ordered(ops, end)
    requires op.Set? && op.ttl.Some? ==> op.ttl.value > 0 && end < now + op.ttl.value
    requires op.Get? && Live(s, op.key, now).value.expiry.Some? ==> end < Live(s, op.key, now).value.expiry.value
    requires forall i :: 0 <= i < |ops| ==> Spares(ops[i].op, op.key)
    requires |Touched(Apply(s, op, now).0, ops) - {op.key}| < s.maxSize
    ensures Live(Run(Apply(s, op, now).0, ops), op.key, end) == Some(TouchedEntry(s, op, now))
    ensures GetStep(Run(Apply(s, op, now).0, ops), op.key, end).1 == Found(TouchedEntry(s, op, now).value)
  {
    TouchedStaysBehind(s, op, now);
    LastIsServed(Apply(s, op, now).0, TouchedEntry(s, op, now), ops, end);
  }

  lemma TouchedStaysBehind<V>(s: Lru<V>, op: Op<V>, now: int)
    requires Valid(s) && s.maxSize > 0 && Touches(s, op, now) != {}
    requires op.Set? && op.ttl.Some? ==> op.ttl.value > 0
    ensures var after, e := Apply(s, op, now).0, TouchedEntry(s, op, now);
      && Valid(after) && after.maxSize == s.maxSize
      && after.store != [] && after.store[|after.store| - 1] == e && e.key == op.key
  {
    TouchPutsLast(s, op, now);
    ApplyKeepsValid(s, op, now);
  }

  lemma LastIsServed<V>(s: Lru<V>, e: Entry<V>, ops: seq<Timed<V>>, end: int)
    requires Valid(s) && s.store != [] && s.store[|s.store| - 1] == e && Ordered(ops, end)
    requires forall i :: 0 <= i < |ops| ==> Spares(ops[i].op, e.key)
    requires e.expiry.Some? ==> end < e.expiry.value
    requires |Touched(s, ops) - {e.key}| < s.maxSize
    ensures Live(Run(s, ops), e.key, end) == Some(e) && GetStep(Run(s, ops), e.key, end).1 == Found(e.value)
  {
    LastIsRetained(s, e, ops, end);
    LiveIsServed(Run(s, ops), e.key, end);
  }

  lemma LiveIsServed<V>(s: Lru<V>, k: Key, now: int)
    requires Live(s, k, now).Some?
    ensures GetStep(s, k, now).1 == Found(Live(s, k, now).value.value)
  {
  }

  lemma LastIsRetained<V>(s: Lru<V>, e: Entry<V>, ops: seq<Timed<V>>, end: int)
    requires Valid(s) && s.store != [] && s.store[|s.store| - 1] == e && Ordered(ops, end)
    requires forall i :: 0 <= i < |ops| ==> Spares(ops[i].op, e.key)
    requires e.expiry.Some? ==> end < e.expiry.value
    requires |Touched(s, ops) - {e.key}| < s.maxSize
    ensures Live(Run(s, ops), e.key, end) == Some(e)
  {
    assert BehindIn(s.store, |s.store| - 1, {});
    assert {} + Touched(s, ops) - {e.key} == Touched(s, ops) - {e.key};
    KeepThroughRun(s, ops, end, e, {});
    RunKeepsValid(s, ops);
    var i :| 0 <= i < |Run(s, ops).store| && Run(s, ops).store[i] == e;
    IndexOfUnique(Run(s, ops).store, i);
  }

  // ----- the retention bound is exact -----

  /** Plain sets of keys other than k. */
  ghost predicate PlainSets<V>(ops: seq<Timed<V>>, k: Key) {
    forall i :: 0 <= i < |ops| ==> ops[i].op.Set? && ops[i].op.ttl.None? && ops[i].op.key != k
  }

  ghost predicate Unexpiring<V>(back: seq<Entry<V>>, k: Key) {
    exists x :: x in back && x.key == k && x.expiry.None?
  }

  /** If k is still held, every key of later has an unexpiring entry behind k's. */
  ghost predicate AllBehind<V>(store: seq<Entry<V>>, k: Key, later: set<Key>) {
    Has(store, k) ==> forall t :: t in later ==> Unexpiring(store[IndexOf(store, k) + 1..], t)
  }

  lemma {:induction false} IndexOfConcat<V>(front: seq<Entry<V>>, e: Entry<V>, back: seq<Entry<V>>)
    requires !Has(front, e.key)
    ensures IndexOf(front + [e] + back, e.key) == |front|
  {
    if front != [] {
      assert (front + [e] + back)[1..] == front[1..] + [e] + back;
      IndexOfConcat(front[1..], e, back);
    }
  }

  /** Filtering that keeps the unexpiring entries of some keys keeps them behind k's entry, if it keeps that. */
  lemma FilterKeepsBehind<V>(p: Entry<V> -> bool, store: seq<Entry<V>>, k: Key, later: set<Key>)
    requires UniqueKeys(store) && AllBehind(store, k, later)
    requires forall x :: x in store && x.expiry.None? && x.key in later ==> p(x)
    ensures AllBehind(Filter(p, store), k, later)
  {
    LookupInFilter(p, store, k);
    if Has(Filter(p, store), k) {
      var i := IndexOf(store, k);
      SplitAt(store, i);
      FrontLacks(p, store, i);
      FilterAt(p, store[..i], store[i], store[i + 1..]);
      FilterKeepsUnexpiring(p, store[i + 1..], later);
    }
  }

  lemma SplitAt<V>(store: seq<Entry<V>>, i: nat)
    requires i < |store|
    ensures store == store[..i] + [store[i]] + store[i + 1..]
    ensures forall x :: x in store[i + 1..] ==> x in store
  {
  }

  lemma FilterKeepsUnexpiring<V>(p: Entry<V> -> bool, back: seq<Entry<V>>, later: set<Key>)
    requires forall t :: t in later ==> Unexpiring(back, t)
    requires forall x :: x in back && x.expiry.None? && x.key in later ==> p(x)
    ensures forall t :: t in later ==> Unexpiring(Filter(p, back), t)
  {
    FilterMember(p, back);
    forall t | t in later ensures Unexpiring(Filter(p, back), t) {
      var y :| y in back && y.key == t && y.expiry.None?;
    }
  }

  /** A key found after filtering was there before, in an entry that passes. */
  lemma LookupInFilter<V>(p: Entry<V> -> bool, store: seq<Entry<V>>, k: Key)
    requires UniqueKeys(store)
    ensures Has(Filter(p, store), k) ==> Has(store, k) && p(store[IndexOf(store, k)])
  {
    var kept := Filter(p, store);
    FilterMember(p, store);
    if Has(kept, k) {
      var x := kept[IndexOf(kept, k)];
      assert x in kept && x in store;
      var j :| 0 <= j < |store| && store[j] == x;
      IndexOfUnique(store, j);
    }
  }

  /** Filtering keeps an entry that passes between the filtered parts before and behind it. */
  lemma FilterAt<V>(p: Entry<V> -> bool, front: seq<Entry<V>>, e: Entry<V>, back: seq<Entry<V>>)
    requires p(e) && !Has(Filter(p, front), e.key)
    ensures var kept := Filter(p, front + [e] + back);
      Has(kept, e.key) && kept[IndexOf(kept, e.key) + 1..] == Filter(p, back)
  {
    FilterAround(p, front, e, back);
    IndexOfConcat(Filter(p, front), e, Filter(p, back));
    DropToBack(Filter(p, front), e, Filter(p, back));
  }

  lemma DropToBack<V>(front: seq<Entry<V>>, e: Entry<V>, back: seq<Entry<V>>)
    ensures (front + [e] + back)[|front| + 1..] == back
  {
  }

  lemma FilterAround<V>(p: Entry<V> -> bool, front: seq<Entry<V>>, e: Entry<V>, back: seq<Entry<V>>)
    requires p(e)
    ensures Filter(p, front + [e] + back) == Filter(p, front) + [e] + Filter(p, back)
  {
    FilterConcat(p, front + [e], back);
    FilterConcat(p, front, [e]);
  }

  lemma FrontLacks<V>(p: Entry<V> -> bool, store: seq<Entry<V>>, i: nat)
    requires UniqueKeys(store) && i < |store|
    ensures !Has(Filter(p, store[..i]), store[i].key)
  {
    FilterMember(p, store[..i]);
    AbsentMeansNoEntry(Filter(p, store[..i]), store[i].key);
  }

  lemma RoomKeepsBehind<V>(s: Lru<V>, k: Key, later: set<Key>, added: Key)
    requires Valid(s) && AllBehind(s.store, k, later) && added != k
    ensures AllBehind(Room(s, added), k, later - {added})
  {
    if Evicts(s, added) && s.store != [] {
      if Has(Room(s, added), k) {
        IndexOfUnique(s.store, IndexOf(Room(s, added), k) + 1);
        assert s.store[IndexOf(s.store, k) + 1..] == Room(s, added)[IndexOf(Room(s, added), k) + 1..];
      }
    } else {
      FilterKeepsBehind(KeyIsNot(added), s.store, k, later - {added});
    }
  }

  lemma AppendKeepsBehind<V>(store: seq<Entry<V>>, k: Key, later: set<Key>, x: Entry<V>)
    requires AllBehind(store, k, later) && x.key != k && x.expiry.None?
    ensures AllBehind(store + [x], k, later + {x.key})
  {
    AbsentMeansNoEntry(store, k);
    AbsentMeansNoEntry(store + [x], k);
    if Has(store + [x], k) {
      var i := IndexOf(store, k);
      assert store + [x] == store[..i] + [store[i]] + (store[i + 1..] + [x]);
      AbsentMeansNoEntry(store[..i], k);
      IndexOfConcat(store[..i], store[i], store[i + 1..] + [x]);
      assert (store + [x])[i + 1..] == store[i + 1..] + [x];
      forall t | t in later + {x.key} ensures Unexpiring(store[i + 1..] + [x], t) {
        if t == x.key {
          assert x in store[i + 1..] + [x];
        } else {
          var y :| y in store[i + 1..] && y.key == t && y.expiry.None?;
          assert y in store[i + 1..] + [x];
        }
      }
    }
  }

  lemma SetKeepsBehind<V>(s: Lru<V>, k: Key, later: set<Key>, added: Key, v: Option<V>, now: int)
    requires Valid(s) && s.maxSize > 0 && AllBehind(s.store, k, later) && added != k
    ensures AllBehind(SetStep(s, added, v, None, now).0.store, k, later + {added})
  {
    var x := Entry(added, v, None);
    RoomIsUnique(s, added);
    RoomKeepsBehind(s, k, later, added);
    AppendKeepsBehind(Room(s, added), k, later - {added}, x);
    assert later - {added} + {added} == later + {added};
    AppendUnique(Room(s, added), x);
    FilterKeepsBehind(NotDue(now), Room(s, added) + [x], k, later + {added});
  }

  function KeysOf<V>(ops: seq<Timed<V>>): set<Key> {
    set i | 0 <= i < |ops| && ops[i].op.Set? :: ops[i].op.key
  }

  lemma {:induction false} PlainSetsTouch<V>(s: Lru<V>, ops: seq<Timed<V>>, k: Key)
    requires Valid(s) && s.maxSize > 0 && PlainSets(ops, k)
    ensures Touched(s, ops) == KeysOf(ops)
    decreases |ops|
  {
    if ops != [] {
      ApplyKeepsValid(s, ops[0].op, ops[0].now);
      PlainSetsTouch(Apply(s, ops[0].op, ops[0].now).0, ops[1..], k);
      assert KeysOf(ops) == {ops[0].op.key} + KeysOf(ops[1..]) by {
        forall x | x in KeysOf(ops) ensures x == ops[0].op.key || x in KeysOf(ops[1..]) {
          var i :| 0 <= i < |ops| && ops[i].op.Set? && ops[i].op.key == x;
          assert i > 0 ==> ops[1..][i - 1] == ops[i];
        }
        forall x | x in KeysOf(ops[1..]) ensures x in KeysOf(ops) {
          var i :| 0 <= i < |ops[1..]| && ops[1..][i].op.Set? && ops[1..][i].op.key == x;
          assert ops[i + 1].op.key == x;
        }
      }
    }
  }

  lemma {:induction false} SetsPushOut<V>(s: Lru<V>, ops: seq<Timed<V>>, k: Key, later: set<Key>)
    requires Valid(s) && s.maxSize > 0 && PlainSets(ops, k) && AllBehind(s.store, k, later)
    ensures AllBehind(Run(s, ops).store, k, later + Touched(s, ops))
    decreases |ops|
  {
    if ops == [] {
      assert later + Touched(s, ops) == later;
    } else {
      var op, now := ops[0].op, ops[0].now;
      var next := Apply(s, op, now).0;
      ApplyKeepsValid(s, op, now);
      SetKeepsBehind(s, k, later, op.key, op.value, now);
      SetsPushOut(next, ops[1..], k, later + {op.key});
      assert later + {op.key} + Touched(next, ops[1..]) == later + Touched(s, ops);
    }
  }

  /** Keys with entries in a list are no more than the list. */
  lemma {:induction false} KeysInList<V>(back: seq<Entry<V>>, later: set<Key>)
    requires forall t :: t in later ==> Unexpiring(back, t)
    ensures |later| <= |back|
  {
    if back == [] {
      assert later == {};
    } else {
      var t0 := back[0].key;
      forall t | t in later - {t0} ensures Unexpiring(back[1..], t) {
        var x :| x in back && x.key == t && x.expiry.None?;
        assert x in back[1..];
      }
      KeysInList(back[1..], later - {t0});
      SubsetCardinality(later, later - {t0} + {t0});
    }
  }

  /** The retention bound is exact: under plain sets of other keys, a key just touched and never expiring is held if and only if fewer than max_size distinct keys were set. */
  lemma RetentionIsExact<V>(s: Lru<V>, e: Entry<V>, ops: seq<Timed<V>>, end: int)
    requires Valid(s) && s.store != [] && s.store[|s.store| - 1] == e && e.expiry.None? && Ordered(ops, end)
    requires PlainSets(ops, e.key)
    ensures Has(Run(s, ops).store, e.key) <==> |KeysOf(ops)| < s.maxSize
  {
    PlainSetsTouch(s, ops, e.key);
    RunKeepsValid(s, ops);
    if |KeysOf(ops)| < s.maxSize {
      SubsetCardinality(Touched(s, ops) - {e.key}, KeysOf(ops));
      LastIsRetained(s, e, ops, end);
    } else {
      IndexOfUnique(s.store, |s.store| - 1);
      SetsPushOut(s, ops, e.key, {});
      var store := Run(s, ops).store;
      assert {} + Touched(s, ops) == KeysOf(ops);
      if Has(store, e.key) {
        KeysInList(store[IndexOf(store, e.key) + 1..], KeysOf(ops));
      }
    }
  }

  // ----- counters and the purge -----

  /** How many gets of a run were hits. */
  function GetHits<V>(s: Lru<V>, ops: seq<Timed<V>>): nat
    decreases |ops|
  {
    if ops == [] then 0
    else
      (if ops[0].op.Get? && Live(s, ops[0].op.key, ops[0].now).Some? then 1 else 0)
      + GetHits(Apply(s, ops[0].op, ops[0].now).0, ops[1..])
  }

  function Gets<V>(ops: seq<Timed<V>>): nat {
    if ops == [] then 0 else (if ops[0].op.Get? then 1 else 0) + Gets(ops[1..])
  }

  function Sets<V>(ops: seq<Timed<V>>): nat {
    if ops == [] then 0 else (if ops[0].op.Set? then 1 else 0) + Sets(ops[1..])
  }

  /** The sets of a run that pushed another key out: a new key in a full tier. */
  function Evictions<V>(s: Lru<V>, ops: seq<Timed<V>>): nat
    decreases |ops|
  {
    if ops == [] then 0
    else
      (if ops[0].op.Set? && !Has(s.store, ops[0].op.key) && |s.store| >= s.maxSize > 0 then 1 else 0)
      + Evictions(Apply(s, ops[0].op, ops[0].now).0, ops[1..])
  }

  /** The counters say how many gets hit, how many missed, how many sets there were, and how many of them evicted. */
  lemma {:induction false} CountersCount<V>(s: Lru<V>, ops: seq<Timed<V>>)
    requires Valid(s)
    ensures var r := Run(s, ops);
      && r.hits == s.hits + GetHits(s, ops)
      && r.hits + r.misses == s.hits + s.misses + Gets(ops)
      && r.sets == s.sets + Sets(ops)
      && r.evictions == s.evictions + Evictions(s, ops)
    decreases |ops|
  {
    if ops != [] {
      ApplyKeepsValid(s, ops[0].op, ops[0].now);
      OneCount(s, ops[0].op, ops[0].now);
      CountersCount(Apply(s, ops[0].op, ops[0].now).0, ops[1..]);
    }
  }

  lemma OneCount<V>(s: Lru<V>, op: Op<V>, now: int)
    requires Valid(s)
    ensures var r := Apply(s, op, now).0;
      && r.maxSize == s.maxSize
      && r.hits == s.hits + (if op.Get? && Live(s, op.key, now).Some? then 1 else 0)
      && r.hits + r.misses == s.hits + s.misses + (if op.Get? then 1 else 0)
      && r.sets == s.sets + (if op.Set? then 1 else 0)
      && r.evictions == s.evictions + (if op.Set? && !Has(s.store, op.key) && |s.store| >= s.maxSize > 0 then 1 else 0)
  {
  }

  // ----- what one operation does and answers -----

  /** No entry has this key. */
  ghost predicate Absent<V>(store: seq<Entry<V>>, k: Key) {
    forall e :: e in store ==> e.key != k
  }

  /**
    A set that is not a hundredth one puts the new entry last and, before it, keeps in order every entry of
    another key, except that a new key in a full tier costs the oldest one.
   */
  lemma SetKeepsTheRest<V>(s: Lru<V>, k: Key, v: Option<V>, ttl: Option<int>, now: int)
    requires Valid(s) && s.maxSize > 0 && (s.sets + 1) % 100 != 0
    ensures var after, full := SetStep(s, k, v, ttl, now).0.store, Absent(s.store, k) && |s.store| == s.maxSize;
      && SetStep(s, k, v, ttl, now).1 == Answer(true)
      && after != [] && after[|after| - 1] == Entry(k, v, if ttl.None? then None else Some(now + ttl.value))
      && Sublist(after[..|after| - 1], s.store)
      && forall e :: e in after[..|after| - 1] <==> e in s.store && e.key != k && !(full && e == s.store[0])
  {
    var after, room := SetStep(s, k, v, ttl, now).0.store, Room(s, k);
    AbsentMeansNoEntry(s.store, k);
    assert after[..|after| - 1] == room;
    if Evicts(s, k) {
      assert s.store == [s.store[0]] + s.store[1..];
      SublistSelf(s.store[1..]);
      SublistLonger(s.store[1..], s.store[1..], s.store[0]);
      forall e ensures e in room <==> e in s.store && e.key != k && e != s.store[0] {
        if e in room {
          var i :| 0 <= i < |room| && room[i] == e;
          assert s.store[i + 1] == e && s.store[0].key != s.store[i + 1].key;
        }
      }
    } else {
      FilterMember(KeyIsNot(k), s.store);
      FilterIsSublist(KeyIsNot(k), s.store);
    }
  }

  lemma {:induction false} SublistSelf<T>(s: seq<T>)
    ensures Sublist(s, s)
  {
    if s != [] {
      SublistSelf(s[1..]);
    }
  }

  /**
    delete answers whether the key was there and removes its entry only; exists answers what a get would find and
    removes at most an expired entry of that key; clear empties the tier, answers how many entries it had, and
    nothing is found afterwards.
   */
  lemma RepliesTellTheStore<V>(s: Lru<V>, k: Key, now: int, later: int)
    requires Valid(s)
    ensures var (after, reply) := Apply(s, Op.Delete(k), now);
      && reply == Answer(!Absent(s.store, k)) && Sublist(after.store, s.store)
      && forall e :: e in after.store <==> e in s.store && e.key != k
    ensures var (after, reply) := Apply(s, Op.Exists(k), now);
      && reply == Answer(Live(s, k, now).Some?) && Sublist(after.store, s.store)
      && forall e :: e in after.store <==> e in s.store && !(e.key == k && e.expiry.Some? && e.expiry.value < now)
    ensures var (after, reply) := Apply(s, Op<V>.Clear, now);
      && reply == Count(|s.store|) && after.store == [] && Apply(after, Op.Get(k), later).1 == Found(None)
  {
    AbsentMeansNoEntry(s.store, k);
    FilterMember(KeyIsNot(k), s.store);
    FilterIsSublist(KeyIsNot(k), s.store);
    SublistSelf(s.store);
    if Has(s.store, k) {
      forall e | e in s.store && e.key == k ensures e == s.store[IndexOf(s.store, k)] {
        var i :| 0 <= i < |s.store| && s.store[i] == e;
      }
    }
  }

  /** Every hundredth set leaves no entry that is due, and costs no other entry its place. */
  lemma HundredthSetPurges<V>(s: Lru<V>, k: Key, v: Option<V>, ttl: Option<int>, now: int)
    requires s.maxSize > 0 && |s.store| <= s.maxSize && (s.sets + 1) % 100 == 0
    ensures var full, after := Room(s, k) + [Entry(k, v, Deadline(now, ttl))], SetStep(s, k, v, ttl, now).0.store;
      && Sublist(after, full)
      && forall e :: e in after <==> e in full && (e.expiry.None? || now < e.expiry.value)
  {
    var full := Room(s, k) + [Entry(k, v, Deadline(now, ttl))];
    FilterMember(NotDue(now), full);
    FilterIsSublist(NotDue(now), full);
  }

  lemma {:induction false} FilterIsSublist<T>(p: T -> bool, s: seq<T>)
    ensures Sublist(Filter(p, s), s)
  {
    if s != [] {
      FilterIsSublist(p, s[1..]);
      if !p(s[0]) {
        SublistLonger(Filter(p, s[1..]), s[1..], s[0]);
        assert [s[0]] + s[1..] == s;
      }
    }
  }
}
