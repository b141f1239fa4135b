/**
  What a reader of the tiered cache may rely on: how stale a value can be, and when the tiers together are
  just a map. Everything is derived from what one tier operation does to the copies a tier holds.
 */
module CompositeProperties {
  import opened Integers
  import opened Wrappers
  import opened Seqs
  import opened MemoryLru
  import opened LruProperties
  import opened CompositeCache

  /** A readable copy of a value in a tier, and the last time at which the tier serves it (None: for ever). */
  datatype Copy<+V> = Copy(value: Option<V>, until: Option<int>)

  function Lookup<V>(store: seq<Entry<V>>, k: Key): Option<Entry<V>> {
    var i := IndexOf(store, k);
    if i < |store| then Some(store[i]) else None
  }

  function CopyOf<V>(t: Tier<V>, k: Key): Option<Copy<V>> {
    match t
    case Memory(lru) =>
      var e := Lookup(lru.store, k);
      if e.Some? then Some(Copy(e.value.value, e.value.expiry)) else None
    case Disk(ttl, files) =>
      if k in files && files[k].Pickled? then Some(Copy(files[k].value, Deadline(files[k].mtime, ttl))) else None
  }

  predicate Serves<V>(c: Option<Copy<V>>, now: int) {
    c.Some? && (c.value.until.Some? ==> now <= c.value.until.value)
  }

  ghost predicate SameOrGone<V>(after: Tier<V>, before: Tier<V>, k: Key) {
    CopyOf(after, k) == CopyOf(before, k) || CopyOf(after, k).None?
  }

  // ----- lookups in the LRU store -----

  lemma LookupAt<V>(store: seq<Entry<V>>, i: nat)
    requires UniqueKeys(store) && i < |store|
    ensures Lookup(store, store[i].key) == Some(store[i])
  {
  }

  lemma LookupFilter<V>(p: Entry<V> -> bool, store: seq<Entry<V>>, k: Key)
    requires UniqueKeys(store)
    ensures var e := Lookup(store, k);
      Lookup(Filter(p, store), k) == if e.Some? && p(e.value) then e else None
  {
    FilterMember(p, store);
    FilterUnique(p, store);
    var kept := Filter(p, store);
    if Has(kept, k) {
      var x := kept[IndexOf(kept, k)];
      assert x in kept && x in store;
      var i :| 0 <= i < |store| && store[i] == x;
      LookupAt(store, i);
    } else if Has(store, k) && p(store[IndexOf(store, k)]) {
      var x := store[IndexOf(store, k)];
      assert x in store && x in kept;
      AbsentMeansNoEntry(kept, k);
    }
  }

  lemma {:induction false} LookupAppend<V>(store: seq<Entry<V>>, x: Entry<V>, k: Key)
    requires !Has(store, x.key)
    ensures Lookup(store + [x], k) == if k == x.key then Some(x) else Lookup(store, k)
  {
    if store == [] {
      assert [] + [x] == [x];
    } else {
      assert (store + [x])[1..] == store[1..] + [x];
      if store[0].key != k {
        LookupAppend(store[1..], x, k);
      }
    }
  }

  // ----- one tier operation -----

  /** The tier serves its copy and nothing raises while it is read. */
  predicate Readable<V>(t: Tier<V>, k: Key, now: int, misreads: bool) {
    Serves(CopyOf(t, k), now) && (t.Memory? || !misreads)
  }

  /** A get answers with the tier's copy while it is served and readable, and changes no other copy. */
  lemma TierGetFacts<V>(t: Tier<V>, k: Key, now: int, misreads: bool, other: Key)
    requires TierValid(t)
    ensures TierValid(TierGet(t, k, now, misreads).0)
    ensures TierGet(t, k, now, misreads).1 == if Readable(t, k, now, misreads) then CopyOf(t, k).value.value else None
    ensures CopyOf(TierGet(t, k, now, misreads).0, other)
         == if other != k || Serves(CopyOf(t, k), now) || (t.Disk? && misreads) then CopyOf(t, other) else None
  {
    if t.Memory? {
      var store := t.lru.store;
      ApplyKeepsValid(t.lru, MemoryLru.Op.Get(k), now);
      LookupFilter(KeyIsNot(k), store, other);
      LookupFilter(KeyIsNot(k), store, k);
      if Has(store, k) {
        LookupAppend(Without(store, k), store[IndexOf(store, k)], other);
      }
    }
  }

  /** After a set of k the tier holds the new value, or what it held before, or nothing, under k; elsewhere it can only lose copies. */
  lemma TierSetFacts<V>(t: Tier<V>, k: Key, v: Option<V>, ttl: Option<int>, now: int, fault: Fault, other: Key)
    requires TierValid(t)
    ensures var after := TierSet(t, k, v, ttl, now, fault).0;
      && TierValid(after)
      && (other != k ==> SameOrGone(after, t, other))
      && (CopyOf(after, k) == Some(Copy(v, Deadline(now, if t.Disk? then t.ttl else ttl)))
          || (SameOrGone(after, t, k) && (t.Memory? || !fault.OpenFails? ==> CopyOf(after, k).None?)))
  {
    if t.Memory? {
      SetKeepsValid(t.lru, k, v, ttl, now);
      LruSetFacts(t.lru, k, v, ttl, now, other);
      LruSetFacts(t.lru, k, v, ttl, now, k);
    }
  }

  lemma LruSetFacts<V>(s: Lru<V>, k: Key, v: Option<V>, ttl: Option<int>, now: int, other: Key)
    requires Valid(s)
    ensures var after, x := SetStep(s, k, v, ttl, now).0.store, Entry(k, v, Deadline(now, ttl));
      || Lookup(after, other).None?
      || Lookup(after, other) == if other == k then Some(x) else Lookup(s.store, other)
  {
    RoomIsUnique(s, k);
    if Evicts(s, k) && s.store == [] {
    } else {
      var x := Entry(k, v, Deadline(now, ttl));
      if other != k {
        RoomKeepsCopies(s, k, other);
      }
      AbsentMeansNoEntry(Room(s, k), k);
      AppendUnique(Room(s, k), x);
      LookupAppend(Room(s, k), x, other);
      LookupFilter(NotDue(now), Room(s, k) + [x], other);
    }
  }

  lemma RoomKeepsCopies<V>(s: Lru<V>, k: Key, other: Key)
    requires Valid(s) && other != k
    ensures Lookup(Room(s, k), other) == Lookup(s.store, other) || Lookup(Room(s, k), other).None?
  {
    if Evicts(s, k) && s.store != [] {
      var room := s.store[1..];
      if Has(room, other) {
        LookupAt(s.store, IndexOf(room, other) + 1);
      }
    } else {
      LookupFilter(KeyIsNot(k), s.store, other);
    }
  }

  /** A delete removes the copy unless the tier fails, and touches nothing else. */
  lemma TierDeleteFacts<V>(t: Tier<V>, k: Key, fails: bool, other: Key)
    requires TierValid(t)
    ensures var after := TierDelete(t, k, fails).0;
      && TierValid(after)
      && CopyOf(after, other) == if other != k || (t.Disk? && fails) then CopyOf(t, other) else None
  {
    if t.Memory? {
      ApplyKeepsValid(t.lru, MemoryLru.Op.Delete(k), 0);
      LookupFilter(KeyIsNot(k), t.lru.store, other);
    }
  }

  ghost predicate CacheValid<V>(c: Cache<V>) {
    forall i :: 0 <= i < |c.tiers| ==> TierValid(c.tiers[i])
  }

  /** A composite get keeps every copy or drops it, except that tiers above the hit may now hold the value returned. */
  lemma TierAfterGetFacts<V>(c: Cache<V>, k: Key, now: int, faults: nat -> GetFault, j: nat, other: Key)
    requires CacheValid(c) && j < |c.tiers|
    ensures var h := FirstHit(c.tiers, k, now, faults, 0);
      var after := TierAfterGet(c, k, now, faults, j);
      && TierValid(after)
      && (SameOrGone(after, c.tiers[j], other)
          || (other == k && j < h < |c.tiers| && Serves(CopyOf(c.tiers[h], k), now)
              && CopyOf(after, k) == Some(Copy(CopyOf(c.tiers[h], k).value.value,
                                               Deadline(now, if after.Disk? then after.ttl else c.defaultTtl)))))
  {
    var h := FirstHit(c.tiers, k, now, faults, 0);
    TierGetFacts(c.tiers[j], k, now, faults(j).misreads, other);
    if j < h < |c.tiers| {
      TierGetFacts(c.tiers[h], k, now, faults(h).misreads, k);
      TierSetFacts(TierGet(c.tiers[j], k, now, faults(j).misreads).0, k, TierGet(c.tiers[h], k, now, faults(h).misreads).1, c.defaultTtl, now, faults(j).write, other);
    }
  }

  lemma StepKeepsValid<V>(c: Cache<V>, op: CacheOp<V>, now: int)
    requires CacheValid(c)
    ensures CacheValid(CacheApply(c, op, now)) && |CacheApply(c, op, now).tiers| == |c.tiers|
  {
    forall j | 0 <= j < |c.tiers| ensures TierValid(CacheApply(c, op, now).tiers[j]) {
      match op
      case Get(k, faults) => TierAfterGetFacts(c, k, now, faults, j, k);
      case Set(k, v, ttl, faults) => TierSetFacts(c.tiers[j], k, v, Effective(ttl, c.defaultTtl), now, faults(j), k);
      case Delete(k, fails) => TierDeleteFacts(c.tiers[j], k, fails(j), k);
    }
  }

  // ----- staleness -----

  /** A value labelled with the time of the set that wrote it and the TTL in force for that set. */
  datatype Stamped<+P> = Stamped(payload: P, written: int, ttl: int)

  /** The greatest age at which a value given this TTL can be read from a composite of n tiers. */
  function GreatestAge(ttl: int, longest: int, n: int): int {
    Max(ttl, longest) + (n - 1) * Max(longest, 0)
  }

  /** The labels are true: each set writes a value stamped with its own time and effective TTL. */
  ghost predicate Labelled<P>(op: CacheOp<Stamped<P>>, now: int, default: Option<int>) {
    op.Set? && op.value.Some? ==>
      && op.value.value.written == now
      && Some(op.value.value.ttl) == if op.ttl.None? || op.ttl.value == 0 then default else op.ttl
  }

  /** The latest time at which tier i of n may serve v, when no TTL that the cache itself adds exceeds longest. */
  function Latest<P>(v: Stamped<P>, i: nat, n: nat, longest: int): int {
    v.written + Max(v.ttl, longest) + (n - 1 - i) * Max(longest, 0)
  }

  ghost predicate CopyInTime<P>(c: Option<Copy<Stamped<P>>>, i: nat, n: nat, longest: int) {
    c.Some? && c.value.value.Some? ==>
      c.value.until.Some? && c.value.until.value <= Latest(c.value.value.value, i, n, longest)
  }

  ghost predicate InTime<P(!new)>(c: Cache<Stamped<P>>, longest: int) {
    forall i: nat, k :: i < |c.tiers| ==> CopyInTime(CopyOf(c.tiers[i], k), i, |c.tiers|, longest)
  }

  /** longest bounds the composite's default TTL and every disk tier's own TTL. */
  ghost predicate TtlsWithin<V>(c: Cache<V>, longest: int) {
    && c.defaultTtl.Some? && c.defaultTtl.value <= longest
    && forall i :: 0 <= i < |c.tiers| && c.tiers[i].Disk? ==> c.tiers[i].ttl.Some? && c.tiers[i].ttl.value <= longest
  }

  /** Promotion from tier h to a tier j above it: a fresh TTL added at a time when h still served the value stays within j's limit. */
  lemma PromotionInTime<P>(v: Stamped<P>, h: nat, j: nat, n: nat, now: int, ttl: int, longest: int)
    requires j < h < n && now <= Latest(v, h, n, longest) && ttl <= longest
    ensures now + ttl <= Latest(v, j, n, longest)
  {
    var m := Max(longest, 0);
    MulAtLeast(n - h, n - 1 - j, m);
    assert (n - h) * m == (n - 1 - h) * m + m;
  }

  lemma GetInTime<P(!new)>(c: Cache<Stamped<P>>, k: Key, now: int, faults: nat -> GetFault, longest: int)
    requires CacheValid(c) && InTime(c, longest) && TtlsWithin(c, longest)
    ensures var after := CacheGet(c, k, now, faults).0;
      CacheValid(after) && InTime(after, longest) && TtlsWithin(after, longest)
  {
    var after := CacheGet(c, k, now, faults).0;
    StepKeepsValid(c, CacheOp.Get(k, faults), now);
    forall j: nat, other | j < |c.tiers|
      ensures CopyInTime(CopyOf(after.tiers[j], other), j, |c.tiers|, longest)
    {
      PromotedCopyInTime(c, k, now, faults, longest, j, other);
    }
  }

  lemma PromotedCopyInTime<P(!new)>(c: Cache<Stamped<P>>, k: Key, now: int, faults: nat -> GetFault, longest: int, j: nat, other: Key)
    requires CacheValid(c) && InTime(c, longest) && TtlsWithin(c, longest) && j < |c.tiers|
    ensures CopyInTime(CopyOf(TierAfterGet(c, k, now, faults, j), other), j, |c.tiers|, longest)
  {
    var h, after := FirstHit(c.tiers, k, now, faults, 0), TierAfterGet(c, k, now, faults, j);
    TierAfterGetFacts(c, k, now, faults, j, other);
    assert CopyInTime(CopyOf(c.tiers[j], other), j, |c.tiers|, longest);
    if !SameOrGone(after, c.tiers[j], other) {
      var source := CopyOf(c.tiers[h], k);
      assert CopyInTime(source, h, |c.tiers|, longest);
      if source.value.value.Some? {
        var ttl := if after.Disk? then after.ttl else c.defaultTtl;
        PromotionInTime(source.value.value.value, h, j, |c.tiers|, now, ttl.value, longest);
      }
    }
  }

  lemma SetInTime<P(!new)>(c: Cache<Stamped<P>>, k: Key, v: Option<Stamped<P>>, ttl: Option<int>, now: int, faults: nat -> Fault, longest: int)
    requires CacheValid(c) && InTime(c, longest) && TtlsWithin(c, longest)
    requires Labelled(CacheOp.Set(k, v, ttl, faults), now, c.defaultTtl)
    ensures var after := CacheSet(c, k, v, ttl, now, faults).0;
      CacheValid(after) && InTime(after, longest) && TtlsWithin(after, longest)
  {
    var after := CacheSet(c, k, v, ttl, now, faults).0;
    StepKeepsValid(c, CacheOp.Set(k, v, ttl, faults), now);
    forall j: nat, other | j < |c.tiers|
      ensures CopyInTime(CopyOf(after.tiers[j], other), j, |c.tiers|, longest)
    {
      WrittenCopyInTime(c, k, v, ttl, now, faults(j), longest, j, other);
    }
  }

  lemma WrittenCopyInTime<P(!new)>(
      c: Cache<Stamped<P>>, k: Key, v: Option<Stamped<P>>, ttl: Option<int>, now: int, fault: Fault, longest: int, j: nat, other: Key)
    requires CacheValid(c) && InTime(c, longest) && TtlsWithin(c, longest) && j < |c.tiers|
    requires Labelled(CacheOp.Set(k, v, ttl, _ => fault), now, c.defaultTtl)
    ensures CopyInTime(CopyOf(TierSet(c.tiers[j], k, v, Effective(ttl, c.defaultTtl), now, fault).0, other), j, |c.tiers|, longest)
  {
    TierSetFacts(c.tiers[j], k, v, Effective(ttl, c.defaultTtl), now, fault, other);
    assert CopyInTime(CopyOf(c.tiers[j], other), j, |c.tiers|, longest);
    MulAtLeast(0, |c.tiers| - 1 - j, Max(longest, 0));
  }

  lemma DeleteInTime<P(!new)>(c: Cache<Stamped<P>>, k: Key, fails: nat -> bool, longest: int)
    requires CacheValid(c) && InTime(c, longest) && TtlsWithin(c, longest)
    ensures var after := CacheDelete(c, k, fails).0;
      CacheValid(after) && InTime(after, longest) && TtlsWithin(after, longest)
  {
    var after := CacheDelete(c, k, fails).0;
    StepKeepsValid(c, CacheOp.Delete(k, fails), 0);
    forall j: nat, other | j < |c.tiers|
      ensures CopyInTime(CopyOf(after.tiers[j], other), j, |c.tiers|, longest)
    {
      TierDeleteFacts(c.tiers[j], k, fails(j), other);
      assert CopyInTime(CopyOf(c.tiers[j], other), j, |c.tiers|, longest);
    }
  }

  /** In every run, whatever writes and deletes fail, a copy in tier i is served no later than Latest allows. */
  lemma {:induction false} StalenessInvariant<P(!new)>(c: Cache<Stamped<P>>, ops: seq<TimedOp<Stamped<P>>>, longest: int)
    requires CacheValid(c) && InTime(c, longest) && TtlsWithin(c, longest)
    requires forall i :: 0 <= i < |ops| ==> Labelled(ops[i].op, ops[i].now, c.defaultTtl)
    ensures CacheValid(CacheRun(c, ops)) && InTime(CacheRun(c, ops), longest) && |CacheRun(c, ops).tiers| == |c.tiers|
    decreases |ops|
  {
    if ops != [] {
      match ops[0].op {
        case Get(k, faults) => GetInTime(c, k, ops[0].now, faults, longest);
        case Set(k, v, ttl, faults) => SetInTime(c, k, v, ttl, ops[0].now, faults, longest);
        case Delete(k, fails) => DeleteInTime(c, k, fails, longest);
      }
      StalenessInvariant(CacheApply(c, ops[0].op, ops[0].now), ops[1..], longest);
    }
  }

  /** No read ever returns a value older than max(T, D) + (k - 1) * D. */
  lemma NoOlderRead<P(!new)>(c: Cache<Stamped<P>>, ops: seq<TimedOp<Stamped<P>>>, longest: int, k: Key, now: int, faults: nat -> GetFault)
    requires CacheValid(c) && InTime(c, longest) && TtlsWithin(c, longest)
    requires forall i :: 0 <= i < |ops| ==> Labelled(ops[i].op, ops[i].now, c.defaultTtl)
    ensures var r := CacheGet(CacheRun(c, ops), k, now, faults).1;
      r.Some? ==> now - r.value.written <= GreatestAge(r.value.ttl, longest, |c.tiers|)
  {
    StalenessInvariant(c, ops, longest);
    ReadInTime(CacheRun(c, ops), longest, k, now, faults);
  }

  lemma ReadInTime<P(!new)>(d: Cache<Stamped<P>>, longest: int, k: Key, now: int, faults: nat -> GetFault)
    requires CacheValid(d) && InTime(d, longest)
    ensures var r := CacheGet(d, k, now, faults).1;
      r.Some? ==> now - r.value.written <= GreatestAge(r.value.ttl, longest, |d.tiers|)
  {
    var h := FirstHit(d.tiers, k, now, faults, 0);
    if h < |d.tiers| {
      TierGetFacts(d.tiers[h], k, now, faults(h).misreads, k);
      assert CopyInTime(CopyOf(d.tiers[h], k), h, |d.tiers|, longest);
      MulAtLeast(|d.tiers| - 1 - h, |d.tiers| - 1, Max(longest, 0));
    }
  }

  // ----- the staleness bound is attained -----

  function OnlyTier(i: int): nat -> Fault {
    (j: nat) => if j == i then NoFault else OpenFails
  }

  /** All reads succeed, and only the promotion into tier i does. */
  function Promoting(i: int): nat -> GetFault {
    (j: nat) => GetFault(false, if j == i then NoFault else OpenFails)
  }

  function NoGetFault(): nat -> GetFault {
    (j: nat) => GetFault(false, NoFault)
  }

  /** Tier i still serves v at time `until`, and the tiers above it are disks that hold nothing. */
  ghost predicate HighestAt<V>(c: Cache<V>, k: Key, v: V, i: nat, d: nat, until: int) {
    && i < |c.tiers| && c.defaultTtl == Some(d)
    && (forall j :: 0 <= j < i ==> c.tiers[j] == Disk(Some(d), map[]))
    && TierGet(c.tiers[i], k, until, false).1 == Some(v)
  }

  lemma FirstHitIs<V>(tiers: seq<Tier<V>>, k: Key, now: int, faults: nat -> GetFault, h: nat)
    requires h < |tiers| && TierGet(tiers[h], k, now, faults(h).misreads).1.Some?
    requires forall j :: 0 <= j < h ==> TierGet(tiers[j], k, now, faults(j).misreads).1.None?
    ensures FirstHit(tiers, k, now, faults, 0) == h
  {
  }

  /** The operations take cache c to cache top, whatever comes after them. */
  ghost predicate Reaches<V(!new)>(c: Cache<V>, ops: seq<TimedOp<V>>, top: Cache<V>) {
    forall rest :: CacheRun(c, ops + rest) == CacheRun(top, rest)
  }

  lemma OneOpReaches<V(!new)>(c: Cache<V>, first: TimedOp<V>)
    ensures Reaches(c, [first], CacheApply(c, first.op, first.now))
  {
    forall rest ensures CacheRun(c, [first] + rest) == CacheRun(CacheApply(c, first.op, first.now), rest) {
      assert ([first] + rest)[1..] == rest;
    }
  }

  lemma ReachesOn<V(!new)>(c: Cache<V>, a: seq<TimedOp<V>>, mid: Cache<V>, b: seq<TimedOp<V>>, top: Cache<V>)
    requires Reaches(c, a, mid) && Reaches(mid, b, top)
    ensures Reaches(c, a + b, top)
  {
    forall rest ensures CacheRun(c, (a + b) + rest) == CacheRun(top, rest) {
      assert (a + b) + rest == a + (b + rest);
    }
  }

  lemma ReachedByRun<V(!new)>(c: Cache<V>, ops: seq<TimedOp<V>>, top: Cache<V>)
    requires Reaches(c, ops, top)
    ensures CacheRun(c, ops) == top
  {
    assert ops + [] == ops;
  }

  /** The get at the last moment, all promotions but one failing, puts the value one tier up for one more default TTL. */
  lemma ClimbOne<V(!new)>(c: Cache<V>, k: Key, v: V, i: nat, d: nat, until: int) returns (step: TimedOp<V>, after: Cache<V>)
    requires i > 0 && HighestAt(c, k, v, i, d, until)
    ensures step.op.Get? && Reaches(c, [step], after)
    ensures HighestAt(after, k, v, i - 1, d, until + d)
  {
    step := TimedOp(until, CacheOp.Get(k, Promoting(i - 1)));
    after := CacheApply(c, step.op, until);
    FirstHitIs(c.tiers, k, until, Promoting(i - 1), i);
    forall j | 0 <= j < i
      ensures after.tiers[j] == if j == i - 1 then Disk(Some(d), map[k := Pickled(Some(v), until)]) else c.tiers[j]
    {
      assert after.tiers[j] == TierAfterGet(c, k, until, Promoting(i - 1), j);
    }
    OneOpReaches(c, step);
  }

  /** Such gets, one per tier, take the value to the first tier. */
  lemma {:induction false} ClimbToTop<V(!new)>(c: Cache<V>, k: Key, v: V, i: nat, d: nat, until: int)
    returns (ops: seq<TimedOp<V>>, top: Cache<V>)
    requires HighestAt(c, k, v, i, d, until)
    ensures forall op :: op in ops ==> op.op.Get?
    ensures Reaches(c, ops, top) && HighestAt(top, k, v, 0, d, until + i * d)
    decreases i
  {
    if i == 0 {
      ops, top := [], c;
      assert forall rest: seq<TimedOp<V>> :: [] + rest == rest;
    } else {
      var step, after := ClimbOne(c, k, v, i, d, until);
      var rest: seq<TimedOp<V>>;
      rest, top := ClimbToTop(after, k, v, i - 1, d, until + d);
      OneMore(until, i, d);
      ops := [step] + rest;
      ReachesOn(c, [step], after, rest, top);
    }
  }

  lemma OneMore(until: int, i: int, d: int)
    ensures until + d + (i - 1) * d == until + i * d
  {
  }

  /** n empty tiers with default TTL d; the last one is a memory tier when the value's own TTL t is to count beyond d. */
  function EmptyTiers<V>(n: nat, d: nat, t: int): Cache<V> {
    Cache(seq(n, i => if i == n - 1 && t > d then Memory(MemoryLru.Empty(1)) else Disk(Some(d), map[])), Some(d), 0, 0, 0)
  }

  /** After this run of well-stamped operations a get at time end reads v. */
  ghost predicate EndsReading<P>(c: Cache<Stamped<P>>, ops: seq<TimedOp<Stamped<P>>>, k: Key, end: int, v: Stamped<P>) {
    && (forall i :: 0 <= i < |ops| ==> Labelled(ops[i].op, ops[i].now, c.defaultTtl))
    && CacheGet(CacheRun(c, ops), k, end, NoGetFault()).1 == Some(v)
  }

  /** Writing v, with its TTL t, to the last tier only. */
  function WriteLast<P>(n: nat, k: Key, v: Stamped<P>): TimedOp<Stamped<P>> {
    TimedOp(0, CacheOp.Set(k, Some(v), if v.ttl == 0 then None else Some(v.ttl), OnlyTier(n - 1)))
  }

  lemma FirstEntry<V>(k: Key, v: Option<V>, ttl: int)
    ensures SetStep(MemoryLru.Empty<V>(1), k, v, Some(ttl), 0).0.store == [Entry(k, v, Some(ttl))]
    ensures IndexOf([Entry(k, v, Some(ttl))], k) == 0
  {
    assert Without<V>([], k) + [Entry(k, v, Some(ttl))] == [Entry(k, v, Some(ttl))];
  }

  lemma WrittenAtBottom<P(!new)>(n: nat, d: nat, k: Key, v: Stamped<P>) returns (after: Cache<Stamped<P>>)
    requires n > 0 && v.written == 0 && (v.ttl == 0 ==> d == 0)
    ensures Labelled(WriteLast(n, k, v).op, 0, Some(d))
    ensures HighestAt(after, k, v, n - 1, d, Max(v.ttl, d))
    ensures Reaches(EmptyTiers(n, d, v.ttl), [WriteLast(n, k, v)], after)
  {
    var empty: Cache<Stamped<P>>, write := EmptyTiers(n, d, v.ttl), WriteLast(n, k, v);
    after := CacheApply(empty, write.op, 0);
    var last := TierSet(empty.tiers[n - 1], k, Some(v), Effective(write.op.ttl, Some(d)), 0, NoFault).0;
    assert forall j :: 0 <= j < n - 1 ==> after.tiers[j] == Disk(Some(d), map[]);
    assert after.tiers[n - 1] == last;
    if v.ttl > d {
      FirstEntry(k, Some(v), v.ttl);
    } else {
      assert last == Disk(Some(d), map[k := Pickled(Some(v), 0)]);
    }
    OneOpReaches(empty, write);
  }

  /**
    The bound is attained: for any number of tiers, any default TTL d and any TTL t a set can have under it (0
    means the default), some run in which writes fail in some tiers reads, at the greatest age, a value with TTL t.
   */
  lemma StalenessBoundIsAttained<P(!new)>(n: nat, d: nat, t: int, k: Key, payload: P)
    requires n > 0 && (t == 0 ==> d == 0)
    ensures exists ops :: EndsReading(EmptyTiers(n, d, t), ops, k, GreatestAge(t, d, n), Stamped(payload, 0, t))
    ensures var empty := EmptyTiers<Stamped<P>>(n, d, t); CacheValid(empty) && InTime(empty, d) && TtlsWithin(empty, d)
  {
    var v := Stamped(payload, 0, t);
    var ops := ClimbEndsReading(n, d, k, v);
    EmptyTiersStartWithin<P>(n, d, t);
  }

  lemma EmptyTiersStartWithin<P(!new)>(n: nat, d: nat, t: int)
    ensures var empty := EmptyTiers<Stamped<P>>(n, d, t); CacheValid(empty) && InTime(empty, d) && TtlsWithin(empty, d)
  {
    var empty := EmptyTiers<Stamped<P>>(n, d, t);
    assert forall i :: 0 <= i < n ==> empty.tiers[i] == Memory(MemoryLru.Empty(1)) || empty.tiers[i] == Disk(Some(d), map[]);
    assert forall i: nat, k :: i < n ==> CopyOf(empty.tiers[i], k).None?;
  }

  lemma ClimbEndsReading<P(!new)>(n: nat, d: nat, k: Key, v: Stamped<P>) returns (ops: seq<TimedOp<Stamped<P>>>)
    requires n > 0 && v.written == 0 && (v.ttl == 0 ==> d == 0)
    ensures EndsReading(EmptyTiers(n, d, v.ttl), ops, k, GreatestAge(v.ttl, d, n), v)
  {
    var empty: Cache<Stamped<P>>, write := EmptyTiers(n, d, v.ttl), WriteLast(n, k, v);
    var written := WrittenAtBottom(n, d, k, v);
    var gets, top := ClimbToTop(written, k, v, n - 1, d, Max(v.ttl, d));
    ops := [write] + gets;
    ReachesOn(empty, [write], written, gets, top);
    ReachedByRun(empty, ops, top);
    TopIsServed(top, k, v, d, GreatestAge(v.ttl, d, n));
  }

  lemma TopIsServed<V>(c: Cache<V>, k: Key, v: V, d: nat, until: int)
    requires HighestAt(c, k, v, 0, d, until)
    ensures CacheGet(c, k, until, NoGetFault()).1 == Some(v)
  {
    FirstHitIs(c.tiers, k, until, NoGetFault(), 0);
  }

  // ----- how long a set lasts -----

  /** A get of k from this tier at a time from `now` on answers v up to `deadline` (None: for ever), and None after it. */
  ghost predicate ServesUntil<V>(t: Tier<V>, k: Key, v: V, now: int, deadline: Option<int>) {
    forall later :: now <= later ==>
      TierGet(t, k, later, false).1 == if deadline.Some? && later > deadline.value then None else Some(v)
  }

  /** A tier with this deadline ahead, or none, that was given the value serves it exactly so long. */
  lemma StoredUntil<V>(t: Tier<V>, k: Key, v: V, now: int, deadline: Option<int>)
    requires TierValid(t) && CopyOf(t, k) == Some(Copy(Some(v), deadline))
    ensures ServesUntil(t, k, v, now, deadline)
  {
    forall later | now <= later
      ensures TierGet(t, k, later, false).1 == if deadline.Some? && later > deadline.value then None else Some(v)
    {
      TierGetFacts(t, k, later, false, k);
    }
  }

  /** Once its copy is gone a tier answers None. */
  lemma NotServedAfter<V>(t: Tier<V>, k: Key, later: int)
    requires TierValid(t) && (CopyOf(t, k).Some? ==> CopyOf(t, k).value.until.Some? && CopyOf(t, k).value.until.value < later)
    ensures TierGet(t, k, later, false).1.None?
  {
    TierGetFacts(t, k, later, false, k);
  }

  /**
    How long a set lasts in a memory tier in which it evicts nothing: a TTL t other than 0 makes it readable up to
    now + t, and not after; no TTL and a TTL of 0 mean the composite's default; with neither it is readable for
    ever. A TTL that is not positive leaves nothing to read later.
   */
  lemma SetLastsInMemory<V>(c: Cache<V>, k: Key, v: V, ttl: Option<int>, now: int, faults: nat -> Fault, i: nat)
    requires CacheValid(c) && i < |c.tiers| && c.tiers[i].Memory?
    requires Has(c.tiers[i].lru.store, k) || |c.tiers[i].lru.store| < c.tiers[i].lru.maxSize
    ensures var tier := CacheSet(c, k, Some(v), ttl, now, faults).0.tiers[i];
      match (ttl, c.defaultTtl)
      case (None, None) => ServesUntil(tier, k, v, now, None)
      case (None, Some(d)) => LastsFor(tier, k, v, now, d)
      case (Some(t), None) => if t == 0 then ServesUntil(tier, k, v, now, None) else LastsFor(tier, k, v, now, t)
      case (Some(t), Some(d)) => LastsFor(tier, k, v, now, if t == 0 then d else t)
  {
    MemoryHoldsSet(c.tiers[i].lru, k, v, Effective(ttl, c.defaultTtl), now);
    var tier := CacheSet(c, k, Some(v), ttl, now, faults).0.tiers[i];
    assert tier == TierSet(c.tiers[i], k, Some(v), Effective(ttl, c.defaultTtl), now, faults(i)).0;
  }

  ghost predicate LastsFor<V>(tier: Tier<V>, k: Key, v: V, now: int, ttl: int) {
    if ttl > 0 then ServesUntil(tier, k, v, now, Some(now + ttl))
    else forall later :: later > now + ttl ==> TierGet(tier, k, later, false).1.None?
  }

  lemma MemoryHoldsSet<V>(lru: Lru<V>, k: Key, v: V, ttl: Option<int>, now: int)
    requires Valid(lru) && !Evicts(lru, k)
    ensures var tier := Memory(SetStep(lru, k, Some(v), ttl, now).0);
      if ttl.None? then ServesUntil(tier, k, v, now, None) else LastsFor(tier, k, v, now, ttl.value)
  {
    var tier := Memory(SetStep(lru, k, Some(v), ttl, now).0);
    SetKeepsValid(lru, k, Some(v), ttl, now);
    LruSetKeeps(lru, k, Some(v), ttl, now, k);
    LruSetFacts(lru, k, Some(v), ttl, now, k);
    if ttl.None? || ttl.value > 0 {
      StoredUntil(tier, k, v, now, Deadline(now, ttl));
    } else {
      forall later | later > now + ttl.value ensures TierGet(tier, k, later, false).1.None? {
        NotServedAfter(tier, k, later);
      }
    }
  }

  /** In a disk tier that takes it, a set lasts for the tier's own TTL, whatever TTL it was given. */
  lemma SetLastsOnDisk<V>(c: Cache<V>, k: Key, v: V, ttl: Option<int>, now: int, faults: nat -> Fault, i: nat)
    requires i < |c.tiers| && c.tiers[i].Disk? && faults(i).NoFault?
    ensures var tier, own := CacheSet(c, k, Some(v), ttl, now, faults).0.tiers[i], c.tiers[i].ttl;
      ServesUntil(tier, k, v, now, if own.None? then None else Some(now + own.value))
  {
    var tier := CacheSet(c, k, Some(v), ttl, now, faults).0.tiers[i];
    assert tier == Disk(c.tiers[i].ttl, c.tiers[i].files[k := Pickled(Some(v), now)]);
    StoredUntil(tier, k, v, now, Deadline(now, c.tiers[i].ttl));
  }

  /** Over a single memory tier the composite itself answers so: a set under the default TTL d is read back up to now + d. */
  lemma DefaultTtlIsKept<V>(lru: Lru<V>, d: nat, k: Key, v: V, ttl: Option<int>, now: int, later: int)
    requires Valid(lru) && (Has(lru.store, k) || |lru.store| < lru.maxSize) && d > 0 && now <= later
    requires ttl == None || ttl == Some(0)
    ensures var c := Cache([Memory(lru)], Some(d), 0, 0, 0);
      CacheGet(CacheSet(c, k, Some(v), ttl, now, _ => NoFault).0, k, later, NoGetFault()).1 == if later <= now + d then Some(v) else None
  {
    SetLastsInMemory(Cache([Memory(lru)], Some(d), 0, 0, 0), k, v, ttl, now, _ => NoFault, 0);
  }

  // ----- what a set or delete reports, and what a hit leaves -----

  /** A tier takes a write when its file can be opened and dumped, or when it is a memory tier of size at least 1. */
  predicate TakesWrites<V>(t: Tier<V>, fault: Fault) {
    if t.Memory? then t.lru.maxSize > 0 else fault.NoFault?
  }

  ghost predicate HoldsKey<V>(t: Tier<V>, k: Key) {
    match t
    case Memory(lru) => !Absent(lru.store, k)
    case Disk(_, files) => k in files
  }

  /** A set returns True exactly when every tier takes the write; a delete exactly when every tier has the key and can drop it. */
  lemma ReportsExactly<V>(c: Cache<V>, k: Key, v: Option<V>, ttl: Option<int>, now: int, faults: nat -> Fault, fails: nat -> bool)
    requires CacheValid(c)
    ensures CacheSet(c, k, v, ttl, now, faults).1 <==> forall j: nat :: j < |c.tiers| ==> TakesWrites(c.tiers[j], faults(j))
    ensures CacheDelete(c, k, fails).1 <==>
      forall j: nat :: j < |c.tiers| ==> HoldsKey(c.tiers[j], k) && (c.tiers[j].Disk? ==> !fails(j))
  {
    var t := Effective(ttl, c.defaultTtl);
    forall j: nat | j < |c.tiers|
      ensures TierSet(c.tiers[j], k, v, t, now, faults(j)).1 <==> TakesWrites(c.tiers[j], faults(j))
      ensures TierDelete(c.tiers[j], k, fails(j)).1 <==> HoldsKey(c.tiers[j], k) && (c.tiers[j].Disk? ==> !fails(j))
    {
      assert TierValid(c.tiers[j]);
      if c.tiers[j].Memory? {
        AbsentMeansNoEntry(c.tiers[j].lru.store, k);
        RoomIsUnique(c.tiers[j].lru, k);
      }
    }
  }

  /** After a hit in tier h: the tiers below are untouched, h serves what it served, and a tier above that takes the write and evicts nothing serves the value for the full default TTL, or its own on disk. */
  lemma HitFillsTiersAbove<V>(c: Cache<V>, k: Key, now: int, faults: nat -> GetFault, j: nat)
    requires CacheValid(c) && j < |c.tiers| && FirstHit(c.tiers, k, now, faults, 0) < |c.tiers|
    ensures var h, (after, v) := FirstHit(c.tiers, k, now, faults, 0), CacheGet(c, k, now, faults);
      && v.Some? && Readable(c.tiers[h], k, now, faults(h).misreads) && v == CopyOf(c.tiers[h], k).value.value
      && (j > h ==> after.tiers[j] == c.tiers[j])
      && (j == h ==> CopyOf(after.tiers[j], k) == CopyOf(c.tiers[j], k))
      && (j < h && c.tiers[j].Disk? && faults(j).write.NoFault? ==> LastsFrom(after.tiers[j], k, v.value, now, c.tiers[j].ttl))
      && (j < h && c.tiers[j].Memory? && |c.tiers[j].lru.store| < c.tiers[j].lru.maxSize ==>
            LastsFrom(after.tiers[j], k, v.value, now, c.defaultTtl))
  {
    var h := FirstHit(c.tiers, k, now, faults, 0);
    var v := TierGet(c.tiers[h], k, now, faults(h).misreads).1;
    TierGetFacts(c.tiers[h], k, now, faults(h).misreads, k);
    TierGetFacts(c.tiers[j], k, now, faults(j).misreads, k);
    assert CacheGet(c, k, now, faults).0.tiers[j] == TierAfterGet(c, k, now, faults, j);
    if j < h {
      var probed := TierGet(c.tiers[j], k, now, faults(j).misreads).0;
      if c.tiers[j].Memory? && |c.tiers[j].lru.store| < c.tiers[j].lru.maxSize {
        ProbeKeepsRoom(c.tiers[j].lru, k, now);
        MemoryHoldsSet(probed.lru, k, v.value, c.defaultTtl, now);
      } else if c.tiers[j].Disk? && faults(j).write.NoFault? {
        StoredUntil(TierAfterGet(c, k, now, faults, j), k, v.value, now, Deadline(now, c.tiers[j].ttl));
      }
    }
  }

  ghost predicate LastsFrom<V>(tier: Tier<V>, k: Key, v: V, now: int, ttl: Option<int>) {
    if ttl.None? then ServesUntil(tier, k, v, now, None)
    else ttl.value > 0 ==> ServesUntil(tier, k, v, now, Some(now + ttl.value))
  }

  lemma ProbeKeepsRoom<V>(lru: Lru<V>, k: Key, now: int)
    requires Valid(lru) && |lru.store| < lru.maxSize
    ensures !Evicts(GetStep(lru, k, now).0, k) && Valid(GetStep(lru, k, now).0)
  {
    ApplyKeepsValid(lru, MemoryLru.Op.Get(k), now);
    WithoutSplits(lru.store, k);
  }

  // ----- refinement of a plain map -----

  function MapApply<V>(m: map<Key, Option<V>>, op: CacheOp<V>): map<Key, Option<V>> {
    match op
    case Get(_, _) => m
    case Set(k, v, _, _) => m[k := v]
    case Delete(k, _) => m - {k}
  }

  function MapRun<V>(m: map<Key, Option<V>>, ops: seq<TimedOp<V>>): map<Key, Option<V>>
    decreases |ops|
  {
    if ops == [] then m else MapRun(MapApply(m, ops[0].op), ops[1..])
  }

  /** A map lookup as a caller of get sees it: an absent key and a stored None both read as None. */
  function MapGet<V>(m: map<Key, Option<V>>, k: Key): Option<V> {
    if k in m then m[k] else None
  }

  ghost predicate CopyCurrent<V>(c: Option<Copy<V>>, m: map<Key, Option<V>>, k: Key) {
    c.Some? ==> k in m && c.value.value == m[k]
  }

  /** Every copy in every tier is the last value set and not since deleted. */
  ghost predicate Current<V(!new)>(c: Cache<V>, m: map<Key, Option<V>>) {
    forall i: nat, k :: i < |c.tiers| ==> CopyCurrent(CopyOf(c.tiers[i], k), m, k)
  }

  ghost predicate OldValueGone<V>(t: Tier<V>, k: Key, v: Option<V>) {
    CopyOf(t, k).Some? ==> CopyOf(t, k).value.value == v
  }

  /**
    The operation cannot leave an old value behind: no disk tier whose open fails holds another value under the
    key being set, and no disk tier whose unlink fails holds the key being deleted.
   */
  ghost predicate Harmless<V>(c: Cache<V>, op: CacheOp<V>) {
    match op
    case Get(_, _) => true
    case Set(k, v, _, faults) =>
      forall j: nat :: j < |c.tiers| && c.tiers[j].Disk? && faults(j).OpenFails? ==> OldValueGone(c.tiers[j], k, v)
    case Delete(k, fails) =>
      forall j: nat :: j < |c.tiers| && c.tiers[j].Disk? && fails(j) ==> CopyOf(c.tiers[j], k).None?
  }

  lemma HarmlessKeepsCurrent<V(!new)>(c: Cache<V>, m: map<Key, Option<V>>, op: CacheOp<V>, now: int)
    requires CacheValid(c) && Current(c, m) && Harmless(c, op)
    ensures Current(CacheApply(c, op, now), MapApply(m, op))
  {
    var after := CacheApply(c, op, now);
    forall j: nat, k | j < |c.tiers|
      ensures CopyCurrent(CopyOf(after.tiers[j], k), MapApply(m, op), k)
    {
      assert CopyCurrent(CopyOf(c.tiers[j], k), m, k);
      match op
      case Get(key, faults) =>
        TierAfterGetFacts(c, key, now, faults, j, k);
        var h := FirstHit(c.tiers, key, now, faults, 0);
        assert h < |c.tiers| ==> CopyCurrent(CopyOf(c.tiers[h], key), m, key);
      case Set(key, v, ttl, faults) =>
        TierSetFacts(c.tiers[j], key, v, Effective(ttl, c.defaultTtl), now, faults(j), k);
        if c.tiers[j].Disk? && faults(j).OpenFails? {
          assert OldValueGone(c.tiers[j], key, v);
        }
      case Delete(key, fails) =>
        TierDeleteFacts(c.tiers[j], key, fails(j), k);
    }
  }

  /** One step, exactly: every copy stays current if and only if the operation is harmless. */
  lemma StepKeepsCurrentExactly<V(!new)>(c: Cache<V>, m: map<Key, Option<V>>, op: CacheOp<V>, now: int)
    requires CacheValid(c) && Current(c, m)
    ensures Current(CacheApply(c, op, now), MapApply(m, op)) <==> Harmless(c, op)
    ensures CacheValid(CacheApply(c, op, now)) && |CacheApply(c, op, now).tiers| == |c.tiers|
  {
    StepKeepsValid(c, op, now);
    var after, n := CacheApply(c, op, now), MapApply(m, op);
    if Harmless(c, op) {
      HarmlessKeepsCurrent(c, m, op, now);
    } else if op.Set? {
      var j: nat :| j < |c.tiers| && c.tiers[j].Disk? && op.faults(j).OpenFails? && !OldValueGone(c.tiers[j], op.key, op.value);
      assert after.tiers[j] == c.tiers[j] && !CopyCurrent(CopyOf(after.tiers[j], op.key), n, op.key);
    } else {
      var j: nat :| j < |c.tiers| && c.tiers[j].Disk? && op.fails(j) && CopyOf(c.tiers[j], op.key).Some?;
      assert after.tiers[j] == c.tiers[j] && !CopyCurrent(CopyOf(after.tiers[j], op.key), n, op.key);
    }
  }

  /** What the caller is told: the set or the delete returned True. */
  predicate ReportsSuccess<V>(c: Cache<V>, op: CacheOp<V>, now: int) {
    match op
    case Get(_, _) => true
    case Set(k, v, ttl, faults) => CacheSet(c, k, v, ttl, now, faults).1
    case Delete(k, fails) => CacheDelete(c, k, fails).1
  }

  /** A caller can rely on the answer: what returned True was harmless. */
  lemma ReportedIsHarmless<V>(c: Cache<V>, op: CacheOp<V>, now: int)
    requires ReportsSuccess(c, op, now)
    ensures Harmless(c, op)
  {
    if op.Set? {
      forall j: nat | j < |c.tiers| && c.tiers[j].Disk? ensures op.faults(j).NoFault? {
        assert TierSet(c.tiers[j], op.key, op.value, Effective(op.ttl, c.defaultTtl), now, op.faults(j)).1;
      }
    } else if op.Delete? {
      forall j: nat | j < |c.tiers| && c.tiers[j].Disk? ensures !op.fails(j) {
        assert TierDelete(c.tiers[j], op.key, op.fails(j)).1;
      }
    }
  }

  ghost predicate HarmlessRun<V>(c: Cache<V>, ops: seq<TimedOp<V>>)
    decreases |ops|
  {
    ops == [] || (Harmless(c, ops[0].op) && HarmlessRun(CacheApply(c, ops[0].op, ops[0].now), ops[1..]))
  }

  predicate ReportedRun<V>(c: Cache<V>, ops: seq<TimedOp<V>>)
    decreases |ops|
  {
    ops == [] || (ReportsSuccess(c, ops[0].op, ops[0].now) && ReportedRun(CacheApply(c, ops[0].op, ops[0].now), ops[1..]))
  }

  lemma {:induction false} ReportedRunIsHarmless<V>(c: Cache<V>, ops: seq<TimedOp<V>>)
    requires ReportedRun(c, ops)
    ensures HarmlessRun(c, ops)
    decreases |ops|
  {
    if ops != [] {
      ReportedIsHarmless(c, ops[0].op, ops[0].now);
      ReportedRunIsHarmless(CacheApply(c, ops[0].op, ops[0].now), ops[1..]);
    }
  }

  /** Every copy is current at the start and after each operation of the run. */
  ghost predicate CurrentThroughout<V(!new)>(c: Cache<V>, m: map<Key, Option<V>>, ops: seq<TimedOp<V>>)
    decreases |ops|
  {
    Current(c, m) && (ops == [] || CurrentThroughout(CacheApply(c, ops[0].op, ops[0].now), MapApply(m, ops[0].op), ops[1..]))
  }

  /** Over runs: every copy is current all along if and only if every operation is harmless when it is made. */
  lemma {:induction false} RunKeepsCurrentExactly<V(!new)>(c: Cache<V>, m: map<Key, Option<V>>, ops: seq<TimedOp<V>>)
    requires CacheValid(c) && Current(c, m)
    ensures CurrentThroughout(c, m, ops) <==> HarmlessRun(c, ops)
    ensures HarmlessRun(c, ops) ==> CacheValid(CacheRun(c, ops)) && Current(CacheRun(c, ops), MapRun(m, ops))
    decreases |ops|
  {
    if ops != [] {
      var after, n := CacheApply(c, ops[0].op, ops[0].now), MapApply(m, ops[0].op);
      StepKeepsCurrentExactly(c, m, ops[0].op, ops[0].now);
      if Harmless(c, ops[0].op) {
        RunKeepsCurrentExactly(after, n, ops[1..]);
      } else {
        assert !Current(after, n) && !CurrentThroughout(after, n, ops[1..]);
      }
    }
  }

  /** After any harmless run a get returns the map's value, or None when no tier serves a readable copy any more. */
  lemma ReadsAreCurrent<V(!new)>(c: Cache<V>, m: map<Key, Option<V>>, ops: seq<TimedOp<V>>, k: Key, now: int, faults: nat -> GetFault)
    requires CacheValid(c) && Current(c, m) && HarmlessRun(c, ops)
    ensures var d, want := CacheRun(c, ops), MapGet(MapRun(m, ops), k);
      var got := CacheGet(d, k, now, faults).1;
      && (got == want || got == None)
      && (got == want <==> want == None || exists i :: 0 <= i < |d.tiers| && Readable(d.tiers[i], k, now, faults(i).misreads))
  {
    RunKeepsCurrentExactly(c, m, ops);
    var d, n := CacheRun(c, ops), MapRun(m, ops);
    forall i: nat | i < |d.tiers|
      ensures CopyCurrent(CopyOf(d.tiers[i], k), n, k)
      ensures TierGet(d.tiers[i], k, now, faults(i).misreads).1 == if Readable(d.tiers[i], k, now, faults(i).misreads) then MapGet(n, k) else None
    {
      TierGetFacts(d.tiers[i], k, now, faults(i).misreads, k);
    }
  }

  function GetCount<V>(ops: seq<TimedOp<V>>): nat {
    if ops == [] then 0 else (if ops[0].op.Get? then 1 else 0) + GetCount(ops[1..])
  }

  function SetCount<V>(ops: seq<TimedOp<V>>): nat {
    if ops == [] then 0 else (if ops[0].op.Set? then 1 else 0) + SetCount(ops[1..])
  }

  /** The gets of the run that answered with a value. */
  function HitCount<V>(c: Cache<V>, ops: seq<TimedOp<V>>): nat
    decreases |ops|
  {
    if ops == [] then 0
    else
      (if ops[0].op.Get? && CacheGet(c, ops[0].op.key, ops[0].now, ops[0].op.getFaults).1.Some? then 1 else 0)
      + HitCount(CacheApply(c, ops[0].op, ops[0].now), ops[1..])
  }

  /** Every get counts as one hit if it answered and as one miss otherwise, every set as one set, and nothing else counts. */
  lemma {:induction false} HitsAndMisses<V>(c: Cache<V>, ops: seq<TimedOp<V>>)
    ensures var d := CacheRun(c, ops);
      && d.hits == c.hits + HitCount(c, ops)
      && d.hits + d.misses == c.hits + c.misses + GetCount(ops)
      && d.sets == c.sets + SetCount(ops)
    decreases |ops|
  {
    if ops != [] {
      HitsAndMisses(CacheApply(c, ops[0].op, ops[0].now), ops[1..]);
    }
  }

  // ----- a last tier that drops nothing -----

  /** A deadline this tier serves through `end`; a purge drops a memory entry already at its deadline. */
  predicate Outlives<V>(t: Tier<V>, until: Option<int>, end: int) {
    until.None? || end < until.value || (t.Disk? && end == until.value)
  }

  predicate Holds<V(==)>(t: Tier<V>, k: Key, v: Option<V>, end: int) {
    CopyOf(t, k).Some? && CopyOf(t, k).value.value == v && Outlives(t, CopyOf(t, k).value.until, end)
  }

  ghost predicate HoldsAll<V>(t: Tier<V>, m: map<Key, Option<V>>, end: int) {
    forall k :: k in m ==> Holds(t, k, m[k], end)
  }

  function LastTier<V>(c: Cache<V>): Tier<V>
    requires c.tiers != []
  {
    c.tiers[|c.tiers| - 1]
  }

  /** The last tier holds every key of m with its value, and will through `end`. */
  ghost predicate Backed<V>(c: Cache<V>, m: map<Key, Option<V>>, end: int) {
    c.tiers != [] && HoldsAll(LastTier(c), m, end)
  }

  /** The tier takes the new value for as long as needed, at no other key's cost, or cannot open the file that holds it already. */
  predicate Keeps<V(==)>(t: Tier<V>, k: Key, v: Option<V>, ttl: Option<int>, now: int, fault: Fault, end: int) {
    match t
    case Memory(lru) => !Evicts(lru, k) && Outlives(t, Deadline(now, ttl), end)
    case Disk(own, _) =>
      match fault
      case NoFault => Outlives(t, Deadline(now, own), end)
      case OpenFails => Holds(t, k, v, end)
      case DumpFails => false
  }

  ghost predicate Sound<V>(c: Cache<V>, op: CacheOp<V>, now: int, end: int)
    requires c.tiers != []
  {
    && Harmless(c, op)
    && (op.Set? ==> Keeps(LastTier(c), op.key, op.value, Effective(op.ttl, c.defaultTtl), now, op.faults(|c.tiers| - 1), end))
  }

  /** Without an eviction a set loses nothing that is not due. */
  lemma LruSetKeeps<V>(s: Lru<V>, k: Key, v: Option<V>, ttl: Option<int>, now: int, other: Key)
    requires Valid(s) && !Evicts(s, k)
    ensures var after, x := SetStep(s, k, v, ttl, now).0.store, Entry(k, v, Deadline(now, ttl));
      var held := if other == k then Some(x) else Lookup(s.store, other);
      held.Some? && NotDue(now)(held.value) ==> Lookup(after, other) == held
  {
    var x := Entry(k, v, Deadline(now, ttl));
    RoomIsUnique(s, k);
    LookupFilter(KeyIsNot(k), s.store, other);
    AbsentMeansNoEntry(Room(s, k), k);
    AppendUnique(Room(s, k), x);
    LookupAppend(Room(s, k), x, other);
    LookupFilter(NotDue(now), Room(s, k) + [x], other);
  }

  /** An eviction loses the oldest key, or, in a tier of size 0, the key being set. */
  lemma EvictionLoses<V>(s: Lru<V>, k: Key, v: Option<V>, ttl: Option<int>, now: int) returns (lost: Key)
    requires Valid(s) && Evicts(s, k)
    ensures Lookup(SetStep(s, k, v, ttl, now).0.store, lost).None?
    ensures if s.store == [] then lost == k else lost != k && Lookup(s.store, lost).Some?
  {
    if s.store == [] {
      lost := k;
    } else {
      lost := s.store[0].key;
      var x := Entry(k, v, Deadline(now, ttl));
      AbsentMeansNoEntry(s.store, k);
      assert s.store[0] in s.store;
      RoomIsUnique(s, k);
      AppendUnique(Room(s, k), x);
      AbsentMeansNoEntry(Room(s, k), k);
      LookupAppend(Room(s, k), x, lost);
      LookupFilter(NotDue(now), Room(s, k) + [x], lost);
    }
  }

  /** The last tier's write keeps the tier behind the map exactly when it takes hold. */
  lemma SetKeepsBackedExactly<V>(
      t: Tier<V>, m: map<Key, Option<V>>, k: Key, v: Option<V>, ttl: Option<int>, now: int, fault: Fault, end: int)
    requires TierValid(t) && now <= end
    requires HoldsAll(t, m, end) && forall other :: CopyOf(t, other).Some? ==> other in m
    ensures HoldsAll(TierSet(t, k, v, ttl, now, fault).0, m[k := v], end) <==> Keeps(t, k, v, ttl, now, fault, end)
  {
    var after := TierSet(t, k, v, ttl, now, fault).0;
    assert k in m[k := v];
    if t.Memory? {
      if Keeps(t, k, v, ttl, now, fault, end) {
        MemorySetHolds(t, m, k, v, ttl, now, fault, end);
      } else if Evicts(t.lru, k) {
        var lost := EvictionLoses(t.lru, k, v, ttl, now);
        assert lost != k ==> CopyOf(t, lost).Some?;
        assert lost in m[k := v] && !Holds(after, lost, m[k := v][lost], end);
      } else {
        LruSetFacts(t.lru, k, v, ttl, now, k);
        assert !Holds(after, k, v, end);
      }
    }
  }

  lemma MemorySetHolds<V>(
      t: Tier<V>, m: map<Key, Option<V>>, k: Key, v: Option<V>, ttl: Option<int>, now: int, fault: Fault, end: int)
    requires TierValid(t) && t.Memory? && now <= end && HoldsAll(t, m, end) && Keeps(t, k, v, ttl, now, fault, end)
    ensures HoldsAll(TierSet(t, k, v, ttl, now, fault).0, m[k := v], end)
  {
    var after, n := TierSet(t, k, v, ttl, now, fault).0, m[k := v];
    forall other | other in n ensures Holds(after, other, n[other], end) {
      LruSetKeeps(t.lru, k, v, ttl, now, other);
      assert other != k ==> Holds(t, other, m[other], end);
    }
  }

  lemma GetKeepsBacked<V>(c: Cache<V>, m: map<Key, Option<V>>, k: Key, now: int, faults: nat -> GetFault, end: int)
    requires CacheValid(c) && Backed(c, m, end) && now <= end
    ensures Backed(CacheGet(c, k, now, faults).0, m, end)
  {
    var last := |c.tiers| - 1;
    var after := TierAfterGet(c, k, now, faults, last);
    assert LastTier(CacheGet(c, k, now, faults).0) == after;
    forall other | other in m ensures Holds(after, other, m[other], end) {
      assert Holds(LastTier(c), other, m[other], end);
      TierGetFacts(c.tiers[last], k, now, faults(last).misreads, other);
    }
  }

  lemma DeleteKeepsBacked<V>(c: Cache<V>, m: map<Key, Option<V>>, k: Key, fails: nat -> bool, end: int)
    requires CacheValid(c) && Backed(c, m, end)
    ensures Backed(CacheDelete(c, k, fails).0, m - {k}, end)
  {
    var last := |c.tiers| - 1;
    forall other | other in m - {k} ensures Holds(LastTier(CacheDelete(c, k, fails).0), other, m[other], end) {
      assert Holds(LastTier(c), other, m[other], end);
      TierDeleteFacts(c.tiers[last], k, fails(last), other);
    }
  }

  /** One step, exactly: copies stay current and the last tier stays behind the map if and only if the operation is sound. */
  lemma StepIsSoundExactly<V(!new)>(c: Cache<V>, m: map<Key, Option<V>>, op: CacheOp<V>, now: int, end: int)
    requires CacheValid(c) && Current(c, m) && Backed(c, m, end) && now <= end
    ensures var after, n := CacheApply(c, op, now), MapApply(m, op);
      Current(after, n) && Backed(after, n, end) <==> Sound(c, op, now, end)
    ensures CacheValid(CacheApply(c, op, now))
  {
    StepKeepsCurrentExactly(c, m, op, now);
    match op
    case Get(k, faults) => GetKeepsBacked(c, m, k, now, faults, end);
    case Set(k, v, ttl, faults) => SetIsSoundExactly(c, m, k, v, ttl, now, faults, end);
    case Delete(k, fails) => DeleteKeepsBacked(c, m, k, fails, end);
  }

  lemma SetIsSoundExactly<V(!new)>(
      c: Cache<V>, m: map<Key, Option<V>>, k: Key, v: Option<V>, ttl: Option<int>, now: int, faults: nat -> Fault, end: int)
    requires CacheValid(c) && Current(c, m) && Backed(c, m, end) && now <= end
    ensures var last := |c.tiers| - 1;
      Backed(CacheSet(c, k, v, ttl, now, faults).0, m[k := v], end) <==> Keeps(LastTier(c), k, v, Effective(ttl, c.defaultTtl), now, faults(last), end)
  {
    var last := |c.tiers| - 1;
    assert LastTier(CacheSet(c, k, v, ttl, now, faults).0) == TierSet(c.tiers[last], k, v, Effective(ttl, c.defaultTtl), now, faults(last)).0;
    forall other ensures CopyOf(c.tiers[last], other).Some? ==> other in m {
      assert CopyCurrent(CopyOf(c.tiers[last], other), m, other);
    }
    SetKeepsBackedExactly(c.tiers[last], m, k, v, Effective(ttl, c.defaultTtl), now, faults(last), end);
  }

  ghost predicate SoundRun<V>(c: Cache<V>, ops: seq<TimedOp<V>>, end: int)
    requires c.tiers != []
    decreases |ops|
  {
    ops == [] || (
      Sound(c, ops[0].op, ops[0].now, end) && ops[0].now <= end && SoundRun(CacheApply(c, ops[0].op, ops[0].now), ops[1..], end))
  }

  /** The last tier can be read in this get. */
  predicate LastReads<V>(c: Cache<V>, faults: nat -> GetFault) {
    c.tiers != [] && (LastTier(c).Memory? || !faults(|c.tiers| - 1).misreads)
  }

  /**
    The composite refines a plain map: over a last tier, on disk or in memory, that takes every write and keeps
    it through `end`, every get until then equals the map lookup, however the tiers above evicted, whatever was
    promoted, whichever harmless failures there were and whatever could not be read on the way; and a get that
    cannot read the last tier either answers None or is right.
   */
  lemma {:induction false} RefinesMap<V(!new)>(
      c: Cache<V>, m: map<Key, Option<V>>, ops: seq<TimedOp<V>>, end: int, k: Key, now: int, faults: nat -> GetFault)
    requires CacheValid(c) && Current(c, m) && Backed(c, m, end) && SoundRun(c, ops, end) && now <= end
    ensures var d, want := CacheRun(c, ops), MapGet(MapRun(m, ops), k);
      var got := CacheGet(d, k, now, faults).1;
      (LastReads(d, faults) ==> got == want) && (got == want || got == None)
    decreases |ops|
  {
    if ops == [] {
      ReadsAreCurrent(c, m, [], k, now, faults);
      if k in m && LastReads(c, faults) {
        var last := |c.tiers| - 1;
        assert Holds(LastTier(c), k, m[k], end) && Readable(c.tiers[last], k, now, faults(last).misreads);
      }
    } else {
      StepIsSoundExactly(c, m, ops[0].op, ops[0].now, end);
      RefinesMap(CacheApply(c, ops[0].op, ops[0].now), MapApply(m, ops[0].op), ops[1..], end, k, now, faults);
    }
  }

  /** No file written at or after start expires by end. */
  predicate Lasts(ttl: Option<int>, start: int, end: int) {
    ttl.None? || end - start <= ttl.value
  }

  /** What a caller can check: over a last disk tier that outlives the run, an operation that returned True is sound. */
  lemma ReportedIsSound<V>(c: Cache<V>, op: CacheOp<V>, now: int, start: int, end: int)
    requires c.tiers != [] && LastTier(c).Disk? && Lasts(LastTier(c).ttl, start, end)
    requires ReportsSuccess(c, op, now) && start <= now <= end
    ensures Sound(c, op, now, end)
  {
    ReportedIsHarmless(c, op, now);
    if op.Set? {
      var last := |c.tiers| - 1;
      assert TierSet(c.tiers[last], op.key, op.value, Effective(op.ttl, c.defaultTtl), now, op.faults(last)).1;
    }
  }

  lemma LastTierStays<V>(c: Cache<V>, op: CacheOp<V>, now: int)
    requires c.tiers != [] && LastTier(c).Disk?
    ensures var after := CacheApply(c, op, now);
      after.tiers != [] && LastTier(after).Disk? && LastTier(after).ttl == LastTier(c).ttl
  {
    var last := |c.tiers| - 1;
    assert op.Get? ==> LastTier(CacheApply(c, op, now)) == TierAfterGet(c, op.key, now, op.getFaults, last);
  }

  lemma {:induction false} ReportedRunIsSound<V>(c: Cache<V>, ops: seq<TimedOp<V>>, start: int, end: int)
    requires c.tiers != [] && LastTier(c).Disk? && Lasts(LastTier(c).ttl, start, end) && ReportedRun(c, ops)
    requires forall i :: 0 <= i < |ops| ==> start <= ops[i].now <= end
    ensures SoundRun(c, ops, end)
    decreases |ops|
  {
    if ops != [] {
      ReportedIsSound(c, ops[0].op, ops[0].now, start, end);
      LastTierStays(c, ops[0].op, ops[0].now);
      ReportedRunIsSound(CacheApply(c, ops[0].op, ops[0].now), ops[1..], start, end);
    }
  }

  /** A run that is not harmless: one refused write leaves the old value readable. */
  lemma FailedWriteLeavesOldValue<V>(k: Key, v: V, w: V, now: int)
    requires v != w
    ensures var empty := Cache([Disk(None, map[])], None, 0, 0, 0);
      var ops := [TimedOp(now, CacheOp.Set(k, Some(v), None, _ => NoFault)), TimedOp(now, CacheOp.Set(k, Some(w), None, _ => OpenFails))];
      && MapGet(MapRun(map[], ops), k) == Some(w)
      && CacheGet(CacheRun(empty, ops), k, now, NoGetFault()).1 == Some(v)
  {
    var empty: Cache<V> := Cache([Disk(None, map[])], None, 0, 0, 0);
    var op0, op1 := CacheOp.Set(k, Some(v), None, _ => NoFault), CacheOp.Set(k, Some(w), None, _ => OpenFails);
    var ops := [TimedOp(now, op0), TimedOp(now, op1)];
    var c1 := CacheApply(empty, op0, now);
    var c2 := CacheApply(c1, op1, now);
    assert c1.tiers[0] == Disk(None, map[k := Pickled(Some(v), now)]) && c2.tiers == c1.tiers;
    assert ops[1..] == [TimedOp(now, op1)] && ops[1..][1..] == [];
    assert CacheRun(empty, ops) == CacheRun(c1, ops[1..]) == CacheRun(c2, []) == c2;
    assert MapRun(map[], ops) == MapRun(map[k := Some(v)], ops[1..]) == MapRun(map[k := Some(w)], []);
  }
}
