/**
  The tiered cache. A tier is a memory LRU or a disk store whose files expire by modification time.
  A get probes the tiers in order and, on a hit, writes the value to every tier above with a full default
  TTL; a set writes through to all tiers; a delete goes to all tiers. A write or a delete may fail in a tier.
 */
module CompositeCache {
  import opened Wrappers
  import opened MemoryLru

  /** A cache file: a pickled value, or the unreadable rest of a write that failed after truncating it. */
  datatype File<+V> = Pickled(value: Option<V>, mtime: int) | Torn(mtime: int)

  datatype Tier<+V> =
    | Memory(lru: Lru<V>)
    | Disk(ttl: Option<int>, files: map<Key, File<V>>)

  /** How a tier's write goes: it succeeds, open() raises, or pickle.dump() raises on a truncated file. */
  datatype Fault = NoFault | OpenFails | DumpFails

  /** How a get goes in a tier: whether reading the file raises, which answers None, and how a promotion into it goes. */
  datatype GetFault = GetFault(misreads: bool, write: Fault)

  datatype Cache<+V> = Cache(tiers: seq<Tier<V>>, defaultTtl: Option<int>, hits: nat, misses: nat, sets: nat)

  // ----- one tier -----

  predicate FileExpired<V>(f: File<V>, ttl: Option<int>, now: int) {
    ttl.Some? && now - f.mtime > ttl.value
  }

  /** Whatever raises while a file is examined or read leaves it in place. */
  function TierGet<V>(t: Tier<V>, k: Key, now: int, misreads: bool): (Tier<V>, Option<V>) {
    match t
    case Memory(lru) =>
      var (next, reply) := GetStep(lru, k, now);
      (Memory(next), reply.value)
    case Disk(ttl, files) =>
      if k !in files || misreads then (t, None)
      else if FileExpired(files[k], ttl, now) then (Disk(ttl, files - {k}), None)
      else if files[k].Torn? then (t, None)
      else (t, files[k].value)
  }

  /** The disk tier ignores the TTL it is given; the memory tier fails only at size 0. */
  function TierSet<V>(t: Tier<V>, k: Key, v: Option<V>, ttl: Option<int>, now: int, fault: Fault): (Tier<V>, bool) {
    match t
    case Memory(lru) =>
      var (next, reply) := SetStep(lru, k, v, ttl, now);
      (Memory(next), reply.Answer?)
    case Disk(own, files) =>
      match fault
      case NoFault => (Disk(own, files[k := Pickled(v, now)]), true)
      case OpenFails => (t, false)
      case DumpFails => (Disk(own, files[k := Torn(now)]), false)
  }

  /** A failing unlink raises; an absent key answers False. */
  function TierDelete<V>(t: Tier<V>, k: Key, fails: bool): (Tier<V>, bool) {
    match t
    case Memory(lru) => (Memory(DeleteStep(lru, k).0), Has(lru.store, k))
    case Disk(own, files) =>
      if k !in files || fails then (t, false) else (Disk(own, files - {k}), true)
  }

  ghost predicate TierValid<V>(t: Tier<V>) {
    t.Memory? ==> Valid(t.lru)
  }

  // ----- the composite -----

  /** The first tier, from i on, that answers a get with something other than None; |tiers| when none does. */
  function FirstHit<V>(tiers: seq<Tier<V>>, k: Key, now: int, faults: nat -> GetFault, i: nat): (h: nat)
    requires i <= |tiers|
    ensures i <= h <= |tiers|
    ensures forall j :: i <= j < h ==> TierGet(tiers[j], k, now, faults(j).misreads).1.None?
    ensures h < |tiers| ==> TierGet(tiers[h], k, now, faults(h).misreads).1.Some?
    decreases |tiers| - i
  {
    if i == |tiers| then i
    else if TierGet(tiers[i], k, now, faults(i).misreads).1.Some? then i
    else FirstHit(tiers, k, now, faults, i + 1)
  }

  /** Tier j after a get that hits tier h: probed if at or above h, and given the value if above. */
  function TierAfterGet<V>(c: Cache<V>, k: Key, now: int, faults: nat -> GetFault, j: nat): Tier<V>
    requires j < |c.tiers|
  {
    var h := FirstHit(c.tiers, k, now, faults, 0);
    var probed := if j <= h then TierGet(c.tiers[j], k, now, faults(j).misreads).0 else c.tiers[j];
    if j < h < |c.tiers|
    then TierSet(probed, k, TierGet(c.tiers[h], k, now, faults(h).misreads).1, c.defaultTtl, now, faults(j).write).0
    else probed
  }

  function CacheGet<V>(c: Cache<V>, k: Key, now: int, faults: nat -> GetFault): (Cache<V>, Option<V>) {
    var h := FirstHit(c.tiers, k, now, faults, 0);
    var tiers := seq(|c.tiers|, j requires 0 <= j < |c.tiers| => TierAfterGet(c, k, now, faults, j));
    if h < |c.tiers| then (c.(tiers := tiers, hits := c.hits + 1), TierGet(c.tiers[h], k, now, faults(h).misreads).1)
    else (c.(tiers := tiers, misses := c.misses + 1), None)
  }

  /** The first n tiers have been probed by a get, and nothing else has happened. */
  ghost predicate Probed<V>(c: Cache<V>, tiers: seq<Tier<V>>, k: Key, now: int, faults: nat -> GetFault, n: nat) {
    |tiers| == |c.tiers| && forall j :: 0 <= j < |tiers| ==>
      tiers[j] == if j < n then TierGet(c.tiers[j], k, now, faults(j).misreads).0 else c.tiers[j]
  }

  ghost predicate NoHitBefore<V>(c: Cache<V>, k: Key, now: int, faults: nat -> GetFault, n: nat)
    requires n <= |c.tiers|
  {
    forall j :: 0 <= j < n ==> TierGet(c.tiers[j], k, now, faults(j).misreads).1.None?
  }

  lemma ProbeNext<V>(c: Cache<V>, tiers: seq<Tier<V>>, k: Key, now: int, faults: nat -> GetFault, n: nat)
    requires n < |tiers| && Probed(c, tiers, k, now, faults, n) && NoHitBefore(c, k, now, faults, n)
    ensures tiers[n] == c.tiers[n]
    ensures Probed(c, tiers[n := TierGet(c.tiers[n], k, now, faults(n).misreads).0], k, now, faults, n + 1)
    ensures TierGet(c.tiers[n], k, now, faults(n).misreads).1.None? ==> NoHitBefore(c, k, now, faults, n + 1)
  {
  }

  /** The first n tiers have been given the value, with the failures the source swallows. */
  ghost predicate Promoted<V>(
      before: seq<Tier<V>>, after: seq<Tier<V>>, n: nat, k: Key, v: Option<V>, ttl: Option<int>, now: int, faults: nat -> GetFault)
  {
    |after| == |before| && forall j :: 0 <= j < |after| ==>
      after[j] == if j < n then TierSet(before[j], k, v, ttl, now, faults(j).write).0 else before[j]
  }

  lemma TierAfterHit<V>(c: Cache<V>, k: Key, now: int, faults: nat -> GetFault, h: nat, j: nat)
    requires h < |c.tiers| && j < |c.tiers| && FirstHit(c.tiers, k, now, faults, 0) == h
    ensures var probed := if j <= h then TierGet(c.tiers[j], k, now, faults(j).misreads).0 else c.tiers[j];
      var v := TierGet(c.tiers[h], k, now, faults(h).misreads).1;
      TierAfterGet(c, k, now, faults, j) == if j < h then TierSet(probed, k, v, c.defaultTtl, now, faults(j).write).0 else probed
  {
  }

  lemma TiersAre<V>(c: Cache<V>, k: Key, now: int, faults: nat -> GetFault, tiers: seq<Tier<V>>)
    requires |tiers| == |c.tiers| && forall j :: 0 <= j < |tiers| ==> tiers[j] == TierAfterGet(c, k, now, faults, j)
    ensures CacheGet(c, k, now, faults).0.tiers == tiers
  {
  }

  /** Probing down to the first hit and promoting it is the hit that CacheGet describes. */
  lemma HitIsGet<V>(c: Cache<V>, k: Key, now: int, faults: nat -> GetFault, h: nat, v: Option<V>, probed: seq<Tier<V>>, tiers: seq<Tier<V>>)
    requires h < |c.tiers| && NoHitBefore(c, k, now, faults, h)
    requires v.Some? && v == TierGet(c.tiers[h], k, now, faults(h).misreads).1
    requires Probed(c, probed, k, now, faults, h + 1) && Promoted(probed, tiers, h, k, v, c.defaultTtl, now, faults)
    ensures CacheGet(c, k, now, faults) == (c.(tiers := tiers, hits := c.hits + 1), v)
  {
    assert FirstHit(c.tiers, k, now, faults, 0) == h;
    forall j | 0 <= j < |tiers| ensures tiers[j] == TierAfterGet(c, k, now, faults, j) {
      TierAfterHit(c, k, now, faults, h, j);
    }
    TiersAre(c, k, now, faults, tiers);
  }

  lemma MissIsGet<V>(c: Cache<V>, k: Key, now: int, faults: nat -> GetFault, tiers: seq<Tier<V>>)
    requires NoHitBefore(c, k, now, faults, |c.tiers|) && Probed(c, tiers, k, now, faults, |c.tiers|)
    ensures CacheGet(c, k, now, faults) == (c.(tiers := tiers, misses := c.misses + 1), None)
  {
    assert FirstHit(c.tiers, k, now, faults, 0) == |c.tiers|;
    forall j | 0 <= j < |tiers| ensures tiers[j] == TierAfterGet(c, k, now, faults, j) {}
    TiersAre(c, k, now, faults, tiers);
  }

  /** "ttl_seconds or default": an absent TTL and a TTL of 0 both mean the default. */
  function Effective(ttl: Option<int>, default: Option<int>): Option<int> {
    if ttl.Some? && ttl.value != 0 then ttl else default
  }

  function CacheSet<V>(c: Cache<V>, k: Key, v: Option<V>, ttl: Option<int>, now: int, faults: nat -> Fault): (Cache<V>, bool) {
    var t := Effective(ttl, c.defaultTtl);
    var tiers := seq(|c.tiers|, j requires 0 <= j < |c.tiers| => TierSet(c.tiers[j], k, v, t, now, faults(j)).0);
    (c.(tiers := tiers, sets := c.sets + 1),
     forall j :: 0 <= j < |c.tiers| ==> TierSet(c.tiers[j], k, v, t, now, faults(j)).1)
  }

  function CacheDelete<V>(c: Cache<V>, k: Key, fails: nat -> bool): (Cache<V>, bool) {
    var tiers := seq(|c.tiers|, j requires 0 <= j < |c.tiers| => TierDelete(c.tiers[j], k, fails(j)).0);
    (c.(tiers := tiers), forall j :: 0 <= j < |c.tiers| ==> TierDelete(c.tiers[j], k, fails(j)).1)
  }

  datatype CacheOp<+V> =
    | Get(key: Key, getFaults: nat -> GetFault)
    | Set(key: Key, value: Option<V>, ttl: Option<int>, faults: nat -> Fault)
    | Delete(key: Key, fails: nat -> bool)

  datatype TimedOp<+V> = TimedOp(now: int, op: CacheOp<V>)

  function CacheApply<V>(c: Cache<V>, op: CacheOp<V>, now: int): Cache<V> {
    match op
    case Get(k, faults) => CacheGet(c, k, now, faults).0
    case Set(k, v, ttl, faults) => CacheSet(c, k, v, ttl, now, faults).0
    case Delete(k, fails) => CacheDelete(c, k, fails).0
  }

  function CacheRun<V>(c: Cache<V>, ops: seq<TimedOp<V>>): Cache<V>
    decreases |ops|
  {
    if ops == [] then c else CacheRun(CacheApply(c, ops[0].op, ops[0].now), ops[1..])
  }

  // ----- the mutable object -----

  class CompositeCacheBackend<V> {
    const defaultTtl: Option<int>
    var tiers: seq<Tier<V>>
    var hits: nat
    var misses: nat
    var sets: nat

    ghost function Model(): Cache<V>
      reads this
    {
      Cache(tiers, defaultTtl, hits, misses, sets)
    }

    constructor (tiers: seq<Tier<V>>, defaultTtl: Option<int>)
      ensures Model() == Cache(tiers, defaultTtl, 0, 0, 0)
    {
      this.tiers, this.defaultTtl := tiers, defaultTtl;
      hits, misses, sets := 0, 0, 0;
    }

    method Get(k: Key, now: int, faults: nat -> GetFault) returns (value: Option<V>)
      modifies this
      ensures (Model(), value) == CacheGet(old(Model()), k, now, faults)
    {
      ghost var c := Model();
      assert Probed(c, tiers, k, now, faults, 0) && NoHitBefore(c, k, now, faults, 0);
      var idx := 0;
      while idx < |tiers|
        invariant 0 <= idx <= |tiers| == |c.tiers|
        invariant NoHitBefore(c, k, now, faults, idx) && Probed(c, tiers, k, now, faults, idx)
        invariant hits == c.hits && misses == c.misses && sets == c.sets
      {
        ProbeNext(c, tiers, k, now, faults, idx);
        var (tier, found) := TierGet(tiers[idx], k, now, faults(idx).misreads);
        tiers := tiers[idx := tier];
        if found.Some? {
          ghost var probed := tiers;
          assert Probed(c, probed, k, now, faults, idx + 1);
          Promote(idx, k, found, now, faults);
          HitIsGet(c, k, now, faults, idx, found, probed, tiers);
          hits := hits + 1;
          return found;
        }
        idx := idx + 1;
      }
      MissIsGet(c, k, now, faults, tiers);
      misses := misses + 1;
      return None;
    }

    /** The inner loop of a hit: every tier above it is given the value for a full default TTL; failures are swallowed. */
    method Promote(n: nat, k: Key, v: Option<V>, now: int, faults: nat -> GetFault)
      requires n <= |tiers|
      modifies this`tiers
      ensures Promoted(old(tiers), tiers, n, k, v, defaultTtl, now, faults)
    {
      for i := 0 to n
        invariant Promoted(old(tiers), tiers, i, k, v, defaultTtl, now, faults)
      {
        var (tier, _) := TierSet(tiers[i], k, v, defaultTtl, now, faults(i).write);
        tiers := tiers[i := tier];
      }
    }

    method Set(k: Key, v: Option<V>, ttl: Option<int>, now: int, faults: nat -> Fault) returns (success: bool)
      modifies this
      ensures (Model(), success) == CacheSet(old(Model()), k, v, ttl, now, faults)
    {
      ghost var before := tiers;
      sets := sets + 1;
      var t := Effective(ttl, defaultTtl);
      success := true;
      for i := 0 to |tiers|
        invariant |tiers| == |before|
        invariant sets == old(sets) + 1 && hits == old(hits) && misses == old(misses)
        invariant forall j :: 0 <= j < |tiers| ==>
          tiers[j] == if j < i then TierSet(before[j], k, v, t, now, faults(j)).0 else before[j]
        invariant success <==> forall j :: 0 <= j < i ==> TierSet(before[j], k, v, t, now, faults(j)).1
      {
        var (tier, ok) := TierSet(tiers[i], k, v, t, now, faults(i));
        tiers := tiers[i := tier];
        success := success && ok;
      }
      assert tiers == CacheSet(old(Model()), k, v, ttl, now, faults).0.tiers;
    }

    method Delete(k: Key, fails: nat -> bool) returns (success: bool)
      modifies this`tiers
      ensures (Model(), success) == CacheDelete(old(Model()), k, fails)
    {
      ghost var before := tiers;
      success := true;
      for i := 0 to |tiers|
        invariant |tiers| == |before|
        invariant forall j :: 0 <= j < |tiers| ==>
          tiers[j] == if j < i then TierDelete(before[j], k, fails(j)).0 else before[j]
        invariant success <==> forall j :: 0 <= j < i ==> TierDelete(before[j], k, fails(j)).1
      {
        var (tier, ok) := TierDelete(tiers[i], k, fails(i));
        tiers := tiers[i := tier];
        success := success && ok;
      }
      assert tiers == CacheDelete(old(Model()), k, fails).0.tiers;
    }
  }
}
