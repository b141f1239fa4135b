/**
  The in-memory LRU tier. A Python OrderedDict is a sequence of entries with distinct keys, oldest first.
  Lru is the tier's whole state and Apply one operation on it; MemoryLRUBackend is the mutable object and
  each of its methods is proved to take the step that Apply describes.
 */
module MemoryLru {
  import opened Wrappers
  import opened Seqs

  type Key = string

  /** A cached value may itself be Python's None, hence the Option. */
  datatype Entry<+V> = Entry(key: Key, value: Option<V>, expiry: Option<int>)

  datatype Lru<+V> = Lru(maxSize: nat, store: seq<Entry<V>>, hits: nat, misses: nat, sets: nat, evictions: nat)

  function Empty<V>(maxSize: nat): Lru<V> {
    Lru(maxSize, [], 0, 0, 0, 0)
  }

  datatype Op<+V> =
    | Get(key: Key)
    | Set(key: Key, value: Option<V>, ttl: Option<int>)
    | Delete(key: Key)
    | Exists(key: Key)
    | Clear

  datatype Reply<+V> = Found(value: Option<V>) | Answer(ok: bool) | Count(n: nat) | StopIteration

  function KeyIsNot<V>(k: Key): Entry<V> -> bool {
    (e: Entry<V>) => e.key != k
  }

  /** What _purge_expired keeps: its test is "expiry <= now". */
  function NotDue<V>(now: int): Entry<V> -> bool {
    (e: Entry<V>) => e.expiry.None? || now < e.expiry.value
  }

  function KeyNotIn<V>(ks: seq<Key>): Entry<V> -> bool {
    (e: Entry<V>) => e.key !in ks
  }

  function Without<V>(store: seq<Entry<V>>, k: Key): seq<Entry<V>> {
    Filter(KeyIsNot(k), store)
  }

  function Purged<V>(store: seq<Entry<V>>, now: int): seq<Entry<V>> {
    Filter(NotDue(now), store)
  }

  /** What get and exists treat as expired: "now > expiry", one tick later than the purge. */
  predicate Expired<V>(e: Entry<V>, now: int) {
    e.expiry.Some? && now > e.expiry.value
  }

  function IndexOf<V>(store: seq<Entry<V>>, k: Key): (i: nat)
    ensures i <= |store|
    ensures i < |store| ==> store[i].key == k
    ensures forall j :: 0 <= j < i ==> store[j].key != k
  {
    if store == [] then 0
    else if store[0].key == k then 0
    else 1 + IndexOf(store[1..], k)
  }

  predicate Has<V>(store: seq<Entry<V>>, k: Key) {
    IndexOf(store, k) < |store|
  }

  function GetStep<V>(s: Lru<V>, k: Key, now: int): (Lru<V>, Reply<V>) {
    var i := IndexOf(s.store, k);
    if i == |s.store| then (s.(misses := s.misses + 1), Found(None))
    else
      var e := s.store[i];
      if Expired(e, now) then (s.(store := Without(s.store, k), misses := s.misses + 1), Found(None))
      else (s.(store := Without(s.store, k) + [e], hits := s.hits + 1), Found(e.value))
  }

  function Deadline(now: int, ttl: Option<int>): Option<int> {
    if ttl.Some? then Some(now + ttl.value) else None
  }

  /** A set evicts when the key is new and the tier is at capacity. */
  predicate Evicts<V>(s: Lru<V>, k: Key) {
    !Has(s.store, k) && |s.store| >= s.maxSize
  }

  /** What stays in front of the entry being written. */
  function Room<V>(s: Lru<V>, k: Key): seq<Entry<V>> {
    if Evicts(s, k) && s.store != [] then s.store[1..] else Without(s.store, k)
  }

  /** A full tier drops its first entry for a new key; a tier of size 0 raises from next(iter({})). */
  function SetStep<V>(s: Lru<V>, k: Key, v: Option<V>, ttl: Option<int>, now: int): (Lru<V>, Reply<V>) {
    var counted := s.(sets := s.sets + 1);
    if Evicts(s, k) && s.store == [] then (counted, StopIteration)
    else
      var full := Room(s, k) + [Entry(k, v, Deadline(now, ttl))];
      var kept := if counted.sets % 100 == 0 then Purged(full, now) else full;
      (counted.(store := kept, evictions := s.evictions + if Evicts(s, k) then 1 else 0), Answer(true))
  }

  function DeleteStep<V>(s: Lru<V>, k: Key): (Lru<V>, Reply<V>) {
    (s.(store := Without(s.store, k)), Answer(Has(s.store, k)))
  }

  function ExistsStep<V>(s: Lru<V>, k: Key, now: int): (Lru<V>, Reply<V>) {
    var i := IndexOf(s.store, k);
    if i == |s.store| then (s, Answer(false))
    else if Expired(s.store[i], now) then (s.(store := Without(s.store, k)), Answer(false))
    else (s, Answer(true))
  }

  function ClearStep<V>(s: Lru<V>): (Lru<V>, Reply<V>) {
    (s.(store := []), Count(|s.store|))
  }

  function Apply<V>(s: Lru<V>, op: Op<V>, now: int): (Lru<V>, Reply<V>) {
    match op
    case Get(k) => GetStep(s, k, now)
    case Set(k, v, ttl) => SetStep(s, k, v, ttl, now)
    case Delete(k) => DeleteStep(s, k)
    case Exists(k) => ExistsStep(s, k, now)
    case Clear => ClearStep(s)
  }

  /** One operation and the clock it reads. */
  datatype Timed<+V> = Timed(now: int, op: Op<V>)

  function Run<V>(s: Lru<V>, ops: seq<Timed<V>>): Lru<V>
    decreases |ops|
  {
    if ops == [] then s else Run(Apply(s, ops[0].op, ops[0].now).0, ops[1..])
  }

  // ----- the invariant of the tier -----

  ghost predicate UniqueKeys<V>(store: seq<Entry<V>>) {
    forall i, j :: 0 <= i < j < |store| ==> store[i].key != store[j].key
  }

  ghost predicate Valid<V>(s: Lru<V>) {
    UniqueKeys(s.store) && |s.store| <= s.maxSize
  }

  lemma {:induction false} FilterUnique<V>(p: Entry<V> -> bool, store: seq<Entry<V>>)
    requires UniqueKeys(store)
    ensures UniqueKeys(Filter(p, store))
  {
    if store != [] {
      FilterUnique(p, store[1..]);
      FilterMember(p, store[1..]);
      var rest := Filter(p, store[1..]);
      forall i | 0 <= i < |rest| ensures rest[i].key != store[0].key {
        var x := rest[i];
        assert x in Filter(p, store[1..]);
        assert x in store[1..];
        var j :| 0 <= j < |store[1..]| && store[1..][j] == rest[i];
        assert store[j + 1] == rest[i];
      }
    }
  }

  /** Looking a key up finds its only entry, and deleting a present key removes exactly one entry. */
  lemma {:induction false} WithoutSplits<V>(store: seq<Entry<V>>, k: Key)
    requires UniqueKeys(store)
    ensures var i := IndexOf(store, k);
      Without(store, k) == if i < |store| then store[..i] + store[i + 1..] else store
  {
    var i := IndexOf(store, k);
    if i < |store| {
      assert store == store[..i] + ([store[i]] + store[i + 1..]);
      FilterConcat(KeyIsNot(k), store[..i], [store[i]] + store[i + 1..]);
      FilterAll(KeyIsNot(k), store[..i]);
      FilterAll(KeyIsNot(k), store[i + 1..]);
    } else {
      FilterAll(KeyIsNot(k), store);
    }
  }

  lemma AppendUnique<V>(store: seq<Entry<V>>, e: Entry<V>)
    requires UniqueKeys(store)
    requires forall x :: x in store ==> x.key != e.key
    ensures UniqueKeys(store + [e])
  {
    forall i, j | 0 <= i < j < |store + [e]| ensures (store + [e])[i].key != (store + [e])[j].key {
      assert store[i] in store;
    }
  }

  lemma AbsentMeansNoEntry<V>(store: seq<Entry<V>>, k: Key)
    ensures Has(store, k) <==> exists e :: e in store && e.key == k
  {
    if Has(store, k) {
      assert store[IndexOf(store, k)] in store;
    }
  }

  lemma SetKeepsValid<V>(s: Lru<V>, k: Key, v: Option<V>, ttl: Option<int>, now: int)
    requires Valid(s)
    ensures Valid(SetStep(s, k, v, ttl, now).0)
  {
    RoomIsUnique(s, k);
    if !(Evicts(s, k) && s.store == []) {
      var e := Entry(k, v, Deadline(now, ttl));
      AppendUnique(Room(s, k), e);
      FilterUnique(NotDue(now), Room(s, k) + [e]);
    }
  }

  lemma RoomIsUnique<V>(s: Lru<V>, k: Key)
    requires Valid(s)
    ensures Evicts(s, k) && s.store == [] ==> s.maxSize == 0
    ensures !(Evicts(s, k) && s.store == []) ==>
      UniqueKeys(Room(s, k)) && |Room(s, k)| < s.maxSize && forall x :: x in Room(s, k) ==> x.key != k
  {
    FilterUnique(KeyIsNot(k), s.store);
    FilterMember(KeyIsNot(k), s.store);
    WithoutSplits(s.store, k);
    AbsentMeansNoEntry(s.store, k);
  }

  /** Every operation keeps the keys distinct and the tier within max_size. */
  lemma ApplyKeepsValid<V>(s: Lru<V>, op: Op<V>, now: int)
    requires Valid(s)
    ensures Valid(Apply(s, op, now).0)
    ensures Apply(s, op, now).0.maxSize == s.maxSize
  {
    match op
    case Get(k) =>
      FilterUnique(KeyIsNot(k), s.store);
      WithoutSplits(s.store, k);
      if Has(s.store, k) {
        AppendUnique(Without(s.store, k), s.store[IndexOf(s.store, k)]);
      }
    case Set(k, v, ttl) => SetKeepsValid(s, k, v, ttl, now);
    case Delete(k) => FilterUnique(KeyIsNot(k), s.store);
    case Exists(k) => FilterUnique(KeyIsNot(k), s.store);
    case Clear =>
  }

  /** In every run the tier never exceeds max_size, and never holds a key twice. */
  lemma {:induction false} RunKeepsValid<V>(s: Lru<V>, ops: seq<Timed<V>>)
    requires Valid(s)
    ensures Valid(Run(s, ops)) && Run(s, ops).maxSize == s.maxSize
    decreases |ops|
  {
    if ops != [] {
      ApplyKeepsValid(s, ops[0].op, ops[0].now);
      RunKeepsValid(Apply(s, ops[0].op, ops[0].now).0, ops[1..]);
    }
  }

  // ----- the mutable object -----

  class MemoryLRUBackend<V> {
    const maxSize: nat
    var store: seq<Entry<V>>
    var hits: nat
    var misses: nat
    var sets: nat
    var evictions: nat

    ghost function Model(): Lru<V>
      reads this
    {
      Lru(maxSize, store, hits, misses, sets, evictions)
    }

    constructor (maxSize: nat)
      ensures Model() == Empty(maxSize) && Valid(Model())
    {
      this.maxSize := maxSize;
      store := [];
      hits, misses, sets, evictions := 0, 0, 0, 0;
    }

    /** The dictionary deletion that every method below uses. */
    method Remove(k: Key)
      requires UniqueKeys(store)
      modifies this`store
      ensures store == Without(old(store), k) && UniqueKeys(store)
    {
      FilterUnique(KeyIsNot(k), store);
      WithoutSplits(store, k);
      var at := IndexOf(store, k);
      if at < |store| {
        store := store[..at] + store[at + 1..];
      }
    }

    method Get(k: Key, now: int) returns (value: Option<V>)
      requires Valid(Model())
      modifies this
      ensures Valid(Model()) && (Model(), Found(value)) == GetStep(old(Model()), k, now)
    {
      ApplyKeepsValid(Model(), Op.Get(k), now);
      var i := IndexOf(store, k);
      if i == |store| {
        misses := misses + 1;
        return None;
      }
      var e := store[i];
      if e.expiry.Some? && now > e.expiry.value {
        Remove(k);
        misses := misses + 1;
        return None;
      }
      Remove(k);
      store := store + [e];
      hits := hits + 1;
      return e.value;
    }

    /** The answer Err models the StopIteration of a tier of size 0. */
    method Set(k: Key, v: Option<V>, ttl: Option<int>, now: int) returns (r: Result<bool, Reply<V>>)
      requires Valid(Model())
      modifies this
      ensures Valid(Model())
      ensures (Model(), if r.Ok? then Answer(r.value) else r.error) == SetStep(old(Model()), k, v, ttl, now)
    {
      ghost var before := Model();
      SetKeepsValid(before, k, v, ttl, now);
      RoomIsUnique(before, k);
      sets := sets + 1;
      if !Has(store, k) && |store| >= maxSize {
        if store == [] {
          return Err(StopIteration);
        }
        store := store[1..];
        evictions := evictions + 1;
      } else {
        Remove(k);
      }
      assert store == Room(before, k);
      AppendUnique(store, Entry(k, v, Deadline(now, ttl)));
      store := store + [Entry(k, v, Deadline(now, ttl))];
      if sets % 100 == 0 {
        PurgeExpired(now);
      }
      return Ok(true);
    }

    method DueKeys(now: int) returns (due: seq<Key>)
      requires UniqueKeys(store)
      ensures forall e :: e in store ==> (e.key !in due <==> NotDue(now)(e))
    {
      due := [];
      for i := 0 to |store|
        invariant forall j :: 0 <= j < i ==> (store[j].key !in due <==> NotDue(now)(store[j]))
        invariant forall j :: i <= j < |store| ==> store[j].key !in due
      {
        if store[i].expiry.Some? && store[i].expiry.value <= now {
          due := due + [store[i].key];
        }
      }
    }

    /** Collects the keys due for removal, then deletes them one by one. */
    method PurgeExpired(now: int)
      requires UniqueKeys(store)
      modifies this`store
      ensures store == Purged(old(store), now)
    {
      var toDelete := DueKeys(now);
      ghost var all := store;
      FilterAll(KeyNotIn([]), all);
      for i := 0 to |toDelete|
        invariant UniqueKeys(store)
        invariant store == Filter(KeyNotIn(toDelete[..i]), all)
      {
        FilterTwice(KeyNotIn(toDelete[..i]), KeyIsNot(toDelete[i]), KeyNotIn(toDelete[..i + 1]), all);
        Remove(toDelete[i]);
      }
      assert toDelete[..|toDelete|] == toDelete;
      FilterAgrees(KeyNotIn(toDelete), NotDue(now), all);
    }

    method Delete(k: Key) returns (deleted: bool)
      requires Valid(Model())
      modifies this`store
      ensures Valid(Model()) && (Model(), Answer(deleted)) == DeleteStep(old(Model()), k)
    {
      ApplyKeepsValid(Model(), Op.Delete(k), 0);
      WithoutSplits(store, k);
      var i := IndexOf(store, k);
      deleted := i < |store|;
      if deleted {
        Remove(k);
      }
    }

    method Exists(k: Key, now: int) returns (present: bool)
      requires Valid(Model())
      modifies this`store
      ensures Valid(Model()) && (Model(), Answer(present)) == ExistsStep(old(Model()), k, now)
    {
      ApplyKeepsValid(Model(), Op.Exists(k), now);
      WithoutSplits(store, k);
      var i := IndexOf(store, k);
      if i == |store| {
        return false;
      }
      if store[i].expiry.Some? && now > store[i].expiry.value {
        Remove(k);
        return false;
      }
      return true;
    }

    method Clear() returns (n: nat)
      requires Valid(Model())
      modifies this`store
      ensures Valid(Model()) && (Model(), Count(n)) == ClearStep(old(Model()))
    {
      n := |store|;
      store := [];
    }
  }
}
