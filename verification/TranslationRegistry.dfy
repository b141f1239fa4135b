/**
  Single-flight translation under a bulkhead, as interleaved steps. The first call for a key becomes its
  leader and tries the backends in priority order; later calls for the key follow the leader's future. A step
  resumes one call with the outcome of what it awaited: the cache, a backend, or a future.
 */
module TranslationRegistry {
  import opened Wrappers
  import opened Seqs
  import Bulkheads

  type Key = string

  datatype Backend = Backend(id: string, enabled: bool, registered: bool, priority: int)

  datatype Outcome<+R> = Translated(backend: string, value: R) | AllFailed(last: Option<string>)

  /** A future is settled by the call that owns it; owner is that call's index. */
  datatype Future<+R> = Future(key: Key, owner: nat, outcome: Option<Outcome<R>>)

  /** errors lists what the backends tried so far raised, in order. */
  datatype Call<+R> =
    | Asking(key: Key)
    | Leading(key: Key, future: nat, errors: seq<string>)
    | Storing(key: Key, future: nat, errors: seq<string>, value: R)
    | Following(key: Key, future: nat)
    | FromCache(key: Key, value: R)
    | Led(key: Key, future: nat, errors: seq<string>, outcome: Outcome<R>)
    | Followed(key: Key, future: nat, outcome: Outcome<R>)
    | TurnedAway(key: Key, future: nat)

  datatype State<+R> = State(
    backends: seq<Backend>, bulkhead: Bulkheads.State, inFlight: map<Key, nat>, futures: seq<Future<R>>, calls: seq<Call<R>>)

  datatype Event<+R> =
    | Begin(key: Key)
    | CacheHit(call: nat, value: R)
    | CacheMiss(call: nat)
    | BackendAnswers(call: nat, value: R, cacheable: bool)
    | BackendRaises(call: nat, error: string)
    | StoreDone(call: nat)
    | StoreRaises(call: nat, error: string)
    | Wake(call: nat)

  // ----- the order in which backends are tried -----

  function Priority(): Backend -> int {
    (b: Backend) => b.priority
  }

  function Usable(): Backend -> bool {
    (b: Backend) => b.enabled && b.registered
  }

  function Candidates(configs: seq<Backend>): seq<Backend> {
    Filter(Usable(), StableSort(Priority(), configs))
  }

  lemma {:induction false} FilterSorted(s: seq<Backend>)
    requires SortedBy(Priority(), s)
    ensures SortedBy(Priority(), Filter(Usable(), s))
  {
    if s != [] {
      FilterSorted(s[1..]);
      var rest := Filter(Usable(), s[1..]);
      FilterMember(Usable(), s[1..]);
      forall j | 0 <= j < |rest| ensures s[0].priority <= rest[j].priority {
        assert rest[j] in rest && rest[j] in s[1..];
        var i :| 0 <= i < |s[1..]| && s[1..][i] == rest[j];
        assert Priority()(s[0]) <= Priority()(s[i + 1]);
      }
    }
  }

  /** The candidates are the enabled, registered backends, by ascending priority, in configuration order among equals. */
  lemma CandidatesInOrder(configs: seq<Backend>, v: int)
    ensures forall b :: b in Candidates(configs) <==> b in configs && b.enabled && b.registered
    ensures SortedBy(Priority(), Candidates(configs))
    ensures Filter(KeyIs(Priority(), v), Candidates(configs)) == Filter(Usable(), Filter(KeyIs(Priority(), v), configs))
  {
    var sorted := StableSort(Priority(), configs);
    StableSortSorts(Priority(), configs);
    StableSortIsStable(Priority(), configs, v);
    FilterSorted(sorted);
    FilterMember(Usable(), sorted);
    forall b ensures b in sorted <==> b in configs {
      assert b in multiset(sorted) <==> b in multiset(configs);
    }
    var both := (b: Backend) => b.priority == v && b.enabled && b.registered;
    FilterTwice(Usable(), KeyIs(Priority(), v), both, sorted);
    FilterTwice(KeyIs(Priority(), v), Usable(), both, sorted);
  }

  // ----- steps -----

  function Initial<R>(configs: seq<Backend>, maxConcurrent: nat): State<R> {
    State(Candidates(configs), Bulkheads.Fresh(maxConcurrent, Some(0)), map[], [], [])
  }

  predicate IsLeader<R>(c: Call<R>) {
    c.Leading? || c.Storing?
  }

  /** A leader owns a future, holds a bulkhead slot and is at some backend; LeadersCanProceed proves that it always does. */
  predicate HasSlot<R>(s: State<R>, t: nat)
    requires t < |s.calls| && IsLeader(s.calls[t])
  {
    s.calls[t].future < |s.futures| && s.bulkhead.current > 0 && |s.calls[t].errors| < |s.backends|
  }

  predicate Enabled<R>(s: State<R>, e: Event<R>) {
    match e
    case Begin(_) => true
    case CacheHit(t, _) => t < |s.calls| && s.calls[t].Asking?
    case CacheMiss(t) => t < |s.calls| && s.calls[t].Asking?
    case BackendAnswers(t, _, _) => t < |s.calls| && s.calls[t].Leading? && HasSlot(s, t)
    case BackendRaises(t, _) => t < |s.calls| && s.calls[t].Leading? && HasSlot(s, t)
    case StoreDone(t) => t < |s.calls| && s.calls[t].Storing? && HasSlot(s, t)
    case StoreRaises(t, _) => t < |s.calls| && s.calls[t].Storing? && HasSlot(s, t)
    case Wake(t) => t < |s.calls| && s.calls[t].Following? && s.calls[t].future < |s.futures| && s.futures[s.calls[t].future].outcome.Some?
  }

  function Put<R>(s: State<R>, t: nat, c: Call<R>): State<R>
    requires t < |s.calls|
  {
    s.(calls := s.calls[t := c])
  }

  /** The leader's last section: settle the future, release the slot, drop the in-flight entry. */
  function Settle<R>(s: State<R>, t: nat, errors: seq<string>, outcome: Outcome<R>): State<R>
    requires t < |s.calls| && IsLeader(s.calls[t]) && s.calls[t].future < |s.futures| && s.bulkhead.current > 0
  {
    var c := s.calls[t];
    s.(futures := s.futures[c.future := s.futures[c.future].(outcome := Some(outcome))],
       bulkhead := Bulkheads.Release(s.bulkhead),
       inFlight := s.inFlight - {c.key},
       calls := s.calls[t := Led(c.key, c.future, errors, outcome)])
  }

  /** Goes on with the next backend, or fails the call when none is left. */
  function NextBackend<R>(s: State<R>, t: nat, errors: seq<string>): State<R>
    requires t < |s.calls| && IsLeader(s.calls[t]) && s.calls[t].future < |s.futures| && s.bulkhead.current > 0
  {
    if |errors| < |s.backends| then Put(s, t, Leading(s.calls[t].key, s.calls[t].future, errors))
    else Settle(s, t, errors, AllFailed(if errors == [] then None else Some(errors[|errors| - 1])))
  }

  /** After a cache miss: follow the key's future if there is one; otherwise register a new one, then ask the bulkhead. */
  function Register<R>(s: State<R>, t: nat): State<R>
    requires t < |s.calls|
  {
    var key := s.calls[t].key;
    if key in s.inFlight then Put(s, t, Following(key, s.inFlight[key]))
    else
      var f := |s.futures|;
      var (bulkhead, answer) := Bulkheads.TryAcquire(s.bulkhead);
      var with := s.(futures := s.futures + [Future(key, t, None)], inFlight := s.inFlight[key := f], bulkhead := bulkhead);
      if answer.Granted? then NextBackend(Put(with, t, Leading(key, f, [])), t, [])
      else Put(with, t, TurnedAway(key, f))
  }

  function Next<R>(s: State<R>, e: Event<R>): State<R>
    requires Enabled(s, e)
  {
    match e
    case Begin(key) => s.(calls := s.calls + [Asking(key)])
    case CacheHit(t, v) => Put(s, t, FromCache(s.calls[t].key, v))
    case CacheMiss(t) => Register(s, t)
    case BackendAnswers(t, v, cacheable) =>
      var c := s.calls[t];
      if cacheable then Put(s, t, Storing(c.key, c.future, c.errors, v))
      else Settle(s, t, c.errors, Translated(s.backends[|c.errors|].id, v))
    case BackendRaises(t, error) => NextBackend(s, t, s.calls[t].errors + [error])
    case StoreDone(t) =>
      var c := s.calls[t];
      Settle(s, t, c.errors, Translated(s.backends[|c.errors|].id, c.value))
    case StoreRaises(t, error) => NextBackend(s, t, s.calls[t].errors + [error])
    case Wake(t) => Put(s, t, Followed(s.calls[t].key, s.calls[t].future, s.futures[s.calls[t].future].outcome.value))
  }

  ghost predicate IsRun<R>(s: State<R>, events: seq<Event<R>>)
    decreases |events|
  {
    events == [] || (Enabled(s, events[0]) && IsRun(Next(s, events[0]), events[1..]))
  }

  function Run<R>(s: State<R>, events: seq<Event<R>>): State<R>
    requires IsRun(s, events)
    decreases |events|
  {
    if events == [] then s else Run(Next(s, events[0]), events[1..])
  }

  // ----- the invariant -----

  function Leaders<R>(calls: seq<Call<R>>): nat {
    if calls == [] then 0 else Leaders(calls[..|calls| - 1]) + if IsLeader(calls[|calls| - 1]) then 1 else 0
  }

  lemma {:induction false} LeadersUpdate<R>(calls: seq<Call<R>>, t: nat, c: Call<R>)
    requires t < |calls|
    ensures Leaders(calls[t := c]) + (if IsLeader(calls[t]) then 1 else 0) == Leaders(calls) + (if IsLeader(c) then 1 else 0)
    ensures IsLeader(calls[t]) ==> Leaders(calls) > 0
  {
    var n := |calls| - 1;
    if t < n {
      LeadersUpdate(calls[..n], t, c);
      assert calls[t := c][..n] == calls[..n][t := c];
    } else {
      assert calls[t := c][..n] == calls[..n];
    }
  }

  /** The bulkhead counts exactly the leaders, and nobody waits for it. */
  ghost predicate SlotsCounted<R>(s: State<R>) {
    && Bulkheads.Inv(s.bulkhead) && s.bulkhead.queueSize == Some(0)
    && s.bulkhead.current == Leaders(s.calls)
  }

  ghost predicate OwnsPending<R>(s: State<R>, t: nat, key: Key, f: nat) {
    && f < |s.futures| && s.futures[f] == Future(key, t, None)
    && key in s.inFlight && s.inFlight[key] == f
  }

  ghost predicate OwnsSettled<R>(s: State<R>, t: nat, key: Key, f: nat, outcome: Outcome<R>) {
    f < |s.futures| && s.futures[f] == Future(key, t, Some(outcome))
  }

  ghost predicate CallOk<R>(s: State<R>, t: nat)
    requires t < |s.calls|
  {
    match s.calls[t]
    case Asking(_) => true
    case FromCache(_, _) => true
    case Leading(key, f, errors) => OwnsPending(s, t, key, f) && |errors| < |s.backends|
    case Storing(key, f, errors, _) => OwnsPending(s, t, key, f) && |errors| < |s.backends|
    case TurnedAway(key, f) => OwnsPending(s, t, key, f)
    case Led(key, f, _, outcome) => OwnsSettled(s, t, key, f, outcome)
    case Following(key, f) => f < |s.futures| && s.futures[f].key == key
    case Followed(key, f, outcome) => f < |s.futures| && s.futures[f].key == key && s.futures[f].outcome == Some(outcome)
  }

  /** A future belongs to a call: pending while its owner leads or was turned away, settled when its owner has led. */
  ghost predicate FutureOk<R>(s: State<R>, f: nat)
    requires f < |s.futures|
  {
    var future := s.futures[f];
    future.owner < |s.calls| && match s.calls[future.owner]
    case Leading(key, g, _) => g == f
    case Storing(key, g, _, _) => g == f
    case TurnedAway(key, g) => g == f
    case Led(key, g, _, _) => g == f
    case _ => false
  }

  ghost predicate Inv<R>(s: State<R>) {
    && SlotsCounted(s)
    && (forall t :: 0 <= t < |s.calls| ==> CallOk(s, t))
    && (forall f :: 0 <= f < |s.futures| ==> FutureOk(s, f))
    && forall k :: k in s.inFlight ==> s.inFlight[k] < |s.futures| && s.futures[s.inFlight[k]].key == k && s.futures[s.inFlight[k]].outcome.None?
  }

  lemma SettleKeepsInv<R>(s: State<R>, t: nat, errors: seq<string>, outcome: Outcome<R>)
    requires Inv(s) && t < |s.calls| && IsLeader(s.calls[t]) && HasSlot(s, t)
    ensures Inv(Settle(s, t, errors, outcome))
  {
    var next, c := Settle(s, t, errors, outcome), s.calls[t];
    assert CallOk(s, t);
    LeadersUpdate(s.calls, t, next.calls[t]);
    forall u | 0 <= u < |next.calls| ensures CallOk(next, u) {
      assert CallOk(s, u);
    }
    forall f | 0 <= f < |next.futures| ensures FutureOk(next, f) {
      assert FutureOk(s, f);
    }
  }

  lemma PutKeepsInv<R>(s: State<R>, t: nat, c: Call<R>)
    requires Inv(s) && t < |s.calls| && IsLeader(s.calls[t]) && IsLeader(c) && c.key == s.calls[t].key && c.future == s.calls[t].future
    requires |c.errors| < |s.backends|
    ensures Inv(Put(s, t, c))
  {
    var next := Put(s, t, c);
    LeadersUpdate(s.calls, t, c);
    forall u | 0 <= u < |next.calls| ensures CallOk(next, u) {
      assert CallOk(s, u);
    }
    forall f | 0 <= f < |next.futures| ensures FutureOk(next, f) {
      assert FutureOk(s, f);
    }
  }

  lemma NextBackendKeepsInv<R>(s: State<R>, t: nat, errors: seq<string>)
    requires Inv(s) && t < |s.calls| && IsLeader(s.calls[t]) && HasSlot(s, t) && |errors| <= |s.backends|
    ensures Inv(NextBackend(s, t, errors))
  {
    if |errors| < |s.backends| {
      PutKeepsInv(s, t, Leading(s.calls[t].key, s.calls[t].future, errors));
    } else {
      SettleKeepsInv(s, t, errors, AllFailed(if errors == [] then None else Some(errors[|errors| - 1])));
    }
  }

  /** A call that leads or owns no future may change to another such state. */
  lemma FreeCallKeepsInv<R>(s: State<R>, t: nat, c: Call<R>)
    requires Inv(s) && t < |s.calls| && (s.calls[t].Asking? || s.calls[t].Following?)
    requires c.FromCache? || c.Following? || c.Followed?
    requires CallOk(Put(s, t, c), t)
    ensures Inv(Put(s, t, c))
  {
    var next := Put(s, t, c);
    LeadersUpdate(s.calls, t, c);
    forall u | 0 <= u < |next.calls| ensures CallOk(next, u) {
      assert CallOk(s, u);
    }
    forall f | 0 <= f < |next.futures| ensures FutureOk(next, f) {
      assert FutureOk(s, f);
    }
  }

  lemma LeaderHasSlot<R>(s: State<R>, t: nat)
    requires Inv(s) && t < |s.calls| && IsLeader(s.calls[t])
    ensures HasSlot(s, t)
  {
    assert CallOk(s, t);
    LeadersUpdate(s.calls, t, s.calls[t]);
  }

  /** A fresh future owned by call t, which was asking, keeps every other call and future as it was. */
  lemma NewOwnerKeepsInv<R>(s: State<R>, t: nat, next: State<R>)
    requires Inv(s) && t < |s.calls| == |next.calls| && s.calls[t].Asking?
    requires var key, f, c := s.calls[t].key, |s.futures|, next.calls[t];
      && next.calls == s.calls[t := c] && next.backends == s.backends && SlotsCounted(next)
      && |next.futures| == f + 1 && next.futures[..f] == s.futures && CallOk(next, t)
      && key !in s.inFlight
      && ((c.Leading? && c.future == f && next.inFlight == s.inFlight[key := f])
          || (c.TurnedAway? && c.future == f && next.inFlight == s.inFlight[key := f])
          || (c.Led? && c.future == f && next.inFlight == s.inFlight))
    ensures Inv(next)
  {
    var f := |s.futures|;
    forall u | 0 <= u < |next.calls| ensures CallOk(next, u) {
      assert CallOk(s, u);
      assert forall g :: 0 <= g < f ==> next.futures[g] == s.futures[g];
    }
    forall g | 0 <= g < |next.futures| ensures FutureOk(next, g) {
      assert g < f ==> FutureOk(s, g) && next.futures[g] == s.futures[g];
    }
  }

  lemma RegisterKeepsInv<R>(s: State<R>, t: nat)
    requires Inv(s) && t < |s.calls| && s.calls[t].Asking?
    ensures Inv(Register(s, t))
  {
    var next, key := Register(s, t), s.calls[t].key;
    if key in s.inFlight {
      FreeCallKeepsInv(s, t, Following(key, s.inFlight[key]));
    } else {
      var c := next.calls[t];
      LeadersUpdate(s.calls, t, c);
      assert next.calls == s.calls[t := c];
      assert c.Led? ==> next.inFlight == s.inFlight;
      NewOwnerKeepsInv(s, t, next);
    }
  }

  lemma BeginKeepsInv<R>(s: State<R>, key: Key)
    requires Inv(s)
    ensures Inv(Next(s, Event.Begin(key)))
  {
    var next := Next(s, Event.Begin(key));
    assert next.calls[..|s.calls|] == s.calls;
    forall u | 0 <= u < |next.calls| ensures CallOk(next, u) {
      assert u < |s.calls| ==> CallOk(s, u) && next.calls[u] == s.calls[u];
    }
    forall f | 0 <= f < |next.futures| ensures FutureOk(next, f) {
      assert FutureOk(s, f);
    }
  }

  lemma StepKeepsInv<R>(s: State<R>, e: Event<R>)
    requires Inv(s) && Enabled(s, e)
    ensures Inv(Next(s, e))
  {
    match e
    case Begin(key) => BeginKeepsInv(s, key);
    case CacheHit(t, v) => FreeCallKeepsInv(s, t, FromCache(s.calls[t].key, v));
    case CacheMiss(t) => RegisterKeepsInv(s, t);
    case BackendAnswers(t, v, cacheable) =>
      var c := s.calls[t];
      if cacheable {
        PutKeepsInv(s, t, Storing(c.key, c.future, c.errors, v));
      } else {
        SettleKeepsInv(s, t, c.errors, Translated(s.backends[|c.errors|].id, v));
      }
    case BackendRaises(t, error) => NextBackendKeepsInv(s, t, s.calls[t].errors + [error]);
    case StoreDone(t) =>
      var c := s.calls[t];
      SettleKeepsInv(s, t, c.errors, Translated(s.backends[|c.errors|].id, c.value));
    case StoreRaises(t, error) => NextBackendKeepsInv(s, t, s.calls[t].errors + [error]);
    case Wake(t) =>
      assert CallOk(s, t);
      FreeCallKeepsInv(s, t, Followed(s.calls[t].key, s.calls[t].future, s.futures[s.calls[t].future].outcome.value));
  }

  lemma {:induction false} RunKeepsInv<R>(s: State<R>, events: seq<Event<R>>)
    requires Inv(s) && IsRun(s, events)
    ensures Inv(Run(s, events)) && Run(s, events).backends == s.backends
    ensures Run(s, events).bulkhead.maxConcurrent == s.bulkhead.maxConcurrent
    decreases |events|
  {
    if events != [] {
      StepKeepsInv(s, events[0]);
      RunKeepsInv(Next(s, events[0]), events[1..]);
    }
  }

  // ----- single flight -----

  predicate LeadSameKey<R>(c: Call<R>, d: Call<R>) {
    IsLeader(c) && IsLeader(d) && c.key == d.key
  }

  /** In every reachable state a key has at most one leader, and the bulkhead's count is the number of leaders, within its limit. */
  lemma OneLeaderPerKey<R>(configs: seq<Backend>, max: nat, events: seq<Event<R>>)
    requires IsRun(Initial<R>(configs, max), events)
    ensures var s := Run(Initial<R>(configs, max), events);
      && s.bulkhead.current == Leaders(s.calls) <= max
      && forall t, u :: 0 <= t < |s.calls| && 0 <= u < |s.calls| && LeadSameKey(s.calls[t], s.calls[u]) ==> t == u
  {
    RunKeepsInv(Initial<R>(configs, max), events);
    var s := Run(Initial<R>(configs, max), events);
    forall t, u | 0 <= t < |s.calls| && 0 <= u < |s.calls| && LeadSameKey(s.calls[t], s.calls[u]) ensures t == u {
      assert CallOk(s, t) && CallOk(s, u);
    }
  }

  /** A leader is never stuck: whatever its backend or its store does next, in every reachable state, is a step of the model. */
  lemma LeadersCanProceed<R>(configs: seq<Backend>, max: nat, events: seq<Event<R>>, t: nat, v: R, cacheable: bool, error: string)
    requires IsRun(Initial<R>(configs, max), events)
    requires t < |Run(Initial<R>(configs, max), events).calls|
    ensures var s := Run(Initial<R>(configs, max), events);
      && (s.calls[t].Leading? ==> Enabled(s, Event.BackendAnswers(t, v, cacheable)) && Enabled(s, Event.BackendRaises(t, error)))
      && (s.calls[t].Storing? ==> Enabled(s, Event.StoreDone(t)) && Enabled(s, Event.StoreRaises(t, error)))
  {
    RunKeepsInv(Initial<R>(configs, max), events);
    var s := Run(Initial<R>(configs, max), events);
    if IsLeader(s.calls[t]) {
      LeaderHasSlot(s, t);
    }
  }

  // ----- what a call returns -----

  datatype Reply<+R> = Answers(value: R, cacheable: bool) | Raises(error: string)

  /**
    What the outside does in a run: the key call t asks for, what the cache finds for it, how the i-th candidate
    replies to call t, and what storing that answer raises, if anything.
   */
  datatype World<!R> = World(
    asked: nat -> Key, cached: nat -> Option<R>, replies: (nat, nat) -> Reply<R>, storeRaises: (nat, nat) -> Option<string>)

  /** The event is what this world does at that point. */
  predicate Happens<R(==)>(w: World<R>, s: State<R>, e: Event<R>)
    requires Enabled(s, e)
  {
    match e
    case Begin(key) => w.asked(|s.calls|) == key
    case CacheHit(t, v) => w.cached(t) == Some(v)
    case CacheMiss(t) => w.cached(t) == None
    case BackendAnswers(t, v, cacheable) => w.replies(t, |s.calls[t].errors|) == Answers(v, cacheable)
    case BackendRaises(t, error) => w.replies(t, |s.calls[t].errors|) == Raises(error)
    case StoreDone(t) => w.storeRaises(t, |s.calls[t].errors|) == None
    case StoreRaises(t, error) => w.storeRaises(t, |s.calls[t].errors|) == Some(error)
    case Wake(_) => true
  }

  ghost predicate RunIn<R>(w: World<R>, s: State<R>, events: seq<Event<R>>)
    requires IsRun(s, events)
    decreases |events|
  {
    events == [] || (Happens(w, s, events[0]) && RunIn(w, Next(s, events[0]), events[1..]))
  }

  /** Candidate i serves call t: it answers, and its answer need not be stored or is stored without raising. */
  predicate Works<R>(w: World<R>, t: nat, i: nat) {
    w.replies(t, i).Answers? && (w.replies(t, i).cacheable ==> w.storeRaises(t, i).None?)
  }

  /** What went wrong with a candidate that did not serve the call. */
  function ErrorOf<R>(w: World<R>, t: nat, i: nat): string
    requires !Works(w, t, i)
  {
    if w.replies(t, i).Raises? then w.replies(t, i).error else w.storeRaises(t, i).value
  }

  /** The first n candidates all failed call t. */
  ghost predicate NoneBefore<R>(w: World<R>, t: nat, n: nat) {
    forall i :: 0 <= i < n ==> !Works(w, t, i)
  }

  /** The outcome is the answer of the first candidate that serves the call, or, when none does, the failure of all with the last one's error. */
  ghost predicate FirstThatWorked<R>(w: World<R>, t: nat, backends: seq<Backend>, outcome: Outcome<R>) {
    match outcome
    case Translated(id, value) =>
      exists i :: 0 <= i < |backends| && Works(w, t, i) && NoneBefore(w, t, i) && id == backends[i].id && value == w.replies(t, i).value
    case AllFailed(last) =>
      && NoneBefore(w, t, |backends|)
      && last == if backends == [] then None else Some(ErrorOf(w, t, |backends| - 1))
  }

  /** The errors a leader remembers are those of the candidates it tried, in order. */
  ghost predicate Remembers<R>(w: World<R>, t: nat, errors: seq<string>) {
    NoneBefore(w, t, |errors|) && forall i :: 0 <= i < |errors| ==> errors[i] == ErrorOf(w, t, i)
  }

  /** Where call t stands is where this world has brought it. */
  ghost predicate Truthful<R>(w: World<R>, backends: seq<Backend>, c: Call<R>, t: nat) {
    && c.key == w.asked(t)
    && match c
       case Asking(_) => true
       case FromCache(_, v) => w.cached(t) == Some(v)
       case Leading(_, _, errors) => w.cached(t) == None && Remembers(w, t, errors)
       case Storing(_, _, errors, v) =>
         w.cached(t) == None && Remembers(w, t, errors) && w.replies(t, |errors|) == Answers(v, true)
       case Led(_, _, _, outcome) => w.cached(t) == None && FirstThatWorked(w, t, backends, outcome)
       case _ => w.cached(t) == None
  }

  ghost predicate AllTruthful<R>(w: World<R>, s: State<R>) {
    forall t :: 0 <= t < |s.calls| ==> Truthful(w, s.backends, s.calls[t], t)
  }

  /** One more candidate failed; the next one is tried, or the call has failed with the last error. */
  lemma NextBackendIsTruthful<R>(w: World<R>, s: State<R>, t: nat, errors: seq<string>)
    requires t < |s.calls| && IsLeader(s.calls[t]) && s.calls[t].future < |s.futures| && s.bulkhead.current > 0
    requires s.calls[t].key == w.asked(t) && w.cached(t) == None && |errors| <= |s.backends| && Remembers(w, t, errors)
    ensures Truthful(w, s.backends, NextBackend(s, t, errors).calls[t], t)
  {
  }

  lemma AnswerIsTruthful<R>(w: World<R>, backends: seq<Backend>, t: nat, errors: seq<string>)
    requires |errors| < |backends| && Remembers(w, t, errors) && Works(w, t, |errors|)
    ensures FirstThatWorked(w, t, backends, Translated(backends[|errors|].id, w.replies(t, |errors|).value))
  {
  }

  /** Each step leaves the call it resumes where the world has brought it, and no other call moves. */
  lemma StepKeepsTruthful<R>(w: World<R>, s: State<R>, e: Event<R>)
    requires AllTruthful(w, s) && Enabled(s, e) && Happens(w, s, e)
    ensures AllTruthful(w, Next(s, e))
  {
    var next := Next(s, e);
    if e.Begin? {
      forall u | 0 <= u < |next.calls| ensures Truthful(w, next.backends, next.calls[u], u) {
        assert u < |s.calls| ==> next.calls[u] == s.calls[u];
      }
    } else {
      var t := e.call;
      assert Truthful(w, s.backends, s.calls[t], t);
      ResumedIsTruthful(w, s, e);
      forall u | 0 <= u < |next.calls| ensures Truthful(w, next.backends, next.calls[u], u) {
        assert u != t ==> next.calls[u] == s.calls[u];
      }
    }
  }

  lemma ResumedIsTruthful<R>(w: World<R>, s: State<R>, e: Event<R>)
    requires Enabled(s, e) && !e.Begin? && Happens(w, s, e) && Truthful(w, s.backends, s.calls[e.call], e.call)
    ensures Truthful(w, s.backends, Next(s, e).calls[e.call], e.call)
  {
    var t, c := e.call, s.calls[e.call];
    match e
    case CacheMiss(_) =>
      if c.key !in s.inFlight {
        var f := |s.futures|;
        var (bulkhead, answer) := Bulkheads.TryAcquire(s.bulkhead);
        var with := s.(futures := s.futures + [Future(c.key, t, None)], inFlight := s.inFlight[c.key := f], bulkhead := bulkhead);
        if answer.Granted? {
          NextBackendIsTruthful(w, Put(with, t, Leading(c.key, f, [])), t, []);
        }
      }
    case BackendAnswers(_, v, cacheable) => if !cacheable { AnswerIsTruthful(w, s.backends, t, c.errors); }
    case BackendRaises(_, error) => NextBackendIsTruthful(w, s, t, c.errors + [error]);
    case StoreDone(_) => AnswerIsTruthful(w, s.backends, t, c.errors);
    case StoreRaises(_, error) => NextBackendIsTruthful(w, s, t, c.errors + [error]);
    case _ =>
  }

  lemma {:induction false} RunKeepsTruthful<R>(w: World<R>, s: State<R>, events: seq<Event<R>>)
    requires AllTruthful(w, s) && IsRun(s, events) && RunIn(w, s, events)
    ensures AllTruthful(w, Run(s, events))
    decreases |events|
  {
    if events != [] {
      StepKeepsTruthful(w, s, events[0]);
      RunKeepsTruthful(w, Next(s, events[0]), events[1..]);
    }
  }

  /** Call u led on the key and future that call t follows. */
  ghost predicate LedFor<R>(s: State<R>, u: nat, t: nat) {
    && u < |s.calls| && t < |s.calls| && s.calls[t].Followed? && s.calls[u].Led?
    && s.calls[u].key == s.calls[t].key && s.calls[u].future == s.calls[t].future
  }

  /** Follower t returned what its leader u, who asked for the same key, got from the candidates. */
  ghost predicate ServedBy<R>(w: World<R>, s: State<R>, t: nat, u: nat, candidates: seq<Backend>) {
    && LedFor(s, u, t) && w.asked(u) == w.asked(t)
    && s.calls[t].outcome == s.calls[u].outcome && FirstThatWorked(w, u, candidates, s.calls[t].outcome)
  }

  /** What call t returned is what this world and the candidates give it. */
  ghost predicate Returned<R>(w: World<R>, s: State<R>, t: nat, candidates: seq<Backend>)
    requires t < |s.calls|
  {
    match s.calls[t]
    case FromCache(_, v) => w.cached(t) == Some(v)
    case Led(_, _, _, outcome) => w.cached(t) == None && FirstThatWorked(w, t, candidates, outcome)
    case Followed(_, _, _) => w.cached(t) == None && exists u: nat :: ServedBy(w, s, t, u, candidates)
    case _ => true
  }

  lemma TruthfulCallReturned<R>(w: World<R>, s: State<R>, t: nat)
    requires Inv(s) && AllTruthful(w, s) && t < |s.calls|
    ensures Returned(w, s, t, s.backends)
  {
    assert Truthful(w, s.backends, s.calls[t], t);
    if s.calls[t].Followed? {
      var u := FollowedLeader(s, t);
      assert Truthful(w, s.backends, s.calls[u], u);
      assert ServedBy(w, s, t, u, s.backends);
    }
  }

  /**
    What translate returns, in every run of every world: a cached value if the cache finds one; for a leader the
    value, with its backend, of the first enabled registered backend in priority order that neither raises nor
    fails to be stored, or the failure of all with the last one's error; for a follower exactly what its leader,
    who asked for the same key, returned.
   */
  lemma CallsReturnFirstThatWorked<R>(w: World<R>, configs: seq<Backend>, max: nat, events: seq<Event<R>>, t: nat)
    requires IsRun(Initial<R>(configs, max), events) && RunIn(w, Initial<R>(configs, max), events)
    requires t < |Run(Initial<R>(configs, max), events).calls|
    ensures Returned(w, Run(Initial<R>(configs, max), events), t, Candidates(configs))
  {
    var start := Initial<R>(configs, max);
    RunKeepsInv(start, events);
    RunKeepsTruthful(w, start, events);
    TruthfulCallReturned(w, Run(start, events), t);
  }

  lemma FollowedLeader<R>(s: State<R>, t: nat) returns (u: nat)
    requires Inv(s) && t < |s.calls| && s.calls[t].Followed?
    ensures LedFor(s, u, t) && s.calls[t].outcome == s.calls[u].outcome
  {
    assert CallOk(s, t) && FutureOk(s, s.calls[t].future);
    u := s.futures[s.calls[t].future].owner;
    assert CallOk(s, u);
  }

  // ----- every run is a run of some world -----

  /** What the run so far has settled about the world: nothing later in it asks for this again. */
  predicate ReplyFixed<R>(s: State<R>, t: nat, i: nat) {
    t < |s.calls| && !s.calls[t].Asking?
    && (s.calls[t].Leading? ==> i < |s.calls[t].errors|) && (s.calls[t].Storing? ==> i <= |s.calls[t].errors|)
  }

  predicate StoreFixed<R>(s: State<R>, t: nat, i: nat) {
    t < |s.calls| && !s.calls[t].Asking? && (IsLeader(s.calls[t]) ==> i < |s.calls[t].errors|)
  }

  ghost predicate SameWhereFixed<R>(w: World<R>, v: World<R>, s: State<R>) {
    && (forall t: nat :: t < |s.calls| ==> w.asked(t) == v.asked(t))
    && (forall t: nat :: t < |s.calls| && !s.calls[t].Asking? ==> w.cached(t) == v.cached(t))
    && (forall t: nat, i: nat :: ReplyFixed(s, t, i) ==> w.replies(t, i) == v.replies(t, i))
    && forall t: nat, i: nat :: StoreFixed(s, t, i) ==> w.storeRaises(t, i) == v.storeRaises(t, i)
  }

  /** The world changed so that the event happens in it. */
  function Made<R>(w: World<R>, s: State<R>, e: Event<R>): World<R>
    requires Enabled(s, e)
  {
    match e
    case Begin(key) => w.(asked := (n: nat) => if n == |s.calls| then key else w.asked(n))
    case CacheHit(t, v) => w.(cached := (n: nat) => if n == t then Some(v) else w.cached(n))
    case CacheMiss(t) => w.(cached := (n: nat) => if n == t then None else w.cached(n))
    case BackendAnswers(t, v, cacheable) =>
      w.(replies := (n: nat, i: nat) => if n == t && i == |s.calls[t].errors| then Answers(v, cacheable) else w.replies(n, i))
    case BackendRaises(t, error) =>
      w.(replies := (n: nat, i: nat) => if n == t && i == |s.calls[t].errors| then Raises(error) else w.replies(n, i))
    case StoreDone(t) =>
      w.(storeRaises := (n: nat, i: nat) => if n == t && i == |s.calls[t].errors| then None else w.storeRaises(n, i))
    case StoreRaises(t, error) =>
      w.(storeRaises := (n: nat, i: nat) => if n == t && i == |s.calls[t].errors| then Some(error) else w.storeRaises(n, i))
    case Wake(_) => w
  }

  /** A step settles what it asks for and unsettles nothing. */
  lemma StepFixes<R>(s: State<R>, e: Event<R>)
    requires Enabled(s, e)
    ensures var next := Next(s, e);
      && |s.calls| <= |next.calls| && (e.Begin? ==> |s.calls| < |next.calls|)
      && (forall t: nat :: t < |s.calls| && (!s.calls[t].Asking? || (!e.Begin? && e.call == t)) ==> !next.calls[t].Asking?)
      && (forall t: nat, i: nat :: ReplyFixed(s, t, i) ==> ReplyFixed(next, t, i))
      && (forall t: nat, i: nat :: StoreFixed(s, t, i) ==> StoreFixed(next, t, i))
      && (e.BackendAnswers? || e.BackendRaises? ==> ReplyFixed(next, e.call, |s.calls[e.call].errors|))
      && (e.StoreDone? || e.StoreRaises? ==> StoreFixed(next, e.call, |s.calls[e.call].errors|))
  {
  }

  lemma MadeHappens<R>(w: World<R>, s: State<R>, e: Event<R>)
    requires Enabled(s, e)
    ensures Happens(Made(w, s, e), s, e) && SameWhereFixed(Made(w, s, e), w, s)
  {
  }

  lemma FixedStillHappens<R>(w: World<R>, v: World<R>, s: State<R>, e: Event<R>)
    requires Enabled(s, e) && Happens(v, s, e) && SameWhereFixed(w, v, Next(s, e))
    ensures Happens(w, s, e)
  {
    StepFixes(s, e);
  }

  lemma {:induction false} WorldOf<R>(s: State<R>, events: seq<Event<R>>, v: World<R>) returns (w: World<R>)
    requires IsRun(s, events)
    ensures RunIn(w, s, events) && SameWhereFixed(w, v, s)
    decreases |events|
  {
    if events == [] {
      w := v;
    } else {
      var e := events[0];
      MadeHappens(v, s, e);
      w := WorldOf(Next(s, e), events[1..], Made(v, s, e));
      FixedStillHappens(w, Made(v, s, e), s, e);
      StepFixes(s, e);
    }
  }

  /** No run is left out: each is a run of some world. */
  lemma EveryRunHasAWorld<R(!new)>(configs: seq<Backend>, max: nat, events: seq<Event<R>>)
    requires IsRun(Initial<R>(configs, max), events)
    ensures exists w: World<R> :: RunIn(w, Initial<R>(configs, max), events)
  {
    var silent: World<R> := World(_ => "", _ => None, (_, _) => Raises(""), (_, _) => None);
    var w := WorldOf(Initial<R>(configs, max), events, silent);
  }

  // ----- waiters -----

  /** A waiter is stranded, with a pending future that nobody works on, exactly when the future's owner was turned away by the bulkhead. */
  lemma StrandedOnlyByRejection<R>(s: State<R>, t: nat)
    requires Inv(s) && t < |s.calls| && s.calls[t].Following?
    ensures var f := s.calls[t].future;
      && f < |s.futures| && s.futures[f].owner < |s.calls|
      && (Enabled(s, Event.Wake(t)) || IsLeader(s.calls[s.futures[f].owner]) <==> !s.calls[s.futures[f].owner].TurnedAway?)
  {
    assert CallOk(s, t) && FutureOk(s, s.calls[t].future);
    assert CallOk(s, s.futures[s.calls[t].future].owner);
  }

  // ----- the reject branch -----

  /** The key's future is pending and belongs to a call that was turned away. */
  ghost predicate Poisoned<R>(s: State<R>, key: Key, f: nat) {
    && key in s.inFlight && s.inFlight[key] == f && f < |s.futures|
    && s.futures[f].owner < |s.calls| && s.calls[s.futures[f].owner] == TurnedAway(key, f)
  }

  /** A call on a poisoned key that nobody can answer except the cache. */
  ghost predicate Stuck<R>(c: Call<R>, f: nat) {
    c.Asking? || c.FromCache? || (c.Following? && c.future == f)
  }

  /** No leader works for a poisoned key or on its future. */
  lemma PoisonHasNoLeader<R>(s: State<R>, key: Key, f: nat, t: nat)
    requires Inv(s) && Poisoned(s, key, f) && t < |s.calls| && IsLeader(s.calls[t])
    ensures s.calls[t].key != key && s.calls[t].future != f
  {
    assert CallOk(s, s.futures[f].owner) && CallOk(s, t);
  }

  /** A step leaves every call its key and adds at most one, which asks. */
  lemma StepKeepsKeys<R>(s: State<R>, e: Event<R>)
    requires Enabled(s, e)
    ensures var next := Next(s, e);
      && |s.calls| <= |next.calls|
      && (forall t :: 0 <= t < |s.calls| ==> next.calls[t].key == s.calls[t].key)
      && (forall t :: 0 <= t < |s.calls| && (e.Begin? || t != e.call) ==> next.calls[t] == s.calls[t])
      && (forall t :: |s.calls| <= t < |next.calls| ==> next.calls[t].Asking?)
  {
  }

  lemma PoisonPersists<R>(s: State<R>, key: Key, f: nat, e: Event<R>)
    requires Inv(s) && Enabled(s, e) && Poisoned(s, key, f)
    ensures var next := Next(s, e);
      && Poisoned(next, key, f) && |s.calls| <= |next.calls|
      && (forall t :: 0 <= t < |s.calls| ==> next.calls[t].key == s.calls[t].key)
      && (forall t :: 0 <= t < |s.calls| && s.calls[t].key == key && Stuck(s.calls[t], f) ==> Stuck(next.calls[t], f))
      && (forall t :: |s.calls| <= t < |next.calls| ==> next.calls[t].Asking?)
  {
    StepKeepsKeys(s, e);
    assert CallOk(s, s.futures[f].owner);
    if !e.Begin? && IsLeader(s.calls[e.call]) {
      PoisonHasNoLeader(s, key, f, e.call);
    }
  }

  /**
    The run the bulkhead's reject branch starts: once a call is turned away its key stays in flight for ever, and
    every call for that key that is still unanswered then, or that comes later, can only be answered by the cache;
    otherwise it waits for ever.
   */
  lemma {:induction false} RejectionStrandsTheKey<R>(s: State<R>, key: Key, f: nat, events: seq<Event<R>>, t: nat)
    requires Inv(s) && IsRun(s, events) && Poisoned(s, key, f)
    requires t < |s.calls| && s.calls[t].key == key ==> Stuck(s.calls[t], f)
    ensures var last := Run(s, events);
      && Poisoned(last, key, f)
      && (t < |last.calls| && last.calls[t].key == key ==>
            Stuck(last.calls[t], f) && !IsLeader(last.calls[t]) && !Enabled(last, Event.Wake(t)))
    decreases |events|
  {
    if events == [] {
      assert CallOk(s, s.futures[f].owner);
    } else {
      StepKeepsInv(s, events[0]);
      PoisonPersists(s, key, f, events[0]);
      RejectionStrandsTheKey(Next(s, events[0]), key, f, events[1..], t);
    }
  }

  /** The reject branch poisons: a cache miss with a full bulkhead and the key not in flight. */
  lemma RejectionPoisons<R>(s: State<R>, t: nat)
    requires Inv(s) && Enabled(s, Event.CacheMiss(t)) && s.calls[t].key !in s.inFlight
    ensures Next(s, Event.CacheMiss(t)).calls[t].TurnedAway? <==> s.bulkhead.current == s.bulkhead.maxConcurrent
    ensures s.bulkhead.current == s.bulkhead.maxConcurrent ==>
      Poisoned(Next(s, Event.CacheMiss(t)), s.calls[t].key, |s.futures|)
  {
  }

  // ----- the mutable object -----

  class Registry<R> {
    const configs: seq<Backend>
    const bulkhead: Bulkheads.Bulkhead
    var inFlight: map<Key, nat>
    var futures: seq<Future<R>>
    var calls: seq<Call<R>>

    ghost function Model(): State<R>
      reads this, bulkhead
    {
      State.State(Candidates(configs), bulkhead.Model(), inFlight, futures, calls)
    }

    constructor (configs: seq<Backend>, bulkheadMax: nat)
      ensures Model() == Initial(configs, bulkheadMax) && Inv(Model()) && fresh(bulkhead)
    {
      this.configs := configs;
      bulkhead := new Bulkheads.Bulkhead(bulkheadMax, Some(0));
      inFlight, futures, calls := map[], [], [];
    }

    /** The loop's choice of backends: the sorted configurations without the disabled and the unregistered. */
    method SortedBackends() returns (chosen: seq<Backend>)
      ensures chosen == Candidates(configs)
    {
      var sorted := StableSort(Priority(), configs);
      chosen := [];
      for i := 0 to |sorted|
        invariant chosen == Filter(Usable(), sorted[..i])
      {
        assert sorted[..i + 1] == sorted[..i] + [sorted[i]];
        FilterConcat(Usable(), sorted[..i], [sorted[i]]);
        if sorted[i].enabled && sorted[i].registered {
          chosen := chosen + [sorted[i]];
        }
      }
      assert sorted[..|sorted|] == sorted;
    }

    /** The lookup after a cache miss: follow, lead, or be turned away. */
    method Translate(t: nat)
      requires Inv(Model()) && Enabled(Model(), Event.CacheMiss(t))
      modifies this, bulkhead
      ensures Inv(Model()) && Model() == Next(old(Model()), Event.CacheMiss(t))
    {
      StepKeepsInv(Model(), Event.CacheMiss(t));
      var key := calls[t].key;
      if key in inFlight {
        calls := calls[t := Following(key, inFlight[key])];
        return;
      }
      var f := |futures|;
      futures := futures + [Future(key, t, None)];
      inFlight := inFlight[key := f];
      var answer := bulkhead.Acquire();
      if !answer.Granted? {
        calls := calls[t := TurnedAway(key, f)];
        return;
      }
      calls := calls[t := Leading(key, f, [])];
      TryNext(t, []);
    }

    method TryNext(t: nat, errors: seq<string>)
      requires t < |calls| && IsLeader(calls[t]) && calls[t].future < |futures| && bulkhead.current > 0 && bulkhead.Valid()
      modifies this, bulkhead
      ensures Model() == NextBackend(old(Model()), t, errors)
    {
      var backends := SortedBackends();
      if |errors| < |backends| {
        calls := calls[t := Leading(calls[t].key, calls[t].future, errors)];
      } else {
        Finish(t, errors, AllFailed(if errors == [] then None else Some(errors[|errors| - 1])));
      }
    }

    /** Resolves the future, then the finally block: release the slot and drop the in-flight entry. */
    method Finish(t: nat, errors: seq<string>, outcome: Outcome<R>)
      requires t < |calls| && IsLeader(calls[t]) && calls[t].future < |futures| && bulkhead.current > 0 && bulkhead.Valid()
      modifies this, bulkhead
      ensures Model() == Settle(old(Model()), t, errors, outcome)
    {
      var c := calls[t];
      futures := futures[c.future := futures[c.future].(outcome := Some(outcome))];
      bulkhead.Leave();
      inFlight := inFlight - {c.key};
      calls := calls[t := Led(c.key, c.future, errors, outcome)];
    }

    method BackendAnswered(t: nat, value: R, cacheable: bool)
      requires Inv(Model()) && Enabled(Model(), Event.BackendAnswers(t, value, cacheable))
      modifies this, bulkhead
      ensures Inv(Model()) && Model() == Next(old(Model()), Event.BackendAnswers(t, value, cacheable))
    {
      StepKeepsInv(Model(), Event.BackendAnswers(t, value, cacheable));
      var backends := SortedBackends();
      var c := calls[t];
      if cacheable {
        calls := calls[t := Storing(c.key, c.future, c.errors, value)];
      } else {
        Finish(t, c.errors, Translated(backends[|c.errors|].id, value));
      }
    }

    method BackendRaised(t: nat, error: string)
      requires Inv(Model()) && Enabled(Model(), Event.BackendRaises(t, error))
      modifies this, bulkhead
      ensures Inv(Model()) && Model() == Next(old(Model()), Event.BackendRaises(t, error))
    {
      StepKeepsInv(Model(), Event.BackendRaises(t, error));
      TryNext(t, calls[t].errors + [error]);
    }

    /** A follower resumes once its future is settled. */
    method Awaken(t: nat) returns (outcome: Outcome<R>)
      requires Inv(Model()) && Enabled(Model(), Event.Wake(t))
      modifies this`calls
      ensures Inv(Model()) && Model() == Next(old(Model()), Event.Wake(t))
      ensures Some(outcome) == futures[old(calls[t]).future].outcome
    {
      StepKeepsInv(Model(), Event.Wake(t));
      outcome := futures[calls[t].future].outcome.value;
      calls := calls[t := Followed(calls[t].key, calls[t].future, outcome)];
    }

    /** The cache write after an answer; if it raises, the loop goes on with the next backend. */
    method Stored(t: nat, raised: Option<string>)
      requires Inv(Model())
      requires Enabled(Model(), if raised.None? then Event.StoreDone(t) else Event.StoreRaises(t, raised.value))
      modifies this, bulkhead
      ensures Inv(Model())
      ensures Model() == Next(old(Model()), if raised.None? then Event.StoreDone(t) else Event.StoreRaises(t, raised.value))
    {
      StepKeepsInv(Model(), if raised.None? then Event.StoreDone(t) else Event.StoreRaises(t, raised.value));
      var backends := SortedBackends();
      var c := calls[t];
      if raised.None? {
        Finish(t, c.errors, Translated(backends[|c.errors|].id, c.value));
      } else {
        TryNext(t, c.errors + [raised.value]);
      }
    }
  }
}
