/**
  The request batcher as interleaved steps; a step is the code between two awaits. Submitted items queue up;
  a flush takes the whole queue as one batch and later settles that batch's futures, in any order with respect
  to other flushes. The processor may answer with any list, or raise.
 */
module RequestBatcher {
  import opened Wrappers

  /** batchSize only decides when a submission starts a flush. */
  datatype Config = Config(batchSize: nat, maxQueue: nat, enablePriority: bool)

  /** Items are numbered in submission order; the number stands for the uuid and its future. */
  datatype Item<+P> = Item(id: nat, payload: P)

  /** How a submission goes: refused, processed at once under the lock, or queued under a number and perhaps starting a flush. */
  datatype Submission = QueueFull | AtOnce | Queueing(id: nat, startsFlush: bool)

  /** What the processor does with a batch. */
  datatype Reply<+R> = Results(values: seq<R>) | Raised(error: string)

  datatype Outcome<+R> = Value(value: R) | Failed(error: string)

  datatype Batch<+P, +R> = InFlight(items: seq<Item<P>>) | Finished(items: seq<Item<P>>, reply: Reply<R>)

  /** submitted is the history of accepted payloads; immediate is the payload of a call that holds the lock while the processor runs. */
  datatype State<+P, +R> = State(
    queue: seq<Item<P>>, batches: seq<Batch<P, R>>, settled: map<nat, Outcome<R>>, immediate: Option<P>, submitted: seq<P>)

  datatype Event<+P, +R> =
    | Submit(payload: P, priority: bool)
    | ImmediateDone
    | Take
    | Finish(batch: nat, reply: Reply<R>)

  function Initial<P, R>(): State<P, R> {
    State([], [], map[], None, [])
  }

  /** Submissions and takes need the lock; an immediate call releases it when the processor answers. */
  predicate Enabled<P, R>(s: State<P, R>, e: Event<P, R>) {
    match e
    case Submit(_, _) => s.immediate.None?
    case Take => s.immediate.None?
    case ImmediateDone => s.immediate.Some?
    case Finish(b, _) => b < |s.batches| && s.batches[b].InFlight?
  }

  /** How the j-th item of a batch is settled: by the zipped result, by the exception, or not at all. */
  function OutcomeAt<R>(reply: Reply<R>, j: nat): Option<Outcome<R>> {
    match reply
    case Results(values) => if j < |values| then Some(Value(values[j])) else None
    case Raised(error) => Some(Failed(error))
  }

  /** The settling loop over the first n items; a future already done is left alone. */
  function SettleFirst<P, R>(settled: map<nat, Outcome<R>>, items: seq<Item<P>>, reply: Reply<R>, n: nat): map<nat, Outcome<R>>
    requires n <= |items|
  {
    if n == 0 then settled
    else
      var before := SettleFirst(settled, items, reply, n - 1);
      var o := OutcomeAt(reply, n - 1);
      if o.Some? && items[n - 1].id !in before then before[items[n - 1].id := o.value] else before
  }

  predicate Rejects<P, R>(c: Config, s: State<P, R>) {
    |s.queue| >= c.maxQueue
  }

  function Next<P, R>(c: Config, s: State<P, R>, e: Event<P, R>): State<P, R>
    requires Enabled(s, e)
  {
    match e
    case Submit(p, priority) =>
      if Rejects(c, s) then s
      else if priority && !c.enablePriority then s.(immediate := Some(p))
      else s.(queue := s.queue + [Item(|s.submitted|, p)], submitted := s.submitted + [p])
    case ImmediateDone => s.(immediate := None)
    case Take => if s.queue == [] then s else s.(queue := [], batches := s.batches + [InFlight(s.queue)])
    case Finish(b, reply) =>
      var items := s.batches[b].items;
      s.(batches := s.batches[b := Finished(items, reply)], settled := SettleFirst(s.settled, items, reply, |items|))
  }

  ghost predicate IsRun<P, R>(c: Config, s: State<P, R>, events: seq<Event<P, R>>)
    decreases |events|
  {
    events == [] || (Enabled(s, events[0]) && IsRun(c, Next(c, s, events[0]), events[1..]))
  }

  function Run<P, R>(c: Config, s: State<P, R>, events: seq<Event<P, R>>): State<P, R>
    requires IsRun(c, s, events)
    decreases |events|
  {
    if events == [] then s else Run(c, Next(c, s, events[0]), events[1..])
  }

  // ----- the invariant -----

  /** The batches in the order they were taken, end to end. */
  function Taken<P, R>(batches: seq<Batch<P, R>>): seq<Item<P>> {
    if batches == [] then [] else Taken(batches[..|batches| - 1]) + batches[|batches| - 1].items
  }

  function Numbered<P>(payloads: seq<P>): seq<Item<P>> {
    seq(|payloads|, i requires 0 <= i < |payloads| => Item(i, payloads[i]))
  }

  /** Every accepted item is in the queue or in one batch, in submission order. */
  ghost predicate InOrder<P, R>(s: State<P, R>) {
    Taken(s.batches) + s.queue == Numbered(s.submitted)
  }

  ghost predicate WithinBounds<P, R>(c: Config, s: State<P, R>) {
    |s.queue| <= c.maxQueue && forall b :: 0 <= b < |s.batches| ==> 0 < |s.batches[b].items| <= c.maxQueue
  }

  /** A batch in flight has settled nothing; a finished one has settled its items as its reply says and no others. */
  ghost predicate SettledAsReplied<P, R>(batch: Batch<P, R>, settled: map<nat, Outcome<R>>) {
    forall j :: 0 <= j < |batch.items| ==>
      var id := batch.items[j].id;
      var o := if batch.Finished? then OutcomeAt(batch.reply, j) else None;
      if o.Some? then id in settled && settled[id] == o.value else id !in settled
  }

  ghost predicate Inv<P, R>(c: Config, s: State<P, R>) {
    && InOrder(s) && WithinBounds(c, s)
    && (forall b :: 0 <= b < |s.batches| ==> SettledAsReplied(s.batches[b], s.settled))
    && forall id :: id in s.settled ==> id < |Taken(s.batches)|
  }

  lemma {:induction false} TakenAt<P, R>(batches: seq<Batch<P, R>>, b: nat, j: nat)
    requires b < |batches| && j < |batches[b].items|
    ensures var at := |Taken(batches[..b])| + j;
      at < |Taken(batches)| && Taken(batches)[at] == batches[b].items[j]
  {
    var init := batches[..|batches| - 1];
    if b < |init| {
      TakenAt(init, b, j);
      assert init[..b] == batches[..b];
    } else {
      assert init == batches[..b];
    }
  }

  lemma {:induction false} TakenGrows<P, R>(batches: seq<Batch<P, R>>, a: nat, b: nat)
    requires a < b <= |batches|
    ensures |Taken(batches[..a])| + |batches[a].items| <= |Taken(batches[..b])|
  {
    assert batches[..b][..b - 1] == batches[..b - 1];
    if a < b - 1 {
      TakenGrows(batches, a, b - 1);
    }
  }

  /** An item's number is its position in the taken sequence, so no item is in two batches or twice in one. */
  lemma NumberIsPosition<P, R>(s: State<P, R>, b: nat, j: nat)
    requires InOrder(s) && b < |s.batches| && j < |s.batches[b].items|
    ensures s.batches[b].items[j].id == |Taken(s.batches[..b])| + j < |Taken(s.batches)|
    ensures s.batches[b].items[j].id < |s.submitted|
    ensures s.batches[b].items[j].payload == s.submitted[s.batches[b].items[j].id]
  {
    TakenAt(s.batches, b, j);
    var at := |Taken(s.batches[..b])| + j;
    assert (Taken(s.batches) + s.queue)[at] == Numbered(s.submitted)[at];
  }

  lemma InOnePlace<P, R>(s: State<P, R>, a: nat, i: nat, b: nat, j: nat)
    requires InOrder(s) && a < |s.batches| && i < |s.batches[a].items| && b < |s.batches| && j < |s.batches[b].items|
    ensures s.batches[a].items[i].id == s.batches[b].items[j].id <==> a == b && i == j
  {
    NumberIsPosition(s, a, i);
    NumberIsPosition(s, b, j);
    if a < b {
      TakenGrows(s.batches, a, b);
    } else if b < a {
      TakenGrows(s.batches, b, a);
    }
  }

  /** The items before n are settled as the reply says, those from n on not at all. */
  ghost predicate SettledUpTo<P, R>(after: map<nat, Outcome<R>>, items: seq<Item<P>>, reply: Reply<R>, n: nat)
    requires n <= |items|
  {
    && (forall j :: 0 <= j < n ==>
         var o := OutcomeAt(reply, j);
         if o.Some? then items[j].id in after && after[items[j].id] == o.value else items[j].id !in after)
    && forall j :: n <= j < |items| ==> items[j].id !in after
  }

  /** The settling loop adds the futures of the items it reaches and changes no other. */
  lemma {:induction false} SettleFirstFrame<P, R>(settled: map<nat, Outcome<R>>, items: seq<Item<P>>, reply: Reply<R>, n: nat)
    requires n <= |items|
    ensures var after := SettleFirst(settled, items, reply, n);
      && (forall id :: id in settled ==> id in after && after[id] == settled[id])
      && forall id :: id in after && id !in settled ==> exists j :: 0 <= j < n && items[j].id == id
  {
    if n > 0 {
      SettleFirstFrame(settled, items, reply, n - 1);
    }
  }

  lemma {:induction false} SettleFirstFacts<P, R>(settled: map<nat, Outcome<R>>, items: seq<Item<P>>, reply: Reply<R>, n: nat)
    requires n <= |items|
    requires forall i, j :: 0 <= i < j < |items| ==> items[i].id != items[j].id
    requires forall j :: 0 <= j < |items| ==> items[j].id !in settled
    ensures SettledUpTo(SettleFirst(settled, items, reply, n), items, reply, n)
  {
    if n > 0 {
      SettleFirstFacts(settled, items, reply, n - 1);
    }
  }

  lemma {:induction false} TakenSameItems<P, R>(x: seq<Batch<P, R>>, y: seq<Batch<P, R>>)
    requires |x| == |y| && forall b :: 0 <= b < |x| ==> x[b].items == y[b].items
    ensures Taken(x) == Taken(y)
  {
    if x != [] {
      TakenSameItems(x[..|x| - 1], y[..|y| - 1]);
    }
  }

  lemma FinishKeepsInv<P, R>(c: Config, s: State<P, R>, b: nat, reply: Reply<R>)
    requires Inv(c, s) && Enabled(s, Event.Finish(b, reply))
    ensures Inv(c, Next(c, s, Event.Finish(b, reply)))
    ensures forall id :: id in s.settled ==>
      id in Next(c, s, Event.Finish(b, reply)).settled && Next(c, s, Event.Finish(b, reply)).settled[id] == s.settled[id]
  {
    var next, items := Next(c, s, Event.Finish(b, reply)), s.batches[b].items;
    TakenSameItems(s.batches, next.batches);
    forall i, j | 0 <= i < j < |items| ensures items[i].id != items[j].id {
      InOnePlace(s, b, i, b, j);
    }
    assert SettledAsReplied(s.batches[b], s.settled);
    SettleFirstFacts(s.settled, items, reply, |items|);
    SettleFirstFrame(s.settled, items, reply, |items|);
    forall a | 0 <= a < |s.batches| ensures SettledAsReplied(next.batches[a], next.settled) {
      assert SettledAsReplied(s.batches[a], s.settled);
      if a != b {
        forall j, i | 0 <= j < |s.batches[a].items| && 0 <= i < |items| ensures s.batches[a].items[j].id != items[i].id {
          InOnePlace(s, a, j, b, i);
        }
      }
    }
    forall id | id in next.settled ensures id < |Taken(next.batches)| {
      if id !in s.settled {
        var j :| 0 <= j < |items| && items[j].id == id;
        NumberIsPosition(s, b, j);
      }
    }
  }

  /** The batch just taken holds the queued items, none of them settled yet. */
  lemma TakeKeepsInv<P, R>(c: Config, s: State<P, R>)
    requires Inv(c, s) && s.immediate.None?
    ensures Inv(c, Next(c, s, Event.Take))
  {
    if s.queue != [] {
      var batches := s.batches + [InFlight(s.queue)];
      TakeKeepsOrder(s);
      TakenAppend(s.batches, InFlight(s.queue));
      QueuedAreUnsettled(s);
      forall b | 0 <= b < |batches| ensures SettledAsReplied(batches[b], s.settled) && 0 < |batches[b].items| <= c.maxQueue {
        assert b < |s.batches| ==> SettledAsReplied(s.batches[b], s.settled);
      }
    }
  }

  lemma TakeKeepsOrder<P, R>(s: State<P, R>)
    requires InOrder(s)
    ensures InOrder(s.(queue := [], batches := s.batches + [InFlight(s.queue)]))
  {
    var batches := s.batches + [InFlight(s.queue)];
    TakenAppend(s.batches, InFlight(s.queue));
    assert Taken(batches) + [] == Taken(batches);
  }

  lemma TakenAppend<P, R>(batches: seq<Batch<P, R>>, batch: Batch<P, R>)
    ensures Taken(batches + [batch]) == Taken(batches) + batch.items
  {
    assert (batches + [batch])[..|batches|] == batches;
  }

  lemma QueuedAreUnsettled<P, R>(s: State<P, R>)
    requires InOrder(s) && forall id :: id in s.settled ==> id < |Taken(s.batches)|
    ensures forall j :: 0 <= j < |s.queue| ==> s.queue[j].id !in s.settled
  {
    forall j | 0 <= j < |s.queue| ensures s.queue[j].id !in s.settled {
      assert (Taken(s.batches) + s.queue)[|Taken(s.batches)| + j] == s.queue[j];
    }
  }

  lemma SubmitKeepsInv<P, R>(c: Config, s: State<P, R>, p: P, priority: bool)
    requires Inv(c, s) && s.immediate.None?
    ensures Inv(c, Next(c, s, Event.Submit(p, priority)))
  {
    var next := Next(c, s, Event.Submit(p, priority));
    if next.queue != s.queue {
      var item := Item(|s.submitted|, p);
      assert Taken(s.batches) + (s.queue + [item]) == (Taken(s.batches) + s.queue) + [item];
      assert Numbered(s.submitted + [p]) == Numbered(s.submitted) + [item];
    }
  }

  /** Every step keeps the invariant, and no future that is settled is ever settled again or differently. */
  lemma StepKeepsInv<P, R>(c: Config, s: State<P, R>, e: Event<P, R>)
    requires Inv(c, s) && Enabled(s, e)
    ensures Inv(c, Next(c, s, e))
    ensures forall id :: id in s.settled ==> id in Next(c, s, e).settled && Next(c, s, e).settled[id] == s.settled[id]
    ensures s.submitted <= Next(c, s, e).submitted
  {
    match e
    case Submit(p, priority) => SubmitKeepsInv(c, s, p, priority);
    case ImmediateDone =>
    case Take => TakeKeepsInv(c, s);
    case Finish(b, reply) => FinishKeepsInv(c, s, b, reply);
  }

  lemma {:induction false} RunKeepsInv<P, R>(c: Config, s: State<P, R>, events: seq<Event<P, R>>)
    requires Inv(c, s) && IsRun(c, s, events)
    ensures Inv(c, Run(c, s, events))
    decreases |events|
  {
    if events != [] {
      StepKeepsInv(c, s, events[0]);
      RunKeepsInv(c, Next(c, s, events[0]), events[1..]);
    }
  }

  /**
    Where a submission goes: nowhere when the queue is full; to the processor at once, holding the lock, when it is
    a priority item and enable_priority is off; else to the end of the queue. The lock comes free when the
    processor answers, and that changes nothing else.
   */
  lemma SubmissionGoes<P, R>(c: Config, s: State<P, R>, p: P, priority: bool)
    requires s.immediate.None?
    ensures var next := Next(c, s, Event.Submit(p, priority));
      if |s.queue| >= c.maxQueue then next == s
      else if priority && !c.enablePriority then
        next == s.(immediate := Some(p)) && Next(c, next, Event.ImmediateDone) == s
      else
        && next.queue == s.queue + [Item(|s.submitted|, p)] && next.submitted == s.submitted + [p]
        && next.immediate.None? && next.batches == s.batches && next.settled == s.settled
  {
  }

  // ----- what bounds a batch -----

  ghost predicate BatchesAtMost<P, R>(s: State<P, R>, n: nat) {
    forall b :: 0 <= b < |s.batches| ==> |s.batches[b].items| <= n
  }

  /** In no run is a batch longer than n. */
  ghost predicate NeverLonger<P(!new), R(!new)>(c: Config, n: nat) {
    forall events: seq<Event<P, R>> :: IsRun(c, Initial(), events) ==> BatchesAtMost(Run(c, Initial(), events), n)
  }

  ghost predicate HasBatchOf<P, R>(s: State<P, R>, n: nat) {
    exists b :: 0 <= b < |s.batches| && |s.batches[b].items| == n
  }

  /** n more submissions and a flush take everything queued as one batch. */
  lemma {:induction false} FillThenTake<P, R>(c: Config, s: State<P, R>, p: P, n: nat) returns (events: seq<Event<P, R>>)
    requires s.immediate.None? && 0 < |s.queue| + n <= c.maxQueue
    ensures IsRun(c, s, events)
    ensures HasBatchOf(Run(c, s, events), |s.queue| + n)
    decreases n
  {
    if n == 0 {
      events := [Event.Take];
      assert events[1..] == [];
      var last := Run(c, s, events);
      assert last == Next(c, s, Event.Take);
      assert last.batches[|s.batches|].items == s.queue;
    } else {
      var next := Next(c, s, Event.Submit(p, false));
      var rest := FillThenTake(c, next, p, n - 1);
      events := [Event.Submit(p, false)] + rest;
      assert events[1..] == rest;
    }
  }

  /**
    The documented "max items per batch" is not what batch_size is: for every n, no batch is ever longer than n
    if and only if max_queue_size is at most n.
   */
  lemma BatchBoundExactly<P(!new), R(!new)>(c: Config, n: nat, p: P)
    ensures NeverLonger<P, R>(c, n) <==> c.maxQueue <= n
    ensures NeverLonger<P, R>(c, c.batchSize) <==> c.maxQueue <= c.batchSize
  {
    QueueBoundIsBatchBound<P, R>(c, n, p);
    QueueBoundIsBatchBound<P, R>(c, c.batchSize, p);
  }

  lemma QueueBoundIsBatchBound<P(!new), R(!new)>(c: Config, n: nat, p: P)
    ensures NeverLonger<P, R>(c, n) <==> c.maxQueue <= n
  {
    if c.maxQueue <= n {
      forall events: seq<Event<P, R>> | IsRun(c, Initial(), events) ensures BatchesAtMost(Run(c, Initial(), events), n) {
        RunKeepsInv(c, Initial(), events);
      }
    } else {
      var events := FillThenTake<P, R>(c, Initial(), p, n + 1);
      assert !BatchesAtMost(Run(c, Initial(), events), n);
    }
  }

  // ----- batching is invisible -----

  function Payloads<P>(items: seq<Item<P>>): seq<P> {
    seq(|items|, i requires 0 <= i < |items| => items[i].payload)
  }

  function MapAll<P, R>(f: P -> R, ps: seq<P>): seq<R> {
    seq(|ps|, i requires 0 <= i < |ps| => f(ps[i]))
  }

  /** The processor is pointwise: it answers a batch with f of each payload, or raises. */
  ghost predicate Pointwise<P, R>(f: P -> R, batches: seq<Batch<P, R>>) {
    forall b :: 0 <= b < |batches| && batches[b].Finished? && batches[b].reply.Results? ==>
      batches[b].reply.values == MapAll(f, Payloads(batches[b].items))
  }

  /** The batch an accepted item was taken into, and its place there. */
  lemma {:induction false} FindBatch<P, R>(batches: seq<Batch<P, R>>, at: nat) returns (b: nat, j: nat)
    requires at < |Taken(batches)|
    ensures b < |batches| && j < |batches[b].items| && at == |Taken(batches[..b])| + j
  {
    var n := |batches| - 1;
    if at < |Taken(batches[..n])| {
      b, j := FindBatch(batches[..n], at);
      assert batches[..n][..b] == batches[..b];
    } else {
      b, j := n, at - |Taken(batches[..n])|;
    }
  }

  ghost predicate Queued<P, R>(s: State<P, R>, id: nat) {
    id < |s.submitted| && Item(id, s.submitted[id]) in s.queue
  }

  ghost predicate TakenInto<P, R>(s: State<P, R>, id: nat, b: nat, j: nat) {
    id < |s.submitted| && b < |s.batches| && j < |s.batches[b].items| && s.batches[b].items[j] == Item(id, s.submitted[id])
  }

  /** What an unbatched caller would see: f of its payload, unless the processor raised. */
  function AnswerFor<P, R>(f: P -> R, reply: Reply<R>, payload: P): Outcome<R> {
    if reply.Raised? then Failed(reply.error) else Value(f(payload))
  }

  /**
    In every run over a pointwise processor, each accepted item sits in exactly one place, and if its future is
    settled then with f of its own payload, or with the exception of the batch that held it.
   */
  lemma BatchingIsInvisible<P, R>(c: Config, events: seq<Event<P, R>>, f: P -> R, id: nat)
    requires IsRun(c, Initial<P, R>(), events)
    requires var s := Run(c, Initial<P, R>(), events); Pointwise(f, s.batches) && id < |s.submitted|
    ensures Invisible(Run(c, Initial<P, R>(), events), f, id)
  {
    RunKeepsInv(c, Initial<P, R>(), events);
    InvMeansInvisible(c, Run(c, Initial<P, R>(), events), f, id);
  }

  /** Queued or taken into a batch, never both; unsettled until its batch finishes, then settled as an unbatched call would be. */
  ghost predicate Invisible<P, R>(s: State<P, R>, f: P -> R, id: nat)
    requires id < |s.submitted|
  {
    && (Queued(s, id) <==> !exists b: nat, j: nat :: TakenInto(s, id, b, j))
    && (Queued(s, id) ==> id !in s.settled)
    && forall b: nat, j: nat :: TakenInto(s, id, b, j) ==> SettledFor(s, f, id, b)
  }

  ghost predicate SettledFor<P, R>(s: State<P, R>, f: P -> R, id: nat, b: nat)
    requires id < |s.submitted| && b < |s.batches|
  {
    if s.batches[b].InFlight? then id !in s.settled
    else id in s.settled && s.settled[id] == AnswerFor(f, s.batches[b].reply, s.submitted[id])
  }

  lemma TakenIsSettledFor<P, R>(c: Config, s: State<P, R>, f: P -> R, id: nat, b: nat, j: nat)
    requires Inv(c, s) && Pointwise(f, s.batches) && TakenInto(s, id, b, j)
    ensures id < |Taken(s.batches)| && SettledFor(s, f, id, b)
  {
    NumberIsPosition(s, b, j);
    assert SettledAsReplied(s.batches[b], s.settled);
  }

  /** An item is in the queue exactly when its number is past those of all batches. */
  lemma QueuedIsPastTaken<P, R>(s: State<P, R>, id: nat)
    requires InOrder(s) && id < |s.submitted|
    ensures Queued(s, id) <==> id >= |Taken(s.batches)|
  {
    var taken := |Taken(s.batches)|;
    assert |Taken(s.batches) + s.queue| == |Numbered(s.submitted)|;
    forall i | 0 <= i < |s.queue| ensures s.queue[i] == Item(taken + i, s.submitted[taken + i]) {
      assert (Taken(s.batches) + s.queue)[taken + i] == Numbered(s.submitted)[taken + i];
    }
    if id >= taken {
      assert s.queue[id - taken] == Item(id, s.submitted[id]);
    }
  }

  lemma InvMeansInvisible<P, R>(c: Config, s: State<P, R>, f: P -> R, id: nat)
    requires Inv(c, s) && Pointwise(f, s.batches) && id < |s.submitted|
    ensures Invisible(s, f, id)
  {
    QueuedIsPastTaken(s, id);
    if id < |Taken(s.batches)| {
      var b, j := FindBatch(s.batches, id);
      NumberIsPosition(s, b, j);
      assert TakenInto(s, id, b, j);
    } else {
      var item := s.queue[id - |Taken(s.batches)|];
      assert (Taken(s.batches) + s.queue)[id] == item;
      assert id !in s.settled;
    }
    forall b: nat, j: nat | TakenInto(s, id, b, j) ensures id < |Taken(s.batches)| && SettledFor(s, f, id, b) {
      TakenIsSettledFor(c, s, f, id, b, j);
    }
  }

  /** Every processor answer was at least as long as its batch. */
  ghost predicate NoShortReply<P, R>(batches: seq<Batch<P, R>>) {
    forall b :: 0 <= b < |batches| && batches[b].Finished? && batches[b].reply.Results? ==>
      |batches[b].reply.values| >= |batches[b].items|
  }

  ghost predicate Quiescent<P, R>(s: State<P, R>) {
    s.queue == [] && forall b :: 0 <= b < |s.batches| ==> s.batches[b].Finished?
  }

  lemma LongRepliesSettle<P, R>(c: Config, s: State<P, R>, id: nat)
    requires Inv(c, s) && Quiescent(s) && NoShortReply(s.batches) && id < |s.submitted|
    ensures id in s.settled
  {
    assert |Taken(s.batches) + s.queue| == |Numbered(s.submitted)|;
    var b, j := FindBatch(s.batches, id);
    NumberIsPosition(s, b, j);
    assert SettledAsReplied(s.batches[b], s.settled);
  }

  lemma ShortReplyStrands<P, R>(c: Config, s: State<P, R>, b: nat)
    requires Inv(c, s) && b < |s.batches| && s.batches[b].Finished? && s.batches[b].reply.Results?
    requires |s.batches[b].reply.values| < |s.batches[b].items|
    ensures exists id :: 0 <= id < |s.submitted| && id !in s.settled
  {
    var j := |s.batches[b].reply.values|;
    NumberIsPosition(s, b, j);
    assert SettledAsReplied(s.batches[b], s.settled);
    assert s.batches[b].items[j].id !in s.settled;
  }

  /** Once the queue is empty and no batch is in flight, every accepted future is settled if and only if no processor answer was shorter than its batch. */
  lemma QuiescentSettlesAll<P, R>(c: Config, events: seq<Event<P, R>>)
    requires IsRun(c, Initial<P, R>(), events) && Quiescent(Run(c, Initial<P, R>(), events))
    ensures var s := Run(c, Initial<P, R>(), events);
      (forall id :: 0 <= id < |s.submitted| ==> id in s.settled) <==> NoShortReply(s.batches)
  {
    RunKeepsInv(c, Initial<P, R>(), events);
    var s := Run(c, Initial<P, R>(), events);
    if NoShortReply(s.batches) {
      forall id | 0 <= id < |s.submitted| ensures id in s.settled {
        LongRepliesSettle(c, s, id);
      }
    } else {
      var b :| 0 <= b < |s.batches| && s.batches[b].Finished? && s.batches[b].reply.Results?
        && |s.batches[b].reply.values| < |s.batches[b].items|;
      ShortReplyStrands(c, s, b);
    }
  }

  // ----- the mutable object -----

  class Batcher<P, R> {
    const config: Config
    var queue: seq<Item<P>>
    var batches: seq<Batch<P, R>>
    var settled: map<nat, Outcome<R>>
    var immediate: Option<P>
    var accepted: nat
    ghost var submitted: seq<P>

    ghost function Model(): State<P, R>
      reads this
    {
      State(queue, batches, settled, immediate, submitted)
    }

    ghost predicate Valid()
      reads this
    {
      Inv(config, Model()) && accepted == |submitted|
    }

    constructor (config: Config)
      ensures Valid() && Model() == Initial() && this.config == config
    {
      this.config := config;
      queue, batches, settled, immediate, accepted, submitted := [], [], map[], None, 0, [];
    }

    method Submit(payload: P, priority: bool) returns (r: Submission)
      requires Valid() && Enabled(Model(), Event.Submit(payload, priority))
      modifies this
      ensures Valid() && Model() == Next(config, old(Model()), Event.Submit(payload, priority))
      ensures r.QueueFull? <==> |old(queue)| >= config.maxQueue
      ensures r.Queueing? ==> queue == old(queue) + [Item(r.id, payload)] && (r.startsFlush <==> |queue| >= config.batchSize)
      ensures r.AtOnce? <==> |old(queue)| < config.maxQueue && priority && !config.enablePriority
    {
      StepKeepsInv(config, Model(), Event.Submit(payload, priority));
      if |queue| >= config.maxQueue {
        return QueueFull;
      }
      if priority && !config.enablePriority {
        immediate := Some(payload);
        return AtOnce;
      }
      queue := queue + [Item(accepted, payload)];
      accepted := accepted + 1;
      submitted := submitted + [payload];
      return Queueing(accepted - 1, |queue| >= config.batchSize);
    }

    /** The answer to an immediate call is the first result, or None if there is none. */
    method FinishImmediate(reply: Reply<R>) returns (answer: Result<Option<R>, string>)
      requires Valid() && immediate.Some?
      modifies this`immediate
      ensures Valid() && immediate.None? && Model() == Next(config, old(Model()), Event.ImmediateDone)
      ensures match OutcomeAt(reply, 0)
        case None => answer == Ok(None)
        case Some(Value(v)) => answer == Ok(Some(v))
        case Some(Failed(e)) => answer == Err(e)
    {
      StepKeepsInv(config, Model(), Event.ImmediateDone);
      immediate := None;
      match reply
      case Raised(e) => answer := Err(e);
      case Results(values) => answer := Ok(if values == [] then None else Some(values[0]));
    }

    method FlushTake() returns (batch: Option<nat>)
      requires Valid() && immediate.None?
      modifies this
      ensures Valid() && Model() == Next(config, old(Model()), Event.Take) && queue == []
      ensures batch.Some? ==> batch.value < |batches| && batches[batch.value] == InFlight(old(queue))
    {
      StepKeepsInv(config, Model(), Event.Take);
      if queue == [] {
        return None;
      }
      batches := batches + [InFlight(queue)];
      queue := [];
      return Some(|batches| - 1);
    }

    method FlushFinish(b: nat, reply: Reply<R>) returns (processed: nat)
      requires Valid() && Enabled(Model(), Event.Finish(b, reply))
      modifies this
      ensures Valid() && Model() == Next(config, old(Model()), Event.Finish(b, reply))
      ensures processed == if reply.Results? then |reply.values| else 0
    {
      StepKeepsInv(config, Model(), Event.Finish(b, reply));
      var items := batches[b].items;
      for i := 0 to |items|
        invariant settled == SettleFirst(old(settled), items, reply, i)
        invariant queue == old(queue) && batches == old(batches) && immediate == old(immediate)
        invariant submitted == old(submitted) && accepted == old(accepted)
      {
        if items[i].id !in settled {
          match reply
          case Results(values) => if i < |values| { settled := settled[items[i].id := Value(values[i])]; }
          case Raised(e) => settled := settled[items[i].id := Failed(e)];
        }
      }
      batches := batches[b := Finished(items, reply)];
      return if reply.Results? then |reply.values| else 0;
    }
  }
}
