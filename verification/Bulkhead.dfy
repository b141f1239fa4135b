/** The bulkhead: a counter of running sections under a limit, with an optional bound on waiters. */
module Bulkheads {
  import opened Wrappers

  /** permits is the semaphore's value; queueSize None lets any number of callers wait. */
  datatype State = State(maxConcurrent: nat, queueSize: Option<nat>, permits: nat, current: nat, waiting: nat, rejected: nat)

  datatype Answer = Granted | Rejected | Queued

  function Fresh(maxConcurrent: nat, queueSize: Option<nat>): State {
    State(maxConcurrent, queueSize, maxConcurrent, 0, 0, 0)
  }

  function TryAcquire(s: State): (State, Answer) {
    if s.permits > 0 then (s.(permits := s.permits - 1, current := s.current + 1), Granted)
    else if s.queueSize.Some? && s.waiting >= s.queueSize.value then (s.(rejected := s.rejected + 1), Rejected)
    else (s.(waiting := s.waiting + 1), Queued)
  }

  /** A waiter gets a permit. */
  function WakeWaiter(s: State): State
    requires s.permits > 0 && s.waiting > 0
  {
    s.(permits := s.permits - 1, current := s.current + 1, waiting := s.waiting - 1)
  }

  function Release(s: State): State
    requires s.current > 0
  {
    s.(permits := s.permits + 1, current := s.current - 1)
  }

  ghost predicate Inv(s: State) {
    s.current + s.permits == s.maxConcurrent && (s.queueSize.Some? ==> s.waiting <= s.queueSize.value)
  }

  /** Every step keeps current within the limit and the waiters within the queue; a caller runs at once exactly when the limit is not reached, and is rejected exactly when the queue is full too. */
  lemma StepsKeepInv(s: State)
    requires Inv(s)
    ensures Inv(TryAcquire(s).0) && s.current <= s.maxConcurrent
    ensures TryAcquire(s).1.Granted? <==> s.current < s.maxConcurrent
    ensures TryAcquire(s).1.Rejected? <==> s.current == s.maxConcurrent && s.queueSize == Some(s.waiting)
    ensures var (next, answer) := TryAcquire(s);
      && next.current == s.current + (if answer.Granted? then 1 else 0)
      && next.waiting == s.waiting + (if answer.Queued? then 1 else 0)
      && next.rejected == s.rejected + (if answer.Rejected? then 1 else 0)
    ensures s.permits > 0 && s.waiting > 0 ==>
      Inv(WakeWaiter(s)) && WakeWaiter(s).current == s.current + 1 && WakeWaiter(s).waiting == s.waiting - 1
    ensures s.current > 0 ==> Inv(Release(s)) && Release(s).current == s.current - 1 && Release(s).waiting == s.waiting
  {
  }

  class Bulkhead {
    const maxConcurrent: nat
    const queueSize: Option<nat>
    var permits: nat
    var current: nat
    var waiting: nat
    var rejected: nat

    ghost function Model(): State
      reads this
    {
      State(maxConcurrent, queueSize, permits, current, waiting, rejected)
    }

    ghost predicate Valid()
      reads this
    {
      Inv(Model())
    }

    constructor (maxConcurrent: nat, queueSize: Option<nat>)
      ensures Valid() && Model() == Fresh(maxConcurrent, queueSize)
    {
      this.maxConcurrent, this.queueSize := maxConcurrent, queueSize;
      permits, current, waiting, rejected := maxConcurrent, 0, 0, 0;
    }

    method Acquire() returns (answer: Answer)
      requires Valid()
      modifies this
      ensures Valid() && (Model(), answer) == TryAcquire(old(Model())) && current <= maxConcurrent
      ensures answer.Rejected? <==> old(current) == maxConcurrent && queueSize == Some(old(waiting))
    {
      if permits > 0 {
        permits, current := permits - 1, current + 1;
        return Granted;
      }
      if queueSize.Some? && waiting >= queueSize.value {
        rejected := rejected + 1;
        return Rejected;
      }
      waiting := waiting + 1;
      return Queued;
    }

    method GrantWaiter()
      requires Valid() && permits > 0 && waiting > 0
      modifies this
      ensures Valid() && Model() == WakeWaiter(old(Model()))
    {
      permits, current, waiting := permits - 1, current + 1, waiting - 1;
    }

    method Leave()
      requires Valid() && current > 0
      modifies this
      ensures Valid() && Model() == Release(old(Model()))
    {
      permits, current := permits + 1, current - 1;
    }
  }
}
