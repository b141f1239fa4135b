/**
  The circuit breaker. Calls are admitted or rejected when they start and report success, failure or nothing
  when they finish, in any order and however late; the breaker's state is proved to be a function of the
  outcomes reported so far, and what it admits is bounded.
 */
module CircuitBreaker {
  import opened Integers
  import opened Wrappers

  datatype CircuitState = Closed | Open | HalfOpen

  datatype Config = Config(failureThreshold: int, recoveryTimeout: int, windowSize: nat)

  datatype State = State(
    circuit: CircuitState, recent: seq<bool>, consecutive: nat, lastFailure: Option<int>, totalCalls: nat, totalFailures: nat)

  const FRESH := State(Closed, [], 0, None, 0, 0)

  /** Attempt asks can_execute; the outcomes come from admitted calls. A call that ends in an unexpected exception reports nothing. */
  datatype Event =
    | Attempt(now: int)
    | Success
    | Failure(now: int)

  /** A deque of bounded length forgets from the left. */
  function Last<T>(s: seq<T>, n: nat): seq<T> {
    if |s| <= n then s else s[|s| - n..]
  }

  /** Python's truth value of the time stamp: None and 0 are both false. */
  predicate Truthy(t: Option<int>) {
    t.Some? && t.value != 0
  }

  predicate CanExecute(c: Config, s: State, now: int) {
    s.circuit.Open? ==> Truthy(s.lastFailure) && now - s.lastFailure.value >= c.recoveryTimeout
  }

  function Attempted(c: Config, s: State, now: int): State {
    if s.circuit.Open? && CanExecute(c, s, now) then s.(circuit := HalfOpen) else s
  }

  function Succeeded(c: Config, s: State): State {
    State(if s.circuit.HalfOpen? then Closed else s.circuit, Last(s.recent + [true], c.windowSize), 0, s.lastFailure,
          s.totalCalls + 1, s.totalFailures)
  }

  function FailedAt(c: Config, s: State, now: int): State {
    var n := s.consecutive + 1;
    var trips := s.circuit.HalfOpen? || (s.circuit.Closed? && n >= c.failureThreshold);
    State(if trips then Open else s.circuit, Last(s.recent + [false], c.windowSize), n, Some(now),
          s.totalCalls + 1, s.totalFailures + 1)
  }

  function Next(c: Config, s: State, e: Event): State {
    match e
    case Attempt(now) => Attempted(c, s, now)
    case Success => Succeeded(c, s)
    case Failure(now) => FailedAt(c, s, now)
  }

  function Run(c: Config, s: State, events: seq<Event>): State {
    if events == [] then s else Next(c, Run(c, s, events[..|events| - 1]), events[|events| - 1])
  }

  // ----- the state is a function of the history -----

  /** The outcomes reported, oldest first; true is a success. */
  function Outcomes(events: seq<Event>): seq<bool> {
    if events == [] then []
    else
      var before, last := Outcomes(events[..|events| - 1]), events[|events| - 1];
      if last.Attempt? then before else before + [last.Success?]
  }

  /** The length of the longest suffix without a success. */
  function TrailingFailures(outcomes: seq<bool>): (n: nat)
    ensures n <= |outcomes|
    ensures forall i :: |outcomes| - n <= i < |outcomes| ==> !outcomes[i]
    ensures n < |outcomes| ==> outcomes[|outcomes| - n - 1]
  {
    if outcomes == [] || outcomes[|outcomes| - 1] then 0 else 1 + TrailingFailures(outcomes[..|outcomes| - 1])
  }

  function FailureTimes(events: seq<Event>): seq<int> {
    if events == [] then []
    else
      var before, last := FailureTimes(events[..|events| - 1]), events[|events| - 1];
      if last.Failure? then before + [last.now] else before
  }

  lemma LastAppend<T>(s: seq<T>, x: T, n: nat)
    ensures Last(Last(s, n) + [x], n) == Last(s + [x], n)
  {
  }

  lemma TrailingGrows(before: seq<bool>, last: bool)
    ensures TrailingFailures(before + [last]) == if last then 0 else 1 + TrailingFailures(before)
  {
    assert (before + [last])[..|before|] == before;
  }

  /** From a fresh breaker: the failure counter is the longest failing suffix, and closed means it is below the threshold. */
  lemma {:induction false} CounterIsTrailingFailures(c: Config, events: seq<Event>)
    ensures var s, outcomes := Run(c, FRESH, events), Outcomes(events);
      && s.consecutive == TrailingFailures(outcomes)
      && s.totalCalls == |outcomes|
      && (c.failureThreshold >= 1 && s.circuit.Closed? ==> s.consecutive < c.failureThreshold)
  {
    if events != [] {
      CounterIsTrailingFailures(c, events[..|events| - 1]);
      TrailingGrows(Outcomes(events[..|events| - 1]), events[|events| - 1].Success?);
    }
  }

  /** The window holds the last window_size outcomes. */
  lemma {:induction false} WindowIsLastOutcomes(c: Config, events: seq<Event>)
    ensures Run(c, FRESH, events).recent == Last(Outcomes(events), c.windowSize)
  {
    if events != [] {
      WindowIsLastOutcomes(c, events[..|events| - 1]);
      LastAppend(Outcomes(events[..|events| - 1]), events[|events| - 1].Success?, c.windowSize);
    }
  }

  /** The time stamp is the last failure's, and an open breaker has one. */
  lemma {:induction false} StampIsLastFailure(c: Config, events: seq<Event>)
    ensures var s, failures := Run(c, FRESH, events), FailureTimes(events);
      && s.totalFailures == |failures|
      && s.lastFailure == (if failures == [] then None else Some(failures[|failures| - 1]))
      && (s.circuit.Open? ==> failures != [])
      && (s.circuit.HalfOpen? ==> failures != [])
  {
    if events != [] {
      StampIsLastFailure(c, events[..|events| - 1]);
    }
  }

  /** One more event takes one more step. */
  lemma HistoryGrows(c: Config, events: seq<Event>, e: Event)
    ensures Run(c, FRESH, events + [e]) == Next(c, Run(c, FRESH, events), e)
  {
    assert (events + [e])[..|events|] == events;
  }

  /** The threshold condition is needed: with a threshold of 0 or less the breaker starts out closed with 0 failures, not fewer than the threshold. */
  lemma ClosedMeansBelowThresholdExactly(c: Config)
    ensures c.failureThreshold >= 1 <==>
      forall events :: var s := Run(c, FRESH, events); s.circuit.Closed? ==> s.consecutive < c.failureThreshold
  {
    if c.failureThreshold >= 1 {
      forall events ensures var s := Run(c, FRESH, events); s.circuit.Closed? ==> s.consecutive < c.failureThreshold {
        CounterIsTrailingFailures(c, events);
      }
    } else {
      assert Run(c, FRESH, []) == FRESH;
    }
  }

  /** Nothing is admitted while open within the recovery time of the last failure; otherwise an attempt is admitted unless that failure is stamped 0. */
  lemma OpenAdmitsOnlyAfterRecovery(c: Config, events: seq<Event>, now: int)
    ensures var s, failures := Run(c, FRESH, events), FailureTimes(events);
      s.circuit.Open? ==>
        && failures != []
        && (CanExecute(c, s, now) <==> failures[|failures| - 1] != 0 && now - failures[|failures| - 1] >= c.recoveryTimeout)
  {
    StampIsLastFailure(c, events);
  }

  /** While half-open every attempt is admitted, any number of them, until some call reports. */
  lemma {:induction false} HalfOpenAdmitsAll(c: Config, s: State, attempts: seq<Event>, now: int)
    requires s.circuit.HalfOpen? && forall e :: e in attempts ==> e.Attempt?
    ensures Run(c, s, attempts) == s && CanExecute(c, s, now)
  {
    if attempts != [] {
      HalfOpenAdmitsAll(c, s, attempts[..|attempts| - 1], now);
      assert attempts[|attempts| - 1] in attempts;
    }
  }

  lemma RunTwoMore(c: Config, events: seq<Event>, a: Event, b: Event)
    ensures Run(c, FRESH, events + [a, b]) == Next(c, Next(c, Run(c, FRESH, events), a), b)
  {
    assert (events + [a, b])[..|events| + 1] == events + [a];
    assert (events + [a])[..|events|] == events;
  }

  /** After the recovery time one admitted call decides: its success closes the circuit with a clean count, its failure reopens it; a late success while still open does not close it. */
  lemma ProbeDecides(c: Config, events: seq<Event>, now: int, end: int)
    requires var s := Run(c, FRESH, events); s.circuit.Open? && CanExecute(c, s, now)
    ensures Run(c, FRESH, events + [Attempt(now), Success]).circuit.Closed?
    ensures TrailingFailures(Outcomes(events + [Attempt(now), Success])) == 0
    ensures var s := Run(c, FRESH, events + [Attempt(now), Failure(end)]); s.circuit.Open? && s.lastFailure == Some(end)
    ensures Run(c, FRESH, events + [Success, Success]).circuit.Open?
  {
    RunTwoMore(c, events, Attempt(now), Success);
    RunTwoMore(c, events, Attempt(now), Failure(end));
    RunTwoMore(c, events, Success, Success);
    CounterIsTrailingFailures(c, events + [Attempt(now), Success]);
  }

  // ----- an open circuit, under any interleaving -----

  /** The last failure reported is less than the recovery time ago. */
  predicate TooSoon(c: Config, history: seq<Event>, now: int) {
    FailureTimes(history) != [] && now - FailureTimes(history)[|FailureTimes(history)| - 1] < c.recoveryTimeout
  }

  /** Every attempt among the later events comes too soon after the failures reported until then. */
  ghost predicate AttemptsTooSoon(c: Config, before: seq<Event>, later: seq<Event>) {
    forall i :: 0 <= i < |later| && later[i].Attempt? ==> TooSoon(c, before + later[..i], later[i].now)
  }

  lemma AttemptsTooSoonInit(c: Config, before: seq<Event>, later: seq<Event>)
    requires later != [] && AttemptsTooSoon(c, before, later)
    ensures AttemptsTooSoon(c, before, later[..|later| - 1])
  {
    var init := later[..|later| - 1];
    forall i | 0 <= i < |init| && init[i].Attempt? ensures TooSoon(c, before + init[..i], init[i].now) {
      assert init[..i] == later[..i] && init[i] == later[i];
    }
  }

  /**
    From the moment the circuit opens, whatever is reported, late successes and late failures included, and
    however attempts are mixed in, it stays open and nothing is admitted until the recovery time after the last
    failure reported.
   */
  lemma {:induction false} NothingAdmittedWhileOpen(c: Config, before: seq<Event>, later: seq<Event>, now: int)
    requires Run(c, FRESH, before).circuit.Open? && AttemptsTooSoon(c, before, later)
    ensures Run(c, FRESH, before + later).circuit.Open?
    ensures TooSoon(c, before + later, now) ==> !CanExecute(c, Run(c, FRESH, before + later), now)
    decreases |later|
  {
    OpenAdmitsOnlyAfterRecovery(c, before + later, now);
    if later == [] {
      assert before + later == before;
    } else {
      var n := |later| - 1;
      AttemptsTooSoonInit(c, before, later);
      assert later[n].Attempt? ==> TooSoon(c, before + later[..n], later[n].now);
      NothingAdmittedWhileOpen(c, before, later[..n], if later[n].Attempt? then later[n].now else now);
      assert before + later == (before + later[..n]) + [later[n]];
      HistoryGrows(c, before + later[..n], later[n]);
      OpenAdmitsOnlyAfterRecovery(c, before + later, now);
    }
  }

  /**
    The circuit's moves, event by event, told by the history: closed opens at the failure that makes the trailing
    failures reach the threshold; open moves only by an attempt at least the recovery time after the last failure,
    if that is not stamped 0, and then becomes half-open; half-open is closed by a success and opened by a failure.
   */
  lemma CircuitMoves(c: Config, history: seq<Event>, e: Event)
    ensures var was, becomes := Run(c, FRESH, history).circuit, Run(c, FRESH, history + [e]).circuit;
      match was
      case Closed =>
        becomes == if e.Failure? && TrailingFailures(Outcomes(history + [e])) >= c.failureThreshold then Open else Closed
      case Open =>
        var failures := FailureTimes(history);
        becomes == if e.Attempt? && failures != [] && failures[|failures| - 1] != 0 && !TooSoon(c, history, e.now) then HalfOpen else Open
      case HalfOpen => becomes == if e.Success? then Closed else if e.Failure? then Open else HalfOpen
  {
    HistoryGrows(c, history, e);
    CounterIsTrailingFailures(c, history + [e]);
    StampIsLastFailure(c, history);
  }

  // ----- a sequential caller whose calls all fail -----

  /** One attempt, and the time its failure is reported if it is admitted. */
  datatype Try = Try(start: int, end: int)

  function AfterTry(c: Config, s: State, t: Try): State {
    if CanExecute(c, s, t.start) then FailedAt(c, Attempted(c, s, t.start), t.end) else s
  }

  function Admitted(c: Config, s: State, tries: seq<Try>): nat
    decreases |tries|
  {
    if tries == [] then 0
    else (if CanExecute(c, s, tries[0].start) then 1 else 0) + Admitted(c, AfterTry(c, s, tries[0]), tries[1..])
  }

  /** Each try starts after the one before has ended, from time t0 on and by time end. */
  ghost predicate Sequential(tries: seq<Try>, t0: int, end: int)
    decreases |tries|
  {
    tries == [] || (t0 <= tries[0].start <= tries[0].end && tries[0].start <= end && Sequential(tries[1..], tries[0].end, end))
  }

  /** What the state still allows by time end, in units of the recovery time. */
  function Allowance(c: Config, s: State, t0: int, end: int): int {
    match s.circuit
    case Open => end - s.lastFailure.GetOr(t0)
    case Closed => (c.failureThreshold - s.consecutive) * c.recoveryTimeout + (end - t0)
    case HalfOpen => c.recoveryTimeout + (end - t0)
  }

  /** A state a sequential caller can meet at time t0. */
  ghost predicate Settled(c: Config, s: State, t0: int) {
    && (s.circuit.Open? ==> s.lastFailure.Some? && s.lastFailure.value <= t0)
    && (s.circuit.Closed? ==> s.consecutive < c.failureThreshold)
  }

  lemma Product(k: int, r: int)
    requires k >= 1 && r >= 0
    ensures k * r >= r && (k - 1) * r == k * r - r
  {
  }

  /** One failing try spends the allowance it uses up. */
  lemma TrySpendsAllowance(c: Config, s: State, t: Try, t0: int, end: int)
    requires c.recoveryTimeout >= 0 && Settled(c, s, t0) && t0 <= t.start <= t.end && t.start <= end
    ensures var spent := if CanExecute(c, s, t.start) then c.recoveryTimeout else 0;
      && Settled(c, AfterTry(c, s, t), t.end)
      && spent <= Allowance(c, s, t0, end)
      && spent + Allowance(c, AfterTry(c, s, t), t.end, end) <= Allowance(c, s, t0, end)
  {
    if s.circuit.Closed? {
      Product(c.failureThreshold - s.consecutive, c.recoveryTimeout);
    }
  }

  lemma {:induction false} AdmissionsWithinAllowance(c: Config, s: State, tries: seq<Try>, t0: int, end: int)
    requires c.recoveryTimeout >= 0 && t0 <= end && Settled(c, s, t0) && Sequential(tries, t0, end)
    ensures Admitted(c, s, tries) * c.recoveryTimeout <= Allowance(c, s, t0, end)
    decreases |tries|
  {
    if tries == [] {
      TrySpendsAllowance(c, s, Try(t0, t0), t0, end);
    } else {
      var t, r := tries[0], c.recoveryTimeout;
      TrySpendsAllowance(c, s, t, t0, end);
      var rest := Admitted(c, AfterTry(c, s, t), tries[1..]);
      assert (1 + rest) * r == r + rest * r;
      if t.end <= end {
        AdmissionsWithinAllowance(c, AfterTry(c, s, t), tries[1..], t.end, end);
      } else {
        assert tries[1..] == [] && rest == 0;
      }
    }
  }

  lemma QuotientBound(n: int, k: int, r: int, d: int)
    requires r > 0 && n * r <= k * r + d
    ensures n <= k + d / r
  {
    var q := d / r;
    assert d < (q + 1) * r;
    assert (k + q + 1) * r == k * r + (q + 1) * r;
    if n > k + q {
      MulAtLeast(k + q + 1, n, r);
    }
  }

  /** A fresh breaker facing a sequential caller whose calls all fail admits at most threshold + (T - t0) / recovery of them in [t0, T]. */
  lemma FailingCallerIsThrottled(c: Config, tries: seq<Try>, t0: int, end: int)
    requires c.failureThreshold >= 1 && c.recoveryTimeout > 0 && t0 <= end && Sequential(tries, t0, end)
    ensures Admitted(c, FRESH, tries) <= c.failureThreshold + (end - t0) / c.recoveryTimeout
  {
    AdmissionsWithinAllowance(c, FRESH, tries, t0, end);
    QuotientBound(Admitted(c, FRESH, tries), c.failureThreshold, c.recoveryTimeout, end - t0);
  }

  // ----- the bound is attained -----

  /** n tries one recovery time apart, each over at once. */
  function Retry(at: int, r: int, n: nat): seq<Try>
    decreases n
  {
    if n == 0 then [] else [Try(at, at)] + Retry(at + r, r, n - 1)
  }

  /** As many tries at t0 as it takes to open the circuit, then the given ones. */
  function Eager(c: Config, failed: nat, t0: int, tail: seq<Try>): seq<Try>
    decreases c.failureThreshold - failed
  {
    if failed < c.failureThreshold then [Try(t0, t0)] + Eager(c, failed + 1, t0, tail) else tail
  }

  lemma AdmitsFirst(c: Config, s: State, t: Try, rest: seq<Try>)
    requires CanExecute(c, s, t.start)
    ensures Admitted(c, s, [t] + rest) == 1 + Admitted(c, AfterTry(c, s, t), rest)
  {
    assert ([t] + rest)[1..] == rest;
  }

  lemma SequentialFirst(t: Try, rest: seq<Try>, t0: int, end: int)
    requires t0 <= t.start <= t.end && t.start <= end && Sequential(rest, t.end, end)
    ensures Sequential([t] + rest, t0, end)
  {
    assert ([t] + rest)[1..] == rest;
  }

  lemma {:induction false} RetriesAreAdmitted(c: Config, s: State, last: int, n: nat, end: int)
    requires c.recoveryTimeout > 0 && s.circuit.Open? && s.lastFailure == Some(last) && last > 0
    requires last + n * c.recoveryTimeout <= end
    ensures var tries := Retry(last + c.recoveryTimeout, c.recoveryTimeout, n);
      Admitted(c, s, tries) == n && Sequential(tries, last, end)
    decreases n
  {
    if n > 0 {
      var r := c.recoveryTimeout;
      var t, rest := Try(last + r, last + r), Retry(last + r + r, r, n - 1);
      Product(n, r);
      RetriesAreAdmitted(c, AfterTry(c, s, t), last + r, n - 1, end);
      AdmitsFirst(c, s, t, rest);
      SequentialFirst(t, rest, last, end);
    }
  }

  /** Any circuit that opened at t0 admits n of these tries. */
  ghost predicate AdmitsAll(c: Config, t0: int, tail: seq<Try>, n: nat) {
    forall s: State :: s.circuit.Open? && s.lastFailure == Some(t0) ==> Admitted(c, s, tail) == n
  }

  lemma {:induction false} EagerIsAdmitted(c: Config, s: State, t0: int, tail: seq<Try>, n: nat, end: int)
    requires s.circuit.Closed? && s.consecutive < c.failureThreshold && t0 <= end
    requires AdmitsAll(c, t0, tail, n) && Sequential(tail, t0, end)
    ensures var tries := Eager(c, s.consecutive, t0, tail);
      Admitted(c, s, tries) == c.failureThreshold - s.consecutive + n && Sequential(tries, t0, end)
    decreases c.failureThreshold - s.consecutive
  {
    var t := Try(t0, t0);
    var next, rest := AfterTry(c, s, t), Eager(c, s.consecutive + 1, t0, tail);
    if s.consecutive + 1 < c.failureThreshold {
      EagerIsAdmitted(c, next, t0, tail, n, end);
    }
    AdmitsFirst(c, s, t, rest);
    SequentialFirst(t, rest, t0, end);
  }

  /** The bound is attained: from any time after the epoch an eager caller gets exactly that many calls admitted. */
  lemma ThrottleIsTight(c: Config, t0: int, end: int)
    requires c.failureThreshold >= 1 && c.recoveryTimeout > 0 && 0 < t0 <= end
    ensures exists tries ::
      Sequential(tries, t0, end) && Admitted(c, FRESH, tries) == c.failureThreshold + (end - t0) / c.recoveryTimeout
  {
    var n := (end - t0) / c.recoveryTimeout;
    var tail := Retry(t0 + c.recoveryTimeout, c.recoveryTimeout, n);
    RetriesAreAdmitted(c, FRESH.(circuit := Open, lastFailure := Some(t0)), t0, n, end);
    forall s: State | s.circuit.Open? && s.lastFailure == Some(t0) ensures Admitted(c, s, tail) == n {
      RetriesAreAdmitted(c, s, t0, n, end);
    }
    EagerIsAdmitted(c, FRESH, t0, tail, n, end);
  }

  // ----- the mutable object -----

  class Breaker {
    const config: Config
    var circuit: CircuitState
    var recent: seq<bool>
    var consecutive: nat
    var lastFailure: Option<int>
    var totalCalls: nat
    var totalFailures: nat
    ghost var history: seq<Event>

    ghost function Model(): State
      reads this
    {
      State(circuit, recent, consecutive, lastFailure, totalCalls, totalFailures)
    }

    /** The fields are a function of what happened, so every lemma about runs is about this object. */
    ghost predicate Valid()
      reads this
    {
      Model() == Run(config, FRESH, history)
    }

    /** The counter and the window this object holds are those of all outcomes reported to it. */
    lemma FieldsTellHistory()
      requires Valid()
      ensures consecutive == TrailingFailures(Outcomes(history)) && recent == Last(Outcomes(history), config.windowSize)
      ensures lastFailure == var failures := FailureTimes(history); if failures == [] then None else Some(failures[|failures| - 1])
    {
      CounterIsTrailingFailures(config, history);
      WindowIsLastOutcomes(config, history);
      StampIsLastFailure(config, history);
    }

    constructor (config: Config)
      ensures Valid() && Model() == FRESH && this.config == config && history == []
    {
      this.config, history := config, [];
      circuit, recent, consecutive, lastFailure, totalCalls, totalFailures := Closed, [], 0, None, 0, 0;
    }

    /** deque.append on a bounded deque. */
    method Remember(outcome: bool)
      modifies this`recent
      ensures recent == Last(old(recent) + [outcome], config.windowSize)
    {
      recent := recent + [outcome];
      if |recent| > config.windowSize {
        recent := recent[|recent| - config.windowSize..];
      }
    }

    method RecordSuccess()
      requires Valid()
      modifies this
      ensures Valid() && history == old(history) + [Success] && Model() == Succeeded(config, old(Model()))
    {
      CountSuccess();
      HistoryGrows(config, history, Success);
      history := history + [Success];
    }

    method CountSuccess()
      modifies this`circuit, this`recent, this`consecutive, this`totalCalls
      ensures Model() == Succeeded(config, old(Model()))
    {
      consecutive := 0;
      Remember(true);
      totalCalls := totalCalls + 1;
      if circuit == HalfOpen {
        circuit := Closed;
      }
    }

    method RecordFailure(now: int)
      requires Valid()
      modifies this
      ensures Valid() && history == old(history) + [Failure(now)] && Model() == FailedAt(config, old(Model()), now)
    {
      CountFailure(now);
      HistoryGrows(config, history, Failure(now));
      history := history + [Failure(now)];
    }

    method CountFailure(now: int)
      modifies this`circuit, this`recent, this`consecutive, this`lastFailure, this`totalCalls, this`totalFailures
      ensures Model() == FailedAt(config, old(Model()), now)
    {
      consecutive := consecutive + 1;
      Remember(false);
      totalCalls := totalCalls + 1;
      totalFailures := totalFailures + 1;
      lastFailure := Some(now);
      if circuit == Closed && consecutive >= config.failureThreshold {
        circuit := Open;
      } else if circuit == HalfOpen {
        circuit := Open;
      }
    }

    method CheckExecute(now: int) returns (allowed: bool)
      requires Valid()
      modifies this`circuit, this`history
      ensures Valid() && history == old(history) + [Attempt(now)]
      ensures allowed == CanExecute(config, old(Model()), now) && Model() == Attempted(config, old(Model()), now)
      ensures old(circuit).Open? ==>
        var failures := FailureTimes(old(history));
        failures != [] && (allowed <==> failures[|failures| - 1] != 0 && now - failures[|failures| - 1] >= config.recoveryTimeout)
    {
      OpenAdmitsOnlyAfterRecovery(config, history, now);
      HistoryGrows(config, history, Attempt(now));
      history := history + [Attempt(now)];
      if circuit == Open {
        if lastFailure.Some? && lastFailure.value != 0 && now - lastFailure.value >= config.recoveryTimeout {
          circuit := HalfOpen;
          return true;
        }
        return false;
      }
      return true;
    }
  }
}
