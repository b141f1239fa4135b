/**
  The sliding-window rate limiter. A check prunes the client's list to the current window and accepts if it
  then holds fewer than `requests` times. The pruned list is proved to be as good as the full log of
  accepted times.
 */
module RateLimiter {
  import opened Integers
  import opened Seqs

  type Client = string

  datatype Config = Config(requests: int, window: int)

  datatype Event =
    | Check(client: Client, now: int)
    | Reset(client: Client)

  type Buckets = map<Client, seq<int>>

  function Recent(start: int): int -> bool {
    (t: int) => t > start
  }

  function Bucket(b: Buckets, client: Client): seq<int> {
    if client in b then b[client] else []
  }

  function InWindow(c: Config, times: seq<int>, now: int): seq<int> {
    Filter(Recent(now - c.window), times)
  }

  predicate Accepts(c: Config, b: Buckets, client: Client, now: int) {
    |InWindow(c, Bucket(b, client), now)| < c.requests
  }

  function Checked(c: Config, b: Buckets, client: Client, now: int): Buckets {
    var pruned := InWindow(c, Bucket(b, client), now);
    b[client := if |pruned| >= c.requests then pruned else pruned + [now]]
  }

  function Remaining(c: Config, b: Buckets, client: Client, now: int): int {
    var left := c.requests - |InWindow(c, Bucket(b, client), now)|;
    if left < 0 then 0 else left
  }

  function Next(c: Config, b: Buckets, e: Event): Buckets {
    match e
    case Check(client, now) => Checked(c, b, client, now)
    case Reset(client) => b - {client}
  }

  function Run(c: Config, events: seq<Event>): Buckets {
    if events == [] then map[] else Next(c, Run(c, events[..|events| - 1]), events[|events| - 1])
  }

  // ----- the full log -----

  function Between(x: int, y: int): int -> bool {
    (t: int) => x < t <= y
  }

  /** How many of these times lie in the window that ends now. */
  function CountInWindow(c: Config, times: seq<int>, now: int): nat {
    |Filter(Between(now - c.window, now), times)|
  }

  /**
    What the limiter should do, told without its buckets: the times at which a client's checks are accepted since
    its last reset, never pruned. A check is accepted when fewer than `requests` of them lie in its window.
   */
  function Log(c: Config, events: seq<Event>, client: Client): seq<int> {
    if events == [] then []
    else
      var before, last := Log(c, events[..|events| - 1], client), events[|events| - 1];
      if last.client != client then before
      else if last.Reset? then []
      else if CountInWindow(c, before, last.now) < c.requests then before + [last.now]
      else before
  }

  /** The clock never goes back, and has not passed `now`. */
  ghost predicate Clocked(events: seq<Event>, now: int) {
    && (forall i, j :: 0 <= i < j < |events| && events[i].Check? && events[j].Check? ==> events[i].now <= events[j].now)
    && forall i :: 0 <= i < |events| && events[i].Check? ==> events[i].now <= now
  }

  lemma WindowsNest(c: Config, times: seq<int>, a: int, b: int)
    requires a <= b
    ensures InWindow(c, InWindow(c, times, a), b) == InWindow(c, times, b)
  {
    FilterTwice(Recent(a - c.window), Recent(b - c.window), Recent(b - c.window), times);
  }

  lemma {:induction false} WindowOfAppend(c: Config, times: seq<int>, t: int, now: int)
    ensures InWindow(c, times + [t], now) == InWindow(c, times, now) + if t > now - c.window then [t] else []
  {
    FilterConcat(Recent(now - c.window), times, [t]);
  }

  lemma {:induction false} LogWithinClock(c: Config, events: seq<Event>, client: Client, now: int)
    requires Clocked(events, now)
    ensures forall t :: t in Log(c, events, client) ==> t <= now
  {
    if events != [] {
      LogWithinClock(c, events[..|events| - 1], client, now);
    }
  }

  lemma WindowIsBetween(c: Config, events: seq<Event>, client: Client, now: int)
    requires Clocked(events, now)
    ensures |InWindow(c, Log(c, events, client), now)| == CountInWindow(c, Log(c, events, client), now)
  {
    LogWithinClock(c, events, client, now);
    FilterAgrees(Recent(now - c.window), Between(now - c.window, now), Log(c, events, client));
  }

  /** Pruning loses nothing that any later window can see: bucket and full log agree on the current window. */
  lemma {:induction false} PrunedIsAsGood(c: Config, events: seq<Event>, client: Client, now: int)
    requires Clocked(events, now)
    ensures InWindow(c, Bucket(Run(c, events), client), now) == InWindow(c, Log(c, events, client), now)
    decreases |events|
  {
    if events != [] {
      var init, last := events[..|events| - 1], events[|events| - 1];
      PrunedIsAsGood(c, init, client, now);
      if last.Check? && last.client == client {
        var b := Bucket(Run(c, init), client);
        assert Clocked(init, last.now);
        PrunedIsAsGood(c, init, client, last.now);
        WindowIsBetween(c, init, client, last.now);
        WindowsNest(c, b, last.now, now);
        WindowOfAppend(c, InWindow(c, b, last.now), last.now, now);
        WindowOfAppend(c, Log(c, init, client), last.now, now);
      }
    }
  }

  /** A check is accepted exactly when fewer than `requests` of the accepted times lie in (now - window, now], and get_remaining is how many more there is room for. */
  lemma AcceptsExactly(c: Config, events: seq<Event>, client: Client, now: int)
    requires Clocked(events, now)
    ensures Accepts(c, Run(c, events), client, now) <==> CountInWindow(c, Log(c, events, client), now) < c.requests
    ensures Remaining(c, Run(c, events), client, now) == Max(c.requests - CountInWindow(c, Log(c, events, client), now), 0)
    ensures Accepts(c, Run(c, events), client, now) <==> Remaining(c, Run(c, events), client, now) > 0
  {
    PrunedIsAsGood(c, events, client, now);
    WindowIsBetween(c, events, client, now);
  }

  /** The events followed by n checks of a client at the same time. */
  function WithBurst(events: seq<Event>, client: Client, now: int, n: nat): seq<Event> {
    if n == 0 then events else WithBurst(events, client, now, n - 1) + [Event.Check(client, now)]
  }

  /** As many of the n checks were accepted as there was room for, and so many fewer remain. */
  ghost predicate BurstTaken(c: Config, events: seq<Event>, after: seq<Event>, client: Client, now: int, n: nat) {
    var left := Remaining(c, Run(c, events), client, now);
    var taken := if n <= left then n else left;
    && Clocked(after, now)
    && |Log(c, after, client)| == |Log(c, events, client)| + taken
    && Remaining(c, Run(c, after), client, now) == left - taken
  }

  /** What get_remaining promises: of n checks made at once exactly that many are accepted, if there are so many. */
  lemma {:induction false} RemainingIsKept(c: Config, events: seq<Event>, client: Client, now: int, n: nat)
    requires Clocked(events, now) && c.window > 0
    ensures BurstTaken(c, events, WithBurst(events, client, now, n), client, now, n)
  {
    if n > 0 {
      RemainingIsKept(c, events, client, now, n - 1);
      BurstGrows(c, events, WithBurst(events, client, now, n - 1), client, now, n - 1);
    }
  }

  lemma BurstGrows(c: Config, events: seq<Event>, before: seq<Event>, client: Client, now: int, n: nat)
    requires c.window > 0 && BurstTaken(c, events, before, client, now, n)
    ensures BurstTaken(c, events, before + [Event.Check(client, now)], client, now, n + 1)
  {
    OneMoreCheck(c, before, client, now);
  }

  lemma OneMoreCheck(c: Config, events: seq<Event>, client: Client, now: int)
    requires Clocked(events, now) && c.window > 0
    ensures var after, left := events + [Event.Check(client, now)], Remaining(c, Run(c, events), client, now);
      && Clocked(after, now)
      && |Log(c, after, client)| == |Log(c, events, client)| + (if left > 0 then 1 else 0)
      && Remaining(c, Run(c, after), client, now) == if left > 0 then left - 1 else 0
  {
    var after := events + [Event.Check(client, now)];
    assert after[..|after| - 1] == events;
    AcceptsExactly(c, events, client, now);
    AcceptsExactly(c, after, client, now);
    FilterConcat(Between(now - c.window, now), Log(c, events, client), [now]);
  }

  // ----- the limit -----

  lemma {:induction false} FewerPass(p: int -> bool, q: int -> bool, s: seq<int>)
    requires forall t :: t in s && p(t) ==> q(t)
    ensures |Filter(p, s)| <= |Filter(q, s)|
  {
    if s != [] {
      FewerPass(p, q, s[1..]);
      var t := s[0];
      assert t in s && (p(t) ==> q(t));
    }
  }

  /** For every client and every interval (x, x + window], at most `requests` checks are accepted since the client's last reset. */
  lemma {:induction false} LimitHolds(c: Config, events: seq<Event>, client: Client, now: int, x: int)
    requires Clocked(events, now)
    ensures |Filter(Between(x, x + c.window), Log(c, events, client))| <= Max(c.requests, 0)
  {
    if events != [] {
      var init, last := events[..|events| - 1], events[|events| - 1];
      LimitHolds(c, init, client, now, x);
      if last.Check? && last.client == client && CountInWindow(c, Log(c, init, client), last.now) < c.requests {
        var log := Log(c, init, client);
        assert Clocked(init, last.now);
        LogWithinClock(c, init, client, last.now);
        FilterConcat(Between(x, x + c.window), log, [last.now]);
        if x < last.now <= x + c.window {
          FewerPass(Between(x, x + c.window), Between(last.now - c.window, last.now), log);
        }
      }
    }
  }

  /** A check or reset of one client leaves every other client's bucket alone. */
  lemma ClientsAreIndependent(c: Config, b: Buckets, e: Event, client: Client)
    requires e.client != client
    ensures Bucket(Next(c, b, e), client) == Bucket(b, client)
  {
  }

  // ----- the mutable object -----

  lemma HistoryGrows(c: Config, events: seq<Event>, e: Event)
    ensures Run(c, events + [e]) == Next(c, Run(c, events), e)
  {
    assert (events + [e])[..|events|] == events;
  }

  lemma VerdictOfLog(c: Config, events: seq<Event>, client: Client, now: int)
    ensures Run(c, events + [Event.Check(client, now)]) == Checked(c, Run(c, events), client, now)
    ensures Clocked(events, now) ==>
      (Accepts(c, Run(c, events), client, now) <==> CountInWindow(c, Log(c, events, client), now) < c.requests)
  {
    HistoryGrows(c, events, Event.Check(client, now));
    if Clocked(events, now) {
      AcceptsExactly(c, events, client, now);
    }
  }

  class Limiter {
    const config: Config
    var buckets: Buckets
    ghost var history: seq<Event>

    ghost predicate Valid()
      reads this
    {
      buckets == Run(config, history)
    }

    constructor (config: Config)
      ensures Valid() && this.config == config && history == []
    {
      this.config, buckets, history := config, map[], [];
    }

    /** The answer is that of the full log, though only the pruned list is kept. */
    method Check(client: Client, now: int) returns (ok: bool)
      requires Valid()
      modifies this
      ensures Valid() && history == old(history) + [Event.Check(client, now)]
      ensures buckets == Checked(config, old(buckets), client, now) && ok == Accepts(config, old(buckets), client, now)
      ensures Clocked(old(history), now) ==> (ok <==> CountInWindow(config, Log(config, old(history), client), now) < config.requests)
    {
      VerdictOfLog(config, history, client, now);
      ok := PruneAndCount(client, now);
      history := history + [Event.Check(client, now)];
    }

    method PruneAndCount(client: Client, now: int) returns (ok: bool)
      modifies this`buckets
      ensures buckets == Checked(config, old(buckets), client, now) && ok == Accepts(config, old(buckets), client, now)
    {
      var start := now - config.window;
      if client !in buckets {
        buckets := buckets[client := []];
      }
      var kept := Keep(buckets[client], start);
      buckets := buckets[client := kept];
      if |kept| >= config.requests {
        return false;
      }
      buckets := buckets[client := kept + [now]];
      return true;
    }

    /** The list comprehension over the bucket. */
    method Keep(bucket: seq<int>, start: int) returns (kept: seq<int>)
      ensures kept == Filter(Recent(start), bucket)
    {
      kept := [];
      for i := 0 to |bucket|
        invariant kept == Filter(Recent(start), bucket[..i])
      {
        assert bucket[..i + 1] == bucket[..i] + [bucket[i]];
        FilterConcat(Recent(start), bucket[..i], [bucket[i]]);
        if bucket[i] > start {
          kept := kept + [bucket[i]];
        }
      }
      assert bucket[..|bucket|] == bucket;
    }

    method GetRemaining(client: Client, now: int) returns (remaining: int)
      ensures remaining == Remaining(config, buckets, client, now)
    {
      var recent := Keep(if client in buckets then buckets[client] else [], now - config.window);
      remaining := if config.requests - |recent| < 0 then 0 else config.requests - |recent|;
    }

    method ResetClient(client: Client)
      requires Valid()
      modifies this
      ensures Valid() && history == old(history) + [Reset(client)]
      ensures buckets == Next(config, old(buckets), Reset(client))
    {
      HistoryGrows(config, history, Reset(client));
      history := history + [Reset(client)];
      if client in buckets {
        buckets := buckets - {client};
      }
    }
  }
}
