/**
  The replay window of signed requests. A verified request's nonce (its time stamp with a prefix of its
  signature) is stored with the time it was seen and forgotten after nonce_ttl; a stored nonce is refused.
  Each verification reads the clock twice, once for the checks and once more for the cleanup.
 */
module RequestSigner {
  datatype Nonce = Nonce(timestamp: int, prefix: string)

  /** Each verification names its tolerance; valid is the outcome of the HMAC comparison, which comes last. */
  datatype Request = Request(nonce: Nonce, tolerance: int, valid: bool, now: int, later: int)

  datatype Config = Config(nonceTtl: int)

  type Store = map<Nonce, int>

  predicate Timely(r: Request) {
    -r.tolerance <= r.now - r.nonce.timestamp <= r.tolerance
  }

  /** Fresh and unseen: the request gets its nonce stored. */
  predicate Admits(s: Store, r: Request) {
    Timely(r) && r.nonce !in s
  }

  predicate Accepts(s: Store, r: Request) {
    Admits(s, r) && r.valid
  }

  function Cleanup(c: Config, s: Store, now: int): Store {
    map n | n in s && s[n] >= now - c.nonceTtl :: s[n]
  }

  function Next(c: Config, s: Store, r: Request): Store {
    if Admits(s, r) then Cleanup(c, s[r.nonce := r.now], r.later) else s
  }

  function Run(c: Config, rs: seq<Request>): Store {
    if rs == [] then map[] else Next(c, Run(c, rs[..|rs| - 1]), rs[|rs| - 1])
  }

  /** The clock never goes back, within a request or between requests. */
  ghost predicate Clocked(rs: seq<Request>) {
    && (forall i :: 0 <= i < |rs| ==> rs[i].now <= rs[i].later)
    && forall i, j :: 0 <= i < j < |rs| ==> rs[i].later <= rs[j].now
  }

  /** Request i of the run passes the freshness and replay checks. */
  ghost predicate AdmittedAt(c: Config, rs: seq<Request>, i: nat)
    requires i < |rs|
  {
    Admits(Run(c, rs[..i]), rs[i])
  }

  /** After each insertion the store holds only nonces seen within the last nonce_ttl. */
  lemma StoreIsRecent(c: Config, s: Store, r: Request)
    requires Admits(s, r)
    ensures forall n :: n in Next(c, s, r) ==> r.later - Next(c, s, r)[n] <= c.nonceTtl
  {
  }

  /** A nonce admitted at time t stays stored, with that time, while the clock is within nonce_ttl of t. */
  lemma {:induction false} StaysStored(c: Config, rs: seq<Request>, i: nat, j: nat)
    requires Clocked(rs) && i < j <= |rs| && AdmittedAt(c, rs, i)
    requires rs[j - 1].later - rs[i].now <= c.nonceTtl
    ensures var s := Run(c, rs[..j]); rs[i].nonce in s && s[rs[i].nonce] == rs[i].now
  {
    assert rs[..j][..j - 1] == rs[..j - 1];
    if j > i + 1 {
      StaysStored(c, rs, i, j - 1);
    }
  }

  // ----- what is accepted, told by the history -----

  /** Request i was within its tolerance of its time stamp, and its nonce was not remembered when it came. */
  ghost predicate Recorded(c: Config, rs: seq<Request>, i: nat)
    requires i < |rs|
    decreases i, 2
  {
    && rs[i].nonce.timestamp - rs[i].tolerance <= rs[i].now <= rs[i].nonce.timestamp + rs[i].tolerance
    && !Remembered(c, rs, rs[i].nonce, i)
  }

  /** Request i is recorded, and was at most nonce_ttl old at its own and at every recorded request after it, up to `end`. */
  ghost predicate KeptUntil(c: Config, rs: seq<Request>, i: nat, end: nat)
    requires i < end <= |rs|
    decreases end, 0
  {
    Recorded(c, rs, i) && forall j :: i <= j < end && Recorded(c, rs, j) ==> rs[j].later - rs[i].now <= c.nonceTtl
  }

  /** One of the first `end` requests brought n and is kept until then. */
  ghost predicate Remembered(c: Config, rs: seq<Request>, n: Nonce, end: nat)
    requires end <= |rs|
    decreases end, 1
  {
    exists i: nat :: i < end && rs[i].nonce == n && KeptUntil(c, rs, i, end)
  }

  /** The store is what the history says is remembered, each nonce with the time it was seen. */
  ghost predicate StoreTells(c: Config, rs: seq<Request>, end: nat, s: Store)
    requires end <= |rs|
  {
    && (forall n :: n in s ==> exists i: nat :: i < end && rs[i].nonce == n && rs[i].now == s[n] && KeptUntil(c, rs, i, end))
    && forall i: nat :: i < end && KeptUntil(c, rs, i, end) ==> rs[i].nonce in s && s[rs[i].nonce] == rs[i].now
  }

  lemma RememberedIsStored(c: Config, rs: seq<Request>, end: nat, s: Store, n: Nonce)
    requires end <= |rs| && StoreTells(c, rs, end, s)
    ensures n in s <==> Remembered(c, rs, n, end)
  {
    if n in s {
      var i: nat :| i < end && rs[i].nonce == n && rs[i].now == s[n] && KeptUntil(c, rs, i, end);
    }
  }

  lemma StoreStillTells(c: Config, rs: seq<Request>, end: nat, s: Store)
    requires end < |rs| && StoreTells(c, rs, end, s)
    ensures StoreTells(c, rs, end + 1, Next(c, s, rs[end]))
  {
    var r, next := rs[end], Next(c, s, rs[end]);
    RememberedIsStored(c, rs, end, s, r.nonce);
    assert Recorded(c, rs, end) <==> Admits(s, r);
    forall i: nat | i < end
      ensures KeptUntil(c, rs, i, end + 1) <==>
        KeptUntil(c, rs, i, end) && (Recorded(c, rs, end) ==> r.later - rs[i].now <= c.nonceTtl)
    {
    }
    forall n | n in next
      ensures exists i: nat :: i < end + 1 && rs[i].nonce == n && rs[i].now == next[n] && KeptUntil(c, rs, i, end + 1)
    {
      if Admits(s, r) && n == r.nonce {
        assert KeptUntil(c, rs, end, end + 1);
      } else {
        var i: nat :| i < end && rs[i].nonce == n && rs[i].now == s[n] && KeptUntil(c, rs, i, end);
        assert KeptUntil(c, rs, i, end + 1);
      }
    }
    forall i: nat | i < end + 1 && KeptUntil(c, rs, i, end + 1)
      ensures rs[i].nonce in next && next[rs[i].nonce] == rs[i].now
    {
      if i < end {
        assert KeptUntil(c, rs, i, end);
      }
    }
  }

  lemma {:induction false} StoreTellsHistory(c: Config, rs: seq<Request>, end: nat)
    requires end <= |rs|
    ensures StoreTells(c, rs, end, Run(c, rs[..end]))
  {
    if end > 0 {
      StoreTellsHistory(c, rs, end - 1);
      RunNext(c, rs, end - 1);
      StoreStillTells(c, rs, end - 1, Run(c, rs[..end - 1]));
    }
  }

  /**
    What verify_request accepts, over any history: a validly signed request within its tolerance of its time stamp
    whose nonce the history does not remember. Nothing else is accepted, a forged signature never.
   */
  lemma AcceptsExactly(c: Config, rs: seq<Request>, i: nat)
    requires i < |rs|
    ensures Accepts(Run(c, rs[..i]), rs[i]) <==>
      && rs[i].valid
      && rs[i].nonce.timestamp - rs[i].tolerance <= rs[i].now <= rs[i].nonce.timestamp + rs[i].tolerance
      && !Remembered(c, rs, rs[i].nonce, i)
  {
    StoreTellsHistory(c, rs, i);
    RememberedIsStored(c, rs, i, Run(c, rs[..i]), rs[i].nonce);
  }

  /** Two requests with the same nonce whose tolerances add up to at most nonce_ttl. */
  predicate Fits(c: Config, q: Request, r: Request) {
    q.nonce == r.nonce && q.tolerance + r.tolerance <= c.nonceTtl
  }

  /** If the tolerances of its two requests add up to at most nonce_ttl a nonce does not pass twice, despite the cleanup. */
  lemma NoNonceTwice(c: Config, rs: seq<Request>, i: nat, j: nat)
    requires Clocked(rs) && i < j < |rs| && Fits(c, rs[i], rs[j])
    ensures !(AdmittedAt(c, rs, i) && AdmittedAt(c, rs, j))
  {
    if AdmittedAt(c, rs, i) && Timely(rs[j]) {
      assert rs[j - 1].later <= rs[j].now;
      StaysStored(c, rs, i, j);
    }
  }

  /** Requests i and j of the run bring the same nonce, validly signed, and both are accepted. */
  ghost predicate Replayed(c: Config, rs: seq<Request>, i: nat, j: nat)
    requires i < j < |rs|
  {
    rs[i].nonce == rs[j].nonce && rs[i].valid && rs[j].valid && AdmittedAt(c, rs, i) && AdmittedAt(c, rs, j)
  }

  /** No run accepts a nonce with tolerance a and later again with tolerance b. */
  ghost predicate PairSafe(c: Config, a: int, b: int) {
    forall rs: seq<Request>, i: nat, j: nat ::
      Clocked(rs) && i < j < |rs| && rs[i].tolerance == a && rs[j].tolerance == b ==> !Replayed(c, rs, i, j)
  }

  /** No run whose tolerances are all at most cap accepts a nonce twice. */
  ghost predicate ReplaySafe(c: Config, cap: int) {
    forall rs: seq<Request>, i: nat, j: nat ::
      Clocked(rs) && (forall k :: 0 <= k < |rs| ==> rs[k].tolerance <= cap) && i < j < |rs| ==> !Replayed(c, rs, i, j)
  }

  /** Three requests that get a nonce accepted with tolerance a and again with b: the one between them makes the store forget it. */
  function ReplayRun(a: int, b: int): seq<Request> {
    var n, m := Nonce(a, "n"), Nonce(a + b, "m");
    [Request(n, a, true, 0, 0), Request(m, 0, true, a + b, a + b), Request(n, b, true, a + b, a + b)]
  }

  lemma RunNext(c: Config, rs: seq<Request>, i: nat)
    requires i < |rs|
    ensures Run(c, rs[..i + 1]) == Next(c, Run(c, rs[..i]), rs[i])
  {
    assert rs[..i + 1][..i] == rs[..i];
  }

  lemma ReplayRunSucceeds(c: Config, a: int, b: int)
    requires 0 <= a && 0 <= b && c.nonceTtl < a + b
    ensures var rs := ReplayRun(a, b); Clocked(rs) && Replayed(c, rs, 0, 2)
  {
    var rs := ReplayRun(a, b);
    var s1, s2 := Run(c, rs[..1]), Run(c, rs[..2]);
    RunNext(c, rs, 0);
    RunNext(c, rs, 1);
    assert rs[0].nonce.prefix == "n" && rs[1].nonce.prefix == "m" && "n"[0] != "m"[0];
    assert s1 == Next(c, map[], rs[0]) && rs[1].nonce !in s1;
    assert Admits(s1, rs[1]) && s2 == Next(c, s1, rs[1]);
    assert rs[0].nonce !in s2;
  }

  /** Exactly when, tolerance by tolerance: a nonce can pass with a and again with b if and only if both can be met at all and a + b exceeds nonce_ttl. */
  lemma PairSafeExactly(c: Config, a: int, b: int)
    ensures PairSafe(c, a, b) <==> a < 0 || b < 0 || a + b <= c.nonceTtl
  {
    if a >= 0 && b >= 0 && a + b > c.nonceTtl {
      ReplayRunSucceeds(c, a, b);
      var rs := ReplayRun(a, b);
      assert rs[0].tolerance == a && rs[2].tolerance == b;
    } else if a >= 0 && b >= 0 {
      forall rs: seq<Request>, i: nat, j: nat | Clocked(rs) && i < j < |rs| && rs[i].tolerance == a && rs[j].tolerance == b
        ensures !Replayed(c, rs, i, j)
      {
        if rs[i].nonce == rs[j].nonce {
          NoNonceTwice(c, rs, i, j);
        }
      }
    }
  }

  /** Exactly when, for all callers together: with tolerances up to cap no nonce passes twice if and only if cap is negative or 2 * cap is at most nonce_ttl. */
  lemma ReplaySafeExactly(c: Config, cap: int)
    ensures ReplaySafe(c, cap) <==> cap < 0 || 2 * cap <= c.nonceTtl
  {
    if cap >= 0 && 2 * cap > c.nonceTtl {
      ReplayRunSucceeds(c, cap, cap);
      var rs := ReplayRun(cap, cap);
      assert Clocked(rs) && forall k :: 0 <= k < |rs| ==> rs[k].tolerance <= cap;
    } else {
      forall rs: seq<Request>, i: nat, j: nat
        | Clocked(rs) && (forall k :: 0 <= k < |rs| ==> rs[k].tolerance <= cap) && i < j < |rs|
        ensures !Replayed(c, rs, i, j)
      {
        assert rs[i].tolerance <= cap && rs[j].tolerance <= cap;
        PairSafeExactly(c, rs[i].tolerance, rs[j].tolerance);
      }
    }
  }

  /** The defaults, 30 and 60 seconds, meet the condition with equality; one second more of tolerance does not. */
  lemma DefaultsAreTight()
    ensures ReplaySafe(Config(60), 30) && !ReplaySafe(Config(60), 31)
  {
    ReplaySafeExactly(Config(60), 30);
    ReplaySafeExactly(Config(60), 31);
  }

  // ----- the mutable object -----

  class Signer {
    const config: Config
    var nonceStore: Store
    ghost var history: seq<Request>

    ghost predicate Valid()
      reads this
    {
      nonceStore == Run(config, history)
    }

    constructor (config: Config)
      ensures Valid() && this.config == config && history == []
    {
      this.config, nonceStore, history := config, map[], [];
    }

    /** A request is never accepted if its nonce was admitted before and the two tolerances fit nonce_ttl. */
    method Verify(r: Request) returns (ok: bool)
      requires Valid()
      modifies this
      ensures Valid() && history == old(history) + [r]
      ensures ok <==>
        && r.valid
        && r.nonce.timestamp - r.tolerance <= r.now <= r.nonce.timestamp + r.tolerance
        && !Remembered(config, history, r.nonce, |old(history)|)
      ensures nonceStore == Next(config, old(nonceStore), r)
      ensures ok && Clocked(history) ==>
        forall i :: 0 <= i < |old(history)| && Fits(config, history[i], r) ==> !AdmittedAt(config, history, i)
    {
      history := history + [r];
      assert history[..|history| - 1] == old(history);
      AcceptsExactly(config, history, |old(history)|);
      if Clocked(history) {
        forall i | 0 <= i < |old(history)| && Fits(config, history[i], r)
          ensures !(AdmittedAt(config, history, i) && Admits(nonceStore, r))
        {
          NoNonceTwice(config, history, i, |old(history)|);
        }
      }
      var age := r.now - r.nonce.timestamp;
      if (if age < 0 then -age else age) > r.tolerance {
        return false;
      }
      if r.nonce in nonceStore {
        return false;
      }
      nonceStore := nonceStore[r.nonce := r.now];
      CleanupOldNonces(r.later);
      return r.valid;
    }

    /** Collects the nonces older than the cutoff, then deletes them one by one. */
    method CleanupOldNonces(now: int)
      modifies this`nonceStore
      ensures nonceStore == Cleanup(config, old(nonceStore), now)
    {
      var cutoff := now - config.nonceTtl;
      var expired := set n | n in nonceStore && nonceStore[n] < cutoff;
      while expired != {}
        invariant expired == set n | n in nonceStore && nonceStore[n] < cutoff
        invariant Cleanup(config, nonceStore, now) == Cleanup(config, old(nonceStore), now)
        decreases |expired|
      {
        var k :| k in expired;
        nonceStore := nonceStore - {k};
        expired := expired - {k};
      }
      assert forall n :: n in nonceStore && nonceStore[n] < cutoff ==> n in expired;
      assert Cleanup(config, nonceStore, now) == nonceStore;
    }
  }
}
