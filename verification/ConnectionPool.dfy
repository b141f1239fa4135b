/**
  The connection pool as interleaved steps. Every running coroutine (an acquire, a borrower, a release, a cull,
  a shutdown) is a task suspended at an await; a step resumes one task with the outcome of what it awaited.
  Connections are numbered in creation order. A borrower releases its own connection at most once.
 */
module ConnectionPool {
  import opened Seqs

  type Conn = nat

  /** retries counts the times an acquire has called itself again after closing a connection that failed validation. */
  datatype Task =
    | Acquiring(retries: nat)
    | LockWait(retries: nat)
    | Creating(retries: nat)
    | Waiting(retries: nat)
    | Checking(conn: Conn, retries: nat)
    | Discarding(conn: Conn, retries: nat)
    | Borrowed(conn: Conn, retries: nat)
    | Returning(conn: Conn)
    | Dropping(conn: Conn)
    | CullStart
    | Culling(rest: seq<Conn>)
    | CullChecking(conn: Conn, rest: seq<Conn>)
    | CullClosing(conn: Conn, rest: seq<Conn>)
    | Shutting
    | ShutClosing(conn: Conn)
    | Done

  /** closed lists the connections closed, so _closed_count is its length; lost lists those a raising task dropped. */
  datatype State = State(
    idle: seq<Conn>, created: nat, closed: seq<Conn>, lost: seq<Conn>, locked: bool, tasks: seq<Task>)

  /** Fail: what the task awaits raises, or the task is cancelled. */
  datatype Event =
    | SpawnAcquire
    | SpawnCull
    | SpawnShutdown
    | Resume(task: nat, ok: bool)
    | Fail(task: nat)

  const EMPTY_POOL := State([], 0, [], [], false, [])

  /** The connections a task has in hand. */
  function Held(t: Task): seq<Conn> {
    match t
    case Checking(c, _) => [c]
    case Discarding(c, _) => [c]
    case Borrowed(c, _) => [c]
    case Returning(c) => [c]
    case Dropping(c) => [c]
    case Culling(rest) => rest
    case CullChecking(c, rest) => [c] + rest
    case CullClosing(c, rest) => [c] + rest
    case ShutClosing(c) => [c]
    case _ => []
  }

  predicate Enabled(s: State, e: Event) {
    match e
    case Resume(t, ok) =>
      && t < |s.tasks| && !s.tasks[t].Done?
      && (s.tasks[t].LockWait? ==> !s.locked)
      && (s.tasks[t].Waiting? && ok ==> s.idle != [])
    case Fail(t) => t < |s.tasks| && !s.tasks[t].Done? && !s.tasks[t].Borrowed?
    case _ => true
  }

  function Put(s: State, t: nat, task: Task): State
    requires t < |s.tasks|
  {
    s.(tasks := s.tasks[t := task])
  }

  function Full(max: nat, s: State): bool {
    max > 0 && |s.idle| >= max
  }

  predicate InAcquire(t: Task) {
    t.Acquiring? || t.LockWait? || t.Creating? || t.Waiting? || t.Checking? || t.Discarding?
  }

  predicate InRelease(t: Task) {
    t.Borrowed? || t.Returning? || t.Dropping?
  }

  predicate InCull(t: Task) {
    t.CullStart? || t.Culling? || t.CullChecking? || t.CullClosing?
  }

  /** acquire: an idle connection if there is one, else a new one under the lock, else wait; re-validated before use. */
  function ResumeAcquire(max: nat, s: State, t: nat, ok: bool): State
    requires Enabled(s, Resume(t, ok)) && InAcquire(s.tasks[t])
  {
    match s.tasks[t]
    case Acquiring(n) =>
      if s.idle == [] then Put(s, t, LockWait(n)) else Put(s.(idle := s.idle[1..]), t, Checking(s.idle[0], n))
    case LockWait(n) =>
      if s.created < max then Put(s.(locked := true), t, Creating(n)) else Put(s, t, Waiting(n))
    case Creating(n) =>
      if ok then Put(s.(locked := false, created := s.created + 1), t, Borrowed(s.created, n))
      else Put(s.(locked := false), t, Done)
    case Waiting(n) =>
      if ok then Put(s.(idle := s.idle[1..]), t, Checking(s.idle[0], n)) else Put(s, t, Done)
    case Checking(c, n) => Put(s, t, if ok then Borrowed(c, n) else Discarding(c, n))
    case Discarding(c, n) => Put(s.(closed := s.closed + [c]), t, Acquiring(n + 1))
  }

  /** release: validate, then put back, or close an invalid connection or one the pool has no room for. */
  function ResumeRelease(max: nat, s: State, t: nat, ok: bool): State
    requires Enabled(s, Resume(t, ok)) && InRelease(s.tasks[t])
  {
    match s.tasks[t]
    case Borrowed(c, _) => Put(s, t, Returning(c))
    case Returning(c) =>
      if !ok || Full(max, s) then Put(s, t, Dropping(c)) else Put(s.(idle := s.idle + [c]), t, Done)
    case Dropping(c) => Put(s.(closed := s.closed + [c]), t, Done)
  }

  /** _cull_stale: drain the pool into a local list, then close the stale and invalid ones and put back the rest. */
  function ResumeCull(max: nat, s: State, t: nat, ok: bool): State
    requires Enabled(s, Resume(t, ok)) && InCull(s.tasks[t])
  {
    match s.tasks[t]
    case CullStart => Put(s.(idle := []), t, Culling(s.idle))
    case Culling(rest) =>
      if rest == [] then Put(s, t, Done)
      else Put(s, t, if ok then CullChecking(rest[0], rest[1..]) else CullClosing(rest[0], rest[1..]))
    case CullChecking(c, rest) =>
      if !ok || Full(max, s) then Put(s, t, CullClosing(c, rest)) else Put(s.(idle := s.idle + [c]), t, Culling(rest))
    case CullClosing(c, rest) => Put(s.(closed := s.closed + [c]), t, Culling(rest))
  }

  function ResumeTask(max: nat, s: State, t: nat, ok: bool): State
    requires Enabled(s, Resume(t, ok))
  {
    if InAcquire(s.tasks[t]) then ResumeAcquire(max, s, t, ok)
    else if InRelease(s.tasks[t]) then ResumeRelease(max, s, t, ok)
    else if InCull(s.tasks[t]) then ResumeCull(max, s, t, ok)
    else
      match s.tasks[t]
      case Shutting =>
        if s.idle == [] then Put(s, t, Done) else Put(s.(idle := s.idle[1..]), t, ShutClosing(s.idle[0]))
      case ShutClosing(c) => Put(s.(closed := s.closed + [c]), t, Shutting)
  }

  function Next(max: nat, s: State, e: Event): State
    requires Enabled(s, e)
  {
    match e
    case SpawnAcquire => s.(tasks := s.tasks + [Acquiring(0)])
    case SpawnCull => s.(tasks := s.tasks + [CullStart])
    case SpawnShutdown => s.(tasks := s.tasks + [Shutting])
    case Resume(t, ok) => ResumeTask(max, s, t, ok)
    case Fail(t) =>
      Put(s.(lost := s.lost + Held(s.tasks[t]), locked := s.locked && !s.tasks[t].Creating?), t, Done)
  }

  ghost predicate IsRun(max: nat, s: State, events: seq<Event>)
    decreases |events|
  {
    events == [] || (Enabled(s, events[0]) && IsRun(max, Next(max, s, events[0]), events[1..]))
  }

  function Run(max: nat, s: State, events: seq<Event>): State
    requires IsRun(max, s, events)
    decreases |events|
  {
    if events == [] then s else Run(max, Next(max, s, events[0]), events[1..])
  }

  // ----- conservation -----

  /** How often c occurs in a list. */
  function Tally(list: seq<Conn>, c: Conn): nat {
    if list == [] then 0 else Tally(list[1..], c) + if list[0] == c then 1 else 0
  }

  lemma {:induction false} TallyConcat(a: seq<Conn>, b: seq<Conn>, c: Conn)
    ensures Tally(a + b, c) == Tally(a, c) + Tally(b, c)
  {
    if a == [] {
      assert a + b == b;
    } else {
      assert (a + b)[1..] == a[1..] + b;
      TallyConcat(a[1..], b, c);
    }
  }

  lemma {:induction false} TallyOccurs(list: seq<Conn>, c: Conn)
    ensures Tally(list, c) > 0 <==> c in list
  {
    if list != [] {
      TallyOccurs(list[1..], c);
    }
  }

  /** How often c is in the hands of the tasks. */
  function InHand(tasks: seq<Task>, c: Conn): nat {
    if tasks == [] then 0 else InHand(tasks[..|tasks| - 1], c) + Tally(Held(tasks[|tasks| - 1]), c)
  }

  /** How many connections the tasks have in hand. */
  function HandSize(tasks: seq<Task>): nat {
    if tasks == [] then 0 else HandSize(tasks[..|tasks| - 1]) + |Held(tasks[|tasks| - 1])|
  }

  /** What an update does to all but the last task. */
  lemma UpdateInit(tasks: seq<Task>, t: nat, task: Task)
    requires t < |tasks|
    ensures var n := |tasks| - 1;
      tasks[t := task][..n] == if t < n then tasks[..n][t := task] else tasks[..n]
  {
  }

  lemma {:induction false} InHandUpdate(tasks: seq<Task>, t: nat, task: Task, c: Conn)
    requires t < |tasks|
    ensures InHand(tasks[t := task], c) + Tally(Held(tasks[t]), c) == InHand(tasks, c) + Tally(Held(task), c)
  {
    var n, after := |tasks| - 1, tasks[t := task];
    UpdateInit(tasks, t, task);
    assert InHand(tasks, c) == InHand(tasks[..n], c) + Tally(Held(tasks[n]), c);
    assert InHand(after, c) == InHand(after[..n], c) + Tally(Held(after[n]), c);
    if t < n {
      InHandUpdate(tasks[..n], t, task, c);
    }
  }

  lemma {:induction false} HandSizeUpdate(tasks: seq<Task>, t: nat, task: Task)
    requires t < |tasks|
    ensures HandSize(tasks[t := task]) + |Held(tasks[t])| == HandSize(tasks) + |Held(task)|
  {
    var n, after := |tasks| - 1, tasks[t := task];
    UpdateInit(tasks, t, task);
    assert HandSize(tasks) == HandSize(tasks[..n]) + |Held(tasks[n])|;
    assert HandSize(after) == HandSize(after[..n]) + |Held(after[n])|;
    if t < n {
      HandSizeUpdate(tasks[..n], t, task);
    }
  }

  /** Where c is: idle, in hand, closed or lost, counted together. */
  function Places(s: State, c: Conn): nat {
    Tally(s.idle, c) + InHand(s.tasks, c) + Tally(s.closed, c) + Tally(s.lost, c)
  }

  function Size(s: State): nat {
    |s.idle| + HandSize(s.tasks) + |s.closed| + |s.lost|
  }

  /** Every connection created is in exactly one place, once, and nothing else is anywhere. */
  ghost predicate Conserved(s: State) {
    Size(s) == s.created && forall c: Conn :: Places(s, c) == if c < s.created then 1 else 0
  }

  ghost predicate SomeoneCreates(tasks: seq<Task>) {
    exists t :: 0 <= t < |tasks| && tasks[t].Creating?
  }

  /** At most one task is creating a connection, under the lock, with a slot left for it. */
  ghost predicate LockHeld(max: nat, s: State) {
    && s.created <= max
    && (s.locked ==> s.created < max && SomeoneCreates(s.tasks))
    && (forall t :: 0 <= t < |s.tasks| && s.tasks[t].Creating? ==> s.locked)
    && forall t, u :: 0 <= t < u < |s.tasks| ==> !(s.tasks[t].Creating? && s.tasks[u].Creating?)
  }

  function RetriesOf(t: Task): nat {
    match t
    case Acquiring(n) => n
    case LockWait(n) => n
    case Creating(n) => n
    case Waiting(n) => n
    case Checking(_, n) => n
    case Discarding(_, n) => n
    case Borrowed(_, n) => n
    case _ => 0
  }

  function AllRetries(tasks: seq<Task>): nat {
    if tasks == [] then 0 else AllRetries(tasks[..|tasks| - 1]) + RetriesOf(tasks[|tasks| - 1])
  }

  lemma {:induction false} RetriesUpdate(tasks: seq<Task>, t: nat, task: Task)
    requires t < |tasks|
    ensures AllRetries(tasks[t := task]) + RetriesOf(tasks[t]) == AllRetries(tasks) + RetriesOf(task)
    ensures RetriesOf(tasks[t]) <= AllRetries(tasks)
  {
    var n, after := |tasks| - 1, tasks[t := task];
    UpdateInit(tasks, t, task);
    assert AllRetries(tasks) == AllRetries(tasks[..n]) + RetriesOf(tasks[n]);
    assert AllRetries(after) == AllRetries(after[..n]) + RetriesOf(after[n]);
    if t < n {
      RetriesUpdate(tasks[..n], t, task);
    }
  }

  ghost predicate Inv(max: nat, s: State) {
    Conserved(s) && LockHeld(max, s) && AllRetries(s.tasks) <= |s.closed|
  }

  lemma TallyOne(c: Conn, rest: seq<Conn>, x: Conn)
    ensures Tally([c] + rest, x) == Tally(rest, x) + if c == x then 1 else 0
  {
    assert ([c] + rest)[1..] == rest;
  }

  lemma TallySingle(c: Conn, x: Conn)
    ensures Tally([c], x) == if c == x then 1 else 0
  {
    assert [c] == [c] + [];
    TallyOne(c, [], x);
  }

  lemma TallyLast(list: seq<Conn>, c: Conn, x: Conn)
    ensures Tally(list + [c], x) == Tally(list, x) + if c == x then 1 else 0
  {
    TallyConcat(list, [c], x);
    TallySingle(c, x);
  }

  /** A resumed task only exchanges connections with the idle queue and the closed list. */
  ghost predicate Moves(s: State, next: State, t: nat)
    requires t < |s.tasks|
  {
    && t < |next.tasks| && next.tasks == s.tasks[t := next.tasks[t]]
    && next.lost == s.lost && s.created <= next.created <= s.created + 1
    && |next.idle| + |Held(next.tasks[t])| + |next.closed| - next.created == |s.idle| + |Held(s.tasks[t])| + |s.closed| - s.created
    && forall c: Conn :: Near(next, t, c) == Near(s, t, c) + if s.created <= c < next.created then 1 else 0
  }

  function Near(s: State, t: nat, c: Conn): nat
    requires t < |s.tasks|
  {
    Tally(s.idle, c) + Tally(Held(s.tasks[t]), c) + Tally(s.closed, c)
  }

  lemma AcquireMoves(max: nat, s: State, t: nat, ok: bool)
    requires Enabled(s, Resume(t, ok)) && InAcquire(s.tasks[t])
    ensures Moves(s, ResumeAcquire(max, s, t, ok), t)
  {
    var next := ResumeAcquire(max, s, t, ok);
    forall c: Conn ensures Near(next, t, c) == Near(s, t, c) + if s.created <= c < next.created then 1 else 0 {
      match s.tasks[t]
      case Creating(_) => TallySingle(s.created, c);
      case Discarding(d, _) => TallyLast(s.closed, d, c); TallySingle(d, c);
      case _ => if s.idle != [] { TallySingle(s.idle[0], c); }
    }
  }

  lemma ReleaseMoves(max: nat, s: State, t: nat, ok: bool)
    requires Enabled(s, Resume(t, ok)) && InRelease(s.tasks[t])
    ensures Moves(s, ResumeRelease(max, s, t, ok), t)
  {
    var next, d := ResumeRelease(max, s, t, ok), s.tasks[t].conn;
    forall c: Conn ensures Near(next, t, c) == Near(s, t, c) {
      TallySingle(d, c);
      TallyLast(s.idle, d, c);
      TallyLast(s.closed, d, c);
    }
  }

  lemma CullMoves(max: nat, s: State, t: nat, ok: bool)
    requires Enabled(s, Resume(t, ok)) && InCull(s.tasks[t])
    ensures Moves(s, ResumeCull(max, s, t, ok), t)
  {
    var next := ResumeCull(max, s, t, ok);
    forall c: Conn ensures Near(next, t, c) == Near(s, t, c) {
      CullTally(max, s, t, ok, c);
    }
  }

  lemma CullTally(max: nat, s: State, t: nat, ok: bool, c: Conn)
    requires Enabled(s, Resume(t, ok)) && InCull(s.tasks[t])
    ensures Near(ResumeCull(max, s, t, ok), t, c) == Near(s, t, c)
  {
    if s.tasks[t].CullChecking? || s.tasks[t].CullClosing? {
      CullSettleTally(max, s, t, ok, c);
    } else if s.tasks[t].Culling? && s.tasks[t].rest != [] {
      assert [s.tasks[t].rest[0]] + s.tasks[t].rest[1..] == s.tasks[t].rest;
    }
  }

  lemma CullSettleTally(max: nat, s: State, t: nat, ok: bool, c: Conn)
    requires Enabled(s, Resume(t, ok)) && (s.tasks[t].CullChecking? || s.tasks[t].CullClosing?)
    ensures Near(ResumeCull(max, s, t, ok), t, c) == Near(s, t, c)
  {
    var d, rest := s.tasks[t].conn, s.tasks[t].rest;
    if s.tasks[t].CullClosing? {
      MoveHead(s.closed, d, rest, c);
    } else if ok && !Full(max, s) {
      MoveHead(s.idle, d, rest, c);
    }
  }

  lemma MoveHead(list: seq<Conn>, d: Conn, rest: seq<Conn>, c: Conn)
    ensures Tally(list + [d], c) + Tally(rest, c) == Tally(list, c) + Tally([d] + rest, c)
  {
    TallyLast(list, d, c);
    TallyOne(d, rest, c);
  }

  lemma ResumeMoves(max: nat, s: State, t: nat, ok: bool)
    requires Enabled(s, Resume(t, ok))
    ensures Moves(s, ResumeTask(max, s, t, ok), t)
  {
    if InAcquire(s.tasks[t]) {
      AcquireMoves(max, s, t, ok);
    } else if InRelease(s.tasks[t]) {
      ReleaseMoves(max, s, t, ok);
    } else if InCull(s.tasks[t]) {
      CullMoves(max, s, t, ok);
    } else {
      var next := ResumeTask(max, s, t, ok);
      forall c: Conn ensures Near(next, t, c) == Near(s, t, c) {
        if s.tasks[t].ShutClosing? {
          TallyLast(s.closed, s.tasks[t].conn, c);
          TallySingle(s.tasks[t].conn, c);
        } else if s.idle != [] {
          TallySingle(s.idle[0], c);
        }
      }
    }
  }

  /** Resuming keeps every connection in one place, a new one included. */
  lemma ResumeKeepsConserved(max: nat, s: State, t: nat, ok: bool)
    requires Conserved(s) && Enabled(s, Resume(t, ok))
    ensures Conserved(ResumeTask(max, s, t, ok))
  {
    var next := ResumeTask(max, s, t, ok);
    ResumeMoves(max, s, t, ok);
    HandSizeUpdate(s.tasks, t, next.tasks[t]);
    forall c: Conn ensures Places(next, c) == if c < next.created then 1 else 0 {
      InHandUpdate(s.tasks, t, next.tasks[t], c);
      assert Near(next, t, c) == Near(s, t, c) + if s.created <= c < next.created then 1 else 0;
      assert Places(s, c) == if c < s.created then 1 else 0;
    }
  }

  lemma ResumeKeepsLock(max: nat, s: State, t: nat, ok: bool)
    requires LockHeld(max, s) && Enabled(s, Resume(t, ok))
    ensures LockHeld(max, ResumeTask(max, s, t, ok))
  {
    var next := ResumeTask(max, s, t, ok);
    if next.locked {
      OthersCreate(s.tasks, t, next.tasks[t], s.locked);
    }
  }

  /** Whoever creates still does, unless it is the task that moves; a task that takes the lock creates. */
  lemma OthersCreate(tasks: seq<Task>, t: nat, task: Task, locked: bool)
    requires t < |tasks| && (locked ==> SomeoneCreates(tasks)) && (task.Creating? || (locked && !tasks[t].Creating?))
    ensures SomeoneCreates(tasks[t := task])
  {
    if task.Creating? {
      assert tasks[t := task][t].Creating?;
    } else {
      var w :| 0 <= w < |tasks| && tasks[w].Creating?;
      assert tasks[t := task][w].Creating?;
    }
  }

  lemma FailKeepsLock(max: nat, s: State, t: nat)
    requires LockHeld(max, s) && Enabled(s, Fail(t))
    ensures LockHeld(max, Next(max, s, Fail(t)))
  {
    if s.locked && !s.tasks[t].Creating? {
      OthersCreate(s.tasks, t, Done, true);
    }
  }

  lemma NewTaskKeepsLock(max: nat, s: State, task: Task)
    requires LockHeld(max, s) && !task.Creating?
    ensures LockHeld(max, s.(tasks := s.tasks + [task]))
  {
    var next := s.tasks + [task];
    if s.locked {
      var w :| 0 <= w < |s.tasks| && s.tasks[w].Creating?;
      assert next[w].Creating?;
    }
  }

  lemma FailKeepsConserved(max: nat, s: State, t: nat)
    requires Conserved(s) && Enabled(s, Fail(t))
    ensures Conserved(Next(max, s, Fail(t)))
  {
    var next := Next(max, s, Fail(t));
    HandSizeUpdate(s.tasks, t, Done);
    forall c: Conn ensures Places(next, c) == Places(s, c) {
      InHandUpdate(s.tasks, t, Done, c);
      TallyConcat(s.lost, Held(s.tasks[t]), c);
    }
  }

  lemma SpawnKeepsInv(max: nat, s: State, e: Event)
    requires Inv(max, s) && (e.SpawnAcquire? || e.SpawnCull? || e.SpawnShutdown?)
    ensures Inv(max, Next(max, s, e))
  {
    match e
    case SpawnAcquire => NewTaskKeepsInv(max, s, Acquiring(0));
    case SpawnCull => NewTaskKeepsInv(max, s, CullStart);
    case SpawnShutdown => NewTaskKeepsInv(max, s, Shutting);
  }

  lemma NewTaskKeepsInv(max: nat, s: State, task: Task)
    requires Inv(max, s) && Held(task) == [] && RetriesOf(task) == 0 && !task.Creating?
    ensures Inv(max, s.(tasks := s.tasks + [task]))
  {
    NewTaskKeepsLock(max, s, task);
    SpawnKeepsConserved(s, task);
    RetriesSpawn(s.tasks, task);
  }

  /** A new task holds nothing, so every connection stays where it is. */
  lemma SpawnKeepsConserved(s: State, task: Task)
    requires Conserved(s) && Held(task) == []
    ensures Conserved(s.(tasks := s.tasks + [task]))
  {
    var next := s.(tasks := s.tasks + [task]);
    HandSizeSpawn(s.tasks, task);
    forall c: Conn ensures Places(next, c) == if c < next.created then 1 else 0 {
      InHandSpawn(s.tasks, task, c);
      assert Places(s, c) == if c < s.created then 1 else 0;
    }
  }

  lemma InHandSpawn(tasks: seq<Task>, task: Task, c: Conn)
    requires Held(task) == []
    ensures InHand(tasks + [task], c) == InHand(tasks, c)
  {
    assert (tasks + [task])[..|tasks|] == tasks;
  }

  lemma HandSizeSpawn(tasks: seq<Task>, task: Task)
    requires Held(task) == []
    ensures HandSize(tasks + [task]) == HandSize(tasks)
  {
    assert (tasks + [task])[..|tasks|] == tasks;
  }

  lemma RetriesSpawn(tasks: seq<Task>, task: Task)
    requires RetriesOf(task) == 0
    ensures AllRetries(tasks + [task]) == AllRetries(tasks)
  {
    assert (tasks + [task])[..|tasks|] == tasks;
  }

  lemma ResumeKeepsInv(max: nat, s: State, t: nat, ok: bool)
    requires Inv(max, s) && Enabled(s, Resume(t, ok))
    ensures Inv(max, ResumeTask(max, s, t, ok))
    ensures var next := ResumeTask(max, s, t, ok); s.closed <= next.closed && s.lost <= next.lost && s.created <= next.created
  {
    ResumeKeepsConserved(max, s, t, ok);
    ResumeKeepsLock(max, s, t, ok);
    ResumeRetries(max, s, t, ok);
    ResumeMoves(max, s, t, ok);
  }

  lemma FailKeepsInv(max: nat, s: State, t: nat)
    requires Inv(max, s) && Enabled(s, Fail(t))
    ensures Inv(max, Next(max, s, Fail(t)))
  {
    FailKeepsConserved(max, s, t);
    FailKeepsLock(max, s, t);
    RetriesUpdate(s.tasks, t, Done);
  }

  lemma StepKeepsInv(max: nat, s: State, e: Event)
    requires Inv(max, s) && Enabled(s, e)
    ensures Inv(max, Next(max, s, e))
    ensures s.closed <= Next(max, s, e).closed && s.lost <= Next(max, s, e).lost && s.created <= Next(max, s, e).created
  {
    match e
    case Resume(t, ok) => ResumeKeepsInv(max, s, t, ok);
    case Fail(t) => FailKeepsInv(max, s, t);
    case _ => SpawnKeepsInv(max, s, e);
  }

  lemma AcquireKeepsInv(max: nat, s: State, t: nat, ok: bool)
    requires Inv(max, s) && Enabled(s, Resume(t, ok)) && InAcquire(s.tasks[t])
    ensures Inv(max, ResumeAcquire(max, s, t, ok))
  {
    ResumeKeepsInv(max, s, t, ok);
  }

  lemma ReleaseKeepsInv(max: nat, s: State, t: nat, ok: bool)
    requires Inv(max, s) && Enabled(s, Resume(t, ok)) && InRelease(s.tasks[t])
    ensures Inv(max, ResumeRelease(max, s, t, ok))
  {
    ResumeKeepsInv(max, s, t, ok);
  }

  lemma CullKeepsInv(max: nat, s: State, t: nat, ok: bool)
    requires Inv(max, s) && Enabled(s, Resume(t, ok)) && InCull(s.tasks[t])
    ensures Inv(max, ResumeCull(max, s, t, ok))
  {
    ResumeKeepsInv(max, s, t, ok);
  }

  lemma ResumeRetries(max: nat, s: State, t: nat, ok: bool)
    requires AllRetries(s.tasks) <= |s.closed| && Enabled(s, Resume(t, ok))
    ensures AllRetries(ResumeTask(max, s, t, ok).tasks) <= |ResumeTask(max, s, t, ok).closed|
    ensures s.closed <= ResumeTask(max, s, t, ok).closed && s.lost <= ResumeTask(max, s, t, ok).lost
  {
    RetryClosesOne(max, s, t, ok);
    RetriesUpdate(s.tasks, t, ResumeTask(max, s, t, ok).tasks[t]);
  }

  /** A task's retry counter goes up only in a step that closes a connection. */
  lemma RetryClosesOne(max: nat, s: State, t: nat, ok: bool)
    requires Enabled(s, Resume(t, ok))
    ensures var next := ResumeTask(max, s, t, ok);
      && next.tasks == s.tasks[t := next.tasks[t]] && s.closed <= next.closed && s.lost <= next.lost
      && RetriesOf(next.tasks[t]) - RetriesOf(s.tasks[t]) <= |next.closed| - |s.closed|
  {
  }

  /** In every run of acquires, releases, culls, shutdowns and failures, connections are conserved and created stays within max. */
  lemma {:induction false} RunKeepsInv(max: nat, s: State, events: seq<Event>)
    requires Inv(max, s) && IsRun(max, s, events)
    ensures Inv(max, Run(max, s, events))
    ensures var r := Run(max, s, events); s.closed <= r.closed && s.lost <= r.lost && s.created <= r.created
    decreases |events|
  {
    if events != [] {
      StepKeepsInv(max, s, events[0]);
      RunKeepsInv(max, Next(max, s, events[0]), events[1..]);
    }
  }

  // ----- what follows in every reachable state -----

  /** The counts: idle + in hand + closed + lost = created <= max_connections. */
  lemma Counts(max: nat, s: State)
    requires Inv(max, s)
    ensures |s.idle| + HandSize(s.tasks) + |s.closed| + |s.lost| == s.created <= max
  {
  }

  /** No connection is in the hands of two tasks, so none has two borrowers; and none in hand is idle, closed or lost. */
  lemma OneHolder(max: nat, s: State, t: nat, u: nat, c: Conn)
    requires Inv(max, s) && t < |s.tasks| && u < |s.tasks| && c in Held(s.tasks[t])
    ensures c in Held(s.tasks[u]) ==> t == u
    ensures c < s.created && c !in s.idle && c !in s.closed && c !in s.lost
  {
    assert Places(s, c) == if c < s.created then 1 else 0;
    TallyOccurs(Held(s.tasks[t]), c);
    TallyOccurs(Held(s.tasks[u]), c);
    TallyOccurs(s.idle, c);
    TallyOccurs(s.closed, c);
    TallyOccurs(s.lost, c);
    InHandUpdate(s.tasks, t, Done, c);
    if t != u {
      InHandUpdate(s.tasks[t := Done], u, Done, c);
    }
  }

  /** A task about to put a connection back always finds room: the pool-full and QueueFull branches are unreachable. */
  lemma NeverFull(max: nat, s: State, t: nat)
    requires Inv(max, s) && t < |s.tasks| && (s.tasks[t].Returning? || s.tasks[t].CullChecking?)
    ensures |s.idle| < max && !Full(max, s)
  {
    HolderLeavesRoom(max, s, t);
  }

  lemma HolderLeavesRoom(max: nat, s: State, t: nat)
    requires Inv(max, s) && t < |s.tasks| && Held(s.tasks[t]) != []
    ensures |s.idle| < max && !Full(max, s)
  {
    Counts(max, s);
    HandSizeUpdate(s.tasks, t, Done);
  }

  /** The recursion in acquire ends: each retry closed a connection, and at most max_connections are ever closed. */
  lemma RetriesAreBounded(max: nat, s: State, t: nat)
    requires Inv(max, s) && t < |s.tasks|
    ensures RetriesOf(s.tasks[t]) <= AllRetries(s.tasks) <= |s.closed| <= max
  {
    RetriesUpdate(s.tasks, t, Done);
    Counts(max, s);
  }

  // ----- what is lent and what is put back -----

  /** What the task awaits next says whether c is healthy and, in a cull, whether it is fresh enough. */
  predicate Examines(task: Task, c: Conn) {
    match task
    case Checking(d, _) => d == c
    case Returning(d) => d == c
    case Culling(rest) => rest != [] && rest[0] == c
    case CullChecking(d, _) => d == c
    case _ => false
  }

  /** The task is about to close c. */
  predicate Closes(task: Task, c: Conn) {
    match task
    case Discarding(d, _) => d == c
    case Dropping(d) => d == c
    case CullClosing(d, _) => d == c
    case ShutClosing(d) => d == c
    case _ => false
  }

  /** c is closed, lost, or in the hands of a task about to close it. */
  ghost predicate Condemned(s: State, c: Conn) {
    c in s.closed || c in s.lost || exists t :: 0 <= t < |s.tasks| && Closes(s.tasks[t], c)
  }

  /** A connection is lent only by the step that created it or by a validation that succeeded. */
  lemma LentOnlyIfNewOrValid(max: nat, s: State, e: Event, t: nat)
    requires Enabled(s, e) && t < |Next(max, s, e).tasks| && Next(max, s, e).tasks[t].Borrowed?
    requires t < |s.tasks| ==> s.tasks[t] != Next(max, s, e).tasks[t]
    ensures var next := Next(max, s, e);
      && t < |s.tasks| && e == Resume(t, true)
      && (s.tasks[t] == Checking(next.tasks[t].conn, next.tasks[t].retries)
          || (s.tasks[t].Creating? && next.tasks[t].conn == s.created && next.created == s.created + 1))
  {
    if e.Resume? {
      RetryClosesOne(max, s, e.task, e.ok);
      LentByItsOwnStep(max, s, e.task, e.ok);
    }
  }

  lemma LentByItsOwnStep(max: nat, s: State, t: nat, ok: bool)
    requires Enabled(s, Resume(t, ok)) && ResumeTask(max, s, t, ok).tasks[t].Borrowed?
    ensures var next := ResumeTask(max, s, t, ok);
      && ok
      && (s.tasks[t] == Checking(next.tasks[t].conn, next.tasks[t].retries)
          || (s.tasks[t].Creating? && next.tasks[t].conn == s.created && next.created == s.created + 1))
  {
  }

  /** A connection joins the idle queue only after its validation succeeded, on release or in a cull. */
  lemma PutBackOnlyIfValid(max: nat, s: State, e: Event, c: Conn)
    requires Enabled(s, e) && c in Next(max, s, e).idle && c !in s.idle
    ensures e.Resume? && e.ok && (s.tasks[e.task] == Returning(c) || (s.tasks[e.task].CullChecking? && s.tasks[e.task].conn == c))
  {
  }

  /** A connection that fails is condemned by that very step. */
  lemma FailedIsCondemned(max: nat, s: State, t: nat, c: Conn)
    requires Enabled(s, Resume(t, false)) && Examines(s.tasks[t], c)
    ensures Condemned(Next(max, s, Resume(t, false)), c)
  {
    assert Closes(Next(max, s, Resume(t, false)).tasks[t], c);
  }

  /** The task about to close it can do nothing else: its next step closes it, or loses it by raising. */
  lemma ClosesNext(max: nat, s: State, e: Event, t: nat, c: Conn)
    requires Enabled(s, e) && t < |s.tasks| && Closes(s.tasks[t], c)
    ensures var next := Next(max, s, e);
      if e == Fail(t) then c in next.lost
      else if e.Resume? && e.task == t then c in next.closed
      else t < |next.tasks| && Closes(next.tasks[t], c)
  {
  }

  lemma CondemnedStays(max: nat, s: State, e: Event, c: Conn)
    requires Enabled(s, e) && Condemned(s, c)
    ensures Condemned(Next(max, s, e), c)
  {
    var next := Next(max, s, e);
    if e.Resume? {
      RetryClosesOne(max, s, e.task, e.ok);
    }
    if c !in s.closed && c !in s.lost {
      var t :| 0 <= t < |s.tasks| && Closes(s.tasks[t], c);
      ClosesNext(max, s, e, t, c);
    }
  }

  /** What is condemned is neither idle nor lent nor anywhere it could be taken from. */
  lemma CondemnedIsOut(max: nat, s: State, c: Conn)
    requires Inv(max, s) && Condemned(s, c)
    ensures c !in s.idle
    ensures forall t :: 0 <= t < |s.tasks| && c in Held(s.tasks[t]) ==> Closes(s.tasks[t], c) && !Examines(s.tasks[t], c)
  {
    assert Places(s, c) == if c < s.created then 1 else 0;
    TallyOccurs(s.idle, c);
    TallyOccurs(s.closed, c);
    TallyOccurs(s.lost, c);
    forall t | 0 <= t < |s.tasks| && c in Held(s.tasks[t]) ensures Closes(s.tasks[t], c) && !Examines(s.tasks[t], c) {
      OneHolder(max, s, t, t, c);
      var u :| 0 <= u < |s.tasks| && Closes(s.tasks[u], c);
      OneHolder(max, s, t, u, c);
    }
    if c !in s.closed && c !in s.lost {
      var u :| 0 <= u < |s.tasks| && Closes(s.tasks[u], c);
      OneHolder(max, s, u, u, c);
    }
  }

  lemma {:induction false} CondemnedForEver(max: nat, s: State, c: Conn, events: seq<Event>)
    requires Condemned(s, c) && IsRun(max, s, events)
    ensures Condemned(Run(max, s, events), c)
    decreases |events|
  {
    if events != [] {
      CondemnedStays(max, s, events[0], c);
      CondemnedForEver(max, Next(max, s, events[0]), c, events[1..]);
    }
  }

  /**
    A connection that fails its validation, on acquire, release or cull, or is found stale, is closed or lost by
    the task that found it, and in no later state of any run is it idle, lent or about to be examined again.
   */
  lemma FailedIsNeverLentAgain(max: nat, s: State, t: nat, c: Conn, events: seq<Event>)
    requires Inv(max, s) && Enabled(s, Resume(t, false)) && Examines(s.tasks[t], c)
    requires IsRun(max, Next(max, s, Resume(t, false)), events)
    ensures var r := Run(max, Next(max, s, Resume(t, false)), events);
      && Condemned(r, c) && c !in r.idle
      && forall u :: 0 <= u < |r.tasks| ==> !(r.tasks[u].Borrowed? && r.tasks[u].conn == c) && !Examines(r.tasks[u], c)
  {
    var next := Next(max, s, Resume(t, false));
    StepKeepsInv(max, s, Resume(t, false));
    FailedIsCondemned(max, s, t, c);
    CondemnedForEver(max, next, c, events);
    RunKeepsInv(max, next, events);
    var r := Run(max, next, events);
    CondemnedIsOut(max, r, c);
    forall u | 0 <= u < |r.tasks| ensures !(r.tasks[u].Borrowed? && r.tasks[u].conn == c) && !Examines(r.tasks[u], c) {
      UsedIsHeld(r.tasks[u], c);
    }
  }

  lemma UsedIsHeld(task: Task, c: Conn)
    ensures Examines(task, c) || (task.Borrowed? && task.conn == c) ==> c in Held(task)
  {
  }

  // ----- how tasks end -----

  predicate InShutdown(t: Task) {
    t.Shutting? || t.ShutClosing?
  }

  /** What a task does next it does as the coroutine it is: an acquire goes on, lends or ends, a borrower releases, and the others go on or end. */
  lemma TasksKeepTheirKind(max: nat, s: State, t: nat, ok: bool)
    requires Enabled(s, Resume(t, ok))
    ensures var was, becomes := s.tasks[t], ResumeTask(max, s, t, ok).tasks[t];
      && (InAcquire(was) ==> InAcquire(becomes) || becomes.Borrowed? || becomes.Done?)
      && (was.Borrowed? ==> becomes == Returning(was.conn))
      && (was.Returning? ==> becomes == Dropping(was.conn) || becomes.Done?)
      && (was.Dropping? ==> becomes.Done?)
      && (InCull(was) ==> InCull(becomes) || becomes.Done?)
      && (InShutdown(was) ==> InShutdown(becomes) || becomes.Done?)
  {
  }

  /**
    An acquire gives up only when creating a connection failed or its wait timed out. With nothing idle it creates
    while slots are left and waits otherwise, and after closing a connection that failed its validation it starts again.
   */
  lemma AcquireGivesUpExactly(max: nat, s: State, t: nat, ok: bool)
    requires Enabled(s, Resume(t, ok)) && InAcquire(s.tasks[t])
    ensures var was, next := s.tasks[t], ResumeTask(max, s, t, ok);
      && (next.tasks[t].Done? <==> !ok && (was.Creating? || was.Waiting?))
      && (was.Acquiring? && s.idle == [] ==> next == s.(tasks := s.tasks[t := LockWait(was.retries)]))
      && (was.LockWait? ==> next.tasks[t] == if s.created < max then Creating(was.retries) else Waiting(was.retries))
      && (was.Discarding? ==> next.tasks[t] == Acquiring(was.retries + 1) && next.closed == s.closed + [was.conn])
  {
  }

  /** These events lead from s to r. */
  ghost predicate RunsTo(max: nat, s: State, events: seq<Event>, r: State) {
    IsRun(max, s, events) && Run(max, s, events) == r
  }

  lemma RunsFirst(max: nat, s: State, e: Event, events: seq<Event>, r: State)
    requires Enabled(s, e) && RunsTo(max, Next(max, s, e), events, r)
    ensures RunsTo(max, s, [e] + events, r)
  {
    assert ([e] + events)[1..] == events;
  }

  /** The shutdown loop over n idle connections, left to itself. */
  function ShutdownEvents(t: nat, n: nat): seq<Event> {
    if n == 0 then [Resume(t, true)] else [Resume(t, true)] + ([Resume(t, true)] + ShutdownEvents(t, n - 1))
  }

  /** Left to itself a shutdown closes every idle connection, in order, and nothing else, and then it is done. */
  lemma {:induction false} ShutdownClosesAll(max: nat, s: State, t: nat)
    requires t < |s.tasks| && s.tasks[t].Shutting?
    ensures RunsTo(max, s, ShutdownEvents(t, |s.idle|), s.(idle := [], closed := s.closed + s.idle, tasks := s.tasks[t := Done]))
    decreases |s.idle|
  {
    var e := Resume(t, true);
    var end := s.(idle := [], closed := s.closed + s.idle, tasks := s.tasks[t := Done]);
    var s1 := Next(max, s, e);
    if s.idle == [] {
      assert s1 == end && RunsTo(max, s1, [], end);
      RunsFirst(max, s, e, [], end);
      assert [e] + [] == [e];
    } else {
      var s2 := Next(max, s1, e);
      var rest := ShutdownEvents(t, |s.idle| - 1);
      ShutdownClosesAll(max, s2, t);
      assert s.closed + [s.idle[0]] + s.idle[1..] == s.closed + s.idle;
      assert s2.tasks[t := Done] == s.tasks[t := Done];
      RunsFirst(max, s1, e, rest, end);
      RunsFirst(max, s, e, [e] + rest, end);
    }
  }

  lemma {:induction false} RunsOn(max: nat, s: State, a: seq<Event>, mid: State, b: seq<Event>, r: State)
    requires RunsTo(max, s, a, mid) && RunsTo(max, mid, b, r)
    ensures RunsTo(max, s, a + b, r)
    decreases |a|
  {
    if a == [] {
      assert a + b == b;
    } else {
      RunsOn(max, Next(max, s, a[0]), a[1..], mid, b, r);
      RunsFirst(max, s, a[0], a[1..] + b, r);
      assert [a[0]] + (a[1..] + b) == a + b;
    }
  }

  /** What a cull does with one connection: a stale one is closed at once, any other validated and put back or closed. */
  function CullOne(t: nat, young: bool, healthy: bool): seq<Event> {
    if !young then [Resume(t, false), Resume(t, true)]
    else if healthy then [Resume(t, true), Resume(t, true)]
    else [Resume(t, true), Resume(t, false), Resume(t, true)]
  }

  /** A cull over these connections, left to itself, given which are fresh and which are healthy. */
  function CullEvents(t: nat, rest: seq<Conn>, young: Conn -> bool, healthy: Conn -> bool): seq<Event> {
    if rest == [] then [Resume(t, true)]
    else CullOne(t, young(rest[0]), healthy(rest[0])) + CullEvents(t, rest[1..], young, healthy)
  }

  function Good(young: Conn -> bool, healthy: Conn -> bool): Conn -> bool {
    (c: Conn) => young(c) && healthy(c)
  }

  function Bad(young: Conn -> bool, healthy: Conn -> bool): Conn -> bool {
    (c: Conn) => !(young(c) && healthy(c))
  }

  /** Where the cull ends: the good connections back in the queue in order, the others closed. */
  function Culled(s: State, t: nat, rest: seq<Conn>, young: Conn -> bool, healthy: Conn -> bool): State
    requires t < |s.tasks|
  {
    s.(idle := s.idle + Filter(Good(young, healthy), rest), closed := s.closed + Filter(Bad(young, healthy), rest),
       tasks := s.tasks[t := Done])
  }

  /** Over the connections drained, left to itself, a cull puts back exactly those that are fresh and healthy, in order, and closes exactly the others. */
  lemma {:induction false} CullRestKeepsTheGood(max: nat, s: State, t: nat, rest: seq<Conn>, young: Conn -> bool, healthy: Conn -> bool)
    requires Inv(max, s) && t < |s.tasks| && s.tasks[t] == Culling(rest)
    ensures RunsTo(max, s, CullEvents(t, rest, young, healthy), Culled(s, t, rest, young, healthy))
    decreases |rest|
  {
    var end := Culled(s, t, rest, young, healthy);
    if rest == [] {
      RunsInOne(max, s, Resume(t, true), end);
    } else {
      var c := rest[0];
      var one, s1 := CullOne(t, young(c), healthy(c)), AfterOne(s, t, rest, young(c) && healthy(c));
      CullOneRuns(max, s, t, rest, young(c), healthy(c));
      RunKeepsInv(max, s, one);
      CullRestKeepsTheGood(max, s1, t, rest[1..], young, healthy);
      CulledOneByOne(s, t, rest, young, healthy);
      RunsOn(max, s, one, s1, CullEvents(t, rest[1..], young, healthy), end);
    }
  }

  /** Left to itself a cull leaves the fresh and healthy connections idle, in order, and closes exactly the others. */
  lemma CullKeepsTheGood(max: nat, s: State, t: nat, young: Conn -> bool, healthy: Conn -> bool)
    requires Inv(max, s) && t < |s.tasks| && s.tasks[t].CullStart?
    ensures RunsTo(max, s, [Resume(t, true)] + CullEvents(t, s.idle, young, healthy),
                   s.(idle := Filter(Good(young, healthy), s.idle), closed := s.closed + Filter(Bad(young, healthy), s.idle),
                      tasks := s.tasks[t := Done]))
  {
    var drained := Next(max, s, Resume(t, true));
    StepKeepsInv(max, s, Resume(t, true));
    CullRestKeepsTheGood(max, drained, t, s.idle, young, healthy);
    var end := Culled(drained, t, s.idle, young, healthy);
    RunsFirst(max, s, Resume(t, true), CullEvents(t, s.idle, young, healthy), end);
    assert drained.tasks[t := Done] == s.tasks[t := Done];
    assert [] + Filter(Good(young, healthy), s.idle) == Filter(Good(young, healthy), s.idle);
  }

  /** The state after the first connection has been dealt with. */
  function AfterOne(s: State, t: nat, rest: seq<Conn>, good: bool): State
    requires t < |s.tasks| && rest != []
  {
    if good then s.(idle := s.idle + [rest[0]], tasks := s.tasks[t := Culling(rest[1..])])
    else s.(closed := s.closed + [rest[0]], tasks := s.tasks[t := Culling(rest[1..])])
  }

  lemma CulledOneByOne(s: State, t: nat, rest: seq<Conn>, young: Conn -> bool, healthy: Conn -> bool)
    requires t < |s.tasks| && rest != []
    ensures Culled(AfterOne(s, t, rest, young(rest[0]) && healthy(rest[0])), t, rest[1..], young, healthy)
         == Culled(s, t, rest, young, healthy)
  {
    var c := rest[0];
    var s1 := AfterOne(s, t, rest, young(c) && healthy(c));
    assert s1.tasks[t := Done] == s.tasks[t := Done];
    assert s.idle + ([c] + Filter(Good(young, healthy), rest[1..])) == s.idle + [c] + Filter(Good(young, healthy), rest[1..]);
    assert s.closed + ([c] + Filter(Bad(young, healthy), rest[1..])) == s.closed + [c] + Filter(Bad(young, healthy), rest[1..]);
  }

  lemma RunsInOne(max: nat, s: State, e: Event, r: State)
    requires Enabled(s, e) && Next(max, s, e) == r
    ensures RunsTo(max, s, [e], r)
  {
    assert RunsTo(max, r, [], r);
    RunsFirst(max, s, e, [], r);
    assert [e] + [] == [e];
  }

  lemma RunsInTwo(max: nat, s: State, e: Event, mid: State, f: Event, r: State)
    requires Enabled(s, e) && Next(max, s, e) == mid && Enabled(mid, f) && Next(max, mid, f) == r
    ensures RunsTo(max, s, [e, f], r)
  {
    RunsInOne(max, mid, f, r);
    RunsFirst(max, s, e, [f], r);
    assert [e] + [f] == [e, f];
  }

  lemma CullOneRuns(max: nat, s: State, t: nat, rest: seq<Conn>, young: bool, healthy: bool)
    requires Inv(max, s) && t < |s.tasks| && s.tasks[t] == Culling(rest) && rest != []
    ensures RunsTo(max, s, CullOne(t, young, healthy), AfterOne(s, t, rest, young && healthy))
  {
    var yes, no, c, later := Resume(t, true), Resume(t, false), rest[0], rest[1..];
    var end := AfterOne(s, t, rest, young && healthy);
    HolderLeavesRoom(max, s, t);
    var checking, closing := Put(s, t, CullChecking(c, later)), Put(s, t, CullClosing(c, later));
    PutAgain(s.tasks, t, CullChecking(c, later), CullClosing(c, later));
    PutAgain(s.tasks, t, CullChecking(c, later), Culling(later));
    PutAgain(s.tasks, t, CullClosing(c, later), Culling(later));
    if !young {
      RunsInTwo(max, s, no, closing, yes, end);
    } else if healthy {
      RunsInTwo(max, s, yes, checking, yes, end);
    } else {
      assert Next(max, checking, no) == closing && Next(max, closing, yes) == end;
      RunsInTwo(max, checking, no, closing, yes, end);
      RunsFirst(max, s, yes, [no, yes], end);
      assert [yes] + [no, yes] == [yes, no, yes];
    }
  }

  lemma PutAgain(tasks: seq<Task>, t: nat, first: Task, second: Task)
    requires t < |tasks|
    ensures tasks[t := first][t := second] == tasks[t := second]
  {
  }

  // ----- the order of reuse -----

  /**
    The idle connections are a queue: an acquire or a shutdown takes the first one, a connection put back becomes
    the last, a cull takes them all in order, and no step does anything else to them.
   */
  lemma IdleIsAQueue(max: nat, s: State, e: Event)
    requires Enabled(s, e)
    ensures var next := Next(max, s, e);
      || next.idle == s.idle
      || (s.idle != [] && next.idle == s.idle[1..] && e.Resume? && Held(next.tasks[e.task]) == [s.idle[0]])
      || (e.Resume? && Held(s.tasks[e.task]) != [] && next.idle == s.idle + [Held(s.tasks[e.task])[0]])
      || (next.idle == [] && e.Resume? && s.tasks[e.task].CullStart? && next.tasks[e.task] == Culling(s.idle))
    ensures e.Resume? && s.tasks[e.task].Acquiring? && s.idle != [] ==>
      Next(max, s, e).tasks[e.task] == Checking(s.idle[0], s.tasks[e.task].retries)
  {
    if e.Resume? && InAcquire(s.tasks[e.task]) {
      AcquireTakesFirst(max, s, e.task, e.ok);
    }
  }

  lemma AcquireTakesFirst(max: nat, s: State, t: nat, ok: bool)
    requires Enabled(s, Resume(t, ok)) && InAcquire(s.tasks[t])
    ensures var next := ResumeAcquire(max, s, t, ok);
      next.idle == s.idle || (s.idle != [] && next.idle == s.idle[1..] && Held(next.tasks[t]) == [s.idle[0]])
  {
  }

  // ----- capacity -----

  /** What is left of the pool's capacity: slots neither closed nor lost. */
  function Left(max: nat, s: State): int {
    max - |s.closed| - |s.lost|
  }

  /** Capacity never grows back: at every later time no more connections are idle or in hand than were left before. */
  lemma CapacityNeverGrows(max: nat, s: State, events: seq<Event>)
    requires Inv(max, s) && IsRun(max, s, events)
    ensures var r := Run(max, s, events); |r.idle| + HandSize(r.tasks) <= Left(max, r) <= Left(max, s)
  {
    RunKeepsInv(max, s, events);
    Counts(max, Run(max, s, events));
  }

  /** Once every slot is closed or lost, nothing is idle or in anybody's hand, now or ever. */
  lemma ExhaustedForEver(max: nat, s: State, events: seq<Event>)
    requires Inv(max, s) && IsRun(max, s, events) && |s.closed| + |s.lost| == max
    ensures var r := Run(max, s, events);
      && r.idle == [] && |r.closed| + |r.lost| == max
      && forall t :: 0 <= t < |r.tasks| ==> Held(r.tasks[t]) == []
  {
    CapacityNeverGrows(max, s, events);
    var r := Run(max, s, events);
    forall t | 0 <= t < |r.tasks| ensures Held(r.tasks[t]) == [] {
      HandSizeUpdate(r.tasks, t, Done);
    }
  }

  // ----- exactly when a connection can still be lent -----

  /** A task on its way to close a connection cannot but close it, or lose it. */
  function DoomedBy(t: Task): nat {
    if t.Discarding? || t.Dropping? || t.CullClosing? || t.ShutClosing? then 1 else 0
  }

  function Doomed(tasks: seq<Task>): nat {
    if tasks == [] then 0 else Doomed(tasks[..|tasks| - 1]) + DoomedBy(tasks[|tasks| - 1])
  }

  /** The slots that are neither closed, nor lost, nor about to be. */
  function Usable(max: nat, s: State): int {
    Left(max, s) - Doomed(s.tasks)
  }

  lemma {:induction false} DoomedUpdate(tasks: seq<Task>, t: nat, task: Task)
    requires t < |tasks|
    ensures Doomed(tasks[t := task]) + DoomedBy(tasks[t]) == Doomed(tasks) + DoomedBy(task)
  {
    var n, after := |tasks| - 1, tasks[t := task];
    UpdateInit(tasks, t, task);
    assert Doomed(tasks) == Doomed(tasks[..n]) + DoomedBy(tasks[n]);
    assert Doomed(after) == Doomed(after[..n]) + DoomedBy(after[n]);
    if t < n {
      DoomedUpdate(tasks[..n], t, task);
    }
  }

  lemma {:induction false} DoomedAreHeld(tasks: seq<Task>)
    ensures Doomed(tasks) <= HandSize(tasks)
  {
    if tasks != [] {
      DoomedAreHeld(tasks[..|tasks| - 1]);
    }
  }

  /** If more connections are in hand than are doomed, some task holds one that is not. */
  lemma {:induction false} SomeoneCanSave(tasks: seq<Task>) returns (t: nat)
    requires Doomed(tasks) < HandSize(tasks)
    ensures t < |tasks| && DoomedBy(tasks[t]) < |Held(tasks[t])|
  {
    t := |tasks| - 1;
    if DoomedBy(tasks[t]) >= |Held(tasks[t])| {
      t := SomeoneCanSave(tasks[..t]);
    }
  }

  lemma UsableNeverGrowsByStep(max: nat, s: State, e: Event)
    requires Enabled(s, e)
    ensures Usable(max, Next(max, s, e)) <= Usable(max, s)
  {
    var next := Next(max, s, e);
    match e
    case Resume(t, ok) =>
      ClosesWhatIsDoomed(max, s, t, ok);
      DoomedUpdate(s.tasks, t, next.tasks[t]);
    case Fail(t) => DoomedUpdate(s.tasks, t, Done);
    case _ => assert next.tasks[..|s.tasks|] == s.tasks;
  }

  lemma ClosesWhatIsDoomed(max: nat, s: State, t: nat, ok: bool)
    requires Enabled(s, Resume(t, ok))
    ensures var next := ResumeTask(max, s, t, ok);
      && next.tasks == s.tasks[t := next.tasks[t]] && next.lost == s.lost
      && |s.closed| + DoomedBy(s.tasks[t]) <= |next.closed| + DoomedBy(next.tasks[t])
  {
  }

  lemma {:induction false} UsableNeverGrows(max: nat, s: State, events: seq<Event>)
    requires IsRun(max, s, events)
    ensures Usable(max, Run(max, s, events)) <= Usable(max, s)
    decreases |events|
  {
    if events != [] {
      UsableNeverGrowsByStep(max, s, events[0]);
      UsableNeverGrows(max, Next(max, s, events[0]), events[1..]);
    }
  }

  /** A connection lent is a usable slot. */
  lemma LentIsUsable(max: nat, s: State, t: nat)
    requires Inv(max, s) && t < |s.tasks| && s.tasks[t].Borrowed?
    ensures Usable(max, s) > 0
  {
    Counts(max, s);
    HandSizeUpdate(s.tasks, t, Done);
    DoomedUpdate(s.tasks, t, Done);
    DoomedAreHeld(s.tasks[t := Done]);
  }

  /** The run lends a connection to task n. */
  ghost predicate Lends(max: nat, s: State, n: nat, events: seq<Event>) {
    IsRun(max, s, events) && n < |Run(max, s, events).tasks| && Run(max, s, events).tasks[n].Borrowed?
  }

  lemma LendsAfter(max: nat, s: State, e: Event, n: nat, events: seq<Event>)
    requires Enabled(s, e) && Lends(max, Next(max, s, e), n, events)
    ensures Lends(max, s, n, [e] + events)
  {
    assert ([e] + events)[1..] == events;
  }

  lemma LendIdle(max: nat, s: State, n: nat) returns (events: seq<Event>)
    requires n < |s.tasks| && s.tasks[n] == Acquiring(0) && s.idle != []
    ensures Lends(max, s, n, events)
  {
    var s1 := Next(max, s, Resume(n, true));
    var s2 := Next(max, s1, Resume(n, true));
    assert Lends(max, s2, n, []);
    LendsAfter(max, s1, Resume(n, true), n, []);
    LendsAfter(max, s, Resume(n, true), n, [Resume(n, true)] + []);
    events := [Resume(n, true)] + ([Resume(n, true)] + []);
  }

  /** With the lock free and a slot left the acquire creates a connection; a creation in progress is seen to fail first. */
  lemma {:induction false} LendNew(max: nat, s: State, n: nat) returns (events: seq<Event>)
    requires LockHeld(max, s) && n < |s.tasks| && s.tasks[n] == Acquiring(0) && s.idle == [] && s.created < max
    ensures Lends(max, s, n, events)
    decreases s.locked
  {
    if s.locked {
      var t: nat :| t < |s.tasks| && s.tasks[t].Creating?;
      ResumeKeepsLock(max, s, t, false);
      events := LendNew(max, Next(max, s, Resume(t, false)), n);
      LendsAfter(max, s, Resume(t, false), n, events);
      events := [Resume(t, false)] + events;
    } else {
      var r := Resume(n, true);
      var s1 := Next(max, s, r);
      var s2 := Next(max, s1, r);
      var s3 := Next(max, s2, r);
      assert Lends(max, s3, n, []);
      LendsAfter(max, s2, r, n, []);
      LendsAfter(max, s1, r, n, [r] + []);
      LendsAfter(max, s, r, n, [r] + ([r] + []));
      events := [r] + ([r] + ([r] + []));
    }
  }

  /** How many steps a task is from putting back a connection it holds. */
  function StepsToReturn(t: Task): nat {
    if t.Checking? || t.CullClosing? then 3 else if t.Borrowed? || t.Culling? then 2 else 1
  }

  /** A task that holds a connection it need not close can put one back, and the acquire takes it. */
  lemma {:induction false} LendReturned(max: nat, s: State, n: nat, t: nat) returns (events: seq<Event>)
    requires Inv(max, s) && n < |s.tasks| && s.tasks[n] == Acquiring(0) && s.idle == []
    requires t < |s.tasks| && DoomedBy(s.tasks[t]) < |Held(s.tasks[t])|
    ensures Lends(max, s, n, events)
    decreases StepsToReturn(s.tasks[t])
  {
    var e := Resume(t, true);
    var next := Next(max, s, e);
    StepKeepsInv(max, s, e);
    if s.tasks[t].Returning? || s.tasks[t].CullChecking? {
      NeverFull(max, s, t);
      events := LendIdle(max, next, n);
    } else {
      events := LendReturned(max, next, n, t);
    }
    LendsAfter(max, s, e, n, events);
    events := [e] + events;
  }

  /** Some continuation lends a connection to an acquire that starts now. */
  ghost predicate CanLend(max: nat, s: State) {
    exists events :: Lends(max, Next(max, s, SpawnAcquire), |s.tasks|, events)
  }

  /**
    Exactly when: an acquire that starts now can still be lent a connection if and only if some slot is neither
    closed, nor lost, nor in the hands of a task about to close it.
   */
  lemma CanLendExactly(max: nat, s: State)
    requires Inv(max, s)
    ensures CanLend(max, s) <==> Usable(max, s) > 0
  {
    var next, n := Next(max, s, SpawnAcquire), |s.tasks|;
    StepKeepsInv(max, s, SpawnAcquire);
    assert next.tasks[..n] == s.tasks;
    Counts(max, next);
    if Usable(max, s) > 0 {
      var events: seq<Event>;
      if next.idle != [] {
        events := LendIdle(max, next, n);
      } else if next.created < max {
        events := LendNew(max, next, n);
      } else {
        var t := SomeoneCanSave(next.tasks);
        events := LendReturned(max, next, n, t);
      }
    }
    if CanLend(max, s) {
      var events :| Lends(max, next, n, events);
      RunKeepsInv(max, next, events);
      LentIsUsable(max, Run(max, next, events), n);
      UsableNeverGrows(max, next, events);
    }
  }

  // ----- the mutable object -----

  class Pool {
    const maxConnections: nat
    var pool: seq<Conn>
    var createdCount: nat
    var closedCount: nat
    var locked: bool
    var tasks: seq<Task>
    ghost var closed: seq<Conn>
    ghost var lost: seq<Conn>

    ghost function Model(): State
      reads this
    {
      State(pool, createdCount, closed, lost, locked, tasks)
    }

    ghost predicate Valid()
      reads this
    {
      Inv(maxConnections, Model()) && closedCount == |closed|
    }

    constructor (maxConnections: nat)
      ensures Valid() && Model() == EMPTY_POOL && this.maxConnections == maxConnections
    {
      this.maxConnections := maxConnections;
      pool, createdCount, closedCount, locked, tasks, closed, lost := [], 0, 0, false, [], [], [];
    }

    method Close(c: Conn)
      modifies this`closedCount, this`closed
      ensures closedCount == old(closedCount) + 1 && closed == old(closed) + [c]
    {
      closedCount := closedCount + 1;
      closed := closed + [c];
    }

    method Acquire(t: nat, ok: bool)
      requires Valid() && Enabled(Model(), Resume(t, ok)) && InAcquire(tasks[t])
      modifies this
      ensures Valid() && Model() == ResumeAcquire(maxConnections, old(Model()), t, ok)
    {
      AcquireKeepsInv(maxConnections, Model(), t, ok);
      if tasks[t].Acquiring? || tasks[t].LockWait? || tasks[t].Waiting? {
        FindConnection(t, ok);
      } else {
        UseConnection(t, ok);
      }
    }

    /** The fast path, the slot under the lock, and the wait for a returned connection. */
    method FindConnection(t: nat, ok: bool)
      requires Enabled(Model(), Resume(t, ok)) && (tasks[t].Acquiring? || tasks[t].LockWait? || tasks[t].Waiting?)
      modifies this`pool, this`locked, this`tasks
      ensures Model() == ResumeAcquire(maxConnections, old(Model()), t, ok)
    {
      match tasks[t]
      case Acquiring(n) =>
        if pool != [] {
          tasks := tasks[t := Checking(pool[0], n)];
          pool := pool[1..];
        } else {
          tasks := tasks[t := LockWait(n)];
        }
      case LockWait(n) =>
        if createdCount < maxConnections {
          locked := true;
          tasks := tasks[t := Creating(n)];
        } else {
          tasks := tasks[t := Waiting(n)];
        }
      case Waiting(n) =>
        if ok {
          tasks := tasks[t := Checking(pool[0], n)];
          pool := pool[1..];
        } else {
          tasks := tasks[t := Done];
        }
    }

    /** A new connection is lent at once; one from the pool is validated first, and closed before another attempt if it fails. */
    method UseConnection(t: nat, ok: bool)
      requires Enabled(Model(), Resume(t, ok)) && (tasks[t].Creating? || tasks[t].Checking? || tasks[t].Discarding?)
      modifies this
      ensures Model() == ResumeAcquire(maxConnections, old(Model()), t, ok)
      ensures closedCount - |closed| == old(closedCount - |closed|)
    {
      match tasks[t]
      case Creating(n) =>
        locked := false;
        if ok {
          tasks := tasks[t := Borrowed(createdCount, n)];
          createdCount := createdCount + 1;
        } else {
          tasks := tasks[t := Done];
        }
      case Checking(c, n) =>
        tasks := tasks[t := if ok then Borrowed(c, n) else Discarding(c, n)];
      case Discarding(c, n) =>
        Close(c);
        tasks := tasks[t := Acquiring(n + 1)];
    }

    method Release(t: nat, ok: bool)
      requires Valid() && Enabled(Model(), Resume(t, ok)) && InRelease(tasks[t])
      modifies this
      ensures Valid() && Model() == ResumeRelease(maxConnections, old(Model()), t, ok)
      ensures old(tasks[t]).Returning? && ok ==> pool == old(pool) + [old(tasks[t]).conn]
    {
      ReleaseKeepsInv(maxConnections, Model(), t, ok);
      match tasks[t]
      case Borrowed(c, _) => tasks := tasks[t := Returning(c)];
      case Returning(c) =>
        NeverFull(maxConnections, Model(), t);
        if !ok || (maxConnections > 0 && |pool| >= maxConnections) {
          tasks := tasks[t := Dropping(c)];
        } else {
          pool := pool + [c];
          tasks := tasks[t := Done];
        }
      case Dropping(c) =>
        Close(c);
        tasks := tasks[t := Done];
    }

    /** The draining loop: get_nowait until the pool is empty. */
    method Drain() returns (connections: seq<Conn>)
      modifies this`pool
      ensures connections == old(pool) && pool == []
    {
      connections := [];
      while pool != []
        invariant connections + pool == old(pool)
        decreases |pool|
      {
        connections := connections + [pool[0]];
        pool := pool[1..];
      }
    }

    method CullStale(t: nat, ok: bool)
      requires Valid() && Enabled(Model(), Resume(t, ok)) && InCull(tasks[t])
      modifies this
      ensures Valid() && Model() == ResumeCull(maxConnections, old(Model()), t, ok)
    {
      CullKeepsInv(maxConnections, Model(), t, ok);
      match tasks[t]
      case CullStart =>
        var connections := Drain();
        tasks := tasks[t := Culling(connections)];
      case Culling(rest) =>
        if rest == [] {
          tasks := tasks[t := Done];
        } else {
          tasks := tasks[t := if ok then CullChecking(rest[0], rest[1..]) else CullClosing(rest[0], rest[1..])];
        }
      case CullChecking(c, rest) =>
        if !ok || (maxConnections > 0 && |pool| >= maxConnections) {
          tasks := tasks[t := CullClosing(c, rest)];
        } else {
          pool := pool + [c];
          tasks := tasks[t := Culling(rest)];
        }
      case CullClosing(c, rest) =>
        Close(c);
        tasks := tasks[t := Culling(rest)];
    }

    method ShutdownNext(t: nat)
      requires Valid() && Enabled(Model(), Resume(t, true)) && (tasks[t].Shutting? || tasks[t].ShutClosing?)
      modifies this
      ensures Valid() && Model() == ResumeTask(maxConnections, old(Model()), t, true)
    {
      StepKeepsInv(maxConnections, Model(), Resume(t, true));
      if tasks[t].ShutClosing? {
        Close(tasks[t].conn);
        tasks := tasks[t := Shutting];
      } else if pool == [] {
        tasks := tasks[t := Done];
      } else {
        tasks := tasks[t := ShutClosing(pool[0])];
        pool := pool[1..];
      }
    }
  }
}
