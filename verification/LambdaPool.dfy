/**
 The Lambda pool of panoptic/modules/lambda_executor.go as a state machine. One maintenance
 goroutine fills, ages and cleans the pool; any number of Execute calls take functions from it.
 Each step is what one goroutine does while it holds a lock, or one call to the cloud.

 Function names are taken to be never reused, and job ids to be distinct among running jobs.
 */
module LambdaPool {
  import opened Sequences

  type Name = string
  type JobId = string

  /** LambdaFunction: its pending jobs are the keys of its job map. */
  datatype Fn = Fn(name: Name, createdTime: int, span: int, jobs: set<JobId>)

  /** What the maintenance goroutine is doing. `made` and `failures` are the outcomes so far of
      the creation batch that is running. */
  datatype Phase =
    | Idle
    | Marked
    | Filling(left: nat, made: set<Name>, failures: nat)
    | RollingBack(todo: set<Name>)
    | Filled
    | Deleting(unvisited: set<Name>)
    | Stopped

  /** `added`, `removed` and `rolledBack` record history; `doomed` are the deletions under way. */
  datatype State = State(
    size: nat,
    pool: seq<Fn>,
    stale: map<Name, Fn>,
    phase: Phase,
    booting: bool,
    running: map<JobId, Name>,
    cloud: set<Name>,
    doomed: set<Name>,
    added: set<Name>,
    removed: set<Name>,
    rolledBack: set<Name>)

  datatype Action =
    | Acquire(job: JobId, idx: nat)
    | Finish(job: JobId)
    | MarkStale(clock: nat -> int)
    | BeginFill
    | CreateOk(name: Name, createdTime: int, span: int)
    | CreateFailed
    | CreateUnreadable(name: Name)
    | EndFill
    | RollBack(name: Name, deleted: bool)
    | EndRollBack
    | BeginDelete
    | Visit(name: Name)
    | EndDelete
    | CloudDelete(name: Name, deleted: bool)

  // ---------- ageing ----------

  /** LambdaFunction.IsStale, which holds while the function is still fresh. */
  predicate IsStale(f: Fn, now: int) {
    now - f.createdTime < f.span
  }

  /** The pool after MarkStaleFunctions, when the i-th function is examined at time clock(i). */
  function Kept(pool: seq<Fn>, clock: nat -> int): seq<Fn> {
    if pool == [] then []
    else
      var i := |pool| - 1;
      Kept(pool[..i], clock) + if IsStale(pool[i], clock(i)) then [pool[i]] else []
  }

  /** The functions MarkStaleFunctions moves to the stale pool. */
  function Expired(pool: seq<Fn>, clock: nat -> int): map<Name, Fn> {
    if pool == [] then map[]
    else
      var i := |pool| - 1;
      var older := Expired(pool[..i], clock);
      if IsStale(pool[i], clock(i)) then older else older[pool[i].name := pool[i]]
  }

  // ---------- steps ----------

  ghost function Names(pool: seq<Fn>): set<Name> {
    set f | f in pool :: f.name
  }

  function WithJob(f: Fn, job: JobId): Fn {
    f.(jobs := f.jobs + {job})
  }

  function WithoutJob(f: Fn, name: Name, job: JobId): Fn {
    if f.name == name then f.(jobs := f.jobs - {job}) else f
  }

  function PoolWithoutJob(pool: seq<Fn>, name: Name, job: JobId): (r: seq<Fn>) {
    seq(|pool|, i requires 0 <= i < |pool| => WithoutJob(pool[i], name, job))
  }

  function StaleWithoutJob(stale: map<Name, Fn>, name: Name, job: JobId): map<Name, Fn> {
    map n | n in stale :: WithoutJob(stale[n], name, job)
  }

  /** Start of the process: Init creates the first batch. */
  function Boot(size: nat): State {
    State(size, [], map[], Filling(size, {}, 0), true, map[], {}, {}, {}, {}, {})
  }

  ghost predicate Enabled(s: State, a: Action) {
    match a
    case Acquire(job, idx) => idx < |s.pool| && job !in s.running && !s.phase.Deleting?
    case Finish(job) => job in s.running
    case MarkStale(_) => s.phase.Idle?
    case BeginFill => s.phase.Marked?
    case CreateOk(name, _, _) => s.phase.Filling? && s.phase.left > 0 && name !in s.added && name !in s.cloud
    case CreateFailed => s.phase.Filling? && s.phase.left > 0
    case CreateUnreadable(name) => s.phase.Filling? && s.phase.left > 0 && name !in s.added && name !in s.cloud
    case EndFill => s.phase.Filling? && s.phase.left == 0
    case RollBack(name, _) => s.phase.RollingBack? && name in s.phase.todo
    case EndRollBack => s.phase.RollingBack? && s.phase.todo == {}
    case BeginDelete => s.phase.Filled?
    case Visit(name) => s.phase.Deleting? && name in s.phase.unvisited
    case EndDelete => s.phase.Deleting? && s.phase.unvisited == {}
    case CloudDelete(name, _) => name in s.doomed
  }

  function Count(size: nat, pool: seq<Fn>): nat {
    if |pool| < size then size - |pool| else 0
  }

  ghost function Next(s: State, a: Action): State
    requires Enabled(s, a)
  {
    match a
    case Acquire(job, idx) =>
      // GetRandomActiveFunction registers the job while it holds the pool lock
      s.(pool := s.pool[idx := WithJob(s.pool[idx], job)], running := s.running[job := s.pool[idx].name])
    case Finish(job) =>
      s.(pool := PoolWithoutJob(s.pool, s.running[job], job),
         stale := StaleWithoutJob(s.stale, s.running[job], job),
         running := s.running - {job})
    case MarkStale(clock) =>
      s.(pool := Kept(s.pool, clock), stale := s.stale + Expired(s.pool, clock), phase := Marked)
    case BeginFill =>
      s.(phase := Filling(Count(s.size, s.pool), {}, 0))
    case CreateOk(name, createdTime, span) =>
      s.(pool := s.pool + [Fn(name, createdTime, span, {})],
         cloud := s.cloud + {name},
         added := s.added + {name},
         phase := s.phase.(left := s.phase.left - 1, made := s.phase.made + {name}))
    case CreateFailed =>
      s.(phase := s.phase.(left := s.phase.left - 1, failures := s.phase.failures + 1))
    case CreateUnreadable(name) =>
      // created in the cloud, but its creation time did not parse: reported as a failure
      s.(cloud := s.cloud + {name}, phase := s.phase.(left := s.phase.left - 1, failures := s.phase.failures + 1))
    case EndFill =>
      s.(phase := if s.phase.failures > 0 then RollingBack(s.phase.made) else if s.booting then Idle else Filled,
         booting := s.booting && s.phase.failures > 0)
    case RollBack(name, deleted) =>
      // the cloud function goes, its entry in the pool stays
      s.(cloud := if deleted then s.cloud - {name} else s.cloud,
         rolledBack := if deleted then s.rolledBack + {name} else s.rolledBack,
         phase := RollingBack(s.phase.todo - {name}))
    case EndRollBack =>
      s.(phase := if s.booting then Stopped else Filled)
    case BeginDelete =>
      s.(phase := Deleting(s.stale.Keys))
    case Visit(name) =>
      var rest := s.(phase := Deleting(s.phase.unvisited - {name}));
      if name in s.stale && s.stale[name].jobs == {}
      then rest.(stale := s.stale - {name}, removed := s.removed + {name}, doomed := s.doomed + {name})
      else rest
    case EndDelete =>
      s.(phase := Idle)
    case CloudDelete(name, deleted) =>
      s.(cloud := if deleted then s.cloud - {name} else s.cloud, doomed := s.doomed - {name})
  }

  // ---------- what every step keeps ----------

  ghost predicate Distinct(pool: seq<Fn>) {
    forall i, j | 0 <= i < j < |pool| :: pool[i].name != pool[j].name
  }

  /** Every function ever added is in exactly one place. */
  ghost predicate Placed(s: State) {
    && Distinct(s.pool)
    && (forall n | n in s.stale :: s.stale[n].name == n)
    && Names(s.pool) !! s.stale.Keys !! s.removed
    && s.added == Names(s.pool) + s.stale.Keys + s.removed
  }

  ghost predicate JobsOf(running: map<JobId, Name>, f: Fn) {
    forall job :: job in f.jobs <==> job in running && running[job] == f.name
  }

  /** The pending jobs of a tracked function are exactly the jobs running on it, and every running
      job runs on a tracked function. */
  ghost predicate JobsMatch(s: State) {
    && (forall f | f in s.pool :: JobsOf(s.running, f))
    && (forall n | n in s.stale :: JobsOf(s.running, s.stale[n]))
    && (forall job | job in s.running :: s.running[job] in Names(s.pool) + s.stale.Keys)
  }

  /** How full the pool is; after a batch the shortfall is exactly the number of failures. */
  ghost predicate Bounded(s: State) {
    match s.phase
    case Filling(left, _, failures) => |s.pool| + left + failures == s.size
    case _ => |s.pool| <= s.size
  }

  /** A function that was not removed is alive in the cloud exactly when no rollback deleted it. */
  ghost predicate Alive(s: State) {
    && s.added - s.removed - s.rolledBack <= s.cloud
    && s.doomed <= s.removed
    && (s.phase.Filling? ==> s.phase.made <= s.added)
    && (s.phase.RollingBack? ==> s.phase.todo <= s.added)
    && s.rolledBack <= s.added
    && s.rolledBack !! s.cloud
  }

  ghost predicate Inv(s: State) {
    Placed(s) && JobsMatch(s) && Bounded(s) && Alive(s)
  }

  // ---------- ageing moves functions, and loses none ----------

  lemma {:induction false} NamesAppend(pool: seq<Fn>, f: Fn)
    ensures Names(pool + [f]) == Names(pool) + {f.name}
    ensures Distinct(pool + [f]) <==> Distinct(pool) && f.name !in Names(pool)
  {
    var longer := pool + [f];
    assert longer[|pool|] == f;
    assert forall i | 0 <= i < |pool| :: longer[i] == pool[i];
    if Distinct(longer) {
      forall g | g in pool
        ensures g.name != f.name
      {
        var j :| 0 <= j < |pool| && pool[j] == g;
        assert longer[j].name != longer[|pool|].name;
      }
      forall i, j | 0 <= i < j < |pool|
        ensures pool[i].name != pool[j].name
      {
        assert longer[i].name != longer[j].name;
      }
    }
  }

  lemma {:induction false} AgeingSplits(pool: seq<Fn>, clock: nat -> int)
    requires Distinct(pool)
    ensures var kept, expired := Kept(pool, clock), Expired(pool, clock);
            && Distinct(kept)
            && Names(kept) !! expired.Keys
            && Names(pool) == Names(kept) + expired.Keys
            && |kept| <= |pool|
  {
    if pool == [] {
    } else {
      var i := |pool| - 1;
      var init := pool[..i];
      assert pool == init + [pool[i]];
      NamesAppend(init, pool[i]);
      AgeingSplits(init, clock);
      NamesAppend(Kept(init, clock), pool[i]);
      assert Kept(init, clock) + [] == Kept(init, clock);
    }
  }

  lemma {:induction false} AgeingKeepsFunctions(pool: seq<Fn>, clock: nat -> int)
    ensures forall f | f in Kept(pool, clock) :: f in pool
    ensures forall n | n in Expired(pool, clock) :: Expired(pool, clock)[n].name == n && Expired(pool, clock)[n] in pool
  {
    if pool == [] {
    } else {
      var i := |pool| - 1;
      AgeingKeepsFunctions(pool[..i], clock);
      assert pool == pool[..i] + [pool[i]];
    }
  }

  /** Exactly the functions that are fresh when examined stay, the others expire. */
  lemma {:induction false} AgeingIsExact(pool: seq<Fn>, clock: nat -> int, i: nat)
    requires Distinct(pool) && i < |pool|
    ensures pool[i] in Kept(pool, clock) <==> clock(i) - pool[i].createdTime < pool[i].span
    ensures pool[i].name in Expired(pool, clock) <==> clock(i) - pool[i].createdTime >= pool[i].span
    ensures pool[i].name in Expired(pool, clock) ==> Expired(pool, clock)[pool[i].name] == pool[i]
  {
    var last := |pool| - 1;
    var init := pool[..last];
    assert pool == init + [pool[last]];
    NamesAppend(init, pool[last]);
    AgeingSplits(init, clock);
    AgeingKeepsFunctions(init, clock);
    if i == last {
      assert pool[last] !in Kept(init, clock);
    } else {
      AgeingIsExact(init, clock, i);
      assert init[i] in init;
      assert pool[i].name in Names(init);
    }
  }

  function FreshAt(now: int): Fn -> bool {
    f => IsStale(f, now)
  }

  /** Read at a single time, what stays is the filter of the fresh functions, in pool order. */
  lemma {:induction false} AgeingAtOnceIsFilter(pool: seq<Fn>, now: int)
    ensures Kept(pool, _ => now) == Filter(pool, FreshAt(now))
  {
    if pool == [] {
    } else {
      var last := |pool| - 1;
      assert pool == pool[..last] + [pool[last]];
      AgeingAtOnceIsFilter(pool[..last], now);
      FilterAppend(pool[..last], [pool[last]], FreshAt(now));
    }
  }

  // ---------- every step keeps the invariant ----------

  lemma {:induction false} SameNames(pool: seq<Fn>, after: seq<Fn>)
    requires |pool| == |after| && forall i | 0 <= i < |pool| :: after[i].name == pool[i].name
    ensures Names(after) == Names(pool)
    ensures Distinct(after) <==> Distinct(pool)
  {
    forall n | n in Names(pool)
      ensures n in Names(after)
    {
      var f :| f in pool && f.name == n;
      var i :| 0 <= i < |pool| && pool[i] == f;
      assert after[i] in after;
    }
    forall n | n in Names(after)
      ensures n in Names(pool)
    {
      var f :| f in after && f.name == n;
      var i :| 0 <= i < |after| && after[i] == f;
      assert pool[i] in pool;
    }
  }

  lemma {:induction false} AcquireStep(s: State, job: JobId, idx: nat)
    requires Inv(s) && Enabled(s, Acquire(job, idx))
    ensures Inv(Next(s, Acquire(job, idx)))
  {
    var after := Next(s, Acquire(job, idx));
    SameNames(s.pool, after.pool);
    assert s.pool[idx] in s.pool;
    assert s.pool[idx].name in Names(s.pool);
    forall f | f in after.pool
      ensures JobsOf(after.running, f)
    {
      var i :| 0 <= i < |after.pool| && after.pool[i] == f;
      assert s.pool[i] in s.pool;
      assert JobsOf(s.running, s.pool[i]);
    }
    forall n | n in s.stale
      ensures JobsOf(after.running, s.stale[n])
    {
      assert JobsOf(s.running, s.stale[n]);
    }
  }

  lemma {:induction false} FinishStep(s: State, job: JobId)
    requires Inv(s) && Enabled(s, Finish(job))
    ensures Inv(Next(s, Finish(job)))
  {
    var after := Next(s, Finish(job));
    SameNames(s.pool, after.pool);
    assert after.stale.Keys == s.stale.Keys;
    forall f | f in after.pool
      ensures JobsOf(after.running, f)
    {
      var i :| 0 <= i < |after.pool| && after.pool[i] == f;
      assert s.pool[i] in s.pool;
      FinishedJobsOf(s.running, s.pool[i], job);
    }
    forall n | n in after.stale
      ensures JobsOf(after.running, after.stale[n])
    {
      FinishedJobsOf(s.running, s.stale[n], job);
    }
    assert JobsMatch(after);
    assert Placed(after) && Bounded(after) && Alive(after);
  }

  lemma {:induction false} FinishedJobsOf(running: map<JobId, Name>, f: Fn, job: JobId)
    requires JobsOf(running, f) && job in running
    ensures JobsOf(running - {job}, WithoutJob(f, running[job], job))
  {
  }

  lemma {:induction false} MarkStep(s: State, clock: nat -> int)
    requires Inv(s) && Enabled(s, MarkStale(clock))
    ensures Inv(Next(s, MarkStale(clock)))
  {
    AgeingSplits(s.pool, clock);
    AgeingKeepsFunctions(s.pool, clock);
    var after := Next(s, MarkStale(clock));
    forall n | n in after.stale
      ensures after.stale[n].name == n && JobsOf(after.running, after.stale[n])
    {
      if n in Expired(s.pool, clock) {
        assert after.stale[n] in s.pool;
      }
    }
  }

  lemma {:induction false} CreateStep(s: State, name: Name, createdTime: int, span: int)
    requires Inv(s) && Enabled(s, CreateOk(name, createdTime, span))
    ensures Inv(Next(s, CreateOk(name, createdTime, span)))
  {
    var f := Fn(name, createdTime, span, {});
    NamesAppend(s.pool, f);
  }

  lemma {:induction false} VisitStep(s: State, name: Name)
    requires Inv(s) && Enabled(s, Visit(name))
    ensures Inv(Next(s, Visit(name)))
  {
    var after := Next(s, Visit(name));
    if name in s.stale && s.stale[name].jobs == {} {
      assert JobsOf(s.running, s.stale[name]);
    }
  }

  /** A visit removes a function exactly when it is stale and no job runs on it, and touches no other one. */
  lemma {:induction false} VisitRemovesIff(s: State, name: Name)
    requires Inv(s) && Enabled(s, Visit(name))
    ensures var after := Next(s, Visit(name));
            && after.removed == s.removed +
               (if name in s.stale && name !in s.running.Values then {name} else {})
            && after.stale == s.stale - after.removed
            && after.doomed - s.doomed <= after.removed - s.removed <= after.doomed
            && after.pool == s.pool && after.running == s.running && after.cloud == s.cloud
  {
    if name in s.stale {
      assert JobsOf(s.running, s.stale[name]);
      assert s.stale[name].name == name;
      if s.stale[name].jobs == {} {
        assert name !in s.running.Values;
      } else {
        var job :| job in s.stale[name].jobs;
        assert s.running[job] == name;
      }
    }
  }

  lemma {:induction false} StepKeepsInv(s: State, a: Action)
    requires Inv(s) && Enabled(s, a)
    ensures Inv(Next(s, a))
  {
    match a
    case Acquire(job, idx) => AcquireStep(s, job, idx);
    case Finish(job) => FinishStep(s, job);
    case MarkStale(clock) => MarkStep(s, clock);
    case CreateOk(name, createdTime, span) => CreateStep(s, name, createdTime, span);
    case Visit(name) => VisitStep(s, name);
    case _ =>
  }

  // ---------- runs ----------

  ghost predicate Legal(s: State, run: seq<Action>)
    decreases run
  {
    run != [] ==> Enabled(s, run[0]) && Legal(Next(s, run[0]), run[1..])
  }

  ghost function After(s: State, run: seq<Action>): State
    requires Legal(s, run)
    decreases run
  {
    if run == [] then s else After(Next(s, run[0]), run[1..])
  }

  lemma {:induction false} RunKeepsInv(s: State, run: seq<Action>)
    requires Inv(s) && Legal(s, run)
    ensures Inv(After(s, run)) && After(s, run).size == s.size
    decreases run
  {
    if run == [] {
    } else {
      StepKeepsInv(s, run[0]);
      RunKeepsInv(Next(s, run[0]), run[1..]);
    }
  }

  /** In every run, with creations failing at any point: the pool never exceeds its size, no
      function is in two places or lost, and pending jobs are exactly the running ones. */
  lemma {:induction false} RunsAreSafe(size: nat, run: seq<Action>)
    requires Legal(Boot(size), run)
    ensures var s := After(Boot(size), run);
            && |s.pool| <= size
            && Placed(s)
            && JobsMatch(s)
  {
    RunKeepsInv(Boot(size), run);
  }

  /** When a creation batch ends, the pool is full up to the number of failed creations. */
  lemma {:induction false} FillEndsFull(size: nat, run: seq<Action>)
    requires Legal(Boot(size), run) && Enabled(After(Boot(size), run), EndFill)
    ensures var s := After(Boot(size), run);
            && |s.pool| + s.phase.failures == size
            && Next(s, EndFill).pool == s.pool
  {
    RunKeepsInv(Boot(size), run);
  }

  /** Where a function is: 0 not yet added, 1 active, 2 stale, 3 removed. */
  ghost function Stage(s: State, n: Name): nat {
    if n in s.removed then 3 else if n in s.stale then 2 else if n in Names(s.pool) then 1 else 0
  }

  /** One step moves a function at most one place forward, and never back. */
  lemma {:induction false} StepMovesForward(s: State, a: Action, n: Name)
    requires Inv(s) && Enabled(s, a)
    ensures Stage(s, n) <= Stage(Next(s, a), n) <= Stage(s, n) + 1
  {
    match a
    case Acquire(job, idx) => SameNames(s.pool, Next(s, a).pool);
    case Finish(job) => SameNames(s.pool, Next(s, a).pool);
    case MarkStale(clock) => AgeingSplits(s.pool, clock);
    case CreateOk(name, createdTime, span) => NamesAppend(s.pool, Fn(name, createdTime, span, {}));
    case _ =>
  }

  lemma {:induction false} RunMovesForward(s: State, run: seq<Action>, n: Name)
    requires Inv(s) && Legal(s, run)
    ensures Stage(s, n) <= Stage(After(s, run), n)
    decreases run
  {
    if run == [] {
    } else {
      StepKeepsInv(s, run[0]);
      StepMovesForward(s, run[0], n);
      RunMovesForward(Next(s, run[0]), run[1..], n);
    }
  }

  /** DeleteRemovableFunctions removes only functions with no running job, and once removed a
      function never runs a job again and never comes back. */
  lemma {:induction false} RemovedIsFinal(size: nat, run: seq<Action>, name: Name, later: seq<Action>)
    requires Legal(Boot(size), run)
    requires Enabled(After(Boot(size), run), Visit(name))
    requires name in Next(After(Boot(size), run), Visit(name)).removed
    requires Legal(Next(After(Boot(size), run), Visit(name)), later)
    ensures name !in After(Boot(size), run).running.Values
    ensures var s := After(Next(After(Boot(size), run), Visit(name)), later);
            name in s.removed && name !in s.running.Values && name !in Names(s.pool) && name !in s.stale
  {
    var before := After(Boot(size), run);
    RunKeepsInv(Boot(size), run);
    VisitStep(before, name);
    var visited := Next(before, Visit(name));
    RunKeepsInv(visited, later);
    RunMovesForward(visited, later, name);
    if name in before.stale {
      assert JobsOf(before.running, before.stale[name]);
    }
  }

  /** While functions are deleted no job starts; so a pass removes every function that it finds stale and
      without a job when it begins, whatever finishes meanwhile. */
  lemma {:induction false} PassRemovesIdle(s: State, run: seq<Action>, name: Name)
    requires Inv(s) && Enabled(s, BeginDelete) && Legal(Next(s, BeginDelete), run) && EndDelete !in run
    requires Enabled(After(Next(s, BeginDelete), run), EndDelete)
    requires name in s.stale && name !in s.running.Values
    ensures name in After(Next(s, BeginDelete), run).removed
  {
    StepKeepsInv(s, BeginDelete);
    PassRemovesFrom(Next(s, BeginDelete), run, name);
  }

  lemma {:induction false} PassRemovesFrom(s: State, run: seq<Action>, name: Name)
    requires Inv(s) && Legal(s, run) && s.phase.Deleting? && EndDelete !in run
    requires name in s.removed || (name in s.phase.unvisited && name in s.stale && name !in s.running.Values)
    requires Enabled(After(s, run), EndDelete)
    ensures name in After(s, run).removed
    decreases run
  {
    if run == [] {
    } else {
      StepKeepsInv(s, run[0]);
      assert run == [run[0]] + run[1..] && run[0] != EndDelete;
      if run[0].Visit? {
        VisitRemovesIff(s, run[0].name);
      } else if run[0].Finish? {
        assert Next(s, run[0]).stale.Keys == s.stale.Keys;
      }
      PassRemovesFrom(Next(s, run[0]), run[1..], name);
    }
  }

  /** A round of maintenance that began is over only when a batch was created and a pass of deletions made,
      also after failures. */
  lemma {:induction false} RoundIsComplete(s: State, run: seq<Action>)
    requires Legal(s, run) && s.phase.Marked? && !s.booting && After(s, run).phase.Idle?
    ensures EndFill in run && BeginDelete in run && EndDelete in run
  {
    RoundFrom(s, run);
  }

  lemma {:induction false} RoundFrom(s: State, run: seq<Action>)
    requires Legal(s, run) && !s.booting && !s.phase.Stopped? && !s.phase.Idle? && After(s, run).phase.Idle?
    ensures EndDelete in run
    ensures !s.phase.Deleting? ==> BeginDelete in run
    ensures s.phase.Marked? || s.phase.Filling? ==> EndFill in run
    decreases run
  {
    assert run == [run[0]] + run[1..];
    if run[0] != EndDelete {
      RoundFrom(Next(s, run[0]), run[1..]);
    }
  }

  // ---------- what is in the cloud ----------

  /** The function was created, whether or not its creation time could be read. */
  ghost predicate Creates(run: seq<Action>, name: Name) {
    exists a :: a in run && CreatesNow(a, name)
  }

  ghost predicate CreatesNow(a: Action, name: Name) {
    (a.CreateOk? || a.CreateUnreadable?) && a.name == name
  }

  /** A call that deletes it succeeded. */
  ghost predicate Deletes(run: seq<Action>, name: Name) {
    RollBack(name, true) in run || CloudDelete(name, true) in run
  }

  lemma {:induction false} AddedOnce(s: State, run: seq<Action>, name: Name)
    requires Inv(s) && Legal(s, run) && name in s.added
    ensures !Creates(run, name)
    decreases run
  {
    if run == [] {
    } else {
      StepKeepsInv(s, run[0]);
      AddedOnce(Next(s, run[0]), run[1..], name);
      assert run == [run[0]] + run[1..];
    }
  }

  /** Over any run, a function exists in the cloud exactly when it was created and no call that deletes it
      succeeded. */
  lemma {:induction false} CloudIff(size: nat, run: seq<Action>, name: Name)
    requires Legal(Boot(size), run)
    ensures name in After(Boot(size), run).cloud <==> Creates(run, name) && !Deletes(run, name)
  {
    CloudFrom(Boot(size), run, name);
  }

  lemma {:induction false} CloudFrom(s: State, run: seq<Action>, name: Name)
    requires Inv(s) && Legal(s, run)
    ensures name in After(s, run).cloud <==> (name in s.cloud || Creates(run, name)) && !Deletes(run, name)
    decreases run
  {
    if run == [] {
    } else {
      var a, rest := run[0], run[1..];
      assert run == [a] + rest;
      StepKeepsInv(s, a);
      CloudFrom(Next(s, a), rest, name);
      CloudStep(s, a, name);
      if DeletesNow(a, name) {
        AddedOnce(Next(s, a), rest, name);
      }
      assert Creates(run, name) <==> CreatesNow(a, name) || Creates(rest, name);
      assert Deletes(run, name) <==> DeletesNow(a, name) || Deletes(rest, name);
    }
  }

  ghost predicate DeletesNow(a: Action, name: Name) {
    a == RollBack(name, true) || a == CloudDelete(name, true)
  }

  lemma {:induction false} CloudStep(s: State, a: Action, name: Name)
    requires Inv(s) && Enabled(s, a)
    ensures name in Next(s, a).cloud <==> (name in s.cloud || CreatesNow(a, name)) && !DeletesNow(a, name)
    ensures DeletesNow(a, name) ==> name in Next(s, a).added
  {
  }

  /** A function whose creation time could not be read is never deleted: it stays in the cloud for ever,
      outside of both pools. */
  lemma {:induction false} UnreadableStays(size: nat, run: seq<Action>, name: Name)
    requires Legal(Boot(size), run) && CreateUnreadable(name) in run
    ensures var s := After(Boot(size), run);
            name in s.cloud && name !in Names(s.pool) && name !in s.stale && name !in s.removed
  {
    LostStays(Boot(size), run, name);
  }

  lemma {:induction false} LostStays(s: State, run: seq<Action>, name: Name)
    requires Inv(s) && Legal(s, run)
    requires CreateUnreadable(name) in run || (name in s.cloud && name !in s.added)
    ensures name in After(s, run).cloud && name !in After(s, run).added && Inv(After(s, run))
    decreases run
  {
    if run == [] {
    } else {
      var a, rest := run[0], run[1..];
      assert run == [a] + rest;
      StepKeepsInv(s, a);
      LostStays(Next(s, a), rest, name);
    }
  }

  /** The process gives up exactly when its first batch was rolled back: later failures never stop it. */
  lemma {:induction false} StoppedIff(size: nat, run: seq<Action>)
    requires Legal(Boot(size), run)
    ensures After(Boot(size), run).phase.Stopped? <==>
            EndRollBack in run && !Marks(run)
  {
    StoppedFrom(Boot(size), run);
  }

  ghost predicate Marks(run: seq<Action>) {
    exists a :: a in run && a.MarkStale?
  }

  /** After an idle moment, or the first batch done, no rollback ends before another round has begun. */
  lemma {:induction false} IdleFirstMarks(s: State, run: seq<Action>)
    requires Legal(s, run) && s.phase.Idle? && EndRollBack in run
    ensures Marks(run)
    decreases run
  {
    assert run == [run[0]] + run[1..];
    if run[0].MarkStale? {
      assert run[0] in run;
    } else {
      IdleFirstMarks(Next(s, run[0]), run[1..]);
    }
  }

  lemma {:induction false} ServingNeverStops(s: State, run: seq<Action>)
    requires Legal(s, run) && !s.booting && !s.phase.Stopped?
    ensures !After(s, run).phase.Stopped?
    decreases run
  {
    if run == [] {
    } else {
      ServingNeverStops(Next(s, run[0]), run[1..]);
    }
  }

  lemma {:induction false} StoppedStays(s: State, run: seq<Action>)
    requires Legal(s, run) && s.phase.Stopped?
    ensures After(s, run).phase.Stopped? && !Marks(run)
    decreases run
  {
    if run == [] {
    } else {
      StoppedStays(Next(s, run[0]), run[1..]);
      assert run == [run[0]] + run[1..];
    }
  }

  lemma {:induction false} StoppedFrom(s: State, run: seq<Action>)
    requires Legal(s, run) && s.booting && (s.phase.Filling? || s.phase.RollingBack?)
    ensures After(s, run).phase.Stopped? <==> EndRollBack in run && !Marks(run)
    decreases run
  {
    if run == [] {
    } else {
      var next, rest := Next(s, run[0]), run[1..];
      assert run == [run[0]] + rest;
      if next.phase.Stopped? {
        StoppedStays(next, rest);
      } else if next.booting {
        StoppedFrom(next, rest);
      } else {
        ServingNeverStops(next, rest);
        if EndRollBack in rest {
          IdleFirstMarks(next, rest);
        }
      }
    }
  }

  lemma {:induction false} RolledBackIff(s: State, run: seq<Action>, name: Name)
    requires Legal(s, run)
    ensures name in After(s, run).rolledBack <==> name in s.rolledBack || RollBack(name, true) in run
    decreases run
  {
    if run == [] {
    } else {
      RolledBackIff(Next(s, run[0]), run[1..], name);
      assert run == [run[0]] + run[1..];
    }
  }

  /** Over any run, a function in the active or the stale pool is alive in the cloud exactly when no
      rollback of its batch deleted it. */
  lemma {:induction false} TrackedIsAliveIff(size: nat, run: seq<Action>, name: Name)
    requires Legal(Boot(size), run)
    requires name in Names(After(Boot(size), run).pool) + After(Boot(size), run).stale.Keys
    ensures name in After(Boot(size), run).cloud <==> RollBack(name, true) !in run
  {
    RunKeepsInv(Boot(size), run);
    RolledBackIff(Boot(size), run, name);
  }

  /** So a running job's function is gone exactly when its batch was rolled back under it. */
  lemma {:induction false} RunningOnAliveIff(size: nat, run: seq<Action>, job: JobId)
    requires Legal(Boot(size), run) && job in After(Boot(size), run).running
    ensures var s := After(Boot(size), run);
            s.running[job] in s.cloud <==> RollBack(s.running[job], true) !in run
  {
    RunKeepsInv(Boot(size), run);
    TrackedIsAliveIff(size, run, After(Boot(size), run).running[job]);
  }

  ghost predicate NothingFailed(run: seq<Action>) {
    forall a | a in run :: !a.CreateFailed? && !a.CreateUnreadable?
  }

  lemma {:induction false} NoFailureNoRollBack(s: State, run: seq<Action>, name: Name)
    requires Legal(s, run) && NothingFailed(run)
    requires !s.phase.RollingBack? && (s.phase.Filling? ==> s.phase.failures == 0)
    ensures RollBack(name, true) !in run
    decreases run
  {
    if run == [] {
    } else {
      assert run[0] in run && run == [run[0]] + run[1..];
      assert forall a | a in run[1..] :: a in run;
      NoFailureNoRollBack(Next(s, run[0]), run[1..], name);
    }
  }

  /** As long as no creation failed, every job runs on a live function. */
  lemma {:induction false} NoFailureAllAlive(size: nat, run: seq<Action>, job: JobId)
    requires Legal(Boot(size), run) && NothingFailed(run) && job in After(Boot(size), run).running
    ensures After(Boot(size), run).running[job] in After(Boot(size), run).cloud
  {
    RunningOnAliveIff(size, run, job);
    NoFailureNoRollBack(Boot(size), run, After(Boot(size), run).running[job]);
  }

  // ---------- a failed batch does leave dead functions ----------

  /** A refill of two functions: one is created and given a job, the other fails, the first is
      deleted again. */
  function KillRun(s: State, name: Name, job: JobId): seq<Action> {
    [CreateOk(name, 0, 0), Acquire(job, |s.pool|), CreateFailed, EndFill, RollBack(name, true), EndRollBack]
  }

  lemma {:induction false} Prepend(s: State, a: Action, run: seq<Action>)
    requires Enabled(s, a) && Legal(Next(s, a), run)
    ensures Legal(s, [a] + run) && After(s, [a] + run) == After(Next(s, a), run)
  {
    assert ([a] + run)[1..] == run;
  }

  /** The second half: the other creation fails, and the batch is rolled back. */
  lemma {:induction false} RollBackRun(s: State, name: Name)
    requires s.phase == Filling(1, {name}, 0)
    ensures var run := [CreateFailed, EndFill, RollBack(name, true), EndRollBack];
            && Legal(s, run)
            && After(s, run).pool == s.pool && After(s, run).running == s.running
            && name !in After(s, run).cloud
  {
    var s1 := Next(s, CreateFailed);
    var s2 := Next(s1, EndFill);
    var s3 := Next(s2, RollBack(name, true));
    assert s3.phase.todo == {};
    assert Legal(Next(s3, EndRollBack), []);
    Prepend(s3, EndRollBack, []);
    assert [EndRollBack] == [EndRollBack] + [];
    Prepend(s2, RollBack(name, true), [EndRollBack]);
    Prepend(s1, EndFill, [RollBack(name, true), EndRollBack]);
    Prepend(s, CreateFailed, [EndFill, RollBack(name, true), EndRollBack]);
  }

  /** From every state in which two functions are to be refilled, a job can end up running on a
      function that is still active but no longer exists in the cloud. */
  lemma {:induction false} FailedBatchKillsRunningJob(s: State, name: Name, job: JobId)
    requires Inv(s) && s.phase == Filling(2, {}, 0)
    requires name !in s.added && name !in s.cloud && job !in s.running
    ensures Legal(s, KillRun(s, name, job))
    ensures var after := After(s, KillRun(s, name, job));
            job in after.running && after.running[job] == name && name in Names(after.pool) && name !in after.cloud
  {
    var n := |s.pool|;
    var rest := [CreateFailed, EndFill, RollBack(name, true), EndRollBack];
    var s1 := Next(s, CreateOk(name, 0, 0));
    assert s1.pool[n] == Fn(name, 0, 0, {});
    var s2 := Next(s1, Acquire(job, n));
    assert s2.pool[n] == Fn(name, 0, 0, {} + {job}) && s2.pool[n] in s2.pool;
    RollBackRun(s2, name);
    Prepend(s1, Acquire(job, n), rest);
    Prepend(s, CreateOk(name, 0, 0), [Acquire(job, n)] + rest);
    assert KillRun(s, name, job) == [CreateOk(name, 0, 0)] + ([Acquire(job, n)] + rest);
  }
}
