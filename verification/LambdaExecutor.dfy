/**
 The objects of panoptic/modules/lambda_executor.go. Each method runs under the executor's lock;
 its contract is the step of the state machine in LambdaPool. The cloud, the clock and the random
 choice are parameters.
 */
module Executor {
  import opened LambdaPool

  datatype Job = Job(id: JobId)

  /** What creating one function came to; an unreadable one exists in the cloud, but its creation
      time did not parse. */
  datatype Creation = Created(name: Name, createdTime: int, span: int) | Unreadable(name: Name) | Failed

  class LambdaFunction {
    const name: Name
    const createdTime: int
    const span: int
    var jobs: map<JobId, Job>

    constructor (name: Name, createdTime: int, span: int)
      ensures View() == Fn(name, createdTime, span, {})
    {
      this.name, this.createdTime, this.span, jobs := name, createdTime, span, map[];
    }

    function View(): Fn
      reads this
    {
      Fn(name, createdTime, span, jobs.Keys)
    }

    /** The function holds no pending job. */
    method IsRemovable() returns (r: bool)
      ensures r <==> View().jobs == {}
    {
      r := |jobs| == 0;
      assert r <==> jobs.Keys == {};
    }

    method IsStale(now: int) returns (r: bool)
      ensures r <==> LambdaPool.IsStale(View(), now)
    {
      r := now - createdTime < span;
    }

    method AddPendingJob(job: Job)
      modifies this
      ensures View() == WithJob(old(View()), job.id)
    {
      jobs := jobs[job.id := job];
    }

    method DeletePendingJob(job: Job)
      modifies this
      ensures View() == WithoutJob(old(View()), name, job.id)
    {
      jobs := jobs - {job.id};
    }
  }

  function Views(fs: seq<LambdaFunction>): (r: seq<Fn>)
    reads fs
  {
    seq(|fs|, i requires 0 <= i < |fs| reads fs => fs[i].View())
  }

  lemma {:induction false} ViewsAppend(a: seq<LambdaFunction>, b: seq<LambdaFunction>)
    ensures Views(a + b) == Views(a) + Views(b)
  {
  }

  function StaleViews(fs: map<Name, LambdaFunction>): map<Name, Fn>
    reads fs.Values
  {
    map n | n in fs :: fs[n].View()
  }

  lemma {:induction false} CutAt<T>(kept: seq<T>, rest: seq<T>)
    requires rest != []
    ensures (kept + rest)[..|kept|] + (kept + rest)[|kept| + 1..] == kept + rest[1..]
    ensures kept + rest == kept + [rest[0]] + rest[1..]
    ensures (kept + rest)[|kept|] == rest[0]
  {
  }

  lemma {:induction false} DropOne<T>(stale: map<Name, T>, removed: set<Name>, name: Name)
    ensures (stale - removed) - {name} == stale - (removed + {name})
  {
  }

  lemma {:induction false} VisitOne(idle: set<Name>, unvisited: set<Name>, name: Name)
    requires name in unvisited
    ensures idle - (unvisited - {name}) == (idle - unvisited) + if name in idle then {name} else {}
  {
  }

  lemma {:induction false} MapUpdateOfSum<T>(a: map<Name, T>, b: map<Name, T>, name: Name, x: T)
    ensures (a + b)[name := x] == a + b[name := x]
  {
  }

  lemma {:induction false} StaleViewsAppend(a: map<Name, LambdaFunction>, b: map<Name, LambdaFunction>)
    ensures StaleViews(a + b) == StaleViews(a) + StaleViews(b)
  {
  }

  /** The loop of MarkStaleFunctions on the first n function objects, whose ages never change. */
  function KeptObjects(fs: seq<LambdaFunction>, clock: nat -> int, n: nat): seq<LambdaFunction>
    requires n <= |fs|
  {
    if n == 0 then []
    else
      KeptObjects(fs, clock, n - 1) +
      if clock(n - 1) - fs[n - 1].createdTime < fs[n - 1].span then [fs[n - 1]] else []
  }

  function ExpiredObjects(fs: seq<LambdaFunction>, clock: nat -> int, n: nat): map<Name, LambdaFunction>
    requires n <= |fs|
  {
    if n == 0 then map[]
    else
      var older := ExpiredObjects(fs, clock, n - 1);
      if clock(n - 1) - fs[n - 1].createdTime < fs[n - 1].span then older
      else older[fs[n - 1].name := fs[n - 1]]
  }

  lemma {:induction false} AgeOne(fs: seq<LambdaFunction>, clock: nat -> int, n: nat)
    requires n < |fs|
    ensures clock(n) - fs[n].createdTime < fs[n].span ==>
              && KeptObjects(fs, clock, n + 1) == KeptObjects(fs, clock, n) + [fs[n]]
              && ExpiredObjects(fs, clock, n + 1) == ExpiredObjects(fs, clock, n)
    ensures !(clock(n) - fs[n].createdTime < fs[n].span) ==>
              && KeptObjects(fs, clock, n + 1) == KeptObjects(fs, clock, n)
              && ExpiredObjects(fs, clock, n + 1) == ExpiredObjects(fs, clock, n)[fs[n].name := fs[n]]
  {
  }

  lemma {:induction false} ObjectsAge(fs: seq<LambdaFunction>, clock: nat -> int, n: nat)
    requires n <= |fs|
    ensures Views(KeptObjects(fs, clock, n)) == Kept(Views(fs)[..n], clock)
    ensures StaleViews(ExpiredObjects(fs, clock, n)) == Expired(Views(fs)[..n], clock)
  {
    if n == 0 {
    } else {
      ObjectsAge(fs, clock, n - 1);
      assert Views(fs)[..n][..n - 1] == Views(fs)[..n - 1];
    }
  }

  /** The state of the loop of MarkStaleFunctions when it has examined n functions. */
  ghost predicate CutUpTo(n: nat, i: nat, pool: seq<LambdaFunction>, stale: map<Name, LambdaFunction>,
                          orig: seq<LambdaFunction>, stale0: map<Name, LambdaFunction>, clock: nat -> int) {
    && n <= |orig|
    && pool == KeptObjects(orig, clock, n) + orig[n..]
    && i == |KeptObjects(orig, clock, n)|
    && stale == stale0 + ExpiredObjects(orig, clock, n)
  }

  lemma {:induction false} CutNext(n: nat, i: nat, pool: seq<LambdaFunction>, stale: map<Name, LambdaFunction>,
                                  orig: seq<LambdaFunction>, stale0: map<Name, LambdaFunction>, clock: nat -> int)
    requires CutUpTo(n, i, pool, stale, orig, stale0, clock) && i < |pool|
    ensures n < |orig| && pool[i] == orig[n]
    ensures clock(n) - orig[n].createdTime < orig[n].span ==>
              CutUpTo(n + 1, i + 1, pool, stale, orig, stale0, clock)
    ensures !(clock(n) - orig[n].createdTime < orig[n].span) ==>
              CutUpTo(n + 1, i, pool[..i] + pool[i + 1..], stale[orig[n].name := orig[n]], orig, stale0, clock)
  {
    CutAt(KeptObjects(orig, clock, n), orig[n..]);
    MapUpdateOfSum(stale0, ExpiredObjects(orig, clock, n), orig[n].name, orig[n]);
    assert orig[n..][1..] == orig[n + 1..];
    AgeOne(orig, clock, n);
  }

  ghost predicate Separated(fs: seq<LambdaFunction>, kept: seq<LambdaFunction>, expired: map<Name, LambdaFunction>) {
    && (forall i, j | 0 <= i < j < |kept| :: kept[i] != kept[j])
    && (forall f | f in kept :: f in fs)
    && (forall name | name in expired :: expired[name].name == name && expired[name] in fs && expired[name] !in kept)
  }

  lemma {:induction false} SeparatedNext(fs: seq<LambdaFunction>, kept: seq<LambdaFunction>, expired: map<Name,
      LambdaFunction>, f: LambdaFunction)
    requires Separated(fs, kept, expired) && f !in fs
    ensures Separated(fs + [f], kept + [f], expired)
    ensures Separated(fs + [f], kept, expired[f.name := f])
  {
  }

  /** The objects that stay and the objects that expire are distinct and come from the pool. */
  lemma {:induction false} AgeingSeparates(fs: seq<LambdaFunction>, clock: nat -> int, n: nat)
    requires forall i, j | 0 <= i < j < |fs| :: fs[i] != fs[j]
    requires n <= |fs|
    ensures Separated(fs[..n], KeptObjects(fs, clock, n), ExpiredObjects(fs, clock, n))
  {
    if n == 0 {
    } else {
      AgeingSeparates(fs, clock, n - 1);
      SeparatedNext(fs[..n - 1], KeptObjects(fs, clock, n - 1), ExpiredObjects(fs, clock, n - 1), fs[n - 1]);
      assert fs[..n] == fs[..n - 1] + [fs[n - 1]];
    }
  }

  /** The functions a batch created, in the order they joined the pool. */
  function CreatedFns(results: seq<Creation>): seq<Fn> {
    if results == [] then []
    else
      var r := results[|results| - 1];
      CreatedFns(results[..|results| - 1]) + if r.Created? then [Fn(r.name, r.createdTime, r.span, {})] else []
  }

  predicate AnyFailed(results: seq<Creation>) {
    exists r :: r in results && !r.Created?
  }

  function FnNames(fs: seq<Fn>): seq<Name> {
    seq(|fs|, i requires 0 <= i < |fs| => fs[i].name)
  }

  lemma {:induction false} CreatedCount(results: seq<Creation>)
    ensures |CreatedFns(results)| <= |results|
    ensures |CreatedFns(results)| == |results| <==> !AnyFailed(results)
  {
    if results == [] {
    } else {
      var init := results[..|results| - 1];
      CreatedCount(init);
      assert results == init + [results[|results| - 1]];
    }
  }

  /** A creation as a step of the state machine. */
  function StepOf(r: Creation): Action {
    match r
    case Created(name, createdTime, span) => CreateOk(name, createdTime, span)
    case Unreadable(name) => CreateUnreadable(name)
    case Failed => CreateFailed
  }

  function Steps(results: seq<Creation>): (r: seq<Action>)
    ensures |r| == |results|
  {
    if results == [] then [] else [StepOf(results[0])] + Steps(results[1..])
  }

  function Made(r: Creation): seq<Fn> {
    if r.Created? then [Fn(r.name, r.createdTime, r.span, {})] else []
  }

  function MadeNames(results: seq<Creation>): set<Name> {
    set r | r in results && r.Created? :: r.name
  }

  lemma {:induction false} CreatedFnsFirst(results: seq<Creation>)
    requires results != []
    ensures CreatedFns(results) == Made(results[0]) + CreatedFns(results[1..])
  {
    if |results| == 1 {
      assert results[..0] == [] && results[1..] == [];
    } else {
      var init := results[..|results| - 1];
      CreatedFnsFirst(init);
      assert init[1..] == results[1..][..|results| - 2];
      assert results[1..][|results| - 2] == results[|results| - 1];
    }
  }

  /** What a batch does to the state: the functions and names it makes, and its failures. */
  ghost predicate Makes(s: State, after: State, fns: seq<Fn>, names: set<Name>, failed: bool) {
    && s.phase.Filling? && after.phase.Filling?
    && after.pool == s.pool + fns && after.stale == s.stale
    && after.phase.made == s.phase.made + names
    && after.phase.failures >= s.phase.failures
    && (after.phase.failures > s.phase.failures <==> failed)
  }

  lemma {:induction false} MakesOne(s: State, r: Creation)
    requires s.phase.Filling? && Enabled(s, StepOf(r))
    ensures Makes(s, Next(s, StepOf(r)), Made(r), MadeNames([r]), !r.Created?)
  {
    assert MadeNames([r]) == if r.Created? then {r.name} else {};
  }

  lemma {:induction false} MakesBoth(s: State, mid: State, after: State, fns: seq<Fn>, more: seq<Fn>,
      names: set<Name>, others: set<Name>, failed: bool, alsoFailed: bool)
    requires Makes(s, mid, fns, names, failed) && Makes(mid, after, more, others, alsoFailed)
    ensures Makes(s, after, fns + more, names + others, failed || alsoFailed)
  {
  }

  lemma {:induction false} MadeByCons(r: Creation, rest: seq<Creation>)
    ensures CreatedFns([r] + rest) == Made(r) + CreatedFns(rest)
    ensures MadeNames([r] + rest) == MadeNames([r]) + MadeNames(rest)
    ensures AnyFailed([r] + rest) <==> !r.Created? || AnyFailed(rest)
  {
    var all := [r] + rest;
    CreatedFnsFirst(all);
    assert all[1..] == rest && all[0] == r && r in all;
    assert forall x :: x in all <==> x == r || x in rest;
  }

  /** Taking the creations of a batch one at a time, as its goroutines do, adds the same functions in
      the same order, and the batch then knows the names it made and whether one failed. */
  lemma {:induction false} BatchIsSteps(s: State, results: seq<Creation>)
    requires s.phase.Filling? && Legal(s, Steps(results))
    ensures Makes(s, After(s, Steps(results)), CreatedFns(results), MadeNames(results), AnyFailed(results))
    decreases |results|
  {
    if results == [] {
    } else {
      var r, rest := results[0], results[1..];
      assert results == [r] + rest && Steps(results)[1..] == Steps(rest);
      MakesOne(s, r);
      BatchIsSteps(Next(s, StepOf(r)), rest);
      MakesBoth(s, Next(s, StepOf(r)), After(s, Steps(results)), Made(r), CreatedFns(rest), MadeNames([r]),
        MadeNames(rest), !r.Created?, AnyFailed(rest));
      MadeByCons(r, rest);
    }
  }

  class LambdaExecutor {
    const lambdaPoolSize: nat
    var pool: seq<LambdaFunction>
    var stalePool: map<Name, LambdaFunction>

    constructor (lambdaPoolSize: nat)
      ensures Valid() && PoolView() == [] && StaleView() == map[] && this.lambdaPoolSize == lambdaPoolSize
    {
      this.lambdaPoolSize, pool, stalePool := lambdaPoolSize, [], map[];
    }

    /** No function object is held twice. */
    ghost predicate Valid()
      reads this
    {
      && (forall i, j | 0 <= i < j < |pool| :: pool[i] != pool[j])
      && (forall n | n in stalePool :: stalePool[n].name == n && stalePool[n] !in pool)
    }

    function PoolView(): seq<Fn>
      reads this, pool
    {
      Views(pool)
    }

    function StaleView(): map<Name, Fn>
      reads this, stalePool.Values
    {
      StaleViews(stalePool)
    }

    /** AddLambdaFunctions: the creations join the pool even when another one of the batch failed;
        then the names created are deleted from the cloud and no name is returned. */
    method AddLambdaFunctions(results: seq<Creation>) returns (names: seq<Name>, deleted: seq<Name>, failed: bool)
      requires Valid()
      modifies this`pool
      ensures Valid()
      ensures PoolView() == old(PoolView()) + CreatedFns(results)
      ensures StaleView() == old(StaleView())
      ensures failed <==> AnyFailed(results)
      ensures names == if failed then [] else FnNames(CreatedFns(results))
      ensures deleted == if failed then FnNames(CreatedFns(results)) else []
    {
      names, failed := [], false;
      ghost var made: seq<LambdaFunction> := [];
      assert results[..0] == [];
      for i := 0 to |results|
        invariant Valid()
        invariant stalePool == old(stalePool) && pool == old(pool) + made
        invariant forall f | f in made :: fresh(f)
        invariant Views(made) == CreatedFns(results[..i])
        invariant names == FnNames(CreatedFns(results[..i]))
        invariant failed <==> AnyFailed(results[..i])
      {
        assert results[..i + 1] == results[..i] + [results[i]] && results[..i + 1][..i] == results[..i];
        match results[i]
        case Failed =>
          failed := true;
          assert results[i] in results[..i + 1];
        case Unreadable(_) =>
          failed := true;
          assert results[i] in results[..i + 1];
        case Created(name, createdTime, span) =>
          var f := new LambdaFunction(name, createdTime, span);
          pool := pool + [f];
          ViewsAppend(made, [f]);
          made := made + [f];
          names := names + [name];
      }
      assert results[..|results|] == results;
      ViewsAppend(old(pool), made);
      if failed {
        return [], names, true;
      }
      deleted := [];
    }

    /** FillLambdaPool: at most the missing functions are created, so the pool never exceeds its
        size, and it is full exactly when none of the creations failed. */
    method FillLambdaPool(results: seq<Creation>) returns (failed: bool)
      requires Valid() && |pool| <= lambdaPoolSize
      requires |results| == lambdaPoolSize - |pool|
      modifies this`pool
      ensures Valid()
      ensures PoolView() == old(PoolView()) + CreatedFns(results)
      ensures StaleView() == old(StaleView())
      ensures |pool| <= lambdaPoolSize
      ensures |pool| == lambdaPoolSize <==> !failed
    {
      CreatedCount(results);
      var _, _, err := AddLambdaFunctions(results);
      assert |PoolView()| == |pool|;
      failed := err;
    }

    /** MarkStaleFunctions: the slice is cut in place, one function at a time. */
    method MarkStaleFunctions(clock: nat -> int)
      requires Valid()
      modifies this`pool, this`stalePool
      ensures Valid()
      ensures PoolView() == Kept(old(PoolView()), clock)
      ensures StaleView() == old(StaleView()) + Expired(old(PoolView()), clock)
    {
      ghost var orig, stale0 := pool, stalePool;
      CutExpired(clock);
      AgedViews(orig, stale0, clock);
    }

    /** The loop of MarkStaleFunctions, on the objects. */
    method CutExpired(clock: nat -> int)
      modifies this`pool, this`stalePool
      ensures pool == KeptObjects(old(pool), clock, |old(pool)|)
      ensures stalePool == old(stalePool) + ExpiredObjects(old(pool), clock, |old(pool)|)
    {
      ghost var orig, stale0 := pool, stalePool;
      ghost var n: nat := 0;
      var i: nat := 0;
      var readings := 0;
      while i < |pool|
        invariant readings == n && CutUpTo(n, i, pool, stalePool, orig, stale0, clock)
        decreases |orig| - n
      {
        CutNext(n, i, pool, stalePool, orig, stale0, clock);
        var f := pool[i];
        var stale := f.IsStale(clock(readings));
        readings := readings + 1;
        n := n + 1;
        if stale {
          i := i + 1;
          continue;
        }
        pool := pool[..i] + pool[i + 1..];
        stalePool := stalePool[f.name := f];
      }
      assert n == |orig| && pool == KeptObjects(orig, clock, n);
    }

    /** What the aged objects look like, and that no object is held twice. */
    lemma {:induction false} AgedViews(orig: seq<LambdaFunction>, stale0: map<Name, LambdaFunction>, clock: nat -> int)
      requires pool == KeptObjects(orig, clock, |orig|)
      requires stalePool == stale0 + ExpiredObjects(orig, clock, |orig|)
      requires forall i, j | 0 <= i < j < |orig| :: orig[i] != orig[j]
      requires forall n | n in stale0 :: stale0[n].name == n && stale0[n] !in orig
      ensures Valid()
      ensures PoolView() == Kept(Views(orig), clock)
      ensures StaleView() == StaleViews(stale0) + Expired(Views(orig), clock)
    {
      ObjectsAge(orig, clock, |orig|);
      AgeingSeparates(orig, clock, |orig|);
      assert Views(orig)[..|orig|] == Views(orig);
      assert orig[..|orig|] == orig;
      StaleViewsAppend(stale0, ExpiredObjects(orig, clock, |orig|));
    }

    /** DeleteRemovableFunctions: removes exactly the stale functions without pending jobs. */
    method DeleteRemovableFunctions() returns (removed: set<Name>)
      requires Valid()
      modifies this`stalePool
      ensures Valid()
      ensures PoolView() == old(PoolView())
      ensures removed == set n | n in old(StaleView()) && old(StaleView())[n].jobs == {}
      ensures StaleView() == old(StaleView()) - removed
    {
      ghost var stale := stalePool;
      removed := DropIdle();
      assert forall n | n in stale :: StaleViews(stale)[n] == stale[n].View();
    }

    ghost function Idle(stale: map<Name, LambdaFunction>): set<Name>
      reads stale.Values
    {
      set n | n in stale && stale[n].View().jobs == {}
    }

    /** The loop of DeleteRemovableFunctions, on the objects. */
    method DropIdle() returns (removed: set<Name>)
      modifies this`stalePool
      ensures removed == Idle(old(stalePool))
      ensures stalePool == old(stalePool) - removed
    {
      removed := {};
      ghost var stale := stalePool;
      ghost var idle := Idle(stale);
      var unvisited := stalePool.Keys;
      while unvisited != {}
        invariant unvisited <= stale.Keys
        invariant removed == idle - unvisited
        invariant stalePool == stale - removed
        decreases unvisited
      {
        var name :| name in unvisited;
        var f := stalePool[name];
        VisitOne(idle, unvisited, name);
        var removable := f.IsRemovable();
        assert removable <==> name in idle;
        unvisited := unvisited - {name};
        if removable {
          DropOne(stale, removed, name);
          stalePool := stalePool - {name};
          removed := removed + {name};
        }
      }
    }

    /** GetRandomActiveFunction: the job is registered on an active function before the lock is
        released; without an active function nothing happens. */
    method GetRandomActiveFunction(job: Job, pick: nat) returns (f: LambdaFunction?)
      requires Valid()
      requires pool != [] ==> pick < |pool|
      modifies pool
      ensures Valid() && pool == old(pool) && stalePool == old(stalePool)
      ensures f == null <==> pool == []
      ensures f != null ==> f == pool[pick]
      ensures f != null ==> PoolView() == old(PoolView())[pick := WithJob(old(PoolView())[pick], job.id)]
      ensures StaleView() == old(StaleView())
    {
      if |pool| == 0 {
        return null;
      }
      f := pool[pick];
      f.AddPendingJob(job);
    }
  }
}
