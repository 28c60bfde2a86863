/**
 panoptic/modules/scheduler.go: the list of jobs follows the crawl config. Reading the config is a
 parameter: every poll either fails or brings the configs and their digest.
 */
module Scheduling {
  import opened Wrappers
  import opened Sequences
  import opened SchedulerJobs

  ghost function NamesOf(jobs: seq<SchedulerJob>): (r: seq<string>)
    reads jobs
    ensures |r| == |jobs|
  {
    seq(|jobs|, i requires 0 <= i < |jobs| reads jobs => jobs[i].panopticConfig.name)
  }

  /** The same configs, each once, in whatever order. */
  ghost predicate SameJobs(a: seq<Config>, b: seq<Config>) {
    DistinctNames(a) && DistinctNames(b) && forall c :: c in a <==> c in b
  }

  /** ValidateJobs: a batch is valid exactly when no two jobs share a name. */
  method ValidateJobs(jobs: seq<SchedulerJob>) returns (ok: bool)
    ensures ok <==> DistinctNames(Configs(jobs))
  {
    var seen: set<string> := {};
    for i := 0 to |jobs|
      invariant forall k | 0 <= k < i :: jobs[k].panopticConfig.name in seen
      invariant forall n | n in seen :: exists k | 0 <= k < i :: jobs[k].panopticConfig.name == n
      invariant forall k, m | 0 <= k < m < i :: Configs(jobs)[k].name != Configs(jobs)[m].name
    {
      var name := jobs[i].panopticConfig.name;
      if name in seen {
        ghost var k :| 0 <= k < i && jobs[k].panopticConfig.name == name;
        assert Configs(jobs)[k].name == Configs(jobs)[i].name;
        return false;
      }
      seen := seen + {name};
    }
    ok := true;
  }

  // ---------- polling ----------

  /** What one reading of the config came to. */
  datatype Poll = ReadFailed | Read(configs: seq<Config>, digest: string)

  /** The configs that were accepted last, if any were, and their digest. */
  datatype Known = Known(configs: Option<seq<Config>>, digest: string)

  ghost predicate Accepted(poll: Poll, digest: string) {
    poll.Read? && poll.digest != digest && NoClash(poll.configs)
  }

  ghost function Follow(polls: seq<Poll>, start: Known): Known {
    if polls == [] then start
    else
      var before, poll := Follow(polls[..|polls| - 1], start), Last(polls);
      if Accepted(poll, before.digest) then Known(Some(poll.configs), poll.digest) else before
  }

  ghost function Reschedules(polls: seq<Poll>, start: Known): nat {
    if polls == [] then 0
    else
      var init := polls[..|polls| - 1];
      Reschedules(init, start) + if Accepted(Last(polls), Follow(init, start).digest) then 1 else 0
  }

  /** The i-th reading reschedules. */
  ghost predicate RescheduledAt(polls: seq<Poll>, start: Known, i: nat)
    requires i < |polls|
  {
    Accepted(polls[i], Follow(polls[..i], start).digest)
  }

  lemma {:induction false} DigestOfLast(polls: seq<Poll>, start: Known, i: int, j: nat)
    requires -1 <= i < j <= |polls| && (i >= 0 ==> RescheduledAt(polls, start, i))
    requires forall k | i < k < j :: !RescheduledAt(polls, start, k)
    ensures Follow(polls[..j], start).digest == if i >= 0 then polls[i].digest else start.digest
  {
    if i >= 0 || j > 0 {
      assert polls[..j][..j - 1] == polls[..j - 1] && Last(polls[..j]) == polls[j - 1];
      if i < j - 1 {
        DigestOfLast(polls, start, i, j - 1);
        assert !RescheduledAt(polls, start, j - 1);
      }
    }
  }

  /** Which readings reschedule: after the i-th did, or from the start if none has yet, the next one to do so is
      the next that can be read, has another digest and no clash; unchanged configs are never rescheduled. */
  lemma {:induction false} NextRescheduleIff(polls: seq<Poll>, start: Known, i: int, j: nat)
    requires -1 <= i < j < |polls| && (i >= 0 ==> RescheduledAt(polls, start, i))
    requires forall k | i < k < j :: !RescheduledAt(polls, start, k)
    ensures RescheduledAt(polls, start, j) <==>
            && polls[j].Read? && NoClash(polls[j].configs)
            && polls[j].digest != if i >= 0 then polls[i].digest else start.digest
  {
    DigestOfLast(polls, start, i, j);
  }

  function ConfigNames(configs: seq<Config>): seq<string> {
    seq(|configs|, i requires 0 <= i < |configs| => configs[i].name)
  }

  /** Every accepted reading has a job of that name. */
  ghost predicate NeverDropped(name: string, polls: seq<Poll>, start: Known) {
    polls == [] ||
    var init := polls[..|polls| - 1];
    && NeverDropped(name, init, start)
    && (Accepted(Last(polls), Follow(init, start).digest) ==> name in ConfigNames(AllBatches(Last(polls).configs)))
  }

  /** The last reading whose jobs had distinct names. */
  ghost function LastValid(polls: seq<Poll>): Option<seq<Config>> {
    if polls == [] then None
    else if Last(polls).Read? && NoClash(Last(polls).configs) then Some(Last(polls).configs)
    else LastValid(polls[..|polls| - 1])
  }

  ghost predicate DigestTells(polls: seq<Poll>, digestOf: seq<Config> -> string) {
    && (forall p | p in polls && p.Read? :: p.digest == digestOf(p.configs) != "")
    && (forall p, q | p in polls && q in polls && p.Read? && q.Read? && p.digest == q.digest :: p.configs == q.configs)
  }

  lemma {:induction false} LastValidIsAPoll(polls: seq<Poll>)
    requires LastValid(polls).Some?
    ensures exists p :: p in polls && p.Read? && p.configs == LastValid(polls).value
  {
    if Last(polls).Read? && NoClash(Last(polls).configs) {
      assert Last(polls) in polls;
    } else {
      LastValidIsAPoll(polls[..|polls| - 1]);
    }
  }

  /** With digests that tell configs apart, comparing digests only saves work: what the scheduler
      follows is always the last reading that was valid. */
  lemma {:induction false} DigestOnlySavesWork(polls: seq<Poll>, digestOf: seq<Config> -> string)
    requires DigestTells(polls, digestOf)
    ensures Follow(polls, Known(None, "")).configs == LastValid(polls)
    ensures Follow(polls, Known(None, "")).digest == match LastValid(polls) case None => "" case Some(c) => digestOf(c)
  {
    if polls == [] {
    } else {
      var init, poll := polls[..|polls| - 1], Last(polls);
      assert polls == init + [poll];
      DigestOnlySavesWork(init, digestOf);
      if LastValid(init).Some? {
        LastValidIsAPoll(init);
      }
    }
  }

  // ---------- the job list ----------

  /** The old jobs whose names are wanted, in their order. */
  ghost function Survivors(jobs: seq<SchedulerJob>, names: seq<string>, wanted: set<string>, n: nat): seq<SchedulerJob>
    requires n <= |jobs| == |names|
  {
    if n == 0 then []
    else Survivors(jobs, names, wanted, n - 1) + if names[n - 1] in wanted then [jobs[n - 1]] else []
  }

  ghost predicate DifferentNames(names: seq<string>) {
    forall i, j | 0 <= i < j < |names| :: names[i] != names[j]
  }

  lemma {:induction false} NamesOfConfigs(jobs: seq<SchedulerJob>)
    ensures NamesOf(jobs) == ConfigNames(Configs(jobs))
  {
  }

  /** What the upsert leaves of one existing job: its new config, or its old one and a cancellation. */
  datatype Remaining = Remaining(config: Config, cancelled: bool)

  function Adopt(was: Remaining, configs: map<string, Config>): Remaining {
    if was.config.name in configs then was.(config := configs[was.config.name]) else was.(cancelled := true)
  }

  /** The first n existing jobs after the upsert has reached them; the others as they were. */
  function AdoptUpTo(n: nat, was: seq<Remaining>, configs: map<string, Config>): seq<Remaining>
    requires n <= |was|
  {
    seq(|was|, k requires 0 <= k < |was| => if k < n then Adopt(was[k], configs) else was[k])
  }

  lemma {:induction false} AdoptNext(n: nat, was: seq<Remaining>, configs: map<string, Config>)
    requires n < |was|
    ensures AdoptUpTo(n + 1, was, configs) == AdoptUpTo(n, was, configs)[n := Adopt(was[n], configs)]
    ensures AdoptUpTo(n, was, configs)[n] == was[n]
  {
  }

  ghost function StateOf(jobs: seq<SchedulerJob>): (r: seq<Remaining>)
    reads jobs
    ensures |r| == |jobs|
  {
    seq(|jobs|, i requires 0 <= i < |jobs| reads jobs => Remaining(jobs[i].panopticConfig, jobs[i].cancelled))
  }

  ghost predicate Mirrors(jobs: seq<SchedulerJob>, states: seq<Remaining>)
    reads jobs
  {
    && |jobs| == |states|
    && forall k | 0 <= k < |jobs| ::
       jobs[k].panopticConfig == states[k].config && jobs[k].cancelled == states[k].cancelled
  }

  ghost predicate Distinct(jobs: seq<SchedulerJob>) {
    forall i, j | 0 <= i < j < |jobs| :: jobs[i] != jobs[j]
  }

  ghost predicate IsIndex(byName: map<string, SchedulerJob>, jobs: seq<SchedulerJob>)
    reads jobs, byName.Values
  {
    && (forall j | j in jobs :: j.panopticConfig.name in byName && byName[j.panopticConfig.name] == j)
    && (forall n | n in byName :: byName[n] in jobs && byName[n].panopticConfig.name == n)
  }

  function ConfigsByName(byName: map<string, SchedulerJob>): map<string, Config>
    reads byName.Values
  {
    map n | n in byName :: byName[n].panopticConfig
  }

  /** A list of configs holds exactly those with the given names, each once. */
  ghost predicate Lists(part: seq<Config>, configs: map<string, Config>, names: set<string>) {
    && DistinctNames(part)
    && (forall c | c in part :: c.name in names && c.name in configs && configs[c.name] == c)
    && (forall m | m in names :: m in configs && configs[m].name == m && configs[m] in part)
  }

  lemma {:induction false} ListsJoin(a: seq<Config>, b: seq<Config>, configs: map<string, Config>,
      names1: set<string>, names2: set<string>)
    requires Lists(a, configs, names1) && Lists(b, configs, names2) && names1 !! names2
    ensures Lists(a + b, configs, names1 + names2)
  {
    forall i, j | 0 <= i < |a| && 0 <= j < |b|
      ensures a[i].name != b[j].name
    {
      assert a[i] in a && b[j] in b;
    }
    DistinctAppend(a, b);
  }

  lemma {:induction false} ListsSame(a: seq<Config>, b: seq<Config>, configs: map<string, Config>, names: set<string>)
    requires Lists(a, configs, names) && Lists(b, configs, names)
    ensures SameJobs(a, b)
  {
  }

  lemma {:induction false} IndexLists(byName: map<string, SchedulerJob>, jobs: seq<SchedulerJob>)
    requires IsIndex(byName, jobs) && DistinctNames(Configs(jobs))
    ensures Lists(Configs(jobs), ConfigsByName(byName), byName.Keys)
  {
    var configs := ConfigsByName(byName);
    forall c | c in Configs(jobs)
      ensures c.name in configs && configs[c.name] == c
    {
      var k :| 0 <= k < |jobs| && Configs(jobs)[k] == c;
      assert jobs[k] in jobs;
    }
    forall m | m in configs
      ensures configs[m].name == m && configs[m] in Configs(jobs)
    {
      var k :| 0 <= k < |jobs| && jobs[k] == byName[m];
      assert Configs(jobs)[k] == configs[m];
    }
  }

  lemma {:induction false} IndexNames(byName: map<string, SchedulerJob>, jobs: seq<SchedulerJob>)
    requires IsIndex(byName, jobs)
    ensures byName.Keys == set m | m in NamesOf(jobs)
  {
    forall m
      ensures m in byName <==> m in NamesOf(jobs)
    {
      if m in byName {
        var k :| 0 <= k < |jobs| && jobs[k] == byName[m];
        assert NamesOf(jobs)[k] == m;
      }
      if m in NamesOf(jobs) {
        var k :| 0 <= k < |jobs| && NamesOf(jobs)[k] == m;
        assert jobs[k] in jobs;
      }
    }
  }

  lemma {:induction false} SurvivorsMembers(jobs: seq<SchedulerJob>, names: seq<string>, wanted: set<string>, n: nat,
      job: SchedulerJob)
    requires n <= |jobs| == |names|
    ensures job in Survivors(jobs, names, wanted, n) <==> exists k | 0 <= k < n :: jobs[k] == job && names[k] in wanted
  {
    if n == 0 {
    } else {
      SurvivorsMembers(jobs, names, wanted, n - 1, job);
      assert jobs[n - 1] == job && names[n - 1] in wanted ==> job in Survivors(jobs, names, wanted, n);
    }
  }

  function IsIn(list: seq<SchedulerJob>): SchedulerJob -> bool {
    j => j in list
  }

  /** The jobs of the old list that are still in the new one come first there, in their old order. */
  ghost predicate InOrder(before: seq<SchedulerJob>, after: seq<SchedulerJob>) {
    Filter(before, IsIn(after)) <= after
  }

  lemma {:induction false} AllIn(list: seq<SchedulerJob>, part: seq<SchedulerJob>)
    requires forall j | j in part :: j in list
    ensures Filter(part, IsIn(list)) == part
  {
    if part == [] {
    } else {
      assert part == [part[0]] + part[1..];
      AllIn(list, part[1..]);
    }
  }

  /** Order is kept over several changes if no job comes back. */
  lemma {:induction false} InOrderTwice(a: seq<SchedulerJob>, b: seq<SchedulerJob>, c: seq<SchedulerJob>)
    requires InOrder(a, b) && InOrder(b, c)
    requires forall j | j in a && j in c :: j in b
    ensures InOrder(a, c)
  {
    var kept := Filter(a, IsIn(b));
    assert b == kept + b[|kept|..];
    FilterAppend(kept, b[|kept|..], IsIn(c));
    FilterOfFilter(a, IsIn(b), IsIn(c), IsIn(c));
  }

  lemma {:induction false} SurvivorsAreFilter(jobs: seq<SchedulerJob>, names: seq<string>, wanted: set<string>,
      list: seq<SchedulerJob>, n: nat)
    requires n <= |jobs| == |names|
    requires forall k | 0 <= k < |jobs| :: jobs[k] in list <==> names[k] in wanted
    ensures Survivors(jobs, names, wanted, n) == Filter(jobs[..n], IsIn(list))
  {
    if n == 0 {
    } else {
      SurvivorsAreFilter(jobs, names, wanted, list, n - 1);
      assert jobs[..n] == jobs[..n - 1] + [jobs[n - 1]];
      FilterAppend(jobs[..n - 1], [jobs[n - 1]], IsIn(list));
    }
  }

  /** Jobs keep their names; exactly those with a wanted name stay, and exactly the others are cancelled. */
  twostate predicate Decided(orig: seq<SchedulerJob>, wanted: seq<string>, new list: seq<SchedulerJob>)
    reads orig
  {
    forall j | j in orig ::
      && j.panopticConfig.name == old(j.panopticConfig.name)
      && (j in list <==> j.panopticConfig.name in wanted)
      && j.cancelled == if j in list then old(j.cancelled) else true
  }

  function RestOf(byName: map<string, SchedulerJob>, names: seq<string>, n: nat): map<string, SchedulerJob>
    requires n <= |names|
  {
    map m | m in byName && m !in names[..n] :: byName[m]
  }

  lemma {:induction false} RestNext(byName: map<string, SchedulerJob>, names: seq<string>, n: nat)
    requires n < |names| && DifferentNames(names)
    ensures names[n] in RestOf(byName, names, n) <==> names[n] in byName
    ensures RestOf(byName, names, n + 1) == RestOf(byName, names, n) - {names[n]}
  {
    assert names[..n + 1] == names[..n] + [names[n]];
  }

  /** What an upsert starts from. */
  datatype Start = Start(orig: seq<SchedulerJob>, names: seq<string>, was: seq<Remaining>, byName: map<string,
      SchedulerJob>, configs: map<string, Config>) {
    ghost predicate Ok() {
      && |names| == |was| == |orig|
      && byName.Keys == configs.Keys
      && DifferentNames(names) && Distinct(orig)
      && (forall k | 0 <= k < |orig| :: names[k] == was[k].config.name)
      && (forall m | m in byName :: byName[m] !in orig && configs[m].name == m)
    }
  }

  /** Where the loop over the existing jobs stands when it has visited n of them. */
  ghost predicate Reached(n: nat, idx: nat, jobs: seq<SchedulerJob>, rest: map<string, SchedulerJob>, s: Start)
    requires s.Ok()
  {
    && n <= |s.orig|
    && jobs == Survivors(s.orig, s.names, s.configs.Keys, n) + s.orig[n..]
    && idx == |Survivors(s.orig, s.names, s.configs.Keys, n)|
    && rest == RestOf(s.byName, s.names, n)
  }

  lemma {:induction false} ReachedNext(n: nat, idx: nat, jobs: seq<SchedulerJob>, rest: map<string, SchedulerJob>,
      s: Start)
    requires s.Ok() && Reached(n, idx, jobs, rest, s) && idx < |jobs|
    ensures n < |s.orig| && jobs[idx] == s.orig[n]
    ensures s.names[n] in rest <==> s.names[n] in s.configs
    ensures s.names[n] in rest ==> rest[s.names[n]] == s.byName[s.names[n]]
    ensures s.names[n] in s.configs ==> Reached(n + 1, idx + 1, jobs, rest - {s.names[n]}, s)
    ensures s.names[n] !in s.configs ==> Reached(n + 1, idx, jobs[..idx] + jobs[idx + 1..], rest, s)
  {
    RestNext(s.byName, s.names, n);
    assert s.orig[n..] == [s.orig[n]] + s.orig[n + 1..];
    if s.names[n] !in s.configs {
      assert rest - {s.names[n]} == rest;
    }
  }

  lemma {:induction false} ReachedStart(s: Start)
    requires s.Ok()
    ensures Reached(0, 0, s.orig, s.byName, s)
  {
    assert s.orig[0..] == s.orig && s.names[..0] == [];
    assert RestOf(s.byName, s.names, 0) == s.byName;
  }

  lemma {:induction false} ReachedEnd(n: nat, idx: nat, jobs: seq<SchedulerJob>, rest: map<string, SchedulerJob>,
      s: Start)
    requires s.Ok() && Reached(n, idx, jobs, rest, s) && idx >= |jobs|
    ensures n == |s.orig|
    ensures jobs == Survivors(s.orig, s.names, s.configs.Keys, n)
    ensures rest == RestOf(s.byName, s.names, n)
  {
  }

  /** The heap at that point: the new jobs as they came, the existing ones adopted up to n. */
  ghost predicate Visited(n: nat, s: Start)
    requires s.Ok()
    reads s.orig, s.byName.Values
  {
    && n <= |s.orig|
    && Mirrors(s.orig, AdoptUpTo(n, s.was, s.configs))
    && forall m | m in s.byName :: s.byName[m].panopticConfig == s.configs[m]
  }

  lemma {:induction false} ConfigsAppend(a: seq<SchedulerJob>, b: seq<SchedulerJob>)
    ensures Configs(a + b) == Configs(a) + Configs(b)
  {
  }

  function Wanted(names: seq<string>, configs: map<string, Config>, n: nat): set<string>
    requires n <= |names|
  {
    set m | m in names[..n] && m in configs
  }

  lemma {:induction false} WantedNext(names: seq<string>, configs: map<string, Config>, n: nat)
    requires n < |names| && DifferentNames(names)
    ensures names[n] !in Wanted(names, configs, n)
    ensures names[n] in configs ==> Wanted(names, configs, n + 1) == Wanted(names, configs, n) + {names[n]}
    ensures names[n] !in configs ==> Wanted(names, configs, n + 1) == Wanted(names, configs, n)
  {
    assert names[..n + 1] == names[..n] + [names[n]];
  }

  lemma {:induction false} KeptNext(n: nat, s: Start)
    requires s.Ok() && Visited(|s.orig|, s) && n < |s.orig|
    requires Lists(Configs(Survivors(s.orig, s.names, s.configs.Keys, n)), s.configs, Wanted(s.names, s.configs, n))
    ensures Lists(Configs(Survivors(s.orig, s.names, s.configs.Keys, n + 1)), s.configs,
            Wanted(s.names, s.configs, n + 1))
  {
    var older := Survivors(s.orig, s.names, s.configs.Keys, n);
    WantedNext(s.names, s.configs, n);
    if s.names[n] !in s.configs {
      assert Survivors(s.orig, s.names, s.configs.Keys, n + 1) == older;
    } else {
      var c := s.configs[s.names[n]];
      assert Survivors(s.orig, s.names, s.configs.Keys, n + 1) == older + [s.orig[n]];
      assert Configs([s.orig[n]]) == [c];
      ListsJoin(Configs(older), [c], s.configs, Wanted(s.names, s.configs, n), {c.name});
      ConfigsAppend(older, [s.orig[n]]);
    }
  }

  lemma {:induction false} KeptLists(n: nat, s: Start)
    requires s.Ok() && Visited(|s.orig|, s) && n <= |s.orig|
    ensures Lists(Configs(Survivors(s.orig, s.names, s.configs.Keys, n)), s.configs, Wanted(s.names, s.configs, n))
  {
    if n == 0 {
    } else {
      KeptLists(n - 1, s);
      KeptNext(n - 1, s);
    }
  }

  function Added(rest: map<string, SchedulerJob>, order: seq<string>): seq<SchedulerJob>
    requires forall m | m in order :: m in rest
  {
    seq(|order|, i requires 0 <= i < |order| => rest[order[i]])
  }

  lemma {:induction false} AddedLists(rest: map<string, SchedulerJob>, order: seq<string>, s: Start)
    requires s.Ok() && Visited(|s.orig|, s) && rest == RestOf(s.byName, s.names, |s.names|)
    requires DifferentNames(order) && forall m :: m in order <==> m in rest
    ensures Lists(Configs(Added(rest, order)), s.configs, rest.Keys)
  {
    var part := Configs(Added(rest, order));
    forall i | 0 <= i < |order|
      ensures order[i] in rest && part[i] == s.configs[order[i]] && part[i].name == order[i]
    {
      assert order[i] in order;
    }
    forall m | m in rest
      ensures s.configs[m] in part
    {
      var i :| 0 <= i < |order| && order[i] == m;
      assert part[i] == s.configs[m];
    }
  }

  ghost function AfterUpsert(rest: map<string, SchedulerJob>, order: seq<string>, s: Start): seq<SchedulerJob>
    requires s.Ok() && forall m | m in order :: m in rest
  {
    Survivors(s.orig, s.names, s.configs.Keys, |s.orig|) + Added(rest, order)
  }

  ghost predicate Complete(rest: map<string, SchedulerJob>, order: seq<string>, s: Start)
    requires s.Ok()
  {
    && rest == RestOf(s.byName, s.names, |s.names|)
    && DifferentNames(order)
    && forall m :: m in order <==> m in rest
  }

  /** After the upsert the job list holds exactly the new configs. */
  lemma {:induction false} UpsertLists(rest: map<string, SchedulerJob>, order: seq<string>, s: Start)
    requires s.Ok() && Visited(|s.orig|, s) && Complete(rest, order, s)
    ensures Lists(Configs(AfterUpsert(rest, order, s)), s.configs, s.configs.Keys)
  {
    var kept, added := Survivors(s.orig, s.names, s.configs.Keys, |s.orig|), Added(rest, order);
    KeptLists(|s.orig|, s);
    AddedLists(rest, order, s);
    var stay := Wanted(s.names, s.configs, |s.orig|);
    assert stay !! rest.Keys && stay + rest.Keys == s.configs.Keys;
    ListsJoin(Configs(kept), Configs(added), s.configs, stay, rest.Keys);
    ConfigsAppend(kept, added);
  }

  lemma {:induction false} AddedMembers(rest: map<string, SchedulerJob>, order: seq<string>, s: Start,
      job: SchedulerJob)
    requires s.Ok() && Complete(rest, order, s) && job in Added(rest, order)
    ensures job in s.byName.Values && job !in s.orig
  {
    var i :| 0 <= i < |order| && Added(rest, order)[i] == job;
    assert order[i] in order;
    assert job == s.byName[order[i]];
  }

  /** Who is in the list after the upsert, and who was cancelled. */
  lemma {:induction false} UpsertKeeps(rest: map<string, SchedulerJob>, order: seq<string>, s: Start, k: nat)
    requires s.Ok() && Visited(|s.orig|, s) && Complete(rest, order, s) && k < |s.orig|
    ensures s.orig[k] in AfterUpsert(rest, order, s) <==> s.names[k] in s.configs
    ensures s.orig[k].cancelled == if s.names[k] in s.configs then s.was[k].cancelled else true
    ensures s.orig[k].panopticConfig.name == s.names[k]
  {
    SurvivorsMembers(s.orig, s.names, s.configs.Keys, |s.orig|, s.orig[k]);
    if s.orig[k] in Added(rest, order) {
      AddedMembers(rest, order, s, s.orig[k]);
    }
  }

  lemma {:induction false} SurvivorsInOrder(rest: map<string, SchedulerJob>, order: seq<string>, s: Start)
    requires s.Ok() && Visited(|s.orig|, s) && Complete(rest, order, s)
    ensures InOrder(s.orig, AfterUpsert(rest, order, s))
  {
    var list := AfterUpsert(rest, order, s);
    forall k | 0 <= k < |s.orig|
      ensures s.orig[k] in list <==> s.names[k] in s.configs.Keys
    {
      UpsertKeeps(rest, order, s, k);
    }
    SurvivorsAreFilter(s.orig, s.names, s.configs.Keys, list, |s.orig|);
    assert s.orig[..|s.orig|] == s.orig;
  }

  lemma {:induction false} UpsertAddsOnlyNew(rest: map<string, SchedulerJob>, order: seq<string>, s: Start,
      job: SchedulerJob)
    requires s.Ok() && Complete(rest, order, s) && job in AfterUpsert(rest, order, s)
    ensures job in s.orig || job in s.byName.Values
  {
    if job in Added(rest, order) {
      AddedMembers(rest, order, s, job);
    } else {
      SurvivorsMembers(s.orig, s.names, s.configs.Keys, |s.orig|, job);
    }
  }

  class Scheduler {
    var jobs: seq<SchedulerJob>
    var scheduleDigest: string

    constructor ()
      ensures jobs == [] && scheduleDigest == ""
    {
      jobs, scheduleDigest := [], "";
    }

    ghost predicate Valid()
      reads this, jobs
    {
      DistinctNames(Configs(jobs))
    }

    method IndexByName(newJobs: seq<SchedulerJob>) returns (byName: map<string, SchedulerJob>)
      requires DistinctNames(Configs(newJobs))
      ensures IsIndex(byName, newJobs)
    {
      byName := map[];
      for i := 0 to |newJobs|
        invariant forall k | 0 <= k < i ::
            newJobs[k].panopticConfig.name in byName && byName[newJobs[k].panopticConfig.name] == newJobs[k]
        invariant forall n | n in byName :: byName[n] in newJobs && byName[n].panopticConfig.name == n
      {
        forall k | 0 <= k < i
          ensures newJobs[k].panopticConfig.name != newJobs[i].panopticConfig.name
        {
          assert Configs(newJobs)[k].name != Configs(newJobs)[i].name;
        }
        byName := byName[newJobs[i].panopticConfig.name := newJobs[i]];
      }
    }

    /** The visit of one existing job. */
    method VisitOne(idx: nat, byName: map<string, SchedulerJob>, ghost n: nat, ghost s: Start)
        returns (idx': nat, rest: map<string, SchedulerJob>)
      requires s.Ok() && Reached(n, idx, jobs, byName, s) && Visited(n, s) && idx < |jobs|
      modifies this`jobs, s.orig`panopticConfig, s.orig`cancelled
      ensures n < |s.orig| && Reached(n + 1, idx', jobs, rest, s) && Visited(n + 1, s)
    {
      idx', rest := idx, byName;
      ReachedNext(n, idx, jobs, rest, s);
      AdoptNext(n, s.was, s.configs);
      var existing := jobs[idx];
      assert existing.panopticConfig.name == s.names[n];
      if existing.panopticConfig.name in byName {
        var v := byName[existing.panopticConfig.name];
        rest := rest - {existing.panopticConfig.name};
        existing.panopticConfig := v.panopticConfig;
        idx' := idx + 1;
      } else {
        jobs := jobs[..idx] + jobs[idx + 1..];
        existing.cancelled := true;
      }
    }

    /** The first loop of UpsertJobs: existing jobs take their new config or are cut out and cancelled. */
    method Reconcile(byName: map<string, SchedulerJob>, ghost s: Start) returns (rest: map<string, SchedulerJob>)
      requires s.Ok() && s.orig == jobs && s.byName == byName && Visited(0, s)
      modifies this`jobs, s.orig`panopticConfig, s.orig`cancelled
      ensures jobs == Survivors(s.orig, s.names, s.configs.Keys, |s.orig|)
      ensures rest == RestOf(byName, s.names, |s.orig|)
      ensures Visited(|s.orig|, s)
    {
      ghost var n: nat := 0;
      rest := byName;
      var idx: nat := 0;
      ReachedStart(s);
      while idx < |jobs|
        invariant Reached(n, idx, jobs, rest, s)
        invariant Visited(n, s)
        decreases |s.orig| - n
      {
        idx, rest := VisitOne(idx, rest, n, s);
        n := n + 1;
      }
      ReachedEnd(n, idx, jobs, rest, s);
    }

    /** The second loop of UpsertJobs: Go visits the new jobs in an order of its own. */
    method AppendNew(byName: map<string, SchedulerJob>) returns (ghost order: seq<string>)
      modifies this`jobs
      ensures DifferentNames(order) && (forall m :: m in order <==> m in byName)
      ensures jobs == old(jobs) + seq(|order|, i requires 0 <= i < |order| => byName[order[i]])
    {
      order := [];
      var unvisited := byName.Keys;
      while unvisited != {}
        invariant unvisited <= byName.Keys
        invariant DifferentNames(order) && (forall m :: m in order <==> m in byName && m !in unvisited)
        invariant jobs == old(jobs) + seq(|order|, i requires 0 <= i < |order| => byName[order[i]])
        decreases unvisited
      {
        var name :| name in unvisited;
        unvisited := unvisited - {name};
        jobs := jobs + [byName[name]];
        order := order + [name];
      }
    }

    /** Both loops. */
    method Upsert(byName: map<string, SchedulerJob>, ghost s: Start) returns (ghost rest: map<string, SchedulerJob>,
        ghost order: seq<string>)
      requires s.Ok() && s.orig == jobs && s.byName == byName && Visited(0, s)
      modifies this`jobs, s.orig`panopticConfig, s.orig`cancelled
      ensures Complete(rest, order, s) && Visited(|s.orig|, s)
      ensures jobs == AfterUpsert(rest, order, s)
    {
      var unmatched := Reconcile(byName, s);
      rest := unmatched;
      order := AppendNew(unmatched);
    }

    /** UpsertJobs: the list then holds exactly the new batch's configs. Existing jobs with a wanted name
        stay, as the same objects in the same order; the others, and only they, are cancelled; new
        objects come behind. No run history is written. */
    method UpsertJobs(newJobs: seq<SchedulerJob>)
      requires Valid() && DistinctNames(Configs(newJobs))
      requires forall j | j in newJobs :: j !in jobs
      modifies this`jobs, jobs`panopticConfig, jobs`cancelled
      ensures Valid() && SameJobs(Configs(jobs), old(Configs(newJobs)))
      ensures Survivors(old(jobs), old(NamesOf(jobs)), set m | m in old(NamesOf(newJobs)), |old(jobs)|) <= jobs
      ensures InOrder(old(jobs), jobs)
      ensures forall j | j in jobs :: j in old(jobs) || j in newJobs
      ensures Decided(old(jobs), old(NamesOf(newJobs)), jobs)
    {
      ghost var newConfigs, newNames := Configs(newJobs), NamesOf(newJobs);
      var byName := IndexByName(newJobs);
      ghost var s := StartOf(byName, newJobs);
      IndexLists(byName, newJobs);
      ghost var rest, order := Upsert(byName, s);
      UpsertLists(rest, order, s);
      ListsSame(Configs(jobs), newConfigs, s.configs, s.configs.Keys);
      forall j | j in s.orig
        ensures j.panopticConfig.name == old(j.panopticConfig.name)
        ensures j in jobs <==> j.panopticConfig.name in newNames
        ensures j.cancelled == if j in jobs then old(j.cancelled) else true
      {
        var k :| 0 <= k < |s.orig| && s.orig[k] == j;
        UpsertKeeps(rest, order, s, k);
      }
      forall j | j in jobs
        ensures j in s.orig || j in newJobs
      {
        UpsertAddsOnlyNew(rest, order, s, j);
      }
      SurvivorsInOrder(rest, order, s);
    }

    lemma {:induction false} StartOf(byName: map<string, SchedulerJob>, newJobs: seq<SchedulerJob>) returns (s: Start)
      requires Valid() && IsIndex(byName, newJobs)
      requires forall j | j in newJobs :: j !in jobs
      ensures s.Ok() && Visited(0, s)
      ensures s == Start(jobs, NamesOf(jobs), StateOf(jobs), byName, ConfigsByName(byName))
      ensures s.configs.Keys == set m | m in NamesOf(newJobs)
      ensures forall m | m in byName :: byName[m] in newJobs
    {
      s := Start(jobs, NamesOf(jobs), StateOf(jobs), byName, ConfigsByName(byName));
      ValidNames();
      IndexNames(byName, newJobs);
    }

    lemma {:induction false} ValidNames()
      requires Valid()
      ensures DifferentNames(NamesOf(jobs)) && Distinct(jobs)
    {
      assert forall i | 0 <= i < |jobs| :: NamesOf(jobs)[i] == Configs(jobs)[i].name;
      forall i, j | 0 <= i < j < |jobs|
        ensures jobs[i] != jobs[j]
      {
        assert NamesOf(jobs)[i] != NamesOf(jobs)[j];
      }
    }

    /** The upsert of a validated batch of new jobs, in terms of its configs. */
    method Accept(newJobs: seq<SchedulerJob>, ghost configs: seq<Config>)
      requires Valid() && DistinctNames(configs) && Configs(newJobs) == configs && NewJobs(newJobs)
      requires forall j | j in newJobs :: j !in jobs
      modifies this`jobs, jobs`panopticConfig, jobs`cancelled
      ensures Valid() && SameJobs(Configs(jobs), configs)
      ensures Survivors(old(jobs), old(NamesOf(jobs)), set m | m in ConfigNames(configs), |old(jobs)|) <= jobs
      ensures Decided(old(jobs), ConfigNames(configs), jobs) && InOrder(old(jobs), jobs)
      ensures forall j | j in jobs && j !in old(jobs) ::
                j in newJobs && j.lastRun == ZERO_TIME && j.nextRun == ZERO_TIME && j.runCount == 0 && !j.cancelled
    {
      NamesOfConfigs(newJobs);
      UpsertJobs(newJobs);
    }

    /** ParseAndUpsertJobs: a failed reading, an unchanged digest and a clash of names change nothing. */
    method ParseAndUpsertJobs(poll: Poll) returns (reschedule: bool, failed: bool)
      requires Valid()
      requires poll.Read? ==> forall c | c in poll.configs :: FitsMemory(c)
      modifies this, jobs`panopticConfig, jobs`cancelled
      ensures Valid()
      ensures reschedule <==> poll.Read? && poll.digest != old(scheduleDigest) && NoClash(poll.configs)
      ensures failed <==> poll.ReadFailed? || (poll.digest != old(scheduleDigest) && !NoClash(poll.configs))
      ensures !reschedule ==> jobs == old(jobs) && scheduleDigest == old(scheduleDigest)
      ensures !reschedule ==> Configs(jobs) == old(Configs(jobs)) && forall j | j in jobs :: unchanged(j)
      ensures reschedule ==> scheduleDigest == poll.digest && SameJobs(Configs(jobs), AllBatches(poll.configs))
      ensures reschedule ==>
                var wanted := ConfigNames(AllBatches(poll.configs));
                && Survivors(old(jobs), old(NamesOf(jobs)), set m | m in wanted, |old(jobs)|) <= jobs
                && Decided(old(jobs), wanted, jobs)
      ensures InOrder(old(jobs), jobs)
      ensures forall j | j in jobs && j !in old(jobs) ::
                fresh(j) && j.lastRun == ZERO_TIME && j.nextRun == ZERO_TIME && j.runCount == 0 && !j.cancelled
    {
      var newJobs, ok, err := ParseJobs(poll);
      if !ok {
        AllIn(jobs, jobs);
        return false, err;
      }
      Accept(newJobs, AllBatches(poll.configs));
      scheduleDigest := poll.digest;
      return true, false;
    }

    /** What comes before the upsert: the reading is checked, and its jobs are made and validated. */
    method ParseJobs(poll: Poll) returns (newJobs: seq<SchedulerJob>, ok: bool, failed: bool)
      requires poll.Read? ==> forall c | c in poll.configs :: FitsMemory(c)
      ensures ok <==> poll.Read? && poll.digest != scheduleDigest && NoClash(poll.configs)
      ensures failed <==> poll.ReadFailed? || (poll.digest != scheduleDigest && !NoClash(poll.configs))
      ensures ok ==> Configs(newJobs) == AllBatches(poll.configs) && DistinctNames(AllBatches(poll.configs))
      ensures NewJobs(newJobs) && fresh(newJobs)
    {
      newJobs, ok, failed := [], false, true;
      if poll.ReadFailed? {
        return;
      }
      if scheduleDigest == poll.digest {
        failed := false;
        return;
      }
      newJobs := NewSchedulerJobs(poll.configs);
      AcceptedIff(poll.configs);
      ok := ValidateJobs(newJobs);
      failed := !ok;
    }

    /** One reading of the watch loop. */
    method FollowOne(polls: seq<Poll>, i: nat, ghost start: Known) returns (reschedule: bool)
      requires i < |polls| && Valid()
      requires polls[i].Read? ==> forall c | c in polls[i].configs :: FitsMemory(c)
      requires scheduleDigest == Follow(polls[..i], start).digest && Followed(polls[..i], start)
      modifies this, jobs`panopticConfig, jobs`cancelled
      ensures Valid()
      ensures scheduleDigest == Follow(polls[..i + 1], start).digest && Followed(polls[..i + 1], start)
      ensures Reschedules(polls[..i + 1], start) == Reschedules(polls[..i], start) + if reschedule then 1 else 0
      ensures Follow(polls[..i + 1], start).configs.None? ==>
                Follow(polls[..i], start).configs.None? && jobs == old(jobs) && forall j | j in jobs :: unchanged(j)
      ensures forall j | j in old(jobs) :: j.panopticConfig.name == old(j.panopticConfig.name)
      ensures forall j | j in old(jobs) && NeverDropped(j.panopticConfig.name, polls[..i], start) ::
                j in jobs <==> NeverDropped(j.panopticConfig.name, polls[..i + 1], start)
      ensures forall name :: NeverDropped(name, polls[..i + 1], start) ==> NeverDropped(name, polls[..i], start)
      ensures forall j | j in old(jobs) :: j.cancelled == if j in jobs then old(j.cancelled) else true
      ensures InOrder(old(jobs), jobs)
      ensures forall j | j in jobs :: j in old(jobs) || fresh(j)
    {
      assert polls[..i + 1][..i] == polls[..i] && Last(polls[..i + 1]) == polls[i];
      var accepted, _ := ParseAndUpsertJobs(polls[i]);
      reschedule := accepted;
    }

    /** WatchConfigAndMaybeReschedule over any readings: the job list holds exactly the jobs of the last
        accepted config. An old job is still there exactly when no accepted config dropped its name, it is
        cancelled exactly otherwise, and the old jobs that are left come first in their old order. */
    method WatchConfig(polls: seq<Poll>, ghost start: Known) returns (reschedules: nat)
      requires Valid() && start.digest == scheduleDigest && start.configs.None?
      requires forall p, c | p in polls && p.Read? && c in p.configs :: FitsMemory(c)
      modifies this, jobs`panopticConfig, jobs`cancelled
      ensures Valid()
      ensures var known := Follow(polls, start);
              && scheduleDigest == known.digest
              && (known.configs.Some? ==> SameJobs(Configs(jobs), AllBatches(known.configs.value)))
              && (known.configs.None? ==> jobs == old(jobs) && forall j | j in jobs :: unchanged(j))
      ensures reschedules == Reschedules(polls, start)
      ensures forall j | j in old(jobs) :: j in jobs <==> NeverDropped(old(j.panopticConfig.name), polls, start)
      ensures forall j | j in old(jobs) :: j.cancelled == if j in jobs then old(j.cancelled) else true
      ensures InOrder(old(jobs), jobs)
    {
      reschedules := 0;
      AllIn(jobs, jobs);
      for i := 0 to |polls|
        invariant Valid()
        invariant scheduleDigest == Follow(polls[..i], start).digest && Followed(polls[..i], start)
        invariant Follow(polls[..i], start).configs.None? ==> jobs == old(jobs) && forall j | j in jobs :: unchanged(j)
        invariant reschedules == Reschedules(polls[..i], start)
        invariant forall j | j in jobs :: j in old(jobs) || fresh(j)
        invariant forall j | j in old(jobs) :: j.panopticConfig.name == old(j.panopticConfig.name)
        invariant forall j | j in old(jobs) :: j in jobs <==> NeverDropped(j.panopticConfig.name, polls[..i], start)
        invariant forall j | j in old(jobs) :: j.cancelled == if j in jobs then old(j.cancelled) else true
        invariant InOrder(old(jobs), jobs)
      {
        assert forall k | 0 <= k < |jobs| :: jobs[k] in old(jobs) || fresh(jobs[k]);
        ghost var before := jobs;
        var reschedule := FollowOne(polls, i, start);
        InOrderTwice(old(jobs), before, jobs);
        if reschedule {
          reschedules := reschedules + 1;
        }
      }
      assert polls[..|polls|] == polls;
    }

    ghost predicate Followed(polls: seq<Poll>, start: Known)
      reads this, jobs
    {
      var known := Follow(polls, start);
      known.configs.Some? ==> SameJobs(Configs(jobs), AllBatches(known.configs.value))
    }
  }
}
