/**
 The loop that runs one job, panoptic/modules/scheduler.go ScheduleSingleJob. The clock is a number of
 nanoseconds that only advances; how far it does between two readings, and what another goroutine has
 meanwhile made of the job's config, comes with each event.
 */
module ScheduleLoop {
  import opened Wrappers
  import opened Sequences
  import opened SchedulerJobs

  datatype Event =
      /** A loop begins, idle after the last event. */
    | Begin(idle: nat, config: Config)
      /** The loop computes its wait idle after the last event; the timer and the clock reading behind
          it are late; the config may have changed during the wait. */
    | Turn(idle: nat, config: Config, late: nat, configThen: Config)

  datatype Clocked = Clocked(now: int, lastRun: int, nextRun: int, config: Config)

  /** An execution, and the interval in effect then; without one its time is not recorded in the job. */
  datatype Run = Run(at: int, interval: Option<int>)

  /** The job and all its executions. */
  datatype Trace = Trace(job: Clocked, runs: seq<Run>)

  function Max(a: int, b: int): int {
    if a < b then b else a
  }

  /** DurationTillNextRun */
  function Wait(job: Clocked): int {
    if job.lastRun == ZERO_TIME then OrZero(Interval(job.config)) else Saturate64(job.nextRun - job.now)
  }

  /** The job runs: UpdateLastAndNextTime, whose error nobody looks at. */
  function Execute(t: Trace): Trace {
    var job, interval := t.job, Interval(t.job.config);
    var runs := t.runs + [Run(job.now, interval)];
    match interval
    case Some(d) => Trace(job.(lastRun := job.now, nextRun := job.now + d), runs)
    case None => Trace(job, runs)
  }

  function Step(t: Trace, e: Event): Trace {
    var job := t.job.(now := t.job.now + e.idle, config := e.config);
    match e
    case Begin(_, config) =>
      if job.lastRun == ZERO_TIME && config.startImmediately then Execute(t.(job := job)) else t.(job := job)
    case Turn(_, _, late, configThen) =>
      Execute(t.(job := job.(now := job.now + Max(0, Wait(job)) + late, config := configThen)))
  }

  function After(t: Trace, events: seq<Event>): Trace {
    if events == [] then t else Step(After(t, events[..|events| - 1]), Last(events))
  }

  function LastRecorded(runs: seq<Run>): Option<Run> {
    if runs == [] then None
    else if Last(runs).interval.Some? then Some(Last(runs))
    else LastRecorded(runs[..|runs| - 1])
  }

  /** The job's fields are those of its last recorded run, and a run that was not recorded did not come
      before the next time that is recorded. */
  predicate Consistent(t: Trace) {
    && t.job.now > ZERO_TIME
    && (forall r | r in t.runs :: ZERO_TIME < r.at <= t.job.now && (r.interval.Some? ==> Int64(r.interval.value)))
    && (match LastRecorded(t.runs)
        case None => t.job.lastRun == ZERO_TIME
        case Some(r) => t.job.lastRun == r.at && t.job.nextRun == r.at + OrZero(r.interval))
    && (t.runs != [] && Last(t.runs).interval.None? && t.job.lastRun != ZERO_TIME ==> t.job.nextRun <= Last(t.runs).at)
  }

  lemma {:induction false} LastRecordedIsRun(runs: seq<Run>)
    ensures LastRecorded(runs).Some? ==> LastRecorded(runs).value in runs && LastRecorded(runs).value.interval.Some?
    ensures LastRecorded(runs).Some? <==> exists r :: r in runs && r.interval.Some?
  {
    if runs == [] {
    } else {
      LastRecordedIsRun(runs[..|runs| - 1]);
      assert runs == runs[..|runs| - 1] + [Last(runs)];
    }
  }

  lemma {:induction false} LastRecordedAppend(runs: seq<Run>, r: Run)
    ensures LastRecorded(runs + [r]) == if r.interval.Some? then Some(r) else LastRecorded(runs)
  {
    assert (runs + [r])[..|runs|] == runs;
  }

  /** When the loop may run the job next: at the recorded next time, or, without one, an interval from now. */
  function Due(t: Trace, e: Event): int
    requires e.Turn?
  {
    if t.job.lastRun == ZERO_TIME then t.job.now + e.idle + OrZero(Interval(e.config)) else t.job.nextRun
  }

  /** Every turn runs the job, at the later of its due time and the moment the loop looks, plus its
      lateness, and records it exactly when the schedule is of a known kind. The due time is the last run plus
      the interval in effect then if that was recorded, and is past if a run was recorded before, but not the
      last. */
  lemma {:induction false} RunTime(t: Trace, e: Event)
    requires Consistent(t) && e.Turn?
    ensures Step(t, e).runs == t.runs + [Run(Max(Due(t, e), t.job.now + e.idle) + e.late, Interval(e.configThen))]
    ensures Step(t, e).job.now == Last(Step(t, e).runs).at
    ensures Last(Step(t, e).runs).interval.Some? <==> e.configThen.schedule.Routinely?
    ensures t.runs != [] && Last(t.runs).interval.Some? ==> Due(t, e) == Last(t.runs).at + Last(t.runs).interval.value
    ensures t.runs != [] && Last(t.runs).interval.None? && t.job.lastRun != ZERO_TIME ==> Due(t, e) <= Last(t.runs).at
  {
    LastRecordedIsRun(t.runs);
    if t.runs != [] {
      assert Last(t.runs) in t.runs;
    }
  }

  lemma {:induction false} ExecutionStaysConsistent(t: Trace, now: int, config: Config)
    requires Consistent(t) && t.job.now <= now
    requires t.job.lastRun != ZERO_TIME ==> t.job.nextRun <= now
    ensures Consistent(Execute(t.(job := t.job.(now := now, config := config))))
  {
    var before := t.(job := t.job.(now := now, config := config));
    LastRecordedAppend(t.runs, Run(now, Interval(config)));
    assert Execute(before).runs == t.runs + [Run(now, Interval(config))];
  }

  lemma {:induction false} BeginStaysConsistent(t: Trace, idle: nat, config: Config)
    requires Consistent(t)
    ensures Consistent(Step(t, Begin(idle, config))) && t.job.now <= Step(t, Begin(idle, config)).job.now
  {
    if t.job.lastRun == ZERO_TIME && config.startImmediately {
      ExecutionStaysConsistent(t, t.job.now + idle, config);
    }
  }

  lemma {:induction false} TurnStaysConsistent(t: Trace, e: Event)
    requires Consistent(t) && e.Turn?
    ensures Consistent(Step(t, e)) && t.job.now <= Step(t, e).job.now
  {
    LastRecordedIsRun(t.runs);
    var job := t.job.(now := t.job.now + e.idle, config := e.config);
    ExecutionStaysConsistent(t, job.now + Max(0, Wait(job)) + e.late, e.configThen);
  }

  lemma {:induction false} StepStaysConsistent(t: Trace, e: Event)
    requires Consistent(t)
    ensures Consistent(Step(t, e)) && t.job.now <= Step(t, e).job.now
  {
    match e
    case Begin(idle, config) => BeginStaysConsistent(t, idle, config);
    case Turn(_, _, _, _) => TurnStaysConsistent(t, e);
  }

  lemma {:induction false} RunsStayConsistent(t: Trace, events: seq<Event>)
    requires Consistent(t)
    ensures Consistent(After(t, events))
  {
    if events == [] {
    } else {
      RunsStayConsistent(t, events[..|events| - 1]);
      StepStaysConsistent(After(t, events[..|events| - 1]), Last(events));
    }
  }

  /** A job that never ran. */
  function New(clock: int, config: Config): Trace {
    Trace(Clocked(clock, ZERO_TIME, ZERO_TIME, config), [])
  }

  /** HasRunBefore tells, over any run of a new job, whether an execution was recorded. */
  lemma {:induction false} HasRunBeforeIff(clock: int, config: Config, events: seq<Event>)
    requires clock > ZERO_TIME
    ensures var t := After(New(clock, config), events);
            t.job.lastRun != ZERO_TIME <==> exists r :: r in t.runs && r.interval.Some?
  {
    RunsStayConsistent(New(clock, config), events);
    LastRecordedIsRun(After(New(clock, config), events).runs);
  }

  // ---------- spacing ----------

  ghost predicate Spaced(runs: seq<Run>) {
    forall i | 0 <= i < |runs| - 1 :: runs[i + 1].at - runs[i].at >= Max(0, OrZero(runs[i].interval))
  }

  lemma {:induction false} SpacedAppend(runs: seq<Run>, r: Run)
    requires Spaced(runs)
    requires runs != [] ==> r.at - Last(runs).at >= Max(0, OrZero(Last(runs).interval))
    ensures Spaced(runs + [r])
  {
  }

  lemma {:induction false} StepStaysSpaced(t: Trace, e: Event)
    requires Consistent(t) && Spaced(t.runs)
    ensures Spaced(Step(t, e).runs)
  {
    if t.runs != [] {
      assert Last(t.runs) in t.runs;
    }
    if e.Turn? {
      RunTime(t, e);
      SpacedAppend(t.runs, Last(Step(t, e).runs));
    } else if t.job.lastRun == ZERO_TIME && e.config.startImmediately {
      SpacedAppend(t.runs, Run(t.job.now + e.idle, Interval(e.config)));
    }
  }

  /** Whatever happens to the config, to the clock and to the loops, any execution, recorded or not, is
      followed by the next at the earliest after the interval that was in effect at it. */
  lemma {:induction false} RunsAreSpaced(t: Trace, events: seq<Event>)
    requires Consistent(t) && Spaced(t.runs)
    ensures Spaced(After(t, events).runs)
  {
    if events == [] {
    } else {
      RunsStayConsistent(t, events[..|events| - 1]);
      RunsAreSpaced(t, events[..|events| - 1]);
      StepStaysSpaced(After(t, events[..|events| - 1]), Last(events));
    }
  }

  /** So two recorded runs, whatever ran in between, are at least the interval apart that was in effect at
      the first. */
  lemma {:induction false} RecordedRunsAreSpaced(t: Trace, events: seq<Event>, i: nat, j: nat)
    requires Consistent(t) && Spaced(t.runs) && i < j < |After(t, events).runs|
    ensures var runs := After(t, events).runs;
            runs[j].at - runs[i].at >= Max(0, OrZero(runs[i].interval))
  {
    RunsAreSpaced(t, events);
    SpacedTimesGrow(After(t, events).runs, i + 1, j);
  }

  lemma {:induction false} SpacedTimesGrow(runs: seq<Run>, i: nat, j: nat)
    requires Spaced(runs) && i <= j < |runs|
    ensures runs[i].at <= runs[j].at
  {
    if i == j {
    } else {
      SpacedTimesGrow(runs, i, j - 1);
    }
  }

  lemma {:induction false} SpacedFar(runs: seq<Run>, d: nat, i: nat, j: nat)
    requires Spaced(runs) && i <= j < |runs|
    requires forall k | i <= k < j :: OrZero(runs[k].interval) >= d
    ensures runs[j].at - runs[i].at >= (j - i) * d
  {
    if i == j {
    } else {
      SpacedFar(runs, d, i, j - 1);
      assert (j - i) * d == (j - 1 - i) * d + d;
    }
  }

  lemma {:induction false} TimesGrows(a: nat, b: nat, d: nat)
    requires a <= b
    ensures a * d <= b * d
  {
  }

  lemma {:induction false} QuotientStep(w: nat, d: nat)
    requires d > 0
    ensures w < (w / d + 1) * d
  {
    var q := w / d;
    assert (q + 1) * d == q * d + d;
  }

  lemma {:induction false} AtMostQuotient(m: nat, d: nat, w: nat)
    requires d > 0 && m * d <= w
    ensures m <= w / d
  {
    QuotientStep(w, d);
    if m > w / d {
      TimesGrows(w / d + 1, m, d);
    }
  }

  /** A window of length w holds at most w / d + 1 executions when every interval is at least d. */
  lemma {:induction false} RateIsBounded(t: Trace, events: seq<Event>, d: nat, w: nat, i: nat, j: nat)
    requires Consistent(t) && Spaced(t.runs) && d > 0
    requires var runs := After(t, events).runs;
             && i <= j < |runs| && runs[j].at - runs[i].at <= w
             && (forall k | i <= k < j :: OrZero(runs[k].interval) >= d)
    ensures j - i + 1 <= w / d + 1
  {
    RunsAreSpaced(t, events);
    SpacedFar(After(t, events).runs, d, i, j);
    AtMostQuotient(j - i, d, w);
  }

  // ---------- when exactly the loop paces its job ----------

  /** n turns of a loop that is never late. */
  function Prompt(config: Config, n: nat): seq<Event> {
    seq(n, _ => Turn(0, config, 0, config))
  }

  /** The job has just run by this config. */
  predicate Settled(t: Trace, config: Config) {
    && Consistent(t) && t.runs != []
    && Last(t.runs) == Run(t.job.now, Interval(config))
  }

  lemma {:induction false} TurnSettles(t: Trace, e: Event)
    requires Consistent(t) && e.Turn?
    ensures Settled(Step(t, e), e.configThen)
  {
    StepStaysConsistent(t, e);
    RunTime(t, e);
  }

  lemma {:induction false} TimesNext(n: nat, d: nat)
    ensures (n + 1) * d == n * d + d
  {
  }

  lemma {:induction false} PromptStep(t: Trace, config: Config)
    requires Settled(t, config)
    ensures var t' := Step(t, Turn(0, config, 0, config));
            && Settled(t', config) && |t'.runs| == |t.runs| + 1
            && t'.job.now == t.job.now + Max(0, OrZero(Interval(config)))
  {
    var e := Turn(0, config, 0, config);
    TurnSettles(t, e);
    RunTime(t, e);
  }

  /** A loop that is never late runs its job n times in exactly n intervals, and in no time at all if the
      interval is not positive or the kind of schedule is unknown, whatever ran before. */
  lemma {:induction false} PromptLoopIsExact(t: Trace, e: Event, n: nat)
    requires Consistent(t) && e.Turn?
    ensures var c, t', t'' := e.configThen, Step(t, e), After(Step(t, e), Prompt(e.configThen, n));
            && Settled(t'', c) && |t''.runs| == |t'.runs| + n
            && t''.job.now == t'.job.now + n * Max(0, OrZero(Interval(c)))
  {
    var c := e.configThen;
    if n == 0 {
      TurnSettles(t, e);
    } else {
      PromptLoopIsExact(t, e, n - 1);
      assert Prompt(c, n)[..n - 1] == Prompt(c, n - 1);
      PromptStep(After(Step(t, e), Prompt(c, n - 1)), c);
      TimesNext(n - 1, Max(0, OrZero(Interval(c))));
    }
  }

  /** So after any turn, n more executions can follow in the same instant exactly when the interval is not
      positive. */
  lemma {:induction false} SameInstantIff(t: Trace, e: Event, n: nat)
    requires Consistent(t) && e.Turn? && n > 0
    ensures After(Step(t, e), Prompt(e.configThen, n)).job.now == Step(t, e).job.now <==>
            OrZero(Interval(e.configThen)) <= 0
  {
    PromptLoopIsExact(t, e, n);
    var d := Max(0, OrZero(Interval(e.configThen)));
    TimesGrows(1, n, d);
  }

  ghost predicate Uses(events: seq<Event>, config: Config) {
    forall i | 0 <= i < |events| :: events[i].config == config && (events[i].Turn? ==> events[i].configThen == config)
  }

  ghost predicate Apart(runs: seq<Run>, d: nat) {
    forall i | 0 <= i < |runs| - 1 :: runs[i + 1].at - runs[i].at >= d
  }

  ghost predicate AlwaysApart(config: Config, d: nat) {
    forall clock, events | clock > ZERO_TIME && Uses(events, config) :: Apart(After(New(clock, config), events).runs, d)
  }

  lemma {:induction false} RunsUse(t: Trace, events: seq<Event>, config: Config)
    requires Uses(events, config) && forall r | r in t.runs :: r.interval == Interval(config)
    ensures forall r | r in After(t, events).runs :: r.interval == Interval(config)
  {
    if events == [] {
    } else {
      RunsUse(t, events[..|events| - 1], config);
    }
  }

  /** A config keeps the executions of a job at least d apart, in every run, exactly when its interval is
      known and at least d. */
  lemma {:induction false} PacedIff(config: Config, d: nat)
    requires d > 0
    ensures AlwaysApart(config, d) <==> OrZero(Interval(config)) >= d
  {
    if OrZero(Interval(config)) >= d {
      forall clock, events | clock > ZERO_TIME && Uses(events, config)
        ensures Apart(After(New(clock, config), events).runs, d)
      {
        RunsAreSpaced(New(clock, config), events);
        RunsUse(New(clock, config), events, config);
      }
    } else {
      TwoPromptTurns(config);
    }
  }

  lemma {:induction false} TwoPromptTurns(config: Config)
    ensures var runs := After(New(1, config), Prompt(config, 2)).runs;
            |runs| == 2 && runs[1].at - runs[0].at == Max(0, OrZero(Interval(config)))
    ensures Uses(Prompt(config, 2), config)
  {
    var t, e := New(1, config), Turn(0, config, 0, config);
    assert Prompt(config, 2)[..1] == [e] && [e][..0] == [];
    assert After(t, [e]) == Step(t, e);
    TurnSettles(t, e);
    PromptStep(Step(t, e), config);
  }

  // ---------- a loop that is back in time ----------

  function TotalLateness(events: seq<Event>): nat {
    if events == [] then 0
    else TotalLateness(events[..|events| - 1]) + if Last(events).Turn? then Last(events).late else 0
  }

  ghost predicate Steady(events: seq<Event>, d: nat) {
    forall i | 0 <= i < |events| :: events[i].Turn? && events[i].idle <= d && Interval(events[i].configThen) == Some(d)
  }

  lemma {:induction false} SteadyStep(t: Trace, e: Event, d: nat)
    requires Consistent(t) && t.runs != [] && Last(t.runs) == Run(t.job.now, Some(d))
    requires e.Turn? && e.idle <= d && Interval(e.configThen) == Some(d)
    ensures Step(t, e).runs == t.runs + [Run(t.job.now + d + e.late, Some(d))]
    ensures Step(t, e).job.now == t.job.now + d + e.late
  {
    RunTime(t, e);
  }

  /** A loop that is back in time never skips a run, and its lag is exactly the sum of its latenesses. */
  lemma {:induction false} SteadyLoopIsExact(t: Trace, events: seq<Event>, d: nat)
    requires Consistent(t) && t.runs != [] && Last(t.runs) == Run(t.job.now, Some(d))
    requires Steady(events, d)
    ensures var t' := After(t, events);
            && |t'.runs| == |t.runs| + |events|
            && t'.job.now == t.job.now + |events| * d + TotalLateness(events)
            && Last(t'.runs) == Run(t'.job.now, Some(d))
  {
    if events == [] {
    } else {
      var init := events[..|events| - 1];
      SteadyLoopIsExact(t, init, d);
      RunsStayConsistent(t, init);
      SteadyStep(After(t, init), Last(events), d);
      TimesNext(|init|, d);
    }
  }

  /** What the beginning of a loop does: it runs the job at once exactly when no run of it is recorded and its
      config says so, and else nothing. */
  lemma {:induction false} BeginIff(t: Trace, begin: Event)
    requires Consistent(t) && begin.Begin?
    ensures var first := !(exists r :: r in t.runs && r.interval.Some?);
            Step(t, begin).runs == t.runs +
              if first && begin.config.startImmediately then [Run(t.job.now + begin.idle, Interval(begin.config))]
              else []
    ensures Step(t, begin).job.now == t.job.now + begin.idle && Step(t, begin).job.config == begin.config
  {
    LastRecordedIsRun(t.runs);
  }

  /** So after any history, a loop that begins and takes n turns runs its job n times, and once more if it
      starts it immediately. */
  lemma {:induction false} ExecutionsOfLoop(t: Trace, begin: Event, turns: seq<Event>)
    requires begin.Begin? && forall e | e in turns :: e.Turn?
    ensures |After(t, [begin] + turns).runs| ==
            |t.runs| + |turns| + if t.job.lastRun == ZERO_TIME && begin.config.startImmediately then 1 else 0
  {
    if turns == [] {
      assert [begin] + turns == [begin] && [begin][..0] == [];
      assert After(t, []) == t;
    } else {
      var init := turns[..|turns| - 1];
      assert ([begin] + turns)[..|turns|] == [begin] + init;
      ExecutionsOfLoop(t, begin, init);
      assert Last(turns) in turns;
    }
  }

  /** A job that does not start immediately runs for the first time when its interval has passed. */
  lemma {:induction false} FirstRunWaits(t: Trace, begin: Event, turn: Event)
    requires Consistent(t) && t.runs == [] && begin.Begin? && !begin.config.startImmediately && turn.Turn?
    ensures var wait := Max(0, OrZero(Interval(turn.config)));
            Step(Step(t, begin), turn).runs ==
            [Run(t.job.now + begin.idle + turn.idle + wait + turn.late, Interval(turn.configThen))]
  {
  }

  // ---------- the loop itself ----------

  ghost function Now(job: SchedulerJob, now: int): Clocked
    reads job
  {
    Clocked(now, job.lastRun, job.nextRun, job.panopticConfig)
  }

  /** ScheduleSingleJob, from its start to the cancellation that follows the last turn. */
  method ScheduleSingleJob(job: SchedulerJob, clock: int, begin: Event, turns: seq<Event>)
      returns (executions: nat, now: int, ghost t: Trace)
    requires begin.Begin? && forall e | e in turns :: e.Turn?
    modifies job`lastRun, job`nextRun, job`panopticConfig
    ensures t == After(Trace(old(Now(job, clock)), []), [begin] + turns)
    ensures Now(job, now) == t.job && executions == |t.runs|
    ensures executions == |turns| + if old(job.lastRun) == ZERO_TIME && begin.config.startImmediately then 1 else 0
  {
    ghost var t0 := Trace(Now(job, clock), []);
    executions, now := Start(job, clock, begin);
    AfterBegin(t0, begin, turns);
    for i := 0 to |turns|
      invariant Reached(t0, begin, turns, i, Now(job, now), executions)
    {
      now := IterateAt(job, now, t0, begin, turns, i, executions);
      executions := executions + 1;
    }
    assert turns[..|turns|] == turns;
    t := After(t0, [begin] + turns);
    ExecutionsOfLoop(t0, begin, turns);
  }

  /** Where the loop stands after i turns. */
  ghost predicate Reached(t0: Trace, begin: Event, turns: seq<Event>, i: nat, job: Clocked, executions: nat) {
    && i <= |turns|
    && var t := After(t0, [begin] + turns[..i]);
       job == t.job && executions == |t.runs|
  }

  lemma {:induction false} AfterBegin(t0: Trace, begin: Event, turns: seq<Event>)
    ensures After(t0, [begin] + turns[..0]) == Step(t0, begin)
  {
    assert [begin] + turns[..0] == [begin] && [begin][..0] == [];
    assert After(t0, []) == t0;
  }

  /** The i-th pass of the loop. */
  method IterateAt(job: SchedulerJob, clock: int, ghost t0: Trace, ghost begin: Event, turns: seq<Event>, i: nat,
      ghost executions: nat) returns (now: int)
    requires i < |turns| && turns[i].Turn? && Reached(t0, begin, turns, i, Now(job, clock), executions)
    modifies job`lastRun, job`nextRun, job`panopticConfig
    ensures Reached(t0, begin, turns, i + 1, Now(job, now), executions + 1)
  {
    now := Iterate(job, clock, turns[i], After(t0, [begin] + turns[..i]));
    AfterNext(t0, [begin] + turns[..i], turns[i]);
    assert [begin] + turns[..i + 1] == [begin] + turns[..i] + [turns[i]];
  }

  /** What comes before the loop. */
  method Start(job: SchedulerJob, clock: int, begin: Event) returns (executions: nat, now: int)
    requires begin.Begin?
    modifies job`lastRun, job`nextRun, job`panopticConfig
    ensures var t := Step(Trace(old(Now(job, clock)), []), begin);
            Now(job, now) == t.job && executions == |t.runs|
  {
    now := clock + begin.idle;
    job.panopticConfig := begin.config;
    executions := 0;
    var before := job.HasRunBefore();
    if !before && job.panopticConfig.startImmediately {
      var _ := job.UpdateLastAndNextTime(now);
      executions := 1;
    }
  }

  /** One pass of the loop. */
  method Iterate(job: SchedulerJob, clock: int, turn: Event, ghost t: Trace) returns (now: int)
    requires turn.Turn? && Now(job, clock) == t.job
    modifies job`lastRun, job`nextRun, job`panopticConfig
    ensures Now(job, now) == Step(t, turn).job
    ensures |Step(t, turn).runs| == |t.runs| + 1
  {
    now := clock + turn.idle;
    job.panopticConfig := turn.config;
    var wait := job.DurationTillNextRun(now);
    now := now + (if wait > 0 then wait else 0) + turn.late;
    job.panopticConfig := turn.configThen;
    var _ := job.UpdateLastAndNextTime(now);
  }

  lemma {:induction false} AfterNext(t: Trace, events: seq<Event>, e: Event)
    ensures After(t, events + [e]) == Step(After(t, events), e)
  {
    assert (events + [e])[..|events|] == events;
  }
}
