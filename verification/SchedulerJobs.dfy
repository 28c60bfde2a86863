/**
 panoptic/modules/scheduler_job.go: splitting a crawl config into jobs, and how the jobs are named.
 Integers of the source are 64 bits wide, so the addition that can wrap is written out.
 */
module SchedulerJobs {
  import opened Wrappers
  import opened Sequences

  const INT64_MAX := 0x7fff_ffff_ffff_ffff
  const TWO_64 := 0x1_0000_0000_0000_0000

  datatype Schedule = Routinely(everyMilliseconds: int) | Unknown

  /** PanopticConfig with its task parameters. */
  datatype Config = Config(
    name: string,
    subSources: seq<string>,
    maxSubsourcePerTask: int,
    startImmediately: bool,
    schedule: Schedule)

  predicate Int64(x: int) {
    -INT64_MAX - 1 <= x <= INT64_MAX
  }

  /** Two's complement wrap-around of a 64-bit result. */
  function Wrap64(x: int): (r: int)
    ensures Int64(r)
    ensures Int64(x) ==> r == x
  {
    var m := x % TWO_64;
    if m <= INT64_MAX then m else m - TWO_64
  }

  /** Nothing but a multiple of 2 to the 64th is lost, and that determines the result. */
  lemma {:induction false} WrapIsCongruent(x: int, r: int)
    requires Int64(r)
    ensures r == Wrap64(x) <==> exists k :: x - r == k * 0x1_0000_0000_0000_0000
  {
    var m, k := x % TWO_64, x / TWO_64;
    assert x == k * TWO_64 + m;
    if r == Wrap64(x) {
      if m <= INT64_MAX {
        assert x - r == k * 0x1_0000_0000_0000_0000;
      } else {
        assert x - r == (k + 1) * 0x1_0000_0000_0000_0000;
      }
    }
    if l :| x - r == l * 0x1_0000_0000_0000_0000 {
      assert Wrap64(x) - r == (if m <= INT64_MAX then l - k else l - k - 1) * 0x1_0000_0000_0000_0000;
    }
  }

  // ---------- job names ----------

  function Digit(d: nat): char
    requires d < 10
  {
    "0123456789"[d]
  }

  /** The %d verb */
  function Decimal(n: nat): string {
    if n < 10 then [Digit(n)] else Decimal(n / 10) + [Digit(n % 10)]
  }

  /** The %s-%d format */
  function BatchName(name: string, k: nat): string {
    name + "-" + Decimal(k)
  }

  lemma {:induction false} DigitIsInjective(a: nat, b: nat)
    requires a < 10 && b < 10 && Digit(a) == Digit(b)
    ensures a == b
  {
  }

  /** The number that a string of digits stands for. */
  function ReadDecimal(s: string): int {
    if s == [] then 0 else 10 * ReadDecimal(s[..|s| - 1]) + (Last(s) as int - '0' as int)
  }

  lemma {:induction false} DigitValue(d: nat)
    requires d < 10
    ensures '0' <= Digit(d) <= '9' && Digit(d) as int - '0' as int == d
  {
  }

  lemma {:induction false} ReadOneMore(s: string, c: char)
    ensures ReadDecimal(s + [c]) == 10 * ReadDecimal(s) + (c as int - '0' as int)
  {
    assert (s + [c])[..|s|] == s && Last(s + [c]) == c;
  }

  /** Printing a number in decimal: digits only, none of them a leading zero, and it reads back. */
  lemma {:induction false} DecimalReadsBack(n: nat)
    ensures Decimal(n) != [] && (forall c | c in Decimal(n) :: '0' <= c <= '9')
    ensures Decimal(n)[0] == '0' ==> n == 0
    ensures ReadDecimal(Decimal(n)) == n
  {
    DigitValue(n % 10);
    if n < 10 {
      ReadOneMore([], Digit(n));
      assert [] + [Digit(n)] == [Digit(n)];
    } else {
      DecimalReadsBack(n / 10);
      ReadOneMore(Decimal(n / 10), Digit(n % 10));
      assert Decimal(n)[0] == Decimal(n / 10)[0];
    }
  }

  lemma {:induction false} DecimalHasNoDash(n: nat)
    ensures Decimal(n) != [] && '-' !in Decimal(n)
  {
    if n < 10 {
    } else {
      DecimalHasNoDash(n / 10);
    }
  }

  lemma {:induction false} DecimalIsInjective(a: nat, b: nat)
    requires Decimal(a) == Decimal(b)
    ensures a == b
  {
    DecimalHasNoDash(a / 10);
    DecimalHasNoDash(b / 10);
    if a < 10 && b < 10 {
      assert Decimal(a)[0] == Decimal(b)[0];
      DigitIsInjective(a, b);
    } else if a >= 10 && b >= 10 {
      var p, q := Decimal(a / 10), Decimal(b / 10);
      assert Decimal(a)[..|p|] == p && Decimal(b)[..|q|] == q;
      assert Decimal(a)[|p|] == Digit(a % 10) && Decimal(b)[|q|] == Digit(b % 10);
      DecimalIsInjective(a / 10, b / 10);
      DigitIsInjective(a % 10, b % 10);
    }
  }

  lemma {:induction false} NoDashBehind(name: string, k: nat, i: nat)
    requires |name| < i < |BatchName(name, k)|
    ensures BatchName(name, k)[i] != '-'
  {
    DecimalHasNoDash(k);
    assert BatchName(name, k)[i] == Decimal(k)[i - |name| - 1];
  }

  /** What stands before the last dash, and the number behind it, can be read back. */
  lemma {:induction false} BatchNameIsInjective(name1: string, k1: nat, name2: string, k2: nat)
    requires BatchName(name1, k1) == BatchName(name2, k2)
    ensures name1 == name2 && k1 == k2
  {
    var full1, full2 := BatchName(name1, k1), BatchName(name2, k2);
    assert full1[|name1|] == '-' && full2[|name2|] == '-';
    if |name1| < |name2| {
      NoDashBehind(name1, k1, |name2|);
    } else if |name2| < |name1| {
      NoDashBehind(name2, k2, |name1|);
    } else {
      assert full1[..|name1|] == name1 && full2[..|name2|] == name2;
      assert full1[|name1| + 1..] == Decimal(k1) && full2[|name2| + 1..] == Decimal(k2);
      DecimalIsInjective(k1, k2);
    }
  }

  // ---------- splitting ----------

  /** The subsources cut into pieces of b. */
  function Chunks(subs: seq<string>, b: nat): seq<seq<string>>
    requires b > 0
  {
    if subs == [] then []
    else if |subs| <= b then [subs]
    else [subs[..b]] + Chunks(subs[b..], b)
  }

  function Flatten(chunks: seq<seq<string>>): seq<string> {
    if chunks == [] then [] else chunks[0] + Flatten(chunks[1..])
  }

  predicate IsSplit(config: Config) {
    config.maxSubsourcePerTask > 0
  }

  /** The configs of the jobs that one config becomes. */
  function Batches(config: Config): seq<Config> {
    if !IsSplit(config) then [config]
    else
      var chunks := Chunks(config.subSources, config.maxSubsourcePerTask);
      seq(|chunks|, i requires 0 <= i < |chunks| =>
            config.(name := BatchName(config.name, i), subSources := chunks[i]))
  }

  /** n / b, rounded up. */
  function Ceil(n: nat, b: nat): nat
    requires b > 0
  {
    (n + b - 1) / b
  }

  lemma {:induction false} ChunkCount(subs: seq<string>, b: nat, k: nat)
    requires b > 0
    ensures k < |Chunks(subs, b)| <==> k * b < |subs|
  {
    if k == 0 {
    } else if |subs| <= b {
      assert k * b == (k - 1) * b + b && (k - 1) * b >= 0;
    } else {
      ChunkCount(subs[b..], b, k - 1);
      assert k * b == (k - 1) * b + b;
    }
  }

  lemma {:induction false} ChunkCountIsCeil(subs: seq<string>, b: nat)
    requires b > 0
    ensures |Chunks(subs, b)| == Ceil(|subs|, b)
  {
    var q, r := Ceil(|subs|, b), (|subs| + b - 1) % b;
    assert q * b + r == |subs| + b - 1;
    ChunkCount(subs, b, q);
    if q > 0 {
      ChunkCount(subs, b, q - 1);
      assert (q - 1) * b == q * b - b;
    }
  }

  lemma {:induction false} ChunksFlatten(subs: seq<string>, b: nat)
    requires b > 0
    ensures Flatten(Chunks(subs, b)) == subs
  {
    if subs == [] {
    } else if |subs| <= b {
      assert Chunks(subs, b) == [subs] && [subs][1..] == [];
      assert Flatten([subs]) == subs + Flatten([]);
    } else {
      ChunksFlatten(subs[b..], b);
      assert Chunks(subs, b)[1..] == Chunks(subs[b..], b);
      assert subs == subs[..b] + subs[b..];
    }
  }

  lemma {:induction false} ChunkSizes(subs: seq<string>, b: nat, i: nat)
    requires b > 0 && i < |Chunks(subs, b)|
    ensures i + 1 < |Chunks(subs, b)| ==> |Chunks(subs, b)[i]| == b
    ensures 1 <= |Chunks(subs, b)[i]| <= b
  {
    if |subs| <= b || i == 0 {
    } else {
      ChunkSizes(subs[b..], b, i - 1);
    }
  }

  function SubSourcesOf(jobs: seq<Config>): (r: seq<seq<string>>)
    ensures |r| == |jobs| && forall i | 0 <= i < |jobs| :: r[i] == jobs[i].subSources
  {
    seq(|jobs|, i requires 0 <= i < |jobs| => jobs[i].subSources)
  }

  lemma {:induction false} BatchAt(config: Config, i: nat)
    requires IsSplit(config) && i < |Batches(config)|
    ensures |Batches(config)| == |Chunks(config.subSources, config.maxSubsourcePerTask)|
    ensures Batches(config)[i] == config.(name := BatchName(config.name, i),
              subSources := Chunks(config.subSources, config.maxSubsourcePerTask)[i])
  {
  }

  lemma {:induction false} SubSourcesOfBatches(config: Config)
    requires IsSplit(config)
    ensures SubSourcesOf(Batches(config)) == Chunks(config.subSources, config.maxSubsourcePerTask)
  {
    forall i | 0 <= i < |Batches(config)|
      ensures Batches(config)[i].subSources == Chunks(config.subSources, config.maxSubsourcePerTask)[i]
    {
      BatchAt(config, i);
    }
  }

  /** The jobs of one split config: nothing lost, repeated or reordered; every job full but the last;
      the names all different; every other setting kept. */
  ghost predicate ExactSplit(config: Config, jobs: seq<Config>)
    requires config.maxSubsourcePerTask > 0
  {
    var b := config.maxSubsourcePerTask;
    && |jobs| == Ceil(|config.subSources|, b)
    && Flatten(SubSourcesOf(jobs)) == config.subSources
    && (forall i | 0 <= i < |jobs| - 1 :: |jobs[i].subSources| == b)
    && (jobs != [] ==> 1 <= |Last(jobs).subSources| <= b)
    && (forall i, j | 0 <= i < j < |jobs| :: jobs[i].name != jobs[j].name)
    && (forall i | 0 <= i < |jobs| :: jobs[i].name == config.name + "-" + Decimal(i))
    && (forall i | 0 <= i < |jobs| :: jobs[i].(name := config.name, subSources := config.subSources) == config)
  }

  lemma {:induction false} SplitIsExact(config: Config)
    ensures config.maxSubsourcePerTask > 0 ==> ExactSplit(config, Batches(config))
    ensures config.maxSubsourcePerTask <= 0 ==> Batches(config) == [config]
  {
    if IsSplit(config) {
      var subs, b := config.subSources, config.maxSubsourcePerTask;
      var jobs, chunks := Batches(config), Chunks(subs, b);
      ChunkCountIsCeil(subs, b);
      ChunksFlatten(subs, b);
      SubSourcesOfBatches(config);
      forall i | 0 <= i < |jobs|
        ensures i < |jobs| - 1 ==> |jobs[i].subSources| == b
        ensures 1 <= |jobs[i].subSources| <= b
        ensures jobs[i].name == config.name + "-" + Decimal(i)
        ensures jobs[i].(name := config.name, subSources := config.subSources) == config
      {
        BatchAt(config, i);
        ChunkSizes(subs, b, i);
      }
      NamesOfOneConfigDiffer(config);
    }
  }

  lemma {:induction false} NamesOfOneConfigDiffer(config: Config)
    ensures DistinctNames(Batches(config))
  {
    forall i, j | 0 <= i < j < |Batches(config)|
      ensures Batches(config)[i].name != Batches(config)[j].name
    {
      if Batches(config)[i].name == Batches(config)[j].name {
        BatchNameIsInjective(config.name, i, config.name, j);
      }
    }
  }

  // ---------- when a whole batch of configs is accepted ----------

  function AllBatches(configs: seq<Config>): seq<Config> {
    if configs == [] then [] else AllBatches(configs[..|configs| - 1]) + Batches(Last(configs))
  }

  /** The jobs of a list of configs come in the order of the configs, those of each config together. */
  lemma {:induction false} AllBatchesInOrder(before: seq<Config>, behind: seq<Config>, config: Config)
    ensures AllBatches(before + behind) == AllBatches(before) + AllBatches(behind)
    ensures AllBatches([config]) == Batches(config)
  {
    assert AllBatches([config]) == AllBatches([]) + Batches(config);
    if behind == [] {
      assert before + behind == before;
    } else {
      var init := behind[..|behind| - 1];
      assert (before + behind)[..|before + behind| - 1] == before + init && Last(before + behind) == Last(behind);
      AllBatchesInOrder(before, init, config);
    }
  }

  ghost predicate DistinctNames(jobs: seq<Config>) {
    forall i, j | 0 <= i < j < |jobs| :: jobs[i].name != jobs[j].name
  }

  ghost predicate HasJobNamed(config: Config, name: string) {
    exists k | 0 <= k < |Batches(config)| :: Batches(config)[k].name == name
  }

  /** One of the names that the split of one config generates is the other config's own name. */
  ghost predicate Generates(split: Config, name: string)
    requires IsSplit(split)
  {
    exists k: nat | k < Ceil(|split.subSources|, split.maxSubsourcePerTask) :: name == BatchName(split.name, k)
  }

  /** Two configs produce a job of the same name. */
  ghost predicate Clash(a: Config, b: Config) {
    if IsSplit(a) && IsSplit(b) then a.name == b.name && a.subSources != [] && b.subSources != []
    else if IsSplit(a) then Generates(a, b.name)
    else if IsSplit(b) then Generates(b, a.name)
    else a.name == b.name
  }

  ghost predicate SharesName(a: Config, b: Config) {
    exists name :: HasJobNamed(a, name) && HasJobNamed(b, name)
  }

  lemma {:induction false} NamesOfSplit(config: Config, name: string)
    requires IsSplit(config)
    ensures HasJobNamed(config, name) <==> Generates(config, name)
  {
    SplitIsExact(config);
    if HasJobNamed(config, name) {
      var k :| 0 <= k < |Batches(config)| && Batches(config)[k].name == name;
      assert name == BatchName(config.name, k);
    }
    if Generates(config, name) {
      var k: nat :| k < Ceil(|config.subSources|, config.maxSubsourcePerTask) && name == BatchName(config.name, k);
      assert Batches(config)[k].name == name;
    }
  }

  lemma {:induction false} NamesOfWhole(config: Config, name: string)
    requires !IsSplit(config)
    ensures HasJobNamed(config, name) <==> name == config.name
  {
    assert Batches(config)[0].name == config.name;
  }

  lemma {:induction false} SplitsShareName(a: Config, b: Config)
    requires IsSplit(a) && IsSplit(b)
    ensures SharesName(a, b) <==> Clash(a, b)
  {
    if Clash(a, b) {
      ChunkCount(a.subSources, a.maxSubsourcePerTask, 0);
      ChunkCount(b.subSources, b.maxSubsourcePerTask, 0);
      assert Batches(a)[0].name == BatchName(a.name, 0) == Batches(b)[0].name;
      assert HasJobNamed(a, BatchName(a.name, 0)) && HasJobNamed(b, BatchName(a.name, 0));
    }
    if SharesName(a, b) {
      var name :| HasJobNamed(a, name) && HasJobNamed(b, name);
      var i :| 0 <= i < |Batches(a)| && Batches(a)[i].name == name;
      var j :| 0 <= j < |Batches(b)| && Batches(b)[j].name == name;
      BatchNameIsInjective(a.name, i, b.name, j);
    }
  }

  lemma {:induction false} ClashIff(a: Config, b: Config)
    ensures SharesName(a, b) <==> Clash(a, b)
  {
    if IsSplit(a) && IsSplit(b) {
      SplitsShareName(a, b);
    } else if IsSplit(a) {
      NamesOfSplit(a, b.name);
      forall name ensures HasJobNamed(b, name) <==> name == b.name { NamesOfWhole(b, name); }
    } else {
      forall name ensures HasJobNamed(a, name) <==> name == a.name { NamesOfWhole(a, name); }
      if IsSplit(b) {
        NamesOfSplit(b, a.name);
      } else {
        NamesOfWhole(b, a.name);
      }
    }
  }

  ghost predicate Named(jobs: seq<Config>, name: string) {
    exists i | 0 <= i < |jobs| :: jobs[i].name == name
  }

  lemma {:induction false} NamedInConcatenation(a: seq<Config>, b: seq<Config>, name: string)
    ensures Named(a + b, name) <==> Named(a, name) || Named(b, name)
  {
    var all := a + b;
    if Named(a, name) {
      var i :| 0 <= i < |a| && a[i].name == name;
      assert all[i].name == name;
    }
    if Named(b, name) {
      var j :| 0 <= j < |b| && b[j].name == name;
      assert all[|a| + j].name == name;
    }
  }

  ghost predicate SomeConfigNames(configs: seq<Config>, name: string) {
    exists m | 0 <= m < |configs| :: HasJobNamed(configs[m], name)
  }

  lemma {:induction false} AllBatchesNames(configs: seq<Config>, name: string)
    ensures Named(AllBatches(configs), name) <==> SomeConfigNames(configs, name)
  {
    if configs == [] {
    } else {
      var init, last := configs[..|configs| - 1], Last(configs);
      AllBatchesNames(init, name);
      NamedInConcatenation(AllBatches(init), Batches(last), name);
      assert HasJobNamed(last, name) <==> Named(Batches(last), name);
      if SomeConfigNames(init, name) {
        var m :| 0 <= m < |init| && HasJobNamed(init[m], name);
        assert HasJobNamed(configs[m], name);
      }
      if SomeConfigNames(configs, name) && !HasJobNamed(last, name) {
        var m :| 0 <= m < |configs| && HasJobNamed(configs[m], name);
        assert HasJobNamed(init[m], name);
      }
    }
  }

  ghost predicate NoClash(configs: seq<Config>) {
    forall i, j | 0 <= i < j < |configs| :: !Clash(configs[i], configs[j])
  }

  ghost predicate Apart(a: seq<Config>, b: seq<Config>) {
    forall i, j | 0 <= i < |a| && 0 <= j < |b| :: a[i].name != b[j].name
  }

  lemma {:induction false} DistinctAppend(a: seq<Config>, b: seq<Config>)
    ensures DistinctNames(a + b) <==> DistinctNames(a) && DistinctNames(b) && Apart(a, b)
  {
    var all := a + b;
    assert forall i | 0 <= i < |a| :: all[i] == a[i];
    assert forall j | 0 <= j < |b| :: all[|a| + j] == b[j];
  }

  ghost predicate LastClashes(configs: seq<Config>)
    requires configs != []
  {
    exists m | 0 <= m < |configs| - 1 :: Clash(configs[m], Last(configs))
  }

  lemma {:induction false} LastIsApartIff(configs: seq<Config>)
    requires configs != []
    ensures Apart(AllBatches(configs[..|configs| - 1]), Batches(Last(configs))) <==> !LastClashes(configs)
  {
    var init, last := configs[..|configs| - 1], Last(configs);
    var older, newer := AllBatches(init), Batches(last);
    if !Apart(older, newer) {
      var i, j :| 0 <= i < |older| && 0 <= j < |newer| && older[i].name == newer[j].name;
      var name := newer[j].name;
      AllBatchesNames(init, name);
      assert Named(older, name) && HasJobNamed(last, name);
      var m :| 0 <= m < |init| && HasJobNamed(init[m], name);
      assert SharesName(configs[m], last);
      ClashIff(configs[m], last);
    }
    if LastClashes(configs) {
      var m :| 0 <= m < |configs| - 1 && Clash(configs[m], last);
      ClashIff(configs[m], last);
      var name :| HasJobNamed(configs[m], name) && HasJobNamed(last, name);
      assert HasJobNamed(init[m], name);
      AllBatchesNames(init, name);
      var i :| 0 <= i < |older| && older[i].name == name;
      var j :| 0 <= j < |newer| && newer[j].name == name;
    }
  }

  /** A list of configs yields jobs with distinct names, and so is accepted, exactly when no two of
      its configs clash: equal names of the same kind, or a name that the other's split generates. */
  lemma {:induction false} AcceptedIff(configs: seq<Config>)
    ensures DistinctNames(AllBatches(configs)) <==> NoClash(configs)
  {
    if configs == [] {
    } else {
      var init, last := configs[..|configs| - 1], Last(configs);
      AcceptedIff(init);
      NamesOfOneConfigDiffer(last);
      DistinctAppend(AllBatches(init), Batches(last));
      LastIsApartIff(configs);
      assert forall i | 0 <= i < |init| :: init[i] == configs[i];
      assert NoClash(configs) <==> NoClash(init) && !LastClashes(configs);
    }
  }

  // ---------- the objects ----------

  /** The zero time.Time; no clock ever reads it. */
  const ZERO_TIME := 0
  const MILLISECOND := 1_000_000

  /** CalculateInterval in nanoseconds: the 64-bit product wraps around; an unknown schedule has none. */
  function Interval(config: Config): (r: Option<int>)
    ensures r.Some? ==> Int64(r.value)
  {
    match config.schedule
    case Routinely(ms) => Some(Wrap64(ms * MILLISECOND))
    case Unknown => None
  }

  function OrZero(duration: Option<int>): int {
    match duration
    case Some(d) => d
    case None => 0
  }

  /** Time.Sub saturates instead of wrapping around. */
  function Saturate64(x: int): (r: int)
    ensures Int64(r)
    ensures Int64(x) ==> r == x
    ensures x > 0x7fff_ffff_ffff_ffff ==> r == 0x7fff_ffff_ffff_ffff
    ensures x < -0x8000_0000_0000_0000 ==> r == -0x8000_0000_0000_0000
  {
    if x > INT64_MAX then INT64_MAX else if x < -INT64_MAX - 1 then -INT64_MAX - 1 else x
  }

  /** The interval is the configured one exactly when it fits: up to some 292 years. */
  lemma {:induction false} IntervalIsExactIff(config: Config)
    requires config.schedule.Routinely? && Int64(config.schedule.everyMilliseconds)
    ensures Interval(config) == Some(config.schedule.everyMilliseconds * 1_000_000) <==>
            -9_223_372_036_854 <= config.schedule.everyMilliseconds <= 9_223_372_036_854
  {
    var ms := config.schedule.everyMilliseconds;
    assert Int64(ms * MILLISECOND) <==> -9_223_372_036_854 <= ms <= 9_223_372_036_854;
    assert Int64(Wrap64(ms * MILLISECOND));
  }

  /** SchedulerJob; `cancelled` says whether its current context was cancelled. */
  class SchedulerJob {
    var lastRun: int
    var nextRun: int
    var panopticConfig: Config
    var cancelled: bool
    var runCount: int

    constructor (config: Config)
      ensures panopticConfig == config
      ensures lastRun == ZERO_TIME && nextRun == ZERO_TIME && runCount == 0 && !cancelled
    {
      lastRun, nextRun, panopticConfig, cancelled, runCount := ZERO_TIME, ZERO_TIME, config, false, 0;
    }

    method CalculateInterval() returns (duration: int, failed: bool)
      ensures failed <==> panopticConfig.schedule.Unknown?
      ensures duration == if failed then 0 else Interval(panopticConfig).value
    {
      match panopticConfig.schedule
      case Routinely(ms) => return Wrap64(ms * MILLISECOND), false;
      case Unknown => return 0, true;
    }

    method HasRunBefore() returns (r: bool)
      ensures r <==> lastRun != ZERO_TIME
    {
      r := lastRun != ZERO_TIME;
    }

    method DurationTillNextRun(now: int) returns (duration: int)
      ensures lastRun != ZERO_TIME ==> duration == Saturate64(nextRun - now)
      ensures lastRun == ZERO_TIME ==> duration == OrZero(Interval(panopticConfig))
    {
      var d, _ := CalculateInterval();
      var before := HasRunBefore();
      if !before {
        return d;
      }
      duration := Saturate64(nextRun - now);
    }

    method UpdateLastAndNextTime(now: int) returns (failed: bool)
      modifies this`lastRun, this`nextRun
      ensures failed <==> panopticConfig.schedule.Unknown?
      ensures failed ==> lastRun == old(lastRun) && nextRun == old(nextRun)
      ensures !failed ==> lastRun == now
      ensures !failed ==> nextRun == now + Wrap64(panopticConfig.schedule.everyMilliseconds * 1_000_000)
    {
      var duration, err := CalculateInterval();
      if err {
        return true;
      }
      lastRun := now;
      nextRun := lastRun + duration;
      failed := false;
    }
  }

  ghost function Configs(jobs: seq<SchedulerJob>): seq<Config>
    reads jobs
  {
    seq(|jobs|, i requires 0 <= i < |jobs| reads jobs => jobs[i].panopticConfig)
  }

  ghost predicate NewJobs(jobs: seq<SchedulerJob>)
    reads jobs
  {
    && (forall i, j | 0 <= i < j < |jobs| :: jobs[i] != jobs[j])
    && (forall j | j in jobs :: j.lastRun == ZERO_TIME && j.nextRun == ZERO_TIME && j.runCount == 0 && !j.cancelled)
  }

  /** MaybeSplitIntoMultipleSchedulerJobs: the loop cuts the list as Batches says, and its index never
      wraps around, for every 64-bit batch size and every list that fits in memory. */
  method MaybeSplitIntoMultipleSchedulerJobs(config: Config) returns (jobs: seq<SchedulerJob>)
    requires FitsMemory(config)
    ensures Configs(jobs) == Batches(config)
    ensures NewJobs(jobs) && fresh(jobs)
  {
    jobs := [];
    if config.maxSubsourcePerTask <= 0 {
      var job := new SchedulerJob(config);
      jobs := [job];
      return;
    }
    var subs := config.subSources;
    var batch := config.maxSubsourcePerTask;
    var processed, left, right, batchCount := 0, 0, 0, 0;
    assert subs[0..] == subs;
    while processed < |subs|
      invariant processed == right && batchCount == |jobs|
      invariant NewJobs(jobs) && fresh(jobs)
      invariant CutUpTo(config, right, batchCount)
      invariant Configs(jobs) == Batches(config)[..batchCount]
      decreases |subs| - processed
    {
      left := right;
      right := Wrap64(right + batch);
      if right > |subs| {
        right := |subs|;
      }
      CutNext(config, left, right, batchCount);
      jobs := AppendBatchJob(config, left, right, batchCount, jobs);
      processed := processed + (right - left);
      batchCount := batchCount + 1;
    }
  }

  /** The end of the loop's body: one more job. */
  method AppendBatchJob(config: Config, left: nat, right: nat, batchCount: nat, jobs: seq<SchedulerJob>)
      returns (r: seq<SchedulerJob>)
    requires left <= right <= |config.subSources| && NewJobs(jobs)
    ensures |r| == |jobs| + 1 && r[..|jobs|] == jobs && fresh(Last(r)) && NewJobs(r)
    ensures Configs(r) == Configs(jobs) + [config.(name := BatchName(config.name, batchCount),
            subSources := config.subSources[left..right])]
  {
    var job := NewBatchJob(config, left, right, batchCount);
    NewJobsAppend(jobs, [job]);
    r := jobs + [job];
  }

  method NewBatchJob(config: Config, left: nat, right: nat, batchCount: nat) returns (job: SchedulerJob)
    requires left <= right <= |config.subSources|
    ensures fresh(job) && NewJobs([job])
    ensures Configs([job]) == [config.(name := BatchName(config.name, batchCount),
            subSources := config.subSources[left..right])]
  {
    var c := config.(name := BatchName(config.name, batchCount));
    job := new SchedulerJob(c);
    job.panopticConfig := job.panopticConfig.(subSources := job.panopticConfig.subSources[left..right]);
  }

  /** The first count jobs hold the subsources up to right; a batch longer than the list ends it at once. */
  ghost predicate CutUpTo(config: Config, right: int, count: nat) {
    && IsSplit(config) && 0 <= right <= |config.subSources|
    && (right == 0 || right == |config.subSources| || config.maxSubsourcePerTask <= |config.subSources|)
    && count <= |Batches(config)|
    && Chunks(config.subSources, config.maxSubsourcePerTask)[count..] ==
       Chunks(config.subSources[right..], config.maxSubsourcePerTask)
  }

  lemma {:induction false} CutNext(config: Config, left: nat, right: nat, count: nat)
    requires CutUpTo(config, left, count) && left < |config.subSources|
    requires right == if left + config.maxSubsourcePerTask > |config.subSources| then |config.subSources|
             else left + config.maxSubsourcePerTask
    ensures CutUpTo(config, right, count + 1)
    ensures Batches(config)[..count + 1] ==
            Batches(config)[..count] + [config.(name := BatchName(config.name, count),
              subSources := config.subSources[left..right])]
  {
    var subs, b := config.subSources, config.maxSubsourcePerTask;
    var chunks := Chunks(subs, b);
    NextChunk(subs, b, left, right);
    assert chunks[count] == chunks[count..][0];
    assert chunks[count + 1..] == chunks[count..][1..];
  }

  ghost predicate FitsMemory(config: Config) {
    Int64(config.maxSubsourcePerTask) && |config.subSources| <= INT64_MAX / 2
  }

  lemma {:induction false} NewJobsAppend(a: seq<SchedulerJob>, b: seq<SchedulerJob>)
    requires NewJobs(a) && NewJobs(b) && (forall j | j in a :: j !in b)
    ensures NewJobs(a + b) && Configs(a + b) == Configs(a) + Configs(b)
  {
    forall i, j | 0 <= i < j < |a + b|
      ensures (a + b)[i] != (a + b)[j]
    {
      if i < |a| <= j {
        assert a[i] in a && b[j - |a|] in b;
      }
    }
  }

  /** NewSchedulerJobs: the jobs of all configs, one config after the other. */
  method NewSchedulerJobs(configs: seq<Config>) returns (jobs: seq<SchedulerJob>)
    requires forall c | c in configs :: FitsMemory(c)
    ensures Configs(jobs) == AllBatches(configs)
    ensures NewJobs(jobs) && fresh(jobs)
  {
    jobs := [];
    for i := 0 to |configs|
      invariant Configs(jobs) == AllBatches(configs[..i])
      invariant NewJobs(jobs) && fresh(jobs)
    {
      var more := MaybeSplitIntoMultipleSchedulerJobs(configs[i]);
      assert configs[..i + 1][..i] == configs[..i] && Last(configs[..i + 1]) == configs[i];
      NewJobsAppend(jobs, more);
      jobs := jobs + more;
    }
    assert configs[..|configs|] == configs;
  }

  lemma {:induction false} NextChunk(subs: seq<string>, b: nat, left: nat, right: nat)
    requires b > 0 && left < |subs|
    requires right == if left + b > |subs| then |subs| else left + b
    ensures Chunks(subs[left..], b) != []
    ensures Chunks(subs[left..], b)[0] == subs[left..right]
    ensures Chunks(subs[left..], b)[1..] == Chunks(subs[right..], b)
  {
    var rest := subs[left..];
    if |rest| > b {
      assert rest[..b] == subs[left..right] && rest[b..] == subs[right..];
    } else {
      assert subs[right..] == [] && rest == subs[left..right];
    }
  }
}
