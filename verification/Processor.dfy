/**
 The objects of publisher/processor.go: the database, and a processor with its cache of known ids. A
 restarted process is a new processor on the same database.
 */
module Processor {
  import opened Wrappers
  import opened Publisher

  class Database {
    var posts: seq<Post>
    var subSources: map<Key, string>

    constructor ()
      ensures posts == [] && subSources == map[]
    {
      posts, subSources := [], map[];
    }

  }

  class CrawlerMessageProcessor {
    const db: Database
    const lower: string -> string
    var existing: set<string>

    constructor (db: Database, lower: string -> string)
      ensures Valid() && this.db == db && this.lower == lower && existing == {}
    {
      this.db, this.lower, existing := db, lower, {};
    }

    /** Every cached id is the id of a stored row. */
    ghost predicate Valid()
      reads this, db
    {
      existing <= Ids(db.posts)
    }

    function State(): Tables
      reads this, db
    {
      Tables(db.posts, db.subSources, existing)
    }

    /** The answer is the database's, unless the id is not cached and the check fails: then it is no
        whatever is stored. Only positive answers are remembered, and they are always right. */
    method IsPostExist(id: string, d: Delivery) returns (r: bool)
      requires Valid()
      modifies this`existing
      ensures Valid()
      ensures r == FoundStored(old(State()), d, id)
      ensures (r <==> id in Ids(db.posts)) <==> !(d.lookupFails && id in Ids(db.posts) && id !in old(existing))
      ensures existing == old(existing) + if r then {id} else {}
    {
      if id in existing {
        return true;
      }
      r := !d.lookupFails && id in Ids(db.posts);
      if r {
        existing := existing + {id};
      }
    }

    // ---------- subsources ----------

    /** UpsertSubsourceImpl: the identifier is returned even when the row could not be created. */
    method UpsertSubSource(key: Key, d: Delivery) returns (id: string)
      modifies db`subSources
      ensures db.subSources == WithKeys(old(db.subSources), {key}, d)
      ensures id == IdOf(old(db.subSources), key, d)
    {
      if key in db.subSources {
        return db.subSources[key];
      }
      id := d.uuid(key);
      if key !in d.refused {
        db.subSources := db.subSources[key := id];
      }
    }

    method PrepareSubSourceRecursive(p: Crawled, d: Delivery) returns (r: Crawled)
      modifies db`subSources
      ensures r == Tagged(old(db.subSources), p, d)
      ensures db.subSources == WithKeys(old(db.subSources), Keys(p), d)
      decreases p
    {
      ghost var subs := db.subSources;
      ghost var keys := {p.subSource};
      var id := UpsertSubSource(p.subSource, d);
      r := p.(subSourceId := id);
      if p.sharedFrom.Some? {
        TaggedStable(subs, keys, p.sharedFrom.value, d);
        WithKeysTwice(subs, keys, Keys(p.sharedFrom.value), d);
        keys := keys + Keys(p.sharedFrom.value);
        var shared := PrepareSubSourceRecursive(p.sharedFrom.value, d);
        r := r.(sharedFrom := Some(shared));
      }
      if p.replyTo.Some? {
        TaggedStable(subs, keys, p.replyTo.value, d);
        WithKeysTwice(subs, keys, Keys(p.replyTo.value), d);
        keys := keys + Keys(p.replyTo.value);
        var parent := PrepareSubSourceRecursive(p.replyTo.value, d);
        r := r.(replyTo := Some(parent));
      }
      assert keys == Keys(p);
    }

    // ---------- the post ----------

    /** None stands for the error about an unknown subsource, which a failed read looks like. */
    method PreparePostChainFromMessage(p: Crawled, isRoot: bool, readFails: bool) returns (r: Option<Post>)
      ensures r.Some? <==> !readFails && Placed(db.subSources.Values, p, isRoot)
      ensures r.Some? ==> r.value == Built(p, isRoot)
      decreases p, 1
    {
      if readFails || p.subSourceId !in db.subSources.Values {
        return None;
      }
      var post := Post(p.deduplicateId, p.content, p.generatedAt, p.subSourceId, !isRoot, None, [], {});
      if p.sharedFrom.Some? {
        var shared := PreparePostChainFromMessage(p.sharedFrom.value, false, readFails);
        if shared.None? {
          return None;
        }
        post := post.(sharedFrom := shared);
      }
      if isRoot && p.replyTo.Some? {
        var thread := PrepareReplyThreadFromMessage(p.replyTo.value, readFails);
        if thread.None? {
          return None;
        }
        post := post.(replyThread := thread.value);
      }
      return Some(post);
    }

    method PrepareReplyThreadFromMessage(p: Crawled, readFails: bool) returns (r: Option<seq<Post>>)
      ensures r.Some? <==> !readFails && PlacedThread(db.subSources.Values, p)
      ensures r.Some? ==> r.value == BuiltThread(p)
      decreases p, 2
    {
      var res := [];
      var post := PreparePostChainFromMessage(p, false, readFails);
      if post.None? {
        return None;
      }
      res := res + [post.value];
      if p.replyTo.None? {
        return Some(res);
      }
      var parents := PrepareReplyThreadFromMessage(p.replyTo.value, readFails);
      if parents.None? {
        return None;
      }
      res := res + parents.value;
      return Some(res);
    }

    // ---------- feeds and channels ----------

    method PrepareFeedCandidates(feeds: seq<Feed>) returns (candidates: map<string, Feed>)
      ensures candidates == Candidates(feeds) && IsLastById(candidates, feeds)
    {
      CandidatesAreLastById(feeds);
      candidates := map[];
      for i := 0 to |feeds|
        invariant candidates == Candidates(feeds[..i])
      {
        assert feeds[..i + 1][..i] == feeds[..i];
        candidates := candidates[feeds[i].id := feeds[i]];
      }
      assert feeds[..|feeds|] == feeds;
    }

    /** MatchMessageWithFeeds: the goroutines finish in any order; one panic ends the process, else
        one error is the answer, else all feeds that match are. */
    method MatchMessageWithFeeds(candidates: map<string, Feed>, post: Post) returns (r: Outcome<set<string>>)
      ensures r.Panic? <==> SomeMatchPanics(lower, candidates, post)
      ensures r.Error? <==> SomeMatchFails(lower, candidates, post) && !SomeMatchPanics(lower, candidates, post)
      ensures r.Ok? ==> r.value == Matched(lower, candidates, post)
    {
      var running := candidates.Keys;
      var matched: set<string> := {};
      var failed := false;
      while running != {}
        invariant running <= candidates.Keys
        invariant matched == Matched(lower, candidates, post) - running
        invariant failed <==> exists id | id in candidates.Keys - running :: Match(lower, candidates[id], post).Error?
        invariant forall id | id in candidates.Keys - running :: !Match(lower, candidates[id], post).Panic?
        decreases running
      {
        var id :| id in running;
        running := running - {id};
        var answer := Match(lower, candidates[id], post);
        if answer.Panic? {
          return Panic;
        }
        if answer.Error? {
          failed := true;
        } else if answer.value {
          matched := matched + {id};
        }
      }
      return if failed then Error else Ok(matched);
    }

    /** Every channel that subscribes to one of the feeds is pushed to, once. */
    method PushToChannels(candidates: map<string, Feed>, feeds: set<string>) returns (pushed: seq<string>)
      requires feeds <= candidates.Keys
      ensures forall c :: c in pushed <==> c in Channels(candidates, feeds)
      ensures forall i, j | 0 <= i < j < |pushed| :: pushed[i] != pushed[j]
    {
      pushed := [];
      var unvisited := feeds;
      while unvisited != {}
        invariant unvisited <= feeds
        invariant forall c :: c in pushed <==> c in Channels(candidates, feeds - unvisited)
        invariant forall i, j | 0 <= i < j < |pushed| :: pushed[i] != pushed[j]
        decreases unvisited
      {
        var id :| id in unvisited;
        pushed := PushToNew(candidates[id].channels, pushed);
        ChannelsOfOneMore(candidates, feeds - unvisited, id);
        unvisited := unvisited - {id};
        assert feeds - unvisited == feeds - (unvisited + {id}) + {id};
      }
      assert feeds - unvisited == feeds;
    }

    method PushToNew(channels: seq<string>, before: seq<string>) returns (pushed: seq<string>)
      requires forall i, j | 0 <= i < j < |before| :: before[i] != before[j]
      ensures forall c :: c in pushed <==> c in before || c in channels
      ensures forall i, j | 0 <= i < j < |pushed| :: pushed[i] != pushed[j]
    {
      pushed := before;
      for i := 0 to |channels|
        invariant forall c :: c in pushed <==> c in before || c in channels[..i]
        invariant forall i, j | 0 <= i < j < |pushed| :: pushed[i] != pushed[j]
      {
        assert channels[..i + 1] == channels[..i] + [channels[i]];
        if channels[i] in pushed {
          continue;
        }
        pushed := pushed + [channels[i]];
      }
      assert channels[..|channels|] == channels;
    }

    // ---------- one message, and a batch of them ----------

    /** ProcessOneCralwerMessage: the step of Publisher, on the tables and the cache; no channel twice. */
    method ProcessOneCralwerMessage(d: Delivery) returns (result: Result, pushed: seq<string>)
      requires Valid()
      modifies this`existing, db
      ensures Valid()
      ensures var e := Process(Matcher(lower), old(State()), d);
              State() == e.tables && result == e.result && (forall c :: c in pushed <==> c in e.pushed)
      ensures forall i, j | 0 <= i < j < |pushed| :: pushed[i] != pushed[j]
    {
      match d.decoding
      case Undecodable => return BadMessage, [];
      case WithoutPost => return Crashed, [];
      case Message(msg) => result, pushed := ProcessDecoded(msg, d);
    }

    method ProcessDecoded(msg: Crawled, d: Delivery) returns (result: Result, pushed: seq<string>)
      requires Valid() && d.decoding == Message(msg)
      modifies this`existing, db
      ensures Valid()
      ensures var e := Process(Matcher(lower), old(State()), d);
              State() == e.tables && result == e.result && (forall c :: c in pushed <==> c in e.pushed)
      ensures forall i, j | 0 <= i < j < |pushed| :: pushed[i] != pushed[j]
    {
      var stored := IsPostExist(msg.deduplicateId, d);
      if stored {
        return Duplicate, [];
      }
      assert State() == old(State());
      result, pushed := ProcessNewMessage(msg, d);
    }

    method ProcessNewMessage(msg: Crawled, d: Delivery) returns (result: Result, pushed: seq<string>)
      requires Valid()
      modifies db
      ensures Valid()
      ensures var e := ProcessNew(Matcher(lower), old(State()), d, msg);
              State() == e.tables && result == e.result && (forall c :: c in pushed <==> c in e.pushed)
      ensures forall i, j | 0 <= i < j < |pushed| :: pushed[i] != pushed[j]
    {
      var feeds := if msg.subSource in db.subSources && msg.subSource in d.feeds then d.feeds[msg.subSource] else [];
      var candidates := PrepareFeedCandidates(feeds);
      assert candidates == CandidatesOf(db.subSources, msg, d);
      var tagged := PrepareSubSourceRecursive(msg, d);
      var prepared := PreparePostChainFromMessage(tagged, true, d.readFails);
      if prepared.None? {
        return NoSubSource, [];
      }
      result, pushed := PublishPost(candidates, prepared.value, d.committed);
    }

    /** The second half: the feeds are chosen, their channels pushed to, and the post is committed. */
    method PublishPost(candidates: map<string, Feed>, post: Post, committed: bool) returns (result: Result,
        pushed: seq<string>)
      requires Valid()
      modifies db`posts
      ensures Valid()
      ensures var e := Publish(Matcher(lower), old(State()), candidates, post, committed);
              State() == e.tables && result == e.result && (forall c :: c in pushed <==> c in e.pushed)
      ensures forall i, j | 0 <= i < j < |pushed| :: pushed[i] != pushed[j]
    {
      var matched := MatchMessageWithFeeds(candidates, post);
      if matched.Panic? {
        return Crashed, [];
      }
      if matched.Error? {
        return FilterFailed, [];
      }
      pushed := PushToChannels(candidates, matched.value);
      if !committed {
        return NotCommitted, pushed;
      }
      IdsAppend(db.posts, post.(publishedFeeds := matched.value));
      db.posts := db.posts + [post.(publishedFeeds := matched.value)];
      return Stored, pushed;
    }

    method HandleOne(d: Delivery, ghost b: Batch) returns (alive: bool, succeeded: bool)
      requires Valid() && b.alive && State() == b.tables
      modifies this`existing, db
      ensures Valid()
      ensures Handle(Handler(Matcher(lower)), b, d) ==
              Batch(State(), alive, if succeeded then b.successes + 1 else b.successes)
    {
      var result, _ := ProcessOneCralwerMessage(d);
      alive, succeeded := result != Crashed, Succeeds(result);
    }

    /** One message of a batch. */
    method HandleAt(ds: seq<Delivery>, i: nat, count: nat, ghost step: Processing,
        ghost start: Batch) returns (alive: bool, successCount: nat)
      requires i < |ds| && Valid() && step == Handler(Matcher(lower))
      requires HandleAll(step, start, ds, i) == Batch(State(), true, count)
      modifies this`existing, db
      ensures Valid() && HandleAll(step, start, ds, i + 1) == Batch(State(), alive, successCount)
    {
      var succeeded: bool;
      alive, succeeded := HandleOne(ds[i], Batch(State(), true, count));
      successCount := if succeeded then count + 1 else count;
      HandleNext(step, start, ds, i);
    }

    /** ReadAndProcessMessages: messages one by one, until the process ends if one crashes it. */
    method ReadAndProcessMessages(ds: seq<Delivery>) returns (alive: bool, successCount: nat)
      requires Valid()
      modifies this`existing, db
      ensures Valid()
      ensures Batch(State(), alive, successCount) ==
              HandleAll(Handler(Matcher(lower)), Batch(old(State()), true, 0), ds, |ds|)
    {
      ghost var start, step := Batch(State(), true, 0), Handler(Matcher(lower));
      alive, successCount := true, 0;
      var i := 0;
      while alive && i < |ds|
        invariant 0 <= i <= |ds| && Valid()
        invariant HandleAll(step, start, ds, i) == Batch(State(), alive, successCount)
        decreases |ds| - i
      {
        alive, successCount := HandleAt(ds, i, successCount, step, start);
        i := i + 1;
      }
      DeadStaysDead(step, start, ds, i, |ds|);
    }
  }

  /** How far a batch has come: the tables, whether the process still runs, and the messages without error. */
  datatype Batch = Batch(tables: Tables, alive: bool, successes: nat)

  function Handle(step: Processing, b: Batch, d: Delivery): Batch {
    if !b.alive then b
    else
      var e := step(b.tables, d);
      Batch(e.tables, e.result != Crashed, if Succeeds(e.result) then b.successes + 1 else b.successes)
  }

  function HandleAll(step: Processing, b: Batch, ds: seq<Delivery>, n: nat): Batch
    requires n <= |ds|
  {
    if n == 0 then b else Handle(step, HandleAll(step, b, ds, n - 1), ds[n - 1])
  }

  lemma {:induction false} HandleNext(step: Processing, b: Batch, ds: seq<Delivery>, n: nat)
    requires n < |ds|
    ensures HandleAll(step, b, ds, n + 1) == Handle(step, HandleAll(step, b, ds, n), ds[n])
  {
  }

  lemma {:induction false} DeadStaysDead(step: Processing, b: Batch, ds: seq<Delivery>, i: nat, n: nat)
    requires i <= n <= |ds| && (HandleAll(step, b, ds, i).alive ==> i == n)
    ensures HandleAll(step, b, ds, n) == HandleAll(step, b, ds, i)
  {
    if i == n {
    } else {
      DeadStaysDead(step, b, ds, i, n - 1);
      HandleNext(step, b, ds, n - 1);
    }
  }

  ghost predicate EndsWell(step: Processing, t: Tables, ds: seq<Delivery>, i: nat)
    requires i < |ds|
  {
    StepOf(step, t, ds, i).result == Stored || StepOf(step, t, ds, i).result == Duplicate
  }

  /** Which of the first k messages end without error: they are stored, or found to be. */
  ghost function Successful(step: Processing, t: Tables, ds: seq<Delivery>, k: nat): set<int>
    requires k <= |ds|
  {
    set i | 0 <= i < k && EndsWell(step, t, ds, i)
  }

  lemma {:induction false} SuccessfulNext(step: Processing, t: Tables, ds: seq<Delivery>, k: nat)
    requires k < |ds|
    ensures EndsWell(step, t, ds, k) ==> Successful(step, t, ds, k + 1) == Successful(step, t, ds, k) + {k}
    ensures !EndsWell(step, t, ds, k) ==> Successful(step, t, ds, k + 1) == Successful(step, t, ds, k)
  {
    forall i
      ensures i in Successful(step, t, ds, k + 1) <==>
              i in Successful(step, t, ds, k) || (i == k && EndsWell(step, t, ds, k))
    {
    }
  }

  lemma {:induction false} SuccessCountNext(step: Processing, t: Tables, ds: seq<Delivery>, k: nat)
    requires k < |ds|
    ensures |Successful(step, t, ds, k + 1)| ==
            |Successful(step, t, ds, k)| + if EndsWell(step, t, ds, k) then 1 else 0
  {
    SuccessfulNext(step, t, ds, k);
    assert k !in Successful(step, t, ds, k);
  }

  /** What a batch of one process comes to: the posts and subsources of the run of its messages, or of those up
      to the one that crashed it, and as many successes as messages that were stored or found to be. */
  ghost predicate EndsAs(step: Processing, t: Tables, ds: seq<Delivery>, k: nat, n: nat, b: Batch)
    requires k <= n <= |ds|
  {
    && SameStored(b.tables, Run(step, t, ds, k))
    && (b.alive ==> k == n && b.tables == Run(step, t, ds, k))
    && (!b.alive ==> k > 0 && StepOf(step, t, ds, k - 1).result == Crashed)
    && b.successes == |Successful(step, t, ds, k)|
  }

  lemma {:induction false} BatchIsRun(judge: Judge, t: Tables, ds: seq<Delivery>, n: nat) returns (k: nat)
    requires n <= |ds| && forall i | 0 <= i < |ds| :: !ds[i].restarted
    ensures k <= n && EndsAs(Handler(judge), t, ds, k, n, HandleAll(Handler(judge), Batch(t, true, 0), ds, n))
  {
    k := BatchOf(Handler(judge), t, ds, n);
  }

  /** The next message of a batch whose process is alive. */
  lemma {:induction false} BatchNext(step: Processing, t: Tables, ds: seq<Delivery>, n: nat, b: Batch)
    requires n < |ds| && !ds[n].restarted && b.alive && EndsAs(step, t, ds, n, n, b)
    ensures EndsAs(step, t, ds, n + 1, n + 1, Handle(step, b, ds[n]))
  {
    SuccessCountNext(step, t, ds, n);
    assert MetBy(step, t, ds, n) == b.tables;
  }

  lemma {:induction false} BatchOf(step: Processing, t: Tables, ds: seq<Delivery>, n: nat) returns (k: nat)
    requires n <= |ds| && forall i | 0 <= i < |ds| :: !ds[i].restarted
    ensures k <= n && EndsAs(step, t, ds, k, n, HandleAll(step, Batch(t, true, 0), ds, n))
  {
    if n == 0 {
      k := 0;
    } else {
      k := BatchOf(step, t, ds, n - 1);
      HandleNext(step, Batch(t, true, 0), ds, n - 1);
      var b := HandleAll(step, Batch(t, true, 0), ds, n - 1);
      if b.alive {
        k := n;
        BatchNext(step, t, ds, n - 1, b);
      }
    }
  }

  lemma {:induction false} ChannelsOfOneMore(candidates: map<string, Feed>, ids: set<string>, id: string)
    requires id in candidates
    ensures forall c :: c in Channels(candidates, ids + {id}) <==>
            c in Channels(candidates, ids) || c in candidates[id].channels
  {
  }
}
