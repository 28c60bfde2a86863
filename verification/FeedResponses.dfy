/**
 What the runs of a feed mean for its clients: answers are gapless prefixes and continue one another,
 honest clients do no harm between clears, the version a feed has, and the literal runs in which risky
 steps do harm.
 */
module FeedResponses {
  import opened Wrappers
  import opened DataExpression
  import opened PostMatching
  import opened Sequences
  import opened FeedPaging
  import opened FeedScroll
  import opened FeedRuns

  // ---------- answers ----------

  /** The answer holds, in order, a prefix of the posts below the requested cursor that were eligible for the
      feed that the query read: nothing skipped, nothing twice. */
  ghost predicate IsPrefix(lower: string -> string, table: seq<Post>, a: Answer) {
    a.height <= |table| && a.posts <= EligibleBelow(lower, a.feed, table[..a.height], a.cursor)
  }

  /** Over all runs in which the publications stayed upward closed, every answer to a query for older posts,
      from whatever cursor, has at most 300 posts and is such a prefix, unless an edit between its reading
      the feed and the page changed what the feed selects. */
  lemma {:induction false} AnswersOfRuns(lower: string -> string, feed: Feed, table: seq<Post>, early: set<nat>,
      run: seq<Action>, k: nat)
    requires TableOk(table) && Legal(lower, NewFeed(feed, table, early), run)
    requires RisksAreHarmless(lower, NewFeed(feed, table, early), run)
    requires k < |After(lower, NewFeed(feed, table, early), run).answers|
    ensures var s := After(lower, NewFeed(feed, table, early), run);
            && |s.answers[k].posts| <= FEED_REFRESH_LIMIT
            && (SelectsSame(s.answers[k].feed, s.answers[k].seen) ==> IsPrefix(lower, s.db.table, s.answers[k]))
  {
    RunKeepsInvIff(lower, NewFeed(feed, table, early), run);
    assert AnswerOk(lower, After(lower, NewFeed(feed, table, early), run), k);
  }

  /** When a query appends, all it answers is published, unless the feed was cleared since it read its page. */
  lemma {:induction false} AnswerIsPublished(lower: string -> string, s: State, id: nat, height: nat)
    requires BaseOk(lower, s) && Enabled(s, Commit(id, height)) && Current(s, s.scans[id].pageClears)
    ensures var after := Committed(lower, s, id, height);
            after.answers != [] && Cursors(Last(after.answers).posts) <= after.db.published
  {
    var scan := s.scans[id];
    assert ScanOk(lower, s, scan);
    forall p | p in scan.page + Found(lower, s.db, scan, height)
      ensures p.cursor in Committed(lower, s, id, height).db.published
    {
      if p in scan.page {
        assert p.cursor in s.db.published;
      }
    }
  }

  // ---------- what is answered ----------

  /** What a query reads first, said of one post at a time: what is published below its cursor, as long as
      fewer posts than its limit lie above. It is the answer if there are that many, and waits for the
      rest else. */
  lemma {:induction false} BeginReads(lower: string -> string, s: State, id: nat, p: Post)
    requires Inv(lower, s) && Enabled(s, Begin(id)) && s.asking[id].query.direction.Old?
    ensures var after, o := Next(lower, s, Begin(id)), s.asking[id];
            var isRead := p in s.db.table && p.cursor < o.query.cursor && p.cursor in s.db.published
                          && |set q | q in s.db.table && p.cursor < q.cursor < o.query.cursor &&
                               q.cursor in s.db.published| < o.query.limit;
            if id in after.scans then
              && after.answers == s.answers && (p in after.scans[id].page <==> isRead)
              && after.scans[id].want == o.query.limit - |after.scans[id].page| > 0
            else
              && |after.answers| == |s.answers| + 1 && after.answers[..|s.answers|] == s.answers
              && (p in Last(after.answers).posts <==> isRead) && |Last(after.answers).posts| == o.query.limit
  {
    assert OpenedOk(s, s.asking[id]);
    ReadPageIff(s.db, s.asking[id].query.cursor, Limit(s.asking[id].query), p);
  }

  /** What a query that appends answers: what it read first, and what its scan found. */
  lemma {:induction false} CommitAnswers(lower: string -> string, s: State, id: nat, height: nat, p: Post)
    requires Inv(lower, s) && Enabled(s, Commit(id, height))
    ensures var after, scan := Next(lower, s, Commit(id, height)), s.scans[id];
            && |after.answers| == |s.answers| + 1 && after.answers[..|s.answers|] == s.answers
            && (p in Last(after.answers).posts <==>
                || p in scan.page
                || IsFound(lower, scan.feed, s.db.table[..height], scan.want,
                     if scan.page == [] then scan.cursor else Last(scan.page).cursor, p))
  {
    PrefixIncreases(s.db.table, height);
    RepublishedIff(lower, s.scans[id].feed, s.db.table[..height], s.scans[id].want, Start(s.scans[id]), p);
  }

  /** The queries for older posts that are answered or at work on their scan. */
  ghost function Handled(s: State): nat {
    |s.answers| + |s.scans|
  }

  ghost function ReadsOld(s: State, a: Action): nat
    requires Enabled(s, a)
  {
    if a.Begin? && s.asking[a.id].query.direction.Old? then 1 else 0
  }

  /** How many queries for older posts have read their page. */
  ghost function OldQueries(lower: string -> string, s: State, run: seq<Action>): nat
    requires Legal(lower, s, run)
    decreases run
  {
    if run == [] then 0
    else
      ReadsOld(s, run[0]) + OldQueries(lower, Next(lower, s, run[0]), run[1..])
  }

  /** No query is lost or answered twice: those that have read their page are answered or at work. */
  lemma {:induction false} EveryQueryIsAnsweredOnce(lower: string -> string, s: State, run: seq<Action>)
    requires Legal(lower, s, run)
    ensures Handled(After(lower, s, run)) == Handled(s) + OldQueries(lower, s, run)
    decreases run
  {
    if run == [] {
    } else {
      EveryQueryIsAnsweredOnce(lower, Next(lower, s, run[0]), run[1..]);
      StepCounts(lower, s, run[0]);
    }
  }

  lemma {:induction false} StepCounts(lower: string -> string, s: State, a: Action)
    requires Enabled(s, a)
    ensures Handled(Next(lower, s, a)) == Handled(s) + ReadsOld(s, a)
  {
    match a
    case Begin(id) => BeginCounts(s, id);
    case Commit(id, height) => CommitCounts(lower, s, id, height);
    case _ => OthersAnswerNothing(lower, s, a);
  }

  lemma {:induction false} OthersAnswerNothing(lower: string -> string, s: State, a: Action)
    requires Enabled(s, a) && !a.Begin? && !a.Commit?
    ensures Next(lower, s, a).answers == s.answers && Next(lower, s, a).scans == s.scans
  {
  }

  lemma {:induction false} OneLess<T>(m: map<nat, T>, id: nat)
    requires id in m
    ensures |m - {id}| + 1 == |m|
  {
    assert m == (m - {id})[id := m[id]];
  }

  lemma {:induction false} CommitCounts(lower: string -> string, s: State, id: nat, height: nat)
    requires Enabled(s, Commit(id, height))
    ensures Handled(Committed(lower, s, id, height)) == Handled(s)
  {
    OneLess(s.scans, id);
    assert Committed(lower, s, id, height).scans == s.scans - {id};
  }

  lemma {:induction false} BeginCounts(s: State, id: nat)
    requires Enabled(s, Begin(id))
    ensures Handled(Begun(s, id)) == Handled(s) + ReadsOld(s, Begin(id))
  {
  }

  ghost predicate IsIssued(s: State, cursor: int, version: int) {
    exists i :: i in s.issued && i.cursor == cursor && i.version == version
  }

  ghost predicate AnswersIssued(s: State) {
    forall a, p | a in s.answers && p in a.posts :: IsIssued(s, p.cursor, a.feed.updatedAt)
  }

  /** Over any run, every post of every answer was issued: its cursor beside the version of the feed that the
      query had read. */
  lemma {:induction false} AnswersAreIssued(lower: string -> string, s: State, run: seq<Action>)
    requires Legal(lower, s, run) && AnswersIssued(s)
    ensures AnswersIssued(After(lower, s, run))
    decreases run
  {
    if run == [] {
    } else {
      StepIssues(lower, s, run[0]);
      AnswersAreIssued(lower, Next(lower, s, run[0]), run[1..]);
    }
  }

  lemma {:induction false} StepIssues(lower: string -> string, s: State, a: Action)
    requires Enabled(s, a) && AnswersIssued(s)
    ensures AnswersIssued(Next(lower, s, a))
  {
    var after := Next(lower, s, a);
    forall x, p | x in after.answers && p in x.posts
      ensures IsIssued(after, p.cursor, x.feed.updatedAt)
    {
      if x in s.answers {
        assert IsIssued(s, p.cursor, x.feed.updatedAt);
        var i :| i in s.issued && i.cursor == p.cursor && i.version == x.feed.updatedAt;
        assert i in after.issued;
      } else if a.Begin? {
        assert Issued(p.cursor, x.feed.updatedAt, s.clears) in after.issued;
      } else {
        var scan := s.scans[a.id];
        assert Issued(p.cursor, x.feed.updatedAt, scan.pageClears) in after.issued
            || Issued(p.cursor, x.feed.updatedAt, s.clears) in after.issued;
      }
    }
  }

  /** One of the newest `limit` published posts, and above the cursor. */
  ghost predicate IsNewest(db: Db, cursor: int, limit: int, p: Post) {
    && p in db.table && cursor < p.cursor && p.cursor in db.published
    && |set q | q in db.table && p.cursor < q.cursor && q.cursor in db.published| < limit
  }

  /** A query for newer posts answers at once, and issues exactly the newest posts above its cursor. */
  lemma {:induction false} NewerAreIssued(lower: string -> string, s: State, id: nat, i: Issued)
    requires Inv(lower, s) && Enabled(s, Begin(id)) && s.asking[id].query.direction.New?
    ensures var after, o := Next(lower, s, Begin(id)), s.asking[id];
            && after.answers == s.answers && after.scans == s.scans && after.db == s.db
            && (i in after.issued <==>
                || i in s.issued
                || (i.version == o.feed.updatedAt && i.clears == s.clears &&
                    exists p: Post :: p.cursor == i.cursor && IsNewest(s.db, o.query.cursor, o.query.limit, p)))
  {
    var o := s.asking[id];
    assert OpenedOk(s, o);
    var page := NewPage(s.db, o.query.cursor, Limit(o.query));
    forall p
      ensures p in page <==> IsNewest(s.db, o.query.cursor, o.query.limit, p)
    {
      NewPageIff(s.db, o.query.cursor, Limit(o.query), p);
    }
    assert Next(lower, s, Begin(id)).issued == s.issued + set p | p in page ::
      Issued(p.cursor, o.feed.updatedAt, s.clears);
  }

  /** A publisher is at work as long as it has read the feeds once more than it has left. */
  lemma {:induction false} PublishersAtWork(lower: string -> string, s: State, run: seq<Action>, id: nat)
    requires Legal(lower, s, run)
    ensures (if id in After(lower, s, run).drafts then 1 else 0) + multiset(run)[Leave(id)] ==
            (if id in s.drafts then 1 else 0) + multiset(run)[Read(id)]
    decreases run
  {
    if run == [] {
    } else {
      PublishersAtWork(lower, Next(lower, s, run[0]), run[1..], id);
      StepKeepsDrafts(lower, s, run[0], id);
      assert run == [run[0]] + run[1..];
    }
  }

  lemma {:induction false} StepKeepsDrafts(lower: string -> string, s: State, a: Action, id: nat)
    requires Enabled(s, a)
    ensures id in Next(lower, s, a).drafts <==> a == Read(id) || (id in s.drafts && a != Leave(id))
    ensures a == Read(id) ==> id !in s.drafts
    ensures a == Leave(id) ==> id in s.drafts
  {
  }

  // ---------- a client that scrolls ----------

  function Shown(answers: seq<Answer>, ks: seq<nat>): seq<Post>
    requires forall i | 0 <= i < |ks| :: ks[i] < |answers|
  {
    if ks == [] then [] else Shown(answers, ks[..|ks| - 1]) + answers[Last(ks)].posts
  }

  /** Some answers are those of one client that starts at `start`: each was asked after the one before was
      given, from the least cursor seen so far, of a feed that selected the same all the time. */
  ghost predicate Conversation(answers: seq<Answer>, ks: seq<nat>, start: int) {
    && (forall i | 0 <= i < |ks| :: ks[i] < |answers|)
    && (ks != [] ==>
          var init, a := ks[..|ks| - 1], answers[Last(ks)];
          && Conversation(answers, init, start)
          && a.cursor == LastCursor(Shown(answers, init), start)
          && SelectsSame(a.feed, a.seen)
          && (init != [] ==> Last(init) < a.asked && SelectsSame(answers[Last(init)].feed, a.feed)))
  }

  /** The first answer with a post in it, or else the last answer. */
  ghost function FirstShown(answers: seq<Answer>, ks: seq<nat>): (k: nat)
    requires ks != [] && forall i | 0 <= i < |ks| :: ks[i] < |answers|
    ensures k < |answers|
  {
    var init := ks[..|ks| - 1];
    if init == [] || Shown(answers, init) == [] then Last(ks) else FirstShown(answers, init)
  }

  /** The first answer with a post was given before the last, and of a feed that selects the same. */
  lemma {:induction false} FirstShownIsEarly(lower: string -> string, s: State, ks: seq<nat>, start: int)
    requires BaseOk(lower, s) && ks != [] && Conversation(s.answers, ks, start)
    ensures FirstShown(s.answers, ks) <= Last(ks)
    ensures SelectsSame(s.answers[FirstShown(s.answers, ks)].feed, s.answers[Last(ks)].feed)
  {
    var init := ks[..|ks| - 1];
    if init == [] || Shown(s.answers, init) == [] {
    } else {
      FirstShownIsEarly(lower, s, init, start);
      assert AnswerOk(lower, s, Last(ks));
      SelectsSameTwice(s.answers[FirstShown(s.answers, init)].feed, s.answers[Last(init)].feed,
        s.answers[Last(ks)].feed);
    }
  }

  /** An answer that was asked later, from the least cursor seen, continues what was seen. */
  lemma {:induction false} AnswerContinues(lower: string -> string, table: seq<Post>, a: Answer, b: Answer,
      start: int, seen: seq<Post>)
    requires Increasing(table) && a.height <= b.height <= |table| && SelectsSame(a.feed, b.feed)
    requires seen != [] && seen <= EligibleBelow(lower, a.feed, table[..a.height], start)
    requires b.cursor == Last(seen).cursor && IsPrefix(lower, table, b)
    ensures seen + b.posts <= EligibleBelow(lower, a.feed, table[..a.height], start)
  {
    var f := IsEligible(lower, a.feed);
    var before, after := Db(a.feed, table[..a.height], {}), Db(a.feed, table[..b.height], {});
    PrefixIncreases(table, a.height);
    PrefixIncreases(table, b.height);
    assert Last(seen) in seen;
    SelectsSameEligible(lower, a.feed, b.feed, after.table, b.cursor);
    SelectedBelowOld(before, after, f, start, Last(seen));
    NextPageContinues(before.table, start, f, seen, b.posts);
  }

  lemma {:induction false} ConversationStep(lower: string -> string, s: State, ks: seq<nat>, start: int)
    requires BaseOk(lower, s) && |ks| > 1 && Conversation(s.answers, ks, start)
    requires var init := ks[..|ks| - 1]; Shown(s.answers, init) != [] && ShowsPrefix(lower, s, init, start)
    ensures ShowsPrefix(lower, s, ks, start)
  {
    var init, seen := ks[..|ks| - 1], Shown(s.answers, ks[..|ks| - 1]);
    var first, last := FirstShown(s.answers, ks), Last(ks);
    FirstShownIsEarly(lower, s, ks, start);
    FirstShownIsEarly(lower, s, init, start);
    assert AnswerOk(lower, s, last) && AnswerOk(lower, s, first);
    AnswerContinues(lower, s.db.table, s.answers[first], s.answers[last], start, seen);
  }

  /** All that was shown is, in order and without repeats, a prefix of the posts below the start that were
      eligible when the first of them was read. */
  ghost predicate ShowsPrefix(lower: string -> string, s: State, ks: seq<nat>, start: int)
    requires ks != [] && forall i | 0 <= i < |ks| :: ks[i] < |s.answers|
  {
    var first := s.answers[FirstShown(s.answers, ks)];
    first.height <= |s.db.table| &&
      Shown(s.answers, ks) <= EligibleBelow(lower, first.feed, s.db.table[..first.height], start)
  }

  lemma {:induction false} ConversationShowsPrefix(lower: string -> string, s: State, ks: seq<nat>, start: int)
    requires BaseOk(lower, s) && ks != [] && Conversation(s.answers, ks, start)
    ensures ShowsPrefix(lower, s, ks, start)
  {
    var init := ks[..|ks| - 1];
    assert AnswerOk(lower, s, Last(ks));
    if init == [] || Shown(s.answers, init) == [] {
      assert Shown(s.answers, ks) == s.answers[Last(ks)].posts;
    } else {
      ConversationShowsPrefix(lower, s, init, start);
      ConversationStep(lower, s, ks, start);
    }
  }

  /** Over all runs in which the publications stayed upward closed, with reads, scans and appends of any
      queries apart and overlapping, a client that keeps asking from its least cursor sees no gap and no
      repeat. */
  lemma {:induction false} ScrollOfRuns(lower: string -> string, feed: Feed, table: seq<Post>, early: set<nat>,
      run: seq<Action>, ks: seq<nat>, start: int)
    requires TableOk(table) && Legal(lower, NewFeed(feed, table, early), run)
    requires RisksAreHarmless(lower, NewFeed(feed, table, early), run)
    requires ks != [] && Conversation(After(lower, NewFeed(feed, table, early), run).answers, ks, start)
    ensures ShowsPrefix(lower, After(lower, NewFeed(feed, table, early), run), ks, start)
  {
    RunKeepsInvIff(lower, NewFeed(feed, table, early), run);
    ConversationShowsPrefix(lower, After(lower, NewFeed(feed, table, early), run), ks, start);
  }

  // ---------- honest clients ----------

  /** A cursor that some response carried beside the version the feed has now. */
  ghost predicate CarriedNow(s: State, cursor: int) {
    exists i :: i in s.issued && i.cursor == cursor && i.version == s.db.feed.updatedAt
  }

  ghost predicate CarriedSinceClear(s: State, cursor: int) {
    exists i :: i in s.issued && i.cursor == cursor && i.clears == s.clears
  }

  /** The default cursor, one returned for this version of the feed, or one sent with another version. */
  ghost predicate Honest(s: State, q: Query) {
    || q.cursor == DEFAULT_FEEDS_QUERY_CURSOR
    || q.feedUpdatedTime != Some(s.db.feed.updatedAt)
    || CarriedNow(s, q.cursor)
  }

  /** It read the feed since the last clear, with a cursor it holds. */
  ghost predicate SafeOpened(s: State, o: Opened) {
    Current(s, o.clears) && Held(s.db, o.query.cursor)
  }

  /** It read the feed since the last clear, its start is a cursor it holds, and every eligible post stored
      since it read its page is published. */
  ghost predicate SafeScan(lower: string -> string, s: State, scan: Scan) {
    Current(s, scan.clears) && Held(s.db, Start(scan)) && NewerPublished(lower, s.db, scan.height)
  }

  ghost predicate NewerPublished(lower: string -> string, db: Db, height: nat) {
    forall i | height <= i < |db.table| && Eligible(lower, db.feed, db.table[i]) :: db.table[i].cursor in db.published
  }

  lemma {:induction false} NewerPublishedStore(lower: string -> string, db: Db, read: Option<Feed>, p: Post,
      height: nat)
    requires NewerPublished(lower, db, height)
    requires Judged(lower, read, p) == Some(false) ==> !Eligible(lower, db.feed, p)
    ensures NewerPublished(lower, Stored(lower, db, read, p), height)
  {
    var after := Stored(lower, db, read, p);
    assert forall i | 0 <= i < |db.table| :: after.table[i] == db.table[i];
  }

  /** A query for older posts opens safe exactly when it is sent with another version or the default cursor,
      or its cursor is published; any cursor that a response carried since the last clear is, and so, unless
      the feed was turned back to a version from before its last clear, is any honest one. */
  lemma {:induction false} OpenIsSafeIff(lower: string -> string, s: State, id: nat, query: Query)
    requires BaseOk(lower, s) && Enabled(s, Open(id, query)) && id in OpenedNow(s, id, query).asking
    ensures SafeOpened(s, OpenedNow(s, id, query).asking[id]) <==>
            || query.feedUpdatedTime != Some(s.db.feed.updatedAt)
            || query.cursor == DEFAULT_FEEDS_QUERY_CURSOR
            || query.cursor in s.db.published
    ensures CarriedSinceClear(s, query.cursor) ==> query.cursor in s.db.published
    ensures Honest(s, query) && s.clearedAt <= s.db.feed.updatedAt ==> SafeOpened(s, OpenedNow(s, id, query).asking[id])
  {
    if i :| i in s.issued && i.cursor == query.cursor && i.clears == s.clears {
      assert IssuedOk(s, i);
    }
    if Honest(s, query) && s.clearedAt <= s.db.feed.updatedAt && CarriedNow(s, query.cursor) {
      var i :| i in s.issued && i.cursor == query.cursor && i.version == s.db.feed.updatedAt;
      assert IssuedOk(s, i);
    }
  }

  /** A short page begins a safe scan exactly when the feed was not cleared since the query read it, and
      something is published below its cursor or the cursor is one it holds: whatever its version is. */
  lemma {:induction false} ScanIsSafeIff(lower: string -> string, s: State, id: nat)
    requires Inv(lower, s) && Enabled(s, Begin(id)) && id in Begun(s, id).scans
    ensures var o := s.asking[id];
            SafeScan(lower, Begun(s, id), Begun(s, id).scans[id]) <==>
            Current(s, o.clears) &&
            (PublishedBelow(s.db.table, s.db.published, o.query.cursor) != [] || Held(s.db, o.query.cursor))
  {
    var scan := Begun(s, id).scans[id];
    ReadPageIsPublished(s.db, s.asking[id].query.cursor, Limit(s.asking[id].query));
    if scan.page != [] {
      assert Last(scan.page) in scan.page;
    }
  }

  /** Nothing but an edit that clears the feed makes a safe query risky before it reads its page. */
  lemma {:induction false} OpenedUntilCleared(lower: string -> string, s: State, a: Action, o: Opened)
    requires Enabled(s, a) && SafeOpened(s, o)
    requires a.Upsert? ==> !Clears(s.db, a.filter, a.ids)
    ensures SafeOpened(Next(lower, s, a), o)
  {
  }

  /** Nothing but an edit that clears the feed, or an eligible post stored unpublished, makes a safe scan
      risky. */
  lemma {:induction false} SafeUntilCleared(lower: string -> string, s: State, a: Action, scan: Scan)
    requires Inv(lower, s) && Enabled(s, a) && SafeScan(lower, s, scan)
    requires a.Upsert? ==> !Clears(s.db, a.filter, a.ids)
    requires a.Store? && Judged(lower, s.drafts[a.id].feed, a.post) == Some(false) ==>
             !Eligible(lower, s.db.feed, a.post)
    ensures SafeScan(lower, Next(lower, s, a), scan)
  {
    match a
    case Upsert(filter, ids, known, now) =>
      if IsClearPostsNeeded(s.db.feed, filter, ids) == Ok(false) {
        NoClearKeepsEligibility(s.db.feed, filter, ids, known, now);
        SelectsSameEligible(lower, s.db.feed, Next(lower, s, a).db.feed, s.db.table, 0);
      }
    case Store(id, p) =>
      NewerPublishedStore(lower, s.db, s.drafts[id].feed, p, scan.height);
    case _ =>
  }

  // ---------- calm runs ----------

  /** Queries are honest, nobody is in the middle of something when an edit clears the feed, no publisher
      stores a post that read the feeds before this one was created, and the publisher and republishing judge
      every stored post alike. */
  ghost predicate CalmStep(lower: string -> string, s: State, a: Action)
    requires Enabled(s, a)
  {
    match a
    case Store(id, p) => s.drafts[id].feed.Some? && ReadersAgree(lower, s.drafts[id].feed.value, p)
    case Upsert(filter, ids, _, _) =>
      Clears(s.db, filter, ids) ==> s.asking == map[] && s.scans == map[] && forall id | id in s.drafts ::
        s.drafts[id].feed.None?
    case Open(_, q) => q.direction.Old? ==> Honest(s, q)
    case _ => true
  }

  ghost predicate Calm(lower: string -> string, s: State, run: seq<Action>)
    requires Legal(lower, s, run)
    decreases run
  {
    run != [] ==> CalmStep(lower, s, run[0]) && Calm(lower, Next(lower, s, run[0]), run[1..])
  }

  /** Whatever is under way read the feed since its last clear, at a version since then, and is safe. */
  ghost predicate AllSafe(lower: string -> string, s: State) {
    && s.clearedAt <= s.db.feed.updatedAt
    && (forall id | id in s.asking :: AskingSafe(s, s.asking[id]))
    && (forall id | id in s.scans :: ScanningSafe(lower, s, s.scans[id]))
    && (forall id | id in s.drafts :: s.drafts[id].feed.Some? ==> Current(s, s.drafts[id].clears))
  }

  ghost predicate AskingSafe(s: State, o: Opened) {
    s.clearedAt <= o.feed.updatedAt && Current(s, o.clears) && (o.query.direction.Old? ==> SafeOpened(s, o))
  }

  ghost predicate ScanningSafe(lower: string -> string, s: State, scan: Scan) {
    s.clearedAt <= scan.feed.updatedAt && SafeScan(lower, s, scan)
  }

  /** What a publisher does not publish in a calm step is not eligible. */
  lemma {:induction false} CalmStore(lower: string -> string, s: State, id: nat, p: Post)
    requires Inv(lower, s) && Enabled(s, Store(id, p)) && s.drafts[id].feed.Some?
    requires Current(s, s.drafts[id].clears) && ReadersAgree(lower, s.drafts[id].feed.value, p)
    ensures Judged(lower, s.drafts[id].feed, p) == Some(false) ==> !Eligible(lower, s.db.feed, p)
  {
    assert DraftOk(s, s.drafts[id]);
    SelectsSameEligible(lower, s.drafts[id].feed.value, s.db.feed, s.db.table, 0);
  }

  lemma {:induction false} CalmIsNotRisky(lower: string -> string, s: State, a: Action)
    requires AllSafe(lower, s) && Enabled(s, a) && CalmStep(lower, s, a)
    ensures !Risky(lower, s, a)
  {
    if a.Commit? {
      assert ScanningSafe(lower, s, s.scans[a.id]);
    }
  }

  /** What is under way stays safe in a calm step that does not clear the feed. */
  lemma {:induction false} OldStaySafe(lower: string -> string, s: State, a: Action)
    requires Inv(lower, s) && AllSafe(lower, s) && Enabled(s, a) && CalmStep(lower, s, a)
    requires a.Upsert? ==> !Clears(s.db, a.filter, a.ids)
    ensures forall o | AskingSafe(s, o) :: AskingSafe(Next(lower, s, a), o)
    ensures forall scan | ScanningSafe(lower, s, scan) :: ScanningSafe(lower, Next(lower, s, a), scan)
    ensures Next(lower, s, a).clears == s.clears && Next(lower, s, a).clearedAt == s.clearedAt
  {
    if a.Store? {
      CalmStore(lower, s, a.id, a.post);
    }
    forall o | AskingSafe(s, o)
      ensures AskingSafe(Next(lower, s, a), o)
    {
      if o.query.direction.Old? {
        OpenedUntilCleared(lower, s, a, o);
      }
    }
    forall scan | ScanningSafe(lower, s, scan)
      ensures ScanningSafe(lower, Next(lower, s, a), scan)
    {
      SafeUntilCleared(lower, s, a, scan);
    }
  }

  /** Only what a step adds is left to be checked. */
  lemma {:induction false} AddedStaysSafe(lower: string -> string, s: State, after: State)
    requires AllSafe(lower, s)
    requires after.clears == s.clears && after.clearedAt == s.clearedAt <= after.db.feed.updatedAt
    requires forall o | AskingSafe(s, o) :: AskingSafe(after, o)
    requires forall scan | ScanningSafe(lower, s, scan) :: ScanningSafe(lower, after, scan)
    requires forall id | id in after.asking ::
               (id in s.asking && after.asking[id] == s.asking[id]) || AskingSafe(after, after.asking[id])
    requires forall id | id in after.scans ::
               (id in s.scans && after.scans[id] == s.scans[id]) || ScanningSafe(lower, after, after.scans[id])
    requires forall id | id in after.drafts ::
               (id in s.drafts && after.drafts[id] == s.drafts[id]) || Current(after, after.drafts[id].clears)
    ensures AllSafe(lower, after)
  {
  }

  lemma {:induction false} CalmOpen(lower: string -> string, s: State, id: nat, q: Query)
    requires Inv(lower, s) && AllSafe(lower, s) && Enabled(s, Open(id, q)) && CalmStep(lower, s, Open(id, q))
    ensures AllSafe(lower, Next(lower, s, Open(id, q)))
  {
    OldStaySafe(lower, s, Open(id, q));
    if id in OpenedNow(s, id, q).asking {
      OpenIsSafeIff(lower, s, id, q);
    }
    AddedStaysSafe(lower, s, OpenedNow(s, id, q));
  }

  /** A scan of a safe query is safe. */
  lemma {:induction false} BegunScanIsSafe(lower: string -> string, s: State, id: nat)
    requires Inv(lower, s) && Enabled(s, Begin(id)) && AskingSafe(s, s.asking[id])
    requires id in Begun(s, id).scans
    ensures ScanningSafe(lower, Begun(s, id), Begun(s, id).scans[id])
  {
    ScanIsSafeIff(lower, s, id);
  }

  /** What a query that reads its page leaves alone. */
  lemma {:induction false} BegunFrame(s: State, id: nat)
    requires Enabled(s, Begin(id))
    ensures var after := Begun(s, id);
            && after.db == s.db && after.clears == s.clears && after.clearedAt == s.clearedAt
            && after.drafts == s.drafts && after.asking == s.asking - {id}
            && after.scans.Keys <= s.scans.Keys + {id}
            && forall other | other in s.scans :: other in after.scans && after.scans[other] == s.scans[other]
  {
  }

  lemma {:induction false} CalmBegin(lower: string -> string, s: State, id: nat)
    requires Inv(lower, s) && AllSafe(lower, s) && Enabled(s, Begin(id))
    ensures AllSafe(lower, Next(lower, s, Begin(id)))
  {
    OldStaySafe(lower, s, Begin(id));
    BegunFrame(s, id);
    if id in Begun(s, id).scans {
      BegunScanIsSafe(lower, s, id);
    }
    AddedStaysSafe(lower, s, Next(lower, s, Begin(id)));
  }

  lemma {:induction false} CalmCommit(lower: string -> string, s: State, id: nat, height: nat)
    requires Inv(lower, s) && AllSafe(lower, s) && Enabled(s, Commit(id, height))
    ensures AllSafe(lower, Next(lower, s, Commit(id, height)))
  {
    OldStaySafe(lower, s, Commit(id, height));
    assert ScanningSafe(lower, s, s.scans[id]);
    AddedStaysSafe(lower, s, Next(lower, s, Commit(id, height)));
  }

  lemma {:induction false} CalmEdit(lower: string -> string, s: State, a: Action)
    requires Inv(lower, s) && AllSafe(lower, s) && Enabled(s, a) && a.Upsert? && CalmStep(lower, s, a)
    ensures AllSafe(lower, Next(lower, s, a))
  {
    if !Clears(s.db, a.filter, a.ids) {
      OldStaySafe(lower, s, a);
      AddedStaysSafe(lower, s, Next(lower, s, a));
    }
  }

  lemma {:induction false} CalmPublisher(lower: string -> string, s: State, a: Action)
    requires Inv(lower, s) && AllSafe(lower, s) && Enabled(s, a) && (a.Read? || a.Store? || a.Leave?)
    requires CalmStep(lower, s, a)
    ensures AllSafe(lower, Next(lower, s, a))
  {
    OldStaySafe(lower, s, a);
    AddedStaysSafe(lower, s, Next(lower, s, a));
  }

  lemma {:induction false} CalmKeepsSafe(lower: string -> string, s: State, a: Action)
    requires Inv(lower, s) && AllSafe(lower, s) && Enabled(s, a) && CalmStep(lower, s, a)
    ensures AllSafe(lower, Next(lower, s, a))
  {
    match a
    case Open(id, query) => CalmOpen(lower, s, id, query);
    case Begin(id) => CalmBegin(lower, s, id);
    case Commit(id, height) => CalmCommit(lower, s, id, height);
    case Upsert(_, _, _, _) => CalmEdit(lower, s, a);
    case _ => CalmPublisher(lower, s, a);
  }

  lemma {:induction false} CalmRunKeepsSafe(lower: string -> string, s: State, run: seq<Action>)
    requires Inv(lower, s) && AllSafe(lower, s) && Legal(lower, s, run) && Calm(lower, s, run)
    ensures RisksAreHarmless(lower, s, run)
    decreases run
  {
    if run == [] {
    } else {
      CalmIsNotRisky(lower, s, run[0]);
      CalmKeepsSafe(lower, s, run[0]);
      SafeStep(lower, s, run[0]);
      StepKeepsInvIff(lower, s, run[0]);
      CalmRunKeepsSafe(lower, Next(lower, s, run[0]), run[1..]);
    }
  }

  /** So in a calm run, with any number of queries and publishers at work at once, the publications are
      upward closed all the time. */
  lemma {:induction false} CalmRunsStayUpwardClosed(lower: string -> string, feed: Feed, table: seq<Post>,
      early: set<nat>, run: seq<Action>)
    requires TableOk(table) && Legal(lower, NewFeed(feed, table, early), run)
    requires Calm(lower, NewFeed(feed, table, early), run)
    ensures AlwaysUpwardClosed(lower, NewFeed(feed, table, early), run)
  {
    CalmRunKeepsSafe(lower, NewFeed(feed, table, early), run);
    RunsStayUpwardClosedIff(lower, feed, table, early, run);
  }

  // ---------- the version of a feed ----------

  /** Who wrote the version that the feed has: an edit, or the append of a query that had read this one. */
  datatype Write = ByEdit | ByAppend(version: int)

  ghost function WriteOf(s: State, a: Action): Option<Write>
    requires Enabled(s, a)
  {
    match a
    case Upsert(filter, ids, _, _) => if IsClearPostsNeeded(s.db.feed, filter, ids).Ok? then Some(ByEdit) else None
    case Commit(id, _) => Some(ByAppend(s.scans[id].feed.updatedAt))
    case _ => None
  }

  ghost function LastWrite(lower: string -> string, s: State, run: seq<Action>): Option<Write>
    requires Legal(lower, s, run)
    decreases run
  {
    if run == [] then None
    else
      var later := LastWrite(lower, Next(lower, s, run[0]), run[1..]);
      if later.Some? then later else WriteOf(s, run[0])
  }

  /** What a write leaves: the feed at its newest version, or at the one that a query had read. */
  ghost predicate Wrote(s: State, after: State, write: Option<Write>) {
    && after.clearedAt <= after.clock
    && match write
       case None =>
         after.db.feed.updatedAt == s.db.feed.updatedAt && after.clock == s.clock && after.clearedAt == s.clearedAt
       case Some(ByEdit) => after.db.feed.updatedAt == after.clock
       case Some(ByAppend(version)) => after.db.feed.updatedAt == version
  }

  lemma {:induction false} WriteOfStep(lower: string -> string, s: State, a: Action)
    requires Enabled(s, a) && s.clearedAt <= s.clock
    ensures Wrote(s, Next(lower, s, a), WriteOf(s, a))
  {
  }

  lemma {:induction false} VersionIsLastWrite(lower: string -> string, s: State, run: seq<Action>)
    requires Legal(lower, s, run) && s.clearedAt <= s.clock
    ensures Wrote(s, After(lower, s, run), LastWrite(lower, s, run))
    decreases run
  {
    if run == [] {
    } else {
      WriteOfStep(lower, s, run[0]);
      VersionIsLastWrite(lower, Next(lower, s, run[0]), run[1..]);
    }
  }

  /** Over any run, the feed has its newest version exactly when no append of a query that had read an older
      one came after the last edit; and a version from before its last clear exactly when the last write was
      the append of a query that had read such a one. Then cursors from before the clear pass as up to date. */
  lemma {:induction false} VersionIff(lower: string -> string, feed: Feed, table: seq<Post>, early: set<nat>,
      run: seq<Action>)
    requires Legal(lower, NewFeed(feed, table, early), run)
    ensures var s, write := After(lower, NewFeed(feed, table, early), run),
            LastWrite(lower, NewFeed(feed, table, early), run);
            && (s.db.feed.updatedAt == s.clock <==>
               write.Some? && write.value.ByAppend? ==> write.value.version == s.clock)
            && (s.clearedAt <= s.db.feed.updatedAt <==>
               write.Some? && write.value.ByAppend? ==> s.clearedAt <= write.value.version)
  {
    VersionIsLastWrite(lower, NewFeed(feed, table, early), run);
  }

  /** A query sent with the version that an append has written back keeps its cursor; one sent with the
      version that it replaced starts from the top again. */
  lemma {:induction false} AppendRevivesVersion(lower: string -> string, s: State, id: nat, height: nat, q: Query)
    requires Enabled(s, Commit(id, height)) && q.cursor >= 0 && q.limit > 0
    ensures var version, after := s.scans[id].feed.updatedAt, Committed(lower, s, id, height);
            var sanitized := Sanitized(q, after.db.feed);
            && sanitized.Ok?
            && (q.feedUpdatedTime == Some(version) ==> sanitized.value.cursor == q.cursor)
            && (s.db.feed.updatedAt != version && q.feedUpdatedTime == Some(s.db.feed.updatedAt) ==>
                  sanitized.value.cursor == DEFAULT_FEEDS_QUERY_CURSOR)
  {
  }

  // ---------- risky steps that do harm ----------

  const OtherFilter := Document(Marshal(Wrap("1", PredicateWrap(Predicate(LITERAL, "x")))))
  const AnyPost := PostAt(1, "y")
  const TopPost := PostAt(2, "y")
  const Edit := Upsert(OtherFilter, ["s"], {"s"}, 1)
  const Ask := Open(0, Query(DEFAULT_FEEDS_QUERY_CURSOR, 1, Old, None))

  lemma {:induction false} RunNext(s: State, run: seq<Action>, a: Action)
    requires Legal(Plain, s, run) && Enabled(After(Plain, s, run), a)
    ensures Legal(Plain, s, run + [a]) && After(Plain, s, run + [a]) == Next(Plain, After(Plain, s, run), a)
    decreases run
  {
    if run == [] {
      assert run + [a] == [a] && [a][1..] == [];
      assert Legal(Plain, Next(Plain, s, a), []);
    } else {
      assert (run + [a])[1..] == run[1..] + [a];
      RunNext(Next(Plain, s, run[0]), run[1..], a);
    }
  }

  const AskAndBegin := [Ask, Begin(0)]

  /** The query reads the feed and an empty page. */
  lemma {:induction false} AfterAsking(early: set<nat>)
    ensures var s := NewFeed(WantedFeed, [AnyPost], early);
            var scan := Scan(WantedFeed, 0, WantedFeed, 0, [], DEFAULT_FEEDS_QUERY_CURSOR, 1, 1, 0);
            && TableOk(s.db.table) && Legal(Plain, s, AskAndBegin)
            && After(Plain, s, AskAndBegin) == s.(scans := map[0 := scan])
  {
    var s := NewFeed(WantedFeed, [AnyPost], early);
    var asked := Next(Plain, s, Ask);
    BelowAll(s.db.table, DEFAULT_FEEDS_QUERY_CURSOR);
    assert Below(s.db.table, DEFAULT_FEEDS_QUERY_CURSOR) == s.db.table;
    FilterNothing(s.db.table, IsPublished({}));
    RunNext(s, [], Ask);
    assert [] + [Ask] == [Ask] && [Ask] + [Begin(0)] == AskAndBegin;
    RunNext(s, [Ask], Begin(0));
    assert asked.asking - {0} == map[];
  }

  /** A query reads an empty page, the feed is edited and cleared, the query appends what matched
      the old filter: the feed publishes a post its filter rejects, and has its old version again. */
  lemma {:induction false} ClearDuringQueryBreaks()
    ensures var run := AskAndBegin + [Edit] + [Commit(0, 1)];
            var s := NewFeed(WantedFeed, [AnyPost], {});
            && TableOk(s.db.table) && Legal(Plain, s, run)
            && !UpwardClosed(Plain, After(Plain, s, run).db)
            && After(Plain, s, run).db.feed.updatedAt == WantedFeed.updatedAt
  {
    var s := NewFeed(WantedFeed, [AnyPost], {});
    AfterAsking({});
    DifferentFilters();
    RunNext(s, AskAndBegin, Edit);
    var edited := After(Plain, s, AskAndBegin + [Edit]);
    assert edited.db.feed.filter == OtherFilter && edited.db.table == [AnyPost];
    OneFound(edited.db, edited.scans[0]);
    RejectedByOther(edited.db.feed, AnyPost);
    RunNext(s, AskAndBegin + [Edit], Commit(0, 1));
    var done := After(Plain, s, AskAndBegin + [Edit] + [Commit(0, 1)]);
    assert AnyPost in Found(Plain, edited.db, edited.scans[0], 1);
    assert 1 in done.db.published;
  }

  /** A publisher reads the feed, the feed is edited and cleared, the publisher stores its post: the feed
      publishes a post its filter rejects. */
  lemma {:induction false} ClearDuringPublishBreaks()
    ensures var run := [FeedRuns.Read(0)] + [Edit] + [Store(0, AnyPost)];
            var s := NewFeed(WantedFeed, [], {});
            && TableOk(s.db.table) && Legal(Plain, s, run)
            && !UpwardClosed(Plain, After(Plain, s, run).db)
  {
    var s := NewFeed(WantedFeed, [], {});
    RunNext(s, [], FeedRuns.Read(0));
    assert [] + [FeedRuns.Read(0)] == [FeedRuns.Read(0)];
    DifferentFilters();
    RunNext(s, [FeedRuns.Read(0)], Edit);
    var edited := After(Plain, s, [FeedRuns.Read(0)] + [Edit]);
    assert edited.db.feed.filter == OtherFilter && edited.db.table == [] && edited.drafts[0].feed == Some(WantedFeed);
    assert [] + [AnyPost] == [AnyPost];
    JudgedByWanted(AnyPost);
    RunNext(s, [FeedRuns.Read(0)] + [Edit], Store(0, AnyPost));
    var done := Next(Plain, edited, Store(0, AnyPost));
    RejectedByOther(done.db.feed, AnyPost);
    assert 1 in done.db.published && done.db.table == [AnyPost];
  }

  /** The query has published the only post there is. */
  lemma {:induction false} AfterPublishing(early: set<nat>)
    ensures var s, run := NewFeed(WantedFeed, [AnyPost], early), AskAndBegin + [Commit(0, 1)];
            && Legal(Plain, s, run)
            && After(Plain, s, run).db == Db(WantedFeed, [AnyPost], {1}) && After(Plain, s, run).drafts == s.drafts
  {
    var s := NewFeed(WantedFeed, [AnyPost], early);
    AfterAsking(early);
    var begun := After(Plain, s, AskAndBegin);
    OneFound(begun.db, begun.scans[0]);
    RunNext(s, AskAndBegin, Commit(0, 1));
    assert Cursors([AnyPost]) == {1};
  }

  /** A publisher reads its feeds, this feed is created and queried, the publisher stores its post: an
      eligible post stays unpublished above a published one. */
  lemma {:induction false} CreationDuringPublishBreaks()
    ensures var run := AskAndBegin + [Commit(0, 1)] + [Store(7, TopPost)];
            var s := NewFeed(WantedFeed, [AnyPost], {7});
            && TableOk(s.db.table) && Legal(Plain, s, run)
            && !UpwardClosed(Plain, After(Plain, s, run).db)
  {
    var s, run := NewFeed(WantedFeed, [AnyPost], {7}), AskAndBegin + [Commit(0, 1)];
    AfterPublishing({7});
    var committed := After(Plain, s, run);
    assert [AnyPost] + [TopPost] == [AnyPost, TopPost];
    RunNext(s, run, Store(7, TopPost));
    var done := Next(Plain, committed, Store(7, TopPost));
    JudgedByWanted(TopPost);
    assert TopPost in done.db.table && 1 in done.db.published && 2 !in done.db.published;
  }

  lemma {:induction false} JudgedByWanted(p: Post)
    requires p.subSource == "s" && !p.inSharingChain && p.chain == PostChain("y", None)
    ensures Judged(Plain, Some(WantedFeed), p) == Some(true)
    ensures forall feed: Feed | feed.filter == WantedFeed.filter && feed.subSources == WantedFeed.subSources ::
            Eligible(Plain, feed, p)
  {
    assert OccursAt("y", "y", 0);
    ClosedRoundTrip(Wanted);
    assert Preloaded(p.chain) == p.chain;
  }

  lemma {:induction false} DifferentFilters()
    ensures AreJSONsEqual(WantedFeed.filter, OtherFilter) == Ok(false)
  {
    ClosedRoundTrip(Wanted);
    ClosedRoundTrip(Wrap("1", PredicateWrap(Predicate(LITERAL, "x"))));
    assert "x"[0] != "y"[0];
  }

  lemma {:induction false} OneFound(db: Db, scan: Scan)
    requires db.table == [AnyPost]
    requires scan == Scan(WantedFeed, 0, WantedFeed, 0, [], DEFAULT_FEEDS_QUERY_CURSOR, 1, 1, 0)
    ensures Found(Plain, db, scan, 1) == [AnyPost]
  {
    assert db.table[..1] == db.table;
    var below := Below(db.table, DEFAULT_FEEDS_QUERY_CURSOR);
    BelowAll(db.table, DEFAULT_FEEDS_QUERY_CURSOR);
    assert below == db.table;
    FilterAll(below, IsCandidate(WantedFeed));
    assert OccursAt("y", "y", 0);
    WantedMatches(1, "y");
    FilterAll(below, IsMatch(Plain, WantedFeed));
  }

  lemma {:induction false} RejectedByOther(feed: Feed, p: Post)
    requires feed.filter == OtherFilter && p.chain == PostChain("y", None)
    ensures !Eligible(Plain, feed, p)
  {
    ClosedRoundTrip(Wrap("1", PredicateWrap(Predicate(LITERAL, "x"))));
    forall k | 0 <= k <= 1
      ensures !OccursAt("y", "x", k)
    {
      if k == 0 {
        assert "y"[0..][0] == 'y' && "x"[0] == 'x';
      }
    }
  }
}
