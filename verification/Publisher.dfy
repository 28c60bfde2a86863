/**
 Storing crawled messages as posts, publisher/processor.go. The queue, failing reads and writes, restarts,
 fresh identifiers and the feeds of the moment come with each delivery; the semantic hash is left out.
 */
module Publisher {
  import opened Wrappers
  import opened Sequences
  import M = PostMatching
  import D = DataExpression

  /** A subsource is found by its name and source. */
  datatype Key = Key(name: string, sourceId: string)

  /** CrawlerMessage_CrawledPost; subSourceId is filled in while the message is processed. */
  datatype Crawled = Crawled(
    deduplicateId: string,
    content: string,
    generatedAt: int,
    subSource: Key,
    subSourceId: string,
    sharedFrom: Option<Crawled>,
    replyTo: Option<Crawled>)

  /** model.Post as it is written, with the rows that are written with it. */
  datatype Post = Post(
    deduplicateId: string,
    content: string,
    generatedAt: int,
    subSourceId: string,
    inSharingChain: bool,
    sharedFrom: Option<Post>,
    replyThread: seq<Post>,
    publishedFeeds: set<string>)

  datatype Feed = Feed(id: string, filter: M.FilterText, channels: seq<string>)

  datatype Decoding = Undecodable | WithoutPost | Message(post: Crawled)

  /** One delivery of a queue message and all that the outside decides about its processing: whether the
      process was restarted before it, whether the check for the id fails in the database, whether a
      subsource cannot be read back, which subsources cannot be created, and whether the post commits. */
  datatype Delivery = Delivery(
    decoding: Decoding,
    restarted: bool,
    lookupFails: bool,
    readFails: bool,
    uuid: Key -> string,
    refused: set<Key>,
    feeds: map<Key, seq<Feed>>,
    committed: bool)

  datatype Result = BadMessage | Crashed | Duplicate | NoSubSource | FilterFailed | NotCommitted | Stored

  /** The posts, the subsources, and the ids that the running process knows to be stored. */
  datatype Tables = Tables(posts: seq<Post>, subSources: map<Key, string>, known: set<string>)

  /** What one delivery leads to: the tables after it, and the channels it is pushed to. */
  datatype Effect = Effect(tables: Tables, result: Result, pushed: set<string>)

  // ---------- the rows of a post ----------

  /** The deduplication ids of all rows that a post is stored with. */
  function PostIds(p: Post): set<string>
    decreases p, 1
  {
    {p.deduplicateId} + (if p.sharedFrom.Some? then PostIds(p.sharedFrom.value) else {}) + Ids(p.replyThread)
  }

  function Ids(posts: seq<Post>): set<string>
    decreases posts, 0
  {
    if posts == [] then {} else Ids(posts[..|posts| - 1]) + PostIds(Last(posts))
  }

  lemma {:induction false} IdsAppend(posts: seq<Post>, p: Post)
    ensures Ids(posts + [p]) == Ids(posts) + PostIds(p)
  {
    assert (posts + [p])[..|posts|] == posts;
  }

  /** The post itself, a post along the ones it shares, or one of its reply thread has the id. */
  ghost predicate HasRow(p: Post, id: string) {
    || p.deduplicateId == id
    || (p.sharedFrom.Some? && HasRow(p.sharedFrom.value, id))
    || exists k | 0 <= k < |p.replyThread| :: HasRow(p.replyThread[k], id)
  }

  lemma {:induction false} PostIdsIff(p: Post, id: string)
    ensures id in PostIds(p) <==> HasRow(p, id)
    decreases p, 1
  {
    if p.sharedFrom.Some? {
      PostIdsIff(p.sharedFrom.value, id);
    }
    IdsIff(p.replyThread, id);
  }

  /** An id is found exactly when some stored row has it. */
  lemma {:induction false} IdsIff(posts: seq<Post>, id: string)
    ensures id in Ids(posts) <==> exists k | 0 <= k < |posts| :: HasRow(posts[k], id)
    decreases posts, 0
  {
    if posts == [] {
    } else {
      var init := posts[..|posts| - 1];
      IdsIff(init, id);
      PostIdsIff(Last(posts), id);
      assert forall k | 0 <= k < |init| :: init[k] == posts[k];
      if HasRow(Last(posts), id) {
        assert HasRow(posts[|posts| - 1], id);
      }
    }
  }

  // ---------- subsources ----------

  function IdOf(subs: map<Key, string>, key: Key, d: Delivery): string {
    if key in subs then subs[key] else d.uuid(key)
  }

  function Keys(p: Crawled): set<Key> {
    {p.subSource} + (if p.sharedFrom.Some? then Keys(p.sharedFrom.value) else {})
    + (if p.replyTo.Some? then Keys(p.replyTo.value) else {})
  }

  /** The subsources a message needs are added, but for those the database refuses. */
  function WithKeys(subs: map<Key, string>, keys: set<Key>, d: Delivery): map<Key, string> {
    subs + map k | k in keys - d.refused && k !in subs :: d.uuid(k)
  }

  /** Every post of the message, marked with the id of its subsource. */
  function Tagged(subs: map<Key, string>, p: Crawled, d: Delivery): Crawled {
    p.(subSourceId := IdOf(subs, p.subSource, d),
       sharedFrom := if p.sharedFrom.Some? then Some(Tagged(subs, p.sharedFrom.value, d)) else None,
       replyTo := if p.replyTo.Some? then Some(Tagged(subs, p.replyTo.value, d)) else None)
  }

  lemma {:induction false} WithKeysTwice(subs: map<Key, string>, a: set<Key>, b: set<Key>, d: Delivery)
    ensures WithKeys(WithKeys(subs, a, d), b, d) == WithKeys(subs, a + b, d)
    ensures forall k :: IdOf(WithKeys(subs, a, d), k, d) == IdOf(subs, k, d)
  {
  }

  lemma {:induction false} TaggedStable(subs: map<Key, string>, keys: set<Key>, p: Crawled, d: Delivery)
    ensures Tagged(WithKeys(subs, keys, d), p, d) == Tagged(subs, p, d)
  {
    WithKeysTwice(subs, keys, {}, d);
    if p.sharedFrom.Some? {
      TaggedStable(subs, keys, p.sharedFrom.value, d);
    }
    if p.replyTo.Some? {
      TaggedStable(subs, keys, p.replyTo.value, d);
    }
  }

  // ---------- preparing the post ----------

  /** A message along ReplyTo, the newest first. */
  function Chain(p: Crawled): (r: seq<Crawled>)
    ensures r != [] && r[0] == p
  {
    [p] + if p.replyTo.Some? then Chain(p.replyTo.value) else []
  }

  function Built(p: Crawled, isRoot: bool): Post
    decreases p, 1
  {
    Post(p.deduplicateId, p.content, p.generatedAt, p.subSourceId, !isRoot,
         if p.sharedFrom.Some? then Some(Built(p.sharedFrom.value, false)) else None,
         if isRoot && p.replyTo.Some? then BuiltThread(p.replyTo.value) else [],
         {})
  }

  /** The parent first, the oldest ancestor last. */
  function BuiltThread(p: Crawled): seq<Post>
    decreases p, 2
  {
    [Built(p, false)] + if p.replyTo.Some? then BuiltThread(p.replyTo.value) else []
  }

  /** Whether every post that gets a row has an existing subsource. */
  predicate Placed(ids: set<string>, p: Crawled, isRoot: bool)
    decreases p, 1
  {
    && p.subSourceId in ids
    && (p.sharedFrom.Some? ==> Placed(ids, p.sharedFrom.value, false))
    && (isRoot && p.replyTo.Some? ==> PlacedThread(ids, p.replyTo.value))
  }

  predicate PlacedThread(ids: set<string>, p: Crawled)
    decreases p, 2
  {
    Placed(ids, p, false) && (p.replyTo.Some? ==> PlacedThread(ids, p.replyTo.value))
  }

  /** The posts of a message that get a row. */
  function RowKeys(p: Crawled, isRoot: bool): set<Key>
    decreases p, 1
  {
    {p.subSource} + (if p.sharedFrom.Some? then RowKeys(p.sharedFrom.value, false) else {})
    + (if isRoot && p.replyTo.Some? then ThreadKeys(p.replyTo.value) else {})
  }

  function ThreadKeys(p: Crawled): set<Key>
    decreases p, 2
  {
    RowKeys(p, false) + if p.replyTo.Some? then ThreadKeys(p.replyTo.value) else {}
  }

  /** Identifiers of new subsources are new and different from one another. */
  ghost predicate FreshIds(subs: map<Key, string>, d: Delivery) {
    && (forall k :: d.uuid(k) !in subs.Values)
    && (forall k, l | k != l :: d.uuid(k) != d.uuid(l))
  }

  lemma {:induction false} PlacedKey(subs: map<Key, string>, keys: set<Key>, key: Key, d: Delivery)
    requires FreshIds(subs, d) && key in keys
    ensures IdOf(subs, key, d) in WithKeys(subs, keys, d).Values <==> key in subs || key !in d.refused
  {
    var all := WithKeys(subs, keys, d);
    if key in subs || key !in d.refused {
      assert all[key] == IdOf(subs, key, d);
    } else {
      forall k | k in all
        ensures all[k] != d.uuid(key)
      {
        if k in subs {
          assert all[k] in subs.Values;
        }
      }
    }
  }

  lemma {:induction false} RowKeysAreKeys(p: Crawled, isRoot: bool)
    ensures RowKeys(p, isRoot) <= Keys(p)
    decreases p, 1
  {
    if p.sharedFrom.Some? {
      RowKeysAreKeys(p.sharedFrom.value, false);
    }
    if isRoot && p.replyTo.Some? {
      ThreadKeysAreKeys(p.replyTo.value);
    }
  }

  lemma {:induction false} ThreadKeysAreKeys(p: Crawled)
    ensures ThreadKeys(p) <= Keys(p)
    decreases p, 2
  {
    RowKeysAreKeys(p, false);
    if p.replyTo.None? {
    } else {
      ThreadKeysAreKeys(p.replyTo.value);
    }
  }

  /** After the subsources are prepared, a post fails to be built exactly when the database refused
      to create a subsource that one of its rows needs. */
  lemma {:induction false} PlacedIff(subs: map<Key, string>, keys: set<Key>, p: Crawled, isRoot: bool, d: Delivery)
    requires FreshIds(subs, d) && Keys(p) <= keys
    ensures Placed(WithKeys(subs, keys, d).Values, Tagged(subs, p, d), isRoot) <==>
            forall k | k in RowKeys(p, isRoot) :: k in subs || k !in d.refused
    decreases p, 1
  {
    PlacedKey(subs, keys, p.subSource, d);
    if p.sharedFrom.Some? {
      PlacedIff(subs, keys, p.sharedFrom.value, false, d);
    }
    if isRoot && p.replyTo.Some? {
      PlacedThreadIff(subs, keys, p.replyTo.value, d);
    }
  }

  lemma {:induction false} PlacedThreadIff(subs: map<Key, string>, keys: set<Key>, p: Crawled, d: Delivery)
    requires FreshIds(subs, d) && Keys(p) <= keys
    ensures PlacedThread(WithKeys(subs, keys, d).Values, Tagged(subs, p, d)) <==>
            forall k | k in ThreadKeys(p) :: k in subs || k !in d.refused
    decreases p, 2
  {
    PlacedIff(subs, keys, p, false, d);
    if p.replyTo.None? {
    } else {
      PlacedThreadIff(subs, keys, p.replyTo.value, d);
    }
  }

  // ---------- choosing the feeds ----------

  /** What a filter can see of a post: its content and the posts it shares, but not its reply thread. */
  function Visible(p: Post): M.PostChain {
    M.PostChain(p.content, if p.sharedFrom.Some? then Some(Visible(p.sharedFrom.value)) else None)
  }

  function Match(lower: string -> string, feed: Feed, post: Post): Outcome<bool> {
    M.DataExpressionMatchPostChain(lower, feed.filter, Visible(post))
  }

  /** The document holds of the message's post, or of one along the posts it shares. */
  ghost predicate HoldsAlong(lower: string -> string, j: D.Json, p: Crawled) {
    M.DocumentHolds(lower, j, p.content) || (p.sharedFrom.Some? && HoldsAlong(lower, j, p.sharedFrom.value))
  }

  /** A filter that can be read: blank, or a well-formed document. */
  ghost predicate Answers(filter: M.FilterText) {
    filter.Blank? || (filter.Document? && D.WellFormed(filter.json))
  }

  ghost predicate Panics(filter: M.FilterText) {
    filter.Document? && D.HasNil(filter.json)
  }

  ghost predicate WantedBy(lower: string -> string, filter: M.FilterText, p: Crawled) {
    Answers(filter) && (filter.Document? ==> HoldsAlong(lower, filter.json, p))
  }

  lemma {:induction false} HoldsAlongIff(lower: string -> string, j: D.Json, subs: map<Key, string>, p: Crawled,
      d: Delivery, isRoot: bool)
    ensures M.SomePostHolds(lower, j, M.Contents(Visible(Built(Tagged(subs, p, d), isRoot)))) <==>
            HoldsAlong(lower, j, p)
  {
    var contents := M.Contents(Visible(Built(Tagged(subs, p, d), isRoot)));
    assert contents[0] == p.content;
    if p.sharedFrom.Some? {
      var rest := M.Contents(Visible(Built(Tagged(subs, p.sharedFrom.value, d), false)));
      HoldsAlongIff(lower, j, subs, p.sharedFrom.value, d, false);
      assert contents == [p.content] + rest;
      assert forall k | 0 <= k < |rest| :: rest[k] == contents[k + 1];
      assert forall k | 1 <= k < |contents| :: contents[k] == rest[k - 1];
    } else {
      assert contents == [p.content];
    }
  }

  /** How a feed's filter answers on the post that is built from a message: by the contents of the message. */
  lemma {:induction false} MatchIff(lower: string -> string, feed: Feed, subs: map<Key, string>, p: Crawled,
      d: Delivery)
    ensures var answer := Match(lower, feed, Built(Tagged(subs, p, d), true));
            && (answer.Ok? <==> Answers(feed.filter))
            && (answer.Panic? <==> Panics(feed.filter))
            && (answer == Ok(true) <==> WantedBy(lower, feed.filter, p))
  {
    M.ChainMatchesSomePost(lower, feed.filter, Visible(Built(Tagged(subs, p, d), true)));
    if feed.filter.Document? {
      D.AcceptsExactlyWellFormed(feed.filter.json);
      D.PanicsExactlyOnNil(feed.filter.json);
      HoldsAlongIff(lower, feed.filter.json, subs, p, d, true);
    }
  }

  /** Feeds by id: of two with one id the later counts. */
  function Candidates(feeds: seq<Feed>): map<string, Feed> {
    if feeds == [] then map[] else Candidates(feeds[..|feeds| - 1])[Last(feeds).id := Last(feeds)]
  }

  ghost predicate HasId(feeds: seq<Feed>, id: string) {
    exists i | 0 <= i < |feeds| :: feeds[i].id == id
  }

  /** No later feed of the list has the id of the i-th. */
  ghost predicate IsLast(feeds: seq<Feed>, i: nat)
    requires i < |feeds|
  {
    forall j | i < j < |feeds| :: feeds[j].id != feeds[i].id
  }

  lemma {:induction false} CandidateIds(feeds: seq<Feed>, id: string)
    ensures id in Candidates(feeds) <==> HasId(feeds, id)
  {
    if feeds == [] {
    } else {
      var init := feeds[..|feeds| - 1];
      CandidateIds(init, id);
      assert forall i | 0 <= i < |init| :: init[i] == feeds[i];
      if Last(feeds).id == id {
        assert feeds[|feeds| - 1].id == id;
      }
    }
  }

  lemma {:induction false} CandidateIsLast(feeds: seq<Feed>, i: nat)
    requires i < |feeds| && IsLast(feeds, i)
    ensures feeds[i].id in Candidates(feeds) && Candidates(feeds)[feeds[i].id] == feeds[i]
  {
    if i == |feeds| - 1 {
    } else {
      var init := feeds[..|feeds| - 1];
      assert feeds[|feeds| - 1].id != feeds[i].id;
      assert forall j | 0 <= j < |init| :: init[j] == feeds[j];
      CandidateIsLast(init, i);
    }
  }

  /** The candidates are the feeds of the list, each id with the last feed that has it. */
  ghost predicate IsLastById(candidates: map<string, Feed>, feeds: seq<Feed>) {
    && (forall id :: id in candidates <==> HasId(feeds, id))
    && (forall i | 0 <= i < |feeds| && IsLast(feeds, i) ::
       feeds[i].id in candidates && candidates[feeds[i].id] == feeds[i])
  }

  lemma {:induction false} CandidatesAreLastById(feeds: seq<Feed>)
    ensures IsLastById(Candidates(feeds), feeds)
  {
    forall id
      ensures id in Candidates(feeds) <==> HasId(feeds, id)
    {
      CandidateIds(feeds, id);
    }
    forall i | 0 <= i < |feeds| && IsLast(feeds, i)
      ensures feeds[i].id in Candidates(feeds) && Candidates(feeds)[feeds[i].id] == feeds[i]
    {
      CandidateIsLast(feeds, i);
    }
  }

  /** Every candidate is the last feed of the list with its id. */
  lemma {:induction false} CandidateAt(feeds: seq<Feed>, id: string) returns (i: nat)
    requires id in Candidates(feeds)
    ensures i < |feeds| && IsLast(feeds, i) && feeds[i].id == id && Candidates(feeds)[id] == feeds[i]
  {
    var last := |feeds| - 1;
    if feeds[last].id == id {
      i := last;
    } else {
      var init := feeds[..last];
      i := CandidateAt(init, id);
      assert forall j | 0 <= j < last :: init[j] == feeds[j];
    }
  }

  predicate SomeMatchPanics(lower: string -> string, candidates: map<string, Feed>, post: Post) {
    exists id | id in candidates :: Match(lower, candidates[id], post).Panic?
  }

  predicate SomeMatchFails(lower: string -> string, candidates: map<string, Feed>, post: Post) {
    exists id | id in candidates :: Match(lower, candidates[id], post).Error?
  }

  function Matched(lower: string -> string, candidates: map<string, Feed>, post: Post): set<string> {
    set id | id in candidates && Match(lower, candidates[id], post) == Ok(true)
  }

  /** Which of some feeds a post goes to: the feeds that match, unless a filter fails. */
  type Judge = (map<string, Feed>, Post) -> Outcome<set<string>>

  /** The judge of the source; what follows holds for any. */
  function Matcher(lower: string -> string): Judge {
    (candidates, post) =>
      if SomeMatchPanics(lower, candidates, post) then Panic
      else if SomeMatchFails(lower, candidates, post) then Error
      else Ok(Matched(lower, candidates, post))
  }

  function Channels(candidates: map<string, Feed>, ids: set<string>): set<string> {
    set id, c | id in ids && id in candidates && c in candidates[id].channels :: c
  }

  // ---------- one delivery ----------

  function CandidatesOf(subs: map<Key, string>, p: Crawled, d: Delivery): map<string, Feed> {
    if p.subSource in subs && p.subSource in d.feeds then Candidates(d.feeds[p.subSource]) else map[]
  }

  /** The i-th feed of the message's subsource is asked: the subsource existed before the message, and no later
      feed of it has the same id. */
  ghost predicate IsAsked(subs: map<Key, string>, p: Crawled, d: Delivery, i: nat) {
    p.subSource in subs && p.subSource in d.feeds && i < |d.feeds[p.subSource]| && IsLast(d.feeds[p.subSource], i)
  }

  ghost function FeedAt(p: Crawled, d: Delivery, i: nat): Feed
    requires p.subSource in d.feeds && i < |d.feeds[p.subSource]|
  {
    d.feeds[p.subSource][i]
  }

  lemma {:induction false} AskedIsCandidate(subs: map<Key, string>, p: Crawled, d: Delivery, i: nat)
    requires IsAsked(subs, p, d, i)
    ensures FeedAt(p, d, i).id in CandidatesOf(subs, p, d)
    ensures CandidatesOf(subs, p, d)[FeedAt(p, d, i).id] == FeedAt(p, d, i)
  {
    CandidateIsLast(d.feeds[p.subSource], i);
  }

  lemma {:induction false} CandidateIsAsked(subs: map<Key, string>, p: Crawled, d: Delivery, id: string)
      returns (i: nat)
    requires id in CandidatesOf(subs, p, d)
    ensures IsAsked(subs, p, d, i) && FeedAt(p, d, i).id == id && CandidatesOf(subs, p, d)[id] == FeedAt(p, d, i)
  {
    i := CandidateAt(d.feeds[p.subSource], id);
  }

  /** isPostExist: the cache, or else the database, whose failure counts as absence. */
  predicate FoundStored(t: Tables, d: Delivery, id: string) {
    id in t.known || (!d.lookupFails && id in Ids(t.posts))
  }

  /** ProcessOneCralwerMessage */
  function Process(judge: Judge, t: Tables, d: Delivery): Effect {
    match d.decoding
    case Undecodable => Effect(t, BadMessage, {})
    case WithoutPost => Effect(t, Crashed, {})
    case Message(p) =>
      if FoundStored(t, d, p.deduplicateId) then Effect(t.(known := t.known + {p.deduplicateId}), Duplicate, {})
      else ProcessNew(judge, t, d, p)
  }

  /** What follows when the message is not found to be stored. */
  function ProcessNew(judge: Judge, t: Tables, d: Delivery, p: Crawled): Effect {
    var t' := t.(subSources := WithKeys(t.subSources, Keys(p), d));
    if d.readFails || !Placed(t'.subSources.Values, Tagged(t.subSources, p, d), true) then Effect(t', NoSubSource, {})
    else Publish(judge, t', CandidatesOf(t.subSources, p, d), Built(Tagged(t.subSources, p, d), true), d.committed)
  }

  function Publish(judge: Judge, t: Tables, candidates: map<string, Feed>, post: Post, committed: bool): Effect {
    match judge(candidates, post)
    case Panic => Effect(t, Crashed, {})
    case Error => Effect(t, FilterFailed, {})
    case Ok(feeds) =>
      var pushed := Channels(candidates, feeds);
      if committed then Effect(t.(posts := t.posts + [post.(publishedFeeds := feeds)]), Stored, pushed)
      else Effect(t, NotCommitted, pushed)
  }

  predicate Succeeds(result: Result) {
    result == Duplicate || result == Stored
  }

  /** The id that a delivery brings, if it can be decoded. */
  predicate Carries(d: Delivery, id: string) {
    d.decoding.Message? && d.decoding.post.deduplicateId == id
  }

  /** Every cached id has a row. */
  ghost predicate KnownOk(t: Tables) {
    t.known <= Ids(t.posts)
  }

  /** A delivery either leaves the posts alone or appends one root post with the message's id; that id had
      no row before unless the check for it failed. The cache stays within the stored ids. */
  lemma {:induction false} OneStep(judge: Judge, t: Tables, d: Delivery)
    requires KnownOk(t)
    ensures var e := Process(judge, t, d);
            && (e.result != Stored ==> e.tables.posts == t.posts)
            && (e.result == Stored ==>
                  d.decoding.Message? && AppendsRoot(t, e.tables, d, d.decoding.post.deduplicateId))
            && Ids(t.posts) <= Ids(e.tables.posts) && KnownOk(e.tables)
            && (d.decoding.Message? && Succeeds(e.result) ==> d.decoding.post.deduplicateId in Ids(e.tables.posts))
  {
    var e := Process(judge, t, d);
    if e.result == Stored {
      var post := Last(e.tables.posts);
      assert e.tables.posts == t.posts + [post];
      IdsAppend(t.posts, post);
      assert post.deduplicateId in PostIds(post);
    }
  }

  ghost predicate AppendsRoot(t: Tables, after: Tables, d: Delivery, id: string) {
    && |after.posts| == |t.posts| + 1 && after.posts[..|t.posts|] == t.posts
    && Last(after.posts).deduplicateId == id && !Last(after.posts).inSharingChain
    && id !in t.known && (id in Ids(t.posts) ==> d.lookupFails)
  }

  /** No read fails, no needed subsource is refused, the filter of every feed that is asked can be read, and
      the commit holds. */
  ghost predicate CanStore(t: Tables, d: Delivery, p: Crawled) {
    && !d.readFails
    && (forall k | k in RowKeys(p, true) :: k in t.subSources || k !in d.refused)
    && (forall i: nat | IsAsked(t.subSources, p, d, i) :: Answers(FeedAt(p, d, i).filter))
    && d.committed
  }

  /** Whether all candidates answer, or which way one fails. */
  lemma {:induction false} JudgedIff(lower: string -> string, subs: map<Key, string>, p: Crawled, d: Delivery)
    ensures var verdict := Matcher(lower)(CandidatesOf(subs, p, d), Built(Tagged(subs, p, d), true));
            && (verdict.Panic? <==> exists i: nat :: IsAsked(subs, p, d, i) && Panics(FeedAt(p, d, i).filter))
            && (verdict.Ok? <==> forall i: nat | IsAsked(subs, p, d, i) :: Answers(FeedAt(p, d, i).filter))
  {
    var candidates, post := CandidatesOf(subs, p, d), Built(Tagged(subs, p, d), true);
    forall id | id in candidates
      ensures Match(lower, candidates[id], post).Ok? <==> Answers(candidates[id].filter)
      ensures Match(lower, candidates[id], post).Panic? <==> Panics(candidates[id].filter)
      ensures exists i: nat :: IsAsked(subs, p, d, i) && FeedAt(p, d, i) == candidates[id]
    {
      MatchIff(lower, candidates[id], subs, p, d);
      var i := CandidateIsAsked(subs, p, d, id);
    }
    forall i: nat | IsAsked(subs, p, d, i)
      ensures FeedAt(p, d, i).id in candidates && candidates[FeedAt(p, d, i).id] == FeedAt(p, d, i)
    {
      AskedIsCandidate(subs, p, d, i);
    }
  }

  /** When exactly a message is stored, as long as fresh identifiers are fresh: its id is not cached, and
      has no row or the check for it fails; and nothing keeps it from being stored. */
  lemma {:induction false} StoredIff(lower: string -> string, t: Tables, d: Delivery)
    requires d.decoding.Message? && FreshIds(t.subSources, d)
    ensures var p := d.decoding.post;
            Process(Matcher(lower), t, d).result == Stored <==>
            && p.deduplicateId !in t.known && (p.deduplicateId !in Ids(t.posts) || d.lookupFails)
            && CanStore(t, d, p)
  {
    PlacedIff(t.subSources, Keys(d.decoding.post), d.decoding.post, true, d);
    JudgedIff(lower, t.subSources, d.decoding.post, d);
  }

  // ---------- pushes ----------

  lemma {:induction false} SameDelivery(subs: map<Key, string>, p: Crawled, d: Delivery, d': Delivery)
    requires d'.uuid == d.uuid && d'.refused == d.refused
    ensures Tagged(subs, p, d') == Tagged(subs, p, d)
    ensures forall keys :: WithKeys(subs, keys, d') == WithKeys(subs, keys, d)
  {
    if p.sharedFrom.Some? {
      SameDelivery(subs, p.sharedFrom.value, d, d');
    }
    if p.replyTo.Some? {
      SameDelivery(subs, p.replyTo.value, d, d');
    }
  }

  /** A delivery again: other luck with the check and the commit, otherwise as before. */
  function Again(d: Delivery, lookupFails: bool, committed: bool): Delivery {
    d.(lookupFails := lookupFails, committed := committed)
  }

  /** Everything a push depends on but the check for the id. */
  function PushOf(judge: Judge, subs: map<Key, string>, d: Delivery, p: Crawled): set<string> {
    var post, candidates := Built(Tagged(subs, p, d), true), CandidatesOf(subs, p, d);
    if d.readFails || !Placed(WithKeys(subs, Keys(p), d).Values, Tagged(subs, p, d), true) ||
      !judge(candidates, post).Ok? then {}
    else Channels(candidates, judge(candidates, post).value)
  }

  lemma {:induction false} PushedIff(judge: Judge, t: Tables, d: Delivery)
    requires d.decoding.Message?
    ensures Process(judge, t, d).pushed ==
            if FoundStored(t, d, d.decoding.post.deduplicateId) then {}
              else PushOf(judge, t.subSources, d, d.decoding.post)
  {
  }

  lemma {:induction false} PushOfStays(judge: Judge, subs: map<Key, string>, d: Delivery, d': Delivery, p: Crawled)
    requires d'.uuid == d.uuid && d'.refused == d.refused && d'.feeds == d.feeds && d'.readFails == d.readFails
    requires p.subSource in subs
    ensures PushOf(judge, WithKeys(subs, Keys(p), d), d', p) == PushOf(judge, subs, d, p)
  {
    var subs' := WithKeys(subs, Keys(p), d);
    WithKeysTwice(subs, Keys(p), Keys(p), d);
    assert Keys(p) + Keys(p) == Keys(p);
    TaggedStable(subs, Keys(p), p, d);
    SameDelivery(subs', p, d, d');
    assert subs'[p.subSource] == subs[p.subSource];
  }

  /** A push does not wait for the commit. A message and its redelivery are both pushed, and then to the
      same channels, exactly when the first is pushed and the second does not find it stored: because the
      first did not commit, or because the check fails. While checks work, it is the commit alone. */
  lemma {:induction false} PushedTwiceIff(judge: Judge, t: Tables, d: Delivery, lookupFails: bool, committed: bool)
    requires d.decoding.Message? && KnownOk(t)
    ensures var first := Process(judge, t, d);
            var second := Process(judge, first.tables, Again(d, lookupFails, committed));
            var id := d.decoding.post.deduplicateId;
            && (first.pushed != {} && second.pushed != {} <==>
                first.pushed != {} && (lookupFails || id !in Ids(first.tables.posts)))
            && (first.pushed != {} && second.pushed != {} ==> second.pushed == first.pushed)
            && (!d.lookupFails && !lookupFails ==>
                  (first.pushed != {} && second.pushed != {} <==> first.pushed != {} && first.result == NotCommitted))
  {
    var first := Process(judge, t, d);
    var p, again := d.decoding.post, Again(d, lookupFails, committed);
    OneStep(judge, t, d);
    if first.pushed != {} {
      assert p.subSource in t.subSources;
      assert first.tables.subSources == WithKeys(t.subSources, Keys(p), d) && first.tables.known == t.known;
      PushedIff(judge, t, d);
      PushedIff(judge, first.tables, again);
      PushOfStays(judge, t.subSources, d, again, p);
    }
  }

  // ---------- all runs ----------

  /** A way to process deliveries. What runs need of it is said in Lawful. */
  type Processing = (Tables, Delivery) -> Effect

  function Handler(judge: Judge): Processing {
    (t, d) => Process(judge, t, d)
  }

  /** No check fails for an id that has a row. */
  ghost predicate CheckTells(t: Tables, d: Delivery) {
    d.decoding.Message? && d.lookupFails ==> d.decoding.post.deduplicateId !in Ids(t.posts)
  }

  /** The same posts and subsources, whatever is cached. */
  ghost predicate SameStored(a: Tables, b: Tables) {
    a.posts == b.posts && a.subSources == b.subSources
  }

  ghost predicate StepFacts(t: Tables, d: Delivery, e: Effect) {
    && KnownOk(e.tables) && Ids(t.posts) <= Ids(e.tables.posts)
    && (e.result != Stored ==> e.tables.posts == t.posts)
    && (e.result == Stored ==> d.decoding.Message? && AppendsRoot(t, e.tables, d, d.decoding.post.deduplicateId))
    && (d.decoding.Message? && Succeeds(e.result) ==> d.decoding.post.deduplicateId in Ids(e.tables.posts))
    && (e.result == Duplicate <==> d.decoding.Message? && FoundStored(t, d, d.decoding.post.deduplicateId))
    && (e.result == Duplicate ==> e == Effect(t.(known := t.known + {d.decoding.post.deduplicateId}), Duplicate, {}))
  }

  ghost predicate SameButCache(a: Effect, b: Effect) {
    SameStored(a.tables, b.tables) && a.result == b.result && a.pushed == b.pushed
  }

  /** Each step has its facts, and where the check tells, the cache makes no difference. */
  ghost predicate Lawful(step: Processing) {
    && (forall t, d | KnownOk(t) :: StepFacts(t, d, step(t, d)))
    && (forall a, b, d | KnownOk(a) && KnownOk(b) && SameStored(a, b) && CheckTells(a, d) ::
       SameButCache(step(a, d), step(b, d)))
  }

  lemma {:induction false} CacheIsInvisible(judge: Judge, a: Tables, b: Tables, d: Delivery)
    requires KnownOk(a) && KnownOk(b) && SameStored(a, b) && CheckTells(a, d)
    ensures SameButCache(Process(judge, a, d), Process(judge, b, d))
  {
    if d.decoding.Message? {
      var id := d.decoding.post.deduplicateId;
      assert FoundStored(a, d, id) == FoundStored(b, d, id);
    }
  }

  lemma {:induction false} HandlerIsLawful(judge: Judge)
    ensures Lawful(Handler(judge))
  {
    forall t, d | KnownOk(t)
      ensures StepFacts(t, d, Handler(judge)(t, d))
    {
      OneStep(judge, t, d);
    }
    forall a, b, d | KnownOk(a) && KnownOk(b) && SameStored(a, b) && CheckTells(a, d)
      ensures SameButCache(Handler(judge)(a, d), Handler(judge)(b, d))
    {
      CacheIsInvisible(judge, a, b, d);
    }
  }

  /** A restart before the delivery, or a crash in it, empties the cache. */
  function Met(t: Tables, d: Delivery): Tables {
    if d.restarted then t.(known := {}) else t
  }

  function Step(step: Processing, t: Tables, d: Delivery): Tables {
    var e := step(Met(t, d), d);
    if e.result == Crashed then e.tables.(known := {}) else e.tables
  }

  /** The tables after the first n deliveries. */
  function Run(step: Processing, t: Tables, ds: seq<Delivery>, n: nat): Tables
    requires n <= |ds|
  {
    if n == 0 then t else Step(step, Run(step, t, ds, n - 1), ds[n - 1])
  }

  /** The tables that the i-th delivery meets, and what it leads to. */
  function MetBy(step: Processing, t: Tables, ds: seq<Delivery>, i: nat): Tables
    requires i < |ds|
  {
    Met(Run(step, t, ds, i), ds[i])
  }

  function StepOf(step: Processing, t: Tables, ds: seq<Delivery>, i: nat): Effect
    requires i < |ds|
  {
    step(MetBy(step, t, ds, i), ds[i])
  }

  /** What a step does to the tables before it. */
  lemma {:induction false} RunStep(step: Processing, t: Tables, ds: seq<Delivery>, i: nat)
    requires i < |ds| && Lawful(step) && KnownOk(Run(step, t, ds, i))
    ensures KnownOk(MetBy(step, t, ds, i)) && StepFacts(MetBy(step, t, ds, i), ds[i], StepOf(step, t, ds, i))
    ensures KnownOk(Run(step, t, ds, i + 1))
    ensures Run(step, t, ds, i + 1).posts == StepOf(step, t, ds, i).tables.posts
    ensures MetBy(step, t, ds, i).posts == Run(step, t, ds, i).posts
  {
    assert StepFacts(MetBy(step, t, ds, i), ds[i], step(MetBy(step, t, ds, i), ds[i]));
  }

  /** The cache never holds an id without a row. */
  lemma {:induction false} RunKeepsKnownOk(step: Processing, t: Tables, ds: seq<Delivery>, n: nat)
    requires n <= |ds| && Lawful(step) && KnownOk(t)
    ensures KnownOk(Run(step, t, ds, n))
  {
    if n == 0 {
    } else {
      RunKeepsKnownOk(step, t, ds, n - 1);
      RunStep(step, t, ds, n - 1);
    }
  }

  /** From the i-th delivery up to the n-th the process lives on: it is not restarted and does not crash. */
  ghost predicate LivesOn(step: Processing, t: Tables, ds: seq<Delivery>, i: nat, n: nat)
    requires n <= |ds|
  {
    forall k | i <= k < n :: !ds[k].restarted && StepOf(step, t, ds, k).result != Crashed
  }

  /** The i-th delivery is a duplicate of the id, and the process has lived on since. */
  ghost predicate CachedAt(step: Processing, t: Tables, ds: seq<Delivery>, i: nat, n: nat, id: string)
    requires i < n <= |ds|
  {
    StepOf(step, t, ds, i).result == Duplicate && Carries(ds[i], id) && LivesOn(step, t, ds, i + 1, n)
  }

  /** Only duplicates enter the cache, and only their own ids. */
  ghost predicate CachesDuplicates(step: Processing) {
    forall t, d, id :: id in step(t, d).tables.known <==>
                       id in t.known || (step(t, d).result == Duplicate && Carries(d, id))
  }

  lemma {:induction false} HandlerCachesDuplicates(judge: Judge)
    ensures CachesDuplicates(Handler(judge))
  {
  }

  ghost predicate EverCached(step: Processing, t: Tables, ds: seq<Delivery>, n: nat, id: string)
    requires n <= |ds|
  {
    exists i | 0 <= i < n :: CachedAt(step, t, ds, i, n, id)
  }

  lemma {:induction false} EverCachedNext(step: Processing, t: Tables, ds: seq<Delivery>, n: nat, id: string)
    requires n < |ds|
    ensures var result := StepOf(step, t, ds, n).result;
            EverCached(step, t, ds, n + 1, id) <==>
            || (result == Duplicate && Carries(ds[n], id))
            || (EverCached(step, t, ds, n, id) && !ds[n].restarted && result != Crashed)
  {
    var lives := !ds[n].restarted && StepOf(step, t, ds, n).result != Crashed;
    forall i | 0 <= i < n
      ensures CachedAt(step, t, ds, i, n + 1, id) <==> CachedAt(step, t, ds, i, n, id) && lives
    {
      LivesOnNext(step, t, ds, i + 1, n);
    }
    assert CachedAt(step, t, ds, n, n + 1, id) <==>
           StepOf(step, t, ds, n).result == Duplicate && Carries(ds[n], id);
    if EverCached(step, t, ds, n, id) && lives {
      var i :| 0 <= i < n && CachedAt(step, t, ds, i, n, id);
      assert CachedAt(step, t, ds, i, n + 1, id);
    }
    if EverCached(step, t, ds, n + 1, id) && !CachedAt(step, t, ds, n, n + 1, id) {
      var i :| 0 <= i < n + 1 && CachedAt(step, t, ds, i, n + 1, id);
      assert CachedAt(step, t, ds, i, n, id);
    }
  }

  lemma {:induction false} LivesOnNext(step: Processing, t: Tables, ds: seq<Delivery>, i: nat, n: nat)
    requires i <= n < |ds|
    ensures LivesOn(step, t, ds, i, n + 1) <==>
            LivesOn(step, t, ds, i, n) && !ds[n].restarted && StepOf(step, t, ds, n).result != Crashed
  {
  }

  lemma {:induction false} CacheOfRun(step: Processing, t: Tables, ds: seq<Delivery>, n: nat, id: string)
    requires n <= |ds| && CachesDuplicates(step)
    ensures id in Run(step, t, ds, n).known <==>
            (id in t.known && LivesOn(step, t, ds, 0, n)) || EverCached(step, t, ds, n, id)
  {
    if n == 0 {
    } else {
      CacheOfRun(step, t, ds, n - 1, id);
      EverCachedNext(step, t, ds, n - 1, id);
      CacheOfStep(step, t, ds, n - 1, id);
      LivesOnNext(step, t, ds, 0, n - 1);
    }
  }

  lemma {:induction false} CacheOfStep(step: Processing, t: Tables, ds: seq<Delivery>, n: nat, id: string)
    requires n < |ds| && CachesDuplicates(step)
    ensures var result := StepOf(step, t, ds, n).result;
            id in Run(step, t, ds, n + 1).known <==>
            || (result == Duplicate && Carries(ds[n], id))
            || (id in Run(step, t, ds, n).known && !ds[n].restarted && result != Crashed)
  {
    assert id in StepOf(step, t, ds, n).tables.known <==>
           || id in MetBy(step, t, ds, n).known
           || (StepOf(step, t, ds, n).result == Duplicate && Carries(ds[n], id));
  }

  /** Over any run, an id is cached exactly when a delivery of it was found to be a duplicate since the process
      began, or it was cached to begin with and the process has lived on. */
  lemma {:induction false} CachedIff(judge: Judge, t: Tables, ds: seq<Delivery>, id: string)
    ensures var step, n := Handler(judge), |ds|;
            id in Run(step, t, ds, n).known <==>
            (id in t.known && LivesOn(step, t, ds, 0, n)) || exists i | 0 <= i < n :: CachedAt(step, t, ds, i, n, id)
  {
    HandlerCachesDuplicates(judge);
    CacheOfRun(Handler(judge), t, ds, |ds|, id);
  }

  lemma {:induction false} RunGrows(step: Processing, t: Tables, ds: seq<Delivery>, i: nat, n: nat)
    requires i <= n <= |ds| && Lawful(step) && KnownOk(t)
    ensures Run(step, t, ds, i).posts <= Run(step, t, ds, n).posts
    ensures Ids(Run(step, t, ds, i).posts) <= Ids(Run(step, t, ds, n).posts)
  {
    if i == n {
    } else {
      RunGrows(step, t, ds, i, n - 1);
      RunKeepsKnownOk(step, t, ds, n - 1);
      RunStep(step, t, ds, n - 1);
    }
  }

  // ---------- roots ----------

  ghost predicate IsRoot(posts: seq<Post>, id: string) {
    exists i | 0 <= i < |posts| :: posts[i].deduplicateId == id
  }

  ghost predicate DistinctRoots(posts: seq<Post>) {
    forall i, j | 0 <= i < j < |posts| :: posts[i].deduplicateId != posts[j].deduplicateId
  }

  lemma {:induction false} RootHasRow(posts: seq<Post>, id: string)
    requires IsRoot(posts, id)
    ensures id in Ids(posts)
  {
    var i :| 0 <= i < |posts| && posts[i].deduplicateId == id;
    if i == |posts| - 1 {
      assert id in PostIds(Last(posts));
    } else {
      assert posts[..|posts| - 1][i].deduplicateId == id;
      RootHasRow(posts[..|posts| - 1], id);
    }
  }

  /** A delivery brings the id of a root that is not cached, the check for it fails, and nothing else
      does: it is stored. */
  ghost predicate StoresAgain(step: Processing, t: Tables, d: Delivery) {
    && d.decoding.Message? && d.lookupFails
    && IsRoot(t.posts, d.decoding.post.deduplicateId)
    && d.decoding.post.deduplicateId !in t.known
    && step(t, d).result == Stored
  }

  /** Something that a delivery may do with the tables it meets. */
  type Happening = (Tables, Delivery) -> bool

  /** It happens at none of the first n deliveries. */
  ghost predicate Never(happens: Happening, step: Processing, t: Tables, ds: seq<Delivery>, n: nat)
    requires n <= |ds|
  {
    n == 0 || (Never(happens, step, t, ds, n - 1) && !happens(MetBy(step, t, ds, n - 1), ds[n - 1]))
  }

  lemma {:induction false} NeverSame(a: Happening, b: Happening, step: Processing, t: Tables, ds: seq<Delivery>, n: nat)
    requires n <= |ds|
    requires forall i | 0 <= i < n :: a(MetBy(step, t, ds, i), ds[i]) == b(MetBy(step, t, ds, i), ds[i])
    ensures Never(a, step, t, ds, n) <==> Never(b, step, t, ds, n)
  {
    if n == 0 {
    } else {
      NeverSame(a, b, step, t, ds, n - 1);
    }
  }

  ghost function StoringAgain(step: Processing): Happening {
    (t, d) => StoresAgain(step, t, d)
  }

  lemma {:induction false} DistinctAppend(posts: seq<Post>, after: seq<Post>)
    requires after != [] && after[..|after| - 1] == posts
    ensures DistinctRoots(after) <==> DistinctRoots(posts) && !IsRoot(posts, Last(after).deduplicateId)
  {
    assert forall i | 0 <= i < |posts| :: after[i] == posts[i];
  }

  lemma {:induction false} DistinctStep(step: Processing, t: Tables, d: Delivery)
    requires Lawful(step) && KnownOk(t)
    ensures DistinctRoots(step(t, d).tables.posts) <==> DistinctRoots(t.posts) && !StoresAgain(step, t, d)
  {
    var e := step(t, d);
    assert StepFacts(t, d, e);
    if e.result == Stored {
      var id := d.decoding.post.deduplicateId;
      DistinctAppend(t.posts, e.tables.posts);
      if IsRoot(t.posts, id) {
        RootHasRow(t.posts, id);
      }
    }
  }

  lemma {:induction false} DistinctRun(step: Processing, t: Tables, ds: seq<Delivery>, n: nat)
    requires n <= |ds| && Lawful(step) && KnownOk(t) && DistinctRoots(t.posts)
    ensures DistinctRoots(Run(step, t, ds, n).posts) <==> Never(StoringAgain(step), step, t, ds, n)
  {
    if n == 0 {
    } else {
      DistinctRun(step, t, ds, n - 1);
      RunKeepsKnownOk(step, t, ds, n - 1);
      RunStep(step, t, ds, n - 1);
      DistinctStep(step, MetBy(step, t, ds, n - 1), ds[n - 1]);
    }
  }

  /** Each delivery's identifiers for new subsources are new. */
  ghost predicate AllFresh(step: Processing, t: Tables, ds: seq<Delivery>) {
    forall i | 0 <= i < |ds| :: FreshIds(MetBy(step, t, ds, i).subSources, ds[i])
  }

  /** The check fails for the id of a root that is not cached, and nothing else keeps the message from being
      stored. */
  ghost predicate WouldStoreAgain(t: Tables, d: Delivery) {
    && d.decoding.Message? && d.lookupFails
    && IsRoot(t.posts, d.decoding.post.deduplicateId)
    && d.decoding.post.deduplicateId !in t.known
    && CanStore(t, d, d.decoding.post)
  }

  ghost function AboutToStoreAgain(): Happening {
    (t, d) => WouldStoreAgain(t, d)
  }

  lemma {:induction false} StoresAgainIff(lower: string -> string, t: Tables, d: Delivery)
    requires FreshIds(t.subSources, d)
    ensures StoresAgain(Handler(Matcher(lower)), t, d) <==> WouldStoreAgain(t, d)
  {
    if d.decoding.Message? {
      StoredIff(lower, t, d);
    }
  }

  /** Over any run, two roots have one id exactly when at some step the check failed for the id of a root
      that was not cached, and nothing else kept the message from being stored. */
  lemma {:induction false} DistinctRootsIff(lower: string -> string, t: Tables, ds: seq<Delivery>)
    requires KnownOk(t) && DistinctRoots(t.posts) && AllFresh(Handler(Matcher(lower)), t, ds)
    ensures var step := Handler(Matcher(lower));
            DistinctRoots(Run(step, t, ds, |ds|).posts) <==> Never(AboutToStoreAgain(), step, t, ds, |ds|)
  {
    var step := Handler(Matcher(lower));
    HandlerIsLawful(Matcher(lower));
    DistinctRun(step, t, ds, |ds|);
    forall i | 0 <= i < |ds|
      ensures StoringAgain(step)(MetBy(step, t, ds, i), ds[i]) == AboutToStoreAgain()(MetBy(step, t, ds, i), ds[i])
    {
      StoresAgainIff(lower, MetBy(step, t, ds, i), ds[i]);
    }
    NeverSame(StoringAgain(step), AboutToStoreAgain(), step, t, ds, |ds|);
  }

  lemma {:induction false} WorkingChecksNeverStoreAgain(step: Processing, t: Tables, ds: seq<Delivery>, n: nat)
    requires n <= |ds| && forall i | 0 <= i < n :: !ds[i].lookupFails
    ensures Never(StoringAgain(step), step, t, ds, n)
  {
    if n == 0 {
    } else {
      WorkingChecksNeverStoreAgain(step, t, ds, n - 1);
    }
  }

  /** So while no check fails, at most one root post is stored for an id. */
  lemma {:induction false} OneRootPerId(judge: Judge, subs: map<Key, string>, ds: seq<Delivery>)
    requires forall i | 0 <= i < |ds| :: !ds[i].lookupFails
    ensures DistinctRoots(Run(Handler(judge), Tables([], subs, {}), ds, |ds|).posts)
  {
    HandlerIsLawful(judge);
    DistinctRun(Handler(judge), Tables([], subs, {}), ds, |ds|);
    WorkingChecksNeverStoreAgain(Handler(judge), Tables([], subs, {}), ds, |ds|);
  }

  ghost predicate RootFrom(posts: seq<Post>, m: nat, id: string) {
    exists i | m <= i < |posts| :: posts[i].deduplicateId == id
  }

  /** A delivery of the id is stored although its check failed. */
  ghost predicate StoresUnchecked(step: Processing, t: Tables, d: Delivery, id: string) {
    d.lookupFails && Carries(d, id) && step(t, d).result == Stored
  }

  ghost function StoringUnchecked(step: Processing, id: string): Happening {
    (t, d) => StoresUnchecked(step, t, d, id)
  }

  lemma {:induction false} RootFromAppend(posts: seq<Post>, after: seq<Post>, m: nat, id: string)
    requires m <= |posts| && after != [] && after[..|after| - 1] == posts
    ensures RootFrom(after, m, id) <==> RootFrom(posts, m, id) || Last(after).deduplicateId == id
  {
    assert forall i | 0 <= i < |posts| :: after[i] == posts[i];
    if Last(after).deduplicateId == id {
      assert after[|after| - 1].deduplicateId == id;
    }
  }

  lemma {:induction false} RootFromStep(step: Processing, t: Tables, d: Delivery, m: nat, id: string)
    requires Lawful(step) && KnownOk(t) && m <= |t.posts| && id in Ids(t.posts)
    ensures RootFrom(step(t, d).tables.posts, m, id) <==> RootFrom(t.posts, m, id) || StoresUnchecked(step, t, d, id)
  {
    var e := step(t, d);
    assert StepFacts(t, d, e);
    if e.result == Stored {
      RootFromAppend(t.posts, e.tables.posts, m, id);
    }
  }

  lemma {:induction false} RootFromRun(step: Processing, t: Tables, ds: seq<Delivery>, n: nat, id: string)
    requires n <= |ds| && Lawful(step) && KnownOk(t) && id in Ids(t.posts)
    ensures RootFrom(Run(step, t, ds, n).posts, |t.posts|, id) <==> !Never(StoringUnchecked(step, id), step, t, ds, n)
  {
    if n == 0 {
    } else {
      RootFromRun(step, t, ds, n - 1, id);
      RunGrows(step, t, ds, 0, n - 1);
      RunKeepsKnownOk(step, t, ds, n - 1);
      RunStep(step, t, ds, n - 1);
      RootFromStep(step, MetBy(step, t, ds, n - 1), ds[n - 1], |t.posts|, id);
    }
  }

  /** The check for the id fails, it is not cached, and nothing else keeps the message from being stored. */
  ghost predicate WouldStoreUnchecked(t: Tables, d: Delivery, id: string) {
    Carries(d, id) && d.lookupFails && id !in t.known && CanStore(t, d, d.decoding.post)
  }

  ghost function AboutToStoreUnchecked(id: string): Happening {
    (t, d) => WouldStoreUnchecked(t, d, id)
  }

  lemma {:induction false} StoresUncheckedIff(lower: string -> string, t: Tables, d: Delivery, id: string)
    requires FreshIds(t.subSources, d)
    ensures StoresUnchecked(Handler(Matcher(lower)), t, d, id) <==> WouldStoreUnchecked(t, d, id)
  {
    if d.decoding.Message? {
      StoredIff(lower, t, d);
    }
  }

  /** An id that already has a row, be it only as a shared or replied-to post, becomes a root exactly when at
      some step its check failed, it was not cached, and nothing else kept its message from being stored:
      as long as checks work its own message is a duplicate. */
  lemma {:induction false} KnownIdIsARootIff(lower: string -> string, t: Tables, ds: seq<Delivery>, id: string)
    requires KnownOk(t) && id in Ids(t.posts) && AllFresh(Handler(Matcher(lower)), t, ds)
    ensures var step := Handler(Matcher(lower));
            RootFrom(Run(step, t, ds, |ds|).posts, |t.posts|, id) <==>
            !Never(AboutToStoreUnchecked(id), step, t, ds, |ds|)
  {
    var step := Handler(Matcher(lower));
    HandlerIsLawful(Matcher(lower));
    RootFromRun(step, t, ds, |ds|, id);
    forall i | 0 <= i < |ds|
      ensures StoringUnchecked(step, id)(MetBy(step, t, ds, i), ds[i]) ==
              AboutToStoreUnchecked(id)(MetBy(step, t, ds, i), ds[i])
    {
      KnownStaysInIds(step, t, ds, i, id);
      StoresUncheckedIff(lower, MetBy(step, t, ds, i), ds[i], id);
    }
    NeverSame(StoringUnchecked(step, id), AboutToStoreUnchecked(id), step, t, ds, |ds|);
  }

  lemma {:induction false} KnownStaysInIds(step: Processing, t: Tables, ds: seq<Delivery>, i: nat, id: string)
    requires i < |ds| && Lawful(step) && KnownOk(t) && id in Ids(t.posts)
    ensures id in Ids(MetBy(step, t, ds, i).posts)
  {
    RunGrows(step, t, ds, 0, i);
  }

  // ---------- redeliveries ----------

  lemma {:induction false} SuccessHasRow(step: Processing, t: Tables, ds: seq<Delivery>, i: nat, n: nat)
    requires i < n <= |ds| && Lawful(step) && KnownOk(t)
    requires ds[i].decoding.Message? && Succeeds(StepOf(step, t, ds, i).result)
    ensures ds[i].decoding.post.deduplicateId in Ids(Run(step, t, ds, n).posts)
  {
    RunKeepsKnownOk(step, t, ds, i);
    RunStep(step, t, ds, i);
    RunGrows(step, t, ds, i + 1, n);
  }

  /** A message that was processed without an error is never lost: its id has a row ever after. */
  lemma {:induction false} NothingIsLost(judge: Judge, t: Tables, ds: seq<Delivery>, i: nat, n: nat)
    requires i < n <= |ds| && KnownOk(t)
    requires ds[i].decoding.Message? && Succeeds(StepOf(Handler(judge), t, ds, i).result)
    ensures ds[i].decoding.post.deduplicateId in Ids(Run(Handler(judge), t, ds, n).posts)
  {
    HandlerIsLawful(judge);
    SuccessHasRow(Handler(judge), t, ds, i, n);
  }

  predicate SameId(a: Delivery, b: Delivery) {
    b.decoding.Message? && Carries(a, b.decoding.post.deduplicateId)
  }

  lemma {:induction false} Redelivered(step: Processing, t: Tables, ds: seq<Delivery>, i: nat, j: nat)
    requires i < j < |ds| && Lawful(step) && KnownOk(t) && SameId(ds[i], ds[j])
    requires Succeeds(StepOf(step, t, ds, i).result)
    ensures var before, id := MetBy(step, t, ds, j), ds[j].decoding.post.deduplicateId;
            && (StepOf(step, t, ds, j).result == Duplicate <==> id in before.known || !ds[j].lookupFails)
            && (StepOf(step, t, ds, j).result == Duplicate ==>
                  StepOf(step, t, ds, j) == Effect(before.(known := before.known + {id}), Duplicate, {}))
  {
    SuccessHasRow(step, t, ds, i, j);
    RunKeepsKnownOk(step, t, ds, j);
    RunStep(step, t, ds, j);
  }

  /** A later delivery of a message that succeeded, whatever else happened in between, is a duplicate that
      changes and pushes nothing, exactly when its id is cached or its check works. */
  lemma {:induction false} RedeliveryChangesNothingIff(judge: Judge, t: Tables, ds: seq<Delivery>, i: nat, j: nat)
    requires i < j < |ds| && KnownOk(t) && SameId(ds[i], ds[j])
    requires Succeeds(StepOf(Handler(judge), t, ds, i).result)
    ensures var before, id, e := MetBy(Handler(judge), t, ds, j), ds[j].decoding.post.deduplicateId,
            StepOf(Handler(judge), t, ds, j);
            && (e.result == Duplicate <==> id in before.known || !ds[j].lookupFails)
            && (e.result == Duplicate ==> e == Effect(before.(known := before.known + {id}), Duplicate, {}))
  {
    HandlerIsLawful(judge);
    Redelivered(Handler(judge), t, ds, i, j);
  }

  /** What the j-th delivery would be pushed to if it were not found to be stored. */
  function PushIfNew(judge: Judge, t: Tables, ds: seq<Delivery>, j: nat): set<string>
    requires j < |ds| && ds[j].decoding.Message?
  {
    PushOf(judge, MetBy(Handler(judge), t, ds, j).subSources, ds[j], ds[j].decoding.post)
  }

  /** Over any run, whatever other deliveries, restarts and feeds come in between: a later delivery of an id
      is pushed exactly when it has somewhere to be pushed to and is not found to be stored; and if an
      earlier one was stored, that takes a failing check of an id that is not cached. */
  lemma {:induction false} PushedLaterIff(judge: Judge, t: Tables, ds: seq<Delivery>, i: nat, j: nat)
    requires i < j < |ds| && KnownOk(t) && SameId(ds[i], ds[j])
    ensures var met, id := MetBy(Handler(judge), t, ds, j), ds[j].decoding.post.deduplicateId;
            && (StepOf(Handler(judge), t, ds, j).pushed != {} <==>
                PushIfNew(judge, t, ds, j) != {} && !FoundStored(met, ds[j], id))
            && (StepOf(Handler(judge), t, ds, i).result == Stored ==>
                  (!FoundStored(met, ds[j], id) <==> ds[j].lookupFails && id !in met.known))
  {
    PushedIff(judge, MetBy(Handler(judge), t, ds, j), ds[j]);
    if StepOf(Handler(judge), t, ds, i).result == Stored {
      NothingIsLost(judge, t, ds, i, j);
    }
  }

  /** So while checks work, an id is pushed again only after a push that was not committed. */
  lemma {:induction false} PushedOnceCommitted(judge: Judge, t: Tables, ds: seq<Delivery>, i: nat, j: nat)
    requires i < j < |ds| && KnownOk(t) && SameId(ds[i], ds[j]) && !ds[j].lookupFails
    requires StepOf(Handler(judge), t, ds, i).pushed != {} && StepOf(Handler(judge), t, ds, j).pushed != {}
    ensures StepOf(Handler(judge), t, ds, i).result == NotCommitted
  {
    PushedLaterIff(judge, t, ds, i, j);
  }

  /** The first n deliveries but for the dropped ones. */
  function Without(ds: seq<Delivery>, dropped: set<nat>, n: nat): seq<Delivery>
    requires n <= |ds|
  {
    if n == 0 then []
    else if n - 1 in dropped then Without(ds, dropped, n - 1)
    else Without(ds, dropped, n - 1) + [ds[n - 1]]
  }

  lemma {:induction false} RunOfPrefix(step: Processing, t: Tables, ds: seq<Delivery>, d: Delivery, n: nat)
    requires n <= |ds|
    ensures Run(step, t, ds + [d], n) == Run(step, t, ds, n)
  {
    if n == 0 {
    } else {
      RunOfPrefix(step, t, ds, d, n - 1);
    }
  }

  lemma {:induction false} SameStoredStep(step: Processing, a: Tables, b: Tables, d: Delivery)
    requires Lawful(step) && KnownOk(a) && KnownOk(b) && SameStored(a, b) && CheckTells(a, d)
    ensures SameStored(Step(step, a, d), Step(step, b, d))
  {
    assert SameButCache(step(Met(a, d), d), step(Met(b, d), d));
  }

  /** What is dropped was found to be a duplicate, and the checks of the others tell. */
  ghost predicate MayDrop(step: Processing, t: Tables, ds: seq<Delivery>, dropped: set<nat>, j: nat)
    requires j < |ds|
  {
    if j in dropped then StepOf(step, t, ds, j).result == Duplicate else CheckTells(Run(step, t, ds, j), ds[j])
  }

  lemma {:induction false} DropOne(step: Processing, t: Tables, ds: seq<Delivery>, dropped: set<nat>, n: nat)
    requires n < |ds| && Lawful(step) && KnownOk(t) && MayDrop(step, t, ds, dropped, n)
    requires SameStored(Run(step, t, ds, n), Run(step, t, Without(ds, dropped, n), |Without(ds, dropped, n)|))
    ensures SameStored(Run(step, t, ds, n + 1),
            Run(step, t, Without(ds, dropped, n + 1), |Without(ds, dropped, n + 1)|))
  {
    var once := Without(ds, dropped, n);
    RunKeepsKnownOk(step, t, ds, n);
    if n in dropped {
      RunStep(step, t, ds, n);
      assert Without(ds, dropped, n + 1) == once;
    } else {
      RunKeepsKnownOk(step, t, once, |once|);
      RunOfPrefix(step, t, once, ds[n], |once|);
      SameStoredStep(step, Run(step, t, ds, n), Run(step, t, once, |once|), ds[n]);
      assert Without(ds, dropped, n + 1) == once + [ds[n]];
    }
  }

  lemma {:induction false} DropSome(step: Processing, t: Tables, ds: seq<Delivery>, dropped: set<nat>, n: nat)
    requires n <= |ds| && Lawful(step) && KnownOk(t)
    requires forall j | 0 <= j < |ds| :: MayDrop(step, t, ds, dropped, j)
    ensures SameStored(Run(step, t, ds, n), Run(step, t, Without(ds, dropped, n), |Without(ds, dropped, n)|))
  {
    if n == 0 {
    } else {
      DropSome(step, t, ds, dropped, n - 1);
      DropOne(step, t, ds, dropped, n - 1);
    }
  }

  /** Deliveries at least once have the effect of deliveries exactly once: dropping any that were found
      to be duplicates leaves the same posts and subsources, as long as the checks of the others tell. */
  lemma {:induction false} ExactlyOnce(judge: Judge, t: Tables, ds: seq<Delivery>, dropped: set<nat>)
    requires KnownOk(t)
    requires forall j | 0 <= j < |ds| :: MayDrop(Handler(judge), t, ds, dropped, j)
    ensures var once := Without(ds, dropped, |ds|);
            SameStored(Run(Handler(judge), t, ds, |ds|), Run(Handler(judge), t, once, |once|))
  {
    HandlerIsLawful(judge);
    DropSome(Handler(judge), t, ds, dropped, |ds|);
  }

  // ---------- the reply thread ----------

  /** The rows beside a stored root are its ancestors from its parent on, each with the post it shares;
      all of them, and what they share, are marked as in the chain, and none has a thread of its own. */
  lemma {:induction false} ThreadIsChain(p: Crawled)
    ensures |BuiltThread(p)| == |Chain(p)|
    ensures forall k | 0 <= k < |Chain(p)| :: BuiltThread(p)[k] == Built(Chain(p)[k], false)
  {
    if p.replyTo.None? {
    } else {
      ThreadIsChain(p.replyTo.value);
    }
  }

  /** The stored thread starts with the post replied to and ends with the oldest: its first post
      replies to nothing exactly when it is the only one. */
  lemma {:induction false} ThreadStartsWithParent(p: Crawled)
    requires p.replyTo.Some?
    ensures var thread, older := Built(p, true).replyThread, Chain(p)[1..];
            && |thread| == |older| >= 1
            && thread[0] == Built(p.replyTo.value, false)
            && Last(older).replyTo.None?
            && (older[0].replyTo.None? <==> |thread| == 1)
  {
    ThreadIsChain(p.replyTo.value);
    assert Chain(p)[1..] == Chain(p.replyTo.value);
    ChainEnds(p.replyTo.value);
  }

  lemma {:induction false} ChainEnds(p: Crawled)
    ensures Last(Chain(p)).replyTo.None?
  {
    if p.replyTo.None? {
    } else {
      ChainEnds(p.replyTo.value);
      assert Last(Chain(p)) == Last(Chain(p.replyTo.value));
    }
  }
}
