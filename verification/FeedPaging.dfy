/**
 Feed paging of server/resolver/resolver_utils.go: what one query reads and republishes, on values.
 The post table is a sequence in increasing cursor order, a feed's publications are the set of the
 cursors published to it. Case folding `lower` is a parameter throughout.
 */
module FeedPaging {
  import opened Wrappers
  import opened DataExpression
  import opened PostMatching
  import opened Sequences

  const FEED_REFRESH_LIMIT := 300
  const DEFAULT_FEEDS_QUERY_CURSOR := 0x7fff_ffff
  const MAX_REPUBLISH_DB_BATCHES := 10
  // candidates one republishing call may look at
  const SCAN_BUDGET := (MAX_REPUBLISH_DB_BATCHES + 1) * FEED_REFRESH_LIMIT

  datatype Post = Post(cursor: int, subSource: string, inSharingChain: bool, chain: PostChain, contentGeneratedAt: int)

  datatype Feed = Feed(filter: FilterText, subSources: seq<string>, updatedAt: int)

  datatype Db = Db(feed: Feed, table: seq<Post>, published: set<int>)

  // ---------- eligibility ----------

  /** The query loads the shared post but not the post that one shares. */
  function Preloaded(chain: PostChain): PostChain {
    if chain.sharedFrom.None? then chain
    else chain.(sharedFrom := Some(chain.sharedFrom.value.(sharedFrom := None)))
  }

  predicate Candidate(feed: Feed, p: Post) {
    p.subSource in feed.subSources && !p.inSharingChain
  }

  predicate Matches(lower: string -> string, feed: Feed, p: Post) {
    DataExpressionMatchPostChain(lower, feed.filter, Preloaded(p.chain)) == Ok(true)
  }

  predicate Eligible(lower: string -> string, feed: Feed, p: Post) {
    Candidate(feed, p) && Matches(lower, feed, p)
  }

  /** A filter, as a document, on the two posts that the query loads: the post and the one it shares. */
  ghost predicate Wants(lower: string -> string, filter: FilterText, chain: PostChain) {
    || filter.Blank?
    || (filter.Document? && WellFormed(filter.json) &&
        (|| DocumentHolds(lower, filter.json, chain.content)
         || (chain.sharedFrom.Some? && DocumentHolds(lower, filter.json, chain.sharedFrom.value.content))))
  }

  lemma {:induction false} MatchesIff(lower: string -> string, feed: Feed, p: Post)
    ensures Matches(lower, feed, p) <==> Wants(lower, feed.filter, p.chain)
  {
    var loaded := Preloaded(p.chain);
    ChainMatchesSomePost(lower, feed.filter, loaded);
    if feed.filter.Document? {
      var contents := Contents(loaded);
      assert contents[0] == p.chain.content;
      if p.chain.sharedFrom.Some? {
        var shared := loaded.sharedFrom.value;
        assert Contents(shared) == [shared.content];
        assert contents == [p.chain.content, p.chain.sharedFrom.value.content];
        assert contents[1] == p.chain.sharedFrom.value.content;
      }
    }
  }

  /** Which posts belong to a feed: those of its subsources that are not only stored because another post
      shares or answers them, if its filter wants the post itself or the one it shares. */
  lemma {:induction false} EligibleIff(lower: string -> string, feed: Feed, p: Post)
    ensures Eligible(lower, feed, p) <==>
            p.subSource in feed.subSources && !p.inSharingChain && Wants(lower, feed.filter, p.chain)
  {
    MatchesIff(lower, feed, p);
  }

  function IsCandidate(feed: Feed): Post -> bool {
    p => Candidate(feed, p)
  }

  function IsMatch(lower: string -> string, feed: Feed): Post -> bool {
    p => Matches(lower, feed, p)
  }

  function IsEligible(lower: string -> string, feed: Feed): Post -> bool {
    p => Eligible(lower, feed, p)
  }

  function IsPublished(published: set<int>): Post -> bool {
    (p: Post) => p.cursor in published
  }

  // ---------- reading the table downwards ----------

  ghost predicate Increasing(table: seq<Post>) {
    forall i, j | 0 <= i < j < |table| :: table[i].cursor < table[j].cursor
  }

  /** Cursors are positive 32-bit numbers below the default cursor. */
  ghost predicate TableOk(table: seq<Post>) {
    && Increasing(table)
    && forall p | p in table :: 0 < p.cursor < DEFAULT_FEEDS_QUERY_CURSOR
  }

  /** cursor < hi, order by cursor desc */
  function Below(table: seq<Post>, hi: int): seq<Post> {
    if table == [] then []
    else if Last(table).cursor < hi then [Last(table)] + Below(table[..|table| - 1], hi)
    else Below(table[..|table| - 1], hi)
  }

  function Candidates(feed: Feed, table: seq<Post>, hi: int): seq<Post> {
    Filter(Below(table, hi), IsCandidate(feed))
  }

  function EligibleBelow(lower: string -> string, feed: Feed, table: seq<Post>, hi: int): seq<Post> {
    Filter(Below(table, hi), IsEligible(lower, feed))
  }

  function PublishedBelow(table: seq<Post>, published: set<int>, hi: int): seq<Post> {
    Filter(Below(table, hi), IsPublished(published))
  }

  function Cursors(posts: seq<Post>): set<int> {
    set p | p in posts :: p.cursor
  }

  lemma {:induction false} BelowMembers(table: seq<Post>, hi: int)
    ensures forall p :: p in Below(table, hi) <==> p in table && p.cursor < hi
  {
    if table == [] {
    } else {
      BelowMembers(table[..|table| - 1], hi);
      assert table == table[..|table| - 1] + [Last(table)];
    }
  }

  lemma {:induction false} BelowDecreases(table: seq<Post>, hi: int)
    requires Increasing(table)
    ensures forall i, j | 0 <= i < j < |Below(table, hi)| :: Below(table, hi)[i].cursor > Below(table, hi)[j].cursor
  {
    if table == [] {
    } else {
      var init := table[..|table| - 1];
      BelowDecreases(init, hi);
      BelowMembers(init, hi);
      forall j | 0 <= j < |Below(init, hi)|
        ensures Below(init, hi)[j].cursor < Last(table).cursor
      {
        assert Below(init, hi)[j] in init;
      }
    }
  }

  /** Two bounds with no post between them read the same. */
  lemma {:induction false} BelowSame(table: seq<Post>, a: int, b: int)
    requires forall p | p in table :: p.cursor < a <==> p.cursor < b
    ensures Below(table, a) == Below(table, b)
  {
    if table == [] {
    } else {
      assert Last(table) in table;
      BelowSame(table[..|table| - 1], a, b);
    }
  }

  lemma {:induction false} LastIsHighest(table: seq<Post>, p: Post)
    requires Increasing(table) && table != [] && p in table[..|table| - 1]
    ensures p.cursor < Last(table).cursor
  {
    var i :| 0 <= i < |table| - 1 && table[i] == p;
  }

  lemma {:induction false} BelowSuffix(table: seq<Post>, hi: int, m: nat)
    requires Increasing(table)
    requires m < |Below(table, hi)|
    ensures Below(table, hi)[m + 1..] == Below(table, Below(table, hi)[m].cursor)
  {
    var init, last := table[..|table| - 1], Last(table);
    BelowMembers(init, hi);
    if last.cursor < hi && m == 0 {
      forall p | p in init
        ensures p.cursor < last.cursor
      {
        LastIsHighest(table, p);
      }
      BelowSame(init, hi, last.cursor);
    } else {
      var k := if last.cursor < hi then m - 1 else m;
      var p := Below(init, hi)[k];
      BelowSuffix(init, hi, k);
      assert p in Below(init, hi);
      LastIsHighest(table, p);
      assert Below(table, hi)[m] == p && Below(table, hi)[m + 1..] == Below(init, hi)[k + 1..];
    }
  }

  /** Asking again from the cursor of the k-th result gives exactly the results after it. */
  lemma {:induction false} MoveCursor(table: seq<Post>, hi: int, f: Post -> bool, k: nat)
    requires Increasing(table)
    requires k < |Filter(Below(table, hi), f)|
    ensures Filter(Below(table, hi), f)[k + 1..] ==
            Filter(Below(table, Filter(Below(table, hi), f)[k].cursor), f)
  {
    var m := FilterPosition(Below(table, hi), f, k);
    BelowSuffix(table, hi, m);
  }

  /** New posts above the bound are not seen below it. */
  lemma {:induction false} BelowIgnoresNewer(table: seq<Post>, newer: seq<Post>, hi: int)
    requires forall p | p in newer :: p.cursor >= hi
    ensures Below(table + newer, hi) == Below(table, hi)
    decreases |newer|
  {
    if newer == [] {
      assert table + newer == table;
    } else {
      var init := newer[..|newer| - 1];
      assert (table + newer)[..|table + newer| - 1] == table + init;
      assert Last(table + newer) == Last(newer) && Last(newer) in newer;
      BelowIgnoresNewer(table, init, hi);
    }
  }

  // ---------- the first n of a selection ----------

  lemma {:induction false} FilterDecreases(table: seq<Post>, hi: int, f: Post -> bool)
    requires Increasing(table)
    ensures forall i, j | 0 <= i < j < |Filter(Below(table, hi), f)| ::
              Filter(Below(table, hi), f)[i].cursor > Filter(Below(table, hi), f)[j].cursor
  {
    var all := Filter(Below(table, hi), f);
    forall i, j | 0 <= i < j < |all|
      ensures all[i].cursor > all[j].cursor
    {
      MoveCursor(table, hi, f, i);
      assert all[j] == all[i + 1..][j - i - 1];
      FilterMembers(Below(table, all[i].cursor), f);
      BelowMembers(table, all[i].cursor);
      assert all[j] in all[i + 1..];
    }
  }

  ghost predicate Decreasing(posts: seq<Post>) {
    forall i, j | 0 <= i < j < |posts| :: posts[i].cursor > posts[j].cursor
  }

  function Members(posts: seq<Post>): set<Post> {
    set p | p in posts
  }

  lemma {:induction false} MemberCount(posts: seq<Post>)
    requires Decreasing(posts)
    ensures |Members(posts)| == |posts|
  {
    if posts == [] {
    } else {
      var init, last := posts[..|posts| - 1], Last(posts);
      MemberCount(init);
      assert posts == init + [last];
      assert Members(posts) == Members(init) + {last};
    }
  }

  /** A post is among the first n exactly when fewer than n members lie above it. */
  lemma {:induction false} TakenIff(all: seq<Post>, n: nat, p: Post, above: set<Post>)
    requires Decreasing(all)
    requires above == set q | q in all && q.cursor > p.cursor
    ensures p in Take(n, all) <==> p in all && |above| < n
    ensures forall m: nat :: Decreasing(Take(m, all))
  {
    if p in all {
      var k :| 0 <= k < |all| && all[k] == p;
      assert all == all[..k] + all[k..];
      assert above == Members(all[..k]);
      MemberCount(all[..k]);
      if k < n {
        assert Take(n, all)[k] == p;
      }
    } else {
      TakeMembers(n, all);
    }
  }

  // ---------- republishing ----------

  /** The simple form of rePublishPostsFromCursor: the first `limit` matches among the first 3300
      candidates below the start cursor. */
  function Republished(lower: string -> string, feed: Feed, table: seq<Post>, limit: nat, from: int): seq<Post> {
    Take(limit, Filter(Take(SCAN_BUDGET, Candidates(feed, table, from)), IsMatch(lower, feed)))
  }

  lemma {:induction false} CandidatesMatching(lower: string -> string, feed: Feed, table: seq<Post>, hi: int)
    ensures Filter(Candidates(feed, table, hi), IsMatch(lower, feed)) == EligibleBelow(lower, feed, table, hi)
  {
    FilterOfFilter(Below(table, hi), IsCandidate(feed), IsMatch(lower, feed), IsEligible(lower, feed));
  }

  /** What is republished is a prefix of everything eligible below the start cursor. */
  lemma {:induction false} RepublishedIsPrefix(lower: string -> string, feed: Feed, table: seq<Post>, limit: nat,
      from: int)
    ensures Republished(lower, feed, table, limit, from) <= EligibleBelow(lower, feed, table, from)
    ensures |Republished(lower, feed, table, limit, from)| <= limit
    ensures |Candidates(feed, table, from)| <= SCAN_BUDGET ==>
              Republished(lower, feed, table, limit, from) == Take(limit, EligibleBelow(lower, feed, table, from))
  {
    var all := Candidates(feed, table, from);
    CandidatesMatching(lower, feed, table, from);
    var k := if SCAN_BUDGET <= |all| then SCAN_BUDGET else |all|;
    assert Take(SCAN_BUDGET, all) == all[..k];
    FilterOfPrefix(all, k, IsMatch(lower, feed));
    if |all| <= SCAN_BUDGET {
      assert all[..k] == all;
    }
  }

  /** The rows of the feed's subsources between two cursors that a scan looks at. */
  ghost function RowsBetween(feed: Feed, table: seq<Post>, low: int, high: int): set<Post> {
    set q | q in table && low < q.cursor < high && q.subSource in feed.subSources && !q.inSharingChain
  }

  ghost function WantedBetween(lower: string -> string, feed: Feed, table: seq<Post>, low: int, high: int): set<Post> {
    set q | q in RowsBetween(feed, table, low, high) && Wants(lower, feed.filter, q.chain)
  }

  /** What a scan from `start` for `limit` posts finds, said of one post at a time: rows of the feed's
      subsources below the start that the filter wants, as long as fewer than 3300 such rows, and fewer than
      `limit` wanted ones, lie above. */
  ghost predicate IsFound(lower: string -> string, feed: Feed, table: seq<Post>, limit: nat, start: int, p: Post) {
    && p in table && p.cursor < start
    && p.subSource in feed.subSources && !p.inSharingChain && Wants(lower, feed.filter, p.chain)
    && |RowsBetween(feed, table, p.cursor, start)| < 3300
    && |WantedBetween(lower, feed, table, p.cursor, start)| < limit
  }

  lemma {:induction false} CandidatesAbove(feed: Feed, table: seq<Post>, start: int, p: Post)
    requires Increasing(table)
    ensures Decreasing(Candidates(feed, table, start))
    ensures RowsBetween(feed, table, p.cursor, start) ==
            set q | q in Candidates(feed, table, start) && q.cursor > p.cursor
    ensures p in Candidates(feed, table, start) <==>
            p in table && p.cursor < start && p.subSource in feed.subSources && !p.inSharingChain
  {
    FilterDecreases(table, start, IsCandidate(feed));
    FilterMembers(Below(table, start), IsCandidate(feed));
    BelowMembers(table, start);
  }

  lemma {:induction false} EligibleAbove(lower: string -> string, feed: Feed, table: seq<Post>, start: int, p: Post)
    requires Increasing(table)
    ensures Decreasing(EligibleBelow(lower, feed, table, start))
    ensures WantedBetween(lower, feed, table, p.cursor, start) ==
            set q | q in EligibleBelow(lower, feed, table, start) && q.cursor > p.cursor
    ensures p in EligibleBelow(lower, feed, table, start) <==>
            p in table && p.cursor < start && Eligible(lower, feed, p)
  {
    FilterDecreases(table, start, IsEligible(lower, feed));
    FilterMembers(Below(table, start), IsEligible(lower, feed));
    BelowMembers(table, start);
    forall q
      ensures Eligible(lower, feed, q) <==>
              q.subSource in feed.subSources && !q.inSharingChain && Wants(lower, feed.filter, q.chain)
    {
      EligibleIff(lower, feed, q);
    }
  }

  lemma {:induction false} PrefixTaken(part: seq<Post>, all: seq<Post>, n: nat, p: Post)
    requires Decreasing(all) && part <= all
    ensures p in Take(n, part) <==> p in part && p in Take(n, all)
  {
    if p in part && p in Take(n, all) {
      var i :| 0 <= i < |part| && part[i] == p;
      var j :| 0 <= j < |Take(n, all)| && Take(n, all)[j] == p;
      assert all[i] == p && all[j] == p;
      if i < j || j < i {
        assert false;
      }
      assert Take(n, part)[i] == p;
    }
    TakeMembers(n, part);
    if p in Take(n, part) {
      var i :| 0 <= i < |Take(n, part)| && Take(n, part)[i] == p;
      assert Take(n, all)[i] == p;
    }
  }

  lemma {:induction false} RepublishedDecreases(lower: string -> string, feed: Feed, table: seq<Post>, limit: nat,
      start: int)
    requires Increasing(table)
    ensures Decreasing(Republished(lower, feed, table, limit, start))
  {
    RepublishedIsPrefix(lower, feed, table, limit, start);
    FilterDecreases(table, start, IsEligible(lower, feed));
  }

  /** The posts that a scan finds are exactly these, the newest first. */
  lemma {:induction false} RepublishedIff(lower: string -> string, feed: Feed, table: seq<Post>, limit: nat,
      start: int, p: Post)
    requires Increasing(table)
    ensures p in Republished(lower, feed, table, limit, start) <==> IsFound(lower, feed, table, limit, start, p)
    ensures Decreasing(Republished(lower, feed, table, limit, start))
  {
    var rows, wanted := Candidates(feed, table, start), EligibleBelow(lower, feed, table, start);
    var scanned := Take(SCAN_BUDGET, rows);
    var matching := Filter(scanned, IsMatch(lower, feed));
    CandidatesAbove(feed, table, start, p);
    EligibleAbove(lower, feed, table, start, p);
    TakenIff(rows, SCAN_BUDGET, p, RowsBetween(feed, table, p.cursor, start));
    TakenIff(wanted, limit, p, WantedBetween(lower, feed, table, p.cursor, start));
    RepublishedIsPrefix(lower, feed, table, |scanned|, start);
    FilterMembers(scanned, IsMatch(lower, feed));
    assert matching == Republished(lower, feed, table, |scanned|, start);
    PrefixTaken(matching, wanted, limit, p);
    EligibleIff(lower, feed, p);
    RepublishedDecreases(lower, feed, table, limit, start);
  }

  /** So a wanted post below the start is missed only below the last one found, or when the scan found
      `limit` posts or had more than 3300 rows to read. */
  lemma {:induction false} RepublishedMisses(lower: string -> string, feed: Feed, table: seq<Post>, limit: nat,
      start: int, p: Post)
    requires Increasing(table) && p in table && p.cursor < start
    requires p.subSource in feed.subSources && !p.inSharingChain && Wants(lower, feed.filter, p.chain)
    ensures var found := Republished(lower, feed, table, limit, start);
            || p in found
            || ((found != [] ==> p.cursor < Last(found).cursor) &&
                (|found| == limit || |RowsBetween(feed, table, p.cursor, start)| >= 3300))
  {
    var found := Republished(lower, feed, table, limit, start);
    var wanted := EligibleBelow(lower, feed, table, start);
    RepublishedIff(lower, feed, table, limit, start, p);
    RepublishedIsPrefix(lower, feed, table, limit, start);
    EligibleAbove(lower, feed, table, start, p);
    EligibleIff(lower, feed, p);
    var k :| 0 <= k < |wanted| && wanted[k] == p;
    if p !in found {
      assert forall i | 0 <= i < |found| :: found[i] == wanted[i];
      assert k >= |found|;
      if |found| < limit && |RowsBetween(feed, table, p.cursor, start)| < 3300 {
        EarlierAreFound(lower, feed, table, limit, start, p);
      }
    }
  }

  /** If the rows above a wanted post fit the scan, so do those above every post before it. */
  lemma {:induction false} EarlierAreFound(lower: string -> string, feed: Feed, table: seq<Post>, limit: nat,
      start: int, p: Post)
    requires Increasing(table) && p in table && p.cursor < start && Eligible(lower, feed, p)
    requires |RowsBetween(feed, table, p.cursor, start)| < 3300
    requires |Republished(lower, feed, table, limit, start)| < limit
    ensures p in Republished(lower, feed, table, limit, start)
  {
    var rows := Candidates(feed, table, start);
    var scanned := Take(SCAN_BUDGET, rows);
    CandidatesAbove(feed, table, start, p);
    TakenIff(rows, SCAN_BUDGET, p, RowsBetween(feed, table, p.cursor, start));
    FilterMembers(scanned, IsMatch(lower, feed));
    assert p in Filter(scanned, IsMatch(lower, feed));
  }

  // ---------- a query for older posts ----------

  /** The cursor from which republishing starts when the page is short. */
  function LastCursor(page: seq<Post>, cursor: int): int {
    if page == [] then cursor else Last(page).cursor
  }

  /** The already published part of the page. */
  function ReadPage(db: Db, cursor: int, limit: nat): seq<Post> {
    Take(limit, PublishedBelow(db.table, db.published, cursor))
  }

  /** The published part of a page, said of one post at a time. */
  lemma {:induction false} ReadPageIff(db: Db, cursor: int, limit: nat, p: Post)
    requires Increasing(db.table)
    ensures p in ReadPage(db, cursor, limit) <==>
            && p in db.table && p.cursor < cursor && p.cursor in db.published
            && |set q | q in db.table && p.cursor < q.cursor < cursor && q.cursor in db.published| < limit
    ensures Decreasing(ReadPage(db, cursor, limit))
  {
    var all := PublishedBelow(db.table, db.published, cursor);
    FilterDecreases(db.table, cursor, IsPublished(db.published));
    FilterMembers(Below(db.table, cursor), IsPublished(db.published));
    BelowMembers(db.table, cursor);
    TakenIff(all, limit, p, set q | q in db.table && p.cursor < q.cursor < cursor && q.cursor in db.published);
  }

  function FillPage(lower: string -> string, db: Db, cursor: int, limit: nat): seq<Post> {
    var page := ReadPage(db, cursor, limit);
    if |page| < limit then Republished(lower, db.feed, db.table, limit - |page|, LastCursor(page, cursor)) else []
  }

  /** The OLD branch of getFeedPostsOrRePublish, before the page is sorted for display. */
  function OldPage(lower: string -> string, db: Db, cursor: int, limit: nat): seq<Post> {
    ReadPage(db, cursor, limit) + FillPage(lower, db, cursor, limit)
  }

  function AfterOld(lower: string -> string, db: Db, cursor: int, limit: nat): Db {
    db.(published := db.published + Cursors(FillPage(lower, db, cursor, limit)))
  }

  /** Everything published is eligible, and everything eligible above it is published too. */
  ghost predicate UpwardClosed(lower: string -> string, db: Db) {
    && (forall c | c in db.published :: exists p :: p in db.table && p.cursor == c && Eligible(lower, db.feed, p))
    && (forall p, c | p in db.table && c in db.published && c <= p.cursor && Eligible(lower, db.feed, p) ::
          p.cursor in db.published)
  }

  ghost predicate DbOk(lower: string -> string, db: Db) {
    TableOk(db.table) && UpwardClosed(lower, db)
  }

  /** Everything eligible from this cursor upwards is published. */
  ghost predicate Covered(lower: string -> string, db: Db, cursor: int) {
    forall p | p in db.table && Eligible(lower, db.feed, p) && p.cursor >= cursor :: p.cursor in db.published
  }

  /** A cursor a client can hold: the default one, or one that was returned to it. */
  ghost predicate Held(db: Db, cursor: int) {
    cursor == DEFAULT_FEEDS_QUERY_CURSOR || cursor in db.published
  }

  lemma {:induction false} HeldIsCovered(lower: string -> string, db: Db, cursor: int)
    requires DbOk(lower, db) && Held(db, cursor)
    ensures Covered(lower, db, cursor)
  {
  }

  lemma {:induction false} Unique(table: seq<Post>, p: Post, q: Post)
    requires Increasing(table) && p in table && q in table && p.cursor == q.cursor
    ensures p == q
  {
    var i :| 0 <= i < |table| && table[i] == p;
    var j :| 0 <= j < |table| && table[j] == q;
    if i < j || j < i {
      assert false;
    }
  }

  lemma {:induction false} PublishedAreEligible(lower: string -> string, db: Db, p: Post)
    requires DbOk(lower, db) && p in db.table && p.cursor in db.published
    ensures Eligible(lower, db.feed, p)
  {
    var q :| q in db.table && q.cursor == p.cursor && Eligible(lower, db.feed, q);
    Unique(db.table, p, q);
  }

  /** The published posts below a cursor are a prefix of the eligible ones. */
  lemma {:induction false} PublishedIsPrefix(lower: string -> string, db: Db, hi: int)
    requires DbOk(lower, db)
    ensures PublishedBelow(db.table, db.published, hi) <= EligibleBelow(lower, db.feed, db.table, hi)
  {
    var below := Below(db.table, hi);
    BelowMembers(db.table, hi);
    BelowDecreases(db.table, hi);
    forall p | p in below && p.cursor in db.published
      ensures Eligible(lower, db.feed, p)
    {
      PublishedAreEligible(lower, db, p);
    }
    forall i, j | 0 <= i < j < |below| && Eligible(lower, db.feed, below[i]) && below[j].cursor in db.published
      ensures below[i].cursor in db.published
    {
      assert below[i] in db.table;
    }
    FilterIsPrefix(below, IsPublished(db.published), IsEligible(lower, db.feed));
  }

  /** Below the last published post nothing is published, and the eligible posts split there. */
  lemma {:induction false} SplitAtLastCursor(lower: string -> string, db: Db, cursor: int)
    requires DbOk(lower, db)
    ensures var page := PublishedBelow(db.table, db.published, cursor);
            && EligibleBelow(lower, db.feed, db.table, cursor) ==
               page + EligibleBelow(lower, db.feed, db.table, LastCursor(page, cursor))
            && PublishedBelow(db.table, db.published, LastCursor(page, cursor)) == []
  {
    var page := PublishedBelow(db.table, db.published, cursor);
    var all := EligibleBelow(lower, db.feed, db.table, cursor);
    PublishedIsPrefix(lower, db, cursor);
    if page != [] {
      var k := |page| - 1;
      assert page[k] == all[k];
      MoveCursor(db.table, cursor, IsEligible(lower, db.feed), k);
      MoveCursor(db.table, cursor, IsPublished(db.published), k);
      assert all == all[..k + 1] + all[k + 1..];
      assert all[..k + 1] == page;
      assert page[k + 1..] == [];
    }
  }

  /** A page of older posts is, in order, a prefix of the eligible posts below the cursor: no gap,
      no repeat, at most `limit` posts. It is short only when fewer are eligible or the scan budget
      ran out. */
  lemma {:induction false} OldPageIsPrefix(lower: string -> string, db: Db, cursor: int, limit: nat)
    requires DbOk(lower, db)
    ensures OldPage(lower, db, cursor, limit) <= EligibleBelow(lower, db.feed, db.table, cursor)
    ensures |OldPage(lower, db, cursor, limit)| <= limit
    ensures |Candidates(db.feed, db.table, LastCursor(ReadPage(db, cursor, limit), cursor))| <= SCAN_BUDGET ==>
              OldPage(lower, db, cursor, limit) == Take(limit, EligibleBelow(lower, db.feed, db.table, cursor))
  {
    var all := EligibleBelow(lower, db.feed, db.table, cursor);
    var published := PublishedBelow(db.table, db.published, cursor);
    var page := ReadPage(db, cursor, limit);
    PublishedIsPrefix(lower, db, cursor);
    if |page| < limit {
      assert page == published;
      SplitAtLastCursor(lower, db, cursor);
      RepublishedIsPrefix(lower, db.feed, db.table, limit - |page|, LastCursor(page, cursor));
    } else {
      TakeOfPrefix(limit, published, all);
    }
  }

  lemma {:induction false} NotYetPublished(lower: string -> string, db: Db, from: int, p: Post)
    requires PublishedBelow(db.table, db.published, from) == []
    requires p in EligibleBelow(lower, db.feed, db.table, from)
    ensures p.cursor !in db.published
  {
    FilterMembers(Below(db.table, from), IsEligible(lower, db.feed));
    FilterMembers(Below(db.table, from), IsPublished(db.published));
    assert p !in PublishedBelow(db.table, db.published, from);
  }

  /** The republished posts are new: none of them was published before. */
  lemma {:induction false} RepublishedAreNew(lower: string -> string, db: Db, cursor: int, limit: nat)
    requires DbOk(lower, db)
    ensures Cursors(FillPage(lower, db, cursor, limit)) !! db.published
  {
    var page := ReadPage(db, cursor, limit);
    if |page| < limit {
      var from := LastCursor(page, cursor);
      SplitAtLastCursor(lower, db, cursor);
      RepublishedIsPrefix(lower, db.feed, db.table, limit - |page|, from);
      var found := FillPage(lower, db, cursor, limit);
      assert found <= EligibleBelow(lower, db.feed, db.table, from);
      forall p | p in found
        ensures p.cursor !in db.published
      {
        assert p in EligibleBelow(lower, db.feed, db.table, from);
        NotYetPublished(lower, db, from, p);
      }
    }
  }

  lemma {:induction false} EligibleBelowMembers(lower: string -> string, db: Db, from: int, p: Post)
    ensures p in EligibleBelow(lower, db.feed, db.table, from) <==>
            p in db.table && p.cursor < from && Eligible(lower, db.feed, p)
  {
    FilterMembers(Below(db.table, from), IsEligible(lower, db.feed));
    BelowMembers(db.table, from);
  }

  /** Above a found post everything eligible below the start is found too. */
  lemma {:induction false} FoundReachesUp(lower: string -> string, db: Db, from: int, found: seq<Post>, p: Post,
      q: Post)
    requires Increasing(db.table) && found <= EligibleBelow(lower, db.feed, db.table, from)
    requires p in EligibleBelow(lower, db.feed, db.table, from) && q in found && q.cursor <= p.cursor
    ensures p in found
  {
    var all := EligibleBelow(lower, db.feed, db.table, from);
    FilterDecreases(db.table, from, IsEligible(lower, db.feed));
    var i :| 0 <= i < |found| && found[i] == q;
    var j :| 0 <= j < |all| && all[j] == p;
    assert all[i] == q;
    if j <= i {
      assert found[j] == p;
    }
  }

  /** Publishing a prefix of what is eligible below a covered cursor keeps the set upward closed. */
  lemma {:induction false} CommitKeepsDbOk(lower: string -> string, db: Db, from: int, found: seq<Post>)
    requires DbOk(lower, db) && Covered(lower, db, from)
    requires found <= EligibleBelow(lower, db.feed, db.table, from)
    ensures DbOk(lower, db.(published := db.published + Cursors(found)))
  {
    var all := EligibleBelow(lower, db.feed, db.table, from);
    var published := db.published + Cursors(found);
    forall p | p in found
      ensures p in db.table && Eligible(lower, db.feed, p)
    {
      assert p in all;
      EligibleBelowMembers(lower, db, from, p);
    }
    forall p, c | p in db.table && c in published && c <= p.cursor && Eligible(lower, db.feed, p)
      ensures p.cursor in published
    {
      if c !in db.published && p.cursor < from {
        var q :| q in found && q.cursor == c;
        EligibleBelowMembers(lower, db, from, p);
        FoundReachesUp(lower, db, from, found, p, q);
      }
    }
  }

  lemma {:induction false} StartIsCovered(lower: string -> string, db: Db, cursor: int, limit: nat)
    requires DbOk(lower, db) && Covered(lower, db, cursor)
    ensures Covered(lower, db, LastCursor(ReadPage(db, cursor, limit), cursor))
  {
    var page := ReadPage(db, cursor, limit);
    if page != [] {
      FilterMembers(Below(db.table, cursor), IsPublished(db.published));
      assert Last(page) in PublishedBelow(db.table, db.published, cursor);
    }
  }

  /** A query from a held cursor keeps the invariant. */
  lemma {:induction false} OldKeepsDbOk(lower: string -> string, db: Db, cursor: int, limit: nat)
    requires DbOk(lower, db) && Covered(lower, db, cursor)
    ensures DbOk(lower, AfterOld(lower, db, cursor, limit))
  {
    var page := ReadPage(db, cursor, limit);
    StartIsCovered(lower, db, cursor, limit);
    if |page| < limit {
      RepublishedIsPrefix(lower, db.feed, db.table, limit - |page|, LastCursor(page, cursor));
    }
    CommitKeepsDbOk(lower, db, LastCursor(page, cursor), FillPage(lower, db, cursor, limit));
  }
}
