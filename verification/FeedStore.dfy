/**
 The resolver methods of server/resolver/resolver_utils.go on mutable state. SQL is replaced by
 reading the table: Take(limit, ...) of the posts in descending cursor order.
 */
module FeedStore {
  import opened Wrappers
  import opened DataExpression
  import opened PostMatching
  import opened Sequences
  import opened FeedPaging
  import opened FeedScroll
  import opened FeedRuns
  import opened FeedSort

  /** model.FeedRefreshInput */
  class FeedRefreshInput {
    var cursor: int
    var limit: int
    var direction: Direction
    const feedUpdatedTime: Option<int>

    constructor (q: Query)
      ensures Value() == q
    {
      cursor, limit, direction, feedUpdatedTime := q.cursor, q.limit, q.direction, q.feedUpdatedTime;
    }

    function Value(): Query
      reads this
    {
      Query(cursor, limit, direction, feedUpdatedTime)
    }

    /** sanitizeFeedRefreshInput: what is left is a query a database can answer, and a cursor of
        another version of the feed never survives. */
    method Sanitize(feed: Feed) returns (ok: bool)
      modifies this
      ensures ok <==> old(cursor) >= 0 && old(limit) > 0
      ensures ok ==> Sanitized(old(Value()), feed) == Ok(Value())
      ensures !ok ==> Value() == old(Value())
      ensures ok ==> limit == (if old(limit) > 300 then 300 else old(limit))
      ensures ok && feedUpdatedTime == Some(feed.updatedAt) ==> cursor == old(cursor) && direction == old(direction)
      ensures ok && feedUpdatedTime != Some(feed.updatedAt) ==> cursor == 0x7fff_ffff && direction.Old?
    {
      if cursor < 0 {
        return false;
      }
      if limit <= 0 {
        return false;
      }
      if feedUpdatedTime != Some(feed.updatedAt) {
        cursor := DEFAULT_FEEDS_QUERY_CURSOR;
        direction := Old;
      }
      if limit > FEED_REFRESH_LIMIT {
        limit := FEED_REFRESH_LIMIT;
      }
      return true;
    }
  }

  /** A filter document on which json.Unmarshal panics. */
  ghost predicate FilterPanics(filter: FilterText) {
    filter.Document? && HasNil(filter.json)
  }

  lemma {:induction false} PanicIsPerFilter(lower: string -> string, filter: FilterText, chain: PostChain)
    ensures DataExpressionMatchPostChain(lower, filter, chain).Panic? <==> FilterPanics(filter)
  {
    ChainMatchesSomePost(lower, filter, chain);
    if filter.Document? {
      AcceptsExactlyWellFormed(filter.json);
      PanicsExactlyOnNil(filter.json);
    }
  }

  /** An answer to a query for older posts, in whatever order, is published afterwards, and nothing else is
      that was not before. */
  lemma {:induction false} AnswerIsPublished(lower: string -> string, db: Db, cursor: int, limit: nat, posts: seq<Post>)
    requires multiset(posts) == multiset(OldPage(lower, db, cursor, limit))
    ensures AfterOld(lower, db, cursor, limit).published == db.published + Cursors(posts)
  {
    var page, fill := ReadPage(db, cursor, limit), FillPage(lower, db, cursor, limit);
    FilterMembers(Below(db.table, cursor), IsPublished(db.published));
    TakeMembers(limit, PublishedBelow(db.table, db.published, cursor));
    forall p
      ensures p in posts <==> p in page || p in fill
    {
      assert p in posts <==> p in multiset(OldPage(lower, db, cursor, limit));
    }
  }

  /** One feed with the post table and the publications of the database. */
  class Store {
    const lower: string -> string
    var feed: Feed
    var table: seq<Post>
    var published: set<int>

    constructor (lower: string -> string, db: Db)
      ensures Contents() == db && this.lower == lower
    {
      this.lower, feed, table, published := lower, db.feed, db.table, db.published;
    }

    function Contents(): Db
      reads this
    {
      Db(feed, table, published)
    }

    /** rePublishPostsFromCursor: the batched scan finds the simple form, publishes exactly that, and
        asks the database at most 11 times, fewer only when it has found enough. */
    method RePublishPostsFromCursor(limit: nat, start: int) returns (postsToPublish: seq<Post>, batches: nat,
        panicked: bool)
      requires Increasing(table)
      modifies this`published
      ensures panicked ==> Contents() == old(Contents()) && FilterPanics(feed.filter)
      ensures !panicked ==> postsToPublish == Republished(lower, feed, table, limit, start)
      ensures !panicked ==> Decreasing(postsToPublish)
      ensures !panicked ==> forall p :: p in postsToPublish <==> IsFound(lower, feed, table, limit, start, p)
      ensures !panicked ==> Contents() == old(Contents()).(published := old(published) + Cursors(postsToPublish))
      ensures !panicked ==> batches <= MAX_REPUBLISH_DB_BATCHES + 1
      ensures !panicked ==> batches == MAX_REPUBLISH_DB_BATCHES + 1 || |postsToPublish| == limit
      ensures panicked <==> FilterPanics(feed.filter) && limit > 0 && Candidates(feed, table, start) != []
    {
      postsToPublish, batches, panicked := [], 0, false;
      var fromCursor := start;
      ghost var all := Candidates(feed, table, start);
      ghost var k: nat := 0;
      assert all[..0] == [];
      while |postsToPublish| < limit && batches <= MAX_REPUBLISH_DB_BATCHES
        invariant published == old(published)
        invariant ScanState(all, start, k, fromCursor, limit, postsToPublish)
        invariant batches <= MAX_REPUBLISH_DB_BATCHES + 1
        invariant k <= batches * FEED_REFRESH_LIMIT
        invariant |postsToPublish| < limit ==> k == |all| || k == batches * FEED_REFRESH_LIMIT
        invariant all != [] && batches > 0 ==> !FilterPanics(feed.filter)
        decreases MAX_REPUBLISH_DB_BATCHES + 1 - batches
      {
        var postsCandidates := Take(FEED_REFRESH_LIMIT, Candidates(feed, table, fromCursor));
        CandidatesFrom(all, start, k, fromCursor);
        postsToPublish, fromCursor, k, panicked :=
          MatchBatch(postsCandidates, limit, postsToPublish, fromCursor, all, start, k);
        if panicked {
          return [], batches, true;
        }
        batches := batches + 1;
      }
      ScanFinished(all, k, limit, postsToPublish);
      RepublishedDecreases(lower, feed, table, limit, start);
      forall p
        ensures p in postsToPublish <==> IsFound(lower, feed, table, limit, start, p)
      {
        RepublishedIff(lower, feed, table, limit, start, p);
      }
      published := published + Cursors(postsToPublish);
    }

    /** The inner loop: one batch of candidates is matched until enough posts are found. */
    method MatchBatch(postsCandidates: seq<Post>, limit: nat, found: seq<Post>, from: int,
                      ghost all: seq<Post>, ghost start: int, ghost k0: nat)
      returns (postsToPublish: seq<Post>, fromCursor: int, ghost k: nat, panicked: bool)
      requires Increasing(table) && all == Candidates(feed, table, start)
      requires ScanState(all, start, k0, from, limit, found) && |found| < limit
      requires postsCandidates <= all[k0..]
      ensures panicked <==> FilterPanics(feed.filter) && postsCandidates != []
      ensures !panicked ==> ScanState(all, start, k, fromCursor, limit, postsToPublish)
      ensures !panicked ==> k0 <= k <= k0 + |postsCandidates|
      ensures !panicked && |postsToPublish| < limit ==> k == k0 + |postsCandidates|
    {
      postsToPublish, fromCursor, k, panicked := found, from, k0, false;
      for idx := 0 to |postsCandidates|
        invariant k == k0 + idx
        invariant ScanState(all, start, k, fromCursor, limit, postsToPublish)
        invariant |postsToPublish| < limit
        invariant idx > 0 ==> !FilterPanics(feed.filter)
      {
        var post := postsCandidates[idx];
        assert post == all[k];
        CandidateIsBelow(all, start, k, fromCursor);
        fromCursor := if fromCursor < post.cursor then fromCursor else post.cursor;
        var matched := DataExpressionMatchPostChain(lower, feed.filter, Preloaded(post.chain));
        PanicIsPerFilter(lower, feed.filter, Preloaded(post.chain));
        ScanNext(all, k);
        k := k + 1;
        if matched.Panic? {
          panicked := true;
          return;
        }
        if matched.Ok? && matched.value {
          postsToPublish := postsToPublish + [post];
          if |postsToPublish| >= limit {
            break;
          }
        }
      }
    }

    /** Where a scan of `all` stands after k candidates. */
    ghost predicate ScanState(all: seq<Post>, start: int, k: nat, fromCursor: int, limit: nat, found: seq<Post>)
      reads this
    {
      && k <= |all|
      && fromCursor == (if k == 0 then start else all[k - 1].cursor)
      && found == Filter(all[..k], IsMatch(lower, feed))
      && |found| <= limit
    }

    lemma {:induction false} CandidatesFrom(all: seq<Post>, start: int, k: nat, fromCursor: int)
      requires Increasing(table) && all == Candidates(feed, table, start) && k <= |all|
      requires fromCursor == (if k == 0 then start else all[k - 1].cursor)
      ensures Candidates(feed, table, fromCursor) == all[k..]
    {
      if k > 0 {
        MoveCursor(table, start, IsCandidate(feed), k - 1);
      }
    }

    lemma {:induction false} CandidateIsBelow(all: seq<Post>, start: int, k: nat, fromCursor: int)
      requires Increasing(table) && all == Candidates(feed, table, start) && k < |all|
      requires fromCursor == (if k == 0 then start else all[k - 1].cursor)
      ensures all[k].cursor < fromCursor
    {
      CandidatesFrom(all, start, k, fromCursor);
      FilterMembers(Below(table, fromCursor), IsCandidate(feed));
      BelowMembers(table, fromCursor);
      assert all[k] == all[k..][0];
      assert all[k] in all[k..];
    }

    lemma {:induction false} ScanNext(all: seq<Post>, k: nat)
      requires k < |all|
      ensures Filter(all[..k + 1], IsMatch(lower, feed)) ==
              Filter(all[..k], IsMatch(lower, feed)) + if Matches(lower, feed, all[k]) then [all[k]] else []
    {
      assert all[..k + 1] == all[..k] + [all[k]];
      FilterAppend(all[..k], [all[k]], IsMatch(lower, feed));
    }

    lemma {:induction false} ScanFinished(all: seq<Post>, k: nat, limit: nat, found: seq<Post>)
      requires k <= |all| && k <= SCAN_BUDGET
      requires found == Filter(all[..k], IsMatch(lower, feed)) && |found| <= limit
      requires |found| < limit ==> k == |all| || k == SCAN_BUDGET
      ensures found == Take(limit, Filter(Take(SCAN_BUDGET, all), IsMatch(lower, feed)))
    {
      var scanned := Take(SCAN_BUDGET, all);
      assert scanned[..k] == all[..k];
      FilterOfPrefix(scanned, k, IsMatch(lower, feed));
      if |found| < limit {
        assert scanned == all[..k];
      }
    }

    /** getFeedPostsOrRePublish on a sanitized query: the page holds exactly the posts of the NEW or
        OLD page, newest creation time first; only an OLD query publishes, and only what it adds. */
    method GetFeedPostsOrRePublish(query: FeedRefreshInput) returns (posts: seq<Post>, panicked: bool)
      requires Increasing(table)
      requires query.limit > 0
      modifies this`published
      ensures panicked ==> Contents() == old(Contents()) && FilterPanics(feed.filter)
      ensures !panicked && query.direction.New? ==>
                && Contents() == old(Contents())
                && NewestFirst(posts) && SameByTime(posts, NewPage(old(Contents()), query.cursor, query.limit))
      ensures !panicked && query.direction.Old? ==>
                && Contents() == AfterOld(lower, old(Contents()), query.cursor, query.limit)
                && published == old(published) + Cursors(posts)
                && NewestFirst(posts) && SameByTime(posts, OldPage(lower, old(Contents()), query.cursor, query.limit))
    {
      panicked := false;
      if query.direction.New? {
        posts := NewPage(Contents(), query.cursor, query.limit);
      } else {
        posts := ReadPage(Contents(), query.cursor, query.limit);
        if |posts| < query.limit {
          var lastCursor := query.cursor;
          if |posts| > 0 {
            lastCursor := posts[|posts| - 1].cursor;
          }
          var added, _, crashed := RePublishPostsFromCursor(query.limit - |posts|, lastCursor);
          if crashed {
            return [], true;
          }
          posts := posts + added;
        } else {
          assert published + Cursors([]) == published;
          assert posts + [] == posts;
        }
      }
      SortFacts(posts);
      posts := SortPostsByCreationTime(posts);
      if query.direction.Old? {
        AnswerIsPublished(lower, old(Contents()), query.cursor, query.limit, posts);
      }
    }
  }
}
