/**
 What a client sees over several feed queries, and where the paging scheme stops short: the exact
 conditions under which a query makes progress, keeps the invariant, or leaves a gap.
 */
module FeedScroll {
  import opened Wrappers
  import opened DataExpression
  import opened PostMatching
  import opened Sequences
  import opened FeedPaging

  // ---------- scrolling down ----------

  /** One OLD query of a client: the database it met and the limit it asked for. */
  datatype Visit = Visit(db: Db, limit: nat)

  /** Later state of the same, unchanged feed: only newer posts were added to the table. */
  ghost predicate GrownFrom(before: Db, after: Db) {
    && after.feed == before.feed
    && before.table <= after.table
  }

  /** Every visit meets a good database that has grown from the one of the visit before. */
  ghost predicate Journey(lower: string -> string, visits: seq<Visit>) {
    visits != [] ==>
      var init := visits[..|visits| - 1];
      && DbOk(lower, Last(visits).db)
      && (init != [] ==> GrownFrom(Last(init).db, Last(visits).db))
      && Journey(lower, init)
  }

  /** Everything returned by a client that starts at `cursor` and always asks again from the
      least cursor it has seen. */
  function Seen(lower: string -> string, cursor: int, visits: seq<Visit>): seq<Post> {
    if visits == [] then []
    else
      var seen := Seen(lower, cursor, visits[..|visits| - 1]);
      seen + OldPage(lower, Last(visits).db, LastCursor(seen, cursor), Last(visits).limit)
  }

  /** A lower bound that no selected post reaches selects the same. */
  lemma {:induction false} LowerBoundSelectsSame(table: seq<Post>, hi: int, lo: int, f: Post -> bool)
    requires lo <= hi && forall p | p in table && p.cursor < hi && f(p) :: p.cursor < lo
    ensures Filter(Below(table, hi), f) == Filter(Below(table, lo), f)
  {
    if table == [] {
    } else {
      var init, last := table[..|table| - 1], Last(table);
      assert last in table && forall p | p in init :: p in table;
      LowerBoundSelectsSame(init, hi, lo, f);
      if last.cursor < hi {
        assert ([last] + Below(init, hi))[1..] == Below(init, hi);
        assert ([last] + Below(init, lo))[1..] == Below(init, lo);
      }
    }
  }

  lemma {:induction false} HeadIsHighest(table: seq<Post>, hi: int, f: Post -> bool, p: Post)
    requires Increasing(table) && p in table && p.cursor < hi && f(p)
    ensures Filter(Below(table, hi), f) != [] && p.cursor <= Filter(Below(table, hi), f)[0].cursor
  {
    FilterDecreases(table, hi, f);
    BelowMembers(table, hi);
    FilterMembers(Below(table, hi), f);
    assert p in Filter(Below(table, hi), f);
  }

  lemma {:induction false} HeadBelow(table: seq<Post>, hi: int, f: Post -> bool)
    requires Increasing(table)
    requires Filter(Below(table, hi), f) != []
    ensures Filter(Below(table, hi), f) ==
            Filter(Below(table, Filter(Below(table, hi), f)[0].cursor + 1), f)
  {
    var top := Filter(Below(table, hi), f)[0];
    TopBelow(table, hi, f);
    forall p | p in table && p.cursor < hi && f(p)
      ensures p.cursor < top.cursor + 1
    {
      HeadIsHighest(table, hi, f, p);
    }
    LowerBoundSelectsSame(table, hi, top.cursor + 1, f);
  }

  lemma {:induction false} TopBelow(table: seq<Post>, hi: int, f: Post -> bool)
    requires Filter(Below(table, hi), f) != []
    ensures Filter(Below(table, hi), f)[0].cursor < hi
  {
    FilterMembers(Below(table, hi), f);
    BelowMembers(table, hi);
    assert Filter(Below(table, hi), f)[0] in Filter(Below(table, hi), f);
  }

  lemma {:induction false} TopInTable(table: seq<Post>, hi: int, f: Post -> bool)
    requires Filter(Below(table, hi), f) != []
    ensures Filter(Below(table, hi), f)[0] in table
  {
    FilterMembers(Below(table, hi), f);
    BelowMembers(table, hi);
    assert Filter(Below(table, hi), f)[0] in Filter(Below(table, hi), f);
  }

  lemma {:induction false} GrownBelow(before: Db, after: Db, hi: int)
    requires GrownFrom(before, after) && Increasing(after.table)
    requires exists p :: p in before.table && hi <= p.cursor + 1
    ensures Below(after.table, hi) == Below(before.table, hi)
  {
    var p :| p in before.table && hi <= p.cursor + 1;
    var newer := after.table[|before.table|..];
    assert after.table == before.table + newer;
    forall q | q in newer
      ensures q.cursor >= hi
    {
      var i :| 0 <= i < |before.table| && after.table[i] == p;
      var j :| 0 <= j < |newer| && newer[j] == q;
      assert after.table[|before.table| + j] == q;
    }
    BelowIgnoresNewer(before.table, newer, hi);
  }

  /** These are all the eligible posts from the first of them down to the last, in order. */
  ghost predicate NoGap(lower: string -> string, db: Db, seen: seq<Post>) {
    seen != [] ==> seen <= EligibleBelow(lower, db.feed, db.table, seen[0].cursor + 1)
  }

  lemma {:induction false} NextPageContinues(table: seq<Post>, hi: int, f: Post -> bool, seen: seq<Post>,
      page: seq<Post>)
    requires Increasing(table)
    requires seen != [] && seen <= Filter(Below(table, hi), f)
    requires page <= Filter(Below(table, Last(seen).cursor), f)
    ensures seen + page <= Filter(Below(table, hi), f)
  {
    var all := Filter(Below(table, hi), f);
    var k := |seen| - 1;
    assert all[k] == seen[k];
    MoveCursor(table, hi, f, k);
    assert all == seen + all[k + 1..];
  }

  lemma {:induction false} PrefixHasNoGap(lower: string -> string, db: Db, cursor: int, page: seq<Post>)
    requires Increasing(db.table) && page <= EligibleBelow(lower, db.feed, db.table, cursor)
    ensures NoGap(lower, db, page)
  {
    if page != [] {
      HeadBelow(db.table, cursor, IsEligible(lower, db.feed));
      assert page[0] == EligibleBelow(lower, db.feed, db.table, cursor)[0];
    }
  }

  lemma {:induction false} NoGapGrows(lower: string -> string, before: Db, after: Db, page: seq<Post>)
    requires GrownFrom(before, after) && Increasing(after.table) && NoGap(lower, before, page)
    ensures NoGap(lower, after, page)
  {
    if page != [] {
      var hi := page[0].cursor + 1;
      TopInTable(before.table, hi, IsEligible(lower, before.feed));
      GrownBelow(before, after, hi);
    }
  }

  /** The database of the first visit that returned a post. */
  function Anchor(lower: string -> string, cursor: int, visits: seq<Visit>): Db
    requires visits != []
  {
    var init := visits[..|visits| - 1];
    if Seen(lower, cursor, init) == [] || init == [] then Last(visits).db else Anchor(lower, cursor, init)
  }

  lemma {:induction false} AnchorGrows(lower: string -> string, cursor: int, visits: seq<Visit>)
    requires visits != [] && Journey(lower, visits)
    ensures GrownFrom(Anchor(lower, cursor, visits), Last(visits).db)
    ensures DbOk(lower, Anchor(lower, cursor, visits))
  {
    var init := visits[..|visits| - 1];
    if Seen(lower, cursor, init) == [] || init == [] {
    } else {
      AnchorGrows(lower, cursor, init);
    }
  }

  /** What is selected below a post of the older table. */
  lemma {:induction false} SelectedBelowOld(before: Db, after: Db, f: Post -> bool, cursor: int, p: Post)
    requires GrownFrom(before, after) && Increasing(after.table)
    requires p in Filter(Below(before.table, cursor), f)
    ensures Below(after.table, p.cursor) == Below(before.table, p.cursor)
  {
    FilterMembers(Below(before.table, cursor), f);
    BelowMembers(before.table, cursor);
    GrownBelow(before, after, p.cursor);
  }

  lemma {:induction false} NextVisit(lower: string -> string, anchor: Db, db: Db, cursor: int, seen: seq<Post>,
      limit: nat)
    requires DbOk(lower, anchor) && DbOk(lower, db) && GrownFrom(anchor, db)
    requires seen != [] && seen <= EligibleBelow(lower, anchor.feed, anchor.table, cursor)
    ensures seen + OldPage(lower, db, Last(seen).cursor, limit) <=
            EligibleBelow(lower, anchor.feed, anchor.table, cursor)
  {
    var f := IsEligible(lower, anchor.feed);
    OldPageIsPrefix(lower, db, Last(seen).cursor, limit);
    SelectedBelowOld(anchor, db, f, cursor, Last(seen));
    NextPageContinues(anchor.table, cursor, f, seen, OldPage(lower, db, Last(seen).cursor, limit));
  }

  /** Scrolling leaves no gap and repeats nothing: all pages together are, in order, a prefix of the
      posts below the requested cursor that were eligible when the first post was returned, whatever
      was published on top since and whatever other queries did in between. */
  lemma {:induction false} ScrollIsPrefix(lower: string -> string, cursor: int, visits: seq<Visit>)
    requires visits != [] && Journey(lower, visits)
    ensures var seen, anchor := Seen(lower, cursor, visits), Anchor(lower, cursor, visits);
            && seen <= EligibleBelow(lower, anchor.feed, anchor.table, cursor)
            && NoGap(lower, Last(visits).db, seen)
  {
    var init := visits[..|visits| - 1];
    var seen, v, anchor := Seen(lower, cursor, init), Last(visits), Anchor(lower, cursor, visits);
    AnchorGrows(lower, cursor, visits);
    if init == [] || seen == [] {
      OldPageIsPrefix(lower, v.db, cursor, v.limit);
      assert Seen(lower, cursor, visits) == OldPage(lower, v.db, cursor, v.limit);
    } else {
      ScrollIsPrefix(lower, cursor, init);
      NextVisit(lower, anchor, v.db, cursor, seen, v.limit);
    }
    PrefixHasNoGap(lower, anchor, cursor, Seen(lower, cursor, visits));
    NoGapGrows(lower, anchor, v.db, Seen(lower, cursor, visits));
  }

  // ---------- progress ----------

  /** A query comes back empty exactly when nothing is published below its cursor and none of the
      first 3300 candidates is eligible. */
  lemma {:induction false} EmptyPageIff(lower: string -> string, db: Db, cursor: int, limit: nat)
    requires limit > 0
    ensures OldPage(lower, db, cursor, limit) == [] <==>
            && PublishedBelow(db.table, db.published, cursor) == []
            && (forall p | p in Take(SCAN_BUDGET, Candidates(db.feed, db.table, cursor)) :: !Matches(lower, db.feed, p))
  {
    var published := PublishedBelow(db.table, db.published, cursor);
    var scanned := Take(SCAN_BUDGET, Candidates(db.feed, db.table, cursor));
    if published == [] {
      FilterMembers(scanned, IsMatch(lower, db.feed));
      if forall p | p in scanned :: !Matches(lower, db.feed, p) {
        FilterNothing(scanned, IsMatch(lower, db.feed));
      } else {
        var p :| p in scanned && Matches(lower, db.feed, p);
        assert p in Filter(scanned, IsMatch(lower, db.feed));
      }
    }
  }

  /** After an empty page nothing has changed, so every repetition of the query stays empty. */
  lemma {:induction false} EmptyPageIsStuck(lower: string -> string, db: Db, cursor: int, limit: nat)
    requires limit > 0 && OldPage(lower, db, cursor, limit) == []
    ensures AfterOld(lower, db, cursor, limit) == db
  {
    assert FillPage(lower, db, cursor, limit) == [];
    assert db.published + Cursors([]) == db.published;
  }

  // A feed that wants the word "y", over posts that do not have it, except the oldest one.

  const Wanted := Wrap("1", PredicateWrap(Predicate(LITERAL, "y")))
  const WantedFeed := Feed(Document(Marshal(Wanted)), ["s"], 0)
  const Plain: string -> string := s => s

  function PostAt(cursor: int, content: string): Post {
    Post(cursor, "s", false, PostChain(content, None), 0)
  }

  lemma {:induction false} WantedMatches(cursor: int, content: string)
    ensures Matches(Plain, WantedFeed, PostAt(cursor, content)) <==> Contains(content, "y")
  {
    ClosedRoundTrip(Wanted);
  }

  function Misses(n: nat): (r: seq<Post>)
    ensures |r| == n && forall i | 0 <= i < n :: r[i] == PostAt(i + 2, "x")
  {
    seq(n, i requires 0 <= i < n => PostAt(i + 2, "x"))
  }

  function StarvedDb(n: nat): Db {
    Db(WantedFeed, [PostAt(1, "y")] + Misses(n), {})
  }

  lemma {:induction false} BelowAll(table: seq<Post>, hi: int)
    requires forall p | p in table :: p.cursor < hi
    ensures |Below(table, hi)| == |table|
    ensures forall i | 0 <= i < |table| :: Below(table, hi)[i] == table[|table| - 1 - i]
  {
    if table == [] {
    } else {
      assert Last(table) in table;
      BelowAll(table[..|table| - 1], hi);
    }
  }

  lemma {:induction false} FilterAll<T>(s: seq<T>, p: T -> bool)
    requires forall x | x in s :: p(x)
    ensures Filter(s, p) == s
  {
    if s == [] {
    } else {
      assert s == [s[0]] + s[1..];
      FilterAll(s[1..], p);
    }
  }

  lemma {:induction false} StarvedBelow(n: nat, i: nat)
    requires n < DEFAULT_FEEDS_QUERY_CURSOR - 2 && i <= n
    ensures var below := Below(StarvedDb(n).table, DEFAULT_FEEDS_QUERY_CURSOR);
            && |below| == n + 1
            && below[i] == (if i < n then PostAt(n - i + 1, "x") else PostAt(1, "y"))
            && Candidates(WantedFeed, StarvedDb(n).table, DEFAULT_FEEDS_QUERY_CURSOR) == below
  {
    var table := StarvedDb(n).table;
    BelowAll(table, DEFAULT_FEEDS_QUERY_CURSOR);
    FilterAll(Below(table, DEFAULT_FEEDS_QUERY_CURSOR), IsCandidate(WantedFeed));
    assert i < n ==> table[n - i] == Misses(n)[n - i - 1];
  }

  lemma {:induction false} StarvedScan(n: nat, p: Post)
    requires SCAN_BUDGET <= n < DEFAULT_FEEDS_QUERY_CURSOR - 2
    requires p in Take(SCAN_BUDGET, Candidates(WantedFeed, StarvedDb(n).table, DEFAULT_FEEDS_QUERY_CURSOR))
    ensures !Matches(Plain, WantedFeed, p)
  {
    StarvedBelow(n, 0);
    var below := Below(StarvedDb(n).table, DEFAULT_FEEDS_QUERY_CURSOR);
    var i :| 0 <= i < SCAN_BUDGET && below[i] == p;
    StarvedBelow(n, i);
    WantedMatches(n - i + 1, "x");
    NoY();
  }

  lemma {:induction false} StarvedEligible(n: nat)
    requires n < DEFAULT_FEEDS_QUERY_CURSOR - 2
    ensures PostAt(1, "y") in EligibleBelow(Plain, WantedFeed, StarvedDb(n).table, DEFAULT_FEEDS_QUERY_CURSOR)
  {
    var below := Below(StarvedDb(n).table, DEFAULT_FEEDS_QUERY_CURSOR);
    StarvedBelow(n, n);
    assert PostAt(1, "y") in below;
    assert OccursAt("y", "y", 0);
    WantedMatches(1, "y");
    FilterMembers(below, IsEligible(Plain, WantedFeed));
  }

  lemma {:induction false} StarvedPage(n: nat, limit: nat)
    requires SCAN_BUDGET <= n < DEFAULT_FEEDS_QUERY_CURSOR - 2 && limit > 0
    ensures OldPage(Plain, StarvedDb(n), DEFAULT_FEEDS_QUERY_CURSOR, limit) == []
  {
    var table := StarvedDb(n).table;
    FilterNothing(Below(table, DEFAULT_FEEDS_QUERY_CURSOR), IsPublished({}));
    forall p | p in Take(SCAN_BUDGET, Candidates(WantedFeed, table, DEFAULT_FEEDS_QUERY_CURSOR))
      ensures !Matches(Plain, WantedFeed, p)
    {
      StarvedScan(n, p);
    }
    EmptyPageIff(Plain, StarvedDb(n), DEFAULT_FEEDS_QUERY_CURSOR, limit);
  }

  lemma {:induction false} NoY()
    ensures !Contains("x", "y")
  {
    forall k | 0 <= k <= 1
      ensures !OccursAt("x", "y", k)
    {
      if k == 0 {
        assert "x"[0..][0] == 'x' && "y"[0] == 'y';
      }
    }
  }

  // ---------- cursors a client made up ----------

  /** A query that finds its page full, or no match among the candidates it may look at, adds nothing. */
  ghost predicate AddsNothing(lower: string -> string, db: Db, cursor: int, limit: nat) {
    var page := ReadPage(db, cursor, limit);
    || |page| >= limit
    || forall p | p in Take(SCAN_BUDGET, Candidates(db.feed, db.table, LastCursor(page, cursor))) ::
       !Matches(lower, db.feed, p)
  }

  lemma {:induction false} AddsNothingIff(lower: string -> string, db: Db, cursor: int, limit: nat)
    ensures FillPage(lower, db, cursor, limit) == [] <==> AddsNothing(lower, db, cursor, limit)
  {
    var page := ReadPage(db, cursor, limit);
    var scanned := Take(SCAN_BUDGET, Candidates(db.feed, db.table, LastCursor(page, cursor)));
    FilterMembers(scanned, IsMatch(lower, db.feed));
    if forall p | p in scanned :: !Matches(lower, db.feed, p) {
      FilterNothing(scanned, IsMatch(lower, db.feed));
    } else {
      var p :| p in scanned && Matches(lower, db.feed, p);
      assert p in Filter(scanned, IsMatch(lower, db.feed));
    }
  }

  /** From any cursor at all, a query keeps the publications upward closed exactly when it finds its
      page full, or no match to add, or everything eligible from its start upwards already published. */
  lemma {:induction false} KeepsUpwardClosedIff(lower: string -> string, db: Db, cursor: int, limit: nat)
    requires DbOk(lower, db)
    ensures UpwardClosed(lower, AfterOld(lower, db, cursor, limit)) <==>
            || AddsNothing(lower, db, cursor, limit)
            || Covered(lower, db, LastCursor(ReadPage(db, cursor, limit), cursor))
  {
    var page := ReadPage(db, cursor, limit);
    var from := LastCursor(page, cursor);
    var found := FillPage(lower, db, cursor, limit);
    var after := AfterOld(lower, db, cursor, limit);
    AddsNothingIff(lower, db, cursor, limit);
    if found == [] {
      assert db.published + Cursors([]) == db.published;
    } else {
      RepublishedIsPrefix(lower, db.feed, db.table, limit - |page|, from);
      if Covered(lower, db, from) {
        CommitKeepsDbOk(lower, db, from, found);
      } else {
        UncoveredStartBreaks(lower, db, from, found);
      }
    }
  }

  lemma {:induction false} UncoveredStartBreaks(lower: string -> string, db: Db, from: int, found: seq<Post>)
    requires !Covered(lower, db, from)
    requires found != [] && found <= EligibleBelow(lower, db.feed, db.table, from)
    ensures !UpwardClosed(lower, db.(published := db.published + Cursors(found)))
  {
    var p :| p in db.table && Eligible(lower, db.feed, p) && p.cursor >= from && p.cursor !in db.published;
    forall q | q in found
      ensures q.cursor < from
    {
      assert q in EligibleBelow(lower, db.feed, db.table, from);
      EligibleBelowMembers(lower, db, from, q);
    }
    assert found[0] in found;
    assert found[0].cursor in db.published + Cursors(found) && p.cursor !in db.published + Cursors(found);
  }

  const TwoWanted := [PostAt(1, "y"), PostAt(2, "y")]

  lemma {:induction false} BothWanted(p: Post)
    requires p in TwoWanted
    ensures Eligible(Plain, WantedFeed, p)
  {
    assert OccursAt("y", "y", 0);
    WantedMatches(p.cursor, "y");
  }

  lemma {:induction false} OlderIsScanned()
    ensures Below(TwoWanted, 2) == [PostAt(1, "y")]
    ensures PostAt(1, "y") in Take(SCAN_BUDGET, Candidates(WantedFeed, TwoWanted, 2))
  {
    BelowAll(TwoWanted[..1], 2);
    assert TwoWanted == TwoWanted[..1] + [PostAt(2, "y")];
    FilterAll(Below(TwoWanted, 2), IsCandidate(WantedFeed));
  }

  /** A made-up cursor does break it: asking below an unpublished post publishes the older one. */
  lemma {:induction false} MadeUpCursorLeavesGap()
    ensures var db := Db(WantedFeed, TwoWanted, {});
            && DbOk(Plain, db)
            && !UpwardClosed(Plain, AfterOld(Plain, db, 2, 1))
  {
    var db := Db(WantedFeed, TwoWanted, {});
    OlderIsScanned();
    FilterNothing(Below(TwoWanted, 2), IsPublished({}));
    BothWanted(TwoWanted[0]);
    BothWanted(TwoWanted[1]);
    EmptyPageIff(Plain, db, 2, 1);
    KeepsUpwardClosedIff(Plain, db, 2, 1);
  }

  // ---------- a query for newer posts ----------

  function IsNewer(published: set<int>, cursor: int): Post -> bool {
    (p: Post) => p.cursor in published && p.cursor > cursor
  }

  /** The NEW branch of getFeedPostsOrRePublish, before the page is sorted for display. */
  function NewPage(db: Db, cursor: int, limit: nat): seq<Post> {
    Take(limit, Filter(Below(db.table, DEFAULT_FEEDS_QUERY_CURSOR), IsNewer(db.published, cursor)))
  }

  /** A NEW page, said of one post at a time: what is published above the cursor, as long as fewer than
      `limit` published posts lie above. */
  lemma {:induction false} NewPageIff(db: Db, cursor: int, limit: nat, p: Post)
    requires TableOk(db.table)
    ensures p in NewPage(db, cursor, limit) <==>
            && p in db.table && cursor < p.cursor && p.cursor in db.published
            && |set q | q in db.table && p.cursor < q.cursor && q.cursor in db.published| < limit
    ensures Decreasing(NewPage(db, cursor, limit))
  {
    var hi, f := DEFAULT_FEEDS_QUERY_CURSOR, IsNewer(db.published, cursor);
    var all := Filter(Below(db.table, hi), f);
    FilterDecreases(db.table, hi, f);
    FilterMembers(Below(db.table, hi), f);
    BelowMembers(db.table, hi);
    var above := set q | q in all && q.cursor > p.cursor;
    if cursor < p.cursor {
      assert above == set q | q in db.table && p.cursor < q.cursor && q.cursor in db.published;
    }
    TakenIff(all, limit, p, above);
  }

  /** From a held cursor a NEW page is the newest eligible posts above it; it misses none of them
      exactly when there are no more than `limit`. */
  lemma {:induction false} NewPageMissesNothingIff(lower: string -> string, db: Db, cursor: int, limit: nat)
    requires DbOk(lower, db) && cursor in db.published
    ensures NewPage(db, cursor, limit) <= EligibleBelow(lower, db.feed, db.table, DEFAULT_FEEDS_QUERY_CURSOR)
    ensures (forall p | p in db.table && Eligible(lower, db.feed, p) && p.cursor > cursor ::
               p in NewPage(db, cursor, limit)) <==>
            |Filter(Below(db.table, DEFAULT_FEEDS_QUERY_CURSOR), IsNewer(db.published, cursor))| <= limit
  {
    var hi := DEFAULT_FEEDS_QUERY_CURSOR;
    var below := Below(db.table, hi);
    var newer := Filter(below, IsNewer(db.published, cursor));
    BelowMembers(db.table, hi);
    BelowDecreases(db.table, hi);
    FilterMembers(below, IsNewer(db.published, cursor));
    forall p | p in below && IsNewer(db.published, cursor)(p)
      ensures Eligible(lower, db.feed, p)
    {
      PublishedAreEligible(lower, db, p);
    }
    FilterIsPrefix(below, IsNewer(db.published, cursor), IsEligible(lower, db.feed));
    FilterDecreases(db.table, hi, IsNewer(db.published, cursor));
    if |newer| > limit {
      var p := newer[limit];
      assert p in newer;
      PublishedAreEligible(lower, db, p);
      assert p !in NewPage(db, cursor, limit);
    }
  }

  // ---------- what the matcher sees of a post ----------

  lemma {:induction false} PreloadedContents(chain: PostChain)
    ensures Contents(Preloaded(chain)) == Take(2, Contents(chain))
  {
    if chain.sharedFrom.Some? {
      var shared := chain.sharedFrom.value;
      assert Contents(chain) == [chain.content] + Contents(shared) && Contents(shared)[0] == shared.content;
      assert Contents(shared.(sharedFrom := None)) == [shared.content];
    }
  }

  /** The publisher reads the whole sharing chain, republishing its first two posts. Their answers
      differ exactly when the filter is a well-formed document that holds of some post of the chain and
      of neither of the first two; then the publisher matches and republishing does not. */
  lemma {:induction false} ReadersAgreeIff(lower: string -> string, text: FilterText, chain: PostChain)
    ensures var publisher, republisher := DataExpressionMatchPostChain(lower, text, chain),
            DataExpressionMatchPostChain(lower, text, Preloaded(chain));
            var lost := text.Document? && WellFormed(text.json)
                        && SomePostHolds(lower, text.json, Contents(chain)) &&
                           !SomePostHolds(lower, text.json, Take(2, Contents(chain)));
            && (publisher == republisher <==> !lost)
            && (lost ==> publisher == Ok(true) && republisher == Ok(false))
  {
    ChainMatchesSomePost(lower, text, chain);
    ChainMatchesSomePost(lower, text, Preloaded(chain));
    PreloadedContents(chain);
    if text.Document? {
      var all, two := Contents(chain), Take(2, Contents(chain));
      if SomePostHolds(lower, text.json, two) {
        var k :| 0 <= k < |two| && DocumentHolds(lower, text.json, two[k]);
        assert all[k] == two[k];
      }
    }
  }

  /** So on posts that share at most one other they always agree. */
  lemma {:induction false} TwoLayersAgree(lower: string -> string, text: FilterText, chain: PostChain)
    requires |Contents(chain)| <= 2
    ensures DataExpressionMatchPostChain(lower, text, chain) ==
            DataExpressionMatchPostChain(lower, text, Preloaded(chain))
  {
    ReadersAgreeIff(lower, text, chain);
    assert Take(2, Contents(chain)) == Contents(chain);
  }

  /** With one more layer they need not: the publisher reads the third post, republishing does not. */
  lemma {:induction false} ThirdLayerIsLost()
    ensures var chain := PostChain("x", Some(PostChain("x", Some(PostChain("y", None)))));
            && DataExpressionMatchPostChain(Plain, WantedFeed.filter, chain) == Ok(true)
            && DataExpressionMatchPostChain(Plain, WantedFeed.filter, Preloaded(chain)) == Ok(false)
  {
    ClosedRoundTrip(Wanted);
    NoY();
    assert OccursAt("y", "y", 0);
    var third := PostChain("y", None);
    var second := PostChain("x", Some(third));
    assert DataExpressionMatchPostChain(Plain, WantedFeed.filter, third) == Ok(true);
    assert DataExpressionMatchPostChain(Plain, WantedFeed.filter, second) == Ok(true);
    var cut := PostChain("x", None);
    assert DataExpressionMatchPostChain(Plain, WantedFeed.filter, cut) == Ok(false);
  }
}
