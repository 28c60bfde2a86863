/**
 How far a client gets that scrolls down a feed nobody else touches: it stops at the first run of more
 candidates than one query may look at, unless what lies behind is already published.
 */
module FeedProgress {
  import opened PostMatching
  import opened Sequences
  import opened FeedPaging
  import opened FeedScroll

  /** What the feed and the client have after some queries. */
  datatype Scrolled = Scrolled(db: Db, seen: seq<Post>)

  /** A client that starts at `cursor` and always asks again from the least cursor it has seen. */
  function Scroll(lower: string -> string, db: Db, cursor: int, limits: seq<nat>): Scrolled {
    if limits == [] then Scrolled(db, [])
    else
      var s := Scroll(lower, db, cursor, limits[..|limits| - 1]);
      var from := LastCursor(s.seen, cursor);
      Scrolled(AfterOld(lower, s.db, from, Last(limits)), s.seen + OldPage(lower, s.db, from, Last(limits)))
  }

  ghost predicate Positive(limits: seq<nat>) {
    forall i | 0 <= i < |limits| :: limits[i] > 0
  }

  /** The queries of one client, as they stand between two of them. */
  ghost predicate ScrollOk(lower: string -> string, db: Db, cursor: int, s: Scrolled) {
    && DbOk(lower, s.db) && s.db.feed == db.feed && s.db.table == db.table
    && db.published <= s.db.published <= db.published + Cursors(s.seen)
    && Cursors(s.seen) <= s.db.published
    && s.seen <= EligibleBelow(lower, db.feed, db.table, cursor)
    && Covered(lower, s.db, LastCursor(s.seen, cursor))
  }

  lemma {:induction false} PageIsPublished(lower: string -> string, db: Db, cursor: int, limit: nat)
    ensures Cursors(OldPage(lower, db, cursor, limit)) <= AfterOld(lower, db, cursor, limit).published
  {
    FilterMembers(Below(db.table, cursor), IsPublished(db.published));
    TakeMembers(limit, PublishedBelow(db.table, db.published, cursor));
  }

  /** What is below the k-th eligible post. */
  lemma {:induction false} EligibleAfter(lower: string -> string, db: Db, cursor: int, seen: seq<Post>)
    requires Increasing(db.table) && seen <= EligibleBelow(lower, db.feed, db.table, cursor)
    ensures EligibleBelow(lower, db.feed, db.table, cursor) ==
            seen + EligibleBelow(lower, db.feed, db.table, LastCursor(seen, cursor))
  {
    if seen != [] {
      var all, k := EligibleBelow(lower, db.feed, db.table, cursor), |seen| - 1;
      assert all[k] == seen[k];
      MoveCursor(db.table, cursor, IsEligible(lower, db.feed), k);
      assert all == all[..k + 1] + all[k + 1..];
    }
  }

  /** A page adds to the publications nothing but itself. */
  lemma {:induction false} PageBoundsPublished(lower: string -> string, db: Db, cursor: int, limit: nat)
    ensures var page, after := OldPage(lower, db, cursor, limit), AfterOld(lower, db, cursor, limit);
            db.published <= after.published <= db.published + Cursors(page)
  {
    var read, found := ReadPage(db, cursor, limit), FillPage(lower, db, cursor, limit);
    forall c | c in Cursors(found)
      ensures c in Cursors(read + found)
    {
      var p :| p in found && p.cursor == c;
      assert p in read + found;
    }
  }

  lemma {:induction false} PageContinues(lower: string -> string, db: Db, cursor: int, seen: seq<Post>, limit: nat)
    requires DbOk(lower, db) && seen <= EligibleBelow(lower, db.feed, db.table, cursor)
    ensures seen + OldPage(lower, db, LastCursor(seen, cursor), limit) <=
            EligibleBelow(lower, db.feed, db.table, cursor)
  {
    OldPageIsPrefix(lower, db, LastCursor(seen, cursor), limit);
    EligibleAfter(lower, db, cursor, seen);
  }

  lemma {:induction false} PageEndIsCovered(lower: string -> string, db: Db, cursor: int, limit: nat)
    requires DbOk(lower, db) && Covered(lower, db, cursor)
    ensures var page, after := OldPage(lower, db, cursor, limit), AfterOld(lower, db, cursor, limit);
            DbOk(lower, after) && Covered(lower, after, LastCursor(page, cursor))
  {
    var page, after := OldPage(lower, db, cursor, limit), AfterOld(lower, db, cursor, limit);
    OldKeepsDbOk(lower, db, cursor, limit);
    PageIsPublished(lower, db, cursor, limit);
    if page != [] {
      assert Last(page) in page;
      HeldIsCovered(lower, after, Last(page).cursor);
    }
  }

  lemma {:induction false} CursorsOfBoth(a: seq<Post>, b: seq<Post>)
    ensures Cursors(a + b) == Cursors(a) + Cursors(b)
  {
    forall c | c in Cursors(a) + Cursors(b)
      ensures c in Cursors(a + b)
    {
      var p :| (p in a || p in b) && p.cursor == c;
      assert p in a + b;
    }
  }

  lemma {:induction false} ScrollOkNext(lower: string -> string, db: Db, cursor: int, s: Scrolled, limit: nat)
    requires ScrollOk(lower, db, cursor, s)
    ensures var from := LastCursor(s.seen, cursor);
            var page, after := OldPage(lower, s.db, from, limit), AfterOld(lower, s.db, from, limit);
            ScrollOk(lower, db, cursor, Scrolled(after, s.seen + page))
  {
    var from := LastCursor(s.seen, cursor);
    var page := OldPage(lower, s.db, from, limit);
    PageBoundsPublished(lower, s.db, from, limit);
    PageIsPublished(lower, s.db, from, limit);
    CursorsOfBoth(s.seen, page);
    PageContinues(lower, s.db, cursor, s.seen, limit);
    PageEndIsCovered(lower, s.db, from, limit);
    assert LastCursor(s.seen + page, cursor) == LastCursor(page, from);
  }

  lemma {:induction false} ScrollKeepsOk(lower: string -> string, db: Db, cursor: int, limits: seq<nat>)
    requires DbOk(lower, db) && Covered(lower, db, cursor)
    ensures ScrollOk(lower, db, cursor, Scroll(lower, db, cursor, limits))
  {
    if limits == [] {
      assert Cursors([]) == {};
    } else {
      ScrollKeepsOk(lower, db, cursor, limits[..|limits| - 1]);
      ScrollOkNext(lower, db, cursor, Scroll(lower, db, cursor, limits[..|limits| - 1]), Last(limits));
    }
  }

  // ---------- starvation ----------

  /** Nothing is published below the cursor, and the candidates one query may look at all miss. */
  ghost predicate Starved(lower: string -> string, db: Db, cursor: int) {
    && PublishedBelow(db.table, db.published, cursor) == []
    && forall p | p in Take(SCAN_BUDGET, Candidates(db.feed, db.table, cursor)) :: !Matches(lower, db.feed, p)
  }

  /** Whatever limits a client asks for and however often, it sees nothing at all exactly when it is starved. */
  lemma {:induction false} StarvedIff(lower: string -> string, db: Db, cursor: int, limits: seq<nat>)
    requires limits != [] && Positive(limits)
    ensures Scroll(lower, db, cursor, limits).seen == [] <==> Starved(lower, db, cursor)
    ensures Starved(lower, db, cursor) ==> Scroll(lower, db, cursor, limits).db == db
  {
    var init, limit := limits[..|limits| - 1], Last(limits);
    if init == [] {
      EmptyPageIff(lower, db, cursor, limit);
      if Starved(lower, db, cursor) {
        EmptyPageIsStuck(lower, db, cursor, limit);
      }
    } else {
      StarvedIff(lower, db, cursor, init);
      if Starved(lower, db, cursor) {
        EmptyPageIff(lower, db, cursor, limit);
        EmptyPageIsStuck(lower, db, cursor, limit);
      }
    }
  }

  lemma {:induction false} StarvedDbIsStarved(n: nat)
    requires SCAN_BUDGET <= n < DEFAULT_FEEDS_QUERY_CURSOR - 2
    ensures Starved(Plain, StarvedDb(n), DEFAULT_FEEDS_QUERY_CURSOR)
  {
    StarvedPage(n, 1);
    EmptyPageIff(Plain, StarvedDb(n), DEFAULT_FEEDS_QUERY_CURSOR, 1);
  }

  /** A literal feed: its one eligible post lies below n posts that miss, and no client ever sees it. */
  lemma {:induction false} Starvation(n: nat, limits: seq<nat>)
    requires SCAN_BUDGET <= n < DEFAULT_FEEDS_QUERY_CURSOR - 2 && limits != [] && Positive(limits)
    ensures DbOk(Plain, StarvedDb(n))
    ensures PostAt(1, "y") in EligibleBelow(Plain, WantedFeed, StarvedDb(n).table, DEFAULT_FEEDS_QUERY_CURSOR)
    ensures Scroll(Plain, StarvedDb(n), DEFAULT_FEEDS_QUERY_CURSOR, limits).seen == []
  {
    StarvedDbIsOk(n);
    StarvedEligible(n);
    StarvedDbIsStarved(n);
    StarvedIff(Plain, StarvedDb(n), DEFAULT_FEEDS_QUERY_CURSOR, limits);
  }

  lemma {:induction false} StarvedDbIsOk(n: nat)
    requires n < DEFAULT_FEEDS_QUERY_CURSOR - 2
    ensures DbOk(Plain, StarvedDb(n))
  {
    var table := StarvedDb(n).table;
    assert forall i | 0 <= i < |table| :: table[i].cursor == i + 1;
  }

  // ---------- reaching the end ----------

  /** The k-th eligible post is published, or fewer than 3300 misses lie between it and the one above. */
  ghost predicate WithinReach(lower: string -> string, db: Db, cursor: int, k: nat)
    requires k < |EligibleBelow(lower, db.feed, db.table, cursor)|
  {
    var all := EligibleBelow(lower, db.feed, db.table, cursor);
    || all[k].cursor in db.published
    || all[k] in Take(SCAN_BUDGET, Candidates(db.feed, db.table, LastCursor(all[..k], cursor)))
  }

  ghost predicate AllWithinReach(lower: string -> string, db: Db, cursor: int) {
    forall k | 0 <= k < |EligibleBelow(lower, db.feed, db.table, cursor)| :: WithinReach(lower, db, cursor, k)
  }

  lemma {:induction false} TakeOfSuffix<T>(n: nat, s: seq<T>, m: nat, x: T)
    requires m <= |s| && x in Take(n, s) && x !in s[..m]
    ensures x in Take(n, s[m..])
  {
    var i :| 0 <= i < |Take(n, s)| && s[i] == x;
    assert i >= m;
    assert s[m..][i - m] == x && Take(n, s[m..])[i - m] == x;
  }

  lemma {:induction false} CandidatesNext(feed: Feed, table: seq<Post>, hi: int)
    requires table != [] && Last(table).cursor < hi
    ensures var own := if Candidate(feed, Last(table)) then [Last(table)] else [];
            Candidates(feed, table, hi) == own + Candidates(feed, table[..|table| - 1], hi)
  {
    var below := Below(table[..|table| - 1], hi);
    assert ([Last(table)] + below)[1..] == below;
  }

  /** Candidates below a lower cursor are the end of those below a higher one. */
  lemma {:induction false} CandidatesSuffix(feed: Feed, table: seq<Post>, hi: int, lo: int) returns (m: nat)
    requires Increasing(table) && lo <= hi
    ensures m <= |Candidates(feed, table, hi)| && Candidates(feed, table, lo) == Candidates(feed, table, hi)[m..]
    ensures forall p | p in Candidates(feed, table, hi)[..m] :: p.cursor >= lo
    decreases |table|, 1
  {
    if table == [] {
      m := 0;
    } else if Last(table).cursor >= hi {
      m := CandidatesSuffix(feed, table[..|table| - 1], hi, lo);
    } else if Last(table).cursor >= lo {
      m := CandidatesSuffixHigher(feed, table, hi, lo);
    } else {
      forall p | p in table
        ensures p.cursor < lo
      {
        var i :| 0 <= i < |table| && table[i] == p;
      }
      AllLower(table, lo, hi);
      m := 0;
    }
  }

  lemma {:induction false} CandidatesSuffixHigher(feed: Feed, table: seq<Post>, hi: int, lo: int) returns (m: nat)
    requires Increasing(table) && table != [] && lo <= Last(table).cursor < hi
    ensures m <= |Candidates(feed, table, hi)| && Candidates(feed, table, lo) == Candidates(feed, table, hi)[m..]
    ensures forall p | p in Candidates(feed, table, hi)[..m] :: p.cursor >= lo
    decreases |table|, 0
  {
    var init, last := table[..|table| - 1], Last(table);
    var rest := CandidatesSuffix(feed, init, hi, lo);
    var own := if Candidate(feed, last) then [last] else [];
    CandidatesNext(feed, table, hi);
    m := |own| + rest;
    JoinSplits(own, Candidates(feed, init, hi), rest);
    CandidatesSkip(feed, table, lo);
  }

  lemma {:induction false} CandidatesSkip(feed: Feed, table: seq<Post>, lo: int)
    requires table != [] && lo <= Last(table).cursor
    ensures Candidates(feed, table, lo) == Candidates(feed, table[..|table| - 1], lo)
  {
  }

  lemma {:induction false} JoinSplits<T>(own: seq<T>, older: seq<T>, n: nat)
    requires n <= |older|
    ensures (own + older)[|own| + n..] == older[n..] && (own + older)[..|own| + n] == own + older[..n]
  {
  }

  lemma {:induction false} AllLower(table: seq<Post>, lo: int, hi: int)
    requires lo <= hi && forall p | p in table :: p.cursor < lo
    ensures Below(table, hi) == Below(table, lo)
  {
    if table == [] {
    } else {
      assert Last(table) in table;
      AllLower(table[..|table| - 1], lo, hi);
    }
  }

  lemma {:induction false} EligibleDecreases(lower: string -> string, db: Db, cursor: int, i: nat, j: nat)
    requires Increasing(db.table) && i < j < |EligibleBelow(lower, db.feed, db.table, cursor)|
    ensures var all := EligibleBelow(lower, db.feed, db.table, cursor); all[j].cursor < all[i].cursor < cursor
  {
    var all := EligibleBelow(lower, db.feed, db.table, cursor);
    FilterDecreases(db.table, cursor, IsEligible(lower, db.feed));
    assert all[i] in all;
    EligibleBelowMembers(lower, db, cursor, all[i]);
  }

  /** A match among the candidates scanned from a higher start is within the budget of the post above it. */
  lemma {:induction false} ScannedFromAbove(lower: string -> string, db: Db, cursor: int, k: nat, start: int)
    requires Increasing(db.table) && k < |EligibleBelow(lower, db.feed, db.table, cursor)|
    requires var all := EligibleBelow(lower, db.feed, db.table, cursor);
             && LastCursor(all[..k], cursor) <= start
             && all[k] in Take(SCAN_BUDGET, Candidates(db.feed, db.table, start))
    ensures WithinReach(lower, db, cursor, k)
  {
    var all := EligibleBelow(lower, db.feed, db.table, cursor);
    var above := LastCursor(all[..k], cursor);
    var m := CandidatesSuffix(db.feed, db.table, start, above);
    assert all[k] in all;
    EligibleBelowMembers(lower, db, cursor, all[k]);
    if k > 0 {
      EligibleDecreases(lower, db, cursor, k - 1, k);
    }
    TakeOfSuffix(SCAN_BUDGET, Candidates(db.feed, db.table, start), m, all[k]);
  }

  /** A page holds only posts that are within reach when it is asked for. */
  lemma {:induction false} PageIsWithinReach(lower: string -> string, db: Db, cursor: int, seen: seq<Post>,
      limit: nat, k: nat)
    requires DbOk(lower, db) && seen <= EligibleBelow(lower, db.feed, db.table, cursor)
    requires |seen| <= k < |seen| + |OldPage(lower, db, LastCursor(seen, cursor), limit)|
    ensures k < |EligibleBelow(lower, db.feed, db.table, cursor)| && WithinReach(lower, db, cursor, k)
  {
    var all := EligibleBelow(lower, db.feed, db.table, cursor);
    var from := LastCursor(seen, cursor);
    var read := ReadPage(db, from, limit);
    OldPageIsPrefix(lower, db, from, limit);
    EligibleAfter(lower, db, cursor, seen);
    var p := OldPage(lower, db, from, limit)[k - |seen|];
    assert p == all[k];
    if k < |seen| + |read| {
      FilterMembers(Below(db.table, from), IsPublished(db.published));
      assert p == read[k - |seen|] && read[k - |seen|] in PublishedBelow(db.table, db.published, from);
    } else {
      var found := FillPage(lower, db, from, limit);
      var scanned := Take(SCAN_BUDGET, Candidates(db.feed, db.table, LastCursor(read, from)));
      assert p == found[k - |seen| - |read|] && p in found;
      TakeMembers(limit - |read|, Filter(scanned, IsMatch(lower, db.feed)));
      FilterMembers(scanned, IsMatch(lower, db.feed));
      StartIsAbove(lower, db, cursor, seen, read, k);
      ScannedFromAbove(lower, db, cursor, k, LastCursor(read, from));
    }
  }

  lemma {:induction false} StartIsAbove(lower: string -> string, db: Db, cursor: int, seen: seq<Post>,
      read: seq<Post>, k: nat)
    requires Increasing(db.table) && seen + read <= EligibleBelow(lower, db.feed, db.table, cursor)
    requires |seen| + |read| <= k < |EligibleBelow(lower, db.feed, db.table, cursor)|
    ensures LastCursor(EligibleBelow(lower, db.feed, db.table, cursor)[..k], cursor) <=
            LastCursor(read, LastCursor(seen, cursor))
  {
    var all, m := EligibleBelow(lower, db.feed, db.table, cursor), |seen + read|;
    assert LastCursor(read, LastCursor(seen, cursor)) == LastCursor(seen + read, cursor);
    if m == 0 {
      if k > 0 {
        EligibleDecreases(lower, db, cursor, k - 1, k);
      }
    } else {
      assert Last(seen + read) == all[m - 1];
      if m < k {
        EligibleDecreases(lower, db, cursor, m - 1, k - 1);
      }
    }
  }

  lemma {:induction false} SeenIsWithinReach(lower: string -> string, db: Db, cursor: int, limits: seq<nat>, k: nat)
    requires DbOk(lower, db) && Covered(lower, db, cursor)
    requires k < |Scroll(lower, db, cursor, limits).seen|
    ensures k < |EligibleBelow(lower, db.feed, db.table, cursor)| && WithinReach(lower, db, cursor, k)
  {
    var init := limits[..|limits| - 1];
    var s := Scroll(lower, db, cursor, init);
    ScrollKeepsOk(lower, db, cursor, init);
    if k < |s.seen| {
      SeenIsWithinReach(lower, db, cursor, init, k);
    } else {
      PageIsWithinReach(lower, s.db, cursor, s.seen, Last(limits), k);
      var all := EligibleBelow(lower, db.feed, db.table, cursor);
      if all[k].cursor in Cursors(s.seen) {
        var i :| 0 <= i < |s.seen| && s.seen[i].cursor == all[k].cursor;
        EligibleDecreases(lower, db, cursor, i, k);
      }
    }
  }

  /** A client that scrolls until a page comes back empty has seen everything eligible below its start
      exactly when no run of 3300 misses hides an eligible post that was not already published. */
  lemma {:induction false} ScrollIsCompleteIff(lower: string -> string, db: Db, cursor: int, limits: seq<nat>,
      limit: nat)
    requires DbOk(lower, db) && Covered(lower, db, cursor) && limit > 0
    requires var s := Scroll(lower, db, cursor, limits); OldPage(lower, s.db, LastCursor(s.seen, cursor), limit) == []
    ensures Scroll(lower, db, cursor, limits).seen == EligibleBelow(lower, db.feed, db.table, cursor) <==>
            AllWithinReach(lower, db, cursor)
  {
    var s, all := Scroll(lower, db, cursor, limits), EligibleBelow(lower, db.feed, db.table, cursor);
    ScrollKeepsOk(lower, db, cursor, limits);
    if s.seen == all {
      forall k | 0 <= k < |all|
        ensures WithinReach(lower, db, cursor, k)
      {
        SeenIsWithinReach(lower, db, cursor, limits, k);
      }
    } else {
      NextIsOutOfReach(lower, db, cursor, s, limit);
    }
  }

  lemma {:induction false} NextIsOutOfReach(lower: string -> string, db: Db, cursor: int, s: Scrolled, limit: nat)
    requires ScrollOk(lower, db, cursor, s) && limit > 0
    requires |s.seen| < |EligibleBelow(lower, db.feed, db.table, cursor)|
    requires OldPage(lower, s.db, LastCursor(s.seen, cursor), limit) == []
    ensures !WithinReach(lower, db, cursor, |s.seen|)
  {
    var all, from, m := EligibleBelow(lower, db.feed, db.table, cursor), LastCursor(s.seen, cursor), |s.seen|;
    assert all[..m] == s.seen;
    EmptyPageIff(lower, s.db, from, limit);
    EligibleAfter(lower, s.db, cursor, s.seen);
    assert all[m] == EligibleBelow(lower, db.feed, db.table, from)[0];
    assert all[m] in EligibleBelow(lower, db.feed, db.table, from);
    NotYetPublished(lower, s.db, from, all[m]);
    EligibleBelowMembers(lower, db, from, all[m]);
  }
}
