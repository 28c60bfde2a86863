/**
 Runs of a feed: publishers storing posts, users editing the feed, and any number of queries in flight,
 from any cursor. A query for older posts is three steps, because the source reads the feed, then the
 published page, and appends what it republished later; a publisher is two steps, because it reads the
 feeds first and stores the post later. Neither has a transaction around all of it, so an edit can come in
 between, and so can, for the publisher, the creation of the feed.
*/
module FeedRuns {
  import opened Wrappers
  import opened DataExpression
  import opened PostMatching
  import opened Sequences
  import opened FeedPaging
  import opened FeedScroll

  // ---------- query input ----------

  datatype Direction = New | Old

  datatype Query = Query(cursor: int, limit: int, direction: Direction, feedUpdatedTime: Option<int>)

  /** sanitizeFeedRefreshInput, as a function of the query it overwrites. */
  function Sanitized(q: Query, feed: Feed): Outcome<Query> {
    if q.cursor < 0 || q.limit <= 0 then Error
    else
      var synced := if q.feedUpdatedTime == Some(feed.updatedAt) then q
                   else q.(cursor := DEFAULT_FEEDS_QUERY_CURSOR, direction := Old);
      Ok(if synced.limit > FEED_REFRESH_LIMIT then synced.(limit := FEED_REFRESH_LIMIT) else synced)
  }

  // ---------- feed edits ----------

  /** utils.AreJSONsEqual */
  function AreJSONsEqual(a: FilterText, b: FilterText): Outcome<bool> {
    if a.Blank? && b.Blank? then Ok(true)
    else if a.Blank? || b.Blank? then Ok(false)
    else if a.Malformed? || b.Malformed? then Error
    else Ok(a.json == b.json)
  }

  /** utils.StringSlicesContainSameElements. The feed's slice is nil when it is empty and the input's
      is not, so two empty slices count as different. */
  predicate SameElements(feedIds: seq<string>, inputIds: seq<string>) {
    feedIds != [] && multiset(feedIds) == multiset(inputIds)
  }

  function IsClearPostsNeeded(feed: Feed, filter: FilterText, ids: seq<string>): Outcome<bool> {
    var equal :- AreJSONsEqual(feed.filter, filter);
    Ok(!equal || !SameElements(feed.subSources, ids))
  }

  function IsKnown(known: set<string>): string -> bool {
    id => id in known
  }

  /** The feed after an upsert: of the requested subsources, those that exist are kept. */
  function Upserted(filter: FilterText, ids: seq<string>, known: set<string>, now: int): Feed {
    Feed(filter, Filter(ids, IsKnown(known)), now)
  }

  /** Two feeds that select the same posts. */
  ghost predicate SelectsSame(a: Feed, b: Feed) {
    a.filter == b.filter && forall id :: id in a.subSources <==> id in b.subSources
  }

  /** Publications survive an edit only when the edit changes no post's eligibility. */
  lemma {:induction false} NoClearKeepsEligibility(feed: Feed, filter: FilterText, ids: seq<string>,
      known: set<string>, now: int)
    requires forall id | id in feed.subSources :: id in known
    requires IsClearPostsNeeded(feed, filter, ids) == Ok(false)
    ensures SelectsSame(feed, Upserted(filter, ids, known, now))
  {
    FilterMembers(ids, IsKnown(known));
    forall id
      ensures id in feed.subSources <==> id in ids
    {
      assert id in feed.subSources <==> id in multiset(feed.subSources);
      assert id in ids <==> id in multiset(ids);
    }
  }

  lemma {:induction false} SelectsSameEligible(lower: string -> string, a: Feed, b: Feed, table: seq<Post>, hi: int)
    requires SelectsSame(a, b)
    ensures forall p :: Eligible(lower, a, p) <==> Eligible(lower, b, p)
    ensures EligibleBelow(lower, a, table, hi) == EligibleBelow(lower, b, table, hi)
  {
    FilterSame(Below(table, hi), IsEligible(lower, a), IsEligible(lower, b));
  }

  ghost predicate NoRepeats(ids: seq<string>) {
    forall i, j | 0 <= i < j < |ids| :: ids[i] != ids[j]
  }

  lemma {:induction false} NoRepeatsCount(ids: seq<string>, id: string)
    requires NoRepeats(ids)
    ensures multiset(ids)[id] == if id in ids then 1 else 0
  {
    if ids == [] {
    } else {
      var init, last := ids[..|ids| - 1], Last(ids);
      assert ids == init + [last];
      NoRepeatsCount(init, id);
    }
  }

  /** When an edit clears the feed, if it is carried out: unless the filter is the same and the lists of
      subsources, of which the feed's is not empty, have the same elements equally often, in any order. It
      is not carried out exactly when one of the filters is broken text and neither is blank. */
  lemma {:induction false} ClearsIff(feed: Feed, filter: FilterText, ids: seq<string>)
    ensures IsClearPostsNeeded(feed, filter, ids).IsFailure() <==>
            (feed.filter.Malformed? && !filter.Blank?) || (filter.Malformed? && !feed.filter.Blank?)
    ensures IsClearPostsNeeded(feed, filter, ids).Ok? ==>
              (IsClearPostsNeeded(feed, filter, ids).value <==>
               || feed.filter != filter || feed.subSources == []
               || exists id :: multiset(feed.subSources)[id] != multiset(ids)[id])
  {
    if forall id :: multiset(feed.subSources)[id] == multiset(ids)[id] {
      assert multiset(feed.subSources) == multiset(ids);
    }
  }

  /** So for lists without repeats and known subsources, an edit of a feed that has any clears it exactly
      when it changes what the feed selects. */
  lemma {:induction false} ClearsOnlyChangesIff(feed: Feed, filter: FilterText, ids: seq<string>, known: set<string>,
      now: int)
    requires NoRepeats(feed.subSources) && NoRepeats(ids) && feed.subSources != []
    requires forall id | id in ids :: id in known
    requires IsClearPostsNeeded(feed, filter, ids).Ok?
    ensures IsClearPostsNeeded(feed, filter, ids).value <==>
            !(feed.filter == filter && forall id :: id in feed.subSources <==> id in ids)
    ensures IsClearPostsNeeded(feed, filter, ids).value <==> !SelectsSame(feed, Upserted(filter, ids, known, now))
  {
    ClearsIff(feed, filter, ids);
    FilterMembers(ids, IsKnown(known));
    forall id
      ensures multiset(feed.subSources)[id] == multiset(ids)[id] <==> (id in feed.subSources <==> id in ids)
    {
      NoRepeatsCount(feed.subSources, id);
      NoRepeatsCount(ids, id);
    }
  }

  // ---------- states and steps ----------

  /** A query that has read the feed and been sanitized. `clears` counts the clears of the feed before
      that, `asked` the answers given before it. */
  datatype Opened = Opened(feed: Feed, query: Query, clears: nat, asked: nat)

  /** A query that has also read its page and still has to republish. `seen` is the feed, `pageClears` the
      count of its clears and `height` the size of the post table when it read the page. */
  datatype Scan = Scan(
    feed: Feed,
    clears: nat,
    seen: Feed,
    pageClears: nat,
    page: seq<Post>,
    cursor: int,
    height: nat,
    want: nat,
    asked: nat)

  /** The feed as a publisher read it, if it existed then. */
  datatype Draft = Draft(feed: Option<Feed>, clears: nat)

  /** A cursor that a response carried, with the feed version beside it. */
  datatype Issued = Issued(cursor: int, version: int, clears: nat)

  /** A response to a query for older posts. `height` is the size of the post table when its first post was
      read. */
  datatype Answer = Answer(feed: Feed, seen: Feed, cursor: int, posts: seq<Post>, height: nat, asked: nat)

  /** `clock` is the newest version any edit gave the feed, `clearedAt` the version of the edit that last
      cleared it, and `clears` counts such edits. */
  datatype State = State(
    db: Db,
    clock: int,
    clearedAt: int,
    clears: nat,
    asking: map<nat, Opened>,
    scans: map<nat, Scan>,
    drafts: map<nat, Draft>,
    issued: set<Issued>,
    answers: seq<Answer>)

  /** A publisher reads the feed, stores the rows of one message, and is done with it; a user edits the
      feed; a query reads the feed, then its page, and later appends what it found in the table when that
      had `height` posts. */
  datatype Action =
    | Read(id: nat)
    | Store(id: nat, post: Post)
    | Leave(id: nat)
    | Upsert(filter: FilterText, ids: seq<string>, known: set<string>, now: int)
    | Open(id: nat, query: Query)
    | Begin(id: nat)
    | Commit(id: nat, height: nat)

  function Start(scan: Scan): int {
    LastCursor(scan.page, scan.cursor)
  }

  /** What the publisher makes of a post and the feed it read: None if the filter fails, so that the post
      is not stored at all; else whether it publishes the post. It reads the whole sharing chain. */
  function Judged(lower: string -> string, read: Option<Feed>, p: Post): Option<bool> {
    if read.None? || !Candidate(read.value, p) then Some(false)
    else
      match DataExpressionMatchPostChain(lower, read.value.filter, p.chain)
      case Ok(matched) => Some(matched)
      case _ => None
  }

  /** The publisher's transaction, by the feed it read. */
  function Stored(lower: string -> string, db: Db, read: Option<Feed>, p: Post): Db {
    match Judged(lower, read, p)
    case None => db
    case Some(publish) => db.(table := db.table + [p], published := db.published + if publish then {p.cursor} else {})
  }

  predicate Clears(db: Db, filter: FilterText, ids: seq<string>) {
    IsClearPostsNeeded(db.feed, filter, ids) == Ok(true)
  }

  /** Every edit that is carried out gives the feed a new version; one that clears is counted. */
  function Edited(s: State, filter: FilterText, ids: seq<string>, known: set<string>, now: int): State {
    if IsClearPostsNeeded(s.db.feed, filter, ids).IsFailure() then s
    else
      var feed := Upserted(filter, ids, known, now);
      if Clears(s.db, filter, ids) then
        s.(db := s.db.(feed := feed, published := {}), clock := now, clearedAt := now, clears := s.clears + 1)
      else s.(db := s.db.(feed := feed), clock := now)
  }

  /** What an edit does: nothing if a filter is broken; else the feed gets the filter, the requested
      subsources that exist, and a new version, and its publications stay, all of them, or go, all of them. */
  lemma {:induction false} EditIff(s: State, filter: FilterText, ids: seq<string>, known: set<string>, now: int)
    ensures var after, feed := Edited(s, filter, ids, known, now), s.db.feed;
            var broken := (feed.filter.Malformed? && !filter.Blank?) || (filter.Malformed? && !feed.filter.Blank?);
            var kept := feed.filter == filter && feed.subSources != [] && multiset(feed.subSources) == multiset(ids);
            && (broken ==> after == s)
            && (!broken ==>
                  && after.db.feed.filter == filter && after.db.feed.updatedAt == after.clock == now
                  && (forall id :: id in after.db.feed.subSources <==> id in ids && id in known)
                  && after.db.table == s.db.table
                  && after.db.published == (if kept then s.db.published else {})
                  && after.clears == (if kept then s.clears else s.clears + 1)
                  && after.clearedAt == (if kept then s.clearedAt else now))
  {
    ClearsIff(s.db.feed, filter, ids);
    FilterMembers(ids, IsKnown(known));
  }

  function Issue(s: State, posts: seq<Post>, version: int, clears: nat): State {
    s.(issued := s.issued + set p | p in posts :: Issued(p.cursor, version, clears))
  }

  function OpenedNow(s: State, id: nat, query: Query): State {
    match Sanitized(query, s.db.feed)
    case Ok(q) => s.(asking := s.asking[id := Opened(s.db.feed, q, s.clears, |s.answers|)])
    case _ => s
  }

  /** The limit of a sanitized query. */
  function Limit(q: Query): nat {
    if q.limit < 0 then 0 else q.limit
  }

  /** A query for newer posts and a full page answer at once; a short page begins a scan. */
  function Begun(s: State, id: nat): State
    requires id in s.asking
  {
    var o := s.asking[id];
    var q, limit, rest := o.query, Limit(o.query), s.(asking := s.asking - {id});
    if q.direction.New? then Issue(rest, NewPage(s.db, q.cursor, limit), o.feed.updatedAt, s.clears)
    else
      var page := ReadPage(s.db, q.cursor, limit);
      if |page| < limit then rest.(scans := s.scans[id := ScanOf(s, o, page)])
      else
        Issue(rest.(answers := s.answers + [Answer(o.feed, s.db.feed, q.cursor, page, |s.db.table|, o.asked)]),
              page, o.feed.updatedAt, s.clears)
  }

  function ScanOf(s: State, o: Opened, page: seq<Post>): Scan {
    var want: nat := if |page| < Limit(o.query) then Limit(o.query) - |page| else 0;
    Scan(o.feed, o.clears, s.db.feed, s.clears, page, o.query.cursor, |s.db.table|, want, o.asked)
  }

  /** What a scan finds among the first `height` posts of the table. */
  function Found(lower: string -> string, db: Db, scan: Scan, height: nat): seq<Post>
    requires height <= |db.table|
  {
    Republished(lower, scan.feed, db.table[..height], scan.want, Start(scan))
  }

  /** How many posts were there when the first post of the response was read. */
  function HeightRead(scan: Scan, height: nat): nat {
    if scan.page == [] then height else scan.height
  }

  /** What an append does to the feed's row and publications: it writes back the version that the query had
      read. */
  function Appended(db: Db, found: seq<Post>, version: int): Db {
    db.(published := db.published + Cursors(found), feed := db.feed.(updatedAt := version))
  }

  function Committed(lower: string -> string, s: State, id: nat, height: nat): State
    requires id in s.scans && height <= |s.db.table|
  {
    var scan := s.scans[id];
    var found, version := Found(lower, s.db, scan, height), scan.feed.updatedAt;
    var answer := Answer(scan.feed, scan.seen, scan.cursor, scan.page + found, HeightRead(scan, height), scan.asked);
    var after := s.(db := Appended(s.db, found, version), scans := s.scans - {id}, answers := s.answers + [answer]);
    Issue(Issue(after, scan.page, version, scan.pageClears), found, version, s.clears)
  }

  /** Table cursors grow, a version is new, and the feed's subsources still exist when it is edited. */
  ghost predicate Enabled(s: State, a: Action) {
    match a
    case Read(id) => id !in s.drafts
    case Store(id, p) => id in s.drafts && TableOk(s.db.table + [p])
    case Leave(id) => id in s.drafts
    case Upsert(_, _, known, now) => s.clock < now && forall id | id in s.db.feed.subSources :: id in known
    case Open(id, q) => id !in s.asking
    case Begin(id) => id in s.asking && id !in s.scans
    case Commit(id, height) => id in s.scans && s.scans[id].height <= height <= |s.db.table|
  }

  ghost function Next(lower: string -> string, s: State, a: Action): State
    requires Enabled(s, a)
  {
    match a
    case Read(id) => s.(drafts := s.drafts[id := Draft(Some(s.db.feed), s.clears)])
    case Store(id, p) => s.(db := Stored(lower, s.db, s.drafts[id].feed, p))
    case Leave(id) => s.(drafts := s.drafts - {id})
    case Upsert(filter, ids, known, now) => Edited(s, filter, ids, known, now)
    case Open(id, q) => OpenedNow(s, id, q)
    case Begin(id) => Begun(s, id)
    case Commit(id, height) => Committed(lower, s, id, height)
  }

  // ---------- when a step does no harm ----------

  /** Read since the feed was last cleared. */
  predicate Current(s: State, clears: nat) {
    clears == s.clears
  }

  ghost predicate ReadersAgree(lower: string -> string, feed: Feed, p: Post) {
    Candidate(feed, p) ==>
      DataExpressionMatchPostChain(lower, feed.filter, p.chain) ==
        DataExpressionMatchPostChain(lower, feed.filter, Preloaded(p.chain))
  }

  /** A post was stored, and not published, after a scan read the table that it is eligible for and that
      the scan would have found. */
  ghost predicate Overtaken(lower: string -> string, db: Db, start: int, height: nat) {
    exists i | height <= i < |db.table| ::
      Eligible(lower, db.feed, db.table[i]) && db.table[i].cursor < start && db.table[i].cursor !in db.published
  }

  /** Steps that need not keep the publications upward closed: by a query or publisher that read the feed
      before it was last cleared, or a publisher that read before it was created; by a query from a cursor it
      did not hold, or overtaken by an unpublished post; and of a post in which only the publisher finds what
      the filter wants. */
  ghost predicate Risky(lower: string -> string, s: State, a: Action)
    requires Enabled(s, a)
  {
    match a
    case Store(id, p) =>
      var draft := s.drafts[id];
      draft.feed.None? || !Current(s, draft.clears) || !ReadersAgree(lower, draft.feed.value, p)
    case Commit(id, height) =>
      || !Current(s, s.scans[id].clears)
      || !Held(s.db, Start(s.scans[id]))
      || Overtaken(lower, s.db, Start(s.scans[id]), height)
    case _ => false
  }

  /** A stored post is published exactly if it is eligible for the feed as it is now; it may be left out
      while nothing at all is published. */
  ghost predicate StoreFits(lower: string -> string, db: Db, read: Option<Feed>, p: Post) {
    match Judged(lower, read, p)
    case None => true
    case Some(publish) => if publish then Eligible(lower, db.feed, p) else Eligible(lower, db.feed, p) ==>
      db.published == {}
  }

  /** All that was found is eligible for the feed as it is now, and what is eligible from the last of it
      upwards is published or was found. */
  ghost predicate FoundFits(lower: string -> string, db: Db, found: seq<Post>) {
    && (forall p | p in found :: Eligible(lower, db.feed, p))
    && (found != [] ==>
          forall p | p in db.table && Eligible(lower, db.feed, p) && p.cursor >= Last(found).cursor ::
            p.cursor in db.published || p.cursor in Cursors(found))
  }

  ghost predicate Harmless(lower: string -> string, s: State, a: Action)
    requires Enabled(s, a)
  {
    match a
    case Store(id, p) => StoreFits(lower, s.db, s.drafts[id].feed, p)
    case Commit(id, height) => FoundFits(lower, s.db, Found(lower, s.db, s.scans[id], height))
    case _ => true
  }

  lemma {:induction false} TopOfTable(table: seq<Post>, p: Post)
    requires TableOk(table + [p])
    ensures TableOk(table)
    ensures forall q | q in table :: q.cursor < p.cursor
  {
    var longer := table + [p];
    assert longer[|table|] == p && p in longer;
    assert forall i | 0 <= i < |table| :: longer[i] == table[i];
    assert forall q | q in table :: q in longer;
  }

  /** A published post is eligible itself: its cursor stands for no other post. */
  lemma {:induction false} PublishedOnTop(lower: string -> string, db: Db, p: Post)
    requires DbOk(lower, db) && TableOk(db.table + [p])
    ensures p.cursor !in db.published
  {
    TopOfTable(db.table, p);
  }

  /** Storing a post keeps the publications upward closed exactly when it fits. */
  lemma {:induction false} StoreIff(lower: string -> string, db: Db, read: Option<Feed>, p: Post)
    requires DbOk(lower, db) && TableOk(db.table + [p])
    ensures DbOk(lower, Stored(lower, db, read, p)) <==> StoreFits(lower, db, read, p)
  {
    var after := Stored(lower, db, read, p);
    TopOfTable(db.table, p);
    PublishedOnTop(lower, db, p);
    match Judged(lower, read, p)
    case None =>
    case Some(publish) =>
      assert p in after.table && forall q | q in db.table :: q in after.table;
      if publish {
        StorePublishedIff(lower, db, p, after);
      } else {
        StoreUnpublishedIff(lower, db, p, after);
      }
  }

  lemma {:induction false} StorePublishedIff(lower: string -> string, db: Db, p: Post, after: Db)
    requires DbOk(lower, db) && TableOk(db.table + [p])
    requires after == db.(table := db.table + [p], published := db.published + {p.cursor})
    ensures DbOk(lower, after) <==> Eligible(lower, db.feed, p)
  {
    TopOfTable(db.table, p);
    assert p in after.table && forall q | q in db.table :: q in after.table;
    if DbOk(lower, after) {
      PublishedAreEligible(lower, after, p);
    }
    if Eligible(lower, db.feed, p) {
      forall c | c in after.published
        ensures exists q :: q in after.table && q.cursor == c && Eligible(lower, after.feed, q)
      {
        if c in db.published {
          var q :| q in db.table && q.cursor == c && Eligible(lower, db.feed, q);
          assert q in after.table;
        }
      }
    }
  }

  lemma {:induction false} StoreUnpublishedIff(lower: string -> string, db: Db, p: Post, after: Db)
    requires DbOk(lower, db) && TableOk(db.table + [p])
    requires after == db.(table := db.table + [p], published := db.published + {})
    ensures DbOk(lower, after) <==> (Eligible(lower, db.feed, p) ==> db.published == {})
  {
    TopOfTable(db.table, p);
    PublishedOnTop(lower, db, p);
    assert after.published == db.published;
    assert p in after.table && forall q | q in db.table :: q in after.table;
    forall c | c in db.published
      ensures c <= p.cursor && exists q :: q in after.table && q.cursor == c && Eligible(lower, after.feed, q)
    {
      var q :| q in db.table && q.cursor == c && Eligible(lower, db.feed, q);
      assert q in after.table;
    }
    if Eligible(lower, db.feed, p) && db.published != {} {
      var c :| c in db.published;
      assert c in after.published && c <= p.cursor;
    }
  }

  /** Appending what any scan found keeps the publications upward closed exactly when it fits. */
  lemma {:induction false} CommitIff(lower: string -> string, db: Db, feed: Feed, height: nat, hi: int,
      found: seq<Post>, version: int)
    requires DbOk(lower, db) && height <= |db.table| && found <= EligibleBelow(lower, feed, db.table[..height], hi)
    ensures DbOk(lower, Appended(db, found, version)) <==> FoundFits(lower, db, found)
  {
    var after := Appended(db, found, version);
    assert forall p :: Eligible(lower, after.feed, p) <==> Eligible(lower, db.feed, p);
    forall p | p in found
      ensures p in db.table && (found != [] ==> Last(found).cursor <= p.cursor)
    {
      FoundInTable(lower, db.(feed := feed, table := db.table[..height]), hi, found, p);
    }
    if DbOk(lower, after) {
      forall p | p in found
        ensures Eligible(lower, db.feed, p)
      {
        PublishedAreEligible(lower, after, p);
      }
      if found != [] {
        assert Last(found) in found && Last(found).cursor in after.published;
        assert forall p | p in db.table && Eligible(lower, db.feed, p) && p.cursor >= Last(found).cursor ::
               p.cursor in after.published;
      }
    }
    if FoundFits(lower, db, found) {
      FittingFoundKeeps(lower, db, found, after);
    }
  }

  lemma {:induction false} FoundInTable(lower: string -> string, db: Db, hi: int, found: seq<Post>, p: Post)
    requires Increasing(db.table) && found <= EligibleBelow(lower, db.feed, db.table, hi) && p in found
    ensures p in db.table && p.cursor < hi && Eligible(lower, db.feed, p) && Last(found).cursor <= p.cursor
  {
    var all := EligibleBelow(lower, db.feed, db.table, hi);
    var i :| 0 <= i < |found| && found[i] == p;
    assert all[i] == p;
    EligibleBelowMembers(lower, db, hi, p);
    if i < |found| - 1 {
      FilterDecreases(db.table, hi, IsEligible(lower, db.feed));
      assert all[|found| - 1] == Last(found);
    }
  }

  lemma {:induction false} FittingFoundKeeps(lower: string -> string, db: Db, found: seq<Post>, after: Db)
    requires DbOk(lower, db) && FoundFits(lower, db, found)
    requires forall p | p in found :: p in db.table && Last(found).cursor <= p.cursor
    requires after.table == db.table && after.published == db.published + Cursors(found)
    requires forall p :: Eligible(lower, after.feed, p) <==> Eligible(lower, db.feed, p)
    ensures DbOk(lower, after)
  {
    forall c | c in after.published
      ensures exists p :: p in after.table && p.cursor == c && Eligible(lower, after.feed, p)
    {
      if c in db.published {
        var p :| p in db.table && p.cursor == c && Eligible(lower, db.feed, p);
        assert Eligible(lower, after.feed, p);
      } else {
        var p :| p in found && p.cursor == c;
        assert Eligible(lower, after.feed, p);
      }
    }
    forall p, c | p in after.table && c in after.published && c <= p.cursor && Eligible(lower, after.feed, p)
      ensures p.cursor in after.published
    {
      if c !in db.published {
        var q :| q in found && q.cursor == c;
        assert p.cursor >= Last(found).cursor && Eligible(lower, db.feed, p);
      }
    }
  }

  // ---------- what every step keeps ----------

  /** What was read with the feed before its last clear has a version from before it. */
  ghost predicate VersionOk(s: State, version: int, clears: nat) {
    version <= s.clock && clears <= s.clears && (clears < s.clears ==> version < s.clearedAt)
  }

  /** A feed read since the last clear selects what the feed selects now. */
  ghost predicate ReadOk(s: State, feed: Feed, clears: nat) {
    VersionOk(s, feed.updatedAt, clears) && (Current(s, clears) ==> SelectsSame(feed, s.db.feed))
  }

  ghost predicate OpenedOk(s: State, o: Opened) {
    ReadOk(s, o.feed, o.clears) && 0 < o.query.limit <= FEED_REFRESH_LIMIT && o.asked <= |s.answers|
  }

  /** The page of a scan is what was eligible below its cursor for the feed as it was then, and is published
      as long as the feed has not been cleared since. */
  ghost predicate ScanOk(lower: string -> string, s: State, scan: Scan) {
    && ReadOk(s, scan.feed, scan.clears)
    && scan.clears <= scan.pageClears <= s.clears
    && (scan.clears == scan.pageClears ==> SelectsSame(scan.feed, scan.seen))
    && scan.height <= |s.db.table|
    && scan.page <= EligibleBelow(lower, scan.seen, s.db.table[..scan.height], scan.cursor)
    && scan.want + |scan.page| <= FEED_REFRESH_LIMIT
    && (Current(s, scan.pageClears) ==> forall p | p in scan.page :: p.cursor in s.db.published)
    && scan.asked <= |s.answers|
    && forall k | 0 <= k < scan.asked :: s.answers[k].height <= scan.height
  }

  ghost predicate DraftOk(s: State, draft: Draft) {
    draft.feed.Some? ==> ReadOk(s, draft.feed.value, draft.clears)
  }

  /** A cursor that a response carried since the last clear is published. */
  ghost predicate IssuedOk(s: State, i: Issued) {
    VersionOk(s, i.version, i.clears) && (Current(s, i.clears) ==> i.cursor in s.db.published)
  }

  /** An answer is a prefix of what was eligible below its cursor, unless the feed came to select other posts
      between reading it and the page; and its first post was not read before the answers it was asked after. */
  ghost predicate AnswerOk(lower: string -> string, s: State, k: nat)
    requires k < |s.answers|
  {
    var a := s.answers[k];
    && a.asked <= k && a.height <= |s.db.table|
    && (SelectsSame(a.feed, a.seen) ==> a.posts <= EligibleBelow(lower, a.feed, s.db.table[..a.height], a.cursor))
    && |a.posts| <= FEED_REFRESH_LIMIT
    && forall j | 0 <= j < a.asked :: s.answers[j].height <= a.height
  }

  /** What holds in every run, harmful steps or not, as long as the pages were read in good states. */
  ghost predicate BaseOk(lower: string -> string, s: State) {
    && TableOk(s.db.table)
    && s.clearedAt <= s.clock && s.db.feed.updatedAt <= s.clock
    && (forall id | id in s.asking :: OpenedOk(s, s.asking[id]))
    && (forall id | id in s.scans :: ScanOk(lower, s, s.scans[id]))
    && (forall id | id in s.drafts :: DraftOk(s, s.drafts[id]))
    && (forall i | i in s.issued :: IssuedOk(s, i))
    && (forall k | 0 <= k < |s.answers| :: AnswerOk(lower, s, k))
  }

  ghost predicate Inv(lower: string -> string, s: State) {
    BaseOk(lower, s) && UpwardClosed(lower, s.db)
  }

  lemma {:induction false} SelectsSameTwice(a: Feed, b: Feed, c: Feed)
    requires SelectsSame(a, b) && SelectsSame(b, c)
    ensures SelectsSame(a, c)
  {
  }

  /** The state has only grown: no clear, more posts on top, more publications and answers. */
  ghost predicate Grown(s: State, after: State) {
    && s.db.table <= after.db.table && TableOk(after.db.table)
    && s.db.published <= after.db.published
    && SelectsSame(s.db.feed, after.db.feed) && after.db.feed.updatedAt <= after.clock
    && s.clock <= after.clock && after.clearedAt == s.clearedAt && after.clears == s.clears
    && s.answers <= after.answers
  }

  lemma {:induction false} ReadGrows(s: State, after: State, feed: Feed, clears: nat)
    requires Grown(s, after) && ReadOk(s, feed, clears)
    ensures ReadOk(after, feed, clears)
  {
    if Current(s, clears) {
      SelectsSameTwice(feed, s.db.feed, after.db.feed);
    }
  }

  lemma {:induction false} ScanGrows(lower: string -> string, s: State, after: State, scan: Scan)
    requires Grown(s, after) && ScanOk(lower, s, scan)
    ensures ScanOk(lower, after, scan)
  {
    ReadGrows(s, after, scan.feed, scan.clears);
    assert after.db.table[..scan.height] == s.db.table[..scan.height];
    assert forall k | 0 <= k < scan.asked :: after.answers[k] == s.answers[k];
  }

  lemma {:induction false} AnswerGrows(lower: string -> string, s: State, after: State, k: nat)
    requires Grown(s, after) && k < |s.answers| && AnswerOk(lower, s, k)
    ensures AnswerOk(lower, after, k)
  {
    assert forall j | 0 <= j <= k :: after.answers[j] == s.answers[j];
    assert after.db.table[..s.answers[k].height] == s.db.table[..s.answers[k].height];
  }

  /** Of a grown state, everything that was there before is still as it should be. */
  lemma {:induction false} OldStaysOk(lower: string -> string, s: State, after: State)
    requires BaseOk(lower, s) && Grown(s, after)
    ensures forall o | OpenedOk(s, o) :: OpenedOk(after, o)
    ensures forall scan | ScanOk(lower, s, scan) :: ScanOk(lower, after, scan)
    ensures forall d | DraftOk(s, d) :: DraftOk(after, d)
    ensures forall i | IssuedOk(s, i) :: IssuedOk(after, i)
    ensures forall k | 0 <= k < |s.answers| :: AnswerOk(lower, after, k)
  {
    forall o | OpenedOk(s, o)
      ensures OpenedOk(after, o)
    {
      ReadGrows(s, after, o.feed, o.clears);
    }
    forall scan | ScanOk(lower, s, scan)
      ensures ScanOk(lower, after, scan)
    {
      ScanGrows(lower, s, after, scan);
    }
    forall d | DraftOk(s, d)
      ensures DraftOk(after, d)
    {
      if d.feed.Some? {
        ReadGrows(s, after, d.feed.value, d.clears);
      }
    }
    forall k | 0 <= k < |s.answers|
      ensures AnswerOk(lower, after, k)
    {
      AnswerGrows(lower, s, after, k);
    }
  }

  /** Nothing was added to what is under way. */
  ghost predicate NothingNew(s: State, after: State) {
    && after.asking.Items <= s.asking.Items && after.scans.Items <= s.scans.Items &&
       after.drafts.Items <= s.drafts.Items
    && after.issued <= s.issued && after.answers == s.answers
  }

  lemma {:induction false} GrownStaysOk(lower: string -> string, s: State, after: State)
    requires BaseOk(lower, s) && Grown(s, after) && NothingNew(s, after)
    ensures BaseOk(lower, after)
  {
    OldStaysOk(lower, s, after);
    forall id | id in after.asking
      ensures OpenedOk(after, after.asking[id])
    {
      assert (id, after.asking[id]) in s.asking.Items && OpenedOk(s, s.asking[id]);
    }
    forall id | id in after.scans
      ensures ScanOk(lower, after, after.scans[id])
    {
      assert (id, after.scans[id]) in s.scans.Items && ScanOk(lower, s, s.scans[id]);
    }
    forall id | id in after.drafts
      ensures DraftOk(after, after.drafts[id])
    {
      assert (id, after.drafts[id]) in s.drafts.Items && DraftOk(s, s.drafts[id]);
    }
    forall i | i in after.issued
      ensures IssuedOk(after, i)
    {
      assert IssuedOk(s, i);
    }
  }

  lemma {:induction false} AddOpened(lower: string -> string, s: State, id: nat, o: Opened)
    requires BaseOk(lower, s) && OpenedOk(s, o)
    ensures BaseOk(lower, s.(asking := s.asking[id := o]))
  {
    var after := s.(asking := s.asking[id := o]);
    OldStaysOk(lower, s, after);
    assert forall k | k in s.asking :: OpenedOk(s, s.asking[k]);
    assert forall k | k in s.scans :: ScanOk(lower, s, s.scans[k]);
    assert forall k | k in s.drafts :: DraftOk(s, s.drafts[k]);
    assert forall i | i in s.issued :: IssuedOk(s, i);
  }

  lemma {:induction false} AddScan(lower: string -> string, s: State, id: nat, scan: Scan)
    requires BaseOk(lower, s) && ScanOk(lower, s, scan)
    ensures BaseOk(lower, s.(scans := s.scans[id := scan]))
  {
    var after := s.(scans := s.scans[id := scan]);
    OldStaysOk(lower, s, after);
    assert forall k | k in s.asking :: OpenedOk(s, s.asking[k]);
    assert forall k | k in s.scans :: ScanOk(lower, s, s.scans[k]);
    assert forall k | k in s.drafts :: DraftOk(s, s.drafts[k]);
    assert forall i | i in s.issued :: IssuedOk(s, i);
  }

  lemma {:induction false} AddDraft(lower: string -> string, s: State, id: nat, draft: Draft)
    requires BaseOk(lower, s) && DraftOk(s, draft)
    ensures BaseOk(lower, s.(drafts := s.drafts[id := draft]))
  {
    var after := s.(drafts := s.drafts[id := draft]);
    OldStaysOk(lower, s, after);
    assert forall k | k in s.asking :: OpenedOk(s, s.asking[k]);
    assert forall k | k in s.scans :: ScanOk(lower, s, s.scans[k]);
    assert forall k | k in s.drafts :: DraftOk(s, s.drafts[k]);
    assert forall i | i in s.issued :: IssuedOk(s, i);
  }

  lemma {:induction false} AddIssued(lower: string -> string, s: State, posts: seq<Post>, version: int, clears: nat)
    requires BaseOk(lower, s) && VersionOk(s, version, clears)
    requires Current(s, clears) ==> forall p | p in posts :: p.cursor in s.db.published
    ensures BaseOk(lower, Issue(s, posts, version, clears))
  {
    var after := Issue(s, posts, version, clears);
    OldStaysOk(lower, s, after);
    assert forall k | k in s.asking :: OpenedOk(s, s.asking[k]);
    assert forall k | k in s.scans :: ScanOk(lower, s, s.scans[k]);
    assert forall k | k in s.drafts :: DraftOk(s, s.drafts[k]);
    forall i | i in after.issued
      ensures IssuedOk(after, i)
    {
      if i in s.issued {
        assert IssuedOk(s, i);
      }
    }
  }

  lemma {:induction false} AddAnswer(lower: string -> string, s: State, a: Answer)
    requires BaseOk(lower, s)
    requires a.asked <= |s.answers| && a.height <= |s.db.table| && |a.posts| <= FEED_REFRESH_LIMIT
    requires SelectsSame(a.feed, a.seen) ==> a.posts <= EligibleBelow(lower, a.feed, s.db.table[..a.height], a.cursor)
    requires forall j | 0 <= j < a.asked :: s.answers[j].height <= a.height
    ensures BaseOk(lower, s.(answers := s.answers + [a]))
  {
    var after := s.(answers := s.answers + [a]);
    OldStaysOk(lower, s, after);
    assert forall k | k in s.asking :: OpenedOk(s, s.asking[k]);
    assert forall k | k in s.scans :: ScanOk(lower, s, s.scans[k]);
    assert forall k | k in s.drafts :: DraftOk(s, s.drafts[k]);
    assert forall i | i in s.issued :: IssuedOk(s, i);
    assert AnswerOk(lower, after, |s.answers|);
  }

  // ---------- the steps one by one ----------

  lemma {:induction false} StoreStep(lower: string -> string, s: State, id: nat, p: Post)
    requires BaseOk(lower, s) && Enabled(s, Store(id, p))
    ensures BaseOk(lower, Next(lower, s, Store(id, p)))
  {
    GrownStaysOk(lower, s, Next(lower, s, Store(id, p)));
  }

  lemma {:induction false} SameFeedStaysClosed(lower: string -> string, before: Db, after: Db)
    requires UpwardClosed(lower, before)
    requires after.table == before.table && after.published == before.published
    requires forall p :: Eligible(lower, before.feed, p) <==> Eligible(lower, after.feed, p)
    ensures UpwardClosed(lower, after)
  {
    forall c | c in after.published
      ensures exists p :: p in after.table && p.cursor == c && Eligible(lower, after.feed, p)
    {
      var p :| p in before.table && p.cursor == c && Eligible(lower, before.feed, p);
      assert Eligible(lower, after.feed, p);
    }
  }

  lemma {:induction false} ClearedStaysOk(lower: string -> string, s: State, feed: Feed, now: int)
    requires BaseOk(lower, s) && s.clock < now && feed.updatedAt == now
    ensures BaseOk(lower, s.(db := s.db.(feed := feed, published := {}), clock := now, clearedAt := now,
            clears := s.clears + 1))
  {
    var after := s.(db := s.db.(feed := feed, published := {}), clock := now, clearedAt := now, clears := s.clears + 1);
    assert forall version, clears | VersionOk(s, version, clears) ::
           VersionOk(after, version, clears) && !Current(after, clears);
    forall id | id in s.asking
      ensures OpenedOk(after, s.asking[id])
    {
      assert OpenedOk(s, s.asking[id]);
    }
    forall id | id in s.scans
      ensures ScanOk(lower, after, s.scans[id])
    {
      assert ScanOk(lower, s, s.scans[id]);
    }
    forall id | id in s.drafts
      ensures DraftOk(after, s.drafts[id])
    {
      assert DraftOk(s, s.drafts[id]);
    }
    forall i | i in s.issued
      ensures IssuedOk(after, i)
    {
      assert IssuedOk(s, i);
    }
    forall k | 0 <= k < |s.answers|
      ensures AnswerOk(lower, after, k)
    {
      assert AnswerOk(lower, s, k);
    }
  }

  lemma {:induction false} EditStep(lower: string -> string, s: State, filter: FilterText, ids: seq<string>,
      known: set<string>, now: int)
    requires BaseOk(lower, s) && Enabled(s, Upsert(filter, ids, known, now))
    ensures BaseOk(lower, Edited(s, filter, ids, known, now))
    ensures UpwardClosed(lower, s.db) ==> UpwardClosed(lower, Edited(s, filter, ids, known, now).db)
  {
    var feed := Upserted(filter, ids, known, now);
    if Clears(s.db, filter, ids) {
      ClearedStaysOk(lower, s, feed, now);
    } else if IsClearPostsNeeded(s.db.feed, filter, ids) == Ok(false) {
      var after := Edited(s, filter, ids, known, now);
      NoClearKeepsEligibility(s.db.feed, filter, ids, known, now);
      SelectsSameEligible(lower, s.db.feed, feed, s.db.table, 0);
      GrownStaysOk(lower, s, after);
      if UpwardClosed(lower, s.db) {
        SameFeedStaysClosed(lower, s.db, after.db);
      }
    }
  }

  lemma {:induction false} ReadStep(lower: string -> string, s: State, id: nat)
    requires BaseOk(lower, s) && Enabled(s, Read(id))
    ensures BaseOk(lower, Next(lower, s, Read(id)))
  {
    AddDraft(lower, s, id, Draft(Some(s.db.feed), s.clears));
  }

  lemma {:induction false} OpenStep(lower: string -> string, s: State, id: nat, query: Query)
    requires BaseOk(lower, s) && Enabled(s, Open(id, query))
    ensures BaseOk(lower, OpenedNow(s, id, query))
  {
    match Sanitized(query, s.db.feed)
    case Ok(q) => AddOpened(lower, s, id, Opened(s.db.feed, q, s.clears, |s.answers|));
    case _ =>
  }

  lemma {:induction false} NewPageIsPublished(db: Db, cursor: int, limit: nat)
    ensures forall p | p in NewPage(db, cursor, limit) :: p.cursor in db.published
  {
    var newer := Filter(Below(db.table, DEFAULT_FEEDS_QUERY_CURSOR), IsNewer(db.published, cursor));
    FilterMembers(Below(db.table, DEFAULT_FEEDS_QUERY_CURSOR), IsNewer(db.published, cursor));
    TakeMembers(limit, newer);
  }

  lemma {:induction false} ReadPageIsPublished(db: Db, cursor: int, limit: nat)
    ensures forall p | p in ReadPage(db, cursor, limit) :: p.cursor in db.published
  {
    FilterMembers(Below(db.table, cursor), IsPublished(db.published));
    TakeMembers(limit, PublishedBelow(db.table, db.published, cursor));
  }

  lemma {:induction false} ReadPageIsPrefix(lower: string -> string, db: Db, cursor: int, limit: nat)
    requires DbOk(lower, db)
    ensures ReadPage(db, cursor, limit) <= EligibleBelow(lower, db.feed, db.table, cursor)
  {
    PublishedIsPrefix(lower, db, cursor);
    TakeOfPrefix(limit, PublishedBelow(db.table, db.published, cursor),
      EligibleBelow(lower, db.feed, db.table, cursor));
  }

  lemma {:induction false} AnswersWereThere(lower: string -> string, s: State)
    requires BaseOk(lower, s)
    ensures forall k | 0 <= k < |s.answers| :: s.answers[k].height <= |s.db.table|
  {
    forall k | 0 <= k < |s.answers|
      ensures s.answers[k].height <= |s.db.table|
    {
      assert AnswerOk(lower, s, k);
    }
  }

  /** A page that was just read makes a good scan. */
  lemma {:induction false} ScanBegins(lower: string -> string, s: State, o: Opened)
    requires Inv(lower, s) && OpenedOk(s, o)
    requires |ReadPage(s.db, o.query.cursor, Limit(o.query))| < Limit(o.query)
    ensures ScanOk(lower, s, ScanOf(s, o, ReadPage(s.db, o.query.cursor, Limit(o.query))))
  {
    ReadPageIsPublished(s.db, o.query.cursor, Limit(o.query));
    ReadPageIsPrefix(lower, s.db, o.query.cursor, Limit(o.query));
    assert s.db.table[..|s.db.table|] == s.db.table;
    AnswersWereThere(lower, s);
  }

  /** A full page is a good answer. */
  lemma {:induction false} FullPageAnswers(lower: string -> string, s: State, o: Opened)
    requires Inv(lower, s) && OpenedOk(s, o)
    ensures var page := ReadPage(s.db, o.query.cursor, Limit(o.query));
            BaseOk(lower, s.(answers := s.answers +
              [Answer(o.feed, s.db.feed, o.query.cursor, page, |s.db.table|, o.asked)]))
  {
    var page := ReadPage(s.db, o.query.cursor, Limit(o.query));
    ReadPageIsPrefix(lower, s.db, o.query.cursor, Limit(o.query));
    assert s.db.table[..|s.db.table|] == s.db.table;
    if SelectsSame(o.feed, s.db.feed) {
      SelectsSameEligible(lower, o.feed, s.db.feed, s.db.table, o.query.cursor);
    }
    AnswersWereThere(lower, s);
    AddAnswer(lower, s, Answer(o.feed, s.db.feed, o.query.cursor, page, |s.db.table|, o.asked));
  }

  lemma {:induction false} BeginStep(lower: string -> string, s: State, id: nat)
    requires Inv(lower, s) && Enabled(s, Begin(id))
    ensures BaseOk(lower, Begun(s, id)) && Begun(s, id).db == s.db
  {
    var o, rest := s.asking[id], s.(asking := s.asking - {id});
    assert OpenedOk(s, o);
    GrownStaysOk(lower, s, rest);
    var page := ReadPage(s.db, o.query.cursor, Limit(o.query));
    if o.query.direction.New? {
      NewPageIsPublished(s.db, o.query.cursor, Limit(o.query));
      AddIssued(lower, rest, NewPage(s.db, o.query.cursor, Limit(o.query)), o.feed.updatedAt, s.clears);
    } else if |page| < Limit(o.query) {
      ScanBegins(lower, rest, o);
      AddScan(lower, rest, id, ScanOf(rest, o, page));
    } else {
      FullPageAnswers(lower, rest, o);
      ReadPageIsPublished(s.db, o.query.cursor, Limit(o.query));
      var answer := Answer(o.feed, s.db.feed, o.query.cursor, page, |s.db.table|, o.asked);
      AddIssued(lower, rest.(answers := s.answers + [answer]), page, o.feed.updatedAt, s.clears);
    }
  }

  lemma {:induction false} FoundIsPrefix(lower: string -> string, db: Db, scan: Scan, height: nat)
    requires height <= |db.table|
    ensures Found(lower, db, scan, height) <= EligibleBelow(lower, scan.feed, db.table[..height], Start(scan))
    ensures |Found(lower, db, scan, height)| <= scan.want
  {
    RepublishedIsPrefix(lower, scan.feed, db.table[..height], scan.want, Start(scan));
  }

  lemma {:induction false} PrefixIncreases(table: seq<Post>, n: nat)
    requires Increasing(table) && n <= |table|
    ensures Increasing(table[..n])
  {
  }

  /** The page and what was found behind it are together a prefix of what is eligible for the feed that the
      query read, as long as that feed selected the same when the page was read. */
  lemma {:induction false} ResponseIsPrefix(lower: string -> string, s: State, scan: Scan, height: nat)
    requires BaseOk(lower, s) && ScanOk(lower, s, scan) && scan.height <= height <= |s.db.table|
    requires SelectsSame(scan.feed, scan.seen)
    ensures scan.page + Found(lower, s.db, scan, height) <=
            EligibleBelow(lower, scan.feed, s.db.table[..HeightRead(scan, height)], scan.cursor)
  {
    var found := Found(lower, s.db, scan, height);
    FoundIsPrefix(lower, s.db, scan, height);
    if scan.page == [] {
      assert scan.page + found == found;
    } else {
      var f := IsEligible(lower, scan.feed);
      var before, after := Db(scan.feed, s.db.table[..scan.height], {}), Db(scan.feed, s.db.table[..height], {});
      SelectsSameEligible(lower, scan.feed, scan.seen, before.table, scan.cursor);
      assert Last(scan.page) in scan.page;
      PrefixIncreases(s.db.table, scan.height);
      PrefixIncreases(s.db.table, height);
      SelectedBelowOld(before, after, f, scan.cursor, Last(scan.page));
      NextPageContinues(before.table, scan.cursor, f, scan.page, found);
    }
  }

  lemma {:induction false} AppendStep(lower: string -> string, s: State, id: nat, found: seq<Post>, version: int)
    requires BaseOk(lower, s) && version <= s.clock
    ensures BaseOk(lower, s.(db := Appended(s.db, found, version), scans := s.scans - {id}))
  {
    GrownStaysOk(lower, s, s.(db := Appended(s.db, found, version), scans := s.scans - {id}));
  }

  /** The append of a good scan answers well. */
  lemma {:induction false} ScanAnswers(lower: string -> string, s: State, scan: Scan, height: nat, after: State)
    requires BaseOk(lower, s) && ScanOk(lower, s, scan) && scan.height <= height <= |s.db.table|
    requires BaseOk(lower, after) && after.answers == s.answers && after.db.table == s.db.table
    ensures var posts := scan.page + Found(lower, s.db, scan, height);
            var answer := Answer(scan.feed, scan.seen, scan.cursor, posts, HeightRead(scan, height), scan.asked);
            BaseOk(lower, after.(answers := s.answers + [answer]))
  {
    var posts := scan.page + Found(lower, s.db, scan, height);
    FoundIsPrefix(lower, s.db, scan, height);
    if SelectsSame(scan.feed, scan.seen) {
      ResponseIsPrefix(lower, s, scan, height);
    }
    AddAnswer(lower, after, Answer(scan.feed, scan.seen, scan.cursor, posts, HeightRead(scan, height), scan.asked));
  }

  lemma {:induction false} CommitStep(lower: string -> string, s: State, id: nat, height: nat)
    requires BaseOk(lower, s) && Enabled(s, Commit(id, height))
    ensures BaseOk(lower, Committed(lower, s, id, height))
  {
    var scan := s.scans[id];
    var found, version := Found(lower, s.db, scan, height), scan.feed.updatedAt;
    assert ScanOk(lower, s, scan);
    AppendStep(lower, s, id, found, version);
    var appended := s.(db := Appended(s.db, found, version), scans := s.scans - {id});
    ScanAnswers(lower, s, scan, height, appended);
    var answer := Answer(scan.feed, scan.seen, scan.cursor, scan.page + found, HeightRead(scan, height), scan.asked);
    var after := appended.(answers := s.answers + [answer]);
    AddIssued(lower, after, scan.page, version, scan.pageClears);
    AddIssued(lower, Issue(after, scan.page, version, scan.pageClears), found, version, s.clears);
  }

  /** One step of a publisher, a user or a query: the publications stay upward closed exactly when the
      step is harmless, and everything else is kept in any case. */
  lemma {:induction false} StepKeepsInvIff(lower: string -> string, s: State, a: Action)
    requires Inv(lower, s) && Enabled(s, a)
    ensures BaseOk(lower, Next(lower, s, a))
    ensures UpwardClosed(lower, Next(lower, s, a).db) <==> Harmless(lower, s, a)
  {
    match a
    case Leave(id) =>
      GrownStaysOk(lower, s, Next(lower, s, a));
    case Read(id) =>
      ReadStep(lower, s, id);
    case Store(id, p) =>
      StoreStep(lower, s, id, p);
      StoreIff(lower, s.db, s.drafts[id].feed, p);
    case Upsert(filter, ids, known, now) =>
      EditStep(lower, s, filter, ids, known, now);
    case Open(id, q) =>
      OpenStep(lower, s, id, q);
    case Begin(id) =>
      BeginStep(lower, s, id);
    case Commit(id, height) =>
      CommitStep(lower, s, id, height);
      CommitHarmlessIff(lower, s, id, height);
  }

  lemma {:induction false} CommitHarmlessIff(lower: string -> string, s: State, id: nat, height: nat)
    requires Inv(lower, s) && Enabled(s, Commit(id, height))
    ensures UpwardClosed(lower, Committed(lower, s, id, height).db) <==> Harmless(lower, s, Commit(id, height))
  {
    var scan := s.scans[id];
    FoundIsPrefix(lower, s.db, scan, height);
    CommitIff(lower, s.db, scan.feed, height, Start(scan), Found(lower, s.db, scan, height), scan.feed.updatedAt);
  }

  /** A step that is not risky is harmless. */
  lemma {:induction false} SafeStep(lower: string -> string, s: State, a: Action)
    requires Inv(lower, s) && Enabled(s, a) && !Risky(lower, s, a)
    ensures Harmless(lower, s, a)
  {
    match a
    case Store(id, p) =>
      assert DraftOk(s, s.drafts[id]);
      SelectsSameEligible(lower, s.drafts[id].feed.value, s.db.feed, s.db.table, 0);
    case Commit(id, height) =>
      SafeCommit(lower, s, id, height);
    case _ =>
  }

  lemma {:induction false} SafeCommit(lower: string -> string, s: State, id: nat, height: nat)
    requires Inv(lower, s) && Enabled(s, Commit(id, height)) && !Risky(lower, s, Commit(id, height))
    ensures Harmless(lower, s, Commit(id, height))
  {
    var scan := s.scans[id];
    assert ScanOk(lower, s, scan);
    FoundIsPrefix(lower, s.db, scan, height);
    SelectsSameEligible(lower, scan.feed, s.db.feed, s.db.table[..height], Start(scan));
    HeldIsCovered(lower, s.db, Start(scan));
    CoveredPrefixFits(lower, s.db, height, Start(scan), Found(lower, s.db, scan, height));
  }

  lemma {:induction false} CoveredPrefixFits(lower: string -> string, db: Db, height: nat, start: int, found: seq<Post>)
    requires DbOk(lower, db) && height <= |db.table| && Covered(lower, db, start)
    requires found <= EligibleBelow(lower, db.feed, db.table[..height], start)
    requires !Overtaken(lower, db, start, height)
    ensures FoundFits(lower, db, found)
  {
    var read := db.(table := db.table[..height]);
    forall p | p in found
      ensures Eligible(lower, db.feed, p)
    {
      FoundInTable(lower, read, start, found, p);
    }
    if found != [] {
      assert Last(found) in found;
      forall p | p in db.table && Eligible(lower, db.feed, p) && p.cursor >= Last(found).cursor
        ensures p.cursor in db.published || p.cursor in Cursors(found)
      {
        var i :| 0 <= i < |db.table| && db.table[i] == p;
        if p.cursor < start && i < height {
          assert read.table[i] == p;
          EligibleBelowMembers(lower, read, start, p);
          FoundReachesUp(lower, read, start, found, p, Last(found));
        }
      }
    }
  }

  // ---------- runs ----------

  ghost predicate Legal(lower: string -> string, s: State, run: seq<Action>)
    decreases run
  {
    run != [] ==> Enabled(s, run[0]) && Legal(lower, Next(lower, s, run[0]), run[1..])
  }

  ghost function After(lower: string -> string, s: State, run: seq<Action>): State
    requires Legal(lower, s, run)
    decreases run
  {
    if run == [] then s else After(lower, Next(lower, s, run[0]), run[1..])
  }

  /** A feed that was just created. The publishers in `early` read the feeds of their subsource before. */
  ghost function NewFeed(feed: Feed, table: seq<Post>, early: set<nat>): State {
    State(Db(feed, table, {}), feed.updatedAt, feed.updatedAt, 0, map[], map[], map id | id in early ::
      Draft(None, 0), {}, [])
  }

  ghost predicate AlwaysUpwardClosed(lower: string -> string, s: State, run: seq<Action>)
    requires Legal(lower, s, run)
    decreases run
  {
    && UpwardClosed(lower, s.db)
    && (run != [] ==> AlwaysUpwardClosed(lower, Next(lower, s, run[0]), run[1..]))
  }

  ghost predicate RisksAreHarmless(lower: string -> string, s: State, run: seq<Action>)
    requires Legal(lower, s, run)
    decreases run
  {
    run != [] ==>
      && (Risky(lower, s, run[0]) ==> Harmless(lower, s, run[0]))
      && RisksAreHarmless(lower, Next(lower, s, run[0]), run[1..])
  }

  lemma {:induction false} RunKeepsInvIff(lower: string -> string, s: State, run: seq<Action>)
    requires Inv(lower, s) && Legal(lower, s, run)
    ensures AlwaysUpwardClosed(lower, s, run) <==> RisksAreHarmless(lower, s, run)
    ensures AlwaysUpwardClosed(lower, s, run) ==> Inv(lower, After(lower, s, run))
    decreases run
  {
    if run == [] {
    } else {
      var next := Next(lower, s, run[0]);
      StepKeepsInvIff(lower, s, run[0]);
      if !Risky(lower, s, run[0]) {
        SafeStep(lower, s, run[0]);
      }
      if UpwardClosed(lower, next.db) {
        RunKeepsInvIff(lower, next, run[1..]);
      }
    }
  }

  /** In every run of a new feed over any post table, with publishers, edits and queries from any cursor
      overlapping each other and the creation of the feed: what is published is eligible, and upward closed
      among the eligible posts, all the time, exactly when each risky step meets its condition. */
  lemma {:induction false} RunsStayUpwardClosedIff(lower: string -> string, feed: Feed, table: seq<Post>,
      early: set<nat>, run: seq<Action>)
    requires TableOk(table) && Legal(lower, NewFeed(feed, table, early), run)
    ensures AlwaysUpwardClosed(lower, NewFeed(feed, table, early), run) <==>
            RisksAreHarmless(lower, NewFeed(feed, table, early), run)
  {
    RunKeepsInvIff(lower, NewFeed(feed, table, early), run);
  }
}
