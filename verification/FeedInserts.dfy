/**
 The step by which the publisher adds a post to a feed's history is the one the feed's state machine
 takes for it.
 */
module FeedInserts {
  import opened Wrappers
  import opened Sequences
  import F = FeedPaging
  import M = PostMatching
  import R = FeedRuns
  import P = Publisher
  import D = Deliveries

  /** The contents of a message along the posts it shares. */
  function ChainOf(p: P.Crawled): M.PostChain {
    M.PostChain(p.content, if p.sharedFrom.Some? then Some(ChainOf(p.sharedFrom.value)) else None)
  }

  lemma {:induction false} ChainHolds(lower: string -> string, j: P.D.Json, p: P.Crawled)
    ensures M.SomePostHolds(lower, j, M.Contents(ChainOf(p))) <==> P.HoldsAlong(lower, j, p)
  {
    var contents := M.Contents(ChainOf(p));
    assert contents[0] == p.content;
    if p.sharedFrom.Some? {
      var rest := M.Contents(ChainOf(p.sharedFrom.value));
      ChainHolds(lower, j, p.sharedFrom.value);
      assert contents == [p.content] + rest;
      assert forall k | 0 <= k < |rest| :: rest[k] == contents[k + 1];
      assert forall k | 1 <= k < |contents| :: contents[k] == rest[k - 1];
    } else {
      assert contents == [p.content];
    }
  }

  /** The row of a message in the feed's table: a post of its own, with its contents. */
  ghost predicate IsRow(row: F.Post, p: P.Crawled) {
    row.chain == ChainOf(p) && !row.inSharingChain
  }

  /** What the database lists for a subsource: a feed with this id exactly if the feed, as the publisher read
      it, has the row's subsource, and then with the filter it had. */
  ghost predicate Lists(t: P.Tables, d: P.Delivery, p: P.Crawled, id: string, read: Option<F.Feed>, row: F.Post) {
    && ((exists i: nat :: P.IsAsked(t.subSources, p, d, i) && P.FeedAt(p, d, i).id == id) <==>
        read.Some? && row.subSource in read.value.subSources)
    && (forall i: nat | P.IsAsked(t.subSources, p, d, i) && P.FeedAt(p, d, i).id == id ::
          read.Some? && P.FeedAt(p, d, i).filter == read.value.filter)
  }

  /** What the state machine's publisher decides is what is asked of the message. */
  lemma {:induction false} JudgedIsAsked(lower: string -> string, read: Option<F.Feed>, row: F.Post, p: P.Crawled)
    requires IsRow(row, p)
    ensures var judged, asked := R.Judged(lower, read, row), read.Some? && row.subSource in read.value.subSources;
            && (judged == Some(true) <==> asked && P.WantedBy(lower, read.value.filter, p))
            && (judged == None <==> asked && !P.Answers(read.value.filter))
  {
    if read.Some? {
      M.ChainMatchesSomePost(lower, read.value.filter, row.chain);
      if read.value.filter.Document? {
        ChainHolds(lower, read.value.filter.json, p);
      }
    }
  }

  /** A feed's table and publications change as FeedRuns.Stored says, by the feed that the publisher has
      read, whenever it stores a message; and when the feed's own filter fails, neither adds anything. */
  lemma {:induction false} StoredIsInsert(lower: string -> string, db: F.Db, read: Option<F.Feed>, row: F.Post,
      id: string, t: P.Tables, d: P.Delivery)
    requires d.decoding.Message? && IsRow(row, d.decoding.post) && row.cursor !in db.published
    requires Lists(t, d, d.decoding.post, id, read, row)
    ensures var e, after := P.Process(P.Matcher(lower), t, d), R.Stored(lower, db, read, row);
            && (e.result == P.Stored ==>
                  && after.table == db.table + [row]
                  && (id in Last(e.tables.posts).publishedFeeds <==> row.cursor in after.published)
                  && after.published - {row.cursor} == db.published)
            && (R.Judged(lower, read, row) == None ==> after == db && e.result != P.Stored)
  {
    var p := d.decoding.post;
    JudgedIsAsked(lower, read, row, p);
    P.JudgedIff(lower, t.subSources, p, d);
    if P.Process(P.Matcher(lower), t, d).result == P.Stored {
      D.StoredFeedsIff(lower, t, d, id);
      StoredIsWanted(lower, read, row, id, t, d);
    }
  }

  /** For a message whose feeds all answer. */
  lemma {:induction false} StoredIsWanted(lower: string -> string, read: Option<F.Feed>, row: F.Post, id: string,
      t: P.Tables, d: P.Delivery)
    requires d.decoding.Message? && IsRow(row, d.decoding.post)
    requires Lists(t, d, d.decoding.post, id, read, row)
    requires forall i: nat | P.IsAsked(t.subSources, d.decoding.post, d, i) ::
               P.Answers(P.FeedAt(d.decoding.post, d, i).filter)
    ensures R.Judged(lower, read, row).Some?
    ensures R.Judged(lower, read, row) == Some(true) <==>
            exists i: nat ::
              D.GoesTo(lower, t.subSources, d.decoding.post, d, i) && P.FeedAt(d.decoding.post, d, i).id == id
  {
    var p := d.decoding.post;
    JudgedIsAsked(lower, read, row, p);
    if read.Some? && row.subSource in read.value.subSources {
      var i: nat :| P.IsAsked(t.subSources, p, d, i) && P.FeedAt(p, d, i).id == id;
      assert P.FeedAt(p, d, i).filter == read.value.filter;
      assert P.WantedBy(lower, read.value.filter, p) ==> D.GoesTo(lower, t.subSources, p, d, i);
    }
  }
}
