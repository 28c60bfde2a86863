/**
 What one delivery leads to, said of the message, its subsource's feeds and the tables as they were: where
 the post goes, what is written for it, and how the delivery ends.
 */
module Deliveries {
  import opened Wrappers
  import opened Sequences
  import opened Publisher

  // ---------- where the post goes ----------

  /** The message is wanted by the i-th of its subsource's feeds, which is asked. */
  ghost predicate GoesTo(lower: string -> string, subs: map<Key, string>, p: Crawled, d: Delivery, i: nat) {
    IsAsked(subs, p, d, i) && WantedBy(lower, FeedAt(p, d, i).filter, p)
  }

  lemma {:induction false} MatchedIff(lower: string -> string, subs: map<Key, string>, p: Crawled, d: Delivery,
      id: string)
    ensures id in Matched(lower, CandidatesOf(subs, p, d), Built(Tagged(subs, p, d), true)) <==>
            exists i: nat :: GoesTo(lower, subs, p, d, i) && FeedAt(p, d, i).id == id
  {
    var candidates := CandidatesOf(subs, p, d);
    if id in candidates {
      var i := CandidateIsAsked(subs, p, d, id);
      MatchIff(lower, candidates[id], subs, p, d);
      assert IsAsked(subs, p, d, i);
    }
    if i: nat :| GoesTo(lower, subs, p, d, i) && FeedAt(p, d, i).id == id {
      AskedIsCandidate(subs, p, d, i);
      MatchIff(lower, candidates[id], subs, p, d);
    }
  }

  /** A stored post is published to exactly the feeds that are asked and whose filter is blank or holds of
      the message or of a post along the ones it shares; nothing else decides, not what the post shares,
      answers or is called. */
  lemma {:induction false} StoredFeedsIff(lower: string -> string, t: Tables, d: Delivery, id: string)
    requires Process(Matcher(lower), t, d).result == Stored
    ensures var p := d.decoding.post;
            id in Last(Process(Matcher(lower), t, d).tables.posts).publishedFeeds <==>
            exists i: nat :: GoesTo(lower, t.subSources, p, d, i) && FeedAt(p, d, i).id == id
  {
    MatchedIff(lower, t.subSources, d.decoding.post, d, id);
  }

  /** A post that is stored, or not only because its commit fails, is pushed to exactly the channels of these
      feeds; and nothing is pushed otherwise. */
  lemma {:induction false} PushedChannelsIff(lower: string -> string, t: Tables, d: Delivery, c: string)
    ensures var e := Process(Matcher(lower), t, d);
            if e.result == Stored || e.result == NotCommitted then
              var p := d.decoding.post;
              c in e.pushed <==> exists i: nat :: GoesTo(lower, t.subSources, p, d, i) && c in FeedAt(p, d, i).channels
            else e.pushed == {}
  {
    var e := Process(Matcher(lower), t, d);
    if e.result == Stored || e.result == NotCommitted {
      ChannelsIff(lower, t.subSources, d.decoding.post, d, c);
    }
  }

  lemma {:induction false} ChannelsIff(lower: string -> string, subs: map<Key, string>, p: Crawled, d: Delivery,
      c: string)
    ensures var candidates := CandidatesOf(subs, p, d);
            c in Channels(candidates, Matched(lower, candidates, Built(Tagged(subs, p, d), true))) <==>
            exists i: nat :: GoesTo(lower, subs, p, d, i) && c in FeedAt(p, d, i).channels
  {
    var candidates := CandidatesOf(subs, p, d);
    var matched := Matched(lower, candidates, Built(Tagged(subs, p, d), true));
    if c in Channels(candidates, matched) {
      var id :| id in matched && id in candidates && c in candidates[id].channels;
      MatchedIff(lower, subs, p, d, id);
      var i: nat :| GoesTo(lower, subs, p, d, i) && FeedAt(p, d, i).id == id;
      AskedIsCandidate(subs, p, d, i);
    }
    if i: nat :| GoesTo(lower, subs, p, d, i) && c in FeedAt(p, d, i).channels {
      AskedIsCandidate(subs, p, d, i);
      MatchedIff(lower, subs, p, d, FeedAt(p, d, i).id);
    }
  }

  // ---------- how a delivery ends ----------

  ghost predicate SomeAsked(subs: map<Key, string>, p: Crawled, d: Delivery, panics: bool) {
    exists i: nat :: IsAsked(subs, p, d, i) &&
      if panics then Panics(FeedAt(p, d, i).filter) else !Answers(FeedAt(p, d, i).filter)
  }

  /** How a delivery ends, in this order: an undecodable message is refused and one without a post crashes
      the process; an id that is cached, or has a row that the check finds, is a duplicate; a subsource that
      cannot be read back, or that a row needs and was not created, is an error; then a feed that is asked
      may crash the process with its filter, or fail it; and then the commit decides. */
  lemma {:induction false} ResultIff(lower: string -> string, t: Tables, d: Delivery)
    requires FreshIds(t.subSources, d)
    ensures Process(Matcher(lower), t, d).result ==
            match d.decoding
            case Undecodable => BadMessage
            case WithoutPost => Crashed
            case Message(p) =>
              if p.deduplicateId in t.known || (!d.lookupFails && p.deduplicateId in Ids(t.posts)) then Duplicate
              else if d.readFails || (exists k :: k in RowKeys(p, true) && k !in t.subSources && k in d.refused)
              then NoSubSource
              else if SomeAsked(t.subSources, p, d, true) then Crashed
              else if SomeAsked(t.subSources, p, d, false) then FilterFailed
              else if d.committed then Stored
              else NotCommitted
  {
    if d.decoding.Message? {
      var p := d.decoding.post;
      PlacedIff(t.subSources, Keys(p), p, true, d);
      JudgedIff(lower, t.subSources, p, d);
    }
  }

  // ---------- what is written ----------

  /** The key of some post of the message: itself, or along shared and answered posts, in any combination. */
  ghost predicate Names(p: Crawled, k: Key) {
    || p.subSource == k
    || (p.sharedFrom.Some? && Names(p.sharedFrom.value, k))
    || (p.replyTo.Some? && Names(p.replyTo.value, k))
  }

  lemma {:induction false} KeysIff(p: Crawled, k: Key)
    ensures k in Keys(p) <==> Names(p, k)
  {
    if p.sharedFrom.Some? {
      KeysIff(p.sharedFrom.value, k);
    }
    if p.replyTo.Some? {
      KeysIff(p.replyTo.value, k);
    }
  }

  lemma {:induction false} WithKeysIff(subs: map<Key, string>, p: Crawled, d: Delivery, k: Key)
    ensures var after := WithKeys(subs, Keys(p), d);
            && (k in after <==> k in subs || (Names(p, k) && k !in d.refused))
            && (k in after ==> after[k] == if k in subs then subs[k] else d.uuid(k))
  {
    KeysIff(p, k);
  }

  lemma {:induction false} SubSourcesAfter(judge: Judge, t: Tables, d: Delivery)
    ensures var e := Process(judge, t, d);
            e.tables.subSources ==
            if d.decoding.Message? && e.result != Duplicate then WithKeys(t.subSources, Keys(d.decoding.post), d)
            else t.subSources
  {
  }

  /** A message that is not a duplicate adds the subsources that its posts name and that are not refused, also
      when it is not stored in the end; nothing else adds any, and none changes. */
  lemma {:induction false} SubSourcesIff(judge: Judge, t: Tables, d: Delivery, k: Key)
    ensures var e := Process(judge, t, d);
            var adds := d.decoding.Message? && e.result != Duplicate && Names(d.decoding.post, k) && k !in d.refused;
            && (k in e.tables.subSources <==> k in t.subSources || adds)
            && (k in e.tables.subSources ==>
                  e.tables.subSources[k] == if k in t.subSources then t.subSources[k] else d.uuid(k))
  {
    SubSourcesAfter(judge, t, d);
    if d.decoding.Message? {
      WithKeysIff(t.subSources, d.decoding.post, d, k);
    }
  }

  /** The row of a post of the message and the rows of the posts it shares: same ids, contents and times,
      under existing subsources; shared posts are marked as such and keep no thread. */
  ghost predicate Copies(row: Post, p: Crawled, subs: map<Key, string>) {
    && row.deduplicateId == p.deduplicateId && row.content == p.content && row.generatedAt == p.generatedAt
    && p.subSource in subs && row.subSourceId == subs[p.subSource]
    && row.sharedFrom.Some? == p.sharedFrom.Some?
    && (p.sharedFrom.Some? ==>
          && row.sharedFrom.value.inSharingChain && row.sharedFrom.value.replyThread == []
          && Copies(row.sharedFrom.value, p.sharedFrom.value, subs))
  }

  lemma {:induction false} TaggedCopy(subs: map<Key, string>, keys: set<Key>, p: Crawled, d: Delivery, isRoot: bool)
    requires FreshIds(subs, d) && Keys(p) <= keys
    requires Placed(WithKeys(subs, keys, d).Values, Tagged(subs, p, d), isRoot)
    ensures Copies(Built(Tagged(subs, p, d), isRoot), p, WithKeys(subs, keys, d))
    decreases p
  {
    PlacedKey(subs, keys, p.subSource, d);
    if p.sharedFrom.Some? {
      TaggedCopy(subs, keys, p.sharedFrom.value, d, false);
    }
  }

  lemma {:induction false} ThreadCopies(subs: map<Key, string>, keys: set<Key>, p: Crawled, d: Delivery, k: nat)
    requires FreshIds(subs, d) && Keys(p) <= keys && k < |Chain(p)|
    requires PlacedThread(WithKeys(subs, keys, d).Values, Tagged(subs, p, d))
    ensures var thread := BuiltThread(Tagged(subs, p, d));
            && |thread| == |Chain(p)|
            && thread[k].inSharingChain && thread[k].replyThread == []
            && Copies(thread[k], Chain(p)[k], WithKeys(subs, keys, d))
    decreases p
  {
    TaggedCopy(subs, keys, p, d, false);
    if p.replyTo.Some? {
      ThreadCopies(subs, keys, p.replyTo.value, d, if k > 0 then k - 1 else 0);
    }
  }

  /** The rows of a stored message: the post, the posts it shares, and its thread, which has a row for every
      ancestor, the parent first. */
  ghost predicate CopiesAll(row: Post, p: Crawled, subs: map<Key, string>) {
    && Copies(row, p, subs) && !row.inSharingChain
    && |row.replyThread| == |Chain(p)| - 1
    && forall k | 0 <= k < |row.replyThread| ::
      && row.replyThread[k].inSharingChain && row.replyThread[k].replyThread == []
      && Copies(row.replyThread[k], Chain(p)[k + 1], subs)
  }

  lemma {:induction false} BuiltCopiesAll(subs: map<Key, string>, p: Crawled, d: Delivery, feeds: set<string>)
    requires FreshIds(subs, d) && Placed(WithKeys(subs, Keys(p), d).Values, Tagged(subs, p, d), true)
    ensures CopiesAll(Built(Tagged(subs, p, d), true).(publishedFeeds := feeds), p, WithKeys(subs, Keys(p), d))
  {
    TaggedCopy(subs, Keys(p), p, d, true);
    if p.replyTo.Some? {
      forall k | 0 <= k < |Chain(p.replyTo.value)|
        ensures var thread := BuiltThread(Tagged(subs, p.replyTo.value, d));
                && |thread| == |Chain(p.replyTo.value)|
                && thread[k].inSharingChain && thread[k].replyThread == []
                && Copies(thread[k], Chain(p)[k + 1], WithKeys(subs, Keys(p), d))
      {
        ThreadCopies(subs, Keys(p), p.replyTo.value, d, k);
      }
      ThreadCopies(subs, Keys(p), p.replyTo.value, d, 0);
    }
  }

  /** What is appended for a stored message are copies of all its posts that get a row. */
  lemma {:induction false} StoredRowsAreCopies(judge: Judge, t: Tables, d: Delivery)
    requires Process(judge, t, d).result == Stored && FreshIds(t.subSources, d)
    ensures var after := Process(judge, t, d).tables;
            && |after.posts| == |t.posts| + 1 && after.posts[..|t.posts|] == t.posts
            && CopiesAll(Last(after.posts), d.decoding.post, after.subSources)
  {
    var row := Last(Process(judge, t, d).tables.posts);
    BuiltCopiesAll(t.subSources, d.decoding.post, d, row.publishedFeeds);
  }
}
