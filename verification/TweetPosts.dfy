/**
 From the tweets of a thread to the rows that are stored for it: the converter of
 collector/instances/twitter_utils.go in front of publisher/processor.go.
 */
module TweetPosts {
  import opened Wrappers
  import opened Sequences
  import opened TweetThreads
  import opened TweetConversion
  import P = Publisher

  /** The queue message of a converted tweet; its text is a function of the tweet's id. */
  function ToMessage(post: CrawledPost, sourceId: string, text: string -> string): P.Crawled {
    P.Crawled(post.deduplicateId, text(post.deduplicateId), post.contentGeneratedAt,
      P.Key(post.author.name, sourceId), "",
              if post.sharedFrom.Some? then Some(ToMessage(post.sharedFrom.value, sourceId, text)) else None,
              if post.replyTo.Some? then Some(ToMessage(post.replyTo.value, sourceId, text)) else None)
  }

  /** The root post and its stored reply thread. */
  function StoredThread(post: P.Post): seq<P.Post> {
    [post] + post.replyThread
  }

  lemma {:induction false} ThreadOfMessage(post: CrawledPost, sourceId: string, text: string -> string,
      subs: map<P.Key, string>, d: P.Delivery, k: nat)
    requires k < |PostChain(post)|
    ensures var p := P.Tagged(subs, ToMessage(post, sourceId, text), d);
            && |P.Chain(p)| == |PostChain(post)|
            && P.Chain(p)[k].deduplicateId == PostChain(post)[k].deduplicateId
            && P.Chain(p)[k].generatedAt == PostChain(post)[k].contentGeneratedAt
            && P.Chain(p)[k].sharedFrom.Some? == PostChain(post)[k].sharedFrom.Some?
  {
    if post.replyTo.None? {
    } else {
      ThreadOfMessage(post.replyTo.value, sourceId, text, subs, d, if k > 0 then k - 1 else 0);
    }
  }

  lemma {:induction false} StoredRow(p: P.Crawled, feeds: set<string>, k: nat)
    requires k < |P.Chain(p)|
    ensures var rows := StoredThread(P.Built(p, true).(publishedFeeds := feeds));
            && |rows| == |P.Chain(p)|
            && rows[k].deduplicateId == P.Chain(p)[k].deduplicateId
            && rows[k].generatedAt == P.Chain(p)[k].generatedAt
            && rows[k].sharedFrom.Some? == P.Chain(p)[k].sharedFrom.Some?
  {
    if p.replyTo.Some? {
      P.ThreadIsChain(p.replyTo.value);
    }
  }

  /** The rows are the tweets of the chain, the newest first, each 5 seconds later per ancestor, and
      with a shared post exactly for a retweet or quote. */
  ghost predicate Mirrors(rows: seq<P.Post>, chain: seq<Tweet>) {
    |rows| == |chain| && forall k | 0 <= k < |chain| :: RowOf(rows[k], chain[k], |chain| - 1 - k)
  }

  ghost predicate RowOf(row: P.Post, tweet: Tweet, ancestors: int) {
    && row.deduplicateId == tweet.id
    && row.generatedAt == tweet.timestamp + 5 * ancestors
    && (row.sharedFrom.Some? <==> tweet.isRetweet || tweet.isQuoted)
  }

  /** The stored post, as Process appends it. */
  lemma {:induction false} StoredPostIsBuilt(judge: P.Judge, t: P.Tables, d: P.Delivery, p: P.Crawled)
    requires d.decoding == P.Message(p) && P.Process(judge, t, d).result == P.Stored
    ensures var row := Last(P.Process(judge, t, d).tables.posts);
            row == P.Built(P.Tagged(t.subSources, p, d), true).(publishedFeeds := row.publishedFeeds)
  {
  }

  lemma {:induction false} BuiltThreadMirrors(root: Tweet, post: CrawledPost, profiles: Profiles, sourceId: string,
      text: string -> string, subs: map<P.Key, string>, d: P.Delivery, feeds: set<string>)
    requires Converts(ReplyChain(root), PostChain(post), 0, profiles)
    ensures var p := P.Tagged(subs, ToMessage(post, sourceId, text), d);
            Mirrors(StoredThread(P.Built(p, true).(publishedFeeds := feeds)), ReplyChain(root))
  {
    var chain, p := ReplyChain(root), P.Tagged(subs, ToMessage(post, sourceId, text), d);
    var rows := StoredThread(P.Built(p, true).(publishedFeeds := feeds));
    ThreadOfMessage(post, sourceId, text, subs, d, 0);
    StoredRow(p, feeds, 0);
    forall k | 0 <= k < |chain|
      ensures RowOf(rows[k], chain[k], |chain| - 1 - k)
    {
      ThreadOfMessage(post, sourceId, text, subs, d, k);
      StoredRow(p, feeds, k);
      TimesAndIds(chain, PostChain(post), 0, profiles, k);
    }
  }

  /** Five seconds per ancestor order the rows of a thread whose tweet times do not decrease. */
  lemma {:induction false} MirroredTimesIncrease(rows: seq<P.Post>, chain: seq<Tweet>, i: nat, j: nat)
    requires Mirrors(rows, chain) && i < j < |chain|
    requires forall k | 0 < k < |chain| :: chain[k].timestamp <= chain[k - 1].timestamp
    ensures rows[j].generatedAt < rows[i].generatedAt
  {
    assert RowOf(rows[j], chain[j], |chain| - 1 - j) && RowOf(rows[j - 1], chain[j - 1], |chain| - j);
    if i < j - 1 {
      MirroredTimesIncrease(rows, chain, i, j - 1);
    }
  }

  /** When the message of a converted tweet is stored, the post and its reply thread are the tweet's
      reply chain, and tweet times that do not decrease give strictly increasing post times. */
  lemma {:induction false} StoredThreadMirrorsTweets(judge: P.Judge, t: P.Tables, d: P.Delivery,
                                                    root: Tweet, post: CrawledPost, profiles: Profiles,
                                                      sourceId: string, text: string -> string)
    requires Converts(ReplyChain(root), PostChain(post), 0, profiles)
    requires d.decoding == P.Message(ToMessage(post, sourceId, text))
    requires P.Process(judge, t, d).result == P.Stored
    ensures var chain, rows := ReplyChain(root), StoredThread(Last(P.Process(judge, t, d).tables.posts));
            && Mirrors(rows, chain)
            && ((forall k | 0 < k < |chain| :: chain[k].timestamp <= chain[k - 1].timestamp) ==>
                  forall i, j | 0 <= i < j < |rows| :: rows[j].generatedAt < rows[i].generatedAt)
  {
    var chain, rows := ReplyChain(root), StoredThread(Last(P.Process(judge, t, d).tables.posts));
    StoredPostIsBuilt(judge, t, d, ToMessage(post, sourceId, text));
    var feeds := Last(P.Process(judge, t, d).tables.posts).publishedFeeds;
    BuiltThreadMirrors(root, post, profiles, sourceId, text, t.subSources, d, feeds);
    if forall k | 0 < k < |chain| :: chain[k].timestamp <= chain[k - 1].timestamp {
      forall i, j | 0 <= i < j < |rows|
        ensures rows[j].generatedAt < rows[i].generatedAt
      {
        MirroredTimesIncrease(rows, chain, i, j);
      }
    }
  }
}
