/**
 Conversion of a tweet and its reply chain to crawled posts, collector/instances/twitter_utils.go.
 Profiles are a map: a user name that is not in it is a failed fetch. Nil dereferences are panics.
 */
module TweetConversion {
  import opened Wrappers
  import opened TweetThreads

  const TIME_OFFSET_SECOND := 5

  datatype Profile = Profile(name: string, username: string)

  type Profiles = map<string, Profile>

  /** CrawlerMessage_CrawledPost, with its author in place of the whole subsource. */
  datatype CrawledPost = CrawledPost(
    deduplicateId: string,
    contentGeneratedAt: int,
    author: Profile,
    sharedFrom: Option<CrawledPost>,
    replyTo: Option<CrawledPost>)

  function GetTwitterCreationTime(tweet: Tweet, depth: nat): int {
    tweet.timestamp + depth * TIME_OFFSET_SECOND
  }

  /** ConvertSingleTweetToCrawledPost, of a possibly nil tweet. */
  function Single(tweet: Option<Tweet>, depth: nat, profiles: Profiles): Outcome<CrawledPost> {
    if tweet.None? then Panic
    else if tweet.value.username !in profiles then Error
    else Ok(CrawledPost(tweet.value.id, GetTwitterCreationTime(tweet.value, depth),
                        profiles[tweet.value.username], None, None))
  }

  /** The tweet a tweet refers to: a retweet wins over a quote. */
  function Reference(tweet: Tweet): Option<Option<Tweet>> {
    if tweet.isRetweet then Some(tweet.retweetedStatus)
    else if tweet.isQuoted then Some(tweet.quotedStatus)
    else None
  }

  /** ConvertTweetToCrawledPost: the tweet with the tweet it retweets or quotes. */
  function Layered(tweet: Tweet, depth: nat, profiles: Profiles): Outcome<CrawledPost> {
    var post :- Single(Some(tweet), depth, profiles);
    if Reference(tweet).None? then Ok(post)
    else
      var shared :- Single(Reference(tweet).value, depth, profiles);
      Ok(post.(sharedFrom := Some(shared)))
  }

  /** The tweet and the ancestors that conversion follows, newest first: a tweet that is not
      flagged as a reply ends the chain. */
  function ReplyChain(root: Tweet): (chain: seq<Tweet>)
    ensures chain != [] && chain[0] == root
  {
    [root] + if root.isReply && root.inReplyToStatus.Some? then ReplyChain(root.inReplyToStatus.value) else []
  }

  /** The posts along ReplyTo, newest first. */
  function PostChain(post: CrawledPost): (chain: seq<CrawledPost>)
    ensures chain != [] && chain[0] == post
  {
    [post] + if post.replyTo.Some? then PostChain(post.replyTo.value) else []
  }

  function Alone(post: CrawledPost): CrawledPost {
    post.(replyTo := None)
  }

  /** The post is the tweet converted by itself, at this depth, but for the reply chain. */
  ghost predicate ConvertsAt(tweet: Tweet, post: CrawledPost, depth: nat, profiles: Profiles) {
    Layered(tweet, depth, profiles) == Ok(Alone(post))
  }

  /** What the k-th post of a converted chain is: its own tweet, as deep as it has ancestors. */
  ghost predicate Converts(chain: seq<Tweet>, posts: seq<CrawledPost>, depth: nat, profiles: Profiles) {
    && |posts| == |chain|
    && forall k | 0 <= k < |chain| :: ConvertsAt(chain[k], posts[k], depth + |chain| - 1 - k, profiles)
  }

  /** The oldest tweet that does not convert, if there is one, decides how the conversion fails. */
  ghost predicate FailsAt(chain: seq<Tweet>, k: nat, profiles: Profiles)
    requires k < |chain|
  {
    && !Layered(chain[k], 0, profiles).Ok?
    && forall j | k < j < |chain| :: Layered(chain[j], 0, profiles).Ok?
  }

  /** Conversion stops at the k-th tweet, which decides the kind of failure, when it has counted the older
      ones. */
  ghost predicate StopsAt(chain: seq<Tweet>, k: nat, r: Outcome<CrawledPost>, before: int, after: int,
      profiles: Profiles)
  {
    && k < |chain| && FailsAt(chain, k, profiles)
    && (r.Panic? <==> Layered(chain[k], 0, profiles).Panic?)
    && after == before + |chain| - 1 - k
  }

  /** The author of a tweet has a profile; a retweet has the tweet it repeats, another quote the tweet it
      quotes, and the author of that has a profile too. */
  predicate HasAll(tweet: Tweet, profiles: Profiles) {
    var shared := if tweet.isRetweet then tweet.retweetedStatus else tweet.quotedStatus;
    && tweet.username in profiles
    && (tweet.isRetweet || tweet.isQuoted ==> shared.Some? && shared.value.username in profiles)
  }

  /** When a tweet converts by itself. A missing tweet panics, but only after the own profile was found; a
      missing profile is an error. */
  lemma {:induction false} LayeredIff(tweet: Tweet, depth: nat, profiles: Profiles)
    ensures Layered(tweet, depth, profiles).Ok? <==> HasAll(tweet, profiles)
    ensures Layered(tweet, depth, profiles).Panic? <==>
            && tweet.username in profiles
            && (if tweet.isRetweet then tweet.retweetedStatus.None? else tweet.isQuoted && tweet.quotedStatus.None?)
  {
  }

  lemma {:induction false} DepthDoesNotMatter(tweet: Tweet, a: nat, b: nat, profiles: Profiles)
    ensures Layered(tweet, a, profiles).Ok? <==> Layered(tweet, b, profiles).Ok?
    ensures Layered(tweet, a, profiles).Error? <==> Layered(tweet, b, profiles).Error?
  {
  }

  // ---------- the recursive converter ----------

  /** The *depth counter. */
  class Counter {
    var value: nat

    constructor ()
      ensures value == 0
    {
      value := 0;
    }
  }

  method ConvertSingleTweetToCrawledPost(tweet: Option<Tweet>, depth: Counter, profiles: Profiles)
    returns (r: Outcome<CrawledPost>)
    ensures r == Single(tweet, depth.value, profiles)
  {
    if tweet.None? {
      return Panic;
    }
    if tweet.value.username !in profiles {
      return Error;
    }
    var profile := profiles[tweet.value.username];
    return Ok(CrawledPost(tweet.value.id, GetTwitterCreationTime(tweet.value, depth.value), profile, None, None));
  }

  method ConvertTweetToCrawledPost(tweet: Tweet, depth: Counter, profiles: Profiles)
    returns (r: Outcome<CrawledPost>)
    ensures r == Layered(tweet, depth.value, profiles)
  {
    var post := ConvertSingleTweetToCrawledPost(Some(tweet), depth, profiles);
    if post.IsFailure() {
      return post;
    }
    var sharedPost: Option<CrawledPost> := None;
    if tweet.isRetweet {
      var shared := ConvertSingleTweetToCrawledPost(tweet.retweetedStatus, depth, profiles);
      if shared.IsFailure() {
        return shared;
      }
      sharedPost := Some(shared.value);
    } else if tweet.isQuoted {
      var shared := ConvertSingleTweetToCrawledPost(tweet.quotedStatus, depth, profiles);
      if shared.IsFailure() {
        return shared;
      }
      sharedPost := Some(shared.value);
    }
    return Ok(post.value.(sharedFrom := sharedPost));
  }

  /** ConvertTweetTreeToCrawledPostInternal: the chain keeps its length and order, the k-th tweet
      from the oldest is converted at depth k, and the counter has counted the converted tweets. */
  method ConvertTweetTreeToCrawledPostInternal(root: Tweet, depth: Counter, profiles: Profiles)
    returns (r: Outcome<CrawledPost>)
    modifies depth
    ensures r.Ok? ==> Converts(ReplyChain(root), PostChain(r.value), old(depth.value), profiles)
    ensures r.Ok? ==> depth.value == old(depth.value) + |ReplyChain(root)|
    ensures !r.Ok? ==> exists k: nat :: StopsAt(ReplyChain(root), k, r, old(depth.value), depth.value, profiles)
    decreases root
  {
    ghost var chain := ReplyChain(root);
    ghost var start := depth.value;
    var replyTweet: Option<CrawledPost> := None;
    if root.isReply && root.inReplyToStatus.Some? {
      ghost var older := ReplyChain(root.inReplyToStatus.value);
      assert chain == [root] + older && chain[1..] == older;
      var parent := ConvertTweetTreeToCrawledPostInternal(root.inReplyToStatus.value, depth, profiles);
      if parent.IsFailure() {
        ghost var k: nat :| StopsAt(older, k, parent, start, depth.value, profiles);
        StopExtends(root, older, k, parent, start, depth.value, profiles);
        assert StopsAt(chain, k + 1, parent, start, depth.value, profiles);
        return parent;
      }
      replyTweet := Some(parent.value);
    }
    DepthDoesNotMatter(root, depth.value, 0, profiles);
    var post := ConvertTweetToCrawledPost(root, depth, profiles);
    if post.IsFailure() {
      if replyTweet.Some? {
        OlderAllConvert(chain[1..], PostChain(replyTweet.value), start, profiles);
        FailureAtRoot(root, chain[1..], profiles);
      }
      assert StopsAt(chain, 0, post, start, depth.value, profiles);
      return post;
    }
    if replyTweet.Some? {
      post := Ok(post.value.(replyTo := replyTweet));
      ChainExtends(root, chain[1..], post.value, replyTweet.value, start, profiles);
    }
    depth.value := depth.value + 1;
    return post;
  }

  lemma {:induction false} StopExtends(root: Tweet, older: seq<Tweet>, k: nat, r: Outcome<CrawledPost>,
      before: int, after: int, profiles: Profiles)
    requires StopsAt(older, k, r, before, after, profiles)
    ensures StopsAt([root] + older, k + 1, r, before, after, profiles)
  {
    var chain := [root] + older;
    assert chain[k + 1] == older[k];
    assert forall j | k + 1 < j < |chain| :: chain[j] == older[j - 1];
  }

  lemma {:induction false} FailureAtRoot(root: Tweet, older: seq<Tweet>, profiles: Profiles)
    requires !Layered(root, 0, profiles).Ok?
    requires forall k | 0 <= k < |older| :: Layered(older[k], 0, profiles).Ok?
    ensures FailsAt([root] + older, 0, profiles)
  {
    var chain := [root] + older;
    assert forall j | 0 < j < |chain| :: chain[j] == older[j - 1];
  }

  lemma {:induction false} OlderAllConvert(chain: seq<Tweet>, posts: seq<CrawledPost>, depth: nat, profiles: Profiles)
    requires Converts(chain, posts, depth, profiles)
    ensures forall k | 0 <= k < |chain| :: Layered(chain[k], 0, profiles).Ok?
  {
    forall k | 0 <= k < |chain|
      ensures Layered(chain[k], 0, profiles).Ok?
    {
      DepthDoesNotMatter(chain[k], depth + |chain| - 1 - k, 0, profiles);
    }
  }

  lemma {:induction false} ChainExtends(root: Tweet, older: seq<Tweet>, post: CrawledPost, parent: CrawledPost,
      depth: nat, profiles: Profiles)
    requires Converts(older, PostChain(parent), depth, profiles)
    requires Layered(root, depth + |older|, profiles) == Ok(Alone(post)) && post.replyTo == Some(parent)
    ensures Converts([root] + older, PostChain(post), depth, profiles)
  {
    assert PostChain(post) == [post] + PostChain(parent);
    ConvertsNext(root, older, post, PostChain(parent), depth, profiles);
  }

  lemma {:induction false} ConvertsNext(tweet: Tweet, older: seq<Tweet>, post: CrawledPost, oldPosts: seq<CrawledPost>,
      depth: nat, profiles: Profiles)
    requires Converts(older, oldPosts, depth, profiles) && ConvertsAt(tweet, post, depth + |older|, profiles)
    ensures Converts([tweet] + older, [post] + oldPosts, depth, profiles)
  {
    var chain, posts := [tweet] + older, [post] + oldPosts;
    forall k | 0 <= k < |chain|
      ensures ConvertsAt(chain[k], posts[k], depth + |chain| - 1 - k, profiles)
    {
      if k > 0 {
        assert ConvertsAt(older[k - 1], oldPosts[k - 1], depth + |older| - 1 - (k - 1), profiles);
      }
    }
  }

  /** ConvertTweetTreeToCrawledPost: conversion succeeds exactly when every tweet of the chain and
      every tweet they refer to exists and has a profile. */
  method ConvertTweetTreeToCrawledPost(root: Tweet, profiles: Profiles) returns (r: Outcome<CrawledPost>)
    ensures r.Ok? <==> forall k | 0 <= k < |ReplyChain(root)| :: HasAll(ReplyChain(root)[k], profiles)
    ensures r.Ok? ==> Converts(ReplyChain(root), PostChain(r.value), 0, profiles)
  {
    forall k | 0 <= k < |ReplyChain(root)|
      ensures HasAll(ReplyChain(root)[k], profiles) <==> Layered(ReplyChain(root)[k], 0, profiles).Ok?
    {
      LayeredIff(ReplyChain(root)[k], 0, profiles);
    }
    var depth := new Counter();
    r := ConvertTweetTreeToCrawledPostInternal(root, depth, profiles);
    if r.Ok? {
      OlderAllConvert(ReplyChain(root), PostChain(r.value), 0, profiles);
    }
  }

  // ---------- what conversion promises ----------

  /** Each post carries its tweet's id, and the time of its tweet moved by 5 seconds for every
      ancestor; a referenced post is moved by as much. */
  lemma {:induction false} TimesAndIds(chain: seq<Tweet>, posts: seq<CrawledPost>, depth: nat, profiles: Profiles,
      k: nat)
    requires Converts(chain, posts, depth, profiles) && k < |chain|
    ensures posts[k].deduplicateId == chain[k].id
    ensures posts[k].contentGeneratedAt == chain[k].timestamp + 5 * (depth + |chain| - 1 - k)
    ensures chain[k].username in profiles && posts[k].author == profiles[chain[k].username]
    ensures posts[k].sharedFrom.Some? <==> chain[k].isRetweet || chain[k].isQuoted
    ensures posts[k].sharedFrom.Some? ==>
              var shared := if chain[k].isRetweet then chain[k].retweetedStatus else chain[k].quotedStatus;
              && shared.Some? && shared.value.username in profiles
              && posts[k].sharedFrom.value.deduplicateId == shared.value.id
              && posts[k].sharedFrom.value.author == profiles[shared.value.username]
              && posts[k].sharedFrom.value.contentGeneratedAt ==
                 shared.value.timestamp + 5 * (depth + |chain| - 1 - k)
  {
    assert Layered(chain[k], depth + |chain| - 1 - k, profiles) == Ok(Alone(posts[k]));
  }

  /** Along a converted chain the times increase strictly towards the newest exactly when every
      tweet is younger than its parent minus 5 seconds; so equal or increasing tweet times do. */
  lemma {:induction false} TimesIncreaseIff(chain: seq<Tweet>, posts: seq<CrawledPost>, depth: nat, profiles: Profiles)
    requires Converts(chain, posts, depth, profiles)
    ensures (forall k | 0 < k < |posts| :: posts[k].contentGeneratedAt < posts[k - 1].contentGeneratedAt) <==>
            (forall k | 0 < k < |chain| :: chain[k].timestamp < chain[k - 1].timestamp + 5)
    ensures (forall k | 0 < k < |chain| :: chain[k].timestamp <= chain[k - 1].timestamp) ==>
              forall i, j | 0 <= i < j < |posts| :: posts[j].contentGeneratedAt < posts[i].contentGeneratedAt
  {
    forall k | 0 <= k < |chain|
      ensures posts[k].contentGeneratedAt == chain[k].timestamp + 5 * (depth + |chain| - 1 - k)
    {
      TimesAndIds(chain, posts, depth, profiles, k);
    }
    if forall k | 0 < k < |chain| :: chain[k].timestamp <= chain[k - 1].timestamp {
      forall i, j | 0 <= i < j < |posts|
        ensures chain[j].timestamp <= chain[i].timestamp
      {
        OlderIsEarlier(chain, i, j);
      }
    }
  }

  lemma {:induction false} OlderIsEarlier(chain: seq<Tweet>, i: nat, j: nat)
    requires i <= j < |chain|
    requires forall k | 0 < k < |chain| :: chain[k].timestamp <= chain[k - 1].timestamp
    ensures chain[j].timestamp <= chain[i].timestamp
    decreases j
  {
    if i == j {
    } else {
      OlderIsEarlier(chain, i, j - 1);
    }
  }

  /** A produced post shares at most one other, which neither shares nor replies. */
  lemma {:induction false} OneSharingLayer(chain: seq<Tweet>, posts: seq<CrawledPost>, depth: nat, profiles: Profiles)
    requires Converts(chain, posts, depth, profiles)
    ensures forall p | p in posts && p.sharedFrom.Some? ::
              p.sharedFrom.value.sharedFrom.None? && p.sharedFrom.value.replyTo.None?
  {
    forall p | p in posts && p.sharedFrom.Some?
      ensures p.sharedFrom.value.sharedFrom.None? && p.sharedFrom.value.replyTo.None?
    {
      var k :| 0 <= k < |posts| && posts[k] == p;
      assert Layered(chain[k], depth + |chain| - 1 - k, profiles) == Ok(Alone(posts[k]));
    }
  }

  // ---------- the chain that is filtered is not always the chain that is converted ----------

  /** Conversion keeps the whole thread the filter looked at exactly when every tweet with a parent
      is flagged as a reply. */
  lemma {:induction false} WholeThreadIsConvertedIff(root: Tweet)
    ensures ReplyChain(root) <= Ancestors(root)
    ensures ReplyChain(root) == Ancestors(root) <==>
            forall t | t in Ancestors(root) && t.inReplyToStatus.Some? :: t.isReply
  {
    var all := Ancestors(root);
    if root.inReplyToStatus.None? {
    } else {
      var rest := Ancestors(root.inReplyToStatus.value);
      assert all == [root] + rest;
      WholeThreadIsConvertedIff(root.inReplyToStatus.value);
      if root.isReply {
        assert ReplyChain(root)[1..] == ReplyChain(root.inReplyToStatus.value) && all[1..] == rest;
      }
    }
  }
}
