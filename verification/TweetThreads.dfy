/**
 Incomplete thread filtering of collector/instances/twitter_utils.go: a string suffix test on
 concatenated ids stands for "is an ancestor thread of".
 */
module TweetThreads {
  import opened Wrappers

  /** The fields of twitterscraper.Tweet that the collector reads. */
  datatype Tweet = Tweet(
    id: string,
    username: string,
    timestamp: int,
    isReply: bool,
    isRetweet: bool,
    isQuoted: bool,
    inReplyToStatus: Option<Tweet>,
    retweetedStatus: Option<Tweet>,
    quotedStatus: Option<Tweet>)

  /** A tweet and its ancestors, newest first. */
  function Ancestors(tweet: Tweet): (r: seq<Tweet>)
    ensures r != [] && r[0] == tweet
  {
    [tweet] + if tweet.inReplyToStatus.Some? then Ancestors(tweet.inReplyToStatus.value) else []
  }

  function TweetIds(tweets: seq<Tweet>): (ids: seq<string>) {
    seq(|tweets|, i requires 0 <= i < |tweets| => tweets[i].id)
  }

  /** The ids of a thread. */
  function Thread(tweet: Tweet): seq<string> {
    TweetIds(Ancestors(tweet))
  }

  function Concat(ids: seq<string>): string {
    if ids == [] then "" else ids[0] + Concat(ids[1..])
  }

  function Signature(tweet: Tweet): string {
    Concat(Thread(tweet))
  }

  /** strings.HasSuffix, for sequences of anything */
  predicate IsSuffix<T(==)>(s: seq<T>, whole: seq<T>) {
    |s| <= |whole| && whole[|whole| - |s|..] == s
  }

  lemma {:induction false} SuffixIff<T>(s: seq<T>, whole: seq<T>)
    ensures IsSuffix(s, whole) <==> exists before :: whole == before + s
  {
    if IsSuffix(s, whole) {
      assert whole == whole[..|whole| - |s|] + s;
    }
    if before :| whole == before + s {
      assert whole[|before|..] == s;
    }
  }

  /** The source's test: needle's signature is a suffix of hay's. */
  predicate Covers(hay: Tweet, needle: Tweet) {
    IsSuffix(Signature(needle), Signature(hay))
  }

  lemma {:induction false} SignatureStep(tweet: Tweet)
    ensures Signature(tweet) ==
            tweet.id + if tweet.inReplyToStatus.Some? then Signature(tweet.inReplyToStatus.value) else ""
  {
    var older := if tweet.inReplyToStatus.Some? then Ancestors(tweet.inReplyToStatus.value) else [];
    var rest := TweetIds(older);
    assert Ancestors(tweet) == [tweet] + older;
    assert Thread(tweet) == [tweet.id] + rest;
    assert Thread(tweet)[1..] == rest;
    assert Concat(Thread(tweet)) == tweet.id + Concat(rest);
    assert rest == [] ==> Concat(rest) == "";
  }

  // ---------- the loops ----------

  method CalcTweetSignature(tweet: Tweet) returns (signature: string)
    ensures signature == Signature(tweet)
  {
    signature := "";
    var cursor := Some(tweet);
    while cursor.Some?
      invariant Signature(tweet) == signature + if cursor.Some? then Signature(cursor.value) else ""
      decreases cursor
    {
      var current := cursor.value;
      SignatureStep(current);
      signature := signature + current.id;
      cursor := current.inReplyToStatus;
    }
  }

  method IsTweetIncluded(needle: Tweet, hay: seq<Tweet>) returns (included: bool)
    ensures included <==> exists h :: h in hay && Covers(h, needle)
  {
    var sigNeedle := CalcTweetSignature(needle);
    for i := 0 to |hay|
      invariant forall k | 0 <= k < i :: !Covers(hay[k], needle)
    {
      var sigHay := CalcTweetSignature(hay[i]);
      if IsSuffix(sigNeedle, sigHay) {
        assert hay[i] in hay && Covers(hay[i], needle);
        return true;
      }
    }
    return false;
  }

  /** The tweets that no earlier tweet of the input covers. */
  function Complete(tweets: seq<Tweet>): seq<Tweet> {
    if tweets == [] then []
    else
      var init := tweets[..|tweets| - 1];
      var last := tweets[|tweets| - 1];
      Complete(init) + if exists t :: t in init && Covers(t, last) then [] else [last]
  }

  lemma {:induction false} CoversIsPreorder(a: Tweet, b: Tweet, c: Tweet)
    ensures Covers(a, a)
    ensures Covers(a, b) && Covers(b, c) ==> Covers(a, c)
  {
    if Covers(a, b) && Covers(b, c) {
      var x, y, z := Signature(a), Signature(b), Signature(c);
      assert x[|x| - |z|..] == x[|x| - |y|..][|y| - |z|..];
    }
  }

  /** Every tweet is covered by a kept one at or before its own place. */
  lemma {:induction false} CoveredByKept(tweets: seq<Tweet>, t: Tweet)
    requires t in tweets
    ensures exists k :: k in Complete(tweets) && Covers(k, t)
  {
    var init := tweets[..|tweets| - 1];
    var last := tweets[|tweets| - 1];
    assert tweets == init + [last];
    if t in init {
      CoveredByKept(init, t);
      var k :| k in Complete(init) && Covers(k, t);
      assert k in Complete(tweets);
    } else if u :| u in init && Covers(u, last) {
      CoveredByKept(init, u);
      var k :| k in Complete(init) && Covers(k, u);
      CoversIsPreorder(k, u, last);
      assert k in Complete(tweets);
    } else {
      CoversIsPreorder(last, last, last);
      assert last in Complete(tweets);
    }
  }

  lemma {:induction false} KeptAreInput(tweets: seq<Tweet>)
    ensures forall k :: k in Complete(tweets) ==> k in tweets
    ensures |Complete(tweets)| <= |tweets|
  {
    if tweets == [] {
    } else {
      KeptAreInput(tweets[..|tweets| - 1]);
      assert tweets == tweets[..|tweets| - 1] + [tweets[|tweets| - 1]];
    }
  }

  /** To be covered by the input is to be covered by what is kept of it. */
  lemma {:induction false} CoveredIffByKept(tweets: seq<Tweet>, tweet: Tweet)
    ensures (exists t :: t in Complete(tweets) && Covers(t, tweet)) <==> (exists t :: t in tweets && Covers(t, tweet))
  {
    KeptAreInput(tweets);
    if t :| t in tweets && Covers(t, tweet) {
      CoveredByKept(tweets, t);
      var k :| k in Complete(tweets) && Covers(k, t);
      CoversIsPreorder(k, t, tweet);
    }
  }

  /** FilterIncompleteTweet compares only with what it has kept so far, and yet keeps exactly the
      tweets that no earlier input tweet covers. */
  method FilterIncompleteTweet(tweets: seq<Tweet>) returns (res: seq<Tweet>)
    ensures res == Complete(tweets)
  {
    res := [];
    assert tweets[..0] == [];
    for i := 0 to |tweets|
      invariant res == Complete(tweets[..i])
    {
      var tweet := tweets[i];
      assert tweets[..i + 1][..i] == tweets[..i] && tweets[..i + 1][i] == tweet;
      CoveredIffByKept(tweets[..i], tweet);
      var included := IsTweetIncluded(tweet, res);
      if included {
        continue;
      }
      res := res + [tweet];
    }
    assert tweets[..|tweets|] == tweets;
  }

  // ---------- what is kept ----------

  /** No kept thread is covered by an earlier kept one. */
  lemma {:induction false} KeptAreIrredundant(tweets: seq<Tweet>)
    ensures forall i, j | 0 <= i < j < |Complete(tweets)| :: !Covers(Complete(tweets)[i], Complete(tweets)[j])
  {
    if tweets == [] {
    } else {
      var init := tweets[..|tweets| - 1];
      KeptAreIrredundant(init);
      KeptAreInput(init);
      forall i | 0 <= i < |Complete(init)|
        ensures Complete(init)[i] in init
      {
        assert Complete(init)[i] in Complete(init);
      }
    }
  }

  lemma {:induction false} IrredundantIsComplete(tweets: seq<Tweet>)
    requires forall i, j | 0 <= i < j < |tweets| :: !Covers(tweets[i], tweets[j])
    ensures Complete(tweets) == tweets
  {
    if tweets == [] {
    } else {
      var init := tweets[..|tweets| - 1];
      IrredundantIsComplete(init);
      assert tweets == init + [tweets[|tweets| - 1]];
      forall t | t in init
        ensures !Covers(t, tweets[|tweets| - 1])
      {
        var m :| 0 <= m < |init| && init[m] == t;
        assert tweets[m] == t;
      }
    }
  }

  /** Filtering again changes nothing. */
  lemma {:induction false} FilterIsIdempotent(tweets: seq<Tweet>)
    ensures Complete(Complete(tweets)) == Complete(tweets)
  {
    KeptAreIrredundant(tweets);
    IrredundantIsComplete(Complete(tweets));
  }

  ghost predicate Incomparable(tweets: seq<Tweet>) {
    forall i, j | 0 <= i < |tweets| && 0 <= j < |tweets| && i != j :: !Covers(tweets[i], tweets[j])
  }

  /** A thread may only be extended later when something before it covers it. */
  ghost predicate LateExtensionsAreCovered(tweets: seq<Tweet>) {
    forall i, j | 0 <= i < j < |tweets| && Covers(tweets[j], tweets[i]) :: CoveredBefore(tweets, i)
                                                                          || CoveredBefore(tweets, j)
  }

  ghost predicate CoveredBefore(tweets: seq<Tweet>, i: nat)
    requires i < |tweets|
  {
    exists m | 0 <= m < i :: Covers(tweets[m], tweets[i])
  }

  /** Where a kept tweet stands in the input, in the same order. */
  lemma {:induction false} KeptPosition(tweets: seq<Tweet>, a: nat, b: nat) returns (i: nat, j: nat)
    requires a < b < |Complete(tweets)|
    ensures i < j < |tweets| && tweets[i] == Complete(tweets)[a] && tweets[j] == Complete(tweets)[b]
    ensures !CoveredBefore(tweets, i) && !CoveredBefore(tweets, j)
  {
    var last := |tweets| - 1;
    var init := tweets[..last];
    assert tweets == init + [tweets[last]];
    if b < |Complete(init)| {
      i, j := KeptPosition(init, a, b);
      assert forall m | 0 <= m < last :: tweets[m] == init[m];
    } else {
      i := KeptOne(init, a);
      j := last;
      assert forall m | 0 <= m < last :: tweets[m] == init[m] && init[m] in init;
    }
  }

  lemma {:induction false} KeptOne(tweets: seq<Tweet>, a: nat) returns (i: nat)
    requires a < |Complete(tweets)|
    ensures i < |tweets| && tweets[i] == Complete(tweets)[a] && !CoveredBefore(tweets, i)
  {
    var last := |tweets| - 1;
    var init := tweets[..last];
    assert tweets == init + [tweets[last]];
    assert forall m | 0 <= m < last :: tweets[m] == init[m] && init[m] in init;
    if a < |Complete(init)| {
      i := KeptOne(init, a);
    } else {
      i := last;
    }
  }

  lemma {:induction false} UncoveredIsKept(tweets: seq<Tweet>, i: nat, j: nat)
    requires i < j < |tweets| && !CoveredBefore(tweets, i) && !CoveredBefore(tweets, j)
    ensures exists a, b ::
              0 <= a < b < |Complete(tweets)| && Complete(tweets)[a] == tweets[i] && Complete(tweets)[b] == tweets[j]
  {
    var last := |tweets| - 1;
    var init := tweets[..last];
    assert tweets == init + [tweets[last]];
    assert forall m | 0 <= m < last :: tweets[m] == init[m];
    if j < last {
      UncoveredIsKept(init, i, j);
      var a, b :| 0 <= a < b < |Complete(init)| && Complete(init)[a] == tweets[i] && Complete(init)[b] == tweets[j];
      assert Complete(tweets)[a] == tweets[i] && Complete(tweets)[b] == tweets[j];
    } else {
      var a := UncoveredOneIsKept(init, i);
      forall t | t in init
        ensures !Covers(t, tweets[last])
      {
        var m :| 0 <= m < last && init[m] == t;
        assert tweets[m] == t;
      }
      assert Complete(tweets)[a] == tweets[i] && Complete(tweets)[|Complete(init)|] == tweets[j];
    }
  }

  lemma {:induction false} UncoveredOneIsKept(tweets: seq<Tweet>, i: nat) returns (a: nat)
    requires i < |tweets| && !CoveredBefore(tweets, i)
    ensures a < |Complete(tweets)| && Complete(tweets)[a] == tweets[i]
  {
    var last := |tweets| - 1;
    var init := tweets[..last];
    assert tweets == init + [tweets[last]];
    assert forall m | 0 <= m < last :: tweets[m] == init[m];
    if i < last {
      a := UncoveredOneIsKept(init, i);
    } else {
      a := |Complete(init)|;
      forall t | t in init
        ensures !Covers(t, tweets[last])
      {
        var m :| 0 <= m < last && init[m] == t;
        assert tweets[m] == t;
      }
    }
  }

  /** A tweet is kept exactly when it stands somewhere in the input where no tweet before it has a signature
      that ends in its own. */
  lemma {:induction false} KeptIff(tweets: seq<Tweet>, t: Tweet)
    ensures t in Complete(tweets) <==>
            exists i | 0 <= i < |tweets| ::
              tweets[i] == t && forall k, before | 0 <= k < i :: Signature(tweets[k]) != before + Signature(t)
  {
    forall h: Tweet
      ensures Covers(h, t) <==> exists before :: Signature(h) == before + Signature(t)
    {
      SuffixIff(Signature(t), Signature(h));
    }
    if t in Complete(tweets) {
      var a :| 0 <= a < |Complete(tweets)| && Complete(tweets)[a] == t;
      var i := KeptOne(tweets, a);
    }
    if i :| 0 <= i < |tweets| && tweets[i] == t
            && forall k, before | 0 <= k < i :: Signature(tweets[k]) != before + Signature(t) {
      assert !CoveredBefore(tweets, i);
      var a := UncoveredOneIsKept(tweets, i);
    }
  }

  /** The result has no thread inside another exactly when no input thread is extended by a later
      one, unless an earlier thread covers one of the two. Reverse chronological input is enough. */
  lemma {:induction false} ResultIsIncomparableIff(tweets: seq<Tweet>)
    ensures Incomparable(Complete(tweets)) <==> LateExtensionsAreCovered(tweets)
  {
    var kept := Complete(tweets);
    KeptAreIrredundant(tweets);
    if LateExtensionsAreCovered(tweets) {
      forall a, b | 0 <= a < b < |kept|
        ensures !Covers(kept[b], kept[a])
      {
        var i, j := KeptPosition(tweets, a, b);
      }
    } else {
      var i, j :| 0 <= i < j < |tweets| && Covers(tweets[j], tweets[i])
                  && !CoveredBefore(tweets, i) && !CoveredBefore(tweets, j);
      UncoveredIsKept(tweets, i, j);
      var a, b :| 0 <= a < b < |kept| && kept[a] == tweets[i] && kept[b] == tweets[j];
      assert Covers(kept[b], kept[a]);
    }
  }

  // ---------- when the string test decides containment ----------

  ghost predicate Over(allowed: set<string>, ids: seq<string>) {
    ids != [] && forall id | id in ids :: id in allowed
  }

  /** No id is empty and none ends in another one. */
  ghost predicate NoIdEndsInAnother(allowed: set<string>) {
    "" !in allowed && forall a, b | a in allowed && b in allowed && IsSuffix(a, b) :: a == b
  }

  /** The test on signatures is right for all threads over these ids. */
  ghost predicate TestIsExact(allowed: set<string>) {
    forall needle, hay | Over(allowed, needle) && Over(allowed, hay) ::
      IsSuffix(Concat(needle), Concat(hay)) <==> IsSuffix(needle, hay)
  }

  lemma {:induction false} ConcatAppend(a: seq<string>, b: seq<string>)
    ensures Concat(a + b) == Concat(a) + Concat(b)
  {
    if a == [] {
      assert a + b == b;
    } else {
      assert (a + b)[0] == a[0] && (a + b)[1..] == a[1..] + b;
      ConcatAppend(a[1..], b);
    }
  }

  lemma {:induction false} SplitLast(ids: seq<string>)
    requires ids != []
    ensures ids == ids[..|ids| - 1] + [ids[|ids| - 1]]
    ensures Concat(ids) == Concat(ids[..|ids| - 1]) + ids[|ids| - 1]
  {
    var init, last := ids[..|ids| - 1], ids[|ids| - 1];
    assert ids == init + [last];
    ConcatAppend(init, [last]);
    assert Concat([last]) == last + Concat([]);
  }

  /** Whatever the ids, a thread inside another is always recognised. */
  lemma {:induction false} ContainedIsRecognised(needle: seq<string>, hay: seq<string>)
    requires IsSuffix(needle, hay)
    ensures IsSuffix(Concat(needle), Concat(hay))
  {
    var rest := hay[..|hay| - |needle|];
    assert hay == rest + needle;
    ConcatAppend(rest, needle);
  }

  lemma {:induction false} SuffixesOfOne(a: string, b: string, whole: string)
    requires IsSuffix(a, whole) && IsSuffix(b, whole) && |a| <= |b|
    ensures IsSuffix(a, b)
  {
    assert b[|b| - |a|..] == whole[|whole| - |b|..][|b| - |a|..];
  }

  lemma {:induction false} StripLast(p: string, q: string, last: string)
    requires IsSuffix(p + last, q + last)
    ensures IsSuffix(p, q)
  {
    var pl, ql := p + last, q + last;
    assert ql[|ql| - |pl|..] == pl;
    assert q[|q| - |p|..] == ql[|ql| - |pl|..][..|p|];
    assert pl[..|p|] == p;
  }

  lemma {:induction false} LastIdsAgree(allowed: set<string>, a: string, b: string, whole: string)
    requires NoIdEndsInAnother(allowed) && a in allowed && b in allowed
    requires IsSuffix(a, whole) && IsSuffix(b, whole)
    ensures a == b
  {
    if |a| <= |b| {
      SuffixesOfOne(a, b, whole);
    } else {
      SuffixesOfOne(b, a, whole);
    }
  }

  lemma {:induction false} RecognisedIsContained(allowed: set<string>, needle: seq<string>, hay: seq<string>)
    requires NoIdEndsInAnother(allowed)
    requires forall id | id in needle :: id in allowed
    requires forall id | id in hay :: id in allowed
    requires IsSuffix(Concat(needle), Concat(hay))
    ensures IsSuffix(needle, hay)
  {
    if needle == [] {
    } else {
      var n, lastN := needle[..|needle| - 1], needle[|needle| - 1];
      SplitLast(needle);
      EndsInLast(Concat(n), lastN, Concat(hay));
      assert lastN in needle && lastN != "";
      assert hay != [];
      var h, lastH := hay[..|hay| - 1], hay[|hay| - 1];
      SplitLast(hay);
      assert lastH in hay;
      assert Concat(hay)[|Concat(h)|..] == lastH;
      LastIdsAgree(allowed, lastN, lastH, Concat(hay));
      StripLast(Concat(n), Concat(h), lastN);
      RecognisedIsContained(allowed, n, h);
      SuffixWithLast(n, h, lastN);
    }
  }

  lemma {:induction false} SuffixWithLast(n: seq<string>, h: seq<string>, last: string)
    requires IsSuffix(n, h)
    ensures IsSuffix(n + [last], h + [last])
  {
    var whole := h + [last];
    assert whole[|whole| - |n| - 1..] == h[|h| - |n|..] + [last];
  }

  lemma {:induction false} EndsInLast(p: string, last: string, whole: string)
    requires IsSuffix(p + last, whole)
    ensures IsSuffix(last, whole)
  {
    assert whole[|whole| - |last|..] == whole[|whole| - |p + last|..][|p|..];
    assert (p + last)[|p|..] == last;
  }

  /** The suffix test on signatures decides thread containment, for all threads over a set of ids,
      exactly when no id is empty and none ends in another one. */
  lemma {:induction false} TestIsExactIff(allowed: set<string>)
    ensures TestIsExact(allowed) <==> NoIdEndsInAnother(allowed)
  {
    if NoIdEndsInAnother(allowed) {
      forall needle, hay | Over(allowed, needle) && Over(allowed, hay)
        ensures IsSuffix(Concat(needle), Concat(hay)) <==> IsSuffix(needle, hay)
      {
        if IsSuffix(needle, hay) {
          ContainedIsRecognised(needle, hay);
        }
        if IsSuffix(Concat(needle), Concat(hay)) {
          RecognisedIsContained(allowed, needle, hay);
        }
      }
    } else if "" in allowed {
      var needle, hay := ["", ""], [""];
      assert needle[1..] == hay && Concat([""]) == "" && Concat(needle) == "";
      assert Over(allowed, needle) && Over(allowed, hay);
      assert !(IsSuffix(Concat(needle), Concat(hay)) <==> IsSuffix(needle, hay));
    } else {
      var a, b :| a in allowed && b in allowed && IsSuffix(a, b) && a != b;
      SplitLast([a]);
      SplitLast([b]);
      assert Concat([a]) == a && Concat([b]) == b;
      assert Over(allowed, [a]) && Over(allowed, [b]);
      assert [b][0] != [a][0];
      assert !(IsSuffix(Concat([a]), Concat([b])) <==> IsSuffix([a], [b]));
    }
  }

  /** Ids of one common positive length are such a set. */
  lemma {:induction false} SameLengthIdsAreExact(allowed: set<string>, n: nat)
    requires n > 0 && forall id | id in allowed :: |id| == n
    ensures TestIsExact(allowed)
  {
    forall a, b | a in allowed && b in allowed && IsSuffix(a, b)
      ensures a == b
    {
      assert b[0..] == b;
    }
    TestIsExactIff(allowed);
  }

  /** For tweets over such ids, one covers another exactly when it is that tweet's thread, possibly
      with newer replies in front. */
  lemma {:induction false} CoversIsThreadContainment(allowed: set<string>, hay: Tweet, needle: Tweet)
    requires NoIdEndsInAnother(allowed)
    requires Over(allowed, Thread(hay)) && Over(allowed, Thread(needle))
    ensures Covers(hay, needle) <==> IsSuffix(Thread(needle), Thread(hay))
  {
    TestIsExactIff(allowed);
  }

  /** In reverse chronological input, where no later tweet properly extends an earlier one, the
      kept threads are exactly the maximal ones. */
  lemma {:induction false} KeptAreMaximal(tweets: seq<Tweet>, t: Tweet)
    requires forall i, j | 0 <= i < j < |tweets| && Covers(tweets[j], tweets[i]) :: Covers(tweets[i], tweets[j])
    requires t in tweets
    ensures (exists k :: k in Complete(tweets) && Covers(k, t) && Covers(t, k)) <==>
            (forall u | u in tweets && Covers(u, t) :: Covers(t, u))
  {
    CoveredByKept(tweets, t);
    KeptAreInput(tweets);
    var k :| k in Complete(tweets) && Covers(k, t);
    if m :| m in Complete(tweets) && Covers(m, t) && Covers(t, m) {
      forall u | u in tweets && Covers(u, t)
        ensures Covers(t, u)
      {
        CoversIsPreorder(u, t, m);
        var a :| 0 <= a < |Complete(tweets)| && Complete(tweets)[a] == m;
        var i := KeptOne(tweets, a);
        var j :| 0 <= j < |tweets| && tweets[j] == u;
        assert Covers(tweets[j], tweets[i]);
        CoversIsPreorder(t, m, u);
        CoversIsPreorder(m, m, m);
      }
    }
  }
}
