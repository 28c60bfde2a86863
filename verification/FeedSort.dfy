/** The display order of a page: sort.SliceStable on creation time, newest first. */
module FeedSort {
  import opened Sequences
  import opened FeedPaging

  function CreatedAt(t: int): Post -> bool {
    (p: Post) => p.contentGeneratedAt == t
  }

  /** Puts p behind every post that is not older than it. */
  function Insert(sorted: seq<Post>, p: Post): seq<Post> {
    if sorted != [] && sorted[0].contentGeneratedAt >= p.contentGeneratedAt
    then [sorted[0]] + Insert(sorted[1..], p)
    else [p] + sorted
  }

  /** sortPostsByCreationTime */
  function SortPostsByCreationTime(posts: seq<Post>): seq<Post> {
    if posts == [] then [] else Insert(SortPostsByCreationTime(posts[..|posts| - 1]), Last(posts))
  }

  ghost predicate NewestFirst(posts: seq<Post>) {
    forall i, j | 0 <= i < j < |posts| :: posts[i].contentGeneratedAt >= posts[j].contentGeneratedAt
  }

  /** Posts created at the same time come in the same order. */
  ghost predicate SameByTime(a: seq<Post>, b: seq<Post>) {
    forall t :: Filter(a, CreatedAt(t)) == Filter(b, CreatedAt(t))
  }

  lemma {:induction false} InsertPermutes(sorted: seq<Post>, p: Post)
    ensures multiset(Insert(sorted, p)) == multiset(sorted) + multiset{p}
  {
    if sorted == [] || sorted[0].contentGeneratedAt < p.contentGeneratedAt {
    } else {
      InsertPermutes(sorted[1..], p);
      assert sorted == [sorted[0]] + sorted[1..];
    }
  }

  lemma {:induction false} InsertOrders(sorted: seq<Post>, p: Post)
    requires NewestFirst(sorted)
    ensures NewestFirst(Insert(sorted, p))
  {
    if sorted == [] || sorted[0].contentGeneratedAt < p.contentGeneratedAt {
    } else {
      InsertOrders(sorted[1..], p);
      InsertPermutes(sorted[1..], p);
      var rest := Insert(sorted[1..], p);
      forall q | q in rest
        ensures sorted[0].contentGeneratedAt >= q.contentGeneratedAt
      {
        assert q in multiset(rest);
      }
    }
  }

  lemma {:induction false} InsertKeepsTime(sorted: seq<Post>, p: Post, t: int)
    requires NewestFirst(sorted)
    ensures Filter(Insert(sorted, p), CreatedAt(t)) == Filter(sorted + [p], CreatedAt(t))
  {
    FilterAppend(sorted, [p], CreatedAt(t));
    if sorted == [] || sorted[0].contentGeneratedAt < p.contentGeneratedAt {
      if t == p.contentGeneratedAt {
        FilterNothing(sorted, CreatedAt(t));
      }
    } else {
      InsertKeepsTime(sorted[1..], p, t);
      FilterAppend(sorted[1..], [p], CreatedAt(t));
    }
  }

  /** The sort orders, permutes and is stable. */
  lemma {:induction false} SortFacts(posts: seq<Post>)
    ensures NewestFirst(SortPostsByCreationTime(posts))
    ensures multiset(SortPostsByCreationTime(posts)) == multiset(posts)
    ensures SameByTime(SortPostsByCreationTime(posts), posts)
  {
    if posts == [] {
    } else {
      var init := posts[..|posts| - 1];
      var p := Last(posts);
      SortFacts(init);
      InsertOrders(SortPostsByCreationTime(init), p);
      InsertPermutes(SortPostsByCreationTime(init), p);
      assert posts == init + [p];
      forall t
        ensures Filter(SortPostsByCreationTime(posts), CreatedAt(t)) == Filter(posts, CreatedAt(t))
      {
        InsertKeepsTime(SortPostsByCreationTime(init), p, t);
        FilterAppend(SortPostsByCreationTime(init), [p], CreatedAt(t));
        FilterAppend(init, [p], CreatedAt(t));
      }
    }
  }

  lemma {:induction false} SameByTimeHead(a: seq<Post>, b: seq<Post>)
    requires a != [] && NewestFirst(b) && SameByTime(a, b)
    ensures b != [] && b[0].contentGeneratedAt >= a[0].contentGeneratedAt
  {
    var t := a[0].contentGeneratedAt;
    FilterMembers(a, CreatedAt(t));
    FilterMembers(b, CreatedAt(t));
    assert a[0] in Filter(b, CreatedAt(t));
  }

  lemma {:induction false} TailFilter(a: seq<Post>, t: int)
    requires a != []
    ensures Filter(a[1..], CreatedAt(t)) ==
            if a[0].contentGeneratedAt == t then Filter(a, CreatedAt(t))[1..] else Filter(a, CreatedAt(t))
  {
  }

  /** There is only one such order, so any stable sort gives it. */
  lemma {:induction false} StableSortIsUnique(a: seq<Post>, b: seq<Post>)
    requires NewestFirst(a) && NewestFirst(b) && SameByTime(a, b)
    ensures a == b
  {
    if a == [] {
      if b != [] {
        SameByTimeHead(b, a);
      }
    } else {
      SameByTimeHead(a, b);
      SameByTimeHead(b, a);
      var t := a[0].contentGeneratedAt;
      assert Filter(a, CreatedAt(t))[0] == a[0] && Filter(b, CreatedAt(t))[0] == b[0];
      forall u
        ensures Filter(a[1..], CreatedAt(u)) == Filter(b[1..], CreatedAt(u))
      {
        TailFilter(a, u);
        TailFilter(b, u);
      }
      StableSortIsUnique(a[1..], b[1..]);
      assert a == [a[0]] + a[1..] && b == [b[0]] + b[1..];
    }
  }
}
