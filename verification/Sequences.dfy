/** Filtering and cutting sequences. */
module Sequences {

  function Filter<T>(s: seq<T>, p: T -> bool): seq<T> {
    if s == [] then [] else (if p(s[0]) then [s[0]] else []) + Filter(s[1..], p)
  }

  function Take<T>(n: nat, s: seq<T>): seq<T> {
    if n <= |s| then s[..n] else s
  }

  function Last<T>(s: seq<T>): T
    requires s != []
  {
    s[|s| - 1]
  }

  lemma {:induction false} FilterAppend<T>(a: seq<T>, b: seq<T>, p: T -> bool)
    ensures Filter(a + b, p) == Filter(a, p) + Filter(b, p)
  {
    if a == [] {
      assert a + b == b;
    } else {
      var head := if p(a[0]) then [a[0]] else [];
      assert (a + b)[0] == a[0] && (a + b)[1..] == a[1..] + b;
      FilterAppend(a[1..], b, p);
      assert Filter(a + b, p) == head + Filter(a[1..] + b, p);
      assert Filter(a, p) == head + Filter(a[1..], p);
    }
  }

  lemma {:induction false} FilterMembers<T>(s: seq<T>, p: T -> bool)
    ensures forall x :: x in Filter(s, p) <==> x in s && p(x)
    ensures |Filter(s, p)| <= |s|
  {
    if s == [] {
    } else {
      FilterMembers(s[1..], p);
      assert s == [s[0]] + s[1..];
    }
  }

  /** Where the k-th selected element sits, and what is selected after it. */
  lemma {:induction false} FilterPosition<T>(s: seq<T>, p: T -> bool, k: nat) returns (m: nat)
    requires k < |Filter(s, p)|
    ensures m < |s| && s[m] == Filter(s, p)[k]
    ensures Filter(s, p)[k + 1..] == Filter(s[m + 1..], p)
  {
    var rest := Filter(s[1..], p);
    if p(s[0]) {
      assert Filter(s, p) == [s[0]] + rest;
      if k == 0 {
        m := 0;
      } else {
        m := FilterPosition(s[1..], p, k - 1);
        m := m + 1;
        assert s[1..][m..] == s[m + 1..];
      }
    } else {
      assert Filter(s, p) == rest;
      m := FilterPosition(s[1..], p, k);
      m := m + 1;
      assert s[1..][m..] == s[m + 1..];
    }
  }

  lemma {:induction false} FilterOfFilter<T>(s: seq<T>, p: T -> bool, q: T -> bool, both: T -> bool)
    requires forall x | x in s :: both(x) <==> p(x) && q(x)
    ensures Filter(Filter(s, p), q) == Filter(s, both)
  {
    if s == [] {
    } else {
      FilterOfFilter(s[1..], p, q, both);
      var rest := Filter(s[1..], p);
      if p(s[0]) {
        assert Filter(s, p) == [s[0]] + rest && ([s[0]] + rest)[1..] == rest;
      } else {
        assert Filter(s, p) == rest;
      }
    }
  }

  lemma {:induction false} FilterSame<T>(s: seq<T>, p: T -> bool, q: T -> bool)
    requires forall x | x in s :: p(x) == q(x)
    ensures Filter(s, p) == Filter(s, q)
  {
    if s == [] {
    } else {
      FilterSame(s[1..], p, q);
    }
  }

  lemma {:induction false} FilterNothing<T>(s: seq<T>, p: T -> bool)
    requires forall x | x in s :: !p(x)
    ensures Filter(s, p) == []
  {
    if s == [] {
    } else {
      FilterNothing(s[1..], p);
    }
  }

  lemma {:induction false} FilterOfPrefix<T>(s: seq<T>, k: nat, p: T -> bool)
    requires k <= |s|
    ensures Filter(s[..k], p) <= Filter(s, p)
    ensures Filter(s, p) == Filter(s[..k], p) + Filter(s[k..], p)
  {
    assert s == s[..k] + s[k..];
    FilterAppend(s[..k], s[k..], p);
  }

  /** A stronger filter that is closed towards the front selects a prefix of the weaker one. */
  lemma {:induction false} FilterIsPrefix<T>(s: seq<T>, strong: T -> bool, weak: T -> bool)
    requires forall x | x in s && strong(x) :: weak(x)
    requires forall i, j | 0 <= i < j < |s| && weak(s[i]) && strong(s[j]) :: strong(s[i])
    ensures Filter(s, strong) <= Filter(s, weak)
  {
    if s == [] {
    } else {
      if weak(s[0]) && !strong(s[0]) {
        forall x | x in s
          ensures !strong(x)
        {
          var j :| 0 <= j < |s| && s[j] == x;
        }
        FilterNothing(s, strong);
      } else {
        assert forall i, j | 0 <= i < j < |s[1..]| && weak(s[1..][i]) && strong(s[1..][j]) :: strong(s[1 + i]) by {
          assert forall i | 0 <= i < |s[1..]| :: s[1..][i] == s[1 + i];
        }
        FilterIsPrefix(s[1..], strong, weak);
      }
    }
  }

  lemma {:induction false} TakeOfPrefix<T>(n: nat, a: seq<T>, b: seq<T>)
    requires a <= b
    ensures n <= |a| ==> Take(n, a) == Take(n, b)
    ensures Take(n, a) <= b
  {
  }

  lemma {:induction false} TakeMembers<T>(n: nat, s: seq<T>)
    ensures forall x | x in Take(n, s) :: x in s
  {
    assert forall i | 0 <= i < |Take(n, s)| :: Take(n, s)[i] == s[i];
  }
}
