/** The query shapes the services use on the session table: a `where`
    filter, `orderBy: desc` on an integer key, and `skip`/`take`. */
module Query {

  /** The rows satisfying p, in their original order. */
  function Filter<T(!new)>(s: seq<T>, p: T -> bool): (r: seq<T>)
    ensures |r| <= |s|
    ensures forall i :: 0 <= i < |r| ==> p(r[i])
    ensures forall x :: multiset(r)[x] == if p(x) then multiset(s)[x] else 0
  {
    if |s| == 0 then []
    else
      assert s == [s[0]] + s[1..];
      (if p(s[0]) then [s[0]] else []) + Filter(s[1..], p)
  }

  predicate SortedDesc<T>(s: seq<T>, key: T -> int)
  {
    forall i, j :: 0 <= i < j < |s| ==> key(s[i]) >= key(s[j])
  }

  /** Inserts x before the first element whose key is strictly smaller. */
  function Insert<T>(x: T, s: seq<T>, key: T -> int): (r: seq<T>)
    requires SortedDesc(s, key)
    ensures SortedDesc(r, key)
    ensures multiset(r) == multiset(s) + multiset{x}
    ensures |r| == |s| + 1
  {
    if |s| == 0 then [x]
    else if key(x) >= key(s[0]) then [x] + s
    else
      var tail := Insert(x, s[1..], key);
      assert s == [s[0]] + s[1..];
      BoundCarries(key(s[0]), x, s[1..], tail, key);
      ConsSorted(s[0], tail, key);
      [s[0]] + tail
  }

  /** A bound on the keys of x and of s bounds every key of a permutation of s + [x]. */
  lemma BoundCarries<T>(b: int, x: T, s: seq<T>, t: seq<T>, key: T -> int)
    requires multiset(t) == multiset(s) + multiset{x}
    requires key(x) <= b
    requires forall i :: 0 <= i < |s| ==> key(s[i]) <= b
    ensures forall k :: 0 <= k < |t| ==> key(t[k]) <= b
  {
    forall k | 0 <= k < |t| ensures key(t[k]) <= b {
      assert t[k] in multiset(t);
      assert t[k] == x || t[k] in multiset(s);
    }
  }

  lemma ConsSorted<T>(h: T, t: seq<T>, key: T -> int)
    requires SortedDesc(t, key)
    requires forall k :: 0 <= k < |t| ==> key(t[k]) <= key(h)
    ensures SortedDesc([h] + t, key)
  {
    var r := [h] + t;
    forall i, j | 0 <= i < j < |r| ensures key(r[i]) >= key(r[j]) {
      assert r[j] == t[j - 1];
      if i > 0 {
        assert r[i] == t[i - 1];
      }
    }
  }

  /** Insertion sort, descending by key. */
  function SortDesc<T>(s: seq<T>, key: T -> int): (r: seq<T>)
    ensures SortedDesc(r, key)
    ensures multiset(r) == multiset(s)
    ensures |r| == |s|
  {
    if |s| == 0 then []
    else
      assert s == [s[0]] + s[1..];
      Insert(s[0], SortDesc(s[1..], key), key)
  }

  /** The first min(n, |s|) elements. */
  function Take<T>(s: seq<T>, n: nat): (r: seq<T>)
    ensures |r| <= n && |r| <= |s|
    ensures |s| <= n ==> r == s
    ensures n <= |s| ==> |r| == n
    ensures r <= s
  {
    if |s| <= n then s else s[..n]
  }

  /** A prefix of a descending sequence holds its largest keys: anything the
      prefix leaves out ranks no higher than anything it keeps. */
  lemma {:induction false} TakeKeepsTop<T>(s: seq<T>, n: nat, key: T -> int)
    requires SortedDesc(s, key)
    ensures SortedDesc(Take(s, n), key)
    ensures multiset(Take(s, n)) <= multiset(s)
    ensures forall x, y :: x in s && x !in Take(s, n) && y in Take(s, n) ==> key(x) <= key(y)
  {
    var t := Take(s, n);
    if n < |s| {
      assert s == t + s[n..];
      forall x, y | x in s && x !in t && y in t ensures key(x) <= key(y) {
        var i :| 0 <= i < |s| && s[i] == x;
        var j :| 0 <= j < |t| && t[j] == y;
        assert forall k :: 0 <= k < n ==> t[k] == s[k];
        assert i >= n;
        assert s[j] == y;
      }
    }
  }

  /** `where p`, `orderBy key desc`, `take n`: the result satisfies p, is in
      descending order, comes from s, holds everything when at most n rows
      qualify, and outranks every qualifying row it leaves out. */
  lemma TopOfFilter<T(!new)>(s: seq<T>, p: T -> bool, key: T -> int, n: nat)
    ensures var top := Take(SortDesc(Filter(s, p), key), n);
      && (forall i :: 0 <= i < |top| ==> p(top[i]))
      && SortedDesc(top, key)
      && multiset(top) <= multiset(s)
      && (|Filter(s, p)| <= n ==> multiset(top) == multiset(Filter(s, p)))
      && (|Filter(s, p)| >= n ==> |top| == n)
      && (forall x, y :: x in s && p(x) && x !in top && y in top ==> key(x) <= key(y))
  {
    var candidates := Filter(s, p);
    var sorted := SortDesc(candidates, key);
    var top := Take(sorted, n);
    TakeKeepsTop(sorted, n, key);
    assert multiset(candidates) <= multiset(s);
    forall i | 0 <= i < |top| ensures p(top[i]) {
      assert top[i] in multiset(sorted);
      assert top[i] in multiset(candidates);
    }
    forall x | x in s && p(x) ensures x in sorted {
      assert x in multiset(s);
      assert x in multiset(candidates);
      assert x in multiset(sorted);
    }
  }

  /** `skip: k`: everything after the first k elements. */
  function Skip<T>(s: seq<T>, k: nat): (r: seq<T>)
    ensures k <= |s| ==> r == s[k..]
    ensures |s| <= k ==> r == []
  {
    if |s| <= k then [] else s[k..]
  }

  lemma SliceSorted<T>(s: seq<T>, a: nat, b: nat, key: T -> int)
    requires a <= b <= |s|
    requires SortedDesc(s, key)
    ensures SortedDesc(s[a..b], key)
  {
    forall i, j | 0 <= i < j < b - a ensures key(s[a..b][i]) >= key(s[a..b][j]) {
      assert s[a..b][i] == s[a + i] && s[a..b][j] == s[a + j];
    }
  }

  lemma SkipSorted<T>(s: seq<T>, k: nat, key: T -> int)
    requires SortedDesc(s, key)
    ensures SortedDesc(Skip(s, k), key)
  {
    if k < |s| {
      SliceSorted(s, k, |s|, key);
      assert s[k..|s|] == s[k..];
    }
  }
}
