/** Ordering and windowing shared by the listing code.

    Every list in the system is ordered by one or two timestamps, ascending or descending.
    The model sorts with a stable insertion sort: JavaScript's `Array.prototype.sort` is
    stable, and for the store's `sort` (which leaves ties unordered) a stable order is one
    of the orders it may return. */
module Sorting {
  import opened Text

  /** A sort key: `major` first, `minor` to break ties (`{publishedAt: -1, createdAt: -1}`). */
  datatype Key = Key(major: int, minor: int)

  predicate KeyLe(a: Key, b: Key) {
    a.major < b.major || (a.major == b.major && a.minor <= b.minor)
  }

  /** `a` may stand before `b` in the requested direction. */
  predicate InOrder(a: Key, b: Key, descending: bool) {
    if descending then KeyLe(b, a) else KeyLe(a, b)
  }

  ghost predicate Sorted<T>(s: seq<T>, key: T -> Key, descending: bool) {
    forall i, j :: 0 <= i < j < |s| ==> InOrder(key(s[i]), key(s[j]), descending)
  }

  /** Places `x` before the first element it may precede. */
  function Insert<T>(x: T, s: seq<T>, key: T -> Key, descending: bool): (r: seq<T>)
    requires Sorted(s, key, descending)
    ensures Sorted(r, key, descending)
    ensures multiset(r) == multiset(s) + multiset{x}
    ensures |r| == |s| + 1
  {
    if s == [] || InOrder(key(x), key(s[0]), descending) then
      [x] + s
    else
      var rest := Insert(x, s[1..], key, descending);
      InsertBehindHead(x, s, rest, key, descending);
      [s[0]] + rest
  }

  /** When `x` may not precede the head of `s`, the head stays in front of the insertion
      into the tail. */
  lemma InsertBehindHead<T>(x: T, s: seq<T>, rest: seq<T>, key: T -> Key, descending: bool)
    requires s != [] && Sorted(s, key, descending) && !InOrder(key(x), key(s[0]), descending)
    requires Sorted(rest, key, descending) && multiset(rest) == multiset(s[1..]) + multiset{x}
    ensures Sorted([s[0]] + rest, key, descending)
    ensures multiset([s[0]] + rest) == multiset(s) + multiset{x}
  {
    assert s == [s[0]] + s[1..];
    forall k | 0 <= k < |rest|
      ensures InOrder(key(s[0]), key(rest[k]), descending)
    {
      assert rest[k] in multiset(rest);
      if rest[k] != x {
        assert rest[k] in multiset(s[1..]);
        var m :| 0 <= m < |s[1..]| && s[1..][m] == rest[k];
        assert s[m + 1] == rest[k];
      }
    }
    var r := [s[0]] + rest;
    forall i, j | 0 <= i < j < |r| ensures InOrder(key(r[i]), key(r[j]), descending) {
      if i > 0 {
        assert r[i] == rest[i - 1];
      }
      assert r[j] == rest[j - 1];
    }
  }

  /** Stable sort of `s` by `key`, ascending or descending. */
  function SortBy<T>(s: seq<T>, key: T -> Key, descending: bool): (r: seq<T>)
    ensures Sorted(r, key, descending)
    ensures multiset(r) == multiset(s)
    ensures |r| == |s|
  {
    if s == [] then []
    else
      assert s == [s[0]] + s[1..];
      Insert(s[0], SortBy(s[1..], key, descending), key, descending)
  }

  /** The elements of `s` whose key is `k`, in their order in `s`. */
  function WithKey<T>(s: seq<T>, key: T -> Key, k: Key): seq<T> {
    if s == [] then []
    else (if key(s[0]) == k then [s[0]] else []) + WithKey(s[1..], key, k)
  }

  lemma {:induction false} InsertWithKey<T>(x: T, s: seq<T>, key: T -> Key, descending: bool, k: Key)
    requires Sorted(s, key, descending)
    ensures WithKey(Insert(x, s, key, descending), key, k)
         == (if key(x) == k then [x] else []) + WithKey(s, key, k)
  {
    if s == [] || InOrder(key(x), key(s[0]), descending) {
      assert ([x] + s)[1..] == s;
    } else {
      assert key(s[0]) != key(x);
      InsertWithKey(x, s[1..], key, descending, k);
      var r := Insert(x, s, key, descending);
      assert r[1..] == Insert(x, s[1..], key, descending);
    }
  }

  /** Stability: elements with equal keys keep their relative order. */
  lemma {:induction false} SortByStable<T>(s: seq<T>, key: T -> Key, descending: bool, k: Key)
    ensures WithKey(SortBy(s, key, descending), key, k) == WithKey(s, key, k)
  {
    if s != [] {
      SortByStable(s[1..], key, descending, k);
      InsertWithKey(s[0], SortBy(s[1..], key, descending), key, descending, k);
    }
  }

  /** `s.filter(keep)`: the elements that satisfy `keep`, in their order. */
  function Filter<T>(s: seq<T>, keep: T -> bool): (r: seq<T>)
    ensures |r| <= |s|
    ensures forall k :: 0 <= k < |r| ==> keep(r[k])
    ensures multiset(r) <= multiset(s)
  {
    if s == [] then []
    else
      assert s == [s[0]] + s[1..];
      (if keep(s[0]) then [s[0]] else []) + Filter(s[1..], keep)
  }

  /** Nothing that passes the test is dropped. */
  lemma {:induction false} FilterKeeps<T>(s: seq<T>, keep: T -> bool)
    ensures forall k :: 0 <= k < |s| && keep(s[k]) ==> s[k] in Filter(s, keep)
  {
    if s != [] {
      FilterKeeps(s[1..], keep);
      assert forall k :: 1 <= k < |s| ==> s[k] == s[1..][k - 1];
    }
  }

  /** Filtering with a test every element passes keeps everything. */
  lemma {:induction false} FilterAll<T>(s: seq<T>, keep: T -> bool)
    requires forall k :: 0 <= k < |s| ==> keep(s[k])
    ensures Filter(s, keep) == s
  {
    if s != [] {
      FilterAll(s[1..], keep);
      assert [s[0]] + s[1..] == s;
    }
  }

  /** An element and its complement split the list: the two filters together have its length. */
  lemma {:induction false} FilterSplit<T>(s: seq<T>, keep: T -> bool, drop: T -> bool)
    requires forall k :: 0 <= k < |s| ==> (drop(s[k]) <==> !keep(s[k]))
    ensures |Filter(s, keep)| + |Filter(s, drop)| == |s|
  {
    if s != [] {
      FilterSplit(s[1..], keep, drop);
    }
  }

  /** Filtering twice with the same test is filtering once. */
  lemma FilterIdempotent<T>(s: seq<T>, keep: T -> bool)
    ensures Filter(Filter(s, keep), keep) == Filter(s, keep)
  {
    FilterAll(Filter(s, keep), keep);
  }

  /** Filtering with a test no element passes keeps nothing. */
  lemma {:induction false} FilterNone<T>(s: seq<T>, keep: T -> bool)
    requires forall k :: 0 <= k < |s| ==> !keep(s[k])
    ensures Filter(s, keep) == []
  {
    if s != [] {
      FilterNone(s[1..], keep);
    }
  }

  /** Filters by tests that agree everywhere are equal. */
  lemma {:induction false} FilterSameTest<T>(s: seq<T>, a: T -> bool, b: T -> bool)
    requires forall x :: a(x) == b(x)
    ensures Filter(s, a) == Filter(s, b)
  {
    if s != [] {
      FilterSameTest(s[1..], a, b);
    }
  }

  /** Two filters in a row are one filter by both tests. */
  lemma {:induction false} FilterFilter<T>(s: seq<T>, first: T -> bool, second: T -> bool, both: T -> bool)
    requires forall x :: both(x) == (first(x) && second(x))
    ensures Filter(Filter(s, first), second) == Filter(s, both)
  {
    if s != [] {
      FilterFilter(s[1..], first, second, both);
      var f := Filter(s, first);
      if first(s[0]) {
        assert f[0] == s[0] && f[1..] == Filter(s[1..], first);
      } else {
        assert f == Filter(s[1..], first);
      }
    }
  }

  /** A filtered, sorted list holds exactly the elements of the input that pass the filter. */
  lemma SortFilterMembers<T>(s: seq<T>, keep: T -> bool, key: T -> Key, descending: bool)
    ensures var r := SortBy(Filter(s, keep), key, descending);
            && (forall k :: 0 <= k < |r| ==> keep(r[k]) && r[k] in s)
            && (forall k :: 0 <= k < |s| && keep(s[k]) ==> s[k] in r)
  {
    var f := Filter(s, keep);
    var r := SortBy(f, key, descending);
    forall k | 0 <= k < |r| ensures keep(r[k]) && r[k] in s {
      assert r[k] in multiset(r);
      assert r[k] in multiset(f);
      assert r[k] in multiset(s);
      var m :| 0 <= m < |f| && f[m] == r[k];
    }
    FilterKeeps(s, keep);
    forall k | 0 <= k < |s| && keep(s[k]) ensures s[k] in r {
      assert s[k] in multiset(f);
      assert s[k] in multiset(r);
    }
  }

  /** `.skip(skip).limit(limit)` on a store cursor. A negative skip is an error of the store
      (`None`); a zero limit means no limit; a negative limit returns at most `-limit`
      documents, as the driver turns it into a single batch of that size. */
  function Window<T>(s: seq<T>, skip: int, limit: int): (r: Option<seq<T>>)
    ensures r.None? <==> skip < 0
    ensures r.Some? && limit != 0 ==> |r.value| == Min(Abs(limit), |s| - Min(skip, |s|))
    ensures r.Some? && limit == 0 ==> |r.value| == |s| - Min(skip, |s|)
    ensures r.Some? ==> r.value == s[Min(skip, |s|)..Min(skip, |s|) + |r.value|]
  {
    if skip < 0 then None
    else
      var rest := s[Min(skip, |s|)..];
      Some(if limit == 0 then rest else rest[..Min(Abs(limit), |rest|)])
  }

  /** `s.slice(0, n)` for `n >= 0`. */
  function Take<T>(s: seq<T>, n: nat): (r: seq<T>)
    ensures |r| == Min(n, |s|) && r == s[..|r|]
  {
    s[..Min(n, |s|)]
  }

  function Min(a: int, b: int): int {
    if a <= b then a else b
  }

  function Abs(a: int): nat {
    if a < 0 then -a else a
  }
}
