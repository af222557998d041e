/**
 * Python's built-in `sorted(xs, key=...)`, which both sorts of the allocator use. The sort
 * is stable, so its result is fixed by the keys alone: positions are listed in increasing
 * order of (key, position). The model computes that order as a permutation of positions
 * (by insertion), proves it is one, and proves it is the only one.
 */
module Ordering {

  /** A sort key, compared the way Python compares a pair: first component, then second. */
  datatype Key = Key(major: int, minor: real)

  predicate Less(a: Key, b: Key) {
    a.major < b.major || (a.major == b.major && a.minor < b.minor)
  }

  /** In a stable ascending sort of `keys`, position i comes out before position j. */
  predicate Before(keys: seq<Key>, i: int, j: int)
    requires 0 <= i < |keys| && 0 <= j < |keys|
  {
    Less(keys[i], keys[j]) || (keys[i] == keys[j] && i < j)
  }

  lemma BeforeTransitive(keys: seq<Key>, i: int, j: int, k: int)
    requires 0 <= i < |keys| && 0 <= j < |keys| && 0 <= k < |keys|
    requires Before(keys, i, j) && Before(keys, j, k)
    ensures Before(keys, i, k)
  {
  }

  lemma BeforeTotal(keys: seq<Key>, i: int, j: int)
    requires 0 <= i < |keys| && 0 <= j < |keys| && i != j
    ensures Before(keys, i, j) != Before(keys, j, i)
  {
  }

  /** Every entry of `p` is a position of a sequence of length n. */
  predicate InRange(p: seq<int>, n: int) {
    forall k :: 0 <= k < |p| ==> 0 <= p[k] < n
  }

  /** The positions 0, 1, ..., n - 1. */
  function Range(n: nat): (r: seq<int>)
    ensures |r| == n && forall k :: 0 <= k < n ==> r[k] == k
  {
    seq(n, k => k)
  }

  /** `p` lists positions strictly increasing in (key, position) order. */
  predicate Ordered(keys: seq<Key>, p: seq<int>)
    requires InRange(p, |keys|)
  {
    forall a, b :: 0 <= a < b < |p| ==> Before(keys, p[a], p[b])
  }

  /** `p` is the order in which a stable sort lists the positions of `keys`. */
  predicate IsStableOrder(keys: seq<Key>, p: seq<int>) {
    && InRange(p, |keys|)
    && multiset(p) == multiset(Range(|keys|))
    && Ordered(keys, p)
  }

  /** The elements of `s` at the positions `p`, in that order. */
  function Permute<T>(s: seq<T>, p: seq<int>): (r: seq<T>)
    requires InRange(p, |s|)
    ensures |r| == |p| && forall k :: 0 <= k < |p| ==> r[k] == s[p[k]]
  {
    seq(|p|, k requires 0 <= k < |p| => s[p[k]])
  }

  /** One step of insertion sort: put position x into the ordered list p. */
  function Insert(keys: seq<Key>, p: seq<int>, x: int): (r: seq<int>)
    requires InRange(p, |keys|) && 0 <= x < |keys|
    ensures |r| == |p| + 1 && InRange(r, |keys|)
  {
    if p == [] then [x]
    else if Before(keys, x, p[0]) then [x] + p
    else [p[0]] + Insert(keys, p[1..], x)
  }

  /** Inserting x adds exactly x to the positions listed. */
  lemma {:induction false} InsertMultiset(keys: seq<Key>, p: seq<int>, x: int)
    requires InRange(p, |keys|) && 0 <= x < |keys|
    ensures multiset(Insert(keys, p, x)) == multiset(p) + multiset{x}
  {
    if p != [] && !Before(keys, x, p[0]) {
      InsertMultiset(keys, p[1..], x);
      assert p == [p[0]] + p[1..];
    }
  }

  lemma {:induction false} InsertOrdered(keys: seq<Key>, p: seq<int>, x: int)
    requires InRange(p, |keys|) && 0 <= x < |keys| && x !in p
    requires Ordered(keys, p)
    ensures Ordered(keys, Insert(keys, p, x))
  {
    if p != [] && !Before(keys, x, p[0]) {
      var tail := p[1..];
      assert x !in tail && Ordered(keys, tail);
      InsertOrdered(keys, tail, x);
      HeadBeforeInsert(keys, p, x);
      ConsOrdered(keys, p[0], Insert(keys, tail, x));
    } else if p != [] {
      InsertFront(keys, p, x);
    }
  }

  /** The head of an ordered list comes before everything inserting x behind it yields. */
  lemma HeadBeforeInsert(keys: seq<Key>, p: seq<int>, x: int)
    requires InRange(p, |keys|) && 0 <= x < |keys| && x !in p && p != []
    requires Ordered(keys, p) && !Before(keys, x, p[0])
    ensures forall b :: 0 <= b < |Insert(keys, p[1..], x)| ==> Before(keys, p[0], Insert(keys, p[1..], x)[b])
  {
    var tail := p[1..];
    var r := Insert(keys, tail, x);
    BeforeTotal(keys, x, p[0]);
    InsertMultiset(keys, tail, x);
    forall b | 0 <= b < |r| ensures Before(keys, p[0], r[b]) {
      assert r[b] in multiset(tail) + multiset{x};
      if r[b] != x {
        var a :| 0 <= a < |tail| && tail[a] == r[b];
        assert p[a + 1] == r[b];
      }
    }
  }

  /** Putting in front a position that comes before all of an ordered list keeps it ordered. */
  lemma ConsOrdered(keys: seq<Key>, h: int, r: seq<int>)
    requires 0 <= h < |keys| && InRange(r, |keys|) && Ordered(keys, r)
    requires forall b :: 0 <= b < |r| ==> Before(keys, h, r[b])
    ensures Ordered(keys, [h] + r)
  {
    var res := [h] + r;
    forall a, b | 0 <= a < b < |res| ensures Before(keys, res[a], res[b]) {
      if a > 0 {
        assert res[a] == r[a - 1] && res[b] == r[b - 1];
      }
    }
  }

  /** A position that comes before the head of an ordered list can go in front of it. */
  lemma InsertFront(keys: seq<Key>, p: seq<int>, x: int)
    requires InRange(p, |keys|) && 0 <= x < |keys| && p != []
    requires Ordered(keys, p) && Before(keys, x, p[0])
    ensures Ordered(keys, [x] + p)
  {
    forall b | 0 <= b < |p| ensures Before(keys, x, p[b]) {
      if b > 0 {
        BeforeTransitive(keys, x, p[0], p[b]);
      }
    }
    ConsOrdered(keys, x, p);
  }

  /** Insertion sort of the first n positions. */
  function SortPrefix(keys: seq<Key>, n: nat): (r: seq<int>)
    requires n <= |keys|
    ensures |r| == n && InRange(r, |keys|)
  {
    if n == 0 then [] else Insert(keys, SortPrefix(keys, n - 1), n - 1)
  }

  /** Sorting the first n positions lists each of them once. */
  lemma {:induction false} SortPrefixMultiset(keys: seq<Key>, n: nat)
    requires n <= |keys|
    ensures multiset(SortPrefix(keys, n)) == multiset(Range(n))
  {
    if n > 0 {
      SortPrefixMultiset(keys, n - 1);
      InsertMultiset(keys, SortPrefix(keys, n - 1), n - 1);
      RangeSnoc(n);
    }
  }

  lemma RangeSnoc(n: nat)
    requires n > 0
    ensures multiset(Range(n)) == multiset(Range(n - 1)) + multiset{n - 1}
  {
    assert Range(n) == Range(n - 1) + [n - 1];
  }

  lemma {:induction false} SortPrefixOrdered(keys: seq<Key>, n: nat)
    requires n <= |keys|
    ensures Ordered(keys, SortPrefix(keys, n))
  {
    if n > 0 {
      var p := SortPrefix(keys, n - 1);
      SortPrefixOrdered(keys, n - 1);
      SortPrefixBelow(keys, n - 1);
      InsertOrdered(keys, p, n - 1);
    }
  }

  /** Sorting the first n positions lists only positions below n. */
  lemma SortPrefixBelow(keys: seq<Key>, n: nat)
    requires n <= |keys|
    ensures n !in SortPrefix(keys, n)
  {
    var p := SortPrefix(keys, n);
    SortPrefixMultiset(keys, n);
    forall k | 0 <= k < |p| ensures p[k] < n {
      assert p[k] in multiset(Range(n));
    }
  }

  /** The order `sorted` produces. */
  function StableOrder(keys: seq<Key>): (p: seq<int>)
    ensures |p| == |keys| && InRange(p, |keys|)
  {
    SortPrefix(keys, |keys|)
  }

  /** The order computed by insertion is a stable sort of the keys. */
  lemma StableOrderSorts(keys: seq<Key>)
    ensures IsStableOrder(keys, StableOrder(keys))
  {
    SortPrefixOrdered(keys, |keys|);
    SortPrefixMultiset(keys, |keys|);
  }

  /** Only one order is a stable sort of the keys: StableOrder is that order. */
  lemma StableOrderUnique(keys: seq<Key>, p: seq<int>)
    requires IsStableOrder(keys, p)
    ensures p == StableOrder(keys)
  {
    StableOrderSorts(keys);
    OrderedUnique(keys, p, StableOrder(keys));
  }

  lemma {:induction false} OrderedUnique(keys: seq<Key>, p: seq<int>, q: seq<int>)
    requires InRange(p, |keys|) && InRange(q, |keys|)
    requires multiset(p) == multiset(q)
    requires Ordered(keys, p) && Ordered(keys, q)
    ensures p == q
  {
    if p == [] {
      assert |multiset(q)| == 0;
    } else {
      assert |q| == |multiset(q)| == |multiset(p)| == |p|;
      HeadsAgree(keys, p, q);
      TailsAgree(p, q);
      OrderedUnique(keys, p[1..], q[1..]);
    }
  }

  /** Two ordered lists of the same positions start with the same one. */
  lemma HeadsAgree(keys: seq<Key>, p: seq<int>, q: seq<int>)
    requires InRange(p, |keys|) && InRange(q, |keys|) && p != [] && q != []
    requires multiset(p) == multiset(q)
    requires Ordered(keys, p) && Ordered(keys, q)
    ensures p[0] == q[0]
  {
    if p[0] != q[0] {
      assert q[0] in multiset(p);
      var a :| 0 <= a < |p| && p[a] == q[0];
      assert p[0] in multiset(q);
      var b :| 0 <= b < |q| && q[b] == p[0];
      assert Before(keys, p[0], q[0]) && Before(keys, q[0], p[0]);
      BeforeTransitive(keys, p[0], q[0], p[0]);
      assert false;
    }
  }

  /** Dropping equal heads leaves equal multisets. */
  lemma TailsAgree(p: seq<int>, q: seq<int>)
    requires p != [] && q != [] && p[0] == q[0] && multiset(p) == multiset(q)
    ensures multiset(p[1..]) == multiset(q[1..])
  {
    assert p == [p[0]] + p[1..] && q == [q[0]] + q[1..];
    assert multiset(p[1..]) == multiset(p) - multiset{p[0]};
    assert multiset(q[1..]) == multiset(q) - multiset{q[0]};
  }

  lemma PermuteCons<T>(s: seq<T>, a: int, t: seq<int>)
    requires 0 <= a < |s| && InRange(t, |s|)
    ensures Permute(s, [a] + t) == [s[a]] + Permute(s, t)
  {
  }

  /** Inserting a position adds the element there to the permuted sequence. */
  lemma {:induction false} PermuteInsert<T>(s: seq<T>, keys: seq<Key>, p: seq<int>, x: int)
    requires |keys| == |s| && InRange(p, |keys|) && 0 <= x < |keys|
    ensures multiset(Permute(s, Insert(keys, p, x))) == multiset(Permute(s, p)) + multiset{s[x]}
  {
    if p == [] {
      assert Permute(s, Insert(keys, p, x)) == [s[x]];
    } else {
      var tail := p[1..];
      assert p == [p[0]] + tail;
      PermuteCons(s, p[0], tail);
      if Before(keys, x, p[0]) {
        PermuteCons(s, x, p);
      } else {
        PermuteInsert(s, keys, tail, x);
        PermuteCons(s, p[0], Insert(keys, tail, x));
      }
    }
  }

  lemma {:induction false} SortPrefixPermutes<T>(s: seq<T>, keys: seq<Key>, n: nat)
    requires |keys| == |s| && n <= |s|
    ensures multiset(Permute(s, SortPrefix(keys, n))) == multiset(s[..n])
  {
    if n > 0 {
      var p, r := SortPrefix(keys, n - 1), SortPrefix(keys, n);
      SortPrefixPermutes(s, keys, n - 1);
      assert r == Insert(keys, p, n - 1);
      PermuteInsert(s, keys, p, n - 1);
      SliceSnoc(s, n);
    }
  }

  lemma SliceSnoc<T>(s: seq<T>, n: nat)
    requires 0 < n <= |s|
    ensures multiset(s[..n]) == multiset(s[..n - 1]) + multiset{s[n - 1]}
  {
    assert s[..n] == s[..n - 1] + [s[n - 1]];
  }

  /** Sorting rearranges the elements: it neither drops nor duplicates any. */
  lemma SortPermutes<T>(s: seq<T>, keys: seq<Key>)
    requires |keys| == |s|
    ensures multiset(Permute(s, StableOrder(keys))) == multiset(s)
  {
    SortPrefixPermutes(s, keys, |s|);
    assert s[..|s|] == s;
  }

  /** Every position appears in a stable order. */
  lemma StableOrderCovers(keys: seq<Key>, p: seq<int>, i: int)
    requires IsStableOrder(keys, p) && 0 <= i < |keys|
    ensures i in p
  {
    assert Range(|keys|)[i] == i;
    assert i in multiset(Range(|keys|));
  }

  /** A stable order never lists a position twice. */
  lemma StableOrderDistinct(keys: seq<Key>, p: seq<int>, a: int, b: int)
    requires IsStableOrder(keys, p) && 0 <= a < b < |p|
    ensures p[a] != p[b]
  {
    assert Before(keys, p[a], p[b]);
  }

  /** |p| is the number of keys. */
  lemma StableOrderLength(keys: seq<Key>, p: seq<int>)
    requires IsStableOrder(keys, p)
    ensures |p| == |keys|
  {
    assert |p| == |multiset(p)| == |multiset(Range(|keys|))| == |keys|;
  }
}
