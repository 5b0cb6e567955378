/**
 * The LINQ operators the repositories and services compose:
 * FirstOrDefault (FirstIndex), Where (Filter), OrderBy (SortBy),
 * Skip, Take and List.Remove of one element (RemoveAt).
 */
module Seqs {
  import opened Common

  /** FirstOrDefault(p), as the index of the first match. */
  function FirstIndex<T>(s: seq<T>, p: T -> bool): (r: Option<nat>)
    ensures r.Some? ==> r.value < |s| && p(s[r.value]) && forall j :: 0 <= j < r.value ==> !p(s[j])
    ensures r.None? ==> forall j :: 0 <= j < |s| ==> !p(s[j])
  {
    if s == [] then None
    else if p(s[0]) then Some(0)
    else
      var r := FirstIndex(s[1..], p);
      if r.Some? then Some(r.value + 1) else None
  }

  /** Where(p): keeps the elements satisfying p, in order. */
  function Filter<T>(s: seq<T>, p: T -> bool): (r: seq<T>)
    ensures |r| <= |s|
    ensures forall i :: 0 <= i < |r| ==> p(r[i])
  {
    if s == [] then []
    else if p(s[0]) then [s[0]] + Filter(s[1..], p)
    else Filter(s[1..], p)
  }

  /** Filter keeps exactly the elements of s that satisfy p, each as often as s holds it. */
  lemma {:induction false} FilterKeepsMatches<T>(s: seq<T>, p: T -> bool)
    ensures multiset(Filter(s, p)) <= multiset(s)
    ensures forall i :: 0 <= i < |s| && p(s[i]) ==> s[i] in Filter(s, p)
    ensures forall x :: x in multiset(Filter(s, p)) ==> x in multiset(s)
  {
    if s != [] {
      var rest := Filter(s[1..], p);
      FilterKeepsMatches(s[1..], p);
      assert s == [s[0]] + s[1..];
      assert multiset(s) == multiset{s[0]} + multiset(s[1..]);
      if p(s[0]) {
        assert Filter(s, p) == [s[0]] + rest;
        assert multiset(Filter(s, p)) == multiset{s[0]} + multiset(rest);
      } else {
        assert Filter(s, p) == rest;
      }
      forall i | 1 <= i < |s| && p(s[i]) ensures s[i] in Filter(s, p) {
        assert s[1..][i - 1] == s[i];
        assert s[i] in rest;
      }
    }
  }

  /** Filter distributes over concatenation. */
  lemma {:induction false} FilterAppend<T>(a: seq<T>, b: seq<T>, p: T -> bool)
    ensures Filter(a + b, p) == Filter(a, p) + Filter(b, p)
  {
    if a == [] {
      assert a + b == b;
    } else {
      assert (a + b)[1..] == a[1..] + b;
      FilterAppend(a[1..], b, p);
    }
  }

  /** `s` is in ascending order of `key`. */
  predicate SortedBy<T>(s: seq<T>, key: T -> int) {
    forall i, j :: 0 <= i < j < |s| ==> key(s[i]) <= key(s[j])
  }

  /** Inserts x before the first element whose key is not smaller. */
  function InsertBy<T>(x: T, s: seq<T>, key: T -> int): (r: seq<T>)
    requires SortedBy(s, key)
    ensures SortedBy(r, key)
    ensures multiset(r) == multiset(s) + multiset{x}
    ensures |r| == |s| + 1
  {
    if s == [] then [x]
    else if key(x) <= key(s[0]) then [x] + s
    else
      assert SortedBy(s[1..], key) by {
        forall i, j | 0 <= i < j < |s| - 1 ensures key(s[1..][i]) <= key(s[1..][j]) {
          assert s[1..][i] == s[i + 1] && s[1..][j] == s[j + 1];
        }
      }
      var t := InsertBy(x, s[1..], key);
      assert s == [s[0]] + s[1..];
      LowerBoundOfInsert(x, s[1..], t, key(s[0]), key);
      [s[0]] + t
  }

  /** A lower bound on the keys of x and of s bounds the keys of any rearrangement t of them. */
  lemma LowerBoundOfInsert<T>(x: T, s: seq<T>, t: seq<T>, lo: int, key: T -> int)
    requires multiset(t) == multiset(s) + multiset{x}
    requires lo <= key(x) && forall i :: 0 <= i < |s| ==> lo <= key(s[i])
    ensures forall i :: 0 <= i < |t| ==> lo <= key(t[i])
  {
    forall i | 0 <= i < |t| ensures lo <= key(t[i]) {
      assert t[i] in multiset(t);
      if t[i] != x {
        assert t[i] in multiset(s);
        var j :| 0 <= j < |s| && s[j] == t[i];
      }
    }
  }

  /**
   * OrderBy(key), given as insertion sort: each element goes in front of
   * the later elements with an equal key, so ties keep their order in s.
   */
  function SortBy<T>(s: seq<T>, key: T -> int): (r: seq<T>)
    ensures SortedBy(r, key)
    ensures multiset(r) == multiset(s)
    ensures |r| == |s|
  {
    if s == [] then []
    else
      assert s == [s[0]] + s[1..];
      InsertBy(s[0], SortBy(s[1..], key), key)
  }

  /** Skip(k): a non-positive k skips nothing. */
  function Skip<T>(s: seq<T>, k: int): (r: seq<T>)
    ensures k <= 0 ==> r == s
    ensures 0 <= k <= |s| ==> r == s[k..]
    ensures k >= |s| ==> r == []
  {
    if k <= 0 then s else if k >= |s| then [] else s[k..]
  }

  /** Take(n): a non-positive n takes nothing. */
  function Take<T>(s: seq<T>, n: int): (r: seq<T>)
    ensures n <= 0 ==> r == []
    ensures 0 <= n <= |s| ==> r == s[..n]
    ensures n >= |s| ==> r == s
  {
    if n <= 0 then [] else if n >= |s| then s else s[..n]
  }

  /** The element at k is taken out; the others keep their order. */
  function RemoveAt<T>(s: seq<T>, k: nat): (r: seq<T>)
    requires k < |s|
    ensures |r| == |s| - 1
    ensures forall i :: 0 <= i < k ==> r[i] == s[i]
    ensures forall i :: k <= i < |r| ==> r[i] == s[i + 1]
    ensures multiset(r) + multiset{s[k]} == multiset(s)
  {
    assert s == s[..k] + [s[k]] + s[k + 1..];
    s[..k] + s[k + 1..]
  }

  /** Removing an element just appended gives back the original sequence. */
  lemma RemoveAppended<T>(s: seq<T>, x: T)
    ensures RemoveAt(s + [x], |s|) == s
  {
  }

  /** Every window Skip(k) then Take(n) of a sorted sequence is sorted and drawn from it. */
  lemma PageOfSorted<T>(s: seq<T>, k: int, n: int, key: T -> int)
    requires SortedBy(s, key)
    ensures SortedBy(Take(Skip(s, k), n), key)
    ensures multiset(Take(Skip(s, k), n)) <= multiset(s)
  {
    SkipKeepsOrder(s, k, key);
    TakeKeepsOrder(Skip(s, k), n, key);
  }

  /** Skip(k) of a sorted sequence is sorted and drawn from it. */
  lemma SkipKeepsOrder<T>(s: seq<T>, k: int, key: T -> int)
    requires SortedBy(s, key)
    ensures SortedBy(Skip(s, k), key) && multiset(Skip(s, k)) <= multiset(s)
  {
    if 0 < k < |s| {
      assert s == s[..k] + s[k..];
      SliceSorted(s, k, |s|, key);
    }
  }

  /** Take(n) of a sorted sequence is sorted and drawn from it. */
  lemma TakeKeepsOrder<T>(s: seq<T>, n: int, key: T -> int)
    requires SortedBy(s, key)
    ensures SortedBy(Take(s, n), key) && multiset(Take(s, n)) <= multiset(s)
  {
    if 0 < n < |s| {
      assert s == s[..n] + s[n..];
      SliceSorted(s, 0, n, key);
    }
  }

  /** A window of a sorted sequence is sorted. */
  lemma SliceSorted<T>(s: seq<T>, lo: nat, hi: nat, key: T -> int)
    requires lo <= hi <= |s| && SortedBy(s, key)
    ensures SortedBy(s[lo..hi], key)
  {
    var w := s[lo..hi];
    forall i, j | 0 <= i < j < |w| ensures key(w[i]) <= key(w[j]) {
      assert w[i] == s[lo + i] && w[j] == s[lo + j];
    }
  }

  /** A property every element of s has, every element of a sub-multiset of s has too. */
  lemma SubMultisetKeeps<T>(s: seq<T>, t: seq<T>, p: T -> bool)
    requires multiset(t) <= multiset(s)
    requires forall i :: 0 <= i < |s| ==> p(s[i])
    ensures forall i :: 0 <= i < |t| ==> p(t[i])
  {
    forall i | 0 <= i < |t| ensures p(t[i]) {
      assert t[i] in multiset(t);
      assert t[i] in s;
    }
  }

  /**
   * OrderBy(key).Skip(k).Take(n): a window of the sorted rows. It is sorted,
   * drawn from s, holds as many rows as the window leaves, and is all of s
   * when the window covers it.
   */
  function Paginate<T(!new)>(s: seq<T>, k: int, n: int, key: T -> int): (page: seq<T>)
    ensures IsWindow(page, s, k, n, key)
    ensures SortedBy(page, key)
    ensures multiset(page) <= multiset(s)
    ensures var rest := if k <= 0 then |s| else if k >= |s| then 0 else |s| - k;
      |page| == if n <= 0 then 0 else if n < rest then n else rest
    ensures k <= 0 && n >= |s| ==> multiset(page) == multiset(s)
  {
    var sorted := SortBy(s, key);
    PageOfSorted(sorted, k, n, key);
    assert SortedBy(sorted, key) && multiset(sorted) == multiset(s);
    Take(Skip(sorted, k), n)
  }

  /**
   * `page` is what OrderBy(key).Skip(k).Take(n) selects from s: the window
   * of some arrangement of s in key order (which one only decides the order
   * among equal keys).
   */
  ghost predicate IsWindow<T(!new)>(page: seq<T>, s: seq<T>, k: int, n: int, key: T -> int) {
    exists t :: SortedBy(t, key) && multiset(t) == multiset(s) && page == Take(Skip(t, k), n)
  }

  /**
   * In a sorted t, every element Skip(k) passes over has a key no greater
   * than any element of the window Take(Skip(t, k), n), and every element
   * after the window has a key no smaller.
   */
  lemma {:induction false} WindowBounds<T>(t: seq<T>, k: int, n: int, key: T -> int)
    requires SortedBy(t, key)
    ensures var page := Take(Skip(t, k), n);
      forall i, j :: 0 <= i < k && i < |t| && 0 <= j < |page| ==> key(t[i]) <= key(page[j])
    ensures var page := Take(Skip(t, k), n);
      forall i, j :: 0 <= j < |page| && 0 <= k && k + n <= i < |t| ==> key(page[j]) <= key(t[i])
  {
    var page := Take(Skip(t, k), n);
    var start := if k <= 0 then 0 else k;
    forall j | 0 <= j < |page| ensures start + j < |t| && page[j] == t[start + j] {
      if k <= 0 {
        assert Skip(t, k) == t;
      } else {
        assert Skip(t, k) == t[k..];
      }
    }
  }

  /** Take(n) of a sorted t holds its smallest keys: none of the rest is smaller. */
  lemma TakeHoldsSmallest<T>(t: seq<T>, n: int, key: T -> int)
    requires SortedBy(t, key)
    ensures forall b, m :: b in Take(t, n) && m in multiset(t) - multiset(Take(t, n)) ==> key(b) <= key(m)
  {
    if 0 < n < |t| {
      var front, back := t[..n], t[n..];
      assert t == front + back;
      assert multiset(t) - multiset(front) == multiset(back);
      forall b, m | b in front && m in multiset(back) ensures key(b) <= key(m) {
        var i :| 0 <= i < |front| && front[i] == b;
        assert m in back;
        var j :| 0 <= j < |back| && back[j] == m;
        assert t[i] == b && t[n + j] == m;
      }
    }
  }
}
