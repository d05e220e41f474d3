/** Ordering and paging of record lists: the stable `Array.prototype.sort`
    the store uses with a date comparator, and `Array.prototype.slice`. */
module Ordering {
  import opened Optional

  /** Non-decreasing by `key`. */
  ghost predicate Ascending<T>(s: seq<T>, key: T -> int) {
    forall i, j :: 0 <= i < j < |s| ==> key(s[i]) <= key(s[j])
  }

  /** The elements of `s` whose key is `k`, in their order in `s`.  A sort is
      stable exactly when it leaves every such class as it was. */
  function KeyClass<T>(s: seq<T>, key: T -> int, k: int): seq<T> {
    if |s| == 0 then []
    else (if key(s[0]) == k then [s[0]] else []) + KeyClass(s[1..], key, k)
  }

  /** Puts `x` in front of the first element whose key is not smaller. */
  function Insert<T>(x: T, t: seq<T>, key: T -> int): (r: seq<T>)
    ensures |r| == |t| + 1
  {
    if |t| == 0 then [x]
    else if key(x) <= key(t[0]) then [x] + t
    else [t[0]] + Insert(x, t[1..], key)
  }

  /** Inserting adds exactly `x` to the elements. */
  lemma {:induction false} InsertPermutes<T>(x: T, t: seq<T>, key: T -> int)
    ensures multiset(Insert(x, t, key)) == multiset(t) + multiset{x}
    decreases |t|
  {
    if |t| > 0 && key(t[0]) < key(x) {
      InsertPermutes(x, t[1..], key);
      assert t == [t[0]] + t[1..];
    }
  }

  /** Inserting into an ascending list keeps it ascending. */
  lemma {:induction false} InsertAscending<T>(x: T, t: seq<T>, key: T -> int)
    requires Ascending(t, key)
    ensures Ascending(Insert(x, t, key), key)
    decreases |t|
  {
    if |t| > 0 && key(t[0]) < key(x) {
      var rest := Insert(x, t[1..], key);
      InsertAscending(x, t[1..], key);
      InsertPermutes(x, t[1..], key);
      var r := [t[0]] + rest;
      assert Insert(x, t, key) == r;
      forall j | 0 < j < |r|
        ensures key(r[0]) <= key(r[j])
      {
        assert r[j] == rest[j - 1];
        assert rest[j - 1] in multiset(rest);
        if rest[j - 1] != x {
          assert rest[j - 1] in multiset(t[1..]);
          var m :| 0 <= m < |t[1..]| && t[1..][m] == rest[j - 1];
          assert t[m + 1] == rest[j - 1];
        }
      }
    }
  }

  /** Stable insertion sort, ascending by `key`: each element is inserted in
      front of its equal-key successors, which came later in the input. */
  function SortBy<T>(s: seq<T>, key: T -> int): (r: seq<T>)
    ensures multiset(r) == multiset(s)
    ensures |r| == |s|
    ensures Ascending(r, key)
  {
    if |s| == 0 then []
    else
      assert s == [s[0]] + s[1..];
      var sorted := SortBy(s[1..], key);
      InsertAscending(s[0], sorted, key);
      InsertPermutes(s[0], sorted, key);
      Insert(s[0], sorted, key)
  }

  /** The last element of the sorted list is an element of the input with
      the largest key. */
  lemma SortByLast<T>(s: seq<T>, key: T -> int)
    requires |s| > 0
    ensures SortBy(s, key)[|s| - 1] in multiset(s)
    ensures forall i :: 0 <= i < |s| ==> key(s[i]) <= key(SortBy(s, key)[|s| - 1])
  {
    var r := SortBy(s, key);
    var n := |s|;
    assert r[n - 1] in multiset(r);
    forall i | 0 <= i < n ensures key(s[i]) <= key(r[n - 1]) {
      assert s[i] in multiset(s);
      assert s[i] in multiset(r);
      assert s[i] in r;
      var k :| 0 <= k < n && r[k] == s[i];
      if k < n - 1 {
        assert key(r[k]) <= key(r[n - 1]);
      }
    }
  }

  /** Unfolds KeyClass once on a list with a known first element. */
  lemma KeyClassCons<T>(y: T, t: seq<T>, key: T -> int, k: int)
    ensures KeyClass([y] + t, key, k) == (if key(y) == k then [y] else []) + KeyClass(t, key, k)
  {
    assert ([y] + t)[0] == y;
    assert ([y] + t)[1..] == t;
  }

  /** Two prefixes commute when one of them is empty. */
  lemma SwapEmpty<T>(a: seq<T>, b: seq<T>, c: seq<T>)
    requires a == [] || b == []
    ensures a + (b + c) == b + (a + c)
  {
    if a == [] {
      assert a + (b + c) == b + c;
      assert a + c == c;
    } else {
      assert b + c == c;
      assert b + (a + c) == a + c;
    }
  }

  /** Inserting `x` adds it to its key class, in front of that class. */
  lemma {:induction false} InsertKeyClass<T>(x: T, t: seq<T>, key: T -> int, k: int)
    ensures KeyClass(Insert(x, t, key), key, k) == (if key(x) == k then [x] else []) + KeyClass(t, key, k)
    decreases |t|
  {
    if |t| == 0 || key(x) <= key(t[0]) {
      KeyClassCons(x, t, key, k);
    } else {
      var rest := Insert(x, t[1..], key);
      var cx: seq<T> := if key(x) == k then [x] else [];
      var c0: seq<T> := if key(t[0]) == k then [t[0]] else [];
      assert Insert(x, t, key) == [t[0]] + rest;
      InsertKeyClass(x, t[1..], key, k);
      KeyClassCons(t[0], rest, key, k);
      KeyClassCons(t[0], t[1..], key, k);
      assert t == [t[0]] + t[1..];
      if key(x) == k {
        assert key(t[0]) != k;
        assert c0 == [];
      } else {
        assert cx == [];
      }
      calc {
        KeyClass([t[0]] + rest, key, k);
        c0 + KeyClass(rest, key, k);
        c0 + (cx + KeyClass(t[1..], key, k));
        { SwapEmpty(c0, cx, KeyClass(t[1..], key, k)); }
        cx + (c0 + KeyClass(t[1..], key, k));
        cx + KeyClass(t, key, k);
      }
    }
  }

  /** SortBy is stable: the records sharing a key appear in the output in the
      order they had in the input. */
  lemma {:induction false} SortByStable<T>(s: seq<T>, key: T -> int, k: int)
    ensures KeyClass(SortBy(s, key), key, k) == KeyClass(s, key, k)
    decreases |s|
  {
    if |s| > 0 {
      SortByStable(s[1..], key, k);
      InsertKeyClass(s[0], SortBy(s[1..], key), key, k);
    }
  }

  /** The index `slice` starts from for argument `i` on a list of length `n`:
      a negative argument counts back from the end, and both are clamped. */
  function RelativeIndex(i: int, n: nat): (r: nat)
    ensures r <= n
  {
    if i < 0 then (if n + i < 0 then 0 else n + i)
    else if i < n then i else n
  }

  /** `s.slice(start, end)`: the contiguous block between the two relative
      indices, empty when they cross. */
  function JsSlice<T>(s: seq<T>, start: int, end: int): (r: seq<T>)
    ensures RelativeIndex(start, |s|) + |r| <= |s|
    ensures |r| == (if RelativeIndex(start, |s|) < RelativeIndex(end, |s|)
                    then RelativeIndex(end, |s|) - RelativeIndex(start, |s|) else 0)
    ensures forall k :: 0 <= k < |r| ==> r[k] == s[RelativeIndex(start, |s|) + k]
  {
    var from := RelativeIndex(start, |s|);
    var to := RelativeIndex(end, |s|);
    if from < to then s[from..to] else []
  }

  /** One page of `s` in the store's paging convention, `slice(offset, offset + limit)`. */
  function Page<T>(s: seq<T>, limit: int, offset: int): (r: seq<T>)
    ensures |r| <= |s|
    ensures forall i :: 0 <= i < |r| ==> r[i] in s
  {
    JsSlice(s, offset, offset + limit)
  }

  /** With a non-negative limit and offset a page holds exactly the records at
      positions offset .. offset+limit-1 that exist: its length is
      max(0, min(limit, |s| - offset)), so an offset past the end gives an
      empty page. */
  lemma PageShape<T>(s: seq<T>, limit: int, offset: int)
    requires 0 <= limit && 0 <= offset
    ensures var r := Page(s, limit, offset);
            && |r| == (if offset >= |s| then 0 else if limit < |s| - offset then limit else |s| - offset)
            && forall k :: 0 <= k < |r| ==> r[k] == s[offset + k]
  {
  }

  /** A page of an ascending list is ascending. */
  lemma PageAscending<T>(s: seq<T>, limit: int, offset: int, key: T -> int)
    requires Ascending(s, key)
    ensures Ascending(Page(s, limit, offset), key)
  {
    var r := Page(s, limit, offset);
    var from := RelativeIndex(offset, |s|);
    forall i, j | 0 <= i < j < |r|
      ensures key(r[i]) <= key(r[j])
    {
      assert r[i] == s[from + i] && r[j] == s[from + j];
    }
  }

  /** Keeps the elements satisfying `p`, in order: `Array.prototype.filter`. */
  function Filter<T>(s: seq<T>, p: T -> bool): (r: seq<T>)
    ensures |r| <= |s|
    ensures forall i :: 0 <= i < |r| ==> p(r[i])
    ensures multiset(r) <= multiset(s)
  {
    if |s| == 0 then []
    else
      var rest := Filter(s[1..], p);
      assert s == [s[0]] + s[1..];
      if p(s[0]) then [s[0]] + rest else rest
  }

  /** Membership in a filtered list. */
  lemma {:induction false} FilterMembers<T(!new)>(s: seq<T>, p: T -> bool)
    ensures forall x :: x in Filter(s, p) <==> x in s && p(x)
  {
    if |s| > 0 {
      FilterMembers(s[1..], p);
      assert s == [s[0]] + s[1..];
      var r := Filter(s, p);
      forall x | x in r ensures x in s && p(x) {
        assert x in multiset(r);
        var i :| 0 <= i < |r| && r[i] == x;
      }
    }
  }

  /** Number of elements satisfying `p`. */
  function Count<T>(s: seq<T>, p: T -> bool): (r: nat)
    ensures r <= |s|
  {
    if |s| == 0 then 0 else (if p(s[0]) then 1 else 0) + Count(s[1..], p)
  }

  /** A filter keeps as many elements as satisfy the predicate. */
  lemma {:induction false} FilterCount<T>(s: seq<T>, p: T -> bool)
    ensures |Filter(s, p)| == Count(s, p)
  {
    if |s| > 0 {
      FilterCount(s[1..], p);
    }
  }

  /** All elements are counted exactly when every element satisfies `p`. */
  lemma {:induction false} CountAll<T>(s: seq<T>, p: T -> bool)
    ensures Count(s, p) == |s| <==> forall i :: 0 <= i < |s| ==> p(s[i])
  {
    if |s| > 0 {
      CountAll(s[1..], p);
      assert forall i :: 1 <= i < |s| ==> s[i] == s[1..][i - 1];
    }
  }

  /** Nothing is counted exactly when no element satisfies `p`. */
  lemma {:induction false} CountNone<T>(s: seq<T>, p: T -> bool)
    ensures Count(s, p) == 0 <==> forall i :: 0 <= i < |s| ==> !p(s[i])
  {
    if |s| > 0 {
      CountNone(s[1..], p);
      assert forall i :: 1 <= i < |s| ==> s[i] == s[1..][i - 1];
    }
  }

  /** Position of the first element whose key is `k`: `Array.prototype.find`
      over a map's values in insertion order. */
  function FirstIndex<T, K(==)>(s: seq<T>, keyOf: T -> K, k: K): (r: Option<nat>)
    ensures r.Some? ==> r.value < |s| && keyOf(s[r.value]) == k
    ensures r.Some? ==> forall j :: 0 <= j < r.value ==> keyOf(s[j]) != k
    ensures r.None? ==> forall j :: 0 <= j < |s| ==> keyOf(s[j]) != k
  {
    if |s| == 0 then None
    else if keyOf(s[0]) == k then Some(0)
    else match FirstIndex(s[1..], keyOf, k)
      case None => None
      case Some(i) => Some(i + 1)
  }

  /** The search depends only on the keys. */
  lemma {:induction false} FirstIndexSameKeys<T, K>(a: seq<T>, b: seq<T>, keyOf: T -> K, k: K)
    requires |a| == |b|
    requires forall i :: 0 <= i < |a| ==> keyOf(a[i]) == keyOf(b[i])
    ensures FirstIndex(a, keyOf, k) == FirstIndex(b, keyOf, k)
  {
    if |a| > 0 {
      FirstIndexSameKeys(a[1..], b[1..], keyOf, k);
    }
  }

  /** Appending an element with another key does not change the search. */
  lemma {:induction false} FirstIndexAppend<T, K>(a: seq<T>, x: T, keyOf: T -> K, k: K)
    requires keyOf(x) != k
    ensures FirstIndex(a + [x], keyOf, k) == FirstIndex(a, keyOf, k)
  {
    if |a| > 0 {
      assert (a + [x])[1..] == a[1..] + [x];
      FirstIndexAppend(a[1..], x, keyOf, k);
    }
  }

  /** A key that was absent is found at the appended position. */
  lemma {:induction false} FirstIndexAppendNew<T, K>(a: seq<T>, x: T, keyOf: T -> K)
    ensures (forall j :: 0 <= j < |a| ==> keyOf(a[j]) != keyOf(x)) ==>
              FirstIndex(a + [x], keyOf, keyOf(x)) == Some(|a|)
  {
    if |a| > 0 {
      assert (a + [x])[1..] == a[1..] + [x];
      FirstIndexAppendNew(a[1..], x, keyOf);
    }
  }

  /** Past a first element with another key, the search is that of the tail
      shifted by one. */
  lemma FirstIndexShift<T, K>(s: seq<T>, keyOf: T -> K, k: K)
    requires |s| > 0 && keyOf(s[0]) != k
    ensures FirstIndex(s, keyOf, k).None? <==> FirstIndex(s[1..], keyOf, k).None?
    ensures FirstIndex(s, keyOf, k).Some? ==>
              FirstIndex(s, keyOf, k).value == FirstIndex(s[1..], keyOf, k).value + 1
  {
  }
}
