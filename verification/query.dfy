/**
 * The relational operations that the handlers' SELECT statements and the
 * dashboards' array methods perform on rows held in table order: selection
 * (`WHERE`, `Array.prototype.filter`), ordering (`ORDER BY`, as a stable
 * insertion sort on an integer key) and truncation (`LIMIT`).
 */
module Query {
  import opened Wrappers

  /** The rows that satisfy `keep`, in their original order. */
  function Filter<T(==,!new)>(s: seq<T>, keep: T -> bool): (r: seq<T>)
    ensures |r| <= |s|
    ensures forall i :: 0 <= i < |r| ==> keep(r[i])
    ensures forall x :: x in r <==> x in s && keep(x)
    ensures multiset(r) <= multiset(s)
  {
    if s == [] then []
    else
      assert s == [s[0]] + s[1..];
      (if keep(s[0]) then [s[0]] else []) + Filter(s[1..], keep)
  }

  /** Filtering commutes with concatenation, so the rows kept stay in their
      original relative order. */
  lemma {:induction false} FilterAppend<T(!new)>(a: seq<T>, b: seq<T>, keep: T -> bool)
    ensures Filter(a + b, keep) == Filter(a, keep) + Filter(b, keep)
  {
    if a == [] {
      assert a + b == b;
    } else {
      var head := if keep(a[0]) then [a[0]] else [];
      assert (a + b)[0] == a[0];
      assert (a + b)[1..] == a[1..] + b;
      calc {
        Filter(a + b, keep);
        head + Filter(a[1..] + b, keep);
        { FilterAppend(a[1..], b, keep); }
        head + (Filter(a[1..], keep) + Filter(b, keep));
        (head + Filter(a[1..], keep)) + Filter(b, keep);
      }
    }
  }

  /** A filter that keeps every row changes nothing. */
  lemma {:induction false} FilterAll<T(!new)>(s: seq<T>, keep: T -> bool)
    requires forall i :: 0 <= i < |s| ==> keep(s[i])
    ensures Filter(s, keep) == s
  {
    if s != [] {
      FilterAll(s[1..], keep);
      assert [s[0]] + s[1..] == s;
    }
  }

  /** A filter that rejects some row returns fewer rows. */
  lemma {:induction false} FilterDrops<T(!new)>(s: seq<T>, keep: T -> bool, i: nat)
    requires i < |s| && !keep(s[i])
    ensures |Filter(s, keep)| < |s|
  {
    if i > 0 {
      FilterDrops(s[1..], keep, i - 1);
    }
  }

  /** The keys never decrease along `s`. */
  predicate SortedBy<T>(s: seq<T>, key: T -> int) {
    forall i, j :: 0 <= i < j < |s| ==> key(s[i]) <= key(s[j])
  }

  /** `x` placed into sorted `s` before the first row whose key is not smaller. */
  function Insert<T(==,!new)>(x: T, s: seq<T>, key: T -> int): (r: seq<T>)
    requires SortedBy(s, key)
    ensures SortedBy(r, key)
    ensures multiset(r) == multiset(s) + multiset{x}
    ensures |r| == |s| + 1
  {
    if s == [] || key(x) <= key(s[0]) then
      ConsSorted(x, s, key);
      [x] + s
    else
      var tail := Insert(x, s[1..], key);
      assert s == [s[0]] + s[1..];
      HeadBelowAll(s, x, tail, key);
      ConsSorted(s[0], tail, key);
      [s[0]] + tail
  }

  /** A row whose key is at most every key of a sorted table can go first. */
  lemma {:induction false} ConsSorted<T>(h: T, s: seq<T>, key: T -> int)
    requires SortedBy(s, key)
    requires forall i :: 0 <= i < |s| ==> key(h) <= key(s[i])
    ensures SortedBy([h] + s, key)
  {
    var r := [h] + s;
    assert forall i :: 0 < i < |r| ==> r[i] == s[i - 1];
  }

  /** The head of a sorted table is at most every row of its tail with one
      larger row added. */
  lemma {:induction false} HeadBelowAll<T>(s: seq<T>, x: T, tail: seq<T>, key: T -> int)
    requires SortedBy(s, key) && s != [] && key(s[0]) < key(x)
    requires multiset(tail) == multiset(s[1..]) + multiset{x}
    ensures forall i :: 0 <= i < |tail| ==> key(s[0]) <= key(tail[i])
  {
    forall i | 0 <= i < |tail| ensures key(s[0]) <= key(tail[i]) {
      assert tail[i] in multiset(tail);
      if tail[i] != x {
        assert tail[i] in multiset(s[1..]);
        var k :| 0 <= k < |s[1..]| && s[1..][k] == tail[i];
        assert s[k + 1] == tail[i];
      }
    }
  }

  /** `ORDER BY key`: the rows sorted by ascending key; rows with equal keys
      keep their table order. */
  function SortBy<T(==,!new)>(s: seq<T>, key: T -> int): (r: seq<T>)
    ensures SortedBy(r, key)
    ensures multiset(r) == multiset(s)
    ensures |r| == |s|
  {
    if s == [] then []
    else
      assert s == [s[0]] + s[1..];
      Insert(s[0], SortBy(s[1..], key), key)
  }

  /** Sorting reorders rows and so keeps any property every row has. */
  lemma SortByKeeps<T(!new)>(s: seq<T>, key: T -> int, p: T -> bool)
    requires forall i :: 0 <= i < |s| ==> p(s[i])
    ensures forall i :: 0 <= i < |SortBy(s, key)| ==> p(SortBy(s, key)[i])
  {
    var r := SortBy(s, key);
    forall i | 0 <= i < |r|
      ensures p(r[i])
    {
      assert r[i] in multiset(s);
      assert r[i] in s;
    }
  }

  /** The unique row of least key comes first after sorting. */
  lemma SortByLeastFirst<T(!new)>(s: seq<T>, key: T -> int, x: T)
    requires x in s
    requires forall i :: 0 <= i < |s| && s[i] != x ==> key(x) < key(s[i])
    ensures SortBy(s, key) != [] && SortBy(s, key)[0] == x
  {
    var r := SortBy(s, key);
    assert x in multiset(r);
    var k :| 0 <= k < |r| && r[k] == x;
    assert r[0] in multiset(s);
    assert r[0] in s;
    assert key(r[0]) <= key(r[k]);
  }

  /** The first row after sorting is a row of the table with the least key. */
  lemma SortByHeadLeast<T(!new)>(s: seq<T>, key: T -> int)
    requires s != []
    ensures SortBy(s, key)[0] in s
    ensures forall i :: 0 <= i < |s| ==> key(SortBy(s, key)[0]) <= key(s[i])
  {
    var r := SortBy(s, key);
    assert r[0] in multiset(s);
    forall i | 0 <= i < |s|
      ensures key(r[0]) <= key(s[i])
    {
      assert s[i] in multiset(r);
      var k :| 0 <= k < |r| && r[k] == s[i];
    }
  }

  /** Every row that the first `n` rows of a sorted table leave out has a key
      no smaller than any of them. */
  lemma TakeSortedLeast<T>(s: seq<T>, key: T -> int, n: nat, x: T)
    requires SortedBy(s, key)
    requires x in multiset(s) - multiset(Take(s, n))
    ensures forall i :: 0 <= i < |Take(s, n)| ==> key(Take(s, n)[i]) <= key(x)
  {
    var t := Take(s, n);
    if |s| <= n {
      assert false;
    } else {
      assert s == t + s[n..];
      assert multiset(s) == multiset(t) + multiset(s[n..]);
      assert x in multiset(s[n..]);
      var j :| 0 <= j < |s[n..]| && s[n..][j] == x;
      assert s[n + j] == x;
    }
  }

  /** The first rows of a sorted table are sorted. */
  lemma {:induction false} TakeSorted<T>(s: seq<T>, key: T -> int, n: nat)
    requires SortedBy(s, key)
    ensures SortedBy(Take(s, n), key)
  {
    var t := Take(s, n);
    assert forall i :: 0 <= i < |t| ==> t[i] == s[i];
  }

  /** `LIMIT n`: the first `n` rows, or all of them when there are fewer. */
  function Take<T>(s: seq<T>, n: nat): (r: seq<T>)
    ensures |r| == if |s| < n then |s| else n
    ensures forall i :: 0 <= i < |r| ==> r[i] == s[i]
    ensures |s| <= n ==> r == s
    ensures multiset(r) <= multiset(s)
  {
    if |s| <= n then s
    else
      assert s == s[..n] + s[n..];
      s[..n]
  }

  /** The position of the first row that satisfies `p`: the row a handler
      reads as `rows[0]` of a SELECT. */
  function FirstIndex<T>(s: seq<T>, p: T -> bool): (r: Option<nat>)
    ensures r.Some? ==> r.value < |s| && p(s[r.value])
    ensures r.Some? ==> forall j :: 0 <= j < r.value ==> !p(s[j])
    ensures r.None? <==> forall j :: 0 <= j < |s| ==> !p(s[j])
  {
    if s == [] then None
    else if p(s[0]) then Some(0)
    else match FirstIndex(s[1..], p)
      case None => None
      case Some(k) => Some(k + 1)
  }

  /** `rows[0]` of the selection is the row `FirstIndex` finds. */
  lemma {:induction false} FirstIndexIsFilterHead<T(!new)>(s: seq<T>, p: T -> bool)
    ensures FirstIndex(s, p).None? <==> Filter(s, p) == []
    ensures FirstIndex(s, p).Some? ==> Filter(s, p)[0] == s[FirstIndex(s, p).value]
  {
    if s != [] {
      assert Filter(s, p) == (if p(s[0]) then [s[0]] else []) + Filter(s[1..], p);
      if !p(s[0]) {
        FirstIndexIsFilterHead(s[1..], p);
      }
    }
  }
}
