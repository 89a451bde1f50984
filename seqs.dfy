/** The two array methods the app leans on, as functions on sequences:
    `Array.prototype.filter` and the stable `Array.prototype.sort` with a
    comparator that orders by a numeric key, largest first. */
module Seqs {

  /** `s.filter(keep)`: the elements of `s` that `keep` accepts, in order. */
  function Filter<T(!new)>(s: seq<T>, keep: T -> bool): (r: seq<T>)
    ensures |r| <= |s|
    ensures forall x :: x in r <==> x in s && keep(x)
    ensures multiset(r) <= multiset(s)
  {
    if s == [] then []
    else
      assert s == [s[0]] + s[1..];
      (if keep(s[0]) then [s[0]] else []) + Filter(s[1..], keep)
  }

  /** Filtering a concatenation filters each part: the survivors keep their
      relative order. */
  lemma {:induction false} FilterAppend<T(!new)>(a: seq<T>, b: seq<T>, keep: T -> bool)
    ensures Filter(a + b, keep) == Filter(a, keep) + Filter(b, keep)
  {
    if a == [] {
      assert a + b == b;
    } else {
      assert (a + b)[1..] == a[1..] + b;
      FilterAppend(a[1..], b, keep);
    }
  }

  /** A sequence that `keep` accepts throughout is its own filter. */
  lemma {:induction false} FilterAll<T(!new)>(s: seq<T>, keep: T -> bool)
    requires forall j :: 0 <= j < |s| ==> keep(s[j])
    ensures Filter(s, keep) == s
  {
    if s != [] {
      FilterAll(s[1..], keep);
    }
  }

  /** Nothing survives a filter that accepts none of the elements. */
  lemma {:induction false} FilterNone<T(!new)>(s: seq<T>, keep: T -> bool)
    requires forall j :: 0 <= j < |s| ==> !keep(s[j])
    ensures Filter(s, keep) == []
  {
    if s != [] {
      FilterNone(s[1..], keep);
    }
  }

  /** Where a surviving element lands: `s[i]` sits in the filtered sequence
      just after the survivors of `s[..i]`. */
  lemma FilterAt<T(!new)>(s: seq<T>, keep: T -> bool, i: nat)
    requires i < |s| && keep(s[i])
    ensures |Filter(s[..i], keep)| < |Filter(s, keep)|
    ensures Filter(s, keep)[|Filter(s[..i], keep)|] == s[i]
  {
    assert s == s[..i] + s[i..];
    FilterAppend(s[..i], s[i..], keep);
    assert s[i..][0] == s[i];
  }

  /** Descending by `key`: larger keys first. */
  ghost predicate IsDescending<T(!new)>(s: seq<T>, key: T -> int) {
    forall i, j :: 0 <= i < j < |s| ==> key(s[i]) >= key(s[j])
  }

  /** The first `k` elements of a descending sequence are descending, are
      drawn from it, and no element after them has a larger key than any of
      them. */
  lemma PrefixDominates<T(!new)>(s: seq<T>, key: T -> int, k: nat)
    requires IsDescending(s, key) && k <= |s|
    ensures IsDescending(s[..k], key) && multiset(s[..k]) <= multiset(s)
    ensures forall x, y :: x in s[..k] && y in multiset(s) - multiset(s[..k]) ==> key(y) <= key(x)
  {
    assert s == s[..k] + s[k..];
    assert multiset(s) == multiset(s[..k]) + multiset(s[k..]);
    forall x, y | x in s[..k] && y in multiset(s) - multiset(s[..k]) ensures key(y) <= key(x) {
      assert y in s[k..];
      var i :| 0 <= i < k && s[..k][i] == x;
      var j :| 0 <= j < |s| - k && s[k..][j] == y;
      assert s[i] == x && s[k + j] == y;
    }
  }

  /** The elements of `s` whose key is `t`, in order. */
  function KeyRun<T(!new)>(s: seq<T>, key: T -> int, t: int): (r: seq<T>)
    ensures forall x :: x in r <==> x in s && key(x) == t
  {
    if s == [] then [] else (if key(s[0]) == t then [s[0]] else []) + KeyRun(s[1..], key, t)
  }

  /** Places `x` in front of the first element whose key is not larger
      than its own. */
  function Insert<T(!new)>(x: T, s: seq<T>, key: T -> int): (r: seq<T>)
    ensures multiset(r) == multiset(s) + multiset{x}
    ensures forall y :: y in r <==> y == x || y in s
    ensures |r| == |s| + 1
  {
    if s == [] || key(x) >= key(s[0]) then [x] + s
    else
      assert s == [s[0]] + s[1..];
      [s[0]] + Insert(x, s[1..], key)
  }

  /** `s.sort((a, b) => key(b) - key(a))`, as the stable sort that
      ECMAScript 2019 requires. */
  function SortDesc<T(!new)>(s: seq<T>, key: T -> int): (r: seq<T>)
    ensures multiset(r) == multiset(s)
    ensures |r| == |s|
  {
    if s == [] then []
    else
      assert s == [s[0]] + s[1..];
      Insert(s[0], SortDesc(s[1..], key), key)
  }

  lemma {:induction false} InsertDescending<T(!new)>(x: T, s: seq<T>, key: T -> int)
    requires IsDescending(s, key)
    ensures IsDescending(Insert(x, s, key), key)
  {
    if s != [] && key(x) < key(s[0]) {
      var tail := Insert(x, s[1..], key);
      InsertDescending(x, s[1..], key);
      forall k | 0 <= k < |tail| ensures key(s[0]) >= key(tail[k]) {
        assert tail[k] in tail;
        if tail[k] != x {
          var m :| 0 <= m < |s[1..]| && s[1..][m] == tail[k];
          assert s[m + 1] == tail[k];
        }
      }
      var r := [s[0]] + tail;
      forall i, j | 0 <= i < j < |r| ensures key(r[i]) >= key(r[j]) {
        if i == 0 {
          assert r[j] == tail[j - 1];
        } else {
          assert r[i] == tail[i - 1] && r[j] == tail[j - 1];
        }
      }
    }
  }

  /** The sorted sequence really is sorted, largest key first. */
  lemma {:induction false} SortDescending<T(!new)>(s: seq<T>, key: T -> int)
    ensures IsDescending(SortDesc(s, key), key)
  {
    if s != [] {
      SortDescending(s[1..], key);
      InsertDescending(s[0], SortDesc(s[1..], key), key);
    }
  }

  lemma {:induction false} InsertStable<T(!new)>(x: T, s: seq<T>, key: T -> int, t: int)
    ensures KeyRun(Insert(x, s, key), key, t) == KeyRun([x] + s, key, t)
  {
    if s != [] && key(x) < key(s[0]) {
      InsertStable(x, s[1..], key, t);
      assert ([x] + s)[1..] == s;
      assert ([x] + s[1..])[1..] == s[1..];
      assert (([s[0]] + Insert(x, s[1..], key)))[1..] == Insert(x, s[1..], key);
    }
  }

  /** Stability: among elements with equal keys the sort keeps the input
      order, so for every key value the run of elements with that key is the
      same before and after. */
  lemma {:induction false} SortStable<T(!new)>(s: seq<T>, key: T -> int, t: int)
    ensures KeyRun(SortDesc(s, key), key, t) == KeyRun(s, key, t)
  {
    if s != [] {
      SortStable(s[1..], key, t);
      InsertStable(s[0], SortDesc(s[1..], key), key, t);
      assert ([s[0]] + SortDesc(s[1..], key))[1..] == SortDesc(s[1..], key);
    }
  }
}
