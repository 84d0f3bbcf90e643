/**
 * Sequence helpers shared by the backend and the frontend models: order-keeping
 * filters and the stable sort by an integer key that JavaScript's `Array.sort`
 * performs with a comparator `(a, b) => key(a) - key(b)`.
 */
module Seqs {

  /** The elements of `s` that satisfy `f`, in order. */
  function Filter<T>(s: seq<T>, f: T -> bool): (r: seq<T>)
    ensures |r| <= |s|
    ensures forall i :: 0 <= i < |r| ==> f(r[i])
  {
    if s == [] then [] else Filter(s[..|s| - 1], f) + (if f(s[|s| - 1]) then [s[|s| - 1]] else [])
  }

  lemma {:induction false} FilterMember<T>(s: seq<T>, f: T -> bool, x: T)
    ensures x in Filter(s, f) <==> x in s && f(x)
  {
    if s != [] {
      var pre := s[..|s| - 1];
      FilterMember(pre, f, x);
      assert s == pre + [s[|s| - 1]];
    }
  }

  lemma {:induction false} FilterAppend<T>(a: seq<T>, b: seq<T>, f: T -> bool)
    ensures Filter(a + b, f) == Filter(a, f) + Filter(b, f)
    decreases |b|
  {
    if b == [] {
      assert a + b == a;
    } else {
      var pre := b[..|b| - 1];
      assert (a + b)[..|a + b| - 1] == a + pre;
      FilterAppend(a, pre, f);
    }
  }

  /** Filtering keeps distinct ids distinct. */
  lemma {:induction false} FilterDistinct<T>(s: seq<T>, f: T -> bool, id: T -> nat)
    requires forall i, j :: 0 <= i < j < |s| ==> id(s[i]) != id(s[j])
    ensures var r := Filter(s, f); forall i, j :: 0 <= i < j < |r| ==> id(r[i]) != id(r[j])
  {
    if s != [] {
      var pre := s[..|s| - 1];
      var x := s[|s| - 1];
      FilterDistinct(pre, f, id);
      var r0 := Filter(pre, f);
      forall i | 0 <= i < |r0|
        ensures id(r0[i]) != id(x)
      {
        FilterMember(pre, f, r0[i]);
        var k :| 0 <= k < |pre| && pre[k] == r0[i];
        assert s[k] == pre[k];
      }
    }
  }

  lemma {:induction false} FilterCons<T>(x: T, s: seq<T>, f: T -> bool)
    ensures Filter([x] + s, f) == (if f(x) then [x] else []) + Filter(s, f)
  {
    FilterAppend([x], s, f);
    FilterSingle(x, f);
  }

  lemma FilterSingle<T>(x: T, f: T -> bool)
    ensures Filter([x], f) == if f(x) then [x] else []
  {
    assert [x][..0] == [];
  }

  /** What one filter drops its complement keeps: the two counts add up. */
  lemma {:induction false} FilterSplit<T>(s: seq<T>, f: T -> bool, g: T -> bool)
    requires forall x :: g(x) == !f(x)
    ensures |Filter(s, f)| + |Filter(s, g)| == |s|
  {
    if s != [] {
      FilterSplit(s[..|s| - 1], f, g);
    }
  }

  /** Filtering keeps every element that passes, as often as it occurs. */
  lemma {:induction false} FilterMultiset<T>(s: seq<T>, f: T -> bool, x: T)
    ensures multiset(Filter(s, f))[x] == if f(x) then multiset(s)[x] else 0
  {
    if s != [] {
      var pre := s[..|s| - 1];
      FilterMultiset(pre, f, x);
      assert s == pre + [s[|s| - 1]];
    }
  }

  /** `r` lists, in order, the elements of `s` at the ascending positions `idx`,
      and those positions are exactly the ones whose element satisfies `f`. */
  ghost predicate Picks<T>(r: seq<T>, s: seq<T>, f: T -> bool, idx: seq<int>)
  {
    && |idx| == |r|
    && (forall k :: 0 <= k < |idx| ==> 0 <= idx[k] < |s| && r[k] == s[idx[k]])
    && (forall k, l :: 0 <= k < l < |idx| ==> idx[k] < idx[l])
    && (forall i :: 0 <= i < |s| ==> (i in idx <==> f(s[i])))
  }

  /** The positions of the elements of `s` that satisfy `f`, ascending. */
  function FilterIndices<T>(s: seq<T>, f: T -> bool): seq<int>
  {
    if s == [] then [] else FilterIndices(s[..|s| - 1], f) + (if f(s[|s| - 1]) then [|s| - 1] else [])
  }

  /** `Filter` keeps exactly the elements that satisfy `f`, each once, in their
      order in `s`. */
  lemma {:induction false} FilterPicks<T>(s: seq<T>, f: T -> bool)
    ensures Picks(Filter(s, f), s, f, FilterIndices(s, f))
  {
    if s != [] {
      var n := |s| - 1;
      var pre := s[..n];
      FilterPicks(pre, f);
      var r0, idx0 := Filter(pre, f), FilterIndices(pre, f);
      var r, idx := Filter(s, f), FilterIndices(s, f);
      assert forall k :: 0 <= k < |idx0| ==> idx[k] == idx0[k] && r[k] == r0[k] && pre[idx0[k]] == s[idx0[k]];
      if f(s[n]) {
        assert idx[|idx0|] == n && r[|r0|] == s[n];
      }
      forall i | 0 <= i < |s|
        ensures i in idx <==> f(s[i])
      {
        if i < n {
          assert pre[i] == s[i];
        }
      }
    }
  }

  /** Filtering an ascending sequence keeps it ascending. */
  lemma {:induction false} FilterAscending(s: seq<int>, f: int -> bool)
    requires forall i, j :: 0 <= i < j < |s| ==> s[i] < s[j]
    ensures var r := Filter(s, f); forall i, j :: 0 <= i < j < |r| ==> r[i] < r[j]
  {
    if s != [] {
      var pre := s[..|s| - 1];
      FilterAscending(pre, f);
      var r0 := Filter(pre, f);
      forall i | 0 <= i < |r0|
        ensures r0[i] < s[|s| - 1]
      {
        FilterMember(pre, f, r0[i]);
        var k :| 0 <= k < |pre| && pre[k] == r0[i];
        assert s[k] == pre[k];
      }
      var r := Filter(s, f);
      assert r == r0 + (if f(s[|s| - 1]) then [s[|s| - 1]] else []);
      forall i, j | 0 <= i < j < |r|
        ensures r[i] < r[j]
      {
        if j < |r0| {
          assert r[i] == r0[i] && r[j] == r0[j];
        } else {
          assert r[i] == r0[i] && r[j] == s[|s| - 1];
        }
      }
    }
  }

  // ---------------------------------------------------------------------------
  // Stable sort by an integer key
  // ---------------------------------------------------------------------------

  predicate SortedBy<T>(s: seq<T>, key: T -> int)
  {
    forall i, j :: 0 <= i < j < |s| ==> key(s[i]) <= key(s[j])
  }

  /** `x` goes in front of the first element whose key is not smaller. */
  function InsertByKey<T>(x: T, s: seq<T>, key: T -> int): (r: seq<T>)
    ensures multiset(r) == multiset(s) + multiset{x}
  {
    if s == [] || key(x) <= key(s[0]) then [x] + s
    else
      var r := [s[0]] + InsertByKey(x, s[1..], key);
      assert s == [s[0]] + s[1..];
      r
  }

  lemma {:induction false} InsertSorted<T>(x: T, s: seq<T>, key: T -> int)
    requires SortedBy(s, key)
    ensures SortedBy(InsertByKey(x, s, key), key)
  {
    if s != [] && key(x) > key(s[0]) {
      var t := InsertByKey(x, s[1..], key);
      InsertSorted(x, s[1..], key);
      forall j | 0 <= j < |t|
        ensures key(s[0]) <= key(t[j])
      {
        assert t[j] in multiset(t);
        assert t[j] == x || t[j] in s[1..];
      }
    }
  }

  /** The stable sort (insertion sort from the back). */
  function SortByKey<T>(s: seq<T>, key: T -> int): (r: seq<T>)
    ensures multiset(r) == multiset(s)
    ensures SortedBy(r, key)
  {
    if s == [] then []
    else
      assert s == [s[0]] + s[1..];
      InsertSorted(s[0], SortByKey(s[1..], key), key);
      InsertByKey(s[0], SortByKey(s[1..], key), key)
  }

  /** The elements of `s` whose key is `k`, in order. */
  function TiesOf<T>(s: seq<T>, key: T -> int, k: int): seq<T>
  {
    if s == [] then [] else (if key(s[0]) == k then [s[0]] else []) + TiesOf(s[1..], key, k)
  }

  /** Insertion passes over smaller keys only, so `x` lands in front of its ties. */
  lemma {:induction false} InsertKeepsTies<T>(x: T, s: seq<T>, key: T -> int, k: int)
    ensures TiesOf(InsertByKey(x, s, key), key, k)
      == (if key(x) == k then [x] else []) + TiesOf(s, key, k)
  {
    if s == [] || key(x) <= key(s[0]) {
      assert InsertByKey(x, s, key) == [x] + s;
      assert ([x] + s)[1..] == s;
    } else {
      var t := InsertByKey(x, s[1..], key);
      var tx: seq<T> := if key(x) == k then [x] else [];
      var t0: seq<T> := if key(s[0]) == k then [s[0]] else [];
      assert TiesOf(t, key, k) == tx + TiesOf(s[1..], key, k) by {
        InsertKeepsTies(x, s[1..], key, k);
      }
      assert TiesOf(InsertByKey(x, s, key), key, k) == t0 + TiesOf(t, key, k) by {
        assert InsertByKey(x, s, key) == [s[0]] + t;
        assert ([s[0]] + t)[1..] == t;
      }
      assert tx == [] || t0 == [];
    }
  }

  /** Stability: the elements with any one key keep their input order. */
  lemma {:induction false} SortKeepsTies<T>(s: seq<T>, key: T -> int, k: int)
    ensures TiesOf(SortByKey(s, key), key, k) == TiesOf(s, key, k)
  {
    if s != [] {
      SortKeepsTies(s[1..], key, k);
      InsertKeepsTies(s[0], SortByKey(s[1..], key), key, k);
    }
  }

  // ---------------------------------------------------------------------------
  // Concatenating mapped pieces
  // ---------------------------------------------------------------------------

  /** `f(s[0]) + f(s[1]) + ...`, as a loop that appends to an accumulator builds it. */
  function ConcatMap<T, U>(s: seq<T>, f: T -> seq<U>): seq<U>
  {
    if s == [] then [] else ConcatMap(s[..|s| - 1], f) + f(s[|s| - 1])
  }

  lemma {:induction false} ConcatMapAppend<T, U>(a: seq<T>, b: seq<T>, f: T -> seq<U>)
    ensures ConcatMap(a + b, f) == ConcatMap(a, f) + ConcatMap(b, f)
    decreases |b|
  {
    if b == [] {
      assert a + b == a;
    } else {
      var pre := b[..|b| - 1];
      assert (a + b)[..|a + b| - 1] == a + pre;
      ConcatMapAppend(a, pre, f);
    }
  }
}
