/**
 * Per-batch de-duplication by product code: among the records that share a
 * code, the one with the strictly highest price survives, and on a tie the
 * record seen first stays.  The same loop appears three times in the source
 * (the monitor tick, the offline text importer and the reconciler's
 * pre-aggregation); it is defined once here over any record type.
 */
module Aggregation {

  /** Position of the record with code `c` in `acc`, or -1. */
  function IndexOfCode<R>(acc: seq<R>, code: R -> string, c: string): (r: int)
    ensures -1 <= r < |acc|
    ensures r >= 0 ==> code(acc[r]) == c
    ensures r < 0 ==> forall i :: 0 <= i < |acc| ==> code(acc[i]) != c
  {
    if acc == [] then -1
    else if code(acc[|acc| - 1]) == c then |acc| - 1
    else IndexOfCode(acc[..|acc| - 1], code, c)
  }

  /** Overwriting a record with one of the same code finds every code where it was. */
  lemma {:induction false} IndexOfCodeUpdate<R>(acc: seq<R>, i: nat, x: R, code: R -> string, c: string)
    requires i < |acc| && code(x) == code(acc[i])
    ensures IndexOfCode(acc[i := x], code, c) == IndexOfCode(acc, code, c)
  {
    if acc != [] && i < |acc| - 1 {
      assert acc[i := x][..|acc| - 1] == acc[..|acc| - 1][i := x];
      IndexOfCodeUpdate(acc[..|acc| - 1], i, x, code, c);
    } else if acc != [] {
      assert acc[i := x][..|acc| - 1] == acc[..|acc| - 1];
    }
  }

  /** Appending a record of another code does not move a code. */
  lemma IndexOfCodeAppend<R>(acc: seq<R>, x: R, code: R -> string, c: string)
    requires code(x) != c
    ensures IndexOfCode(acc + [x], code, c) == IndexOfCode(acc, code, c)
  {
    assert (acc + [x])[..|acc|] == acc;
  }

  /** One iteration of the source's loop: a new code is appended; a known code is
      replaced only by a strictly higher price. */
  function Merge<R>(acc: seq<R>, x: R, code: R -> string, price: R -> real): seq<R>
  {
    var i := IndexOfCode(acc, code, code(x));
    if i < 0 then acc + [x]
    else if price(x) > price(acc[i]) then acc[i := x]
    else acc
  }

  /** The aggregated batch, in the order in which each code was first seen. */
  function Aggregate<R>(items: seq<R>, code: R -> string, price: R -> real): seq<R>
  {
    if items == [] then [] else Merge(Aggregate(items[..|items| - 1], code, price), items[|items| - 1], code, price)
  }

  /** Record `j` of `items` is the survivor of its code: no same-code record is
      dearer, and every earlier same-code record is strictly cheaper. */
  ghost predicate Wins<R>(items: seq<R>, code: R -> string, price: R -> real, j: int)
  {
    && 0 <= j < |items|
    && (forall k :: 0 <= k < |items| && code(items[k]) == code(items[j]) ==> price(items[k]) <= price(items[j]))
    && (forall k :: 0 <= k < j && code(items[k]) == code(items[j]) ==> price(items[k]) < price(items[j]))
  }

  ghost predicate CodesUnique<R>(out: seq<R>, code: R -> string)
  {
    forall i, j :: 0 <= i < j < |out| ==> code(out[i]) != code(out[j])
  }

  /** A known code is still found after a merge, and so is the merged code. */
  lemma MergeShape<R>(acc: seq<R>, x: R, code: R -> string, price: R -> real)
    requires CodesUnique(acc, code)
    ensures var out := Merge(acc, x, code, price);
      && |out| <= |acc| + 1
      && CodesUnique(out, code)
      && IndexOfCode(out, code, code(x)) >= 0
      && forall c :: IndexOfCode(acc, code, c) >= 0 ==> IndexOfCode(out, code, c) >= 0
  {
    var out := Merge(acc, x, code, price);
    forall c | IndexOfCode(acc, code, c) >= 0
      ensures IndexOfCode(out, code, c) >= 0
    {
      var r := IndexOfCode(acc, code, c);
      assert code(out[r]) == c;
    }
    var idx := IndexOfCode(acc, code, code(x));
    if idx < 0 {
      assert code(out[|acc|]) == code(x);
    } else {
      assert code(out[idx]) == code(x);
    }
  }

  /** One record per code, every input code represented, never longer than the input. */
  lemma {:induction false} AggregateShape<R>(items: seq<R>, code: R -> string, price: R -> real)
    ensures var out := Aggregate(items, code, price);
      && |out| <= |items|
      && CodesUnique(out, code)
      && forall k :: 0 <= k < |items| ==> IndexOfCode(out, code, code(items[k])) >= 0
  {
    if items != [] {
      var pre := items[..|items| - 1];
      AggregateShape(pre, code, price);
      MergeShape(Aggregate(pre, code, price), items[|items| - 1], code, price);
      assert forall k :: 0 <= k < |pre| ==> items[k] == pre[k];
    }
  }

  /** A survivor stays a survivor when a record arrives that does not beat it. */
  lemma WinsKept<R>(pre: seq<R>, x: R, code: R -> string, price: R -> real, j: int)
    requires Wins(pre, code, price, j)
    requires code(x) == code(pre[j]) ==> price(x) <= price(pre[j])
    ensures Wins(pre + [x], code, price, j)
  {
    var items := pre + [x];
    assert forall k :: 0 <= k < |pre| ==> items[k] == pre[k];
  }

  /** A record strictly dearer than every earlier record of its code becomes the survivor. */
  lemma WinsNew<R>(pre: seq<R>, x: R, code: R -> string, price: R -> real)
    requires forall k :: 0 <= k < |pre| && code(pre[k]) == code(x) ==> price(pre[k]) < price(x)
    ensures Wins(pre + [x], code, price, |pre|)
  {
    var items := pre + [x];
    assert forall k :: 0 <= k < |pre| ==> items[k] == pre[k];
  }

  /** `o` is the survivor of some record of `items`. */
  ghost predicate Survivor<R>(items: seq<R>, code: R -> string, price: R -> real, o: R)
  {
    exists j :: Wins(items, code, price, j) && items[j] == o
  }

  ghost predicate AllWin<R>(items: seq<R>, out: seq<R>, code: R -> string, price: R -> real)
  {
    forall i :: 0 <= i < |out| ==> Survivor(items, code, price, out[i])
  }

  lemma MergeWinners<R>(pre: seq<R>, x: R, acc: seq<R>, code: R -> string, price: R -> real)
    requires CodesUnique(acc, code)
    requires forall k :: 0 <= k < |pre| ==> IndexOfCode(acc, code, code(pre[k])) >= 0
    requires AllWin(pre, acc, code, price)
    ensures AllWin(pre + [x], Merge(acc, x, code, price), code, price)
  {
    var items := pre + [x];
    var out := Merge(acc, x, code, price);
    var idx := IndexOfCode(acc, code, code(x));
    if idx < 0 {
      assert out == acc + [x];
    } else if price(x) > price(acc[idx]) {
      assert out == acc[idx := x];
    } else {
      assert out == acc;
    }
    forall i | 0 <= i < |out|
      ensures Survivor(items, code, price, out[i])
    {
      if idx >= 0 && i == idx && price(x) > price(acc[idx]) {
        WinsNew(pre, x, code, price);
        assert Wins(items, code, price, |pre|) && items[|pre|] == out[i];
      } else if i == |acc| {
        forall k | 0 <= k < |pre|
          ensures code(pre[k]) != code(x)
        {
          assert IndexOfCode(acc, code, code(pre[k])) >= 0;
        }
        WinsNew(pre, x, code, price);
        assert Wins(items, code, price, |pre|) && items[|pre|] == out[i];
      } else {
        assert out[i] == acc[i];
        assert Survivor(pre, code, price, acc[i]);
        var j :| Wins(pre, code, price, j) && pre[j] == acc[i];
        WinsKept(pre, x, code, price, j);
        assert Wins(items, code, price, j) && items[j] == out[i];
      }
    }
    assert AllWin(items, out, code, price);
  }

  /** Each survivor is the first record of maximal price for its code. */
  lemma {:induction false} AggregateWinners<R>(items: seq<R>, code: R -> string, price: R -> real)
    ensures AllWin(items, Aggregate(items, code, price), code, price)
  {
    if items != [] {
      var pre := items[..|items| - 1];
      var x := items[|items| - 1];
      assert items == pre + [x];
      AggregateShape(pre, code, price);
      AggregateWinners(pre, code, price);
      MergeWinners(pre, x, Aggregate(pre, code, price), code, price);
    }
  }

  /** Forward scan for a code; with unique codes the first hit is the only one. */
  method FindCode<R>(out: seq<R>, code: R -> string, c: string) returns (found: int)
    requires CodesUnique(out, code)
    ensures found == IndexOfCode(out, code, c)
  {
    found := -1;
    var i := 0;
    while i < |out|
      invariant 0 <= i <= |out|
      invariant forall k :: 0 <= k < i ==> code(out[k]) != c
    {
      if code(out[i]) == c {
        return i;
      }
      i := i + 1;
    }
  }

  /** Aggregating one more record is one more merge. */
  lemma AggregateStep<R>(items: seq<R>, n: nat, code: R -> string, price: R -> real)
    requires n < |items|
    ensures Aggregate(items[..n + 1], code, price) == Merge(Aggregate(items[..n], code, price), items[n], code, price)
  {
    assert items[..n + 1][..n] == items[..n];
  }

  /** Aggregating one more record is one more merge. */
  lemma AggregateSnoc<R>(items: seq<R>, x: R, code: R -> string, price: R -> real)
    ensures Aggregate(items + [x], code, price) == Merge(Aggregate(items, code, price), x, code, price)
  {
    assert (items + [x])[..|items|] == items;
  }

  /** One iteration of the de-duplication loop. */
  method MergeInto<R>(acc: seq<R>, x: R, code: R -> string, price: R -> real) returns (out: seq<R>)
    requires CodesUnique(acc, code)
    ensures out == Merge(acc, x, code, price)
  {
    var found := FindCode(acc, code, code(x));
    out := acc;
    if found == -1 {
      out := acc + [x];
    } else if price(x) > price(acc[found]) {
      out := acc[found := x];
    }
  }

  /** The de-duplication loop itself. */
  method AggregateByCode<R(==)>(items: seq<R>, code: R -> string, price: R -> real) returns (out: seq<R>)
    ensures out == Aggregate(items, code, price)
    ensures CodesUnique(out, code)
    ensures forall k :: 0 <= k < |items| ==> IndexOfCode(out, code, code(items[k])) >= 0
    ensures AllWin(items, out, code, price)
  {
    out := [];
    var n := 0;
    while n < |items|
      invariant 0 <= n <= |items|
      invariant out == Aggregate(items[..n], code, price)
    {
      AggregateShape(items[..n], code, price);
      out := MergeInto(out, items[n], code, price);
      AggregateStep(items, n, code, price);
      n := n + 1;
    }
    assert items[..n] == items;
    AggregateShape(items, code, price);
    AggregateWinners(items, code, price);
  }
}
