/**
 * The rows the reconciler and the panel synchroniser read and write
 * (BACKEND/app.py: ButcherProduct, PriceHistory, ImportConflict and the
 * product-panel association), and the search for the smallest free screen
 * position.  Row ids are generated UUIDs in the source; here they are natural
 * numbers drawn from one counter.
 */
module Catalog {
  import opened Text
  import opened Aggregation

  /** A butcher product: unique code, display name, price, screen position, active flag. */
  datatype Product = Product(id: nat, code: string, name: string, price: real, position: int, active: bool)

  /** A PriceHistory row: the product's code and name at the time, old and new price. */
  datatype PriceChange = PriceChange(code: string, name: string, oldPrice: real, newPrice: real, delta: real, job: Option<string>)

  datatype ConflictKind = PriceConflict | NameConflict

  /** An ImportConflict row. */
  datatype Conflict = Conflict(
    job: Option<string>, code: string, kind: ConflictKind,
    currentName: string, newName: string, currentPrice: real, newPrice: real, delta: real)

  /** A product shown on a department panel. */
  datatype Association = Association(id: nat, productId: nat, panelId: string, activeInPanel: bool)

  function ProductCode(p: Product): string { p.code }

  function ProductPrice(p: Product): real { p.price }

  /** The product stored under `code`, if any. */
  function ProductAt(ps: seq<Product>, code: string): (r: Option<Product>)
    ensures r.Some? ==> r.value in ps && r.value.code == code
    ensures r.None? ==> forall i :: 0 <= i < |ps| ==> ps[i].code != code
  {
    var i := IndexOfCode(ps, ProductCode, code);
    if i < 0 then None else Some(ps[i])
  }

  /** The screen positions of all products (`[p.posicao for p in ButcherProduct.query.all()]`). */
  function Positions(ps: seq<Product>): (r: seq<int>)
    ensures |r| == |ps|
    ensures forall i :: 0 <= i < |ps| ==> r[i] == ps[i].position
  {
    if ps == [] then [] else Positions(ps[..|ps| - 1]) + [ps[|ps| - 1].position]
  }

  /** Every row id is below `next` and no two products share an id. */
  ghost predicate IdsBelow(ps: seq<Product>, assocs: seq<Association>, next: nat)
  {
    && (forall i :: 0 <= i < |ps| ==> ps[i].id < next)
    && (forall i :: 0 <= i < |assocs| ==> assocs[i].id < next)
    && (forall i, j :: 0 <= i < j < |ps| ==> ps[i].id != ps[j].id)
    && (forall i, j :: 0 <= i < j < |assocs| ==> assocs[i].id != assocs[j].id)
  }

  // ---------------------------------------------------------------------------
  // The smallest free position
  // ---------------------------------------------------------------------------

  /** If 1..k all occur in `ps`, then `ps` has at least k elements. */
  lemma {:induction false} Pigeonhole(ps: seq<int>, k: nat)
    requires forall q :: 1 <= q <= k ==> q in ps
    ensures k <= |ps|
    decreases k
  {
    if k > 0 {
      assert k in ps;
      var j :| 0 <= j < |ps| && ps[j] == k;
      var rest := ps[..j] + ps[j + 1..];
      forall q | 1 <= q <= k - 1
        ensures q in rest
      {
        assert q in ps;
        var m :| 0 <= m < |ps| && ps[m] == q;
        if m < j {
          assert rest[m] == q;
        } else {
          assert rest[m - 1] == q;
        }
      }
      Pigeonhole(rest, k - 1);
    }
  }

  function FreeFrom(ps: seq<int>, p: int): (r: int)
    requires 1 <= p
    requires forall q :: 1 <= q < p ==> q in ps
    ensures p <= r && r !in ps && forall q :: 1 <= q < r ==> q in ps
    decreases |ps| + 1 - p
  {
    if p in ps then
      Pigeonhole(ps, p);
      FreeFrom(ps, p + 1)
    else p
  }

  /** The smallest positive integer that does not occur in `ps`. */
  function SmallestFree(ps: seq<int>): (r: int)
    ensures r >= 1 && r !in ps
    ensures forall q :: 1 <= q < r ==> q in ps
  {
    FreeFrom(ps, 1)
  }

  /** The smallest free position is the only positive integer that is free while
      every smaller one is taken. */
  lemma SmallestFreeUnique(ps: seq<int>, r: int)
    requires r >= 1 && r !in ps
    requires forall q :: 1 <= q < r ==> q in ps
    ensures r == SmallestFree(ps)
  {
  }

  /** The source's search: start at 1 and step past every occupied position. */
  method FreePosition(ps: seq<int>) returns (p: int)
    ensures p == SmallestFree(ps)
  {
    p := 1;
    while p in ps
      invariant 1 <= p
      invariant forall q :: 1 <= q < p ==> q in ps
      decreases |ps| + 1 - p
    {
      Pigeonhole(ps, p);
      p := p + 1;
    }
    SmallestFreeUnique(ps, p);
  }
}
