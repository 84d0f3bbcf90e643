/**
 * Position checks on the frontend (sistema-paineis-tv/src/hooks/usePositionConflict.ts):
 * finding panel positions held by more than one product, checking a position
 * while it is edited, and suggesting free positions.
 */
module PositionConflict {
  import opened Text
  import opened Seqs

  /** The fields of a product that the checks read; `department` may be unset. */
  datatype Product = Product(id: string, name: string, code: string, department: Option<string>)

  /** A product-panel association; its position may be `null`. */
  datatype Association = Association(id: string, productId: string, panelId: string, position: Option<int>)

  /** What a conflict lists about each product. */
  datatype Entry = Entry(id: string, name: string, code: string, department: string)

  datatype Severity = Warning | Error

  datatype Conflict = Conflict(position: int, products: seq<Entry>, severity: Severity)

  // ---------------------------------------------------------------------------
  // Conflict detection
  // ---------------------------------------------------------------------------

  /** `products.find(p => p.id === id)`. */
  function FindProduct(products: seq<Product>, id: string): (r: Option<Product>)
    ensures r.Some? ==> r.value in products && r.value.id == id
    ensures r.None? ==> forall p :: p in products ==> p.id != id
  {
    if products == [] then None
    else if products[0].id == id then Some(products[0])
    else FindProduct(products[1..], id)
  }

  function EntryOf(p: Product): Entry
  {
    Entry(p.id, p.name, p.code,
          if p.department.Some? && p.department.value != "" then p.department.value else "Sem departamento")
  }

  /** What one association adds to the position map: its position and its product,
      when it has a position and its product is known. */
  function Contribution(products: seq<Product>, a: Association): Option<(int, Entry)>
  {
    if a.position.None? then None
    else
      var p := FindProduct(products, a.productId);
      if p.None? then None else Some((a.position.value, EntryOf(p.value)))
  }

  /** The reference: the products of the associations at position `k`, in order. */
  function Members(products: seq<Product>, assocs: seq<Association>, k: int): seq<Entry>
  {
    if assocs == [] then []
    else
      var c := Contribution(products, assocs[|assocs| - 1]);
      Members(products, assocs[..|assocs| - 1], k) + (if c.Some? && c.value.0 == k then [c.value.1] else [])
  }

  /** The position map after the first `forEach`. */
  function Groups(products: seq<Product>, assocs: seq<Association>): map<int, seq<Entry>>
  {
    if assocs == [] then map[]
    else
      var m := Groups(products, assocs[..|assocs| - 1]);
      var c := Contribution(products, assocs[|assocs| - 1]);
      if c.None? then m
      else m[c.value.0 := (if c.value.0 in m then m[c.value.0] else []) + [c.value.1]]
  }

  /** The map's keys in insertion order, as a JavaScript `Map` iterates them. */
  function Order(products: seq<Product>, assocs: seq<Association>): seq<int>
  {
    if assocs == [] then []
    else
      var o := Order(products, assocs[..|assocs| - 1]);
      var c := Contribution(products, assocs[|assocs| - 1]);
      if c.None? || c.value.0 in o then o else o + [c.value.0]
  }

  /** The conflicts listed for the keys `order` of map `m`. */
  function ConflictsFrom(order: seq<int>, m: map<int, seq<Entry>>): seq<Conflict>
  {
    if order == [] then []
    else
      var rest := ConflictsFrom(order[..|order| - 1], m);
      var k := order[|order| - 1];
      if k in m && |m[k]| > 1 then rest + [Conflict(k, m[k], Error)] else rest
  }

  function Conflicts(products: seq<Product>, assocs: seq<Association>): seq<Conflict>
  {
    ConflictsFrom(Order(products, assocs), Groups(products, assocs))
  }

  /** `detectPositionConflicts`: group the associations by position in a map, then
      list the positions holding more than one product. */
  method DetectPositionConflicts(products: seq<Product>, assocs: seq<Association>) returns (conflicts: seq<Conflict>)
    ensures conflicts == Conflicts(products, assocs)
  {
    var positionMap, order := GroupByPosition(products, assocs);
    GroupsKeys(products, assocs);
    conflicts := ListConflicts(order, positionMap);
  }

  /** The first loop of `detectPositionConflicts`: the map from position to the
      products placed there, and the positions in first-seen order. */
  method GroupByPosition(products: seq<Product>, assocs: seq<Association>)
    returns (positionMap: map<int, seq<Entry>>, order: seq<int>)
    ensures positionMap == Groups(products, assocs) && order == Order(products, assocs)
  {
    positionMap, order := map[], [];
    for n := 0 to |assocs|
      invariant positionMap == Groups(products, assocs[..n])
      invariant order == Order(products, assocs[..n])
    {
      assert assocs[..n + 1][..n] == assocs[..n];
      var a := assocs[n];
      if a.position.Some? {
        var product := FindProduct(products, a.productId);
        if product.Some? {
          var k := a.position.value;
          GroupsKeys(products, assocs[..n]);
          if k !in positionMap {
            positionMap := positionMap[k := []];
            order := order + [k];
          }
          positionMap := positionMap[k := positionMap[k] + [EntryOf(product.value)]];
        }
      }
    }
    assert assocs[..|assocs|] == assocs;
  }

  /** The second loop: one conflict per listed position with more than one product. */
  method ListConflicts(order: seq<int>, positionMap: map<int, seq<Entry>>) returns (conflicts: seq<Conflict>)
    requires forall k :: k in order ==> k in positionMap
    ensures conflicts == ConflictsFrom(order, positionMap)
  {
    conflicts := [];
    for i := 0 to |order|
      invariant conflicts == ConflictsFrom(order[..i], positionMap)
    {
      assert order[..i + 1][..i] == order[..i];
      var k := order[i];
      if |positionMap[k]| > 1 {
        conflicts := conflicts + [Conflict(k, positionMap[k], Error)];
      }
    }
    assert order[..|order|] == order;
  }

  /** The map's keys are exactly the listed positions, each listed once, and each
      holds the reference group. */
  lemma {:induction false} GroupsKeys(products: seq<Product>, assocs: seq<Association>)
    ensures forall k :: k in Groups(products, assocs) <==> k in Order(products, assocs)
    ensures forall i, j :: 0 <= i < j < |Order(products, assocs)| ==> Order(products, assocs)[i] != Order(products, assocs)[j]
    ensures forall k :: k in Groups(products, assocs) ==> Groups(products, assocs)[k] == Members(products, assocs, k)
    ensures forall k :: k !in Groups(products, assocs) ==> Members(products, assocs, k) == []
  {
    if assocs != [] {
      GroupsKeys(products, assocs[..|assocs| - 1]);
    }
  }

  lemma {:induction false} ConflictsFromSpec(order: seq<int>, m: map<int, seq<Entry>>)
    ensures forall c :: c in ConflictsFrom(order, m) ==>
      c.position in order && c.position in m && c.products == m[c.position] && |c.products| > 1 && c.severity == Error
    ensures forall k :: k in order && k in m && |m[k]| > 1 ==> exists c :: c in ConflictsFrom(order, m) && c.position == k
  {
    if order != [] {
      var pre := order[..|order| - 1];
      ConflictsFromSpec(pre, m);
      forall k | k in order && k in m && |m[k]| > 1
        ensures exists c :: c in ConflictsFrom(order, m) && c.position == k
      {
        if k != order[|order| - 1] {
          assert k in pre;
        } else {
          assert Conflict(k, m[k], Error) in ConflictsFrom(order, m);
        }
      }
    }
  }

  /** A position is reported iff at least two associations at it reference known
      products; the report lists exactly those products, as an error. */
  lemma ConflictSpec(products: seq<Product>, assocs: seq<Association>, k: int)
    ensures (exists c :: c in Conflicts(products, assocs) && c.position == k) <==> |Members(products, assocs, k)| >= 2
    ensures forall c :: c in Conflicts(products, assocs) ==>
      c.products == Members(products, assocs, c.position) && |c.products| >= 2 && c.severity == Error
  {
    GroupsKeys(products, assocs);
    ConflictsFromSpec(Order(products, assocs), Groups(products, assocs));
  }

  /** An association without a position, or with an unknown product, is in no group. */
  lemma {:induction false} SkippedNeverCount(products: seq<Product>, assocs: seq<Association>, a: Association, k: int)
    requires a.position.None? || FindProduct(products, a.productId).None?
    ensures Members(products, assocs + [a], k) == Members(products, assocs, k)
  {
    assert (assocs + [a])[..|assocs|] == assocs;
  }

  /** `conflicts.reduce((total, c) => total + c.products.length, 0)`. */
  function TotalConflicts(cs: seq<Conflict>): nat
  {
    if cs == [] then 0 else TotalConflicts(cs[..|cs| - 1]) + |cs[|cs| - 1].products|
  }

  /** Every conflict lists at least two products, so `hasConflicts` (a non-empty list)
      holds exactly when the total is positive. */
  lemma {:induction false} TotalConflictsBound(products: seq<Product>, assocs: seq<Association>)
    ensures TotalConflicts(Conflicts(products, assocs)) >= 2 * |Conflicts(products, assocs)|
    ensures |Conflicts(products, assocs)| > 0 <==> TotalConflicts(Conflicts(products, assocs)) > 0
  {
    ConflictSpec(products, assocs, 0);
    TotalBound(Conflicts(products, assocs));
  }

  lemma {:induction false} TotalBound(cs: seq<Conflict>)
    requires forall c :: c in cs ==> |c.products| > 1
    ensures TotalConflicts(cs) >= 2 * |cs|
  {
    if cs != [] {
      TotalBound(cs[..|cs| - 1]);
      assert cs[|cs| - 1] in cs;
    }
  }

  // ---------------------------------------------------------------------------
  // Checking one position
  // ---------------------------------------------------------------------------

  datatype Verdict = Verdict(isValid: bool, error: Option<string>, warning: Option<string>)

  const MsgNotPositive := "A posição deve ser maior que 0"

  function MsgInUse(position: int): string
    requires position > 0
  {
    "Posição " + NatToDecimal(position) + " já está em uso por outro produto"
  }

  function MsgGap(position: int, max: nat): string
    requires position > 0
  {
    "Posição " + NatToDecimal(position) + " cria uma lacuna. Considere usar " + NatToDecimal(max + 1)
  }

  /** Another product's association holds `position` (the ignored association aside). */
  predicate Taken(position: int, productId: string, assocs: seq<Association>, ignore: Option<string>)
  {
    exists a :: a in assocs && a.position == Some(position) && a.productId != productId
      && (ignore.None? || a.id != ignore.value)
  }

  /** `Math.max(...assocs.map(a => a.position || 0), 0)`. */
  function MaxPosition(assocs: seq<Association>): (m: nat)
    ensures forall a :: a in assocs && a.position.Some? ==> a.position.value <= m
    ensures m > 0 ==> exists a :: a in assocs && a.position == Some(m)
  {
    if assocs == [] then 0
    else
      var rest := MaxPosition(assocs[..|assocs| - 1]);
      var a := assocs[|assocs| - 1];
      var p := if a.position.Some? then a.position.value else 0;
      assert forall b :: b in assocs ==> b in assocs[..|assocs| - 1] || b == a;
      if p > rest then p else rest
  }

  /** What `validatePosition` returns, checking in order: unset, not positive, held
      by another product, a gap past the highest position in use.  A position is
      accepted iff it is unset, or positive and held by no other product; an error
      comes exactly with rejection, a warning only with a position more than one
      past every position in use, some of which is positive. */
  function CheckPosition(position: Option<int>, productId: string, assocs: seq<Association>, ignore: Option<string>): (v: Verdict)
    ensures v.isValid <==> position.None? || (position.value > 0 && !Taken(position.value, productId, assocs, ignore))
    ensures v.error.Some? <==> !v.isValid
    ensures v.warning.Some? ==>
      && v.isValid && position.Some?
      && (forall a :: a in assocs && a.position.Some? ==> a.position.value + 1 < position.value)
      && (exists a :: a in assocs && a.position.Some? && a.position.value > 0)
  {
    if position.None? then Verdict(true, None, None)
    else if position.value <= 0 then Verdict(false, Some(MsgNotPositive), None)
    else if Taken(position.value, productId, assocs, ignore) then Verdict(false, Some(MsgInUse(position.value)), None)
    else
      var max := MaxPosition(assocs);
      if position.value > max + 1 && max > 0 then Verdict(true, None, Some(MsgGap(position.value, max)))
      else Verdict(true, None, None)
  }

  /** The hook's state: the error and the warning recorded per product id. */
  class PositionValidator {
    var errors: map<string, string>
    var warnings: map<string, string>

    constructor ()
      ensures errors == map[] && warnings == map[]
    {
      errors := map[];
      warnings := map[];
    }

    /** `validatePosition`: the verdict of `CheckPosition`; a rejection records the
        error, acceptance of a set position clears it, and the warning is recorded or
        cleared alongside. */
    method ValidatePosition(position: Option<int>, productId: string, assocs: seq<Association>, ignore: Option<string>)
      returns (v: Verdict)
      modifies this
      ensures v == CheckPosition(position, productId, assocs, ignore)
      ensures position.None? ==> errors == old(errors) && warnings == old(warnings)
      ensures position.Some? && !v.isValid ==> errors == old(errors)[productId := v.error.value] && warnings == old(warnings)
      ensures position.Some? && v.isValid ==> errors == old(errors) - {productId}
      ensures position.Some? && v.isValid && v.warning.Some? ==> warnings == old(warnings)[productId := v.warning.value]
      ensures position.Some? && v.isValid && v.warning.None? ==> warnings == old(warnings) - {productId}
    {
      if position.None? {
        return Verdict(true, None, None);
      }
      var p := position.value;
      if p <= 0 {
        errors := errors[productId := MsgNotPositive];
        return Verdict(false, Some(MsgNotPositive), None);
      }
      if Taken(p, productId, assocs, ignore) {
        var error := MsgInUse(p);
        errors := errors[productId := error];
        return Verdict(false, Some(error), None);
      }
      errors := errors - {productId};
      var max := MaxPosition(assocs);
      if p > max + 1 && max > 0 {
        var warning := MsgGap(p, max);
        warnings := warnings[productId := warning];
        return Verdict(true, None, Some(warning));
      }
      warnings := warnings - {productId};
      return Verdict(true, None, None);
    }
  }

  // ---------------------------------------------------------------------------
  // Suggestions
  // ---------------------------------------------------------------------------

  /** The positions set on some association. */
  function Occupied(assocs: seq<Association>): set<int>
  {
    set a | a in assocs && a.position.Some? :: a.position.value
  }

  /** `a, a + 1, ..., b - 1`. */
  function Range(a: int, b: int): (r: seq<int>)
    requires a <= b
    ensures |r| == b - a
    ensures forall i :: 0 <= i < |r| ==> r[i] == a + i
  {
    seq(b - a, i => a + i)
  }

  lemma RangeSplit(a: int, m: int, b: int)
    requires a <= m <= b
    ensures Range(a, b) == Range(a, m) + Range(m, b)
  {
  }

  /** The unoccupied positions among 1..100, in order. */
  function FreePositions(assocs: seq<Association>): seq<int>
  {
    FreeBelow(Occupied(assocs), 101)
  }

  function IsFree(occupied: set<int>): int -> bool
  {
    k => k !in occupied
  }

  /** The free positions are ascending and are exactly the unoccupied ones in 1..100. */
  lemma FreePositionsSpec(assocs: seq<Association>)
    ensures var r := FreePositions(assocs);
      && (forall i, j :: 0 <= i < j < |r| ==> r[i] < r[j])
      && (forall k :: k in r <==> 1 <= k <= 100 && k !in Occupied(assocs))
  {
    var occ := Occupied(assocs);
    var f := IsFree(occ);
    forall k
      ensures k in Filter(Range(1, 101), f) <==> 1 <= k <= 100 && k !in occ
    {
      FilterMember(Range(1, 101), f, k);
      if 1 <= k <= 100 {
        assert Range(1, 101)[k - 1] == k;
      }
    }
    FilterAscending(Range(1, 101), f);
    assert FreePositions(assocs) == Filter(Range(1, 101), f);
  }

  /** `suggestAvailablePositions`: the first `limit` free positions among 1..100. */
  method SuggestAvailablePositions(assocs: seq<Association>, limit: int) returns (suggestions: seq<int>)
    ensures var free := FreePositions(assocs);
      suggestions == free[..if limit < 0 then 0 else if limit < |free| then limit else |free|]
  {
    var occupied := Occupied(assocs);
    suggestions := [];
    var position := 1;
    while |suggestions| < limit && position <= 100
      invariant 1 <= position <= 101
      invariant suggestions == FreeBelow(occupied, position)
      invariant |suggestions| <= if limit < 0 then 0 else limit
    {
      FreeBelowStep(occupied, position);
      if position !in occupied {
        suggestions := suggestions + [position];
      }
      position := position + 1;
    }
    FreeBelowPrefix(occupied, position);
    var free := FreePositions(assocs);
    assert free[..|free|] == free;
  }

  /** The free positions below `p`. */
  function FreeBelow(occupied: set<int>, p: int): seq<int>
    requires 1 <= p
  {
    Filter(Range(1, p), IsFree(occupied))
  }

  lemma FreeBelowStep(occupied: set<int>, p: int)
    requires 1 <= p
    ensures FreeBelow(occupied, p + 1) == FreeBelow(occupied, p) + (if p !in occupied then [p] else [])
  {
    var f := IsFree(occupied);
    RangeSplit(1, p, p + 1);
    FilterAppend(Range(1, p), Range(p, p + 1), f);
    assert Range(p, p + 1) == [p];
    FilterSingle(p, f);
  }

  /** What has been collected below `p` begins the list of all free positions. */
  lemma FreeBelowPrefix(occupied: set<int>, p: int)
    requires 1 <= p <= 101
    ensures var all := FreeBelow(occupied, 101); var s := FreeBelow(occupied, p);
      |s| <= |all| && all[..|s|] == s && (p == 101 ==> s == all)
  {
    var f := IsFree(occupied);
    RangeSplit(1, p, 101);
    FilterAppend(Range(1, p), Range(p, 101), f);
  }

  /** The set positions, ascending (`map`, `filter`, `sort((a, b) => a - b)`). */
  function SetPositions(assocs: seq<Association>): (r: seq<int>)
    ensures SortedBy(r, x => x)
  {
    SortByKey(PositionsOf(assocs), x => x)
  }

  function PositionsOf(assocs: seq<Association>): seq<int>
  {
    if assocs == [] then []
    else
      var a := assocs[|assocs| - 1];
      PositionsOf(assocs[..|assocs| - 1]) + (if a.position.Some? then [a.position.value] else [])
  }

  /** The answer of `suggestNextPosition` for ascending positions: one past the
      first position followed by a gap, else one past the last. */
  function NextPosition(ps: seq<int>): int
  {
    if ps == [] then 1 else NextFrom(ps, 0)
  }

  function NextFrom(ps: seq<int>, i: nat): int
    requires i < |ps|
    decreases |ps| - i
  {
    if i == |ps| - 1 then ps[i] + 1
    else if ps[i + 1] - ps[i] > 1 then ps[i] + 1
    else NextFrom(ps, i + 1)
  }

  /** `suggestNextPosition`: sort the set positions and scan for the first gap. */
  method SuggestNextPosition(assocs: seq<Association>) returns (r: int)
    ensures r == NextPosition(SetPositions(assocs))
  {
    var positions := SetPositions(assocs);
    if |positions| == 0 {
      return 1;
    }
    for i := 0 to |positions| - 1
      invariant NextFrom(positions, i) == NextFrom(positions, 0)
    {
      if positions[i + 1] - positions[i] > 1 {
        return positions[i] + 1;
      }
    }
    return positions[|positions| - 1] + 1;
  }

  /** The suggestion is 1 when nothing is set; otherwise it is free and above the
      smallest set position. */
  lemma NextPositionSpec(assocs: seq<Association>)
    ensures var ps := SetPositions(assocs); var r := NextPosition(ps);
      && (ps == [] ==> r == 1)
      && (ps != [] ==> r !in ps && r > ps[0])
  {
    var ps := SetPositions(assocs);
    if ps != [] {
      NextFromSpec(ps, 0);
    }
  }

  lemma {:induction false} NextFromSpec(ps: seq<int>, i: nat)
    requires i < |ps| && SortedBy(ps, x => x)
    ensures NextFrom(ps, i) > ps[i]
    ensures forall j :: 0 <= j <= i ==> ps[j] <= ps[i]
    ensures (forall j :: 0 <= j < i ==> ps[j + 1] - ps[j] <= 1) ==> NextFrom(ps, i) !in ps
    decreases |ps| - i
  {
    if i < |ps| - 1 && ps[i + 1] - ps[i] <= 1 {
      NextFromSpec(ps, i + 1);
    }
  }
}
