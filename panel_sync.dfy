/**
 * `perform_sync_department_panel` (BACKEND/app.py): bring one department
 * panel's product list in line with the department's keywords.
 *
 * 1. Every association of the panel whose product name does not match is
 *    deleted.  Of the matching ones, one per normalised name is kept: a later
 *    association replaces the kept one only when its product is strictly dearer;
 *    the loser is deleted.  When either product of such a pair is missing, the
 *    price lookup fails and the later association is deleted.
 * 2. Every active product that no remaining association of the panel refers to
 *    and whose name matches is a candidate; per normalised name the dearest
 *    (first seen on ties) gets a new association, active on the panel.
 */
module PanelSync {
  import opened Text
  import opened Aggregation
  import opened Catalog
  import opened NameMatch
  import opened Seqs

  /** The keyword test: the Unicode tables, the department's keywords, exact or substring mode. */
  datatype Rule = Rule(u: UnicodeTables, keywords: seq<string>, exact: bool)

  predicate NameMatches(r: Rule, name: string)
  {
    Matches(r.u, r.keywords, r.exact, name)
  }

  // ---------------------------------------------------------------------------
  // Looking up an association's product
  // ---------------------------------------------------------------------------

  /** `assoc.product`: the product with the association's product id, if it still exists. */
  function ProductById(ps: seq<Product>, id: nat): (r: Option<Product>)
    ensures r.Some? ==> r.value in ps && r.value.id == id
    ensures r.None? ==> forall i :: 0 <= i < |ps| ==> ps[i].id != id
  {
    if ps == [] then None else if ps[0].id == id then Some(ps[0]) else ProductById(ps[1..], id)
  }

  predicate Orphan(ps: seq<Product>, a: Association)
  {
    ProductById(ps, a.productId).None?
  }

  /** `assoc.product.nome if assoc.product else ''`. */
  function AssocName(ps: seq<Product>, a: Association): string
  {
    match ProductById(ps, a.productId)
    case Some(p) => p.name
    case None => ""
  }

  function AssocPrice(ps: seq<Product>, a: Association): real
  {
    match ProductById(ps, a.productId)
    case Some(p) => p.price
    case None => 0.0
  }

  /** The normalised name an association is grouped under. */
  function AssocKey(ps: seq<Product>, u: UnicodeTables): Association -> string
  {
    (a: Association) => Norm(u, AssocName(ps, a))
  }

  function AssocPrices(ps: seq<Product>): Association -> real
  {
    (a: Association) => AssocPrice(ps, a)
  }

  function ProductKey(u: UnicodeTables): Product -> string
  {
    (p: Product) => Norm(u, p.name)
  }

  function IsOn(panel: string): Association -> bool
  {
    (a: Association) => a.panelId == panel
  }

  function IsOff(panel: string): Association -> bool
  {
    (a: Association) => a.panelId != panel
  }

  /** An association survives step 1 unless it is on the panel and was not kept. */
  function Survives(panel: string, kept: seq<Association>): Association -> bool
  {
    (a: Association) => a.panelId != panel || a in kept
  }

  function OnPanel(assocs: seq<Association>, panel: string): seq<Association>
  {
    Filter(assocs, IsOn(panel))
  }

  function OtherPanels(assocs: seq<Association>, panel: string): seq<Association>
  {
    Filter(assocs, IsOff(panel))
  }

  // ---------------------------------------------------------------------------
  // Step 1: keep one matching association per name
  // ---------------------------------------------------------------------------

  /** How the first loop judges an association: whether its product name matches,
      the normalised name it is grouped under, its product's price, and whether
      its product is missing. */
  datatype Judge = Judge(
    matches: Association -> bool, key: Association -> string,
    price: Association -> real, orphan: Association -> bool)

  /** The judge `perform_sync_department_panel` uses. */
  function JudgeOf(ps: seq<Product>, r: Rule): Judge
  {
    Judge((a: Association) => NameMatches(r, AssocName(ps, a)), AssocKey(ps, r.u),
          AssocPrices(ps), (a: Association) => Orphan(ps, a))
  }

  /** `keep_map` (in insertion order), the associations deleted for not matching,
      and `dup_remove`. */
  datatype KeepState = KeepState(kept: seq<Association>, unmatched: seq<Association>, dups: seq<Association>)

  /** One iteration of the first loop. */
  function KeepStep(j: Judge, st: KeepState, a: Association): KeepState
  {
    if !j.matches(a) then st.(unmatched := st.unmatched + [a])
    else
      var i := IndexOfCode(st.kept, j.key, j.key(a));
      if i < 0 then st.(kept := st.kept + [a])
      // the price lookup fails when either product is missing
      else if j.orphan(st.kept[i]) || j.orphan(a) then st.(dups := st.dups + [a])
      else if j.price(a) > j.price(st.kept[i]) then
        st.(kept := st.kept[i := a], dups := st.dups + [st.kept[i]])
      else st.(dups := st.dups + [a])
  }

  function KeepPass(j: Judge, assocs: seq<Association>): KeepState
  {
    if assocs == [] then KeepState([], [], [])
    else KeepStep(j, KeepPass(j, assocs[..|assocs| - 1]), assocs[|assocs| - 1])
  }

  /** Every association ends up kept, deleted as unmatched, or deleted as a
      duplicate — exactly one of them; kept and duplicate ones match, the others
      do not; and no two kept associations share a normalised name. */
  lemma KeepPassPartition(j: Judge, assocs: seq<Association>)
    ensures var st := KeepPass(j, assocs);
      && multiset(st.kept) + multiset(st.unmatched) + multiset(st.dups) == multiset(assocs)
      && (forall i :: 0 <= i < |st.kept| ==> j.matches(st.kept[i]))
      && (forall i :: 0 <= i < |st.dups| ==> j.matches(st.dups[i]))
      && (forall i :: 0 <= i < |st.unmatched| ==> !j.matches(st.unmatched[i]))
      && CodesUnique(st.kept, j.key)
  {
    KeepPassMultiset(j, assocs);
    KeepPassMatches(j, assocs);
  }

  lemma {:induction false} KeepPassMultiset(j: Judge, assocs: seq<Association>)
    ensures var st := KeepPass(j, assocs);
      multiset(st.kept) + multiset(st.unmatched) + multiset(st.dups) == multiset(assocs)
  {
    if assocs != [] {
      var pre := assocs[..|assocs| - 1];
      var a := assocs[|assocs| - 1];
      KeepPassMultiset(j, pre);
      assert assocs == pre + [a];
      KeepStepMultiset(j, KeepPass(j, pre), a);
    }
  }

  lemma {:induction false} KeepPassMatches(j: Judge, assocs: seq<Association>)
    ensures var st := KeepPass(j, assocs);
      && (forall i :: 0 <= i < |st.kept| ==> j.matches(st.kept[i]))
      && (forall i :: 0 <= i < |st.dups| ==> j.matches(st.dups[i]))
      && (forall i :: 0 <= i < |st.unmatched| ==> !j.matches(st.unmatched[i]))
      && CodesUnique(st.kept, j.key)
  {
    if assocs != [] {
      var pre := assocs[..|assocs| - 1];
      var a := assocs[|assocs| - 1];
      KeepPassMatches(j, pre);
      KeepStepMatches(j, KeepPass(j, pre), a);
      KeepStepUnique(j, KeepPass(j, pre), a);
    }
  }

  lemma KeepStepMatches(j: Judge, st: KeepState, a: Association)
    requires forall i :: 0 <= i < |st.kept| ==> j.matches(st.kept[i])
    requires forall i :: 0 <= i < |st.dups| ==> j.matches(st.dups[i])
    ensures var nx := KeepStep(j, st, a);
      && (forall i :: 0 <= i < |nx.kept| ==> j.matches(nx.kept[i]))
      && (forall i :: 0 <= i < |nx.dups| ==> j.matches(nx.dups[i]))
      && nx.unmatched == st.unmatched + (if j.matches(a) then [] else [a])
  {
  }

  lemma KeepStepUnique(j: Judge, st: KeepState, a: Association)
    requires CodesUnique(st.kept, j.key)
    ensures CodesUnique(KeepStep(j, st, a).kept, j.key)
  {
    if j.matches(a) {
      var i := IndexOfCode(st.kept, j.key, j.key(a));
      if i >= 0 {
        KeepReplaceUnique(st.kept, i, a, j.key);
      } else {
        KeepAppendUnique(st.kept, a, j.key);
      }
    }
  }

  lemma KeepStepMultiset(j: Judge, st: KeepState, a: Association)
    ensures var nx := KeepStep(j, st, a);
      multiset(nx.kept) + multiset(nx.unmatched) + multiset(nx.dups)
      == multiset(st.kept) + multiset(st.unmatched) + multiset(st.dups) + multiset{a}
  {
    var nx := KeepStep(j, st, a);
    if !j.matches(a) {
      assert nx.kept == st.kept && nx.dups == st.dups && nx.unmatched == st.unmatched + [a];
    } else {
      var i := IndexOfCode(st.kept, j.key, j.key(a));
      if i < 0 {
        assert nx.kept == st.kept + [a] && nx.dups == st.dups && nx.unmatched == st.unmatched;
      } else if nx.kept == st.kept {
        assert nx.dups == st.dups + [a] && nx.unmatched == st.unmatched;
      } else {
        assert nx.kept == st.kept[i := a] && nx.dups == st.dups + [st.kept[i]] && nx.unmatched == st.unmatched;
        KeepReplaceMultiset(st.kept, i, a);
      }
    }
  }

  lemma KeepReplaceMultiset(k: seq<Association>, i: nat, a: Association)
    requires i < |k|
    ensures multiset(k[i := a]) + multiset([k[i]]) == multiset(k) + multiset{a}
  {
    assert k == k[..i] + [k[i]] + k[i + 1..];
    assert k[i := a] == k[..i] + [a] + k[i + 1..];
  }

  lemma KeepReplaceUnique(k: seq<Association>, i: nat, a: Association, key: Association -> string)
    requires i < |k| && key(a) == key(k[i]) && CodesUnique(k, key)
    ensures CodesUnique(k[i := a], key)
  {
  }

  lemma KeepAppendUnique(k: seq<Association>, a: Association, key: Association -> string)
    requires IndexOfCode(k, key, key(a)) < 0 && CodesUnique(k, key)
    ensures CodesUnique(k + [a], key)
  {
  }

  /** Between associations whose products exist, a step of the first loop is a
      step of the by-code aggregation. */
  lemma KeepStepIsMerge(j: Judge, st: KeepState, a: Association)
    requires j.matches(a) && !j.orphan(a)
    requires forall i :: 0 <= i < |st.kept| ==> !j.orphan(st.kept[i])
    ensures KeepStep(j, st, a).kept == Merge(st.kept, a, j.key, j.price)
  {
  }

  lemma KeptFromInput(j: Judge, assocs: seq<Association>)
    requires forall i :: 0 <= i < |assocs| && j.matches(assocs[i]) ==> !j.orphan(assocs[i])
    ensures var st := KeepPass(j, assocs); forall i :: 0 <= i < |st.kept| ==> !j.orphan(st.kept[i])
  {
    var st := KeepPass(j, assocs);
    KeepPassPartition(j, assocs);
    forall i | 0 <= i < |st.kept|
      ensures !j.orphan(st.kept[i])
    {
      assert st.kept[i] in multiset(assocs);
    }
  }

  /** With no missing product among the matching associations, the first loop is
      the by-name aggregation of the matching associations: the dearest of each
      name, the first seen on ties. */
  lemma {:induction false} KeepPassAggregates(j: Judge, assocs: seq<Association>)
    requires forall i :: 0 <= i < |assocs| && j.matches(assocs[i]) ==> !j.orphan(assocs[i])
    ensures KeepPass(j, assocs).kept == Aggregate(Filter(assocs, j.matches), j.key, j.price)
  {
    if assocs != [] {
      var pre := assocs[..|assocs| - 1];
      var a := assocs[|assocs| - 1];
      assert forall i :: 0 <= i < |pre| ==> pre[i] == assocs[i];
      KeepPassAggregates(j, pre);
      var st := KeepPass(j, pre);
      var m := Filter(pre, j.matches);
      if j.matches(a) {
        KeptFromInput(j, pre);
        KeepStepIsMerge(j, st, a);
        assert Filter(assocs, j.matches) == m + [a];
        assert (m + [a])[..|m|] == m;
      } else {
        assert Filter(assocs, j.matches) == m;
      }
    }
  }

  /** The kept associations are the dearest of their names among the matching ones. */
  lemma KeptAreDearest(j: Judge, assocs: seq<Association>)
    requires forall i :: 0 <= i < |assocs| && j.matches(assocs[i]) ==> !j.orphan(assocs[i])
    ensures AllWin(Filter(assocs, j.matches), KeepPass(j, assocs).kept, j.key, j.price)
  {
    KeepPassAggregates(j, assocs);
    AggregateWinners(Filter(assocs, j.matches), j.key, j.price);
  }

  /** Unless some keyword normalises to the empty string, an association whose
      product is gone does not match. */
  lemma OrphanNeverMatches(ps: seq<Product>, r: Rule, a: Association)
    requires forall k :: k in r.keywords ==> Norm(r.u, k) != ""
    ensures JudgeOf(ps, r).orphan(a) ==> !JudgeOf(ps, r).matches(a)
  {
    EmptyNameMatch(r.u, r.keywords, r.exact);
  }

  /** ... so every such association is deleted as unmatched. */
  lemma OrphansRemoved(ps: seq<Product>, r: Rule, assocs: seq<Association>)
    requires forall k :: k in r.keywords ==> Norm(r.u, k) != ""
    ensures var st := KeepPass(JudgeOf(ps, r), assocs);
      && (forall i :: 0 <= i < |st.kept| ==> !Orphan(ps, st.kept[i]))
      && (forall i :: 0 <= i < |st.dups| ==> !Orphan(ps, st.dups[i]))
  {
    var j := JudgeOf(ps, r);
    var st := KeepPass(j, assocs);
    KeepPassPartition(j, assocs);
    forall i | 0 <= i < |st.kept|
      ensures !Orphan(ps, st.kept[i])
    {
      OrphanNeverMatches(ps, r, st.kept[i]);
    }
    forall i | 0 <= i < |st.dups|
      ensures !Orphan(ps, st.dups[i])
    {
      OrphanNeverMatches(ps, r, st.dups[i]);
    }
  }

  // ---------------------------------------------------------------------------
  // Step 2: add the dearest matching candidate per name
  // ---------------------------------------------------------------------------

  function ProductIds(assocs: seq<Association>): (r: seq<nat>)
    ensures |r| == |assocs| && forall i :: 0 <= i < |assocs| ==> r[i] == assocs[i].productId
  {
    if assocs == [] then [] else ProductIds(assocs[..|assocs| - 1]) + [assocs[|assocs| - 1].productId]
  }

  function IsCandidate(r: Rule, onPanel: seq<Association>): Product -> bool
  {
    (p: Product) => p.active && p.id !in ProductIds(onPanel) && NameMatches(r, p.name)
  }

  /** Active products that no remaining association of the panel refers to and
      whose name matches. */
  function MatchingCandidates(ps: seq<Product>, r: Rule, onPanel: seq<Association>): seq<Product>
  {
    Filter(ps, IsCandidate(r, onPanel))
  }

  /** `grouped.values()`. */
  function Selected(ps: seq<Product>, r: Rule, onPanel: seq<Association>): seq<Product>
  {
    Aggregate(MatchingCandidates(ps, r, onPanel), ProductKey(r.u), ProductPrice)
  }

  /** One new association per selected product, with fresh ids from `next`. */
  function NewAssociations(sel: seq<Product>, panel: string, next: nat): (r: seq<Association>)
    ensures |r| == |sel|
    ensures forall i :: 0 <= i < |r| ==> r[i] == Association(next + i, sel[i].id, panel, true)
  {
    if sel == [] then [] else NewAssociations(sel[..|sel| - 1], panel, next) + [Association(next + |sel| - 1, sel[|sel| - 1].id, panel, true)]
  }

  /** What a sync produces: the association table, the id counter, and the two counts. */
  datatype SyncOutcome = SyncOutcome(assocs: seq<Association>, nextId: nat, removed: nat, added: nat)

  /** A sync with a given judge and a given choice of products to add, from the
      associations the first loop keeps. */
  function SyncWith(j: Judge, select: seq<Association> -> seq<Product>, assocs: seq<Association>, panel: string, next: nat): SyncOutcome
  {
    var st := KeepPass(j, OnPanel(assocs, panel));
    var sel := select(st.kept);
    SyncOutcome(Filter(assocs, Survives(panel, st.kept)) + NewAssociations(sel, panel, next),
                next + |sel|, |st.unmatched| + |st.dups|, |sel|)
  }

  /** The whole sync of `panel` against the products `ps` and associations `assocs`. */
  function Sync(ps: seq<Product>, assocs: seq<Association>, panel: string, r: Rule, next: nat): SyncOutcome
  {
    SyncWith(JudgeOf(ps, r), SelectionOf(ps, r), assocs, panel, next)
  }

  /** The products step 2 adds, given the associations step 1 keeps. */
  function SelectionOf(ps: seq<Product>, r: Rule): seq<Association> -> seq<Product>
  {
    (kept: seq<Association>) => Selected(ps, r, kept)
  }

  /** The panel loses exactly the removed associations and gains one per selected product. */
  lemma SyncCounts(j: Judge, select: seq<Association> -> seq<Product>, assocs: seq<Association>, panel: string, next: nat)
    ensures var st := KeepPass(j, OnPanel(assocs, panel));
      var out := SyncWith(j, select, assocs, panel, next);
      && out.removed + |st.kept| == |OnPanel(assocs, panel)|
      && out.added == |select(st.kept)|
      && out.nextId == next + out.added
  {
    var on := OnPanel(assocs, panel);
    KeepPassPartition(j, on);
    var st := KeepPass(j, on);
    assert |multiset(st.kept) + multiset(st.unmatched) + multiset(st.dups)| == |on|;
  }

  /** Associations of other panels are untouched, in order. */
  lemma SyncOtherPanels(j: Judge, select: seq<Association> -> seq<Product>, assocs: seq<Association>, panel: string, next: nat)
    ensures OtherPanels(SyncWith(j, select, assocs, panel, next).assocs, panel) == OtherPanels(assocs, panel)
  {
    var st := KeepPass(j, OnPanel(assocs, panel));
    var keep := Survives(panel, st.kept);
    var remaining := Filter(assocs, keep);
    var added := NewAssociations(select(st.kept), panel, next);
    FilterAppend(remaining, added, IsOff(panel));
    NoneOtherPanel(added, panel);
    FilterTwice(assocs, keep, panel);
  }

  lemma {:induction false} NoneOtherPanel(s: seq<Association>, panel: string)
    requires forall i :: 0 <= i < |s| ==> s[i].panelId == panel
    ensures OtherPanels(s, panel) == []
  {
    if s != [] {
      NoneOtherPanel(s[..|s| - 1], panel);
    }
  }

  lemma {:induction false} FilterTwice(s: seq<Association>, keep: Association -> bool, panel: string)
    requires forall a: Association :: a.panelId != panel ==> keep(a)
    ensures OtherPanels(Filter(s, keep), panel) == OtherPanels(s, panel)
  {
    if s != [] {
      var pre := s[..|s| - 1];
      var x := s[|s| - 1];
      FilterTwice(pre, keep, panel);
      FilterAppend(Filter(pre, keep), if keep(x) then [x] else [], IsOff(panel));
    }
  }

  /** After the sync the panel shows the kept associations and the new ones. */
  lemma SyncPanelContents(j: Judge, select: seq<Association> -> seq<Product>, assocs: seq<Association>, panel: string, next: nat, a: Association)
    ensures var st := KeepPass(j, OnPanel(assocs, panel));
      var out := SyncWith(j, select, assocs, panel, next);
      a in OnPanel(out.assocs, panel) <==>
        a in st.kept || a in NewAssociations(select(st.kept), panel, next)
  {
    var on := OnPanel(assocs, panel);
    var st := KeepPass(j, on);
    var keep := Survives(panel, st.kept);
    var out := SyncWith(j, select, assocs, panel, next);
    KeepPassPartition(j, on);
    FilterMember(out.assocs, IsOn(panel), a);
    FilterMember(assocs, keep, a);
    FilterMember(assocs, IsOn(panel), a);
    if a in st.kept {
      assert a in multiset(on);
    }
  }

  /** Aggregating a filtered sequence: every result passes the filter, one per
      key, each the survivor of its key, and every filtered element's key is
      represented by one at least as dear. */
  /** Aggregation picks its survivors among the filtered items. */
  lemma AggregateKeepsFilter<T>(s: seq<T>, f: T -> bool, key: T -> string, price: T -> real)
    ensures forall p :: p in Aggregate(Filter(s, f), key, price) ==> f(p)
  {
    var cands := Filter(s, f);
    var sel := Aggregate(cands, key, price);
    AggregateWinners(cands, key, price);
    forall p | p in sel
      ensures f(p)
    {
      var i :| 0 <= i < |sel| && sel[i] == p;
      assert Survivor(cands, key, price, sel[i]);
      var j :| Wins(cands, key, price, j) && cands[j] == sel[i];
    }
  }

  /** Every item's code survives aggregation with a price at least as high. */
  lemma AggregateCovers<T>(cands: seq<T>, key: T -> string, price: T -> real)
    ensures forall c :: c in cands ==>
      exists p :: p in Aggregate(cands, key, price) && key(p) == key(c) && price(c) <= price(p)
  {
    var sel := Aggregate(cands, key, price);
    AggregateShape(cands, key, price);
    AggregateWinners(cands, key, price);
    forall c | c in cands
      ensures exists p :: p in sel && key(p) == key(c) && price(c) <= price(p)
    {
      var k :| 0 <= k < |cands| && cands[k] == c;
      var i := IndexOfCode(sel, key, key(cands[k]));
      assert Survivor(cands, key, price, sel[i]);
      var j :| Wins(cands, key, price, j) && cands[j] == sel[i];
      assert key(cands[k]) == key(cands[j]);
      assert sel[i] in sel;
    }
  }

  /** Every product given a new association is active, matches, and was not on
      the panel. */
  lemma SelectedAreCandidates(ps: seq<Product>, r: Rule, kept: seq<Association>)
    ensures forall p :: p in Selected(ps, r, kept) ==>
      p.active && NameMatches(r, p.name) && p.id !in ProductIds(kept)
  {
    var f := IsCandidate(r, kept);
    AggregateKeepsFilter(ps, f, ProductKey(r.u), ProductPrice);
    assert Selected(ps, r, kept) == Aggregate(Filter(ps, f), ProductKey(r.u), ProductPrice);
  }

  /** Every matching candidate's name is represented by a selected product at least
      as dear. */
  lemma SelectedCoversCandidates(ps: seq<Product>, r: Rule, kept: seq<Association>)
    ensures forall c :: c in MatchingCandidates(ps, r, kept) ==>
      exists p :: p in Selected(ps, r, kept) && Norm(r.u, p.name) == Norm(r.u, c.name) && c.price <= p.price
  {
    var cands := MatchingCandidates(ps, r, kept);
    var key := ProductKey(r.u);
    AggregateCovers(cands, key, ProductPrice);
    assert Selected(ps, r, kept) == Aggregate(cands, key, ProductPrice);
  }

  /** One product per normalised name is chosen, each the dearest matching
      candidate of its name (the first seen on ties). */
  lemma SelectedOnePerName(ps: seq<Product>, r: Rule, kept: seq<Association>)
    ensures CodesUnique(Selected(ps, r, kept), ProductKey(r.u))
    ensures AllWin(MatchingCandidates(ps, r, kept), Selected(ps, r, kept), ProductKey(r.u), ProductPrice)
  {
    var cands := MatchingCandidates(ps, r, kept);
    AggregateShape(cands, ProductKey(r.u), ProductPrice);
    AggregateWinners(cands, ProductKey(r.u), ProductPrice);
  }

  /** Ids stay fresh and distinct across a sync. */
  lemma SyncKeepsIds(j: Judge, select: seq<Association> -> seq<Product>, ps: seq<Product>, assocs: seq<Association>, panel: string, next: nat)
    requires IdsBelow(ps, assocs, next)
    ensures var out := SyncWith(j, select, assocs, panel, next); IdsBelow(ps, out.assocs, out.nextId)
  {
    var st := KeepPass(j, OnPanel(assocs, panel));
    var keep := Survives(panel, st.kept);
    var remaining := Filter(assocs, keep);
    var added := NewAssociations(select(st.kept), panel, next);
    FilterDistinct(assocs, keep, (a: Association) => a.id);
    forall i | 0 <= i < |remaining|
      ensures remaining[i].id < next
    {
      FilterMember(assocs, keep, remaining[i]);
    }
    var all := remaining + added;
    forall i, k | 0 <= i < k < |all|
      ensures all[i].id != all[k].id
    {
      if k < |remaining| {
        assert all[i] == remaining[i] && all[k] == remaining[k];
      } else if i >= |remaining| {
        assert all[i] == added[i - |remaining|];
      } else {
        assert all[i] == remaining[i];
      }
    }
  }
}
