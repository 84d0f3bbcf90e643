/**
 * The database the reconciler and the panel synchroniser write, as one object
 * whose tables are updated in place, and the file monitor that drives both
 * (`start_toledo_monitor` in BACKEND/app.py).  Each method is proved against
 * the functional definitions in `Reconcile` and `PanelSync`.
 */
module Store {
  import opened Text
  import opened Seqs
  import opened Aggregation
  import opened Catalog
  import opened NameMatch
  import opened LineParser
  import opened Reconcile
  import opened PanelSync

  // ---------------------------------------------------------------------------
  // The loops of the panel sync, generic in what they test
  // ---------------------------------------------------------------------------

  /** The first loop of the sync: keep one matching association per name. */
  method KeepLoop(j: Judge, mine: seq<Association>) returns (st: KeepState)
    ensures st == KeepPass(j, mine)
  {
    var kept, unmatched, dups := [], [], [];
    for n := 0 to |mine|
      invariant KeepState(kept, unmatched, dups) == KeepPass(j, mine[..n])
    {
      var a := mine[n];
      assert mine[..n + 1][..n] == mine[..n];
      if !j.matches(a) {
        unmatched := unmatched + [a];
      } else {
        KeepPassPartition(j, mine[..n]);
        var i := FindCode(kept, j.key, j.key(a));
        if i < 0 {
          kept := kept + [a];
        } else if j.orphan(kept[i]) || j.orphan(a) {
          dups := dups + [a];
        } else if j.price(a) > j.price(kept[i]) {
          dups := dups + [kept[i]];
          kept := kept[i := a];
        } else {
          dups := dups + [a];
        }
      }
    }
    assert mine[..|mine|] == mine;
    st := KeepState(kept, unmatched, dups);
  }

  /** The elements of `s` that pass `f`, by a loop. */
  method FilterLoop<T>(s: seq<T>, f: T -> bool) returns (r: seq<T>)
    ensures r == Filter(s, f)
  {
    r := [];
    for n := 0 to |s|
      invariant r == Filter(s[..n], f)
    {
      assert s[..n + 1][..n] == s[..n];
      if f(s[n]) {
        r := r + [s[n]];
      }
    }
    assert s[..|s|] == s;
  }

  /** The second loop of the sync: among the elements that pass `f`, the dearest
      per key, the first seen on ties. */
  method GroupDearest<T(==)>(s: seq<T>, f: T -> bool, key: T -> string, price: T -> real) returns (out: seq<T>)
    ensures out == Aggregate(Filter(s, f), key, price)
  {
    out := [];
    for n := 0 to |s|
      invariant out == Aggregate(Filter(s[..n], f), key, price)
      invariant CodesUnique(out, key)
    {
      assert s[..n + 1][..n] == s[..n];
      var x := s[n];
      var m := Filter(s[..n], f);
      if f(x) {
        assert Filter(s[..n + 1], f) == m + [x];
        AggregateSnoc(m, x, key, price);
        MergeShape(out, x, key, price);
        var i := FindCode(out, key, key(x));
        if i < 0 {
          out := out + [x];
        } else if price(x) > price(out[i]) {
          out := out[i := x];
        }
      } else {
        assert Filter(s[..n + 1], f) == m;
      }
    }
    assert s[..|s|] == s;
  }

  /** A panel to keep in sync on every monitor run: the default panel of an active
      department, with that department's keywords. */
  datatype PanelRef = PanelRef(panel: string, keywords: seq<string>)

  /** The record the monitor hands to the reconciler for a parsed line. */
  function MonitorRecord(c: Candidate): RawRecord
  {
    RawRecord(c.code, c.name, Num(c.cents as real / 100.0), true)
  }

  function MonitorRecords(items: seq<Candidate>): (rs: seq<RawRecord>)
    ensures |rs| == |items| && forall i :: 0 <= i < |items| ==> rs[i] == MonitorRecord(items[i])
  {
    if items == [] then [] else MonitorRecords(items[..|items| - 1]) + [MonitorRecord(items[|items| - 1])]
  }

  /** Syncing each panel in turn, exact matching. */
  function SyncPanels(ps: seq<Product>, assocs: seq<Association>, panels: seq<PanelRef>, u: UnicodeTables, next: nat): SyncOutcome
  {
    if panels == [] then SyncOutcome(assocs, next, 0, 0)
    else
      var pre := SyncPanels(ps, assocs, panels[..|panels| - 1], u, next);
      var p := panels[|panels| - 1];
      Sync(ps, pre.assocs, p.panel, Rule(u, p.keywords, true), pre.nextId)
  }

  /** The reconciler's first loop: report every rejected record and keep, per
      code, the dearest accepted one. */
  method CheckAndAggregate(records: seq<RawRecord>) returns (errors: seq<RecordError>, aggregated: seq<Incoming>)
    ensures errors == RecordErrors(records)
    ensures aggregated == PreAggregate(records)
  {
    errors := [];
    aggregated := [];
    for n := 0 to |records|
      invariant errors == RecordErrors(records[..n])
      invariant aggregated == Aggregate(ValidItems(records[..n]), InCode, InPrice)
      invariant CodesUnique(aggregated, InCode)
    {
      assert records[..n + 1][..n] == records[..n];
      var c := Check(records[n]);
      var v := ValidItems(records[..n]);
      if c.Rejected? {
        assert ValidItems(records[..n + 1]) == v;
        errors := errors + [c.error];
      } else {
        assert RecordErrors(records[..n + 1]) == errors;
        assert ValidItems(records[..n + 1]) == v + [c.item];
        AggregateSnoc(v, c.item, InCode, InPrice);
        MergeShape(aggregated, c.item, InCode, InPrice);
        aggregated := MergeInto(aggregated, c.item, InCode, InPrice);
      }
    }
    assert records[..|records|] == records;
  }

  /** One new association per selected product, appended with consecutive ids. */
  method AppendNew(base: seq<Association>, sel: seq<Product>, panel: string, first: nat) returns (out: seq<Association>)
    ensures out == base + NewAssociations(sel, panel, first)
  {
    out := base;
    for i := 0 to |sel|
      invariant out == base + NewAssociations(sel[..i], panel, first)
    {
      assert sel[..i + 1][..i] == sel[..i];
      out := out + [Association(first + i, sel[i].id, panel, true)];
    }
    assert sel[..|sel|] == sel;
  }

  /** The sync's loops over the rows `ps` and `assocs`. */
  method SyncTables(ps: seq<Product>, assocs: seq<Association>, panel: string, r: Rule, next: nat) returns (out: SyncOutcome)
    ensures out == Sync(ps, assocs, panel, r, next)
  {
    var mine := FilterLoop(assocs, IsOn(panel));
    var st := KeepLoop(JudgeOf(ps, r), mine);
    // the deletions
    var remaining := FilterLoop(assocs, Survives(panel, st.kept));
    // the additions
    var sel := GroupDearest(ps, IsCandidate(r, st.kept), ProductKey(r.u), ProductPrice);
    var all := AppendNew(remaining, sel, panel, next);
    out := SyncOutcome(all, next + |sel|, |st.unmatched| + |st.dups|, |sel|);
  }

  /** A panel sync keeps row ids distinct and below the counter. */
  lemma SyncValid(ps: seq<Product>, assocs: seq<Association>, panel: string, r: Rule, next: nat)
    requires IdsBelow(ps, assocs, next)
    ensures var out := Sync(ps, assocs, panel, r, next); IdsBelow(ps, out.assocs, out.nextId)
  {
    SyncKeepsIds(JudgeOf(ps, r), SelectionOf(ps, r), ps, assocs, panel, next);
  }

  /** So does a sequence of them. */
  lemma {:induction false} SyncPanelsValid(ps: seq<Product>, assocs: seq<Association>, panels: seq<PanelRef>, u: UnicodeTables, next: nat)
    requires IdsBelow(ps, assocs, next)
    ensures var out := SyncPanels(ps, assocs, panels, u, next); IdsBelow(ps, out.assocs, out.nextId)
    decreases |panels|
  {
    if panels != [] {
      var init := panels[..|panels| - 1];
      SyncPanelsValid(ps, assocs, init, u, next);
      var pre := SyncPanels(ps, assocs, init, u, next);
      var p := panels[|panels| - 1];
      SyncValid(ps, pre.assocs, p.panel, Rule(u, p.keywords, true), pre.nextId);
    }
  }

  /** The loop over the panels, each synced with exact matching. */
  method SyncEach(ps: seq<Product>, assocs: seq<Association>, panels: seq<PanelRef>, u: UnicodeTables, next: nat)
    returns (out: SyncOutcome)
    ensures out == SyncPanels(ps, assocs, panels, u, next)
  {
    out := SyncOutcome(assocs, next, 0, 0);
    for k := 0 to |panels|
      invariant out == SyncPanels(ps, assocs, panels[..k], u, next)
    {
      assert panels[..k + 1][..k] == panels[..k];
      out := SyncTables(ps, out.assocs, panels[k].panel, Rule(u, panels[k].keywords, true), out.nextId);
    }
    assert panels[..|panels|] == panels;
  }

  /** The body of the reconciler's loop for one aggregated item: update a known
      product (or quarantine the change), or add a new one at the smallest free
      position; nothing is written in preview. */
  method ReconcileItem(t: Tables, it: Incoming, lim: Limits, o: Oracles, preview: bool, job: Option<string>)
    returns (s: Step)
    requires CodesUnique(t.products, ProductCode)
    ensures s == ImportItem(t, it, lim, o, preview, job)
  {
    var products, history, conflicts, nextId := t.products, t.history, t.conflicts, t.nextId;
    var quarantined := false;
    var i := FindCode(products, ProductCode, it.code);
    if i >= 0 {
      var p := products[i];
      var delta := Delta(p.price, it.price);
      if Quarantined(lim, p.price, it.price) {
        if !preview {
          conflicts := conflicts + [Conflict(job, it.code, PriceConflict, p.name, it.name, p.price, it.price, delta)];
        }
        quarantined := true;
      } else if !preview {
        history := history + [PriceChange(it.code, p.name, p.price, it.price, delta, job)];
        var name := p.name;
        if NameAccepted(o, lim, p.name, it.name) {
          name := it.name;
        } else {
          conflicts := conflicts + [Conflict(job, it.code, NameConflict, p.name, it.name, it.price, it.price, delta)];
        }
        products := products[i := p.(price := it.price, name := name, active := it.active)];
      }
    } else if !preview {
      var position := FreePosition(Positions(products));
      products := products + [Product(nextId, it.code, it.name, it.price, position, it.active)];
      nextId := nextId + 1;
    }
    s := Step(Tables(products, history, conflicts, nextId), quarantined);
  }

  // ---------------------------------------------------------------------------
  // The database
  // ---------------------------------------------------------------------------

  class Database {
    var products: seq<Product>
    var history: seq<PriceChange>
    var conflicts: seq<Conflict>
    var assocs: seq<Association>
    var nextId: nat

    /** Codes are unique (the column is declared unique) and ids are distinct. */
    ghost predicate Valid()
      reads this
    {
      CodesUnique(products, ProductCode) && IdsBelow(products, assocs, nextId)
    }

    /** The tables the reconciler writes. */
    function Rows(): Tables
      reads this
    {
      Tables(products, history, conflicts, nextId)
    }

    constructor ()
      ensures Valid()
      ensures products == [] && history == [] && conflicts == [] && assocs == [] && nextId == 0
    {
      products, history, conflicts, assocs, nextId := [], [], [], [], 0;
    }

    /** `import_processed_butcher_data_inner`: the tables become what `ImportRecords`
        computes and the report is its report; associations are outside the frame. */
    method Import(records: seq<RawRecord>, lim: Limits, o: Oracles, preview: bool, job: Option<string>) returns (report: Report)
      requires Valid()
      modifies this`products, this`history, this`conflicts, this`nextId
      ensures Valid()
      ensures var out := ImportRecords(old(Rows()), records, lim, o, preview, job);
        Rows() == out.tables && report == out.report
    {
      var errors, aggregated := CheckAndAggregate(records);
      // reconciliation
      var start := Rows();
      var imported, quarantined := 0, 0;
      for n := 0 to |aggregated|
        invariant Valid()
        invariant var t := ImportItems(start, aggregated[..n], lim, o, preview, job);
          Rows() == t.tables && imported == t.imported && quarantined == t.quarantined
      {
        ImportItemsStep(start, aggregated, n, lim, o, preview, job);
        var q := ImportOne(aggregated[n], lim, o, preview, job);
        if q {
          quarantined := quarantined + 1;
        }
        imported := imported + 1;
      }
      assert aggregated[..|aggregated|] == aggregated;
      report := Report(imported, errors, quarantined, preview);
    }

    /** One iteration of the reconciler's loop, applied to the rows in place. */
    method ImportOne(it: Incoming, lim: Limits, o: Oracles, preview: bool, job: Option<string>) returns (quarantined: bool)
      requires Valid()
      modifies this`products, this`history, this`conflicts, this`nextId
      ensures Valid()
      ensures var s := ImportItem(old(Rows()), it, lim, o, preview, job);
        Rows() == s.tables && quarantined == s.quarantined
    {
      var s := ReconcileItem(Rows(), it, lim, o, preview, job);
      ImportItemKeepsRowsWellFormed(Rows(), it, lim, o, preview, job, assocs);
      products, history, conflicts, nextId := s.tables.products, s.tables.history, s.tables.conflicts, s.tables.nextId;
      quarantined := s.quarantined;
    }

    /** `perform_sync_department_panel`: the associations and the id counter become
        what `Sync` computes; products, prices and conflicts are outside the frame. */
    method SyncPanel(panel: string, r: Rule) returns (removed: nat, added: nat)
      requires Valid()
      modifies this`assocs, this`nextId
      ensures Valid()
      ensures SyncOutcome(assocs, nextId, removed, added) == Sync(products, old(assocs), panel, r, old(nextId))
    {
      var out := SyncTables(products, assocs, panel, r, nextId);
      SyncValid(products, assocs, panel, r, nextId);
      assocs, nextId, removed, added := out.assocs, out.nextId, out.removed, out.added;
    }

    /** The monitor's pass over the default panels of the active departments. */
    method SyncAll(panels: seq<PanelRef>, u: UnicodeTables)
      requires Valid()
      modifies this`assocs, this`nextId
      ensures Valid()
      ensures var s := SyncPanels(products, old(assocs), panels, u, old(nextId));
        assocs == s.assocs && nextId == s.nextId
    {
      var out := SyncEach(products, assocs, panels, u, nextId);
      SyncPanelsValid(products, assocs, panels, u, nextId);
      assocs, nextId := out.assocs, out.nextId;
    }
    /** What the monitor does with a new file's records: import them without limits
        or preview, then sync every listed panel with exact matching.  No conflict
        can be raised without limits. */
    method ImportAndSync(records: seq<RawRecord>, panels: seq<PanelRef>, u: UnicodeTables, o: Oracles)
      returns (report: Report)
      requires Valid()
      modifies this
      ensures Valid()
      ensures var imp := ImportRecords(old(Rows()), records, NoLimits, o, false, None);
        var synced := SyncPanels(imp.tables.products, old(assocs), panels, u, imp.tables.nextId);
        && report == imp.report
        && products == imp.tables.products && history == imp.tables.history
        && conflicts == old(conflicts)
        && assocs == synced.assocs && nextId == synced.nextId
    {
      report := Import(records, NoLimits, o, false, None);
      NoLimitsNoConflicts(old(Rows()), PreAggregate(records), o, false, None);
      SyncAll(panels, u);
    }
  }

  /** The records of the parsed lines, by a loop. */
  method ToRecords(items: seq<Candidate>) returns (records: seq<RawRecord>)
    ensures records == MonitorRecords(items)
  {
    records := [];
    for i := 0 to |items|
      invariant records == MonitorRecords(items[..i])
    {
      assert items[..i + 1][..i] == items[..i];
      records := records + [MonitorRecord(items[i])];
    }
    assert items[..|items|] == items;
  }

  // ---------------------------------------------------------------------------
  // The monitor
  // ---------------------------------------------------------------------------

  /** The file watcher: it remembers the modification time of the last file it read. */
  class Monitor {
    var lastMtime: Option<int>

    constructor ()
      ensures lastMtime == None
    {
      lastMtime := None;
    }

    /** One wake-up.  When the file exists and its modification time differs from
        the one last read, its lines are parsed and aggregated, imported without
        limits or preview, and every listed panel is synced with exact matching. */
    method Tick(db: Database, present: bool, mtime: int, lines: seq<string>, panels: seq<PanelRef>, u: UnicodeTables, o: Oracles)
      returns (report: Option<Report>)
      requires db.Valid()
      modifies this, db
      ensures db.Valid()
      ensures !present || old(lastMtime) == Some(mtime) ==>
        report == None && lastMtime == old(lastMtime) && unchanged(db)
      ensures present && old(lastMtime) != Some(mtime) ==>
        var imp := ImportRecords(old(db.Rows()), MonitorRecords(Aggregate(ParseAll(lines, false), CodeOf, CentsOf)), NoLimits, o, false, None);
        var synced := SyncPanels(imp.tables.products, old(db.assocs), panels, u, imp.tables.nextId);
        && lastMtime == Some(mtime)
        && report == Some(imp.report)
        && db.products == imp.tables.products && db.history == imp.tables.history
        && db.conflicts == old(db.conflicts)
        && db.assocs == synced.assocs && db.nextId == synced.nextId
    {
      report := None;
      if present && lastMtime != Some(mtime) {
        var items := ParseFile(lines, false);
        var records := ToRecords(items);
        var rep := db.ImportAndSync(records, panels, u, o);
        report := Some(rep);
        lastMtime := Some(mtime);
      }
    }
  }
}
