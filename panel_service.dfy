/**
 * The pure helpers of the frontend panel service
 * (sistema-paineis-tv/src/services/panelService.ts): the position grid of a
 * department panel, its statistics, and the checks on panel and media input.
 */
module PanelService {
  import opened Text
  import opened Seqs
  import opened ProductGrid

  /** `PanelProduct`; the timestamps are not used by the helpers. */
  datatype PanelProduct = PanelProduct(id: string, code: string, name: string, price: real, position: int, active: bool)

  function IsActive(p: PanelProduct): bool { p.active }
  function PositionOf(p: PanelProduct): int { p.position }
  function PriceOf(p: PanelProduct): real { p.price }

  // ---------------------------------------------------------------------------
  // Ordering and statistics
  // ---------------------------------------------------------------------------

  /** `organizeByPosition`: the active products, sorted stably by position. */
  function OrganizeByPosition(products: seq<PanelProduct>): (r: seq<PanelProduct>)
    ensures SortedBy(r, PositionOf)
    ensures forall p :: p in r <==> p in products && p.active
    ensures multiset(r) == multiset(Filter(products, IsActive))
  {
    OrganizeByPositionSpec(products, IsActive, PositionOf);
    ProductGrid.OrganizeByPosition(products, IsActive, PositionOf)
  }

  /** Products sharing a position stay in their input order. */
  lemma OrganizeByPositionStable(products: seq<PanelProduct>, k: int)
    ensures TiesOf(OrganizeByPosition(products), PositionOf, k) == TiesOf(Filter(products, IsActive), PositionOf, k)
  {
    OrganizeByPositionSpec(products, IsActive, PositionOf);
  }

  /** `getPanelStats`. */
  function GetPanelStats(products: seq<PanelProduct>): (st: Stats)
    ensures st.total == |products| == st.active + st.inactive
    ensures st.active == |Filter(products, IsActive)| == st.occupiedPositions
    ensures st.availablePositions == 24 - st.active
  {
    StatsAddUp(products, IsActive, PriceOf);
    StatsOf(products, IsActive, PriceOf)
  }

  // ---------------------------------------------------------------------------
  // The positional grid
  // ---------------------------------------------------------------------------

  /** The first empty slot, or `|g|` when there is none (`findIndex(slot => slot === null)`). */
  function FirstEmpty(g: seq<Option<PanelProduct>>): (i: nat)
    ensures i <= |g|
    ensures forall j :: 0 <= j < i ==> g[j].Some?
    ensures i < |g| ==> g[i].None?
  {
    if g == [] then 0
    else if g[0].None? then 0
    else 1 + FirstEmpty(g[1..])
  }

  /** One step of the `forEach`: an in-range product takes slot `position - 1`; any
      other takes the first empty slot, or is dropped when there is none. */
  function Place(g: seq<Option<PanelProduct>>, p: PanelProduct): (r: seq<Option<PanelProduct>>)
    ensures |r| == |g|
  {
    if 1 <= p.position <= |g| then g[p.position - 1 := Some(p)]
    else
      var i := FirstEmpty(g);
      if i < |g| then g[i := Some(p)] else g
  }

  /** The grid after placing `products` in order on 24 empty slots. */
  function Grid(products: seq<PanelProduct>): (g: seq<Option<PanelProduct>>)
    ensures |g| == Slots
  {
    if products == [] then seq(Slots, _ => None)
    else Place(Grid(products[..|products| - 1]), products[|products| - 1])
  }

  /** `createPositionalGrid`: a fresh 24-slot array filled product by product. */
  method CreatePositionalGrid(products: seq<PanelProduct>) returns (grid: array<Option<PanelProduct>>)
    ensures grid.Length == Slots
    ensures grid[..] == Grid(products)
  {
    grid := new Option<PanelProduct>[Slots](_ => None);
    assert grid[..] == Grid([]);
    for n := 0 to |products|
      invariant grid[..] == Grid(products[..n])
    {
      var p := products[n];
      assert products[..n + 1][..n] == products[..n];
      if 1 <= p.position <= Slots {
        grid[p.position - 1] := Some(p);
      } else {
        var i := 0;
        while i < Slots && grid[i].Some?
          invariant 0 <= i <= Slots
          invariant forall j :: 0 <= j < i ==> grid[j].Some?
        {
          i := i + 1;
        }
        if i < Slots {
          grid[i] := Some(p);
        }
      }
    }
    assert products[..|products|] == products;
  }

  /** The last product with position `k`, if any. */
  function LastAt(products: seq<PanelProduct>, k: int): (r: Option<PanelProduct>)
    ensures r.Some? ==> r.value in products && r.value.position == k
  {
    if products == [] then None
    else if products[|products| - 1].position == k then Some(products[|products| - 1])
    else LastAt(products[..|products| - 1], k)
  }

  /** Slot `k - 1` holds the last product with position `k`: a later out-of-range
      product only ever takes an empty slot. */
  lemma {:induction false} GridHoldsLastAtPosition(products: seq<PanelProduct>, k: int)
    requires 1 <= k <= Slots
    requires LastAt(products, k).Some?
    ensures Grid(products)[k - 1] == LastAt(products, k)
  {
    var pre := products[..|products| - 1];
    var p := products[|products| - 1];
    if p.position != k {
      GridHoldsLastAtPosition(pre, k);
    }
  }

  /** Every filled slot holds one of the input products. */
  lemma {:induction false} GridHoldsInputs(products: seq<PanelProduct>)
    ensures forall j :: 0 <= j < Slots && Grid(products)[j].Some? ==> Grid(products)[j].value in products
  {
    if products != [] {
      var pre := products[..|products| - 1];
      GridHoldsInputs(pre);
      forall j | 0 <= j < Slots && Grid(products)[j].Some?
        ensures Grid(products)[j].value in products
      {
        if Grid(products)[j] != Grid(pre)[j] {
          assert Grid(products)[j].value == products[|products| - 1];
        } else {
          assert Grid(pre)[j].value in pre;
        }
      }
    }
  }

  // ---------------------------------------------------------------------------
  // Input checks
  // ---------------------------------------------------------------------------

  const MsgDepartmentId := "ID do departamento é obrigatório"
  const MsgPanelId := "ID do painel é obrigatório"
  const MsgPanelName := "Nome do painel é obrigatório"
  const MsgLayout := "Layout inválido"
  const Layouts: seq<string> := ["layout_1", "layout_2", "layout_3", "layout_4"]

  /** The two forms `validatePanelData` accepts: a department id with an optional
      panel id, or the fields of a panel (absent fields are `None`). */
  datatype PanelInput =
    | DepartmentRef(departmentId: string, panelId: Option<string>)
    | PanelFields(name: Option<string>, layout: Option<string>)

  function OrEmpty(s: Option<string>): string
  {
    if s.Some? then s.value else ""
  }

  function Blank(s: string): bool { JsTrim(s) == [] }

  /** `validatePanelData`. */
  function ValidatePanelData(input: PanelInput): (errors: seq<string>)
    ensures input.DepartmentRef? ==>
      && (MsgDepartmentId in errors <==> Blank(input.departmentId))
      && (MsgPanelId in errors <==> Blank(OrEmpty(input.panelId)))
      && (forall e :: e in errors ==> e == MsgDepartmentId || e == MsgPanelId)
    ensures input.PanelFields? ==>
      && (MsgPanelName in errors <==> Blank(OrEmpty(input.name)))
      && (MsgLayout in errors <==> OrEmpty(input.layout) !in Layouts)
      && (forall e :: e in errors ==> e == MsgPanelName || e == MsgLayout)
    ensures |errors| <= 2
  {
    match input
    case DepartmentRef(dep, panel) =>
      TwoChecks(MsgDepartmentId, MsgPanelId, Blank(dep), Blank(OrEmpty(panel)));
      (if Blank(dep) then [MsgDepartmentId] else [])
      + (if Blank(OrEmpty(panel)) then [MsgPanelId] else [])
    case PanelFields(name, layout) =>
      TwoChecks(MsgPanelName, MsgLayout, Blank(OrEmpty(name)), OrEmpty(layout) !in Layouts);
      (if Blank(OrEmpty(name)) then [MsgPanelName] else [])
      + (if OrEmpty(layout) !in Layouts then [MsgLayout] else [])
  }

  /** Two independent checks with different messages report each message exactly
      when its check fails. */
  lemma TwoChecks(a: string, b: string, failA: bool, failB: bool)
    requires |a| != |b|
    ensures var e := (if failA then [a] else []) + (if failB then [b] else []);
      && (a in e <==> failA) && (b in e <==> failB)
      && (forall x :: x in e ==> x == a || x == b) && |e| <= 2
  {
  }

  const MsgFileRequired := "Arquivo é obrigatório"
  const MsgFileTooBig := "Arquivo maior que 100MB"
  const MsgFileType := "Tipo de arquivo inválido. Use imagem ou MP4"
  const MaxMediaBytes: nat := 100 * 1024 * 1024

  /** A browser `File`: its size in bytes and its MIME type (`""` when unknown). */
  datatype FileInfo = FileInfo(size: nat, mimeType: string)

  function MediaTypeOk(t: string): bool
  {
    StartsWith(t, "image/") || t == "video/mp4"
  }

  /** `validateMediaFile`. */
  function ValidateMediaFile(file: Option<FileInfo>): (errors: seq<string>)
    ensures file.None? ==> errors == [MsgFileRequired]
    ensures file.Some? ==>
      && (MsgFileTooBig in errors <==> file.value.size > MaxMediaBytes)
      && (MsgFileType in errors <==> !MediaTypeOk(file.value.mimeType))
      && MsgFileRequired !in errors
    ensures errors == [] <==> file.Some? && file.value.size <= MaxMediaBytes && MediaTypeOk(file.value.mimeType)
  {
    match file
    case None => [MsgFileRequired]
    case Some(f) =>
      (if f.size > MaxMediaBytes then [MsgFileTooBig] else [])
      + (if !MediaTypeOk(f.mimeType) then [MsgFileType] else [])
  }
}
