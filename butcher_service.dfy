/**
 * The pure helpers of the frontend butcher service
 * (sistema-paineis-tv/src/services/butcherService.ts): product checks, the
 * 24-position grid, statistics, and the text export read back by the backend.
 */
module ButcherService {
  import opened Text
  import opened Seqs
  import opened ProductGrid

  /** `ButcherProduct`, with the price in whole cents. */
  datatype ButcherProduct = ButcherProduct(id: string, code: string, name: string, cents: int, position: int, active: bool)

  function IsActive(p: ButcherProduct): bool { p.active }
  function PositionOf(p: ButcherProduct): int { p.position }
  function PriceOf(p: ButcherProduct): real { p.cents as real / 100.0 }

  // ---------------------------------------------------------------------------
  // Product checks
  // ---------------------------------------------------------------------------

  /** `CreateButcherProductData | UpdateButcherProductData` as far as the check reads it. */
  datatype ProductData = ProductData(name: Field<string>, cents: Field<int>, position: Field<int>)

  const MsgName := "Nome deve ter pelo menos 2 caracteres"
  const MsgPrice := "Preço deve ser um valor positivo"
  const MsgPosition := "Posição deve ser entre 1 e 24"

  predicate NameTooShort(f: Field<string>)
  {
    f.Undefined? || (f.Given? && |JsTrim(f.value)| < 2)
  }

  predicate PriceBad(f: Field<int>)
  {
    f.Undefined? || (f.Given? && f.value < 0)
  }

  predicate PositionBad(f: Field<int>)
  {
    f.Undefined? || (f.Given? && !(1 <= f.value <= Slots))
  }

  /** `validateProductData`: only the fields present are checked, each at most once. */
  function ValidateProductData(d: ProductData): (errors: seq<string>)
    ensures MsgName in errors <==> NameTooShort(d.name)
    ensures MsgPrice in errors <==> PriceBad(d.cents)
    ensures MsgPosition in errors <==> PositionBad(d.position)
    ensures forall e :: e in errors ==> e in {MsgName, MsgPrice, MsgPosition}
    ensures d.name.Missing? && d.cents.Missing? && d.position.Missing? ==> errors == []
  {
    (if NameTooShort(d.name) then [MsgName] else [])
    + (if PriceBad(d.cents) then [MsgPrice] else [])
    + (if PositionBad(d.position) then [MsgPosition] else [])
  }

  // ---------------------------------------------------------------------------
  // Grid and statistics
  // ---------------------------------------------------------------------------

  /** `organizeByPosition`: the active products, sorted stably by position. */
  function OrganizeByPosition(products: seq<ButcherProduct>): (r: seq<ButcherProduct>)
    ensures SortedBy(r, PositionOf)
    ensures forall p :: p in r <==> p in products && p.active
    ensures multiset(r) == multiset(Filter(products, IsActive))
  {
    OrganizeByPositionSpec(products, IsActive, PositionOf);
    ProductGrid.OrganizeByPosition(products, IsActive, PositionOf)
  }

  /** Products sharing a position stay in their input order. */
  lemma OrganizeByPositionStable(products: seq<ButcherProduct>, k: int)
    ensures TiesOf(OrganizeByPosition(products), PositionOf, k) == TiesOf(Filter(products, IsActive), PositionOf, k)
  {
    OrganizeByPositionSpec(products, IsActive, PositionOf);
  }

  /** Whether an active product sits at position `k`. */
  predicate Used(products: seq<ButcherProduct>, k: int)
  {
    exists p :: p in products && p.active && p.position == k
  }

  /** The positions of the active products, in order. */
  function UsedPositions(products: seq<ButcherProduct>): (used: seq<int>)
    ensures forall k :: k in used <==> Used(products, k)
  {
    var on := Filter(products, IsActive);
    var used := seq(|on|, i requires 0 <= i < |on| => on[i].position);
    forall k
      ensures k in used <==> Used(products, k)
    {
      if Used(products, k) {
        var p :| p in products && p.active && p.position == k;
        FilterMember(products, IsActive, p);
        var i :| 0 <= i < |on| && on[i] == p;
        assert used[i] == k;
      }
      if k in used {
        var i :| 0 <= i < |used| && used[i] == k;
        FilterMember(products, IsActive, on[i]);
      }
    }
    used
  }

  /** `getAvailablePositions`: 1..24 without the positions of active products. */
  function GetAvailablePositions(products: seq<ButcherProduct>): (r: seq<int>)
    ensures forall i, j :: 0 <= i < j < |r| ==> r[i] < r[j]
    ensures forall k :: k in r <==> 1 <= k <= Slots && !Used(products, k)
  {
    var used := UsedPositions(products);
    var all := seq(Slots, i => i + 1);
    var free := k => k !in used;
    var r := Filter(all, free);
    FreeSlots(all, free, r, k => Used(products, k));
    r
  }

  /** What filtering 1..24 by a test of freedom leaves: the free slots, ascending. */
  lemma FreeSlots(all: seq<int>, free: int -> bool, r: seq<int>, used: int -> bool)
    requires |all| == Slots && forall i :: 0 <= i < |all| ==> all[i] == i + 1
    requires forall k :: free(k) <==> !used(k)
    requires r == Filter(all, free)
    ensures forall i, j :: 0 <= i < j < |r| ==> r[i] < r[j]
    ensures forall k :: k in r <==> 1 <= k <= Slots && !used(k)
  {
    forall k
      ensures k in r <==> 1 <= k <= Slots && !used(k)
    {
      FilterMember(all, free, k);
      if 1 <= k <= Slots {
        assert all[k - 1] == k;
      }
    }
    FilterAscending(all, free);
  }

  /** `getProductStats`. */
  function GetProductStats(products: seq<ButcherProduct>): (st: Stats)
    ensures st.total == |products| == st.active + st.inactive
    ensures st.active == |Filter(products, IsActive)| == st.occupiedPositions
    ensures st.availablePositions == 24 - st.active
  {
    StatsAddUp(products, IsActive, PriceOf);
    StatsOf(products, IsActive, PriceOf)
  }

  // ---------------------------------------------------------------------------
  // Text export
  // ---------------------------------------------------------------------------

  /** `price.toFixed(2)` for a price of `c` cents. */
  function FixedTwo(c: int): string
  {
    var m := if c < 0 then -c else c;
    (if c < 0 then "-" else "") + NatToDecimal(m / 100) + "." + [DigitChar(m % 100 / 10), DigitChar(m % 10)]
  }

  /** `s.replace(ch, '')` with a string pattern: only the first occurrence goes. */
  function RemoveFirst(s: string, ch: char): (r: string)
    ensures ch in s ==> |r| == |s| - 1
    ensures ch !in s ==> r == s
  {
    if s == [] then []
    else if s[0] == ch then s[1..]
    else [s[0]] + RemoveFirst(s[1..], ch)
  }

  lemma {:induction false} RemoveFirstAfter(a: string, ch: char, b: string)
    requires ch !in a
    ensures RemoveFirst(a + [ch] + b, ch) == a + b
  {
    if a != [] {
      assert (a + [ch] + b)[1..] == a[1..] + [ch] + b;
      RemoveFirstAfter(a[1..], ch, b);
      assert [a[0]] + (a[1..] + b) == a + b;
    }
  }

  /** The price field of an exported line. */
  function PriceField(c: int): string
  {
    PadStart(RemoveFirst(FixedTwo(c), '.'), 4, '0') + "00"
  }

  /** One exported line: the code padded to 10 with zeros, the price field, the
      upper-cased name and the unit. */
  function ExportLine(p: ButcherProduct): string
  {
    PadStart(p.code, 10, '0') + PriceField(p.cents) + Upper(p.name) + "kg\n"
  }

  /** The whole export: the lines in product order. */
  function ExportText(products: seq<ButcherProduct>): string
  {
    ConcatMap(products, ExportLine)
  }

  /** `exportDataTxt` on the products already fetched. */
  method ExportDataTxt(products: seq<ButcherProduct>) returns (text: string)
    ensures text == ExportText(products)
  {
    text := "";
    for n := 0 to |products|
      invariant text == ExportText(products[..n])
    {
      assert products[..n + 1][..n] == products[..n];
      text := text + ExportLine(products[n]);
    }
    assert products[..|products|] == products;
  }

  lemma DigitsValueSnoc(a: string, d: char)
    requires AllDigits(a) && IsDigit(d)
    ensures AllDigits(a + [d]) && DigitsValue(a + [d]) == 10 * DigitsValue(a) + DigitValue(d)
  {
    assert (a + [d])[..|a|] == a;
  }

  /** For a price that is not negative the price field is all digits, at least six of
      them, and reads back as the price in cents times 100. */
  lemma PriceFieldValue(c: int)
    requires c >= 0
    ensures AllDigits(PriceField(c)) && |PriceField(c)| >= 6
    ensures DigitsValue(PriceField(c)) == 100 * c
  {
    var digits := RemoveFirst(FixedTwo(c), '.');
    CentsDigits(c);
    PadZerosValue(digits, 4);
    TwoZerosValue(PadStart(digits, 4, '0'));
  }

  /** Dropping the point of `toFixed(2)` leaves the digits of the price in cents. */
  lemma CentsDigits(c: int)
    requires c >= 0
    ensures AllDigits(RemoveFirst(FixedTwo(c), '.'))
    ensures DigitsValue(RemoveFirst(FixedTwo(c), '.')) == c
  {
    var whole := NatToDecimal(c / 100);
    var d1, d0 := DigitChar(c % 100 / 10), DigitChar(c % 10);
    assert FixedTwo(c) == whole + ['.'] + [d1, d0];
    assert '.' !in whole;
    RemoveFirstAfter(whole, '.', [d1, d0]);
    CentsValue(whole, c);
  }

  lemma CentsValue(whole: string, c: nat)
    requires AllDigits(whole) && DigitsValue(whole) == c / 100
    ensures var t := whole + [DigitChar(c % 100 / 10), DigitChar(c % 10)];
      AllDigits(t) && DigitsValue(t) == c
  {
    var d1, d0 := DigitChar(c % 100 / 10), DigitChar(c % 10);
    DigitsValueSnoc(whole, d1);
    DigitsValueSnoc(whole + [d1], d0);
    assert whole + [d1, d0] == whole + [d1] + [d0];
  }

  lemma TwoZerosValue(s: string)
    requires AllDigits(s)
    ensures AllDigits(s + "00") && DigitsValue(s + "00") == 100 * DigitsValue(s)
  {
    DigitsValueSnoc(s, '0');
    DigitsValueSnoc(s + "0", '0');
    assert s + "00" == s + "0" + "0";
  }

  /** Every exported line is the padded code, the price field and the upper-cased
      name, and ends in "kg" and a newline. */
  lemma ExportLineLayout(p: ButcherProduct)
    ensures var line := ExportLine(p); var code := PadStart(p.code, 10, '0');
      && |code| >= 10 && line[..|code|] == code
      && line[|code|..|code| + |PriceField(p.cents)|] == PriceField(p.cents)
      && line[|line| - 3..] == "kg\n"
  {
    var code, price, name := PadStart(p.code, 10, '0'), PriceField(p.cents), Upper(p.name);
    var line := ExportLine(p);
    assert line == code + price + name + "kg\n";
    ConcatParts(line, code, price, name, "kg\n");
  }

  /** A code of digits keeps its value once padded. */
  lemma ExportCodeValue(p: ButcherProduct)
    requires AllDigits(p.code)
    ensures var code := PadStart(p.code, 10, '0');
      AllDigits(code) && DigitsValue(code) == DigitsValue(p.code)
  {
    PadZerosValue(p.code, 10);
  }

  lemma ConcatParts(s: string, a: string, b: string, c: string, d: string)
    requires s == a + b + c + d
    ensures |s| == |a| + |b| + |c| + |d|
    ensures s[..|a|] == a && s[|a|..|a| + |b|] == b && s[|s| - |d|..] == d
  {
  }
}
