/**
 * What the panel service and the butcher service of the frontend share: the
 * 6x4 grid of 24 positions, listing the active products in position order, and
 * the product statistics.  Both services define these on their own product
 * type; here they are written once over the accessors `active`, `position` and
 * `price`.
 */
module ProductGrid {
  import opened Seqs

  /** Positions on a panel: 1 to 24. */
  const Slots: nat := 24

  /** `products.filter(p => active(p)).sort((a, b) => position(a) - position(b))`. */
  function OrganizeByPosition<T>(s: seq<T>, active: T -> bool, position: T -> int): seq<T>
  {
    SortByKey(Filter(s, active), position)
  }

  /** The active products, each as often as in the input, in non-decreasing
      position, products sharing a position in their input order. */
  lemma OrganizeByPositionSpec<T>(s: seq<T>, active: T -> bool, position: T -> int)
    ensures var r := OrganizeByPosition(s, active, position);
      && SortedBy(r, position)
      && (forall x :: multiset(r)[x] == if active(x) then multiset(s)[x] else 0)
      && (forall x :: x in r <==> x in s && active(x))
      && (forall k :: TiesOf(r, position, k) == TiesOf(Filter(s, active), position, k))
  {
    var r := OrganizeByPosition(s, active, position);
    forall x
      ensures multiset(r)[x] == if active(x) then multiset(s)[x] else 0
    {
      FilterMultiset(s, active, x);
    }
    forall x
      ensures x in r <==> x in s && active(x)
    {
      FilterMultiset(s, active, x);
      assert x in r <==> multiset(r)[x] > 0;
      assert x in s <==> multiset(s)[x] > 0;
    }
    forall k
      ensures TiesOf(r, position, k) == TiesOf(Filter(s, active), position, k)
    {
      SortKeepsTies(Filter(s, active), position, k);
    }
  }

  /** `reduce((sum, p) => sum + price(p), 0)`. */
  function SumOf<T>(s: seq<T>, price: T -> real): real
  {
    if s == [] then 0.0 else SumOf(s[..|s| - 1], price) + price(s[|s| - 1])
  }

  datatype Stats = Stats(
    total: nat, active: nat, inactive: nat,
    totalValue: real, averagePrice: real,
    occupiedPositions: nat, availablePositions: int)

  /** `getPanelStats` / `getProductStats`. */
  function StatsOf<T>(s: seq<T>, active: T -> bool, price: T -> real): Stats
  {
    var on := Filter(s, active);
    var off := Filter(s, x => !active(x));
    var totalValue := SumOf(on, price);
    Stats(|s|, |on|, |off|, totalValue,
          if |on| > 0 then totalValue / (|on| as real) else 0.0,
          |on|, Slots as int - |on|)
  }

  /** Every product is active or inactive, and the occupied and free positions add
      up to 24 (free ones go negative beyond 24 active products). */
  lemma StatsAddUp<T>(s: seq<T>, active: T -> bool, price: T -> real)
    ensures var st := StatsOf(s, active, price);
      && st.total == |s| && st.active == |Filter(s, active)|
      && st.availablePositions == Slots as int - st.active
      && st.active + st.inactive == st.total
      && st.occupiedPositions + st.availablePositions == Slots
      && st.occupiedPositions == st.active
  {
    var off := x => !active(x);
    FilterSplit(s, active, off);
  }

  /** The average price times the active count gives back the total value, and
      with no active product both are zero. */
  lemma StatsAverage<T>(s: seq<T>, active: T -> bool, price: T -> real)
    ensures var st := StatsOf(s, active, price);
      && (st.active > 0 ==> st.averagePrice * (st.active as real) == st.totalValue)
      && (st.active == 0 ==> st.totalValue == 0.0 && st.averagePrice == 0.0)
  {
    var on := Filter(s, active);
    var total := SumOf(on, price);
    if |on| > 0 {
      DivTimes(total, |on| as real);
    }
  }

  lemma DivTimes(t: real, n: real)
    requires n > 0.0
    ensures (t / n) * n == t
  {
  }
}
