/** `init` of the long-stay overview page: listings whose minimum stay is more
    than 30 nights, as a pie of neighbourhood groups with their average
    prices; every group is drawn, none merged; a click on a slice opens the
    second drill-down page for that group. */
module LongStayOverview {
  import opened Listings
  import opened Tallies
  import opened Slices
  import opened Navigation

  /** Listings whose minimum stay exceeds this many nights are kept. */
  const LongStayLimit := 30

  /** `+d["minimum_nights"] > 30` */
  predicate LongStay(r: Row)
  {
    r.minimumNights > LongStayLimit
  }

  function Survivors(rows: seq<Row>): (kept: seq<Row>)
    ensures forall r :: r in kept <==> r in rows && LongStay(r)
    ensures multiset(kept) <= multiset(rows)
    ensures forall r :: multiset(kept)[r] == if LongStay(r) then multiset(rows)[r] else 0
  {
    Filter(rows, LongStay)
  }

  /** The page's records and its global `total`: one record per neighbourhood
      group among the surviving rows, with nothing merged or dropped, and
      `total` both the number of surviving rows and the sum of the record
      counts. */
  method Init(rows: seq<Row>) returns (data: seq<Slice<string>>, total: nat)
    ensures var survivors := Survivors(rows);
      var tally := Tabulation(survivors, KeyFn(NeighbourhoodGroup));
      && (forall g :: g in tally ==> tally[g].count >= 1)
      && OnePerKey(KeysOf(survivors, KeyFn(NeighbourhoodGroup)), data)
      && (forall i :: 0 <= i < |data| ==> RecordOf(tally, data[i]))
      && total == |survivors|
      && SliceTotal(data) == Bucket(|survivors|, SumPrices(survivors))
    ensures total > 0 ==> PercentSum(data, total) == 100.0
  {
    var survivors := Survivors(rows);
    var key := KeyFn(NeighbourhoodGroup);
    var tally := Tabulate(survivors, key);
    TabulationPositive(survivors, key);
    TabulationTotal(survivors, key);
    TabulationKeys(survivors, key);
    total := SumCounts(tally);
    data := BuildSlices(tally);
    if total > 0 {
      PercentagesSumTo100(data, total);
    }
  }

  /** A click on the slice `key` always opens the second drill-down page for
      that group. */
  function OnClick(key: string): (c: Click)
    ensures c.Navigate? && c.page == SecondDrillDown && GroupParameter(c) == Some(key)
  {
    Navigate(SecondDrillDown, key)
  }
}
