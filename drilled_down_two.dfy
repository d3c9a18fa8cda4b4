/** `init` of the second drill-down page: every listing of one neighbourhood
    group, as a pie of neighbourhoods with the small ones merged into "Other";
    the tooltip percentages are taken over `total`, counted before merging. */
module DrilledDownTwo {
  import opened Listings
  import opened Tallies
  import opened OtherBucket
  import opened Slices

  /** The group filter, the only one on this page. */
  function Survivors(rows: seq<Row>, group: Option<string>): (kept: seq<Row>)
    ensures forall r :: r in kept <==> r in rows && group == Some(r.neighbourhoodGroup)
    ensures multiset(kept) <= multiset(rows)
    ensures forall r :: multiset(kept)[r] == if group == Some(r.neighbourhoodGroup) then multiset(rows)[r] else 0
  {
    Filter(rows, InGroup(group))
  }

  /** The page's records and its global `total`. `total` is counted before the
      small neighbourhoods are merged, and it is still the sum of the record
      counts afterwards, so the percentages shown are shares of one whole. */
  method Init(rows: seq<Row>, group: Option<string>) returns (data: seq<Slice<string>>, total: nat)
    ensures var survivors := Survivors(rows, group);
      var folded := Folded(Tabulation(survivors, KeyFn(Neighbourhood)));
      && (forall k :: k in folded ==> folded[k].count >= 1)
      && OnePerKey(folded.Keys, data)
      && (forall i :: 0 <= i < |data| ==> RecordOf(folded, data[i]))
      && total == |survivors|
    ensures total == SliceTotal(data).count
    ensures SliceTotal(data) == Bucket(total, SumPrices(Survivors(rows, group)))
    ensures forall i :: 0 <= i < |data| && data[i].key != Other ==> data[i].count >= SmallGroupLimit
    ensures total > 0 ==> PercentSum(data, total) == 100.0
  {
    var survivors := Survivors(rows, group);
    var key := KeyFn(Neighbourhood);
    var tally := Tabulate(survivors, key);
    TabulationPositive(survivors, key);
    TabulationTotal(survivors, key);
    total := SumCounts(tally);
    var folded := FoldSmallGroups(tally);
    FoldedPositive(tally);
    FoldedKeepsTotal(tally);
    FoldedKeepsLarge(tally);
    data := BuildSlices(folded);
    if total > 0 {
      PercentagesSumTo100(data, total);
    }
  }
}
