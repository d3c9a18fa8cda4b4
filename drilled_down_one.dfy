/** `init` of the first drill-down page: the listings of one neighbourhood
    group with a minimum stay under a week, optionally of one room type, as a
    pie of neighbourhoods where neighbourhoods with fewer than 50 such
    listings are merged into "Other". */
module DrilledDownOne {
  import opened Listings
  import opened Tallies
  import opened OtherBucket
  import opened Slices

  /** Listings whose minimum stay is below this many nights are kept. */
  const ShortStayLimit := 8

  /** `+d["minimum_nights"] < 8` */
  predicate ShortStay(r: Row)
  {
    r.minimumNights < ShortStayLimit
  }

  /** The three filters, in the page's order. */
  function Survivors(rows: seq<Row>, group: Option<string>, roomType: string): (kept: seq<Row>)
    ensures forall r :: r in kept <==>
      r in rows && group == Some(r.neighbourhoodGroup) && ShortStay(r)
      && (roomType != AllRoomTypes ==> r.roomType == roomType)
    ensures multiset(kept) <= multiset(rows)
    ensures forall r :: multiset(kept)[r] ==
                        if group == Some(r.neighbourhoodGroup) && ShortStay(r)
                           && (roomType != AllRoomTypes ==> r.roomType == roomType)
                        then multiset(rows)[r] else 0
  {
    ByRoomType(Filter(Filter(rows, InGroup(group)), ShortStay), roomType)
  }

  /** The page's records: one per neighbourhood left after folding, each
      with its count and average price. Every record but "Other" stands for
      at least 50 listings and every record for at least one, and together
      they count every surviving listing once, with its price, so the
      tooltip shares of `total = d3.sum(data, d => d.count)` add up to 100. */
  method Init(rows: seq<Row>, group: Option<string>, roomType: string) returns (data: seq<Slice<string>>)
    ensures var survivors := Survivors(rows, group, roomType);
      var folded := Folded(Tabulation(survivors, KeyFn(Neighbourhood)));
      && (forall k :: k in folded ==> folded[k].count >= 1)
      && OnePerKey(folded.Keys, data)
      && (forall i :: 0 <= i < |data| ==> RecordOf(folded, data[i]))
      && SliceTotal(data) == Bucket(|survivors|, SumPrices(survivors))
    ensures forall i :: 0 <= i < |data| ==> data[i].count >= 1
    ensures forall i :: 0 <= i < |data| && data[i].key != Other ==> data[i].count >= SmallGroupLimit
    ensures SliceTotal(data).count > 0 ==> PercentSum(data, SliceTotal(data).count) == 100.0
  {
    var survivors := Survivors(rows, group, roomType);
    var key := KeyFn(Neighbourhood);
    var tally := Tabulate(survivors, key);
    TabulationPositive(survivors, key);
    TabulationTotal(survivors, key);
    var folded := FoldSmallGroups(tally);
    FoldedPositive(tally);
    FoldedKeepsTotal(tally);
    FoldedKeepsLarge(tally);
    data := BuildSlices(folded);
    if SliceTotal(data).count > 0 {
      PercentagesSumTo100(data, SliceTotal(data).count);
    }
  }
}
