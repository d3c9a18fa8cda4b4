/** `parseData` and the dot colours of `createGraph` on the price-trend page:
    reviewed listings since 2014, optionally of one room type, grouped by the
    year of their last review into `{key: year, value: mean price, count}`
    entries sorted by year; each dot is coloured by its mean price. */
module PriceTrend {
  import opened Listings
  import opened Tallies
  import opened Slices

  /** Reviews before this year are dropped. */
  const FirstYear := 2014

  /** `d.last_review && d.price && parseTime(d.last_review).getFullYear() >= 2014` */
  predicate Reviewed(r: Row)
  {
    r.reviewYear.Some? && r.priceListed && r.reviewYear.value >= FirstYear
  }

  /** `d.last_review.getFullYear()`, the grouping key; only ever applied to
      reviewed rows, for which it is the review year. */
  function YearOf(r: Row): int
  {
    match r.reviewYear
    case Some(year) => year
    case None => 0
  }

  /** The two filters, in the page's order. */
  function Survivors(rows: seq<Row>, roomType: string): (kept: seq<Row>)
    ensures forall r :: r in kept <==>
      r in rows && Reviewed(r) && (roomType != AllRoomTypes ==> r.roomType == roomType)
    ensures forall r :: r in kept ==> r.reviewYear == Some(YearOf(r)) && YearOf(r) >= FirstYear
    ensures multiset(kept) <= multiset(rows)
    ensures forall r :: multiset(kept)[r] ==
                        if Reviewed(r) && (roomType != AllRoomTypes ==> r.roomType == roomType)
                        then multiset(rows)[r] else 0
  {
    ByRoomType(Filter(rows, Reviewed), roomType)
  }

  /** Entry keys never decrease from left to right. */
  predicate SortedByYear(entries: seq<Slice<int>>)
  {
    forall p, q :: 0 <= p < q < |entries| ==> entries[p].key <= entries[q].key
  }

  /** Swaps two cells of `a`. */
  method Swap(a: array<Slice<int>>, i: int, j: int)
    requires 0 <= i < a.Length && 0 <= j < a.Length
    modifies a
    ensures a[i] == old(a[j]) && a[j] == old(a[i])
    ensures forall m :: 0 <= m < a.Length && m != i && m != j ==> a[m] == old(a[m])
    ensures multiset(a[..]) == old(multiset(a[..]))
  {
    a[i], a[j] := a[j], a[i];
  }

  /** One pass of insertion sort: `a[i]` sinks into the sorted prefix
      `a[..i]`, leaving `a[..i + 1]` sorted and the rest of `a` unchanged. */
  method SinkIntoPlace(a: array<Slice<int>>, i: int)
    requires 0 <= i < a.Length && SortedByYear(a[..i])
    modifies a
    ensures SortedByYear(a[..i + 1])
    ensures forall q :: i < q < a.Length ==> a[q] == old(a[q])
    ensures multiset(a[..]) == old(multiset(a[..]))
  {
    var j := i;
    while j > 0 && a[j - 1].key > a[j].key
      invariant 0 <= j <= i
      invariant forall p, q :: 0 <= p < q <= i && p != j && q != j ==> a[p].key <= a[q].key
      invariant forall q :: j < q <= i ==> a[j].key < a[q].key
      invariant forall q :: i < q < a.Length ==> a[q] == old(a[q])
      invariant multiset(a[..]) == old(multiset(a[..]))
    {
      Swap(a, j - 1, j);
      j := j - 1;
    }
  }

  /** `nestedData.sort((a, b) => a.key - b.key)`, as an insertion sort in
      place: the entries end up in ascending year order and none is lost or
      duplicated. */
  method SortByYear(a: array<Slice<int>>)
    modifies a
    ensures SortedByYear(a[..])
    ensures multiset(a[..]) == old(multiset(a[..]))
  {
    var i := 0;
    while i < a.Length
      invariant 0 <= i <= a.Length
      invariant SortedByYear(a[..i])
      invariant multiset(a[..]) == old(multiset(a[..]))
    {
      SinkIntoPlace(a, i);
      i := i + 1;
    }
    assert a[..a.Length] == a[..];
  }

  /** `d3.nest().key(year).rollup(...)` followed by the `map` to
      `{key, value, count}`: one entry per review year, in no fixed order. */
  method NestByYear(survivors: seq<Row>) returns (nested: seq<Slice<int>>)
    ensures var byYear := Tabulation(survivors, YearOf);
      && (forall y :: y in byYear ==> byYear[y].count >= 1)
      && OnePerKey(byYear.Keys, nested)
      && (forall i :: 0 <= i < |nested| ==> RecordOf(byYear, nested[i]))
      && SliceTotal(nested).count == |survivors|
  {
    var byYear := Tabulate(survivors, YearOf);
    TabulationPositive(survivors, YearOf);
    TabulationTotal(survivors, YearOf);
    nested := BuildSlices(byYear);
  }

  /** The entries copied into an array and sorted there by year. */
  method SortedCopy(nested: seq<Slice<int>>) returns (entries: seq<Slice<int>>)
    ensures SortedByYear(entries)
    ensures multiset(entries) == multiset(nested)
  {
    var a := new Slice<int>[|nested|](i requires 0 <= i < |nested| => nested[i]);
    assert a[..] == nested;
    SortByYear(a);
    entries := a[..];
  }

  /** The page's entries: the per-year records of the surviving rows, sorted
      by year. Each is the count and mean price of one year's rows, every
      year has one, and the counts add up to the number of surviving rows. */
  method ParseData(rows: seq<Row>, roomType: string) returns (entries: seq<Slice<int>>)
    ensures var survivors := Survivors(rows, roomType);
      var byYear := Tabulation(survivors, YearOf);
      && (forall y :: y in byYear ==> byYear[y].count >= 1)
      && (forall i :: 0 <= i < |entries| ==> RecordOf(byYear, entries[i]))
      && OnePerKey(byYear.Keys, entries)
      && SliceTotal(entries).count == |survivors|
    ensures SortedByYear(entries)
  {
    var survivors := Survivors(rows, roomType);
    var nested := NestByYear(survivors);
    entries := SortedCopy(nested);
    PermutedRecords(Tabulation(survivors, YearOf), nested, entries);
  }

  /** Reordering records keeps one record per key, their membership and their sum. */
  lemma PermutedRecords(byYear: map<int, Bucket>, nested: seq<Slice<int>>, entries: seq<Slice<int>>)
    requires forall y :: y in byYear ==> byYear[y].count >= 1
    requires OnePerKey(byYear.Keys, nested)
    requires forall i :: 0 <= i < |nested| ==> RecordOf(byYear, nested[i])
    requires multiset(entries) == multiset(nested)
    ensures forall i :: 0 <= i < |entries| ==> RecordOf(byYear, entries[i])
    ensures OnePerKey(byYear.Keys, entries)
    ensures SliceTotal(entries) == SliceTotal(nested)
  {
    assert |entries| == |multiset(entries)| == |multiset(nested)| == |nested|;
    forall i | 0 <= i < |entries|
      ensures RecordOf(byYear, entries[i])
    {
      assert entries[i] in multiset(nested);
    }
    forall y | y in byYear
      ensures exists i :: 0 <= i < |entries| && entries[i].key == y
    {
      var i :| 0 <= i < |nested| && nested[i].key == y;
      assert nested[i] in multiset(entries);
      var j :| 0 <= j < |entries| && entries[j] == nested[i];
    }
    forall i, j | 0 <= i < j < |entries|
      ensures entries[i].key != entries[j].key
    {
      if entries[i].key == entries[j].key {
        DistinctAtMostOnce(nested, entries[i]);
        TwiceCounted(entries, i, j);
        assert false;
      }
    }
    SliceTotalPermutation(entries, nested);
  }

  /** The colour bands of a dot. */
  datatype Colour = Green | Orange | Red

  /** The second boundary, the same for every room type. */
  const RedFrom := 170.0

  /** The first boundary: lower for private rooms. */
  function OrangeFrom(roomType: string): (bound: real)
    ensures bound < RedFrom
  {
    if roomType == "Private room" then 125.0 else 140.0
  }

  /** `color(d.value)` for the `scaleThreshold` of the selected room type. */
  function DotColour(roomType: string, meanPrice: real): (c: Colour)
    ensures c == Green <==> meanPrice < OrangeFrom(roomType)
    ensures c == Orange <==> OrangeFrom(roomType) <= meanPrice < RedFrom
    ensures c == Red <==> RedFrom <= meanPrice
  {
    if meanPrice < OrangeFrom(roomType) then Green
    else if meanPrice < RedFrom then Orange
    else Red
  }

  /** Bands in order from cheap to dear. */
  function Rank(c: Colour): nat
  {
    match c
    case Green => 0
    case Orange => 1
    case Red => 2
  }

  /** A dearer year never gets a cheaper colour. */
  lemma ColourMonotone(roomType: string, p: real, q: real)
    requires p <= q
    ensures Rank(DotColour(roomType, p)) <= Rank(DotColour(roomType, q))
  {
  }

  /** The private-room scale is the stricter one: at any price a private-room
      dot is at least as far along the bands as a dot of any other selection,
      and the two differ only on [125, 140). */
  lemma PrivateRoomsStricter(roomType: string, price: real)
    ensures Rank(DotColour("Private room", price)) >= Rank(DotColour(roomType, price))
    ensures DotColour("Private room", price) != DotColour(roomType, price) ==>
      roomType != "Private room" && 125.0 <= price < 140.0
  {
  }
}
