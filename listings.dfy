/** Listing rows as every chart script sees them once the CSV is loaded,
    and the order-preserving filter that all of them apply. */
module Listings {

  datatype Option<T> = None | Some(value: T)

  /** One row of the listings file, with its numeric and date cells already parsed. */
  datatype Row = Row(
    neighbourhoodGroup: string,
    neighbourhood: string,
    roomType: string,
    price: real,
    priceListed: bool,         // the price cell is non-empty text
    minimumNights: int,
    reviewYear: Option<int>)   // year of last_review; None when the cell is empty

  /** The two columns a pie chart groups by. */
  datatype Field = NeighbourhoodGroup | Neighbourhood

  /** `d[field]` */
  function FieldValue(r: Row, f: Field): string
  {
    match f
    case NeighbourhoodGroup => r.neighbourhoodGroup
    case Neighbourhood => r.neighbourhood
  }

  /** The grouping key of a field, as a function value (one term per field). */
  function KeyFn(f: Field): Row -> string
  {
    r => FieldValue(r, f)
  }

  /** The elements of `xs` that satisfy `keep`, in their original order. */
  function Filter<T(!new)>(xs: seq<T>, keep: T -> bool): (kept: seq<T>)
    ensures |kept| <= |xs|
    ensures forall i :: 0 <= i < |kept| ==> keep(kept[i])
    ensures forall x :: x in kept <==> x in xs && keep(x)
    ensures multiset(kept) <= multiset(xs)
    ensures forall x :: multiset(kept)[x] == if keep(x) then multiset(xs)[x] else 0
  {
    if xs == [] then []
    else
      var init, last := xs[..|xs| - 1], xs[|xs| - 1];
      assert xs == init + [last];
      Filter(init, keep) + (if keep(last) then [last] else [])
  }

  lemma FilterAppend<T(!new)>(xs: seq<T>, x: T, keep: T -> bool)
    ensures Filter(xs + [x], keep) == Filter(xs, keep) + (if keep(x) then [x] else [])
  {
    assert (xs + [x])[..|xs|] == xs;
  }

  /** A second filter never keeps more than the first one alone would. */
  lemma {:induction false} FilterTwiceNoLonger<T(!new)>(xs: seq<T>, first: T -> bool, second: T -> bool)
    ensures |Filter(Filter(xs, first), second)| <= |Filter(xs, second)|
  {
    if xs != [] {
      var init, last := xs[..|xs| - 1], xs[|xs| - 1];
      assert xs == init + [last];
      FilterTwiceNoLonger(init, first, second);
      FilterAppend(init, last, second);
      var once := Filter(init, first);
      if first(last) {
        FilterAppend(init, last, first);
        FilterAppend(once, last, second);
      } else {
        FilterAppend(init, last, first);
        assert Filter(xs, first) == once;
      }
    }
  }

  /** Sum of the prices of `rows`. */
  function SumPrices(rows: seq<Row>): real
  {
    if rows == [] then 0.0 else SumPrices(rows[..|rows| - 1]) + rows[|rows| - 1].price
  }

  lemma SumPricesAppend(rows: seq<Row>, r: Row)
    ensures SumPrices(rows + [r]) == SumPrices(rows) + r.price
  {
    assert (rows + [r])[..|rows|] == rows;
  }

  /** `d.neighbourhood_group === neighbourhoodGroup` for the URL parameter
      `neighbourhood_group`, which is `null` (None) when the URL lacks it. */
  function InGroup(group: Option<string>): Row -> bool
  {
    (r: Row) => group == Some(r.neighbourhoodGroup)
  }

  /** The room-type selection that keeps every room type. */
  const AllRoomTypes := "both"

  /** The room-type filter, skipped altogether for the selection "both". */
  function ByRoomType(rows: seq<Row>, roomType: string): (kept: seq<Row>)
    ensures roomType == AllRoomTypes ==> kept == rows
    ensures |kept| <= |rows|
    ensures forall r :: r in kept <==> r in rows && (roomType != AllRoomTypes ==> r.roomType == roomType)
    ensures multiset(kept) <= multiset(rows)
    ensures forall r :: multiset(kept)[r] ==
                        if roomType != AllRoomTypes ==> r.roomType == roomType then multiset(rows)[r] else 0
  {
    if roomType == AllRoomTypes then rows else Filter(rows, (r: Row) => r.roomType == roomType)
  }
}
