/** `updateGraph` of the overview page: every listing counted by
    neighbourhood group (or, in drill-down mode, by neighbourhood) into
    `{key, count}` records; a click on a slice drills down only from the top
    level. */
module Overview {
  import opened Listings
  import opened Tallies
  import opened Slices
  import opened Navigation

  /** `countProp`: the column counted. */
  function CountProp(isDrillDown: bool): (f: Field)
    ensures f == Neighbourhood <==> isDrillDown
    ensures f == NeighbourhoodGroup <==> !isDrillDown
  {
    if isDrillDown then Neighbourhood else NeighbourhoodGroup
  }

  /** One record `{key, count}`. */
  datatype KeyCount = KeyCount(key: string, count: nat)

  /** Sum of the record counts. */
  function Counted(data: seq<KeyCount>): nat
  {
    if data == [] then 0 else Counted(data[..|data| - 1]) + data[|data| - 1].count
  }

  /** The count-only view of records. */
  function CountsOf(slices: seq<Slice<string>>): (data: seq<KeyCount>)
    ensures |data| == |slices|
    ensures forall i :: 0 <= i < |data| ==> data[i] == KeyCount(slices[i].key, slices[i].count)
  {
    seq(|slices|, i requires 0 <= i < |slices| => KeyCount(slices[i].key, slices[i].count))
  }

  lemma {:induction false} CountedOf(slices: seq<Slice<string>>)
    ensures Counted(CountsOf(slices)) == SliceTotal(slices).count
  {
    if slices != [] {
      var init := slices[..|slices| - 1];
      CountedOf(init);
      assert CountsOf(slices)[..|slices| - 1] == CountsOf(init);
    }
  }

  /** Dropping the average keeps one record per key, with its count. */
  lemma CountsOfListed(tally: map<string, Bucket>, slices: seq<Slice<string>>)
    requires forall k :: k in tally ==> tally[k].count >= 1
    requires OnePerKey(tally.Keys, slices)
    requires forall i :: 0 <= i < |slices| ==> RecordOf(tally, slices[i])
    ensures var data := CountsOf(slices);
      && |data| == |tally|
      && (forall i :: 0 <= i < |data| ==>
            data[i].key in tally && data[i].count == tally[data[i].key].count && data[i].count >= 1)
      && (forall k :: k in tally ==> exists i :: 0 <= i < |data| && data[i].key == k)
      && (forall i, j :: 0 <= i < j < |data| ==> data[i].key != data[j].key)
  {
    var data := CountsOf(slices);
    forall k | k in tally
      ensures exists i :: 0 <= i < |data| && data[i].key == k
    {
      var i :| 0 <= i < |slices| && slices[i].key == k;
      assert data[i].key == k;
    }
  }

  /** The records drawn: one per distinct value of the counted column, each
      with the number of rows holding that value (at least one), and the
      counts add up to the number of rows, since nothing is filtered. */
  method UpdateGraph(rows: seq<Row>, isDrillDown: bool) returns (data: seq<KeyCount>)
    ensures var tally := Tabulation(rows, KeyFn(CountProp(isDrillDown)));
      && |data| == |tally|
      && (forall i :: 0 <= i < |data| ==>
            data[i].key in tally && data[i].count == tally[data[i].key].count && data[i].count >= 1)
      && (forall k :: k in tally ==> exists i :: 0 <= i < |data| && data[i].key == k)
      && (forall i, j :: 0 <= i < j < |data| ==> data[i].key != data[j].key)
    ensures Counted(data) == |rows|
  {
    var key := KeyFn(CountProp(isDrillDown));
    var counts := Tabulate(rows, key);
    TabulationPositive(rows, key);
    TabulationTotal(rows, key);
    var slices := BuildSlices(counts);
    data := CountsOf(slices);
    CountedOf(slices);
    CountsOfListed(counts, slices);
  }

  /** A click on the slice `key`: to the first drill-down page for that group,
      but only from the top level. */
  function OnClick(isDrillDown: bool, key: string): (c: Click)
    ensures c.Navigate? <==> !isDrillDown
    ensures c.Navigate? ==> c.page == FirstDrillDown && GroupParameter(c) == Some(key)
  {
    if !isDrillDown then Navigate(FirstDrillDown, key) else Stay
  }
}
