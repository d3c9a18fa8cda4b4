/** How the overview pages and the drill-down pages they open relate: the
    number of listings a clicked slice stands for against the number the
    opened page goes on to count. */
module DrillDownLinks {
  import opened Listings
  import opened Tallies
  import opened Navigation
  import Overview
  import LongStayOverview
  import DrilledDownOne
  import DrilledDownTwo

  /** A group's count is the number of rows of that group. */
  lemma {:induction false} GroupCount(rows: seq<Row>, g: string)
    ensures BucketOf(rows, KeyFn(NeighbourhoodGroup), g).count == |Filter(rows, InGroup(Some(g)))|
  {
    if rows != [] {
      var init, last := rows[..|rows| - 1], rows[|rows| - 1];
      assert rows == init + [last];
      GroupCount(init, g);
      FilterAppend(init, last, InGroup(Some(g)));
    }
  }

  /** The first drill-down page, opened from a slice of the top-level
      overview, shows at most the listings that slice stood for: it keeps
      the same group and then filters further. */
  lemma FirstDrillDownNarrows(rows: seq<Row>, g: string, roomType: string)
    requires g in Tabulation(rows, KeyFn(NeighbourhoodGroup))
    ensures var param := GroupParameter(Overview.OnClick(false, g));
      |DrilledDownOne.Survivors(rows, param, roomType)|
        <= Tabulation(rows, KeyFn(NeighbourhoodGroup))[g].count
  {
    GroupCount(rows, g);
  }

  /** The second drill-down page, opened from a slice of the long-stay
      overview, counts every listing of the group whatever its minimum stay,
      so at least as many as the slice stood for. */
  lemma SecondDrillDownWidens(rows: seq<Row>, g: string)
    requires g in Tabulation(LongStayOverview.Survivors(rows), KeyFn(NeighbourhoodGroup))
    ensures var param := GroupParameter(LongStayOverview.OnClick(g));
      Tabulation(LongStayOverview.Survivors(rows), KeyFn(NeighbourhoodGroup))[g].count
        <= |DrilledDownTwo.Survivors(rows, param)|
  {
    GroupCount(LongStayOverview.Survivors(rows), g);
    FilterTwiceNoLonger(rows, LongStayOverview.LongStay, InGroup(Some(g)));
  }
}
