/** Where a click on a pie slice leads. The overview pages send the clicked
    group to a drill-down page as its `neighbourhood_group` URL parameter. */
module Navigation {
  import opened Listings

  /** Stay on the page, or load `page` with `?neighbourhood_group=` the key. */
  datatype Click = Stay | Navigate(page: string, neighbourhoodGroup: string)

  const FirstDrillDown := "drilled-down-1.html"
  const SecondDrillDown := "drilled-down-2.html"

  /** What `urlParams.get('neighbourhood_group')` returns on the page a click
      leads to: the clicked key, or `null` (None) when nothing was clicked
      through. */
  function GroupParameter(c: Click): (group: Option<string>)
    ensures group.Some? <==> c.Navigate?
    ensures c.Navigate? ==> group == Some(c.neighbourhoodGroup)
  {
    match c
    case Stay => None
    case Navigate(_, g) => Some(g)
  }
}
