/** `computeTextRotation`, `computeTextDx` and `computeTextAnchor`, written
    out identically in all four pie-chart scripts. Each takes the slice's
    mid-angle in degrees, `(startAngle + endAngle) / Math.PI * 90`, measured
    clockwise from twelve o'clock; labels on the right half (below 180) are
    turned one way and left-aligned, those on the left half the other way and
    right-aligned. */
module PieLabels {

  const HalfTurn := 180.0
  const QuarterTurn := 90.0

  /** The label's rotation in degrees. */
  function Rotation(angle: real): (r: real)
    ensures r == angle - QuarterTurn || r == angle + QuarterTurn
  {
    if angle < HalfTurn then angle - QuarterTurn else angle + QuarterTurn
  }

  /** The label's horizontal shift. */
  function Dx(angle: real): (dx: string)
    ensures dx == "-1.2em" || dx == "1.2em"
  {
    if angle < HalfTurn then "-1.2em" else "1.2em"
  }

  /** The label's `text-anchor`. */
  function Anchor(angle: real): (anchor: string)
    ensures anchor == "start" || anchor == "end"
  {
    if angle < HalfTurn then "start" else "end"
  }

  /** The three helpers split the pie at the same angle: a label is anchored
      at its start exactly when it is shifted left, exactly when it is turned
      back by a quarter turn, exactly when its slice's mid-angle is below 180. */
  lemma LabelSidesAgree(angle: real)
    ensures Anchor(angle) == "start" <==> angle < HalfTurn
    ensures Dx(angle) == "-1.2em" <==> angle < HalfTurn
    ensures Anchor(angle) == "end" <==> Dx(angle) == "1.2em"
    ensures Rotation(angle) == angle - QuarterTurn <==> Anchor(angle) == "start"
  {
  }

  /** Rotation taken back into [-180, 180). */
  function Normalized(r: real): (n: real)
    requires -180.0 <= r < 540.0
    ensures -180.0 <= n < 180.0
    ensures n == r || n == r - 360.0
  {
    if r < 180.0 then r else r - 360.0
  }

  /** For every mid-angle of a pie, [0, 360), the label is rotated by less
      than a quarter turn either way, so no label is drawn upside down. */
  lemma LabelsUpright(angle: real)
    requires 0.0 <= angle < 360.0
    ensures -QuarterTurn <= Normalized(Rotation(angle)) < QuarterTurn
  {
  }
}
