/** Points of the plane and the parabola that the sweep line turns each site into. */
module Geometry {

  /** A point of the plane; the source's `Coordinate` record. */
  datatype Coordinate = Coordinate(x: real, y: real)

  function Square(a: real): real { a * a }

  /**
   * The point at horizontal position `xPos` of the parabola with focus `focus` and
   * the horizontal directrix y = `directrix`. The focus is first shifted so that the
   * directrix sits at y = 0, the vertical-axis parabola formula is applied, and the
   * shift is undone. The source divides by `2 * (focus.y - directrix)`; over the reals
   * that quotient exists only when the focus is off the directrix.
   */
  function ParabolaPoint(focus: Coordinate, directrix: real, xPos: real): (p: Coordinate)
    requires focus.y != directrix
    ensures p.x == xPos
    ensures Square(p.x - focus.x) + Square(p.y - focus.y) == Square(p.y - directrix)
  {
    var shifted := Coordinate(focus.x, focus.y - directrix);
    var h := (Square(shifted.x - xPos) + Square(shifted.y)) / (2.0 * shifted.y);
    Coordinate(xPos, h + directrix)
  }
}
