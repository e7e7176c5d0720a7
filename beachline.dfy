/**
 * The records of the beachline: an active site owns the arcs cut out of its parabola,
 * and every arc points to its owner and to its right neighbour.
 */
module Beachline {
  import opened Geometry

  /** A site on the beachline together with the arcs its parabola currently has. */
  class ActiveSite {
    const site: Coordinate
    var arcs: seq<ParabolaArc>

    constructor (site: Coordinate, arcs: seq<ParabolaArc>)
      ensures this.site == site && this.arcs == arcs
    {
      this.site := site;
      this.arcs := arcs;
    }
  }

  /**
   * One arc of the beachline. Both links may be null: the rightmost arc has no right
   * neighbour, and `insertSite` creates an arc before the site that owns it.
   */
  class ParabolaArc {
    var activeSite: ActiveSite?
    var rightArc: ParabolaArc?

    constructor (activeSite: ActiveSite?, rightArc: ParabolaArc?)
      ensures this.activeSite == activeSite && this.rightArc == rightArc
    {
      this.activeSite := activeSite;
      this.rightArc := rightArc;
    }
  }
}
