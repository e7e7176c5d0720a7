/**
 * The diagram under construction and `insertSite`, the beachline split performed for a
 * site event: find the active site whose parabola is lowest under the new site, pick the
 * arc of that parabola to split, and splice the new site's arc into the right-arc chain.
 */
module Diagram {
  import opened Geometry
  import opened Beachline

  /** The focus of every active site, in order. */
  function Foci(sites: seq<ActiveSite>): (f: seq<Coordinate>)
    ensures |f| == |sites| && forall i :: 0 <= i < |sites| ==> f[i] == sites[i].site
  {
    seq(|sites|, i requires 0 <= i < |sites| => sites[i].site)
  }

  /**
   * Some focus is off the sweep line. A focus on the sweep line has no real parabola: in
   * the source its height comes out as +Infinity or NaN, neither of which compares below
   * the running minimum (which starts at Infinity), so such a site is never chosen. The
   * one exception, a focus y of -0 against a sweep position of +0 with the focus's x
   * different from the new site's x, gives -Infinity instead (at equal x it gives NaN
   * and is skipped); reals have a single zero, so that case is not modelled.
   */
  ghost predicate HasOffLine(foci: seq<Coordinate>, sweep: real)
  {
    exists i :: 0 <= i < |foci| && foci[i].y != sweep
  }

  /** The height of the parabola of `focus` at `x` for the sweep position `sweep`. */
  function Height(focus: Coordinate, sweep: real, x: real): real
    requires focus.y != sweep
  {
    ParabolaPoint(focus, sweep, x).y
  }

  /**
   * `k` is what the selection loop settles on: an off-line focus whose parabola is at
   * least as low at `x` as every other off-line focus's, and strictly lower than every
   * off-line focus before it (the comparison is a strict `<`, so the first of equals wins).
   */
  ghost predicate IsFirstClosest(foci: seq<Coordinate>, sweep: real, x: real, k: int)
  {
    && 0 <= k < |foci|
    && foci[k].y != sweep
    && (forall j :: 0 <= j < |foci| && foci[j].y != sweep ==>
          Height(foci[k], sweep, x) <= Height(foci[j], sweep, x))
    && (forall j :: 0 <= j < k && foci[j].y != sweep ==>
          Height(foci[k], sweep, x) < Height(foci[j], sweep, x))
  }

  /** The index the selection loop ends with, as a fold over the foci from the left. */
  ghost function ClosestIndex(foci: seq<Coordinate>, sweep: real, x: real): (k: nat)
    requires HasOffLine(foci, sweep)
    ensures IsFirstClosest(foci, sweep, x, k)
    decreases |foci|
  {
    var n := |foci| - 1;
    var init := foci[..n];
    if !HasOffLine(init, sweep) then
      assert forall j :: 0 <= j < n ==> init[j] == foci[j];
      n
    else
      var k := ClosestIndex(init, sweep, x);
      assert forall j :: 0 <= j < n ==> init[j] == foci[j];
      if foci[n].y != sweep && Height(foci[n], sweep, x) < Height(foci[k], sweep, x) then n else k
  }

  /** The first closest focus is unique: any index meeting IsFirstClosest is ClosestIndex. */
  lemma FirstClosestUnique(foci: seq<Coordinate>, sweep: real, x: real, k: int)
    requires HasOffLine(foci, sweep)
    requires IsFirstClosest(foci, sweep, x, k)
    ensures k == ClosestIndex(foci, sweep, x)
  {
  }

  /** Extending the scanned prefix by one focus: the step the selection loop takes. */
  lemma ScanStep(foci: seq<Coordinate>, sweep: real, x: real, i: nat)
    requires i < |foci|
    ensures HasOffLine(foci[..i + 1], sweep) <==> HasOffLine(foci[..i], sweep) || foci[i].y != sweep
    ensures HasOffLine(foci[..i + 1], sweep) ==>
      ClosestIndex(foci[..i + 1], sweep, x) ==
        if !HasOffLine(foci[..i], sweep) then i
        else if foci[i].y != sweep
             && Height(foci[i], sweep, x) < Height(foci[ClosestIndex(foci[..i], sweep, x)], sweep, x)
        then i
        else ClosestIndex(foci[..i], sweep, x)
  {
  }

  /**
   * The selection loop of `insertSite`: scans the active sites left to right and keeps
   * the site whose parabola has the smallest height at `x` seen so far. No site is kept
   * when every focus lies on the sweep line.
   */
  method ClosestParabola(activeSites: seq<ActiveSite>, sweep: real, x: real)
    returns (closest: ActiveSite?, index: nat)
    ensures closest != null <==> HasOffLine(Foci(activeSites), sweep)
    ensures closest != null ==> index == ClosestIndex(Foci(activeSites), sweep, x)
    ensures closest != null ==> index < |activeSites| && closest == activeSites[index]
    ensures closest == null ==> index == 0
  {
    ghost var foci := Foci(activeSites);
    var closestY := 0.0;
    closest, index := null, 0;
    var i := 0;
    while i < |activeSites|
      invariant 0 <= i <= |activeSites|
      invariant closest != null <==> HasOffLine(foci[..i], sweep)
      invariant closest != null ==> index == ClosestIndex(foci[..i], sweep, x)
      invariant closest != null ==> index < i && closest == activeSites[index]
      invariant closest != null ==> closestY == Height(foci[index], sweep, x)
      invariant closest == null ==> index == 0
    {
      var focus := activeSites[i].site;
      ScanStep(foci, sweep, x, i);
      if focus.y != sweep {
        var yDist := ParabolaPoint(focus, sweep, x).y;
        if closest == null || yDist < closestY {
          closestY := yDist;
          closest := activeSites[i];
          index := i;
        }
      }
      i := i + 1;
    }
    assert foci[..|activeSites|] == foci;
  }

  /** Every arc of `a` has a right neighbour, and that neighbour has an owner. */
  ghost predicate RightLinked(a: ActiveSite)
    reads a, a.arcs, set i | 0 <= i < |a.arcs| && a.arcs[i].rightArc != null :: a.arcs[i].rightArc
  {
    forall i :: 0 <= i < |a.arcs| ==> a.arcs[i].rightArc != null && a.arcs[i].rightArc.activeSite != null
  }

  /**
   * The arc of the closest parabola that `insertSite` splits. With one arc it is that
   * arc. With more, the loop looks for an arc whose right neighbour's site lies right of
   * the new site (and records that neighbour, not the arc), but the two assignments after
   * the loop overwrite whatever it found with the last arc. The loop still reads every
   * arc's right neighbour and its owner, so those must exist.
   */
  method ContainingArc(closest: ActiveSite, site: Coordinate)
    returns (containingArc: ParabolaArc?, containingArcIndex: int)
    requires |closest.arcs| > 0
    requires |closest.arcs| != 1 ==> RightLinked(closest)
    ensures containingArcIndex == |closest.arcs| - 1
    ensures containingArc == closest.arcs[|closest.arcs| - 1]
  {
    containingArc, containingArcIndex := null, 0;
    if |closest.arcs| == 1 {
      containingArc := closest.arcs[0];
      containingArcIndex := 0;
    } else {
      var index := 0;
      while index < |closest.arcs|
        invariant 0 <= index <= |closest.arcs|
        invariant containingArc == null
               || exists i :: 0 <= i < index && containingArc == closest.arcs[i].rightArc
      {
        var arc := closest.arcs[index];
        if arc.rightArc.activeSite.site.x > site.x {
          containingArc := arc.rightArc;
          containingArcIndex := index;
        }
        index := index + 1;
      }
      containingArcIndex := |closest.arcs| - 1;
      containingArc := closest.arcs[containingArcIndex];
    }
  }

  class VoronoiDiagram {
    var vertices: seq<Coordinate>
    var activeSites: seq<ActiveSite>
    var lineSweepPosition: real

    constructor ()
      ensures vertices == [] && activeSites == [] && lineSweepPosition == 0.0
    {
      vertices := [];
      activeSites := [];
      lineSweepPosition := 0.0;
    }

    /** Every arc listed by an active site names that site as its owner. */
    ghost predicate OwnersConsistent()
      reads this, activeSites, set i, j | 0 <= i < |activeSites| && 0 <= j < |activeSites[i].arcs| :: activeSites[i].arcs[j]
    {
      forall i, j :: 0 <= i < |activeSites| && 0 <= j < |activeSites[i].arcs| ==>
        activeSites[i].arcs[j].activeSite == activeSites[i]
    }

    /** The active site `insertSite` settles on for a new site at horizontal position `x`. */
    ghost function ClosestSite(x: real): ActiveSite
      reads this
      requires HasOffLine(Foci(activeSites), lineSweepPosition)
    {
      activeSites[ClosestIndex(Foci(activeSites), lineSweepPosition, x)]
    }

    /** The arc `insertSite` splits: always the last arc of the closest site. */
    ghost function SplitTarget(x: real): ParabolaArc
      reads this, activeSites
      requires HasOffLine(Foci(activeSites), lineSweepPosition)
      requires |ClosestSite(x).arcs| > 0
    {
      ClosestSite(x).arcs[|ClosestSite(x).arcs| - 1]
    }

    /**
     * Splits the arc under `site`. Afterwards the chain reads: the split target, then the
     * new site's only arc, then a new arc of the closest site, then whatever followed the
     * split target before. The new active site is appended and returned. The new arc of
     * the closest site is not added to that site's `arcs`, and nothing else changes.
     */
    method InsertSite(site: Coordinate) returns (insertedSite: ActiveSite)
      requires HasOffLine(Foci(activeSites), lineSweepPosition)
      requires |ClosestSite(site.x).arcs| > 0
      requires |ClosestSite(site.x).arcs| != 1 ==> RightLinked(ClosestSite(site.x))
      modifies this, SplitTarget(site.x)
      ensures fresh(insertedSite) && insertedSite.site == site && |insertedSite.arcs| == 1
      ensures activeSites == old(activeSites) + [insertedSite]
      ensures vertices == old(vertices) && lineSweepPosition == old(lineSweepPosition)
      ensures var inserted := insertedSite.arcs[0];
        && fresh(inserted)
        && inserted.activeSite == insertedSite
        && old(SplitTarget(site.x)).rightArc == inserted
        && inserted.rightArc != null && fresh(inserted.rightArc)
        && inserted.rightArc.activeSite == old(ClosestSite(site.x))
        && inserted.rightArc.rightArc == old(SplitTarget(site.x).rightArc)
      ensures old(SplitTarget(site.x)).activeSite == old(SplitTarget(site.x).activeSite)
      ensures forall a :: a in old(activeSites) ==> a.arcs == old(a.arcs)
      ensures insertedSite.arcs[0].rightArc !in old(ClosestSite(site.x)).arcs
      ensures old(OwnersConsistent()) ==> OwnersConsistent()
    {
      var closestParabolaSite, closestParabolaIndex := ClosestParabola(activeSites, lineSweepPosition, site.x);
      var containingArc, containingArcIndex := ContainingArc(closestParabolaSite, site);

      var splitArc := new ParabolaArc(closestParabolaSite, containingArc.rightArc);
      var insertedArc := new ParabolaArc(null, splitArc);
      containingArc.rightArc := insertedArc;

      insertedSite := new ActiveSite(site, [insertedArc]);
      insertedArc.activeSite := insertedSite;
      activeSites := activeSites + [insertedSite];
    }
  }
}
