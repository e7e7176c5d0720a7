/**
 * The event queue of the sweep: one array of site events and one of vertex (circle)
 * events, each kept in descending y so that the next event is the array's last element.
 */
module EventQueue {
  import opened Wrappers
  import opened Geometry
  import opened Sorting
  import opened Beachline

  datatype SiteEvent = SiteEvent(point: Coordinate)

  /** A circle event: the sites involved, where the sweep meets it, and the vertex it makes. */
  datatype VertexEvent = VertexEvent(sites: seq<ActiveSite>, eventPoint: Coordinate, vertexPoint: Coordinate)

  datatype Event = Site(site: SiteEvent) | Vertex(vertex: VertexEvent)

  /** What `pop` hands back: a tag and, unless a guard fired, the event itself. */
  datatype EventResult = EventResult(isSiteEvent: bool, event: Option<Event>)

  /** The sort keys of the two comparators. */
  function SiteY(e: SiteEvent): real { e.point.y }
  function VertexY(e: VertexEvent): real { e.eventPoint.y }

  function EventY(e: Event): real
  {
    match e
    case Site(s) => SiteY(s)
    case Vertex(v) => VertexY(v)
  }

  /**
   * A JavaScript array the queue holds by reference: the queue pops from and pushes to
   * its end and sorts it in place, and whoever else holds the same array sees that.
   */
  class EventList<T> {
    var items: seq<T>

    constructor (items: seq<T>)
      ensures this.items == items
    {
      this.items := items;
    }
  }

  /** `values.map(element => { point: element })`: one site event per input point. */
  function ToSiteEvents(values: seq<Coordinate>): seq<SiteEvent>
  {
    seq(|values|, i requires 0 <= i < |values| => SiteEvent(values[i]))
  }

  /** The outcome of one `pop` on the contents of the two arrays. */
  datatype Popped = Popped(result: EventResult, siteEvents: seq<SiteEvent>, vertexEvents: seq<VertexEvent>)

  /**
   * `pop` on values. The two emptiness guards come first and are inverted with respect
   * to what they test: an empty site array yields the site tag with no event, and an
   * empty vertex array (with sites pending) yields the vertex tag with no event. Only
   * when both arrays are non-empty is an event returned: the site tail when its y is
   * strictly smaller than the vertex tail's, otherwise the vertex tail.
   */
  function PopNext(sites: seq<SiteEvent>, verts: seq<VertexEvent>): (p: Popped)
    ensures p.result.event.Some? <==> sites != [] && verts != []
    ensures p.result.event.Some? ==> (p.result.isSiteEvent <==> p.result.event.value.Site?)
    ensures p.result.event.None? ==> p.siteEvents == sites && p.vertexEvents == verts
    ensures p.result.event.Some? && p.result.event.value.Site? ==>
              sites == p.siteEvents + [p.result.event.value.site] && verts == p.vertexEvents
    ensures p.result.event.Some? && p.result.event.value.Vertex? ==>
              verts == p.vertexEvents + [p.result.event.value.vertex] && sites == p.siteEvents
  {
    if |sites| == 0 then Popped(EventResult(true, None), sites, verts)
    else if |verts| == 0 then Popped(EventResult(false, None), sites, verts)
    else
      var s, v := sites[|sites| - 1], verts[|verts| - 1];
      if s.point.y < v.eventPoint.y then
        Popped(EventResult(true, Some(Site(s))), sites[..|sites| - 1], verts)
      else
        Popped(EventResult(false, Some(Vertex(v))), sites, verts[..|verts| - 1])
  }

  /**
   * On two sorted arrays, `pop` returns an event no higher than anything left in either
   * array; a returned site event lies strictly below every remaining vertex event, so on
   * equal y the vertex event goes first.
   */
  lemma PopTakesLowest(sites: seq<SiteEvent>, verts: seq<VertexEvent>)
    requires sites != [] && verts != []
    requires SortedDesc(sites, SiteY) && SortedDesc(verts, VertexY)
    ensures var p := PopNext(sites, verts);
      && p.result.event.Some?
      && (forall i :: 0 <= i < |p.siteEvents| ==> EventY(p.result.event.value) <= SiteY(p.siteEvents[i]))
      && (forall j :: 0 <= j < |p.vertexEvents| ==> EventY(p.result.event.value) <= VertexY(p.vertexEvents[j]))
      && (p.result.isSiteEvent ==>
            forall j :: 0 <= j < |p.vertexEvents| ==> EventY(p.result.event.value) < VertexY(p.vertexEvents[j]))
  {
  }

  /** Removing a tail keeps both arrays sorted. */
  lemma PopKeepsSorted(sites: seq<SiteEvent>, verts: seq<VertexEvent>)
    requires SortedDesc(sites, SiteY) && SortedDesc(verts, VertexY)
    ensures var p := PopNext(sites, verts);
      SortedDesc(p.siteEvents, SiteY) && SortedDesc(p.vertexEvents, VertexY)
  {
  }

  /**
   * Once the site array is empty (`isEmpty()` holds), `pop` hands back no event and leaves
   * the vertex array as it is, however many vertex events it still holds.
   */
  lemma EmptyPopsNothing(sites: seq<SiteEvent>, verts: seq<VertexEvent>)
    requires sites == []
    ensures PopNext(sites, verts) == Popped(EventResult(true, None), sites, verts)
  {
  }

  class PriorityQueue {
    var siteEvents: EventList<SiteEvent>
    var vertexEvents: EventList<VertexEvent>

    constructor ()
      ensures fresh(siteEvents) && fresh(vertexEvents)
      ensures siteEvents.items == [] && vertexEvents.items == []
    {
      siteEvents := new EventList([]);
      vertexEvents := new EventList([]);
    }

    /**
     * Replaces the site array by a new one holding one event per point, sorted. The
     * vertex array is untouched.
     */
    method PushSiteEvents(values: seq<Coordinate>)
      modifies this
      ensures fresh(siteEvents)
      ensures siteEvents.items == SortDesc(ToSiteEvents(values), SiteY)
      ensures SortedDesc(siteEvents.items, SiteY)
      ensures multiset(siteEvents.items) == multiset(ToSiteEvents(values))
      ensures vertexEvents == old(vertexEvents) && vertexEvents.items == old(vertexEvents.items)
    {
      siteEvents := new EventList(ToSiteEvents(values));
      SortSites();
      SortDescSorted(ToSiteEvents(values), SiteY);
      SortDescPermutation(ToSiteEvents(values), SiteY);
    }

    /**
     * Adopts the caller's array as the vertex array (no copy is made) and sorts it in
     * place, so the caller's array ends up sorted too. The site array is untouched.
     */
    method PushVertexEvents(values: EventList<VertexEvent>)
      modifies this, values
      ensures vertexEvents == values
      ensures values.items == SortDesc(old(values.items), VertexY)
      ensures SortedDesc(values.items, VertexY)
      ensures multiset(values.items) == multiset(old(values.items))
      ensures siteEvents == old(siteEvents) && siteEvents.items == old(siteEvents.items)
    {
      vertexEvents := values;
      SortVertices();
      SortDescSorted(old(values.items), VertexY);
      SortDescPermutation(old(values.items), VertexY);
    }

    /** Looks at the site array only: pending vertex events do not keep the queue non-empty. */
    function IsEmpty(): (r: bool)
      reads this, siteEvents
      ensures r <==> |siteEvents.items| == 0
    {
      |siteEvents.items| == 0
    }

    /** Sorts the site array in place by descending point y. */
    method SortSites()
      modifies siteEvents
      ensures siteEvents.items == SortDesc(old(siteEvents.items), SiteY)
    {
      siteEvents.items := SortDesc(siteEvents.items, SiteY);
    }

    /** Sorts the vertex array in place by descending event-point y. */
    method SortVertices()
      modifies vertexEvents
      ensures vertexEvents.items == SortDesc(old(vertexEvents.items), VertexY)
    {
      vertexEvents.items := SortDesc(vertexEvents.items, VertexY);
    }

    /**
     * Takes both tails, keeps the one with the strictly smaller y (the site event) or
     * else the vertex event, and pushes the other back.
     */
    method Pop() returns (r: EventResult)
      modifies siteEvents, vertexEvents
      ensures Popped(r, siteEvents.items, vertexEvents.items)
           == PopNext(old(siteEvents.items), old(vertexEvents.items))
      ensures old(siteEvents.items) == [] ==> r == EventResult(true, None)
      ensures old(siteEvents.items) != [] && old(vertexEvents.items) == [] ==> r == EventResult(false, None)
    {
      if |siteEvents.items| == 0 {
        return EventResult(true, None);
      }
      if |vertexEvents.items| == 0 {
        return EventResult(false, None);
      }
      var nextSiteEvent := siteEvents.items[|siteEvents.items| - 1];
      siteEvents.items := siteEvents.items[..|siteEvents.items| - 1];
      var nextVertexEvent := vertexEvents.items[|vertexEvents.items| - 1];
      vertexEvents.items := vertexEvents.items[..|vertexEvents.items| - 1];
      if nextSiteEvent.point.y < nextVertexEvent.eventPoint.y {
        vertexEvents.items := vertexEvents.items + [nextVertexEvent];
        r := EventResult(true, Some(Site(nextSiteEvent)));
      } else {
        siteEvents.items := siteEvents.items + [nextSiteEvent];
        r := EventResult(false, Some(Vertex(nextVertexEvent)));
      }
    }
  }
}
