# Fortune's sweep line, first draft: a Dafny model

This project models `fortune/main.js`, a bottom-up draft of Fortune's sweep-line
construction of a planar Voronoi diagram. The draft has three working parts, and the
model covers each of them as the code is written:

- **`parabolaPoint`** (module `Geometry`). Evaluates the parabola with a given focus and
  horizontal directrix at a given x. The model proves that the point lies at the
  requested x and is as far from the focus as from the directrix.
- **`PriorityQueue`** (module `EventQueue`). Holds one array of site events and one of
  vertex (circle) events. Each array is sorted by descending y, so `pop` takes the tail.
  The arrays are mutable objects held by reference (`EventList`). This makes visible
  that `pushVertexEvents` adopts the caller's array and sorts it in place. The queue's
  `Array.prototype.sort` calls are modelled by a stable insertion sort (module
  `Sorting`), since ECMAScript 2019 requires `sort` to be stable. The sort is proved
  sorted, a permutation and stable. `PopNext` is `pop` on values. It is proved to
  remove exactly the returned tail, to take the lowest event of two sorted arrays
  (ties go to the vertex event), and to keep both arrays sorted.
- **`VoronoiDiagram.insertSite`** (modules `Beachline` and `Diagram`). Arcs and active
  sites are classes. An arc's `rightArc` link is mutable. `ClosestParabola` is the
  selection loop. It is proved to return the first active site whose parabola is
  lowest at the new site's x (`ClosestIndex`, characterised by `IsFirstClosest`).
  `ContainingArc` then always picks the last arc of that site. `InsertSite` states the
  whole change to the heap: the chain after the split, the appended active site, what
  stays the same, and that arc ownership links stay consistent.

The code's defects are modelled as written, not fixed:

- The emptiness guards of `pop` are inverted. An empty site array yields `isSiteEvent
  = true` with no event, even when vertex events are pending. An empty vertex array
  yields `isSiteEvent = false` with no event.
- `isEmpty` looks only at the site array.
- The arc-search loop in `insertSite` is always overwritten by the last arc. Inside
  the loop it also records the right neighbour rather than the arc.
- The new arc that keeps the closest site's right part is never added to that site's
  `arcs`.

A complete Fortune implementation usually drains both queues, pops site events first
on a tie, and keeps a doubly linked beachline. Where that usual description and this
draft differ, the model follows the draft's code.

A focus exactly on the sweep line has no real parabola. The source divides by zero
there and gets +Infinity, NaN (when the focus's x equals the new site's x), or
-Infinity (a focus y of -0 against a sweep position of +0, when the focus's x differs
from the new site's x). +Infinity and NaN lose the strict `<` against the running
minimum, which starts at Infinity, so the selection loop skips such sites. The model
does the same with an explicit test. -Infinity would win instead; reals have only one
zero, so that case is not modelled. `ParabolaPoint` itself requires the focus to be off the
directrix.

## Model

| member | source | states |
|---|---|---|
| `Geometry.ParabolaPoint` | fortune/main.js:41-48 | the returned point has x equal to `xPos`, and its squared distance to the focus equals its squared distance to the directrix line |
| `Sorting.SortDescSorted` | fortune/main.js:79-107 | the sort behind `sortSites`/`sortVertices` yields keys (y) that do not increase from front to back |
| `Sorting.SortDescPermutation` | fortune/main.js:79-107 | the sorted array holds exactly the elements of the input, with multiplicities |
| `Sorting.SortDescStable` | fortune/main.js:79-107 | elements with equal y keep their input order, as a stable `Array.prototype.sort` with a comparator that returns 0 on equal y does |
| `EventQueue.PopNext` | fortune/main.js:112-130 | an event is returned exactly when both arrays are non-empty; its tag then matches its kind; the array it came from loses exactly that tail and the other array is unchanged; with no event neither array changes |
| `EventQueue.PopTakesLowest` | fortune/main.js:120-129 | on two sorted arrays the returned event's y is at most every remaining event's y; a returned site event lies strictly below every remaining vertex event, so equal y goes to the vertex event |
| `EventQueue.PopKeepsSorted` | fortune/main.js:120-129 | popping keeps both arrays sorted in descending y |
| `EventQueue.EmptyPopsNothing` | fortune/main.js:77-118 | whenever `isEmpty()` holds (empty site array), `pop` returns the site tag with no event and leaves both arrays, including a non-empty vertex array, unchanged |
| `EventQueue.PriorityQueue.constructor` | fortune/main.js:50-55 | both arrays start empty and fresh |
| `EventQueue.PriorityQueue.PushSiteEvents` | fortune/main.js:60-64 | the site array is replaced by a fresh array holding one event per input point, sorted descending and a permutation of the wrapped points; the vertex array is untouched |
| `EventQueue.PriorityQueue.PushVertexEvents` | fortune/main.js:69-72 | the queue's vertex array becomes the caller's very array, which is sorted in place (sorted, a permutation); the site array is untouched |
| `EventQueue.PriorityQueue.IsEmpty` | fortune/main.js:77 | true exactly when the site array is empty, whatever the vertex array holds |
| `EventQueue.PriorityQueue.SortSites` | fortune/main.js:79-92 | the site array's contents become their stable descending sort by point y |
| `EventQueue.PriorityQueue.SortVertices` | fortune/main.js:94-107 | the vertex array's contents become their stable descending sort by event-point y |
| `EventQueue.PriorityQueue.Pop` | fortune/main.js:112-130 | the result and both arrays' new contents are those of `PopNext` on the old contents; an empty site array gives (true, no event); only an empty vertex array gives (false, no event) |
| `Beachline.ParabolaArc.constructor` | fortune/main.js:196-198 | an arc record with the given owner and right neighbour |
| `Beachline.ActiveSite.constructor` | fortune/main.js:202 | an active-site record with the given site and arc list |
| `Diagram.ClosestIndex` | fortune/main.js:158-169 | the index the selection fold ends with is an off-line site whose parabola is lowest at x among off-line sites and strictly lower than every earlier one |
| `Diagram.FirstClosestUnique` | fortune/main.js:162-169 | any index with that property is the one the fold returns, so the choice is determined |
| `Diagram.ScanStep` | fortune/main.js:162-169 | one loop step: scanning one more site either takes it (first off-line site, or strictly lower height) or keeps the previous choice |
| `Diagram.ClosestParabola` | fortune/main.js:158-169 | a site is selected exactly when some active site is off the sweep line, and then it is the first lowest one at the new site's x |
| `Diagram.ContainingArc` | fortune/main.js:171-192 | given a non-empty arc list (and right neighbours with owners when there is more than one arc), the arc chosen is always the last one, at index length-1; (loop invariant, not an ensures) inside the loop the discarded candidate is always some arc's right neighbour |
| `Diagram.VoronoiDiagram.constructor` | fortune/main.js:133-139 | no vertices, no active sites, sweep position 0 |
| `Diagram.VoronoiDiagram.InsertSite` | fortune/main.js:156-206 | the split arc now links to the new site's only arc; that arc links to a fresh arc of the closest site; that arc links to the split arc's old right neighbour; the new active site is appended and returned; no arc list, no other arc, not the split arc's owner, no vertex and not the sweep position changes; the new arc of the closest site is not in that site's list; consistent ownership links stay consistent |

## Left out

- `VoronoiDiagram.compute` (fortune/main.js:144-150): its loop body is empty, so it never ends for non-empty input and does nothing otherwise. No contract is worth stating.
- `insertVertexEvents` (fortune/main.js:211-213): a stub that only reads `site.arcs[0]`.
- InsertSite: its requires exclude the three inputs on which the source throws a TypeError instead of returning: no active site off the sweep line (`closestParabolaSite` stays null and is dereferenced at fortune/main.js:174; in floating point a focus y of -0 against sweep +0 whose x differs from the new site's x would be chosen rather than skipped, see the `ClosestParabola` line), a chosen site with no arcs (`arcs[-1]` is undefined and dereferenced at fortune/main.js:196), and, with two or more arcs, a null right neighbour or a right neighbour without an owner (dereferenced at fortune/main.js:182). The exception itself is not modelled. On a freshly constructed diagram (`activeSites` empty, fortune/main.js:137) the first requires never holds, so `insertSite` always throws there; only `insertSite` itself appends to `activeSites` (fortune/main.js:204).
- ParabolaPoint: requires the focus to be off the directrix. The IEEE-754 +Infinity, -Infinity or NaN result of the source's division by zero is not modelled; `ClosestParabola` skips such sites, as the source's comparison does for +Infinity and NaN.
- ClosestParabola: the signed-zero case is not modelled. For a focus y of -0 and a sweep position of +0 (the constructor's `0`, fortune/main.js:138), when the focus's x differs from the new site's x, the source computes a height of -Infinity (fortune/main.js:42-45), which wins the `<` at fortune/main.js:164 and cannot be beaten later, so the source selects that site; the model, whose reals have one zero, treats it as on the sweep line and skips it. At equal x the source computes +0 / -0, which is NaN, and skips the site, as the model does.
- Floating point in general: coordinates are exact reals, so rounding, overflow and NaN propagation are not modelled.
- `Array.prototype.sort` internals: only its outcome (stable, non-increasing y) is modelled, by an insertion sort.
- `Array.prototype.pop` on an empty array returns `undefined`; the model returns `None`.
- The `vertices` field of the diagram is only initialised; nothing in the file uses it.
- `voronoi/main.js`, `mandelbrot/main.js`, `main.js`: WebGL setup, random point generation, keyboard handlers and animation loops. They are rendering and user interface, not part of this model.
- `mandelbrot/fragment-program.js`, `voronoi/shaders.js`: GPU shader source strings, not part of this model.
