/** The scroll-driven active-section tracker of the page controller.

    On every scroll (and once when the page mounts) the controller walks a
    fixed, ordered list of section ids, looks each one up in the document,
    and selects the first section whose vertical span `[top, top + height)`
    contains the viewport's vertical midpoint. An id with no element is
    skipped. When nothing matches, the previous active section is kept. */
module ActiveSection {
  import opened Wrappers

  /** The layout data the browser reports for one section element:
      `offsetTop` and `offsetHeight`. */
  datatype Span = Span(top: real, height: real)

  /** The document as seen by `getElementById`: an id absent from the map has
      no element. */
  type Layout = map<string, Span>

  /** The window's scroll state: `scrollY` and `innerHeight`. */
  datatype Viewport = Viewport(scrollY: real, innerHeight: real)

  /** The ids the tracker scans, in scan order. */
  const SectionIds: seq<string> := ["intro", "work", "thoughts", "connect"]

  /** Half-open containment of a position in a span. */
  predicate Contains(s: Span, pos: real) {
    s.top <= pos < s.top + s.height
  }

  /** The element with this id exists and its span contains `pos`. */
  predicate Hit(layout: Layout, id: string, pos: real) {
    id in layout && Contains(layout[id], pos)
  }

  /** Two spans that share no position. */
  predicate Disjoint(s: Span, t: Span) {
    s.top + s.height <= t.top || t.top + t.height <= s.top
  }

  /** A well-formed layout: distinct sections never overlap. */
  ghost predicate NonOverlapping(layout: Layout) {
    forall a, b :: a in layout && b in layout && a != b ==> Disjoint(layout[a], layout[b])
  }

  /** The vertical midpoint of the viewport: as far below the top edge
      (`scrollY`) as it is above the bottom edge (`scrollY + innerHeight`). */
  function Midpoint(v: Viewport): (mid: real)
    ensures mid - v.scrollY == (v.scrollY + v.innerHeight) - mid
  {
    v.scrollY + v.innerHeight / 2.0
  }

  /** The index of the first id whose element exists and contains `pos`,
      or None when no present element does. */
  function FirstHit(ids: seq<string>, layout: Layout, pos: real): (r: Option<nat>)
    ensures r.Some? ==> r.value < |ids| && Hit(layout, ids[r.value], pos)
    ensures r.Some? ==> forall j :: 0 <= j < r.value ==> !Hit(layout, ids[j], pos)
    ensures r.None? <==> forall j :: 0 <= j < |ids| ==> !Hit(layout, ids[j], pos)
  {
    if |ids| == 0 then None
    else if Hit(layout, ids[0], pos) then Some(0)
    else match FirstHit(ids[1..], layout, pos)
      case None => None
      case Some(k) => Some(k + 1)
  }

  /** The active section after one run of the scroll handler, starting from
      the previously active section `prev`. */
  function Scan(prev: string, ids: seq<string>, layout: Layout, pos: real): (active: string)
    ensures active == prev || exists k :: 0 <= k < |ids| && ids[k] == active && Hit(layout, active, pos)
  {
    match FirstHit(ids, layout, pos)
    case None => prev
    case Some(k) => ids[k]
  }

  /** The scroll handler as the source writes it: a loop over the ids that
      stops at the first containing section. */
  method HandleScroll(prev: string, ids: seq<string>, layout: Layout, v: Viewport) returns (active: string)
    ensures active == Scan(prev, ids, layout, Midpoint(v))
    ensures (forall j :: 0 <= j < |ids| ==> !Hit(layout, ids[j], Midpoint(v))) ==> active == prev
    ensures forall k :: (0 <= k < |ids| && Hit(layout, ids[k], Midpoint(v))
                         && forall j :: 0 <= j < k ==> !Hit(layout, ids[j], Midpoint(v)))
                         ==> active == ids[k]
  {
    var pos := v.scrollY + v.innerHeight / 2.0;
    active := prev;
    var i := 0;
    while i < |ids|
      invariant 0 <= i <= |ids|
      invariant active == prev
      invariant forall j :: 0 <= j < i ==> !Hit(layout, ids[j], Midpoint(v))
    {
      var id := ids[i];
      if id in layout {
        var section := layout[id];
        if pos >= section.top && pos < section.top + section.height {
          active := id;
          break;
        }
      }
      i := i + 1;
    }
  }

  /** First match wins: when some present section contains the midpoint, the
      scan selects the earliest such id; later matches are ignored. */
  lemma ScanSelectsEarliest(prev: string, ids: seq<string>, layout: Layout, pos: real, k: nat)
    requires k < |ids| && Hit(layout, ids[k], pos)
    requires forall j :: 0 <= j < k ==> !Hit(layout, ids[j], pos)
    ensures Scan(prev, ids, layout, pos) == ids[k]
  {
    var r := FirstHit(ids, layout, pos);
    assert r.Some? && r.value == k;
  }

  /** Keep-previous: when no present section contains the midpoint, the scan
      leaves the active section as it was, and only then. */
  lemma ScanKeepsPrevious(prev: string, ids: seq<string>, layout: Layout, pos: real)
    ensures (forall j :: 0 <= j < |ids| ==> !Hit(layout, ids[j], pos)) ==> Scan(prev, ids, layout, pos) == prev
    ensures prev !in ids && Scan(prev, ids, layout, pos) == prev
            ==> forall j :: 0 <= j < |ids| ==> !Hit(layout, ids[j], pos)
  {
    match FirstHit(ids, layout, pos)
    case None =>
    case Some(k) => assert ids[k] in ids;
  }

  /** The ids of `ids` that have an element. */
  function Present(ids: seq<string>, layout: Layout): (p: seq<string>)
    ensures forall id :: id in p <==> id in ids && id in layout
  {
    if |ids| == 0 then []
    else if ids[0] in layout then [ids[0]] + Present(ids[1..], layout)
    else Present(ids[1..], layout)
  }

  /** One step of the scan: the first id wins if it hits, otherwise the scan
      continues with the rest. */
  lemma ScanCons(prev: string, ids: seq<string>, layout: Layout, pos: real)
    requires |ids| > 0
    ensures Scan(prev, ids, layout, pos)
            == if Hit(layout, ids[0], pos) then ids[0] else Scan(prev, ids[1..], layout, pos)
  {
  }

  /** A missing element does not stop the scan: the scan over all ids gives
      the same result as the scan over only the ids that are present. */
  lemma {:induction false} ScanSkipsMissing(prev: string, ids: seq<string>, layout: Layout, pos: real)
    ensures Scan(prev, ids, layout, pos) == Scan(prev, Present(ids, layout), layout, pos)
  {
    if |ids| == 0 {
    } else {
      ScanSkipsMissing(prev, ids[1..], layout, pos);
      ScanCons(prev, ids, layout, pos);
      if ids[0] in layout {
        var p := [ids[0]] + Present(ids[1..], layout);
        assert p[1..] == Present(ids[1..], layout);
        ScanCons(prev, p, layout, pos);
      }
    }
  }

  /** In a layout whose sections do not overlap, a section containing the
      midpoint is selected whatever its place in the scan order. */
  lemma ScanNonOverlapping(prev: string, ids: seq<string>, layout: Layout, pos: real, k: nat)
    requires NonOverlapping(layout)
    requires k < |ids| && Hit(layout, ids[k], pos)
    ensures Scan(prev, ids, layout, pos) == ids[k]
  {
    var r := FirstHit(ids, layout, pos);
    assert ids[r.value] == ids[k];
  }

  /** The span's end is excluded: a midpoint exactly at `top + height` of
      one section does not select it, and the next section in the order,
      starting right there, is selected instead. */
  lemma BoundaryGoesToNextSection(prev: string, ids: seq<string>, layout: Layout, pos: real, k: nat)
    requires k + 1 < |ids| && ids[k] in layout && ids[k + 1] in layout
    requires layout[ids[k + 1]].top == layout[ids[k]].top + layout[ids[k]].height
    requires layout[ids[k + 1]].height > 0.0
    requires pos == layout[ids[k]].top + layout[ids[k]].height
    requires forall j :: 0 <= j < k ==> !Hit(layout, ids[j], pos)
    ensures !Hit(layout, ids[k], pos)
    ensures Scan(prev, ids, layout, pos) == ids[k + 1]
  {
    ScanSelectsEarliest(prev, ids, layout, pos, k + 1);
  }

  /** The boundary rule on the page's own ids: intro spans [0, 500), work
      starts at 500, and a midpoint of 500 selects work. */
  lemma BoundaryExample(prev: string)
    ensures !Contains(Span(0.0, 500.0), 500.0)
    ensures Scan(prev, SectionIds, map["intro" := Span(0.0, 500.0), "work" := Span(500.0, 700.0)], 500.0) == "work"
  {
    var layout := map["intro" := Span(0.0, 500.0), "work" := Span(500.0, 700.0)];
    BoundaryGoesToNextSection(prev, SectionIds, layout, 500.0, 0);
  }

  /** The worked example: intro spans [0, 500), work spans [500, 1200), the
      viewport is 800 high and scrolled to 300, so the midpoint is 700 and
      work becomes active. */
  lemma WorkedExample(prev: string)
    ensures Midpoint(Viewport(300.0, 800.0)) == 700.0
    ensures Scan(prev, SectionIds, map["intro" := Span(0.0, 500.0), "work" := Span(500.0, 700.0)],
                 Midpoint(Viewport(300.0, 800.0))) == "work"
  {
    var layout := map["intro" := Span(0.0, 500.0), "work" := Span(500.0, 700.0)];
    ScanSelectsEarliest(prev, SectionIds, layout, 700.0, 1);
  }
}
