/** The `Home` page controller: its three pieces of state, the events that
    change them, and the class choices the navigation and sections read from
    them. Each event changes only its own piece of state. */
module Page {
  import opened ActiveSection
  import opened Reveal
  import opened Theme

  /** The controller's state, plus the root element's class list that the
      theme effect writes. */
  datatype State = State(
    isDark: bool,
    activeSection: string,
    visibleSections: set<string>,
    rootClasses: set<string>)

  /** What can happen to a mounted page: a scroll (with the layout and
      viewport the handler reads), an intersection batch, a theme click. */
  datatype Event =
    | Scroll(view: Viewport, layout: Layout)
    | Intersect(entries: seq<Entry>)
    | ToggleClick

  /** The ids of the sections tagged for the reveal observer. The intro
      header carries no such tag, so it is never observed. */
  const Observed: set<string> := {"work", "thoughts", "connect"}

  /** An intersection batch reports only observed elements. */
  predicate FromObserver(e: Event) {
    e.Intersect? ==> forall i :: 0 <= i < |e.entries| ==> e.entries[i].id in Observed
  }

  /** The active section is unset or one of the scanned ids. */
  predicate ActiveKnown(activeSection: string) {
    activeSection == "" || activeSection in SectionIds
  }

  /** The invariant every reachable page keeps: the root mirrors the theme,
      the active section is empty or one of the scanned ids, and only
      observed sections are revealed. */
  predicate Consistent(p: State) {
    && InSync(p.rootClasses, p.isDark)
    && ActiveKnown(p.activeSection)
    && p.visibleSections <= Observed
  }

  /** The page right after mounting: the initial state, the theme effect
      applied to the root's existing classes, and the scroll handler run
      once. The observer is registered but has not reported yet. */
  function Mount(rootClasses: set<string>, view: Viewport, layout: Layout): (p: State)
    ensures p.isDark && p.visibleSections == {}
    ensures DarkClass in p.rootClasses
    ensures p.activeSection == Scan("", SectionIds, layout, Midpoint(view))
    ensures Consistent(p)
  {
    State(InitialDark, Scan("", SectionIds, layout, Midpoint(view)), {}, SetDark(rootClasses, InitialDark))
  }

  /** One event. */
  function Step(p: State, e: Event): (r: State)
    ensures e.Scroll? ==> r == p.(activeSection := Scan(p.activeSection, SectionIds, e.layout, Midpoint(e.view)))
    ensures e.Intersect? ==> r == p.(visibleSections := ApplyBatch(p.visibleSections, e.entries))
    ensures e.ToggleClick? ==> (r.isDark != p.isDark && r.activeSection == p.activeSection
                                && r.visibleSections == p.visibleSections
                                && InSync(r.rootClasses, r.isDark))
  {
    match e
    case Scroll(view, layout) =>
      p.(activeSection := Scan(p.activeSection, SectionIds, layout, Midpoint(view)))
    case Intersect(entries) =>
      p.(visibleSections := ApplyBatch(p.visibleSections, entries))
    case ToggleClick =>
      var dark := Toggle(p.isDark);
      p.(isDark := dark, rootClasses := SetDark(p.rootClasses, dark))
  }

  /** A sequence of events, in order. */
  function Run(p: State, events: seq<Event>): State
    decreases |events|
  {
    if |events| == 0 then p else Run(Step(p, events[0]), events[1..])
  }

  /** The number of theme clicks among the events. */
  function Toggles(events: seq<Event>): nat {
    if |events| == 0 then 0
    else (if events[0].ToggleClick? then 1 else 0) + Toggles(events[1..])
  }

  /** Every event keeps a consistent page consistent, and no event removes a
      revealed section. */
  lemma {:induction false} RunPreservesConsistent(p: State, events: seq<Event>)
    requires Consistent(p)
    requires forall i :: 0 <= i < |events| ==> FromObserver(events[i])
    ensures Consistent(Run(p, events))
    ensures p.visibleSections <= Run(p, events).visibleSections
    decreases |events|
  {
    if |events| > 0 {
      var q := Step(p, events[0]);
      assert Consistent(q) && p.visibleSections <= q.visibleSections by {
        assert FromObserver(events[0]);
        if events[0].Intersect? {
          assert IntersectingIds(events[0].entries) <= Observed;
        }
      }
      RunPreservesConsistent(q, events[1..]);
    }
  }

  /** The visible set never shrinks, over any events whatever the observer
      reports and from any state. */
  lemma {:induction false} RunMonotone(p: State, events: seq<Event>)
    ensures p.visibleSections <= Run(p, events).visibleSections
    decreases |events|
  {
    if |events| > 0 {
      RunMonotone(Step(p, events[0]), events[1..]);
    }
  }

  /** The active section is always empty or one of the scanned ids, over
      any events whatever the observer reports. */
  lemma {:induction false} RunKeepsActiveKnown(p: State, events: seq<Event>)
    requires ActiveKnown(p.activeSection)
    ensures ActiveKnown(Run(p, events).activeSection)
    decreases |events|
  {
    if |events| > 0 {
      var q := Step(p, events[0]);
      assert ActiveKnown(q.activeSection);
      RunKeepsActiveKnown(q, events[1..]);
    }
  }

  /** The theme after a run is the initial theme flipped once per click:
      an even number of clicks restores it. */
  lemma {:induction false} RunThemeParity(p: State, events: seq<Event>)
    ensures Run(p, events).isDark == (p.isDark != (Toggles(events) % 2 == 1))
    decreases |events|
  {
    if |events| > 0 {
      var q := Step(p, events[0]);
      assert q.isDark == (p.isDark != events[0].ToggleClick?);
      assert Toggles(events) == (if events[0].ToggleClick? then 1 else 0) + Toggles(events[1..]);
      RunThemeParity(q, events[1..]);
    }
  }

  /** Two clicks in a row restore a consistent page exactly. */
  lemma ToggleTwiceRestores(p: State)
    requires Consistent(p)
    ensures Step(Step(p, ToggleClick), ToggleClick) == p
  {
    ToggleTwice(p.rootClasses, p.isDark);
  }

  /** The class of a navigation button. */
  function NavClass(activeSection: string, section: string): (c: string)
    ensures c == "bg-foreground" <==> activeSection == section
  {
    if activeSection == section then "bg-foreground" else "bg-muted-foreground/30 hover:bg-muted-foreground/60"
  }

  /** The navigation buttons shown as highlighted. */
  function Highlighted(activeSection: string): (h: set<string>)
    ensures |h| <= 1
    ensures h == {} <==> activeSection !in SectionIds
    ensures forall s :: s in h <==> s in SectionIds && NavClass(activeSection, s) == "bg-foreground"
  {
    if activeSection in SectionIds then {activeSection} else {}
  }

  /** After mounting and any events, either no button is highlighted (the
      midpoint has never been inside a section) or exactly one is: the
      active section. */
  lemma HighlightAfterRun(rootClasses: set<string>, view: Viewport, layout: Layout, events: seq<Event>)
    ensures var p := Run(Mount(rootClasses, view, layout), events);
            (p.activeSection == "" && Highlighted(p.activeSection) == {})
            || Highlighted(p.activeSection) == {p.activeSection}
  {
    RunKeepsActiveKnown(Mount(rootClasses, view, layout), events);
  }

  /** The intro header never enters the visible set: it is not observed.
      (It has no fade classes either, so it is always shown on screen.) */
  lemma IntroNeverRevealed(rootClasses: set<string>, view: Viewport, layout: Layout, events: seq<Event>)
    requires forall i :: 0 <= i < |events| ==> FromObserver(events[i])
    ensures "intro" !in Run(Mount(rootClasses, view, layout), events).visibleSections
  {
    UnobservedNeverRevealed(Mount(rootClasses, view, layout), events, "intro");
  }

  /** A section that is not observed and not yet visible stays out of the
      visible set over any events whose batches report only observed
      sections. */
  lemma {:induction false} UnobservedNeverRevealed(p: State, events: seq<Event>, id: string)
    requires id !in p.visibleSections && id !in Observed
    requires forall i :: 0 <= i < |events| ==> FromObserver(events[i])
    ensures id !in Run(p, events).visibleSections
    decreases |events|
  {
    if |events| > 0 {
      var q := Step(p, events[0]);
      assert id !in q.visibleSections by {
        assert FromObserver(events[0]);
        if events[0].Intersect? {
          assert id !in IntersectingIds(events[0].entries);
        }
      }
      UnobservedNeverRevealed(q, events[1..], id);
    }
  }
}
