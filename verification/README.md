# Portfolio page controller — Dafny model

This project models the page controller of a single-page portfolio site
(the `Home` component in `app/page.tsx`). The controller holds three pieces
of state, and one transition changes each of them:

- **Active section.** On every scroll, and once at mount, the scroll handler
  walks the ids `intro, work, thoughts, connect` in order. It looks up each
  element and selects the first one whose span `[offsetTop, offsetTop +
  offsetHeight)` contains the viewport midpoint `scrollY + innerHeight / 2`.
  Missing elements are skipped. When nothing matches, the previous value is
  kept. It starts as `""`.
- **Visible sections.** The intersection-observer callback adds the target id
  of every intersecting entry to a set that only grows. Each section is
  hidden until revealed, and revealed is terminal. Only the elements tagged
  `data-animate` (work, thoughts, connect) are observed.
- **Theme.** `isDark` starts `true`, and the theme button negates it. An
  effect mirrors it onto the root element as the class `dark`.

The browser's reads are modelled as plain inputs:

- `getElementById` with `offsetTop`/`offsetHeight` becomes a `Layout`, a map
  from id to `Span`.
- `scrollY`/`innerHeight` becomes a `Viewport`.
- Intersection geometry becomes the boolean `Entry.isIntersecting`.

Positions are Dafny `real`s.

Files:
- `wrappers.dfy`: `Option`.
- `active_section.dfy`: the scan, both as a function and as the source's
  loop with `break`.
- `reveal.dfy`: the intersection batch and the per-section reveal state.
- `theme.dfy`: the toggle and the root-class effect.
- `page.dfy`: the controller state, its events, runs of events, and the
  navigation highlight.

## Model

| member | source | states |
|---|---|---|
| ActiveSection.Midpoint | app/page.tsx:18 | the scan position is equidistant from the viewport's top edge and its bottom edge |
| ActiveSection.FirstHit | app/page.tsx:20-29 | a found index names a present section containing the position and no earlier id does; nothing is found exactly when no present section contains it |
| ActiveSection.Scan | app/page.tsx:20-29 | the new active section is either the previous one or an id from the list whose present element contains the position |
| ActiveSection.HandleScroll | app/page.tsx:16-30 | the loop with `break` keeps the previous value when nothing matches and otherwise selects the earliest matching id; it computes the same result as `Scan` |
| ActiveSection.ScanSelectsEarliest | app/page.tsx:17-27 | when some present section contains the midpoint, the earliest such id in scan order becomes active and later matches are ignored |
| ActiveSection.ScanKeepsPrevious | app/page.tsx:20-29 | when no present section contains the midpoint the active section is unchanged (the scan never resets it); for a previous value not in the list, that is the only way it stays unchanged |
| ActiveSection.ScanCons | app/page.tsx:20-27 | one loop iteration: the first id is selected if its element contains the position, otherwise the scan continues with the remaining ids |
| ActiveSection.ScanSkipsMissing | app/page.tsx:21-22 | an id with no element is skipped without stopping the scan: scanning all ids equals scanning only the present ones |
| ActiveSection.ScanNonOverlapping | app/page.tsx:20-27 | in a layout of non-overlapping sections, a section containing the midpoint is selected whatever its position in the order |
| ActiveSection.BoundaryGoesToNextSection | app/page.tsx:24 | for any layout, containment is half-open: a midpoint at `top + height` of one section misses it, and the next section in the order, starting there, is selected |
| ActiveSection.BoundaryExample | app/page.tsx:24 | on the page's ids, a midpoint of 500 misses intro [0,500) and selects work, which starts at 500 |
| ActiveSection.WorkedExample | app/page.tsx:17-26 | scroll 300 with viewport 800 gives midpoint 700, which selects `work` when intro spans [0,500) and work spans [500,1200) |
| Reveal.Add | app/page.tsx:42-43 | one entry never shrinks the set and adds at most its own id; that id is in the result exactly when it was already visible or the entry is intersecting |
| Reveal.ApplyBatch | app/page.tsx:40-46 | a batch adds exactly the ids of its intersecting entries to the visible set, in any order |
| Reveal.StateOf | app/page.tsx:200-201 | a section shows as revealed exactly when its id is in the visible set |
| Reveal.SectionClass | app/page.tsx:200-201 | a section carries the shown classes exactly when it is revealed (same conditional at lines 459-460 and 627-628) |
| Reveal.BatchMonotone | app/page.tsx:43 | from any visible set, the empty one included, a batch never shrinks the set, and every revealed section stays revealed |
| Reveal.NonIntersectingChangesNothing | app/page.tsx:42 | a batch with no intersecting entry leaves the set unchanged |
| Reveal.BatchIdempotent | app/page.tsx:43 | re-reporting any batch changes nothing, from any visible set including the empty one at mount, and adding an already visible id is a no-op |
| Reveal.HiddenToRevealed | app/page.tsx:41-44 | a hidden section becomes revealed exactly when the batch holds an intersecting entry for it |
| Reveal.BatchesCompose | app/page.tsx:40-46 | two batches in a row equal one batch of both entries, in either order |
| Reveal.EnterLeaveReenter | app/page.tsx:40-46 | entering, leaving and re-entering reveals the section once, with no return to hidden |
| Theme.Toggle | app/page.tsx:56-58 | the toggle always changes the theme |
| Theme.SetDark | app/page.tsx:11-13 | after the effect the root has `dark` exactly when the theme is dark, and no other class changes |
| Theme.ToggleTwice | app/page.tsx:56-58 | toggling twice restores the theme, and a root class list in sync with it |
| Theme.SetDarkIdempotent | app/page.tsx:11-13 | re-running the effect with the same theme changes nothing |
| Theme.ButtonIcon | app/page.tsx:736-755 | the button shows the sun icon exactly while the theme is dark |
| Page.Mount | app/page.tsx:7-33 | after mount the theme is dark, the root has `dark`, nothing is revealed, and the active section is the scan from `""` |
| Page.Step | app/page.tsx:11-58 | a scroll changes only the active section, a batch changes only the visible set, and a click flips only the theme and keeps the root in sync |
| Page.RunPreservesConsistent | app/page.tsx:7-58 | from a consistent page, over any events whose batches report only observed sections, the root mirrors the theme, the active section stays `""` or a listed id, only observed sections are revealed, and the visible set only grows |
| Page.RunMonotone | app/page.tsx:41-44 | from any state, over any events whatever the observer reports, the visible set never shrinks |
| Page.RunKeepsActiveKnown | app/page.tsx:20-29 | over any events, whatever the observer reports, the active section stays `""` or a listed id |
| Page.RunThemeParity | app/page.tsx:56-58 | after any events the theme is the initial one flipped once per click |
| Page.ToggleTwiceRestores | app/page.tsx:56-58 | two clicks restore the whole page state |
| Page.NavClass | app/page.tsx:69-71 | a navigation button is highlighted exactly when its id is the active section |
| Page.Highlighted | app/page.tsx:65-71 | at most one navigation button is highlighted, and none exactly when the active section is not a listed id |
| Page.HighlightAfterRun | app/page.tsx:65-71 | after mount and any events, either nothing is active and no button is highlighted, or exactly the active one is |
| Page.IntroNeverRevealed | app/page.tsx:50-51 | the intro header carries no reveal tag, so when batches report only observed sections `intro` never enters the visible set |
| Page.UnobservedNeverRevealed | app/page.tsx:50-51 | a section that is not observed and not yet visible stays out of the visible set over any events whose batches report only observed sections |

## Left out

- `app/layout.tsx`: static metadata, structured data and an inline script that hides a DOM element. None of it is controller logic.
- The markup and hardcoded content of `app/page.tsx` (experience entries, article links, contact links, SVG paths). Only the class conditionals that read the state are modelled.
- The observer reports only the targets it was told to observe. `Page.FromObserver` states this as an assumption on intersection events. `Page.RunPreservesConsistent`, `Page.UnobservedNeverRevealed` and `Page.IntroNeverRevealed` rely on it. `Page.RunMonotone` and `Page.RunKeepsActiveKnown` do not.
- Observer geometry (`threshold: 0.1`, `rootMargin: "0px 0px -100px 0px"`) and layout computation. `isIntersecting` and the spans are given inputs.
- `scrollIntoView` smooth scrolling on a navigation click. It is a browser call that changes no controller state.
- Registration and teardown of the scroll listener and the observer, React effect scheduling, state batching and re-rendering. `Run` applies events one at a time to the committed state.
- Floating point. Positions and `innerHeight / 2` are exact reals. The comparisons are exact inequalities, so rounding is the only thing this drops.
- Theme persistence across reloads. The source has none.

Two facts about the code that the model keeps:
- `activeSection` starts as the empty string (app/page.tsx:8).
- Only the `data-animate` sections work, thoughts and connect are observed (app/page.tsx:50, 199, 458, 626). So `intro` never enters the visible set.
