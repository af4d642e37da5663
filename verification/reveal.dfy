/** The reveal-on-scroll controller of the page controller.

    An intersection observer reports batches of entries; for every entry
    that is intersecting, the id of its target is added to the set of
    visible sections. The set only ever grows: each section is a two-state
    machine, hidden then revealed, and revealed is terminal. The observer's
    geometry (threshold and root margin) is the browser's business; here
    `isIntersecting` is a given boolean. */
module Reveal {

  /** One intersection-observer entry: the target's id and whether it is
      intersecting. */
  datatype Entry = Entry(id: string, isIntersecting: bool)

  /** The per-section reveal state. */
  datatype RevealState = Hidden | Revealed

  /** The ids of a batch's intersecting entries, independently of order. */
  ghost function IntersectingIds(entries: seq<Entry>): set<string> {
    set e | e in entries && e.isIntersecting :: e.id
  }

  /** One entry of the callback's `forEach`. */
  function Add(visible: set<string>, e: Entry): (r: set<string>)
    ensures visible <= r && r - visible <= {e.id}
    ensures e.id in r <==> e.id in visible || e.isIntersecting
  {
    if e.isIntersecting then visible + {e.id} else visible
  }

  /** The observer callback: the entries of one batch applied in order. The
      result is the old set plus exactly the ids of the intersecting
      entries. */
  function ApplyBatch(visible: set<string>, entries: seq<Entry>): (r: set<string>)
    ensures r == visible + IntersectingIds(entries)
    decreases |entries|
  {
    if |entries| == 0 then visible
    else
      var rest := ApplyBatch(Add(visible, entries[0]), entries[1..]);
      assert entries == [entries[0]] + entries[1..];
      rest
  }

  /** The reveal state a section shows, read from the visible set as the
      section's class conditional reads it. */
  function StateOf(visible: set<string>, id: string): (st: RevealState)
    ensures st == Revealed <==> id in visible
  {
    if id in visible then Revealed else Hidden
  }

  /** The fade classes a data-animate section carries. */
  function SectionClass(visible: set<string>, id: string): (c: string)
    ensures c == "opacity-100 translate-y-0" <==> StateOf(visible, id) == Revealed
  {
    if id in visible then "opacity-100 translate-y-0" else "opacity-0 translate-y-8"
  }

  /** A batch never removes an id, from any visible set, and every revealed
      section stays revealed. */
  lemma BatchMonotone(visible: set<string>, entries: seq<Entry>)
    ensures visible <= ApplyBatch(visible, entries)
    ensures forall id :: StateOf(visible, id) == Revealed ==> StateOf(ApplyBatch(visible, entries), id) == Revealed
  {
  }

  /** A batch of only non-intersecting entries changes nothing. */
  lemma NonIntersectingChangesNothing(visible: set<string>, entries: seq<Entry>)
    requires forall i :: 0 <= i < |entries| ==> !entries[i].isIntersecting
    ensures ApplyBatch(visible, entries) == visible
  {
    assert IntersectingIds(entries) == {};
  }

  /** Reporting the same batch again changes nothing, and adding an id that
      is already visible is a no-op. */
  lemma BatchIdempotent(visible: set<string>, entries: seq<Entry>, id: string)
    ensures ApplyBatch(ApplyBatch(visible, entries), entries) == ApplyBatch(visible, entries)
    ensures id in visible ==> ApplyBatch(visible, [Entry(id, true)]) == visible
  {
    assert IntersectingIds([Entry(id, true)]) == {id};
  }

  /** A section that was hidden becomes revealed exactly when the batch
      holds an intersecting entry for it. */
  lemma HiddenToRevealed(visible: set<string>, entries: seq<Entry>, id: string)
    requires StateOf(visible, id) == Hidden
    ensures StateOf(ApplyBatch(visible, entries), id) == Revealed
        <==> exists i :: 0 <= i < |entries| && entries[i] == Entry(id, true)
  {
    if id in ApplyBatch(visible, entries) {
      var e :| e in entries && e.isIntersecting && e.id == id;
      var i :| 0 <= i < |entries| && entries[i] == e;
    }
  }

  /** Two batches in a row reveal what one batch of both would, in either
      order: the browser's batching does not matter. */
  lemma BatchesCompose(visible: set<string>, a: seq<Entry>, b: seq<Entry>)
    ensures ApplyBatch(ApplyBatch(visible, a), b) == ApplyBatch(visible, a + b)
    ensures ApplyBatch(visible, a + b) == ApplyBatch(visible, b + a)
  {
    assert IntersectingIds(a + b) == IntersectingIds(a) + IntersectingIds(b);
    assert IntersectingIds(b + a) == IntersectingIds(b) + IntersectingIds(a);
  }

  /** A section enters the viewport, leaves it, and enters again: it is
      revealed after the first entry and stays revealed, with no hidden
      state in between. */
  lemma EnterLeaveReenter(visible: set<string>, id: string)
    ensures var v1 := ApplyBatch(visible, [Entry(id, true)]);
            var v2 := ApplyBatch(v1, [Entry(id, false)]);
            var v3 := ApplyBatch(v2, [Entry(id, true)]);
            StateOf(v1, id) == Revealed && v2 == v1 && v3 == v1
  {
    assert IntersectingIds([Entry(id, true)]) == {id};
    assert IntersectingIds([Entry(id, false)]) == {};
  }
}
