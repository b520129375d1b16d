/**
  The active-heading tracker of the docs table of contents.

  One cell, `activeSlug`, is written by two event sources once the tracker is
  attached: batches of intersection-observer entries and scroll ticks. The
  browser's geometry is an input: a scroll tick carries every observed heading
  (`h2[id]`, `h3[id]`, `h4[id]`, in document order) with the current top of its
  bounding box, and the viewport height. The tracker is written as a step
  function over immutable states.
 */
module TableOfContents {
  import Seqs

  /** An observed heading element: its `id` attribute (the selector guarantees
      the attribute exists; it may still be the empty string) and the top of its
      bounding rectangle in viewport coordinates. */
  datatype Heading = Heading(id: string, top: real)

  /** One intersection-observer entry, reduced to what the callback reads. */
  datatype Entry = Entry(id: string, isIntersecting: bool, intersectionRatio: real)

  /** One navigable section listed in the table of contents. */
  datatype TocItem = TocItem(title: string, slug: string)

  /** The component state: the active slug, and whether the observer and the
      scroll listener are currently attached. */
  datatype Tracker = Tracker(activeSlug: string, attached: bool)

  datatype Event =
    /** The mount effect; it attaches nothing when `window` is undefined. */
    | Attach(windowDefined: bool)
    /** One intersection-observer callback with its batch of entries. */
    | Intersect(entries: seq<Entry>)
    /** One scroll tick with the current geometry. */
    | Scroll(headings: seq<Heading>, innerHeight: real)
    /** The effect cleanup: unobserve every heading and remove the listener. */
    | Teardown

  /** The state before the mount effect has run. */
  function Init(): Tracker {
    Tracker("", false)
  }

  // ---------------------------------------------------------------------------
  // Intersection batches

  /** An entry that the observer callback acts on: a non-empty id, intersecting,
      with a strictly positive ratio. */
  predicate Qualifies(e: Entry) {
    e.id != "" && e.isIntersecting && e.intersectionRatio > 0.0
  }

  /** Processes a batch in order, each qualifying entry overwriting the slug. */
  function ApplyEntries(active: string, entries: seq<Entry>): (r: string)
    ensures r == active || exists k :: 0 <= k < |entries| && Qualifies(entries[k]) && r == entries[k].id
    decreases |entries|
  {
    if |entries| == 0 then active
    else
      var next := if Qualifies(entries[0]) then entries[0].id else active;
      ApplyEntries(next, entries[1..])
  }

  /** `k` is the last qualifying entry of the batch. */
  predicate IsLastQualifying(entries: seq<Entry>, k: int) {
    && 0 <= k < |entries|
    && Qualifies(entries[k])
    && forall j :: k < j < |entries| ==> !Qualifies(entries[j])
  }

  /** A batch has the effect of its last qualifying entry alone, and a batch
      without a qualifying entry changes nothing. */
  lemma {:induction false} BatchIsLastQualifying(active: string, entries: seq<Entry>)
    ensures (forall k :: 0 <= k < |entries| ==> !Qualifies(entries[k])) ==>
      ApplyEntries(active, entries) == active
    ensures forall k :: IsLastQualifying(entries, k) ==> ApplyEntries(active, entries) == entries[k].id
    decreases |entries|
  {
    if |entries| > 0 {
      var next := if Qualifies(entries[0]) then entries[0].id else active;
      var rest := entries[1..];
      BatchIsLastQualifying(next, rest);
      forall k | IsLastQualifying(entries, k)
        ensures ApplyEntries(active, entries) == entries[k].id
      {
        if k > 0 {
          assert IsLastQualifying(rest, k - 1);
        } else {
          assert forall j :: 0 <= j < |rest| ==> !Qualifies(rest[j]) by {
            forall j | 0 <= j < |rest| ensures !Qualifies(rest[j]) {
              assert rest[j] == entries[j + 1];
            }
          }
        }
      }
      if forall k :: 0 <= k < |entries| ==> !Qualifies(entries[k]) {
        assert forall j :: 0 <= j < |rest| ==> !Qualifies(rest[j]) by {
          forall j | 0 <= j < |rest| ensures !Qualifies(rest[j]) {
            assert rest[j] == entries[j + 1];
          }
        }
      }
    }
  }

  // ---------------------------------------------------------------------------
  // Scroll ticks

  /** The scroll band: the top edge lies in `[0, innerHeight * 0.5]`, both ends
      included. */
  predicate InBand(h: Heading, innerHeight: real) {
    h.top >= 0.0 && h.top <= innerHeight * 0.5
  }

  /** `InBand` as a function value, so that every filter over the band uses the
      same predicate. */
  function BandOf(innerHeight: real): Heading -> bool {
    h => InBand(h, innerHeight)
  }

  /** The headings in the band, in document order. */
  function Visible(headings: seq<Heading>, innerHeight: real): seq<Heading> {
    Seqs.Filter(headings, BandOf(innerHeight))
  }

  /** `k` is the last heading, in document order, whose top is in the band. */
  predicate IsLastInBand(headings: seq<Heading>, innerHeight: real, k: int) {
    && 0 <= k < |headings|
    && InBand(headings[k], innerHeight)
    && forall j :: k < j < |headings| ==> !InBand(headings[j], innerHeight)
  }

  /** The scroll handler: take the last visible heading and, when its id is
      non-empty, make it active. */
  function HandleScroll(active: string, headings: seq<Heading>, innerHeight: real): (r: string)
    ensures (forall i :: 0 <= i < |headings| ==> !InBand(headings[i], innerHeight)) ==> r == active
    ensures forall k :: IsLastInBand(headings, innerHeight, k) ==>
      r == (if headings[k].id != "" then headings[k].id else active)
    ensures r == active ||
      (r != "" && exists i :: 0 <= i < |headings| && InBand(headings[i], innerHeight) && r == headings[i].id)
  {
    var visible := Visible(headings, innerHeight);
    LastVisibleIsLastInBand(headings, innerHeight);
    if |visible| > 0 then
      var slug := visible[|visible| - 1].id;
      if slug != "" then slug else active
    else
      active
  }

  /** The visible list is empty exactly when no heading is in the band, and its
      last element is the last in-band heading of the document. */
  lemma LastVisibleIsLastInBand(headings: seq<Heading>, innerHeight: real)
    ensures |Visible(headings, innerHeight)| == 0 <==>
      forall i :: 0 <= i < |headings| ==> !InBand(headings[i], innerHeight)
    ensures forall k :: IsLastInBand(headings, innerHeight, k) ==>
      var visible := Visible(headings, innerHeight);
      |visible| > 0 && visible[|visible| - 1] == headings[k]
  {
    var p := BandOf(innerHeight);
    Seqs.FilterLast(headings, p);
    forall k | IsLastInBand(headings, innerHeight, k)
      ensures var visible := Visible(headings, innerHeight);
        |visible| > 0 && visible[|visible| - 1] == headings[k]
    {
      assert Seqs.IsLastWhere(headings, p, k);
      Seqs.LastWhereUnique(headings, p, k);
    }
  }

  /** A second tick with unchanged geometry changes nothing. */
  lemma ScrollIdempotent(active: string, headings: seq<Heading>, innerHeight: real)
    ensures HandleScroll(HandleScroll(active, headings, innerHeight), headings, innerHeight)
      == HandleScroll(active, headings, innerHeight)
  {
  }

  /** Once the last in-band heading has a non-empty id, the scroll result does
      not depend on the previous slug, so it overrides whatever an earlier
      intersection batch wrote. */
  lemma ScrollOverrides(a: string, b: string, headings: seq<Heading>, innerHeight: real, k: int)
    requires IsLastInBand(headings, innerHeight, k) && headings[k].id != ""
    ensures HandleScroll(a, headings, innerHeight) == HandleScroll(b, headings, innerHeight) == headings[k].id
  {
  }

  // ---------------------------------------------------------------------------
  // The state machine

  /** The ids an event could write into the slug. */
  function EventIds(e: Event): set<string> {
    match e
    case Intersect(entries) => set en | en in entries :: en.id
    case Scroll(headings, _) => set h | h in headings :: h.id
    case _ => {}
  }

  /** One event. Writes only happen while attached, and a write is never the
      empty slug, so the slug is never reset. */
  function Step(t: Tracker, e: Event): (r: Tracker)
    ensures !t.attached && !e.Attach? ==> r == t
    ensures e.Teardown? ==> !r.attached && r.activeSlug == t.activeSlug
    ensures r.activeSlug == t.activeSlug || (r.activeSlug != "" && r.activeSlug in EventIds(e))
  {
    match e
    case Attach(windowDefined) =>
      if windowDefined then t.(attached := true) else t
    case Intersect(entries) =>
      if t.attached then t.(activeSlug := ApplyEntries(t.activeSlug, entries)) else t
    case Scroll(headings, innerHeight) =>
      if t.attached then t.(activeSlug := HandleScroll(t.activeSlug, headings, innerHeight)) else t
    case Teardown =>
      t.(attached := false)
  }

  /** A sequence of events applied in order. */
  function Run(t: Tracker, events: seq<Event>): Tracker
    decreases |events|
  {
    if |events| == 0 then t else Run(Step(t, events[0]), events[1..])
  }

  /** Every id any event of the trace carries. */
  function TraceIds(events: seq<Event>): set<string>
    decreases |events|
  {
    if |events| == 0 then {} else EventIds(events[0]) + TraceIds(events[1..])
  }

  /** After any trace the slug is the one it started with, or the non-empty id
      of some heading or entry seen during the trace. */
  lemma {:induction false} RunActiveIsObserved(t: Tracker, events: seq<Event>)
    ensures Run(t, events).activeSlug == t.activeSlug ||
      (Run(t, events).activeSlug != "" && Run(t, events).activeSlug in TraceIds(events))
    decreases |events|
  {
    if |events| > 0 {
      RunActiveIsObserved(Step(t, events[0]), events[1..]);
    }
  }

  /** From the initial state, the slug is empty or names an observed heading. */
  lemma InitActiveIsObserved(events: seq<Event>)
    ensures Run(Init(), events).activeSlug == "" || Run(Init(), events).activeSlug in TraceIds(events)
  {
    RunActiveIsObserved(Init(), events);
  }

  /** Until the effect is mounted again, events after the cleanup change nothing. */
  lemma {:induction false} TeardownIsFinal(t: Tracker, events: seq<Event>)
    requires forall i :: 0 <= i < |events| ==> !events[i].Attach?
    ensures Run(Step(t, Teardown), events) == Step(t, Teardown)
    decreases |events|
  {
    if |events| > 0 {
      TeardownIsFinal(t, events[1..]);
    }
  }

  // ---------------------------------------------------------------------------
  // Rendering

  /** The highlight test of each rendered item. */
  predicate IsActive(activeSlug: string, item: TocItem) {
    activeSlug == item.slug
  }

  /** The highlight flags of the rendered list, one per item. */
  function Render(items: seq<TocItem>, activeSlug: string): (r: seq<bool>)
    ensures |r| == |items|
    ensures forall i :: 0 <= i < |items| ==> (r[i] <==> IsActive(activeSlug, items[i]))
  {
    seq(|items|, i requires 0 <= i < |items| => IsActive(activeSlug, items[i]))
  }

  predicate UniqueSlugs(items: seq<TocItem>) {
    forall i, j :: 0 <= i < j < |items| ==> items[i].slug != items[j].slug
  }

  /** With unique slugs, at most one item is highlighted. */
  lemma AtMostOneActive(items: seq<TocItem>, activeSlug: string)
    requires UniqueSlugs(items)
    ensures forall i, j ::
      (0 <= i < |items| && 0 <= j < |items| && Render(items, activeSlug)[i] && Render(items, activeSlug)[j])
      ==> i == j
  {
  }

  /** A slug that names no item (a heading outside the list, say) highlights
      nothing; otherwise the item carrying it is highlighted. */
  lemma ActiveIffListed(items: seq<TocItem>, activeSlug: string)
    ensures (exists i :: 0 <= i < |items| && Render(items, activeSlug)[i]) <==>
      exists i :: 0 <= i < |items| && items[i].slug == activeSlug
  {
    if exists i :: 0 <= i < |items| && items[i].slug == activeSlug {
      var i :| 0 <= i < |items| && items[i].slug == activeSlug;
      assert Render(items, activeSlug)[i];
    }
  }

  /** Before any event no item whose slug is non-empty is highlighted. */
  lemma InitNoneActive(items: seq<TocItem>)
    requires forall i :: 0 <= i < |items| ==> items[i].slug != ""
    ensures forall i :: 0 <= i < |items| ==> !Render(items, Init().activeSlug)[i]
  {
  }

  /** The initial slug is the empty string, so an item whose slug is empty is
      highlighted before any event has fired. */
  lemma EmptySlugActiveAtStart()
    ensures Render([TocItem("Untitled", "")], Init().activeSlug)[0]
  {
  }

  /** The two-section scenario: `#intro` at 0 and `#usage` at 800 in a 600-high
      viewport activates "intro"; scrolling `#usage` to 100 (and `#intro` to
      -700) then activates "usage". */
  lemma IntroUsageScenario()
    ensures
      var t1 := Run(Init(), [Attach(true), Scroll([Heading("intro", 0.0), Heading("usage", 800.0)], 600.0)]);
      var t2 := Step(t1, Scroll([Heading("intro", -700.0), Heading("usage", 100.0)], 600.0));
      t1.activeSlug == "intro" && t2.activeSlug == "usage"
  {
    var h1 := [Heading("intro", 0.0), Heading("usage", 800.0)];
    var h2 := [Heading("intro", -700.0), Heading("usage", 100.0)];
    assert IsLastInBand(h1, 600.0, 0);
    assert IsLastInBand(h2, 600.0, 1);
  }
}
