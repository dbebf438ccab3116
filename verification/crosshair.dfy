/**
 * The continuous now-marker and the synchronised crosshair across the four
 * stacked charts. The chart scale's pixel-to-value mapping is an abstract
 * function; animation frames and touch/mouse listeners become explicit
 * events on an immutable screen state.
 */
module Crosshair {
  import opened Basics
  import opened Numbers
  import opened Calendar

  /** One chart: its active data index (`None` when nothing is active) and how often it was redrawn. */
  datatype Panel = Panel(active: Option<int>, redraws: nat)

  /**
   * The interactive state: the chart slots (`None` where a chart is missing),
   * the mouse position waiting for the next animation frame, and the
   * index the crosshair line is drawn at (`None` while hidden).
   */
  datatype Screen = Screen(panels: seq<Option<Panel>>, pending: Option<real>, crosshair: Option<int>)

  /** Which elements the page provides when the lines are set up. */
  datatype Page = Page(hasWrapper: bool, hasFirstCanvas: bool, hasTimeLine: bool, hasFirstChart: bool)

  /** What setup fixes for the handlers: the index bound, the scale, and the now-marker. */
  datatype Wiring = Wiring(bound: int, valueForPixel: real -> real, marker: Option<int>)

  datatype Event =
    | MouseMove(clientX: real)
    | Frame(rectLeft: real)
    | Touch(clientX: real, rectLeft: real)
    | TouchEnd
    | MouseLeave

  // ------------------------------------------------------------ setup

  /**
   * `updateContinuousLines`: nothing happens unless the wrapper, the first
   * canvas, the time line and the first chart all exist. The marker is drawn
   * at the local hour of day; `bound` is the length of the series passed in.
   * The offset has no default here: an absent one makes `offset * 1000`
   * NaN, the Date invalid and the marker hidden.
   */
  function SetUp(page: Page, nowMs: int, offsetSeconds: Option<int>, bound: int, valueForPixel: real -> real)
    : (w: Option<Wiring>)
    ensures w.Some? <==>
      page.hasWrapper && page.hasFirstCanvas && page.hasTimeLine && page.hasFirstChart
    ensures w.Some? ==> w.value.bound == bound && w.value.valueForPixel == valueForPixel
    ensures w.Some? && w.value.marker.Some? ==> 0 <= w.value.marker.value < 24
    ensures w.Some? ==> (w.value.marker.Some? <==>
      offsetSeconds.Some? && ValidTime(nowMs + offsetSeconds.value * 1000))
  {
    if !page.hasFirstCanvas || !page.hasWrapper || !page.hasTimeLine then None
    else if !page.hasFirstChart then None
    else
      // an absent offset yields NaN, which `getUTCHours` passes on as NaN
      var hourIndex := if offsetSeconds.Some? then HourOfDay(nowMs + offsetSeconds.value * 1000) else None;
      // `hourIndex >= 0` is false only for the NaN of an invalid date
      var marker := if hourIndex.Some? && hourIndex.value >= 0 then hourIndex else None;
      Some(Wiring(bound, valueForPixel, marker))
  }

  /**
   * The marker's `hourIndex >= 0` guard never rejects a real hour: whenever
   * the clock reading is a valid date the marker is shown, at the hour whose
   * span within the local day contains the shifted instant.
   */
  lemma MarkerIsLocalHour(page: Page, nowMs: int, offsetSeconds: int, bound: int, valueForPixel: real -> real)
    requires page == Page(true, true, true, true)
    requires ValidTime(nowMs + offsetSeconds * 1000)
    ensures var w := SetUp(page, nowMs, Some(offsetSeconds), bound, valueForPixel);
      && w.Some? && w.value.marker.Some?
      && var t := nowMs + offsetSeconds * 1000;
         var h := w.value.marker.value;
         DayNumber(t) * MsPerDay + h * MsPerHour <= t < DayNumber(t) * MsPerDay + (h + 1) * MsPerHour
  {
    var t := nowMs + offsetSeconds * 1000;
    assert HourOfDay(t).Some?;
  }

  // ------------------------------------------------------------ pointer to index

  /** The data index under a pointer: the scale's value at the offset within the canvas, rounded half up. */
  function IndexAt(w: Wiring, clientX: real, rectLeft: real): (idx: int)
    ensures idx as real - 0.5 <= w.valueForPixel(clientX - rectLeft) < idx as real + 0.5
  {
    RoundHalfUp(w.valueForPixel(clientX - rectLeft))
  }

  /** A pointer index is used only when it lies in `[0, bound)`. */
  predicate Accepts(w: Wiring, idx: int)
  {
    0 <= idx < w.bound
  }

  /**
   * Scale values from -0.5 up to just below `bound - 0.5` are accepted;
   * anything below -0.5 or from `bound - 0.5` on is rejected.
   */
  lemma AcceptedValues(w: Wiring, clientX: real, rectLeft: real)
    ensures Accepts(w, IndexAt(w, clientX, rectLeft)) <==>
      -0.5 <= w.valueForPixel(clientX - rectLeft) < w.bound as real - 0.5
  {
    var v := w.valueForPixel(clientX - rectLeft);
    var idx := IndexAt(w, clientX, rectLeft);
    if Accepts(w, idx) {
      assert 0.0 <= idx as real && idx as real <= w.bound as real - 1.0;
    } else if idx < 0 {
      assert idx as real <= -1.0;
    } else {
      assert idx as real >= w.bound as real;
    }
  }

  // ------------------------------------------------------------ chart sync

  /** One chart after a sync to `idx`: updated and redrawn only when its active index differs. */
  function SyncPanel(slot: Option<Panel>, idx: int): (r: Option<Panel>)
    ensures r.Some? <==> slot.Some?
    ensures r.Some? ==> r.value.active == Some(idx)
    ensures slot.Some? && slot.value.active == Some(idx) ==> r == slot
    ensures slot.Some? && slot.value.active != Some(idx) ==> r.value.redraws == slot.value.redraws + 1
  {
    match slot
    case None => None
    case Some(p) => if p.active == Some(idx) then slot else Some(Panel(Some(idx), p.redraws + 1))
  }

  /** Every available chart brought to `idx`; missing charts stay missing. */
  function SyncTo(panels: seq<Option<Panel>>, idx: int): (r: seq<Option<Panel>>)
    ensures |r| == |panels|
    ensures forall i | 0 <= i < |r| :: r[i] == SyncPanel(panels[i], idx)
  {
    seq(|panels|, i requires 0 <= i < |panels| => SyncPanel(panels[i], idx))
  }

  /** Syncing twice to the same index is the same as once: the second pass redraws nothing. */
  lemma SyncIdempotent(panels: seq<Option<Panel>>, idx: int)
    ensures SyncTo(SyncTo(panels, idx), idx) == SyncTo(panels, idx)
  {
    var once := SyncTo(panels, idx);
    var twice := SyncTo(once, idx);
    forall i | 0 <= i < |panels|
      ensures twice[i] == once[i]
    {
      assert once[i] == SyncPanel(panels[i], idx);
    }
  }

  /** Total redraws over the available charts. */
  function Redraws(panels: seq<Option<Panel>>): nat
  {
    if |panels| == 0 then 0
    else Redraws(panels[..|panels| - 1]) + (if panels[|panels| - 1].Some? then panels[|panels| - 1].value.redraws else 0)
  }

  /** How many available charts show an active index other than `idx`. */
  function Differing(panels: seq<Option<Panel>>, idx: int): nat
  {
    if |panels| == 0 then 0
    else
      var last := panels[|panels| - 1];
      Differing(panels[..|panels| - 1], idx) + (if last.Some? && last.value.active != Some(idx) then 1 else 0)
  }

  /** A sync costs exactly one redraw per available chart that was not already at the index. */
  lemma {:induction false} SyncRedrawsOnlyDiffering(panels: seq<Option<Panel>>, idx: int)
    ensures Redraws(SyncTo(panels, idx)) == Redraws(panels) + Differing(panels, idx)
    decreases |panels|
  {
    if |panels| > 0 {
      var init := panels[..|panels| - 1];
      var r := SyncTo(panels, idx);
      assert r[..|r| - 1] == SyncTo(init, idx);
      SyncRedrawsOnlyDiffering(init, idx);
    }
  }

  /** Every available chart cleared and redrawn, whether or not it had anything active. */
  function ClearAll(panels: seq<Option<Panel>>): (r: seq<Option<Panel>>)
    ensures |r| == |panels|
    ensures forall i | 0 <= i < |r| :: (r[i].Some? <==> panels[i].Some?)
    ensures forall i | 0 <= i < |r| && r[i].Some? ::
      r[i].value.active.None? && r[i].value.redraws == panels[i].value.redraws + 1
  {
    seq(|panels|, i requires 0 <= i < |panels| =>
      if panels[i].Some? then Some(Panel(None, panels[i].value.redraws + 1)) else None)
  }

  // ------------------------------------------------------------ event handlers

  /** Moving the crosshair to an index, if the bound admits it; otherwise nothing changes. */
  function ShowIndex(w: Wiring, s: Screen, idx: int): (r: Screen)
    ensures r.pending == s.pending
    ensures Accepts(w, idx) ==> r.crosshair == Some(idx) && r.panels == SyncTo(s.panels, idx)
    ensures !Accepts(w, idx) ==> r == s
  {
    if Accepts(w, idx) then s.(crosshair := Some(idx), panels := SyncTo(s.panels, idx)) else s
  }

  /** `onmousemove`: only records the event when no frame is pending; later events are dropped. */
  function OnMouseMove(s: Screen, clientX: real): (r: Screen)
    ensures s.pending.Some? ==> r == s
    ensures s.pending.None? ==> r == s.(pending := Some(clientX))
  {
    if s.pending.Some? then s else s.(pending := Some(clientX))
  }

  /**
   * The animation frame: reads the canvas offset now, but the pointer
   * position recorded by the first coalesced event.
   */
  function OnFrame(w: Wiring, s: Screen, rectLeft: real): (r: Screen)
    ensures r.pending.None?
    ensures s.pending.None? ==> r == s
    ensures s.pending.Some? && Accepts(w, IndexAt(w, s.pending.value, rectLeft)) ==>
      var idx := IndexAt(w, s.pending.value, rectLeft);
      r.crosshair == Some(idx) && r.panels == SyncTo(s.panels, idx)
    ensures s.pending.Some? && !Accepts(w, IndexAt(w, s.pending.value, rectLeft)) ==>
      r == s.(pending := None)
  {
    if s.pending.None? then s
    else ShowIndex(w, s.(pending := None), IndexAt(w, s.pending.value, rectLeft))
  }

  /** `ontouchstart` / `ontouchmove`: the same rule as a frame, applied at once; the pending frame is left alone. */
  function OnTouch(w: Wiring, s: Screen, clientX: real, rectLeft: real): (r: Screen)
    ensures r.pending == s.pending
    ensures Accepts(w, IndexAt(w, clientX, rectLeft)) ==>
      var idx := IndexAt(w, clientX, rectLeft);
      r.crosshair == Some(idx) && r.panels == SyncTo(s.panels, idx)
    ensures !Accepts(w, IndexAt(w, clientX, rectLeft)) ==> r == s
  {
    ShowIndex(w, s, IndexAt(w, clientX, rectLeft))
  }

  /** `onmouseleave`: cancels the pending frame, hides the crosshair and clears every chart. */
  function OnMouseLeave(s: Screen): (r: Screen)
    ensures r.pending.None? && r.crosshair.None?
    ensures r.panels == ClearAll(s.panels)
  {
    Screen(ClearAll(s.panels), None, None)
  }

  /**
   * The charts agree with the crosshair: every available chart has the
   * crosshair's index active (nothing when it is hidden), and a shown
   * crosshair sits at an index the bound accepts.
   */
  predicate InStep(w: Wiring, s: Screen)
  {
    && (s.crosshair.Some? ==> Accepts(w, s.crosshair.value))
    && forall i | 0 <= i < |s.panels| && s.panels[i].Some? :: s.panels[i].value.active == s.crosshair
  }

  function Step(w: Wiring, s: Screen, e: Event): (r: Screen)
    ensures e.TouchEnd? ==> r == s
    ensures |r.panels| == |s.panels|
    ensures InStep(w, s) ==> InStep(w, r)
  {
    match e
    case MouseMove(x) => OnMouseMove(s, x)
    case Frame(left) => OnFrame(w, s, left)
    case Touch(x, left) => OnTouch(w, s, x, left)
    case TouchEnd => s
    case MouseLeave => OnMouseLeave(s)
  }

  /** Steps through a sequence of events. */
  function Run(w: Wiring, s: Screen, events: seq<Event>): (r: Screen)
    ensures |r.panels| == |s.panels|
    ensures InStep(w, s) ==> InStep(w, r)
    decreases |events|
  {
    if |events| == 0 then s else Run(w, Step(w, s, events[0]), events[1..])
  }

  /** Running two batches of events one after the other is running them all at once. */
  lemma {:induction false} RunConcat(w: Wiring, s: Screen, a: seq<Event>, b: seq<Event>)
    ensures Run(w, s, a + b) == Run(w, Run(w, s, a), b)
    decreases |a|
  {
    if |a| > 0 {
      assert (a + b)[0] == a[0];
      assert (a + b)[1..] == a[1..] + b;
      RunConcat(w, Step(w, s, a[0]), a[1..], b);
    } else {
      assert a + b == b;
    }
  }

  // ------------------------------------------------------------ properties

  /**
   * With no frame pending, a touch does at once what a mouse move does at
   * the next frame, provided the canvas has not moved in between.
   */
  lemma TouchIsMoveThenFrame(w: Wiring, s: Screen, x: real, rectLeft: real)
    requires s.pending.None?
    ensures Run(w, s, [MouseMove(x), Frame(rectLeft)]) == OnTouch(w, s, x, rectLeft)
  {
    var s1 := Step(w, s, MouseMove(x));
    assert s1 == s.(pending := Some(x));
    var s2 := Step(w, s1, Frame(rectLeft));
    assert s1.(pending := None) == s;
    assert Run(w, s, [MouseMove(x), Frame(rectLeft)]) == Run(w, s1, [Frame(rectLeft)]);
    assert Run(w, s1, [Frame(rectLeft)]) == Run(w, s2, []);
  }

  /** While a frame is pending, any number of further mouse moves leave the state as it was. */
  lemma {:induction false} MovesWhilePendingAreDropped(w: Wiring, s: Screen, xs: seq<real>)
    requires s.pending.Some?
    ensures Run(w, s, seq(|xs|, i requires 0 <= i < |xs| => MouseMove(xs[i]))) == s
    decreases |xs|
  {
    var events := seq(|xs|, i requires 0 <= i < |xs| => MouseMove(xs[i]));
    if |xs| > 0 {
      assert events[1..] == seq(|xs[1..]|, i requires 0 <= i < |xs[1..]| => MouseMove(xs[1..][i]));
      MovesWhilePendingAreDropped(w, s, xs[1..]);
    }
  }

  /** Two moves before a frame draw at the first move's position, not the latest. */
  lemma FirstMoveWins(w: Wiring, s: Screen, x1: real, x2: real, rectLeft: real)
    requires s.pending.None?
    ensures Run(w, s, [MouseMove(x1), MouseMove(x2), Frame(rectLeft)])
         == OnTouch(w, s, x1, rectLeft)
  {
    var s1 := Step(w, s, MouseMove(x1));
    assert s1 == s.(pending := Some(x1));
    var s2 := Step(w, s1, MouseMove(x2));
    assert s2 == s1;
    var s3 := Step(w, s2, Frame(rectLeft));
    assert s3 == ShowIndex(w, s, IndexAt(w, x1, rectLeft));
    assert Run(w, s, [MouseMove(x1), MouseMove(x2), Frame(rectLeft)]) == Run(w, s1, [MouseMove(x2), Frame(rectLeft)]);
    assert Run(w, s1, [MouseMove(x2), Frame(rectLeft)]) == Run(w, s2, [Frame(rectLeft)]);
    assert Run(w, s2, [Frame(rectLeft)]) == Run(w, s3, []);
  }

  /** Leaving the charts with nothing active still redraws every available chart. */
  lemma LeaveRedrawsEvenWhenClear(s: Screen, i: nat)
    requires i < |s.panels| && s.panels[i].Some? && s.panels[i].value.active.None?
    ensures OnMouseLeave(s).panels[i] == Some(Panel(None, s.panels[i].value.redraws + 1))
  {
  }

  /**
   * The bound is the full series length, not the 241-point window: with a
   * 300-entry series, a pointer at value 250 is accepted although the
   * charts hold at most 241 points.
   */
  lemma AcceptsBeyondWindow(valueForPixel: real -> real, x: real)
    requires valueForPixel(x) == 250.0
    ensures var w := Wiring(300, valueForPixel, None);
      IndexAt(w, x, 0.0) == 250 && Accepts(w, 250) && 250 >= 241
  {
    var w := Wiring(300, valueForPixel, None);
    var idx := IndexAt(w, x, 0.0);
    assert x - 0.0 == x;
    assert idx as real - 0.5 <= 250.0 < idx as real + 0.5;
  }

  // ------------------------------------------------------------ hover sync in the charts

  /**
   * The charts' own `onHover`: when the hovered chart reports an active
   * element, every other chart is set to that element's index and
   * re-rendered; the hovered chart is left as it is.
   */
  function HoverSync(charts: seq<Panel>, hovered: nat, activeIndices: seq<int>): (r: seq<Panel>)
    ensures |r| == |charts|
    ensures |activeIndices| == 0 ==> r == charts
    ensures |activeIndices| > 0 ==> forall i | 0 <= i < |r| ::
      if i == hovered then r[i] == charts[i]
      else r[i] == Panel(Some(activeIndices[0]), charts[i].redraws + 1)
  {
    if |activeIndices| == 0 then charts
    else
      var index := activeIndices[0];
      seq(|charts|, i requires 0 <= i < |charts| =>
        if i != hovered then Panel(Some(index), charts[i].redraws + 1) else charts[i])
  }

  /** After a hover every chart shows the hovered index, the hovered one through its own hover. */
  lemma HoverAligns(charts: seq<Panel>, hovered: nat, index: int)
    requires hovered < |charts| && charts[hovered].active == Some(index)
    ensures forall i | 0 <= i < |charts| :: HoverSync(charts, hovered, [index])[i].active == Some(index)
  {
  }
}
