/**
 * The viewport navigator under the charts: a handle on a strip whose
 * position and width mirror the horizontal scroll of the forecast
 * container, and the press/drag/release interactions that scroll it.
 * Widths are exact reals.
 */
module Viewport {
  import opened Numbers

  /** The container's `scrollWidth` and `clientWidth`, and the strip's `clientWidth`. */
  datatype Layout = Layout(totalWidth: real, visibleWidth: real, wrapperWidth: real)

  /** The handle as last styled: its left offset and width within the strip. */
  datatype Handle = Handle(left: real, width: real)

  datatype Geometry = Geometry(ratio: real, width: real, maxHandleX: real, maxScroll: real, left: real)

  const MinHandleWidth: real := 40.0

  /** Layouts the formulas are defined for: content of positive width (else the ratio is NaN). */
  predicate Measurable(l: Layout)
  {
    l.totalWidth > 0.0
  }

  /** Layouts as a browser reports them: non-negative widths, a strip at least one handle wide. */
  predicate Sane(l: Layout)
  {
    Measurable(l) && l.visibleWidth >= 0.0 && l.wrapperWidth >= MinHandleWidth
  }

  /** How far the content can scroll; it can scroll exactly when less than all of it is visible. */
  function MaxScroll(l: Layout): (m: real)
    ensures Measurable(l) ==> (m > 0.0 <==> VisibleRatio(l) < 1.0)
  {
    var m := l.totalWidth - l.visibleWidth;
    assert Measurable(l) ==> (m > 0.0 <==> VisibleRatio(l) < 1.0) by {
      if Measurable(l) {
        var r := l.visibleWidth / l.totalWidth;
        Cancel(l.visibleWidth, l.totalWidth);
        ScaledStrictly(r, 1.0, l.totalWidth);
        ScaledStrictly(1.0, r, l.totalWidth);
      }
    }
    m
  }

  /** The share of the content that is visible, at most the whole. */
  function VisibleRatio(l: Layout): (ratio: real)
    requires Measurable(l)
    ensures ratio <= 1.0
    ensures ratio <= l.visibleWidth / l.totalWidth
    ensures ratio == 1.0 || ratio == l.visibleWidth / l.totalWidth
    ensures l.visibleWidth >= 0.0 ==> ratio >= 0.0
  {
    var r := l.visibleWidth / l.totalWidth;
    if r < 1.0 then r else 1.0
  }

  /** The handle is the visible share of the strip, but never narrower than 40 pixels. */
  function HandleWidth(l: Layout): (width: real)
    requires Measurable(l)
    ensures width >= MinHandleWidth
    ensures width >= VisibleRatio(l) * l.wrapperWidth
    ensures width == MinHandleWidth || width == VisibleRatio(l) * l.wrapperWidth
    ensures Sane(l) ==> width <= l.wrapperWidth
  {
    var w := VisibleRatio(l) * l.wrapperWidth;
    ScaledWithin(VisibleRatio(l), l.wrapperWidth);
    if w > MinHandleWidth then w else MinHandleWidth
  }

  /** `updateHandle`: the handle's geometry for a scroll position. */
  function HandleGeometry(l: Layout, scrollLeft: real): (g: Geometry)
    requires Measurable(l)
    ensures g.ratio == VisibleRatio(l) && g.width == HandleWidth(l)
    ensures g.maxHandleX == l.wrapperWidth - g.width && g.maxScroll == MaxScroll(l)
    ensures g.maxScroll <= 0.0 ==> g.left == 0.0
    ensures g.maxScroll > 0.0 ==> g.left * g.maxScroll == scrollLeft * g.maxHandleX
    ensures Sane(l) ==> g.maxHandleX >= 0.0
    ensures Sane(l) && 0.0 <= scrollLeft <= g.maxScroll ==> 0.0 <= g.left <= g.maxHandleX
  {
    var width := HandleWidth(l);
    var maxHandleX := l.wrapperWidth - width;
    var maxScroll := MaxScroll(l);
    var left := if maxScroll > 0.0 then (scrollLeft / maxScroll) * maxHandleX else 0.0;
    ScaledWithin(if maxScroll > 0.0 then scrollLeft / maxScroll else 0.0, maxHandleX);
    Geometry(VisibleRatio(l), width, maxHandleX, maxScroll, left)
  }

  function HandleAt(l: Layout, scrollLeft: real): (h: Handle)
    requires Measurable(l)
    ensures h.width == HandleWidth(l) && h.left == HandleGeometry(l, scrollLeft).left
  {
    var g := HandleGeometry(l, scrollLeft);
    Handle(g.left, g.width)
  }

  /** The worked example: 2400 wide content, 240 visible, a 300 wide strip, scrolled to 1080. */
  lemma WorkedExample()
    ensures HandleGeometry(Layout(2400.0, 240.0, 300.0), 1080.0)
         == Geometry(0.1, 40.0, 260.0, 2160.0, 130.0)
  {
    var l := Layout(2400.0, 240.0, 300.0);
    assert VisibleRatio(l) == 0.1;
    assert HandleWidth(l) == 40.0;
    assert (1080.0 / 2160.0) * 260.0 == 130.0;
  }

  // ------------------------------------------------------------ scrolling

  /** The container's scroll range: assigning `scrollLeft` lands inside `[0, max(0, maxScroll)]`. */
  function ScrollTo(l: Layout, target: real): (s: real)
    ensures 0.0 <= s
    ensures MaxScroll(l) <= 0.0 ==> s == 0.0
    ensures MaxScroll(l) > 0.0 ==> s <= MaxScroll(l)
    ensures 0.0 <= target && (target <= MaxScroll(l) || target == 0.0) ==> s == target
  {
    Clamp(target, 0.0, if MaxScroll(l) > 0.0 then MaxScroll(l) else 0.0)
  }

  /** The scroll offset a handle position asks for; 0 when the handle cannot move. */
  function ScrollForLeft(l: Layout, handleWidth: real, left: real): (s: real)
    ensures l.wrapperWidth - handleWidth <= 0.0 || left == 0.0 ==> s == 0.0
    ensures l.wrapperWidth - handleWidth > 0.0 && left == l.wrapperWidth - handleWidth ==> s == MaxScroll(l)
    ensures 0.0 <= left <= l.wrapperWidth - handleWidth && MaxScroll(l) >= 0.0 ==> 0.0 <= s <= MaxScroll(l)
  {
    var maxHandleX := l.wrapperWidth - handleWidth;
    var ratio := if maxHandleX > 0.0 then left / maxHandleX else 0.0;
    assert maxHandleX > 0.0 && left == maxHandleX ==> ratio == 1.0 by {
      if maxHandleX > 0.0 {
        Cancel(1.0, maxHandleX);
      }
    }
    assert 0.0 <= left <= maxHandleX && MaxScroll(l) >= 0.0 ==> 0.0 <= ratio * MaxScroll(l) <= MaxScroll(l) by {
      if maxHandleX > 0.0 && 0.0 <= left <= maxHandleX {
        FractionWithinUnit(left, maxHandleX);
        ScaledWithin(ratio, MaxScroll(l));
      }
    }
    ratio * MaxScroll(l)
  }

  /** Handle position to scroll offset and back is the identity over the handle's range. */
  lemma HandleScrollRoundTrip(l: Layout, left: real)
    requires Measurable(l)
    requires l.wrapperWidth - HandleWidth(l) > 0.0 && MaxScroll(l) > 0.0
    requires 0.0 <= left <= l.wrapperWidth - HandleWidth(l)
    ensures var s := ScrollForLeft(l, HandleWidth(l), left);
      0.0 <= s <= MaxScroll(l) && ScrollTo(l, s) == s && HandleAt(l, s).left == left
  {
    var maxHandleX := l.wrapperWidth - HandleWidth(l);
    var maxScroll := MaxScroll(l);
    var ratio := left / maxHandleX;
    var s := ScrollForLeft(l, HandleWidth(l), left);
    assert s == ratio * maxScroll;
    FractionWithinUnit(left, maxHandleX);
    ScaledWithin(ratio, maxScroll);
    assert 0.0 <= s <= maxScroll;
    Cancel(ratio, maxScroll);
    assert s / maxScroll == ratio;
    Cancel(left, maxHandleX);
    assert ratio * maxHandleX == left;
    assert HandleAt(l, s).left == (s / maxScroll) * maxHandleX;
  }

  /** Scroll offset to handle position and back is the identity over the scroll range. */
  lemma ScrollHandleRoundTrip(l: Layout, scrollLeft: real)
    requires Measurable(l)
    requires l.wrapperWidth - HandleWidth(l) > 0.0 && MaxScroll(l) > 0.0
    requires 0.0 <= scrollLeft <= MaxScroll(l)
    ensures ScrollForLeft(l, HandleWidth(l), HandleAt(l, scrollLeft).left) == scrollLeft
  {
    var maxHandleX := l.wrapperWidth - HandleWidth(l);
    var q := scrollLeft / MaxScroll(l);
    var left := HandleAt(l, scrollLeft).left;
    assert left == q * maxHandleX;
    Cancel(q, maxHandleX);
    assert left / maxHandleX == q;
    Cancel(scrollLeft, MaxScroll(l));
  }

  // ------------------------------------------------------------ interactions

  /** The navigator: layout, scroll position, styled handle and the drag anchor. */
  datatype Nav = Nav(
    layout: Layout,
    scrollLeft: real,
    handle: Handle,
    dragging: bool,
    startX: real,
    startLeft: real)

  /** The handle shows exactly the current scroll position. */
  predicate Synced(n: Nav)
  {
    Measurable(n.layout) && n.handle == HandleAt(n.layout, n.scrollLeft)
  }

  /** Scrolling the container to a handle position, then restyling the handle. */
  function ScrollToLeft(n: Nav, left: real): (r: Nav)
    requires Measurable(n.layout)
    ensures Synced(r)
    ensures r.layout == n.layout && r.dragging == n.dragging
    ensures r.startX == n.startX && r.startLeft == n.startLeft
  {
    var s := ScrollTo(n.layout, ScrollForLeft(n.layout, n.handle.width, left));
    n.(scrollLeft := s, handle := HandleAt(n.layout, s))
  }

  /** The press hit test, inclusive at both edges of the handle. */
  predicate OnHandle(n: Nav, touchX: real)
  {
    n.handle.left <= touchX <= n.handle.left + n.handle.width
  }

  /**
   * `onPointerDown`: a press on the handle starts a drag from where it is
   * and scrolls nothing; a press elsewhere centres the handle on the press
   * (kept inside the strip), scrolls to match and starts a drag from there.
   */
  function Press(n: Nav, clientX: real, rectLeft: real): (r: Nav)
    requires Measurable(n.layout)
    ensures r.dragging && r.startX == clientX && r.layout == n.layout
    ensures OnHandle(n, clientX - rectLeft) ==>
      r.scrollLeft == n.scrollLeft && r.handle == n.handle && r.startLeft == n.handle.left
    ensures !OnHandle(n, clientX - rectLeft) ==>
      && Synced(r)
      && r.startLeft == Clamp(clientX - rectLeft - n.handle.width / 2.0, 0.0, n.layout.wrapperWidth - n.handle.width)
  {
    var touchX := clientX - rectLeft;
    if OnHandle(n, touchX) then
      n.(dragging := true, startX := clientX, startLeft := n.handle.left)
    else
      var newLeft := Clamp(touchX - n.handle.width / 2.0, 0.0, n.layout.wrapperWidth - n.handle.width);
      ScrollToLeft(n, newLeft).(dragging := true, startX := clientX, startLeft := newLeft)
  }

  /** `onPointerMove`: ignored unless dragging; else the handle follows the pointer, clamped to the strip. */
  function Move(n: Nav, clientX: real): (r: Nav)
    requires Measurable(n.layout)
    ensures !n.dragging ==> r == n
    ensures n.dragging ==> Synced(r) && r.dragging && r.startX == n.startX && r.startLeft == n.startLeft
  {
    if !n.dragging then n
    else
      var newLeft := Clamp(n.startLeft + (clientX - n.startX), 0.0, n.layout.wrapperWidth - n.handle.width);
      ScrollToLeft(n, newLeft)
  }

  /** `onPointerUp`. */
  function Release(n: Nav): (r: Nav)
    ensures !r.dragging
    ensures r.(dragging := n.dragging) == n
  {
    n.(dragging := false)
  }

  /** A scroll of the container from elsewhere: the handle follows only when no drag is in progress. */
  function Scrolled(n: Nav, target: real): (r: Nav)
    requires Measurable(n.layout)
    ensures r.scrollLeft == ScrollTo(n.layout, target)
    ensures n.dragging ==> r.handle == n.handle
    ensures !n.dragging ==> Synced(r)
    ensures r.dragging == n.dragging && r.layout == n.layout
  {
    var s := ScrollTo(n.layout, target);
    if n.dragging then n.(scrollLeft := s) else n.(scrollLeft := s, handle := HandleAt(n.layout, s))
  }

  /** The resize observer: new measurements, and the handle restyled to them. */
  function Resized(n: Nav, l: Layout): (r: Nav)
    requires Measurable(l)
    ensures Synced(r) && r.layout == l && r.dragging == n.dragging
  {
    var s := ScrollTo(l, n.scrollLeft);
    n.(layout := l, scrollLeft := s, handle := HandleAt(l, s))
  }

  // ------------------------------------------------------------ properties

  /**
   * While dragging a handle that matches the layout, the handle's new left
   * is the drag anchor moved by the pointer's travel, clamped to the strip.
   */
  lemma DragFollowsPointer(n: Nav, clientX: real)
    requires Sane(n.layout) && n.dragging && n.handle.width == HandleWidth(n.layout)
    requires n.layout.wrapperWidth - HandleWidth(n.layout) > 0.0 && MaxScroll(n.layout) > 0.0
    ensures Move(n, clientX).handle.left
         == Clamp(n.startLeft + (clientX - n.startX), 0.0, n.layout.wrapperWidth - n.handle.width)
  {
    var newLeft := Clamp(n.startLeft + (clientX - n.startX), 0.0, n.layout.wrapperWidth - n.handle.width);
    HandleScrollRoundTrip(n.layout, newLeft);
  }

  /**
   * A press off the handle centres it on the press when there is room, and
   * a following drag moves it by the pointer's travel from there.
   */
  lemma SnapThenDrag(n: Nav, clientX: real, rectLeft: real, delta: real)
    requires Sane(n.layout) && Synced(n)
    requires n.layout.wrapperWidth - HandleWidth(n.layout) > 0.0 && MaxScroll(n.layout) > 0.0
    requires !OnHandle(n, clientX - rectLeft)
    ensures var p := Press(n, clientX, rectLeft);
      && p.handle.left == p.startLeft
      && (0.0 <= clientX - rectLeft - n.handle.width / 2.0 <= n.layout.wrapperWidth - n.handle.width ==>
            p.handle.left + p.handle.width / 2.0 == clientX - rectLeft)
      && Move(p, clientX + delta).handle.left
         == Clamp(p.startLeft + delta, 0.0, n.layout.wrapperWidth - n.handle.width)
  {
    var p := Press(n, clientX, rectLeft);
    HandleScrollRoundTrip(n.layout, p.startLeft);
    DragFollowsPointer(p, clientX + delta);
  }

  /** Every event keeps the handle in step with the scroll position, except a scroll that arrives mid-drag. */
  lemma EventsKeepSynced(n: Nav, clientX: real, rectLeft: real, target: real)
    requires Synced(n)
    ensures Synced(Press(n, clientX, rectLeft))
    ensures Synced(Move(n, clientX))
    ensures Synced(Release(n))
    ensures !n.dragging ==> Synced(Scrolled(n, target))
  {
  }

  /** A scroll arriving mid-drag leaves the handle where the drag put it, even though the content moved. */
  lemma ScrollMidDragLeavesHandle()
    ensures var l := Layout(2400.0, 240.0, 300.0);
      var n := Nav(l, 0.0, HandleAt(l, 0.0), true, 0.0, 0.0);
      var r := Scrolled(n, 1080.0);
      r.scrollLeft == 1080.0 && r.handle.left == 0.0 && !Synced(r)
  {
    var l := Layout(2400.0, 240.0, 300.0);
    WorkedExample();
    assert HandleAt(l, 1080.0).left == 130.0;
  }
}
