/** How a scroll panel of ext/raygui.h moves and where its bars stand. */
module PanelLaws {
  import opened RealArith
  import opened CTypes
  import opened ScrollGeometry
  import opened PanelGeometry
  import ScrollLaws

  // ----- The scroll position -----

  function Distance(a: real, b: real): real {
    if a <= b then b - a else a - b
  }

  /** A position out of range is brought to the nearest one in range. */
  lemma BoundedNearest(position: real, u: real, low: real, high: real)
    requires low <= high && -high <= u <= -low
    ensures -high <= Bounded(position, low, high) <= -low
    ensures Distance(position, Bounded(position, low, high)) <= Distance(position, u)
  {
  }

  /**
   * The wheel moves a panel under the mouse in exactly one direction, sideways if asked to and there is
   * a bar for it; turned back, it moves the panel back; elsewhere it moves nothing.
   */
  lemma WheelTurns(box: Rectangle, scroll: Point, m: Mouse, enabled: bool, sideways: bool, horizontal: bool,
                   speed: real)
    ensures
      var next := Wheeled(box, scroll, m, enabled, sideways, horizontal, speed);
      var across := sideways && horizontal;
      && (enabled && Hits(m.position, box) ==>
            && (if across then next.x - scroll.x else next.y - scroll.y) == m.wheel * speed
            && (if across then next.y == scroll.y else next.x == scroll.x)
            && Wheeled(box, next, m.(wheel := -m.wheel), enabled, sideways, horizontal, speed) == scroll)
      && (!(enabled && Hits(m.position, box)) ==> next == scroll)
  {
    hide Hits;
  }

  /** A notch is 20 pixels, or 30 if a bar had to be lengthened to 40. */
  lemma WheelSpeeds(box: Rectangle, ps: PanelStyle, horizontal: bool, vertical: bool)
    ensures
      var across := HorizontalBounds(box, ps, horizontal, vertical);
      var down := VerticalBounds(box, ps, horizontal, vertical);
      var taken := Thickness(vertical, ps) as real + 2.0 * ps.border as real;
      var stacked := Thickness(horizontal, ps) as real + 2.0 * ps.border as real;
      && across.width >= 40.0 && down.height >= 40.0
      && WheelSpeed(box, ps, horizontal, vertical)
         == (if across.width > box.width - taken || down.height > box.height - stacked then 30.0 else 20.0)
  {
  }

  /** A whole position reaches the bar as the value nearest to it. */
  lemma WholePosition(p: int, low: int, high: real)
    requires low as real <= high
    ensures Normalise(Trunc(-Bounded(p as real, low as real, high)), low, Trunc(high))
        == Normalise(-p, low, Trunc(high))
  {
  }

  /**
   * A bar the mouse is not on leaves its direction at the position asked for, or at the nearest end of
   * its range: so a panel left alone keeps its place, and the wheel moves it by its notches.
   */
  lemma PositionKept(bounds: Rectangle, st: ScrollStyle, p: int, low: int, high: real, m: Mouse, enabled: bool,
                     active: Rectangle)
    requires low as real <= high && low < Trunc(high) && !Hits(m.position, bounds)
    ensures Defined(bounds, st, low, Trunc(high), m, enabled, false)
    ensures
      var left := -Scrolled(bounds, st, Trunc(-Bounded(p as real, low as real, high)), low, Trunc(high), m, enabled,
                            false, active);
      && (-Trunc(high) <= p <= -low ==> left == p)
      && (p > -low ==> left == -low) && (p < -Trunc(high) ==> left == -Trunc(high))
  {
    WholePosition(p, low, high);
    hide LayoutOf, Hits, Dragged, Bounded, Trunc, OnArrow;
  }

  /** What a panel hands its bars: place, slider, bounded position and range, each of its own direction. */
  lemma BarsTakePosition(box: Rectangle, content: Rectangle, ps: PanelStyle, scroll: Point, m: Mouse, enabled: bool,
                         sideways: bool)
    requires Measurable(box, content, ps)
    ensures
      var bars := BarsOf(box, content, ps, scroll, m, enabled, sideways);
      var h, v := HasHorizontal(box, content, ps), HasVertical(box, content, ps);
      var moved := Wheeled(box, scroll, m, enabled, sideways, h, WheelSpeed(box, ps, h, v));
      && (bars.horizontal.Some? <==> h) && (bars.vertical.Some? <==> v)
      && (h ==>
            var b, high := bars.horizontal.value, HorizontalMax(box, content, ps, true, v);
            && b.value == Trunc(-Bounded(moved.x, HorizontalMin(ps, v) as real, high))
            && b.minValue == HorizontalMin(ps, v) && b.maxValue == Trunc(high)
            && b.bounds == HorizontalBounds(box, ps, true, v)
            && b.size == PanelSliderSize(box.width, content.width, ps, Thickness(v, ps)))
      && (v ==>
            var b, high := bars.vertical.value, VerticalMax(box, content, ps, h, true);
            && b.value == Trunc(-Bounded(moved.y, 0.0, high)) && b.minValue == 0 && b.maxValue == Trunc(high)
            && b.bounds == VerticalBounds(box, ps, h, true)
            && b.size == PanelSliderSize(box.height, content.height, ps, Thickness(h, ps)))
  {
    hide Wheeled, Bounded, PanelSliderSize, HorizontalBounds, VerticalBounds, WheelSpeed, HasHorizontal, HasVertical,
      Trunc;
  }

  /**
   * The horizontal range is what the content overflows the room by, from the panel's inner left edge
   * on; the vertical one is a border less, from zero on.
   */
  lemma RangesAreOverflow(box: Rectangle, content: Rectangle, ps: PanelStyle, shown: bool)
    ensures
      var taken := Thickness(shown, ps) as real;
      var border := ps.border as real;
      && HorizontalMax(box, content, ps, true, shown) - HorizontalMin(ps, shown) as real
         == content.width - (box.width - taken - 2.0 * border)
      && HorizontalMin(ps, shown) == -ps.border - (if ps.onLeft && shown then ps.barWidth else 0)
      && VerticalMax(box, content, ps, shown, true) == content.height - (box.height - taken - 2.0 * border) - border
      && VerticalMin(true) == 0
  {
  }

  /** A panel is at least 48 high; under a header it begins a pixel into the header's 24 and ends two pixels early. */
  lemma BoxUnderHeader(bounds: Rectangle, header: bool)
    ensures
      var box, height := BoxOf(bounds, header), if bounds.height < 48.0 then 48.0 else bounds.height;
      && box.x == bounds.x && box.width == bounds.width
      && box.y == bounds.y + (if header then 23.0 else 0.0)
      && box.y + box.height == bounds.y + height - (if header then 2.0 else 0.0)
  {
  }

  // ----- The bars -----

  /**
   * Both bars stand a border inside the panel, at the bottom and at their side, and meet in the corner without
   * overlap.
   */
  lemma BarsMeet(box: Rectangle, ps: PanelStyle)
    ensures
      var border, width := ps.border as real, ps.barWidth as real;
      var across, down := HorizontalBounds(box, ps, true, true), VerticalBounds(box, ps, true, true);
      && across.height == width && across.y + across.height + border == box.y + box.height
      && down.width == width && down.y == box.y + border
      && (if ps.onLeft then down.x == box.x + border && across.x == down.x + down.width
          else down.x + down.width + border == box.x + box.width && across.x == box.x + border)
      && (across.width > MIN_SCROLLBAR ==>
            across.x + across.width == if ps.onLeft then box.x + box.width - border else down.x)
      && (down.height > MIN_SCROLLBAR ==> down.y + down.height == across.y)
  {
  }

  /** A bar alone has the whole length inside the borders. */
  lemma BarAlone(box: Rectangle, ps: PanelStyle)
    ensures
      var border := ps.border as real;
      var across, down := HorizontalBounds(box, ps, true, false), VerticalBounds(box, ps, false, true);
      && across.x == box.x + border && down.y == box.y + border
      && (across.width > MIN_SCROLLBAR ==> across.x + across.width == box.x + box.width - border)
      && (down.height > MIN_SCROLLBAR ==> down.y + down.height == box.y + box.height - border)
  {
  }

  /**
   * The view begins inside the border and the left bar, and reaches to the other bar or border where content
   * overflows.
   */
  lemma ViewFills(box: Rectangle, content: Rectangle, ps: PanelStyle)
    requires ps.barWidth >= 0
    ensures
      var h, v := HasHorizontal(box, content, ps), HasVertical(box, content, ps);
      var view, border := ViewOf(box, content, ps, h, v), ps.border as real;
      var across, down := HorizontalBounds(box, ps, h, v), VerticalBounds(box, ps, h, v);
      && view.y == box.y + border && view.x == box.x + border + (if ps.onLeft then down.width else 0.0)
      && (h ==> view.x + view.width == if ps.onLeft then box.x + box.width - border else down.x)
      && (v ==> view.y + view.height == across.y)
  {
    BarsSettled(box, content, ps, false, false);
  }

  /** In whole pixels the slider is to the room as the room is to the content, and shorter than the room. */
  lemma SliderShare(room: int, content: int, ps: PanelStyle, taken: int)
    requires 0 < room - 2 * ps.border - taken < content
    ensures
      var inner := (room - 2 * ps.border - taken) as real;
      var size := PanelSliderSize(room as real, content as real, ps, taken);
      && 0 <= size && size as real < inner
      && size as real * content as real <= inner * inner < (size as real + 1.0) * content as real
  {
    var inner := (room - 2 * ps.border - taken) as real;
    WholeTrunc(room);
    WholeTrunc(content);
    hide Trunc;
    var n := ShareOf(inner, inner, content as real);
    assert PanelSliderSize(room as real, content as real, ps, taken) == n by { Swap(inner, inner / content as real); }
    hide PanelSliderSize;
    BelowRoom(n as real, inner, content as real);
  }

  lemma Swap(a: real, b: real)
    ensures a * b == b * a
  {
  }

  lemma BelowRoom(n: real, inner: real, content: real)
    requires 0.0 < inner < content && n * content <= inner * inner
    ensures n < inner
  {
    ScaleOrder(inner, content, inner);
    if n >= inner { ScaleOrder(inner, n, content); }
  }

  lemma WholeTrunc(n: int)
    ensures Trunc(n as real) == n
  {
  }
}
