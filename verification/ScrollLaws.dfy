/** What a scroll bar of ext/raygui.h returns, told from its drawing and the mouse alone. */
module ScrollLaws {
  import opened RealArith
  import opened ScrollGeometry

  /** How far along the bar a point is. */
  function Along(bounds: Rectangle, p: Point): real {
    if IsVertical(bounds) then p.y else p.x
  }

  /** The middle of the slider as it is drawn. */
  function SliderCentre(l: Layout): real {
    if l.vertical then l.slider.y + l.slider.height / 2.0 else l.slider.x + l.slider.width / 2.0
  }

  /** The input puts the slider under the mouse: it is held off the arrows, or pressed beside the slider. */
  predicate Places(bounds: Rectangle, st: ScrollStyle, value: int, minValue: int, maxValue: int,
                   m: Mouse, enabled: bool, dragging: bool, active: Rectangle)
    requires minValue != maxValue
  {
    && enabled && !OnArrow(bounds, st, m.position)
    && (if dragging then m.down && active == bounds
        else
          && m.pressed && Hits(m.position, bounds)
          && !Hits(m.position, LayoutOf(bounds, st, Normalise(value, minValue, maxValue), minValue, maxValue).slider))
  }

  lemma PlacedValue(bounds: Rectangle, st: ScrollStyle, value: int, u: int, minValue: int, maxValue: int,
                    m: Mouse, enabled: bool, dragging: bool, active: Rectangle)
    requires minValue < maxValue && Places(bounds, st, value, minValue, maxValue, m, enabled, dragging, active)
    ensures
      var l := LayoutOf(bounds, st, u, minValue, maxValue);
      var start := if l.vertical then l.scrollbar.y else l.scrollbar.x;
      && Defined(bounds, st, minValue, maxValue, m, enabled, dragging)
      && Scrolled(bounds, st, value, minValue, maxValue, m, enabled, dragging, active)
         == Normalise(DragValue(Along(bounds, m.position), start, l.length, minValue, maxValue,
                                TrackLength(bounds, st)),
                      minValue, maxValue)
      && SliderCentre(l)
         == start + SliderOffset(u, minValue, maxValue, TrackLength(bounds, st), l.length) as real
             + l.length as real / 2.0
      && l.length == SliderLength(st.sliderSize, TrackLength(bounds, st))
  {
    hide SliderOffset, SliderLength, DragValue, Hits, Spinner, Trunc;
  }

  /**
   * In both orientations, held or pressed with the mouse where the middle of the slider of some value
   * is drawn, the bar returns that value or less, by at most range over travel rounded up, and by at
   * most one if there is a pixel of travel for every value.
   */
  lemma PlacedAtCentre(bounds: Rectangle, st: ScrollStyle, value: int, u: int, minValue: int, maxValue: int,
                       m: Mouse, enabled: bool, dragging: bool, active: Rectangle)
    requires minValue <= u <= maxValue && minValue < maxValue
    requires Places(bounds, st, value, minValue, maxValue, m, enabled, dragging, active)
    requires Along(bounds, m.position) == SliderCentre(LayoutOf(bounds, st, u, minValue, maxValue))
    ensures Defined(bounds, st, minValue, maxValue, m, enabled, dragging)
    ensures
      var range := (maxValue - minValue) as real;
      var travel := TrackLength(bounds, st) - LayoutOf(bounds, st, u, minValue, maxValue).length as real;
      var back := Scrolled(bounds, st, value, minValue, maxValue, m, enabled, dragging, active);
      && u - Ceiling(range / travel) <= back <= u
      && (travel >= range ==> u - 1 <= back)
  {
    PlacedValue(bounds, st, value, u, minValue, maxValue, m, enabled, dragging, active);
    hide Scrolled, Places, SliderOffset, SliderLength, DragValue, Hits, SliderCentre;
    var l := LayoutOf(bounds, st, u, minValue, maxValue);
    DragFromCentre(u, minValue, maxValue, st.sliderSize, TrackLength(bounds, st),
                   if l.vertical then l.scrollbar.y else l.scrollbar.x);
  }

  /** Moving the mouse along the bar never moves the value back, and moving it across the bar changes nothing. */
  lemma PlacedAlong(bounds: Rectangle, st: ScrollStyle, value: int, minValue: int, maxValue: int,
                    m: Mouse, n: Mouse, enabled: bool, dragging: bool, active: Rectangle)
    requires minValue < maxValue
    requires Places(bounds, st, value, minValue, maxValue, m, enabled, dragging, active)
    requires Places(bounds, st, value, minValue, maxValue, n, enabled, dragging, active)
    requires Along(bounds, m.position) <= Along(bounds, n.position)
    ensures Defined(bounds, st, minValue, maxValue, m, enabled, dragging)
    ensures Defined(bounds, st, minValue, maxValue, n, enabled, dragging)
    ensures
      var near := Scrolled(bounds, st, value, minValue, maxValue, m, enabled, dragging, active);
      var far := Scrolled(bounds, st, value, minValue, maxValue, n, enabled, dragging, active);
      near <= far && (Along(bounds, m.position) == Along(bounds, n.position) ==> near == far)
  {
    PlacedValue(bounds, st, value, minValue, minValue, maxValue, m, enabled, dragging, active);
    PlacedValue(bounds, st, value, minValue, minValue, maxValue, n, enabled, dragging, active);
    hide Scrolled, Places, SliderOffset, SliderLength, DragValue, Hits, SliderCentre;
    var l := LayoutOf(bounds, st, minValue, minValue, maxValue);
    var start := if l.vertical then l.scrollbar.y else l.scrollbar.x;
    var track := TrackLength(bounds, st);
    DragMonotone(Along(bounds, m.position), Along(bounds, n.position), start, l.length, minValue, maxValue, track);
  }

  // ----- The other inputs -----

  /** A value is brought to the nearest one in range. */
  lemma NormaliseNearest(value: int, u: int, minValue: int, maxValue: int)
    requires minValue <= u <= maxValue
    ensures Abs(value - Normalise(value, minValue, maxValue)) <= Abs(value - u)
  {
  }

  /**
   * Without input for it the bar keeps its value: while input is off, away from the mouse, or while another
   * bar is dragged.
   */
  lemma LeftAlone(bounds: Rectangle, st: ScrollStyle, value: int, minValue: int, maxValue: int,
                  m: Mouse, enabled: bool, dragging: bool, active: Rectangle)
    requires Defined(bounds, st, minValue, maxValue, m, enabled, dragging) && minValue <= value <= maxValue
    requires !enabled || (dragging && active != bounds) || (dragging && !m.down)
      || (!dragging && !Hits(m.position, bounds))
    ensures Scrolled(bounds, st, value, minValue, maxValue, m, enabled, dragging, active) == value
  {
    hide LayoutOf, Dragged, Hits, Trunc;
  }

  /** A hovering mouse moves the value by the notches of its wheel, up to either end. */
  lemma WheelMoves(bounds: Rectangle, st: ScrollStyle, value: int, minValue: int, maxValue: int, m: Mouse,
                   active: Rectangle)
    requires minValue <= value <= maxValue && minValue < maxValue && Hits(m.position, bounds) && !m.pressed
    ensures
      var moved := value + Trunc(m.wheel);
      var next := Scrolled(bounds, st, value, minValue, maxValue, m, true, false, active);
      && (minValue <= moved <= maxValue ==> next == moved)
      && (moved > maxValue ==> next == maxValue) && (moved < minValue ==> next == minValue)
  {
    hide LayoutOf, Dragged, Hits, Trunc;
  }

  /** Pressing the slider itself keeps the value. */
  lemma PressedSlider(bounds: Rectangle, st: ScrollStyle, value: int, minValue: int, maxValue: int, m: Mouse,
                      active: Rectangle)
    requires minValue <= value <= maxValue && minValue < maxValue && Hits(m.position, bounds) && Trunc(m.wheel) == 0
    requires m.pressed && !OnArrow(bounds, st, m.position)
    requires Hits(m.position, LayoutOf(bounds, st, value, minValue, maxValue).slider)
    ensures Scrolled(bounds, st, value, minValue, maxValue, m, true, false, active) == value
  {
    hide LayoutOf, Dragged, Hits, Trunc;
  }

  /** A click on an arrow moves the value by the whole part of range over speed, up to the end the arrow points to. */
  lemma ArrowMoves(bounds: Rectangle, st: ScrollStyle, value: int, minValue: int, maxValue: int, m: Mouse,
                   active: Rectangle, step: nat)
    requires minValue <= value <= maxValue && minValue < maxValue && m.pressed && Trunc(m.wheel) == 0
    requires Hits(m.position, bounds) && OnArrow(bounds, st, m.position)
    requires st.speed > 0 && step * st.speed <= maxValue - minValue < (step + 1) * st.speed
    ensures
      var next := Scrolled(bounds, st, value, minValue, maxValue, m, true, false, active);
      if Hits(m.position, ArrowUpLeft(bounds, st)) then
        next == if value - step < minValue then minValue else value - step
      else next == if value + step > maxValue then maxValue else value + step
  {
    WholeSteps(maxValue - minValue, st.speed, step);
    hide LayoutOf, Dragged, Hits, Trunc, TruncDiv;
  }

  lemma WholeSteps(range: int, speed: int, step: nat)
    requires range > 0 && speed > 0 && step * speed <= range < (step + 1) * speed
    ensures TruncDiv(range, speed) == step
  {
    var q := range / speed;
    assert range == q * speed + range % speed;
    if q < step { OneMore(q, step, speed); } else if q > step { OneMore(step, q, speed); }
  }

  lemma OneMore(a: int, b: int, c: int)
    requires a < b && c > 0
    ensures (a + 1) * c <= b * c
  {
  }

  // ----- Drags over frames -----

  /** Whether the slider is dragged after some frames of the bar. */
  function DraggedAfter(bounds: Rectangle, st: ScrollStyle, ms: seq<Mouse>): bool {
    ms != []
    && NextDragging(bounds, st, ms[|ms| - 1], true, DraggedAfter(bounds, st, ms[..|ms| - 1]))
  }

  /** Frame j starts a drag that goes on to the last frame. */
  ghost predicate DragFrom(bounds: Rectangle, st: ScrollStyle, ms: seq<Mouse>, j: nat)
    requires j < |ms|
  {
    && ms[j].pressed && Hits(ms[j].position, bounds) && !DraggedAfter(bounds, st, ms[..j])
    && forall k :: j < k < |ms| ==> ms[k].down && !OnArrow(bounds, st, ms[k].position)
  }

  lemma DragBefore(bounds: Rectangle, st: ScrollStyle, ms: seq<Mouse>, j: nat)
    requires j < |ms| - 1 && DragFrom(bounds, st, ms, j)
    ensures DragFrom(bounds, st, ms[..|ms| - 1], j)
  {
    assert ms[..|ms| - 1][..j] == ms[..j];
  }

  /** A drag is under way exactly from a press on the bar on, while the button is held off the arrows in every frame. */
  lemma {:induction false} DragLasts(bounds: Rectangle, st: ScrollStyle, ms: seq<Mouse>)
    ensures DraggedAfter(bounds, st, ms) <==> exists j :: 0 <= j < |ms| && DragFrom(bounds, st, ms, j)
  {
    hide Hits, OnArrow;
    if ms != [] {
      var n := |ms| - 1;
      var init := ms[..n];
      DragLasts(bounds, st, init);
      if DraggedAfter(bounds, st, ms) {
        if DraggedAfter(bounds, st, init) {
          var j :| 0 <= j < n && DragFrom(bounds, st, init, j);
          assert init[..j] == ms[..j] && init[j] == ms[j];
          assert forall k :: j < k < n ==> init[k] == ms[k];
          assert DragFrom(bounds, st, ms, j);
        } else {
          assert DragFrom(bounds, st, ms, n);
        }
      } else if j :| 0 <= j < |ms| && DragFrom(bounds, st, ms, j) {
        if j < n { DragBefore(bounds, st, ms, j); }
        assert false;
      }
    }
  }

  /** The bounds stored after some frames of the bar. */
  function ActiveAfter(bounds: Rectangle, st: ScrollStyle, ms: seq<Mouse>, first: Rectangle): Rectangle {
    if ms == [] then first
    else
      var init := ms[..|ms| - 1];
      NextActive(bounds, st, ms[|ms| - 1], true, DraggedAfter(bounds, st, init), ActiveAfter(bounds, st, init, first))
  }

  /** A drag that began on the bar is the bar's own: its bounds are stored from the press to the end. */
  lemma {:induction false} OwnDrag(bounds: Rectangle, st: ScrollStyle, ms: seq<Mouse>, first: Rectangle)
    ensures DraggedAfter(bounds, st, ms) ==> ActiveAfter(bounds, st, ms, first) == bounds
  {
    hide Hits, OnArrow;
    if ms != [] { OwnDrag(bounds, st, ms[..|ms| - 1], first); }
  }

  // ----- The drawing -----

  /** Arrow, track and arrow follow one another along the bar from border to border, without gap or overlap. */
  lemma BarTiles(bounds: Rectangle, st: ScrollStyle, value: int, minValue: int, maxValue: int)
    requires minValue != maxValue
    ensures
      var l, border := LayoutOf(bounds, st, value, minValue, maxValue), st.borderWidth as real;
      if l.vertical then
        && l.arrowUpLeft.y == bounds.y + border && l.arrowUpLeft.y + l.arrowUpLeft.height == l.scrollbar.y
        && l.scrollbar.y + l.scrollbar.height == l.arrowDownRight.y
        && l.arrowDownRight.y + l.arrowDownRight.height == bounds.y + bounds.height - border
      else
        && l.arrowUpLeft.x == bounds.x + border && l.arrowUpLeft.x + l.arrowUpLeft.width == l.scrollbar.x
        && l.scrollbar.x + l.scrollbar.width == l.arrowDownRight.x
        && l.arrowDownRight.x + l.arrowDownRight.width == bounds.x + bounds.width - border
  {
  }

  /**
   * Across the bar, track and slider are centred, the arrows are square and fill it, and each leaves its
   * border and padding free.
   */
  lemma BarCentred(bounds: Rectangle, st: ScrollStyle, value: int, minValue: int, maxValue: int)
    requires minValue != maxValue
    ensures
      var l, border := LayoutOf(bounds, st, value, minValue, maxValue), st.borderWidth as real;
      var up, bar, slider := l.arrowUpLeft, l.scrollbar, l.slider;
      var padding, inset := border + st.scrollPadding as real, border + st.sliderPadding as real;
      && up.width == up.height == l.arrowDownRight.width == l.arrowDownRight.height
      && (st.arrowsVisible == 0 ==> up.width == 0.0)
      && (var across := if l.vertical then bounds.width else bounds.height;
          st.arrowsVisible != 0 && across >= 0.0 ==> up.width <= across - 2.0 * border < up.width + 1.0)
      && (if l.vertical then
            && bar.x - bounds.x == bounds.x + bounds.width - (bar.x + bar.width) == padding
            && slider.x - bounds.x == bounds.x + bounds.width - (slider.x + slider.width) == inset
            && up.x == l.arrowDownRight.x == bounds.x + border
          else
            && bar.y - bounds.y == bounds.y + bounds.height - (bar.y + bar.height) == padding
            && slider.y - bounds.y == bounds.y + bounds.height - (slider.y + slider.height) == inset
            && up.y == l.arrowDownRight.y == bounds.y + border)
  {
  }
}
