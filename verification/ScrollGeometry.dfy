/** Where GuiScrollBar of ext/raygui.h puts its slider, and which value the mouse asks for. */
module ScrollGeometry {
  import opened RealArith

  datatype Point = Point(x: real, y: real)
  datatype Rectangle = Rectangle(x: real, y: real, width: real, height: real)

  /** The style properties the scroll bar reads. */
  datatype ScrollStyle = ScrollStyle(
    arrowsVisible: int, borderWidth: int, sliderSize: int, scrollPadding: int, sliderPadding: int, speed: int)

  /** The mouse in one frame: the wheel's movement, and the left button. */
  datatype Mouse = Mouse(position: Point, wheel: real, pressed: bool, down: bool)

  predicate Hits(p: Point, r: Rectangle) {
    r.x <= p.x <= r.x + r.width && r.y <= p.y <= r.y + r.height
  }

  function Normalise(value: int, minValue: int, maxValue: int): (v: int)
    ensures minValue <= maxValue ==> minValue <= v <= maxValue
    ensures minValue <= value <= maxValue ==> v == value
  {
    var v := if value > maxValue then maxValue else value;
    if v < minValue then minValue else v
  }

  // ----- Along the bar -----

  /** The slider is cut to two pixels less than a track it would fill. */
  function SliderLength(size: int, track: real): (length: int)
    ensures length as real < track
  {
    if size as real >= track then Trunc(track) - 2 else size
  }

  /** How far into the track the slider starts. */
  function SliderOffset(value: int, minValue: int, maxValue: int, track: real, length: int): int
    requires minValue != maxValue
  {
    Trunc(((value - minValue) as real / (maxValue - minValue) as real) * (track - length as real))
  }

  /** A distance along the travel, as a share of the range. */
  function Share(distance: real, range: real, travel: real): real
    requires travel > 0.0
  {
    (distance * range) / travel
  }

  /** The value for a slider centred under the mouse. */
  function DragValue(mouse: real, start: real, length: int, minValue: int, maxValue: int, track: real): int
    requires length as real < track
  {
    Trunc(Share(mouse - start - length as real / 2.0, (maxValue - minValue) as real, track - length as real)
          + minValue as real)
  }

  function Ceiling(x: real): (n: int)
    ensures n as real - 1.0 < x <= n as real
  {
    -((-x).Floor)
  }

  lemma Proportion(x: real, r: real, t: real) returns (q: real)
    requires 0.0 <= x <= r && 0.0 < r && 0.0 < t
    ensures q == (x / r) * t && 0.0 <= q <= t && Share(q, r, t) == x
  {
    var f := x / r;
    q := f * t;
    assert f * r == x;
    if f > 1.0 { ScaleUp(f, r); }
    Within(f, t);
    DivIs(q * r, t, x);
  }

  lemma ScaleUp(f: real, r: real)
    requires f > 1.0 && r > 0.0
    ensures f * r > r
  {
  }

  lemma Within(f: real, t: real)
    requires 0.0 <= f <= 1.0 && t > 0.0
    ensures 0.0 <= f * t <= t
  {
  }

  /** Whether a slider of this size can be fitted: one that must be cut needs a track of two pixels. */
  predicate FitsTrack(size: int, track: real) {
    if size as real >= track then track >= 2.0 else size >= 0
  }

  /** The slider of a value begins and ends inside the track. */
  predicate InsideTrack(value: int, minValue: int, maxValue: int, size: int, track: real)
    requires minValue != maxValue
  {
    var length := SliderLength(size, track);
    var offset := SliderOffset(value, minValue, maxValue, track, length);
    0.0 <= offset as real <= track && offset as real + length as real <= track
  }

  /** Exactly when no value's slider leaves its track. */
  lemma SliderInTrack(minValue: int, maxValue: int, size: int, track: real)
    requires minValue < maxValue
    ensures (forall value :: minValue <= value <= maxValue ==> InsideTrack(value, minValue, maxValue, size, track))
       <==> FitsTrack(size, track)
  {
    if FitsTrack(size, track) {
      forall value | minValue <= value <= maxValue
        ensures InsideTrack(value, minValue, maxValue, size, track)
      {
        SliderEnd(value, minValue, maxValue, size, track);
      }
    } else {
      NegativeSlider(minValue, maxValue, size, track);
    }
  }

  /** Whatever its size, no slider ends beyond its track. */
  lemma SliderEnd(value: int, minValue: int, maxValue: int, size: int, track: real)
    requires minValue <= value <= maxValue && minValue < maxValue
    ensures
      var length := SliderLength(size, track);
      var offset := SliderOffset(value, minValue, maxValue, track, length);
      0 <= offset && offset as real + length as real <= track && (length >= 0 <==> FitsTrack(size, track))
  {
    var length := SliderLength(size, track);
    hide SliderOffset;
    var q := OffsetNear(value, minValue, maxValue, track, length);
  }

  /** A slider of negative length, at the greatest value, begins beyond its track. */
  lemma NegativeSlider(minValue: int, maxValue: int, size: int, track: real)
    requires minValue < maxValue && !FitsTrack(size, track)
    ensures !InsideTrack(maxValue, minValue, maxValue, size, track)
  {
    var length := SliderLength(size, track);
    var range := (maxValue - minValue) as real;
    DivIs(range, range, 1.0);
    assert SliderOffset(maxValue, minValue, maxValue, track, length) == Trunc(1.0 * (track - length as real));
  }

  /** As in a list view hardly higher than its borders: a slider of 16 in a track of 1 begins at 2. */
  lemma SliderOutside()
    ensures SliderLength(16, 1.0) == -1 && SliderOffset(1, 0, 1, 1.0, -1) == 2
    ensures !InsideTrack(1, 0, 1, 16, 1.0)
  {
    assert (1 - 0) as real / (1 - 0) as real == 1.0;
  }

  /** The offset is the whole part of the value's exact place in the travel. */
  lemma OffsetNear(value: int, minValue: int, maxValue: int, track: real, length: int) returns (q: real)
    requires minValue <= value <= maxValue && minValue < maxValue && length as real < track
    ensures
      var offset := SliderOffset(value, minValue, maxValue, track, length);
      && 0 <= offset && offset as real <= q < offset as real + 1.0 && q <= track - length as real
      && Share(q, (maxValue - minValue) as real, track - length as real) == (value - minValue) as real
  {
    q := Proportion((value - minValue) as real, (maxValue - minValue) as real, track - length as real);
    hide Share;
  }

  lemma ScaleDown(a: real, b: real, r: real, t: real)
    requires a <= b && 0.0 < r && 0.0 < t
    ensures Share(a, r, t) <= Share(b, r, t)
    ensures a < b ==> Share(a, r, t) < Share(b, r, t)
  {
    assert (b * r) - (a * r) == (b - a) * r;
    QuotientOrder(a * r, b * r, t);
  }

  lemma QuotientOrder(a: real, b: real, t: real)
    requires a <= b && 0.0 < t
    ensures a / t <= b / t && (a < b ==> a / t < b / t)
  {
  }

  lemma QuotientMinus(a: real, r: real, t: real)
    requires 0.0 < t
    ensures Share(a - 1.0, r, t) == Share(a, r, t) - r / t
  {
    DivIs((a - 1.0) * r, t, (a * r) / t - r / t);
  }

  /**
   * Dragging from the slider's own centre gives the value back, or less by at most range/travel
   * rounded up; one at most when the slider has a pixel to travel for every value.
   */
  lemma DragFromCentre(value: int, minValue: int, maxValue: int, size: int, track: real, start: real)
    requires minValue <= value <= maxValue && minValue < maxValue
    ensures
      var length := SliderLength(size, track);
      var offset := SliderOffset(value, minValue, maxValue, track, length);
      var centre := start + offset as real + length as real / 2.0;
      var back := DragValue(centre, start, length, minValue, maxValue, track);
      var range, travel := (maxValue - minValue) as real, track - length as real;
      && value - Ceiling(range / travel) <= back <= value
      && (travel >= range ==> value - 1 <= back)
  {
    var length := SliderLength(size, track);
    var x, r, t := (value - minValue) as real, (maxValue - minValue) as real, track - length as real;
    hide Share, SliderOffset, SliderLength;
    var q := OffsetNear(value, minValue, maxValue, track, length);
    var offset := SliderOffset(value, minValue, maxValue, track, length);
    var centre := start + offset as real + length as real / 2.0;
    assert centre - start - length as real / 2.0 == offset as real;
    ScaleDown(offset as real, q, r, t);
    ScaleDown(q - 1.0, offset as real, r, t);
    QuotientMinus(q, r, t);
    TruncBetween(Share(offset as real, r, t) + minValue as real, value, r / t);
    if t >= r { ProperShare(r, t); }
  }

  lemma ProperShare(r: real, t: real)
    requires 0.0 < r <= t
    ensures r / t <= 1.0
  {
    QuotientOrder(r, t, t);
  }

  /** Rounding a number at most v, and above v - d, toward zero stays at or below v and above v - d - 1. */
  lemma TruncBetween(y: real, v: int, d: real)
    requires v as real - d < y <= v as real
    ensures v - Ceiling(d) <= Trunc(y) <= v
    ensures d <= 1.0 ==> v - 1 <= Trunc(y)
  {
  }

  /** Moving the mouse along the track never moves the value back. */
  lemma DragMonotone(near: real, far: real, start: real, length: int, minValue: int, maxValue: int, track: real)
    requires near <= far && minValue < maxValue && length as real < track
    ensures DragValue(near, start, length, minValue, maxValue, track)
        <= DragValue(far, start, length, minValue, maxValue, track)
  {
    var half, r, t := length as real / 2.0, (maxValue - minValue) as real, track - length as real;
    ScaleDown(near - start - half, far - start - half, r, t);
    hide Share;
    TruncOrder(Share(near - start - half, r, t) + minValue as real, Share(far - start - half, r, t) + minValue as real);
  }

  lemma TruncOrder(a: real, b: real)
    requires a <= b
    ensures Trunc(a) <= Trunc(b)
  {
  }

  // ----- The whole bar -----

  datatype Layout = Layout(
    vertical: bool, arrowUpLeft: Rectangle, arrowDownRight: Rectangle, scrollbar: Rectangle, slider: Rectangle,
    length: int)

  predicate IsVertical(bounds: Rectangle) {
    !(bounds.width > bounds.height)
  }

  function Spinner(bounds: Rectangle, st: ScrollStyle): int {
    if st.arrowsVisible == 0 then 0
    else if IsVertical(bounds) then Trunc(bounds.width) - 2 * st.borderWidth
    else Trunc(bounds.height) - 2 * st.borderWidth
  }

  /** What the arrows and borders leave of the bar's length. */
  function TrackLength(bounds: Rectangle, st: ScrollStyle): real {
    var whole := if IsVertical(bounds) then bounds.height else bounds.width;
    whole - 2.0 * Spinner(bounds, st) as real - 2.0 * st.borderWidth as real
  }

  function ArrowUpLeft(bounds: Rectangle, st: ScrollStyle): Rectangle {
    var spinner, border := Spinner(bounds, st) as real, st.borderWidth as real;
    Rectangle(bounds.x + border, bounds.y + border, spinner, spinner)
  }

  function ArrowDownRight(bounds: Rectangle, st: ScrollStyle): Rectangle {
    var spinner, border := Spinner(bounds, st) as real, st.borderWidth as real;
    if IsVertical(bounds) then
      Rectangle(bounds.x + border, bounds.y + bounds.height - spinner - border, spinner, spinner)
    else Rectangle(bounds.x + bounds.width - spinner - border, bounds.y + border, spinner, spinner)
  }

  /** All rectangles of the bar, for a value already normalised. */
  function LayoutOf(bounds: Rectangle, st: ScrollStyle, value: int, minValue: int, maxValue: int): (l: Layout)
    requires minValue != maxValue
    ensures l.length as real < TrackLength(bounds, st) == if l.vertical then l.scrollbar.height else l.scrollbar.width
    ensures l.arrowUpLeft == ArrowUpLeft(bounds, st) && l.arrowDownRight == ArrowDownRight(bounds, st)
  {
    var border, padding := st.borderWidth as real, st.scrollPadding as real;
    var inset := 2.0 * (border + st.sliderPadding as real);
    var up, down := ArrowUpLeft(bounds, st), ArrowDownRight(bounds, st);
    if IsVertical(bounds) then
      var bar := Rectangle(bounds.x + border + padding, up.y + up.height,
                           bounds.width - 2.0 * (border + padding),
                           bounds.height - up.height - down.height - 2.0 * border);
      var length := SliderLength(st.sliderSize, bar.height);
      var offset := SliderOffset(value, minValue, maxValue, bar.height, length);
      Layout(true, up, down, bar,
             Rectangle(bounds.x + border + st.sliderPadding as real, bar.y + offset as real, bounds.width - inset,
                       length as real),
             length)
    else
      var bar := Rectangle(up.x + up.width, bounds.y + border + padding,
                           bounds.width - up.width - down.width - 2.0 * border,
                           bounds.height - 2.0 * (border + padding));
      var length := SliderLength(st.sliderSize, bar.width);
      var offset := SliderOffset(value, minValue, maxValue, bar.width, length);
      Layout(false, up, down, bar,
             Rectangle(bar.x + offset as real, bounds.y + border + st.sliderPadding as real, length as real,
                       bounds.height - inset),
             length)
  }

  function Dragged(l: Layout, p: Point, minValue: int, maxValue: int): int
    requires l.length as real < if l.vertical then l.scrollbar.height else l.scrollbar.width
  {
    if l.vertical then DragValue(p.y, l.scrollbar.y, l.length, minValue, maxValue, l.scrollbar.height)
    else DragValue(p.x, l.scrollbar.x, l.length, minValue, maxValue, l.scrollbar.width)
  }

  predicate OnArrow(bounds: Rectangle, st: ScrollStyle, p: Point) {
    Hits(p, ArrowUpLeft(bounds, st)) || Hits(p, ArrowDownRight(bounds, st))
  }

  /** A press on an arrow, the one input that divides by the speed. */
  predicate ClicksArrow(bounds: Rectangle, st: ScrollStyle, m: Mouse, enabled: bool, dragging: bool) {
    enabled && !dragging && Hits(m.position, bounds) && m.pressed && OnArrow(bounds, st, m.position)
  }

  /** What the divisions of a frame ask for. */
  predicate Defined(bounds: Rectangle, st: ScrollStyle, minValue: int, maxValue: int, m: Mouse, enabled: bool,
                    dragging: bool) {
    minValue != maxValue && (ClicksArrow(bounds, st, m, enabled, dragging) ==> st.speed != 0)
  }

  /** The value after one frame; `active` holds the bounds of the bar being dragged, if one is. */
  function Scrolled(bounds: Rectangle, st: ScrollStyle, value: int, minValue: int, maxValue: int,
                    m: Mouse, enabled: bool, dragging: bool, active: Rectangle): int
    requires Defined(bounds, st, minValue, maxValue, m, enabled, dragging)
  {
    var v := Normalise(value, minValue, maxValue);
    var l := LayoutOf(bounds, st, v, minValue, maxValue);
    var range := maxValue - minValue;
    if !enabled then v
    else if dragging then
      var held := m.down && !OnArrow(bounds, st, m.position) && bounds == active;
      Normalise(if held then Dragged(l, m.position, minValue, maxValue) else v, minValue, maxValue)
    else if Hits(m.position, bounds) then
      var wheeled := v + Trunc(m.wheel);
      Normalise(
        if !m.pressed then wheeled
        else if Hits(m.position, l.arrowUpLeft) then wheeled - TruncDiv(range, st.speed)
        else if Hits(m.position, l.arrowDownRight) then wheeled + TruncDiv(range, st.speed)
        else if !Hits(m.position, l.slider) then Dragged(l, m.position, minValue, maxValue)
        else wheeled,
        minValue, maxValue)
    else v
  }

  /** A press on the bar starts a drag, which lasts while it is held off the arrows. */
  function NextDragging(bounds: Rectangle, st: ScrollStyle, m: Mouse, enabled: bool, dragging: bool): bool {
    if !enabled then dragging
    else if dragging then m.down && !OnArrow(bounds, st, m.position)
    else Hits(m.position, bounds) && m.pressed
  }

  /** The bounds of the bar being dragged. */
  function NextActive(bounds: Rectangle, st: ScrollStyle, m: Mouse, enabled: bool, dragging: bool,
                      active: Rectangle): Rectangle {
    if enabled && dragging && !NextDragging(bounds, st, m, enabled, dragging) then Rectangle(0.0, 0.0, 0.0, 0.0)
    else if enabled && !dragging && NextDragging(bounds, st, m, enabled, dragging) then bounds
    else active
  }

  lemma ScrolledInRange(bounds: Rectangle, st: ScrollStyle, value: int, minValue: int, maxValue: int,
                        m: Mouse, enabled: bool, dragging: bool, active: Rectangle)
    requires minValue < maxValue && Defined(bounds, st, minValue, maxValue, m, enabled, dragging)
    ensures minValue <= Scrolled(bounds, st, value, minValue, maxValue, m, enabled, dragging, active) <= maxValue
  {
    hide LayoutOf, Dragged, Hits;
  }

  /** The slider drawn begins and ends inside the track drawn, along the bar. */
  predicate DrawnInside(l: Layout) {
    if l.vertical then
      && l.scrollbar.y <= l.slider.y <= l.scrollbar.y + l.scrollbar.height
      && l.slider.y + l.slider.height <= l.scrollbar.y + l.scrollbar.height
    else
      && l.scrollbar.x <= l.slider.x <= l.scrollbar.x + l.scrollbar.width
      && l.slider.x + l.slider.width <= l.scrollbar.x + l.scrollbar.width
  }

  /** Exactly when no value's slider is drawn outside the track. */
  lemma SliderDrawnInside(bounds: Rectangle, st: ScrollStyle, minValue: int, maxValue: int)
    requires minValue < maxValue
    ensures (forall value :: minValue <= value <= maxValue ==>
               DrawnInside(LayoutOf(bounds, st, value, minValue, maxValue)))
       <==> FitsTrack(st.sliderSize, TrackLength(bounds, st))
  {
    var track := TrackLength(bounds, st);
    SliderInTrack(minValue, maxValue, st.sliderSize, track);
    forall value | minValue <= value <= maxValue
      ensures DrawnInside(LayoutOf(bounds, st, value, minValue, maxValue))
         <==> InsideTrack(value, minValue, maxValue, st.sliderSize, track)
    {
      hide SliderOffset, SliderLength;
    }
    hide LayoutOf, InsideTrack, FitsTrack, DrawnInside, TrackLength;
  }

  /** When speed equals range, a click on an arrow moves the value by exactly one, unless it is at the end. */
  lemma ArrowMovesOne(bounds: Rectangle, st: ScrollStyle, value: int, minValue: int, maxValue: int, m: Mouse,
                      active: Rectangle)
    requires minValue <= value <= maxValue && minValue < maxValue && st.speed == maxValue - minValue
    requires m.pressed && Trunc(m.wheel) == 0 && Hits(m.position, bounds)
    ensures
      var l := LayoutOf(bounds, st, value, minValue, maxValue);
      var next := Scrolled(bounds, st, value, minValue, maxValue, m, true, false, active);
      && (Hits(m.position, l.arrowUpLeft) ==> next == if value == minValue then minValue else value - 1)
      && (!Hits(m.position, l.arrowUpLeft) && Hits(m.position, l.arrowDownRight)
          ==> next == if value == maxValue then maxValue else value + 1)
  {
    hide LayoutOf, Dragged, Hits;
    OneStep(maxValue - minValue);
  }

  lemma OneStep(range: int)
    requires range > 0
    ensures TruncDiv(range, range) == 1
  {
  }
}
