/** Which scroll bars GuiScrollPanel of ext/raygui.h shows, where, and over which range. */
module PanelGeometry {
  import opened RealArith
  import opened CTypes
  import opened ScrollGeometry

  const STATUSBAR_HEIGHT: real := 24.0
  const MIN_SCROLLBAR: real := 40.0

  /** The style properties the panel reads; `onLeft` puts the vertical bar on the left side. */
  datatype PanelStyle = PanelStyle(border: int, barWidth: int, onLeft: bool)

  /** A scroll bar of the panel, with the slider size forced for it. */
  datatype Bar = Bar(bounds: Rectangle, size: int, value: int, minValue: int, maxValue: int)

  /** The panel under its header bar, if it has one. */
  function BoxOf(bounds: Rectangle, header: bool): Rectangle {
    var height := if bounds.height < 2.0 * STATUSBAR_HEIGHT then 2.0 * STATUSBAR_HEIGHT else bounds.height;
    if header then bounds.(y := bounds.y + STATUSBAR_HEIGHT - 1.0, height := height - (STATUSBAR_HEIGHT + 1.0))
    else bounds.(height := height)
  }

  // ----- Which bars are shown -----

  /** Content longer than the room inside the border, less what the other bar takes. */
  predicate Overflows(content: real, room: real, ps: PanelStyle, taken: int) {
    content > room - 2.0 * ps.border as real - taken as real
  }

  predicate HasHorizontal(box: Rectangle, content: Rectangle, ps: PanelStyle) {
    || Overflows(content.width, box.width, ps, 0)
    || (Overflows(content.height, box.height, ps, 0) && Overflows(content.width, box.width, ps, ps.barWidth))
  }

  predicate HasVertical(box: Rectangle, content: Rectangle, ps: PanelStyle) {
    || Overflows(content.height, box.height, ps, 0)
    || (HasHorizontal(box, content, ps) && Overflows(content.height, box.height, ps, ps.barWidth))
  }

  function Thickness(shown: bool, ps: PanelStyle): int {
    if shown then ps.barWidth else 0
  }

  /** Each bar is shown exactly when the content overflows what the other one leaves. */
  predicate Settled(box: Rectangle, content: Rectangle, ps: PanelStyle, horizontal: bool, vertical: bool) {
    && (horizontal <==> Overflows(content.width, box.width, ps, Thickness(vertical, ps)))
    && (vertical <==> Overflows(content.height, box.height, ps, Thickness(horizontal, ps)))
  }

  /** One recheck settles which bars are shown, and no bar is shown that could be spared. */
  lemma BarsSettled(box: Rectangle, content: Rectangle, ps: PanelStyle, horizontal: bool, vertical: bool)
    requires ps.barWidth >= 0
    ensures Settled(box, content, ps, HasHorizontal(box, content, ps), HasVertical(box, content, ps))
    ensures Settled(box, content, ps, horizontal, vertical)
        ==> (HasHorizontal(box, content, ps) ==> horizontal) && (HasVertical(box, content, ps) ==> vertical)
  {
  }

  // ----- Ranges -----

  /** What a vertical bar on the left takes from the horizontal one. */
  function LeftInset(ps: PanelStyle, vertical: bool): int {
    if ps.onLeft then Thickness(vertical, ps) else 0
  }

  function HorizontalMin(ps: PanelStyle, vertical: bool): int {
    -LeftInset(ps, vertical) - ps.border
  }

  function HorizontalMax(box: Rectangle, content: Rectangle, ps: PanelStyle, horizontal: bool, vertical: bool): real {
    if horizontal then
      content.width - box.width + Thickness(vertical, ps) as real + ps.border as real - LeftInset(ps, vertical) as real
    else -ps.border as real
  }

  function VerticalMin(vertical: bool): int {
    if vertical then 0 else -1
  }

  function VerticalMax(box: Rectangle, content: Rectangle, ps: PanelStyle, horizontal: bool, vertical: bool): real {
    if vertical then content.height - box.height + Thickness(horizontal, ps) as real + ps.border as real
    else -ps.border as real
  }

  /**
   * Exactly when a shown horizontal bar has a range: always, but for content that overflows by less
   * than a pixel in a panel whose range starts at zero.
   */
  lemma HorizontalRange(box: Rectangle, content: Rectangle, ps: PanelStyle)
    requires ps.barWidth >= 0 && ps.border >= 0 && HasHorizontal(box, content, ps)
    ensures
      var vertical := HasVertical(box, content, ps);
      var low, high := HorizontalMin(ps, vertical), HorizontalMax(box, content, ps, true, vertical);
      && low <= Trunc(high)
      && (low == Trunc(high) <==> low == 0 && high < 1.0)
  {
    BarsSettled(box, content, ps, false, false);
    TruncAbove(HorizontalMax(box, content, ps, true, HasVertical(box, content, ps)),
               HorizontalMin(ps, HasVertical(box, content, ps)));
  }

  lemma TruncAbove(high: real, low: int)
    requires low as real < high && low <= 0
    ensures low <= Trunc(high) && (low == Trunc(high) <==> low == 0 && high < 1.0)
  {
  }

  /** How far the content reaches beyond the room left by the horizontal bar and one border. */
  function Excess(box: Rectangle, content: Rectangle, ps: PanelStyle): real {
    content.height - (box.height - Thickness(HasHorizontal(box, content, ps), ps) as real - ps.border as real)
  }

  /** The range of a shown vertical bar. */
  function VerticalSpan(box: Rectangle, content: Rectangle, ps: PanelStyle): int {
    Trunc(VerticalMax(box, content, ps, HasHorizontal(box, content, ps), true)) - VerticalMin(true)
  }

  /**
   * The decision to show a vertical bar counts two borders and its range counts one. So it is shown
   * exactly for content that reaches less than a border short of the room less one border; it has no
   * range within a pixel of that room, and a negative one a pixel or more short of it, for which the
   * border must be two pixels or more.
   */
  lemma VerticalRange(box: Rectangle, content: Rectangle, ps: PanelStyle)
    requires ps.barWidth >= 0
    ensures HasVertical(box, content, ps) <==> -ps.border as real < Excess(box, content, ps)
    ensures HasVertical(box, content, ps) ==>
      && (VerticalSpan(box, content, ps) == 0 <==> -1.0 < Excess(box, content, ps) < 1.0)
      && (VerticalSpan(box, content, ps) < 0 <==> Excess(box, content, ps) <= -1.0)
      && (ps.border <= 1 ==> VerticalSpan(box, content, ps) >= 0)
  {
    BarsSettled(box, content, ps, false, false);
    hide HasHorizontal, HasVertical, Thickness;
  }

  /** A bar is shown whose range is negative. */
  predicate ShownBackwards(box: Rectangle, content: Rectangle, ps: PanelStyle) {
    HasVertical(box, content, ps) && VerticalSpan(box, content, ps) < 0
  }

  /** Exactly the borders at which that happens, in a panel of any size, and content for which it does. */
  lemma BackwardsExactly(box: Rectangle, ps: PanelStyle)
    requires ps.barWidth >= 0
    ensures (exists content :: ShownBackwards(box, content, ps)) <==> ps.border >= 2
  {
    if ps.border >= 2 {
      var border := ps.border as real;
      var width := box.width - 2.0 * border - ps.barWidth as real;
      var content := Rectangle(0.0, 0.0, width, box.height - border - 1.0);
      assert ShownBackwards(box, content, ps);
    }
    if content :| ShownBackwards(box, content, ps) {
      VerticalRange(box, content, ps);
    }
  }

  /** Content one pixel over in a panel with a border of one pixel: a vertical bar with nothing to scroll. */
  lemma NoRange()
    ensures
      var box, content := Rectangle(0.0, 0.0, 100.0, 100.0), Rectangle(0.0, 0.0, 50.0, 99.0);
      var ps := PanelStyle(1, 12, false);
      HasVertical(box, content, ps) && !HasHorizontal(box, content, ps) && VerticalSpan(box, content, ps) == 0
  {
  }

  // ----- The bars -----

  function HorizontalBounds(box: Rectangle, ps: PanelStyle, horizontal: bool, vertical: bool): Rectangle {
    var hw, vw, border := Thickness(horizontal, ps) as real, Thickness(vertical, ps) as real, ps.border as real;
    var width := box.width - vw - 2.0 * border;
    Rectangle((if ps.onLeft then box.x + vw else box.x) + border, box.y + box.height - hw - border,
              if width < MIN_SCROLLBAR then MIN_SCROLLBAR else width, hw)
  }

  function VerticalBounds(box: Rectangle, ps: PanelStyle, horizontal: bool, vertical: bool): Rectangle {
    var hw, vw, border := Thickness(horizontal, ps) as real, Thickness(vertical, ps) as real, ps.border as real;
    var height := box.height - hw - 2.0 * border;
    Rectangle(if ps.onLeft then box.x + border else box.x + box.width - vw - border, box.y + border,
              vw, if height < MIN_SCROLLBAR then MIN_SCROLLBAR else height)
  }

  /** The wheel moves further when a bar had to be lengthened. */
  function WheelSpeed(box: Rectangle, ps: PanelStyle, horizontal: bool, vertical: bool): real {
    var hw, vw, border := Thickness(horizontal, ps) as real, Thickness(vertical, ps) as real, ps.border as real;
    var width, height := box.width - vw - 2.0 * border, box.height - hw - 2.0 * border;
    if width < MIN_SCROLLBAR || height < MIN_SCROLLBAR then 30.0 else 20.0
  }

  /** The slider takes the share of the room that the room takes of the content, whose length is cut to whole pixels. */
  function PanelSliderSize(room: real, content: real, ps: PanelStyle, taken: int): int
    requires Trunc(content) != 0
  {
    var part := (room - 2.0 * ps.border as real - taken as real) / Trunc(content) as real;
    Trunc(part * (Trunc(room) - 2 * ps.border - taken) as real)
  }

  /** Scroll positions are negative offsets. */
  function Bounded(position: real, low: real, high: real): real {
    var p := if position > -low then -low else position;
    if p < -high then -high else p
  }

  /** The scroll position after the mouse wheel: sideways with a modifier key held, if there is a bar for it. */
  function Wheeled(box: Rectangle, scroll: Point, m: Mouse, enabled: bool, sideways: bool, horizontal: bool,
                   speed: real): Point {
    if enabled && Hits(m.position, box) then
      if horizontal && sideways then scroll.(x := scroll.x + m.wheel * speed)
      else scroll.(y := scroll.y + m.wheel * speed)
    else scroll
  }

  /** The bars of a panel as they are drawn. */
  datatype Bars = Bars(horizontal: Option<Bar>, vertical: Option<Bar>)

  /** The shares of the content are defined: no bar is shown for content under a pixel long. */
  predicate Measurable(box: Rectangle, content: Rectangle, ps: PanelStyle) {
    && (HasHorizontal(box, content, ps) ==> Trunc(content.width) != 0)
    && (HasVertical(box, content, ps) ==> Trunc(content.height) != 0)
  }

  function BarsOf(box: Rectangle, content: Rectangle, ps: PanelStyle, scroll: Point, m: Mouse, enabled: bool,
                  sideways: bool): Bars
    requires Measurable(box, content, ps)
  {
    var h, v := HasHorizontal(box, content, ps), HasVertical(box, content, ps);
    var moved := Wheeled(box, scroll, m, enabled, sideways, h, WheelSpeed(box, ps, h, v));
    var hMin, hMax := HorizontalMin(ps, v), HorizontalMax(box, content, ps, h, v);
    var vMin, vMax := VerticalMin(v), VerticalMax(box, content, ps, h, v);
    Bars(
      if h then Some(Bar(HorizontalBounds(box, ps, h, v),
                         PanelSliderSize(box.width, content.width, ps, Thickness(v, ps)),
                         Trunc(-Bounded(moved.x, hMin as real, hMax)), hMin, Trunc(hMax)))
      else None,
      if v then Some(Bar(VerticalBounds(box, ps, h, v),
                         PanelSliderSize(box.height, content.height, ps, Thickness(h, ps)),
                         Trunc(-Bounded(moved.y, vMin as real, vMax)), vMin, Trunc(vMax)))
      else None)
  }

  /** The part of the panel left for content. */
  function ViewOf(box: Rectangle, content: Rectangle, ps: PanelStyle, horizontal: bool, vertical: bool): Rectangle {
    var hw, vw, border := Thickness(horizontal, ps) as real, Thickness(vertical, ps) as real, ps.border as real;
    var width, height := box.width - 2.0 * border - vw, box.height - 2.0 * border - hw;
    Rectangle(box.x + LeftInset(ps, vertical) as real + border, box.y + border,
              if width > content.width then content.width else width,
              if height > content.height then content.height else height)
  }

  /**
   * The view shows the whole of the content in a direction exactly when there is no bar for it, and lies clear
   * of both bars.
   */
  lemma ViewClear(box: Rectangle, content: Rectangle, ps: PanelStyle)
    requires ps.barWidth >= 0
    ensures
      var h, v := HasHorizontal(box, content, ps), HasVertical(box, content, ps);
      var view := ViewOf(box, content, ps, h, v);
      var across, down := HorizontalBounds(box, ps, h, v), VerticalBounds(box, ps, h, v);
      && (view.width == content.width <==> !h) && (view.height == content.height <==> !v)
      && view.y + view.height <= across.y
      && (if ps.onLeft then down.x + down.width <= view.x else view.x + view.width <= down.x)
  {
    BarsSettled(box, content, ps, false, false);
  }

  /** Which bars are needed, with the recheck for the room each takes from the other. */
  method DecideBars(box: Rectangle, content: Rectangle, ps: PanelStyle) returns (hasHorizontal: bool, hasVertical: bool)
    ensures hasHorizontal == HasHorizontal(box, content, ps) && hasVertical == HasVertical(box, content, ps)
  {
    var inner, tall := box.width - 2.0 * ps.border as real, box.height - 2.0 * ps.border as real;
    hasHorizontal := content.width > inner;
    hasVertical := content.height > tall;
    if !hasHorizontal {
      hasHorizontal := hasVertical && content.width > inner - ps.barWidth as real;
    }
    if !hasVertical {
      hasVertical := hasHorizontal && content.height > tall - ps.barWidth as real;
    }
  }

  method TurnWheel(box: Rectangle, scroll: Point, m: Mouse, enabled: bool, sideways: bool, hasHorizontal: bool,
                   speed: real)
    returns (position: Point)
    ensures position == Wheeled(box, scroll, m, enabled, sideways, hasHorizontal, speed)
  {
    position := scroll;
    if enabled {
      if Hits(m.position, box) {
        if hasHorizontal && sideways {
          position := position.(x := position.x + m.wheel * speed);
        } else {
          position := position.(y := position.y + m.wheel * speed);
        }
      }
    }
  }

  /** The layout of a frame. */
  method LayOutPanel(box: Rectangle, content: Rectangle, ps: PanelStyle, scroll: Point, m: Mouse, enabled: bool,
                     sideways: bool)
    returns (horizontal: Option<Bar>, vertical: Option<Bar>, view: Rectangle)
    requires Measurable(box, content, ps)
    ensures Bars(horizontal, vertical) == BarsOf(box, content, ps, scroll, m, enabled, sideways)
    ensures view == ViewOf(box, content, ps, horizontal.Some?, vertical.Some?)
  {
    hide HasHorizontal, HasVertical, Wheeled, Bounded, PanelSliderSize, HorizontalBounds, VerticalBounds, WheelSpeed,
      ViewOf,      HorizontalMin, HorizontalMax, VerticalMin, VerticalMax, Trunc;
    var h, v := DecideBars(box, content, ps);
    view := ViewOf(box, content, ps, h, v);
    var position := TurnWheel(box, scroll, m, enabled, sideways, h, WheelSpeed(box, ps, h, v));
    var hMin, hMax := HorizontalMin(ps, v), HorizontalMax(box, content, ps, h, v);
    var vMin, vMax := VerticalMin(v), VerticalMax(box, content, ps, h, v);
    position := Point(Bounded(position.x, hMin as real, hMax), Bounded(position.y, vMin as real, vMax));
    horizontal, vertical := None, None;
    if h {
      var size := PanelSliderSize(box.width, content.width, ps, Thickness(v, ps));
      horizontal := Some(Bar(HorizontalBounds(box, ps, h, v), size, Trunc(-position.x), hMin, Trunc(hMax)));
    }
    if v {
      var size := PanelSliderSize(box.height, content.height, ps, Thickness(h, ps));
      vertical := Some(Bar(VerticalBounds(box, ps, h, v), size, Trunc(-position.y), vMin, Trunc(vMax)));
    }
  }
}
