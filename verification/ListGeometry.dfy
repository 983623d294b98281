/** Which items GuiListViewEx of ext/raygui.h shows. */
module ListGeometry {
  import opened RealArith
  import opened CTypes
  import opened ScrollGeometry

  /** `step` is the height of an item with its spacing. */
  function VisibleItems(height: real, step: int, count: int): int
    requires step != 0
  {
    Min(TruncDiv(Trunc(height), step), count)
  }

  predicate UsesScrollBar(height: real, step: int, count: int) {
    (step * count) as real > height
  }

  /**
   * Exactly when the scroll bar is used if and only if some item is not visible. The two tests are
   * made separately, one on the exact height and one on the truncated one. With an item height above
   * zero they part only for an empty list in a box of negative height.
   */
  lemma ScrollBarNeeded(height: real, step: int, count: int)
    requires step != 0 && count >= 0
    ensures (UsesScrollBar(height, step, count) <==> VisibleItems(height, step, count) < count)
       <==> if step > 0 then !(count == 0 && -step as real < height < 0.0)
            else if height >= 0.0 then count == 0 && height < -step as real
            else height == (step * count) as real
  {
    if step > 0 {
      NeededUpward(height, step, count);
    } else {
      NeededDownward(height, -step, count);
    }
  }

  lemma NeededUpward(height: real, step: int, count: int)
    requires step > 0 && count >= 0
    ensures (UsesScrollBar(height, step, count) <==> VisibleItems(height, step, count) < count)
       <==> !(count == 0 && -step as real < height < 0.0)
  {
    var h := Trunc(height);
    if height >= 0.0 {
      WholeItems(h, step, count);
      assert UsesScrollBar(height, step, count) <==> step * count > h;
    } else {
      NegativeItems(-h, step);
      if count > 0 { assert step * count >= step; }
    }
  }

  /** With a negative item height the tests have nearly nothing to do with one another. */
  lemma NeededDownward(height: real, step: int, count: int)
    requires step > 0 && count >= 0
    ensures (UsesScrollBar(height, -step, count) <==> VisibleItems(height, -step, count) < count)
       <==> if height >= 0.0 then count == 0 && height < step as real else height == (-step * count) as real
  {
    var h := Trunc(height);
    assert -step * count == -(step * count);
    MulOrder(0, count, step);
    if height >= 0.0 {
      NegativeItems(h, step);
      assert TruncDiv(h, -step) == TruncDiv(-h, step);
    } else {
      WholeItems(-h, step, count);
      assert TruncDiv(h, -step) == TruncDiv(-h, step);
    }
  }

  /** What the divisions of a list view ask for: by the item height, by the count, and by the bar's range. */
  predicate Layable(height: real, step: int, count: int) {
    step != 0 && (UsesScrollBar(height, step, count) ==> count > 0 && VisibleItems(height, step, count) < count)
  }

  /** Exactly when they are defined. */
  lemma LayableExactly(height: real, step: int, count: int)
    requires step != 0 && count >= 0
    ensures Layable(height, step, count)
        <==> if step > 0 then count > 0 || height >= 0.0 else height >= (step * count) as real
  {
    ScrollBarNeeded(height, step, count);
  }

  lemma WholeItems(h: int, step: int, count: int)
    requires h >= 0 && step > 0 && count >= 0
    ensures TruncDiv(h, step) >= 0
    ensures step * count > h <==> TruncDiv(h, step) < count
  {
    var n := h / step;
    assert h == n * step + h % step;
    if count <= n { MulOrder(count, n, step); } else { MulOrder(n + 1, count, step); }
  }

  lemma MulOrder(a: int, b: int, step: int)
    requires a <= b && step > 0
    ensures step * a <= step * b && step * a == a * step
  {
  }

  lemma NegativeItems(h: int, step: int)
    requires h >= 0 && step > 0
    ensures TruncDiv(-h, step) <= 0
    ensures TruncDiv(-h, step) == 0 <==> h < step
  {
    WholeItems(h, step, 1);
    assert TruncDiv(-h, step) == -TruncDiv(h, step);
  }

  lemma VisibleRange(height: real, step: int, count: int)
    requires step > 0 && count >= 0 && height >= 0.0
    ensures 0 <= VisibleItems(height, step, count) <= count
  {
    WholeItems(Trunc(height), step, count);
  }

  /** Where the list starts: at the asked index when it leaves no gap at the end, else at the top. */
  function StartIndex(asked: int, visible: int, count: int): int {
    if asked < 0 || asked > count - visible then 0 else asked
  }

  /** The wheel moves the start, and stops at either end. */
  function WheelStart(start: int, wheel: real, visible: int, count: int): int {
    var moved := start - Trunc(wheel);
    if moved < 0 then 0 else if moved > count - visible then count - visible else moved
  }

  // ----- Items under the mouse -----

  /** The style properties the list view reads. */
  datatype ListStyle = ListStyle(itemsHeight: int, itemsSpacing: int, border: int, listBorder: int, scrollbarWidth: int)
  {
    function Step(): int { itemsHeight + itemsSpacing }
  }

  function FirstItem(bounds: Rectangle, ls: ListStyle, useScrollBar: bool): Rectangle {
    var spacing, border := ls.itemsSpacing as real, ls.border as real;
    Rectangle(bounds.x + spacing, bounds.y + spacing + border,
              bounds.width - 2.0 * spacing - border - (if useScrollBar then ls.scrollbarWidth as real else 0.0),
              ls.itemsHeight as real)
  }

  function ScrollBarBounds(bounds: Rectangle, ls: ListStyle): Rectangle {
    var listBorder, width := ls.listBorder as real, ls.scrollbarWidth as real;
    Rectangle(bounds.x + bounds.width - listBorder - width, bounds.y + listBorder, width,
              bounds.height - 2.0 * ls.border as real)
  }

  function Below(item: Rectangle, step: int): Rectangle {
    item.(y := item.y + step as real)
  }

  /** The first of n items, the given one and those below it, that the point hits; -1 for none. */
  function FirstHit(p: Point, item: Rectangle, step: int, n: nat): (k: int)
    ensures -1 <= k < n
    decreases n
  {
    if n == 0 then -1
    else if Hits(p, item) then 0
    else
      var k := FirstHit(p, Below(item, step), step, n - 1);
      if k < 0 then -1 else k + 1
  }

  function ItemAt(item: Rectangle, step: int, i: nat): Rectangle {
    item.(y := item.y + (step * i) as real)
  }

  lemma {:induction false} FirstHitIsFirst(p: Point, item: Rectangle, step: int, n: nat)
    ensures
      var k := FirstHit(p, item, step, n);
      && (k >= 0 ==> Hits(p, ItemAt(item, step, k)))
      && forall i: nat :: i < (if k < 0 then n else k) ==> !Hits(p, ItemAt(item, step, i))
    decreases n
  {
    if n > 0 {
      assert ItemAt(item, step, 0) == item;
      if !Hits(p, item) {
        var below := Below(item, step);
        FirstHitIsFirst(p, below, step, n - 1);
        assert forall i: nat :: ItemAt(below, step, i) == ItemAt(item, step, i + 1);
        assert forall i: nat :: i > 0 ==> ItemAt(item, step, i) == ItemAt(below, step, i - 1);
      }
    }
  }

  /** What hovering and clicking make of the focused and the selected item. */
  function FocusAfter(focus: int, start: int, hit: int, over: bool): int {
    if !over then -1 else if hit >= 0 then start + hit else focus
  }

  function ActiveAfter(active: int, start: int, hit: int, over: bool, pressed: bool): int {
    if over && hit >= 0 && pressed then (if active == start + hit then -1 else start + hit) else active
  }

  // ----- The list view laid out -----

  /** The slider takes the share of the box that the visible items take of all. */
  function ListSliderSize(height: real, visible: int, count: int): int
    requires count > 0
  {
    Trunc(height * (visible as real / count as real))
  }

  /** A list view laid out: items visible, first item asked for and first shown, the item hit, and its scroll bar. */
  datatype ListLayout = ListLayout(visible: int, start: int, shown: int, hit: int, bar: bool, barBounds: Rectangle,
                                   sliderSize: int)

  function ListViewOf(ls: ListStyle, bounds: Rectangle, count: nat, scrollIndex: Option<int>, m: Mouse,
                      input: bool): ListLayout
    requires ls.Step() != 0
  {
    var bar := UsesScrollBar(bounds.height, ls.Step(), count);
    var visible := VisibleItems(bounds.height, ls.Step(), count);
    var start := StartIndex(match scrollIndex case None => 0 case Some(i) => i, visible, count);
    var over := input && Hits(m.position, bounds);
    ListLayout(
      visible, start,
      if over && bar then WheelStart(start, m.wheel, visible, count) else start,
      if over && visible > 0 then FirstHit(m.position, FirstItem(bounds, ls, bar), ls.Step(), visible) else -1,
      bar, ScrollBarBounds(bounds, ls),
      if count > 0 then ListSliderSize(bounds.height, visible, count) else 0)
  }

  /** What the arithmetic of a list view asks for: its divisions are defined and its numbers fit `int`. */
  predicate ListDefined(ls: ListStyle, bounds: Rectangle, count: nat) {
    var step := ls.Step();
    && IsInt(count) && IsInt(step) && IsInt(step * count) && IsInt(Trunc(bounds.height))
    && Layable(bounds.height, step, count)
    && (UsesScrollBar(bounds.height, step, count) ==>
          && IsInt(count - VisibleItems(bounds.height, step, count))
          && IsInt(ListSliderSize(bounds.height, VisibleItems(bounds.height, step, count), count)))
  }

  /**
   * A list view laid out well: a bar only when items are hidden, and with items of a positive height
   * exactly then; the first item asked for and the first shown leave no gap; an item hit exists.
   */
  predicate WellLaid(ls: ListStyle, bounds: Rectangle, count: nat, v: ListLayout) {
    && v.visible <= count && (v.bar ==> v.visible < count)
    && (ls.Step() > 0 ==> (v.bar <==> v.visible < count) && (bounds.height >= 0.0 ==> 0 <= v.visible))
    && 0 <= v.start <= count - v.visible && 0 <= v.shown <= count - v.visible
    && (v.hit >= 0 ==> v.start + v.hit < count)
  }

  lemma ListWellLaid(ls: ListStyle, bounds: Rectangle, count: nat, scrollIndex: Option<int>, m: Mouse, input: bool)
    requires ListDefined(ls, bounds, count)
    ensures WellLaid(ls, bounds, count, ListViewOf(ls, bounds, count, scrollIndex, m, input))
  {
    var step := ls.Step();
    hide Hits, Trunc, TruncDiv, FirstHit;
    if step > 0 && bounds.height >= 0.0 { VisibleRange(bounds.height, step, count); }
    ScrollBarNeeded(bounds.height, step, count);
    hide UsesScrollBar;
  }
}
