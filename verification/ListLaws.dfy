/** What a list view of ext/raygui.h shows and selects, told from its box, its items and the mouse. */
module ListLaws {
  import opened RealArith
  import opened CTypes
  import opened ScrollGeometry
  import opened ListGeometry
  import ScrollLaws

  /** As many items are visible as fit the box whole, or all there are. */
  lemma VisibleFit(height: real, step: int, count: int)
    requires step > 0 && count >= 0 && height >= 0.0
    ensures
      var n := VisibleItems(height, step, count);
      (n * step) as real <= height && (n == count || ((n + 1) * step) as real > height)
  {
    var h := Trunc(height);
    var q := h / step;
    assert h == q * step + h % step && TruncDiv(h, step) == q;
    var n := VisibleItems(height, step, count);
    MulOrder(n, q, step);
  }

  // ----- Where the list starts -----

  /**
   * A list left alone keeps its place: it starts where it was left, if that leaves no gap, and returns the
   * same index.
   */
  lemma KeepsPlace(ls: ListStyle, bounds: Rectangle, count: nat, i: int, m: Mouse, input: bool)
    requires ListDefined(ls, bounds, count) && 0 <= i <= count - VisibleItems(bounds.height, ls.Step(), count)
    requires !(input && Hits(m.position, bounds)) || Trunc(m.wheel) == 0
    ensures ListViewOf(ls, bounds, count, Some(i), m, input).shown == i
  {
    hide Hits, FirstHit, Trunc, TruncDiv;
  }

  /** An index that leaves a gap, or none at all, starts the list at the top. */
  lemma StartsAtTop(ls: ListStyle, bounds: Rectangle, count: nat, i: Option<int>, m: Mouse)
    requires ListDefined(ls, bounds, count)
    requires i.None? || i.value < 0 || i.value > count - VisibleItems(bounds.height, ls.Step(), count)
    ensures ListViewOf(ls, bounds, count, i, m, false).shown == 0
  {
    hide Hits, FirstHit, Trunc, TruncDiv;
  }

  /**
   * The scroll bar returns the index it was given when the mouse is elsewhere, so the place is kept from frame
   * to frame.
   */
  lemma BarKeepsPlace(bounds: Rectangle, st: ScrollStyle, i: int, hidden: int, m: Mouse, enabled: bool,
                      active: Rectangle)
    requires 0 <= i <= hidden && hidden > 0 && !Hits(m.position, bounds)
    ensures Scrolled(bounds, st, i, 0, hidden, m, enabled, false, active) == i
  {
    hide Hits, OnArrow;
    ScrollLaws.LeftAlone(bounds, st, i, 0, hidden, m, enabled, false, active);
  }

  /** The wheel moves the list by its notches, up to either end, and back. */
  lemma WheelMovesList(start: int, wheel: real, visible: int, count: int)
    requires 0 <= start <= count - visible
    ensures
      var moved, next := start - Trunc(wheel), WheelStart(start, wheel, visible, count);
      && 0 <= next <= count - visible
      && (0 <= moved <= count - visible ==> next == moved && WheelStart(next, -wheel, visible, count) == start)
      && (moved < 0 ==> next == 0) && (moved > count - visible ==> next == count - visible)
  {
  }

  // ----- What is selected -----

  /** The selection after clicks on items, one a frame. */
  function AfterClicks(clicks: seq<nat>): int {
    if clicks == [] then -1 else ActiveAfter(AfterClicks(clicks[..|clicks| - 1]), 0, clicks[|clicks| - 1], true, true)
  }

  /** How often the item clicked last was clicked at the end without another in between. */
  function LastRun(clicks: seq<nat>): nat {
    if |clicks| <= 1 then |clicks|
    else if clicks[|clicks| - 1] == clicks[|clicks| - 2] then LastRun(clicks[..|clicks| - 1]) + 1
    else 1
  }

  /** The item clicked last is selected exactly if it was clicked an odd number of times in a row; else none is. */
  lemma {:induction false} SelectedByParity(clicks: seq<nat>)
    ensures AfterClicks(clicks) == if LastRun(clicks) % 2 == 1 then clicks[|clicks| - 1] else -1
  {
    if |clicks| > 1 {
      var init := clicks[..|clicks| - 1];
      assert init[|init| - 1] == clicks[|clicks| - 2];
      SelectedByParity(init);
    } else if |clicks| == 1 {
      assert clicks[..0] == [];
    }
  }

  /** Only a press on an item changes the selection; hovering one focuses it, and leaving the list focuses none. */
  lemma HoverFocuses(focus: int, active: int, start: int, hit: int, over: bool, pressed: bool)
    ensures ActiveAfter(active, start, hit, over, pressed) != active ==> over && hit >= 0 && pressed
    ensures over && hit >= 0 ==> FocusAfter(focus, start, hit, over) == start + hit
    ensures !over ==> FocusAfter(focus, start, hit, over) == -1
    ensures over && hit < 0 ==> FocusAfter(focus, start, hit, over) == focus
  {
  }

  // ----- The drawing -----

  /** Items follow one another a spacing apart, and leave the same room beside them, less the bar's when it is shown. */
  lemma ItemsStack(bounds: Rectangle, ls: ListStyle, bar: bool, i: nat)
    ensures
      var first := FirstItem(bounds, ls, bar);
      var item, next := ItemAt(first, ls.Step(), i), ItemAt(first, ls.Step(), i + 1);
      && ItemAt(first, ls.Step(), 0) == first && first.y == bounds.y + (ls.itemsSpacing + ls.border) as real
      && item.height == ls.itemsHeight as real && next.y == item.y + item.height + ls.itemsSpacing as real
      && item.x == next.x == bounds.x + ls.itemsSpacing as real && item.width == next.width
      && bounds.x + bounds.width - (item.x + item.width)
         == (ls.itemsSpacing + ls.border) as real + (if bar then ls.scrollbarWidth as real else 0.0)
  {
    assert ls.Step() * (i + 1) == ls.Step() * i + ls.Step();
  }

  /**
   * The bar stands its border off the right edge; items are clear of it exactly if the list's border is no
   * wider than theirs and the spacing.
   */
  lemma ItemsClearOfBar(bounds: Rectangle, ls: ListStyle)
    ensures
      var item, bar := FirstItem(bounds, ls, true), ScrollBarBounds(bounds, ls);
      && bar.width == ls.scrollbarWidth as real && bar.y == bounds.y + ls.listBorder as real
      && bar.x + bar.width + ls.listBorder as real == bounds.x + bounds.width
      && bar.height == bounds.height - 2.0 * ls.border as real
      && (item.x + item.width <= bar.x <==> ls.listBorder <= ls.itemsSpacing + ls.border)
  {
  }

  /** The item hit is under the mouse and the first such; the bar stands where the items leave room for it. */
  lemma HitIsUnderMouse(ls: ListStyle, bounds: Rectangle, count: nat, i: Option<int>, m: Mouse, input: bool)
    requires ListDefined(ls, bounds, count)
    ensures
      var v := ListViewOf(ls, bounds, count, i, m, input);
      var first := FirstItem(bounds, ls, v.bar);
      && (v.hit >= 0 ==> input && v.hit < v.visible && Hits(m.position, ItemAt(first, ls.Step(), v.hit)))
      && (input && Hits(m.position, bounds) && v.hit < 0 ==>
            forall k: nat :: k < v.visible ==> !Hits(m.position, ItemAt(first, ls.Step(), k)))
      && v.barBounds == ScrollBarBounds(bounds, ls)
      && (v.bar ==> v.sliderSize == ListSliderSize(bounds.height, v.visible, count))
  {
    ListWellLaid(ls, bounds, count, i, m, input);
    var v := ListViewOf(ls, bounds, count, i, m, input);
    if v.visible > 0 { FirstHitIsFirst(m.position, FirstItem(bounds, ls, v.bar), ls.Step(), v.visible); }
    hide Hits, FirstHit, Trunc, TruncDiv, FirstItem, ItemAt;
  }

  /** The slider is to the box as the visible items are to all, to the pixel. */
  lemma SliderShare(height: real, visible: nat, count: int)
    requires height >= 0.0 && count > 0
    ensures
      var size := ListSliderSize(height, visible, count);
      && size >= 0
      && size as real * count as real <= height * visible as real < (size as real + 1.0) * count as real
  {
    hide Trunc;
    var c := count as real;
    var n := ShareOf(height, visible as real, c);
    assert ListSliderSize(height, visible, count) == n;
    hide ListSliderSize;
  }
}
