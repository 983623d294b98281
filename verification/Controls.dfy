/**
 * The controls of ext/raygui.h that change the style table while they draw: each saves the
 * properties it forces, draws other controls, and puts the properties back. What is drawn, and
 * under which table, is recorded.
 */
module Controls {
  import opened RealArith
  import opened CTypes
  import opened Style
  import opened ScrollGeometry
  import opened ListGeometry
  import opened PanelGeometry
  import opened Drawing

  // ----- Putting properties back -----

  lemma WordThroughInt(w: Word)
    ensures ToWord(ToInt(w)) == w
  {
  }

  /** One forced property of one control is undone by writing its saved value. */
  lemma RestoreOne(w: Words, c: ControlId, p: PropertyId, v: int)
    requires c != DEFAULT
    ensures Put(Put(w, c, p, v), c, p, Get(w, c, p)) == w
  {
    var u := Put(Put(w, c, p, v), c, p, Get(w, c, p));
    forall i | 0 <= i < TABLE_SIZE
      ensures u[i] == w[i]
    {
      SlotOfParts(i);
      WordThroughInt(w[i]);
    }
  }

  /** Writes to different properties can be exchanged. */
  lemma PutsCommute(w: Words, c: ControlId, p: PropertyId, v: int, d: ControlId, q: PropertyId, u: int)
    requires c != DEFAULT && d != DEFAULT && (c != d || p != q)
    ensures Put(Put(w, c, p, v), d, q, u) == Put(Put(w, d, q, u), c, p, v)
    ensures Get(Put(w, c, p, v), d, q) == Get(w, d, q)
  {
    SlotParts(d, q);
  }

  lemma PutTwice(w: Words, c: ControlId, p: PropertyId, v: int, u: int)
    ensures Put(Put(w, c, p, v), c, p, u) == Put(w, c, p, u)
  {
  }

  /** Two forced properties are undone in either order. */
  lemma RestoreTwo(w: Words, c: ControlId, p: PropertyId, v: int, q: PropertyId, u: int)
    requires c != DEFAULT && p != q
    ensures
      var forced := Put(Put(w, c, p, v), c, q, u);
      && Put(Put(forced, c, p, Get(w, c, p)), c, q, Get(w, c, q)) == w
      && Put(Put(forced, c, q, Get(w, c, q)), c, p, Get(w, c, p)) == w
  {
    hide Put, Get;
    var one, forced := Put(w, c, p, v), Put(Put(w, c, p, v), c, q, u);
    PutsCommute(w, c, p, v, c, q, u);
    RestoreOne(one, c, q, u);
    RestoreOne(w, c, p, v);
    PutsCommute(w, c, q, u, c, p, v);
    RestoreOne(Put(w, c, q, u), c, p, v);
    RestoreOne(w, c, q, u);
  }

  /** The table while a bar of a panel is drawn, and until another property is set. */
  function AfterBar(w: Words, bar: Option<Bar>): Words {
    match bar case None => w case Some(b) => Put(w, SCROLLBAR, SCROLL_SLIDER_SIZE, b.size)
  }

  lemma SliderRestored(w: Words, horizontal: Option<Bar>, vertical: Option<Bar>)
    ensures Put(AfterBar(w, if vertical.Some? then vertical else horizontal), SCROLLBAR, SCROLL_SLIDER_SIZE,
                Get(w, SCROLLBAR, SCROLL_SLIDER_SIZE)) == w
  {
    hide Put, Get;
    var saved := Get(w, SCROLLBAR, SCROLL_SLIDER_SIZE);
    if vertical.Some? { RestoreOne(w, SCROLLBAR, SCROLL_SLIDER_SIZE, vertical.value.size); }
    if horizontal.Some? { RestoreOne(w, SCROLLBAR, SCROLL_SLIDER_SIZE, horizontal.value.size); }
    RestoreOne(w, SCROLLBAR, SCROLL_SLIDER_SIZE, saved);
    PutTwice(w, SCROLLBAR, SCROLL_SLIDER_SIZE, saved, saved);
  }

  /** The slider size decides neither what a frame divides by nor what it drags. */
  lemma SizeNoPart(st: ScrollStyle, size: int, b: Bar, m: Mouse, enabled: bool, dragging: bool, active: Rectangle)
    ensures
      var forced := st.(sliderSize := size);
      && (Defined(b.bounds, st, b.minValue, b.maxValue, m, enabled, dragging)
          <==> Defined(b.bounds, forced, b.minValue, b.maxValue, m, enabled, dragging))
      && NextDragging(b.bounds, forced, m, enabled, dragging) == NextDragging(b.bounds, st, m, enabled, dragging)
      && NextActive(b.bounds, forced, m, enabled, dragging, active)
          == NextActive(b.bounds, st, m, enabled, dragging, active)
  {
    hide Hits;
  }

  lemma ForcedSpeed(w: Words, sliderSize: int, range: int)
    requires IsInt(range)
    ensures BarStyle(ListBarTable(w, sliderSize, range)).speed == range
    ensures IsInt(sliderSize) ==> BarStyle(ListBarTable(w, sliderSize, range)).sliderSize == sliderSize
  {
    GetAfterPut(Put(w, SCROLLBAR, SCROLL_SLIDER_SIZE, sliderSize), SCROLLBAR, SCROLL_SPEED, range, SCROLLBAR,
                SCROLL_SPEED);
    IntThroughWord(range);
    var sized := Put(w, SCROLLBAR, SCROLL_SLIDER_SIZE, sliderSize);
    GetAfterPut(sized, SCROLLBAR, SCROLL_SPEED, range, SCROLLBAR, SCROLL_SLIDER_SIZE);
    GetAfterPut(w, SCROLLBAR, SCROLL_SLIDER_SIZE, sliderSize, SCROLLBAR, SCROLL_SLIDER_SIZE);
    if IsInt(sliderSize) { IntThroughWord(sliderSize); }
  }

  lemma InputBoxParts(w: Words, closeTip: bool, message: bool, textTip: bool, secret: Option<bool>, tips: seq<bool>,
                      before: seq<Draw>)
    ensures
      var head := WindowBoxDraws(w, closeTip) + (if message then CentredLabel(w) else []);
      var middle := LeafDraws(TextBox, w, textTip)
          + (match secret case None => [] case Some(tip) => LeafDraws(Toggle, w, tip));
      before + head + middle + ButtonRow(Put(w, BUTTON, TEXT_ALIGNMENT, TEXT_ALIGN_CENTER), tips)
        == before + TextInputBoxDraws(w, closeTip, message, textTip, secret, tips)
  {
    hide WindowBoxDraws, CentredLabel, LeafDraws, ButtonRow, Put;
  }

  // ----- The controls -----

  class Gui {
    const style: StyleTable
    ghost var draws: seq<Draw>
    var guiSliderDragging: bool
    var guiSliderActive: Rectangle

    ghost predicate Valid()
    {
      style.Valid()
    }

    ghost function Table(): Words
      requires Valid()
      reads style, style.guiStyle
    {
      style.Effective()
    }

    constructor (style: StyleTable)
      requires style.Valid()
      ensures Valid() && this.style == style && draws == [] && !guiSliderDragging
    {
      this.style := style;
      draws := [];
      guiSliderDragging := false;
      guiSliderActive := Rectangle(0.0, 0.0, 0.0, 0.0);
    }

    /** A control that reads the style and draws. */
    method DrawLeaf(leaf: Leaf)
      requires Valid()
      modifies this`draws, style, style.guiStyle
      ensures style.guiStyleLoaded && Table() == old(Table())
      ensures draws == old(draws) + [Draw(leaf, old(Table()))]
    {
      draws := draws + [Draw(leaf, Table())];
      var _ := style.GuiGetStyle(DEFAULT, BORDER_WIDTH);
    }

    method GuiTooltip()
      requires Valid()
      modifies this`draws, style, style.guiStyle
      ensures style.guiStyleLoaded && Table() == old(Table())
      ensures draws == old(draws) + TooltipDraws(old(Table()))
    {
      hide Put, Get, Defaults;
      ghost var w := Table();
      DrawLeaf(Panel);
      var textPadding := style.GuiGetStyle(LABEL, TEXT_PADDING);
      var textAlignment := style.GuiGetStyle(LABEL, TEXT_ALIGNMENT);
      style.GuiSetStyle(LABEL, TEXT_PADDING, 0);
      style.GuiSetStyle(LABEL, TEXT_ALIGNMENT, TEXT_ALIGN_CENTER);
      DrawLeaf(Label);
      style.GuiSetStyle(LABEL, TEXT_ALIGNMENT, textAlignment);
      style.GuiSetStyle(LABEL, TEXT_PADDING, textPadding);
      RestoreTwo(w, LABEL, TEXT_PADDING, 0, TEXT_ALIGNMENT, TEXT_ALIGN_CENTER);
      assert draws == old(draws) + TooltipDraws(w);
    }

    /** Buttons, toggles and text boxes show the tooltip when focused. */
    method DrawWithTip(leaf: Leaf, tip: bool)
      requires Valid()
      modifies this`draws, style, style.guiStyle
      ensures style.guiStyleLoaded && Table() == old(Table())
      ensures draws == old(draws) + LeafDraws(leaf, old(Table()), tip)
    {
      DrawLeaf(leaf);
      if tip {
        GuiTooltip();
      }
    }

    /** A button drawn with the forced border and alignment of the composite controls. */
    method CentredButton(tip: bool, alignmentFirst: bool)
      requires Valid()
      modifies this`draws, style, style.guiStyle
      ensures style.guiStyleLoaded && Table() == old(Table())
      ensures draws == old(draws) + LeafDraws(Button, Centred(old(Table())), tip)
    {
      hide Put, Get, Defaults, LeafDraws;
      ghost var w := Table();
      var tempBorderWidth := style.GuiGetStyle(BUTTON, BORDER_WIDTH);
      var tempTextAlignment := style.GuiGetStyle(BUTTON, TEXT_ALIGNMENT);
      style.GuiSetStyle(BUTTON, BORDER_WIDTH, 1);
      style.GuiSetStyle(BUTTON, TEXT_ALIGNMENT, TEXT_ALIGN_CENTER);
      DrawWithTip(Button, tip);
      if alignmentFirst {
        style.GuiSetStyle(BUTTON, TEXT_ALIGNMENT, tempTextAlignment);
        style.GuiSetStyle(BUTTON, BORDER_WIDTH, tempBorderWidth);
      } else {
        style.GuiSetStyle(BUTTON, BORDER_WIDTH, tempBorderWidth);
        style.GuiSetStyle(BUTTON, TEXT_ALIGNMENT, tempTextAlignment);
      }
      RestoreTwo(w, BUTTON, BORDER_WIDTH, 1, TEXT_ALIGNMENT, TEXT_ALIGN_CENTER);
    }

    method GuiWindowBox(tip: bool)
      requires Valid()
      modifies this`draws, style, style.guiStyle
      ensures style.guiStyleLoaded && Table() == old(Table())
      ensures draws == old(draws) + WindowBoxDraws(old(Table()), tip)
    {
      hide Put, Get, Defaults, LeafDraws;
      DrawLeaf(StatusBar);
      DrawLeaf(Panel);
      CentredButton(tip, false);
      assert draws == old(draws) + WindowBoxDraws(old(Table()), tip);
    }

    method GuiComboBox(tip: bool)
      requires Valid()
      modifies this`draws, style, style.guiStyle
      ensures style.guiStyleLoaded && Table() == old(Table())
      ensures draws == old(draws) + LeafDraws(Button, Centred(old(Table())), tip)
    {
      CentredButton(tip, true);
    }

    method GuiTabBar(tabs: seq<Tab>)
      requires Valid()
      modifies this`draws, style, style.guiStyle
      ensures style.guiStyleLoaded && Table() == old(Table())
      ensures draws == old(draws) + TabBarDraws(old(Table()), tabs)
    {
      hide Put, Get, Defaults, TabDraws;
      ghost var w := Table();
      for i := 0 to |tabs|
        invariant Table() == w
        invariant draws == old(draws) + TabBarDraws(w, tabs[..i])
      {
        assert tabs[..i + 1][..i] == tabs[..i];
        DrawTab(tabs[i]);
      }
      assert tabs[..|tabs|] == tabs;
      var _ := style.GuiGetStyle(TOGGLE, BORDER_COLOR_NORMAL); // for the line under the tabs
    }

    method DrawTab(tab: Tab)
      requires Valid()
      modifies this`draws, style, style.guiStyle
      ensures style.guiStyleLoaded && Table() == old(Table())
      ensures draws == old(draws) + TabDraws(old(Table()), tab)
    {
      hide Put, Get, Defaults, LeafDraws;
      ghost var w := Table();
      var textAlignment := style.GuiGetStyle(TOGGLE, TEXT_ALIGNMENT);
      var textPadding := style.GuiGetStyle(TOGGLE, TEXT_PADDING);
      style.GuiSetStyle(TOGGLE, TEXT_ALIGNMENT, TEXT_ALIGN_LEFT);
      style.GuiSetStyle(TOGGLE, TEXT_PADDING, 8);
      DrawWithTip(Toggle, tab.toggleTip);
      style.GuiSetStyle(TOGGLE, TEXT_PADDING, textPadding);
      style.GuiSetStyle(TOGGLE, TEXT_ALIGNMENT, textAlignment);
      RestoreTwo(w, TOGGLE, TEXT_ALIGNMENT, TEXT_ALIGN_LEFT, TEXT_PADDING, 8);
      CentredButton(tab.closeTip, false);
    }

    method GuiSpinner(leftTip: bool, rightTip: bool)
      requires Valid()
      modifies this`draws, style, style.guiStyle
      ensures style.guiStyleLoaded && Table() == old(Table())
      ensures draws == old(draws) + SpinnerDraws(old(Table()), leftTip, rightTip)
    {
      hide Put, Get, Defaults, LeafDraws;
      ghost var w := Table();
      DrawWithTip(Button, leftTip);
      DrawWithTip(Button, rightTip);
      DrawLeaf(ValueBox);
      var tempBorderWidth := style.GuiGetStyle(BUTTON, BORDER_WIDTH);
      var tempTextAlign := style.GuiGetStyle(BUTTON, TEXT_ALIGNMENT);
      var spinnerBorder := style.GuiGetStyle(SPINNER, BORDER_WIDTH);
      style.GuiSetStyle(BUTTON, BORDER_WIDTH, spinnerBorder);
      style.GuiSetStyle(BUTTON, TEXT_ALIGNMENT, TEXT_ALIGN_CENTER);
      style.GuiSetStyle(BUTTON, TEXT_ALIGNMENT, tempTextAlign);
      style.GuiSetStyle(BUTTON, BORDER_WIDTH, tempBorderWidth);
      RestoreTwo(w, BUTTON, BORDER_WIDTH, spinnerBorder, TEXT_ALIGNMENT, TEXT_ALIGN_CENTER);
      assert draws == old(draws) + SpinnerDraws(w, leftTip, rightTip);
    }

    method CentredLabelDraw()
      requires Valid()
      modifies this`draws, style, style.guiStyle
      ensures style.guiStyleLoaded && Table() == old(Table())
      ensures draws == old(draws) + CentredLabel(old(Table()))
    {
      hide Put, Get, Defaults;
      ghost var w := Table();
      var prevTextAlignment := style.GuiGetStyle(LABEL, TEXT_ALIGNMENT);
      style.GuiSetStyle(LABEL, TEXT_ALIGNMENT, TEXT_ALIGN_CENTER);
      DrawLeaf(Label);
      style.GuiSetStyle(LABEL, TEXT_ALIGNMENT, prevTextAlignment);
      RestoreOne(w, LABEL, TEXT_ALIGNMENT, TEXT_ALIGN_CENTER);
    }

    /** The row of buttons of a message or input box, centred. */
    method DrawButtonRow(tips: seq<bool>)
      requires Valid()
      modifies this`draws, style, style.guiStyle
      ensures style.guiStyleLoaded && Table() == old(Table())
      ensures draws == old(draws) + ButtonRow(Put(old(Table()), BUTTON, TEXT_ALIGNMENT, TEXT_ALIGN_CENTER), tips)
    {
      hide Put, Get, Defaults, LeafDraws;
      ghost var w := Table();
      var prevTextAlignment := style.GuiGetStyle(BUTTON, TEXT_ALIGNMENT);
      style.GuiSetStyle(BUTTON, TEXT_ALIGNMENT, TEXT_ALIGN_CENTER);
      ghost var centred := Table();
      for i := 0 to |tips|
        invariant style.guiStyleLoaded && Table() == centred
        invariant draws == old(draws) + ButtonRow(centred, tips[..i])
      {
        assert tips[..i + 1][..i] == tips[..i];
        DrawWithTip(Button, tips[i]);
      }
      assert tips[..|tips|] == tips;
      style.GuiSetStyle(BUTTON, TEXT_ALIGNMENT, prevTextAlignment);
      RestoreOne(w, BUTTON, TEXT_ALIGNMENT, TEXT_ALIGN_CENTER);
    }

    method GuiMessageBox(closeTip: bool, tips: seq<bool>)
      requires Valid()
      modifies this`draws, style, style.guiStyle
      ensures style.guiStyleLoaded && Table() == old(Table())
      ensures draws == old(draws) + MessageBoxDraws(old(Table()), closeTip, tips)
    {
      hide Put, Get, Defaults, WindowBoxDraws, CentredLabel, ButtonRow;
      GuiWindowBox(closeTip);
      CentredLabelDraw();
      DrawButtonRow(tips);
      assert draws == old(draws) + MessageBoxDraws(old(Table()), closeTip, tips);
    }

    method GuiTextInputBox(closeTip: bool, message: bool, textTip: bool, secret: Option<bool>, tips: seq<bool>)
      requires Valid()
      modifies this`draws, style, style.guiStyle
      ensures style.guiStyleLoaded && Table() == old(Table())
      ensures draws == old(draws) + TextInputBoxDraws(old(Table()), closeTip, message, textTip, secret, tips)
    {
      hide Put, Get, Defaults, WindowBoxDraws, CentredLabel, ButtonRow, LeafDraws;
      ghost var w := Table();
      GuiWindowBox(closeTip);
      if message {
        CentredLabelDraw();
      }
      ghost var head := draws;
      assert head == old(draws) + (WindowBoxDraws(w, closeTip) + (if message then CentredLabel(w) else []));
      DrawWithTip(TextBox, textTip);
      if secret.Some? {
        DrawWithTip(Toggle, secret.value);
      }
      ghost var middle := LeafDraws(TextBox, w, textTip)
        + (match secret case None => [] case Some(tip) => LeafDraws(Toggle, w, tip));
      assert draws == head + middle;
      DrawButtonRow(tips);
      InputBoxParts(w, closeTip, message, textTip, secret, tips, old(draws));
    }

    // ----- Scrolling -----

    method ReadBarStyle() returns (st: ScrollStyle)
      requires Valid()
      modifies style, style.guiStyle
      ensures style.guiStyleLoaded && Table() == old(Table())
      ensures st == BarStyle(Table())
    {
      hide Get, Defaults;
      var arrowsVisible := style.GuiGetStyle(SCROLLBAR, ARROWS_VISIBLE);
      var borderWidth := style.GuiGetStyle(SCROLLBAR, BORDER_WIDTH);
      var sliderSize := style.GuiGetStyle(SCROLLBAR, SCROLL_SLIDER_SIZE);
      var scrollPadding := style.GuiGetStyle(SCROLLBAR, SCROLL_PADDING);
      var sliderPadding := style.GuiGetStyle(SCROLLBAR, SCROLL_SLIDER_PADDING);
      var speed := style.GuiGetStyle(SCROLLBAR, SCROLL_SPEED);
      st := ScrollStyle(arrowsVisible, borderWidth, sliderSize, scrollPadding, sliderPadding, speed);
    }

    /** One frame of a scroll bar; `enabled` is false in the disabled state and while the GUI is locked. */
    method GuiScrollBar(bounds: Rectangle, initial: int, minValue: int, maxValue: int, m: Mouse, enabled: bool)
      returns (value: int)
      requires Valid() && Defined(bounds, BarStyle(Table()), minValue, maxValue, m, enabled, guiSliderDragging)
      modifies this, style, style.guiStyle
      ensures style.guiStyleLoaded && Table() == old(Table())
      ensures draws == old(draws) + [Draw(ScrollBar, old(Table()))]
      ensures value == Scrolled(bounds, BarStyle(old(Table())), initial, minValue, maxValue, m, enabled,
                                old(guiSliderDragging), old(guiSliderActive))
      ensures guiSliderDragging == NextDragging(bounds, BarStyle(old(Table())), m, enabled, old(guiSliderDragging))
      ensures guiSliderActive
           == NextActive(bounds, BarStyle(old(Table())), m, enabled, old(guiSliderDragging), old(guiSliderActive))
    {
      hide Get, Defaults, Scrolled, NextDragging, NextActive, Defined;
      value := initial;
      if value > maxValue {
        value := maxValue;
      }
      if value < minValue {
        value := minValue;
      }
      var st := ReadBarStyle();
      value := UpdateBar(bounds, st, initial, value, minValue, maxValue, m, enabled);
      DrawLeaf(ScrollBar);
    }

    /** The input of a frame: a drag goes on or ends, or the wheel and a press act on the bar. */
    method UpdateBar(bounds: Rectangle, st: ScrollStyle, initial: int, start: int, minValue: int, maxValue: int,
                     m: Mouse, enabled: bool)
      returns (value: int)
      requires Defined(bounds, st, minValue, maxValue, m, enabled, guiSliderDragging)
      requires start == Normalise(initial, minValue, maxValue)
      modifies this`guiSliderDragging, this`guiSliderActive
      ensures value == Scrolled(bounds, st, initial, minValue, maxValue, m, enabled,
                                old(guiSliderDragging), old(guiSliderActive))
      ensures guiSliderDragging == NextDragging(bounds, st, m, enabled, old(guiSliderDragging))
      ensures guiSliderActive == NextActive(bounds, st, m, enabled, old(guiSliderDragging), old(guiSliderActive))
    {
      var valueRange := maxValue - minValue;
      var l := LayoutOf(bounds, st, start, minValue, maxValue);
      hide LayoutOf, Hits, Dragged, TruncDiv, Trunc, ArrowUpLeft, ArrowDownRight;
      value := start;
      if enabled {
        if guiSliderDragging {
          if m.down && !Hits(m.position, l.arrowUpLeft) && !Hits(m.position, l.arrowDownRight) {
            if bounds == guiSliderActive {
              value := Dragged(l, m.position, minValue, maxValue);
            }
          } else {
            guiSliderDragging := false;
            guiSliderActive := Rectangle(0.0, 0.0, 0.0, 0.0);
          }
        } else if Hits(m.position, bounds) {
          var wheel := Trunc(m.wheel);
          if wheel != 0 {
            value := value + wheel;
          }
          if m.pressed {
            guiSliderDragging := true;
            guiSliderActive := bounds;
            if Hits(m.position, l.arrowUpLeft) {
              value := value - TruncDiv(valueRange, st.speed);
            } else if Hits(m.position, l.arrowDownRight) {
              value := value + TruncDiv(valueRange, st.speed);
            } else if !Hits(m.position, l.slider) {
              value := Dragged(l, m.position, minValue, maxValue);
            }
          }
        }
        if value > maxValue {
          value := maxValue;
        }
        if value < minValue {
          value := minValue;
        }
      }
    }

    method ReadPanelStyle() returns (ps: PanelStyle)
      requires Valid()
      modifies style, style.guiStyle
      ensures style.guiStyleLoaded && Table() == old(Table()) && ps == PanelStyleOf(Table())
    {
      hide Get, Defaults;
      var border := style.GuiGetStyle(DEFAULT, BORDER_WIDTH);
      var barWidth := style.GuiGetStyle(LISTVIEW, SCROLLBAR_WIDTH);
      var side := style.GuiGetStyle(LISTVIEW, SCROLLBAR_SIDE);
      ps := PanelStyle(border, barWidth, side == SCROLLBAR_LEFT_SIDE);
    }

    /**
     * One frame of a scroll panel: which bars it shows and over which range follow from its own box and
     * the content, each bar is drawn with the slider size forced for it and leaves its direction where
     * its value says, and the size saved before the first one is put back after the last.
     */
    method GuiScrollPanel(panel: PanelCall) returns (scrollX: int, scrollY: int, view: Rectangle)
      requires Valid() && PanelDefined(Table(), panel, guiSliderDragging)
      modifies this, style, style.guiStyle
      ensures style.guiStyleLoaded && Table() == old(Table())
      ensures draws == old(draws) + ScrollPanelDraws(old(Table()), panel.header, panel.Bars(old(Table())))
      ensures view == ViewOf(panel.Box(), panel.content, PanelStyleOf(old(Table())),
                             panel.Bars(old(Table())).horizontal.Some?, panel.Bars(old(Table())).vertical.Some?)
      ensures
        var w, bars := old(Table()), panel.Bars(old(Table()));
        var dragging, active := old(guiSliderDragging), old(guiSliderActive);
        && scrollX == PositionAfter(w, bars.horizontal, panel.m, panel.enabled, dragging, active)
        && scrollY == PositionAfter(w, bars.vertical, panel.m, panel.enabled,
                                    DraggingAfter(w, bars.horizontal, panel.m, panel.enabled, dragging),
                                    DraggedAfter(w, bars.horizontal, panel.m, panel.enabled, dragging, active))
    {
      hide Put, Get, Defaults, Scrolled, NextDragging, NextActive, Defined, BarsOf, Measurable, ViewOf, BarDraws,
        BarStyle, PositionAfter, BarDefined, DraggingAfter, DraggedAfter;
      ghost var w := Table();
      var ps := ReadPanelStyle();
      var horizontal, vertical: Option<Bar>;
      horizontal, vertical, view :=
        LayOutPanel(panel.Box(), panel.content, ps, panel.scroll, panel.m, panel.enabled, panel.sideways);
      if panel.header {
        DrawLeaf(StatusBar);
      }
      ghost var drawn := draws;
      var slider := style.GuiGetStyle(SCROLLBAR, SCROLL_SLIDER_SIZE);
      scrollX := DrawBar(w, None, horizontal, panel.m, panel.enabled);
      scrollY := DrawBar(w, horizontal, vertical, panel.m, panel.enabled);
      style.GuiSetStyle(SCROLLBAR, SCROLL_SLIDER_SIZE, slider);
      SliderRestored(w, horizontal, vertical);
      assert draws == old(draws) + ScrollPanelDraws(w, panel.header, Bars(horizontal, vertical));
    }

    /** One bar of a panel, if it is shown: its slider size is forced, on top of what the bar before forced. */
    method DrawBar(ghost w: Words, ghost before: Option<Bar>, bar: Option<Bar>, m: Mouse, enabled: bool)
      returns (position: int)
      requires Valid() && style.guiStyleLoaded && Table() == AfterBar(w, before)
      requires BarDefined(w, bar, m, enabled, guiSliderDragging)
      modifies this, style, style.guiStyle
      ensures style.guiStyleLoaded && Table() == if bar.Some? then AfterBar(w, bar) else AfterBar(w, before)
      ensures draws == old(draws) + BarDraws(w, bar)
      ensures position == PositionAfter(w, bar, m, enabled, old(guiSliderDragging), old(guiSliderActive))
      ensures guiSliderDragging == DraggingAfter(w, bar, m, enabled, old(guiSliderDragging))
      ensures guiSliderActive == DraggedAfter(w, bar, m, enabled, old(guiSliderDragging), old(guiSliderActive))
    {
      hide Put, Get, Defaults, Scrolled, NextDragging, NextActive, BarStyle, Defined;
      position := 0;
      if bar.Some? {
        if before.Some? { PutTwice(w, SCROLLBAR, SCROLL_SLIDER_SIZE, before.value.size, bar.value.size); }
        style.GuiSetStyle(SCROLLBAR, SCROLL_SLIDER_SIZE, bar.value.size);
        ForcedStyle(w, bar.value.size);
        SizeNoPart(BarStyle(w), ToInt(ToWord(bar.value.size)), bar.value, m, enabled, guiSliderDragging,
                   guiSliderActive);
        var b := bar.value;
        var value := GuiScrollBar(b.bounds, b.value, b.minValue, b.maxValue, m, enabled);
        position := -value;
      }
    }

    method ReadListStyle() returns (ls: ListStyle)
      requires Valid()
      modifies style, style.guiStyle
      ensures style.guiStyleLoaded && Table() == old(Table()) && ls == ListStyleOf(Table())
    {
      hide Get, Defaults;
      var itemsHeight := style.GuiGetStyle(LISTVIEW, LIST_ITEMS_HEIGHT);
      var itemsSpacing := style.GuiGetStyle(LISTVIEW, LIST_ITEMS_SPACING);
      var border := style.GuiGetStyle(DEFAULT, BORDER_WIDTH);
      var listBorder := style.GuiGetStyle(LISTVIEW, BORDER_WIDTH);
      var scrollbarWidth := style.GuiGetStyle(LISTVIEW, SCROLLBAR_WIDTH);
      ls := ListStyle(itemsHeight, itemsSpacing, border, listBorder, scrollbarWidth);
    }

    /** The item under the mouse, searched from the top of the list. */
    static method FindItem(p: Point, first: Rectangle, step: int, visible: int) returns (hit: int)
      ensures hit == if visible > 0 then FirstHit(p, first, step, visible) else -1
    {
      var item, i := first, 0;
      while i < visible
        invariant visible > 0 ==> i <= visible
        invariant visible > 0 ==>
          var k := FirstHit(p, item, step, visible - i);
          FirstHit(p, first, step, visible) == if k < 0 then -1 else k + i
      {
        if Hits(p, item) {
          return i;
        }
        item := Below(item, step);
        i := i + 1;
      }
      hit := -1;
    }

    /**
     * One frame of a list view with `count` items. The scroll bar is used only when some item is not
     * visible, and with items of a positive height exactly then; the items drawn are consecutive and
     * exist; the bar gets the number of hidden items, at least one, both as its range and as its speed;
     * the start index returned leaves no gap.
     */
    method GuiListViewEx(bounds: Rectangle, hasText: bool, count: nat, scrollIndex: Option<int>,
                         active: Option<int>, focus: Option<int>, m: Mouse, enabled: bool)
      returns (scroll: int, selected: int, focused: int, drawn: seq<int>)
      requires Valid() && ListDefined(ListStyleOf(Table()), bounds, count)
      modifies this, style, style.guiStyle
      ensures style.guiStyleLoaded && Table() == old(Table())
      ensures
        var v := ListViewOf(ListStyleOf(old(Table())), bounds, count, scrollIndex, m,
                            enabled && !old(guiSliderDragging));
        && WellLaid(ListStyleOf(old(Table())), bounds, count, v)
        && |drawn| == (if hasText && v.visible > 0 then v.visible else 0)
        && (forall i :: 0 <= i < |drawn| ==> drawn[i] == v.shown + i && 0 <= drawn[i] < count)
        && draws == old(draws)
            + (if v.bar then [Draw(ScrollBar, ListBarTable(old(Table()), v.sliderSize, count - v.visible))] else [])
        && 0 <= scroll <= count - v.visible
        && (if v.bar then
              var st := BarStyle(ListBarTable(old(Table()), v.sliderSize, count - v.visible));
              && st.speed == count - v.visible >= 1
              && scroll == Scrolled(v.barBounds, st, v.shown, 0, count - v.visible, m, enabled,
                                    old(guiSliderDragging), old(guiSliderActive))
            else scroll == v.shown)
      ensures
        var v := ListViewOf(ListStyleOf(old(Table())), bounds, count, scrollIndex, m,
                            enabled && !old(guiSliderDragging));
        var was, had := if focus.Some? then focus.value else -1, if active.Some? then active.value else -1;
        if enabled && !old(guiSliderDragging) then
          && focused == FocusAfter(was, v.start, v.hit, Hits(m.position, bounds))
          && selected == ActiveAfter(had, v.start, v.hit, Hits(m.position, bounds), m.pressed)
        else focused == was && selected == had
    {
      hide Put, Get, Defaults, Scrolled, NextDragging, NextActive, LayoutOf, FirstHit, Hits, Trunc, TruncDiv,
        UsesScrollBar, VisibleItems, StartIndex, WheelStart, FocusAfter, ActiveAfter, FirstItem, ListSliderSize,
        ScrollBarBounds, BarStyle, ListStyleOf, ListBarTable;
      ghost var w := Table();
      ListWellLaid(ListStyleOf(w), bounds, count, scrollIndex, m, enabled && !guiSliderDragging);
      focused := if focus.Some? then focus.value else -1;
      selected := if active.Some? then active.value else -1;
      var ls := ReadListStyle();
      var step := ls.Step();
      var useScrollBar := UsesScrollBar(bounds.height, step, count);
      var visible := VisibleItems(bounds.height, step, count);
      var start := StartIndex(if scrollIndex.Some? then scrollIndex.value else 0, visible, count);
      if enabled && !guiSliderDragging {
        focused, selected, start := ListInput(bounds, ls, useScrollBar, start, visible, count, m, focused, selected);
      }
      drawn := [];
      if hasText {
        drawn := ItemsFrom(start, visible);
      }
      scroll := start;
      if useScrollBar {
        scroll := DrawListBar(bounds, ls, start, visible, count, m, enabled);
      }
    }

    /** The items drawn, from the first shown on. */
    static method ItemsFrom(start: int, visible: int) returns (drawn: seq<int>)
      ensures |drawn| == (if visible > 0 then visible else 0) && forall i :: 0 <= i < visible ==> drawn[i] == start + i
    {
      drawn := [];
      while |drawn| < visible
        invariant visible > 0 ==> |drawn| <= visible
        invariant visible <= 0 ==> drawn == []
        invariant forall j :: 0 <= j < |drawn| ==> drawn[j] == start + j
      {
        drawn := drawn + [start + |drawn|];
      }
    }

    /**
     * The input of a frame: hovering focuses an item, a press selects it or clears the selection, the wheel
     * scrolls.
     */
    static method ListInput(bounds: Rectangle, ls: ListStyle, useScrollBar: bool, start: int, visible: int, count: nat,
                            m: Mouse, focus: int, active: int)
      returns (focused: int, selected: int, shown: int)
      ensures
        var over := Hits(m.position, bounds);
        var first := FirstItem(bounds, ls, useScrollBar);
        var hit := if over && visible > 0 then FirstHit(m.position, first, ls.Step(), visible) else -1;
        && focused == FocusAfter(focus, start, hit, over)
        && selected == ActiveAfter(active, start, hit, over, m.pressed)
        && shown == if over && useScrollBar then WheelStart(start, m.wheel, visible, count) else start
    {
      focused, selected, shown := focus, active, start;
      if Hits(m.position, bounds) {
        var hit := FindItem(m.position, FirstItem(bounds, ls, useScrollBar), ls.Step(), visible);
        if hit >= 0 {
          focused := start + hit;
          if m.pressed {
            if active == start + hit {
              selected := -1;
            } else {
              selected := start + hit;
            }
          }
        }
        if useScrollBar {
          shown := start - Trunc(m.wheel);
          if shown < 0 {
            shown := 0;
          } else if shown > count - visible {
            shown := count - visible;
          }
        }
      } else {
        focused := -1;
      }
    }

    /** The scroll bar of a list view, drawn under a forced slider size and speed. */
    method DrawListBar(bounds: Rectangle, ls: ListStyle, start: int, visible: int, count: nat, m: Mouse, enabled: bool)
      returns (scroll: int)
      requires Valid() && style.guiStyleLoaded && 0 < count && visible < count && IsInt(count - visible)
      requires 0 <= start <= count - visible
      modifies this, style, style.guiStyle
      ensures style.guiStyleLoaded && Table() == old(Table())
      ensures
        var forced := ListBarTable(old(Table()), ListSliderSize(bounds.height, visible, count), count - visible);
        && draws == old(draws) + [Draw(ScrollBar, forced)]
        && BarStyle(forced).speed == count - visible
        && scroll == Scrolled(ScrollBarBounds(bounds, ls), BarStyle(forced), start, 0, count - visible, m, enabled,
                              old(guiSliderDragging), old(guiSliderActive))
      ensures 0 <= scroll <= count - visible
    {
      hide Put, Get, Defaults, Scrolled, NextDragging, NextActive, LayoutOf;
      ghost var w, dragging, active := Table(), guiSliderDragging, guiSliderActive;
      var sliderSize := ListSliderSize(bounds.height, visible, count);
      var prevSliderSize := style.GuiGetStyle(SCROLLBAR, SCROLL_SLIDER_SIZE);
      var prevScrollSpeed := style.GuiGetStyle(SCROLLBAR, SCROLL_SPEED);
      style.GuiSetStyle(SCROLLBAR, SCROLL_SLIDER_SIZE, sliderSize);
      style.GuiSetStyle(SCROLLBAR, SCROLL_SPEED, count - visible);
      ghost var forced := Table();
      ForcedSpeed(w, sliderSize, count - visible);
      scroll := GuiScrollBar(ScrollBarBounds(bounds, ls), start, 0, count - visible, m, enabled);
      ScrolledInRange(ScrollBarBounds(bounds, ls), BarStyle(forced), start, 0, count - visible, m, enabled, dragging,
                      active);
      style.GuiSetStyle(SCROLLBAR, SCROLL_SPEED, prevScrollSpeed);
      style.GuiSetStyle(SCROLLBAR, SCROLL_SLIDER_SIZE, prevSliderSize);
      RestoreTwo(w, SCROLLBAR, SCROLL_SLIDER_SIZE, sliderSize, SCROLL_SPEED, count - visible);
    }

    /** Any composite control, called once. */
    method DoCall(call: Call)
      requires Valid() && Callable(Table(), call)
      modifies this, style, style.guiStyle
      ensures style.guiStyleLoaded && Table() == old(Table())
      ensures draws == old(draws) + CallDraws(old(Table()), call)
    {
      hide Put, Get, Defaults, TooltipDraws, WindowBoxDraws, TabBarDraws, ScrollPanelDraws, SpinnerDraws,
        MessageBoxDraws, TextInputBoxDraws, LeafDraws, Centred, Scrolled, NextDragging, FirstHit, Hits, ListBarTable,
        VisibleItems;
      match call
      case Tooltip => GuiTooltip();
      case WindowBox(closeTip) => GuiWindowBox(closeTip);
      case TabBar(tabs) => GuiTabBar(tabs);
      case ScrollPanel(panel) =>
        var _, _, _ := GuiScrollPanel(panel);
      case ComboBox(tip) => GuiComboBox(tip);
      case Spinner(leftTip, rightTip) => GuiSpinner(leftTip, rightTip);
      case ListView(bounds, hasText, count, scrollIndex, active, focus, m, enabled) =>
        var _, _, _, _ := GuiListViewEx(bounds, hasText, count, scrollIndex, active, focus, m, enabled);
      case MessageBox(closeTip, tips) => GuiMessageBox(closeTip, tips);
      case TextInputBox(closeTip, message, textTip, secret, tips) =>
        GuiTextInputBox(closeTip, message, textTip, secret, tips);
    }

    /**
     * Any sequence of composite controls leaves a loaded style table exactly as it found it, and one
     * not loaded yet as the default style makes it. All they draw is in the user's style but for the
     * forced properties.
     */
    method DrawFrame(calls: seq<Call>)
      requires Valid() && forall k :: 0 <= k < |calls| ==> Callable(Table(), calls[k])
      modifies this, style, style.guiStyle
      ensures Table() == old(Table()) && (style.guiStyleLoaded <==> old(style.guiStyleLoaded) || calls != [])
      ensures old(style.guiStyleLoaded) ==> style.Words() == old(style.Words())
      ensures draws == old(draws) + AllDraws(old(Table()), calls)
      ensures Faithful(draws[|old(draws)|..], old(Table()))
    {
      hide Callable, CallDraws, Near, Get, Faithful, Defaults, AllDraws;
      ghost var w := Table();
      NothingDrawn(w);
      for i := 0 to |calls|
        invariant Table() == w && (style.guiStyleLoaded <==> old(style.guiStyleLoaded) || i > 0)
        invariant draws == old(draws) + AllDraws(w, calls[..i])
      {
        DoCall(calls[i]);
        OneMoreDrawn(w, calls, i);
      }
      assert calls[..|calls|] == calls;
      FrameFaithful(w, calls);
      assert draws[|old(draws)|..] == AllDraws(w, calls);
    }
  }
}
