/**
 * What the composite controls of ext/raygui.h draw, and under which style table: each forces a few
 * properties on the controls it is made of.
 */
module Drawing {
  import opened RealArith
  import opened CTypes
  import opened Style
  import opened ScrollGeometry
  import opened ListGeometry
  import opened PanelGeometry

  /** Controls that only draw. */
  datatype Leaf = StatusBar | Panel | Label | Button | Toggle | TextBox | ValueBox | ScrollBar

  datatype Draw = Draw(leaf: Leaf, words: Words)

  // ----- What is drawn -----

  function Centred(w: Words): Words {
    Put(Put(w, BUTTON, BORDER_WIDTH, 1), BUTTON, TEXT_ALIGNMENT, TEXT_ALIGN_CENTER)
  }

  function TooltipText(w: Words): Words {
    Put(Put(w, LABEL, TEXT_PADDING, 0), LABEL, TEXT_ALIGNMENT, TEXT_ALIGN_CENTER)
  }

  function TabText(w: Words): Words {
    Put(Put(w, TOGGLE, TEXT_ALIGNMENT, TEXT_ALIGN_LEFT), TOGGLE, TEXT_PADDING, 8)
  }

  function TooltipDraws(w: Words): seq<Draw> {
    [Draw(Panel, w), Draw(Label, TooltipText(w))]
  }

  /** A control that shows a tooltip when hovered; `tip` says whether it does in this frame. */
  function LeafDraws(leaf: Leaf, w: Words, tip: bool): seq<Draw> {
    [Draw(leaf, w)] + (if tip then TooltipDraws(w) else [])
  }

  function ButtonRow(w: Words, tips: seq<bool>): seq<Draw> {
    if tips == [] then [] else ButtonRow(w, tips[..|tips| - 1]) + LeafDraws(Button, w, tips[|tips| - 1])
  }

  function WindowBoxDraws(w: Words, tip: bool): seq<Draw> {
    [Draw(StatusBar, w), Draw(Panel, w)] + LeafDraws(Button, Centred(w), tip)
  }

  /** A tab on screen: its toggle and its close button. */
  datatype Tab = Tab(toggleTip: bool, closeTip: bool)

  function TabDraws(w: Words, tab: Tab): seq<Draw> {
    LeafDraws(Toggle, TabText(w), tab.toggleTip) + LeafDraws(Button, Centred(w), tab.closeTip)
  }

  function TabBarDraws(w: Words, tabs: seq<Tab>): seq<Draw> {
    if tabs == [] then [] else TabBarDraws(w, tabs[..|tabs| - 1]) + TabDraws(w, tabs[|tabs| - 1])
  }

  function BarDraws(w: Words, bar: Option<Bar>): seq<Draw> {
    match bar
    case None => []
    case Some(b) => [Draw(ScrollBar, Put(w, SCROLLBAR, SCROLL_SLIDER_SIZE, b.size))]
  }

  function ScrollPanelDraws(w: Words, header: bool, bars: Bars): seq<Draw> {
    (if header then [Draw(StatusBar, w)] else []) + BarDraws(w, bars.horizontal) + BarDraws(w, bars.vertical)
  }

  function SpinnerDraws(w: Words, leftTip: bool, rightTip: bool): seq<Draw> {
    LeafDraws(Button, w, leftTip) + LeafDraws(Button, w, rightTip) + [Draw(ValueBox, w)]
  }

  function CentredLabel(w: Words): seq<Draw> {
    [Draw(Label, Put(w, LABEL, TEXT_ALIGNMENT, TEXT_ALIGN_CENTER))]
  }

  function MessageBoxDraws(w: Words, closeTip: bool, tips: seq<bool>): seq<Draw> {
    WindowBoxDraws(w, closeTip) + CentredLabel(w) + ButtonRow(Put(w, BUTTON, TEXT_ALIGNMENT, TEXT_ALIGN_CENTER), tips)
  }

  /** `secret` is the toggle beside the text box, with its tooltip, if there is one. */
  function TextInputBoxDraws(w: Words, closeTip: bool, message: bool, textTip: bool, secret: Option<bool>,
                             tips: seq<bool>): seq<Draw> {
    WindowBoxDraws(w, closeTip)
    + (if message then CentredLabel(w) else [])
    + LeafDraws(TextBox, w, textTip)
    + (match secret case None => [] case Some(tip) => LeafDraws(Toggle, w, tip))
    + ButtonRow(Put(w, BUTTON, TEXT_ALIGNMENT, TEXT_ALIGN_CENTER), tips)
  }

  /** The table under which a list view draws its scroll bar. */
  function ListBarTable(w: Words, sliderSize: int, range: int): Words {
    Put(Put(w, SCROLLBAR, SCROLL_SLIDER_SIZE, sliderSize), SCROLLBAR, SCROLL_SPEED, range)
  }

  function BarStyle(w: Words): ScrollStyle {
    ScrollStyle(Get(w, SCROLLBAR, ARROWS_VISIBLE), Get(w, SCROLLBAR, BORDER_WIDTH),
                Get(w, SCROLLBAR, SCROLL_SLIDER_SIZE), Get(w, SCROLLBAR, SCROLL_PADDING),
                Get(w, SCROLLBAR, SCROLL_SLIDER_PADDING), Get(w, SCROLLBAR, SCROLL_SPEED))
  }

  function ListStyleOf(w: Words): ListStyle {
    ListStyle(Get(w, LISTVIEW, LIST_ITEMS_HEIGHT), Get(w, LISTVIEW, LIST_ITEMS_SPACING), Get(w, DEFAULT, BORDER_WIDTH),
              Get(w, LISTVIEW, BORDER_WIDTH), Get(w, LISTVIEW, SCROLLBAR_WIDTH))
  }

  // ----- Scroll panels -----

  function PanelStyleOf(w: Words): PanelStyle {
    PanelStyle(Get(w, DEFAULT, BORDER_WIDTH), Get(w, LISTVIEW, SCROLLBAR_WIDTH),
               Get(w, LISTVIEW, SCROLLBAR_SIDE) == SCROLLBAR_LEFT_SIDE)
  }

  /** The divisions of a panel's bar are defined; the slider size forced for it has no part in that. */
  predicate BarDefined(w: Words, bar: Option<Bar>, m: Mouse, enabled: bool, dragging: bool) {
    match bar
    case None => true
    case Some(b) => Defined(b.bounds, BarStyle(w), b.minValue, b.maxValue, m, enabled, dragging)
  }

  function DraggingAfter(w: Words, bar: Option<Bar>, m: Mouse, enabled: bool, dragging: bool): bool {
    match bar case None => dragging case Some(b) => NextDragging(b.bounds, BarStyle(w), m, enabled, dragging)
  }

  function DraggedAfter(w: Words, bar: Option<Bar>, m: Mouse, enabled: bool, dragging: bool,
                        active: Rectangle): Rectangle {
    match bar case None => active case Some(b) => NextActive(b.bounds, BarStyle(w), m, enabled, dragging, active)
  }

  /** The bars are used one after the other. */
  predicate BarsDefined(w: Words, bars: Bars, m: Mouse, enabled: bool, dragging: bool) {
    && BarDefined(w, bars.horizontal, m, enabled, dragging)
    && BarDefined(w, bars.vertical, m, enabled, DraggingAfter(w, bars.horizontal, m, enabled, dragging))
  }

  /** The position a bar leaves its direction at: minus its value, or the start if there is no bar. */
  function PositionAfter(w: Words, bar: Option<Bar>, m: Mouse, enabled: bool, dragging: bool, active: Rectangle): int
    requires BarDefined(w, bar, m, enabled, dragging)
  {
    match bar
    case None => 0
    case Some(b) =>
      -Scrolled(b.bounds, BarStyle(w).(sliderSize := ToInt(ToWord(b.size))), b.value, b.minValue, b.maxValue, m,
                enabled, dragging, active)
  }

  /** The position a bar leaves is within its range. */
  lemma PositionInRange(w: Words, b: Bar, m: Mouse, enabled: bool, dragging: bool, active: Rectangle)
    requires b.minValue < b.maxValue && BarDefined(w, Some(b), m, enabled, dragging)
    ensures -b.maxValue <= PositionAfter(w, Some(b), m, enabled, dragging, active) <= -b.minValue
  {
    hide BarStyle, Hits, Scrolled;
    ScrolledInRange(b.bounds, BarStyle(w).(sliderSize := ToInt(ToWord(b.size))), b.value, b.minValue, b.maxValue,
                    m, enabled, dragging, active);
  }

  /** A forced slider size is all a bar's style differs in. */
  lemma ForcedStyle(w: Words, size: int)
    ensures BarStyle(Put(w, SCROLLBAR, SCROLL_SLIDER_SIZE, size)) == BarStyle(w).(sliderSize := ToInt(ToWord(size)))
  {
    hide Put, Get;
    GetAfterPut(w, SCROLLBAR, SCROLL_SLIDER_SIZE, size, SCROLLBAR, ARROWS_VISIBLE);
    GetAfterPut(w, SCROLLBAR, SCROLL_SLIDER_SIZE, size, SCROLLBAR, BORDER_WIDTH);
    GetAfterPut(w, SCROLLBAR, SCROLL_SLIDER_SIZE, size, SCROLLBAR, SCROLL_SLIDER_SIZE);
    GetAfterPut(w, SCROLLBAR, SCROLL_SLIDER_SIZE, size, SCROLLBAR, SCROLL_PADDING);
    GetAfterPut(w, SCROLLBAR, SCROLL_SLIDER_SIZE, size, SCROLLBAR, SCROLL_SLIDER_PADDING);
    GetAfterPut(w, SCROLLBAR, SCROLL_SLIDER_SIZE, size, SCROLLBAR, SCROLL_SPEED);
  }

  /** What the arithmetic of a panel asks for. */
  predicate PanelDefined(w: Words, p: PanelCall, dragging: bool) {
    && Measurable(p.Box(), p.content, PanelStyleOf(w))
    && BarsDefined(w, p.Bars(w), p.m, p.enabled, dragging)
  }

  /** A scroll panel called: its arguments and its input. `sideways` says whether a key turns the wheel sideways. */
  datatype PanelCall = PanelCall(bounds: Rectangle, header: bool, content: Rectangle, scroll: Point, m: Mouse,
                                 enabled: bool, sideways: bool)
  {
    function Box(): Rectangle {
      BoxOf(bounds, header)
    }

    function Bars(w: Words): Bars
      requires Measurable(Box(), content, PanelStyleOf(w))
    {
      BarsOf(Box(), content, PanelStyleOf(w), scroll, m, enabled, sideways)
    }
  }

  // ----- Whole frames -----

  /** A composite control called in a frame, with what its input comes to. */
  datatype Call =
    | Tooltip
    | WindowBox(closeTip: bool)
    | TabBar(tabs: seq<Tab>)
    | ScrollPanel(panel: PanelCall)
    | ComboBox(tip: bool)
    | Spinner(leftTip: bool, rightTip: bool)
    | ListView(bounds: Rectangle, hasText: bool, count: nat, scrollIndex: Option<int>,
               active: Option<int>, focus: Option<int>, m: Mouse, enabled: bool)
    | MessageBox(closeTip: bool, tips: seq<bool>)
    | TextInputBox(closeTip: bool, message: bool, textTip: bool, secret: Option<bool>, tips: seq<bool>)

  /** What the arithmetic of panels and lists asks of a call, whether or not a slider is being dragged. */
  predicate Callable(w: Words, call: Call) {
    match call
    case ScrollPanel(p) => PanelDefined(w, p, true) && PanelDefined(w, p, false)
    case ListView(bounds, _, count, _, _, _, _, _) => ListDefined(ListStyleOf(w), bounds, count)
    case _ => true
  }

  function CallDraws(w: Words, call: Call): seq<Draw>
    requires Callable(w, call)
  {
    match call
    case Tooltip => TooltipDraws(w)
    case WindowBox(closeTip) => WindowBoxDraws(w, closeTip)
    case TabBar(tabs) => TabBarDraws(w, tabs)
    case ScrollPanel(p) => ScrollPanelDraws(w, p.header, p.Bars(w))
    case ComboBox(tip) => LeafDraws(Button, Centred(w), tip)
    case Spinner(leftTip, rightTip) => SpinnerDraws(w, leftTip, rightTip)
    case ListView(bounds, _, count, scrollIndex, _, _, m, _) =>
      var v := ListViewOf(ListStyleOf(w), bounds, count, scrollIndex, m, false);
      if v.bar then [Draw(ScrollBar, ListBarTable(w, v.sliderSize, count - v.visible))] else []
    case MessageBox(closeTip, tips) => MessageBoxDraws(w, closeTip, tips)
    case TextInputBox(closeTip, message, textTip, secret, tips) =>
      TextInputBoxDraws(w, closeTip, message, textTip, secret, tips)
  }

  function AllDraws(w: Words, calls: seq<Call>): seq<Draw>
    requires forall k :: 0 <= k < |calls| ==> Callable(w, calls[k])
  {
    if calls == [] then [] else AllDraws(w, calls[..|calls| - 1]) + CallDraws(w, calls[|calls| - 1])
  }

  /** The properties composite controls force. */
  predicate Forced(c: ControlId, p: PropertyId) {
    || (c == BUTTON && (p == BORDER_WIDTH || p == TEXT_ALIGNMENT))
    || (c == TOGGLE && (p == TEXT_ALIGNMENT || p == TEXT_PADDING))
    || (c == LABEL && (p == TEXT_ALIGNMENT || p == TEXT_PADDING))
    || (c == SCROLLBAR && (p == SCROLL_SLIDER_SIZE || p == SCROLL_SPEED))
  }

  /** A table that differs from w in forced properties only. */
  ghost predicate Near(u: Words, w: Words) {
    forall c: ControlId, p: PropertyId :: !Forced(c, p) ==> Get(u, c, p) == Get(w, c, p)
  }

  /** Everything is drawn in the user's style but for forced properties, and labels are centred. */
  ghost predicate Faithful(ds: seq<Draw>, w: Words) {
    forall k :: 0 <= k < |ds| ==>
      Near(ds[k].words, w) && (ds[k].leaf.Label? ==> Get(ds[k].words, LABEL, TEXT_ALIGNMENT) == TEXT_ALIGN_CENTER)
  }

  lemma NearPut(u: Words, w: Words, c: ControlId, p: PropertyId, v: int)
    requires Near(u, w) && Forced(c, p)
    ensures Near(Put(u, c, p, v), w)
  {
    forall d: ControlId, q: PropertyId | !Forced(d, q)
      ensures Get(Put(u, c, p, v), d, q) == Get(w, d, q)
    {
      GetAfterPut(u, c, p, v, d, q);
    }
  }

  lemma LabelCentred(u: Words)
    ensures Get(Put(u, LABEL, TEXT_ALIGNMENT, TEXT_ALIGN_CENTER), LABEL, TEXT_ALIGNMENT) == TEXT_ALIGN_CENTER
  {
    GetAfterPut(u, LABEL, TEXT_ALIGNMENT, TEXT_ALIGN_CENTER, LABEL, TEXT_ALIGNMENT);
  }

  lemma LeafFaithful(leaf: Leaf, u: Words, w: Words, tip: bool)
    requires Near(u, w) && !leaf.Label?
    ensures Faithful(LeafDraws(leaf, u, tip), w)
  {
    hide Put, Get, Near, Forced;
    NearPadding(u, w);
  }

  lemma NearPadding(u: Words, w: Words)
    requires Near(u, w)
    ensures Near(TooltipText(u), w) && Get(TooltipText(u), LABEL, TEXT_ALIGNMENT) == TEXT_ALIGN_CENTER
  {
    var padded := Put(u, LABEL, TEXT_PADDING, 0);
    assert Forced(LABEL, TEXT_PADDING) && Forced(LABEL, TEXT_ALIGNMENT);
    hide Put, Get, Near;
    NearPut(u, w, LABEL, TEXT_PADDING, 0);
    NearPut(padded, w, LABEL, TEXT_ALIGNMENT, TEXT_ALIGN_CENTER);
    LabelCentred(padded);
  }

  lemma NearForced(w: Words)
    ensures Near(w, w) && Near(Centred(w), w) && Near(TabText(w), w)
    ensures Near(Put(w, BUTTON, TEXT_ALIGNMENT, TEXT_ALIGN_CENTER), w)
    ensures Near(Put(w, LABEL, TEXT_ALIGNMENT, TEXT_ALIGN_CENTER), w)
    ensures forall size {:trigger Put(w, SCROLLBAR, SCROLL_SLIDER_SIZE, size)} ::
      Near(Put(w, SCROLLBAR, SCROLL_SLIDER_SIZE, size), w)
  {
    assert Near(w, w);
    assert Forced(BUTTON, BORDER_WIDTH) && Forced(BUTTON, TEXT_ALIGNMENT) && Forced(TOGGLE, TEXT_ALIGNMENT)
      && Forced(TOGGLE, TEXT_PADDING) && Forced(LABEL, TEXT_ALIGNMENT) && Forced(SCROLLBAR, SCROLL_SLIDER_SIZE);
    hide Put, Get, Near, Forced;
    NearPut(w, w, BUTTON, BORDER_WIDTH, 1);
    NearPut(Put(w, BUTTON, BORDER_WIDTH, 1), w, BUTTON, TEXT_ALIGNMENT, TEXT_ALIGN_CENTER);
    NearPut(w, w, TOGGLE, TEXT_ALIGNMENT, TEXT_ALIGN_LEFT);
    NearPut(Put(w, TOGGLE, TEXT_ALIGNMENT, TEXT_ALIGN_LEFT), w, TOGGLE, TEXT_PADDING, 8);
    NearPut(w, w, BUTTON, TEXT_ALIGNMENT, TEXT_ALIGN_CENTER);
    NearPut(w, w, LABEL, TEXT_ALIGNMENT, TEXT_ALIGN_CENTER);
    forall size
      ensures Near(Put(w, SCROLLBAR, SCROLL_SLIDER_SIZE, size), w)
    {
      NearPut(w, w, SCROLLBAR, SCROLL_SLIDER_SIZE, size);
    }
  }

  lemma NearListBar(w: Words, size: int, range: int)
    ensures Near(ListBarTable(w, size, range), w)
  {
    NearForced(w);
    assert Forced(SCROLLBAR, SCROLL_SPEED);
    hide Put, Get, Near, Forced;
    NearPut(Put(w, SCROLLBAR, SCROLL_SLIDER_SIZE, size), w, SCROLLBAR, SCROLL_SPEED, range);
  }

  lemma FaithfulConcat(ds: seq<Draw>, es: seq<Draw>, w: Words)
    requires Faithful(ds, w) && Faithful(es, w)
    ensures Faithful(ds + es, w)
  {
    hide Near, Get;
  }

  lemma FaithfulOne(leaf: Leaf, u: Words, w: Words)
    requires Near(u, w) && (leaf.Label? ==> Get(u, LABEL, TEXT_ALIGNMENT) == TEXT_ALIGN_CENTER)
    ensures Faithful([Draw(leaf, u)], w) && Faithful([], w)
  {
    hide Near, Get;
  }

  lemma {:induction false} RowFaithful(u: Words, w: Words, tips: seq<bool>)
    requires Near(u, w)
    ensures Faithful(ButtonRow(u, tips), w)
  {
    hide Near, Get, Faithful, LeafDraws;
    if tips == [] {
      FaithfulOne(Button, u, w);
    } else {
      RowFaithful(u, w, tips[..|tips| - 1]);
      LeafFaithful(Button, u, w, tips[|tips| - 1]);
      FaithfulConcat(ButtonRow(u, tips[..|tips| - 1]), LeafDraws(Button, u, tips[|tips| - 1]), w);
    }
  }

  lemma {:induction false} TabsFaithful(w: Words, tabs: seq<Tab>)
    ensures Faithful(TabBarDraws(w, tabs), w)
  {
    hide Near, Get, Faithful, LeafDraws, Centred, TabText;
    NearForced(w);
    if tabs == [] {
      FaithfulOne(Button, w, w);
    } else {
      var tab := tabs[|tabs| - 1];
      TabsFaithful(w, tabs[..|tabs| - 1]);
      LeafFaithful(Toggle, TabText(w), w, tab.toggleTip);
      LeafFaithful(Button, Centred(w), w, tab.closeTip);
      FaithfulConcat(LeafDraws(Toggle, TabText(w), tab.toggleTip), LeafDraws(Button, Centred(w), tab.closeTip), w);
      FaithfulConcat(TabBarDraws(w, tabs[..|tabs| - 1]), TabDraws(w, tab), w);
    }
  }

  lemma WindowFaithful(w: Words, tip: bool)
    ensures Faithful(WindowBoxDraws(w, tip), w)
  {
    hide Near, Get, Faithful, LeafDraws, Centred;
    NearForced(w);
    FaithfulOne(StatusBar, w, w);
    FaithfulOne(Panel, w, w);
    LeafFaithful(Button, Centred(w), w, tip);
    FaithfulConcat([Draw(StatusBar, w)], [Draw(Panel, w)], w);
    assert [Draw(StatusBar, w)] + [Draw(Panel, w)] == [Draw(StatusBar, w), Draw(Panel, w)];
    FaithfulConcat([Draw(StatusBar, w), Draw(Panel, w)], LeafDraws(Button, Centred(w), tip), w);
  }

  lemma LabelFaithful(w: Words)
    ensures Faithful(CentredLabel(w), w)
  {
    NearForced(w);
    LabelCentred(w);
    hide Near, Get, Faithful;
    FaithfulOne(Label, Put(w, LABEL, TEXT_ALIGNMENT, TEXT_ALIGN_CENTER), w);
  }

  lemma BarFaithful(w: Words, bar: Option<Bar>)
    ensures Faithful(BarDraws(w, bar), w)
  {
    hide Near, Get, Faithful, Put;
    NearForced(w);
    FaithfulOne(ScrollBar, w, w);
    if bar.Some? { FaithfulOne(ScrollBar, Put(w, SCROLLBAR, SCROLL_SLIDER_SIZE, bar.value.size), w); }
  }

  /**
   * Whatever composite controls a frame nests, each control is drawn in the user's own style but
   * for the few properties its parent forces, and every label they draw is centred.
   */
  lemma CallFaithful(w: Words, call: Call)
    requires Callable(w, call)
    ensures Faithful(CallDraws(w, call), w)
  {
    hide Near, Get, Faithful, Put, LeafDraws, Centred, WindowBoxDraws, CentredLabel, ButtonRow, TabBarDraws, BarDraws,
      ListViewOf;
    NearForced(w);
    FaithfulOne(Panel, w, w);
    match call
    case Tooltip =>
      NearPadding(w, w);
      FaithfulOne(Label, TooltipText(w), w);
      FaithfulConcat([Draw(Panel, w)], [Draw(Label, TooltipText(w))], w);
      assert [Draw(Panel, w)] + [Draw(Label, TooltipText(w))] == TooltipDraws(w);
    case WindowBox(closeTip) => WindowFaithful(w, closeTip);
    case TabBar(tabs) => TabsFaithful(w, tabs);
    case ScrollPanel(p) =>
      var bars := p.Bars(w);
      FaithfulOne(StatusBar, w, w);
      BarFaithful(w, bars.horizontal);
      BarFaithful(w, bars.vertical);
      var head := if p.header then [Draw(StatusBar, w)] else [];
      FaithfulConcat(head, BarDraws(w, bars.horizontal), w);
      FaithfulConcat(head + BarDraws(w, bars.horizontal), BarDraws(w, bars.vertical), w);
    case ComboBox(tip) => LeafFaithful(Button, Centred(w), w, tip);
    case Spinner(leftTip, rightTip) =>
      LeafFaithful(Button, w, w, leftTip);
      LeafFaithful(Button, w, w, rightTip);
      FaithfulOne(ValueBox, w, w);
      FaithfulConcat(LeafDraws(Button, w, leftTip), LeafDraws(Button, w, rightTip), w);
      FaithfulConcat(LeafDraws(Button, w, leftTip) + LeafDraws(Button, w, rightTip), [Draw(ValueBox, w)], w);
    case ListView(bounds, _, count, scrollIndex, _, _, m, _) =>
      var v := ListViewOf(ListStyleOf(w), bounds, count, scrollIndex, m, false);
      NearListBar(w, v.sliderSize, count - v.visible);
      FaithfulOne(ScrollBar, ListBarTable(w, v.sliderSize, count - v.visible), w);
    case MessageBox(closeTip, tips) =>
      WindowFaithful(w, closeTip);
      LabelFaithful(w);
      RowFaithful(Put(w, BUTTON, TEXT_ALIGNMENT, TEXT_ALIGN_CENTER), w, tips);
      FaithfulConcat(WindowBoxDraws(w, closeTip), CentredLabel(w), w);
      FaithfulConcat(WindowBoxDraws(w, closeTip) + CentredLabel(w),
                     ButtonRow(Put(w, BUTTON, TEXT_ALIGNMENT, TEXT_ALIGN_CENTER), tips), w);
    case TextInputBox(closeTip, message, textTip, secret, tips) =>
      InputBoxFaithful(w, closeTip, message, textTip, secret, tips);
  }

  lemma InputBoxFaithful(w: Words, closeTip: bool, message: bool, textTip: bool, secret: Option<bool>, tips: seq<bool>)
    ensures Faithful(TextInputBoxDraws(w, closeTip, message, textTip, secret, tips), w)
  {
    hide Near, Get, Faithful, Put, LeafDraws, WindowBoxDraws, CentredLabel, ButtonRow;
    NearForced(w);
    FaithfulOne(Panel, w, w);
    WindowFaithful(w, closeTip);
    LabelFaithful(w);
    LeafFaithful(TextBox, w, w, textTip);
    RowFaithful(Put(w, BUTTON, TEXT_ALIGNMENT, TEXT_ALIGN_CENTER), w, tips);
    var caption := if message then CentredLabel(w) else [];
    var toggle := match secret case None => [] case Some(tip) => LeafDraws(Toggle, w, tip);
    if secret.Some? { LeafFaithful(Toggle, w, w, secret.value); }
    FaithfulConcat(WindowBoxDraws(w, closeTip), caption, w);
    FaithfulConcat(WindowBoxDraws(w, closeTip) + caption, LeafDraws(TextBox, w, textTip), w);
    FaithfulConcat(WindowBoxDraws(w, closeTip) + caption + LeafDraws(TextBox, w, textTip), toggle, w);
    FaithfulConcat(WindowBoxDraws(w, closeTip) + caption + LeafDraws(TextBox, w, textTip) + toggle,
                   ButtonRow(Put(w, BUTTON, TEXT_ALIGNMENT, TEXT_ALIGN_CENTER), tips), w);
  }

  lemma NothingDrawn(w: Words)
    ensures AllDraws(w, []) == []
  {
  }

  lemma OneMoreDrawn(w: Words, calls: seq<Call>, i: nat)
    requires i < |calls| && forall k :: 0 <= k < |calls| ==> Callable(w, calls[k])
    ensures AllDraws(w, calls[..i + 1]) == AllDraws(w, calls[..i]) + CallDraws(w, calls[i])
  {
    hide Callable, CallDraws;
    assert calls[..i + 1][..i] == calls[..i];
  }

  lemma {:induction false} FrameFaithful(w: Words, calls: seq<Call>)
    requires forall k :: 0 <= k < |calls| ==> Callable(w, calls[k])
    ensures Faithful(AllDraws(w, calls), w)
  {
    hide Callable, CallDraws, Near, Get, Faithful;
    if calls == [] {
      NearForced(w);
      FaithfulOne(Panel, w, w);
    } else {
      FrameFaithful(w, calls[..|calls| - 1]);
      CallFaithful(w, calls[|calls| - 1]);
      FaithfulConcat(AllDraws(w, calls[..|calls| - 1]), CallDraws(w, calls[|calls| - 1]), w);
    }
  }
}
