/** Which controls the composite controls of ext/raygui.h are made of, and what each of these reads when drawn. */
module DrawingLaws {
  import opened CTypes
  import opened Style
  import opened ScrollGeometry
  import opened ListGeometry
  import opened PanelGeometry
  import opened Drawing

  // ----- What is drawn, in order -----

  function Leaves(ds: seq<Draw>): seq<Leaf> {
    seq(|ds|, k requires 0 <= k < |ds| => ds[k].leaf)
  }

  /** A control, and the panel and label of its tooltip. */
  function WithTip(leaf: Leaf, tip: bool): seq<Leaf> {
    if tip then [leaf, Panel, Label] else [leaf]
  }

  function TipRow(tips: seq<bool>): seq<Leaf> {
    if tips == [] then [] else TipRow(tips[..|tips| - 1]) + WithTip(Button, tips[|tips| - 1])
  }

  function TabRow(tabs: seq<Tab>): seq<Leaf> {
    if tabs == [] then []
    else
      var tab := tabs[|tabs| - 1];
      TabRow(tabs[..|tabs| - 1]) + WithTip(Toggle, tab.toggleTip) + WithTip(Button, tab.closeTip)
  }

  function Window(closeTip: bool): seq<Leaf> {
    [StatusBar, Panel] + WithTip(Button, closeTip)
  }

  function BarLeaf(shown: bool): seq<Leaf> {
    if shown then [ScrollBar] else []
  }

  /** The parts of every composite control. */
  function Parts(w: Words, call: Call): seq<Leaf>
    requires Callable(w, call)
  {
    match call
    case Tooltip => [Panel, Label]
    case WindowBox(closeTip) => Window(closeTip)
    case TabBar(tabs) => TabRow(tabs)
    case ScrollPanel(p) =>
      (if p.header then [StatusBar] else [])
      + BarLeaf(HasHorizontal(p.Box(), p.content, PanelStyleOf(w)))
      + BarLeaf(HasVertical(p.Box(), p.content, PanelStyleOf(w)))
    case ComboBox(tip) => WithTip(Button, tip)
    case Spinner(leftTip, rightTip) => WithTip(Button, leftTip) + WithTip(Button, rightTip) + [ValueBox]
    case ListView(bounds, _, count, _, _, _, _, _) =>
      BarLeaf(UsesScrollBar(bounds.height, ListStyleOf(w).Step(), count))
    case MessageBox(closeTip, tips) => Window(closeTip) + [Label] + TipRow(tips)
    case TextInputBox(closeTip, message, textTip, secret, tips) =>
      Window(closeTip) + (if message then [Label] else []) + WithTip(TextBox, textTip)
      + (match secret case None => [] case Some(tip) => WithTip(Toggle, tip)) + TipRow(tips)
  }

  lemma LeavesConcat(ds: seq<Draw>, es: seq<Draw>)
    ensures Leaves(ds + es) == Leaves(ds) + Leaves(es)
  {
  }

  lemma LeafLeaves(leaf: Leaf, w: Words, tip: bool)
    ensures Leaves(LeafDraws(leaf, w, tip)) == WithTip(leaf, tip)
  {
    hide TooltipText;
  }

  lemma {:induction false} RowLeaves(w: Words, tips: seq<bool>)
    ensures Leaves(ButtonRow(w, tips)) == TipRow(tips)
  {
    hide Leaves, LeafDraws, WithTip;
    if tips == [] {
      NoLeaves();
    } else {
      var init := tips[..|tips| - 1];
      RowLeaves(w, init);
      LeafLeaves(Button, w, tips[|tips| - 1]);
      LeavesConcat(ButtonRow(w, init), LeafDraws(Button, w, tips[|tips| - 1]));
    }
  }

  lemma NoLeaves()
    ensures Leaves([]) == []
  {
  }

  lemma OneLeaf(leaf: Leaf, w: Words)
    ensures Leaves([Draw(leaf, w)]) == [leaf]
  {
  }

  lemma {:induction false} TabLeaves(w: Words, tabs: seq<Tab>)
    ensures Leaves(TabBarDraws(w, tabs)) == TabRow(tabs)
  {
    hide Leaves, LeafDraws, WithTip, TabText, Centred;
    if tabs == [] {
      NoLeaves();
    } else {
      var init, tab := tabs[..|tabs| - 1], tabs[|tabs| - 1];
      TabLeaves(w, init);
      LeafLeaves(Toggle, TabText(w), tab.toggleTip);
      LeafLeaves(Button, Centred(w), tab.closeTip);
      LeavesConcat(LeafDraws(Toggle, TabText(w), tab.toggleTip), LeafDraws(Button, Centred(w), tab.closeTip));
      LeavesConcat(TabBarDraws(w, init), TabDraws(w, tab));
    }
  }

  lemma WindowLeaves(w: Words, tip: bool)
    ensures Leaves(WindowBoxDraws(w, tip)) == Window(tip)
  {
    hide LeafDraws, WithTip, Centred;
    LeafLeaves(Button, Centred(w), tip);
    LeavesConcat([Draw(StatusBar, w), Draw(Panel, w)], LeafDraws(Button, Centred(w), tip));
  }

  lemma BarLeaves(w: Words, bar: Option<Bar>)
    ensures Leaves(BarDraws(w, bar)) == BarLeaf(bar.Some?)
  {
    hide Put;
  }

  /** Every composite control draws exactly its parts, in order. */
  lemma CallParts(w: Words, call: Call)
    requires Callable(w, call)
    ensures Leaves(CallDraws(w, call)) == Parts(w, call)
  {
    hide Leaves, LeafDraws, WithTip, Centred, WindowBoxDraws, ButtonRow, TabBarDraws, BarDraws, TipRow, TabRow, Window,
      BarLeaf, Put, Get, TooltipText, HasHorizontal, HasVertical, UsesScrollBar, FirstHit, BarsDefined, Defined;
    NoLeaves();
    match call
    case Tooltip =>
      LeavesConcat([Draw(Panel, w)], [Draw(Label, TooltipText(w))]);
      OneLeaf(Panel, w);
      OneLeaf(Label, TooltipText(w));
      assert [Draw(Panel, w)] + [Draw(Label, TooltipText(w))] == TooltipDraws(w);
    case WindowBox(closeTip) => WindowLeaves(w, closeTip);
    case TabBar(tabs) => TabLeaves(w, tabs);
    case ScrollPanel(p) => PanelParts(w, p);
    case ComboBox(tip) => LeafLeaves(Button, Centred(w), tip);
    case Spinner(leftTip, rightTip) =>
      LeafLeaves(Button, w, leftTip);
      LeafLeaves(Button, w, rightTip);
      OneLeaf(ValueBox, w);
      LeavesConcat(LeafDraws(Button, w, leftTip), LeafDraws(Button, w, rightTip));
      LeavesConcat(LeafDraws(Button, w, leftTip) + LeafDraws(Button, w, rightTip), [Draw(ValueBox, w)]);
    case ListView(bounds, _, count, scrollIndex, _, _, m, _) =>
      var v := ListViewOf(ListStyleOf(w), bounds, count, scrollIndex, m, false);
      OneLeaf(ScrollBar, ListBarTable(w, v.sliderSize, count - v.visible));
      OneOrNone(v.bar);
    case MessageBox(closeTip, tips) =>
      var centred := Put(w, BUTTON, TEXT_ALIGNMENT, TEXT_ALIGN_CENTER);
      WindowLeaves(w, closeTip);
      RowLeaves(centred, tips);
      OneLeaf(Label, Put(w, LABEL, TEXT_ALIGNMENT, TEXT_ALIGN_CENTER));
      LeavesConcat(WindowBoxDraws(w, closeTip), CentredLabel(w));
      LeavesConcat(WindowBoxDraws(w, closeTip) + CentredLabel(w), ButtonRow(centred, tips));
    case TextInputBox(closeTip, message, textTip, secret, tips) =>
      InputBoxParts(w, closeTip, message, textTip, secret, tips);
  }

  lemma OneOrNone(shown: bool)
    ensures BarLeaf(shown) == if shown then [ScrollBar] else []
  {
  }

  lemma PanelParts(w: Words, p: PanelCall)
    requires Measurable(p.Box(), p.content, PanelStyleOf(w))
    ensures
      var ps := PanelStyleOf(w);
      Leaves(ScrollPanelDraws(w, p.header, p.Bars(w)))
      == (if p.header then [StatusBar] else []) + BarLeaf(HasHorizontal(p.Box(), p.content, ps))
         + BarLeaf(HasVertical(p.Box(), p.content, ps))
  {
    hide Leaves, BarDraws, BarLeaf, HasHorizontal, HasVertical, PanelSliderSize, HorizontalBounds, VerticalBounds,
      Bounded, Wheeled, WheelSpeed, Get;
    var bars := p.Bars(w);
    var head := if p.header then [Draw(StatusBar, w)] else [];
    NoLeaves();
    OneLeaf(StatusBar, w);
    BarLeaves(w, bars.horizontal);
    BarLeaves(w, bars.vertical);
    LeavesConcat(head, BarDraws(w, bars.horizontal));
    LeavesConcat(head + BarDraws(w, bars.horizontal), BarDraws(w, bars.vertical));
  }

  lemma InputBoxParts(w: Words, closeTip: bool, message: bool, textTip: bool, secret: Option<bool>, tips: seq<bool>)
    ensures
      Leaves(TextInputBoxDraws(w, closeTip, message, textTip, secret, tips))
      == Window(closeTip) + (if message then [Label] else []) + WithTip(TextBox, textTip)
         + (match secret case None => [] case Some(tip) => WithTip(Toggle, tip)) + TipRow(tips)
  {
    hide Leaves, LeafDraws, WithTip, WindowBoxDraws, ButtonRow, TipRow, Window, Put;
    var centred := Put(w, BUTTON, TEXT_ALIGNMENT, TEXT_ALIGN_CENTER);
    var caption := if message then CentredLabel(w) else [];
    var toggle := match secret case None => [] case Some(tip) => LeafDraws(Toggle, w, tip);
    NoLeaves();
    WindowLeaves(w, closeTip);
    OneLeaf(Label, Put(w, LABEL, TEXT_ALIGNMENT, TEXT_ALIGN_CENTER));
    LeafLeaves(TextBox, w, textTip);
    if secret.Some? { LeafLeaves(Toggle, w, secret.value); }
    RowLeaves(centred, tips);
    var head := WindowBoxDraws(w, closeTip) + caption;
    LeavesConcat(WindowBoxDraws(w, closeTip), caption);
    LeavesConcat(head, LeafDraws(TextBox, w, textTip));
    LeavesConcat(head + LeafDraws(TextBox, w, textTip), toggle);
    LeavesConcat(head + LeafDraws(TextBox, w, textTip) + toggle, ButtonRow(centred, tips));
  }

  // ----- What the parts read -----

  /** How a composite control styles its buttons and toggles: framed and aligned, centred only, or not at all. */
  datatype Manner = Framed | CentredOnly | Unforced

  function MannerOf(call: Call): Manner {
    match call
    case WindowBox(_) => Framed
    case TabBar(_) => Framed
    case ComboBox(_) => Framed
    case MessageBox(_, _) => CentredOnly
    case TextInputBox(_, _, _, _, _) => CentredOnly
    case _ => Unforced
  }

  /** What a part reads when it is drawn in that manner; labels are centred in all. */
  ghost predicate Reads(manner: Manner, d: Draw, w: Words) {
    match d.leaf
    case Label => Get(d.words, LABEL, TEXT_ALIGNMENT) == TEXT_ALIGN_CENTER
    case Button =>
      && (!manner.Unforced? ==> Get(d.words, BUTTON, TEXT_ALIGNMENT) == TEXT_ALIGN_CENTER)
      && (manner.Framed? ==> Get(d.words, BUTTON, BORDER_WIDTH) == 1)
      && (manner.Unforced? ==> d.words == w)
    case Toggle =>
      if manner.Framed? then
        Get(d.words, TOGGLE, TEXT_ALIGNMENT) == TEXT_ALIGN_LEFT && Get(d.words, TOGGLE, TEXT_PADDING) == 8
      else d.words == w
    case TextBox => d.words == w
    case ValueBox => d.words == w
    case StatusBar => d.words == w
    case _ => true
  }

  ghost predicate AllRead(manner: Manner, ds: seq<Draw>, w: Words) {
    forall k :: 0 <= k < |ds| ==> Reads(manner, ds[k], w)
  }

  lemma ForcedReads(w: Words)
    ensures Get(Centred(w), BUTTON, BORDER_WIDTH) == 1 && Get(Centred(w), BUTTON, TEXT_ALIGNMENT) == TEXT_ALIGN_CENTER
    ensures Get(TabText(w), TOGGLE, TEXT_ALIGNMENT) == TEXT_ALIGN_LEFT && Get(TabText(w), TOGGLE, TEXT_PADDING) == 8
    ensures Get(TooltipText(w), LABEL, TEXT_ALIGNMENT) == TEXT_ALIGN_CENTER
        && Get(TooltipText(w), LABEL, TEXT_PADDING) == 0
    ensures Get(Put(w, LABEL, TEXT_ALIGNMENT, TEXT_ALIGN_CENTER), LABEL, TEXT_ALIGNMENT) == TEXT_ALIGN_CENTER
    ensures Get(Put(w, BUTTON, TEXT_ALIGNMENT, TEXT_ALIGN_CENTER), BUTTON, TEXT_ALIGNMENT) == TEXT_ALIGN_CENTER
  {
    hide Put, Get;
    var framed := Put(w, BUTTON, BORDER_WIDTH, 1);
    GetAfterPut(w, BUTTON, BORDER_WIDTH, 1, BUTTON, BORDER_WIDTH);
    GetAfterPut(framed, BUTTON, TEXT_ALIGNMENT, TEXT_ALIGN_CENTER, BUTTON, BORDER_WIDTH);
    GetAfterPut(framed, BUTTON, TEXT_ALIGNMENT, TEXT_ALIGN_CENTER, BUTTON, TEXT_ALIGNMENT);
    var left := Put(w, TOGGLE, TEXT_ALIGNMENT, TEXT_ALIGN_LEFT);
    GetAfterPut(w, TOGGLE, TEXT_ALIGNMENT, TEXT_ALIGN_LEFT, TOGGLE, TEXT_ALIGNMENT);
    GetAfterPut(left, TOGGLE, TEXT_PADDING, 8, TOGGLE, TEXT_ALIGNMENT);
    GetAfterPut(left, TOGGLE, TEXT_PADDING, 8, TOGGLE, TEXT_PADDING);
    var padded := Put(w, LABEL, TEXT_PADDING, 0);
    GetAfterPut(w, LABEL, TEXT_PADDING, 0, LABEL, TEXT_PADDING);
    GetAfterPut(padded, LABEL, TEXT_ALIGNMENT, TEXT_ALIGN_CENTER, LABEL, TEXT_PADDING);
    GetAfterPut(padded, LABEL, TEXT_ALIGNMENT, TEXT_ALIGN_CENTER, LABEL, TEXT_ALIGNMENT);
    GetAfterPut(w, LABEL, TEXT_ALIGNMENT, TEXT_ALIGN_CENTER, LABEL, TEXT_ALIGNMENT);
    GetAfterPut(w, BUTTON, TEXT_ALIGNMENT, TEXT_ALIGN_CENTER, BUTTON, TEXT_ALIGNMENT);
  }

  lemma LeafReads(manner: Manner, leaf: Leaf, u: Words, w: Words, tip: bool)
    requires Reads(manner, Draw(leaf, u), w)
    ensures AllRead(manner, LeafDraws(leaf, u, tip), w)
  {
    ForcedReads(u);
    hide Get, TooltipText;
  }

  lemma ReadConcat(manner: Manner, ds: seq<Draw>, es: seq<Draw>, w: Words)
    requires AllRead(manner, ds, w) && AllRead(manner, es, w)
    ensures AllRead(manner, ds + es, w)
  {
    hide Reads;
  }

  lemma {:induction false} RowReads(manner: Manner, u: Words, w: Words, tips: seq<bool>)
    requires Reads(manner, Draw(Button, u), w)
    ensures AllRead(manner, ButtonRow(u, tips), w)
  {
    hide Reads, AllRead, LeafDraws;
    if tips == [] {
      NoneReads(manner, w);
    } else {
      RowReads(manner, u, w, tips[..|tips| - 1]);
      LeafReads(manner, Button, u, w, tips[|tips| - 1]);
      ReadConcat(manner, ButtonRow(u, tips[..|tips| - 1]), LeafDraws(Button, u, tips[|tips| - 1]), w);
    }
  }

  lemma NoneReads(manner: Manner, w: Words)
    ensures AllRead(manner, [], w)
  {
  }

  lemma WindowReads(manner: Manner, w: Words, tip: bool)
    requires !manner.Unforced?
    ensures AllRead(manner, WindowBoxDraws(w, tip), w)
  {
    ForcedReads(w);
    hide Get, Centred, LeafDraws;
    LeafReads(manner, Button, Centred(w), w, tip);
    ReadConcat(manner, [Draw(StatusBar, w), Draw(Panel, w)], LeafDraws(Button, Centred(w), tip), w);
  }

  lemma {:induction false} TabsRead(w: Words, tabs: seq<Tab>)
    ensures AllRead(Framed, TabBarDraws(w, tabs), w)
  {
    ForcedReads(w);
    hide Get, AllRead, LeafDraws, Centred, TabText;
    if tabs == [] {
      NoneReads(Framed, w);
    } else {
      var tab := tabs[|tabs| - 1];
      TabsRead(w, tabs[..|tabs| - 1]);
      LeafReads(Framed, Toggle, TabText(w), w, tab.toggleTip);
      LeafReads(Framed, Button, Centred(w), w, tab.closeTip);
      ReadConcat(Framed, LeafDraws(Toggle, TabText(w), tab.toggleTip), LeafDraws(Button, Centred(w), tab.closeTip), w);
      ReadConcat(Framed, TabBarDraws(w, tabs[..|tabs| - 1]), TabDraws(w, tab), w);
    }
  }

  /** Every part of a composite control reads what the control forces on it, and the user's own style elsewhere. */
  lemma CallReads(w: Words, call: Call)
    requires Callable(w, call)
    ensures AllRead(MannerOf(call), CallDraws(w, call), w)
  {
    ForcedReads(w);
    NoneReads(MannerOf(call), w);
    hide Get, Put, LeafDraws, Centred, TabText, TooltipText, WindowBoxDraws, ButtonRow, TabBarDraws, BarsOf, Defined,
      BarStyle, ListViewOf, ListDefined, PanelDefined;
    match call
    case WindowBox(closeTip) => WindowReads(Framed, w, closeTip);
    case TabBar(tabs) => TabsRead(w, tabs);
    case ComboBox(tip) => LeafReads(Framed, Button, Centred(w), w, tip);
    case Spinner(leftTip, rightTip) =>
      LeafReads(Unforced, Button, w, w, leftTip);
      LeafReads(Unforced, Button, w, w, rightTip);
      ReadConcat(Unforced, LeafDraws(Button, w, leftTip), LeafDraws(Button, w, rightTip), w);
      ReadConcat(Unforced, LeafDraws(Button, w, leftTip) + LeafDraws(Button, w, rightTip), [Draw(ValueBox, w)], w);
    case MessageBox(closeTip, tips) =>
      var centred := Put(w, BUTTON, TEXT_ALIGNMENT, TEXT_ALIGN_CENTER);
      WindowReads(CentredOnly, w, closeTip);
      RowReads(CentredOnly, centred, w, tips);
      ReadConcat(CentredOnly, WindowBoxDraws(w, closeTip), CentredLabel(w), w);
      ReadConcat(CentredOnly, WindowBoxDraws(w, closeTip) + CentredLabel(w), ButtonRow(centred, tips), w);
    case TextInputBox(closeTip, message, textTip, secret, tips) =>
      InputBoxReads(w, closeTip, message, textTip, secret, tips);
    case _ =>
  }

  lemma InputBoxReads(w: Words, closeTip: bool, message: bool, textTip: bool, secret: Option<bool>, tips: seq<bool>)
    ensures AllRead(CentredOnly, TextInputBoxDraws(w, closeTip, message, textTip, secret, tips), w)
  {
    ForcedReads(w);
    NoneReads(CentredOnly, w);
    hide Get, Put, LeafDraws, WindowBoxDraws, ButtonRow;
    var centred := Put(w, BUTTON, TEXT_ALIGNMENT, TEXT_ALIGN_CENTER);
    var caption := if message then CentredLabel(w) else [];
    var toggle := match secret case None => [] case Some(tip) => LeafDraws(Toggle, w, tip);
    WindowReads(CentredOnly, w, closeTip);
    LeafReads(CentredOnly, TextBox, w, w, textTip);
    if secret.Some? { LeafReads(CentredOnly, Toggle, w, w, secret.value); }
    RowReads(CentredOnly, centred, w, tips);
    var head := WindowBoxDraws(w, closeTip) + caption;
    hide AllRead;
    ReadConcat(CentredOnly, WindowBoxDraws(w, closeTip), caption, w);
    ReadConcat(CentredOnly, head, LeafDraws(TextBox, w, textTip), w);
    ReadConcat(CentredOnly, head + LeafDraws(TextBox, w, textTip), toggle, w);
    ReadConcat(CentredOnly, head + LeafDraws(TextBox, w, textTip) + toggle, ButtonRow(centred, tips), w);
  }
}
