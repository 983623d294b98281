/** What the default style of ext/raygui.h makes every property read as, for any table before it. */
module DefaultStyle {
  import opened CTypes
  import opened Style
  import opened ScrollGeometry
  import opened ListGeometry
  import opened Drawing

  // ----- The last write to a property -----

  lemma {:induction false} LastOfTwo(first: seq<Write>, second: seq<Write>, c: ControlId, p: PropertyId)
    ensures LastWrite(first + second, c, p)
         == if LastWrite(second, c, p).Never? then LastWrite(first, c, p) else LastWrite(second, c, p)
  {
    var log := first + second;
    if second == [] {
      assert log == first;
    } else {
      assert log[..|log| - 1] == first + second[..|second| - 1];
      LastOfTwo(first, second[..|second| - 1], c, p);
    }
  }

  /** If all writes that reach (c, p) write v, and one does, then v is the last value written. */
  lemma {:induction false} AllAgree(log: seq<Write>, c: ControlId, p: PropertyId, v: int)
    requires forall r :: r in log && Reaches(r.control, r.property, c, p) ==> r.value == v
    requires exists r :: r in log && Reaches(r.control, r.property, c, p)
    ensures LastWrite(log, c, p) == Last(v)
  {
    var n := |log| - 1;
    if !Reaches(log[n].control, log[n].property, c, p) {
      var r :| r in log && Reaches(r.control, r.property, c, p);
      assert log == log[..n] + [log[n]];
      assert r in log[..n];
      AllAgree(log[..n], c, p, v);
    } else {
      assert log[n] in log;
    }
  }

  lemma {:induction false} NeverReached(log: seq<Write>, c: ControlId, p: PropertyId)
    requires forall r :: r in log ==> !Reaches(r.control, r.property, c, p)
    ensures LastWrite(log, c, p) == Never
  {
    if log != [] {
      assert log[|log| - 1] in log;
      NeverReached(log[..|log| - 1], c, p);
    }
  }

  // ----- What the three groups write -----

  const COLOURS: seq<Word> := [
    0x838383ff, 0xc9c9c9ff, 0x686868ff, 0x5bb2d9ff, 0xc9effeff, 0x6c9bbcff,
    0x0492c7ff, 0x97e8ffff, 0x368bafff, 0xb5c1c2ff, 0xe6e9e9ff, 0xaeb7b8ff]

  lemma SharedLast(c: ControlId, p: PropertyId)
    ensures |COLOURS| == 12
    ensures p < 12 ==> LastWrite(SharedDefaults(), c, p) == Last(COLOURS[p])
    ensures p == BORDER_WIDTH || p == TEXT_ALIGNMENT ==> LastWrite(SharedDefaults(), c, p) == Last(1)
    ensures p == TEXT_PADDING ==> LastWrite(SharedDefaults(), c, p) == Last(0)
    ensures p >= 15 ==> LastWrite(SharedDefaults(), c, p) == if c == DEFAULT then SharedValue(p) else Never
  {
    SharedInOrder();
    var log := SharedDefaults();
    hide SharedDefaults, LastWrite;
    if p != 15 && p <= 21 && (p < 15 || c == DEFAULT) {
      var k := if p < 15 then p else p - 1;
      assert log[k] in log && Reaches(log[k].control, log[k].property, c, p);
      AllAgree(log, c, p, log[k].value);
    } else {
      NeverReached(log, c, p);
    }
  }

  lemma SharedInOrder()
    ensures
      var log := SharedDefaults();
      && |log| == 21 && |COLOURS| == 12
      && (forall j :: 0 <= j < 21 ==> log[j].control == DEFAULT && log[j].property == if j < 15 then j else j + 1)
      && (forall j :: 0 <= j < 12 ==> log[j].value == COLOURS[j])
      && log[12].value == 1 && log[13].value == 0 && log[14].value == 1
      && (forall j :: 15 <= j < 21 ==> SharedValue(j + 1) == Last(log[j].value))
  {
  }

  /** What the second group writes. */
  function OwnValue(c: ControlId, p: PropertyId): Found {
    if p == BORDER_WIDTH then (if c == BUTTON then Last(2) else Never)
    else if p == TEXT_PADDING then
      if c == SLIDER || c == PROGRESSBAR || c == CHECKBOX || c == TEXTBOX then Last(4)
      else if c == STATUSBAR then Last(8)
      else if c == DROPDOWNBOX || c == VALUEBOX || c == SPINNER then Last(0)
      else Never
    else if p == TEXT_ALIGNMENT then
      if LeftAligned(c) then Last(TEXT_ALIGN_LEFT)
      else if c == CHECKBOX then Last(2)
      else if c == DROPDOWNBOX then Last(TEXT_ALIGN_CENTER)
      else Never
    else Never
  }

  predicate LeftAligned(c: ControlId) {
    c == LABEL || c == TEXTBOX || c == VALUEBOX || c == SPINNER || c == STATUSBAR
  }

  lemma OwnLast(c: ControlId, p: PropertyId)
    ensures LastWrite(OwnDefaults(), c, p) == OwnValue(c, p)
  {
    OwnAgrees();
    if OwnValue(c, p).Last? { OwnHas(c, p); }
    hide OwnDefaults, OwnValue, LastWrite;
    SoleWrites(OwnDefaults(), c, p, OwnValue(c, p));
  }

  lemma OwnAgrees()
    ensures forall r :: r in OwnDefaults() ==> r.control != DEFAULT && OwnValue(r.control, r.property) == Last(r.value)
  {
    var log := OwnDefaults();
    assert forall j :: 0 <= j < |log| ==>
      log[j].control != DEFAULT && OwnValue(log[j].control, log[j].property) == Last(log[j].value);
    hide OwnDefaults, OwnValue;
  }

  lemma OwnHas(c: ControlId, p: PropertyId)
    requires OwnValue(c, p).Last?
    ensures Write(c, p, OwnValue(c, p).value) in OwnDefaults()
  {
  }

  lemma SoleWrites(log: seq<Write>, c: ControlId, p: PropertyId, f: Found)
    requires forall r :: r in log ==> r.control != DEFAULT && (r.control == c && r.property == p ==> f == Last(r.value))
    requires f.Last? ==> Write(c, p, f.value) in log
    ensures LastWrite(log, c, p) == f
  {
    hide LastWrite;
    if f.Last? { AllAgree(log, c, p, f.value); } else { NeverReached(log, c, p); }
  }

  /** The extended properties with a default: DEFAULT's own, and those of single controls. */
  function ExtendedValue(c: ControlId, p: PropertyId): Found {
    if c == DEFAULT then SharedValue(p)
    else if c == SCROLLBAR then ScrollValue(p)
    else if c == LISTVIEW || c == COLORPICKER then ListValue(c, p)
    else if c == SLIDER then (if p == 16 then Last(16) else if p == 17 then Last(1) else Never)
    else if c == COMBOBOX then (if p == 16 then Last(32) else if p == 17 then Last(2) else Never)
    else if c == DROPDOWNBOX then (if p == 16 then Last(16) else if p == 17 then Last(2) else Never)
    else if c == SPINNER then (if p == 16 then Last(24) else if p == 17 then Last(2) else Never)
    else if p == 16 && c == TOGGLE then Last(2)
    else if p == 16 && (c == PROGRESSBAR || c == CHECKBOX) then Last(1)
    else Never
  }

  /** Text size and spacing, line and background colour, line spacing and vertical alignment. */
  function SharedValue(p: PropertyId): Found {
    if p == 16 then Last(10) else if p == 17 then Last(1) else if p == 18 then Last(0x90abb5ff)
    else if p == 19 then Last(0xf5f5f5ff) else if p == 20 then Last(15) else if p == 21 then Last(1) else Never
  }

  function ScrollValue(p: PropertyId): Found {
    if p == 16 then Last(6)
    else if p == ARROWS_VISIBLE || p == SCROLL_SLIDER_PADDING || p == SCROLL_PADDING then Last(0)
    else if p == SCROLL_SLIDER_SIZE then Last(16) else if p == SCROLL_SPEED then Last(12) else Never
  }

  function ListValue(c: ControlId, p: PropertyId): Found {
    if c == LISTVIEW then
      if p == LIST_ITEMS_HEIGHT then Last(28) else if p == LIST_ITEMS_SPACING then Last(2)
      else if p == SCROLLBAR_WIDTH then Last(12) else if p == SCROLLBAR_SIDE then Last(1) else Never
    else if p == 17 then Last(16) else if p == 16 || p == 18 || p == 19 then Last(8) else if p == 20 then Last(2)
    else Never
  }

  predicate InOwnGroup(c: ControlId) {
    c == DEFAULT || c == SCROLLBAR || c == LISTVIEW || c == COLORPICKER
  }

  lemma ExtendedLast(c: ControlId, p: PropertyId)
    ensures LastWrite(ExtendedDefaults(), c, p) == if InOwnGroup(c) || p < 16 then Never else ExtendedValue(c, p)
  {
    var f := if InOwnGroup(c) || p < 16 then Never else ExtendedValue(c, p);
    ExtendedAgrees();
    if f.Last? { ExtendedHas(c, p); }
    hide ExtendedDefaults, ExtendedValue, LastWrite;
    SoleWrites(ExtendedDefaults(), c, p, f);
  }

  lemma ExtendedAgrees()
    ensures forall r :: r in ExtendedDefaults() ==>
      !InOwnGroup(r.control) && r.property >= 16 && ExtendedValue(r.control, r.property) == Last(r.value)
  {
    var log := ExtendedDefaults();
    assert forall j :: 0 <= j < |log| ==>
      && !InOwnGroup(log[j].control) && log[j].property >= 16
      && ExtendedValue(log[j].control, log[j].property) == Last(log[j].value);
    hide ExtendedDefaults, ExtendedValue, InOwnGroup;
  }

  lemma ExtendedHas(c: ControlId, p: PropertyId)
    requires !InOwnGroup(c) && ExtendedValue(c, p).Last?
    ensures Write(c, p, ExtendedValue(c, p).value) in ExtendedDefaults()
  {
  }

  lemma ScrollLast(c: ControlId, p: PropertyId)
    ensures LastWrite(ScrollDefaults(), c, p)
         == if c != SCROLLBAR then Never else if p == BORDER_WIDTH then Last(0) else ScrollValue(p)
  {
    var f := if c != SCROLLBAR then Never else if p == BORDER_WIDTH then Last(0) else ScrollValue(p);
    var log := ScrollDefaults();
    assert forall r :: r in log ==>
      && r.control == SCROLLBAR
      && Last(r.value) == if r.property == BORDER_WIDTH then Last(0) else ScrollValue(r.property);
    if f.Last? { assert Write(c, p, f.value) in log; }
    hide ScrollDefaults, ScrollValue, LastWrite;
    SoleWrites(log, c, p, f);
  }

  lemma ListLast(c: ControlId, p: PropertyId)
    ensures LastWrite(ListDefaults(), c, p) == if c == LISTVIEW || c == COLORPICKER then ListValue(c, p) else Never
  {
    var f := if c == LISTVIEW || c == COLORPICKER then ListValue(c, p) else Never;
    var log := ListDefaults();
    assert forall r :: r in log ==>
      (r.control == LISTVIEW || r.control == COLORPICKER) && ListValue(r.control, r.property) == Last(r.value);
    if f.Last? { assert Write(c, p, f.value) in log; }
    hide ListDefaults, ListValue, LastWrite;
    SoleWrites(log, c, p, f);
  }

  function DefaultPadding(c: ControlId): int {
    if c == SLIDER || c == PROGRESSBAR || c == CHECKBOX || c == TEXTBOX then 4 else if c == STATUSBAR then 8 else 0
  }

  lemma LastDefault(c: ControlId, p: PropertyId)
    ensures
      var last := LastWrite(Defaults(), c, p);
      && |COLOURS| == 12 && (p < 12 ==> last == Last(COLOURS[p]))
      && (p == BORDER_WIDTH ==> last == Last(if c == BUTTON then 2 else if c == SCROLLBAR then 0 else 1))
      && (p == TEXT_PADDING ==> last == Last(DefaultPadding(c)))
      && (p == TEXT_ALIGNMENT ==>
            last == Last(if LeftAligned(c) then TEXT_ALIGN_LEFT else if c == CHECKBOX then 2 else TEXT_ALIGN_CENTER))
      && (p == 15 ==> last == Never) && (p >= 16 ==> last == ExtendedValue(c, p))
  {
    var base := SharedDefaults() + OwnDefaults();
    LastOfTwo(base + ExtendedDefaults() + ScrollDefaults(), ListDefaults(), c, p);
    LastOfTwo(base + ExtendedDefaults(), ScrollDefaults(), c, p);
    LastOfTwo(base, ExtendedDefaults(), c, p);
    LastOfTwo(SharedDefaults(), OwnDefaults(), c, p);
    hide SharedDefaults, OwnDefaults, ExtendedDefaults, ScrollDefaults, ListDefaults, LastWrite;
    SharedLast(c, p);
    OwnLast(c, p);
    ExtendedLast(c, p);
    ScrollLast(c, p);
    ListLast(c, p);
  }

  // ----- What the table reads -----

  /**
   * The default style, property by property, whatever the table held: all controls share DEFAULT's
   * twelve colours; borders, paddings and alignments are DEFAULT's but for the controls named; each
   * extended property has its own value; and what has no default is left as it was.
   */
  lemma DefaultReads(w: Words, c: ControlId, p: PropertyId)
    ensures
      var read := Get(PutAll(w, Defaults()), c, p);
      && |COLOURS| == 12 && (p < 12 ==> read == ToInt(COLOURS[p]))
      && (p == BORDER_WIDTH ==> read == if c == BUTTON then 2 else if c == SCROLLBAR then 0 else 1)
      && (p == TEXT_PADDING ==> read == DefaultPadding(c))
      && (p == TEXT_ALIGNMENT ==>
            read == if LeftAligned(c) then TEXT_ALIGN_LEFT else if c == CHECKBOX then 2 else TEXT_ALIGN_CENTER)
      && (p == 15 ==> read == Get(w, c, p))
      && (p >= 16 ==> read == match ExtendedValue(c, p) case Never => Get(w, c, p) case Last(v) => ToInt(ToWord(v)))
  {
    LastDefault(c, p);
    hide Defaults, PutAll, Get, LastWrite, LeftAligned, ExtendedValue;
    GetAfterAll(w, Defaults(), c, p);
    if p < 12 { WordIsKept(COLOURS[p]); }
  }

  lemma WordIsKept(v: Word)
    ensures ToWord(v) == v
  {
  }

  /** Every control reads DEFAULT's colours. */
  lemma DefaultColours(w: Words, c: ControlId, p: PropertyId)
    requires p < 12
    ensures Get(PutAll(w, Defaults()), c, p) == Get(PutAll(w, Defaults()), DEFAULT, p)
  {
    hide Defaults, PutAll, Get;
    DefaultReads(w, c, p);
    DefaultReads(w, DEFAULT, p);
  }

  /** Under the default style a list of items 30 pixels apart is laid out in any box of a height of zero or more. */
  lemma DefaultLists(w: Words, height: real, count: nat)
    requires height >= 0.0
    ensures ListStyleOf(PutAll(w, Defaults())).Step() == 30 && Layable(height, 30, count)
  {
    hide Defaults, PutAll, Get;
    DefaultReads(w, LISTVIEW, LIST_ITEMS_HEIGHT);
    DefaultReads(w, LISTVIEW, LIST_ITEMS_SPACING);
    LayableExactly(height, 30, count);
  }

  /** Under the default style no click on an arrow divides by zero. */
  lemma DefaultScrolls(w: Words, bounds: Rectangle, low: int, high: int, m: Mouse, enabled: bool, dragging: bool)
    ensures Defined(bounds, BarStyle(PutAll(w, Defaults())), low, high, m, enabled, dragging) <==> low != high
  {
    hide Defaults, PutAll, Get;
    DefaultReads(w, SCROLLBAR, SCROLL_SPEED);
  }
}
