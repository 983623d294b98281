/**
 * The style table of ext/raygui.h: one flat array of 32-bit words, 24 properties for each of 16
 * controls, filled with defaults on first use.
 */
module Style {
  import opened CTypes

  const MAX_CONTROLS: nat := 16
  const MAX_PROPS_BASE: nat := 16
  const MAX_PROPS: nat := 24   // base and extended properties together
  const TABLE_SIZE: nat := 384

  type ControlId = c: int | 0 <= c < 16
  type PropertyId = p: int | 0 <= p < 24

  // Controls
  const DEFAULT: ControlId := 0
  const LABEL: ControlId := 1
  const BUTTON: ControlId := 2
  const TOGGLE: ControlId := 3
  const SLIDER: ControlId := 4
  const PROGRESSBAR: ControlId := 5
  const CHECKBOX: ControlId := 6
  const COMBOBOX: ControlId := 7
  const DROPDOWNBOX: ControlId := 8
  const TEXTBOX: ControlId := 9
  const VALUEBOX: ControlId := 10
  const SPINNER: ControlId := 11
  const LISTVIEW: ControlId := 12
  const COLORPICKER: ControlId := 13
  const SCROLLBAR: ControlId := 14
  const STATUSBAR: ControlId := 15

  // Properties used by name
  const BORDER_COLOR_NORMAL: PropertyId := 0
  const BORDER_WIDTH: PropertyId := 12
  const TEXT_PADDING: PropertyId := 13
  const TEXT_ALIGNMENT: PropertyId := 14
  const ARROWS_VISIBLE: PropertyId := 17
  const SCROLL_SLIDER_PADDING: PropertyId := 18
  const SCROLL_SLIDER_SIZE: PropertyId := 19
  const SCROLL_PADDING: PropertyId := 20
  const SCROLL_SPEED: PropertyId := 21
  const LIST_ITEMS_HEIGHT: PropertyId := 16
  const LIST_ITEMS_SPACING: PropertyId := 17
  const SCROLLBAR_WIDTH: PropertyId := 18
  const SCROLLBAR_SIDE: PropertyId := 19

  const TEXT_ALIGN_LEFT: int := 0
  const TEXT_ALIGN_CENTER: int := 1
  const SCROLLBAR_LEFT_SIDE: int := 0

  // ----- Words -----

  const WORD: int := 0x1_0000_0000
  type Word = w: int | 0 <= w < 0x1_0000_0000
  type Words = w: seq<Word> | |w| == 384 witness seq(384, _ => 0)

  /** Conversion to `unsigned int`, and back to `int`. */
  function ToWord(v: int): Word { v % WORD }
  function ToInt(w: Word): int { if w >= 0x8000_0000 then w - WORD else w }

  lemma IntThroughWord(v: int)
    requires IsInt(v)
    ensures ToInt(ToWord(v)) == v
  {
  }

  // ----- The table, on values -----

  function Slot(control: ControlId, property: PropertyId): (i: nat)
    ensures i < TABLE_SIZE
  {
    control * MAX_PROPS + property
  }

  function Get(w: Words, control: ControlId, property: PropertyId): int
  {
    ToInt(w[Slot(control, property)])
  }

  /** A base property of DEFAULT is written to every control. */
  predicate Reaches(control: ControlId, property: PropertyId, c: ControlId, p: PropertyId) {
    p == property && (c == control || (control == DEFAULT && property < MAX_PROPS_BASE))
  }

  function Put(w: Words, control: ControlId, property: PropertyId, value: int): Words
  {
    seq(TABLE_SIZE, i requires 0 <= i < TABLE_SIZE =>
      if Reaches(control, property, i / MAX_PROPS, i % MAX_PROPS) then ToWord(value) else w[i])
  }

  lemma SlotParts(control: ControlId, property: PropertyId)
    ensures Slot(control, property) / MAX_PROPS == control && Slot(control, property) % MAX_PROPS == property
  {
  }

  lemma SlotOfParts(i: nat)
    requires i < TABLE_SIZE
    ensures i / MAX_PROPS < MAX_CONTROLS && Slot(i / MAX_PROPS, i % MAX_PROPS) == i
  {
  }

  /** What a write changes: the property it names, everywhere it reaches, and nothing else. */
  lemma GetAfterPut(w: Words, control: ControlId, property: PropertyId, value: int, c: ControlId, p: PropertyId)
    ensures Get(Put(w, control, property, value), c, p)
         == if Reaches(control, property, c, p) then ToInt(ToWord(value)) else Get(w, c, p)
  {
    SlotParts(c, p);
  }

  datatype Write = Write(control: ControlId, property: PropertyId, value: int)

  function PutAll(w: Words, log: seq<Write>): Words
  {
    if log == [] then w
    else
      var r := log[|log| - 1];
      Put(PutAll(w, log[..|log| - 1]), r.control, r.property, r.value)
  }

  datatype Found = Never | Last(value: int)

  /** The last value a log wrote to (c, p), by name or through DEFAULT. */
  function LastWrite(log: seq<Write>, c: ControlId, p: PropertyId): Found {
    if log == [] then Never
    else if Reaches(log[|log| - 1].control, log[|log| - 1].property, c, p) then Last(log[|log| - 1].value)
    else LastWrite(log[..|log| - 1], c, p)
  }

  /** After any writes, a property reads as the last value written to it; if none was, as before. */
  lemma {:induction false} GetAfterAll(w: Words, log: seq<Write>, c: ControlId, p: PropertyId)
    ensures Get(PutAll(w, log), c, p) ==
      match LastWrite(log, c, p) case Never => Get(w, c, p) case Last(v) => ToInt(ToWord(v))
  {
    if log != [] {
      var r := log[|log| - 1];
      GetAfterAll(w, log[..|log| - 1], c, p);
      GetAfterPut(PutAll(w, log[..|log| - 1]), r.control, r.property, r.value, c, p);
    }
  }

  /** Two tables that read the same everywhere are the same. */
  lemma SameReads(u: Words, w: Words)
    requires forall c: ControlId, p: PropertyId :: Get(u, c, p) == Get(w, c, p)
    ensures u == w
  {
    forall i | 0 <= i < TABLE_SIZE
      ensures u[i] == w[i]
    {
      SlotOfParts(i);
      assert Get(u, i / MAX_PROPS, i % MAX_PROPS) == Get(w, i / MAX_PROPS, i % MAX_PROPS);
    }
  }

  /** So the table depends on nothing but the last write to each property. */
  lemma OnlyLastWritesMatter(w: Words, first: seq<Write>, second: seq<Write>)
    requires forall c: ControlId, p: PropertyId :: LastWrite(first, c, p) == LastWrite(second, c, p)
    ensures PutAll(w, first) == PutAll(w, second)
  {
    hide PutAll, Get, LastWrite;
    forall c: ControlId, p: PropertyId
      ensures Get(PutAll(w, first), c, p) == Get(PutAll(w, second), c, p)
    {
      GetAfterAll(w, first, c, p);
      GetAfterAll(w, second, c, p);
    }
    SameReads(PutAll(w, first), PutAll(w, second));
  }

  // ----- Defaults -----

  /** What every control starts from, and DEFAULT's own extended properties. */
  function SharedDefaults(): seq<Write> {
    [
    Write(DEFAULT, 0, 0x838383ff), Write(DEFAULT, 1, 0xc9c9c9ff), Write(DEFAULT, 2, 0x686868ff),
    Write(DEFAULT, 3, 0x5bb2d9ff), Write(DEFAULT, 4, 0xc9effeff), Write(DEFAULT, 5, 0x6c9bbcff),
    Write(DEFAULT, 6, 0x0492c7ff), Write(DEFAULT, 7, 0x97e8ffff), Write(DEFAULT, 8, 0x368bafff),
    Write(DEFAULT, 9, 0xb5c1c2ff), Write(DEFAULT, 10, 0xe6e9e9ff), Write(DEFAULT, 11, 0xaeb7b8ff),
    Write(DEFAULT, BORDER_WIDTH, 1), Write(DEFAULT, TEXT_PADDING, 0),
    Write(DEFAULT, TEXT_ALIGNMENT, TEXT_ALIGN_CENTER), Write(DEFAULT, 16, 10), Write(DEFAULT, 17, 1),
    Write(DEFAULT, 18, 0x90abb5ff), Write(DEFAULT, 19, 0xf5f5f5ff), Write(DEFAULT, 20, 15),
    Write(DEFAULT, 21, 1)]
  }

  /** Base properties of single controls that differ. */
  function OwnDefaults(): seq<Write> {
    [
    Write(LABEL, TEXT_ALIGNMENT, TEXT_ALIGN_LEFT), Write(BUTTON, BORDER_WIDTH, 2),
    Write(SLIDER, TEXT_PADDING, 4), Write(PROGRESSBAR, TEXT_PADDING, 4), Write(CHECKBOX, TEXT_PADDING, 4),
    Write(CHECKBOX, TEXT_ALIGNMENT, 2), Write(DROPDOWNBOX, TEXT_PADDING, 0),
    Write(DROPDOWNBOX, TEXT_ALIGNMENT, TEXT_ALIGN_CENTER), Write(TEXTBOX, TEXT_PADDING, 4),
    Write(TEXTBOX, TEXT_ALIGNMENT, TEXT_ALIGN_LEFT), Write(VALUEBOX, TEXT_PADDING, 0),
    Write(VALUEBOX, TEXT_ALIGNMENT, TEXT_ALIGN_LEFT), Write(SPINNER, TEXT_PADDING, 0),
    Write(SPINNER, TEXT_ALIGNMENT, TEXT_ALIGN_LEFT), Write(STATUSBAR, TEXT_PADDING, 8),
    Write(STATUSBAR, TEXT_ALIGNMENT, TEXT_ALIGN_LEFT)]
  }

  /** Extended properties of single controls. */
  function ExtendedDefaults(): seq<Write> {
    [
    Write(TOGGLE, 16, 2), Write(SLIDER, 16, 16), Write(SLIDER, 17, 1), Write(PROGRESSBAR, 16, 1),
    Write(CHECKBOX, 16, 1), Write(COMBOBOX, 16, 32), Write(COMBOBOX, 17, 2), Write(DROPDOWNBOX, 16, 16),
    Write(DROPDOWNBOX, 17, 2), Write(SPINNER, 16, 24), Write(SPINNER, 17, 2)]
  }

  /** The scroll bar's, with its border among them. */
  function ScrollDefaults(): seq<Write> {
    [
    Write(SCROLLBAR, BORDER_WIDTH, 0), Write(SCROLLBAR, ARROWS_VISIBLE, 0), Write(SCROLLBAR, 16, 6),
    Write(SCROLLBAR, SCROLL_SLIDER_PADDING, 0), Write(SCROLLBAR, SCROLL_SLIDER_SIZE, 16),
    Write(SCROLLBAR, SCROLL_PADDING, 0), Write(SCROLLBAR, SCROLL_SPEED, 12)]
  }

  /** The list view's and the colour picker's. */
  function ListDefaults(): seq<Write> {
    [
    Write(LISTVIEW, LIST_ITEMS_HEIGHT, 28), Write(LISTVIEW, LIST_ITEMS_SPACING, 2),
    Write(LISTVIEW, SCROLLBAR_WIDTH, 12), Write(LISTVIEW, SCROLLBAR_SIDE, 1), Write(COLORPICKER, 16, 8),
    Write(COLORPICKER, 17, 16), Write(COLORPICKER, 18, 8), Write(COLORPICKER, 19, 8), Write(COLORPICKER, 20, 2)]
  }

  /** The writes of the default style, in order. */
  function Defaults(): seq<Write> {
    SharedDefaults() + OwnDefaults() + ExtendedDefaults() + ScrollDefaults() + ListDefaults()
  }

  // ----- The table itself -----

  class StyleTable {
    const guiStyle: array<Word>
    var guiStyleLoaded: bool

    ghost predicate Valid() {
      guiStyle.Length == TABLE_SIZE
    }

    ghost function Words(): Words
      requires Valid()
      reads guiStyle
    {
      guiStyle[..]
    }

    /** The table as the next access will find it. */
    ghost function Effective(): Words
      requires Valid()
      reads this, guiStyle
    {
      if guiStyleLoaded then Words() else PutAll(Words(), Defaults())
    }

    constructor ()
      ensures Valid() && fresh(guiStyle) && !guiStyleLoaded
      ensures forall i :: 0 <= i < TABLE_SIZE ==> Words()[i] == 0
    {
      guiStyle := new Word[TABLE_SIZE](_ => 0);
      guiStyleLoaded := false;
    }

    method GuiSetStyle(control: ControlId, property: PropertyId, value: int)
      requires Valid()
      modifies this, guiStyle
      ensures guiStyleLoaded && Words() == Put(old(Effective()), control, property, value)
      decreases if guiStyleLoaded then 0 else 2
    {
      if !guiStyleLoaded {
        GuiLoadStyleDefault();
      }
      ghost var w := Words();
      guiStyle[control * MAX_PROPS + property] := ToWord(value);
      if control == 0 && property < MAX_PROPS_BASE {
        for i := 1 to MAX_CONTROLS
          invariant guiStyleLoaded
          invariant forall j :: 0 <= j < TABLE_SIZE ==>
            guiStyle[j] == if j % MAX_PROPS == property && j / MAX_PROPS < i then ToWord(value) else w[j]
        {
          guiStyle[i * MAX_PROPS + property] := ToWord(value);
        }
      }
      assert forall j :: 0 <= j < TABLE_SIZE ==> Words()[j] == Put(w, control, property, value)[j];
    }

    method GuiGetStyle(control: ControlId, property: PropertyId) returns (value: int)
      requires Valid()
      modifies this, guiStyle
      ensures guiStyleLoaded && Words() == old(Effective())
      ensures value == Get(Words(), control, property)
    {
      if !guiStyleLoaded {
        GuiLoadStyleDefault();
      }
      value := ToInt(guiStyle[control * MAX_PROPS + property]);
    }

    /** The flag is raised first, so the writes below find the table loaded. */
    method GuiLoadStyleDefault()
      requires Valid()
      modifies this, guiStyle
      ensures guiStyleLoaded && Words() == PutAll(old(Words()), Defaults())
      decreases 1
    {
      guiStyleLoaded := true;
      var writes := Defaults();
      hide Defaults, Put;
      ghost var w := Words();
      assert writes[..0] == [];
      for k := 0 to |writes|
        invariant guiStyleLoaded && Words() == PutAll(w, writes[..k])
      {
        assert writes[..k + 1][..k] == writes[..k];
        GuiSetStyle(writes[k].control, writes[k].property, writes[k].value);
      }
      assert writes[..|writes|] == writes;
    }
  }
}
