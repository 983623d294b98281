/** The value box of ext/raygui.h: an integer edited as text, and the reader it uses. */
module ValueBox {
  import opened RealArith
  import opened CTypes
  import opened Decimal

  const VALUEBOX_MAX_CHARS: nat := 32

  /** An `int` result, or the signed overflow C leaves undefined. */
  datatype Outcome = Fits(value: int) | Overflows

  // ----- Reading -----

  predicate Signed(s: string) {
    s != [] && (s[0] == '+' || s[0] == '-')
  }

  /** The digits read: the ones after an optional sign, up to the first other character. */
  function Digits(s: string): (d: string)
    ensures AllDigits(d)
  {
    var rest := if Signed(s) then s[1..] else s;
    rest[..DigitRun(rest)]
  }

  function Parse(s: string): int {
    var n: int := Value(Digits(s));
    if s != [] && s[0] == '-' then -n else n
  }

  /** What the reader returns: the accumulator is an `int` and never negative, so -2^31 is out of reach. */
  function ParseOutcome(v: int): Outcome {
    if Abs(v) <= INT_MAX then Fits(v) else Overflows
  }

  lemma {:induction false} ValuePrefix(s: string, i: nat)
    requires AllDigits(s) && i <= |s|
    ensures Value(s[..i]) <= Value(s)
    decreases |s|
  {
    if i == |s| {
      assert s[..i] == s;
    } else {
      assert s[..|s| - 1][..i] == s[..i];
      ValuePrefix(s[..|s| - 1], i);
    }
  }

  lemma NoDigits()
    ensures Value([]) == 0
  {
  }

  /** The reader, with its accumulator checked at every step for leaving the range of `int`. */
  method TextToInteger(text: seq<char>, ghost s: string) returns (r: Outcome)
    requires IsCString(text, 0, s, '\0')
    ensures r == ParseOutcome(Parse(s))
  {
    var value := 0;
    var sign := 1;
    var start := 0;
    if text[0] == '+' || text[0] == '-' {
      if text[0] == '-' {
        sign := -1;
      }
      start := 1;
    }
    ghost var d := Digits(s);
    ReaderView(text, s, start);
    ReaderSign(s, sign);
    hide Parse, Digits, Value, Signed, IsCString, ParseOutcome;
    assert d[..0] == [];
    NoDigits();
    var i := 0;
    while IsDigit(text[start + i])
      invariant 0 <= i <= |d|
      invariant value == Value(d[..i]) <= INT_MAX
      decreases |d| - i
    {
      assert i < |d|;
      assert d[..i + 1] == d[..i] + [d[i]];
      ValueSnoc(d[..i], d[i]);
      value := value * 10 + DigitValue(text[start + i]);
      i := i + 1;
      ValuePrefix(d, i);
      if value > INT_MAX {
        return Overflows;
      }
    }
    assert d[..i] == d;
    r := Fits(value * sign);
  }

  /** The digits stand in the text after the sign, and a character that is not a digit follows them. */
  lemma ReaderView(text: seq<char>, s: string, start: nat)
    requires IsCString(text, 0, s, '\0')
    requires start == if Signed(s) then 1 else 0
    ensures
      var d := Digits(s);
      start + |d| < |text| && (forall k :: 0 <= k < |d| ==> text[start + k] == d[k]) && !IsDigit(text[start + |d|])
  {
    var rest := if Signed(s) then s[1..] else s;
    assert forall k :: 0 <= k < |rest| ==> text[start + k] == rest[k];
    assert text[start + |rest|] == '\0';
  }

  lemma ReaderSign(s: string, sign: int)
    requires sign == if s != [] && s[0] == '-' then -1 else 1
    ensures Parse(s) == sign * Value(Digits(s))
    ensures ParseOutcome(Parse(s)) == if Value(Digits(s)) <= INT_MAX then Fits(Value(Digits(s)) * sign) else Overflows
  {
    hide Digits, Value;
  }

  /** Printing and reading back is the identity on every `int` but the smallest, whose digits overflow. */
  lemma PrintThenParse(n: int)
    requires IsInt(n)
    ensures Parse(PrintInt(n)) == n
    ensures ParseOutcome(Parse(PrintInt(n))) == Fits(n) <==> n != INT_MIN
  {
    PrintedDigits(n);
    ValueOfPrint(Abs(n));
  }

  lemma PrintedDigits(n: int)
    ensures Digits(PrintInt(n)) == PrintNat(Abs(n))
    ensures PrintInt(n)[0] == '-' <==> n < 0
  {
    var s, p := PrintInt(n), PrintNat(Abs(n));
    RunOfDigits(p, []);
    assert p + [] == p;
    assert n < 0 ==> s[1..] == p;
    assert p[..|p|] == p;
    assert IsDigit(p[0]);
  }

  // ----- Editing -----

  /** A digit typed at the end of the text grows the number away from zero. */
  function Typed(v: int, d: nat): int {
    if v >= 0 then 10 * v + d else 10 * v - d
  }

  lemma ParseTyped(v: int, c: char)
    requires IsDigit(c)
    ensures Parse(PrintInt(v) + [c]) == Typed(v, DigitValue(c))
  {
    var s, p := PrintInt(v), PrintNat(Abs(v));
    PrintedDigits(v);
    ValueOfPrint(Abs(v));
    ValueSnoc(p, c);
    RunOfDigits(p + [c], []);
    assert p + [c] + [] == p + [c];
    assert v < 0 ==> (s + [c])[1..] == p + [c];
    assert (p + [c])[..|p| + 1] == p + [c];
    assert IsDigit(p[0]);
  }

  lemma ParseDeleted(v: int)
    ensures Parse(PrintInt(v)[..|PrintInt(v)| - 1]) == TruncDiv(v, 10)
  {
    var s, p := PrintInt(v), PrintNat(Abs(v));
    PrintDropLast(Abs(v));
    var t, q := s[..|s| - 1], p[..|p| - 1];
    RunOfDigits(q, []);
    assert q + [] == q;
    assert v < 0 ==> t == ['-'] + q && t[1..] == q;
    assert q[..|q|] == q;
    assert IsDigit(p[0]);
  }

  /** One frame of editing: an accepted digit is typed first, then backspace removes the last character. */
  function Edited(v: int, digit: int, backspace: bool): Outcome {
    if digit >= 0 then ParseOutcome(if backspace then v else Typed(v, digit))
    else if backspace then ParseOutcome(TruncDiv(v, 10))
    else Fits(v)
  }

  function Clamp(v: int, minValue: int, maxValue: int): int {
    if v > maxValue then maxValue else if v < minValue then minValue else v
  }

  /** Out of edit mode a value is brought to the nearest one in range, and then stays. */
  lemma ClampNearest(v: int, u: int, minValue: int, maxValue: int)
    requires minValue <= u <= maxValue
    ensures
      var c := Clamp(v, minValue, maxValue);
      minValue <= c <= maxValue && Abs(v - c) <= Abs(v - u) && Clamp(c, minValue, maxValue) == c
  {
  }

  /**
   * The value part of the control. `key` is the character code typed this frame (0 for none),
   * `narrow` whether the text is narrower than the box, `enabled` whether input is processed at all.
   */
  method GuiValueBox(value: int, minValue: int, maxValue: int, editMode: bool,
                     enabled: bool, narrow: bool, key: int, backspace: bool)
    returns (r: Outcome)
    requires IsInt(value)
    ensures !enabled ==> r == Fits(value)
    ensures enabled && !editMode ==> r == Fits(Clamp(value, minValue, maxValue))
    ensures enabled && editMode ==> r == Edited(value, if narrow && 48 <= key <= 57 then key - 48 else -1, backspace)
  {
    if !enabled {
      return Fits(value);
    }
    if !editMode {
      if value > maxValue {
        return Fits(maxValue);
      } else if value < minValue {
        return Fits(minValue);
      }
      return Fits(value);
    }
    r := EditText(value, narrow, key, backspace);
  }

  /** A digit key is appended to the text while there is room and the text is narrow enough. */
  method TypeKey(textValue: array<char>, ghost s: string, keyCount: nat, narrow: bool, key: int)
    returns (count: nat, typed: bool)
    requires textValue.Length == VALUEBOX_MAX_CHARS + 1 && ZeroFilled(textValue[..], s) && keyCount == |s|
    modifies textValue
    ensures typed <==> |s| < VALUEBOX_MAX_CHARS && narrow && 48 <= key <= 57
    ensures var now := if typed then s + [key as char] else s;
      ZeroFilled(textValue[..], now) && count == |now|
  {
    count, typed := keyCount, false;
    if keyCount < VALUEBOX_MAX_CHARS {
      if narrow {
        if 48 <= key <= 57 {
          PushChar(textValue[..], s, key as char);
          hide ZeroFilled;
          textValue[keyCount] := key as char;
          count, typed := keyCount + 1, true;
        }
      }
    }
  }

  /** Backspace takes the last character off, if there is one. */
  method TakeBack(textValue: array<char>, ghost s: string, keyCount: nat, backspace: bool)
    returns (count: nat, taken: bool)
    requires textValue.Length == VALUEBOX_MAX_CHARS + 1 && ZeroFilled(textValue[..], s) && keyCount == |s|
    modifies textValue
    ensures taken <==> s != [] && backspace
    ensures var now := if taken then s[..|s| - 1] else s;
      ZeroFilled(textValue[..], now) && count == |now|
  {
    count, taken := keyCount, false;
    if keyCount > 0 {
      if backspace {
        PopChar(textValue[..], s);
        hide ZeroFilled;
        textValue[keyCount - 1] := '\0';
        count, taken := keyCount - 1, true;
      }
    }
  }

  /** The number printed at the head of a zeroed buffer. */
  method PrintValue(value: int) returns (textValue: array<char>, count: nat)
    requires IsInt(value)
    ensures fresh(textValue) && textValue.Length == VALUEBOX_MAX_CHARS + 1
    ensures ZeroFilled(textValue[..], PrintInt(value)) && 1 <= count == |PrintInt(value)| <= 11
  {
    textValue := new char[VALUEBOX_MAX_CHARS + 1](_ => '\0');
    var printed := PrintInt(value);
    count := |printed|;
    PrintedFits(value);
    hide PrintInt;
    forall k | 0 <= k < |printed| {
      textValue[k] := printed[k];
    }
  }

  /** Edit mode: the number as text, in a fixed buffer, changed at its end and read back. */
  method EditText(value: int, narrow: bool, key: int, backspace: bool) returns (r: Outcome)
    requires IsInt(value)
    ensures r == Edited(value, if narrow && 48 <= key <= 57 then key - 48 else -1, backspace)
  {
    hide ZeroFilled, Edited, ParseOutcome, Parse, PrintInt;
    var textValue, count := PrintValue(value);
    ghost var printed := PrintInt(value);
    ghost var digit := if narrow && 48 <= key <= 57 then key - 48 else -1;
    EditedParse(value, digit, backspace);
    var keyCount, typed := TypeKey(textValue, printed, count, narrow, key);
    ghost var s := if typed then printed + [key as char] else printed;
    var kept, taken := TakeBack(textValue, s, keyCount, backspace);
    s := if taken then s[..|s| - 1] else s;
    r := Fits(value);
    if typed || taken {
      FilledIsCString(textValue[..], s);
      assert s == EditedText(value, digit, backspace);
      r := TextToInteger(textValue[..], s);
    }
  }

  function EditedText(v: int, digit: int, backspace: bool): string
    requires digit < 10
  {
    var s := if digit >= 0 then PrintInt(v) + [DigitChar(digit)] else PrintInt(v);
    if backspace then s[..|s| - 1] else s
  }

  lemma EditedParse(v: int, digit: int, backspace: bool)
    requires IsInt(v) && digit < 10
    ensures digit >= 0 || backspace
        ==> ParseOutcome(Parse(EditedText(v, digit, backspace))) == Edited(v, digit, backspace)
    ensures digit < 0 && !backspace ==> Edited(v, digit, backspace) == Fits(v)
  {
    if digit >= 0 {
      var c := DigitChar(digit);
      assert (PrintInt(v) + [c])[..|PrintInt(v)|] == PrintInt(v);
      ParseTyped(v, c);
    }
    PrintThenParse(v);
    ParseDeleted(v);
    hide Parse, ParseOutcome, PrintInt;
  }

  /** A string at the head of a buffer, zeros after it. */
  ghost predicate ZeroFilled(text: seq<char>, s: string) {
    |s| < |text| && '\0' !in s && text == s + seq(|text| - |s|, _ => '\0')
  }

  lemma PushChar(text: seq<char>, s: string, c: char)
    requires ZeroFilled(text, s) && |s| + 1 < |text| && c != '\0'
    ensures ZeroFilled(text[|s| := c], s + [c])
  {
    assert text[|s| := c] == s + [c] + seq(|text| - |s| - 1, _ => '\0');
  }

  lemma PopChar(text: seq<char>, s: string)
    requires ZeroFilled(text, s) && s != []
    ensures |s| <= |text| && ZeroFilled(text[|s| - 1 := '\0'], s[..|s| - 1])
  {
    assert text[|s| - 1 := '\0'] == s[..|s| - 1] + seq(|text| - |s| + 1, _ => '\0');
  }

  lemma FilledIsCString(text: seq<char>, s: string)
    requires ZeroFilled(text, s)
    ensures IsCString(text, 0, s, '\0')
  {
  }

  /** An `int` prints in at most eleven characters, none of them NUL. */
  lemma PrintedFits(v: int)
    requires IsInt(v)
    ensures 1 <= |PrintInt(v)| <= 11 && '\0' !in PrintInt(v)
  {
    assert Pow10(10) == 10000000000;
    PrintLength(Abs(v), 10);
  }

  // ----- Typing and deleting -----

  function Sign(v: int): int {
    if v >= 0 then 1 else -1
  }

  /** A run of digits typed one frame after the other. */
  function TypeAll(v: int, ds: string): Outcome
    requires AllDigits(ds)
  {
    if ds == [] then Fits(v)
    else match TypeAll(v, ds[..|ds| - 1])
      case Overflows => Overflows
      case Fits(w) => Edited(w, DigitValue(ds[|ds| - 1]), false)
  }

  function DeleteAll(v: int, n: nat): Outcome
    decreases n
  {
    if n == 0 then Fits(v)
    else match Edited(v, -1, true)
      case Overflows => Overflows
      case Fits(w) => DeleteAll(w, n - 1)
  }

  /** A number with n appended below p, away from zero. */
  function Appended(v: int, p: nat, n: nat): int {
    v * p + Sign(v) * n
  }

  /** Exactly which digits can be typed, and the number they make. */
  lemma {:induction false} TypeAllValue(v: int, ds: string)
    requires AllDigits(ds) && Abs(v) <= INT_MAX
    ensures TypeAll(v, ds) == ParseOutcome(Appended(v, Pow10(|ds|), Value(ds)))
  {
    hide Appended;
    if ds == [] {
      AppendNothing(v);
    } else {
      var init, d := ds[..|ds| - 1], DigitValue(ds[|ds| - 1]);
      TypeAllValue(v, init);
      assert Pow10(|ds|) == 10 * Pow10(|init|) && Value(ds) == Value(init) * 10 + d;
      AppendDigit(v, Pow10(|init|), Value(init), d);
    }
  }

  lemma AppendNothing(v: int)
    ensures Appended(v, 1, 0) == v
  {
  }

  /** Appending one more digit is typing it. */
  lemma AppendDigit(v: int, p: nat, n: nat, d: nat)
    requires p > 0 && d < 10
    ensures Typed(Appended(v, p, n), d) == Appended(v, 10 * p, n * 10 + d)
    ensures Abs(Appended(v, p, n)) <= INT_MAX || Abs(Appended(v, 10 * p, n * 10 + d)) > INT_MAX
  {
    assert v * (10 * p) == 10 * (v * p);
    if v < 0 { assert v * p <= -1 * p; }
  }

  /** Typing any digits that do not overflow and deleting as many characters restores the value. */
  lemma {:induction false} TypeThenDelete(v: int, ds: string)
    requires AllDigits(ds) && TypeAll(v, ds).Fits?
    ensures DeleteAll(TypeAll(v, ds).value, |ds|) == Fits(v)
  {
    if ds != [] {
      var init, d := ds[..|ds| - 1], DigitValue(ds[|ds| - 1]);
      var w := TypeAll(v, init).value;
      assert TruncDiv(Typed(w, d), 10) == w;
      DeleteLast(w, d);
      TypeThenDelete(v, init);
    }
  }

  lemma DeleteLast(w: int, d: nat)
    requires d < 10 && Abs(Typed(w, d)) <= INT_MAX
    ensures Edited(Typed(w, d), -1, true) == Fits(w)
  {
  }
}
