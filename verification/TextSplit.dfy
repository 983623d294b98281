/** GuiTextSplit of ext/raygui.h: a text cut in place, in a static buffer, at a delimiter and at newlines. */
module TextSplit {
  import opened RealArith
  import opened CTypes
  import opened Utf8

  const MAX_ITEMS: nat := 128
  const MAX_TEXT_SIZE: nat := 1024
  const NEWLINE: Codepoint := 0x0a

  // ----- What splitting means; bytes are code points below 0x100, so this covers both -----

  predicate IsSeparator(b: Codepoint, delimiter: Codepoint) {
    b == delimiter || b == NEWLINE
  }

  /** The pieces between separators, the last one possibly empty. */
  function Split(t: seq<Codepoint>, delimiter: Codepoint): (ps: seq<seq<Codepoint>>)
    ensures |ps| >= 1
  {
    if t == [] then [[]]
    else
      var ps := Split(t[..|t| - 1], delimiter);
      if IsSeparator(t[|t| - 1], delimiter) then ps + [[]]
      else ps[|ps| - 1 := ps[|ps| - 1] + [t[|t| - 1]]]
  }

  function Separators(t: seq<Codepoint>, delimiter: Codepoint): seq<Codepoint> {
    if t == [] then []
    else
      Separators(t[..|t| - 1], delimiter)
      + (if IsSeparator(t[|t| - 1], delimiter) then [t[|t| - 1]] else [])
  }

  /** Pieces put back together with the separators between them. */
  function Rejoin(ps: seq<seq<Codepoint>>, seps: seq<Codepoint>): seq<Codepoint>
    requires |ps| == |seps| + 1
  {
    if seps == [] then ps[0]
    else Rejoin(ps[..|ps| - 1], seps[..|seps| - 1]) + [seps[|seps| - 1]] + ps[|ps| - 1]
  }

  function Newlines(t: seq<Codepoint>): nat {
    if t == [] then 0 else Newlines(t[..|t| - 1]) + (if t[|t| - 1] == NEWLINE then 1 else 0)
  }

  /** The row of a piece is how often a newline occurs before it. */
  lemma {:induction false} NewlinesCounted(t: seq<Codepoint>)
    ensures Newlines(t) == multiset(t)[NEWLINE]
  {
    if t != [] {
      NewlinesCounted(t[..|t| - 1]);
      assert t == t[..|t| - 1] + [t[|t| - 1]];
    }
  }

  ghost predicate Clean(p: seq<Codepoint>, delimiter: Codepoint) {
    forall b :: b in p ==> !IsSeparator(b, delimiter)
  }

  /** The pieces hold no separator, and rejoined with the separators they give the text back. */
  lemma {:induction false} RejoinSplit(t: seq<Codepoint>, delimiter: Codepoint)
    ensures |Split(t, delimiter)| == |Separators(t, delimiter)| + 1
    ensures Rejoin(Split(t, delimiter), Separators(t, delimiter)) == t
    ensures forall p :: p in Split(t, delimiter) ==> Clean(p, delimiter)
    ensures forall b :: b in Separators(t, delimiter) ==> IsSeparator(b, delimiter)
  {
    if t != [] {
      var init, last := t[..|t| - 1], t[|t| - 1];
      RejoinSplit(init, delimiter);
      var ps, seps := Split(init, delimiter), Separators(init, delimiter);
      if IsSeparator(last, delimiter) {
        assert (ps + [[]])[..|ps|] == ps && (seps + [last])[..|seps|] == seps;
        assert init + [last] + [] == t;
      } else {
        assert Separators(t, delimiter) == seps;
        RejoinGrow(ps, seps, last);
        assert ps[|ps| - 1] in ps;
      }
    }
  }

  /** One more character either closes the last piece or extends it. */
  lemma SplitSnoc(t: seq<Codepoint>, b: Codepoint, delimiter: Codepoint)
    ensures
      var ps := Split(t, delimiter);
      Split(t + [b], delimiter) == if IsSeparator(b, delimiter) then ps + [[]] else ps[|ps| - 1 := ps[|ps| - 1] + [b]]
    ensures Separators(t + [b], delimiter)
         == if IsSeparator(b, delimiter) then Separators(t, delimiter) + [b] else Separators(t, delimiter)
  {
    assert (t + [b])[..|t|] == t;
  }

  lemma RejoinGrow(ps: seq<seq<Codepoint>>, seps: seq<Codepoint>, b: Codepoint)
    requires |ps| == |seps| + 1
    ensures Rejoin(ps[|ps| - 1 := ps[|ps| - 1] + [b]], seps) == Rejoin(ps, seps) + [b]
  {
    var qs := ps[|ps| - 1 := ps[|ps| - 1] + [b]];
    if seps != [] {
      assert qs[..|qs| - 1] == ps[..|ps| - 1];
    }
  }

  /** There is only one way to cut a text into separator-free pieces. */
  lemma {:induction false} SplitUnique(ps: seq<seq<Codepoint>>, seps: seq<Codepoint>, delimiter: Codepoint)
    requires |ps| == |seps| + 1
    requires forall p :: p in ps ==> Clean(p, delimiter)
    requires forall b :: b in seps ==> IsSeparator(b, delimiter)
    ensures Split(Rejoin(ps, seps), delimiter) == ps
    ensures Separators(Rejoin(ps, seps), delimiter) == seps
    decreases |ps|
  {
    hide Split, Separators, Clean, IsSeparator;
    var last := ps[|ps| - 1];
    assert last in ps;
    if seps == [] {
      SplitSole(last, delimiter);
      assert ps == [last];
    } else {
      var qs, rest := ps[..|ps| - 1], seps[..|seps| - 1];
      assert forall p :: p in qs ==> p in ps;
      assert forall b :: b in rest ==> b in seps;
      SplitUnique(qs, rest, delimiter);
      var sep := seps[|seps| - 1];
      assert sep in seps;
      assert qs + [last] == ps && rest + [sep] == seps;
      SplitUniqueStep(Rejoin(qs, rest), sep, last, delimiter);
    }
  }

  lemma SplitSole(p: seq<Codepoint>, delimiter: Codepoint)
    requires Clean(p, delimiter)
    ensures Split(p, delimiter) == [p] && Separators(p, delimiter) == []
  {
    SplitAppendClean([], p, delimiter);
    assert [] + p == p;
  }

  lemma SplitUniqueStep(t: seq<Codepoint>, sep: Codepoint, last: seq<Codepoint>, delimiter: Codepoint)
    requires IsSeparator(sep, delimiter) && Clean(last, delimiter)
    ensures Split(t + [sep] + last, delimiter) == Split(t, delimiter) + [last]
    ensures Separators(t + [sep] + last, delimiter) == Separators(t, delimiter) + [sep]
  {
    hide Split, Separators, Clean;
    SplitSnoc(t, sep, delimiter);
    SplitAppendClean(t + [sep], last, delimiter);
    var ps := Split(t, delimiter);
    assert [] + last == last;
    assert (ps + [[]])[|ps| := last] == ps + [last];
  }

  lemma {:induction false} SplitAppendClean(t: seq<Codepoint>, p: seq<Codepoint>, delimiter: Codepoint)
    requires Clean(p, delimiter)
    ensures
      var ps := Split(t, delimiter);
      Split(t + p, delimiter) == ps[|ps| - 1 := ps[|ps| - 1] + p]
    ensures Separators(t + p, delimiter) == Separators(t, delimiter)
    decreases |p|
  {
    var ps := Split(t, delimiter);
    if p == [] {
      assert t + p == t;
      assert ps[|ps| - 1] + p == ps[|ps| - 1];
    } else {
      var init, last := p[..|p| - 1], p[|p| - 1];
      assert forall b :: b in init ==> b in p;
      assert last in p;
      SplitAppendClean(t, init, delimiter);
      hide Clean, IsSeparator;
      assert (t + p)[..|t + p| - 1] == t + init;
      assert ps[|ps| - 1] + init + [last] == ps[|ps| - 1] + p;
    }
  }

  /** Reading on never changes the pieces already closed. */
  lemma {:induction false} SplitPrefix(t: seq<Codepoint>, i: nat, delimiter: Codepoint)
    requires i <= |t|
    ensures
      var ps, qs := Split(t[..i], delimiter), Split(t, delimiter);
      |ps| <= |qs| && ps[..|ps| - 1] == qs[..|ps| - 1]
    decreases |t|
  {
    if i == |t| {
      assert t[..i] == t;
    } else {
      assert t[..|t| - 1][..i] == t[..i];
      SplitPrefix(t[..|t| - 1], i, delimiter);
    }
  }

  // ----- Splitting text and splitting characters is the same thing -----

  function EncodePieces(ps: seq<seq<Codepoint>>): seq<seq<Codepoint>> {
    seq(|ps|, k requires 0 <= k < |ps| => EncodeAll(ps[k]))
  }

  lemma {:induction false} EncodeAppend(cs: seq<Codepoint>, c: Codepoint)
    ensures EncodeAll(cs + [c]) == EncodeAll(cs) + CodepointToUTF8(c)
  {
    hide CodepointToUTF8;
    if cs == [] {
      assert cs + [c] == [c] && [c][1..] == [];
      assert EncodeAll([c]) == CodepointToUTF8(c) + [];
    } else {
      EncodeAppend(cs[1..], c);
      assert (cs + [c])[1..] == cs[1..] + [c];
      assert (cs + [c])[0] == cs[0];
    }
  }

  /** Cutting UTF-8 bytes at an ASCII delimiter gives the encodings of the cut characters: none is cut in two. */
  lemma {:induction false} SplitCommutesWithEncoding(cs: seq<Codepoint>, delimiter: Codepoint)
    requires delimiter <= 0x7f
    requires forall c :: c in cs ==> IsCodepoint(c)
    ensures Split(EncodeAll(cs), delimiter) == EncodePieces(Split(cs, delimiter))
    ensures Separators(EncodeAll(cs), delimiter) == Separators(cs, delimiter)
    decreases |cs|
  {
    if cs != [] {
      var init, last := cs[..|cs| - 1], cs[|cs| - 1];
      assert cs == init + [last];
      assert forall c :: c in init ==> c in cs;
      assert last in cs;
      SplitCommutesWithEncoding(init, delimiter);
      CommuteOne(init, last, delimiter);
    } else {
      assert EncodePieces([[]]) == [[]];
    }
  }

  lemma CommuteOne(init: seq<Codepoint>, last: Codepoint, delimiter: Codepoint)
    requires delimiter <= 0x7f && IsCodepoint(last)
    requires Split(EncodeAll(init), delimiter) == EncodePieces(Split(init, delimiter))
    requires Separators(EncodeAll(init), delimiter) == Separators(init, delimiter)
    ensures Split(EncodeAll(init + [last]), delimiter) == EncodePieces(Split(init + [last], delimiter))
    ensures Separators(EncodeAll(init + [last]), delimiter) == Separators(init + [last], delimiter)
  {
    hide CodepointToUTF8, EncodeAll, Split, Separators, IsSeparator;
    var t, s, ps := EncodeAll(init), CodepointToUTF8(last), Split(init, delimiter);
    EncodeAppend(init, last);
    SplitSnoc(init, last, delimiter);
    SeparatorEncoding(last, delimiter);
    if IsSeparator(last, delimiter) {
      SplitSnoc(t, last, delimiter);
      EncodeEmpty();
      assert EncodePieces(ps + [[]]) == EncodePieces(ps) + [[]];
    } else {
      SplitAppendClean(t, s, delimiter);
      EncodeAppend(ps[|ps| - 1], last);
      assert EncodePieces(ps[|ps| - 1 := ps[|ps| - 1] + [last]])
          == EncodePieces(ps)[|ps| - 1 := EncodeAll(ps[|ps| - 1]) + s];
    }
  }

  lemma EncodeEmpty()
    ensures EncodeAll([]) == []
  {
  }

  lemma SeparatorEncoding(c: Codepoint, delimiter: Codepoint)
    requires delimiter <= 0x7f && IsCodepoint(c)
    ensures IsSeparator(c, delimiter) ==> CodepointToUTF8(c) == [c]
    ensures !IsSeparator(c, delimiter) ==> Clean(CodepointToUTF8(c), delimiter)
  {
    EncodedBytes(c);
    hide CodepointToUTF8;
  }

  // ----- The buffers -----

  /** What 128 slots can report: a 128th piece is started but its text is never copied. */
  function Kept(t: seq<Codepoint>, delimiter: Codepoint): seq<seq<Codepoint>> {
    var ps := Split(t, delimiter);
    if |ps| < MAX_ITEMS then ps else ps[..MAX_ITEMS - 1] + [[]]
  }

  /** Nothing is lost exactly when there are at most 126 separators, or 127 with the last one at the end. */
  lemma KeptExactly(t: seq<Codepoint>, delimiter: Codepoint)
    ensures Kept(t, delimiter) == Split(t, delimiter)
       <==> (|Separators(t, delimiter)| <= 126
             || (|Separators(t, delimiter)| == 127 && IsSeparator(t[|t| - 1], delimiter)))
    ensures forall k :: 0 <= k < 127 && k < |Split(t, delimiter)| ==>
      k < |Kept(t, delimiter)| && Kept(t, delimiter)[k] == Split(t, delimiter)[k]
    ensures |Kept(t, delimiter)| == Min(|Split(t, delimiter)|, 128)
  {
    RejoinSplit(t, delimiter);
    var ps := Split(t, delimiter);
    if |Separators(t, delimiter)| == 127 {
      assert ps == ps[..127] + [ps[127]];
      assert t != [];
      if !IsSeparator(t[|t| - 1], delimiter) {
        assert ps[127] != [];
      }
    }
  }

  ghost predicate IsContent(text: seq<Byte>, t: seq<Byte>) {
    |t| < |text| && text[..|t|] == t && text[|t|] == 0 && 0 !in t
  }

  /** What the loop reads of a text: up to its NUL, or a buffer full. */
  ghost predicate IsRead(text: seq<Byte>, t: seq<Byte>) {
    && |t| <= |text| && |t| <= MAX_TEXT_SIZE && text[..|t|] == t && 0 !in t
    && (|t| < MAX_TEXT_SIZE ==> |t| < |text| && text[|t|] == 0)
  }

  /** One piece in the buffer: the bytes from its offset, none of them NUL. */
  ghost predicate Holds(buffer: seq<Codepoint>, at: int, p: seq<Codepoint>) {
    && 0 <= at && at + |p| <= |buffer|
    && buffer[at..at + |p|] == p
    && 0 !in p
  }

  /** How far the loop has got: i bytes read, their pieces laid out in the buffer, zeros beyond. */
  ghost predicate LaidOut(buffer: seq<Codepoint>, result: seq<int>, ps: seq<seq<Codepoint>>, i: nat) {
    && |buffer| == MAX_TEXT_SIZE && |result| == MAX_ITEMS
    && i <= MAX_TEXT_SIZE
    && 1 <= |ps| <= MAX_ITEMS
    && (forall k | 0 <= k < |ps| :: Holds(buffer, result[k], ps[k]))
    && (forall k | 0 <= k < |ps| - 1 :: result[k] + |ps[k]| < i && buffer[result[k] + |ps[k]|] == 0)
    && result[|ps| - 1] + |ps[|ps| - 1]| == i
    && (forall j | i <= j < MAX_TEXT_SIZE :: buffer[j] == 0)
  }

  lemma HoldsBelow(buffer: seq<Codepoint>, at: int, p: seq<Codepoint>, i: nat, b: Codepoint)
    requires Holds(buffer, at, p) && at + |p| <= i < |buffer|
    ensures Holds(buffer[i := b], at, p)
  {
    assert buffer[i := b][at..at + |p|] == buffer[at..at + |p|];
  }

  lemma HoldsMore(buffer: seq<Codepoint>, at: int, p: seq<Codepoint>, b: Codepoint)
    requires Holds(buffer, at, p) && at + |p| < |buffer| && b != 0
    ensures Holds(buffer[at + |p| := b], at, p + [b])
  {
    var after := buffer[at + |p| := b];
    assert after[at..at + |p|] == p;
    assert after[at..at + |p| + 1] == after[at..at + |p|] + [b];
  }

  lemma LayCharacter(buffer: seq<Codepoint>, result: seq<int>, ps: seq<seq<Codepoint>>, i: nat, b: Codepoint)
    requires LaidOut(buffer, result, ps, i) && i < MAX_TEXT_SIZE && b != 0
    ensures LaidOut(buffer[i := b], result, ps[|ps| - 1 := ps[|ps| - 1] + [b]], i + 1)
  {
    hide Holds;
    var n := |ps| - 1;
    var after, qs := buffer[i := b], ps[n := ps[n] + [b]];
    forall k | 0 <= k < |qs|
      ensures Holds(after, result[k], qs[k])
    {
      if k < n { HoldsBelow(buffer, result[k], ps[k], i, b); } else { HoldsMore(buffer, result[n], ps[n], b); }
    }
    HoldsInside(buffer, result, ps, i);
  }

  lemma HoldsInside(buffer: seq<Codepoint>, result: seq<int>, ps: seq<seq<Codepoint>>, i: nat)
    requires LaidOut(buffer, result, ps, i)
    ensures forall k | 0 <= k < |ps| :: 0 <= result[k] && result[k] + |ps[k]| <= i
  {
  }

  lemma LaySeparator(buffer: seq<Codepoint>, result: seq<int>, ps: seq<seq<Codepoint>>, i: nat)
    requires LaidOut(buffer, result, ps, i) && i < MAX_TEXT_SIZE && |ps| < MAX_ITEMS
    ensures LaidOut(buffer, result[|ps| := i + 1], ps + [[]], i + 1)
  {
    var after, qs := result[|ps| := i + 1], ps + [[]];
    assert Holds(buffer, i + 1, []) by { assert buffer[i + 1..i + 1] == []; }
    hide Holds;
    HoldsInside(buffer, result, ps, i);
    forall k | 0 <= k < |qs|
      ensures Holds(buffer, after[k], qs[k])
    {
      if k < |ps| { assert qs[k] == ps[k] && after[k] == result[k]; }
    }
  }

  /** Row numbers count the newlines met before each piece. */
  ghost predicate RowsSet(rows: seq<int>, seps: seq<Codepoint>, counter: nat) {
    && counter <= |rows| && counter <= |seps| + 1
    && (forall k | 0 <= k < counter :: rows[k] == Newlines(seps[..k]))
  }

  function NextRow(rows: seq<int>, counter: nat, sep: Codepoint): seq<int>
    requires 0 < counter < |rows|
  {
    rows[counter := rows[counter - 1] + (if sep == NEWLINE then 1 else 0)]
  }

  lemma RowsSnoc(rows: seq<int>, seps: seq<Codepoint>, sep: Codepoint)
    requires RowsSet(rows, seps, |seps| + 1) && |seps| + 1 < |rows|
    ensures RowsSet(NextRow(rows, |seps| + 1, sep), seps + [sep], |seps| + 2)
  {
    var more := seps + [sep];
    assert more[..|seps| + 1] == more && more[..|seps|] == seps && seps[..|seps|] == seps;
    assert forall k :: 0 <= k <= |seps| ==> more[..k] == seps[..k];
  }

  lemma {:induction false} SeparatorsPrefix(t: seq<Codepoint>, i: nat, delimiter: Codepoint)
    requires i <= |t|
    ensures Separators(t[..i], delimiter) <= Separators(t, delimiter)
    decreases |t|
  {
    if i == |t| {
      assert t[..i] == t;
    } else {
      assert t[..|t| - 1][..i] == t[..i];
      SeparatorsPrefix(t[..|t| - 1], i, delimiter);
    }
  }

  lemma RowsOfWhole(rows: seq<int>, t: seq<Codepoint>, i: nat, delimiter: Codepoint, counter: nat)
    requires i <= |t| && RowsSet(rows, Separators(t[..i], delimiter), counter)
    ensures RowsSet(rows, Separators(t, delimiter), counter)
  {
    SeparatorsPrefix(t, i, delimiter);
    var few, all := Separators(t[..i], delimiter), Separators(t, delimiter);
    assert forall k :: 0 <= k <= |few| ==> few[..k] == all[..k];
  }

  /** Slots from the counter on are as they were. */
  ghost predicate SameBeyond(now: seq<int>, was: seq<int>, counter: nat) {
    |now| == |was| && forall k | counter <= k < |now| :: now[k] == was[k]
  }

  /** The results point at the pieces in the buffer, C strings all but perhaps the last. */
  ghost predicate PointAt(buffer: seq<Codepoint>, result: seq<int>, ps: seq<seq<Codepoint>>, closed: bool) {
    && 0 < |ps| <= |result|
    && (forall k | 0 <= k < |ps| :: Holds(buffer, result[k], ps[k]))
    && (forall k | 0 <= k < |ps| - 1 :: IsCString(buffer, result[k], ps[k], 0))
    && (IsCString(buffer, result[|ps| - 1], ps[|ps| - 1], 0) <==> closed)
  }

  /** A row array shorter than the slots has room exactly for texts with fewer separators than it has rows. */
  lemma RowsFit(t: seq<Codepoint>, delimiter: Codepoint, n: nat)
    requires 1 <= n < MAX_ITEMS
    ensures |Kept(t, delimiter)| <= n <==> |Separators(t, delimiter)| < n
  {
    RejoinSplit(t, delimiter);
  }

  /** Every piece but the last is closed by a NUL; the last one by the zeros beyond, if there are any. */
  lemma LaidOutAreCStrings(buffer: seq<Codepoint>, result: seq<int>, ps: seq<seq<Codepoint>>, i: nat)
    requires LaidOut(buffer, result, ps, i)
    ensures PointAt(buffer, result, ps, i < MAX_TEXT_SIZE)
  {
  }

  /** When the slots run out, the pieces closed so far are the ones kept. */
  lemma KeptWhenFull(t: seq<Codepoint>, i: nat, delimiter: Codepoint)
    requires i < |t| && IsSeparator(t[i], delimiter) && |Split(t[..i], delimiter)| == MAX_ITEMS - 1
    ensures Kept(t, delimiter) == Split(t[..i], delimiter) + [[]]
    ensures |Split(t, delimiter)| >= MAX_ITEMS
  {
    var ps := Split(t[..i], delimiter);
    assert t[..i + 1] == t[..i] + [t[i]];
    SplitSnoc(t[..i], t[i], delimiter);
    SplitPrefix(t, i + 1, delimiter);
    assert (ps + [[]])[..|ps|] == ps;
  }

  // ----- The loop, on the values of its buffers -----

  /** The first i bytes are split and laid out, in slots below the counter. */
  ghost predicate Placed(t: seq<Codepoint>, delimiter: Codepoint, buffer: seq<Codepoint>, result: seq<int>,
                         was: seq<int>, i: nat, counter: nat)
  {
    && i <= |t| && counter == |Split(t[..i], delimiter)|
    && LaidOut(buffer, result, Split(t[..i], delimiter), i)
    && SameBeyond(result, was, counter)
  }

  lemma Start(t: seq<Codepoint>, delimiter: Codepoint, buffer: seq<Codepoint>, result: seq<int>, was: seq<int>)
    requires |buffer| == MAX_TEXT_SIZE && |was| == MAX_ITEMS && result == was[0 := 0]
    requires forall j | 0 <= j < MAX_TEXT_SIZE :: buffer[j] == 0
    ensures Placed(t, delimiter, buffer, result, was, 0, 1)
  {
    assert t[..0] == [] && buffer[0..0] == [];
  }

  lemma NextByte(text: seq<Byte>, t: seq<Byte>, i: nat)
    requires IsRead(text, t) && i <= |t| && i < MAX_TEXT_SIZE
    ensures |t| <= MAX_TEXT_SIZE && i < |text| && text[i] == (if i < |t| then t[i] else 0) && (i < |t| ==> t[i] != 0)
  {
  }

  lemma EndsLoop(t: seq<Codepoint>, delimiter: Codepoint, i: nat, counter: nat)
    requires counter < MAX_ITEMS
    ensures i == |t| ==> Ended(t, delimiter, i, counter)
    ensures i < |t| && IsSeparator(t[i], delimiter) && counter + 1 == MAX_ITEMS
        ==> Ended(t, delimiter, i + 1, counter + 1)
  {
  }

  lemma PlacedTail(t: seq<Codepoint>, delimiter: Codepoint, buffer: seq<Codepoint>, result: seq<int>,
                   was: seq<int>, i: nat, counter: nat)
    requires Placed(t, delimiter, buffer, result, was, i, counter)
    ensures |buffer| == MAX_TEXT_SIZE && |result| == MAX_ITEMS && i <= MAX_TEXT_SIZE
        && (i < MAX_TEXT_SIZE ==> buffer[i] == 0)
  {
  }

  lemma RoomForPiece(t: seq<Codepoint>, delimiter: Codepoint, buffer: seq<Codepoint>, result: seq<int>,
                     was: seq<int>, i: nat, counter: nat)
    requires Placed(t, delimiter, buffer, result, was, i, counter)
    requires i < |t| && IsSeparator(t[i], delimiter)
    ensures counter < |Split(t, delimiter)|
  {
    hide LaidOut, SameBeyond, Split, Separators, IsSeparator;
    assert t[..i + 1] == t[..i] + [t[i]];
    SplitSnoc(t[..i], t[i], delimiter);
    SplitPrefix(t, i + 1, delimiter);
  }

  lemma PlaceCharacter(t: seq<Codepoint>, delimiter: Codepoint, buffer: seq<Codepoint>, result: seq<int>,
                       was: seq<int>, i: nat, counter: nat)
    requires Placed(t, delimiter, buffer, result, was, i, counter)
    requires i < |t| <= MAX_TEXT_SIZE && t[i] != 0 && !IsSeparator(t[i], delimiter)
    ensures |buffer| == MAX_TEXT_SIZE && Placed(t, delimiter, buffer[i := t[i]], result, was, i + 1, counter)
  {
    assert t[..i + 1] == t[..i] + [t[i]];
    SplitSnoc(t[..i], t[i], delimiter);
    LayCharacter(buffer, result, Split(t[..i], delimiter), i, t[i]);
    hide LaidOut, Split;
  }

  lemma PlaceCut(t: seq<Codepoint>, delimiter: Codepoint, buffer: seq<Codepoint>, result: seq<int>,
                 was: seq<int>, i: nat, counter: nat)
    requires Placed(t, delimiter, buffer, result, was, i, counter)
    requires i < |t| <= MAX_TEXT_SIZE && IsSeparator(t[i], delimiter) && counter < MAX_ITEMS
    ensures |result| == MAX_ITEMS && Placed(t, delimiter, buffer, result[counter := i + 1], was, i + 1, counter + 1)
  {
    assert t[..i + 1] == t[..i] + [t[i]];
    SplitSnoc(t[..i], t[i], delimiter);
    LaySeparator(buffer, result, Split(t[..i], delimiter), i);
    hide LaidOut, Split;
  }

  /** The loop ends at the NUL, or on the separator that fills the last slot. */
  ghost predicate Ended(t: seq<Codepoint>, delimiter: Codepoint, i: nat, counter: nat) {
    if counter < MAX_ITEMS then i == |t|
    else counter == MAX_ITEMS && 0 < i <= |t| && IsSeparator(t[i - 1], delimiter)
  }

  lemma Finish(t: seq<Codepoint>, delimiter: Codepoint, buffer: seq<Codepoint>, result: seq<int>,
               was: seq<int>, i: nat, counter: nat)
    requires Placed(t, delimiter, buffer, result, was, i, counter)
    requires Ended(t, delimiter, i, counter)
    ensures counter == |Kept(t, delimiter)| <= |result| && SameBeyond(result, was, counter)
    ensures PointAt(buffer, result, Kept(t, delimiter), i < MAX_TEXT_SIZE)
  {
    LaidOutAreCStrings(buffer, result, Split(t[..i], delimiter), i);
    hide PointAt, Holds;
    if counter < MAX_ITEMS {
      assert t[..i] == t;
    } else {
      assert t[..i] == t[..i - 1] + [t[i - 1]];
      SplitSnoc(t[..i - 1], t[i - 1], delimiter);
      KeptWhenFull(t, i - 1, delimiter);
    }
  }

  /** What the loop can read of a text: as much as the buffer holds. */
  function ReadPart(t: seq<Codepoint>): seq<Codepoint> {
    t[..Min(|t|, MAX_TEXT_SIZE)]
  }

  /**
   * Room is left for the NUL after the last piece: the text ends, or the slots run out, before the last byte
   * of the buffer.
   */
  predicate RoomForNul(t: seq<Codepoint>, delimiter: Codepoint) {
    |t| < MAX_TEXT_SIZE || |Separators(t[..MAX_TEXT_SIZE - 1], delimiter)| >= MAX_ITEMS - 1
  }

  lemma EndsWithRoom(t: seq<Codepoint>, delimiter: Codepoint, i: nat, counter: nat)
    requires i <= |ReadPart(t)| && counter == |Separators(ReadPart(t)[..i], delimiter)| + 1
    requires Ended(ReadPart(t), delimiter, i, counter)
    ensures i < MAX_TEXT_SIZE <==> RoomForNul(t, delimiter)
  {
    var s := ReadPart(t);
    if |t| >= MAX_TEXT_SIZE {
      var most := t[..MAX_TEXT_SIZE - 1];
      assert s[..i] == t[..i];
      if i < MAX_TEXT_SIZE {
        assert most[..i] == t[..i];
        SeparatorsPrefix(most, i, delimiter);
      } else {
        assert s[..i] == most + [t[MAX_TEXT_SIZE - 1]];
        SplitSnoc(most, t[MAX_TEXT_SIZE - 1], delimiter);
      }
    }
  }

  lemma PlacedCount(t: seq<Codepoint>, delimiter: Codepoint, buffer: seq<Codepoint>, result: seq<int>,
                    was: seq<int>, i: nat, counter: nat)
    requires Placed(t, delimiter, buffer, result, was, i, counter)
    ensures counter == |Separators(t[..i], delimiter)| + 1
  {
    RejoinSplit(t[..i], delimiter);
  }

  /** The rows of the first i bytes are set, in slots below the counter. */
  ghost predicate Numbered(t: seq<Codepoint>, delimiter: Codepoint, rows: seq<int>, was: seq<int>, i: nat,
                           counter: nat) {
    && i <= |t| && counter == |Separators(t[..i], delimiter)| + 1
    && RowsSet(rows, Separators(t[..i], delimiter), counter) && SameBeyond(rows, was, counter)
  }

  lemma StartRows(t: seq<Codepoint>, delimiter: Codepoint, rows: seq<int>, was: seq<int>)
    requires 0 < |was| && rows == was[0 := 0]
    ensures Numbered(t, delimiter, rows, was, 0, 1)
  {
    assert t[..0] == [];
  }

  lemma NumberCharacter(t: seq<Codepoint>, delimiter: Codepoint, rows: seq<int>, was: seq<int>, i: nat, counter: nat)
    requires Numbered(t, delimiter, rows, was, i, counter) && i < |t| && !IsSeparator(t[i], delimiter)
    ensures Numbered(t, delimiter, rows, was, i + 1, counter)
  {
    assert t[..i + 1] == t[..i] + [t[i]];
    SplitSnoc(t[..i], t[i], delimiter);
  }

  lemma NumberCut(t: seq<Codepoint>, delimiter: Codepoint, rows: seq<int>, was: seq<int>, i: nat, counter: nat)
    requires Numbered(t, delimiter, rows, was, i, counter) && i < |t| && IsSeparator(t[i], delimiter)
    requires 0 < counter < |rows|
    ensures Numbered(t, delimiter, NextRow(rows, counter, t[i]), was, i + 1, counter + 1)
  {
    assert t[..i + 1] == t[..i] + [t[i]];
    SplitSnoc(t[..i], t[i], delimiter);
    RowsSnoc(rows, Separators(t[..i], delimiter), t[i]);
  }

  lemma FinishRows(t: seq<Codepoint>, delimiter: Codepoint, rows: seq<int>, was: seq<int>, i: nat, counter: nat)
    requires Numbered(t, delimiter, rows, was, i, counter)
    ensures RowsSet(rows, Separators(t, delimiter), counter) && SameBeyond(rows, was, counter)
  {
    RowsOfWhole(rows, t, i, delimiter, counter);
  }

  /** The static buffers of the splitter; `result` holds offsets into `buffer` for C's pointers. */
  class Splitter {
    const buffer: array<Codepoint>
    const result: array<int>

    ghost predicate Valid() {
      buffer.Length == MAX_TEXT_SIZE && result.Length == MAX_ITEMS && buffer as object != result
    }

    constructor ()
      ensures Valid() && fresh(buffer) && fresh(result)
    {
      buffer := new Codepoint[MAX_TEXT_SIZE](_ => 0);
      result := new int[MAX_ITEMS](_ => 0);
    }

    /** The buffer zeroed, the first piece started at its head, in row 0. */
    method Reset(textRow: array?<int>)
      requires Valid()
      requires textRow != null ==> textRow != result && textRow as object != buffer && textRow.Length > 0
      modifies buffer, result, textRow
      ensures forall j | 0 <= j < MAX_TEXT_SIZE :: buffer[j] == 0
      ensures result[..] == old(result[..])[0 := 0]
      ensures textRow != null ==> textRow[..] == old(textRow[..])[0 := 0]
    {
      forall j | 0 <= j < MAX_TEXT_SIZE {
        buffer[j] := 0;
      }
      result[0] := 0;
      if textRow != null {
        textRow[0] := 0;
      }
    }

    /** The cut at byte i: the next result starts after it, one row further if the byte is a newline. */
    method CutAt(i: nat, counter: nat, textRow: array?<int>)
      requires Valid() && i < MAX_TEXT_SIZE && 0 < counter < MAX_ITEMS
      requires textRow != null ==> textRow != result && textRow as object != buffer && counter < textRow.Length
      modifies buffer, result, textRow
      ensures buffer[..] == old(buffer[..])[i := 0]
      ensures result[..] == old(result[..])[counter := i + 1]
      ensures textRow != null ==> textRow[..] == NextRow(old(textRow[..]), counter, old(buffer[i]))
    {
      result[counter] := i + 1;
      if textRow != null {
        if buffer[i] == NEWLINE {
          textRow[counter] := textRow[counter - 1] + 1;
        } else {
          textRow[counter] := textRow[counter - 1];
        }
      }
      buffer[i] := 0;
    }

    /**
     * Cuts a text, or the first 1024 bytes of a longer one. Each result points at its piece, a C string
     * in the buffer, except that the last piece may be left without its NUL; each row is the number of
     * newlines before the piece, and slots past the count keep what they held.
     */
    method GuiTextSplit(text: seq<Byte>, delimiter: Byte, textRow: array?<int>, ghost t: seq<Byte>) returns (count: nat)
      requires Valid() && IsContent(text, t)
      requires textRow != null ==> textRow != result && textRow as object != buffer
      requires textRow != null ==> textRow.Length >= Min(|Split(ReadPart(t), delimiter)|, MAX_ITEMS)
      modifies buffer, result, textRow
      ensures count == |Kept(ReadPart(t), delimiter)|
      ensures PointAt(buffer[..], result[..], Kept(ReadPart(t), delimiter), RoomForNul(t, delimiter))
      ensures textRow != null ==> RowsSet(textRow[..], Separators(ReadPart(t), delimiter), count)
      ensures textRow != null ==> SameBeyond(textRow[..], old(textRow[..]), count)
      ensures SameBeyond(result[..], old(result[..]), count)
    {
      ghost var s := ReadPart(t);
      Reset(textRow);
      var counter: nat := 1;
      var i: nat := 0;
      ghost var offsets0 := old(result[..]);
      ghost var rows0 := if textRow != null then old(textRow[..]) else [];
      assert IsRead(text, s);
      Start(s, delimiter, buffer[..], result[..], offsets0);
      if textRow != null { StartRows(s, delimiter, textRow[..], rows0); }
      hide Placed, Numbered, Kept, PointAt, Split, Separators, RowsSet, SameBeyond, NextRow, IsContent, IsRead,
        ReadPart, RoomForNul;
      var stop := false;
      while i < MAX_TEXT_SIZE && !stop
        invariant Placed(s, delimiter, buffer[..], result[..], offsets0, i, counter)
        invariant textRow != null ==> Numbered(s, delimiter, textRow[..], rows0, i, counter)
        invariant i <= |s| <= MAX_TEXT_SIZE
        invariant if stop then Ended(s, delimiter, i, counter) else 1 <= counter < MAX_ITEMS
        decreases !stop, MAX_TEXT_SIZE - i
      {
        i, counter, stop := ReadByte(text, delimiter, textRow, i, counter, s, offsets0, rows0);
      }
      count := counter;
      Finish(s, delimiter, buffer[..], result[..], offsets0, i, count);
      PlacedCount(s, delimiter, buffer[..], result[..], offsets0, i, count);
      EndsWithRoom(t, delimiter, i, count);
      if textRow != null { FinishRows(s, delimiter, textRow[..], rows0, i, count); }
    }

    /** The separator just copied to byte i closes a piece. */
    method CutPiece(delimiter: Byte, textRow: array?<int>, i: nat, counter: nat,
                    ghost t: seq<Byte>, ghost before: seq<Codepoint>, ghost offsets0: seq<int>, ghost rows0: seq<int>)
      requires Valid() && i < |t| <= MAX_TEXT_SIZE && IsSeparator(t[i], delimiter) && 1 <= counter < MAX_ITEMS
      requires textRow != null ==> textRow != result && textRow as object != buffer
      requires textRow != null ==> textRow.Length >= Min(|Split(t, delimiter)|, MAX_ITEMS)
      requires |before| == MAX_TEXT_SIZE && before[i] == 0 && buffer[..] == before[i := t[i]]
      requires Placed(t, delimiter, before, result[..], offsets0, i, counter)
      requires textRow != null ==> Numbered(t, delimiter, textRow[..], rows0, i, counter)
      modifies buffer, result, textRow
      ensures Placed(t, delimiter, buffer[..], result[..], offsets0, i + 1, counter + 1)
      ensures textRow != null ==> Numbered(t, delimiter, textRow[..], rows0, i + 1, counter + 1)
    {
      hide Placed, Numbered, Kept, Split, Separators, RowsSet, SameBeyond, NextRow, IsSeparator;
      RoomForPiece(t, delimiter, before, result[..], offsets0, i, counter);
      if textRow != null { NumberCut(t, delimiter, textRow[..], rows0, i, counter); }
      PlaceCut(t, delimiter, before, result[..], offsets0, i, counter);
      CutAt(i, counter, textRow);
      assert before[i := t[i]][i := 0] == before;
    }

    /** One turn of the loop: the byte is copied, and ends the loop, cuts a piece or extends the last one. */
    method ReadByte(text: seq<Byte>, delimiter: Byte, textRow: array?<int>, i: nat, counter: nat,
                    ghost t: seq<Byte>, ghost offsets0: seq<int>, ghost rows0: seq<int>)
      returns (next: nat, pieces: nat, stop: bool)
      requires Valid() && IsRead(text, t) && i <= |t| && i < MAX_TEXT_SIZE && 1 <= counter < MAX_ITEMS
      requires textRow != null ==> textRow != result && textRow as object != buffer
      requires textRow != null ==> textRow.Length >= Min(|Split(t, delimiter)|, MAX_ITEMS)
      requires Placed(t, delimiter, buffer[..], result[..], offsets0, i, counter)
      requires textRow != null ==> Numbered(t, delimiter, textRow[..], rows0, i, counter)
      modifies buffer, result, textRow
      ensures i <= next <= |t| && (next == i ==> stop)
      ensures Placed(t, delimiter, buffer[..], result[..], offsets0, next, pieces)
      ensures textRow != null ==> Numbered(t, delimiter, textRow[..], rows0, next, pieces)
      ensures if stop then Ended(t, delimiter, next, pieces) else 1 <= pieces < MAX_ITEMS
    {
      hide Placed, Numbered, Kept, Split, Separators, RowsSet, SameBeyond, NextRow, IsRead, Ended;
      ghost var before := buffer[..];
      PlacedTail(t, delimiter, before, result[..], offsets0, i, counter);
      NextByte(text, t, i);
      EndsLoop(t, delimiter, i, counter);
      buffer[i] := text[i];
      if buffer[i] == 0 {
        assert buffer[..] == before;
        return i, counter, true;
      }
      assert buffer[..] == before[i := t[i]];
      if buffer[i] == delimiter || buffer[i] == NEWLINE {
        CutPiece(delimiter, textRow, i, counter, t, before, offsets0, rows0);
        return i + 1, counter + 1, counter + 1 == MAX_ITEMS;
      }
      PlaceCharacter(t, delimiter, before, result[..], offsets0, i, counter);
      if textRow != null { NumberCharacter(t, delimiter, textRow[..], rows0, i, counter); }
      return i + 1, counter, false;
    }
  }
}
