/**
 * The UTF-8 encoder and decoder of ext/raygui.h, and the scan of a text line that drives the decoder.
 * The reference for well-formed sequences is the grammar in section 4 of RFC 3629.
 */
module Utf8 {
  import opened CTypes

  /** A code point, as the C `int` that holds it. */
  type Codepoint = int
  /** What the decoder reports: the code point and how many bytes it took. */
  datatype Step = Step(codepoint: Codepoint, size: nat)

  const QUESTION_MARK: Codepoint := 0x3f
  const MAX_LINE_BUFFER_SIZE: nat := 256

  // ----- Masks -----

  /**
   * The shifts and masks of the source, on 32-bit words, are the divisions and remainders used
   * below: a low mask is a remainder, a right shift a quotient, and joining disjoint bits a sum.
   */
  lemma MasksAreArithmetic(c: bv32)
    requires c <= 0x10ffff
    ensures (c >> 6) == c / 0x40 && (c >> 12) == c / 0x1000 && (c >> 18) == c / 0x40000
    ensures c & 0x3f == c % 0x40 && c & 0x1f == c % 0x20 && c & 0x0f == c % 0x10 && c & 0x07 == c % 0x08
    ensures (c & 0x3f) | 0x80 == (c & 0x3f) + 0x80 && (c & 0x1f) | 0xc0 == (c & 0x1f) + 0xc0
    ensures (c & 0x0f) | 0xe0 == (c & 0x0f) + 0xe0 && (c & 0x07) | 0xf0 == (c & 0x07) + 0xf0
  {
  }

  /** The five tests on a byte, the same way. */
  lemma TestsAreArithmetic(b: bv32)
    requires b <= 0xff
    ensures (b & 0xC0) ^ 0x80 == 0 <==> b / 0x40 == 2
    ensures b & 0xf8 == 0xf0 <==> b / 0x08 == 0x1e
    ensures b & 0xf0 == 0xe0 <==> b / 0x10 == 0x0e
    ensures b & 0xe0 == 0xc0 <==> b / 0x20 == 0x06
    ensures b & 0x80 == 0x00 <==> b / 0x80 == 0
  {
  }

  /** Shifting the gathered bits into place and joining them is a weighted sum. */
  lemma JoinIsSum(b0: bv32, b1: bv32)
    requires b0 <= 0x1f && b1 <= 0x3f
    ensures (b0 << 6) == b0 * 0x40 && (b0 << 12) == b0 * 0x1000 && (b0 << 18) == b0 * 0x40000
    ensures (b0 << 6) | b1 == (b0 << 6) + b1
    ensures (b0 << 12) | (b1 << 6) == (b0 << 12) + (b1 << 6)
    ensures (b0 << 18) | (b1 << 12) == (b0 << 18) + (b1 << 12)
  {
  }

  // ----- Encoder -----

  // Leading bytes of two-, three- and four-byte forms, and the continuation bytes.
  function Lead2(c: Codepoint): Byte { c / 0x40 % 0x20 + 0xc0 }
  function Lead3(c: Codepoint): Byte { c / 0x1000 % 0x10 + 0xe0 }
  function Lead4(c: Codepoint): Byte { c / 0x40000 % 0x08 + 0xf0 }
  function Tail0(c: Codepoint): Byte { c % 0x40 + 0x80 }
  function Tail6(c: Codepoint): Byte { c / 0x40 % 0x40 + 0x80 }
  function Tail12(c: Codepoint): Byte { c / 0x1000 % 0x40 + 0x80 }

  /** The bytes written, as many as the reported size: none above 0x10ffff, one truncated byte below zero. */
  function CodepointToUTF8(c: Codepoint): (s: seq<Byte>)
    ensures |s| <= 4
    ensures |s| == 0 <==> c > 0x10ffff
  {
    if c <= 0x7f then [c % 0x100]
    else if c <= 0x7ff then [Lead2(c), Tail0(c)]
    else if c <= 0xffff then [Lead3(c), Tail6(c), Tail0(c)]
    else if c <= 0x10ffff then [Lead4(c), Tail12(c), Tail6(c), Tail0(c)]
    else []
  }

  // ----- Decoder -----

  /** A C string with its closing NUL; further NULs may occur inside. */
  predicate NulTerminated(text: seq<Byte>) {
    0 < |text| && text[|text| - 1] == 0
  }

  // The tests on bytes, and the bits gathered from them.
  predicate IsTail(b: Byte) { b / 0x40 == 2 }
  predicate IsLead2(b: Byte) { b / 0x20 == 0x06 }
  predicate IsLead3(b: Byte) { b / 0x10 == 0x0e }
  predicate IsLead4(b: Byte) { b / 0x08 == 0x1e }
  predicate IsAscii(b: Byte) { b / 0x80 == 0 }
  function Join2(b0: Byte, b1: Byte): Codepoint { b0 % 0x20 * 0x40 + b1 % 0x40 }
  function Join3(b0: Byte, b1: Byte, b2: Byte): Codepoint { b0 % 0x10 * 0x1000 + b1 % 0x40 * 0x40 + b2 % 0x40 }
  function Join4(b0: Byte, b1: Byte, b2: Byte, b3: Byte): Codepoint {
    b0 % 0x08 * 0x40000 + b1 % 0x40 * 0x1000 + b2 % 0x40 * 0x40 + b3 % 0x40
  }

  /**
   * The code point at position i. Every index below is in bounds although nothing checks lengths:
   * a byte that passes the continuation test is not NUL, so there is one more byte to read.
   */
  function GetCodepointNext(text: seq<Byte>, i: nat): (r: Step)
    requires NulTerminated(text) && i < |text|
    ensures 1 <= r.size <= 4
    ensures i + r.size <= |text|
  {
    var b0 := text[i];
    if IsLead4(b0) then
      if !IsTail(text[i + 1]) || !IsTail(text[i + 2]) || !IsTail(text[i + 3]) then Step(QUESTION_MARK, 1)
      else Step(Join4(b0, text[i + 1], text[i + 2], text[i + 3]), 4)
    else if IsLead3(b0) then
      if !IsTail(text[i + 1]) || !IsTail(text[i + 2]) then Step(QUESTION_MARK, 1)
      else Step(Join3(b0, text[i + 1], text[i + 2]), 3)
    else if IsLead2(b0) then
      if !IsTail(text[i + 1]) then Step(QUESTION_MARK, 1)
      else Step(Join2(b0, text[i + 1]), 2)
    else if IsAscii(b0) then Step(b0, 1)
    else Step(QUESTION_MARK, 1)
  }

  predicate EndsLine(b: Byte) {
    b == 0 || b == 0x0a
  }

  /** A step never jumps over a NUL or a newline: all it takes after its first byte are continuation bytes. */
  lemma StepTakesTails(text: seq<Byte>, i: nat)
    requires NulTerminated(text) && i < |text|
    ensures forall k :: i < k < i + GetCodepointNext(text, i).size ==> IsTail(text[k]) && !EndsLine(text[k])
  {
    var n := GetCodepointNext(text, i).size;
    forall k | i < k < i + n
      ensures IsTail(text[k]) && !EndsLine(text[k])
    {
      assert k == i + 1 || k == i + 2 || k == i + 3;
    }
  }

  /** The continuation bytes a leading byte announces: by the ones it begins with, of which there are two to four. */
  function Announced(b: Byte): nat {
    if 0xc0 <= b <= 0xdf then 1 else if 0xe0 <= b <= 0xef then 2 else if 0xf0 <= b <= 0xf7 then 3 else 0
  }

  /** As many continuation bytes follow as were announced. */
  predicate Completed(text: seq<Byte>, i: nat)
    requires i < |text|
  {
    i + Announced(text[i]) < |text| && forall k :: i < k <= i + Announced(text[i]) ==> 0x80 <= text[k] <= 0xbf
  }

  /**
   * On arbitrary text: a step takes all that its first byte announces if it is there, and else one byte,
   * read as a '?'; so it does a continuation byte, or one no form begins with, standing alone.
   */
  lemma StepSize(text: seq<Byte>, i: nat)
    requires NulTerminated(text) && i < |text|
    ensures
      var r := GetCodepointNext(text, i);
      && r.size == (if Completed(text, i) then 1 + Announced(text[i]) else 1)
      && (!Completed(text, i) || (Announced(text[i]) == 0 && text[i] >= 0x80) ==> r.codepoint == QUESTION_MARK)
      && (text[i] < 0x80 ==> r.codepoint == text[i])
  {
    var b := text[i];
    assert forall k :: 0 <= k < |text| ==> (IsTail(text[k]) <==> 0x80 <= text[k] <= 0xbf);
    assert IsLead4(b) <==> 0xf0 <= b <= 0xf7;
    assert IsLead3(b) <==> 0xe0 <= b <= 0xef;
    assert IsLead2(b) <==> 0xc0 <= b <= 0xdf;
    assert IsAscii(b) <==> b < 0x80;
    hide IsTail, IsLead2, IsLead3, IsLead4, IsAscii, Join2, Join3, Join4;
    var n := Announced(b);
    if Completed(text, i) {
      if n > 0 { assert IsTail(text[i + 1]); }
      if n > 1 { assert IsTail(text[i + 2]); }
      if n > 2 { assert IsTail(text[i + 3]); }
    } else if IsTailed(text, i, n) {
      assert false;
    }
  }

  /** The tests of the decoder on the bytes after the first. */
  predicate IsTailed(text: seq<Byte>, i: nat, n: nat)
    requires NulTerminated(text) && i < |text| && n <= 3
  {
    && (n > 0 ==> i + 1 < |text| && IsTail(text[i + 1]))
    && (n > 1 ==> i + 2 < |text| && IsTail(text[i + 2]))
    && (n > 2 ==> i + 3 < |text| && IsTail(text[i + 3]))
  }

  // ----- Round trips -----

  predicate IsCodepoint(c: Codepoint) {
    0 <= c <= 0x10ffff
  }

  /** Two bytes carry 11 bits, three 16 and four 21, so nothing the encoder splits is lost. */
  lemma SplitBits(c: Codepoint)
    requires 0 <= c
    ensures c <= 0x7ff ==> Join2(Lead2(c), Tail0(c)) == c
    ensures c <= 0xffff ==> Join3(Lead3(c), Tail6(c), Tail0(c)) == c
    ensures c <= 0x10ffff ==> Join4(Lead4(c), Tail12(c), Tail6(c), Tail0(c)) == c
  {
    hide Join2, Join3, Join4, Lead2, Lead3, Lead4, Tail0, Tail6, Tail12;
    if c <= 0x7ff { SplitBits2(c); }
    if c <= 0xffff { SplitBits3(c); }
    if c <= 0x10ffff { SplitBits4(c); }
  }

  lemma SplitBits2(c: Codepoint)
    requires 0 <= c <= 0x7ff
    ensures Join2(Lead2(c), Tail0(c)) == c
  {
  }

  lemma SplitBits3(c: Codepoint)
    requires 0 <= c <= 0xffff
    ensures Join3(Lead3(c), Tail6(c), Tail0(c)) == c
  {
    LowBits3(c);
    hide Lead3, Tail6, Tail0;
    var a := c / 0x40;
    assert c == a * 0x40 + c % 0x40 && c / 0x1000 == a / 0x40;
  }

  lemma LowBits3(c: Codepoint)
    requires 0 <= c <= 0xffff
    ensures Lead3(c) % 0x10 == c / 0x1000 && Tail6(c) % 0x40 == c / 0x40 % 0x40 && Tail0(c) % 0x40 == c % 0x40
  {
  }

  lemma SplitBits4(c: Codepoint)
    requires 0 <= c <= 0x1fffff
    ensures Join4(Lead4(c), Tail12(c), Tail6(c), Tail0(c)) == c
  {
    LowBits(c);
    hide Lead4, Tail12, Tail6, Tail0;
    var a := c / 0x40;
    var b := a / 0x40;
    assert c == a * 0x40 + c % 0x40 && a == b * 0x40 + a % 0x40;
    assert b == c / 0x1000 && c / 0x40000 == b / 0x40;
  }

  lemma LowBits(c: Codepoint)
    requires 0 <= c <= 0x1fffff
    ensures Lead4(c) % 0x08 == c / 0x40000 && Tail12(c) % 0x40 == c / 0x1000 % 0x40
    ensures Tail6(c) % 0x40 == c / 0x40 % 0x40 && Tail0(c) % 0x40 == c % 0x40
  {
  }

  lemma SplitMarks(c: Codepoint)
    ensures IsTail(Tail0(c)) && IsTail(Tail6(c)) && IsTail(Tail12(c))
    ensures IsLead2(Lead2(c)) && IsLead3(Lead3(c)) && IsLead4(Lead4(c))
  {
  }

  /** The five tests on a leading byte exclude one another. */
  lemma LeadsExclusive(b: Byte)
    ensures IsLead4(b) ==> !IsLead3(b) && !IsLead2(b) && !IsAscii(b) && !IsTail(b)
    ensures IsLead3(b) ==> !IsLead2(b) && !IsAscii(b) && !IsTail(b)
    ensures IsLead2(b) ==> !IsAscii(b) && !IsTail(b)
    ensures IsAscii(b) ==> !IsTail(b)
  {
  }

  lemma AsciiByte(c: Codepoint)
    ensures 0 <= c <= 0x7f ==> c % 0x100 == c && IsAscii(c)
  {
  }

  lemma DecodeEncoded(c: Codepoint, text: seq<Byte>, i: nat)
    requires IsCodepoint(c) && NulTerminated(text)
    requires i + |CodepointToUTF8(c)| <= |text| && i < |text|
    requires text[i..i + |CodepointToUTF8(c)|] == CodepointToUTF8(c)
    ensures GetCodepointNext(text, i) == Step(c, |CodepointToUTF8(c)|)
  {
    hide IsTail, IsLead2, IsLead3, IsLead4, IsAscii, Join2, Join3, Join4, Lead2, Lead3, Lead4, Tail0, Tail6, Tail12;
    SplitMarks(c);
    SplitBits(c);
    var s := CodepointToUTF8(c);
    assert forall k :: 0 <= k < |s| ==> text[i + k] == s[k];
    LeadsExclusive(text[i]);
    assert text[i] == s[0];
    assert c <= 0x7f ==> c % 0x100 == c && IsAscii(c) by { AsciiByte(c); }
    if |s| > 1 { assert text[i + 1] == s[1]; }
    if |s| > 2 { assert text[i + 2] == s[2]; }
    if |s| > 3 { assert text[i + 3] == s[3]; }
  }

  function EncodeAll(cs: seq<Codepoint>): seq<Byte> {
    if cs == [] then [] else CodepointToUTF8(cs[0]) + EncodeAll(cs[1..])
  }

  /** The decoder stepped from position i until the position reaches the limit. */
  function Steps(text: seq<Byte>, i: nat, limit: nat): seq<Step>
    requires NulTerminated(text) && limit < |text|
    decreases limit - i
  {
    if i >= limit then []
    else [GetCodepointNext(text, i)] + Steps(text, i + GetCodepointNext(text, i).size, limit)
  }

  function EncodedSteps(cs: seq<Codepoint>): seq<Step> {
    if cs == [] then [] else [Step(cs[0], |CodepointToUTF8(cs[0])|)] + EncodedSteps(cs[1..])
  }

  /**
   * Wherever the encodings of some code points stand in a text, decoding from there returns those
   * code points with the encoder's sizes, whatever comes before and after.
   */
  lemma {:induction false} DecodeAllEncoded(cs: seq<Codepoint>, text: seq<Byte>, i: nat)
    requires forall c :: c in cs ==> IsCodepoint(c)
    requires NulTerminated(text) && i + |EncodeAll(cs)| < |text|
    requires text[i..i + |EncodeAll(cs)|] == EncodeAll(cs)
    ensures Steps(text, i, i + |EncodeAll(cs)|) == EncodedSteps(cs)
  {
    hide CodepointToUTF8, GetCodepointNext, EncodeAll, EncodedSteps, NulTerminated, Steps, IsCodepoint;
    if cs == [] {
      EncodeNil(text, i);
    } else {
      var c, limit := cs[0], i + |EncodeAll(cs)|;
      var s, rest := CodepointToUTF8(c), EncodeAll(cs[1..]);
      assert IsCodepoint(c) by { assert c in cs; }
      EncodeCons(cs);
      SliceHead(text, i, s, rest);
      DecodeEncoded(c, text, i);
      DecodeAllEncoded(cs[1..], text, i + |s|);
      StepsCons(text, i, limit);
    }
  }

  lemma EncodeNil(text: seq<Byte>, i: nat)
    requires NulTerminated(text) && i < |text|
    ensures EncodeAll([]) == [] && EncodedSteps([]) == [] && Steps(text, i, i) == []
  {
  }

  lemma EncodeCons(cs: seq<Codepoint>)
    requires cs != [] && IsCodepoint(cs[0])
    ensures
      var s := CodepointToUTF8(cs[0]);
      && s != [] && EncodeAll(cs) == s + EncodeAll(cs[1..])
      && EncodedSteps(cs) == [Step(cs[0], |s|)] + EncodedSteps(cs[1..])
  {
  }

  lemma StepsCons(text: seq<Byte>, i: nat, limit: nat)
    requires NulTerminated(text) && limit < |text| && i < limit
    ensures var step := GetCodepointNext(text, i); Steps(text, i, limit) == [step] + Steps(text, i + step.size, limit)
  {
  }

  lemma SliceHead(text: seq<Byte>, i: nat, s: seq<Byte>, rest: seq<Byte>)
    requires i + |s + rest| <= |text| && text[i..i + |s + rest|] == s + rest
    ensures text[i..i + |s|] == s && text[i + |s|..i + |s| + |rest|] == rest
  {
    var slice := text[i..i + |s + rest|];
    assert text[i..i + |s|] == slice[..|s|];
    assert text[i + |s|..i + |s| + |rest|] == slice[|s|..];
  }

  /** The UTF8-octets grammar of RFC 3629, section 4, with the surrogate range ED A0..BF let in. */
  predicate ShortestForm(s: seq<Byte>) {
    || (|s| == 1 && s[0] <= 0x7f)
    || (|s| == 2 && 0xc2 <= s[0] <= 0xdf && 0x80 <= s[1] <= 0xbf)
    || (|s| == 3 && 0x80 <= s[2] <= 0xbf
        && ((s[0] == 0xe0 && 0xa0 <= s[1] <= 0xbf) || (0xe1 <= s[0] <= 0xef && 0x80 <= s[1] <= 0xbf)))
    || (|s| == 4 && 0x80 <= s[2] <= 0xbf && 0x80 <= s[3] <= 0xbf
        && ((s[0] == 0xf0 && 0x90 <= s[1] <= 0xbf) || (0xf1 <= s[0] <= 0xf3 && 0x80 <= s[1] <= 0xbf)
            || (s[0] == 0xf4 && 0x80 <= s[1] <= 0x8f)))
  }

  /**
   * On arbitrary text: a step gives back the bytes it consumed exactly when those bytes are in the
   * grammar. The other steps are the '?' fallbacks, overlong forms and forms above 0x10ffff.
   */
  lemma ReencodeConsumed(text: seq<Byte>, i: nat)
    requires NulTerminated(text) && i < |text|
    ensures
      var r := GetCodepointNext(text, i);
      CodepointToUTF8(r.codepoint) == text[i..i + r.size] <==> ShortestForm(text[i..i + r.size])
  {
    hide IsTail, IsLead2, IsLead3, IsLead4, Join2, Join3, Join4, CodepointToUTF8, ShortestForm;
    var r := GetCodepointNext(text, i);
    var taken := text[i..i + r.size];
    if r.size == 2 {
      assert taken == [text[i], text[i + 1]];
      Reencode2(text[i], text[i + 1]);
    } else if r.size == 3 {
      assert taken[1] == text[i + 1] && taken[2] == text[i + 2];
      assert taken == [text[i], text[i + 1], text[i + 2]];
      Reencode3(text[i], text[i + 1], text[i + 2]);
    } else if r.size == 4 {
      assert taken == [text[i], text[i + 1], text[i + 2], text[i + 3]];
      Reencode4(text[i], text[i + 1], text[i + 2], text[i + 3]);
    } else {
      assert taken == [text[i]];
      ReencodeSingle(text[i]);
    }
  }

  /** One byte is either ASCII and kept, or not a form of its own: a '?' is not what was read. */
  lemma ReencodeSingle(b0: Byte)
    ensures ShortestForm([b0]) <==> IsAscii(b0)
    ensures IsAscii(b0) ==> CodepointToUTF8(b0) == [b0] && !IsLead2(b0) && !IsLead3(b0) && !IsLead4(b0)
    ensures CodepointToUTF8(QUESTION_MARK) == [b0] ==> IsAscii(b0)
  {
  }

  lemma Reencode2(b0: Byte, b1: Byte)
    requires IsLead2(b0) && IsTail(b1)
    ensures CodepointToUTF8(Join2(b0, b1)) == [b0, b1] <==> ShortestForm([b0, b1])
  {
    var c := Join2(b0, b1);
    JoinBits2(b0, b1);
    SplitMarks(c);
    SplitBits(c);
    hide IsTail, IsLead2, IsLead3, IsLead4, IsAscii, Join2, Join3, Join4, Lead2, Lead3, Lead4, Tail0, Tail6, Tail12;
    assert 0x7f < c ==> CodepointToUTF8(c) == [b0, b1];
  }

  lemma JoinBits2(b0: Byte, b1: Byte)
    requires IsLead2(b0) && IsTail(b1)
    ensures var c := Join2(b0, b1); c <= 0x7ff && (0x7f < c <==> 0xc2 <= b0) && Lead2(c) == b0 && Tail0(c) == b1
    ensures 0xc0 <= b0 <= 0xdf && 0x80 <= b1 <= 0xbf
  {
  }

  lemma Reencode3(b0: Byte, b1: Byte, b2: Byte)
    requires IsLead3(b0) && IsTail(b1) && IsTail(b2)
    ensures CodepointToUTF8(Join3(b0, b1, b2)) == [b0, b1, b2] <==> ShortestForm([b0, b1, b2])
  {
    var c := Join3(b0, b1, b2);
    JoinBits3(b0, b1, b2);
    SplitMarks(c);
    SplitBits(c);
    hide IsTail, IsLead2, IsLead3, IsLead4, IsAscii, Join2, Join3, Join4, Lead2, Lead3, Lead4, Tail0, Tail6, Tail12;
    assert 0x7ff < c ==> CodepointToUTF8(c) == [b0, b1, b2];
  }

  lemma JoinBits3(b0: Byte, b1: Byte, b2: Byte)
    requires IsLead3(b0) && IsTail(b1) && IsTail(b2)
    ensures var c := Join3(b0, b1, b2);
      c <= 0xffff && (0x7ff < c <==> b0 > 0xe0 || b1 >= 0xa0) && Lead3(c) == b0 && Tail6(c) == b1 && Tail0(c) == b2
    ensures 0xe0 <= b0 <= 0xef && 0x80 <= b1 <= 0xbf && 0x80 <= b2 <= 0xbf
  {
    var x, y, z := b0 - 0xe0, b1 - 0x80, b2 - 0x80;
    assert Join3(b0, b1, b2) == x * 0x1000 + y * 0x40 + z;
    Digits16(x, y, z);
  }

  lemma Digits16(x: nat, y: nat, z: nat)
    requires x < 16 && y < 64 && z < 64
    ensures var c := x * 0x1000 + y * 0x40 + z; c % 0x40 == z && c / 0x40 % 0x40 == y && c / 0x1000 % 0x10 == x
  {
    var c := x * 0x1000 + y * 0x40 + z;
    assert c / 0x40 == x * 0x40 + y;
  }

  lemma Reencode4(b0: Byte, b1: Byte, b2: Byte, b3: Byte)
    requires IsLead4(b0) && IsTail(b1) && IsTail(b2) && IsTail(b3)
    ensures CodepointToUTF8(Join4(b0, b1, b2, b3)) == [b0, b1, b2, b3] <==> ShortestForm([b0, b1, b2, b3])
  {
    var c := Join4(b0, b1, b2, b3);
    JoinBits4(b0, b1, b2, b3);
    SplitMarks(c);
    SplitBits(c);
    hide IsTail, IsLead2, IsLead3, IsLead4, IsAscii, Join2, Join3, Join4, Lead2, Lead3, Lead4, Tail0, Tail6, Tail12;
    assert 0xffff < c <= 0x10ffff ==> CodepointToUTF8(c) == [b0, b1, b2, b3];
  }

  lemma JoinBits4(b0: Byte, b1: Byte, b2: Byte, b3: Byte)
    requires IsLead4(b0) && IsTail(b1) && IsTail(b2) && IsTail(b3)
    ensures var c := Join4(b0, b1, b2, b3);
      && 0 <= c <= 0x1fffff
      && (0xffff < c <==> b0 > 0xf0 || b1 >= 0x90)
      && (c <= 0x10ffff <==> b0 < 0xf4 || (b0 == 0xf4 && b1 <= 0x8f))
      && Lead4(c) == b0 && Tail12(c) == b1 && Tail6(c) == b2 && Tail0(c) == b3
    ensures 0xf0 <= b0 <= 0xf7 && 0x80 <= b1 <= 0xbf && 0x80 <= b2 <= 0xbf && 0x80 <= b3 <= 0xbf
  {
    var x, y, z, w := b0 - 0xf0, b1 - 0x80, b2 - 0x80, b3 - 0x80;
    assert Join4(b0, b1, b2, b3) == x * 0x40000 + y * 0x1000 + z * 0x40 + w;
    Digits64(x, y, z, w);
  }

  lemma Digits64(x: nat, y: nat, z: nat, w: nat)
    requires x < 8 && y < 64 && z < 64 && w < 64
    ensures
      var c := x * 0x40000 + y * 0x1000 + z * 0x40 + w;
      c % 0x40 == w && c / 0x40 % 0x40 == z && c / 0x1000 % 0x40 == y && c / 0x40000 % 0x08 == x
  {
    var c := x * 0x40000 + y * 0x1000 + z * 0x40 + w;
    assert c / 0x40 == x * 0x1000 + y * 0x40 + z;
    assert c / 0x1000 == x * 0x40 + y;
  }

  /** The encoder writes exactly the sequences of the grammar. */
  lemma EncoderMeetsGrammar(s: seq<Byte>)
    ensures ShortestForm(s) <==> exists c :: IsCodepoint(c) && CodepointToUTF8(c) == s
  {
    if c :| IsCodepoint(c) && CodepointToUTF8(c) == s {
      var text := s + [0];
      assert text[0..|s|] == s;
      DecodeEncoded(c, text, 0);
      ReencodeConsumed(text, 0);
    } else if ShortestForm(s) {
      var text := s + [0];
      ShortestIsTaken(s, text);
      assert text[0..|s|] == s;
      ReencodeConsumed(text, 0);
      ShortestIsCodepoint(s, GetCodepointNext(text, 0).codepoint);
    }
  }

  lemma ShortestIsTaken(s: seq<Byte>, text: seq<Byte>)
    requires ShortestForm(s) && text == s + [0]
    ensures GetCodepointNext(text, 0).size == |s|
  {
  }

  lemma ShortestIsCodepoint(s: seq<Byte>, c: Codepoint)
    requires ShortestForm(s) && CodepointToUTF8(c) == s
    ensures IsCodepoint(if c < 0 then c % 0x100 else c)
    ensures c < 0 ==> CodepointToUTF8(c % 0x100) == s
  {
  }

  /** Overlong forms are accepted: C0 80 decodes to code point 0, which is encoded in one byte. */
  lemma OverlongAccepted()
    ensures GetCodepointNext([0xc0, 0x80, 0], 0) == Step(0, 2)
    ensures CodepointToUTF8(0) == [0]
  {
  }

  // ----- The scan of a line -----

  function LineLength(text: seq<Byte>, i: nat): (n: nat)
    requires NulTerminated(text) && i < |text|
    ensures i + n < |text| && EndsLine(text[i + n])
    ensures forall k :: i <= k < i + n ==> !EndsLine(text[k])
    decreases |text| - i
  {
    if EndsLine(text[i]) then 0 else 1 + LineLength(text, i + 1)
  }

  /** Bytes covered by a run of steps. */
  function Covered(steps: seq<Step>): nat {
    if steps == [] then 0 else Covered(steps[..|steps| - 1]) + steps[|steps| - 1].size
  }

  /** Each step was decoded where the ones before it stopped, and started inside the line. */
  ghost predicate Chained(text: seq<Byte>, line: nat, steps: seq<Step>)
    requires NulTerminated(text) && line < |text|
  {
    forall k | 0 <= k < |steps| ::
      Covered(steps[..k]) < line && steps[k] == GetCodepointNext(text, Covered(steps[..k]))
  }

  lemma ExtendChain(text: seq<Byte>, line: nat, steps: seq<Step>)
    requires NulTerminated(text) && line < |text| && Chained(text, line, steps) && Covered(steps) < line
    ensures
      var more := steps + [GetCodepointNext(text, Covered(steps))];
      Chained(text, line, more) && Covered(more) == Covered(steps) + GetCodepointNext(text, Covered(steps)).size
  {
    var more := steps + [GetCodepointNext(text, Covered(steps))];
    assert more[..|steps|] == steps;
    assert forall k :: 0 <= k < |steps| ==> more[..k] == steps[..k];
  }

  function ScanLimit(text: seq<Byte>): nat
    requires NulTerminated(text)
  {
    if LineLength(text, 0) <= MAX_LINE_BUFFER_SIZE then LineLength(text, 0) else MAX_LINE_BUFFER_SIZE
  }

  /**
   * The scan that measures a line: it counts the bytes before the first NUL or newline, up to 256,
   * then steps the decoder over them. The steps cover a prefix of the line without a gap; only a
   * line over 256 bytes may be cut, and then at the end of the character that crosses the limit.
   */
  method ScanLine(text: seq<Byte>) returns (steps: seq<Step>)
    requires NulTerminated(text)
    ensures steps == Steps(text, 0, ScanLimit(text))
    ensures Chained(text, LineLength(text, 0), steps)
    ensures Covered(steps) <= LineLength(text, 0)
    ensures LineLength(text, 0) <= MAX_LINE_BUFFER_SIZE ==> Covered(steps) == LineLength(text, 0)
    ensures LineLength(text, 0) > MAX_LINE_BUFFER_SIZE
        ==> MAX_LINE_BUFFER_SIZE <= Covered(steps) < MAX_LINE_BUFFER_SIZE + 4
  {
    hide Steps, LineLength, ScanLimit, Chained, Covered, Scanned, GetCodepointNext;
    var size := MeasureLine(text);
    steps := [];
    var i := 0;
    ScanStart(text);
    while i < size
      invariant Scanned(text, size, steps, i)
      decreases size - i
    {
      var step := GetCodepointNext(text, i);
      ScanOne(text, size, steps, i);
      steps := steps + [step];
      i := i + step.size;
    }
    ScanDone(text, size, steps, i);
  }

  /** What the scan has done when its position is i. */
  ghost predicate Scanned(text: seq<Byte>, size: nat, steps: seq<Step>, i: nat)
    requires NulTerminated(text)
  {
    var line := LineLength(text, 0);
    && size == ScanLimit(text)
    && i == Covered(steps) <= line
    && i < size + 4
    && steps + Steps(text, i, size) == Steps(text, 0, size)
    && Chained(text, line, steps)
  }

  lemma ScanStart(text: seq<Byte>)
    requires NulTerminated(text)
    ensures Scanned(text, ScanLimit(text), [], 0)
  {
  }

  lemma ScanDone(text: seq<Byte>, size: nat, steps: seq<Step>, i: nat)
    requires NulTerminated(text) && Scanned(text, size, steps, i) && i >= size
    ensures steps == Steps(text, 0, ScanLimit(text)) && Chained(text, LineLength(text, 0), steps)
    ensures Covered(steps) <= LineLength(text, 0)
    ensures LineLength(text, 0) <= MAX_LINE_BUFFER_SIZE ==> Covered(steps) == LineLength(text, 0)
    ensures LineLength(text, 0) > MAX_LINE_BUFFER_SIZE
        ==> MAX_LINE_BUFFER_SIZE <= Covered(steps) < MAX_LINE_BUFFER_SIZE + 4
  {
    assert steps + [] == steps;
  }

  lemma ScanOne(text: seq<Byte>, size: nat, steps: seq<Step>, i: nat)
    requires NulTerminated(text) && Scanned(text, size, steps, i) && i < size
    ensures var step := GetCodepointNext(text, i); Scanned(text, size, steps + [step], i + step.size)
  {
    var step := GetCodepointNext(text, i);
    var line := LineLength(text, 0);
    hide GetCodepointNext, LineLength, EndsLine, Covered, Chained, Steps;
    StepStaysInLine(text, i, line);
    ExtendChain(text, line, steps);
    UnrollSteps(text, steps, i, size);
  }

  lemma UnrollSteps(text: seq<Byte>, done: seq<Step>, i: nat, limit: nat)
    requires NulTerminated(text) && limit < |text| && i < limit
    ensures
      var step := GetCodepointNext(text, i);
      done + Steps(text, i, limit) == done + [step] + Steps(text, i + step.size, limit)
  {
    hide GetCodepointNext, Steps;
    StepsCons(text, i, limit);
  }

  /** The counting loop at the head of the scan. */
  method MeasureLine(text: seq<Byte>) returns (size: nat)
    requires NulTerminated(text)
    ensures size == ScanLimit(text) && size < |text|
  {
    size := 0;
    for i := 0 to MAX_LINE_BUFFER_SIZE
      invariant i == size <= LineLength(text, 0)
    {
      if !EndsLine(text[i]) {
        size := size + 1;
      } else {
        break;
      }
    }
  }

  lemma StepStaysInLine(text: seq<Byte>, i: nat, line: nat)
    requires NulTerminated(text) && line < |text| && i < line && EndsLine(text[line])
    ensures i + GetCodepointNext(text, i).size <= line
  {
    StepTakesTails(text, i);
  }

  /** A whole line of code points, as long as it fits the 256-byte scan, is read back exactly. */
  lemma ScanReadsEncoded(cs: seq<Codepoint>, after: seq<Byte>)
    requires forall c :: c in cs ==> IsCodepoint(c) && c != 0 && c != 0x0a
    requires NulTerminated(after) && EndsLine(after[0]) && |EncodeAll(cs)| <= MAX_LINE_BUFFER_SIZE
    ensures
      var text := EncodeAll(cs) + after;
      NulTerminated(text) && Steps(text, 0, ScanLimit(text)) == EncodedSteps(cs)
  {
    hide CodepointToUTF8, GetCodepointNext, Steps, EncodedSteps, IsCodepoint;
    var text := EncodeAll(cs) + after;
    assert text[|text| - 1] == after[|after| - 1];
    assert text[0..0 + |EncodeAll(cs)|] == EncodeAll(cs);
    DecodeAllEncoded(cs, text, 0);
    NoLineEnds(cs);
    assert forall k :: 0 <= k < |EncodeAll(cs)| ==> text[k] == EncodeAll(cs)[k];
    assert text[|EncodeAll(cs)|] == after[0];
    assert LineLength(text, 0) == |EncodeAll(cs)|;
  }

  lemma {:induction false} NoLineEnds(cs: seq<Codepoint>)
    requires forall c :: c in cs ==> IsCodepoint(c) && c != 0 && c != 0x0a
    ensures forall k :: 0 <= k < |EncodeAll(cs)| ==> !EndsLine(EncodeAll(cs)[k])
  {
    hide CodepointToUTF8;
    if cs != [] {
      assert forall c :: c in cs[1..] ==> c in cs;
      assert cs[0] in cs;
      NoLineEndIn(cs[0]);
      NoLineEnds(cs[1..]);
    }
  }

  lemma NoLineEndIn(c: Codepoint)
    requires IsCodepoint(c) && c != 0 && c != 0x0a
    ensures forall b :: b in CodepointToUTF8(c) ==> !EndsLine(b)
  {
    EncodedBytes(c);
    hide CodepointToUTF8;
  }

  /** Non-ASCII code points are encoded in bytes of 0x80 and above only, ASCII ones as themselves. */
  lemma EncodedBytes(c: Codepoint)
    requires IsCodepoint(c)
    ensures c <= 0x7f ==> CodepointToUTF8(c) == [c]
    ensures c > 0x7f ==> |CodepointToUTF8(c)| >= 2
    ensures c > 0x7f ==> forall b :: b in CodepointToUTF8(c) ==> b >= 0x80
  {
    EncodedParts(c);
    hide Lead2, Lead3, Lead4, Tail0, Tail6, Tail12;
  }

  lemma EncodedParts(c: Codepoint)
    ensures Lead2(c) >= 0x80 && Lead3(c) >= 0x80 && Lead4(c) >= 0x80
    ensures Tail0(c) >= 0x80 && Tail6(c) >= 0x80 && Tail12(c) >= 0x80
  {
  }
}
