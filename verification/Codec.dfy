/**
 * Messages written to and read from a byte buffer (src/networking.cpp): one tag byte, then a
 * type-directed archive. The archive is a run of decimal tokens, each closed by a space; strings
 * carry their length and sequences their count in front.
 */
module Codec {
  import opened Decimal
  import opened Messages

  datatype Parsed<+T> = Bad | Good(value: T, rest: string)
  datatype Result<+T> = Err | Ok(value: T)

  // ----- What is written -----

  function Token(n: int): string { PrintInt(n) + " " }

  function BoolToken(b: bool): string { Token(if b then 1 else 0) }

  function Text(s: string): string { Token(|s|) + s + " " }

  function Ints(ns: seq<Int32>): string {
    if ns == [] then [] else Token(ns[0]) + Ints(ns[1..])
  }

  function ClientText(c: Client): string { Text(c.ip) + Token(c.port) + Token(c.bullyId) }

  function ClientTexts(cs: seq<Client>): string {
    if cs == [] then [] else ClientText(cs[0]) + ClientTexts(cs[1..])
  }

  /** The archive of a message: what `serialize` puts out for its payload. */
  function Archive(m: Message): string {
    match m
    case ControlMusic(op) => Token(op)
    case ChangeSong(songId, addToQueue) => Token(songId) + BoolToken(addToQueue)
    case Disconnect(dummy) => Token(dummy)
    case Connect(dummy) => Token(dummy)
    case QueryStatus(dummy) => Token(dummy)
    case SendStatus(s) =>
      Token(s.currentSongId) + Token(s.elapsedTime) + BoolToken(s.paused) + Token(|s.queue|) + Ints(s.queue)
    case Bully(et) => Token(et)
    case ConnectorList(list) => Token(list.bullyId) + Token(|list.clients|) + ClientTexts(list.clients)
    case ConnectorListUpdate(clients) => Token(|clients|) + ClientTexts(clients)
    case Unnamed(_) => []
  }

  // ----- What is read -----

  /** A number token, of any size. */
  function ReadNumber(s: string): Parsed<int> {
    var negative := s != [] && s[0] == '-';
    var digits := if negative then s[1..] else s;
    var n := DigitRun(digits);
    if n == 0 || n == |digits| || digits[n] != ' ' then Bad
    else
      var magnitude: int := Value(digits[..n]);
      Good(if negative then -magnitude else magnitude, digits[n + 1..])
  }

  /** A number token within the range of its field. */
  function ReadInt(s: string, low: int, high: int): Parsed<int> {
    match ReadNumber(s)
    case Bad => Bad
    case Good(v, rest) => if low <= v < high then Good(v, rest) else Bad
  }

  function ReadInt32(s: string): Parsed<Int32> {
    match ReadInt(s, -0x8000_0000, 0x8000_0000) case Bad => Bad case Good(v, rest) => Good(v, rest)
  }

  function ReadUint16(s: string): Parsed<Uint16> {
    match ReadInt(s, 0, 0x1_0000) case Bad => Bad case Good(v, rest) => Good(v, rest)
  }

  function ReadUint8(s: string): Parsed<Uint8> {
    match ReadInt(s, 0, 0x100) case Bad => Bad case Good(v, rest) => Good(v, rest)
  }

  function ReadBool(s: string): Parsed<bool> {
    match ReadInt(s, 0, 2) case Bad => Bad case Good(v, rest) => Good(v == 1, rest)
  }

  /** Counts and lengths have no upper bound of their own. */
  function ReadCount(s: string): Parsed<nat> {
    match ReadNumber(s)
    case Bad => Bad
    case Good(v, rest) => if v >= 0 then Good(v, rest) else Bad
  }

  function ReadText(s: string): Parsed<string> {
    match ReadCount(s)
    case Bad => Bad
    case Good(n, rest) => if n < |rest| && rest[n] == ' ' then Good(rest[..n], rest[n + 1..]) else Bad
  }

  function ReadClient(s: string): Parsed<Client> {
    match ReadText(s) case Bad => Bad case Good(ip, rest) =>
      match ReadUint16(rest) case Bad => Bad case Good(port, rest) =>
        match ReadUint16(rest) case Bad => Bad case Good(bullyId, rest) =>
          Good(Client(ip, port, bullyId), rest)
  }

  /** Reads elements after those already read until n are there. */
  function ReadInts(s: string, n: nat, read: seq<Int32>): Parsed<seq<Int32>>
    decreases n - |read|
  {
    if |read| >= n then Good(read, s)
    else match ReadInt32(s)
      case Bad => Bad
      case Good(v, rest) => ReadInts(rest, n, read + [v])
  }

  function ReadClients(s: string, n: nat, read: seq<Client>): Parsed<seq<Client>>
    decreases n - |read|
  {
    if |read| >= n then Good(read, s)
    else match ReadClient(s)
      case Bad => Bad
      case Good(c, rest) => ReadClients(rest, n, read + [c])
  }

  function ReadClientVector(s: string): Parsed<seq<Client>> {
    match ReadCount(s) case Bad => Bad case Good(n, rest) => ReadClients(rest, n, [])
  }

  function ReadStatus(s: string): Parsed<Status> {
    match ReadInt32(s) case Bad => Bad case Good(id, rest) =>
      match ReadInt32(rest) case Bad => Bad case Good(elapsed, rest) =>
        match ReadBool(rest) case Bad => Bad case Good(paused, rest) =>
          match ReadCount(rest) case Bad => Bad case Good(n, rest) =>
            match ReadInts(rest, n, []) case Bad => Bad case Good(queue, rest) =>
              Good(Status(id, elapsed, paused, queue), rest)
  }

  /** The payload the tag asks for, read off the archive; what follows it is not looked at. */
  function ReadPayload(tag: Uint8, s: string): Result<Message> {
    match tag
    case 0 => (match ReadUint8(s) case Bad => Err case Good(op, _) => Ok(ControlMusic(op)))
    case 1 => (
      match ReadInt32(s) case Bad => Err case Good(id, rest) =>
        match ReadBool(rest) case Bad => Err case Good(add, _) => Ok(ChangeSong(id, add)))
    case 2 => (match ReadUint8(s) case Bad => Err case Good(d, _) => Ok(Disconnect(d)))
    case 3 => (match ReadUint8(s) case Bad => Err case Good(d, _) => Ok(Connect(d)))
    case 4 => (match ReadUint8(s) case Bad => Err case Good(d, _) => Ok(QueryStatus(d)))
    case 5 => (match ReadStatus(s) case Bad => Err case Good(status, _) => Ok(SendStatus(status)))
    case 6 => (match ReadUint8(s) case Bad => Err case Good(et, _) => Ok(Bully(et)))
    case 7 => (
      match ReadUint16(s) case Bad => Err case Good(id, rest) =>
        match ReadClientVector(rest) case Bad => Err case Good(cs, _) => Ok(ConnectorList(ClientList(id, cs))))
    case 8 => (match ReadClientVector(s) case Bad => Err case Good(cs, _) => Ok(ConnectorListUpdate(cs)))
    case _ => Ok(Unnamed(tag))
  }

  // ----- Reading back what was written -----

  lemma ReadToken(n: int, rest: string)
    ensures ReadNumber(Token(n) + rest) == Good(n, rest)
  {
    var magnitude: nat := if n < 0 then -n else n;
    var digits := PrintNat(magnitude) + (" " + rest);
    PrintedRun(magnitude, rest);
    assert IsDigit(PrintNat(magnitude)[0]);
    SignedToken(n, rest);
    hide Value, DigitRun, PrintNat, Token;
  }

  lemma SignedToken(n: int, rest: string)
    ensures
      var s, digits := Token(n) + rest, PrintNat(if n < 0 then -n else n) + (" " + rest);
      if n < 0 then s[0] == '-' && s[1..] == digits else s == digits && s[0] != '-'
  {
    hide PrintNat;
    var s, digits := Token(n) + rest, PrintNat(if n < 0 then -n else n) + (" " + rest);
    if n < 0 {
      assert s == ['-'] + digits;
    } else {
      assert s == digits;
      assert IsDigit(PrintNat(n)[0]);
    }
  }

  lemma PrintedRun(n: nat, rest: string)
    ensures
      var s := PrintNat(n) + (" " + rest);
      var k := DigitRun(s);
      k == |PrintNat(n)| < |s| && s[k] == ' ' && Value(s[..k]) == n && s[k + 1..] == rest
  {
    var p := PrintNat(n);
    var s := p + (" " + rest);
    RunOfDigits(p, " " + rest);
    ValueOfPrint(n);
    assert s[..|p|] == p && s[|p| + 1..] == rest;
  }

  lemma ReadBackText(t: string, rest: string)
    ensures ReadText(Text(t) + rest) == Good(t, rest)
  {
    hide ReadNumber, Token;
    var after := t + (" " + rest);
    assert Text(t) + rest == Token(|t|) + after;
    ReadToken(|t|, after);
    assert after[..|t|] == t && after[|t| + 1..] == rest && after[|t|] == ' ';
  }

  lemma ReadBackClient(c: Client, rest: string)
    ensures ReadClient(ClientText(c) + rest) == Good(c, rest)
  {
    hide ReadNumber, Token;
    var afterIp, afterPort := Token(c.port) + (Token(c.bullyId) + rest), Token(c.bullyId) + rest;
    assert ClientText(c) + rest == Text(c.ip) + afterIp;
    ReadBackText(c.ip, afterIp);
    ReadToken(c.port, afterPort);
    ReadToken(c.bullyId, rest);
  }

  lemma {:induction false} ReadBackInts(ns: seq<Int32>, read: seq<Int32>, rest: string)
    ensures ReadInts(Ints(ns) + rest, |read| + |ns|, read) == Good(read + ns, rest)
    decreases |ns|
  {
    hide ReadNumber, Token;
    if ns == [] {
      assert Ints(ns) + rest == rest && read + ns == read;
    } else {
      var tail := Ints(ns[1..]) + rest;
      assert Ints(ns) + rest == Token(ns[0]) + tail;
      ReadToken(ns[0], tail);
      ReadBackInts(ns[1..], read + [ns[0]], rest);
      assert read + [ns[0]] + ns[1..] == read + ns;
    }
  }

  lemma {:induction false} ReadBackClients(cs: seq<Client>, read: seq<Client>, rest: string)
    ensures ReadClients(ClientTexts(cs) + rest, |read| + |cs|, read) == Good(read + cs, rest)
    decreases |cs|
  {
    hide ReadClient, ClientText;
    if cs == [] {
      assert ClientTexts(cs) + rest == rest && read + cs == read;
    } else {
      var tail := ClientTexts(cs[1..]) + rest;
      assert ClientTexts(cs) + rest == ClientText(cs[0]) + tail;
      ReadBackClient(cs[0], tail);
      ReadBackClients(cs[1..], read + [cs[0]], rest);
      assert read + [cs[0]] + cs[1..] == read + cs;
    }
  }

  lemma ReadBackClientVector(cs: seq<Client>, rest: string)
    ensures ReadClientVector(Token(|cs|) + ClientTexts(cs) + rest) == Good(cs, rest)
  {
    hide ReadNumber, Token, ReadClients, ClientTexts;
    assert Token(|cs|) + ClientTexts(cs) + rest == Token(|cs|) + (ClientTexts(cs) + rest);
    ReadToken(|cs|, ClientTexts(cs) + rest);
    ReadBackClients(cs, [], rest);
    assert [] + cs == cs;
  }

  lemma ReadBackStatus(st: Status, rest: string)
    ensures ReadStatus(Archive(SendStatus(st)) + rest) == Good(st, rest)
  {
    hide ReadNumber, Token, ReadInts;
    var s4 := Ints(st.queue) + rest;
    var s3 := Token(|st.queue|) + s4;
    var s2 := Token(if st.paused then 1 else 0) + s3;
    var s1 := Token(st.elapsedTime) + s2;
    assert Archive(SendStatus(st)) + rest == Token(st.currentSongId) + s1;
    ReadToken(st.currentSongId, s1);
    ReadToken(st.elapsedTime, s2);
    ReadToken(if st.paused then 1 else 0, s3);
    ReadToken(|st.queue|, s4);
    ReadBackInts(st.queue, [], rest);
    assert [] + st.queue == st.queue;
  }

  /** Every message reads back from its archive, whatever stale bytes follow. */
  lemma ReadBack(m: Message, rest: string)
    requires m.WellTagged()
    ensures ReadPayload(m.Tag(), Archive(m) + rest) == Ok(m)
  {
    hide ReadNumber, ReadStatus, ReadClientVector, Token, ClientTexts;
    match m
    case ControlMusic(op) => ReadToken(op, rest);
    case Disconnect(d) => ReadToken(d, rest);
    case Connect(d) => ReadToken(d, rest);
    case QueryStatus(d) => ReadToken(d, rest);
    case Bully(et) => ReadToken(et, rest);
    case ChangeSong(id, add) =>
      var s1 := Token(if add then 1 else 0) + rest;
      assert Archive(m) + rest == Token(id) + s1;
      ReadToken(id, s1);
      ReadToken(if add then 1 else 0, rest);
    case SendStatus(st) => ReadBackStatus(st, rest);
    case ConnectorList(list) =>
      var s1 := Token(|list.clients|) + ClientTexts(list.clients) + rest;
      assert Archive(m) + rest == Token(list.bullyId) + s1;
      ReadToken(list.bullyId, s1);
      ReadBackClientVector(list.clients, rest);
    case ConnectorListUpdate(cs) => ReadBackClientVector(cs, rest);
    case Unnamed(_) =>
  }

  /** So no archive is confused with another of its kind, not even with different bytes after it. */
  lemma ArchivePrefixFree(m: Message, m': Message, rest: string, rest': string)
    requires m.WellTagged() && m'.WellTagged() && m.Tag() == m'.Tag()
    requires Archive(m) + rest == Archive(m') + rest'
    ensures m == m' && rest == rest'
  {
    ReadBack(m, rest);
    ReadBack(m', rest');
    assert rest == (Archive(m) + rest)[|Archive(m)|..];
    assert rest' == (Archive(m') + rest')[|Archive(m')|..];
  }

  lemma TokenDigits()
    ensures Token(0) == "0 " && Token(1) == "1 " && Token(2) == "2 " && Token(3) == "3 " && Token(7) == "7 "
    ensures Token(9) == "9 " && Token(10) == "10 " && Token(80) == "80 " && Token(-5) == "-5 "
  {
    assert PrintNat(10) == PrintNat(1) + [DigitChar(0)] == "10";
    assert PrintNat(80) == PrintNat(8) + [DigitChar(0)] == "80";
  }

  /** On the wire: a message of each kind, its tag and its archive, field after field. */
  lemma WireFormat()
    ensures ControlMusic(SKIP).Tag() == 0 && Archive(ControlMusic(SKIP)) == "3 "
    ensures ChangeSong(7, true).Tag() == 1 && Archive(ChangeSong(7, true)) == "7 1 "
    ensures Disconnect(0).Tag() == 2 && Archive(Disconnect(0)) == "0 "
    ensures Connect(0).Tag() == 3 && Archive(Connect(0)) == "0 "
    ensures QueryStatus(0).Tag() == 4 && Archive(QueryStatus(0)) == "0 "
    ensures Bully(1).Tag() == 6 && Archive(Bully(1)) == "1 "
    ensures SAMPLE_STATUS.Tag() == 5 && Archive(SAMPLE_STATUS) == "2 -5 0 2 1 10 "
    ensures SAMPLE_LIST.Tag() == 7 && Archive(SAMPLE_LIST) == "9 1 2 ab 80 7 "
    ensures SAMPLE_UPDATE.Tag() == 8 && Archive(SAMPLE_UPDATE) == "1 2 ab 80 7 "
  {
    TokenDigits();
    StatusFormat();
    ListFormat();
    hide Token, Ints, ClientTexts;
  }

  const SAMPLE_STATUS := SendStatus(Status(2, -5, false, [1, 10]))
  const SAMPLE_LIST := ConnectorList(ClientList(9, [Client("ab", 80, 7)]))
  const SAMPLE_UPDATE := ConnectorListUpdate([Client("ab", 80, 7)])

  lemma StatusFormat()
    ensures Archive(SAMPLE_STATUS) == "2 -5 0 2 1 10 "
  {
    TokenDigits();
    TwoInts();
    hide Token, Ints;
  }

  lemma ListFormat()
    ensures ClientTexts([Client("ab", 80, 7)]) == "2 ab 80 7 "
    ensures Archive(SAMPLE_LIST) == "9 1 2 ab 80 7 " && Archive(SAMPLE_UPDATE) == "1 2 ab 80 7 "
  {
    TokenDigits();
    var c := Client("ab", 80, 7);
    assert [c][1..] == [];
    assert ClientTexts([c]) == ClientText(c) + [];
    hide Token, ClientTexts;
    assert ClientText(c) == "2 ab 80 7 ";
  }

  lemma TwoInts()
    ensures Ints([1, 10]) == Token(1) + (Token(10) + [])
  {
    hide Token;
    var ns: seq<Int32> := [1, 10];
    assert ns[1..] == [10] && ns[1..][1..] == [];
    assert Ints(ns[1..]) == Token(10) + Ints(ns[1..][1..]);
  }

  // ----- The buffer -----

  /** A buffer written from position 1 on; like the stream over it, it stops taking bytes once full. */
  class OutputArchive {
    const buffer: array<char>
    ghost const original: seq<char>
    var pos: nat
    var failed: bool
    /** Everything put out so far, whether it fitted or not. */
    ghost var out: string

    ghost predicate Valid()
      reads this, buffer
    {
      && 1 <= pos <= buffer.Length == |original|
      && pos - 1 <= |out| && out[..pos - 1] == buffer[1..pos]
      && (!failed ==> |out| == pos - 1)
      && (failed ==> |out| > pos - 1 && pos == buffer.Length)
      && buffer[0] == original[0] && buffer[pos..] == original[pos..]
    }

    constructor (buffer: array<char>)
      requires buffer.Length > 0
      ensures Valid() && this.buffer == buffer && out == [] && original == buffer[..]
    {
      this.buffer := buffer;
      this.original := buffer[..];
      pos, failed := 1, false;
      out := [];
    }

    method PutChar(c: char)
      requires Valid()
      modifies this, buffer
      ensures Valid() && out == old(out) + [c]
    {
      out := out + [c];
      if !failed {
        if pos < buffer.Length {
          buffer[pos] := c;
          pos := pos + 1;
        } else {
          failed := true;
        }
      }
    }

    method Put(s: string)
      requires Valid()
      modifies this, buffer
      ensures Valid() && out == old(out) + s
    {
      for i := 0 to |s|
        invariant Valid() && out == old(out) + s[..i]
      {
        PutChar(s[i]);
        assert s[..i + 1] == s[..i] + [s[i]];
      }
      assert s[..|s|] == s;
    }

    method PutClient(c: Client)
      requires Valid()
      modifies this, buffer
      ensures Valid() && out == old(out) + ClientText(c)
    {
      hide Valid, Text, Token;
      Put(Text(c.ip));
      Put(Token(c.port));
      Put(Token(c.bullyId));
      Regroup(old(out), Text(c.ip), Token(c.port), Token(c.bullyId));
    }

    method PutClients(cs: seq<Client>)
      requires Valid()
      modifies this, buffer
      ensures Valid() && out == old(out) + (Token(|cs|) + ClientTexts(cs))
    {
      hide Valid, ClientText, Token, ClientTexts;
      Put(Token(|cs|));
      ghost var start := out;
      assert cs[0..] == cs;
      for i := 0 to |cs|
        invariant Valid() && out + ClientTexts(cs[i..]) == start + ClientTexts(cs)
      {
        ghost var before := out;
        PutClient(cs[i]);
        TextsCons(before, cs, i);
      }
      TextsNil(out, cs);
      Regroup(old(out), Token(|cs|), ClientTexts(cs), []);
    }

    method PutInts(ns: seq<Int32>)
      requires Valid()
      modifies this, buffer
      ensures Valid() && out == old(out) + (Token(|ns|) + Ints(ns))
    {
      hide Valid, Token, Ints;
      Put(Token(|ns|));
      ghost var start := out;
      assert ns[0..] == ns;
      for i := 0 to |ns|
        invariant Valid() && out + Ints(ns[i..]) == start + Ints(ns)
      {
        ghost var before := out;
        Put(Token(ns[i]));
        IntsCons(before, ns, i);
      }
      IntsNil(out, ns);
      Regroup(old(out), Token(|ns|), Ints(ns), []);
    }

    /** `serialize`, writing. */
    method PutPayload(m: Message)
      requires Valid()
      modifies this, buffer
      ensures Valid() && out == old(out) + Archive(m)
    {
      hide Valid, Token, Ints, ClientTexts;
      ghost var start := out;
      match m
      case ControlMusic(op) => Put(Token(op));
      case ChangeSong(songId, addToQueue) =>
        Put(Token(songId));
        Put(BoolToken(addToQueue));
        Regroup(start, Token(songId), BoolToken(addToQueue), []);
      case Disconnect(dummy) => Put(Token(dummy));
      case Connect(dummy) => Put(Token(dummy));
      case QueryStatus(dummy) => Put(Token(dummy));
      case SendStatus(s) =>
        PutStatus(s);
      case Bully(et) => Put(Token(et));
      case ConnectorList(list) =>
        Put(Token(list.bullyId));
        PutClients(list.clients);
        Regroup(start, Token(list.bullyId), Token(|list.clients|), ClientTexts(list.clients));
      case ConnectorListUpdate(clients) => PutClients(clients);
      case Unnamed(_) => Regroup([], start, [], []);
    }

    method PutStatus(s: Status)
      requires Valid()
      modifies this, buffer
      ensures Valid() && out == old(out) + Archive(SendStatus(s))
    {
      hide Valid, Token, Ints, BoolToken, Archive;
      Put(Token(s.currentSongId));
      Put(Token(s.elapsedTime));
      Put(BoolToken(s.paused));
      ghost var front := out;
      PutInts(s.queue);
      StatusArchive(s, old(out), front);
    }
  }

  lemma StatusArchive(s: Status, start: string, front: string)
    requires front == start + Token(s.currentSongId) + Token(s.elapsedTime) + BoolToken(s.paused)
    ensures front + (Token(|s.queue|) + Ints(s.queue)) == start + Archive(SendStatus(s))
  {
    hide Token, Ints, BoolToken;
  }

  lemma Regroup(a: string, b: string, c: string, d: string)
    ensures a + b + c + d == a + (b + c + d) == a + (b + (c + d))
    ensures a + (b + c) == a + b + c
    ensures [] + b == b && d + [] == d
    ensures b + c + [] == b + c
  {
  }

  lemma TextsCons(out: string, cs: seq<Client>, i: nat)
    requires i < |cs|
    ensures out + ClientText(cs[i]) + ClientTexts(cs[i + 1..]) == out + ClientTexts(cs[i..])
  {
    assert cs[i..][1..] == cs[i + 1..];
    hide ClientText;
    assert ClientTexts(cs[i..]) == ClientText(cs[i]) + ClientTexts(cs[i + 1..]);
  }

  lemma TextsNil(out: string, cs: seq<Client>)
    ensures out + ClientTexts(cs[|cs|..]) == out
  {
  }

  lemma IntsCons(out: string, ns: seq<Int32>, i: nat)
    requires i < |ns|
    ensures out + Token(ns[i]) + Ints(ns[i + 1..]) == out + Ints(ns[i..])
  {
    assert ns[i..][1..] == ns[i + 1..];
    hide Token;
    assert Ints(ns[i..]) == Token(ns[i]) + Ints(ns[i + 1..]);
  }

  lemma IntsNil(out: string, ns: seq<Int32>)
    ensures out + Ints(ns[|ns|..]) == out
  {
  }

  /** A buffer with the tag, the archive library's own header, and the message's archive. */
  ghost predicate Carries(buffer: seq<char>, head: string, m: Message) {
    && 1 + |head| + |Archive(m)| <= |buffer|
    && buffer[0] == m.Tag() as char
    && buffer[1..1 + |head| + |Archive(m)|] == head + Archive(m)
  }

  /**
   * Writes a message at the head of a buffer, after the tag and the header that every archive of the
   * library opens with. It succeeds exactly when all three fit; bytes past the archive stay, and a
   * message that does not fit leaves its front part in a full buffer.
   */
  method WriteMessageToBuffer(buffer: array<char>, head: string, m: Message) returns (ok: bool)
    requires buffer.Length > 0
    modifies buffer
    ensures ok <==> 1 + |head| + |Archive(m)| <= buffer.Length
    ensures ok ==> Carries(buffer[..], head, m)
    ensures ok ==> buffer[1 + |head| + |Archive(m)|..] == old(buffer[..])[1 + |head| + |Archive(m)|..]
    ensures !ok ==> buffer[..] == [m.Tag() as char] + (head + Archive(m))[..buffer.Length - 1]
  {
    hide Archive;
    ghost var was := buffer[..];
    ghost var all := head + Archive(m);
    buffer[0] := m.Tag() as char;
    var oa := new OutputArchive(buffer);
    oa.Put(head);
    oa.PutPayload(m);
    assert oa.out == all;
    ok := !oa.failed;
    if ok {
      assert oa.pos == 1 + |all|;
      assert oa.out[..oa.pos - 1] == oa.out;
      assert buffer[..][1..oa.pos] == all;
      assert oa.original == was[0 := m.Tag() as char];
      assert buffer[..][oa.pos..] == oa.original[oa.pos..] == was[oa.pos..];
    } else {
      assert buffer[..] == [buffer[0]] + buffer[1..];
    }
  }

  /** What a number token is, given the digits after its sign. */
  lemma NumberAt(s: string, digits: string, value: nat, n: nat)
    requires digits == if s != [] && s[0] == '-' then s[1..] else s
    requires n == DigitRun(digits) && value == Value(digits[..n])
    ensures
      var v: int := value;
      ReadNumber(s) ==
        if n == 0 || n == |digits| || digits[n] != ' ' then Bad
        else Good(if s != [] && s[0] == '-' then -v else v, digits[n + 1..])
  {
  }

  lemma DropMore(b: seq<char>, i: nat, n: nat)
    requires i + n <= |b|
    ensures b[i + n..] == b[i..][n..]
  {
  }

  lemma ValueNext(digits: string, k: nat)
    requires k < DigitRun(digits)
    ensures Value(digits[..k + 1]) == Value(digits[..k]) * 10 + DigitValue(digits[k])
  {
    assert digits[..k + 1] == digits[..k] + [digits[k]];
    ValueSnoc(digits[..k], digits[k]);
  }

  /** An archive being read from a buffer, and how far. */
  class InputArchive {
    const buffer: array<char>
    var pos: nat

    ghost predicate Valid()
      reads this
    {
      pos <= buffer.Length
    }

    ghost function Rest(): string
      requires Valid()
      reads this, buffer
    {
      buffer[pos..]
    }

    constructor (buffer: array<char>)
      requires buffer.Length > 0
      ensures Valid() && this.buffer == buffer && pos == 1
    {
      this.buffer := buffer;
      pos := 1;
    }

    /** The header is read off first, and must be the library's own. */
    method GetHead(head: string) returns (ok: bool)
      requires Valid()
      modifies this
      ensures Valid()
      ensures ok <==> head <= old(Rest())
      ensures ok ==> Rest() == old(Rest())[|head|..]
    {
      ghost var s := Rest();
      if |head| > buffer.Length - pos {
        return false;
      }
      for i := 0 to |head|
        invariant Valid() && pos == old(pos) && head[..i] == s[..i]
      {
        if buffer[pos + i] != head[i] {
          assert s[i] != head[i];
          return false;
        }
        assert head[..i + 1] == head[..i] + [head[i]] && s[..i + 1] == s[..i] + [s[i]];
      }
      assert head[..|head|] == head;
      pos := pos + |head|;
      ok := true;
    }

    /** The digits from a position on, and where they end. */
    method GetDigits(start: nat) returns (value: nat, end: nat)
      requires Valid() && start <= buffer.Length
      ensures end == start + DigitRun(buffer[start..]) <= buffer.Length
      ensures value == Value(buffer[start..][..end - start])
    {
      ghost var digits := buffer[start..];
      value, end := 0, start;
      assert digits[..0] == [];
      while end < buffer.Length && IsDigit(buffer[end])
        invariant start <= end <= buffer.Length && end - start <= DigitRun(digits)
        invariant value == Value(digits[..end - start])
      {
        assert buffer[end] == digits[end - start];
        ValueNext(digits, end - start);
        value := value * 10 + DigitValue(buffer[end]);
        end := end + 1;
      }
    }

    /** Reads a number token; only a good one moves the position. */
    method GetNumber() returns (r: Result<int>)
      requires Valid()
      modifies this
      ensures Valid()
      ensures match ReadNumber(old(Rest())) case Bad => r == Err case Good(v, rest) => r == Ok(v) && Rest() == rest
    {
      hide Value, DigitRun, ReadNumber;
      ghost var b, s := buffer[..], Rest();
      var negative := pos < buffer.Length && buffer[pos] == '-';
      var start := if negative then pos + 1 else pos;
      DropMore(b, pos, start - pos);
      var value, end := GetDigits(start);
      NumberAt(s, b[start..], value, end - start);
      if end == start || end == buffer.Length || buffer[end] != ' ' {
        return Err;
      }
      DropMore(b, start, end - start + 1);
      pos := end + 1;
      assert Rest() == b[pos..];
      var v: int := value;
      r := Ok(if negative then -v else v);
    }

    method GetInt(low: int, high: int) returns (r: Result<int>)
      requires Valid()
      modifies this
      ensures Valid()
      ensures match ReadInt(old(Rest()), low, high)
        case Bad => r == Err
        case Good(v, rest) => r == Ok(v) && Rest() == rest
    {
      hide ReadNumber;
      r := GetNumber();
      if r.Ok? && !(low <= r.value < high) {
        r := Err;
      }
    }

    method GetText() returns (r: Result<string>)
      requires Valid()
      modifies this
      ensures Valid()
      ensures match ReadText(old(Rest())) case Bad => r == Err case Good(t, rest) => r == Ok(t) && Rest() == rest
    {
      hide ReadNumber;
      var n := GetNumber();
      if n == Err || n.value < 0 || n.value >= buffer.Length - pos || buffer[pos + n.value] != ' ' {
        return Err;
      }
      ghost var rest := Rest();
      r := Ok(buffer[pos..pos + n.value]);
      assert r.value == rest[..n.value];
      pos := pos + n.value + 1;
      assert Rest() == rest[n.value + 1..];
    }

    method GetClient() returns (r: Result<Client>)
      requires Valid()
      modifies this
      ensures Valid()
      ensures match ReadClient(old(Rest())) case Bad => r == Err case Good(c, rest) => r == Ok(c) && Rest() == rest
    {
      hide ReadText, ReadNumber;
      var ip := GetText();
      if ip == Err { return Err; }
      var port := GetInt(0, 0x1_0000);
      if port == Err { return Err; }
      var bullyId := GetInt(0, 0x1_0000);
      if bullyId == Err { return Err; }
      r := Ok(Client(ip.value, port.value, bullyId.value));
    }

    method GetClients() returns (r: Result<seq<Client>>)
      requires Valid()
      modifies this
      ensures Valid()
      ensures match ReadClientVector(old(Rest()))
        case Bad => r == Err
        case Good(cs, rest) => r == Ok(cs) && Rest() == rest
    {
      hide ReadClient, ReadNumber;
      var n := GetNumber();
      if n == Err || n.value < 0 { return Err; }
      ghost var all := ReadClients(Rest(), n.value, []);
      var read: seq<Client> := [];
      while |read| < n.value
        invariant Valid() && |read| <= n.value
        invariant ReadClients(Rest(), n.value, read) == all
      {
        var c := GetClient();
        if c == Err { return Err; }
        read := read + [c.value];
      }
      r := Ok(read);
    }

    method GetInts() returns (r: Result<seq<Int32>>)
      requires Valid()
      modifies this
      ensures Valid()
      ensures match ReadCount(old(Rest()))
        case Bad => r == Err
        case Good(n, rest) =>
          match ReadInts(rest, n, []) case Bad => r == Err case Good(ns, rest) => r == Ok(ns) && Rest() == rest
    {
      hide ReadNumber;
      var n := GetNumber();
      if n == Err || n.value < 0 { return Err; }
      ghost var all := ReadInts(Rest(), n.value, []);
      var read: seq<Int32> := [];
      while |read| < n.value
        invariant Valid() && |read| <= n.value
        invariant ReadInts(Rest(), n.value, read) == all
      {
        var v := GetInt(-0x8000_0000, 0x8000_0000);
        if v == Err { return Err; }
        read := read + [v.value];
      }
      r := Ok(read);
    }

    method GetStatus() returns (r: Result<Status>)
      requires Valid()
      modifies this
      ensures Valid()
      ensures match ReadStatus(old(Rest())) case Bad => r == Err case Good(st, rest) => r == Ok(st) && Rest() == rest
    {
      hide ReadNumber, ReadInts;
      var id := GetInt(-0x8000_0000, 0x8000_0000);
      if id == Err { return Err; }
      var elapsed := GetInt(-0x8000_0000, 0x8000_0000);
      if elapsed == Err { return Err; }
      var paused := GetInt(0, 2);
      if paused == Err { return Err; }
      var queue := GetInts();
      if queue == Err { return Err; }
      r := Ok(Status(id.value, elapsed.value, paused.value == 1, queue.value));
    }

    /** `serialize`, reading, for the payload the tag names. */
    method GetPayload(tag: Uint8) returns (r: Result<Message>)
      requires Valid()
      modifies this
      ensures Valid()
      ensures r == ReadPayload(tag, old(Rest()))
    {
      hide ReadNumber, ReadStatus, ReadClientVector;
      if tag == 5 {
        var status := GetStatus();
        return if status == Err then Err else Ok(SendStatus(status.value));
      } else if tag == 7 {
        var id := GetInt(0, 0x1_0000);
        if id == Err { return Err; }
        var cs := GetClients();
        return if cs == Err then Err else Ok(ConnectorList(ClientList(id.value, cs.value)));
      } else if tag == 8 {
        var cs := GetClients();
        return if cs == Err then Err else Ok(ConnectorListUpdate(cs.value));
      } else if tag == 1 {
        var id := GetInt(-0x8000_0000, 0x8000_0000);
        if id == Err { return Err; }
        var add := GetInt(0, 2);
        return if add == Err then Err else Ok(ChangeSong(id.value, add.value == 1));
      } else if tag > 8 {
        return Ok(Unnamed(tag));
      }
      var v := GetInt(0, 0x100);
      if v == Err { return Err; }
      match tag
      case 0 => r := Ok(ControlMusic(v.value));
      case 2 => r := Ok(Disconnect(v.value));
      case 3 => r := Ok(Connect(v.value));
      case 4 => r := Ok(QueryStatus(v.value));
      case _ => r := Ok(Bully(v.value));
    }
  }

  /** What the bytes after the tag say: an archive of the library with the payload the tag names, or an error. */
  function ReadArchive(tag: Uint8, head: string, s: string): Result<Message> {
    if head <= s then ReadPayload(tag, s[|head|..]) else Err
  }

  /** Reads the message at the head of a buffer; a foreign header and a malformed archive are errors. */
  method ReadMessageFromBuffer(buffer: array<char>, head: string) returns (r: Result<Message>)
    requires buffer.Length > 0
    ensures r == ReadArchive(buffer[0] as int % 0x100, head, buffer[1..])
  {
    hide ReadPayload;
    var ia := new InputArchive(buffer);
    var ok := ia.GetHead(head);
    if !ok {
      return Err;
    }
    r := ia.GetPayload(buffer[0] as int % 0x100);
  }

  /** Reading a buffer that carries a message gives that message: together with the two methods, the round trip. */
  lemma ReadCarried(buffer: seq<char>, head: string, m: Message)
    requires m.WellTagged() && Carries(buffer, head, m)
    ensures ReadArchive(buffer[0] as int % 0x100, head, buffer[1..]) == Ok(m)
  {
    hide Archive, ReadPayload;
    var a := Archive(m);
    var rest := buffer[1 + |head| + |a|..];
    assert buffer[1..] == head + a + rest;
    assert buffer[1..][|head|..] == a + rest;
    ReadBack(m, rest);
  }

  /** A message relayed through any buffer, stale bytes and all, arrives unchanged exactly when it fits. */
  method Relay(buffer: array<char>, head: string, m: Message) returns (ok: bool, arrived: Result<Message>)
    requires buffer.Length > 0 && m.WellTagged()
    modifies buffer
    ensures ok <==> 1 + |head| + |Archive(m)| <= buffer.Length
    ensures ok ==> arrived == Ok(m)
  {
    hide Archive, ReadArchive;
    ok := WriteMessageToBuffer(buffer, head, m);
    arrived := Err;
    if ok {
      ReadCarried(buffer[..], head, m);
      assert buffer[..][1..] == buffer[1..];
      arrived := ReadMessageFromBuffer(buffer, head);
    }
  }
}
