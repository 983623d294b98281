/** The property part of the binary style loader of ext/raygui.h. */
module StyleLoader {
  import opened CTypes
  import opened Style

  // ----- Little-endian fields -----

  function U16(d: seq<Byte>, i: nat): (v: int)
    requires i + 2 <= |d|
    ensures 0 <= v < 0x1_0000
  {
    var low: int, high: int := d[i], d[i + 1];
    low + 0x100 * high
  }

  function S16(d: seq<Byte>, i: nat): int
    requires i + 2 <= |d|
  {
    if U16(d, i) >= 0x8000 then U16(d, i) - 0x1_0000 else U16(d, i)
  }

  function U32(d: seq<Byte>, i: nat): (v: int)
    requires i + 4 <= |d|
    ensures 0 <= v < 0x1_0000_0000
  {
    U16(d, i) + 0x1_0000 * U16(d, i + 2)
  }

  function S32(d: seq<Byte>, i: nat): int
    requires i + 4 <= |d|
  {
    if U32(d, i) >= 0x8000_0000 then U32(d, i) - 0x1_0000_0000 else U32(d, i)
  }

  // ----- The file -----

  const SIGNATURE: seq<Byte> := [0x72, 0x47, 0x53, 0x20]   // "rGS "
  const HEADER: nat := 12
  const RECORD: nat := 8

  predicate Signed(d: seq<Byte>)
    requires |d| >= HEADER
  {
    d[0] == SIGNATURE[0] && d[1] == SIGNATURE[1] && d[2] == SIGNATURE[2] && d[3] == SIGNATURE[3]
  }

  /** Records announced; a negative count announces none. */
  function Count(d: seq<Byte>): nat
    requires |d| >= HEADER
  {
    if S32(d, 8) < 0 then 0 else S32(d, 8)
  }

  /** What the loader takes for granted: the announced records are there and name existing properties. */
  ghost predicate WellFormed(d: seq<Byte>) {
    && |d| >= HEADER
    && (Signed(d) ==>
          && |d| >= HEADER + RECORD * Count(d)
          && forall k :: 0 <= k < Count(d) ==> ValidRecord(d, HEADER + RECORD * k))
  }

  predicate ValidRecord(d: seq<Byte>, at: nat) {
    at + RECORD <= |d| && 0 <= S16(d, at) < MAX_CONTROLS && 0 <= S16(d, at + 2) < MAX_PROPS
  }

  function RecordAt(d: seq<Byte>, at: nat): Write
    requires ValidRecord(d, at)
  {
    Write(S16(d, at), S16(d, at + 2), U32(d, at + 4))
  }

  ghost function Records(d: seq<Byte>, n: nat): (rs: seq<Write>)
    requires WellFormed(d) && Signed(d) && n <= Count(d)
    ensures |rs| == n
  {
    if n == 0 then [] else Records(d, n - 1) + [RecordAt(d, HEADER + RECORD * (n - 1))]
  }

  /** Writing a value where DEFAULT has just written it changes nothing. */
  lemma PropagationRedundant(w: Words, property: PropertyId, value: int, c: ControlId)
    requires property < MAX_PROPS_BASE
    ensures Put(Put(w, DEFAULT, property, value), c, property, value) == Put(w, DEFAULT, property, value)
  {
  }

  /**
   * Loading a file is writing its records one after the other; the loop that copies DEFAULT's base
   * properties to the other controls adds nothing. Without the signature nothing is loaded.
   */
  method GuiLoadStyleFromMemory(style: StyleTable, d: seq<Byte>)
    requires style.Valid() && WellFormed(d)
    modifies style, style.guiStyle
    ensures style.Effective()
         == if Signed(d) then PutAll(old(style.Effective()), Records(d, Count(d))) else old(style.Effective())
    ensures !Signed(d) || Count(d) == 0 ==> style.guiStyleLoaded == old(style.guiStyleLoaded)
  {
    var propertyCount := S32(d, 8);
    if Signed(d) {
      var at := HEADER;
      var n := if propertyCount < 0 then 0 else propertyCount;
      ghost var w := style.Effective();
      NoRecord(w, d);
      hide Put, PutAll, Defaults, Records, RecordAt, ValidRecord;
      for k := 0 to n
        invariant at == HEADER + RECORD * k
        invariant style.Effective() == PutAll(w, Records(d, k))
        invariant k == 0 ==> style.guiStyleLoaded == old(style.guiStyleLoaded)
      {
        OneMoreRecord(w, d, k);
        LoadRecord(style, d, at);
        at := at + RECORD;
      }
    }
  }

  lemma NoRecord(w: Words, d: seq<Byte>)
    requires WellFormed(d) && Signed(d)
    ensures PutAll(w, Records(d, 0)) == w
  {
  }

  lemma OneMoreRecord(w: Words, d: seq<Byte>, k: nat)
    requires WellFormed(d) && Signed(d) && k < Count(d)
    ensures ValidRecord(d, HEADER + RECORD * k)
    ensures
      var r := RecordAt(d, HEADER + RECORD * k);
      PutAll(w, Records(d, k + 1)) == Put(PutAll(w, Records(d, k)), r.control, r.property, r.value)
  {
    hide Put, RecordAt, ValidRecord;
    assert Records(d, k + 1)[..k] == Records(d, k);
  }

  /** One turn of the loop: a DEFAULT record is written, and a base property then to every control again. */
  method LoadRecord(style: StyleTable, d: seq<Byte>, at: nat)
    requires style.Valid() && ValidRecord(d, at)
    modifies style, style.guiStyle
    ensures style.guiStyleLoaded
    ensures
      var r := RecordAt(d, at);
      style.Words() == Put(old(style.Effective()), r.control, r.property, r.value)
  {
    hide Put, Defaults;
    var controlId, propertyId, propertyValue := S16(d, at), S16(d, at + 2), U32(d, at + 4);
    ghost var w := style.Effective();
    if controlId == 0 {
      style.GuiSetStyle(0, propertyId, propertyValue);
      if propertyId < MAX_PROPS_BASE {
        for i := 1 to MAX_CONTROLS
          invariant style.guiStyleLoaded && style.Words() == Put(w, DEFAULT, propertyId, propertyValue)
        {
          style.GuiSetStyle(i, propertyId, propertyValue);
          PropagationRedundant(w, propertyId, propertyValue, i);
        }
      }
    } else {
      style.GuiSetStyle(controlId, propertyId, propertyValue);
    }
  }

  // ----- Files that hold given records -----

  function Bytes16(v: int): seq<Byte>
    requires 0 <= v < 0x1_0000
  {
    [v % 0x100, v / 0x100]
  }

  function Bytes32(v: int): seq<Byte>
    requires 0 <= v < 0x1_0000_0000
  {
    Bytes16(v % 0x1_0000) + Bytes16(v / 0x1_0000)
  }

  function RecordBytes(r: Write): seq<Byte> {
    Bytes16(r.control) + Bytes16(r.property) + Bytes32(r.value % WORD)
  }

  function AllRecordBytes(rs: seq<Write>): (d: seq<Byte>)
    ensures |d| == RECORD * |rs|
  {
    if rs == [] then [] else AllRecordBytes(rs[..|rs| - 1]) + RecordBytes(rs[|rs| - 1])
  }

  /** A style file with the given records. */
  function StyleFile(version: int, rs: seq<Write>): seq<Byte>
    requires 0 <= version < 0x1_0000 && |rs| < 0x8000_0000
  {
    SIGNATURE + Bytes16(version) + Bytes16(0) + Bytes32(|rs|) + AllRecordBytes(rs)
  }

  /** The bytes of a file with one record, which sets a button's border to 0x01020304. */
  lemma OneRecordFile()
    ensures StyleFile(400, [Write(BUTTON, BORDER_WIDTH, 0x01020304)])
         == [0x72, 0x47, 0x53, 0x20, 0x90, 1, 0, 0, 1, 0, 0, 0, 2, 0, 12, 0, 4, 3, 2, 1]
  {
    var r := Write(BUTTON, BORDER_WIDTH, 0x01020304);
    assert [r][..0] == [];
    assert RecordBytes(r) == [2, 0, 12, 0, 4, 3, 2, 1];
    assert Bytes32(1) == [1, 0, 0, 0];
  }

  lemma Read16(d: seq<Byte>, i: nat, v: int)
    requires 0 <= v < 0x1_0000 && i + 2 <= |d| && d[i..i + 2] == Bytes16(v)
    ensures U16(d, i) == v
  {
    assert d[i] == d[i..i + 2][0] && d[i + 1] == d[i..i + 2][1];
  }

  lemma Read32(d: seq<Byte>, i: nat, v: int)
    requires 0 <= v < 0x1_0000_0000 && i + 4 <= |d| && d[i..i + 4] == Bytes32(v)
    ensures U32(d, i) == v
  {
    assert d[i..i + 2] == d[i..i + 4][..2] && d[i + 2..i + 4] == d[i..i + 4][2..];
    Read16(d, i, v % 0x1_0000);
    Read16(d, i + 2, v / 0x1_0000);
  }

  lemma ReadRecord(d: seq<Byte>, at: nat, r: Write)
    requires at + RECORD <= |d| && d[at..at + RECORD] == RecordBytes(r)
    ensures ValidRecord(d, at) && RecordAt(d, at) == Write(r.control, r.property, r.value % WORD)
  {
    SliceOfSlice(d, at, 0, 2);
    SliceOfSlice(d, at, 2, 4);
    SliceOfSlice(d, at, 4, 8);
    RecordFields(r);
    hide RecordBytes, Bytes16, Bytes32;
    Read16(d, at, r.control);
    Read16(d, at + 2, r.property);
    Read32(d, at + 4, r.value % WORD);
  }

  lemma SliceOfSlice(d: seq<Byte>, at: nat, a: nat, b: nat)
    requires a <= b <= RECORD && at + RECORD <= |d|
    ensures d[at + a..at + b] == d[at..at + RECORD][a..b]
  {
    var u, v := d[at + a..at + b], d[at..at + RECORD][a..b];
    forall k | 0 <= k < b - a
      ensures u[k] == v[k]
    {
    }
  }

  lemma RecordFields(r: Write)
    ensures
      var s := RecordBytes(r);
      && |s| == RECORD && s[0..2] == Bytes16(r.control) && s[2..4] == Bytes16(r.property)
      && s[4..8] == Bytes32(r.value % WORD)
  {
  }

  lemma {:induction false} RecordBytesAt(rs: seq<Write>, k: nat)
    requires k < |rs|
    ensures AllRecordBytes(rs)[RECORD * k..RECORD * k + RECORD] == RecordBytes(rs[k])
  {
    var init := rs[..|rs| - 1];
    if k < |init| {
      RecordBytesAt(init, k);
      assert AllRecordBytes(rs)[..|AllRecordBytes(init)|] == AllRecordBytes(init);
    }
  }

  /** Loading the file of some records is writing those records, as 32-bit words. */
  lemma StyleFileHolds(version: int, rs: seq<Write>)
    requires 0 <= version < 0x1_0000 && |rs| < 0x8000_0000
    ensures
      var d := StyleFile(version, rs);
      && WellFormed(d) && Signed(d) && Count(d) == |rs|
      && forall k :: 0 <= k < |rs| ==> Records(d, |rs|)[k] == Write(rs[k].control, rs[k].property, rs[k].value % WORD)
  {
    var d := StyleFile(version, rs);
    FileHeader(version, rs);
    hide StyleFile, RecordAt, ValidRecord, Signed;
    forall k | 0 <= k < |rs|
      ensures ValidRecord(d, HEADER + RECORD * k)
           && RecordAt(d, HEADER + RECORD * k) == Write(rs[k].control, rs[k].property, rs[k].value % WORD)
    {
      FileRecord(d, rs, k);
    }
    RecordsByIndex(d, |rs|);
  }

  /** So loading the file of any writes does those writes. */
  lemma StyleFileLoads(version: int, rs: seq<Write>, w: Words)
    requires 0 <= version < 0x1_0000 && |rs| < 0x8000_0000
    ensures
      var d := StyleFile(version, rs);
      WellFormed(d) && Signed(d) && Count(d) == |rs| && PutAll(w, Records(d, |rs|)) == PutAll(w, rs)
  {
    hide StyleFile, Signed, PutAll;
    StyleFileHolds(version, rs);
    PutAllWords(w, Records(StyleFile(version, rs), |rs|), rs);
  }

  lemma {:induction false} PutAllWords(w: Words, ds: seq<Write>, rs: seq<Write>)
    requires |ds| == |rs|
    requires forall k :: 0 <= k < |rs| ==> ds[k] == Write(rs[k].control, rs[k].property, rs[k].value % WORD)
    ensures PutAll(w, ds) == PutAll(w, rs)
  {
    if rs != [] {
      var n := |rs| - 1;
      PutAllWords(w, ds[..n], rs[..n]);
      PutWord(PutAll(w, rs[..n]), rs[n]);
      hide Put;
      assert ds[n] == Write(rs[n].control, rs[n].property, rs[n].value % WORD);
    }
  }

  lemma PutWord(w: Words, r: Write)
    ensures Put(w, r.control, r.property, r.value % WORD) == Put(w, r.control, r.property, r.value)
  {
  }

  lemma FileRecord(d: seq<Byte>, rs: seq<Write>, k: nat)
    requires |d| == HEADER + RECORD * |rs| && d[HEADER..] == AllRecordBytes(rs) && k < |rs|
    ensures ValidRecord(d, HEADER + RECORD * k)
    ensures RecordAt(d, HEADER + RECORD * k) == Write(rs[k].control, rs[k].property, rs[k].value % WORD)
  {
    hide AllRecordBytes, RecordBytes, RecordAt, ValidRecord;
    RecordBytesAt(rs, k);
    SliceShift(d, HEADER, RECORD * k, RECORD * k + RECORD);
    ReadRecord(d, HEADER + RECORD * k, rs[k]);
  }

  lemma SliceShift(d: seq<Byte>, h: nat, a: nat, b: nat)
    requires a <= b && h + b <= |d|
    ensures d[h..][a..b] == d[h + a..h + b]
  {
  }

  lemma FileHeader(version: int, rs: seq<Write>)
    requires 0 <= version < 0x1_0000 && |rs| < 0x8000_0000
    ensures
      var d := StyleFile(version, rs);
      && |d| == HEADER + RECORD * |rs| && Signed(d) && Count(d) == |rs| && d[HEADER..] == AllRecordBytes(rs)
  {
    var d := StyleFile(version, rs);
    assert d[8..12] == Bytes32(|rs|);
    Read32(d, 8, |rs|);
  }

  lemma {:induction false} RecordsByIndex(d: seq<Byte>, n: nat)
    requires WellFormed(d) && Signed(d) && n <= Count(d)
    ensures forall k :: 0 <= k < n ==> Records(d, n)[k] == RecordAt(d, HEADER + RECORD * k)
  {
    if n > 0 { RecordsByIndex(d, n - 1); }
  }
}
