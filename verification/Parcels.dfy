/**
 The Parcel that messages are written to and read from, as bytes and a cursor: little-endian,
 every item padded to four bytes, strings as a count and terminated UTF-16 units. A read
 that runs past the end yields zero or nothing and leaves the cursor.
 */
module Parcels {

  const TWO_32 := 0x1_0000_0000
  const INT32_MAX := 0x7FFF_FFFF
  // Parcel takes no item of more than INT32_MAX bytes.
  const MAX_TEXT := 0x3FFF_FFFE

  type Byte = b: int | 0 <= b < 0x100
  type Int8 = b: int | -0x80 <= b < 0x80
  type Unit = u: int | 0 <= u < 0x1_0000
  type Uint32 = v: int | 0 <= v < 0x1_0000_0000
  type Uint64 = v: int | 0 <= v < 0x1_0000_0000_0000_0000
  type Text = t: seq<Unit> | |t| <= MAX_TEXT
  type Texts = ts: seq<Text> | |ts| <= INT32_MAX

  // ---- items as bytes ----

  /** The i-th lowest byte of a 32-bit number. */
  function Digit(v: Uint32, i: nat): Byte {
    var b := v / 0x100;
    var c := b / 0x100;
    if i == 0 then v % 0x100 else if i == 1 then b % 0x100 else if i == 2 then c % 0x100 else c / 0x100
  }

  function U32(v: Uint32): (r: seq<Byte>)
    ensures |r| == 4
  {
    seq(4, i => if i < 0 then 0 else Digit(v, i))
  }

  function U64(v: Uint64): (r: seq<Byte>)
    ensures |r| == 8
  {
    U32(v % TWO_32) + U32(v / TWO_32)
  }

  /** A byte is written as a sign-extended 32-bit integer. */
  function SByte(b: Int8): (r: seq<Byte>)
    ensures |r| == 4
  {
    U32(if b < 0 then b + TWO_32 else b)
  }

  function Bool(b: bool): (r: seq<Byte>)
    ensures |r| == 4
  {
    U32(if b then 1 else 0)
  }

  /** The bytes that round a size up to the next multiple of four. */
  function Padding(n: nat): nat {
    if n >= 4 then Padding(n - 4) else if n == 0 then 0 else 4 - n
  }

  function Blob(b: seq<Byte>): (r: seq<Byte>)
    ensures |r| == |b| + Padding(|b|)
  {
    b + seq(Padding(|b|), _ => 0)
  }

  function UnitBytes(us: seq<Unit>): (r: seq<Byte>)
    ensures |r| == 2 * |us|
  {
    if us == [] then [] else [us[0] % 0x100, us[0] / 0x100] + UnitBytes(us[1..])
  }

  function TextBytes(t: Text): seq<Byte> {
    U32(|t|) + Blob(UnitBytes(t + [0]))
  }

  function EachText(ts: seq<Text>): seq<Byte> {
    if ts == [] then [] else TextBytes(ts[0]) + EachText(ts[1..])
  }

  function TextsBytes(ts: Texts): seq<Byte> {
    U32(|ts|) + EachText(ts)
  }

  // ---- reading: the value and the cursor after it ----

  /** The number that four bytes stand for, the lowest first. */
  function Word(a: Byte, b: Byte, c: Byte, e: Byte): Uint32 {
    a as int + 0x100 * b as int + 0x1_0000 * c as int + 0x100_0000 * e as int
  }

  function ReadU32(d: seq<Byte>, pos: nat): (Uint32, nat) {
    if pos + 4 <= |d| then (Word(d[pos], d[pos + 1], d[pos + 2], d[pos + 3]), pos + 4) else (0, pos)
  }

  function ReadU64(d: seq<Byte>, pos: nat): (Uint64, nat) {
    if pos + 8 <= |d| then (ReadU32(d, pos).0 + TWO_32 * ReadU32(d, pos + 4).0, pos + 8) else (0, pos)
  }

  function LowByte(v: Uint32): Int8 {
    if v % 0x100 < 0x80 then v % 0x100 else v % 0x100 - 0x100
  }

  function ReadByte(d: seq<Byte>, pos: nat): (Int8, nat) {
    (LowByte(ReadU32(d, pos).0), ReadU32(d, pos).1)
  }

  function ReadBool(d: seq<Byte>, pos: nat): (bool, nat) {
    (ReadU32(d, pos).0 != 0, ReadU32(d, pos).1)
  }

  predicate BlobFits(d: seq<Byte>, pos: nat, n: nat) {
    pos + n + Padding(n) <= |d|
  }

  function Units(d: seq<Byte>, p: nat, n: nat): (r: seq<Unit>)
    requires p + 2 * n <= |d|
  {
    seq(n, i requires 0 <= i < n => d[p + 2 * i] as int + 0x100 * d[p + 2 * i + 1] as int)
  }

  datatype TextRead = TextRead(ok: bool, text: Text, pos: nat)

  /** A string that cannot be read leaves `was` and only its count is consumed. */
  function ReadText(d: seq<Byte>, pos: nat, was: Text): TextRead {
    var (n, p) := ReadU32(d, pos);
    if p == pos || n > MAX_TEXT || !BlobFits(d, p, 2 * (n + 1)) then TextRead(false, was, p)
    else TextRead(true, Units(d, p, n), p + 2 * (n + 1) + Padding(2 * (n + 1)))
  }

  function Empties(n: nat): (r: seq<Text>)
    ensures |r| == n
  {
    if n == 0 then [] else [[]] + Empties(n - 1)
  }

  /** A vector is sized first and its strings read up to the first that fails. */
  function ReadEach(d: seq<Byte>, pos: nat, n: nat): (r: (seq<Text>, nat))
    ensures |r.0| == n
    decreases n
  {
    if n == 0 then ([], pos)
    else
      var t := ReadText(d, pos, []);
      if !t.ok then (Empties(n), t.pos)
      else
        var rest := ReadEach(d, t.pos, n - 1);
        ([t.text] + rest.0, rest.1)
  }

  function ReadTexts(d: seq<Byte>, pos: nat): (Texts, nat) {
    var (n, p) := ReadU32(d, pos);
    if n > INT32_MAX then ([], p) else ReadEach(d, p, n)
  }

  // ---- reading what was written ----

  /** The bytes are in the data at the cursor. */
  predicate At(d: seq<Byte>, pos: nat, b: seq<Byte>) {
    pos + |b| <= |d| && d[pos..pos + |b|] == b
  }

  lemma AtSplit(d: seq<Byte>, pos: nat, a: seq<Byte>, b: seq<Byte>)
    requires At(d, pos, a + b)
    ensures At(d, pos, a) && At(d, pos + |a|, b)
  {
    assert d[pos..pos + |a|] == d[pos..pos + |a + b|][..|a|] == a;
    assert d[pos + |a|..pos + |a| + |b|] == d[pos..pos + |a + b|][|a|..] == b;
  }

  lemma U32Value(v: Uint32)
    ensures Word(U32(v)[0], U32(v)[1], U32(v)[2], U32(v)[3]) == v
  {
  }

  lemma U32Reads(d: seq<Byte>, pos: nat, v: Uint32)
    requires At(d, pos, U32(v))
    ensures ReadU32(d, pos) == (v, pos + 4)
  {
    U32Value(v);
    var b := d[pos..pos + 4];
    assert b == U32(v);
    assert b[0] == d[pos] && b[1] == d[pos + 1] && b[2] == d[pos + 2] && b[3] == d[pos + 3];
  }

  lemma U64Reads(d: seq<Byte>, pos: nat, v: Uint64)
    requires At(d, pos, U64(v))
    ensures ReadU64(d, pos) == (v, pos + 8)
  {
    AtSplit(d, pos, U32(v % TWO_32), U32(v / TWO_32));
    U32Reads(d, pos, v % TWO_32);
    U32Reads(d, pos + 4, v / TWO_32);
  }

  lemma LowByteOf(b: Int8)
    ensures LowByte(if b < 0 then b + TWO_32 else b) == b
  {
  }

  lemma SByteReads(d: seq<Byte>, pos: nat, b: Int8)
    requires At(d, pos, SByte(b))
    ensures ReadByte(d, pos) == (b, pos + 4)
  {
    var v: Uint32 := if b < 0 then b + TWO_32 else b;
    U32Reads(d, pos, v);
    LowByteOf(b);
  }

  lemma BoolReads(d: seq<Byte>, pos: nat, b: bool)
    requires At(d, pos, Bool(b))
    ensures ReadBool(d, pos) == (b, pos + 4)
  {
    U32Reads(d, pos, if b then 1 else 0);
  }

  lemma BlobReads(d: seq<Byte>, pos: nat, b: seq<Byte>)
    requires At(d, pos, Blob(b))
    ensures BlobFits(d, pos, |b|) && d[pos..pos + |b|] == b
  {
    AtSplit(d, pos, b, seq(Padding(|b|), _ => 0));
  }

  lemma {:induction false} UnitsRead(d: seq<Byte>, p: nat, us: seq<Unit>)
    requires At(d, p, UnitBytes(us))
    ensures Units(d, p, |us|) == us
    decreases us
  {
    if us != [] {
      var two := [us[0] % 0x100, us[0] / 0x100];
      AtSplit(d, p, two, UnitBytes(us[1..]));
      assert d[p] == d[p..p + 2][0] && d[p + 1] == d[p..p + 2][1];
      UnitsRead(d, p + 2, us[1..]);
      forall i | 0 <= i < |us| ensures Units(d, p, |us|)[i] == us[i] {
        if i > 0 { assert Units(d, p + 2, |us| - 1)[i - 1] == us[i]; }
      }
    }
  }

  lemma {:induction false} TerminatorAppended(us: seq<Unit>)
    ensures UnitBytes(us + [0]) == UnitBytes(us) + [0, 0]
    decreases us
  {
    if us == [] {
      assert us + [0] == [0];
    } else {
      assert (us + [0])[1..] == us[1..] + [0];
      TerminatorAppended(us[1..]);
    }
  }

  lemma TextUnitsRead(d: seq<Byte>, p: nat, u: seq<Byte>, rest: seq<Byte>, t: seq<Unit>)
    requires At(d, p, Blob(u + rest)) && u == UnitBytes(t)
    ensures BlobFits(d, p, |u + rest|) && Units(d, p, |t|) == t
  {
    BlobReads(d, p, u + rest);
    AtSplit(d, p, u, rest);
    UnitsRead(d, p, t);
  }

  lemma TextReads(d: seq<Byte>, pos: nat, t: Text, was: Text)
    requires At(d, pos, TextBytes(t))
    ensures ReadText(d, pos, was) == TextRead(true, t, pos + |TextBytes(t)|)
  {
    var u := UnitBytes(t);
    TerminatorAppended(t);
    AtSplit(d, pos, U32(|t|), Blob(u + [0, 0]));
    U32Reads(d, pos, |t|);
    TextUnitsRead(d, pos + 4, u, [0, 0], t);
    assert |u + [0, 0]| == 2 * (|t| + 1);
  }

  lemma ReadEachStep(d: seq<Byte>, pos: nat, t: Text, p: nat, ts: seq<Text>, end: nat)
    requires ReadText(d, pos, []) == TextRead(true, t, p) && ReadEach(d, p, |ts|) == (ts, end)
    ensures ReadEach(d, pos, |ts| + 1) == ([t] + ts, end)
  {
  }

  lemma FirstTextReads(d: seq<Byte>, pos: nat, t: Text, rest: seq<Text>)
    requires At(d, pos, TextBytes(t) + EachText(rest))
    ensures ReadText(d, pos, []) == TextRead(true, t, pos + |TextBytes(t)|)
    ensures At(d, pos + |TextBytes(t)|, EachText(rest))
  {
    AtSplit(d, pos, TextBytes(t), EachText(rest));
    TextReads(d, pos, t, []);
  }

  lemma EachTextSplits(ts: seq<Text>)
    requires ts != []
    ensures EachText(ts) == TextBytes(ts[0]) + EachText(ts[1..]) && ts == [ts[0]] + ts[1..]
  {
    hide TextBytes;
  }

  lemma {:induction false} EachReads(d: seq<Byte>, pos: nat, ts: seq<Text>, end: nat)
    requires At(d, pos, EachText(ts)) && end == pos + |EachText(ts)|
    ensures ReadEach(d, pos, |ts|) == (ts, end)
    decreases ts
  {
    if ts == [] {
      assert ReadEach(d, pos, 0) == ([], pos);
    } else {
      hide At, TextBytes, EachText, ReadText, ReadEach;
      var t, rest := ts[0], ts[1..];
      var p := pos + |TextBytes(t)|;
      EachTextSplits(ts);
      FirstTextReads(d, pos, t, rest);
      EachReads(d, p, rest, end);
      ReadEachStep(d, pos, t, p, rest, end);
    }
  }

  lemma CountReads(d: seq<Byte>, pos: nat, n: Uint32, each: seq<Byte>)
    requires At(d, pos, U32(n) + each)
    ensures ReadU32(d, pos) == (n, pos + 4) && At(d, pos + 4, each)
  {
    AtSplit(d, pos, U32(n), each);
    U32Reads(d, pos, n);
  }

  lemma TextsRead(d: seq<Byte>, pos: nat, ts: Texts)
    requires At(d, pos, TextsBytes(ts))
    ensures ReadTexts(d, pos) == (ts, pos + |TextsBytes(ts)|)
  {
    hide At, U32, EachText, ReadEach, ReadU32;
    CountReads(d, pos, |ts|, EachText(ts));
    EachReads(d, pos + 4, ts, pos + |TextsBytes(ts)|);
  }

  // ---- the Parcel ----

  /** Writing at the cursor overwrites what is there and grows the data when it passes the end. */
  function WrittenAt(d: seq<Byte>, pos: nat, b: seq<Byte>): (r: seq<Byte>)
    requires pos <= |d|
    ensures |r| == if pos + |b| < |d| then |d| else pos + |b|
  {
    d[..pos] + b + if pos + |b| < |d| then d[pos + |b|..] else []
  }

  class Parcel {
    var data: seq<Byte>
    var pos: nat

    constructor (data: seq<Byte>)
      ensures this.data == data && pos == 0
    {
      this.data, pos := data, 0;
    }

    method Put(b: seq<Byte>)
      requires pos <= |data|
      modifies this
      ensures data == WrittenAt(old(data), old(pos), b) && pos == old(pos) + |b| && pos <= |data|
    {
      data := WrittenAt(data, pos, b);
      pos := pos + |b|;
    }

    method SetDataPosition(p: nat)
      modifies this`pos
      ensures pos == p
    {
      pos := p;
    }

    method ReadUint32() returns (v: Uint32)
      modifies this`pos
      ensures (v, pos) == ReadU32(data, old(pos))
    {
      var r := ReadU32(data, pos);
      v, pos := r.0, r.1;
    }

    method ReadUint64() returns (v: Uint64)
      modifies this`pos
      ensures (v, pos) == ReadU64(data, old(pos))
    {
      var r := ReadU64(data, pos);
      v, pos := r.0, r.1;
    }

    method ReadInt8() returns (v: Int8)
      modifies this`pos
      ensures (v, pos) == ReadByte(data, old(pos))
    {
      var r := ReadByte(data, pos);
      v, pos := r.0, r.1;
    }

    method ReadBoolean() returns (v: bool)
      modifies this`pos
      ensures (v, pos) == ReadBool(data, old(pos))
    {
      var r := ReadBool(data, pos);
      v, pos := r.0, r.1;
    }

    method ReadString(was: Text) returns (t: Text)
      modifies this`pos
      ensures t == ReadText(data, old(pos), was).text && pos == ReadText(data, old(pos), was).pos
    {
      var r := ReadText(data, pos, was);
      t, pos := r.text, r.pos;
    }

    method ReadStrings() returns (ts: Texts)
      modifies this`pos
      ensures (ts, pos) == ReadTexts(data, old(pos))
    {
      var r := ReadTexts(data, pos);
      ts, pos := r.0, r.1;
    }
  }
}
