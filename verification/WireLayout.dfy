/**
 What is on the wire, byte by byte and field by field, apart from the functions that write and
 read it: what is written is this, and what stands there is what is read.
 */
module WireLayout {
  import opened Codec
  import opened Parcels

  // ---- items ----

  /** Numbers are little-endian, the low word of a 64-bit number first. */
  lemma NumbersOnWire(v: Uint32, w: Uint64)
    ensures U32(v)[0] as int + 0x100 * U32(v)[1] as int + 0x1_0000 * U32(v)[2] as int + 0x100_0000 * U32(v)[3] as int
            == v
    ensures U64(w)[..4] == U32(w % 0x1_0000_0000) && U64(w)[4..] == U32(w / 0x1_0000_0000)
  {
    U32Value(v);
  }

  lemma ByteDigits(b: Byte)
    ensures b / 0x100 == 0 && b % 0x100 == b
  {
  }

  /** A byte takes four, sign-extended, and a boolean is one or zero. */
  lemma BytesOnWire(b: Int8, c: bool)
    ensures SByte(b) == if b >= 0 then [b, 0, 0, 0] else [0x100 + b, 0xFF, 0xFF, 0xFF]
    ensures Bool(c) == [if c then 1 else 0, 0, 0, 0]
  {
    if b >= 0 { SmallNumber(b); } else { NegativeByte(b); }
    SmallNumber(if c then 1 else 0);
  }

  lemma SmallNumber(v: Byte)
    ensures U32(v) == [v, 0, 0, 0]
  {
    ByteDigits(v);
    assert v / 0x100 / 0x100 == 0;
  }

  lemma NegativeByte(b: Int8)
    requires b < 0
    ensures U32(b + 0x1_0000_0000) == [0x100 + b, 0xFF, 0xFF, 0xFF]
  {
    var v := b + 0x1_0000_0000;
    assert v == 0x100 * 0xFF_FFFF + (0x100 + b);
    assert v % 0x100 == 0x100 + b && v / 0x100 == 0xFF_FFFF;
    assert 0xFF_FFFF / 0x100 == 0xFFFF && 0xFF_FFFF % 0x100 == 0xFF;
    assert 0xFFFF / 0x100 == 0xFF && 0xFFFF % 0x100 == 0xFF;
  }

  lemma {:induction false} PaddingIs(n: nat)
    ensures Padding(n) < 4 && (n + Padding(n)) % 4 == 0
  {
    if n >= 4 {
      PaddingIs(n - 4);
      assert n + Padding(n) == (n - 4 + Padding(n - 4)) + 4;
    }
  }

  /** Bytes are followed by zeros up to the next multiple of four. */
  lemma BlobOnWire(b: seq<Byte>)
    ensures |Blob(b)| % 4 == 0 && |Blob(b)| < |b| + 4
    ensures b <= Blob(b) && forall i :: |b| <= i < |Blob(b)| ==> Blob(b)[i] == 0
  {
    PaddingIs(|b|);
  }

  lemma {:induction false} UnitsOnWire(us: seq<Unit>)
    ensures forall i :: 0 <= i < |us| ==>
              UnitBytes(us)[2 * i] == us[i] % 0x100 && UnitBytes(us)[2 * i + 1] == us[i] / 0x100
  {
    if us != [] {
      UnitsOnWire(us[1..]);
      var rest := UnitBytes(us[1..]);
      forall i | 0 <= i < |us|
        ensures UnitBytes(us)[2 * i] == us[i] % 0x100 && UnitBytes(us)[2 * i + 1] == us[i] / 0x100
      {
        if i > 0 {
          assert rest[2 * (i - 1)] == us[1..][i - 1] % 0x100 && rest[2 * (i - 1) + 1] == us[1..][i - 1] / 0x100;
        }
      }
    }
  }

  /** A string is its length in units, its units, low byte first, and a zero unit, padded. */
  lemma TextOnWire(t: Text)
    ensures var b := TextBytes(t);
            && |b| % 4 == 0 && 4 + 2 * |t| + 2 <= |b| < 4 + 2 * |t| + 2 + 4 && b[..4] == U32(|t|)
            && (forall i :: 0 <= i < |t| ==> b[4 + 2 * i] == t[i] % 0x100 && b[4 + 2 * i + 1] == t[i] / 0x100)
            && (forall i :: 4 + 2 * |t| <= i < |b| ==> b[i] == 0)
  {
    hide U32, Padding, Blob, UnitBytes;
    BlobOnWire(UnitBytes(t + [0]));
    TerminatorAppended(t);
    UnitsOnWire(t);
    var u := UnitBytes(t);
    forall i | 0 <= i < |t|
      ensures TextBytes(t)[4 + 2 * i] == t[i] % 0x100 && TextBytes(t)[4 + 2 * i + 1] == t[i] / 0x100
    {
      InBlob(t, u, 2 * i);
      InBlob(t, u, 2 * i + 1);
    }
    forall i | 4 + 2 * |t| <= i < |TextBytes(t)| ensures TextBytes(t)[i] == 0 {
      if i < 4 + 2 * |t| + 2 { InBlob(t, u, i - 4); }
    }
  }

  /** The bytes of a string behind its length. */
  lemma InBlob(t: Text, u: seq<Byte>, i: nat)
    requires UnitBytes(t + [0]) == u + [0, 0] && i < |u| + 2
    ensures 4 + i < |TextBytes(t)| && TextBytes(t)[4 + i] == if i < |u| then u[i] else 0
  {
    hide U32, Padding, UnitBytes;
    BlobOnWire(u + [0, 0]);
    assert Blob(u + [0, 0])[i] == (u + [0, 0])[i];
  }

  /** Past the end a read gives zero or nothing and takes nothing. */
  lemma PastTheEnd(d: seq<Byte>, pos: nat, was: Text)
    ensures pos + 4 > |d| ==>
              && ReadU32(d, pos) == (0, pos) && ReadByte(d, pos) == (0, pos) && ReadBool(d, pos) == (false, pos)
              && ReadText(d, pos, was) == TextRead(false, was, pos) && ReadTexts(d, pos) == ([], pos)
    ensures pos + 8 > |d| ==> ReadU64(d, pos) == (0, pos)
  {
  }

  /** Any word but zero is true, and the low byte of a word is read as a signed one. */
  lemma WordsRead(d: seq<Byte>, pos: nat, v: Uint32)
    requires At(d, pos, U32(v))
    ensures ReadBool(d, pos) == (v != 0, pos + 4)
    ensures ReadByte(d, pos) == (if v % 0x100 < 0x80 then v % 0x100 else v % 0x100 - 0x100, pos + 4)
  {
    U32Reads(d, pos, v);
  }

  /**
   A vector whose first string cannot be read has as many empty ones, and reading goes on
   behind that string's length.
   */
  lemma FailingStrings(d: seq<Byte>, pos: nat, n: Uint32)
    requires At(d, pos, U32(n)) && 0 < n <= INT32_MAX && !ReadText(d, pos + 4, []).ok
    ensures var r := ReadTexts(d, pos);
            |r.0| == n && (forall i :: 0 <= i < n ==> r.0[i] == []) && r.1 == ReadText(d, pos + 4, []).pos
  {
    U32Reads(d, pos, n);
    AllEmpty(n);
  }

  lemma {:induction false} AllEmpty(n: nat)
    ensures forall i :: 0 <= i < n ==> Empties(n)[i] == []
  {
    if n > 0 {
      AllEmpty(n - 1);
      assert forall i :: 0 < i < n ==> Empties(n)[i] == Empties(n - 1)[i - 1];
    }
  }

  /** Extra bytes that are not all there are as many zeros, and nothing of them is taken. */
  lemma TruncatedExtra(d: seq<Byte>, pos: nat, n: Uint32)
    requires At(d, pos, U32(n)) && n <= 256 && pos + 4 + n > |d|
    ensures var r := ReadExtra(d, pos);
            r.ok && |r.extra| == n && (forall i :: 0 <= i < n ==> r.extra[i] == 0) && r.pos == pos + 4
  {
    U32Reads(d, pos, n);
  }

  /** Commands are read from nine bytes on, results and responses from thirteen, if as many came as the length says. */
  lemma SmallestAccepted(d: seq<Byte>)
    ensures Accepts(d, COMMAND_HEADER) <==> |d| >= 9 && ReadU32(d, 0).0 <= |d|
    ensures Accepts(d, RESULT_HEADER) <==> |d| >= 13 && ReadU32(d, 0).0 <= |d|
  {
  }

  // ---- messages ----

  function Each(ts: seq<Text>): seq<Byte> {
    if ts == [] then [] else TextBytes(ts[0]) + Each(ts[1..])
  }

  /** Strings: how many, and each. */
  function Strings(ts: Texts): seq<Byte> {
    U32(|ts|) + Each(ts)
  }

  function ParamsOnWire(p: Params): seq<Byte> {
    TextBytes(p.base.uid) + (TextBytes(p.base.gid) + (Strings(p.base.suppGids) + (TextBytes(p.base.seclabel) +
      (U64(p.base.capabilities) + (Strings(p.base.rlimits) +
        match p
        case Plain(_) => []
        case Event(_, boot, keys, values) => Bool(boot) + (Strings(keys) + Strings(values)))))))
  }

  /** After the length: type, sequence, label, name, command, extra bytes, the union if the type has one, parameters. */
  function CommandOnWire(c: Command): seq<Byte> {
    SByte(c.ctype) + (U32(c.sequence) + (U64(c.lbl) + (TextBytes(c.name) + (TextBytes(c.command) +
      (U32(|c.extra|) + (Blob(c.extra) + (
        (if c.ctype == 0 || c.ctype == 1 || c.ctype == 2 then SByte(c.kind) + SByte(c.flags) else []) + (
          match c.params
          case None => Bool(false)
          case Some(p) => Bool(true) + ParamsOnWire(p)))))))))
  }

  /** After the length: header type, label, sequence, name, type, status, extra bytes. */
  function ResultOnWire(r: Result): seq<Byte> {
    SByte(r.htype) + (U64(r.lbl) + (U32(r.sequence) + (TextBytes(r.name) + (SByte(r.rtype) + (SByte(r.status) +
      (U32(|r.extra|) + Blob(r.extra)))))))
  }

  /** After the length: header type, label, name, type, status, extra bytes. */
  function ResponseOnWire(r: StatusResponse): seq<Byte> {
    SByte(r.htype) + (U64(r.lbl) + (TextBytes(r.name) + (SByte(r.rtype) + (SByte(r.status) +
      (U32(|r.extra|) + Blob(r.extra))))))
  }

  lemma {:induction false} EachIs(ts: seq<Text>)
    ensures Each(ts) == EachText(ts)
  {
    if ts != [] { EachIs(ts[1..]); }
  }

  lemma Regroup(a: seq<Byte>, b: seq<Byte>, c: seq<Byte>)
    ensures (a + b) + c == a + (b + c)
  {
  }

  lemma BaseIs(p: CommandParams, rest: seq<Byte>)
    ensures TextBytes(p.uid) + (TextBytes(p.gid) + (Strings(p.suppGids) + (TextBytes(p.seclabel) +
              (U64(p.capabilities) + (Strings(p.rlimits) + rest)))))
            == BaseBytes(p) + rest
  {
    hide TextBytes, U64, EachText;
    EachIs(p.suppGids);
    EachIs(p.rlimits);
    var b1, b2, b3, b4, b5, b6 := TextBytes(p.uid), TextBytes(p.gid), TextsBytes(p.suppGids), TextBytes(p.seclabel),
      U64(p.capabilities), TextsBytes(p.rlimits);
    Regroup(b5, b6, rest);
    Regroup(b4, b5 + b6, rest);
    Regroup(b3, b4 + (b5 + b6), rest);
    Regroup(b2, b3 + (b4 + (b5 + b6)), rest);
    Regroup(b1, b2 + (b3 + (b4 + (b5 + b6))), rest);
  }

  lemma ParamsAre(p: Params)
    ensures ParamsOnWire(p) == ParamsBytes(p)
  {
    hide TextBytes, U64, EachText, BaseBytes, Bool;
    match p {
      case Plain(base) =>
        BaseIs(base, []);
        assert BaseBytes(base) + [] == BaseBytes(base);
      case Event(base, boot, keys, values) =>
        EachIs(keys);
        EachIs(values);
        BaseIs(base, Bool(boot) + (Strings(keys) + Strings(values)));
    }
  }

  lemma CommandIs(c: Command)
    ensures CommandOnWire(c) == CommandBody(c)
  {
    hide TextBytes, U32, U64, SByte, Blob, Bool, ParamsBytes, ParamsOnWire;
    if c.params.Some? { ParamsAre(c.params.value); }
    Regroup(U32(|c.extra|), Blob(c.extra), TailBytes(c));
  }

  /** Every command is written so, behind the length of the whole in 32 bits. */
  lemma CommandWritten(c: Command)
    ensures var body := CommandOnWire(c);
            Framed(CommandBody(c)) == U32((4 + |body|) % 0x1_0000_0000) + body
  {
    CommandIs(c);
  }

  lemma ResultWritten(r: Result, fdObject: seq<Byte>)
    ensures var body := ResultOnWire(r) + if r.rtype == 3 then fdObject else [];
            Framed(ResultBody(r, fdObject)) == U32((4 + |body|) % 0x1_0000_0000) + body
  {
    hide TextBytes, U32, U64, SByte, Blob;
    var fd := FdBytes(r.rtype, fdObject);
    var b1, b2, b3, b4, b5, b6 := SByte(r.htype), U64(r.lbl), U32(r.sequence), TextBytes(r.name), SByte(r.rtype),
      SByte(r.status);
    var e := ExtraBytes(r.extra);
    Regroup(b6, e, fd);
    Regroup(b5, b6 + e, fd);
    Regroup(b4, b5 + (b6 + e), fd);
    Regroup(b3, b4 + (b5 + (b6 + e)), fd);
    Regroup(b2, b3 + (b4 + (b5 + (b6 + e))), fd);
    Regroup(b1, b2 + (b3 + (b4 + (b5 + (b6 + e)))), fd);
  }

  lemma ResponseWritten(r: StatusResponse)
    ensures var body := ResponseOnWire(r);
            Framed(ResponseBody(r)) == U32((4 + |body|) % 0x1_0000_0000) + body
  {
  }

  /**
   A command that stands in the data, behind any length and before anything, is read as it is,
   exactly if it is representable.
   */
  lemma CommandRead(d: seq<Byte>, c: Command, name: Text)
    requires At(d, 0, U32(c.len) + CommandOnWire(c))
    ensures DecodeCommand(d, 0, name) == Decoded(c) <==> Representable(c)
  {
    hide U32, SByte, U64, TextBytes, ExtraBytes, TailBytes;
    hide ReadHeader, ReadFields, ReadUnion, ReadOptional, Representable, CommandOnWire;
    CommandIs(c);
    var fields := U64(c.lbl) + (TextBytes(c.name) + (TextBytes(c.command) + (ExtraBytes(c.extra) + TailBytes(c))));
    assert CommandOnWire(c) == SByte(c.ctype) + (U32(c.sequence) + fields);
    HeaderReads(d, 0, c.len, c, fields);
    FieldsRead(d, 12, c, name, TailBytes(c));
    TailReads(d, ReadFields(d, 12, name).extra.pos, c);
  }

  lemma OutcomeSplits(d: seq<Byte>, p: nat, t: Int8, status: Int8, e: Extra)
    requires At(d, p, SByte(t) + (SByte(status) + (U32(|e|) + Blob(e))))
    ensures ReadByte(d, p) == (t, p + 4) && ReadByte(d, p + 4) == (status, p + 8)
    ensures ReadExtra(d, p + 8) == ExtraRead(true, e, p + 8 + |ExtraBytes(e)|)
  {
    hide SByte, U32, Blob, ReadByte, ReadExtra;
    assert ExtraBytes(e) + [] == U32(|e|) + Blob(e);
    OutcomeReads(d, p, t, status, e, []);
  }

  /** So is every result, whatever follows. */
  lemma ResultRead(d: seq<Byte>, r: Result)
    requires At(d, 0, U32(r.len) + ResultOnWire(r))
    ensures DecodeResult(d, 0) == Decoded(r)
  {
    hide U32, SByte, U64, TextBytes, Blob, ReadResultHeader, ReadU32, ReadByte, ReadText, ReadExtra;
    var outcome := SByte(r.rtype) + (SByte(r.status) + (U32(|r.extra|) + Blob(r.extra)));
    ResultHeaderReads(d, 0, r.len, r.htype, r.lbl, U32(r.sequence) + (TextBytes(r.name) + outcome));
    AtSplit(d, 16, U32(r.sequence), TextBytes(r.name) + outcome);
    U32Reads(d, 16, r.sequence);
    NameReads(d, 20, r.name, outcome);
    OutcomeSplits(d, 20 + |TextBytes(r.name)|, r.rtype, r.status, r.extra);
  }

  lemma ResponseRead(d: seq<Byte>, r: StatusResponse)
    requires At(d, 0, U32(r.len) + ResponseOnWire(r))
    ensures DecodeResponse(d, 0) == Decoded(r)
  {
    hide U32, SByte, U64, TextBytes, Blob, ReadResultHeader, ReadByte, ReadText, ReadExtra;
    var outcome := SByte(r.rtype) + (SByte(r.status) + (U32(|r.extra|) + Blob(r.extra)));
    ResultHeaderReads(d, 0, r.len, r.htype, r.lbl, TextBytes(r.name) + outcome);
    NameReads(d, 16, r.name, outcome);
    OutcomeSplits(d, 16 + |TextBytes(r.name)|, r.rtype, r.status, r.extra);
  }
}
