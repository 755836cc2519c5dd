/**
 The messages on the wire: commands to the daemon, and results and status responses back.
 Each is a header whose length is filled in last, then its fields. The functions give the
 bytes and the decoding; the methods write and read a Parcel as the code does.
 */
module Codec {
  import opened Parcels

  const EXTRA_BUFER_LEN := 256
  const SACE_TYPE_NORMAL := 0
  const SACE_TYPE_SERVICE := 1
  const SACE_TYPE_EVENT := 2
  const SACE_RESULT_TYPE_FD := 3
  // CAP_LAST_CAP + 1 bits of capabilities.
  const CAPABILITIES := 0x40_0000_0000

  datatype Option<T> = None | Some(value: T)

  type Extra = e: seq<Byte> | |e| <= EXTRA_BUFER_LEN
  type Caps = c: int | 0 <= c < CAPABILITIES

  datatype CommandParams = CommandParams(
    uid: Text, gid: Text, suppGids: Texts, seclabel: Text, capabilities: Caps, rlimits: Texts)

  /** The dynamic type of a command's parameters. */
  datatype Params =
    | Plain(base: CommandParams)
    | Event(base: CommandParams, boot: bool, keys: Texts, values: Texts)

  /** `kind` and `flags` are the two bytes of the union. */
  datatype Command = Command(
    len: Uint32, ctype: Int8, sequence: Uint32, lbl: Uint64, name: Text, command: Text,
    extra: Extra, kind: Int8, flags: Int8, params: Option<Params>)

  datatype Result = Result(
    len: Uint32, htype: Int8, lbl: Uint64, sequence: Uint32, name: Text,
    rtype: Int8, status: Int8, extra: Extra)

  /** `htype` is the header's type and `rtype` the response's own. */
  datatype StatusResponse = StatusResponse(
    len: Uint32, htype: Int8, lbl: Uint64, name: Text, rtype: Int8, status: Int8, extra: Extra)

  /** `Overrun`: the length of the extra bytes exceeds the buffer they are read into. */
  datatype Decoded<T> = Decoded(value: T) | Overrun

  // ---- encoding ----

  function ExtraBytes(e: Extra): seq<Byte> {
    U32(|e|) + Blob(e)
  }

  function BaseBytes(p: CommandParams): seq<Byte> {
    TextBytes(p.uid) + (TextBytes(p.gid) + (TextsBytes(p.suppGids) + (TextBytes(p.seclabel) +
      (U64(p.capabilities) + TextsBytes(p.rlimits)))))
  }

  function ParamsBytes(p: Params): seq<Byte> {
    if p.Plain? then BaseBytes(p.base)
    else BaseBytes(p.base) + (Bool(p.boot) + (TextsBytes(p.keys) + TextsBytes(p.values)))
  }

  function OptionalBytes(o: Option<Params>): seq<Byte> {
    if o.Some? then Bool(true) + ParamsBytes(o.value) else Bool(false)
  }

  predicate KnownType(t: Int8) {
    t == SACE_TYPE_NORMAL || t == SACE_TYPE_SERVICE || t == SACE_TYPE_EVENT
  }

  /** The union's bytes are written for the known types only. */
  function UnionBytes(t: Int8, kind: Int8, flags: Int8): seq<Byte> {
    if KnownType(t) then SByte(kind) + SByte(flags) else []
  }

  function TailBytes(c: Command): seq<Byte> {
    UnionBytes(c.ctype, c.kind, c.flags) + OptionalBytes(c.params)
  }

  /** Everything after the length. */
  function CommandBody(c: Command): seq<Byte> {
    SByte(c.ctype) + (U32(c.sequence) + (U64(c.lbl) + (TextBytes(c.name) + (TextBytes(c.command) +
      (ExtraBytes(c.extra) + TailBytes(c))))))
  }

  /** The descriptor object that Parcel appends to a result of type FD; its contents are Parcel's. */
  function FdBytes(rtype: Int8, fdObject: seq<Byte>): seq<Byte> {
    if rtype == SACE_RESULT_TYPE_FD then fdObject else []
  }

  function ResultBody(r: Result, fdObject: seq<Byte>): seq<Byte> {
    SByte(r.htype) + (U64(r.lbl) + (U32(r.sequence) + (TextBytes(r.name) +
      (SByte(r.rtype) + (SByte(r.status) + (ExtraBytes(r.extra) + FdBytes(r.rtype, fdObject)))))))
  }

  function ResponseBody(r: StatusResponse): seq<Byte> {
    SByte(r.htype) + (U64(r.lbl) + (TextBytes(r.name) + (SByte(r.rtype) + (SByte(r.status) + ExtraBytes(r.extra)))))
  }

  /** The length is that of the whole message, in 32 bits. */
  function Framed(body: seq<Byte>): seq<Byte> {
    U32((4 + |body|) % TWO_32) + body
  }

  // ---- decoding ----

  datatype ExtraRead = ExtraRead(ok: bool, extra: Extra, pos: nat)

  function Zeros(n: nat): (r: seq<Byte>)
    ensures |r| == n
  {
    seq(n, _ => 0)
  }

  function ReadExtra(d: seq<Byte>, pos: nat): ExtraRead {
    var (n, p) := ReadU32(d, pos);
    if n > EXTRA_BUFER_LEN then ExtraRead(false, [], p)
    else if BlobFits(d, p, n) then ExtraRead(true, d[p..p + n], p + n + Padding(n))
    else ExtraRead(true, Zeros(n), p)
  }

  function ReadBase(d: seq<Byte>, p0: nat): (CommandParams, nat) {
    var uid := ReadText(d, p0, []);
    var gid := ReadText(d, uid.pos, []);
    var (gids, p2) := ReadTexts(d, gid.pos);
    var sec := ReadText(d, p2, []);
    var (caps, p4) := ReadU64(d, sec.pos);
    var (limits, p5) := ReadTexts(d, p4);
    (CommandParams(uid.text, gid.text, gids, sec.text, caps % CAPABILITIES, limits), p5)
  }

  /** The command's type decides which parameters are read. */
  function ReadParams(d: seq<Byte>, p0: nat, t: Int8): Params {
    var (base, p1) := ReadBase(d, p0);
    if t == SACE_TYPE_EVENT then
      var (boot, p2) := ReadBool(d, p1);
      var (keys, p3) := ReadTexts(d, p2);
      var (values, _) := ReadTexts(d, p3);
      Event(base, boot, keys, values)
    else Plain(base)
  }

  function ReadOptional(d: seq<Byte>, p0: nat, t: Int8): Option<Params> {
    if ReadBool(d, p0).0 then Some(ReadParams(d, ReadBool(d, p0).1, t)) else None
  }

  /** For an unknown type the union keeps the zeros of a new command. */
  function ReadUnion(d: seq<Byte>, p0: nat, t: Int8): (Int8, Int8, nat) {
    if KnownType(t) then (ReadByte(d, p0).0, ReadByte(d, ReadByte(d, p0).1).0, ReadByte(d, ReadByte(d, p0).1).1)
    else (0, 0, p0)
  }

  datatype Header = Header(len: Uint32, ctype: Int8, sequence: Uint32, pos: nat)

  function ReadHeader(d: seq<Byte>, p0: nat): Header {
    var (len, p1) := ReadU32(d, p0);
    var (t, p2) := ReadByte(d, p1);
    var (sequence, p3) := ReadU32(d, p2);
    Header(len, t, sequence, p3)
  }

  datatype Fields = Fields(lbl: Uint64, name: Text, command: Text, extra: ExtraRead)

  /** The fields between the header and the union; `name` is what a new command is called. */
  function ReadFields(d: seq<Byte>, p0: nat, name: Text): Fields {
    var (lbl, p1) := ReadU64(d, p0);
    var n := ReadText(d, p1, name);
    var c := ReadText(d, n.pos, []);
    Fields(lbl, n.text, c.text, ReadExtra(d, c.pos))
  }

  function DecodeCommand(d: seq<Byte>, p0: nat, name: Text): Decoded<Command> {
    var h := ReadHeader(d, p0);
    var f := ReadFields(d, h.pos, name);
    if !f.extra.ok then Overrun
    else
      var (kind, flags, p5) := ReadUnion(d, f.extra.pos, h.ctype);
      Decoded(Command(h.len, h.ctype, h.sequence, f.lbl, f.name, f.command, f.extra.extra, kind, flags,
                      ReadOptional(d, p5, h.ctype)))
  }

  datatype ResultHeader = ResultHeader(len: Uint32, htype: Int8, lbl: Uint64, pos: nat)

  function ReadResultHeader(d: seq<Byte>, p0: nat): ResultHeader {
    var (len, p1) := ReadU32(d, p0);
    var (t, p2) := ReadByte(d, p1);
    var (lbl, p3) := ReadU64(d, p2);
    ResultHeader(len, t, lbl, p3)
  }

  function DecodeResult(d: seq<Byte>, p0: nat): Decoded<Result> {
    var h := ReadResultHeader(d, p0);
    var (sequence, p1) := ReadU32(d, h.pos);
    var n := ReadText(d, p1, []);
    var (rtype, p2) := ReadByte(d, n.pos);
    var (status, p3) := ReadByte(d, p2);
    var e := ReadExtra(d, p3);
    if !e.ok then Overrun else Decoded(Result(h.len, h.htype, h.lbl, sequence, n.text, rtype, status, e.extra))
  }

  function DecodeResponse(d: seq<Byte>, p0: nat): Decoded<StatusResponse> {
    var h := ReadResultHeader(d, p0);
    var n := ReadText(d, h.pos, []);
    var (rtype, p1) := ReadByte(d, n.pos);
    var (status, p2) := ReadByte(d, p1);
    var e := ReadExtra(d, p2);
    if !e.ok then Overrun else Decoded(StatusResponse(h.len, h.htype, h.lbl, n.text, rtype, status, e.extra))
  }

  // ---- parts read back ----

  lemma ExtraReads(d: seq<Byte>, pos: nat, e: Extra)
    requires At(d, pos, ExtraBytes(e))
    ensures ReadExtra(d, pos) == ExtraRead(true, e, pos + |ExtraBytes(e)|)
  {
    AtSplit(d, pos, U32(|e|), Blob(e));
    U32Reads(d, pos, |e|);
    BlobReads(d, pos + 4, e);
  }

  lemma BaseReads(d: seq<Byte>, p0: nat, p: CommandParams)
    requires At(d, p0, BaseBytes(p))
    ensures ReadBase(d, p0) == (p, p0 + |BaseBytes(p)|)
  {
    hide TextBytes, TextsBytes, U64, ReadText, ReadTexts, ReadU64;
    var b1, b2, b3, b4, b5, b6 := TextBytes(p.uid), TextBytes(p.gid), TextsBytes(p.suppGids), TextBytes(p.seclabel),
      U64(p.capabilities), TextsBytes(p.rlimits);
    AtSplit(d, p0, b1, b2 + (b3 + (b4 + (b5 + b6))));
    TextReads(d, p0, p.uid, []);
    var p1 := p0 + |b1|;
    AtSplit(d, p1, b2, b3 + (b4 + (b5 + b6)));
    TextReads(d, p1, p.gid, []);
    var p2 := p1 + |b2|;
    AtSplit(d, p2, b3, b4 + (b5 + b6));
    TextsRead(d, p2, p.suppGids);
    var p3 := p2 + |b3|;
    AtSplit(d, p3, b4, b5 + b6);
    TextReads(d, p3, p.seclabel, []);
    var p4 := p3 + |b4|;
    AtSplit(d, p4, b5, b6);
    U64Reads(d, p4, p.capabilities);
    TextsRead(d, p4 + 8, p.rlimits);
  }

  lemma EventReads(d: seq<Byte>, p0: nat, p: Params)
    requires p.Event? && At(d, p0, Bool(p.boot) + (TextsBytes(p.keys) + TextsBytes(p.values)))
    ensures ReadBool(d, p0) == (p.boot, p0 + 4)
    ensures var r := ReadTexts(d, p0 + 4); r.0 == p.keys && ReadTexts(d, r.1).0 == p.values
  {
    hide TextsBytes, Bool, ReadTexts, ReadBool;
    AtSplit(d, p0, Bool(p.boot), TextsBytes(p.keys) + TextsBytes(p.values));
    BoolReads(d, p0, p.boot);
    AtSplit(d, p0 + 4, TextsBytes(p.keys), TextsBytes(p.values));
    TextsRead(d, p0 + 4, p.keys);
    TextsRead(d, p0 + 4 + |TextsBytes(p.keys)|, p.values);
  }

  /** The parameters' dynamic type is the one that the command's type selects. */
  predicate TypeMatches(p: Params, t: Int8) {
    p.Event? <==> t == SACE_TYPE_EVENT
  }

  lemma PlainReads(d: seq<Byte>, p0: nat, p: Params, t: Int8)
    requires At(d, p0, ParamsBytes(p)) && p.Plain? && t != SACE_TYPE_EVENT
    ensures ReadParams(d, p0, t) == p
  {
    hide BaseBytes, ReadBase;
    BaseReads(d, p0, p.base);
  }

  lemma EventParamsRead(d: seq<Byte>, p0: nat, p: Params)
    requires At(d, p0, ParamsBytes(p)) && p.Event?
    ensures ReadParams(d, p0, SACE_TYPE_EVENT) == p
  {
    hide BaseBytes, TextsBytes, Bool, ReadBase, ReadTexts, ReadBool;
    AtSplit(d, p0, BaseBytes(p.base), Bool(p.boot) + (TextsBytes(p.keys) + TextsBytes(p.values)));
    BaseReads(d, p0, p.base);
    EventReads(d, p0 + |BaseBytes(p.base)|, p);
  }

  /** Whatever the bytes, the command's type alone decides which kind of parameters is read. */
  lemma ReadType(d: seq<Byte>, p0: nat, t: Int8)
    ensures TypeMatches(ReadParams(d, p0, t), t)
  {
    hide ReadBase, ReadTexts, ReadBool;
  }

  lemma ParamsRead(d: seq<Byte>, p0: nat, p: Params, t: Int8)
    requires At(d, p0, ParamsBytes(p))
    ensures ReadParams(d, p0, t) == p <==> TypeMatches(p, t)
  {
    hide ParamsBytes, ReadParams;
    ReadType(d, p0, t);
    if TypeMatches(p, t) {
      if p.Event? { EventParamsRead(d, p0, p); } else { PlainReads(d, p0, p, t); }
    }
  }

  lemma OptionalReads(d: seq<Byte>, p0: nat, o: Option<Params>, t: Int8)
    requires At(d, p0, OptionalBytes(o))
    ensures ReadOptional(d, p0, t) == o <==> (o.Some? ==> TypeMatches(o.value, t))
  {
    hide ParamsBytes, Bool, ReadParams, ReadBool;
    if o.Some? {
      AtSplit(d, p0, Bool(true), ParamsBytes(o.value));
      ParamsRead(d, p0 + 4, o.value, t);
    }
    BoolReads(d, p0, o.Some?);
  }

  lemma UnionReads(d: seq<Byte>, p0: nat, t: Int8, kind: Int8, flags: Int8)
    requires At(d, p0, UnionBytes(t, kind, flags))
    ensures ReadUnion(d, p0, t) == (if KnownType(t) then kind else 0, if KnownType(t) then flags else 0,
                                    p0 + |UnionBytes(t, kind, flags)|)
  {
    if KnownType(t) {
      AtSplit(d, p0, SByte(kind), SByte(flags));
      SByteReads(d, p0, kind);
      SByteReads(d, p0 + 4, flags);
    }
  }

  /** What a command on the wire can carry: parameters of the type it selects, and a union only for the known types. */
  predicate Representable(c: Command) {
    && (KnownType(c.ctype) || (c.kind == 0 && c.flags == 0))
    && (c.params.Some? ==> TypeMatches(c.params.value, c.ctype))
  }

  lemma TailReads(d: seq<Byte>, p0: nat, c: Command)
    requires At(d, p0, TailBytes(c))
    ensures var (kind, flags, p1) := ReadUnion(d, p0, c.ctype);
            kind == c.kind && flags == c.flags && ReadOptional(d, p1, c.ctype) == c.params <==> Representable(c)
  {
    hide UnionBytes, OptionalBytes, ReadUnion, ReadOptional;
    AtSplit(d, p0, UnionBytes(c.ctype, c.kind, c.flags), OptionalBytes(c.params));
    UnionReads(d, p0, c.ctype, c.kind, c.flags);
    OptionalReads(d, p0 + |UnionBytes(c.ctype, c.kind, c.flags)|, c.params, c.ctype);
  }

  lemma HeaderReads(d: seq<Byte>, p0: nat, len: Uint32, c: Command, rest: seq<Byte>)
    requires At(d, p0, U32(len) + (SByte(c.ctype) + (U32(c.sequence) + rest)))
    ensures ReadHeader(d, p0) == Header(len, c.ctype, c.sequence, p0 + 12) && At(d, p0 + 12, rest)
  {
    hide U32, SByte, ReadU32, ReadByte;
    AtSplit(d, p0, U32(len), SByte(c.ctype) + (U32(c.sequence) + rest));
    U32Reads(d, p0, len);
    AtSplit(d, p0 + 4, SByte(c.ctype), U32(c.sequence) + rest);
    SByteReads(d, p0 + 4, c.ctype);
    AtSplit(d, p0 + 8, U32(c.sequence), rest);
    U32Reads(d, p0 + 8, c.sequence);
  }

  lemma FieldsRead(d: seq<Byte>, p0: nat, c: Command, name: Text, rest: seq<Byte>)
    requires At(d, p0, U64(c.lbl) + (TextBytes(c.name) + (TextBytes(c.command) + (ExtraBytes(c.extra) + rest))))
    ensures var f := ReadFields(d, p0, name);
            f == Fields(c.lbl, c.name, c.command, ExtraRead(true, c.extra, f.extra.pos)) && At(d, f.extra.pos, rest)
  {
    hide U64, TextBytes, ExtraBytes, ReadU64, ReadText, ReadExtra;
    var b1, b2, b3, b4 := U64(c.lbl), TextBytes(c.name), TextBytes(c.command), ExtraBytes(c.extra);
    AtSplit(d, p0, b1, b2 + (b3 + (b4 + rest)));
    U64Reads(d, p0, c.lbl);
    var p1 := p0 + 8;
    AtSplit(d, p1, b2, b3 + (b4 + rest));
    TextReads(d, p1, c.name, name);
    var p2 := p1 + |b2|;
    AtSplit(d, p2, b3, b4 + rest);
    TextReads(d, p2, c.command, []);
    var p3 := p2 + |b3|;
    AtSplit(d, p3, b4, rest);
    ExtraReads(d, p3, c.extra);
  }

  /** What a command is when it comes back: its length is filled in. */
  function WithLength(c: Command): Command {
    c.(len := |Framed(CommandBody(c))| % TWO_32)
  }

  /**
   Data that begins with an encoded command decodes to it, apart from the filled-in length and
   whatever follows, exactly if the wire can carry it; `name` is what the command object was
   called before.
   */
  lemma CommandReads(d: seq<Byte>, c: Command, name: Text)
    requires At(d, 0, Framed(CommandBody(c)))
    ensures DecodeCommand(d, 0, name) == Decoded(WithLength(c)) <==> Representable(c)
  {
    hide U32, SByte, U64, TextBytes, ExtraBytes, TailBytes;
    hide ReadHeader, ReadFields, ReadUnion, ReadOptional, Representable;
    var m, len := Framed(CommandBody(c)), (4 + |CommandBody(c)|) % TWO_32;
    var fields := U64(c.lbl) + (TextBytes(c.name) + (TextBytes(c.command) + (ExtraBytes(c.extra) + TailBytes(c))));
    assert m == U32(len) + (SByte(c.ctype) + (U32(c.sequence) + fields));
    HeaderReads(d, 0, len, c, fields);
    FieldsRead(d, 12, c, name, TailBytes(c));
    TailReads(d, ReadFields(d, 12, name).extra.pos, c);
  }

  lemma CommandRoundTrip(c: Command, name: Text)
    ensures DecodeCommand(Framed(CommandBody(c)), 0, name) == Decoded(WithLength(c)) <==> Representable(c)
  {
    hide CommandBody, DecodeCommand, WithLength, Representable;
    CommandReads(Framed(CommandBody(c)), c, name);
  }

  /**
   Whatever the other fields and whatever follows: decoding a command runs over the buffer for
   its extra bytes exactly if their stored length exceeds it. No writer sends such a length.
   */
  lemma CommandOverrunsExactly(d: seq<Byte>, len: Uint32, c: Command, n: Uint32, rest: seq<Byte>, name: Text)
    requires At(d, 0, U32(len) + (SByte(c.ctype) + (U32(c.sequence) + (U64(c.lbl) +
                      (TextBytes(c.name) + (TextBytes(c.command) + (U32(n) + rest)))))))
    ensures DecodeCommand(d, 0, name).Overrun? <==> n > EXTRA_BUFER_LEN
  {
    hide U32, U64, SByte, TextBytes, ReadHeader, ReadU32, ReadU64, ReadText, ReadUnion, ReadOptional;
    var b2, b3, b4 := TextBytes(c.name), TextBytes(c.command), U32(n);
    HeaderReads(d, 0, len, c, U64(c.lbl) + (b2 + (b3 + (b4 + rest))));
    AtSplit(d, 12, U64(c.lbl), b2 + (b3 + (b4 + rest)));
    U64Reads(d, 12, c.lbl);
    AtSplit(d, 20, b2, b3 + (b4 + rest));
    TextReads(d, 20, c.name, name);
    AtSplit(d, 20 + |b2|, b3, b4 + rest);
    TextReads(d, 20 + |b2|, c.command, []);
    AtSplit(d, 20 + |b2| + |b3|, b4, rest);
    U32Reads(d, 20 + |b2| + |b3|, n);
  }

  lemma ResultHeaderReads(d: seq<Byte>, p0: nat, len: Uint32, t: Int8, lbl: Uint64, rest: seq<Byte>)
    requires At(d, p0, U32(len) + (SByte(t) + (U64(lbl) + rest)))
    ensures ReadResultHeader(d, p0) == ResultHeader(len, t, lbl, p0 + 16) && At(d, p0 + 16, rest)
  {
    hide U32, SByte, U64, ReadU32, ReadByte, ReadU64;
    AtSplit(d, p0, U32(len), SByte(t) + (U64(lbl) + rest));
    U32Reads(d, p0, len);
    AtSplit(d, p0 + 4, SByte(t), U64(lbl) + rest);
    SByteReads(d, p0 + 4, t);
    AtSplit(d, p0 + 8, U64(lbl), rest);
    U64Reads(d, p0 + 8, lbl);
  }

  /** The type, status and extra bytes of a result and of a status response. */
  lemma OutcomeReads(d: seq<Byte>, p0: nat, t: Int8, status: Int8, e: Extra, rest: seq<Byte>)
    requires At(d, p0, SByte(t) + (SByte(status) + (ExtraBytes(e) + rest)))
    ensures ReadByte(d, p0) == (t, p0 + 4) && ReadByte(d, p0 + 4) == (status, p0 + 8)
    ensures ReadExtra(d, p0 + 8) == ExtraRead(true, e, p0 + 8 + |ExtraBytes(e)|)
  {
    hide SByte, ExtraBytes, ReadByte, ReadExtra;
    AtSplit(d, p0, SByte(t), SByte(status) + (ExtraBytes(e) + rest));
    SByteReads(d, p0, t);
    AtSplit(d, p0 + 4, SByte(status), ExtraBytes(e) + rest);
    SByteReads(d, p0 + 4, status);
    AtSplit(d, p0 + 8, ExtraBytes(e), rest);
    ExtraReads(d, p0 + 8, e);
  }

  lemma NameReads(d: seq<Byte>, p0: nat, name: Text, rest: seq<Byte>)
    requires At(d, p0, TextBytes(name) + rest)
    ensures ReadText(d, p0, []) == TextRead(true, name, p0 + |TextBytes(name)|)
    ensures At(d, p0 + |TextBytes(name)|, rest)
  {
    AtSplit(d, p0, TextBytes(name), rest);
    TextReads(d, p0, name, []);
  }

  /**
   Every result comes back as it was, with its length filled in; the descriptor itself
   travels beside the bytes, whatever object Parcel appended for it.
   */
  lemma ResultRoundTrip(r: Result, fdObject: seq<Byte>)
    ensures var m := Framed(ResultBody(r, fdObject)); DecodeResult(m, 0) == Decoded(r.(len := |m| % TWO_32))
  {
    hide U32, SByte, U64, TextBytes, ExtraBytes, FdBytes, ReadResultHeader, ReadU32, ReadByte, ReadText, ReadExtra;
    var body, fd := ResultBody(r, fdObject), FdBytes(r.rtype, fdObject);
    var m, len := Framed(body), (4 + |body|) % TWO_32;
    var outcome := SByte(r.rtype) + (SByte(r.status) + (ExtraBytes(r.extra) + fd));
    var rest := U32(r.sequence) + (TextBytes(r.name) + outcome);
    assert At(m, 0, U32(len) + (SByte(r.htype) + (U64(r.lbl) + rest)));
    ResultHeaderReads(m, 0, len, r.htype, r.lbl, rest);
    AtSplit(m, 16, U32(r.sequence), TextBytes(r.name) + outcome);
    U32Reads(m, 16, r.sequence);
    NameReads(m, 20, r.name, outcome);
    OutcomeReads(m, 20 + |TextBytes(r.name)|, r.rtype, r.status, r.extra, fd);
  }

  /** Every status response comes back, its own type apart from its header's. */
  lemma ResponseRoundTrip(r: StatusResponse)
    ensures var m := Framed(ResponseBody(r)); DecodeResponse(m, 0) == Decoded(r.(len := |m| % TWO_32))
  {
    hide U32, SByte, U64, TextBytes, ExtraBytes, ReadResultHeader, ReadByte, ReadText, ReadExtra;
    var m, len := Framed(ResponseBody(r)), (4 + |ResponseBody(r)|) % TWO_32;
    var outcome := SByte(r.rtype) + (SByte(r.status) + ExtraBytes(r.extra));
    assert At(m, 0, U32(len) + (SByte(r.htype) + (U64(r.lbl) + (TextBytes(r.name) + outcome))));
    ResultHeaderReads(m, 0, len, r.htype, r.lbl, TextBytes(r.name) + outcome);
    NameReads(m, 16, r.name, outcome);
    assert ExtraBytes(r.extra) + [] == ExtraBytes(r.extra);
    OutcomeReads(m, 16 + |TextBytes(r.name)|, r.rtype, r.status, r.extra, []);
  }

  // ---- framing ----

  // parcelSize() of the two headers: their fields unpadded.
  const COMMAND_HEADER := 9
  const RESULT_HEADER := 13

  /** The readers' two tests: a header's worth of bytes, and as many as the stored length says. */
  predicate Accepts(d: seq<Byte>, least: nat) {
    |d| >= least && |d| >= ReadU32(d, 0).0
  }

  /** A whole message is accepted, and every proper prefix rejected exactly if its size fits the length field. */
  lemma FramingExactly(body: seq<Byte>, least: nat)
    requires 4 <= least <= 4 + |body| && least < TWO_32
    ensures Accepts(Framed(body), least)
    ensures (forall k :: 0 <= k < |Framed(body)| ==> !Accepts(Framed(body)[..k], least)) <==> |Framed(body)| < TWO_32
  {
    hide U32, ReadU32;
    var m := Framed(body);
    U32Reads(m, 0, |m| % TWO_32) by { AtSplit(m, 0, U32(|m| % TWO_32), body); }
    forall k | 0 <= k < |m| ensures Accepts(m[..k], least) <==> k >= least && k >= |m| % TWO_32 {
      if k >= least { U32Reads(m[..k], 0, |m| % TWO_32) by { assert m[..k][..4] == m[..4]; } }
    }
    if |m| >= TWO_32 {
      var k := |m| - 1;
      assert k >= least && k >= |m| % TWO_32;
      assert Accepts(m[..k], least);
    }
  }

  lemma CommandFraming(c: Command)
    ensures var m := Framed(CommandBody(c));
            && Accepts(m, COMMAND_HEADER)
            && ((forall k :: 0 <= k < |m| ==> !Accepts(m[..k], COMMAND_HEADER)) <==> |m| < TWO_32)
  {
    hide TailBytes, ExtraBytes, TextBytes, U64, Accepts, Framed;
    FramingExactly(CommandBody(c), COMMAND_HEADER);
  }

  // ---- one read of a stream ----

  const MAX_SOCKET_BUF := 1024

  /** What the daemon gets out of the bytes of one read: at most one command. */
  function Delivered(d: seq<Byte>, newName: Text): seq<Decoded<Command>> {
    if Accepts(d, COMMAND_HEADER) then [DecodeCommand(d, 0, newName)] else []
  }

  /** The bytes of several commands written to a stream socket. */
  function Stream(cs: seq<Command>): seq<Byte> {
    if cs == [] then [] else Framed(CommandBody(cs[0])) + Stream(cs[1..])
  }

  function Sent(cs: seq<Command>): (r: seq<Decoded<Command>>)
    ensures |r| == |cs|
  {
    seq(|cs|, i requires 0 <= i < |cs| => Decoded(WithLength(cs[i])))
  }

  /** The wire can carry the command, and its size the length field. */
  predicate Carried(c: Command) {
    Representable(c) && |Framed(CommandBody(c))| < TWO_32
  }

  /** A read delivers the first command if it is in it as a whole, else nothing; what follows is lost. */
  lemma ReadDelivers(cs: seq<Command>, k: nat, newName: Text)
    requires cs != [] && Carried(cs[0]) && k <= |Stream(cs)|
    ensures Delivered(Stream(cs)[..k], newName)
            == if |Framed(CommandBody(cs[0]))| <= k then [Decoded(WithLength(cs[0]))] else []
  {
    hide CommandBody, DecodeCommand, WithLength, Representable;
    var m, d := Framed(CommandBody(cs[0])), Stream(cs)[..k];
    if |m| <= k {
      assert d[..|m|] == m;
      CommandReads(d, cs[0], newName);
      LengthReads(d, CommandBody(cs[0]));
      CommandFraming(cs[0]);
    } else {
      assert d == m[..k];
      CommandFraming(cs[0]);
    }
  }

  lemma LengthReads(d: seq<Byte>, body: seq<Byte>)
    requires At(d, 0, Framed(body))
    ensures ReadU32(d, 0).0 == |Framed(body)| % TWO_32
  {
    AtSplit(d, 0, U32((4 + |body|) % TWO_32), body);
    U32Reads(d, 0, (4 + |body|) % TWO_32);
  }

  /**
   Commands wait on the socket and one read takes the first bytes of them: it yields all that
   was sent exactly if that is one command, as a whole, which must fit the reader's buffer.
   */
  lemma OneReadExactly(cs: seq<Command>, k: nat, newName: Text)
    requires cs != [] && (forall c :: c in cs ==> Carried(c))
    requires k <= |Stream(cs)| && k <= MAX_SOCKET_BUF
    ensures Delivered(Stream(cs)[..k], newName) == Sent(cs) <==>
              |cs| == 1 && k == |Stream(cs)|
  {
    hide CommandBody, Delivered, WithLength, Carried;
    ReadDelivers(cs, k, newName);
    if |cs| == 1 {
      assert Stream(cs[1..]) == [];
      assert Stream(cs) == Framed(CommandBody(cs[0]));
      assert Sent(cs) == [Decoded(WithLength(cs[0]))];
    }
  }

  lemma ResultFraming(r: Result, fdObject: seq<Byte>)
    ensures var m := Framed(ResultBody(r, fdObject));
            && Accepts(m, RESULT_HEADER)
            && ((forall k :: 0 <= k < |m| ==> !Accepts(m[..k], RESULT_HEADER)) <==> |m| < TWO_32)
  {
    hide ExtraBytes, TextBytes, U64, Accepts, Framed;
    FramingExactly(ResultBody(r, fdObject), RESULT_HEADER);
  }

  lemma ResponseFraming(r: StatusResponse)
    ensures var m := Framed(ResponseBody(r));
            && Accepts(m, RESULT_HEADER)
            && ((forall k :: 0 <= k < |m| ==> !Accepts(m[..k], RESULT_HEADER)) <==> |m| < TWO_32)
  {
    hide ExtraBytes, TextBytes, U64, Accepts, Framed;
    FramingExactly(ResponseBody(r), RESULT_HEADER);
  }

  // ---- writing and reading a Parcel ----

  /** What is written so far and what is still to come make up the whole. */
  predicate Writing(p: seq<Byte>, pos: nat, rest: seq<Byte>, whole: seq<Byte>) {
    pos == |p| && p + rest == whole
  }

  lemma WriteStep(p: seq<Byte>, pos: nat, b: seq<Byte>, rest: seq<Byte>, whole: seq<Byte>)
    requires Writing(p, pos, b + rest, whole)
    ensures Writing(WrittenAt(p, pos, b), pos + |b|, rest, whole)
  {
    assert WrittenAt(p, pos, b) == p + b;
    assert (p + b) + rest == p + (b + rest);
  }

  lemma WriteLast(p: seq<Byte>, pos: nat, b: seq<Byte>, whole: seq<Byte>)
    requires Writing(p, pos, b, whole)
    ensures WrittenAt(p, pos, b) == whole
  {
    assert WrittenAt(p, pos, b) == p + b;
  }

  /** Filling in the length at the start changes no byte after it. */
  lemma BackPatched(d: seq<Byte>, body: seq<Byte>)
    requires d == U32(0) + body
    ensures WrittenAt(d, 0, U32(|d| % TWO_32)) == Framed(body)
    ensures |Framed(body)| == |d| && Framed(body)[4..] == d[4..]
  {
  }

  method WriteBase(p: CommandParams, parcel: Parcel)
    requires parcel.pos == |parcel.data|
    modifies parcel
    ensures parcel.data == old(parcel.data) + BaseBytes(p) && parcel.pos == |parcel.data|
  {
    hide TextBytes, TextsBytes, U64;
    ghost var whole := parcel.data + BaseBytes(p);
    ghost var b5 := U64(p.capabilities) + TextsBytes(p.rlimits);
    ghost var b4 := TextBytes(p.seclabel) + b5;
    ghost var b3 := TextsBytes(p.suppGids) + b4;
    WriteStep(parcel.data, parcel.pos, TextBytes(p.uid), TextBytes(p.gid) + b3, whole);
    parcel.Put(TextBytes(p.uid));
    WriteStep(parcel.data, parcel.pos, TextBytes(p.gid), b3, whole);
    parcel.Put(TextBytes(p.gid));
    WriteStep(parcel.data, parcel.pos, TextsBytes(p.suppGids), b4, whole);
    parcel.Put(TextsBytes(p.suppGids));
    WriteStep(parcel.data, parcel.pos, TextBytes(p.seclabel), b5, whole);
    parcel.Put(TextBytes(p.seclabel));
    WriteStep(parcel.data, parcel.pos, U64(p.capabilities), TextsBytes(p.rlimits), whole);
    parcel.Put(U64(p.capabilities));
    WriteLast(parcel.data, parcel.pos, TextsBytes(p.rlimits), whole);
    parcel.Put(TextsBytes(p.rlimits));
  }

  method WriteParams(p: Params, parcel: Parcel)
    requires parcel.pos == |parcel.data|
    modifies parcel
    ensures parcel.data == old(parcel.data) + ParamsBytes(p) && parcel.pos == |parcel.data|
  {
    hide BaseBytes, TextsBytes, Bool;
    ghost var was := parcel.data;
    WriteBase(p.base, parcel);
    if p.Event? {
      ghost var whole := was + ParamsBytes(p);
      ghost var rest := TextsBytes(p.keys) + TextsBytes(p.values);
      assert (was + BaseBytes(p.base)) + (Bool(p.boot) + rest) == whole;
      WriteStep(parcel.data, parcel.pos, Bool(p.boot), rest, whole);
      parcel.Put(Bool(p.boot));
      WriteStep(parcel.data, parcel.pos, TextsBytes(p.keys), TextsBytes(p.values), whole);
      parcel.Put(TextsBytes(p.keys));
      WriteLast(parcel.data, parcel.pos, TextsBytes(p.values), whole);
      parcel.Put(TextsBytes(p.values));
    }
  }

  method WriteTail(c: Command, parcel: Parcel)
    requires parcel.pos == |parcel.data|
    modifies parcel
    ensures parcel.data == old(parcel.data) + TailBytes(c) && parcel.pos == |parcel.data|
  {
    hide ParamsBytes, SByte, Bool;
    ghost var was := parcel.data;
    if KnownType(c.ctype) {
      parcel.Put(SByte(c.kind));
      parcel.Put(SByte(c.flags));
      assert parcel.data == was + (SByte(c.kind) + SByte(c.flags));
    }
    ghost var tail := UnionBytes(c.ctype, c.kind, c.flags);
    assert parcel.data == was + tail;
    parcel.Put(Bool(c.params.Some?));
    if c.params.Some? {
      WriteParams(c.params.value, parcel);
      assert parcel.data == was + (tail + (Bool(true) + ParamsBytes(c.params.value)));
    } else {
      assert parcel.data == was + (tail + Bool(false));
    }
  }

  method WriteExtra(e: Extra, parcel: Parcel)
    requires parcel.pos == |parcel.data|
    modifies parcel
    ensures parcel.data == old(parcel.data) + ExtraBytes(e) && parcel.pos == |parcel.data|
  {
    ghost var was := parcel.data;
    parcel.Put(U32(|e|));
    parcel.Put(Blob(e));
    assert parcel.data == was + (U32(|e|) + Blob(e));
  }

  /** The header's own writeToParcel, called last: fill in the length and go back to the end. */
  method FillLength(parcel: Parcel, ghost body: seq<Byte>)
    requires parcel.data == U32(0) + body && parcel.pos == |parcel.data|
    modifies parcel
    ensures parcel.data == Framed(body) && parcel.pos == |parcel.data|
  {
    var end := parcel.pos;
    BackPatched(parcel.data, body);
    parcel.SetDataPosition(0);
    parcel.Put(U32(|parcel.data| % TWO_32));
    parcel.SetDataPosition(end);
  }

  /** The header before its length is known: reserveSpace. */
  method ReserveCommand(t: Int8, sequence: Uint32, parcel: Parcel, ghost rest: seq<Byte>, ghost whole: seq<Byte>)
    requires parcel.data == [] && parcel.pos == 0
    requires whole == U32(0) + (SByte(t) + (U32(sequence) + rest))
    modifies parcel
    ensures Writing(parcel.data, parcel.pos, rest, whole)
  {
    hide U32, SByte;
    assert [] + whole == whole;
    WriteStep(parcel.data, parcel.pos, U32(0), SByte(t) + (U32(sequence) + rest), whole);
    parcel.Put(U32(0));
    WriteStep(parcel.data, parcel.pos, SByte(t), U32(sequence) + rest, whole);
    parcel.Put(SByte(t));
    WriteStep(parcel.data, parcel.pos, U32(sequence), rest, whole);
    parcel.Put(U32(sequence));
  }

  method ReserveResult(t: Int8, lbl: Uint64, parcel: Parcel, ghost rest: seq<Byte>, ghost whole: seq<Byte>)
    requires parcel.data == [] && parcel.pos == 0
    requires whole == U32(0) + (SByte(t) + (U64(lbl) + rest))
    modifies parcel
    ensures Writing(parcel.data, parcel.pos, rest, whole)
  {
    hide U32, U64, SByte;
    assert [] + whole == whole;
    WriteStep(parcel.data, parcel.pos, U32(0), SByte(t) + (U64(lbl) + rest), whole);
    parcel.Put(U32(0));
    WriteStep(parcel.data, parcel.pos, SByte(t), U64(lbl) + rest, whole);
    parcel.Put(SByte(t));
    WriteStep(parcel.data, parcel.pos, U64(lbl), rest, whole);
    parcel.Put(U64(lbl));
  }

  method WriteCommand(c: Command, parcel: Parcel)
    requires parcel.data == [] && parcel.pos == 0
    modifies parcel
    ensures parcel.data == Framed(CommandBody(c)) && parcel.pos == |parcel.data|
  {
    hide U32, U64, SByte, TextBytes, ExtraBytes, TailBytes, Framed;
    ghost var whole := U32(0) + CommandBody(c);
    ghost var b6 := ExtraBytes(c.extra) + TailBytes(c);
    ghost var b5 := TextBytes(c.command) + b6;
    ghost var b4 := TextBytes(c.name) + b5;
    ReserveCommand(c.ctype, c.sequence, parcel, U64(c.lbl) + b4, whole);
    WriteStep(parcel.data, parcel.pos, U64(c.lbl), b4, whole);
    parcel.Put(U64(c.lbl));
    WriteStep(parcel.data, parcel.pos, TextBytes(c.name), b5, whole);
    parcel.Put(TextBytes(c.name));
    WriteStep(parcel.data, parcel.pos, TextBytes(c.command), b6, whole);
    parcel.Put(TextBytes(c.command));
    ghost var was := parcel.data;
    WriteExtra(c.extra, parcel);
    WriteTail(c, parcel);
    assert parcel.data == was + b6;
    FillLength(parcel, CommandBody(c));
  }

  method WriteResult(r: Result, fdObject: seq<Byte>, parcel: Parcel)
    requires parcel.data == [] && parcel.pos == 0
    modifies parcel
    ensures parcel.data == Framed(ResultBody(r, fdObject)) && parcel.pos == |parcel.data|
  {
    hide U32, U64, SByte, TextBytes, ExtraBytes, Framed;
    ghost var body := ResultBody(r, fdObject);
    ghost var whole := U32(0) + body;
    ghost var b7 := ExtraBytes(r.extra) + FdBytes(r.rtype, fdObject);
    ghost var b6 := SByte(r.status) + b7;
    ghost var b5 := SByte(r.rtype) + b6;
    ghost var b4 := TextBytes(r.name) + b5;
    ReserveResult(r.htype, r.lbl, parcel, U32(r.sequence) + b4, whole);
    WriteStep(parcel.data, parcel.pos, U32(r.sequence), b4, whole);
    parcel.Put(U32(r.sequence));
    WriteStep(parcel.data, parcel.pos, TextBytes(r.name), b5, whole);
    parcel.Put(TextBytes(r.name));
    WriteStep(parcel.data, parcel.pos, SByte(r.rtype), b6, whole);
    parcel.Put(SByte(r.rtype));
    WriteStep(parcel.data, parcel.pos, SByte(r.status), b7, whole);
    parcel.Put(SByte(r.status));
    ghost var was := parcel.data;
    WriteExtra(r.extra, parcel);
    if r.rtype == SACE_RESULT_TYPE_FD { parcel.Put(fdObject); }
    assert parcel.data == was + b7;
    FillLength(parcel, body);
  }

  method WriteResponse(r: StatusResponse, parcel: Parcel)
    requires parcel.data == [] && parcel.pos == 0
    modifies parcel
    ensures parcel.data == Framed(ResponseBody(r)) && parcel.pos == |parcel.data|
  {
    hide U32, U64, SByte, TextBytes, ExtraBytes, Framed;
    ghost var whole := U32(0) + ResponseBody(r);
    ghost var b5 := SByte(r.status) + ExtraBytes(r.extra);
    ghost var b4 := SByte(r.rtype) + b5;
    ReserveResult(r.htype, r.lbl, parcel, TextBytes(r.name) + b4, whole);
    WriteStep(parcel.data, parcel.pos, TextBytes(r.name), b4, whole);
    parcel.Put(TextBytes(r.name));
    WriteStep(parcel.data, parcel.pos, SByte(r.rtype), b5, whole);
    parcel.Put(SByte(r.rtype));
    WriteStep(parcel.data, parcel.pos, SByte(r.status), ExtraBytes(r.extra), whole);
    parcel.Put(SByte(r.status));
    WriteExtra(r.extra, parcel);
    FillLength(parcel, ResponseBody(r));
  }

  method ReadExtraBytes(parcel: Parcel) returns (r: ExtraRead)
    modifies parcel`pos
    ensures r == ReadExtra(parcel.data, old(parcel.pos)) && parcel.pos == r.pos
  {
    var n := parcel.ReadUint32();
    var p := parcel.pos;
    if n > EXTRA_BUFER_LEN { return ExtraRead(false, [], p); }
    if BlobFits(parcel.data, p, n) {
      parcel.SetDataPosition(p + n + Padding(n));
      return ExtraRead(true, parcel.data[p..p + n], parcel.pos);
    }
    r := ExtraRead(true, Zeros(n), p);
  }

  method ReadParameters(parcel: Parcel, t: Int8) returns (r: Params)
    modifies parcel`pos
    ensures r == ReadParams(parcel.data, old(parcel.pos), t)
  {
    hide ReadText, ReadTexts, ReadU64, ReadBool;
    var uid := parcel.ReadString([]);
    var gid := parcel.ReadString([]);
    var gids := parcel.ReadStrings();
    var seclabel := parcel.ReadString([]);
    var caps := parcel.ReadUint64();
    var limits := parcel.ReadStrings();
    var base := CommandParams(uid, gid, gids, seclabel, caps % CAPABILITIES, limits);
    if t != SACE_TYPE_EVENT { return Plain(base); }
    var boot := parcel.ReadBoolean();
    var keys := parcel.ReadStrings();
    var values := parcel.ReadStrings();
    r := Event(base, boot, keys, values);
  }

  method ReadCommand(parcel: Parcel, newName: Text) returns (r: Decoded<Command>)
    modifies parcel`pos
    ensures r == DecodeCommand(parcel.data, old(parcel.pos), newName)
  {
    hide ReadText, ReadU32, ReadU64, ReadByte, ReadExtra, ReadParams;
    var len := parcel.ReadUint32();
    var ctype := parcel.ReadInt8();
    var sequence := parcel.ReadUint32();
    var lbl := parcel.ReadUint64();
    var name := parcel.ReadString(newName);
    var command := parcel.ReadString([]);
    var extra := ReadExtraBytes(parcel);
    if !extra.ok { return Overrun; }
    var kind: Int8, flags: Int8 := 0, 0;
    if KnownType(ctype) {
      kind := parcel.ReadInt8();
      flags := parcel.ReadInt8();
    }
    var params := None;
    var some := parcel.ReadBoolean();
    if some {
      var p := ReadParameters(parcel, ctype);
      params := Some(p);
    }
    r := Decoded(Command(len, ctype, sequence, lbl, name, command, extra.extra, kind, flags, params));
  }

  /**
   For type FD the code also asks Parcel for the descriptor object, which bytes from a socket
   do not have; the receiving thread then sets the descriptor that came beside them.
   */
  method ReadResult(parcel: Parcel) returns (r: Decoded<Result>)
    modifies parcel`pos
    ensures r == DecodeResult(parcel.data, old(parcel.pos))
  {
    hide ReadText, ReadU32, ReadU64, ReadByte, ReadExtra;
    var len := parcel.ReadUint32();
    var htype := parcel.ReadInt8();
    var lbl := parcel.ReadUint64();
    var sequence := parcel.ReadUint32();
    var name := parcel.ReadString([]);
    var rtype := parcel.ReadInt8();
    var status := parcel.ReadInt8();
    var extra := ReadExtraBytes(parcel);
    r := if !extra.ok then Overrun else Decoded(Result(len, htype, lbl, sequence, name, rtype, status, extra.extra));
  }

  method ReadResponse(parcel: Parcel) returns (r: Decoded<StatusResponse>)
    modifies parcel`pos
    ensures r == DecodeResponse(parcel.data, old(parcel.pos))
  {
    hide ReadText, ReadU32, ReadU64, ReadByte, ReadExtra;
    var len := parcel.ReadUint32();
    var htype := parcel.ReadInt8();
    var lbl := parcel.ReadUint64();
    var name := parcel.ReadString([]);
    var rtype := parcel.ReadInt8();
    var status := parcel.ReadInt8();
    var extra := ReadExtraBytes(parcel);
    r := if !extra.ok then Overrun else Decoded(StatusResponse(len, htype, lbl, name, rtype, status, extra.extra));
  }

  /** The reader's look at the header and its rewinding: it sees what the full decoding gives, for any bytes. */
  method PeekThenRead(parcel: Parcel, newName: Text) returns (h: Header, r: Decoded<Command>)
    requires parcel.pos == 0
    modifies parcel`pos
    ensures r == DecodeCommand(parcel.data, 0, newName)
    ensures r.Decoded? ==> h.len == r.value.len && h.ctype == r.value.ctype && h.sequence == r.value.sequence
  {
    var len := parcel.ReadUint32();
    var ctype := parcel.ReadInt8();
    var sequence := parcel.ReadUint32();
    h := Header(len, ctype, sequence, parcel.pos);
    assert h == ReadHeader(parcel.data, 0) by { hide ReadU32, ReadByte; }
    parcel.SetDataPosition(0);
    r := ReadCommand(parcel, newName);
    assert r.Decoded? ==> ReadHeader(parcel.data, 0).len == r.value.len by { hide ReadHeader; }
  }
}
