/**
 The path of a normal command through the daemon: socket reader, Looper, dispatcher, the
 executor's queue and the executor, as interleaved atomic steps. The Looper and the queue
 are FIFO. Each accepted connection has a number, which is history: messages and labels
 carry the connection they come from.
 */
module Pipeline {
  import opened ClientTable
  import opened ProcessList
  import NS = NormalSpec
  import opened NormalSpec

  const AID_ROOT := 0
  const AID_SYSTEM := 1000

  datatype CommandType = TypeNormal | TypeService | TypeEvent | TypeOther
  datatype Handler = HandlerUnknown | HandlerNormal | HandlerService | HandlerEvent

  function TypeCmdToMsg(t: CommandType): Handler {
    match t
    case TypeNormal => HandlerNormal
    case TypeService => HandlerService
    case TypeEvent => HandlerEvent
    case TypeOther => HandlerUnknown
  }

  predicate SecuredByUid(uid: int) {
    uid == AID_SYSTEM || uid == AID_ROOT
  }

  datatype Kind = KindStart | KindClose(lbl: nat) | KindDestroy | KindOther

  /** A posted message. `closing` marks the DESTROY that the reader posts for a closed connection. */
  datatype Message = Message(conn: nat, client: Client, handler: Handler, kind: Kind, closing: bool)

  datatype System = System(
    slots: seq<ClientSocket>,
    connOf: map<nat, nat>,       // slot index -> its connection
    clients: seq<Client>,        // every connection ever accepted, by number
    closed: set<nat>,
    destroyed: set<nat>,         // connections whose closing DESTROY was executed
    looper: seq<Message>,
    queue: seq<Message>,
    exec: NS.State,
    origin: map<nat, nat>)       // label -> connection that started it

  const BOOT := System(seq(MAX_CLIENT_NUM, _ => NO_CLIENT), map[], [], {}, {}, [], [], INITIAL, map[])

  /** One atomic step. `Execute` carries what a START would get from the environment. */
  datatype Action =
    | Accept(fd: int, client: Client)
    | Receive(slot: nat, ctype: CommandType, kind: Kind)
    | Hangup(slot: nat)
    | Dispatch
    | Execute(sequence: nat, cmdLine: string, write: bool, address: nat, spawn: Spawn)

  /** The messages under way to the executor, the next one first. */
  function Pipe(s: System): seq<Message> {
    s.queue + s.looper
  }

  predicate SlotOpen(s: System, slot: nat) {
    slot < |s.slots| && s.slots[slot].fd >= 0 && slot in s.connOf
  }

  function AcceptStep(s: System, a: Action): System
    requires a.Accept?
  {
    var i := FirstFree(s.slots);
    if a.fd < 0 || i >= |s.slots| then s
    else s.(slots := Accepted(s.slots, ClientSocket(a.fd, a.client)),
            connOf := s.connOf[i := |s.clients|],
            clients := s.clients + [a.client])
  }

  function ReceiveStep(s: System, a: Action): System
    requires a.Receive?
  {
    if !SlotOpen(s, a.slot) || !SecuredByUid(s.slots[a.slot].client.uid) then s
    else s.(looper := s.looper +
              [Message(s.connOf[a.slot], s.slots[a.slot].client, TypeCmdToMsg(a.ctype), a.kind, false)])
  }

  function HangupStep(s: System, a: Action): System
    requires a.Hangup?
  {
    if !SlotOpen(s, a.slot) then s
    else s.(slots := s.slots[a.slot := s.slots[a.slot].(fd := -1)],
            closed := s.closed + {s.connOf[a.slot]},
            looper := s.looper +
              [Message(s.connOf[a.slot], s.slots[a.slot].client, HandlerNormal, KindDestroy, true)])
  }

  /** The dispatcher hands the message to every executor whose type it carries; here, to the normal one. */
  function DispatchStep(s: System): System {
    if s.looper == [] then s
    else s.(looper := s.looper[1..],
            queue := if s.looper[0].handler.HandlerNormal? then s.queue + [s.looper[0]] else s.queue)
  }

  function RequestOf(m: Message, a: Action): Request
    requires a.Execute?
  {
    match m.kind
    case KindStart => Start(m.client, m.client.pid, a.sequence, a.cmdLine, a.write, a.address, a.spawn)
    case KindClose(lbl) => Close(m.client, m.client.pid, a.sequence, lbl)
    case KindDestroy => Destroy(m.client)
    case KindOther => Unknown(m.client)
  }

  function ExecuteStep(s: System, a: Action): System
    requires a.Execute?
  {
    if s.queue == [] then s
    else
      var m := s.queue[0];
      var r := RequestOf(m, a);
      s.(queue := s.queue[1..],
         exec := NS.Step(s.exec, r),
         origin := if r.Start? && r.spawn.Spawned? then s.origin[NewCommand(r).lbl := m.conn] else s.origin,
         destroyed := if m.closing then s.destroyed + {m.conn} else s.destroyed)
  }

  function Next(s: System, a: Action): System {
    match a
    case Accept(_, _) => AcceptStep(s, a)
    case Receive(_, _, _) => ReceiveStep(s, a)
    case Hangup(_) => HangupStep(s, a)
    case Dispatch => DispatchStep(s)
    case Execute(_, _, _, _, _) => ExecuteStep(s, a)
  }

  function RunActions(s: System, acts: seq<Action>): System
    decreases acts
  {
    if acts == [] then s else RunActions(Next(s, acts[0]), acts[1..])
  }

  /** Fresh labels and fds for every START that is executed. */
  ghost predicate Allowed(s: System, a: Action) {
    a.Execute? && s.queue != [] ==> Environment(s.exec, RequestOf(s.queue[0], a))
  }

  ghost predicate AllowedRun(s: System, acts: seq<Action>)
    decreases acts
  {
    acts != [] ==> Allowed(s, acts[0]) && AllowedRun(Next(s, acts[0]), acts[1..])
  }

  // ---- the invariant ----

  /** Every open slot has a connection of its own that is not closed and whose client it records. */
  ghost predicate SlotsAgree(s: System) {
    && (forall i :: i in s.connOf && SlotOpen(s, i) ==>
          s.connOf[i] < |s.clients| && s.connOf[i] !in s.closed && s.slots[i].client == s.clients[s.connOf[i]])
    && (forall i, j :: i in s.connOf && j in s.connOf && i != j && SlotOpen(s, i) && SlotOpen(s, j) ==>
          s.connOf[i] != s.connOf[j])
    && s.destroyed <= s.closed && (forall c :: c in s.closed ==> c < |s.clients|)
  }

  /** A message on its way carries its connection's client and comes from no destroyed connection. */
  ghost predicate MessageOk(s: System, m: Message) {
    && m.conn < |s.clients| && m.client == s.clients[m.conn]
    && m.conn !in s.destroyed
    && (m.closing ==> m.conn in s.closed && m.handler.HandlerNormal? && m.kind.KindDestroy?)
  }

  /** Reader order: no message of a connection is behind its closing DESTROY. */
  ghost predicate ClosingIsLast(pipe: seq<Message>) {
    forall i, j :: 0 <= i < j < |pipe| && pipe[i].closing ==> pipe[j].conn != pipe[i].conn
  }

  ghost predicate HasClosing(pipe: seq<Message>, conn: nat) {
    exists i :: 0 <= i < |pipe| && pipe[i].closing && pipe[i].conn == conn
  }

  ghost predicate PipeAgrees(s: System) {
    && (forall m :: m in Pipe(s) ==> MessageOk(s, m))
    && ClosingIsLast(Pipe(s))
    && (forall c :: c in s.closed && c !in s.destroyed ==> HasClosing(Pipe(s), c))
  }

  /** Every label ever started has a connection, whose client is its starter. */
  ghost predicate OriginAgrees(s: System) {
    && s.origin.Keys == s.exec.starter.Keys
    && (forall k :: k in s.origin ==> s.origin[k] < |s.clients| && s.exec.starter[k] == s.clients[s.origin[k]])
  }

  ghost predicate NoOrphans(s: System) {
    forall k :: k in s.exec.bySeq && k in s.origin ==> s.origin[k] !in s.destroyed
  }

  ghost predicate Inv(s: System) {
    Agreement(s.exec) && SlotsAgree(s) && PipeAgrees(s) && OriginAgrees(s) && NoOrphans(s)
  }

  // ---- one step at a time ----

  lemma AppendKeepsPipe(pipe: seq<Message>, m: Message)
    requires ClosingIsLast(pipe) && !HasClosing(pipe, m.conn)
    ensures ClosingIsLast(pipe + [m])
    ensures forall c :: HasClosing(pipe, c) ==> HasClosing(pipe + [m], c)
    ensures m.closing ==> HasClosing(pipe + [m], m.conn)
  {
    var p := pipe + [m];
    forall c | HasClosing(pipe, c) ensures HasClosing(p, c) {
      var i :| 0 <= i < |pipe| && pipe[i].closing && pipe[i].conn == c;
      assert p[i].closing && p[i].conn == c;
    }
    assert p[|pipe|] == m;
  }

  lemma OpenConnIsClean(s: System, slot: nat)
    requires SlotsAgree(s) && PipeAgrees(s) && SlotOpen(s, slot)
    ensures s.connOf[slot] !in s.closed && s.connOf[slot] < |s.clients|
    ensures !HasClosing(Pipe(s), s.connOf[slot])
  {
    var c := s.connOf[slot];
    forall i | 0 <= i < |Pipe(s)| && Pipe(s)[i].closing ensures Pipe(s)[i].conn != c {
      assert MessageOk(s, Pipe(s)[i]);
    }
  }

  lemma AcceptKeepsSlots(s: System, a: Action)
    requires SlotsAgree(s) && a.Accept?
    ensures SlotsAgree(AcceptStep(s, a))
    ensures s.clients <= AcceptStep(s, a).clients
  {
  }

  lemma AcceptKeepsInv(s: System, a: Action)
    requires Inv(s) && a.Accept?
    ensures Inv(AcceptStep(s, a))
  {
    var t := AcceptStep(s, a);
    AcceptKeepsSlots(s, a);
    assert Pipe(t) == Pipe(s);
    forall m | m in Pipe(t) ensures MessageOk(t, m) { assert MessageOk(s, m); }
  }

  lemma ReceiveKeepsInv(s: System, a: Action)
    requires Inv(s) && a.Receive?
    ensures Inv(ReceiveStep(s, a))
  {
    var t := ReceiveStep(s, a);
    if t != s {
      OpenConnIsClean(s, a.slot);
      var m := t.looper[|s.looper|];
      assert Pipe(t) == Pipe(s) + [m];
      AppendKeepsPipe(Pipe(s), m);
      forall x | x in Pipe(t) ensures MessageOk(t, x) { if x in Pipe(s) { assert MessageOk(s, x); } }
    }
  }

  lemma HangupKeepsInv(s: System, a: Action)
    requires Inv(s) && a.Hangup?
    ensures Inv(HangupStep(s, a))
  {
    var t := HangupStep(s, a);
    if SlotOpen(s, a.slot) {
      OpenConnIsClean(s, a.slot);
      var m := t.looper[|s.looper|];
      assert Pipe(t) == Pipe(s) + [m];
      AppendKeepsPipe(Pipe(s), m);
      forall x | x in Pipe(t) ensures MessageOk(t, x) { if x in Pipe(s) { assert MessageOk(s, x); } }
      assert SlotsAgree(t);
    }
  }

  lemma RemoveKeepsPipe(p: seq<Message>, n: nat)
    requires ClosingIsLast(p) && n < |p| && !p[n].closing
    ensures ClosingIsLast(p[..n] + p[n + 1..])
    ensures forall c :: HasClosing(p, c) ==> HasClosing(p[..n] + p[n + 1..], c)
    ensures forall m :: m in p[..n] + p[n + 1..] ==> m in p
  {
    var q := p[..n] + p[n + 1..];
    assert forall j :: 0 <= j < |q| ==> q[j] == p[if j < n then j else j + 1];
    forall i, j | 0 <= i < j < |q| && q[i].closing ensures q[j].conn != q[i].conn {
      var i', j' := if i < n then i else i + 1, if j < n then j else j + 1;
      assert p[i'].closing && i' < j';
    }
    forall c | HasClosing(p, c) ensures HasClosing(q, c) {
      var i :| 0 <= i < |p| && p[i].closing && p[i].conn == c;
      assert q[if i < n then i else i - 1] == p[i];
    }
  }

  lemma DispatchKeepsPipe(s: System)
    requires PipeAgrees(s)
    ensures PipeAgrees(DispatchStep(s))
  {
    var t := DispatchStep(s);
    if s.looper != [] {
      var m, n := s.looper[0], |s.queue|;
      assert Pipe(s)[n] == m;
      assert MessageOk(s, m);
      if m.handler.HandlerNormal? {
        assert Pipe(t) == Pipe(s);
      } else {
        assert Pipe(t) == Pipe(s)[..n] + Pipe(s)[n + 1..];
        RemoveKeepsPipe(Pipe(s), n);
      }
      forall x | x in Pipe(t) ensures MessageOk(t, x) { assert MessageOk(s, x); }
    }
  }

  lemma DispatchKeepsInv(s: System)
    requires Inv(s)
    ensures Inv(DispatchStep(s))
  {
    DispatchKeepsPipe(s);
  }

  /** What a request does to the live labels and the starters, seen from outside the executor. */
  lemma StepEffect(e: NS.State, r: Request)
    requires Agreement(e) && Environment(e, r)
    ensures var f := NS.Step(e, r);
            && (forall k :: k in f.bySeq ==> k in e.bySeq || (r.Start? && r.spawn.Spawned? && k == NewCommand(r).lbl))
            && f.starter == (if r.Start? && r.spawn.Spawned? then e.starter[NewCommand(r).lbl := r.client]
                             else e.starter)
            && (r.Destroy? ==> forall k :: k in f.bySeq ==> k in e.starter && e.starter[k] != r.client)
  {
    match r
    case Start(_, _, _, _, _, _, _) =>
    case Close(_, _, _, _) =>
    case Destroy(c) =>
      DestroyMaps(e, c);
      DropAllFrame(e, ClientLabels(e, c));
      forall k | k in NS.Step(e, r).bySeq ensures k in e.starter && e.starter[k] != r.client {
        assert Listed(e, k);
      }
    case Unknown(_) =>
  }

  lemma TailKeepsPipe(s: System, t: System)
    requires PipeAgrees(s) && s.queue != []
    requires t.queue == s.queue[1..] && t.looper == s.looper && t.clients == s.clients && t.closed == s.closed
    requires t.destroyed == if s.queue[0].closing then s.destroyed + {s.queue[0].conn} else s.destroyed
    ensures PipeAgrees(t)
  {
    var p, q := Pipe(s), Pipe(t);
    assert q == p[1..] && p[0] == s.queue[0];
    forall m | m in q ensures MessageOk(t, m) {
      var j :| 0 <= j < |q| && q[j] == m;
      assert m == p[j + 1];
      assert MessageOk(s, m);
    }
    forall c | c in t.closed && c !in t.destroyed ensures HasClosing(q, c) {
      var i :| 0 <= i < |p| && p[i].closing && p[i].conn == c;
      assert i > 0 && q[i - 1] == p[i];
    }
  }

  lemma ExecuteKeepsOrigins(s: System, a: Action)
    requires Inv(s) && a.Execute? && s.queue != [] && Allowed(s, a)
    ensures OriginAgrees(ExecuteStep(s, a)) && NoOrphans(ExecuteStep(s, a))
  {
    var t, m := ExecuteStep(s, a), s.queue[0];
    var r := RequestOf(m, a);
    assert Pipe(s)[0] == m;
    assert MessageOk(s, m);
    StepEffect(s.exec, r);
    forall k | k in t.exec.bySeq && k in t.origin ensures t.origin[k] !in t.destroyed {
      if k in s.exec.bySeq {
        assert Listed(s.exec, k);
      }
    }
  }

  lemma ExecuteKeepsInv(s: System, a: Action)
    requires Inv(s) && a.Execute? && Allowed(s, a)
    ensures Inv(ExecuteStep(s, a))
  {
    if s.queue != [] {
      var t := ExecuteStep(s, a);
      assert MessageOk(s, Pipe(s)[0]);
      assert Agreement(t.exec) by { StepKeepsAgreement(s.exec, RequestOf(s.queue[0], a)); }
      TailKeepsPipe(s, t);
      ExecuteKeepsOrigins(s, a);
      assert SlotsAgree(t);
    }
  }

  lemma NextKeepsInv(s: System, a: Action)
    requires Inv(s) && Allowed(s, a)
    ensures Inv(Next(s, a))
  {
    match a
    case Accept(_, _) => AcceptKeepsInv(s, a);
    case Receive(_, _, _) => ReceiveKeepsInv(s, a);
    case Hangup(_) => HangupKeepsInv(s, a);
    case Dispatch => DispatchKeepsInv(s);
    case Execute(_, _, _, _, _) => ExecuteKeepsInv(s, a);
  }

  lemma {:induction false} RunKeepsInv(s: System, acts: seq<Action>)
    requires Inv(s) && AllowedRun(s, acts)
    ensures Inv(RunActions(s, acts))
    decreases acts
  {
    if acts != [] {
      NextKeepsInv(s, acts[0]);
      RunKeepsInv(Next(s, acts[0]), acts[1..]);
    }
  }

  // ---- the theorems ----

  ghost predicate LiveFrom(s: System, conn: nat) {
    exists k :: k in s.exec.bySeq && k in s.origin && s.origin[k] == conn
  }

  lemma BootInv()
    ensures Inv(BOOT)
  {
    assert Pipe(BOOT) == [];
  }

  lemma ClosedConnInInv(s: System, conn: nat)
    requires PipeAgrees(s) && NoOrphans(s) && conn in s.closed
    ensures conn in s.destroyed ==> !LiveFrom(s, conn) && forall m :: m in Pipe(s) ==> m.conn != conn
    ensures conn !in s.destroyed ==> HasClosing(Pipe(s), conn) && ClosingIsLast(Pipe(s))
  {
    forall m | m in Pipe(s) && conn in s.destroyed ensures m.conn != conn { assert MessageOk(s, m); }
  }

  /**
   No orphans, for every interleaving: of a connection that has closed, either its DESTROY is
   still on its way and nothing of it comes after, or none of its commands is alive.
   */
  lemma NoOrphansInAnyRun(acts: seq<Action>, conn: nat)
    requires AllowedRun(BOOT, acts)
    requires conn in RunActions(BOOT, acts).closed
    ensures var s := RunActions(BOOT, acts);
            && Agreement(s.exec)
            && (conn in s.destroyed ==> !LiveFrom(s, conn) && forall m :: m in Pipe(s) ==> m.conn != conn)
            && (conn !in s.destroyed ==> HasClosing(Pipe(s), conn) && ClosingIsLast(Pipe(s)))
  {
    BootInv();
    RunKeepsInv(BOOT, acts);
    ClosedConnInInv(RunActions(BOOT, acts), conn);
  }

  /** No trace of an identity in any of the four indexes. */
  ghost predicate NoneStartedBy(e: NS.State, c: Client) {
    && c !in e.byClient
    && (forall k :: k in e.bySeq ==> k in e.starter && e.starter[k] != c)
    && (forall cmd :: cmd in e.running ==> cmd.lbl in e.starter && e.starter[cmd.lbl] != c)
    && e.pids == Children(e.running)
  }

  ghost predicate ExecutesStartOf(s: System, a: Action, c: Client) {
    a.Execute? && s.queue != [] && s.queue[0].kind.KindStart? && s.queue[0].client == c
  }

  ghost predicate NoStartOf(s: System, acts: seq<Action>, c: Client)
    decreases acts
  {
    acts != [] ==> !ExecutesStartOf(s, acts[0], c) && NoStartOf(Next(s, acts[0]), acts[1..], c)
  }

  lemma AgreementMakesNone(e: NS.State, c: Client)
    requires Agreement(e)
    requires c !in e.byClient
    ensures NoneStartedBy(e, c)
  {
    forall k | k in e.bySeq ensures k in e.starter && e.starter[k] != c { assert Listed(e, k); }
    forall cmd | cmd in e.running ensures cmd.lbl in e.starter && e.starter[cmd.lbl] != c {
      assert cmd.lbl in e.bySeq;
    }
  }

  lemma OnlyStartAddsClients(e: NS.State, r: Request, c: Client)
    requires c !in e.byClient && !(r.Start? && r.client == c)
    ensures c !in NS.Step(e, r).byClient
  {
    if r.Destroy? { DropAllFrame(e, ClientLabels(e, r.client)); }
  }

  /** Once a DESTROY of (uid, pid) is executed, nothing that identity started is left in any index. */
  lemma DestroyLeavesNone(s: System, a: Action)
    requires Inv(s) && a.Execute? && Allowed(s, a)
    requires s.queue != [] && s.queue[0].kind.KindDestroy?
    ensures NoneStartedBy(Next(s, a).exec, s.queue[0].client)
  {
    var c := s.queue[0].client;
    NextKeepsInv(s, a);
    DestroyMaps(s.exec, c);
    AgreementMakesNone(Next(s, a).exec, c);
  }

  /** ... and it stays so until a later START of that identity is executed. */
  lemma {:induction false} NoneUntilNextStart(s: System, acts: seq<Action>, c: Client)
    requires Inv(s) && AllowedRun(s, acts) && NoneStartedBy(s.exec, c) && NoStartOf(s, acts, c)
    ensures NoneStartedBy(RunActions(s, acts).exec, c)
    decreases acts
  {
    if acts != [] {
      var a, t := acts[0], Next(s, acts[0]);
      NextKeepsInv(s, a);
      if a.Execute? && s.queue != [] {
        OnlyStartAddsClients(s.exec, RequestOf(s.queue[0], a), c);
      }
      AgreementMakesNone(t.exec, c);
      NoneUntilNextStart(t, acts[1..], c);
    }
  }
}
