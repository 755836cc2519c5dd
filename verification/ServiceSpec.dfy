/**
 The service executor as a state machine on values. Service records live at addresses of an
 explicit heap, because the executor keeps one record in three indexes, updates it in place
 and frees it; an index entry whose address is not in the heap dangles.

 Three places of the code do not do what they are for, and both forms are modelled: START
 copies a command into a buffer that may be too small, RESTART pushes a record that never left
 the vector, and the sweep erases saved positions that the erasures before have shifted.
 */
module ServiceSpec {
  import opened Labels
  import opened Sequences

  datatype Mode = AsWritten | Intended

  datatype ServiceState =
    | Paused | Stoped | Running | Died | DiedSignal | DiedUnknown | Finished
    | FinishingUser | FinishedUser | UnknownState

  type Ptr = nat

  datatype ServiceInfo = ServiceInfo(
    name: string, pid: int, state: ServiceState, cmdLine: string, writers: seq<int>, lbl: nat, flags: int)

  /** `pid` is what fork gave (negative: it failed), `address` where the record was allocated. */
  datatype Op =
    | Start(cmdLine: string, flags: int, address: Ptr, pid: int)
    | Stop(lbl: nat)
    | Pause(lbl: nat)
    | Restart(lbl: nat)
    | Info(byName: bool, infoFlags: int)
    | OtherOp

  datatype Command = Command(writer: int, sequence: nat, name: string, op: Op)

  datatype ResultStatus = ResultOk | ResultFail | ResultExists
  datatype Extra = NoExtra | StartedLabel(lbl: nat) | InfoOf(lbl: nat, state: ServiceState)
  datatype ResponseStatus = StatusExit | StatusSignal | StatusUser | StatusUnknown

  const CMD_BUFFER_LEN := 128

  const SIGINT := 2
  const SIGKILL := 9
  const SIGTERM := 15
  const SIGCONT := 18
  const SIGSTOP := 19

  /** What the executor does to the outside, in order. */
  datatype Out =
    | Result(writer: int, sequence: nat, name: string, status: ResultStatus, extra: Extra)
    | Response(writer: int, lbl: nat, name: string, rstatus: ResponseStatus, code: int)
    | Kill(lbl: nat, pid: int, sig: int)

  /** An answer of the non-blocking waitpid. `NoChild` is ECHILD. */
  datatype Answer =
    | StillRunning | Exited(code: int) | Signaled(sig: int) | OtherStatus(status: int) | NoChild | WaitFailed
  type Answers = int -> Answer

  /** `broken` records that the code has read, erased or written something that is not there. */
  datatype State = State(
    running: seq<Ptr>,
    bySeq: map<nat, Ptr>,
    byName: map<string, Ptr>,
    heap: map<Ptr, ServiceInfo>,
    out: seq<Out>,
    broken: bool)

  const INITIAL := State([], map[], map[], map[], [], false)

  // ---- commands ----

  function AddWriter(writers: seq<int>, w: int): seq<int> {
    if w in writers then writers else writers + [w]
  }

  function Insert<K, V>(m: map<K, V>, k: K, v: V): map<K, V> {
    if k in m then m else m[k := v]
  }

  function Reply(s: State, c: Command, status: ResultStatus, extra: Extra): State {
    s.(out := s.out + [Result(c.writer, c.sequence, c.name, status, extra)])
  }

  function NewService(c: Command): ServiceInfo
    requires c.op.Start?
  {
    ServiceInfo(c.name, c.op.pid, Running, c.op.cmdLine, [c.writer],
                SequenceToLabel(c.sequence, c.op.address), c.op.flags)
  }

  /**
   As written, the command is copied into a buffer of 128 bytes without a look at its length:
   with its NUL it must fit.
   */
  predicate CommandFits(cmdLine: string) {
    |cmdLine| < CMD_BUFFER_LEN
  }

  function StartStep(mode: Mode, s: State, c: Command): State
    requires c.op.Start?
  {
    if c.name in s.byName then Reply(s, c, ResultExists, NoExtra)
    else if mode.AsWritten? && !CommandFits(c.op.cmdLine) then s.(broken := true)
    else if c.op.pid <= 0 then Reply(s, c, ResultFail, NoExtra)
    else
      var sve := NewService(c);
      Reply(s.(running := s.running + [c.op.address],
               bySeq := Insert(s.bySeq, sve.lbl, c.op.address),
               byName := Insert(s.byName, sve.name, c.op.address),
               heap := s.heap[c.op.address := sve]),
            c, ResultOk, StartedLabel(sve.lbl))
  }

  /** Signal a record's process and set its state. */
  function Signal(s: State, p: Ptr, sig: int, state: ServiceState): State
    requires p in s.heap
  {
    s.(heap := s.heap[p := s.heap[p].(state := state)],
       out := s.out + [Kill(s.heap[p].lbl, s.heap[p].pid, sig)])
  }

  function StopStep(s: State, c: Command, p: Ptr): State
    requires p in s.heap
  {
    if s.heap[p].state.Running? || s.heap[p].state.Paused?
    then Reply(Signal(s, p, SIGTERM, FinishingUser), c, ResultOk, NoExtra)
    else Reply(s, c, ResultOk, NoExtra)
  }

  function PauseStep(s: State, c: Command, p: Ptr): State
    requires p in s.heap
  {
    if s.heap[p].state.Running?
    then Reply(Signal(s, p, SIGSTOP, Paused), c, ResultOk, NoExtra)
    else Reply(s, c, ResultFail, NoExtra)
  }

  function RestartStep(mode: Mode, s: State, c: Command, p: Ptr): State
    requires p in s.heap
  {
    if s.heap[p].state.Paused? then
      var t := Signal(s, p, SIGCONT, Running);
      Reply(if mode.AsWritten? then t.(running := t.running + [p]) else t, c, ResultOk, NoExtra)
    else Reply(s, c, ResultFail, NoExtra)
  }

  function InfoStep(s: State, c: Command): State
    requires c.op.Info?
  {
    if !c.op.byName || c.name !in s.byName then Reply(s, c, ResultFail, NoExtra)
    else
      var p := s.byName[c.name];
      if p !in s.heap then s.(broken := true)
      else if s.heap[p].flags != c.op.infoFlags then Reply(s, c, ResultFail, NoExtra)
      else Reply(s.(heap := s.heap[p := s.heap[p].(writers := AddWriter(s.heap[p].writers, c.writer))]),
                 c, ResultOk, InfoOf(s.heap[p].lbl, s.heap[p].state))
  }

  /** STOP, PAUSE and RESTART find their record by label. */
  function LabelStep(mode: Mode, s: State, c: Command, lbl: nat): State
    requires c.op.Stop? || c.op.Pause? || c.op.Restart?
  {
    if lbl !in s.bySeq then Reply(s, c, ResultFail, NoExtra)
    else if s.bySeq[lbl] !in s.heap then s.(broken := true)
    else if c.op.Stop? then StopStep(s, c, s.bySeq[lbl])
    else if c.op.Pause? then PauseStep(s, c, s.bySeq[lbl])
    else RestartStep(mode, s, c, s.bySeq[lbl])
  }

  function CommandStep(mode: Mode, s: State, c: Command): State {
    match c.op
    case Start(_, _, _, _) => StartStep(mode, s, c)
    case Stop(lbl) => LabelStep(mode, s, c, lbl)
    case Pause(lbl) => LabelStep(mode, s, c, lbl)
    case Restart(lbl) => LabelStep(mode, s, c, lbl)
    case Info(_, _) => InfoStep(s, c)
    case OtherOp => Reply(s, c, ResultFail, NoExtra)
  }

  // ---- the sweep ----

  predicate Polled(state: ServiceState) {
    state.Paused? || state.Running? || state.Stoped? || state.FinishingUser?
  }

  predicate HasStatus(a: Answer) {
    a.Exited? || a.Signaled? || a.OtherStatus?
  }

  predicate Collects(sve: ServiceInfo, a: Answer) {
    Polled(sve.state) && (HasStatus(a) || a.NoChild?)
  }

  /** The state a reaped record gets, and what its writers are told. */
  function Classify(state: ServiceState, a: Answer): (ServiceState, ResponseStatus, int)
    requires HasStatus(a)
  {
    match a
    case Exited(code) => (if code == 0 then Finished else Died, StatusExit, code)
    case Signaled(sig) =>
      if state.FinishingUser? && sig == SIGTERM then (FinishedUser, StatusUser, 0)
      else (DiedSignal, StatusSignal, sig)
    case OtherStatus(status) => (DiedUnknown, StatusUnknown, status)
    case _ => assert false; (state, StatusUnknown, 0)
  }

  /** One response to each writer of a record, in order. */
  function ResponsesTo(writers: seq<int>, sve: ServiceInfo, status: ResponseStatus, code: int): seq<Out> {
    seq(|writers|, i requires 0 <= i < |writers| => Response(writers[i], sve.lbl, sve.name, status, code))
  }

  function ReapResponses(sve: ServiceInfo, a: Answer): seq<Out> {
    if Polled(sve.state) && HasStatus(a)
    then ResponsesTo(sve.writers, sve, Classify(sve.state, a).1, Classify(sve.state, a).2)
    else []
  }

  function Reaped(sve: ServiceInfo, a: Answer): ServiceInfo {
    if Polled(sve.state) && HasStatus(a) then sve.(state := Classify(sve.state, a).0) else sve
  }

  datatype Scan = Scan(heap: map<Ptr, ServiceInfo>, gc: seq<nat>, out: seq<Out>, broken: bool)

  function Saved(pos: nat, collects: bool): seq<nat> {
    if collects then [pos] else []
  }

  /** The sweep's first loop over the entries from position `pos` on. */
  function ScanFrom(ptrs: seq<Ptr>, pos: nat, heap: map<Ptr, ServiceInfo>, ans: Answers): Scan
    decreases ptrs
  {
    if ptrs == [] then Scan(heap, [], [], false)
    else if ptrs[0] !in heap then Scan(heap, [], [], true)
    else
      var sve := heap[ptrs[0]];
      var a := ans(sve.pid);
      var rest := ScanFrom(ptrs[1..], pos + 1, heap[ptrs[0] := Reaped(sve, a)], ans);
      Scan(rest.heap,
           Saved(pos, Collects(sve, a)) + rest.gc,
           ReapResponses(sve, a) + rest.out,
           rest.broken)
  }

  /** Forget and free the record at one position of the vector. */
  function EraseAt(s: State, i: int): State {
    if !(0 <= i < |s.running|) || s.running[i] !in s.heap then s.(broken := true)
    else
      var sve := s.heap[s.running[i]];
      s.(running := s.running[..i] + s.running[i + 1..],
         bySeq := s.bySeq - {sve.lbl},
         byName := s.byName - {sve.name},
         heap := s.heap - {s.running[i]})
  }

  /** The sweep's second loop over the positions collected, `done` of which are erased already. */
  function EraseFrom(mode: Mode, s: State, gc: seq<nat>, done: nat): State
    decreases gc
  {
    if s.broken || gc == [] then s
    else EraseFrom(mode, EraseAt(s, if mode.AsWritten? then gc[0] else gc[0] - done), gc[1..], done + 1)
  }

  /** The state between the two loops of the sweep. */
  function Scanned(s: State, ans: Answers): State {
    var scan := ScanFrom(s.running, 0, s.heap, ans);
    s.(heap := scan.heap, out := s.out + scan.out, broken := s.broken || scan.broken)
  }

  function Sweep(mode: Mode, s: State, ans: Answers): State {
    if s.broken then s
    else EraseFrom(mode, Scanned(s, ans), ScanFrom(s.running, 0, s.heap, ans).gc, 0)
  }

  // ---- events ----

  /** `Uninit` is onUninit: SIGINT to every service, then a sweep. */
  datatype Event = Excute(cmd: Command, ans: Answers) | Timeout(ans: Answers) | Uninit(ans: Answers)

  predicate Dangling(ptrs: seq<Ptr>, heap: map<Ptr, ServiceInfo>) {
    exists p :: p in ptrs && p !in heap
  }

  /** A signal to the process of every entry, up to one that dangles. */
  function KillAll(ptrs: seq<Ptr>, heap: map<Ptr, ServiceInfo>, sig: int): seq<Out> {
    if ptrs == [] || ptrs[0] !in heap then []
    else [Kill(heap[ptrs[0]].lbl, heap[ptrs[0]].pid, sig)] + KillAll(ptrs[1..], heap, sig)
  }

  /** The state in which the sweep of an event begins. */
  function BeforeSweep(mode: Mode, s: State, e: Event): State {
    match e
    case Excute(cmd, _) => CommandStep(mode, s, cmd)
    case Timeout(_) => s
    case Uninit(_) =>
      s.(out := s.out + KillAll(s.running, s.heap, SIGINT), broken := s.broken || Dangling(s.running, s.heap))
  }

  function Step(mode: Mode, s: State, e: Event): State {
    if s.broken then s else Sweep(mode, BeforeSweep(mode, s, e), e.ans)
  }

  function Run(mode: Mode, s: State, es: seq<Event>): State
    decreases es
  {
    if es == [] then s else Run(mode, Step(mode, s, es[0]), es[1..])
  }

  /**
   The destructor's loop: SIGKILL, a response to each writer, free the record. Also whether
   it met a dangling entry.
   */
  function DestroyEach(ptrs: seq<Ptr>, heap: map<Ptr, ServiceInfo>): (seq<Out>, bool) {
    if ptrs == [] then ([], false)
    else if ptrs[0] !in heap then ([], true)
    else
      var sve := heap[ptrs[0]];
      var rest := DestroyEach(ptrs[1..], heap - {ptrs[0]});
      (DestroyOne(sve) + rest.0, rest.1)
  }

  function DestroyOne(sve: ServiceInfo): seq<Out> {
    [Kill(sve.lbl, sve.pid, SIGKILL)] + ResponsesTo(sve.writers, sve, StatusSignal, 0)
  }

  function Destruct(s: State): State {
    if s.broken then s
    else
      var d := DestroyEach(s.running, s.heap);
      if d.1 then s.(out := s.out + d.0, broken := true)
      else State([], map[], map[], map[], s.out + d.0, false)
  }

  // ---- agreement of the three indexes ----

  predicate LiveState(state: ServiceState) {
    state.Running? || state.Paused? || state.FinishingUser?
  }

  /** A record is in both maps under its own label and name, is alive and has distinct writers. */
  predicate RecordOk(s: State, p: Ptr)
    requires p in s.heap
  {
    var sve := s.heap[p];
    && sve.lbl in s.bySeq && s.bySeq[sve.lbl] == p
    && sve.name in s.byName && s.byName[sve.name] == p
    && LiveState(sve.state)
    && sve.writers != [] && NoDuplicates(sve.writers)
  }

  /** The vector has no duplicates and lists exactly the records; the maps lead to records and back. */
  predicate IndexesAgree(s: State) {
    && !s.broken
    && NoDuplicates(s.running)
    && (forall p :: p in s.running ==> p in s.heap)
    && (forall p :: p in s.heap ==> p in s.running && RecordOk(s, p))
    && (forall k :: k in s.bySeq ==> s.bySeq[k] in s.heap && s.heap[s.bySeq[k]].lbl == k)
    && (forall n :: n in s.byName ==> s.byName[n] in s.heap && s.heap[s.byName[n]].name == n)
  }

  /**
   The allocator gives an address not in use, and no live service has the label made from it.
   The label of a service that was freed may come back.
   */
  predicate Environment(s: State, e: Event) {
    e.Excute? && e.cmd.op.Start? && e.cmd.op.pid > 0 ==>
      e.cmd.op.address !in s.heap && NewService(e.cmd).lbl !in s.bySeq
  }

  predicate EnvironmentRun(s: State, es: seq<Event>)
    decreases es
  {
    es != [] ==> Environment(s, es[0]) && EnvironmentRun(Step(Intended, s, es[0]), es[1..])
  }

  lemma StartKeepsAgreement(s: State, c: Command)
    requires IndexesAgree(s) && c.op.Start?
    requires c.op.pid > 0 ==> c.op.address !in s.heap && NewService(c).lbl !in s.bySeq
    ensures IndexesAgree(StartStep(Intended, s, c))
  {
    if c.name !in s.byName && c.op.pid > 0 {
      RegisterKeepsAgreement(s, c.op.address, NewService(c));
    }
  }

  function Register(s: State, p: Ptr, sve: ServiceInfo): State {
    s.(running := s.running + [p],
       bySeq := Insert(s.bySeq, sve.lbl, p),
       byName := Insert(s.byName, sve.name, p),
       heap := s.heap[p := sve])
  }

  lemma RegisterKeepsAgreement(s: State, p: Ptr, sve: ServiceInfo)
    requires IndexesAgree(s) && p !in s.heap && sve.lbl !in s.bySeq && sve.name !in s.byName
    requires LiveState(sve.state) && sve.writers != [] && NoDuplicates(sve.writers)
    ensures IndexesAgree(Register(s, p, sve))
  {
    var t := Register(s, p, sve);
    forall q | q in t.heap ensures q in t.running && RecordOk(t, q) {
      if q != p { assert RecordOk(s, q); }
    }
  }

  /** Changing the state or the writers of one record keeps the indexes in agreement. */
  lemma UpdateKeepsAgreement(s: State, p: Ptr, sve: ServiceInfo, out: seq<Out>)
    requires IndexesAgree(s) && p in s.heap
    requires sve.lbl == s.heap[p].lbl && sve.name == s.heap[p].name
    requires LiveState(sve.state) && sve.writers != [] && NoDuplicates(sve.writers)
    ensures IndexesAgree(s.(heap := s.heap[p := sve], out := out))
  {
    var t := s.(heap := s.heap[p := sve], out := out);
    forall q | q in t.heap ensures q in t.running && RecordOk(t, q) {
      assert RecordOk(s, q);
    }
  }

  lemma ReplyKeepsAgreement(s: State, c: Command, status: ResultStatus, extra: Extra)
    requires IndexesAgree(s)
    ensures IndexesAgree(Reply(s, c, status, extra))
  {
    var t := Reply(s, c, status, extra);
    forall q | q in t.heap ensures RecordOk(t, q) { assert RecordOk(s, q); }
  }

  lemma InfoKeepsAgreement(s: State, c: Command)
    requires IndexesAgree(s) && c.op.Info?
    ensures IndexesAgree(InfoStep(s, c))
  {
    var t := InfoStep(s, c);
    if c.op.byName && c.name in s.byName {
      var p := s.byName[c.name];
      assert RecordOk(s, p);
      if s.heap[p].flags == c.op.infoFlags {
        UpdateKeepsAgreement(s, p, s.heap[p].(writers := AddWriter(s.heap[p].writers, c.writer)), t.out);
      } else {
        ReplyKeepsAgreement(s, c, ResultFail, NoExtra);
      }
    } else {
      ReplyKeepsAgreement(s, c, ResultFail, NoExtra);
    }
  }

  lemma SignalAndReply(s: State, c: Command, p: Ptr, sig: int, state: ServiceState)
    requires IndexesAgree(s) && p in s.heap && LiveState(state)
    ensures IndexesAgree(Reply(Signal(s, p, sig, state), c, ResultOk, NoExtra))
  {
    assert RecordOk(s, p);
    UpdateKeepsAgreement(s, p, s.heap[p].(state := state), Reply(Signal(s, p, sig, state), c, ResultOk, NoExtra).out);
  }

  lemma LabelKeepsAgreement(s: State, c: Command, lbl: nat)
    requires IndexesAgree(s) && (c.op.Stop? || c.op.Pause? || c.op.Restart?)
    ensures IndexesAgree(LabelStep(Intended, s, c, lbl))
  {
    if lbl !in s.bySeq {
      ReplyKeepsAgreement(s, c, ResultFail, NoExtra);
    } else {
      var p := s.bySeq[lbl];
      var sig, state := if c.op.Stop? then SIGTERM else if c.op.Pause? then SIGSTOP else SIGCONT,
                        if c.op.Stop? then FinishingUser else if c.op.Pause? then Paused else Running;
      SignalAndReply(s, c, p, sig, state);
      ReplyKeepsAgreement(s, c, if c.op.Stop? then ResultOk else ResultFail, NoExtra);
    }
  }

  lemma BeforeSweepAgrees(s: State, e: Event)
    requires IndexesAgree(s) && Environment(s, e)
    ensures IndexesAgree(BeforeSweep(Intended, s, e))
  {
    match e
    case Timeout(_) =>
    case Uninit(_) =>
      forall q | q in s.heap ensures RecordOk(BeforeSweep(Intended, s, e), q) { assert RecordOk(s, q); }
    case Excute(c, _) =>
      match c.op {
        case Start(_, _, _, _) => StartKeepsAgreement(s, c);
        case Stop(lbl) => LabelKeepsAgreement(s, c, lbl);
        case Pause(lbl) => LabelKeepsAgreement(s, c, lbl);
        case Restart(lbl) => LabelKeepsAgreement(s, c, lbl);
        case Info(_, _) => InfoKeepsAgreement(s, c);
        case OtherOp => ReplyKeepsAgreement(s, c, ResultFail, NoExtra);
      }
  }

  // ---- what the intended sweep does ----

  predicate CollectsAt(heap: map<Ptr, ServiceInfo>, ans: Answers, p: Ptr) {
    p in heap && Collects(heap[p], ans(heap[p].pid))
  }

  /** The records a sweep collects. */
  function Collected(heap: map<Ptr, ServiceInfo>, ans: Answers): set<Ptr> {
    set p | p in heap && CollectsAt(heap, ans, p)
  }

  function Survivors(ptrs: seq<Ptr>, gone: set<Ptr>): seq<Ptr> {
    if ptrs == [] then []
    else if ptrs[0] in gone then Survivors(ptrs[1..], gone)
    else [ptrs[0]] + Survivors(ptrs[1..], gone)
  }

  /** The responses of a sweep: per reaped record, in vector order, one to each of its writers. */
  function SweepResponses(ptrs: seq<Ptr>, heap: map<Ptr, ServiceInfo>, ans: Answers): seq<Out> {
    if ptrs == [] then []
    else (if ptrs[0] in heap then ReapResponses(heap[ptrs[0]], ans(heap[ptrs[0]].pid)) else [])
         + SweepResponses(ptrs[1..], heap, ans)
  }

  /** The positions, counted from `pos`, of the entries in `gone`. */
  function Positions(ptrs: seq<Ptr>, pos: nat, gone: set<Ptr>): seq<nat> {
    if ptrs == [] then []
    else if ptrs[0] in gone then [pos] + Positions(ptrs[1..], pos + 1, gone)
    else Positions(ptrs[1..], pos + 1, gone)
  }

  lemma {:induction false} ScanDepends(ptrs: seq<Ptr>, h: map<Ptr, ServiceInfo>, k: map<Ptr, ServiceInfo>,
                                       ans: Answers)
    requires forall p :: p in ptrs ==> p in h && p in k && h[p] == k[p]
    ensures SweepResponses(ptrs, h, ans) == SweepResponses(ptrs, k, ans)
    decreases ptrs
  {
    if ptrs != [] { ScanDepends(ptrs[1..], h, k, ans); }
  }

  lemma {:induction false} PositionsDepend(ptrs: seq<Ptr>, pos: nat, a: set<Ptr>, b: set<Ptr>)
    requires forall p :: p in ptrs ==> (p in a <==> p in b)
    ensures Positions(ptrs, pos, a) == Positions(ptrs, pos, b)
    decreases ptrs
  {
    if ptrs != [] { PositionsDepend(ptrs[1..], pos + 1, a, b); }
  }

  /** Without duplicates, the first loop judges every entry by the heap it began with. */
  lemma {:induction false} ScanExactly(ptrs: seq<Ptr>, pos: nat, heap: map<Ptr, ServiceInfo>, ans: Answers)
    requires NoDuplicates(ptrs) && forall p :: p in ptrs ==> p in heap
    ensures var scan := ScanFrom(ptrs, pos, heap, ans);
            && !scan.broken
            && scan.gc == Positions(ptrs, pos, Collected(heap, ans))
            && scan.out == SweepResponses(ptrs, heap, ans)
            && scan.heap.Keys == heap.Keys
            && forall p :: p in heap ==>
                 scan.heap[p] == if p in ptrs then Reaped(heap[p], ans(heap[p].pid)) else heap[p]
    decreases ptrs
  {
    if ptrs != [] {
      var h' := heap[ptrs[0] := Reaped(heap[ptrs[0]], ans(heap[ptrs[0]].pid))];
      HeadNotInTail(ptrs);
      ScanExactly(ptrs[1..], pos + 1, h', ans);
      ScanDepends(ptrs[1..], heap, h', ans);
      PositionsDepend(ptrs[1..], pos + 1, Collected(heap, ans), Collected(h', ans));
      assert ptrs == [ptrs[0]] + ptrs[1..];
    }
  }

  /** What erasing a set of records leaves of a state. */
  ghost predicate ErasedExactly(s: State, gone: set<Ptr>, t: State) {
    && !t.broken
    && t.out == s.out
    && t.heap == s.heap - gone
    && (forall k :: k in t.bySeq <==> k in s.bySeq && s.bySeq[k] !in gone)
    && (forall k :: k in t.bySeq ==> t.bySeq[k] == s.bySeq[k])
    && (forall n :: n in t.byName <==> n in s.byName && s.byName[n] !in gone)
    && (forall n :: n in t.byName ==> t.byName[n] == s.byName[n])
  }

  /** Labels and names lead from records to the maps and back. */
  predicate MapsAgree(s: State) {
    && (forall p :: p in s.heap ==>
          && s.heap[p].lbl in s.bySeq && s.bySeq[s.heap[p].lbl] == p
          && s.heap[p].name in s.byName && s.byName[s.heap[p].name] == p)
    && (forall k :: k in s.bySeq ==> s.bySeq[k] in s.heap && s.heap[s.bySeq[k]].lbl == k)
    && (forall n :: n in s.byName ==> s.byName[n] in s.heap && s.heap[s.byName[n]].name == n)
  }

  lemma EraseAtExactly(s: State, i: nat)
    requires !s.broken && MapsAgree(s) && i < |s.running| && s.running[i] in s.heap
    ensures MapsAgree(EraseAt(s, i)) && ErasedExactly(s, {s.running[i]}, EraseAt(s, i))
  {
  }

  lemma ErasedTwice(s: State, a: set<Ptr>, t: State, b: set<Ptr>, u: State)
    requires ErasedExactly(s, a, t) && ErasedExactly(t, b, u)
    ensures ErasedExactly(s, a + b, u)
  {
  }

  lemma ErasedNone(s: State)
    requires !s.broken
    ensures ErasedExactly(s, {}, s)
  {
  }

  function Among(ptrs: seq<Ptr>, gone: set<Ptr>): set<Ptr> {
    set p | p in ptrs && p in gone
  }

  lemma AmongStep(ptrs: seq<Ptr>, gone: set<Ptr>)
    requires ptrs != []
    ensures Among(ptrs, gone) == (if ptrs[0] in gone then {ptrs[0]} else {}) + Among(ptrs[1..], gone)
  {
  }

  /** The intended second loop with the entries `kept` passed, `done` erased and `ptrs` to come. */
  function EraseRest(s: State, kept: seq<Ptr>, ptrs: seq<Ptr>, gone: set<Ptr>, done: nat): State {
    EraseFrom(Intended, s, Positions(ptrs, |kept| + done, gone), done)
  }

  ghost predicate Resumes(s: State, kept: seq<Ptr>, ptrs: seq<Ptr>) {
    && !s.broken && MapsAgree(s)
    && s.running == kept + ptrs && NoDuplicates(ptrs)
    && forall p :: p in ptrs ==> p in s.heap
  }

  lemma HeadMoves(kept: seq<Ptr>, ptrs: seq<Ptr>)
    requires ptrs != []
    ensures kept + ptrs == (kept + [ptrs[0]]) + ptrs[1..]
  {
  }

  lemma TakenTurn(s: State, kept: seq<Ptr>, ptrs: seq<Ptr>, gone: set<Ptr>, done: nat)
    requires Resumes(s, kept, ptrs) && ptrs != [] && ptrs[0] in gone
    ensures Resumes(EraseAt(s, |kept|), kept, ptrs[1..])
    ensures ErasedExactly(s, {ptrs[0]}, EraseAt(s, |kept|))
    ensures EraseRest(s, kept, ptrs, gone, done) == EraseRest(EraseAt(s, |kept|), kept, ptrs[1..], gone, done + 1)
  {
    HeadNotInTail(ptrs);
    assert s.running[|kept|] == ptrs[0];
    EraseAtExactly(s, |kept|);
    assert EraseAt(s, |kept|).running == kept + ptrs[1..];
    assert Positions(ptrs, |kept| + done, gone)[1..] == Positions(ptrs[1..], |kept| + (done + 1), gone);
  }

  lemma KeptTurn(s: State, kept: seq<Ptr>, ptrs: seq<Ptr>, gone: set<Ptr>, done: nat)
    requires Resumes(s, kept, ptrs) && ptrs != [] && ptrs[0] !in gone
    ensures Resumes(s, kept + [ptrs[0]], ptrs[1..])
    ensures EraseRest(s, kept, ptrs, gone, done) == EraseRest(s, kept + [ptrs[0]], ptrs[1..], gone, done)
    ensures (kept + [ptrs[0]]) + Survivors(ptrs[1..], gone) == kept + Survivors(ptrs, gone)
  {
    HeadNotInTail(ptrs);
    HeadMoves(kept, ptrs);
    HeadMoves(kept, [ptrs[0]] + Survivors(ptrs[1..], gone));
  }

  lemma {:induction false} EraseRestVector(s: State, kept: seq<Ptr>, ptrs: seq<Ptr>, gone: set<Ptr>, done: nat)
    requires Resumes(s, kept, ptrs)
    ensures EraseRest(s, kept, ptrs, gone, done).running == kept + Survivors(ptrs, gone)
    decreases ptrs
  {
    if ptrs == [] {
    } else if ptrs[0] in gone {
      TakenTurn(s, kept, ptrs, gone, done);
      EraseRestVector(EraseAt(s, |kept|), kept, ptrs[1..], gone, done + 1);
    } else {
      KeptTurn(s, kept, ptrs, gone, done);
      EraseRestVector(s, kept + [ptrs[0]], ptrs[1..], gone, done);
    }
  }

  lemma {:induction false} EraseRestMaps(s: State, kept: seq<Ptr>, ptrs: seq<Ptr>, gone: set<Ptr>, done: nat)
    requires Resumes(s, kept, ptrs)
    ensures ErasedExactly(s, Among(ptrs, gone), EraseRest(s, kept, ptrs, gone, done))
    decreases ptrs
  {
    if ptrs == [] {
      ErasedNone(s);
    } else if ptrs[0] in gone {
      TakenTurn(s, kept, ptrs, gone, done);
      var u := EraseAt(s, |kept|);
      EraseRestMaps(u, kept, ptrs[1..], gone, done + 1);
      AmongStep(ptrs, gone);
      ErasedTwice(s, {ptrs[0]}, u, Among(ptrs[1..], gone), EraseRest(s, kept, ptrs, gone, done));
    } else {
      KeptTurn(s, kept, ptrs, gone, done);
      EraseRestMaps(s, kept + [ptrs[0]], ptrs[1..], gone, done);
      AmongStep(ptrs, gone);
      assert {} + Among(ptrs[1..], gone) == Among(ptrs[1..], gone);
    }
  }

  lemma AgreementGivesMaps(s: State)
    requires IndexesAgree(s)
    ensures MapsAgree(s)
  {
    forall p | p in s.heap ensures
      && s.heap[p].lbl in s.bySeq && s.bySeq[s.heap[p].lbl] == p
      && s.heap[p].name in s.byName && s.byName[s.heap[p].name] == p
    {
      assert RecordOk(s, p);
    }
  }

  lemma ScanAgrees(s: State, ans: Answers)
    requires IndexesAgree(s)
    ensures ScanFrom(s.running, 0, s.heap, ans).gc == Positions(s.running, 0, Collected(s.heap, ans))
    ensures !ScanFrom(s.running, 0, s.heap, ans).broken
    ensures Scanned(s, ans).out == s.out + SweepResponses(s.running, s.heap, ans)
    ensures Scanned(s, ans).heap.Keys == s.heap.Keys
    ensures forall p :: p in s.heap && p !in Collected(s.heap, ans) ==> Scanned(s, ans).heap[p] == s.heap[p]
    ensures MapsAgree(Scanned(s, ans))
  {
    ScanExactly(s.running, 0, s.heap, ans);
    var h := Scanned(s, ans).heap;
    forall p | p in s.heap
      ensures h[p].lbl == s.heap[p].lbl && h[p].name == s.heap[p].name
      ensures p !in Collected(s.heap, ans) ==> h[p] == s.heap[p]
    {
      assert RecordOk(s, p);
    }
    assert MapsAgree(s) by { AgreementGivesMaps(s); }
  }

  lemma SweepErases(s: State, ans: Answers)
    requires IndexesAgree(s)
    ensures Sweep(Intended, s, ans).running == Survivors(s.running, Collected(s.heap, ans))
    ensures ErasedExactly(Scanned(s, ans), Collected(s.heap, ans), Sweep(Intended, s, ans))
  {
    var u, gone := Scanned(s, ans), Collected(s.heap, ans);
    assert u.bySeq == s.bySeq && u.byName == s.byName && u.running == s.running;
    assert Resumes(u, [], u.running) by {
      ScanAgrees(s, ans);
      assert u.running == [] + u.running;
    }
    assert Sweep(Intended, s, ans) == EraseRest(u, [], u.running, gone, 0) by { ScanAgrees(s, ans); }
    EraseRestVector(u, [], u.running, gone, 0);
    EraseRestMaps(u, [], u.running, gone, 0);
    assert Among(u.running, gone) == gone;
  }

  /**
   The sweep, for any number of processes found dead in one pass: exactly the collected
   records leave all three indexes and the heap, the survivors keep their order and every
   field, and each reaped record's writers are told once, with its label and name.
   */
  lemma SweepExactly(s: State, ans: Answers)
    requires IndexesAgree(s)
    ensures var t, gone := Sweep(Intended, s, ans), Collected(s.heap, ans);
            && !t.broken
            && t.running == Survivors(s.running, gone)
            && t.heap == s.heap - gone
            && (forall k :: k in t.bySeq <==> k in s.bySeq && s.bySeq[k] !in gone)
            && (forall k :: k in t.bySeq ==> t.bySeq[k] == s.bySeq[k])
            && (forall n :: n in t.byName <==> n in s.byName && s.byName[n] !in gone)
            && (forall n :: n in t.byName ==> t.byName[n] == s.byName[n])
            && t.out == s.out + SweepResponses(s.running, s.heap, ans)
  {
    hide IndexesAgree, Sweep, ScanFrom, Survivors, SweepResponses, MapsAgree;
    SweepErases(s, ans);
    ScanAgrees(s, ans);
    assert Scanned(s, ans).heap - Collected(s.heap, ans) == s.heap - Collected(s.heap, ans);
  }

  lemma {:induction false} SurvivorsExactly(ptrs: seq<Ptr>, gone: set<Ptr>)
    ensures forall p :: p in Survivors(ptrs, gone) <==> p in ptrs && p !in gone
    ensures NoDuplicates(ptrs) ==> NoDuplicates(Survivors(ptrs, gone))
  {
    if ptrs != [] {
      SurvivorsExactly(ptrs[1..], gone);
      assert ptrs == [ptrs[0]] + ptrs[1..];
      if NoDuplicates(ptrs) { HeadNotInTail(ptrs); }
    }
  }

  lemma SweepKeepsAgreement(s: State, ans: Answers)
    requires IndexesAgree(s)
    ensures IndexesAgree(Sweep(Intended, s, ans))
  {
    var t := Sweep(Intended, s, ans);
    SweepExactly(s, ans);
    SurvivorsExactly(s.running, Collected(s.heap, ans));
    forall p | p in t.heap ensures p in t.running && RecordOk(t, p) { assert RecordOk(s, p); }
  }

  lemma StepKeepsAgreement(s: State, e: Event)
    requires IndexesAgree(s) && Environment(s, e)
    ensures IndexesAgree(Step(Intended, s, e))
  {
    BeforeSweepAgrees(s, e);
    SweepKeepsAgreement(BeforeSweep(Intended, s, e), e.ans);
  }

  /** In every reachable state the three indexes agree and only live records remain. */
  lemma {:induction false} RunKeepsAgreement(s: State, es: seq<Event>)
    requires IndexesAgree(s) && EnvironmentRun(s, es)
    ensures IndexesAgree(Run(Intended, s, es))
    decreases es
  {
    if es != [] {
      StepKeepsAgreement(s, es[0]);
      RunKeepsAgreement(Step(Intended, s, es[0]), es[1..]);
    }
  }
}
