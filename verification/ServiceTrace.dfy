/**
 What clients see of the service executor over whole runs: every service's outputs come in
 order, every writer that registered with a service is told its end exactly once, and a
 service moves only along its lifecycle. Runs are of the intended form of the executor;
 ServiceAsWritten says in which runs the code behaves so.
 */
module ServiceTrace {
  import opened Sequences
  import opened ServiceSpec

  // ---- the outputs of one name ----

  /** Where the outputs for one name have got to. `Bad`: they are out of order. */
  datatype Phase = Unseen | Up(lbl: nat) | Ended(lbl: nat) | Bad

  /** The result that tells a client its service of this name was started. */
  predicate StartOf(o: Out, n: string) {
    o.Result? && o.status.ResultOk? && o.extra.StartedLabel? && o.name == n
  }

  /** Starts and ends alternate, and an end carries the label of the start before it. */
  function Advance(ph: Phase, o: Out, n: string): Phase {
    if StartOf(o, n) then
      if ph.Up? || ph.Bad? then Bad else Up(o.extra.lbl)
    else if o.Response? && o.name == n then
      if (ph.Up? || ph.Ended?) && ph.lbl == o.lbl then Ended(o.lbl) else Bad
    else ph
  }

  function PhaseAfter(ph: Phase, out: seq<Out>, n: string): Phase
    decreases out
  {
    if out == [] then ph else PhaseAfter(Advance(ph, out[0], n), out[1..], n)
  }

  lemma {:induction false} PhaseAppended(ph: Phase, a: seq<Out>, b: seq<Out>, n: string)
    ensures PhaseAfter(ph, a + b, n) == PhaseAfter(PhaseAfter(ph, a, n), b, n)
    decreases a
  {
    if a == [] {
      assert a + b == b;
    } else {
      assert (a + b)[1..] == a[1..] + b;
      PhaseAppended(Advance(ph, a[0], n), a[1..], b, n);
    }
  }

  /** Out of order stays out of order, so a good phase says every prefix was in order. */
  lemma {:induction false} GoodPhaseGoodPrefixes(ph: Phase, a: seq<Out>, b: seq<Out>, n: string)
    requires !PhaseAfter(ph, a + b, n).Bad?
    ensures !PhaseAfter(ph, a, n).Bad?
  {
    PhaseAppended(ph, a, b, n);
    if PhaseAfter(ph, a, n).Bad? { BadStays(b, n); }
  }

  lemma {:induction false} BadStays(out: seq<Out>, n: string)
    ensures PhaseAfter(Bad, out, n) == Bad
  {
    if out != [] { BadStays(out[1..], n); }
  }

  // ---- the responses to one writer ----

  function Responses(out: seq<Out>, lbl: nat, w: int): nat {
    if out == [] then 0
    else (if out[0].Response? && out[0].lbl == lbl && out[0].writer == w then 1 else 0) + Responses(out[1..], lbl, w)
  }

  lemma {:induction false} ResponsesAppended(a: seq<Out>, b: seq<Out>, lbl: nat, w: int)
    ensures Responses(a + b, lbl, w) == Responses(a, lbl, w) + Responses(b, lbl, w)
  {
    if a == [] {
      assert a + b == b;
    } else {
      assert (a + b)[1..] == a[1..] + b;
      ResponsesAppended(a[1..], b, lbl, w);
    }
  }

  // ---- the lives of a label ----

  /**
   A writer and a label: whether it is registered with the label's latest life, and in how
   many lives it ever was. A label may have several lives, one after the other.
   */
  datatype Member = Member(now: bool, lives: nat)

  predicate StartsLife(o: Out, lbl: nat) {
    o.Result? && o.extra == StartedLabel(lbl)
  }

  /** The result tells its writer that it is now registered with the live service labelled `lbl`. */
  predicate Joins(o: Out, lbl: nat) {
    o.Result? && o.extra.InfoOf? && o.extra.lbl == lbl
  }

  function Join(m: Member, o: Out, lbl: nat, w: int): Member {
    if StartsLife(o, lbl) then
      if o.writer == w then Member(true, m.lives + 1) else Member(false, m.lives)
    else if Joins(o, lbl) && o.writer == w && !m.now then Member(true, m.lives + 1)
    else m
  }

  function JoinAll(m: Member, out: seq<Out>, lbl: nat, w: int): Member
    decreases out
  {
    if out == [] then m else JoinAll(Join(m, out[0], lbl, w), out[1..], lbl, w)
  }

  function MemberOf(out: seq<Out>, lbl: nat, w: int): Member {
    JoinAll(Member(false, 0), out, lbl, w)
  }

  lemma {:induction false} JoinAppended(m: Member, a: seq<Out>, b: seq<Out>, lbl: nat, w: int)
    ensures JoinAll(m, a + b, lbl, w) == JoinAll(JoinAll(m, a, lbl, w), b, lbl, w)
    decreases a
  {
    if a == [] {
      assert a + b == b;
    } else {
      assert (a + b)[1..] == a[1..] + b;
      JoinAppended(Join(m, a[0], lbl, w), a[1..], b, lbl, w);
    }
  }

  lemma MemberOne(out: seq<Out>, o: Out, lbl: nat, w: int)
    ensures MemberOf(out + [o], lbl, w) == Join(MemberOf(out, lbl, w), o, lbl, w)
  {
    JoinAppended(Member(false, 0), out, [o], lbl, w);
    assert [o][1..] == [];
  }

  /** Outputs that register nobody. */
  predicate RegistersNone(o: Out) {
    o.Result? ==> o.extra.NoExtra?
  }

  lemma {:induction false} JoinNone(m: Member, out: seq<Out>, lbl: nat, w: int)
    requires forall o :: o in out ==> RegistersNone(o)
    ensures JoinAll(m, out, lbl, w) == m
    decreases out
  {
    if out != [] {
      assert RegistersNone(out[0]);
      JoinNone(m, out[1..], lbl, w);
    }
  }

  lemma MemberStays(out: seq<Out>, xs: seq<Out>, lbl: nat, w: int)
    requires forall o :: o in xs ==> RegistersNone(o)
    ensures MemberOf(out + xs, lbl, w) == MemberOf(out, lbl, w)
  {
    JoinAppended(Member(false, 0), out, xs, lbl, w);
    JoinNone(MemberOf(out, lbl, w), xs, lbl, w);
  }

  /** How many lives a label had. */
  function Lives(out: seq<Out>, lbl: nat): nat {
    if out == [] then 0 else (if StartsLife(out[0], lbl) then 1 else 0) + Lives(out[1..], lbl)
  }

  lemma {:induction false} LivesAppended(a: seq<Out>, b: seq<Out>, lbl: nat)
    ensures Lives(a + b, lbl) == Lives(a, lbl) + Lives(b, lbl)
  {
    if a == [] {
      assert a + b == b;
    } else {
      assert (a + b)[1..] == a[1..] + b;
      LivesAppended(a[1..], b, lbl);
    }
  }

  lemma {:induction false} NoLives(out: seq<Out>, lbl: nat)
    requires forall o :: o in out ==> RegistersNone(o)
    ensures Lives(out, lbl) == 0
  {
    if out != [] {
      assert RegistersNone(out[0]);
      NoLives(out[1..], lbl);
    }
  }

  /** The writer was registered with the label at some time. */
  predicate EverJoined(out: seq<Out>, lbl: nat, w: int) {
    exists o :: o in out && o.Result? && o.writer == w && (StartsLife(o, lbl) || Joins(o, lbl))
  }

  lemma {:induction false} JoinedExactly(m: Member, out: seq<Out>, lbl: nat, w: int)
    requires m.now ==> m.lives > 0
    ensures JoinAll(m, out, lbl, w).lives > 0 <==> m.lives > 0 || EverJoined(out, lbl, w)
    decreases out
  {
    if out != [] {
      JoinedExactly(Join(m, out[0], lbl, w), out[1..], lbl, w);
      assert out == [out[0]] + out[1..];
    }
  }

  // ---- conservation ----

  /** The live service of a name, as seen by clients. */
  predicate PhaseIs(s: State, n: string, ph: Phase) {
    if n in s.byName then s.byName[n] in s.heap && ph == Up(s.heap[s.byName[n]].lbl)
    else ph.Unseen? || ph.Ended?
  }

  /** Each name has as many starts as ends or one more, in order. */
  ghost predicate Phases(s: State) {
    forall n :: PhaseIs(s, n, PhaseAfter(Unseen, s.out, n))
  }

  ghost predicate WritersKnown(s: State, p: Ptr)
    requires p in s.heap
  {
    forall w :: w in s.heap[p].writers <==> MemberOf(s.out, s.heap[p].lbl, w).now
  }

  /** A live service's writers are those registered with its label's latest life. */
  ghost predicate Known(s: State) {
    forall p :: p in s.heap ==> WritersKnown(s, p)
  }

  /** A live label was started, and a writer is in no more lives of a label than there were. */
  predicate Counted(s: State, lbl: nat, w: int) {
    var m, k := MemberOf(s.out, lbl, w), Lives(s.out, lbl);
    && (lbl in s.bySeq ==> k > 0)
    && (if m.now || k == 0 then m.lives <= k else m.lives < k)
  }

  /** The ended lives of a label that a writer was registered in, less the responses it got for them. */
  function Owed(s: State, lbl: nat, w: int): int {
    var m := MemberOf(s.out, lbl, w);
    m.lives - (if lbl in s.bySeq && m.now then 1 else 0) - Responses(s.out, lbl, w)
  }

  ghost predicate NothingOwed(s: State) {
    forall lbl, w :: Owed(s, lbl, w) == 0
  }

  /**
   Starts and ends of each name alternate; each writer got exactly one response for each
   ended life it was registered in, and no other; a live service's writers are those
   registered with it.
   */
  ghost predicate Conserved(s: State) {
    Phases(s) && Known(s) && NothingOwed(s)
  }

  /** waitpid knows every child that was not reaped. */
  predicate WaitKnows(heap: map<Ptr, ServiceInfo>, ans: Answers) {
    forall p :: p in heap ==> !ans(heap[p].pid).NoChild?
  }

  ghost predicate ChildrenKnown(s: State, es: seq<Event>)
    decreases es
  {
    es != [] ==>
      && WaitKnows(BeforeSweep(Intended, s, es[0]).heap, es[0].ans)
      && ChildrenKnown(Step(Intended, s, es[0]), es[1..])
  }

  // ---- commands conserve ----

  /** Outputs that start, register and end nothing. */
  predicate Silent(o: Out) {
    o.Kill? || (o.Result? && o.extra.NoExtra?)
  }

  lemma {:induction false} SilentPhase(ph: Phase, out: seq<Out>, n: string)
    requires forall o :: o in out ==> Silent(o)
    ensures PhaseAfter(ph, out, n) == ph
    decreases out
  {
    if out != [] {
      assert Silent(out[0]);
      SilentPhase(ph, out[1..], n);
    }
  }

  lemma {:induction false} NoResponses(out: seq<Out>, lbl: nat, w: int)
    requires forall o :: o in out ==> !o.Response?
    ensures Responses(out, lbl, w) == 0
  {
    if out != [] { NoResponses(out[1..], lbl, w); }
  }

  /** A step that keeps all accounts. */
  ghost predicate Keeps(s: State, t: State) {
    && (Phases(s) ==> Phases(t))
    && (Known(s) ==> Known(t))
    && (forall lbl, w :: Owed(t, lbl, w) == Owed(s, lbl, w))
    && (forall lbl, w :: Counted(s, lbl, w) ==> Counted(t, lbl, w))
  }

  /** The indexes and every record's label and writers are unchanged, and `xs` is put out. */
  ghost predicate OnlyPutsOut(s: State, t: State, xs: seq<Out>) {
    && t.bySeq == s.bySeq && t.byName == s.byName && t.out == s.out + xs
    && t.heap.Keys == s.heap.Keys
    && forall p :: p in s.heap ==> t.heap[p].lbl == s.heap[p].lbl && t.heap[p].writers == s.heap[p].writers
  }

  lemma SilentStep(s: State, t: State, xs: seq<Out>)
    requires OnlyPutsOut(s, t, xs) && forall o :: o in xs ==> Silent(o)
    ensures Keeps(s, t)
  {
    forall n ensures PhaseIs(s, n, PhaseAfter(Unseen, s.out, n)) ==> PhaseIs(t, n, PhaseAfter(Unseen, t.out, n)) {
      PhaseAppended(Unseen, s.out, xs, n);
      SilentPhase(PhaseAfter(Unseen, s.out, n), xs, n);
    }
    forall lbl, w ensures MemberOf(t.out, lbl, w) == MemberOf(s.out, lbl, w) && Owed(t, lbl, w) == Owed(s, lbl, w)
      ensures Counted(s, lbl, w) ==> Counted(t, lbl, w)
    {
      LivesAppended(s.out, xs, lbl);
      NoLives(xs, lbl);
      MemberStays(s.out, xs, lbl, w);
      ResponsesAppended(s.out, xs, lbl, w);
      NoResponses(xs, lbl, w);
    }
    forall q | q in t.heap ensures WritersKnown(s, q) ==> WritersKnown(t, q) {
    }
  }

  /** Phase of the one output `o`. */
  lemma PhaseOne(s: seq<Out>, o: Out, n: string)
    ensures PhaseAfter(Unseen, s + [o], n) == Advance(PhaseAfter(Unseen, s, n), o, n)
  {
    PhaseAppended(Unseen, s, [o], n);
    assert [o][1..] == [];
  }

  lemma StartKeeps(s: State, c: Command)
    requires IndexesAgree(s) && Environment(s, Excute(c, _ => StillRunning)) && c.op.Start?
    ensures Keeps(s, StartStep(Intended, s, c))
  {
    var t := StartStep(Intended, s, c);
    if c.name in s.byName || c.op.pid <= 0 {
      SilentStep(s, t, [t.out[|s.out|]]);
    } else {
      AgreementGivesMaps(s);
      StartedKeeps(s, t, c.op.address, NewService(c), t.out[|s.out|]);
    }
  }

  /** A new life of its label begins with one writer. */
  lemma StartedKeeps(s: State, t: State, p: Ptr, sve: ServiceInfo, o: Out)
    requires MapsAgree(s) && p !in s.heap && sve.lbl !in s.bySeq && sve.name !in s.byName
    requires o.Result? && o.status.ResultOk? && o.extra == StartedLabel(sve.lbl)
    requires o.name == sve.name && sve.writers == [o.writer]
    requires t == Register(s, p, sve).(out := s.out + [o])
    ensures Keeps(s, t)
  {
    forall n ensures PhaseIs(s, n, PhaseAfter(Unseen, s.out, n)) ==> PhaseIs(t, n, PhaseAfter(Unseen, t.out, n)) {
      PhaseOne(s.out, o, n);
    }
    forall lbl, w ensures MemberOf(t.out, lbl, w) == Join(MemberOf(s.out, lbl, w), o, lbl, w)
      ensures Owed(t, lbl, w) == Owed(s, lbl, w)
      ensures Counted(s, lbl, w) ==> Counted(t, lbl, w)
    {
      LivesAppended(s.out, [o], lbl);
      MemberOne(s.out, o, lbl, w);
      ResponsesAppended(s.out, [o], lbl, w);
      NoResponses([o], lbl, w);
    }
    forall q | q in t.heap && Known(s) ensures WritersKnown(t, q) {
      if q != p { assert WritersKnown(s, q); assert s.heap[q].lbl != sve.lbl; }
    }
  }

  /** A writer registers with the record at `p` and is told so. */
  lemma InfoKeeps(s: State, p: Ptr, o: Out)
    requires MapsAgree(s) && p in s.heap
    requires o.Result? && o.extra.InfoOf? && o.extra.lbl == s.heap[p].lbl
    ensures var sve := s.heap[p].(writers := AddWriter(s.heap[p].writers, o.writer));
            Keeps(s, s.(heap := s.heap[p := sve], out := s.out + [o]))
  {
    var sve := s.heap[p].(writers := AddWriter(s.heap[p].writers, o.writer));
    var t := s.(heap := s.heap[p := sve], out := s.out + [o]);
    forall n ensures PhaseIs(s, n, PhaseAfter(Unseen, s.out, n)) ==> PhaseIs(t, n, PhaseAfter(Unseen, t.out, n)) {
      PhaseOne(s.out, o, n);
    }
    forall lbl, w ensures MemberOf(t.out, lbl, w) == Join(MemberOf(s.out, lbl, w), o, lbl, w)
      ensures Owed(t, lbl, w) == Owed(s, lbl, w)
      ensures Counted(s, lbl, w) ==> Counted(t, lbl, w)
    {
      LivesAppended(s.out, [o], lbl);
      MemberOne(s.out, o, lbl, w);
      ResponsesAppended(s.out, [o], lbl, w);
      NoResponses([o], lbl, w);
    }
    forall q | q in t.heap && Known(s) ensures WritersKnown(t, q) {
      assert WritersKnown(s, q);
      assert q != p ==> s.heap[q].lbl != sve.lbl;
    }
  }

  lemma InfoStepKeeps(s: State, c: Command)
    requires IndexesAgree(s) && c.op.Info?
    ensures Keeps(s, InfoStep(s, c))
  {
    var t := InfoStep(s, c);
    var p := if c.name in s.byName then s.byName[c.name] else 0;
    if c.op.byName && c.name in s.byName && s.heap[p].flags == c.op.infoFlags {
      AgreementGivesMaps(s);
      InfoKeeps(s, p, t.out[|s.out|]);
    } else {
      SilentStep(s, t, [t.out[|s.out|]]);
    }
  }

  lemma ReplyKeeps(s: State, c: Command, status: ResultStatus)
    ensures Keeps(s, Reply(s, c, status, NoExtra))
  {
    SilentStep(s, Reply(s, c, status, NoExtra), [Result(c.writer, c.sequence, c.name, status, NoExtra)]);
  }

  lemma SignalKeeps(s: State, p: Ptr, sig: int, state: ServiceState)
    requires p in s.heap
    ensures Keeps(s, Signal(s, p, sig, state))
  {
    SilentStep(s, Signal(s, p, sig, state), [Kill(s.heap[p].lbl, s.heap[p].pid, sig)]);
  }

  lemma KeepsBoth(s: State, t: State, u: State)
    requires Keeps(s, t) && Keeps(t, u)
    ensures Keeps(s, u)
  {
    hide Owed, Counted, Phases, Known;
    forall lbl, w ensures Owed(u, lbl, w) == Owed(s, lbl, w) && (Counted(s, lbl, w) ==> Counted(u, lbl, w)) {
      assert Owed(t, lbl, w) == Owed(s, lbl, w);
    }
  }

  lemma LabelStepKeeps(s: State, c: Command, lbl: nat)
    requires IndexesAgree(s) && (c.op.Stop? || c.op.Pause? || c.op.Restart?)
    ensures Keeps(s, LabelStep(Intended, s, c, lbl))
  {
    if lbl !in s.bySeq {
      ReplyKeeps(s, c, ResultFail);
    } else {
      LabelFoundKeeps(s, c, lbl, s.bySeq[lbl]);
    }
  }

  lemma LabelFoundKeeps(s: State, c: Command, lbl: nat, p: Ptr)
    requires c.op.Stop? || c.op.Pause? || c.op.Restart?
    requires lbl in s.bySeq && s.bySeq[lbl] == p && p in s.heap
    ensures Keeps(s, LabelStep(Intended, s, c, lbl))
  {
    hide Keeps;
    var sig, state := if c.op.Stop? then SIGTERM else if c.op.Pause? then SIGSTOP else SIGCONT,
                      if c.op.Stop? then FinishingUser else if c.op.Pause? then Paused else Running;
    var t := Signal(s, p, sig, state);
    SignalKeeps(s, p, sig, state);
    ReplyKeeps(t, c, ResultOk);
    KeepsBoth(s, t, Reply(t, c, ResultOk, NoExtra));
    ReplyKeeps(s, c, if c.op.Stop? then ResultOk else ResultFail);
  }

  lemma {:induction false} KillsSilent(ptrs: seq<Ptr>, heap: map<Ptr, ServiceInfo>, sig: int)
    ensures forall o :: o in KillAll(ptrs, heap, sig) ==> o.Kill?
  {
    if ptrs != [] { KillsSilent(ptrs[1..], heap, sig); }
  }

  lemma BeforeSweepKeeps(s: State, e: Event)
    requires IndexesAgree(s) && Environment(s, e)
    ensures Keeps(s, BeforeSweep(Intended, s, e))
  {
    hide Keeps;
    match e
    case Timeout(_) => assert Keeps(s, s) by { KeepsItself(s); }
    case Uninit(_) =>
      KillsSilent(s.running, s.heap, SIGINT);
      SilentStep(s, BeforeSweep(Intended, s, e), KillAll(s.running, s.heap, SIGINT));
    case Excute(c, _) =>
      match c.op {
        case Start(_, _, _, _) => StartKeeps(s, c);
        case Stop(lbl) => LabelStepKeeps(s, c, lbl);
        case Pause(lbl) => LabelStepKeeps(s, c, lbl);
        case Restart(lbl) => LabelStepKeeps(s, c, lbl);
        case Info(_, _) => InfoStepKeeps(s, c);
        case OtherOp => ReplyKeeps(s, c, ResultFail);
      }
  }

  lemma KeepsItself(s: State)
    ensures Keeps(s, s)
  {
  }

  // ---- the sweep conserves ----

  /** Every output is the end of one service of the name `n`. */
  predicate EndsOnly(xs: seq<Out>, lbl: nat, n: string) {
    forall o :: o in xs ==> o.Response? && o.lbl == lbl && o.name == n
  }

  lemma {:induction false} EndsOthers(ph: Phase, xs: seq<Out>, lbl: nat, m: string, n: string)
    requires EndsOnly(xs, lbl, m) && m != n
    ensures PhaseAfter(ph, xs, n) == ph
    decreases xs
  {
    if xs != [] {
      assert xs[0] in xs;
      EndsOthers(ph, xs[1..], lbl, m, n);
    }
  }

  lemma {:induction false} EndsOne(ph: Phase, xs: seq<Out>, lbl: nat, n: string)
    requires EndsOnly(xs, lbl, n) && (ph == Up(lbl) || ph == Ended(lbl))
    ensures PhaseAfter(ph, xs, n) == if xs == [] then ph else Ended(lbl)
    decreases xs
  {
    if xs != [] {
      assert xs[0] in xs;
      EndsOne(Ended(lbl), xs[1..], lbl, n);
    }
  }

  lemma ReapEndsOnly(sve: ServiceInfo, a: Answer)
    ensures EndsOnly(ReapResponses(sve, a), sve.lbl, sve.name)
  {
  }

  /** Records other than those of the name leave its phase alone. */
  lemma {:induction false} SweepPhaseOthers(ph: Phase, ptrs: seq<Ptr>, heap: map<Ptr, ServiceInfo>, ans: Answers,
                                            n: string)
    requires forall p :: p in ptrs ==> p in heap && heap[p].name != n
    ensures PhaseAfter(ph, SweepResponses(ptrs, heap, ans), n) == ph
    decreases ptrs
  {
    if ptrs != [] {
      var sve, a := heap[ptrs[0]], ans(heap[ptrs[0]].pid);
      PhaseAppended(ph, ReapResponses(sve, a), SweepResponses(ptrs[1..], heap, ans), n);
      ReapEndsOnly(sve, a);
      EndsOthers(ph, ReapResponses(sve, a), sve.lbl, sve.name, n);
      SweepPhaseOthers(ph, ptrs[1..], heap, ans, n);
    }
  }

  /** The record of the name ends it, if it is reaped. */
  lemma {:induction false} SweepPhase(ptrs: seq<Ptr>, heap: map<Ptr, ServiceInfo>, ans: Answers, p: Ptr)
    requires NoDuplicates(ptrs) && p in ptrs && heap.Keys >= set q | q in ptrs
    requires forall q :: q in ptrs && q != p ==> heap[q].name != heap[p].name
    ensures PhaseAfter(Up(heap[p].lbl), SweepResponses(ptrs, heap, ans), heap[p].name)
            == if ReapResponses(heap[p], ans(heap[p].pid)) == [] then Up(heap[p].lbl) else Ended(heap[p].lbl)
    decreases ptrs
  {
    var n, ph := heap[p].name, Up(heap[p].lbl);
    var sve, a := heap[ptrs[0]], ans(heap[ptrs[0]].pid);
    PhaseAppended(ph, ReapResponses(sve, a), SweepResponses(ptrs[1..], heap, ans), n);
    ReapEndsOnly(sve, a);
    HeadNotInTail(ptrs);
    if ptrs[0] == p {
      EndsOne(ph, ReapResponses(sve, a), sve.lbl, n);
      SweepPhaseOthers(PhaseAfter(ph, ReapResponses(sve, a), n), ptrs[1..], heap, ans, n);
    } else {
      EndsOthers(ph, ReapResponses(sve, a), sve.lbl, sve.name, n);
      SweepPhase(ptrs[1..], heap, ans, p);
    }
  }

  lemma {:induction false} ResponsesToWriters(writers: seq<int>, sve: ServiceInfo, status: ResponseStatus, code: int,
                                              lbl: nat, w: int)
    requires NoDuplicates(writers)
    ensures Responses(ResponsesTo(writers, sve, status, code), lbl, w)
            == if sve.lbl == lbl && w in writers then 1 else 0
    decreases writers
  {
    if writers != [] {
      HeadNotInTail(writers);
      assert writers == [writers[0]] + writers[1..];
      assert ResponsesTo(writers, sve, status, code)[1..] == ResponsesTo(writers[1..], sve, status, code);
      ResponsesToWriters(writers[1..], sve, status, code, lbl, w);
    }
  }

  /** What one record's end tells one writer. */
  function Told(sve: ServiceInfo, a: Answer, lbl: nat, w: int): nat {
    if Polled(sve.state) && HasStatus(a) && sve.lbl == lbl && w in sve.writers then 1 else 0
  }

  lemma ReapTells(sve: ServiceInfo, a: Answer, lbl: nat, w: int)
    requires NoDuplicates(sve.writers)
    ensures Responses(ReapResponses(sve, a), lbl, w) == Told(sve, a, lbl, w)
  {
    if Polled(sve.state) && HasStatus(a) {
      ResponsesToWriters(sve.writers, sve, Classify(sve.state, a).1, Classify(sve.state, a).2, lbl, w);
    }
  }

  lemma {:induction false} SweepTellsNone(ptrs: seq<Ptr>, heap: map<Ptr, ServiceInfo>, ans: Answers, lbl: nat, w: int)
    requires forall p :: p in ptrs ==> p in heap && heap[p].lbl != lbl && NoDuplicates(heap[p].writers)
    ensures Responses(SweepResponses(ptrs, heap, ans), lbl, w) == 0
    decreases ptrs
  {
    if ptrs != [] {
      var sve, a := heap[ptrs[0]], ans(heap[ptrs[0]].pid);
      ResponsesAppended(ReapResponses(sve, a), SweepResponses(ptrs[1..], heap, ans), lbl, w);
      ReapTells(sve, a, lbl, w);
      SweepTellsNone(ptrs[1..], heap, ans, lbl, w);
    }
  }

  lemma {:induction false} SweepTells(ptrs: seq<Ptr>, heap: map<Ptr, ServiceInfo>, ans: Answers, p: Ptr, w: int)
    requires NoDuplicates(ptrs) && p in ptrs
    requires forall q :: q in ptrs ==> q in heap && NoDuplicates(heap[q].writers)
    requires forall q :: q in ptrs && q != p ==> heap[q].lbl != heap[p].lbl
    ensures Responses(SweepResponses(ptrs, heap, ans), heap[p].lbl, w)
            == Told(heap[p], ans(heap[p].pid), heap[p].lbl, w)
    decreases ptrs
  {
    var sve, a := heap[ptrs[0]], ans(heap[ptrs[0]].pid);
    ResponsesAppended(ReapResponses(sve, a), SweepResponses(ptrs[1..], heap, ans), heap[p].lbl, w);
    ReapTells(sve, a, heap[p].lbl, w);
    HeadNotInTail(ptrs);
    if ptrs[0] == p {
      SweepTellsNone(ptrs[1..], heap, ans, heap[p].lbl, w);
    } else {
      SweepTells(ptrs[1..], heap, ans, p, w);
    }
  }

  lemma {:induction false} SweepOnlyResponds(ptrs: seq<Ptr>, heap: map<Ptr, ServiceInfo>, ans: Answers)
    ensures forall o :: o in SweepResponses(ptrs, heap, ans) ==> o.Response?
  {
    if ptrs != [] { SweepOnlyResponds(ptrs[1..], heap, ans); }
  }

  /**
   A live record is collected exactly if waitpid has a status for it, and then its writers are
   told, or does not know it.
   */
  lemma CollectedIsTold(s: State, ans: Answers, p: Ptr)
    requires IndexesAgree(s) && p in s.heap
    ensures Polled(s.heap[p].state) && NoDuplicates(s.heap[p].writers)
    ensures var a := ans(s.heap[p].pid);
            && (p in Collected(s.heap, ans) <==> HasStatus(a) || a.NoChild?)
            && (HasStatus(a) <==> ReapResponses(s.heap[p], a) != [])
  {
    assert RecordOk(s, p);
  }

  lemma SweepPhaseIs(s: State, ans: Answers, n: string)
    requires IndexesAgree(s) && PhaseIs(s, n, PhaseAfter(Unseen, s.out, n)) && WaitKnows(s.heap, ans)
    ensures var ph := PhaseAfter(PhaseAfter(Unseen, s.out, n), SweepResponses(s.running, s.heap, ans), n);
            if n in s.byName && s.byName[n] !in Collected(s.heap, ans) then ph == Up(s.heap[s.byName[n]].lbl)
            else ph.Unseen? || ph.Ended?
  {
    AgreementGivesMaps(s);
    if n in s.byName {
      var p := s.byName[n];
      CollectedIsTold(s, ans, p);
      SweepPhase(s.running, s.heap, ans, p);
    } else {
      SweepPhaseOthers(PhaseAfter(Unseen, s.out, n), s.running, s.heap, ans, n);
    }
  }

  lemma WritersDistinct(s: State)
    requires IndexesAgree(s)
    ensures forall q :: q in s.running ==> q in s.heap && NoDuplicates(s.heap[q].writers)
  {
    forall q | q in s.running ensures q in s.heap && NoDuplicates(s.heap[q].writers) {
      assert RecordOk(s, q);
    }
  }

  /** What a sweep adds to the responses for one label and writer. */
  lemma SweepResponsesAre(s: State, ans: Answers, lbl: nat, w: int)
    requires IndexesAgree(s)
    ensures Responses(SweepResponses(s.running, s.heap, ans), lbl, w)
            == if && lbl in s.bySeq && HasStatus(ans(s.heap[s.bySeq[lbl]].pid))
                  && w in s.heap[s.bySeq[lbl]].writers then 1 else 0
  {
    AgreementGivesMaps(s);
    WritersDistinct(s);
    if lbl in s.bySeq {
      CollectedIsTold(s, ans, s.bySeq[lbl]);
      SweepTells(s.running, s.heap, ans, s.bySeq[lbl], w);
    } else {
      SweepTellsNone(s.running, s.heap, ans, lbl, w);
    }
  }

  /** What a sweep loses: the life of a label whose child waitpid does not know, for each of its writers. */
  function LostAt(s: State, ans: Answers, lbl: nat, w: int): nat {
    if && lbl in s.bySeq && s.bySeq[lbl] in s.heap
       && ans(s.heap[s.bySeq[lbl]].pid).NoChild? && w in s.heap[s.bySeq[lbl]].writers then 1 else 0
  }

  /** Exactly what a sweep does to the accounts. */
  lemma SweepOwes(s: State, ans: Answers, lbl: nat, w: int)
    requires IndexesAgree(s) && Known(s)
    ensures Owed(Sweep(Intended, s, ans), lbl, w) == Owed(s, lbl, w) + LostAt(s, ans, lbl, w)
  {
    var xs := SweepResponses(s.running, s.heap, ans);
    SweepExactly(s, ans);
    SweepOnlyResponds(s.running, s.heap, ans);
    MemberStays(s.out, xs, lbl, w);
    ResponsesAppended(s.out, xs, lbl, w);
    SweepResponsesAre(s, ans, lbl, w);
    if lbl in s.bySeq {
      assert WritersKnown(s, s.bySeq[lbl]);
      CollectedIsTold(s, ans, s.bySeq[lbl]);
    }
  }

  lemma SweepKnown(s: State, ans: Answers)
    requires IndexesAgree(s) && Known(s)
    ensures Known(Sweep(Intended, s, ans))
  {
    var t, xs := Sweep(Intended, s, ans), SweepResponses(s.running, s.heap, ans);
    SweepExactly(s, ans);
    SweepOnlyResponds(s.running, s.heap, ans);
    forall p | p in t.heap ensures WritersKnown(t, p) {
      assert WritersKnown(s, p);
      forall w ensures MemberOf(t.out, t.heap[p].lbl, w) == MemberOf(s.out, t.heap[p].lbl, w) {
        MemberStays(s.out, xs, t.heap[p].lbl, w);
      }
    }
  }

  lemma SweepPhases(s: State, ans: Answers)
    requires IndexesAgree(s) && Phases(s) && WaitKnows(s.heap, ans)
    ensures Phases(Sweep(Intended, s, ans))
  {
    var t, xs := Sweep(Intended, s, ans), SweepResponses(s.running, s.heap, ans);
    SweepExactly(s, ans);
    forall n ensures PhaseIs(t, n, PhaseAfter(Unseen, t.out, n)) {
      assert PhaseIs(s, n, PhaseAfter(Unseen, s.out, n));
      PhaseAppended(Unseen, s.out, xs, n);
      SweepPhaseIs(s, ans, n);
    }
  }

  /** An unknown child is lost for the first of its writers. */
  lemma UnknownChildLost(s: State, ans: Answers) returns (lbl: nat, w: int)
    requires IndexesAgree(s) && !WaitKnows(s.heap, ans)
    ensures LostAt(s, ans, lbl, w) == 1
  {
    var p :| p in s.heap && ans(s.heap[p].pid).NoChild?;
    assert RecordOk(s, p);
    lbl, w := s.heap[p].lbl, s.heap[p].writers[0];
  }

  /** A sweep conserves exactly if waitpid knows every child. */
  lemma SweepConservesExactly(s: State, ans: Answers)
    requires IndexesAgree(s) && Conserved(s)
    ensures Conserved(Sweep(Intended, s, ans)) <==> WaitKnows(s.heap, ans)
  {
    var t := Sweep(Intended, s, ans);
    if WaitKnows(s.heap, ans) {
      SweepPhases(s, ans);
      SweepKnown(s, ans);
      forall lbl, w ensures Owed(t, lbl, w) == 0 {
        SweepOwes(s, ans, lbl, w);
        assert Owed(s, lbl, w) == 0;
      }
    } else {
      var lbl, w := UnknownChildLost(s, ans);
      SweepOwes(s, ans, lbl, w);
      assert Owed(s, lbl, w) == 0;
    }
  }

  // ---- whole runs ----

  lemma InitiallyConserved()
    ensures IndexesAgree(INITIAL) && Conserved(INITIAL)
  {
  }

  /** The lives of a label, with a writer registered, that a run loses. */
  function LostLives(s: State, es: seq<Event>, lbl: nat, w: int): nat
    decreases es
  {
    if es == [] then 0
    else LostAt(BeforeSweep(Intended, s, es[0]), es[0].ans, lbl, w)
         + LostLives(Step(Intended, s, es[0]), es[1..], lbl, w)
  }

  lemma StepOwes(s: State, e: Event, lbl: nat, w: int)
    requires IndexesAgree(s) && Known(s) && Environment(s, e)
    ensures Known(Step(Intended, s, e))
    ensures Owed(Step(Intended, s, e), lbl, w)
            == Owed(s, lbl, w) + LostAt(BeforeSweep(Intended, s, e), e.ans, lbl, w)
  {
    hide Known, Owed, LostAt;
    var b := BeforeSweep(Intended, s, e);
    BeforeSweepKeeps(s, e);
    BeforeSweepAgrees(s, e);
    SweepKnown(b, e.ans);
    SweepOwes(b, e.ans, lbl, w);
    assert Owed(b, lbl, w) == Owed(s, lbl, w);
  }

  /**
   The accounts of every run, whatever waitpid answers: what is owed to a writer for a label
   grows exactly by the lives lost.
   */
  lemma {:induction false} RunOwes(s: State, es: seq<Event>, lbl: nat, w: int)
    requires IndexesAgree(s) && Known(s) && EnvironmentRun(s, es)
    ensures Known(Run(Intended, s, es))
    ensures Owed(Run(Intended, s, es), lbl, w) == Owed(s, lbl, w) + LostLives(s, es, lbl, w)
    decreases es
  {
    if es != [] {
      hide Known, Owed, LostAt;
      StepOwes(s, es[0], lbl, w);
      StepKeepsAgreement(s, es[0]);
      RunOwes(Step(Intended, s, es[0]), es[1..], lbl, w);
    }
  }

  /** A run in which waitpid knows every child loses nothing. */
  lemma {:induction false} KnownRunLosesNone(s: State, es: seq<Event>, lbl: nat, w: int)
    requires ChildrenKnown(s, es)
    ensures LostLives(s, es, lbl, w) == 0
    decreases es
  {
    if es != [] {
      hide BeforeSweep, Step;
      KnownRunLosesNone(Step(Intended, s, es[0]), es[1..], lbl, w);
    }
  }

  /** A run in which waitpid does not know some child loses a life. */
  lemma {:induction false} UnknownRunLoses(s: State, es: seq<Event>) returns (lbl: nat, w: int)
    requires IndexesAgree(s) && EnvironmentRun(s, es) && !ChildrenKnown(s, es)
    ensures LostLives(s, es, lbl, w) > 0
    decreases es
  {
    hide BeforeSweep, Step, LostAt, IndexesAgree, Environment;
    BeforeSweepAgrees(s, es[0]);
    StepKeepsAgreement(s, es[0]);
    if WaitKnows(BeforeSweep(Intended, s, es[0]).heap, es[0].ans) {
      lbl, w := UnknownRunLoses(Step(Intended, s, es[0]), es[1..]);
    } else {
      lbl, w := UnknownChildLost(BeforeSweep(Intended, s, es[0]), es[0].ans);
    }
  }

  lemma SweepCounted(s: State, ans: Answers, lbl: nat, w: int)
    requires IndexesAgree(s) && Counted(s, lbl, w)
    ensures Counted(Sweep(Intended, s, ans), lbl, w)
  {
    var xs := SweepResponses(s.running, s.heap, ans);
    SweepExactly(s, ans);
    SweepOnlyResponds(s.running, s.heap, ans);
    MemberStays(s.out, xs, lbl, w);
    LivesAppended(s.out, xs, lbl);
    NoLives(xs, lbl);
  }

  lemma {:induction false} RunCounted(s: State, es: seq<Event>, lbl: nat, w: int)
    requires IndexesAgree(s) && Counted(s, lbl, w) && EnvironmentRun(s, es)
    ensures Counted(Run(Intended, s, es), lbl, w)
    decreases es
  {
    if es != [] {
      hide Counted, Known, Phases, Owed;
      BeforeSweepKeeps(s, es[0]);
      BeforeSweepAgrees(s, es[0]);
      SweepCounted(BeforeSweep(Intended, s, es[0]), es[0].ans, lbl, w);
      StepKeepsAgreement(s, es[0]);
      RunCounted(Step(Intended, s, es[0]), es[1..], lbl, w);
    }
  }

  lemma {:induction false} KnownRunPhases(s: State, es: seq<Event>)
    requires IndexesAgree(s) && Phases(s) && EnvironmentRun(s, es) && ChildrenKnown(s, es)
    ensures Phases(Run(Intended, s, es))
    decreases es
  {
    if es != [] {
      hide Phases, Known;
      BeforeSweepKeeps(s, es[0]);
      BeforeSweepAgrees(s, es[0]);
      SweepPhases(BeforeSweep(Intended, s, es[0]), es[0].ans);
      StepKeepsAgreement(s, es[0]);
      KnownRunPhases(Step(Intended, s, es[0]), es[1..]);
    }
  }

  /** Conservation over whole runs: it holds at the end exactly if waitpid knew every child on the way. */
  lemma RunConserves(s: State, es: seq<Event>)
    requires IndexesAgree(s) && Conserved(s) && EnvironmentRun(s, es)
    ensures IndexesAgree(Run(Intended, s, es))
    ensures Conserved(Run(Intended, s, es)) <==> ChildrenKnown(s, es)
  {
    hide Known, Owed, Phases, IndexesAgree, Run, EnvironmentRun, ChildrenKnown, LostLives;
    RunKeepsAgreement(s, es);
    RunOwes(s, es, 0, 0);
    if ChildrenKnown(s, es) {
      KnownRunPhases(s, es);
      forall lbl, w ensures Owed(Run(Intended, s, es), lbl, w) == 0 {
        RunOwes(s, es, lbl, w);
        KnownRunLosesNone(s, es, lbl, w);
        assert Owed(s, lbl, w) == 0;
      }
    } else {
      var lbl, w := UnknownRunLoses(s, es);
      RunOwes(s, es, lbl, w);
      assert Owed(s, lbl, w) == 0;
    }
  }

  // ---- what a good phase means ----

  function Starts(out: seq<Out>, n: string): nat {
    if out == [] then 0
    else (if StartOf(out[0], n) then 1 else 0) + Starts(out[1..], n)
  }

  /** The services of a name that ended: the responses that follow a start, not another response. */
  function Ends(ph: Phase, out: seq<Out>, n: string): nat
    decreases out
  {
    if out == [] then 0
    else (if ph.Up? && out[0].Response? && out[0].name == n then 1 else 0) + Ends(Advance(ph, out[0], n), out[1..], n)
  }

  lemma {:induction false} StartsMinusEnds(ph: Phase, out: seq<Out>, n: string)
    requires !PhaseAfter(ph, out, n).Bad?
    ensures (if ph.Up? then 1 else 0) + Starts(out, n) - Ends(ph, out, n)
            == if PhaseAfter(ph, out, n).Up? then 1 else 0
    decreases out
  {
    if out != [] {
      if Advance(ph, out[0], n).Bad? { BadStays(out[1..], n); }
      StartsMinusEnds(Advance(ph, out[0], n), out[1..], n);
    }
  }

  lemma {:induction false} PhaseHasStart(ph: Phase, out: seq<Out>, n: string)
    requires PhaseAfter(ph, out, n).Up? || PhaseAfter(ph, out, n).Ended?
    ensures var lbl := PhaseAfter(ph, out, n).lbl;
            ((ph.Up? || ph.Ended?) && ph.lbl == lbl)
            || exists o :: o in out && StartOf(o, n) && o.extra.lbl == lbl
    decreases out
  {
    if out != [] {
      PhaseHasStart(Advance(ph, out[0], n), out[1..], n);
    }
  }

  /** At every prefix of the outputs of a run: starts minus ends is 0 or 1, and a response comes after its start. */
  lemma PrefixInOrder(s: State, k: nat, n: string)
    requires Conserved(s) && k <= |s.out|
    ensures 0 <= Starts(s.out[..k], n) - Ends(Unseen, s.out[..k], n) <= 1
    ensures k < |s.out| && s.out[k].Response? && s.out[k].name == n ==>
              exists o :: o in s.out[..k] && StartOf(o, n) && o.extra.lbl == s.out[k].lbl
  {
    assert s.out == s.out[..k] + s.out[k..];
    assert PhaseIs(s, n, PhaseAfter(Unseen, s.out, n));
    GoodPhaseGoodPrefixes(Unseen, s.out[..k], s.out[k..], n);
    StartsMinusEnds(Unseen, s.out[..k], n);
    if k < |s.out| && s.out[k].Response? && s.out[k].name == n {
      assert s.out == s.out[..k + 1] + s.out[k + 1..];
      GoodPhaseGoodPrefixes(Unseen, s.out[..k + 1], s.out[k + 1..], n);
      assert s.out[..k + 1] == s.out[..k] + [s.out[k]];
      PhaseOne(s.out[..k], s.out[k], n);
      PhaseHasStart(Unseen, s.out[..k], n);
    }
  }

  // ---- the destructor ----

  /** Every child answers that it was killed. */
  function Killed(pid: int): Answer {
    Signaled(SIGKILL)
  }

  lemma {:induction false} StatusIrrelevant(ws: seq<int>, sve: ServiceInfo, st: ResponseStatus, code: int,
                                            st': ResponseStatus, code': int, ph: Phase, n: string, lbl: nat, w: int)
    ensures PhaseAfter(ph, ResponsesTo(ws, sve, st, code), n) == PhaseAfter(ph, ResponsesTo(ws, sve, st', code'), n)
    ensures Responses(ResponsesTo(ws, sve, st, code), lbl, w) == Responses(ResponsesTo(ws, sve, st', code'), lbl, w)
    decreases ws
  {
    if ws != [] {
      var r := Response(ws[0], sve.lbl, sve.name, st, code);
      assert ResponsesTo(ws, sve, st, code)[1..] == ResponsesTo(ws[1..], sve, st, code);
      assert ResponsesTo(ws, sve, st', code')[1..] == ResponsesTo(ws[1..], sve, st', code');
      StatusIrrelevant(ws[1..], sve, st, code, st', code', Advance(ph, r, n), n, lbl, w);
    }
  }

  lemma DestroyOneLikeReap(sve: ServiceInfo, ph: Phase, n: string, lbl: nat, w: int)
    requires Polled(sve.state)
    ensures var xs, ys := DestroyOne(sve), ReapResponses(sve, Killed(sve.pid));
            PhaseAfter(ph, xs, n) == PhaseAfter(ph, ys, n) && Responses(xs, lbl, w) == Responses(ys, lbl, w)
  {
    var kill, rs := [Kill(sve.lbl, sve.pid, SIGKILL)], ResponsesTo(sve.writers, sve, StatusSignal, 0);
    PhaseAppended(ph, kill, rs, n);
    SilentPhase(ph, kill, n);
    ResponsesAppended(kill, rs, lbl, w);
    NoResponses(kill, lbl, w);
    var c := Classify(sve.state, Killed(sve.pid));
    StatusIrrelevant(sve.writers, sve, StatusSignal, 0, c.1, c.2, ph, n, lbl, w);
  }

  /** To clients the destructor looks like a sweep that finds every child killed. */
  lemma {:induction false} DestroyLikeSweep(ptrs: seq<Ptr>, heap: map<Ptr, ServiceInfo>, ph: Phase, n: string,
                                            lbl: nat, w: int)
    requires NoDuplicates(ptrs) && forall p :: p in ptrs ==> p in heap && Polled(heap[p].state)
    ensures !DestroyEach(ptrs, heap).1
    ensures PhaseAfter(ph, DestroyEach(ptrs, heap).0, n) == PhaseAfter(ph, SweepResponses(ptrs, heap, Killed), n)
    ensures Responses(DestroyEach(ptrs, heap).0, lbl, w) == Responses(SweepResponses(ptrs, heap, Killed), lbl, w)
    decreases ptrs
  {
    if ptrs != [] {
      hide DestroyOne, ReapResponses;
      var sve, rest, h := heap[ptrs[0]], ptrs[1..], heap - {ptrs[0]};
      var xs, ys := DestroyOne(sve), ReapResponses(sve, Killed(sve.pid));
      HeadNotInTail(ptrs);
      ScanDepends(rest, heap, h, Killed);
      DestroyOneLikeReap(sve, ph, n, lbl, w);
      PhaseAppended(ph, xs, DestroyEach(rest, h).0, n);
      PhaseAppended(ph, ys, SweepResponses(rest, h, Killed), n);
      ResponsesAppended(xs, DestroyEach(rest, h).0, lbl, w);
      ResponsesAppended(ys, SweepResponses(rest, h, Killed), lbl, w);
      DestroyLikeSweep(rest, h, PhaseAfter(ph, xs, n), n, lbl, w);
    }
  }

  lemma {:induction false} DestroyRegistersNone(ptrs: seq<Ptr>, heap: map<Ptr, ServiceInfo>)
    ensures forall o :: o in DestroyEach(ptrs, heap).0 ==> RegistersNone(o)
  {
    if ptrs != [] && ptrs[0] in heap {
      DestroyRegistersNone(ptrs[1..], heap - {ptrs[0]});
    }
  }

  lemma LivePolled(s: State)
    requires IndexesAgree(s)
    ensures forall p :: p in s.running ==> p in s.heap && Polled(s.heap[p].state)
  {
    forall p | p in s.running ensures p in s.heap && Polled(s.heap[p].state) { assert RecordOk(s, p); }
  }

  /** The destructor tells the writers of every live service, and leaves what was owed. */
  lemma DestructOwes(s: State, lbl: nat, w: int)
    requires IndexesAgree(s) && Known(s)
    ensures !Destruct(s).broken
    ensures MemberOf(Destruct(s).out, lbl, w).lives - Responses(Destruct(s).out, lbl, w) == Owed(s, lbl, w)
  {
    var xs := DestroyEach(s.running, s.heap).0;
    LivePolled(s);
    DestroyLikeSweep(s.running, s.heap, Unseen, "", lbl, w);
    DestroyRegistersNone(s.running, s.heap);
    MemberStays(s.out, xs, lbl, w);
    ResponsesAppended(s.out, xs, lbl, w);
    SweepResponsesAre(s, Killed, lbl, w);
    assert lbl in s.bySeq ==> WritersKnown(s, s.bySeq[lbl]);
  }

  lemma DestructEndsAll(s: State, n: string)
    requires IndexesAgree(s) && Phases(s)
    ensures var ph := PhaseAfter(Unseen, Destruct(s).out, n);
            ph.Unseen? || ph.Ended?
  {
    LivePolled(s);
    assert PhaseIs(s, n, PhaseAfter(Unseen, s.out, n));
    PhaseAppended(Unseen, s.out, DestroyEach(s.running, s.heap).0, n);
    DestroyLikeSweep(s.running, s.heap, PhaseAfter(Unseen, s.out, n), n, 0, 0);
    SweepPhaseIs(s, Killed, n);
    if n in s.byName { CollectedIsTold(s, Killed, s.byName[n]); }
  }

  /**
   Every service that was started ended, in order, and each writer got exactly one response
   for each life it was registered in.
   */
  ghost predicate AllTold(out: seq<Out>) {
    && (forall lbl, w :: Responses(out, lbl, w) == MemberOf(out, lbl, w).lives)
    && (forall n :: Starts(out, n) == Ends(Unseen, out, n))
  }

  /**
   From start-up to destructor, whatever waitpid answers: each life a writer was registered in
   was told it or lost.
   */
  lemma WholeLifeOwes(es: seq<Event>, lbl: nat, w: int)
    requires EnvironmentRun(INITIAL, es)
    ensures var out := Destruct(Run(Intended, INITIAL, es)).out;
            Responses(out, lbl, w) + LostLives(INITIAL, es, lbl, w) == MemberOf(out, lbl, w).lives
    ensures !Destruct(Run(Intended, INITIAL, es)).broken
  {
    InitiallyConserved();
    RunKeepsAgreement(INITIAL, es);
    RunOwes(INITIAL, es, lbl, w);
    assert Owed(INITIAL, lbl, w) == 0;
    DestructOwes(Run(Intended, INITIAL, es), lbl, w);
  }

  /**
   From start-up to destructor, over every run: each service that was started ended, in
   order, and each writer got exactly one response for each life it was registered in,
   exactly if waitpid knew every child.
   */
  lemma WholeLife(es: seq<Event>)
    requires EnvironmentRun(INITIAL, es)
    ensures var s := Run(Intended, INITIAL, es);
            !Destruct(s).broken && (AllTold(Destruct(s).out) <==> ChildrenKnown(INITIAL, es))
  {
    hide Run, EnvironmentRun, ChildrenKnown, LostLives, Destruct, Responses, MemberOf, Starts, Ends;
    ghost var out := Destruct(Run(Intended, INITIAL, es)).out;
    InitiallyConserved();
    WholeLifeOwes(es, 0, 0);
    if ChildrenKnown(INITIAL, es) {
      WholeLifeEnds(es);
      forall lbl, w ensures Responses(out, lbl, w) == MemberOf(out, lbl, w).lives {
        WholeLifeOwes(es, lbl, w);
        KnownRunLosesNone(INITIAL, es, lbl, w);
      }
    } else {
      var lbl, w := UnknownRunLoses(INITIAL, es);
      WholeLifeOwes(es, lbl, w);
    }
  }

  lemma WholeLifeEnds(es: seq<Event>)
    requires EnvironmentRun(INITIAL, es) && ChildrenKnown(INITIAL, es)
    ensures var out := Destruct(Run(Intended, INITIAL, es)).out;
            forall n :: Starts(out, n) == Ends(Unseen, out, n)
  {
    InitiallyConserved();
    RunKeepsAgreement(INITIAL, es);
    KnownRunPhases(INITIAL, es);
    var s := Run(Intended, INITIAL, es);
    forall n ensures Starts(Destruct(s).out, n) == Ends(Unseen, Destruct(s).out, n) {
      DestructEndsAll(s, n);
      StartsMinusEnds(Unseen, Destruct(s).out, n);
    }
  }

  /**
   A label that was given once: if waitpid knew every child, each writer that registered with
   it got exactly one response, and nobody else got one.
   */
  lemma ToldOnce(es: seq<Event>, lbl: nat, w: int)
    requires EnvironmentRun(INITIAL, es) && ChildrenKnown(INITIAL, es)
    requires Lives(Destruct(Run(Intended, INITIAL, es)).out, lbl) <= 1
    ensures var out := Destruct(Run(Intended, INITIAL, es)).out;
            Responses(out, lbl, w) == if EverJoined(out, lbl, w) then 1 else 0
  {
    var s := Run(Intended, INITIAL, es);
    WholeLife(es);
    RunKeepsAgreement(INITIAL, es);
    RunCounted(INITIAL, es, lbl, w);
    DestructCounts(s, lbl, w);
    JoinedExactly(Member(false, 0), Destruct(s).out, lbl, w);
  }

  lemma DestructCounts(s: State, lbl: nat, w: int)
    requires IndexesAgree(s) && Counted(s, lbl, w)
    ensures MemberOf(Destruct(s).out, lbl, w).lives <= Lives(Destruct(s).out, lbl)
  {
    var xs := DestroyEach(s.running, s.heap).0;
    DestroyRegistersNone(s.running, s.heap);
    MemberStays(s.out, xs, lbl, w);
    LivesAppended(s.out, xs, lbl);
    NoLives(xs, lbl);
  }

  /** No service, and these outputs so far. */
  function Idle(out: seq<Out>): State {
    INITIAL.(out := out)
  }

  function LifeOutputs(c: Command, code: int): seq<Out>
    requires c.op.Start?
  {
    [Result(c.writer, c.sequence, c.name, ResultOk, StartedLabel(NewService(c).lbl)),
     Response(c.writer, NewService(c).lbl, c.name, StatusExit, code)]
  }

  /** A START whose service exits at once. */
  function StartsAndExits(c: Command, code: int): Event {
    Excute(c, _ => Exited(code))
  }

  /** The first service, just started. */
  function Born(out: seq<Out>, c: Command, code: int): State
    requires c.op.Start?
  {
    var p, sve := c.op.address, NewService(c);
    State([p], map[sve.lbl := p], map[sve.name := p], map[p := sve], out + [LifeOutputs(c, code)[0]], false)
  }

  lemma BornIs(out: seq<Out>, c: Command, code: int)
    requires c.op.Start? && c.op.pid > 0
    ensures BeforeSweep(Intended, Idle(out), StartsAndExits(c, code)) == Born(out, c, code)
    ensures IndexesAgree(Born(out, c, code))
  {
    BeforeSweepAgrees(Idle(out), StartsAndExits(c, code));
  }

  lemma ShortLife(out: seq<Out>, c: Command, code: int)
    requires c.op.Start? && c.op.pid > 0
    ensures Step(Intended, Idle(out), StartsAndExits(c, code)) == Idle(out + LifeOutputs(c, code))
  {
    hide IndexesAgree, Sweep, BeforeSweep;
    var b, ans, p := Born(out, c, code), StartsAndExits(c, code).ans, c.op.address;
    BornIs(out, c, code);
    SweepExactly(b, ans);
    assert Collected(b.heap, ans) == {p};
    var t := Sweep(Intended, b, ans);
    assert t.heap == map[] && t.bySeq == map[] && t.byName == map[] && t.running == [];
    assert ReapResponses(NewService(c), Exited(code)) == [LifeOutputs(c, code)[1]];
    assert t.out == out + [LifeOutputs(c, code)[0]] + [LifeOutputs(c, code)[1]];
  }

  /**
   The same START twice, with the same address from the allocator and an exit in between: the
   label comes back, and its writer is told twice, once for each life.
   */
  lemma RecycledLabelToldTwice(c: Command, code: int)
    requires c.op.Start? && c.op.pid > 0
    ensures var es := [StartsAndExits(c, code), StartsAndExits(c, code)];
            var out := Destruct(Run(Intended, INITIAL, es)).out;
            && EnvironmentRun(INITIAL, es) && ChildrenKnown(INITIAL, es)
            && Lives(out, NewService(c).lbl) == 2 && Responses(out, NewService(c).lbl, c.writer) == 2
  {
    var e, x, lbl := StartsAndExits(c, code), LifeOutputs(c, code), NewService(c).lbl;
    var es := [e, e];
    assert es[1..] == [e] && [e][1..] == [];
    assert INITIAL == Idle([]) && [] + x == x;
    ShortLife([], c, code);
    ShortLife(x, c, code);
    AnyLifeAllowed([], c, code);
    AnyLifeAllowed(x, c, code);
    hide Step, BeforeSweep, WaitKnows, Environment;
    OneEventKnown(Idle(x), e);
    assert Run(Intended, INITIAL, es) == Run(Intended, Idle(x), [e]) == Run(Intended, Idle(x + x), []);
    assert Destruct(Idle(x + x)).out == x + x;
    LivesAppended(x, x, lbl);
    ResponsesAppended(x, x, lbl, c.writer);
    assert x[1..] == [x[1]] && [x[1]][1..] == [];
  }

  lemma OneEventKnown(s: State, e: Event)
    requires Environment(s, e) && WaitKnows(BeforeSweep(Intended, s, e).heap, e.ans)
    ensures EnvironmentRun(s, [e]) && ChildrenKnown(s, [e])
  {
  }

  lemma AnyLifeAllowed(out: seq<Out>, c: Command, code: int)
    requires c.op.Start?
    ensures var s, e := Idle(out), StartsAndExits(c, code);
            Environment(s, e) && WaitKnows(BeforeSweep(Intended, s, e).heap, e.ans)
  {
  }

  // ---- lifecycle ----

  /** The moves of a record that is still there afterwards. */
  predicate Moves(a: ServiceState, b: ServiceState) {
    || a == b
    || (a.Running? && b.Paused?)
    || (a.Paused? && b.Running?)
    || ((a.Running? || a.Paused?) && b.FinishingUser?)
  }

  /** The state of the service with a label, while it has one. */
  function StateOf(s: State, lbl: nat): (r: ServiceState)
    requires lbl in s.bySeq && s.bySeq[lbl] in s.heap
  {
    s.heap[s.bySeq[lbl]].state
  }

  /** The event is a STOP of a running or paused service. */
  predicate AcceptsStop(s: State, e: Event, lbl: nat) {
    && e.Excute? && e.cmd.op == Stop(lbl)
    && lbl in s.bySeq && s.bySeq[lbl] in s.heap
    && (StateOf(s, lbl).Running? || StateOf(s, lbl).Paused?)
  }

  /** An accepted STOP happens somewhere in the run. */
  predicate StopAccepted(s: State, es: seq<Event>, lbl: nat)
    decreases es
  {
    es != [] && (AcceptsStop(s, es[0], lbl) || StopAccepted(Step(Intended, s, es[0]), es[1..], lbl))
  }

  /** What a command may do to the service labelled `lbl`. */
  ghost predicate Moved(s: State, t: State, lbl: nat, stopped: bool) {
    && lbl in s.bySeq && s.bySeq[lbl] in s.heap
    && lbl in t.bySeq && t.bySeq[lbl] == s.bySeq[lbl] && t.bySeq[lbl] in t.heap
    && Moves(StateOf(s, lbl), StateOf(t, lbl))
    && (StateOf(t, lbl).FinishingUser? ==> StateOf(s, lbl).FinishingUser? || stopped)
  }

  lemma LabelStepMoves(s: State, c: Command, target: nat, lbl: nat)
    requires MapsAgree(s) && !s.broken && lbl in s.bySeq
    requires c.op == Stop(target) || c.op == Pause(target) || c.op == Restart(target)
    ensures Moved(s, LabelStep(Intended, s, c, target), lbl,
                  c.op == Stop(lbl) && (StateOf(s, lbl).Running? || StateOf(s, lbl).Paused?))
  {
    if target in s.bySeq {
      assert s.bySeq[target] == s.bySeq[lbl] ==> target == lbl;
    }
  }

  lemma StartMoves(s: State, c: Command, lbl: nat)
    requires MapsAgree(s) && lbl in s.bySeq && c.op.Start?
    requires c.op.pid > 0 ==> c.op.address !in s.heap && NewService(c).lbl !in s.bySeq
    ensures Moved(s, StartStep(Intended, s, c), lbl, false)
  {
  }

  lemma InfoMoves(s: State, c: Command, lbl: nat)
    requires MapsAgree(s) && lbl in s.bySeq && c.op.Info?
    ensures Moved(s, InfoStep(s, c), lbl, false)
  {
  }

  lemma CommandMoves(s: State, e: Event, lbl: nat)
    requires IndexesAgree(s) && Environment(s, e) && lbl in s.bySeq
    ensures Moved(s, BeforeSweep(Intended, s, e), lbl, AcceptsStop(s, e, lbl))
  {
    AgreementGivesMaps(s);
    if e.Excute? {
      var c := e.cmd;
      match c.op
      case Start(_, _, _, _) => StartMoves(s, c, lbl);
      case Stop(l) => LabelStepMoves(s, c, l, lbl);
      case Pause(l) => LabelStepMoves(s, c, l, lbl);
      case Restart(l) => LabelStepMoves(s, c, l, lbl);
      case Info(_, _) => InfoMoves(s, c, lbl);
      case OtherOp =>
    }
  }

  /** A command brings no other new label than that of a service it starts running. */
  lemma NewLabelsRun(s: State, e: Event, lbl: nat)
    requires IndexesAgree(s) && Environment(s, e) && lbl !in s.bySeq
    ensures var b := BeforeSweep(Intended, s, e);
            lbl in b.bySeq ==> b.bySeq[lbl] in b.heap && StateOf(b, lbl).Running?
  {
  }

  /**
   One event on a service that outlives it: it stays, is paused, resumes from a pause, or is
   being stopped after a STOP was accepted. Nothing leads out of being stopped.
   */
  lemma Lifecycle(s: State, e: Event, lbl: nat)
    requires IndexesAgree(s) && Environment(s, e)
    requires lbl in s.bySeq && lbl in Step(Intended, s, e).bySeq
    ensures Moved(s, Step(Intended, s, e), lbl, AcceptsStop(s, e, lbl))
  {
    CommandMoves(s, e, lbl);
    BeforeSweepAgrees(s, e);
    SweepExactly(BeforeSweep(Intended, s, e), e.ans);
  }

  predicate UserEnd(o: Out, lbl: nat) {
    o.Response? && o.lbl == lbl && o.rstatus.StatusUser?
  }

  /** A USER response comes only from a record being stopped. */
  lemma {:induction false} UserEndsComeFrom(ptrs: seq<Ptr>, heap: map<Ptr, ServiceInfo>, ans: Answers, lbl: nat)
    requires forall p :: p in ptrs && p in heap && heap[p].lbl == lbl ==> !heap[p].state.FinishingUser?
    ensures forall o :: o in SweepResponses(ptrs, heap, ans) ==> !UserEnd(o, lbl)
  {
    if ptrs != [] { UserEndsComeFrom(ptrs[1..], heap, ans, lbl); }
  }

  /** No USER response went out for the label and its service is not being stopped. */
  ghost predicate NeverStopped(s: State, lbl: nat) {
    && (lbl in s.bySeq && s.bySeq[lbl] in s.heap ==> !StateOf(s, lbl).FinishingUser?)
    && forall o :: o in s.out ==> !UserEnd(o, lbl)
  }

  lemma CommandNeverStops(s: State, e: Event, lbl: nat)
    requires IndexesAgree(s) && Environment(s, e) && NeverStopped(s, lbl) && !AcceptsStop(s, e, lbl)
    ensures NeverStopped(BeforeSweep(Intended, s, e), lbl)
  {
    if lbl in s.bySeq { CommandMoves(s, e, lbl); } else { NewLabelsRun(s, e, lbl); }
    CommandAddsNoEnds(s, e);
    var b := BeforeSweep(Intended, s, e);
    assert b.out == s.out + b.out[|s.out|..];
  }

  /** The outputs `b` are `a` and more, with no response among what was added. */
  ghost predicate AddsNoEnds(a: seq<Out>, b: seq<Out>) {
    a <= b && forall o :: o in b[|a|..] ==> !o.Response?
  }

  lemma LabelStepAddsNoEnds(s: State, c: Command, target: nat)
    requires c.op.Stop? || c.op.Pause? || c.op.Restart?
    ensures AddsNoEnds(s.out, LabelStep(Intended, s, c, target).out)
  {
  }

  lemma ReplyAddsNoEnds(s: State, c: Command, status: ResultStatus, extra: Extra)
    ensures AddsNoEnds(s.out, Reply(s, c, status, extra).out)
  {
  }

  lemma StartAddsNoEnds(s: State, c: Command)
    requires c.op.Start?
    ensures AddsNoEnds(s.out, StartStep(Intended, s, c).out)
  {
    hide NewService;
  }

  lemma InfoAddsNoEnds(s: State, c: Command)
    requires c.op.Info?
    ensures AddsNoEnds(s.out, InfoStep(s, c).out)
  {
    hide AddWriter;
  }

  lemma CommandAddsNoEnds(s: State, e: Event)
    ensures AddsNoEnds(s.out, BeforeSweep(Intended, s, e).out)
  {
    if e.Uninit? { KillsSilent(s.running, s.heap, SIGINT); }
    if e.Excute? {
      match e.cmd.op
      case Start(_, _, _, _) => StartAddsNoEnds(s, e.cmd);
      case Info(_, _) => InfoAddsNoEnds(s, e.cmd);
      case OtherOp => ReplyAddsNoEnds(s, e.cmd, ResultFail, NoExtra);
      case Stop(l) => LabelStepAddsNoEnds(s, e.cmd, l);
      case Pause(l) => LabelStepAddsNoEnds(s, e.cmd, l);
      case Restart(l) => LabelStepAddsNoEnds(s, e.cmd, l);
    }
  }

  lemma StepNeverStops(s: State, e: Event, lbl: nat)
    requires IndexesAgree(s) && Environment(s, e) && NeverStopped(s, lbl) && !AcceptsStop(s, e, lbl)
    ensures NeverStopped(Step(Intended, s, e), lbl)
  {
    var b := BeforeSweep(Intended, s, e);
    CommandNeverStops(s, e, lbl);
    BeforeSweepAgrees(s, e);
    SweepExactly(b, e.ans);
    AgreementGivesMaps(b);
    UserEndsComeFrom(b.running, b.heap, e.ans, lbl);
  }

  /** A service is reported ended by its user only if a STOP of it was accepted while it ran or was paused. */
  lemma {:induction false} UserEndOnlyAfterStop(s: State, es: seq<Event>, lbl: nat)
    requires IndexesAgree(s) && EnvironmentRun(s, es) && NeverStopped(s, lbl)
    requires !NeverStopped(Run(Intended, s, es), lbl)
    ensures StopAccepted(s, es, lbl)
    decreases es
  {
    if es != [] && !AcceptsStop(s, es[0], lbl) {
      StepNeverStops(s, es[0], lbl);
      StepKeepsAgreement(s, es[0]);
      UserEndOnlyAfterStop(Step(Intended, s, es[0]), es[1..], lbl);
    }
  }
}
