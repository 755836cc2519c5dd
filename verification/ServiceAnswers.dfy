/**
 What each event of the service executor does, outright: the state a command leaves, the
 signals it sends, what its client is told, and what a service's end tells each writer by
 what waitpid answered. The commands are stated for the code as written too.
 */
module ServiceAnswers {
  import opened Labels
  import opened Sequences
  import opened ServiceSpec
  import opened ServiceTrace

  // ---- commands ----

  function ResultTo(c: Command, status: ResultStatus, extra: Extra): Out {
    Result(c.writer, c.sequence, c.name, status, extra)
  }

  /** The client is told that the command failed, and nothing else happens. */
  ghost predicate Refused(s: State, b: State, c: Command) {
    b == s.(out := s.out + [ResultTo(c, ResultFail, NoExtra)])
  }

  /**
   START: a name that is in use is answered so; a failed fork is a failure; else the service is
   in all three indexes under a label whose halves are the low words of sequence and address,
   with its own fields and its client as the one writer, and its client has the label.
   */
  lemma StartAnswered(mode: Mode, s: State, c: Command, ans: Answers)
    requires Environment(s, Excute(c, ans)) && c.op.Start?
    ensures var b, p := BeforeSweep(mode, s, Excute(c, ans)), c.op.address;
            var lbl := c.sequence % 0x1_0000_0000 + (p % 0x1_0000_0000) * 0x1_0000_0000;
            if c.name in s.byName then b == s.(out := s.out + [ResultTo(c, ResultExists, NoExtra)])
            else if mode.AsWritten? && |c.op.cmdLine| >= 128 then b.broken
            else if c.op.pid <= 0 then Refused(s, b, c)
            else
              var sve := ServiceInfo(c.name, c.op.pid, Running, c.op.cmdLine, [c.writer], lbl, c.op.flags);
              b == State(s.running + [p], s.bySeq[lbl := p], s.byName[c.name := p], s.heap[p := sve],
                         s.out + [ResultTo(c, ResultOk, StartedLabel(lbl))], s.broken)
  {
  }

  /** A record with another state, its process signalled, and the client told that all is well. */
  function Signalled(s: State, c: Command, p: Ptr, sig: int, state: ServiceState): State
    requires p in s.heap
  {
    s.(heap := s.heap[p := s.heap[p].(state := state)],
       out := s.out + [Kill(s.heap[p].lbl, s.heap[p].pid, sig), ResultTo(c, ResultOk, NoExtra)])
  }

  /** STOP: SIGTERM to a running or paused service, which is then being stopped; any other is left alone, with OK. */
  lemma StopAnswered(mode: Mode, s: State, c: Command, ans: Answers, lbl: nat)
    requires c.op == Stop(lbl) && (lbl in s.bySeq ==> s.bySeq[lbl] in s.heap)
    ensures var b := BeforeSweep(mode, s, Excute(c, ans));
            if lbl !in s.bySeq then Refused(s, b, c)
            else if StateOf(s, lbl).Running? || StateOf(s, lbl).Paused?
            then b == Signalled(s, c, s.bySeq[lbl], 15, FinishingUser)
            else b == s.(out := s.out + [ResultTo(c, ResultOk, NoExtra)])
  {
  }

  /** PAUSE: SIGSTOP to a running service, which is then paused; else a failure. */
  lemma PauseAnswered(mode: Mode, s: State, c: Command, ans: Answers, lbl: nat)
    requires c.op == Pause(lbl) && (lbl in s.bySeq ==> s.bySeq[lbl] in s.heap)
    ensures var b := BeforeSweep(mode, s, Excute(c, ans));
            if lbl in s.bySeq && StateOf(s, lbl).Running? then b == Signalled(s, c, s.bySeq[lbl], 19, Paused)
            else Refused(s, b, c)
  {
  }

  /** RESTART: SIGCONT to a paused service, which then runs, once more in the vector as written; else a failure. */
  lemma RestartAnswered(mode: Mode, s: State, c: Command, ans: Answers, lbl: nat)
    requires c.op == Restart(lbl) && (lbl in s.bySeq ==> s.bySeq[lbl] in s.heap)
    ensures var b := BeforeSweep(mode, s, Excute(c, ans));
            if lbl in s.bySeq && StateOf(s, lbl).Paused? then
              var t := Signalled(s, c, s.bySeq[lbl], 18, Running);
              b == if mode.AsWritten? then t.(running := s.running + [s.bySeq[lbl]]) else t
            else Refused(s, b, c)
  {
  }

  /**
   INFO: exactly if it asks by name for a service that is there with these flags, the client
   gets its label and state and becomes a writer, once; else a failure.
   */
  lemma InfoAnswered(mode: Mode, s: State, c: Command, ans: Answers)
    requires c.op.Info? && (c.name in s.byName ==> s.byName[c.name] in s.heap)
    ensures var b := BeforeSweep(mode, s, Excute(c, ans));
            if c.op.byName && c.name in s.byName && s.heap[s.byName[c.name]].flags == c.op.infoFlags then
              var p, sve := s.byName[c.name], s.heap[s.byName[c.name]];
              b == s.(heap := s.heap[p := sve.(writers := if c.writer in sve.writers then sve.writers
                                                          else sve.writers + [c.writer])],
                      out := s.out + [ResultTo(c, ResultOk, InfoOf(sve.lbl, sve.state))])
            else Refused(s, b, c)
  {
  }

  lemma OtherAnswered(mode: Mode, s: State, c: Command, ans: Answers)
    requires c.op.OtherOp?
    ensures Refused(s, BeforeSweep(mode, s, Excute(c, ans)), c)
    ensures BeforeSweep(mode, s, Timeout(ans)) == s
  {
  }

  lemma {:induction false} KillsEach(ptrs: seq<Ptr>, heap: map<Ptr, ServiceInfo>, sig: int)
    requires forall p :: p in ptrs ==> p in heap
    ensures |KillAll(ptrs, heap, sig)| == |ptrs|
    ensures forall i :: 0 <= i < |ptrs| ==>
              KillAll(ptrs, heap, sig)[i] == Kill(heap[ptrs[i]].lbl, heap[ptrs[i]].pid, sig)
    decreases ptrs
  {
    if ptrs != [] {
      KillsEach(ptrs[1..], heap, sig);
      var rest := KillAll(ptrs[1..], heap, sig);
      forall i | 0 <= i < |ptrs| ensures ([Kill(heap[ptrs[0]].lbl, heap[ptrs[0]].pid, sig)] + rest)[i]
                                         == Kill(heap[ptrs[i]].lbl, heap[ptrs[i]].pid, sig) {
        if i > 0 { assert rest[i - 1] == Kill(heap[ptrs[1..][i - 1]].lbl, heap[ptrs[1..][i - 1]].pid, sig); }
      }
    }
  }

  /** Shutting down: SIGINT to every service, in order, and nothing else before the sweep. */
  lemma UninitAnswered(mode: Mode, s: State, ans: Answers)
    requires forall p :: p in s.running ==> p in s.heap
    ensures var b := BeforeSweep(mode, s, Uninit(ans));
            && b == s.(out := b.out) && s.out <= b.out && |b.out| == |s.out| + |s.running|
            && forall i :: 0 <= i < |s.running| ==>
                 b.out[|s.out| + i] == Kill(s.heap[s.running[i]].lbl, s.heap[s.running[i]].pid, 2)
  {
    KillsEach(s.running, s.heap, SIGINT);
  }

  // ---- ends ----

  /** One response to each writer, in order. */
  function ToEach(writers: seq<int>, sve: ServiceInfo, status: ResponseStatus, code: int): seq<Out> {
    if writers == [] then []
    else [Response(writers[0], sve.lbl, sve.name, status, code)] + ToEach(writers[1..], sve, status, code)
  }

  lemma {:induction false} ResponsesAreToEach(writers: seq<int>, sve: ServiceInfo, status: ResponseStatus, code: int)
    ensures ResponsesTo(writers, sve, status, code) == ToEach(writers, sve, status, code)
    decreases writers
  {
    if writers != [] {
      assert ResponsesTo(writers, sve, status, code)[1..] == ResponsesTo(writers[1..], sve, status, code);
      ResponsesAreToEach(writers[1..], sve, status, code);
    }
  }

  /** The responses about a label, in order. */
  function About(out: seq<Out>, lbl: nat): seq<Out> {
    if out == [] then []
    else (if out[0].Response? && out[0].lbl == lbl then [out[0]] else []) + About(out[1..], lbl)
  }

  lemma {:induction false} AboutAppended(a: seq<Out>, b: seq<Out>, lbl: nat)
    ensures About(a + b, lbl) == About(a, lbl) + About(b, lbl)
  {
    if a == [] {
      assert a + b == b;
    } else {
      assert (a + b)[1..] == a[1..] + b;
      AboutAppended(a[1..], b, lbl);
    }
  }

  lemma {:induction false} AboutToEach(writers: seq<int>, sve: ServiceInfo, status: ResponseStatus, code: int, lbl: nat)
    ensures About(ToEach(writers, sve, status, code), lbl)
            == if sve.lbl == lbl then ToEach(writers, sve, status, code) else []
    decreases writers
  {
    if writers != [] {
      var rest := ToEach(writers[1..], sve, status, code);
      AboutToEach(writers[1..], sve, status, code, lbl);
      assert ToEach(writers, sve, status, code)[1..] == rest;
    }
  }

  lemma AboutReap(sve: ServiceInfo, a: Answer, lbl: nat)
    ensures About(ReapResponses(sve, a), lbl) == if sve.lbl == lbl then ReapResponses(sve, a) else []
  {
    if Polled(sve.state) && HasStatus(a) {
      var c := Classify(sve.state, a);
      ResponsesAreToEach(sve.writers, sve, c.1, c.2);
      AboutToEach(sve.writers, sve, c.1, c.2, lbl);
    }
  }

  lemma {:induction false} SweepAboutNone(ptrs: seq<Ptr>, heap: map<Ptr, ServiceInfo>, ans: Answers, lbl: nat)
    requires forall p :: p in ptrs ==> p in heap && heap[p].lbl != lbl
    ensures About(SweepResponses(ptrs, heap, ans), lbl) == []
    decreases ptrs
  {
    if ptrs != [] {
      hide ReapResponses;
      var sve, a := heap[ptrs[0]], ans(heap[ptrs[0]].pid);
      AboutAppended(ReapResponses(sve, a), SweepResponses(ptrs[1..], heap, ans), lbl);
      AboutReap(sve, a, lbl);
      SweepAboutNone(ptrs[1..], heap, ans, lbl);
    }
  }

  lemma {:induction false} SweepAbout(ptrs: seq<Ptr>, heap: map<Ptr, ServiceInfo>, ans: Answers, p: Ptr)
    requires NoDuplicates(ptrs) && p in ptrs && forall q :: q in ptrs ==> q in heap
    requires forall q :: q in ptrs && q != p ==> heap[q].lbl != heap[p].lbl
    ensures About(SweepResponses(ptrs, heap, ans), heap[p].lbl) == ReapResponses(heap[p], ans(heap[p].pid))
    decreases ptrs
  {
    hide ReapResponses;
    var sve, a := heap[ptrs[0]], ans(heap[ptrs[0]].pid);
    AboutAppended(ReapResponses(sve, a), SweepResponses(ptrs[1..], heap, ans), heap[p].lbl);
    AboutReap(sve, a, heap[p].lbl);
    HeadNotInTail(ptrs);
    if ptrs[0] == p {
      SweepAboutNone(ptrs[1..], heap, ans, heap[p].lbl);
    } else {
      SweepAbout(ptrs[1..], heap, ans, p);
    }
  }

  /** Between two states, these responses about the record's label went out and no other. */
  ghost predicate Told(b: State, t: State, sve: ServiceInfo, ends: seq<Out>) {
    b.out <= t.out && About(t.out[|b.out|..], sve.lbl) == ends
  }

  lemma ReapIs(sve: ServiceInfo, a: Answer)
    requires LiveState(sve.state)
    ensures a.Exited? ==> ReapResponses(sve, a) == ToEach(sve.writers, sve, StatusExit, a.code)
    ensures a.Signaled? && sve.state.FinishingUser? && a.sig == 15 ==>
              ReapResponses(sve, a) == ToEach(sve.writers, sve, StatusUser, 0)
    ensures a.Signaled? && !(sve.state.FinishingUser? && a.sig == 15) ==>
              ReapResponses(sve, a) == ToEach(sve.writers, sve, StatusSignal, a.sig)
    ensures a.OtherStatus? ==> ReapResponses(sve, a) == ToEach(sve.writers, sve, StatusUnknown, a.status)
    ensures a.StillRunning? || a.NoChild? || a.WaitFailed? ==> ReapResponses(sve, a) == []
  {
    if HasStatus(a) {
      var c := Classify(sve.state, a);
      ResponsesAreToEach(sve.writers, sve, c.1, c.2);
    }
  }

  /** What one record's end puts out, by what waitpid answers. */
  function EndOf(sve: ServiceInfo, a: Answer): seq<Out> {
    match a
    case Exited(code) => ToEach(sve.writers, sve, StatusExit, code)
    case Signaled(sig) =>
      if sve.state.FinishingUser? && sig == 15 then ToEach(sve.writers, sve, StatusUser, 0)
      else ToEach(sve.writers, sve, StatusSignal, sig)
    case OtherStatus(status) => ToEach(sve.writers, sve, StatusUnknown, status)
    case _ => []
  }

  function EndsOf(ptrs: seq<Ptr>, heap: map<Ptr, ServiceInfo>, ans: Answers): seq<Out>
    requires forall p :: p in ptrs ==> p in heap
  {
    if ptrs == [] then [] else EndOf(heap[ptrs[0]], ans(heap[ptrs[0]].pid)) + EndsOf(ptrs[1..], heap, ans)
  }

  lemma {:induction false} SweepResponsesAreEnds(ptrs: seq<Ptr>, heap: map<Ptr, ServiceInfo>, ans: Answers)
    requires forall p :: p in ptrs ==> p in heap && LiveState(heap[p].state)
    ensures SweepResponses(ptrs, heap, ans) == EndsOf(ptrs, heap, ans)
    decreases ptrs
  {
    if ptrs != [] {
      ReapIs(heap[ptrs[0]], ans(heap[ptrs[0]].pid));
      SweepResponsesAreEnds(ptrs[1..], heap, ans);
    }
  }

  /** All of a sweep's output: record by record in the order of the vector. */
  lemma EndsInOrder(s: State, e: Event)
    requires IndexesAgree(s) && Environment(s, e)
    ensures var b := BeforeSweep(Intended, s, e);
            && (forall p :: p in b.running ==> p in b.heap)
            && Step(Intended, s, e).out == b.out + EndsOf(b.running, b.heap, e.ans)
  {
    assert !s.broken;
    hide BeforeSweep, Sweep;
    var b := BeforeSweep(Intended, s, e);
    BeforeSweepAgrees(s, e);
    SweepExactly(b, e.ans);
    forall p | p in b.running ensures p in b.heap && LiveState(b.heap[p].state) { Live(b, p); }
    SweepResponsesAreEnds(b.running, b.heap, e.ans);
  }

  lemma SweepTellsOf(b: State, ans: Answers, p: Ptr)
    requires IndexesAgree(b) && p in b.heap
    ensures LiveState(b.heap[p].state)
    ensures Told(b, Sweep(Intended, b, ans), b.heap[p], ReapResponses(b.heap[p], ans(b.heap[p].pid)))
  {
    SweepExactly(b, ans);
    AgreementGivesMaps(b);
    assert RecordOk(b, p);
    SweepAbout(b.running, b.heap, ans, p);
    var xs := SweepResponses(b.running, b.heap, ans);
    assert (b.out + xs)[|b.out|..] == xs;
  }

  /**
   Every service there is when the sweep begins, in every event: by what waitpid answers for
   it, each of its writers is told its exit code, that its user stopped it, the signal, or the
   unknown status, in this order of tests; and for no other answer anything.
   */
  lemma EndIsTold(s: State, e: Event, p: Ptr)
    requires IndexesAgree(s) && Environment(s, e) && p in BeforeSweep(Intended, s, e).heap
    ensures var b, t := BeforeSweep(Intended, s, e), Step(Intended, s, e);
            var sve, a := b.heap[p], e.ans(b.heap[p].pid);
            && (a.Exited? ==> Told(b, t, sve, ToEach(sve.writers, sve, StatusExit, a.code)))
            && (a.Signaled? && sve.state.FinishingUser? && a.sig == 15 ==>
                  Told(b, t, sve, ToEach(sve.writers, sve, StatusUser, 0)))
            && (a.Signaled? && !(sve.state.FinishingUser? && a.sig == 15) ==>
                  Told(b, t, sve, ToEach(sve.writers, sve, StatusSignal, a.sig)))
            && (a.OtherStatus? ==> Told(b, t, sve, ToEach(sve.writers, sve, StatusUnknown, a.status)))
            && (a.StillRunning? || a.NoChild? || a.WaitFailed? ==> Told(b, t, sve, []))
  {
    hide Told, Sweep, BeforeSweep, ReapResponses;
    var b := BeforeSweep(Intended, s, e);
    BeforeSweepAgrees(s, e);
    assert !b.broken;
    SweepTellsOf(b, e.ans, p);
    ReapIs(b.heap[p], e.ans(b.heap[p].pid));
  }

  /** ... and it stays, unchanged, exactly if waitpid still finds it running or fails; else it leaves all indexes. */
  lemma EndLeaves(s: State, e: Event, p: Ptr)
    requires IndexesAgree(s) && Environment(s, e) && p in BeforeSweep(Intended, s, e).heap
    ensures var b, t := BeforeSweep(Intended, s, e), Step(Intended, s, e);
            var sve, a := b.heap[p], e.ans(b.heap[p].pid);
            && (p in t.heap <==> a.StillRunning? || a.WaitFailed?)
            && (p in t.heap ==> t.heap[p] == sve)
            && (p in t.running <==> p in t.heap)
            && (sve.lbl in t.bySeq <==> p in t.heap) && (sve.name in t.byName <==> p in t.heap)
  {
    assert !s.broken;
    hide BeforeSweep, Sweep, IndexesAgree;
    var b := BeforeSweep(Intended, s, e);
    BeforeSweepAgrees(s, e);
    SweepLeaves(b, e.ans, p);
  }

  lemma SweepLeaves(b: State, ans: Answers, p: Ptr)
    requires IndexesAgree(b) && p in b.heap
    ensures var t, sve, a := Sweep(Intended, b, ans), b.heap[p], ans(b.heap[p].pid);
            && (p in t.heap <==> a.StillRunning? || a.WaitFailed?)
            && (p in t.heap ==> t.heap[p] == sve)
            && (p in t.running <==> p in t.heap)
            && (sve.lbl in t.bySeq <==> p in t.heap) && (sve.name in t.byName <==> p in t.heap)
  {
    Live(b, p);
    CollectedIsTold(b, ans, p);
    SweepExactly(b, ans);
    SurvivorsExactly(b.running, Collected(b.heap, ans));
    hide IndexesAgree, Sweep, Survivors, Collected, SweepResponses, ReapResponses, LiveState, Polled;
  }

  /**
   A sweep asks waitpid about the records that have not ended, and collects those that have by
   now and those that waitpid does not know.
   */
  lemma PolledExactly(sve: ServiceInfo, a: Answer)
    ensures Collects(sve, a) <==>
              && (sve.state.Paused? || sve.state.Running? || sve.state.Stoped? || sve.state.FinishingUser?)
              && (a.Exited? || a.Signaled? || a.OtherStatus? || a.NoChild?)
    ensures !Collects(sve, a) || a.NoChild? ==> Reaped(sve, a) == sve && ReapResponses(sve, a) == []
  {
  }

  /** Between the two loops of a sweep, a record that ended says how. */
  lemma ScanMarks(s: State, ans: Answers, p: Ptr)
    requires IndexesAgree(s) && p in s.heap
    ensures p in Scanned(s, ans).heap
    ensures var sve, a := s.heap[p], ans(s.heap[p].pid);
            Scanned(s, ans).heap[p]
            == if a == Exited(0) then sve.(state := Finished)
               else if a.Exited? then sve.(state := Died)
               else if a == Signaled(15) && sve.state.FinishingUser? then sve.(state := FinishedUser)
               else if a.Signaled? then sve.(state := DiedSignal)
               else if a.OtherStatus? then sve.(state := DiedUnknown)
               else sve
  {
    Live(s, p);
    ScanExactly(s.running, 0, s.heap, ans);
    hide IndexesAgree, RecordOk, ScanFrom, SweepResponses, Positions, Collected;
    ReapedIs(s.heap[p], ans(s.heap[p].pid));
    hide Reaped;
  }

  lemma ReapedIs(sve: ServiceInfo, a: Answer)
    requires LiveState(sve.state)
    ensures Reaped(sve, a)
            == if a == Exited(0) then sve.(state := Finished)
               else if a.Exited? then sve.(state := Died)
               else if a == Signaled(15) && sve.state.FinishingUser? then sve.(state := FinishedUser)
               else if a.Signaled? then sve.(state := DiedSignal)
               else if a.OtherStatus? then sve.(state := DiedUnknown)
               else sve
  {
  }

  lemma Live(b: State, p: Ptr)
    requires IndexesAgree(b) && p in b.heap
    ensures RecordOk(b, p) && p in b.running && LiveState(b.heap[p].state) && !b.broken
  {
  }

  /** Everything the sweep puts out is a response, after what the event put out; and no record comes with it. */
  lemma SweepOnlyEnds(s: State, e: Event)
    requires IndexesAgree(s) && Environment(s, e)
    ensures var b, t := BeforeSweep(Intended, s, e), Step(Intended, s, e);
            && b.out <= t.out && (forall o :: o in t.out[|b.out|..] ==> o.Response?)
            && (forall p :: p in t.heap ==> p in b.heap)
  {
    var b := BeforeSweep(Intended, s, e);
    BeforeSweepAgrees(s, e);
    hide BeforeSweep, Sweep;
    SweepExactly(b, e.ans);
    SweepOnlyResponds(b.running, b.heap, e.ans);
    var xs := SweepResponses(b.running, b.heap, e.ans);
    assert (b.out + xs)[|b.out|..] == xs;
  }

  /** What the executor puts out for one record when it is destroyed. */
  function Farewell(sve: ServiceInfo): seq<Out> {
    [Kill(sve.lbl, sve.pid, 9)] + ToEach(sve.writers, sve, StatusSignal, 0)
  }

  function Farewells(ptrs: seq<Ptr>, heap: map<Ptr, ServiceInfo>): seq<Out>
    requires forall p :: p in ptrs ==> p in heap
  {
    if ptrs == [] then [] else Farewell(heap[ptrs[0]]) + Farewells(ptrs[1..], heap)
  }

  lemma {:induction false} FarewellsDepend(ptrs: seq<Ptr>, heap: map<Ptr, ServiceInfo>, h: map<Ptr, ServiceInfo>)
    requires forall p :: p in ptrs ==> p in heap && p in h && h[p] == heap[p]
    ensures Farewells(ptrs, heap) == Farewells(ptrs, h)
    decreases ptrs
  {
    if ptrs != [] { FarewellsDepend(ptrs[1..], heap, h); }
  }

  lemma {:induction false} DestroysEach(ptrs: seq<Ptr>, heap: map<Ptr, ServiceInfo>)
    requires NoDuplicates(ptrs) && forall p :: p in ptrs ==> p in heap
    ensures DestroyEach(ptrs, heap) == (Farewells(ptrs, heap), false)
    decreases ptrs
  {
    if ptrs != [] {
      var sve, h := heap[ptrs[0]], heap - {ptrs[0]};
      HeadNotInTail(ptrs);
      ResponsesAreToEach(sve.writers, sve, StatusSignal, 0);
      DestroysEach(ptrs[1..], h);
      FarewellsDepend(ptrs[1..], heap, h);
    }
  }

  /** The destructor: SIGKILL and a response to each writer, for every service in order; then nothing is left. */
  lemma DestructAnswered(s: State)
    requires IndexesAgree(s)
    ensures Destruct(s) == State([], map[], map[], map[], s.out + Farewells(s.running, s.heap), false)
  {
    DestroysEach(s.running, s.heap);
  }

  // ---- a stop, and the end it leads to ----

  /** The state in which the sweep of the last event begins. */
  function BeforeLastSweep(s: State, es: seq<Event>): State
    requires es != []
    decreases es
  {
    if |es| == 1 then BeforeSweep(Intended, s, es[0]) else BeforeLastSweep(Step(Intended, s, es[0]), es[1..])
  }

  /** The service is there after each event but the last. */
  predicate AliveUntilLast(s: State, es: seq<Event>, lbl: nat)
    decreases es
  {
    |es| > 1 ==> lbl in Step(Intended, s, es[0]).bySeq && AliveUntilLast(Step(Intended, s, es[0]), es[1..], lbl)
  }

  /** The service is being stopped. */
  predicate Finishing(s: State, lbl: nat) {
    lbl in s.bySeq && s.bySeq[lbl] in s.heap && StateOf(s, lbl).FinishingUser?
  }

  lemma FinishingStays(s: State, e: Event, lbl: nat)
    requires IndexesAgree(s) && Environment(s, e) && Finishing(s, lbl)
    ensures Finishing(BeforeSweep(Intended, s, e), lbl)
    ensures lbl in Step(Intended, s, e).bySeq ==> Finishing(Step(Intended, s, e), lbl)
  {
    CommandMoves(s, e, lbl);
    if lbl in Step(Intended, s, e).bySeq { Lifecycle(s, e, lbl); }
  }

  lemma AcceptedFinishes(s: State, e: Event, lbl: nat)
    requires IndexesAgree(s) && Environment(s, e) && AcceptsStop(s, e, lbl)
    ensures Finishing(BeforeSweep(Intended, s, e), lbl)
    ensures lbl in Step(Intended, s, e).bySeq ==> Finishing(Step(Intended, s, e), lbl)
  {
    StopAnswered(Intended, s, e.cmd, e.ans, lbl);
    var b := BeforeSweep(Intended, s, e);
    BeforeSweepAgrees(s, e);
    SweepExactly(b, e.ans);
  }

  lemma FinishedIsTold(s: State, e: Event, lbl: nat)
    requires IndexesAgree(s) && Environment(s, e) && Finishing(BeforeSweep(Intended, s, e), lbl)
    ensures var b := BeforeSweep(Intended, s, e);
            var sve := b.heap[b.bySeq[lbl]];
            && sve.lbl == lbl
            && (e.ans(sve.pid) == Signaled(15) ==>
                  Told(b, Step(Intended, s, e), sve, ToEach(sve.writers, sve, StatusUser, 0)))
  {
    hide BeforeSweep, Step, Told;
    BeforeSweepAgrees(s, e);
    EndIsTold(s, e, BeforeSweep(Intended, s, e).bySeq[lbl]);
  }

  /**
   A STOP is accepted, the service is found dead of SIGTERM by some later sweep or the same
   one, and is there until then: then each writer it has by then is told that its user stopped
   it, once, and nothing else.
   */
  lemma {:induction false} StopIsAnsweredUser(s: State, es: seq<Event>, lbl: nat)
    requires IndexesAgree(s) && EnvironmentRun(s, es) && es != [] && AliveUntilLast(s, es, lbl)
    requires AcceptsStop(s, es[0], lbl) || Finishing(s, lbl)
    ensures var b := BeforeLastSweep(s, es);
            && lbl in b.bySeq && b.bySeq[lbl] in b.heap
            && var sve := b.heap[b.bySeq[lbl]];
               && sve.lbl == lbl
               && (es[|es| - 1].ans(sve.pid) == Signaled(15) ==>
                     Told(b, Run(Intended, s, es), sve, ToEach(sve.writers, sve, StatusUser, 0)))
    decreases es
  {
    hide BeforeSweep, Step, Told, AcceptsStop;
    var t := Step(Intended, s, es[0]);
    if AcceptsStop(s, es[0], lbl) { AcceptedFinishes(s, es[0], lbl); } else { FinishingStays(s, es[0], lbl); }
    if |es| == 1 {
      FinishedIsTold(s, es[0], lbl);
      assert es[1..] == [] && Run(Intended, t, []) == t;
    } else {
      StepKeepsAgreement(s, es[0]);
      StopIsAnsweredUser(t, es[1..], lbl);
    }
  }
}
