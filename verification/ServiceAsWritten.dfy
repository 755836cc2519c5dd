/**
 When the service executor as it is written does what it is for. START copies a command that
 may not fit its buffer; RESTART of a paused service pushes a second entry for it; the sweep
 erases positions saved before its own erasures shifted them. The runs without any of these
 are exactly the runs in which the code and its intended form go through the same states.
 */
module ServiceAsWritten {
  import opened Sequences
  import opened ServiceSpec

  /** RESTART finds its record paused. */
  predicate RestartsPaused(s: State, e: Event) {
    && e.Excute? && e.cmd.op.Restart?
    && e.cmd.op.lbl in s.bySeq && s.bySeq[e.cmd.op.lbl] in s.heap
    && s.heap[s.bySeq[e.cmd.op.lbl]].state.Paused?
  }

  /** START of a new name with a command that does not fit the buffer. */
  predicate OverrunsBuffer(s: State, e: Event) {
    e.Excute? && e.cmd.op.Start? && e.cmd.name !in s.byName && !CommandFits(e.cmd.op.cmdLine)
  }

  predicate AtMostOne(gone: set<Ptr>) {
    forall p, q :: p in gone && q in gone ==> p == q
  }

  /** No START with too long a command, no RESTART of a paused service, and at most one record collected. */
  predicate Harmless(s: State, e: Event) {
    !OverrunsBuffer(s, e) && !RestartsPaused(s, e) && AtMostOne(Collected(BeforeSweep(Intended, s, e).heap, e.ans))
  }

  predicate HarmlessRun(s: State, es: seq<Event>)
    decreases es
  {
    es != [] ==> Harmless(s, es[0]) && HarmlessRun(Step(Intended, s, es[0]), es[1..])
  }

  /** Both forms are in the same state now and after every further event. */
  ghost predicate SameRun(s: State, s': State, es: seq<Event>)
    decreases es
  {
    s == s' && (es != [] ==> SameRun(Step(AsWritten, s, es[0]), Step(Intended, s', es[0]), es[1..]))
  }

  // ---- saved positions ----

  lemma {:induction false} PositionsExactly(ptrs: seq<Ptr>, pos: nat, gone: set<Ptr>)
    ensures var gc := Positions(ptrs, pos, gone);
            && (forall j :: 0 <= j < |gc| ==> pos <= gc[j] < pos + |ptrs| && ptrs[gc[j] - pos] in gone)
            && (forall i, j :: 0 <= i < j < |gc| ==> gc[i] < gc[j])
            && (|gc| == 0 ==> forall p :: p in ptrs ==> p !in gone)
    decreases ptrs
  {
    if ptrs != [] {
      PositionsExactly(ptrs[1..], pos + 1, gone);
      assert ptrs == [ptrs[0]] + ptrs[1..];
    }
  }

  lemma {:induction false} FewPositions(ptrs: seq<Ptr>, pos: nat, gone: set<Ptr>)
    requires NoDuplicates(ptrs) && forall p :: p in gone ==> p in ptrs
    ensures |Positions(ptrs, pos, gone)| <= 1 <==> AtMostOne(gone)
  {
    var gc := Positions(ptrs, pos, gone);
    PositionsExactly(ptrs, pos, gone);
    if |gc| >= 2 {
      assert ptrs[gc[0] - pos] != ptrs[gc[1] - pos];
    } else {
      OnePosition(ptrs, pos, gone);
    }
  }

  lemma {:induction false} OnePosition(ptrs: seq<Ptr>, pos: nat, gone: set<Ptr>)
    requires |Positions(ptrs, pos, gone)| <= 1
    ensures forall p, q :: p in ptrs && q in ptrs && p in gone && q in gone ==> p == q
    decreases ptrs
  {
    if ptrs != [] {
      assert ptrs == [ptrs[0]] + ptrs[1..];
      OnePosition(ptrs[1..], pos + 1, gone);
      PositionsExactly(ptrs[1..], pos + 1, gone);
    }
  }

  /** Erasing only behind a position keeps the entry there. */
  lemma {:induction false} EntryBeforeStays(s: State, gc: seq<nat>, done: nat, i: nat)
    requires i < |s.running| && forall j :: 0 <= j < |gc| ==> gc[j] > i
    ensures var t := EraseFrom(AsWritten, s, gc, done);
            !t.broken ==> i < |t.running| && t.running[i] == s.running[i]
    decreases gc
  {
    if !s.broken && gc != [] {
      var u := EraseAt(s, gc[0]);
      if !u.broken {
        EntryBeforeStays(u, gc[1..], done + 1, i);
      }
    }
  }

  lemma {:induction false} EraseLength(mode: Mode, s: State, gc: seq<nat>, done: nat)
    ensures var t := EraseFrom(mode, s, gc, done);
            !t.broken ==> |t.running| == |s.running| - |gc|
    decreases gc
  {
    if !s.broken && gc != [] {
      EraseLength(mode, EraseAt(s, if mode.AsWritten? then gc[0] else gc[0] - done), gc[1..], done + 1);
    }
  }

  lemma {:induction false} EraseAppended(s: State, gc: seq<nat>, n: nat, done: nat)
    ensures EraseFrom(AsWritten, s, gc + [n], done)
            == EraseFrom(AsWritten, EraseFrom(AsWritten, s, gc, done), [n], done + |gc|)
    decreases gc
  {
    if s.broken {
    } else if gc == [] {
      assert gc + [n] == [n];
    } else {
      assert (gc + [n])[1..] == gc[1..] + [n];
      EraseAppended(EraseAt(s, gc[0]), gc[1..], n, done + 1);
    }
  }

  // ---- the sweep ----

  lemma SweepErasesPositions(mode: Mode, s: State, ans: Answers)
    requires IndexesAgree(s)
    ensures Sweep(mode, s, ans)
            == EraseFrom(mode, Scanned(s, ans), Positions(s.running, 0, Collected(s.heap, ans)), 0)
  {
    ScanExactly(s.running, 0, s.heap, ans);
  }

  /** Erasing saved positions in ascending order never reaches the second entry saved. */
  lemma SecondSavedStays(u: State, gc: seq<nat>)
    requires |gc| >= 2 && gc[1] < |u.running| && forall i, j :: 0 <= i < j < |gc| ==> gc[i] < gc[j]
    requires !u.broken
    ensures var t := EraseFrom(AsWritten, u, gc, 0);
            !t.broken ==> u.running[gc[1]] in t.running
  {
    var v := EraseAt(u, gc[0]);
    assert EraseFrom(AsWritten, u, gc, 0) == EraseFrom(AsWritten, v, gc[1..], 1);
    if !v.broken {
      assert v.running[gc[1] - 1] == u.running[gc[1]];
      EntryBeforeStays(v, gc[1..], 1, gc[1] - 1);
    }
  }

  lemma CollectedGoes(s: State, ans: Answers, p: Ptr)
    requires IndexesAgree(s) && p in Collected(s.heap, ans)
    ensures p !in Sweep(Intended, s, ans).running && !Sweep(Intended, s, ans).broken
  {
    SweepErases(s, ans);
    SurvivorsExactly(s.running, Collected(s.heap, ans));
  }

  lemma SweepIs(mode: Mode, s: State, ans: Answers)
    requires !s.broken && !ScanFrom(s.running, 0, s.heap, ans).broken
    ensures Sweep(mode, s, ans) == EraseFrom(mode, Scanned(s, ans), ScanFrom(s.running, 0, s.heap, ans).gc, 0)
  {
  }

  lemma SecondSavedRemains(s: State, ans: Answers, gc: seq<nat>, t: State)
    requires !s.broken && !ScanFrom(s.running, 0, s.heap, ans).broken && ScanFrom(s.running, 0, s.heap, ans).gc == gc
    requires |gc| >= 2 && gc[1] < |s.running| && forall i, j :: 0 <= i < j < |gc| ==> gc[i] < gc[j]
    requires !t.broken && s.running[gc[1]] !in t.running
    ensures Sweep(AsWritten, s, ans) != t
  {
    SweepIs(AsWritten, s, ans);
    SecondSavedStays(Scanned(s, ans), gc);
  }

  lemma TwoPositions(ptrs: seq<Ptr>, gone: set<Ptr>)
    requires NoDuplicates(ptrs) && (forall p :: p in gone ==> p in ptrs) && !AtMostOne(gone)
    ensures var gc := Positions(ptrs, 0, gone);
            && |gc| >= 2 && gc[1] < |ptrs| && ptrs[gc[1]] in gone
            && forall i, j :: 0 <= i < j < |gc| ==> gc[i] < gc[j]
  {
    FewPositions(ptrs, 0, gone);
    PositionsExactly(ptrs, 0, gone);
  }

  lemma SavedPositions(s: State, ans: Answers)
    requires IndexesAgree(s)
    ensures !ScanFrom(s.running, 0, s.heap, ans).broken
    ensures ScanFrom(s.running, 0, s.heap, ans).gc == Positions(s.running, 0, Collected(s.heap, ans))
  {
    ScanExactly(s.running, 0, s.heap, ans);
  }

  /** Collecting two or more, the sweep as written keeps a collected entry or reads past the end. */
  lemma ShiftedSweepDiffers(s: State, ans: Answers)
    requires IndexesAgree(s) && !AtMostOne(Collected(s.heap, ans))
    ensures Sweep(AsWritten, s, ans) != Sweep(Intended, s, ans)
  {
    var gone := Collected(s.heap, ans);
    var gc := Positions(s.running, 0, gone);
    TwoPositions(s.running, gone);
    CollectedGoes(s, ans, s.running[gc[1]]);
    SavedPositions(s, ans);
    SecondSavedRemains(s, ans, gc, Sweep(Intended, s, ans));
  }

  lemma OneErasedSame(u: State, gc: seq<nat>)
    requires |gc| <= 1
    ensures EraseFrom(AsWritten, u, gc, 0) == EraseFrom(Intended, u, gc, 0)
  {
    if gc != [] && !u.broken {
      assert gc[1..] == [];
      assert EraseFrom(AsWritten, u, gc, 0) == EraseFrom(AsWritten, EraseAt(u, gc[0]), [], 1);
      assert EraseFrom(Intended, u, gc, 0) == EraseFrom(Intended, EraseAt(u, gc[0]), [], 1);
    }
  }

  lemma SmallSweepSame(s: State, ans: Answers)
    requires IndexesAgree(s) && AtMostOne(Collected(s.heap, ans))
    ensures Sweep(AsWritten, s, ans) == Sweep(Intended, s, ans)
  {
    SweepErasesPositions(AsWritten, s, ans);
    SweepErasesPositions(Intended, s, ans);
    FewPositions(s.running, 0, Collected(s.heap, ans));
    OneErasedSame(Scanned(s, ans), Positions(s.running, 0, Collected(s.heap, ans)));
  }

  /** The sweep as written is right exactly if it collects at most one record. */
  lemma SweepAsWrittenExactly(s: State, ans: Answers)
    requires IndexesAgree(s)
    ensures Sweep(AsWritten, s, ans) == Sweep(Intended, s, ans) <==> AtMostOne(Collected(s.heap, ans))
  {
    if AtMostOne(Collected(s.heap, ans)) {
      SmallSweepSame(s, ans);
    } else {
      ShiftedSweepDiffers(s, ans);
    }
  }

  // ---- RESTART ----

  /** One turn of the first loop. */
  lemma ScanTurn(p: Ptr, rest: seq<Ptr>, pos: nat, heap: map<Ptr, ServiceInfo>, ans: Answers)
    requires p in heap
    ensures var scan := ScanFrom([p] + rest, pos, heap, ans);
            var next := ScanFrom(rest, pos + 1, heap[p := Reaped(heap[p], ans(heap[p].pid))], ans);
            && scan.heap == next.heap && scan.broken == next.broken
            && scan.gc == Saved(pos, Collects(heap[p], ans(heap[p].pid))) + next.gc
  {
    assert ([p] + rest)[1..] == rest;
  }

  lemma ScanOne(p: Ptr, pos: nat, heap: map<Ptr, ServiceInfo>, ans: Answers)
    requires p in heap
    ensures !ScanFrom([p], pos, heap, ans).broken
    ensures ScanFrom([p], pos, heap, ans).gc == Saved(pos, Collects(heap[p], ans(heap[p].pid)))
  {
    assert [p] == [p] + [];
    ScanTurn(p, [], pos, heap, ans);
  }

  lemma {:induction false} ScanAppended(ptrs: seq<Ptr>, p: Ptr, pos: nat, heap: map<Ptr, ServiceInfo>, ans: Answers)
    requires !ScanFrom(ptrs, pos, heap, ans).broken && p in ScanFrom(ptrs, pos, heap, ans).heap
    ensures var first, both := ScanFrom(ptrs, pos, heap, ans), ScanFrom(ptrs + [p], pos, heap, ans);
            && !both.broken
            && both.gc == first.gc + Saved(pos + |ptrs|, Collects(first.heap[p], ans(first.heap[p].pid)))
    decreases ptrs
  {
    if ptrs == [] {
      assert ptrs + [p] == [p];
      ScanOne(p, pos, heap, ans);
    } else {
      var q, rest := ptrs[0], ptrs[1..];
      assert q in heap;
      hide ScanFrom, Reaped, Collects, Saved;
      var h := heap[q := Reaped(heap[q], ans(heap[q].pid))];
      assert ptrs == [q] + rest && ptrs + [p] == [q] + (rest + [p]);
      ScanTurn(q, rest, pos, heap, ans);
      ScanTurn(q, rest + [p], pos, heap, ans);
      ScanAppended(rest, p, pos + 1, h, ans);
    }
  }

  lemma SomePosition(ptrs: seq<Ptr>, pos: nat, gone: set<Ptr>, p: Ptr)
    requires p in ptrs && p in gone
    ensures Positions(ptrs, pos, gone) != []
  {
    PositionsExactly(ptrs, pos, gone);
  }

  lemma ReapedOnce(sve: ServiceInfo, a: Answer)
    requires Collects(Reaped(sve, a), a)
    ensures Collects(sve, a) && Reaped(sve, a) == sve
  {
  }

  /** Nothing more was saved, or one position more and some before it. */
  predicate OneMoreAtMost(gc': seq<nat>, gc: seq<nat>, n: nat) {
    gc' == gc || (gc != [] && gc' == gc + [n])
  }

  lemma SecondSaved(ptrs: seq<Ptr>, pos: nat, gone: set<Ptr>, p: Ptr, sve: ServiceInfo, a: Answer, gc: seq<nat>, n: nat)
    requires p in ptrs && (Collects(sve, a) ==> p in gone)
    requires gc == Positions(ptrs, pos, gone) + Saved(n, Collects(Reaped(sve, a), a))
    ensures OneMoreAtMost(gc, Positions(ptrs, pos, gone), n)
  {
    if Collects(Reaped(sve, a), a) {
      ReapedOnce(sve, a);
      SomePosition(ptrs, pos, gone, p);
    }
  }

  lemma ScanWithSecond(ptrs: seq<Ptr>, pos: nat, heap: map<Ptr, ServiceInfo>, p: Ptr, ans: Answers)
    requires NoDuplicates(ptrs) && p in ptrs && forall q :: q in ptrs ==> q in heap
    ensures !ScanFrom(ptrs + [p], pos, heap, ans).broken
    ensures ScanFrom(ptrs + [p], pos, heap, ans).gc
            == Positions(ptrs, pos, Collected(heap, ans))
               + Saved(pos + |ptrs|, Collects(Reaped(heap[p], ans(heap[p].pid)), ans(heap[p].pid)))
  {
    ScanExactly(ptrs, pos, heap, ans);
    ScanAppended(ptrs, p, pos, heap, ans);
  }

  /** The first loop collects a second entry only for a record whose first entry it collected. */
  lemma SecondEntryScan(ptrs: seq<Ptr>, pos: nat, heap: map<Ptr, ServiceInfo>, p: Ptr, ans: Answers)
    requires NoDuplicates(ptrs) && p in ptrs && forall q :: q in ptrs ==> q in heap
    ensures !ScanFrom(ptrs + [p], pos, heap, ans).broken
    ensures OneMoreAtMost(ScanFrom(ptrs + [p], pos, heap, ans).gc, Positions(ptrs, pos, Collected(heap, ans)),
                          pos + |ptrs|)
  {
    ScanWithSecond(ptrs, pos, heap, p, ans);
    SecondSaved(ptrs, pos, Collected(heap, ans), p, heap[p], ans(heap[p].pid),
                ScanFrom(ptrs + [p], pos, heap, ans).gc, pos + |ptrs|);
  }

  lemma PastTheEnd(u: State, gc: seq<nat>, n: nat)
    requires gc != [] && |u.running| == n + 1
    ensures EraseFrom(AsWritten, u, gc + [n], 0).broken
  {
    EraseAppended(u, gc, n, 0);
    EraseLength(AsWritten, u, gc, 0);
  }

  lemma LengthsDiffer(u: State, v: State, gc: seq<nat>, gc': seq<nat>, n: nat)
    requires |u.running| == n + 1 && |v.running| == n
    requires OneMoreAtMost(gc', gc, n)
    requires !EraseFrom(Intended, v, gc, 0).broken
    ensures EraseFrom(AsWritten, u, gc', 0) != EraseFrom(Intended, v, gc, 0)
  {
    EraseLength(Intended, v, gc, 0);
    EraseLength(AsWritten, u, gc', 0);
    if gc' != gc {
      PastTheEnd(u, gc, n);
    }
  }

  /** Scan `ptrs` with a second entry for `p` as the code does, and without it as intended. */
  lemma SecondEntryLonger(a: State, v: State, ptrs: seq<Ptr>, pos: nat, heap: map<Ptr, ServiceInfo>, p: Ptr,
                          ans: Answers)
    requires NoDuplicates(ptrs) && p in ptrs && forall q :: q in ptrs ==> q in heap
    requires |a.running| == pos + |ptrs| + 1 && |v.running| == pos + |ptrs|
    requires !EraseFrom(Intended, v, Positions(ptrs, pos, Collected(heap, ans)), 0).broken
    ensures EraseFrom(AsWritten, a, ScanFrom(ptrs + [p], pos, heap, ans).gc, 0)
            != EraseFrom(Intended, v, Positions(ptrs, pos, Collected(heap, ans)), 0)
    ensures !ScanFrom(ptrs + [p], pos, heap, ans).broken
  {
    SecondEntryScan(ptrs, pos, heap, p, ans);
    LengthsDiffer(a, v, Positions(ptrs, pos, Collected(heap, ans)), ScanFrom(ptrs + [p], pos, heap, ans).gc,
                  pos + |ptrs|);
  }

  lemma IntendedSweepEnds(s: State, ans: Answers)
    requires IndexesAgree(s)
    ensures Sweep(Intended, s, ans)
            == EraseFrom(Intended, Scanned(s, ans), Positions(s.running, 0, Collected(s.heap, ans)), 0)
    ensures !Sweep(Intended, s, ans).broken
  {
    SweepErasesPositions(Intended, s, ans);
    SweepErases(s, ans);
  }

  /** With a second entry for a listed record, the sweep as written ends in another state. */
  lemma SecondEntryDiffers(s: State, p: Ptr, ans: Answers)
    requires IndexesAgree(s) && p in s.running
    ensures Sweep(AsWritten, s.(running := s.running + [p]), ans) != Sweep(Intended, s, ans)
  {
    var a := s.(running := s.running + [p]);
    IntendedSweepEnds(s, ans);
    SecondEntryLonger(Scanned(a, ans), Scanned(s, ans), s.running, 0, s.heap, p, ans);
    SweepIs(AsWritten, a, ans);
  }

  // ---- a resumed service that dies ----

  lemma {:induction false} ScanKeepsKeys(ptrs: seq<Ptr>, pos: nat, heap: map<Ptr, ServiceInfo>, ans: Answers)
    ensures ScanFrom(ptrs, pos, heap, ans).heap.Keys == heap.Keys
    decreases ptrs
  {
    if ptrs != [] && ptrs[0] in heap {
      var h := heap[ptrs[0] := Reaped(heap[ptrs[0]], ans(heap[ptrs[0]].pid))];
      assert h.Keys == heap.Keys;
      ScanKeepsKeys(ptrs[1..], pos + 1, h, ans);
    }
  }

  lemma {:induction false} ScanMeetsDangling(ptrs: seq<Ptr>, pos: nat, heap: map<Ptr, ServiceInfo>, ans: Answers,
                                             p: Ptr)
    requires p in ptrs && p !in heap
    ensures ScanFrom(ptrs, pos, heap, ans).broken
    decreases ptrs
  {
    if ptrs[0] in heap {
      ScanMeetsDangling(ptrs[1..], pos + 1, heap[ptrs[0] := Reaped(heap[ptrs[0]], ans(heap[ptrs[0]].pid))], ans, p);
    }
  }

  /** A sweep over a dangling entry reads what is freed. */
  lemma DanglingBreaks(s: State, ans: Answers, p: Ptr)
    requires p in s.running && p !in s.heap
    ensures Sweep(AsWritten, s, ans).broken
  {
    ScanMeetsDangling(s.running, 0, s.heap, ans, p);
  }

  lemma OnlyPosition(ptrs: seq<Ptr>, p: Ptr)
    requires NoDuplicates(ptrs) && p in ptrs
    ensures var gc := Positions(ptrs, 0, {p}); |gc| == 1 && gc[0] < |ptrs| && ptrs[gc[0]] == p
  {
    FewPositions(ptrs, 0, {p});
    PositionsExactly(ptrs, 0, {p});
  }

  /** The first loop saves the first entry of the dead record and passes its second. */
  lemma ResumedScan(ptrs: seq<Ptr>, heap: map<Ptr, ServiceInfo>, p: Ptr, ans: Answers)
    requires NoDuplicates(ptrs) && p in ptrs && forall q :: q in ptrs ==> q in heap
    requires Collected(heap, ans) == {p} && HasStatus(ans(heap[p].pid))
    ensures var scan := ScanFrom(ptrs + [p], 0, heap, ans);
            && !scan.broken && scan.heap.Keys == heap.Keys
            && |scan.gc| == 1 && scan.gc[0] < |ptrs| && ptrs[scan.gc[0]] == p
  {
    ScanWithSecond(ptrs, 0, heap, p, ans);
    ScanKeepsKeys(ptrs + [p], 0, heap, ans);
    OnlyPosition(ptrs, p);
    assert p in Collected(heap, ans);
    assert !Collects(Reaped(heap[p], ans(heap[p].pid)), ans(heap[p].pid));
    assert Positions(ptrs, 0, {p}) + [] == Positions(ptrs, 0, {p});
  }

  lemma OneErased(u: State, gc: seq<nat>)
    requires |gc| == 1 && !u.broken
    ensures EraseFrom(AsWritten, u, gc, 0) == EraseAt(u, gc[0])
  {
    assert gc[1..] == [];
    assert EraseFrom(AsWritten, u, gc, 0) == EraseFrom(AsWritten, EraseAt(u, gc[0]), [], 1);
  }

  lemma FirstEntryErased(u: State, i: nat, running: seq<Ptr>, p: Ptr)
    requires !u.broken && u.running == running + [p] && i < |running| && running[i] == p && p in u.heap
    ensures var t := EraseAt(u, i); !t.broken && p in t.running && p !in t.heap
  {
    var t := EraseAt(u, i);
    assert u.running[i] == p && t.running[|running| - 1] == p;
  }

  /**
   Among any services, one that was resumed and is the one found dead: the sweep frees its
   record and leaves its second entry, which the next sweep reads.
   */
  lemma ResumedServiceDangles(s: State, p: Ptr, ans: Answers, next: Answers)
    requires IndexesAgree(s) && p in s.running
    requires Collected(s.heap, ans) == {p} && HasStatus(ans(s.heap[p].pid))
    ensures var t := Sweep(AsWritten, s.(running := s.running + [p]), ans);
            && !t.broken && p in t.running && p !in t.heap
            && Sweep(AsWritten, t, next).broken
  {
    hide ScanFrom, EraseFrom, EraseAt, RecordOk, Collected;
    var a := s.(running := s.running + [p]);
    ResumedScan(s.running, s.heap, p, ans);
    SweepIs(AsWritten, a, ans);
    var gc := ScanFrom(a.running, 0, a.heap, ans).gc;
    OneErased(Scanned(a, ans), gc);
    FirstEntryErased(Scanned(a, ans), gc[0], s.running, p);
    DanglingBreaks(EraseAt(Scanned(a, ans), gc[0]), next, p);
  }

  lemma {:induction false} ScanQuiet(ptrs: seq<Ptr>, pos: nat, heap: map<Ptr, ServiceInfo>, ans: Answers)
    requires (forall p :: p in ptrs ==> p in heap) && Collected(heap, ans) == {}
    ensures ScanFrom(ptrs, pos, heap, ans) == Scan(heap, [], [], false)
    decreases ptrs
  {
    if ptrs != [] {
      var p := ptrs[0];
      assert p !in Collected(heap, ans);
      assert Reaped(heap[p], ans(heap[p].pid)) == heap[p] && heap[p := heap[p]] == heap;
      ScanQuiet(ptrs[1..], pos + 1, heap, ans);
    }
  }

  /** A sweep that finds nothing changes nothing, in both forms. */
  lemma QuietSweep(mode: Mode, s: State, ans: Answers)
    requires !s.broken && (forall p :: p in s.running ==> p in s.heap) && Collected(s.heap, ans) == {}
    ensures Sweep(mode, s, ans) == s
  {
    ScanQuiet(s.running, 0, s.heap, ans);
    assert s.out + [] == s.out;
  }

  lemma QuietRestart(s: State, e: Event)
    requires IndexesAgree(s) && RestartsPaused(s, e)
    requires Collected(BeforeSweep(Intended, s, e).heap, e.ans) == {}
    ensures var b := BeforeSweep(Intended, s, e);
            && IndexesAgree(b) && s.bySeq[e.cmd.op.lbl] in b.running
            && Step(AsWritten, s, e) == b.(running := b.running + [s.bySeq[e.cmd.op.lbl]])
  {
    var b, p := BeforeSweep(Intended, s, e), s.bySeq[e.cmd.op.lbl];
    BeforeSweepAgrees(s, e);
    assert BeforeSweep(AsWritten, s, e) == b.(running := b.running + [p]);
    QuietSweep(AsWritten, b.(running := b.running + [p]), e.ans);
  }

  /** RESTART of a paused service, its death, one more time-out: the code reads a freed record. */
  lemma ResumeThenDeathBreaks(s: State, e: Event, ans: Answers, next: Answers)
    requires IndexesAgree(s) && RestartsPaused(s, e)
    requires Collected(BeforeSweep(Intended, s, e).heap, e.ans) == {}
    requires var b, p := BeforeSweep(Intended, s, e), s.bySeq[e.cmd.op.lbl];
             p in b.heap && Collected(b.heap, ans) == {p} && HasStatus(ans(b.heap[p].pid))
    ensures var t := Step(AsWritten, Step(AsWritten, s, e), Timeout(ans));
            !t.broken && Step(AsWritten, t, Timeout(next)).broken
  {
    QuietRestart(s, e);
    ResumedServiceDangles(BeforeSweep(Intended, s, e), s.bySeq[e.cmd.op.lbl], ans, next);
  }

  function AllRunning(pid: int): Answer {
    StillRunning
  }

  /** The only service, recorded at one address, in this state. */
  function OnlyService(p: Ptr, sve: ServiceInfo, out: seq<Out>): State {
    State([p], map[sve.lbl := p], map[sve.name := p], map[p := sve], out, false)
  }

  lemma OnlyServiceAgrees(p: Ptr, sve: ServiceInfo, out: seq<Out>)
    requires LiveState(sve.state) && sve.writers != [] && NoDuplicates(sve.writers)
    ensures IndexesAgree(OnlyService(p, sve, out))
    ensures Sweep(AsWritten, OnlyService(p, sve, out), AllRunning) == OnlyService(p, sve, out)
  {
    assert RecordOk(OnlyService(p, sve, out), p);
    QuietSweep(AsWritten, OnlyService(p, sve, out), AllRunning);
  }

  lemma StartedAlone(c: Command)
    requires c.op.Start? && c.op.pid > 0 && CommandFits(c.op.cmdLine)
    ensures exists out :: Step(AsWritten, INITIAL, Excute(c, AllRunning))
                          == OnlyService(c.op.address, NewService(c), out)
  {
    var sve := NewService(c);
    var b := StartStep(AsWritten, INITIAL, c);
    assert b == OnlyService(c.op.address, sve, b.out);
    OnlyServiceAgrees(c.op.address, sve, b.out);
  }

  lemma PausedAlone(p: Ptr, sve: ServiceInfo, out: seq<Out>, c: Command)
    requires c.op == Pause(sve.lbl) && sve.state.Running? && sve.writers != [] && NoDuplicates(sve.writers)
    ensures exists out' :: Step(AsWritten, OnlyService(p, sve, out), Excute(c, AllRunning))
                           == OnlyService(p, sve.(state := Paused), out')
  {
    var b := LabelStep(AsWritten, OnlyService(p, sve, out), c, sve.lbl);
    assert b == OnlyService(p, sve.(state := Paused), b.out);
    OnlyServiceAgrees(p, sve.(state := Paused), b.out);
  }

  /** From the start: a service is started, paused and resumed, it ends, and one more second passes. */
  lemma ResumedRunBreaks(start: Command, pause: Command, restart: Command, ans: Answers, next: Answers)
    requires start.op.Start? && start.op.pid > 0 && CommandFits(start.op.cmdLine) && HasStatus(ans(start.op.pid))
    requires pause.op == Pause(NewService(start).lbl) && restart.op == Restart(NewService(start).lbl)
    ensures var s := Step(AsWritten, Step(AsWritten, INITIAL, Excute(start, AllRunning)), Excute(pause, AllRunning));
            var t := Step(AsWritten, Step(AsWritten, s, Excute(restart, AllRunning)), Timeout(ans));
            !t.broken && Step(AsWritten, t, Timeout(next)).broken
  {
    var p, sve, e := start.op.address, NewService(start), Excute(restart, AllRunning);
    StartedAlone(start);
    var out :| Step(AsWritten, INITIAL, Excute(start, AllRunning)) == OnlyService(p, sve, out);
    PausedAlone(p, sve, out, pause);
    var out' :| Step(AsWritten, OnlyService(p, sve, out), Excute(pause, AllRunning))
                == OnlyService(p, sve.(state := Paused), out');
    var s := OnlyService(p, sve.(state := Paused), out');
    OnlyServiceAgrees(p, sve.(state := Paused), out');
    ResumedAlone(s, p, sve, restart, ans);
    ResumeThenDeathBreaks(s, e, ans, next);
  }

  lemma ResumedAlone(s: State, p: Ptr, sve: ServiceInfo, c: Command, ans: Answers)
    requires s == OnlyService(p, sve.(state := Paused), s.out) && sve.state.Running?
    requires c.op == Restart(sve.lbl) && HasStatus(ans(sve.pid))
    ensures RestartsPaused(s, Excute(c, AllRunning))
    ensures var b := BeforeSweep(Intended, s, Excute(c, AllRunning));
            b.heap == map[p := sve] && Collected(b.heap, AllRunning) == {} && Collected(b.heap, ans) == {p}
  {
    var b := BeforeSweep(Intended, s, Excute(c, AllRunning));
    assert map[p := sve.(state := Paused)][p := sve] == map[p := sve];
    assert sve.(state := Paused).(state := Running) == sve;
    assert b.heap == map[p := sve];
  }

  lemma RestartDiffers(s: State, e: Event)
    requires IndexesAgree(s) && RestartsPaused(s, e)
    ensures Step(AsWritten, s, e) != Step(Intended, s, e)
  {
    var b := BeforeSweep(Intended, s, e);
    var p := s.bySeq[e.cmd.op.lbl];
    BeforeSweepAgrees(s, e);
    assert BeforeSweep(AsWritten, s, e) == b.(running := b.running + [p]);
    assert p in s.running;
    SecondEntryDiffers(b, p, e.ans);
  }

  /** A START whose command does not fit, in any state: the code goes past its buffer. */
  lemma LongCommandBreaks(s: State, e: Event)
    requires IndexesAgree(s) && Environment(s, e) && OverrunsBuffer(s, e)
    ensures Step(AsWritten, s, e).broken && !Step(Intended, s, e).broken
  {
    StepKeepsAgreement(s, e);
  }

  /** The first command that does, and the first that does not. */
  lemma LongestCommand(c: Command, fits: string, tooLong: string)
    requires c.op.Start? && c.op.pid > 0 && |fits| == 127 && |tooLong| == 128
    ensures !Step(AsWritten, INITIAL, Excute(c.(op := c.op.(cmdLine := fits)), AllRunning)).broken
    ensures Step(AsWritten, INITIAL, Excute(c.(op := c.op.(cmdLine := tooLong)), AllRunning)).broken
  {
    StartedAlone(c.(op := c.op.(cmdLine := fits)));
  }

  /** One event: code and intended form agree exactly if the event is harmless. */
  lemma StepAsWrittenExactly(s: State, e: Event)
    requires IndexesAgree(s) && Environment(s, e)
    ensures Step(AsWritten, s, e) == Step(Intended, s, e) <==> Harmless(s, e)
  {
    if OverrunsBuffer(s, e) {
      LongCommandBreaks(s, e);
    } else if RestartsPaused(s, e) {
      RestartDiffers(s, e);
    } else {
      assert BeforeSweep(AsWritten, s, e) == BeforeSweep(Intended, s, e);
      BeforeSweepAgrees(s, e);
      SweepAsWrittenExactly(BeforeSweep(Intended, s, e), e.ans);
    }
  }

  /** Whole runs: the code goes through the intended states exactly if every event is harmless. */
  lemma {:induction false} RunAsWrittenExactly(s: State, es: seq<Event>)
    requires IndexesAgree(s) && EnvironmentRun(s, es)
    ensures SameRun(s, s, es) <==> HarmlessRun(s, es)
    decreases es
  {
    if es != [] {
      StepAsWrittenExactly(s, es[0]);
      StepKeepsAgreement(s, es[0]);
      if Harmless(s, es[0]) {
        RunAsWrittenExactly(Step(Intended, s, es[0]), es[1..]);
      }
    }
  }

  /** So what holds of the intended runs holds of the code's harmless runs: they end in the same state. */
  lemma {:induction false} HarmlessRunsEndSame(s: State, es: seq<Event>)
    requires IndexesAgree(s) && EnvironmentRun(s, es)
    ensures HarmlessRun(s, es) ==> Run(AsWritten, s, es) == Run(Intended, s, es)
    decreases es
  {
    if es != [] {
      StepAsWrittenExactly(s, es[0]);
      StepKeepsAgreement(s, es[0]);
      HarmlessRunsEndSame(Step(Intended, s, es[0]), es[1..]);
    }
  }
}
