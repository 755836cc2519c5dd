/**
 The service executor as a class: the three indexes are fields, records are updated and freed
 in place, and each event's effect is the step of ServiceSpec.
 */
module ServiceExcutor {
  import opened Labels
  import opened ServiceSpec

  /** A writer is added to a record unless an equal one is there. */
  method AddWriterTo(writer: seq<int>, wr: int) returns (r: seq<int>)
    ensures r == AddWriter(writer, wr)
  {
    var i := 0;
    while i < |writer|
      invariant 0 <= i <= |writer|
      invariant wr !in writer[..i]
    {
      if writer[i] == wr { return writer; }
      i := i + 1;
    }
    r := writer + [wr];
  }

  /** `scan` is what the first loop found before position `i` and what it will find from there. */
  ghost predicate Scanning(scan: Scan, ptrs: seq<Ptr>, i: nat, heap: map<Ptr, ServiceInfo>, gc: seq<nat>,
                           was: seq<Out>, out: seq<Out>, ans: Answers)
  {
    && i <= |ptrs|
    && var rest := ScanFrom(ptrs[i..], i, heap, ans);
       && scan.heap == rest.heap
       && scan.gc == gc + rest.gc
       && was + scan.out == out + rest.out
       && scan.broken == rest.broken
  }

  lemma ScanBegins(ptrs: seq<Ptr>, heap: map<Ptr, ServiceInfo>, was: seq<Out>, ans: Answers)
    ensures Scanning(ScanFrom(ptrs, 0, heap, ans), ptrs, 0, heap, [], was, was, ans)
  {
    assert ptrs[0..] == ptrs;
  }

  lemma ScanTurn(scan: Scan, ptrs: seq<Ptr>, i: nat, heap: map<Ptr, ServiceInfo>, gc: seq<nat>,
                 was: seq<Out>, out: seq<Out>, ans: Answers)
    requires Scanning(scan, ptrs, i, heap, gc, was, out, ans) && i < |ptrs| && ptrs[i] in heap
    ensures var sve, a := heap[ptrs[i]], ans(heap[ptrs[i]].pid);
            Scanning(scan, ptrs, i + 1, heap[ptrs[i] := Reaped(sve, a)], if Collects(sve, a) then gc + [i] else gc,
                     was, out + ReapResponses(sve, a), ans)
  {
    assert ptrs[i..][1..] == ptrs[i + 1..];
  }

  lemma ScanBreaks(scan: Scan, ptrs: seq<Ptr>, i: nat, heap: map<Ptr, ServiceInfo>, gc: seq<nat>,
                   was: seq<Out>, out: seq<Out>, ans: Answers)
    requires Scanning(scan, ptrs, i, heap, gc, was, out, ans) && i < |ptrs| && ptrs[i] !in heap
    ensures scan.broken && scan.heap == heap && scan.gc == gc && was + scan.out == out
  {
  }

  lemma ScanEnds(scan: Scan, ptrs: seq<Ptr>, heap: map<Ptr, ServiceInfo>, gc: seq<nat>,
                 was: seq<Out>, out: seq<Out>, ans: Answers)
    requires Scanning(scan, ptrs, |ptrs|, heap, gc, was, out, ans)
    ensures !scan.broken && scan.heap == heap && scan.gc == gc && was + scan.out == out
  {
  }

  class Excutor {
    const mode: Mode
    var mRunningService: seq<Ptr>
    var mSeqService: map<nat, Ptr>
    var mNameService: map<string, Ptr>
    var records: map<Ptr, ServiceInfo>
    var out: seq<Out>
    var broken: bool

    constructor (mode: Mode)
      ensures this.mode == mode && View() == INITIAL
    {
      this.mode := mode;
      mRunningService, mSeqService, mNameService := [], map[], map[];
      records, out, broken := map[], [], false;
    }

    ghost function View(): (s: State)
      reads this
    {
      State(mRunningService, mSeqService, mNameService, records, out, broken)
    }

    method SendResult(c: Command, status: ResultStatus, extra: Extra)
      modifies this`out
      ensures View() == Reply(old(View()), c, status, extra)
    {
      out := out + [Result(c.writer, c.sequence, c.name, status, extra)];
    }

    method SendResponse(sve: ServiceInfo, status: ResponseStatus, code: int)
      modifies this`out
      ensures out == old(out) + ResponsesTo(sve.writers, sve, status, code)
    {
      var i := 0;
      while i < |sve.writers|
        invariant 0 <= i <= |sve.writers|
        invariant out == old(out) + ResponsesTo(sve.writers, sve, status, code)[..i]
      {
        out := out + [Response(sve.writers[i], sve.lbl, sve.name, status, code)];
        i := i + 1;
      }
    }

    /** kill() and the state set with it. */
    method SignalService(p: Ptr, sig: int, state: ServiceState)
      requires p in records
      modifies this
      ensures View() == Signal(old(View()), p, sig, state)
    {
      out := out + [Kill(records[p].lbl, records[p].pid, sig)];
      records := records[p := records[p].(state := state)];
    }

    /** As written, the command is copied into its buffer before fork, whatever its length. */
    method StartService(c: Command) returns (status: ResultStatus, extra: Extra)
      requires c.op.Start? && !broken
      modifies this
      ensures if broken then View() == StartStep(mode, old(View()), c)
              else Reply(View(), c, status, extra) == StartStep(mode, old(View()), c)
    {
      status, extra := ResultFail, NoExtra;
      if c.name in mNameService {
        status := ResultExists;
        return;
      }
      var writer := AddWriterTo([], c.writer);
      assert writer == [c.writer];
      var sve := ServiceInfo(c.name, c.op.pid, Running, c.op.cmdLine, writer,
                             SequenceToLabel(c.sequence, c.op.address), c.op.flags);
      if mode.AsWritten? && |c.op.cmdLine| >= CMD_BUFFER_LEN {
        broken := true;
        return;
      }
      if c.op.pid > 0 {
        records := records[c.op.address := sve];
        mRunningService := mRunningService + [c.op.address];
        mSeqService := Insert(mSeqService, sve.lbl, c.op.address);
        mNameService := Insert(mNameService, sve.name, c.op.address);
        status, extra := ResultOk, StartedLabel(sve.lbl);
      }
    }

    method ControlService(c: Command, lbl: nat) returns (status: ResultStatus)
      requires c.op.Stop? || c.op.Pause? || c.op.Restart?
      requires !broken
      modifies this
      ensures if broken then View() == LabelStep(mode, old(View()), c, lbl)
              else Reply(View(), c, status, NoExtra) == LabelStep(mode, old(View()), c, lbl)
    {
      status := ResultFail;
      if lbl !in mSeqService { return; }
      var p := mSeqService[lbl];
      if p !in records {
        broken := true;
        return;
      }
      var state := records[p].state;
      if c.op.Stop? {
        status := ResultOk;
        if state.Running? || state.Paused? { SignalService(p, SIGTERM, FinishingUser); }
      } else if c.op.Pause? && state.Running? {
        SignalService(p, SIGSTOP, Paused);
        status := ResultOk;
      } else if c.op.Restart? && state.Paused? {
        SignalService(p, SIGCONT, Running);
        status := ResultOk;
        if mode.AsWritten? { mRunningService := mRunningService + [p]; }
      }
    }

    method HandleServiceInfo(c: Command) returns (status: ResultStatus, extra: Extra)
      requires c.op.Info? && !broken
      modifies this
      ensures if broken then View() == InfoStep(old(View()), c)
              else Reply(View(), c, status, extra) == InfoStep(old(View()), c)
    {
      status, extra := ResultFail, NoExtra;
      if !c.op.byName || c.name !in mNameService { return; }
      var p := mNameService[c.name];
      if p !in records {
        broken := true;
        return;
      }
      if records[p].flags != c.op.infoFlags { return; }
      status, extra := ResultOk, InfoOf(records[p].lbl, records[p].state);
      var writers := AddWriterTo(records[p].writers, c.writer);
      records := records[p := records[p].(writers := writers)];
    }

    method ExcuteNormal(c: Command, ans: Answers)
      modifies this
      ensures View() == Step(mode, old(View()), Excute(c, ans))
    {
      if broken { return; }
      var status, extra := ResultFail, NoExtra;
      match c.op {
        case Start(_, _, _, _) => status, extra := StartService(c);
        case Stop(lbl) => status := ControlService(c, lbl);
        case Pause(lbl) => status := ControlService(c, lbl);
        case Restart(lbl) => status := ControlService(c, lbl);
        case Info(_, _) => status, extra := HandleServiceInfo(c);
        case OtherOp =>
      }
      if broken { return; }
      SendResult(c, status, extra);
      MonitorServiceStatus(ans);
    }

    method ExcuteTimeout(ans: Answers)
      modifies this
      ensures View() == Step(mode, old(View()), Timeout(ans))
    {
      MonitorServiceStatus(ans);
    }

    method OnUninit(ans: Answers)
      modifies this
      ensures View() == Step(mode, old(View()), Uninit(ans))
    {
      if broken { return; }
      KillRunning(SIGINT);
      MonitorServiceStatus(ans);
    }

    method KillRunning(sig: int)
      requires !broken
      modifies this`out, this`broken
      ensures out == old(out) + KillAll(mRunningService, records, sig)
      ensures broken == Dangling(mRunningService, records)
    {
      var i := 0;
      while i < |mRunningService|
        invariant 0 <= i <= |mRunningService|
        invariant !broken && forall p :: p in mRunningService[..i] ==> p in records
        invariant out + KillAll(mRunningService[i..], records, sig) == old(out) + KillAll(mRunningService, records, sig)
      {
        var p := mRunningService[i];
        assert mRunningService[i..] == [p] + mRunningService[i + 1..];
        if p !in records {
          broken := true;
          return;
        }
        out := out + [Kill(records[p].lbl, records[p].pid, sig)];
        i := i + 1;
      }
      assert mRunningService[..i] == mRunningService;
    }

    /** The destructor: every remaining service is killed, its writers told and its record freed. */
    method Destroy()
      modifies this
      ensures View() == Destruct(old(View()))
    {
      if broken { return; }
      var i := 0;
      ghost var all := DestroyEach(mRunningService, records);
      ghost var was, before := records, out;
      var left := records;
      assert mRunningService[0..] == mRunningService;
      while i < |mRunningService|
        invariant 0 <= i <= |mRunningService|
        invariant records == was && !broken
        invariant mRunningService == old(mRunningService)
        invariant mSeqService == old(mSeqService) && mNameService == old(mNameService)
        invariant out + DestroyEach(mRunningService[i..], left).0 == before + all.0
        invariant DestroyEach(mRunningService[i..], left).1 == all.1
      {
        var p := mRunningService[i];
        assert mRunningService[i..][0] == p && mRunningService[i..][1..] == mRunningService[i + 1..];
        if p !in left {
          broken := true;
          return;
        }
        ghost var sofar := out;
        out := out + [Kill(left[p].lbl, left[p].pid, SIGKILL)];
        SendResponse(left[p], StatusSignal, 0);
        assert out == sofar + DestroyOne(left[p]);
        left := left - {p};
        i := i + 1;
      }
      mRunningService, mSeqService, mNameService, records := [], map[], map[], map[];
    }

    /** One turn of the sweep's first loop; says whether the entry is to be collected. */
    method PollService(p: Ptr, a: Answer) returns (collect: bool)
      requires p in records
      modifies this`records, this`out
      ensures collect == Collects(old(records)[p], a)
      ensures records == old(records)[p := Reaped(old(records)[p], a)]
      ensures out == old(out) + ReapResponses(old(records)[p], a)
    {
      var sve := records[p];
      collect := false;
      if Polled(sve.state) {
        if HasStatus(a) {
          var (state, status, code) := Classify(sve.state, a);
          collect := true;
          records := records[p := sve.(state := state)];
          SendResponse(sve, status, code);
        } else if a.NoChild? {
          collect := true;
        }
      }
    }

    method ScanServices(ans: Answers) returns (gc: seq<nat>)
      requires !broken
      modifies this`records, this`out, this`broken
      ensures View() == Scanned(old(View()), ans)
      ensures gc == ScanFrom(mRunningService, 0, old(records), ans).gc
    {
      ghost var scan := ScanFrom(mRunningService, 0, records, ans);
      ghost var was := out;
      gc := [];
      var i := 0;
      ScanBegins(mRunningService, records, was, ans);
      while i < |mRunningService|
        invariant Scanning(scan, mRunningService, i, records, gc, was, out, ans)
        invariant !broken
      {
        var p := mRunningService[i];
        if p !in records {
          ScanBreaks(scan, mRunningService, i, records, gc, was, out, ans);
          broken := true;
          return;
        }
        ScanTurn(scan, mRunningService, i, records, gc, was, out, ans);
        var collect := PollService(p, ans(records[p].pid));
        if collect { gc := gc + [i]; }
        i := i + 1;
      }
      ScanEnds(scan, mRunningService, records, gc, was, out, ans);
    }

    method EraseEntry(i: int)
      modifies this
      ensures View() == EraseAt(old(View()), i)
    {
      if !(0 <= i < |mRunningService|) || mRunningService[i] !in records {
        broken := true;
        return;
      }
      var p := mRunningService[i];
      mSeqService := mSeqService - {records[p].lbl};
      mNameService := mNameService - {records[p].name};
      mRunningService := mRunningService[..i] + mRunningService[i + 1..];
      records := records - {p};
    }

    method MonitorServiceStatus(ans: Answers)
      modifies this
      ensures View() == Sweep(mode, old(View()), ans)
    {
      if broken { return; }
      var gc := ScanServices(ans);
      var i := 0;
      ghost var swept := Sweep(mode, old(View()), ans);
      assert gc[0..] == gc;
      while i < |gc| && !broken
        invariant 0 <= i <= |gc|
        invariant swept == EraseFrom(mode, View(), gc[i..], i)
      {
        EraseEntry(if mode.AsWritten? then gc[i] else gc[i] - i);
        i := i + 1;
      }
    }
  }
}
