/**
 The client side hand-off: command threads write a command and wait for a result with its
 sequence; one receive thread parks results in a map and broadcasts. All that joins a result
 to a call is the sequence, and nothing makes the server put the right one on it: the daemon
 refuses a client under sequence 0 and tells the writers of an event of its restarts. So a
 result is a thing of its own here; whom it is about is history. The code waits before it
 looks into the map; the intended form looks first.
 */
module Rendezvous {

  datatype Mode = AsWritten | Intended

  type CallId = nat
  type ResultId = nat
  type Sequence = nat

  datatype Subject = Nobody | Call(id: CallId)
  datatype Result = Result(sequence: Sequence, subject: Subject)

  datatype Outcome = Got(result: ResultId) | TimedOut | Failed

  /**
   `Ready`: about to take the mutex. `Asleep`: in the condition wait. `Awake`: woken, about to
   look into the map. `Expired`: past its deadline, about to get the mutex back and give up.
   */
  datatype Stage = Ready | Asleep | Awake | Expired | Done(outcome: Outcome)

  datatype State = State(
    seqOf: map<CallId, Sequence>,         // every call made
    calls: map<CallId, Stage>,
    pending: set<CallId>,                 // commands no result was sent about
    results: seq<Result>,                 // every result sent
    inFlight: seq<ResultId>,              // results on the socket
    mResult: map<Sequence, ResultId>,     // parked results
    received: set<ResultId>,              // history: results that reached handleResult
    delivered: map<ResultId, CallId>,     // history: result -> the call that returned it
    dropped: set<ResultId>)               // history: results whose key was taken

  const INITIAL := State(map[], map[], {}, [], [], map[], {}, map[], {})

  /** `Emit`: the server sends this client a result, about one of its commands or not. */
  datatype Action =
    | Send(id: CallId, sequence: Sequence)
    | SendFails(id: CallId, sequence: Sequence)
    | Emit(result: Result)
    | Receive
    | Enter(id: CallId)
    | Spurious(id: CallId)
    | Expire(id: CallId)
    | TimeOut(id: CallId)
    | WaitFails(id: CallId)
    | Look(id: CallId)

  predicate At(s: State, id: CallId, stage: Stage) {
    id in s.calls && id in s.seqOf && s.calls[id] == stage
  }

  /** A call that has not returned. */
  predicate Active(s: State, id: CallId) {
    id in s.calls && !s.calls[id].Done?
  }

  predicate Enabled(s: State, a: Action) {
    match a
    case Send(id, _) => id !in s.seqOf && id !in s.calls
    case SendFails(id, _) => id !in s.seqOf && id !in s.calls
    case Emit(result) => result.subject.Call? ==> result.subject.id in s.seqOf
    case Receive => s.inFlight != [] && s.inFlight[0] < |s.results|
    case Enter(id) => At(s, id, Ready)
    case Spurious(id) => At(s, id, Asleep)
    case Expire(id) => At(s, id, Asleep)
    case TimeOut(id) => At(s, id, Expired)
    case WaitFails(id) => At(s, id, Asleep)
    case Look(id) => At(s, id, Awake)
  }

  /** The broadcast. */
  function WakeAll(calls: map<CallId, Stage>): map<CallId, Stage> {
    map id | id in calls :: if calls[id].Asleep? then Awake else calls[id]
  }

  /** insert() keeps the result that is there. */
  function HandleResult(s: State, r: ResultId): State
    requires r < |s.results|
  {
    var t := s.(received := s.received + {r}, calls := WakeAll(s.calls));
    if s.results[r].sequence in s.mResult then t.(dropped := s.dropped + {r})
    else t.(mResult := s.mResult[s.results[r].sequence := r])
  }

  /** Look into the map with the mutex held: take the result, or go on to `otherwise`. */
  function TakeOr(s: State, id: CallId, otherwise: Stage): State
    requires id in s.seqOf
  {
    var q := s.seqOf[id];
    if q in s.mResult then
      s.(calls := s.calls[id := Done(Got(s.mResult[q]))],
         delivered := s.delivered[s.mResult[q] := id],
         mResult := s.mResult - {q})
    else s.(calls := s.calls[id := otherwise])
  }

  function EmitStep(s: State, result: Result): State {
    s.(results := s.results + [result],
       inFlight := s.inFlight + [|s.results|],
       pending := if result.subject.Call? then s.pending - {result.subject.id} else s.pending)
  }

  function Next(mode: Mode, s: State, a: Action): State {
    if !Enabled(s, a) then s
    else
      match a
      case Send(id, q) =>
        s.(seqOf := s.seqOf[id := q], calls := s.calls[id := Ready], pending := s.pending + {id})
      case SendFails(id, q) => s.(seqOf := s.seqOf[id := q], calls := s.calls[id := Done(Failed)])
      case Emit(result) => EmitStep(s, result)
      case Receive => HandleResult(s.(inFlight := s.inFlight[1..]), s.inFlight[0])
      case Enter(id) => if mode.AsWritten? then s.(calls := s.calls[id := Asleep]) else TakeOr(s, id, Asleep)
      case Spurious(id) => s.(calls := s.calls[id := Awake])
      case Expire(id) => s.(calls := s.calls[id := Expired])
      case TimeOut(id) => s.(calls := s.calls[id := Done(TimedOut)])
      case WaitFails(id) => s.(calls := s.calls[id := Done(Failed)])
      case Look(id) => TakeOr(s, id, if mode.AsWritten? then Ready else Asleep)
  }

  function Run(mode: Mode, s: State, acts: seq<Action>): State
    decreases acts
  {
    if acts == [] then s else Run(mode, Next(mode, s, acts[0]), acts[1..])
  }

  // ---- every result is in one place ----

  predicate Parked(s: State, r: ResultId) {
    r < |s.results| && s.results[r].sequence in s.mResult && s.mResult[s.results[r].sequence] == r
  }

  /** A result that was sent is on the socket or received, and a received one is parked, delivered or dropped. */
  predicate InOnePlace(s: State, r: ResultId) {
    && (r < |s.results| <==> r in s.inFlight || r in s.received)
    && !(r in s.inFlight && r in s.received)
    && (r in s.received <==> Parked(s, r) || r in s.delivered || r in s.dropped)
    && !(Parked(s, r) && r in s.delivered)
    && !(Parked(s, r) && r in s.dropped)
    && !(r in s.delivered && r in s.dropped)
  }

  predicate ParkedUnder(s: State, q: Sequence)
    requires q in s.mResult
  {
    s.mResult[q] < |s.results| && s.results[s.mResult[q]].sequence == q
  }

  predicate About(s: State, r: ResultId, id: CallId) {
    r < |s.results| && s.results[r].subject == Call(id)
  }

  predicate Known(s: State) {
    && s.calls.Keys == s.seqOf.Keys
    && (forall x :: x in s.pending ==> x in s.seqOf)
    && (forall r :: 0 <= r < |s.results| && s.results[r].subject.Call? ==>
          s.results[r].subject.id in s.seqOf && s.results[r].subject.id !in s.pending)
    && (forall q :: q in s.mResult ==> ParkedUnder(s, q))
    && (forall i, j :: 0 <= i < j < |s.inFlight| ==> s.inFlight[i] != s.inFlight[j])
  }

  /** A result was delivered to a call exactly if the call returned it, and it has the call's sequence. */
  predicate ReturnsOwnSequence(s: State) {
    && (forall r :: r in s.delivered ==>
          var id := s.delivered[r];
          At(s, id, Done(Got(r))) && r < |s.results| && s.results[r].sequence == s.seqOf[id])
    && (forall id :: id in s.calls && s.calls[id].Done? && s.calls[id].outcome.Got? ==>
          var r := s.calls[id].outcome.result;
          r in s.delivered && s.delivered[r] == id)
  }

  ghost predicate Inv(s: State) {
    Known(s) && (forall r :: InOnePlace(s, r)) && ReturnsOwnSequence(s)
  }

  lemma TakeKeepsKnown(s: State, id: CallId, otherwise: Stage)
    requires Known(s) && id in s.seqOf
    ensures Known(TakeOr(s, id, otherwise))
  {
    var t := TakeOr(s, id, otherwise);
    forall q | q in t.mResult ensures ParkedUnder(t, q) { assert ParkedUnder(s, q); }
  }

  lemma TakeKeepsPlaces(s: State, id: CallId, otherwise: Stage, r: ResultId)
    requires Known(s) && id in s.seqOf && InOnePlace(s, r)
    requires s.seqOf[id] in s.mResult ==> InOnePlace(s, s.mResult[s.seqOf[id]])
    ensures InOnePlace(TakeOr(s, id, otherwise), r)
  {
    if s.seqOf[id] in s.mResult { assert ParkedUnder(s, s.seqOf[id]); }
  }

  lemma TakeReturnsOwn(s: State, id: CallId, otherwise: Stage)
    requires Known(s) && ReturnsOwnSequence(s) && Active(s, id) && id in s.seqOf && !otherwise.Done?
    requires forall r :: InOnePlace(s, r)
    ensures ReturnsOwnSequence(TakeOr(s, id, otherwise))
  {
    if s.seqOf[id] in s.mResult {
      assert ParkedUnder(s, s.seqOf[id]);
      assert InOnePlace(s, s.mResult[s.seqOf[id]]);
    }
  }

  lemma TakeKeepsInv(s: State, id: CallId, otherwise: Stage)
    requires Inv(s) && Active(s, id) && !otherwise.Done?
    ensures Inv(TakeOr(s, id, otherwise))
  {
    TakeKeepsKnown(s, id, otherwise);
    TakeReturnsOwn(s, id, otherwise);
    forall r ensures InOnePlace(TakeOr(s, id, otherwise), r) {
      assert InOnePlace(s, r);
      TakeKeepsPlaces(s, id, otherwise, r);
    }
  }

  lemma ReceiveKeepsKnown(s: State)
    requires Known(s) && s.inFlight != []
    ensures Known(Next(AsWritten, s, Receive))
  {
    var t := Next(AsWritten, s, Receive);
    forall q | q in t.mResult ensures ParkedUnder(t, q) {
      assert q in s.mResult ==> ParkedUnder(s, q);
    }
  }

  lemma ReceiveKeepsPlaces(s: State, r: ResultId)
    requires Known(s) && s.inFlight != [] && InOnePlace(s, r) && InOnePlace(s, s.inFlight[0])
    ensures InOnePlace(Next(AsWritten, s, Receive), r)
  {
    assert s.inFlight == [s.inFlight[0]] + s.inFlight[1..];
  }

  lemma ReceiveReturnsOwn(s: State)
    requires ReturnsOwnSequence(s)
    ensures ReturnsOwnSequence(Next(AsWritten, s, Receive))
  {
  }

  lemma ReceiveKeepsInv(s: State)
    requires Inv(s)
    ensures Inv(Next(AsWritten, s, Receive))
  {
    if s.inFlight != [] {
      ReceiveKeepsKnown(s);
      ReceiveReturnsOwn(s);
      forall r ensures InOnePlace(Next(AsWritten, s, Receive), r) {
        assert InOnePlace(s, r) && InOnePlace(s, s.inFlight[0]);
        ReceiveKeepsPlaces(s, r);
      }
    }
  }

  lemma StageKeepsInv(s: State, id: CallId, stage: Stage)
    requires Inv(s) && Active(s, id) && (stage.Done? ==> !stage.outcome.Got?)
    ensures Inv(s.(calls := s.calls[id := stage]))
  {
    var t := s.(calls := s.calls[id := stage]);
    forall r ensures InOnePlace(t, r) { assert InOnePlace(s, r); }
    forall q | q in t.mResult ensures ParkedUnder(t, q) { assert ParkedUnder(s, q); }
  }

  lemma SendKeepsInv(s: State, id: CallId, q: Sequence, fails: bool)
    requires Inv(s) && id !in s.seqOf && id !in s.calls
    ensures Inv(Next(AsWritten, s, if fails then SendFails(id, q) else Send(id, q)))
  {
    var t := Next(AsWritten, s, if fails then SendFails(id, q) else Send(id, q));
    forall r ensures InOnePlace(t, r) { assert InOnePlace(s, r); }
    forall k | k in t.mResult ensures ParkedUnder(t, k) { assert ParkedUnder(s, k); }
  }

  lemma EmitKeepsPlaces(s: State, result: Result, r: ResultId)
    requires InOnePlace(s, r)
    requires forall q :: q in s.mResult ==> ParkedUnder(s, q)
    ensures InOnePlace(EmitStep(s, result), r)
  {
    var t := EmitStep(s, result);
    assert r in t.inFlight <==> r in s.inFlight || r == |s.results|;
    forall q | q in s.mResult ensures s.mResult[q] != |s.results| { assert ParkedUnder(s, q); }
  }

  lemma EmitKeepsInv(s: State, result: Result)
    requires Inv(s) && Enabled(s, Emit(result))
    ensures Inv(EmitStep(s, result))
  {
    var t := EmitStep(s, result);
    assert InOnePlace(s, |s.results|);
    forall r ensures InOnePlace(t, r) {
      assert InOnePlace(s, r);
      EmitKeepsPlaces(s, result, r);
    }
    forall k | k in t.mResult ensures ParkedUnder(t, k) { assert ParkedUnder(s, k); }
  }

  lemma NextKeepsInv(mode: Mode, s: State, a: Action)
    requires Inv(s)
    ensures Inv(Next(mode, s, a))
  {
    hide Inv, TakeOr, EmitStep;
    if Enabled(s, a) {
      match a
      case Send(id, q) => SendKeepsInv(s, id, q, false);
      case SendFails(id, q) => SendKeepsInv(s, id, q, true);
      case Emit(result) => EmitKeepsInv(s, result);
      case Receive => ReceiveKeepsInv(s);
      case Enter(id) => StageKeepsInv(s, id, Asleep); TakeKeepsInv(s, id, Asleep);
      case Spurious(id) => StageKeepsInv(s, id, Awake);
      case Expire(id) => StageKeepsInv(s, id, Expired);
      case TimeOut(id) => StageKeepsInv(s, id, Done(TimedOut));
      case WaitFails(id) => StageKeepsInv(s, id, Done(Failed));
      case Look(id) => TakeKeepsInv(s, id, if mode.AsWritten? then Ready else Asleep);
    }
  }

  /** For any callers, any results from the server and any interleaving, in both forms. */
  lemma {:induction false} RunKeepsInv(mode: Mode, s: State, acts: seq<Action>)
    requires Inv(s)
    ensures Inv(Run(mode, s, acts))
    decreases acts
  {
    if acts != [] {
      NextKeepsInv(mode, s, acts[0]);
      RunKeepsInv(mode, Next(mode, s, acts[0]), acts[1..]);
    }
  }

  lemma InitialInv()
    ensures Inv(INITIAL) && NoLostWakeUp(INITIAL)
  {
  }

  /** Results stay what they are and calls keep their sequence. */
  ghost predicate Grows(s: State, t: State) {
    s.results <= t.results && forall x :: x in s.seqOf ==> x in t.seqOf && t.seqOf[x] == s.seqOf[x]
  }

  lemma NextGrows(mode: Mode, s: State, a: Action)
    ensures Grows(s, Next(mode, s, a))
  {
  }

  lemma {:induction false} RunGrows(mode: Mode, s: State, acts: seq<Action>)
    ensures Grows(s, Run(mode, s, acts))
    decreases acts
  {
    if acts != [] {
      NextGrows(mode, s, acts[0]);
      hide Next;
      RunGrows(mode, Next(mode, s, acts[0]), acts[1..]);
    }
  }

  // ---- what a step does to the calls ----

  /** The receive thread takes the first result sent, parks it unless its key is taken, and wakes every sleeper. */
  lemma ReceiveAnswered(mode: Mode, s: State)
    requires s.inFlight != [] && s.inFlight[0] < |s.results|
    ensures var t, r, q := Next(mode, s, Receive), s.inFlight[0], s.results[s.inFlight[0]].sequence;
            && t.inFlight == s.inFlight[1..] && t.received == s.received + {r}
            && t.mResult == (if q in s.mResult then s.mResult else s.mResult[q := r])
            && t.dropped == (if q in s.mResult then s.dropped + {r} else s.dropped)
            && t.calls.Keys == s.calls.Keys
            && (forall x :: x in s.calls ==> t.calls[x] == if s.calls[x].Asleep? then Awake else s.calls[x])
            && t.seqOf == s.seqOf && t.pending == s.pending && t.results == s.results && t.delivered == s.delivered
  {
  }

  /**
   How a call comes by its outcome: a time-out only past its deadline, a failure only by a
   failed write or wait, a result only by looking while it was parked under the call's
   sequence; and an outcome stays.
   */
  lemma OutcomesMean(mode: Mode, s: State, a: Action, id: CallId)
    requires Known(s)
    ensures var t := Next(mode, s, a);
            && (id in s.calls && s.calls[id].Done? ==> id in t.calls && t.calls[id] == s.calls[id])
            && (id in t.calls && t.calls[id].Done? && !(id in s.calls && s.calls[id].Done?) ==>
                  match t.calls[id].outcome
                  case TimedOut => a == TimeOut(id) && At(s, id, Expired)
                  case Failed =>
                    (a == WaitFails(id) && At(s, id, Asleep)) || (a.SendFails? && a.id == id && id !in s.calls)
                  case Got(r) =>
                    && ((a == Look(id) && At(s, id, Awake)) || (a == Enter(id) && mode.Intended? && At(s, id, Ready)))
                    && s.seqOf[id] in s.mResult && s.mResult[s.seqOf[id]] == r)
  {
  }

  // ---- which result a call returns ----

  /** The action looks into the map. */
  predicate Takes(mode: Mode, a: Action) {
    a.Look? || (a.Enter? && mode.Intended?)
  }

  predicate NoSendOf(acts: seq<Action>, q: Sequence) {
    forall a :: a in acts && a.Send? ==> a.sequence != q
  }

  /** No other call with this sequence is waiting. */
  ghost predicate OnlyWaiter(s: State, q: Sequence, id: CallId) {
    forall x :: x != id && x in s.seqOf && s.seqOf[x] == q ==> !Active(s, x)
  }

  predicate ReturnsAtMost(s: State, id: CallId, r: ResultId) {
    id in s.calls && s.calls[id].Done? && s.calls[id].outcome.Got? ==> s.calls[id].outcome.result == r
  }

  /** The call will return the parked result `r` or none. */
  ghost predicate HoldsFor(s: State, id: CallId, r: ResultId)
    requires id in s.seqOf
  {
    var q := s.seqOf[id];
    && OnlyWaiter(s, q, id) && ReturnsAtMost(s, id, r)
    && (Active(s, id) ==> q in s.mResult && s.mResult[q] == r)
  }

  lemma TakeHolds(s: State, y: CallId, otherwise: Stage, id: CallId, r: ResultId)
    requires id in s.seqOf && y in s.seqOf && Active(s, y) && !otherwise.Done? && HoldsFor(s, id, r)
    ensures HoldsFor(TakeOr(s, y, otherwise), id, r)
  {
    assert y != id ==> s.seqOf[y] != s.seqOf[id];
  }

  lemma OthersHold(mode: Mode, s: State, a: Action, id: CallId, r: ResultId)
    requires Known(s) && id in s.seqOf && HoldsFor(s, id, r) && (a.Send? ==> a.sequence != s.seqOf[id])
    requires Enabled(s, a) && !Takes(mode, a)
    ensures var t := Next(mode, s, a);
            id in t.seqOf && t.seqOf[id] == s.seqOf[id] && HoldsFor(t, id, r)
  {
    hide TakeOr;
  }

  lemma NextHolds(mode: Mode, s: State, a: Action, id: CallId, r: ResultId)
    requires Known(s) && id in s.seqOf && HoldsFor(s, id, r) && (a.Send? ==> a.sequence != s.seqOf[id])
    ensures var t := Next(mode, s, a);
            id in t.seqOf && t.seqOf[id] == s.seqOf[id] && HoldsFor(t, id, r)
  {
    if Enabled(s, a) {
      hide HoldsFor;
      if Takes(mode, a) {
        TakeHolds(s, a.id, if a.Look? && mode.AsWritten? then Ready else Asleep, id, r);
      } else {
        OthersHold(mode, s, a, id, r);
      }
    }
  }

  lemma {:induction false} RunHolds(mode: Mode, s: State, acts: seq<Action>, id: CallId, r: ResultId)
    requires Inv(s) && id in s.seqOf && HoldsFor(s, id, r) && NoSendOf(acts, s.seqOf[id])
    ensures ReturnsAtMost(Run(mode, s, acts), id, r)
    decreases acts
  {
    if acts != [] {
      NextHolds(mode, s, acts[0], id, r);
      NextKeepsInv(mode, s, acts[0]);
      RunHolds(mode, Next(mode, s, acts[0]), acts[1..], id, r);
    }
  }

  /**
   A result parked under a sequence nobody waits for is the only one the next call with it can
   return, whatever the server sends.
   */
  lemma ParkedIsReturned(mode: Mode, s: State, id: CallId, q: Sequence, acts: seq<Action>)
    requires Inv(s) && id !in s.seqOf && q in s.mResult && OnlyWaiter(s, q, id) && NoSendOf(acts, q)
    ensures ReturnsAtMost(Run(mode, Next(mode, s, Send(id, q)), acts), id, s.mResult[q])
  {
    NextKeepsInv(mode, s, Send(id, q));
    RunHolds(mode, Next(mode, s, Send(id, q)), acts, id, s.mResult[q]);
  }

  // ---- the answer to the call's own command ----

  /** The call returned nothing but a result about its own command. */
  predicate ReturnsOwn(s: State, id: CallId) {
    id in s.calls && s.calls[id].Done? && s.calls[id].outcome.Got? ==> About(s, s.calls[id].outcome.result, id)
  }

  /** Under the sequence of the call the server sends only results about it or about commands it has not answered. */
  predicate HonestStep(s: State, a: Action, id: CallId)
    requires id in s.seqOf
  {
    a.Emit? && a.result.sequence == s.seqOf[id] && a.result.subject != Call(id) ==>
      && a.result.subject.Call? && a.result.subject.id in s.pending
      && a.result.subject.id in s.seqOf && s.seqOf[a.result.subject.id] == s.seqOf[id]
  }

  predicate Honest(mode: Mode, s: State, acts: seq<Action>, id: CallId)
    requires id in s.seqOf
    decreases acts
  {
    acts != [] ==> HonestStep(s, acts[0], id) && Honest(mode, Next(mode, s, acts[0]), acts[1..], id)
  }

  lemma {:induction false} QuietIsHonest(mode: Mode, s: State, acts: seq<Action>, id: CallId)
    requires id in s.seqOf && forall a :: a in acts ==> !a.Emit?
    ensures Honest(mode, s, acts, id)
    decreases acts
  {
    if acts != [] { QuietIsHonest(mode, Next(mode, s, acts[0]), acts[1..], id); }
  }

  /** Nothing under this sequence is on the socket, nor to come for another command. */
  ghost predicate NoneUnderWay(s: State, q: Sequence, id: CallId) {
    && (forall x :: x != id && x in s.pending && x in s.seqOf ==> s.seqOf[x] != q)
    && (forall r :: r in s.inFlight && r < |s.results| ==> s.results[r].sequence != q)
  }

  /** No result but one about it can reach the call. */
  ghost predicate OwnOnly(s: State, id: CallId)
    requires id in s.seqOf
  {
    var q := s.seqOf[id];
    && (forall x :: x != id && x in s.pending && x in s.seqOf ==> s.seqOf[x] != q)
    && (forall r :: r in s.inFlight && r < |s.results| && s.results[r].sequence == q ==> About(s, r, id))
    && (q in s.mResult ==> About(s, s.mResult[q], id))
    && ReturnsOwn(s, id)
  }

  lemma ReceiveOwnOnly(s: State, id: CallId)
    requires Known(s) && id in s.seqOf && OwnOnly(s, id)
    ensures OwnOnly(Next(AsWritten, s, Receive), id)
  {
    if s.inFlight != [] {
      assert s.inFlight[0] in s.inFlight;
      assert forall r :: r in s.inFlight[1..] ==> r in s.inFlight;
    }
  }

  lemma TakeOwnOnly(s: State, y: CallId, otherwise: Stage, id: CallId)
    requires id in s.seqOf && y in s.seqOf && OwnOnly(s, id) && !otherwise.Done?
    ensures OwnOnly(TakeOr(s, y, otherwise), id)
  {
  }

  lemma EmitOwnOnly(s: State, result: Result, id: CallId)
    requires id in s.seqOf && OwnOnly(s, id) && HonestStep(s, Emit(result), id)
    ensures OwnOnly(EmitStep(s, result), id)
  {
    var t := EmitStep(s, result);
    forall r | r in t.inFlight && r < |t.results| && t.results[r].sequence == s.seqOf[id] ensures About(t, r, id) {
      if r < |s.results| { assert r in s.inFlight; }
    }
  }

  lemma OthersOwnOnly(mode: Mode, s: State, a: Action, id: CallId)
    requires Known(s) && id in s.seqOf && OwnOnly(s, id)
    requires Enabled(s, a) && !Takes(mode, a) && !a.Receive? && !a.Emit?
    requires a.Send? ==> a.sequence != s.seqOf[id]
    ensures var t := Next(mode, s, a);
            id in t.seqOf && t.seqOf[id] == s.seqOf[id] && OwnOnly(t, id)
  {
    hide TakeOr, HandleResult, EmitStep;
  }

  lemma NextOwnOnly(mode: Mode, s: State, a: Action, id: CallId)
    requires Known(s) && id in s.seqOf && OwnOnly(s, id) && HonestStep(s, a, id)
    requires a.Send? ==> a.sequence != s.seqOf[id]
    ensures var t := Next(mode, s, a);
            id in t.seqOf && t.seqOf[id] == s.seqOf[id] && OwnOnly(t, id)
  {
    if Enabled(s, a) {
      hide OwnOnly;
      if Takes(mode, a) {
        TakeOwnOnly(s, a.id, if a.Look? && mode.AsWritten? then Ready else Asleep, id);
      } else if a.Receive? {
        ReceiveOwnOnly(s, id);
      } else if a.Emit? {
        EmitOwnOnly(s, a.result, id);
      } else {
        OthersOwnOnly(mode, s, a, id);
      }
    }
  }

  lemma {:induction false} RunOwnOnly(mode: Mode, s: State, acts: seq<Action>, id: CallId)
    requires Inv(s) && id in s.seqOf && OwnOnly(s, id) && NoSendOf(acts, s.seqOf[id]) && Honest(mode, s, acts, id)
    ensures ReturnsOwn(Run(mode, s, acts), id)
    decreases acts
  {
    if acts != [] {
      NextOwnOnly(mode, s, acts[0], id);
      NextKeepsInv(mode, s, acts[0]);
      RunOwnOnly(mode, Next(mode, s, acts[0]), acts[1..], id);
    }
  }

  /** A call about to take the mutex that no result was sent about. */
  predicate Waits(s: State, id: CallId) {
    At(s, id, Ready) && id in s.pending
  }

  // ---- how a result arrives ----

  lemma {:induction false} RunAppended(mode: Mode, s: State, a: seq<Action>, b: seq<Action>)
    ensures Run(mode, s, a + b) == Run(mode, Run(mode, s, a), b)
    decreases a
  {
    if a == [] {
      assert a + b == b;
    } else {
      assert (a + b)[1..] == a[1..] + b;
      RunAppended(mode, Next(mode, s, a[0]), a[1..], b);
    }
  }

  /** Go to sleep, wake for no reason, and look. */
  function LookOnce(id: CallId): seq<Action> {
    [Enter(id), Spurious(id), Look(id)]
  }

  lemma RunThree(mode: Mode, s: State, a: Action, b: Action, c: Action)
    ensures Run(mode, s, [a, b, c]) == Next(mode, Next(mode, Next(mode, s, a), b), c)
  {
    var t := Next(mode, s, a);
    assert [a, b, c][1..] == [b, c] && [b, c][1..] == [c] && [c][1..] == [];
    assert Run(mode, s, [a, b, c]) == Run(mode, t, [b, c]) == Run(mode, Next(mode, t, b), [c]);
    assert Run(mode, Next(mode, t, b), [c]) == Run(mode, Next(mode, Next(mode, t, b), c), []);
  }

  function Receives(n: nat): (acts: seq<Action>)
    ensures forall a :: a in acts ==> a.Receive?
  {
    if n == 0 then [] else [Receive] + Receives(n - 1)
  }

  /**
   Everything parked stays, each result that was on the socket has left a parked one under its
   sequence, and nothing else is parked.
   */
  ghost predicate AllParked(s: State, t: State) {
    && t.seqOf == s.seqOf && t.results == s.results
    && (forall q :: q in s.mResult ==> q in t.mResult)
    && (forall r :: r in s.inFlight ==> r < |s.results| && s.results[r].sequence in t.mResult)
    && (forall q :: q in t.mResult ==> t.mResult[q] in s.inFlight || Parked(s, t.mResult[q]))
  }

  /** Receiving one result parks it or finds one parked, and takes none out. */
  ghost predicate OneParked(s: State, u: State) {
    && s.inFlight != [] && u.seqOf == s.seqOf && u.results == s.results && u.inFlight == s.inFlight[1..]
    && s.inFlight[0] < |s.results| && s.results[s.inFlight[0]].sequence in u.mResult
    && (forall q :: q in s.mResult ==> q in u.mResult)
    && (forall r :: Parked(u, r) ==> Parked(s, r) || r == s.inFlight[0])
  }

  lemma ReceiveParksOne(mode: Mode, s: State)
    requires Inv(s) && s.inFlight != []
    ensures OneParked(s, Next(mode, s, Receive))
  {
    assert InOnePlace(s, s.inFlight[0]);
  }

  lemma ReceiveParks(s: State, u: State, t: State)
    requires OneParked(s, u) && AllParked(u, t)
    ensures AllParked(s, t)
  {
    hide Parked;
    assert s.inFlight == [s.inFlight[0]] + u.inFlight;
    forall q | q in t.mResult ensures t.mResult[q] in s.inFlight || Parked(s, t.mResult[q]) {
      assert t.mResult[q] in u.inFlight || Parked(u, t.mResult[q]);
    }
  }

  lemma ReceiveLeavesReady(mode: Mode, s: State, id: CallId)
    requires Inv(s) && At(s, id, Ready) && s.inFlight != []
    ensures At(Next(mode, s, Receive), id, Ready) && |Next(mode, s, Receive).inFlight| == |s.inFlight| - 1
    ensures Inv(Next(mode, s, Receive))
  {
    assert InOnePlace(s, s.inFlight[0]);
    NextKeepsInv(mode, s, Receive);
  }

  /** With every result on the socket received, each of their sequences has a parked result. */
  lemma {:induction false} ReceivesPark(mode: Mode, s: State, id: CallId, n: nat)
    requires Inv(s) && At(s, id, Ready) && n == |s.inFlight|
    ensures var t := Run(mode, s, Receives(n));
            Inv(t) && At(t, id, Ready) && AllParked(s, t)
    decreases n
  {
    hide Inv, Next, At, AllParked, OneParked;
    if n == 0 {
      assert AllParked(s, s) by { AllParkedNow(s); }
    } else {
      var u := Next(mode, s, Receive);
      ReceiveLeavesReady(mode, s, id);
      ReceivesPark(mode, u, id, n - 1);
      assert Receives(n)[1..] == Receives(n - 1);
      ReceiveParksOne(mode, s);
      ReceiveParks(s, u, Run(mode, s, Receives(n)));
    }
  }

  lemma AllParkedNow(s: State)
    requires Inv(s) && s.inFlight == []
    ensures AllParked(s, s)
  {
    assert forall q :: q in s.mResult ==> ParkedUnder(s, q);
  }

  lemma ReadyTakesParked(mode: Mode, s: State, id: CallId)
    requires At(s, id, Ready) && s.seqOf[id] in s.mResult
    ensures At(Run(mode, s, LookOnce(id)), id, Done(Got(s.mResult[s.seqOf[id]])))
    ensures Run(mode, s, LookOnce(id)).results == s.results
  {
    RunThree(mode, s, Enter(id), Spurious(id), Look(id));
    var t := Next(mode, s, Enter(id));
    assert mode.Intended? ==> At(t, id, Done(Got(s.mResult[s.seqOf[id]])));
    assert mode.AsWritten? ==> At(t, id, Asleep) && At(Next(mode, t, Spurious(id)), id, Awake);
  }

  /** A result under the sequence is parked or on the socket. */
  ghost predicate Ahead(s: State, q: Sequence) {
    q in s.mResult || exists r :: r in s.inFlight && r < |s.results| && s.results[r].sequence == q
  }

  /** Everything on the socket is received, and the call looks. */
  function ArrivalRun(s: State, id: CallId): (acts: seq<Action>)
    ensures forall a :: a in acts ==> !a.Emit? && !a.Send?
  {
    Receives(|s.inFlight|) + LookOnce(id)
  }

  /** A call is ready and a result under its sequence is ahead: some run gives it one of those ahead. */
  lemma AheadArrives(mode: Mode, s: State, id: CallId) returns (r: ResultId)
    requires Inv(s) && At(s, id, Ready) && Ahead(s, s.seqOf[id])
    ensures r < |s.results| && (r in s.inFlight || Parked(s, r)) && s.results[r].sequence == s.seqOf[id]
    ensures var t := Run(mode, s, ArrivalRun(s, id));
            At(t, id, Done(Got(r))) && t.results == s.results
  {
    hide Run, LookOnce, Receives;
    var t := Run(mode, s, Receives(|s.inFlight|));
    ReceivesPark(mode, s, id, |s.inFlight|);
    RunAppended(mode, s, Receives(|s.inFlight|), LookOnce(id));
    ReadyTakesParked(mode, t, id);
    r := t.mResult[s.seqOf[id]];
    assert ParkedUnder(t, s.seqOf[id]);
  }

  /** A call that returns no result but one about it, in every run without another call of its sequence. */
  ghost predicate SafeFor(mode: Mode, s: State, id: CallId, q: Sequence)
    requires id in s.seqOf
  {
    forall acts :: NoSendOf(acts, q) && Honest(mode, s, acts, id) ==> ReturnsOwn(Run(mode, s, acts), id)
  }

  /** While no result was sent about a waiting call, one ahead under its sequence is foreign, and can reach it. */
  lemma AheadSpoils(mode: Mode, s: State, id: CallId)
    requires Inv(s) && Waits(s, id) && Ahead(s, s.seqOf[id])
    ensures !SafeFor(mode, s, id, s.seqOf[id])
  {
    hide Inv, Run, ArrivalRun, Ahead;
    var r := AheadArrives(mode, s, id);
    QuietIsHonest(mode, s, ArrivalRun(s, id), id);
    assert !About(s, r, id) by { AboutNone(s, id, r); }
    assert !ReturnsOwn(Run(mode, s, ArrivalRun(s, id)), id);
  }

  lemma AboutNone(s: State, id: CallId, r: ResultId)
    requires Inv(s) && id in s.pending
    ensures !About(s, r, id)
  {
  }

  lemma SafeAfter(mode: Mode, s: State, a: Action, id: CallId, q: Sequence)
    requires id in s.seqOf && id in Next(mode, s, a).seqOf && HonestStep(s, a, id) && !a.Send?
    requires SafeFor(mode, s, id, q)
    ensures SafeFor(mode, Next(mode, s, a), id, q)
  {
    var t := Next(mode, s, a);
    forall acts | NoSendOf(acts, q) && Honest(mode, t, acts, id) ensures ReturnsOwn(Run(mode, t, acts), id) {
      assert ([a] + acts)[1..] == acts;
      assert NoSendOf([a] + acts, q) && Honest(mode, s, [a] + acts, id);
      assert Run(mode, s, [a] + acts) == Run(mode, t, acts);
    }
  }

  lemma EmitPutsAhead(s: State, result: Result)
    ensures Ahead(EmitStep(s, result), result.sequence)
  {
    var t, r := EmitStep(s, result), |s.results|;
    assert t.inFlight[|s.inFlight|] == r;
    assert r in t.inFlight && r < |t.results| && t.results[r].sequence == result.sequence;
  }

  /** One result about something else, sent under the sequence of a waiting call, is enough. */
  lemma ForeignResultSpoils(mode: Mode, s: State, id: CallId, result: Result)
    requires Inv(s) && Waits(s, id) && Enabled(s, Emit(result))
    requires result.sequence == s.seqOf[id] && result.subject != Call(id)
    ensures !SafeFor(mode, Next(mode, s, Emit(result)), id, s.seqOf[id])
  {
    hide Inv, SafeFor, Ahead;
    NextKeepsInv(mode, s, Emit(result));
    EmitPutsAhead(s, result);
    AheadSpoils(mode, Next(mode, s, Emit(result)), id);
  }

  /** So is another command with the sequence that is still to be answered. */
  lemma PendingSpoils(mode: Mode, s: State, id: CallId, x: CallId)
    requires Inv(s) && Waits(s, id) && x != id && x in s.pending && x in s.seqOf && s.seqOf[x] == s.seqOf[id]
    ensures !SafeFor(mode, s, id, s.seqOf[id])
  {
    hide Inv, SafeFor;
    var answer := Result(s.seqOf[id], Call(x));
    ForeignResultSpoils(mode, s, id, answer);
    if SafeFor(mode, s, id, s.seqOf[id]) { SafeAfter(mode, s, Emit(answer), id, s.seqOf[id]); }
  }

  lemma SentIsFresh(s: State, id: CallId, q: Sequence)
    requires Inv(s) && id !in s.seqOf
    ensures var t := Next(AsWritten, s, Send(id, q));
            && Waits(t, id) && t.seqOf[id] == q
            && (forall x :: x in s.seqOf ==> x in t.seqOf && t.seqOf[x] == s.seqOf[x])
            && (q !in s.mResult && NoneUnderWay(s, q, id) ==> OwnOnly(t, id))
            && (!(q !in s.mResult && NoneUnderWay(s, q, id)) ==>
                  Ahead(t, q) || exists x :: x != id && x in t.pending && x in t.seqOf && t.seqOf[x] == q)
  {
    var t := Next(AsWritten, s, Send(id, q));
    if q !in s.mResult && !NoneUnderWay(s, q, id) {
      if x :| x != id && x in s.pending && x in s.seqOf && s.seqOf[x] == q {
        assert x in t.pending && t.seqOf[x] == q;
      } else {
        var r :| r in s.inFlight && r < |s.results| && s.results[r].sequence == q;
        assert r in t.inFlight;
      }
    }
  }

  /**
   In any state: a call sent under a sequence returns no result but one about its own command,
   in every run before the sequence is used again, exactly if no result is parked under it or
   on the socket and no earlier command with it is unanswered. The runs are those in which
   the server sends, under that sequence, only answers to commands that carry it.
   */
  lemma OwnAnswerExactly(mode: Mode, s: State, id: CallId, q: Sequence)
    requires Inv(s) && id !in s.seqOf
    ensures SafeFor(mode, Next(mode, s, Send(id, q)), id, q) <==> q !in s.mResult && NoneUnderWay(s, q, id)
  {
    hide Inv, Ahead, OwnOnly, NoneUnderWay, Honest, ReturnsOwn, Run;
    var t := Next(mode, s, Send(id, q));
    NextKeepsInv(mode, s, Send(id, q));
    SentIsFresh(s, id, q);
    if q !in s.mResult && NoneUnderWay(s, q, id) {
      forall acts | NoSendOf(acts, q) && Honest(mode, t, acts, id) ensures ReturnsOwn(Run(mode, t, acts), id) {
        RunOwnOnly(mode, t, acts, id);
      }
    } else if Ahead(t, q) {
      AheadSpoils(mode, t, id);
    } else {
      var x :| x != id && x in t.pending && x in t.seqOf && t.seqOf[x] == q;
      PendingSpoils(mode, t, id, x);
    }
  }

  /** Once the sequence is used again before the call looks, its own answer is never assured. */
  lemma LaterSendSpoils(mode: Mode, s: State, id: CallId, later: CallId)
    requires Inv(s) && Waits(s, id) && later !in s.seqOf
    ensures !SafeFor(mode, Next(mode, s, Send(later, s.seqOf[id])), id, s.seqOf[id])
  {
    NextKeepsInv(mode, s, Send(later, s.seqOf[id]));
    PendingSpoils(mode, Next(mode, s, Send(later, s.seqOf[id])), id, later);
  }

  /**
   An answer reaches a waiting call, with nothing else ahead under its sequence, exactly if it
   carries that sequence.
   */
  lemma AnswerReachesExactly(mode: Mode, s: State, id: CallId, k: Sequence)
    requires Inv(s) && Waits(s, id) && !Ahead(s, s.seqOf[id])
    ensures var t := Next(mode, s, Emit(Result(k, Call(id))));
            (exists acts :: At(Run(mode, t, acts), id, Done(Got(|s.results|)))) <==> k == s.seqOf[id]
  {
    var t := Next(mode, s, Emit(Result(k, Call(id))));
    var r := |s.results|;
    NextKeepsInv(mode, s, Emit(Result(k, Call(id))));
    if k == s.seqOf[id] {
      EmitPutsAhead(s, Result(k, Call(id)));
      OwnArrives(mode, s, id, t);
    } else {
      forall acts ensures !At(Run(mode, t, acts), id, Done(Got(r))) {
        AnotherSequenceNeverArrives(mode, t, id, r, acts);
      }
    }
  }

  lemma AnotherSequenceNeverArrives(mode: Mode, s: State, id: CallId, r: ResultId, acts: seq<Action>)
    requires Inv(s) && id in s.seqOf && r < |s.results| && s.results[r].sequence != s.seqOf[id]
    ensures !At(Run(mode, s, acts), id, Done(Got(r)))
  {
    RunKeepsInv(mode, s, acts);
    RunGrows(mode, s, acts);
  }

  lemma OwnArrives(mode: Mode, s: State, id: CallId, t: State)
    requires Inv(s) && Waits(s, id) && !Ahead(s, s.seqOf[id])
    requires t == EmitStep(s, Result(s.seqOf[id], Call(id))) && Inv(t)
    ensures At(Run(mode, t, ArrivalRun(t, id)), id, Done(Got(|s.results|)))
  {
    hide Inv, Run, ArrivalRun;
    EmitPutsAhead(s, Result(s.seqOf[id], Call(id)));
    var r := AheadArrives(mode, t, id);
    assert forall x :: 0 <= x < |s.results| ==> t.results[x] == s.results[x];
    assert r >= |s.results|;
  }

  // ---- no lost wake-up ----

  predicate NoLostWakeUp(s: State) {
    forall id :: id in s.calls && At(s, id, Asleep) ==> s.seqOf[id] !in s.mResult
  }

  /** A thread goes to sleep for a result that is parked already. */
  predicate SleepsOnParked(s: State, a: Action) {
    a.Enter? && Enabled(s, a) && s.seqOf[a.id] in s.mResult
  }

  lemma IntendedLosesNone(s: State, a: Action)
    requires Known(s) && NoLostWakeUp(s)
    ensures NoLostWakeUp(Next(Intended, s, a))
  {
  }

  lemma AsWrittenLosesExactly(s: State, a: Action)
    requires Known(s) && NoLostWakeUp(s)
    ensures NoLostWakeUp(Next(AsWritten, s, a)) <==> !SleepsOnParked(s, a)
  {
    if SleepsOnParked(s, a) {
      assert At(Next(AsWritten, s, a), a.id, Asleep);
    }
  }

  ghost predicate NeverLost(mode: Mode, s: State, acts: seq<Action>)
    decreases acts
  {
    NoLostWakeUp(s) && (acts != [] ==> NeverLost(mode, Next(mode, s, acts[0]), acts[1..]))
  }

  predicate NeverSleepsOnParked(s: State, acts: seq<Action>)
    decreases acts
  {
    acts != [] ==> !SleepsOnParked(s, acts[0]) && NeverSleepsOnParked(Next(AsWritten, s, acts[0]), acts[1..])
  }

  /**
   Looking before each wait, no thread ever sleeps on a parked result; waiting first, that
   holds of exactly the runs in which no result came early.
   */
  lemma {:induction false} WakeUpsExactly(s: State, acts: seq<Action>)
    requires Inv(s) && NoLostWakeUp(s)
    ensures NeverLost(Intended, s, acts)
    ensures NeverLost(AsWritten, s, acts) <==> NeverSleepsOnParked(s, acts)
    decreases acts
  {
    if acts != [] {
      NextKeepsInv(Intended, s, acts[0]);
      IntendedLosesNone(s, acts[0]);
      WakeUpsExactly(Next(Intended, s, acts[0]), acts[1..]);
      NextKeepsInv(AsWritten, s, acts[0]);
      AsWrittenLosesExactly(s, acts[0]);
      if !SleepsOnParked(s, acts[0]) {
        WakeUpsExactly(Next(AsWritten, s, acts[0]), acts[1..]);
      }
    }
  }

  lemma {:induction false} IntendedRunLosesNone(s: State, acts: seq<Action>)
    requires Inv(s) && NoLostWakeUp(s)
    ensures NoLostWakeUp(Run(Intended, s, acts))
    decreases acts
  {
    if acts != [] {
      NextKeepsInv(Intended, s, acts[0]);
      IntendedLosesNone(s, acts[0]);
      IntendedRunLosesNone(Next(Intended, s, acts[0]), acts[1..]);
    }
  }

  /**
   In the intended form, when a call's deadline passes in its wait, no result with its sequence
   has been received, unless another call with the sequence returned it or a result parked
   there before dropped it.
   */
  lemma ExpiryMeansNotParked(s: State, acts: seq<Action>, id: CallId, r: ResultId)
    requires Inv(s) && NoLostWakeUp(s)
    ensures var t := Run(Intended, s, acts);
            Enabled(t, Expire(id)) && r in t.received && r < |t.results| && t.results[r].sequence == t.seqOf[id] ==>
              r in t.dropped || (r in t.delivered && t.delivered[r] != id)
  {
    IntendedRunLosesNone(s, acts);
    RunKeepsInv(Intended, s, acts);
    assert InOnePlace(Run(Intended, s, acts), r);
  }

  /** While the call has not returned, what came under its sequence since `before` is parked there. */
  ghost predicate Caught(s: State, id: CallId, before: set<ResultId>)
    requires id in s.seqOf
  {
    var q := s.seqOf[id];
    && OnlyWaiter(s, q, id)
    && (Active(s, id) ==> forall r ::
          r in s.received && r < |s.results| && s.results[r].sequence == q ==> r in before || q in s.mResult)
  }

  lemma TakeCatches(s: State, y: CallId, otherwise: Stage, id: CallId, before: set<ResultId>)
    requires id in s.seqOf && y in s.seqOf && Active(s, y) && !otherwise.Done? && Caught(s, id, before)
    ensures Caught(TakeOr(s, y, otherwise), id, before)
  {
    assert y != id ==> s.seqOf[y] != s.seqOf[id];
  }

  lemma EmitCatches(s: State, result: Result, id: CallId, before: set<ResultId>)
    requires Inv(s) && id in s.seqOf && Caught(s, id, before)
    ensures Caught(EmitStep(s, result), id, before)
  {
    assert InOnePlace(s, |s.results|);
  }

  lemma OthersCatch(mode: Mode, s: State, a: Action, id: CallId, before: set<ResultId>)
    requires Known(s) && id in s.seqOf && Caught(s, id, before) && (a.Send? ==> a.sequence != s.seqOf[id])
    requires Enabled(s, a) && !Takes(mode, a) && !a.Emit?
    ensures var t := Next(mode, s, a);
            id in t.seqOf && t.seqOf[id] == s.seqOf[id] && Caught(t, id, before)
  {
    hide TakeOr, EmitStep;
  }

  lemma NextCatches(mode: Mode, s: State, a: Action, id: CallId, before: set<ResultId>)
    requires Inv(s) && id in s.seqOf && Caught(s, id, before) && (a.Send? ==> a.sequence != s.seqOf[id])
    ensures var t := Next(mode, s, a);
            id in t.seqOf && t.seqOf[id] == s.seqOf[id] && Caught(t, id, before)
  {
    if Enabled(s, a) {
      hide Caught;
      if Takes(mode, a) {
        TakeCatches(s, a.id, if a.Look? && mode.AsWritten? then Ready else Asleep, id, before);
      } else if a.Emit? {
        EmitCatches(s, a.result, id, before);
      } else {
        OthersCatch(mode, s, a, id, before);
      }
    }
  }

  lemma {:induction false} RunCatches(mode: Mode, s: State, acts: seq<Action>, id: CallId, before: set<ResultId>)
    requires Inv(s) && id in s.seqOf && Caught(s, id, before) && NoSendOf(acts, s.seqOf[id])
    ensures var t := Run(mode, s, acts);
            id in t.seqOf && t.seqOf[id] == s.seqOf[id] && Caught(t, id, before)
    decreases acts
  {
    if acts != [] {
      hide Caught;
      NextCatches(mode, s, acts[0], id, before);
      NextKeepsInv(mode, s, acts[0]);
      RunCatches(mode, Next(mode, s, acts[0]), acts[1..], id, before);
    }
  }

  /**
   In the intended form, a call is sent under a sequence nobody else waits for and nothing is
   parked under: if its deadline passes, nothing under that sequence has been received since.
   So no answer to it that carries its sequence was.
   */
  lemma TimeOutMeansUnanswered(s: State, id: CallId, q: Sequence, acts: seq<Action>)
    requires Inv(s) && NoLostWakeUp(s) && id !in s.seqOf && OnlyWaiter(s, q, id) && q !in s.mResult
    requires NoSendOf(acts, q)
    ensures var t := Run(Intended, Next(Intended, s, Send(id, q)), acts);
            Enabled(t, Expire(id)) ==> forall r :: r in t.received && r < |t.results| && t.results[r].sequence == q ==>
              r in s.received && !About(t, r, id)
  {
    var s1 := Next(Intended, s, Send(id, q));
    var t := Run(Intended, s1, acts);
    NextKeepsInv(Intended, s, Send(id, q));
    IntendedLosesNone(s, Send(id, q));
    IntendedRunLosesNone(s1, acts);
    RunCatches(Intended, s1, acts, id, s.received);
    RunGrows(Intended, s1, acts);
    forall r | r in s.received ensures r < |s.results| && !About(t, r, id) {
      assert InOnePlace(s, r);
      assert t.results[r] == s.results[r];
    }
  }

  /** Call 0 has timed out and the server has not answered it. */
  function TimedOutCall(q: Sequence): State {
    OnlyCall(q, Done(TimedOut))
  }

  lemma CallTimesOut(mode: Mode, q: Sequence)
    ensures Next(mode, Run(mode, INITIAL, [Send(0, q), Enter(0), Expire(0)]), TimeOut(0)) == TimedOutCall(q)
  {
    RunThree(mode, INITIAL, Send(0, q), Enter(0), Expire(0));
    CallStage(mode, q, Ready, Asleep, Enter(0));
    CallStage(mode, q, Asleep, Expired, Expire(0));
    CallStage(mode, q, Expired, Done(TimedOut), TimeOut(0));
    assert Next(mode, INITIAL, Send(0, q)) == OnlyCall(q, Ready);
  }

  /** Call 0 is the only one, unanswered and in this stage. */
  function OnlyCall(q: Sequence, stage: Stage): State {
    State(map[0 := q], map[0 := stage], {0}, [], [], map[], {}, map[], {})
  }

  lemma CallStage(mode: Mode, q: Sequence, before: Stage, after: Stage, a: Action)
    requires || (before.Ready? && after.Asleep? && a == Enter(0))
             || (before.Asleep? && after.Expired? && a == Expire(0))
             || (before.Expired? && after == Done(TimedOut) && a == TimeOut(0))
    ensures Next(mode, OnlyCall(q, before), a) == OnlyCall(q, after)
  {
    assert map[0 := before][0 := after] == map[0 := after];
  }

  lemma TimedOutCallInv(q: Sequence)
    ensures Inv(TimedOutCall(q))
  {
  }

  /** A call times out unanswered: the next call with its sequence can return the answer to it as its own. */
  lemma ReusedSequenceReturnsStale(mode: Mode, q: Sequence)
    ensures var s := TimedOutCall(q);
            var t := Next(mode, s, Send(1, q));
            var u := Next(mode, t, Emit(Result(q, Call(0))));
            && s == Next(mode, Run(mode, INITIAL, [Send(0, q), Enter(0), Expire(0)]), TimeOut(0))
            && HonestStep(t, Emit(Result(q, Call(0))), 1) && !SafeFor(mode, t, 1, q)
            && At(Run(mode, u, ArrivalRun(u, 1)), 1, Done(Got(0))) && About(u, 0, 0)
  {
    hide Inv, SafeFor, Run, ArrivalRun;
    var s := TimedOutCall(q);
    var t := Next(mode, s, Send(1, q));
    var u := Next(mode, t, Emit(Result(q, Call(0))));
    CallTimesOut(mode, q);
    TimedOutCallInv(q);
    NextKeepsInv(mode, s, Send(1, q));
    NextKeepsInv(mode, t, Emit(Result(q, Call(0))));
    PendingSpoils(mode, t, 1, 0);
    EmitPutsAhead(t, Result(q, Call(0)));
    var r := AheadArrives(mode, u, 1);
  }

  /** A result about call 0, under the sequence `k`, came before the call waited and is parked. */
  function EarlyResult(q: Sequence, k: Sequence): State {
    State(map[0 := q], map[0 := Ready], {}, [Result(k, Call(0))], [], map[k := 0], {0}, map[], {})
  }

  lemma ResultComesEarly(mode: Mode, q: Sequence, k: Sequence)
    ensures Run(mode, INITIAL, [Send(0, q), Emit(Result(k, Call(0))), Receive]) == EarlyResult(q, k)
  {
    RunThree(mode, INITIAL, Send(0, q), Emit(Result(k, Call(0))), Receive);
    var s1 := Next(mode, INITIAL, Send(0, q));
    var s2 := Next(mode, s1, Emit(Result(k, Call(0))));
    assert s1 == OnlyCall(q, Ready);
    assert s2 == s1.(pending := {}, results := [Result(k, Call(0))], inFlight := [0]);
  }

  lemma ParkedTimesOut(mode: Mode, q: Sequence, k: Sequence)
    requires mode.AsWritten? || k != q
    ensures var t := Run(mode, EarlyResult(q, k), [Enter(0), Expire(0), TimeOut(0)]);
            At(t, 0, Done(TimedOut)) && Parked(t, 0) && About(t, 0, 0)
  {
    RunThree(mode, EarlyResult(q, k), Enter(0), Expire(0), TimeOut(0));
    var s1 := Next(mode, EarlyResult(q, k), Enter(0));
    assert s1 == EarlyResult(q, k).(calls := map[0 := Asleep]);
    assert Next(mode, s1, Expire(0)) == s1.(calls := map[0 := Expired]);
  }

  /** As the code is written, a result that comes before the wait is reported as a time-out while it is parked. */
  lemma EarlyResultTimesOut(q: Sequence)
    ensures var s := Run(AsWritten, INITIAL, [Send(0, q), Emit(Result(q, Call(0))), Receive]);
            var t := Run(AsWritten, s, [Enter(0), Expire(0), TimeOut(0)]);
            At(t, 0, Done(TimedOut)) && Parked(t, 0) && About(t, 0, 0)
  {
    ResultComesEarly(AsWritten, q, q);
    ParkedTimesOut(AsWritten, q, q);
  }

  /**
   In both forms: the refusal of a client that is neither root nor system carries sequence 0,
   so it is received and parked there, and its caller times out.
   */
  lemma RefusedCallTimesOut(mode: Mode, q: Sequence)
    requires q != 0
    ensures var s := Run(mode, INITIAL, [Send(0, q), Emit(Result(0, Call(0))), Receive]);
            var t := Run(mode, s, [Enter(0), Expire(0), TimeOut(0)]);
            At(t, 0, Done(TimedOut)) && Parked(t, 0) && About(t, 0, 0)
  {
    ResultComesEarly(mode, q, 0);
    ParkedTimesOut(mode, q, 0);
  }
}
