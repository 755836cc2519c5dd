/**
 What the path of a command does, outright: who gets a slot, which messages are posted and to
 which executor they go, and that a command of a permitted client is executed, as its client's.
 */
module PathAnswers {
  import opened ClientTable
  import opened ProcessList
  import NS = NormalSpec
  import opened NormalSpec
  import opened Pipeline

  /** The first free slot takes a new connection, under the next number; a full table takes none. */
  lemma AcceptAnswered(s: System, fd: int, client: Client, i: nat)
    requires i <= |s.slots| && forall j :: 0 <= j < i ==> s.slots[j].fd >= 0
    requires i < |s.slots| ==> s.slots[i].fd < 0
    ensures Next(s, Accept(fd, client))
            == if fd < 0 || i == |s.slots| then s
               else s.(slots := s.slots[i := ClientSocket(fd, client)],
                       connOf := s.connOf[i := |s.clients|],
                       clients := s.clients + [client])
  {
    FirstFreeIs(s.slots, i);
  }

  predicate Permitted(s: System, slot: nat) {
    && slot < |s.slots| && s.slots[slot].fd >= 0 && slot in s.connOf
    && (s.slots[slot].client.uid == 0 || s.slots[slot].client.uid == 1000)
  }

  /**
   A command of root or system is posted for the executor of its type, with its client and
   connection, behind everything posted before; any other is not posted at all.
   */
  lemma ReceiveAnswered(s: System, slot: nat, ctype: CommandType, kind: Kind)
    ensures Permitted(s, slot) ==>
              Next(s, Receive(slot, ctype, kind))
              == s.(looper := s.looper + [Message(s.connOf[slot], s.slots[slot].client,
                                                  match ctype {
                                                    case TypeNormal => HandlerNormal
                                                    case TypeService => HandlerService
                                                    case TypeEvent => HandlerEvent
                                                    case TypeOther => HandlerUnknown
                                                  }, kind, false)])
    ensures !Permitted(s, slot) ==> Next(s, Receive(slot, ctype, kind)) == s
  {
  }

  /** A closed connection frees its slot and posts a DESTROY of its client to the normal executor. */
  lemma HangupAnswered(s: System, slot: nat)
    requires slot < |s.slots| && s.slots[slot].fd >= 0 && slot in s.connOf
    ensures Next(s, Hangup(slot))
            == s.(slots := s.slots[slot := ClientSocket(-1, s.slots[slot].client)],
                  closed := s.closed + {s.connOf[slot]},
                  looper := s.looper +
                    [Message(s.connOf[slot], s.slots[slot].client, HandlerNormal, KindDestroy, true)])
  {
  }

  /** What a message asks of the normal executor, on behalf of its client. */
  function Asked(m: Message, a: Action): Request
    requires a.Execute?
  {
    match m.kind
    case KindStart => Start(m.client, m.client.pid, a.sequence, a.cmdLine, a.write, a.address, a.spawn)
    case KindClose(lbl) => Close(m.client, m.client.pid, a.sequence, lbl)
    case KindDestroy => Destroy(m.client)
    case KindOther => Unknown(m.client)
  }

  lemma ExecuteAnswered(s: System, a: Action)
    requires a.Execute? && s.queue != []
    ensures var t := Next(s, a);
            && t.exec == NS.Step(s.exec, Asked(s.queue[0], a))
            && t.queue == s.queue[1..] && t.looper == s.looper
            && t.slots == s.slots && t.connOf == s.connOf && t.clients == s.clients && t.closed == s.closed
  {
  }

  lemma {:induction false} RunAppended(s: System, a: seq<Action>, b: seq<Action>)
    ensures RunActions(s, a + b) == RunActions(RunActions(s, a), b)
    decreases a
  {
    if a == [] {
      assert a + b == b;
    } else {
      assert (a + b)[1..] == a[1..] + b;
      RunAppended(Next(s, a[0]), a[1..], b);
    }
  }

  function Dispatches(n: nat): seq<Action> {
    if n == 0 then [] else [Dispatch] + Dispatches(n - 1)
  }

  /** The messages for the normal executor, in order. */
  function ForNormal(ms: seq<Message>): seq<Message> {
    if ms == [] then [] else (if ms[0].handler.HandlerNormal? then [ms[0]] else []) + ForNormal(ms[1..])
  }

  lemma {:induction false} ForNormalAppended(a: seq<Message>, b: seq<Message>)
    ensures ForNormal(a + b) == ForNormal(a) + ForNormal(b)
  {
    if a == [] {
      assert a + b == b;
    } else {
      assert (a + b)[1..] == a[1..] + b;
      ForNormalAppended(a[1..], b);
    }
  }

  /** The dispatcher hands on everything posted: what is for the normal executor is queued, in order, and that only. */
  lemma {:induction false} DispatchesAll(s: System, n: nat)
    requires n == |s.looper|
    ensures RunActions(s, Dispatches(n)) == s.(looper := [], queue := s.queue + ForNormal(s.looper))
    decreases n
  {
    if n == 0 {
      assert s.queue + [] == s.queue;
    } else {
      var t := Next(s, Dispatch);
      DispatchesAll(t, n - 1);
      assert Dispatches(n)[1..] == Dispatches(n - 1);
      assert s.queue + ForNormal(s.looper) == t.queue + ForNormal(t.looper);
    }
  }

  lemma {:induction false} ExecutesInOrder(s: System, acts: seq<Action>)
    requires (forall a :: a in acts ==> a.Execute?) && |acts| <= |s.queue|
    ensures RunActions(s, acts).queue == s.queue[|acts|..]
    decreases acts
  {
    if acts != [] {
      hide Next;
      ExecuteAnswered(s, acts[0]);
      ExecutesInOrder(Next(s, acts[0]), acts[1..]);
      assert s.queue[1..][|acts| - 1..] == s.queue[|acts|..];
    }
  }

  function Posted(s: System, slot: nat, kind: Kind): Message
    requires Permitted(s, slot)
  {
    Message(s.connOf[slot], s.slots[slot].client, HandlerNormal, kind, false)
  }

  lemma CommandIsQueued(s: System, slot: nat, kind: Kind)
    requires Permitted(s, slot)
    ensures RunActions(s, [Receive(slot, TypeNormal, kind)] + Dispatches(|s.looper| + 1)).queue
            == s.queue + ForNormal(s.looper) + [Posted(s, slot, kind)]
  {
    hide Next, SlotOpen;
    var m, t := Posted(s, slot, kind), Next(s, Receive(slot, TypeNormal, kind));
    ReceiveAnswered(s, slot, TypeNormal, kind);
    assert t.queue == s.queue && t.looper == s.looper + [m];
    hide Permitted, Posted;
    var r, ds := [Receive(slot, TypeNormal, kind)], Dispatches(|s.looper| + 1);
    assert (r + ds)[1..] == ds && (r + ds)[0] == r[0];
    DispatchesAll(t, |s.looper| + 1);
    ForNormalAppended(s.looper, [m]);
    assert ForNormal([m]) == [m] by { JustOne(m); }
    assert s.queue + (ForNormal(s.looper) + [m]) == s.queue + ForNormal(s.looper) + [m];
  }

  lemma JustOne(m: Message)
    requires m.handler.HandlerNormal?
    ensures ForNormal([m]) == [m]
  {
    assert [m][1..] == [];
  }

  /**
   A normal command of a permitted client reaches the normal executor: once what was posted is
   dispatched and what was queued before it is executed, it is next, and its client's request
   is what the executor then takes.
   */
  lemma CommandIsExecuted(s: System, slot: nat, kind: Kind, before: seq<Action>, a: Action)
    requires Permitted(s, slot) && a.Execute? && forall b :: b in before ==> b.Execute?
    requires |before| == |s.queue| + |ForNormal(s.looper)|
    ensures var m := Message(s.connOf[slot], s.slots[slot].client, HandlerNormal, kind, false);
            var u := RunActions(s, [Receive(slot, TypeNormal, kind)] + Dispatches(|s.looper| + 1) + before);
            && u.queue == [m]
            && Next(u, a).queue == [] && Next(u, a).exec == NS.Step(u.exec, Asked(m, a))
  {
    hide Next, RunActions, Dispatches, ForNormal, Asked;
    var acts := [Receive(slot, TypeNormal, kind)] + Dispatches(|s.looper| + 1);
    var v := RunActions(s, acts);
    CommandIsQueued(s, slot, kind);
    RunAppended(s, acts, before);
    ExecutesInOrder(v, before);
    ExecuteAnswered(RunActions(v, before), a);
  }
}
