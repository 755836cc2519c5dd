/** The normal-command executor: it updates its vector, maps and process list in place. */
module NormalExcutor {
  import opened NormalSpec
  import opened ProcessList
  import opened Sequences

  /**
   What successive non-blocking waits for a child answer. The environment promises that
   every child that is waited for is found gone at some point.
   */
  type Waits = int -> seq<Poll>

  /**
   What ends one live command: its record is unlinked, its child awaited, and killed by that
   wait if it must be, and its pipe end closed. A label that is not live takes nothing.
   */
  function CallsFor(s: State, lbl: nat, waits: Waits): seq<Call> {
    if lbl !in s.bySeq then []
    else
      var cmd := s.bySeq[lbl];
      [Unlinked(cmd.fd), Waited(WaitAsWritten(waits(cmd.pid))), ClosedFd(cmd.fd)]
  }

  function CallsForAll(s: State, labels: seq<nat>, waits: Waits): seq<Call> {
    if labels == [] then []
    else CallsForAll(s, labels[..|labels| - 1], waits) + CallsFor(s, labels[|labels| - 1], waits)
  }

  /** CLOSE ends its label's command and DESTROY those of its client's list, in order; no other message ends one. */
  function CallsOf(s: State, r: Request, waits: Waits): seq<Call> {
    match r
    case Close(_, _, _, lbl) => CallsFor(s, lbl, waits)
    case Destroy(c) => CallsForAll(s, ClientLabels(s, c), waits)
    case _ => []
  }

  /** The first `i` labels are dropped, and the others are live as they were. */
  ghost predicate DroppedUpTo(was: State, s: State, labels: seq<nat>, i: nat) {
    && i <= |labels| && NoDuplicates(labels) && Agreement(s)
    && forall k :: k in labels[i..] ==>
         (k in s.bySeq <==> k in was.bySeq) && (k in s.bySeq ==> s.bySeq[k] == was.bySeq[k])
  }

  /** DESTROY's loop before position `i`: what was dropped and called, and what is to be. */
  ghost predicate Destroying(was: State, s: State, labels: seq<nat>, i: nat, waits: Waits,
                             before: seq<Call>, calls: seq<Call>) {
    && i <= |labels| && DropAll(s, labels[i..]) == DropAll(was, labels)
    && (Agreement(was) ==> DroppedUpTo(was, s, labels, i) && calls == before + CallsForAll(was, labels[..i], waits))
  }

  lemma DestroyBegins(was: State, labels: seq<nat>, waits: Waits, before: seq<Call>)
    requires Agreement(was) ==> NoDuplicates(labels)
    ensures Destroying(was, was, labels, 0, waits, before, before)
  {
    assert labels[0..] == labels && labels[..0] == [] && before + [] == before;
  }

  lemma NextDropped(was: State, s: State, labels: seq<nat>, i: nat, waits: Waits)
    requires DroppedUpTo(was, s, labels, i) && i < |labels|
    ensures DroppedUpTo(was, Drop(s, labels[i]), labels, i + 1)
    ensures CallsFor(s, labels[i], waits) == CallsFor(was, labels[i], waits)
  {
    hide Agreement, Drop;
    DropKeepsAgreement(s, labels[i]);
    assert labels[i] in labels[i..];
    forall k | k in labels[i + 1..] ensures k != labels[i] && k in labels[i..] {
      var j :| 0 <= j < |labels[i + 1..]| && labels[i + 1..][j] == k;
      assert labels[i + 1 + j] == k && labels[i..][j + 1] == k;
    }
  }

  lemma DestroyTurn(was: State, s: State, labels: seq<nat>, i: nat, waits: Waits,
                    before: seq<Call>, calls: seq<Call>, after: seq<Call>)
    requires Destroying(was, s, labels, i, waits, before, calls) && i < |labels|
    requires Agreement(s) ==> after == calls + CallsFor(s, labels[i], waits)
    ensures Destroying(was, Drop(s, labels[i]), labels, i + 1, waits, before, after)
  {
    hide DroppedUpTo, Drop, CallsFor, Agreement;
    assert labels[i..][1..] == labels[i + 1..] && labels[i..][0] == labels[i];
    if Agreement(was) {
      NextDropped(was, s, labels, i, waits);
      assert Agreement(s) by { StillAgrees(was, s, labels, i); }
      assert labels[..i + 1][..i] == labels[..i];
      assert before + (CallsForAll(was, labels[..i], waits) + CallsFor(was, labels[i], waits)) == after;
    }
  }

  lemma StillAgrees(was: State, s: State, labels: seq<nat>, i: nat)
    requires DroppedUpTo(was, s, labels, i)
    ensures Agreement(s)
  {
  }

  lemma DestroyEnds(was: State, s: State, labels: seq<nat>, waits: Waits, before: seq<Call>, calls: seq<Call>)
    requires Destroying(was, s, labels, |labels|, waits, before, calls)
    ensures s == DropAll(was, labels) && s.byClient == was.byClient
    ensures Agreement(was) ==> calls == before + CallsForAll(was, labels, waits)
  {
    DropAllFrame(was, labels);
    assert labels[|labels|..] == [] && labels[..|labels|] == labels;
  }

  lemma ListHasNoDuplicates(s: State, c: Client)
    requires c in s.byClient
    ensures Agreement(s) ==> NoDuplicates(s.byClient[c])
  {
    if Agreement(s) { assert OwnLabels(s.starter, c, s.byClient[c]); }
  }

  lemma NothingCalled(s: State, lbl: nat, waits: Waits)
    requires lbl !in s.bySeq
    ensures Drop(s, lbl) == s && CallsFor(s, lbl, waits) == []
  {
  }

  lemma LiveHasFd(s: State, lbl: nat)
    requires Agreement(s) && lbl in s.bySeq
    ensures s.bySeq[lbl].fd >= 0 && HasFd(s.pids, s.bySeq[lbl].fd)
  {
    FdOfChild(s.running, s.bySeq[lbl]);
  }

  class Excutor {
    var mRunningCmd: seq<CommandInfo>
    var mSeqCmd: map<nat, CommandInfo>
    var mClientCmd: map<Client, seq<nat>>
    const pids: PidList
    var replies: seq<Reply>
    ghost var starter: map<nat, Client>

    ghost function View(): State
      reads this, pids
    {
      State(mRunningCmd, mSeqCmd, mClientCmd, pids.Contents(), starter, replies)
    }

    ghost predicate Valid()
      reads this, pids, pids.nodes
    {
      pids.Valid() && forall k :: k in mSeqCmd ==> mSeqCmd[k].fd >= 0
    }

    constructor ()
      ensures Valid() && View() == INITIAL && Agreement(View()) && fresh(pids) && pids.nodes == []
    {
      mRunningCmd, mSeqCmd, mClientCmd, replies, starter := [], map[], map[], [], map[];
      pids := new PidList();
    }

    method StartNormalCmd(r: Request)
      requires Valid() && r.Start? && Environment(View(), r)
      modifies this, pids
      ensures Valid() && View() == StartStep(old(View()), r) && pids.calls == old(pids.calls)
      ensures forall n :: n in pids.nodes ==> n in old(pids.nodes) || fresh(n)
    {
      var fd, pid := pids.Popen(r.spawn, r.write);
      if fd < 0 {
        replies := replies + [StartFailed(r.writer, r.sequence)];
      } else {
        var cmd := NewCommand(r);
        mRunningCmd := mRunningCmd + [cmd];
        mSeqCmd := mSeqCmd[cmd.lbl := cmd];
        if r.client !in mClientCmd {
          mClientCmd := mClientCmd[r.client := [cmd.lbl]];
          assert [] + [cmd.lbl] == [cmd.lbl];
        } else {
          mClientCmd := mClientCmd[r.client := mClientCmd[r.client] + [cmd.lbl]];
        }
        starter := starter[cmd.lbl := r.client];
        replies := replies + [Started(r.writer, r.sequence, cmd.lbl, fd)];
      }
    }

    /** The steps CLOSE and DESTROY share: await the child, drop it from the vector and the map. */
    method DropCommand(lbl: nat, waits: Waits)
      requires Valid() && lbl in mSeqCmd
      requires forall pid :: !WaitAsWritten(waits(pid)).end.Pending?
      modifies this`mRunningCmd, this`mSeqCmd, pids, pids.nodes`next
      ensures Valid() && View() == Drop(old(View()), lbl)
      ensures old(Agreement(View())) ==> pids.calls == old(pids.calls) + CallsFor(old(View()), lbl, waits)
      ensures forall n :: n in pids.nodes ==> n in old(pids.nodes)
    {
      hide WaitAsWritten, CloseCode, RemoveFd, RemoveFirst, VectorAgrees, ListAgrees, ClientsAgree;
      var cmd := mSeqCmd[lbl];
      if Agreement(View()) { LiveHasFd(View(), lbl); }
      var code, end := pids.Pclose(cmd.fd, waits(cmd.pid));
      mRunningCmd := RemoveVectorItem(mRunningCmd, cmd);
      mSeqCmd := mSeqCmd - {lbl};
    }

    /** One turn of DESTROY's loop, which skips a label that is not live. */
    method DropIfLive(lbl: nat, waits: Waits)
      requires Valid()
      requires forall pid :: !WaitAsWritten(waits(pid)).end.Pending?
      modifies this`mRunningCmd, this`mSeqCmd, pids, pids.nodes`next
      ensures Valid() && View() == Drop(old(View()), lbl)
      ensures old(Agreement(View())) ==> pids.calls == old(pids.calls) + CallsFor(old(View()), lbl, waits)
      ensures forall n :: n in pids.nodes ==> n in old(pids.nodes)
    {
      hide Agreement, WaitAsWritten, DistinctFds;
      if lbl in mSeqCmd {
        DropCommand(lbl, waits);
      } else {
        NothingCalled(View(), lbl, waits);
      }
    }

    method CloseNormalCmd(r: Request, waits: Waits)
      requires Valid() && r.Close?
      requires forall pid :: !WaitAsWritten(waits(pid)).end.Pending?
      modifies this, pids, pids.nodes`next
      ensures Valid() && View() == CloseStep(old(View()), r)
      ensures old(Agreement(View())) ==> pids.calls == old(pids.calls) + CallsFor(old(View()), r.lbl, waits)
      ensures forall n :: n in pids.nodes ==> n in old(pids.nodes)
    {
      if r.lbl !in mSeqCmd {
        replies := replies + [CloseFailed(r.writer, r.sequence)];
      } else {
        DropCommand(r.lbl, waits);
        if r.client in mClientCmd {
          var labels := RemoveVectorItem(mClientCmd[r.client], r.lbl);
          if |labels| <= 0 {
            mClientCmd := mClientCmd - {r.client};
          } else {
            mClientCmd := mClientCmd[r.client := labels];
          }
        }
        replies := replies + [Closed(r.writer, r.sequence)];
      }
    }

    method DestroyNormalCmd(c: Client, waits: Waits)
      requires Valid()
      requires forall pid :: !WaitAsWritten(waits(pid)).end.Pending?
      modifies this, pids, pids.nodes`next
      ensures Valid() && View() == DestroyStep(old(View()), c)
      ensures old(Agreement(View())) ==>
                pids.calls == old(pids.calls) + CallsForAll(old(View()), ClientLabels(old(View()), c), waits)
      ensures forall n :: n in pids.nodes ==> n in old(pids.nodes)
    {
      if c !in mClientCmd {
        return;
      }
      hide Agreement, Destroying, Drop, DropAll, CallsFor, CallsForAll, WaitAsWritten, DroppedUpTo, DistinctFds;
      ghost var was, before := View(), pids.calls;
      var labels := mClientCmd[c];
      var i := 0;
      ListHasNoDuplicates(was, c);
      DestroyBegins(was, labels, waits, before);
      while i < |labels|
        invariant 0 <= i <= |labels|
        invariant Valid() && Destroying(was, View(), labels, i, waits, before, pids.calls)
        invariant forall n :: n in pids.nodes ==> n in old(pids.nodes)
        invariant forall j :: 0 <= j < |pids.nodes| ==> pids.nodes[j] in old(pids.nodes)
      {
        ghost var view, calls := View(), pids.calls;
        DropIfLive(labels[i], waits);
        DestroyTurn(was, view, labels, i, waits, before, calls, pids.calls);
        i := i + 1;
      }
      DestroyEnds(was, View(), labels, waits, before, pids.calls);
      mClientCmd := mClientCmd - {c};
    }

    /** Each message does to the executor what the state machine does to its view. */
    method ExcuteNormal(r: Request, waits: Waits)
      requires Valid() && Environment(View(), r)
      requires forall pid :: !WaitAsWritten(waits(pid)).end.Pending?
      modifies this, pids, pids.nodes`next
      ensures Valid() && View() == Step(old(View()), r)
      ensures old(Agreement(View())) ==> pids.calls == old(pids.calls) + CallsOf(old(View()), r, waits)
      ensures old(Agreement(View())) ==> Agreement(View())
      ensures forall n :: n in pids.nodes ==> n in old(pids.nodes) || fresh(n)
    {
      ghost var was := View();
      match r {
        case Start(_, _, _, _, _, _, _) => StartNormalCmd(r);
        case Close(_, _, _, _) => CloseNormalCmd(r, waits);
        case Destroy(c) => DestroyNormalCmd(c, waits);
        case Unknown(_) =>
      }
      if Agreement(was) {
        StepKeepsAgreement(was, r);
      }
    }
  }
}
