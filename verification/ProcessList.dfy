/**
 The linked list of spawned children behind `sace_popen` and `sace_pclose`, and the
 polling loop with which `sace_pclose` waits for a child.

 The environment is a parameter: what `pipe2`/`vfork` gave, and the answers that
 successive non-blocking `waitpid` calls give for one child.
 */
module ProcessList {
  import opened Sequences

  /** What a list record stores about a child. */
  datatype Child = Child(fd: int, pid: int)

  /** The outcome of `pipe2` followed by `vfork`. */
  datatype Spawn = SpawnFailed | Spawned(readEnd: int, writeEnd: int, pid: int)

  /** The pipe end the parent keeps: it reads unless the mode asks to write. */
  function KeptEnd(spawn: Spawn, write: bool): int
    requires spawn.Spawned?
  {
    if write then spawn.writeEnd else spawn.readEnd
  }

  // ---- the polling loop ----

  /** One answer of `waitpid(pid, &status, WNOHANG)`. */
  datatype Poll = StillRunning | ExitStatus(status: int) | PollError

  const CLOSE_WAIT_TOTAL_TIME := 2000
  const CLOSE_WAIT_KILL_TIME := 1000
  const POLL_INTERVAL := 100

  /** How a wait ended. `Pending` means that the given answers ran out first. */
  datatype End = Reaped(status: int) | WaitError | GaveUp | Pending

  /** `killsAt[i]` is the number of failed polls that preceded the i-th SIGKILL. */
  datatype Wait = Wait(polls: nat, killsAt: seq<nat>, end: End)

  /** What `sace_pclose` returns for a wait that ended. */
  function CloseCode(end: End): int
  {
    if end.Reaped? then end.status else -1
  }

  /** The number of leading `StillRunning` answers. */
  function RunningPrefix(answers: seq<Poll>): (n: nat)
    ensures n <= |answers|
    ensures forall i :: 0 <= i < n ==> answers[i].StillRunning?
    ensures n < |answers| ==> !answers[n].StillRunning?
  {
    if answers == [] || !answers[0].StillRunning? then 0
    else
      var n := RunningPrefix(answers[1..]);
      assert forall i :: 0 < i < n + 1 ==> answers[i] == answers[1..][i - 1];
      n + 1
  }

  /** [from, from + 1, .., to - 1] */
  function Range(from: nat, to: nat): seq<nat> {
    seq(if from <= to then to - from else 0, i requires 0 <= i => from + i)
  }

  lemma RangeExtends(from: nat, to: nat)
    requires from <= to
    ensures Range(from, to) + [to] == Range(from, to + 1)
  {
  }

  function Ending(answer: Poll): End
    requires !answer.StillRunning?
  {
    if answer.PollError? then WaitError else Reaped(answer.status)
  }

  /** The wait as a closed form of the answers, for the loop as it is written. */
  function WaitAsWritten(answers: seq<Poll>): Wait {
    var failed := RunningPrefix(answers);
    if failed < |answers|
    then Wait(failed + 1, Range(10, failed + 1), Ending(answers[failed]))
    else Wait(failed, Range(10, failed + 1), Pending)
  }

  /** The wait as a closed form, for a loop that tests the total time first. */
  function WaitTotalFirst(answers: seq<Poll>): Wait {
    var failed := RunningPrefix(answers);
    if failed >= 20 then Wait(20, Range(10, 20), GaveUp)
    else if failed < |answers| then Wait(failed + 1, Range(10, failed + 1), Ending(answers[failed]))
    else Wait(failed, Range(10, failed + 1), Pending)
  }

  lemma RunningPrefixIs(answers: seq<Poll>, n: nat)
    requires n <= |answers|
    requires forall i :: 0 <= i < n ==> answers[i].StillRunning?
    requires n < |answers| ==> !answers[n].StillRunning?
    ensures RunningPrefix(answers) == n
  {
    var m := RunningPrefix(answers);
  }

  lemma RunningPrefixAtLeast(answers: seq<Poll>, n: nat)
    requires n <= |answers|
    requires forall i :: 0 <= i < n ==> answers[i].StillRunning?
    ensures RunningPrefix(answers) >= n
  {
    var m := RunningPrefix(answers);
  }

  /** The loop of `sace_pclose` as it is written: the kill time is tested first. */
  method AwaitChild(answers: seq<Poll>) returns (w: Wait)
    ensures w == WaitAsWritten(answers)
  {
    var waitTime := 0;
    var kills: seq<nat> := [];
    var i := 0;
    while i < |answers|
      invariant 0 <= i <= |answers|
      invariant waitTime == POLL_INTERVAL * i
      invariant forall k :: 0 <= k < i ==> answers[k].StillRunning?
      invariant kills == Range(10, i + 1)
    {
      if answers[i].PollError? {
        RunningPrefixIs(answers, i);
        return Wait(i + 1, kills, WaitError);
      } else if answers[i].StillRunning? {
        waitTime := waitTime + POLL_INTERVAL;
      } else {
        RunningPrefixIs(answers, i);
        return Wait(i + 1, kills, Reaped(answers[i].status));
      }
      if waitTime >= CLOSE_WAIT_KILL_TIME {
        RangeExtends(10, i + 1);
        kills := kills + [i + 1];
      } else if waitTime >= CLOSE_WAIT_TOTAL_TIME {
        assert false; // no wait time reaches this branch
      }
      i := i + 1;
    }
    RunningPrefixIs(answers, i);
    w := Wait(i, kills, Pending);
  }

  /** The same loop with the two tests in the other order. */
  method AwaitChildTotalFirst(answers: seq<Poll>) returns (w: Wait)
    ensures w == WaitTotalFirst(answers)
  {
    var waitTime := 0;
    var kills: seq<nat> := [];
    var i := 0;
    while i < |answers|
      invariant 0 <= i <= |answers| && i < 20
      invariant waitTime == POLL_INTERVAL * i
      invariant forall k :: 0 <= k < i ==> answers[k].StillRunning?
      invariant kills == Range(10, i + 1)
    {
      if answers[i].PollError? {
        RunningPrefixIs(answers, i);
        return Wait(i + 1, kills, WaitError);
      } else if answers[i].StillRunning? {
        waitTime := waitTime + POLL_INTERVAL;
      } else {
        RunningPrefixIs(answers, i);
        return Wait(i + 1, kills, Reaped(answers[i].status));
      }
      if waitTime >= CLOSE_WAIT_TOTAL_TIME {
        RunningPrefixAtLeast(answers, i + 1);
        return Wait(i + 1, kills, GaveUp);
      } else if waitTime >= CLOSE_WAIT_KILL_TIME {
        RangeExtends(10, i + 1);
        kills := kills + [i + 1];
      }
      i := i + 1;
    }
    RunningPrefixIs(answers, i);
    w := Wait(i, kills, Pending);
  }

  /** As written, the total time never ends a wait, however long the child runs. */
  lemma TotalTimeIsUnreachable(answers: seq<Poll>)
    ensures !WaitAsWritten(answers).end.GaveUp?
    ensures WaitAsWritten(answers).end.Pending? <==> forall i :: 0 <= i < |answers| ==> answers[i].StillRunning?
  {
    if forall i :: 0 <= i < |answers| ==> answers[i].StillRunning? {
      RunningPrefixAtLeast(answers, |answers|);
    }
  }

  /** A child that ignores thirty polls is still being waited for after thirty polls. */
  lemma TotalTimeCounterexample()
    ensures WaitAsWritten(seq(30, _ => StillRunning)) == Wait(30, Range(10, 31), Pending)
    ensures WaitTotalFirst(seq(30, _ => StillRunning)) == Wait(20, Range(10, 20), GaveUp)
  {
    RunningPrefixIs(seq(30, _ => StillRunning), 30);
  }

  /**
   Given twenty answers, the wait as written is over within twenty polls exactly if one of
   the first twenty finds the child gone, and then the order of the tests does not matter.
   */
  lemma TwentyPollsExactly(answers: seq<Poll>)
    requires |answers| >= 20
    ensures WaitTotalFirst(answers).polls <= 20 && !WaitTotalFirst(answers).end.Pending?
    ensures (WaitAsWritten(answers).polls <= 20 && !WaitAsWritten(answers).end.Pending?)
            <==> exists i :: 0 <= i < 20 && !answers[i].StillRunning?
    ensures WaitAsWritten(answers) == WaitTotalFirst(answers)
            <==> exists i :: 0 <= i < 20 && !answers[i].StillRunning?
  {
    var n := RunningPrefix(answers);
    if i :| 0 <= i < 20 && !answers[i].StillRunning? {
      assert n <= i;
    } else {
      RunningPrefixAtLeast(answers, 20);
    }
  }

  /** No SIGKILL before ten failed polls, and from then on one per failed poll. */
  lemma NoEarlyKill(answers: seq<Poll>)
    ensures forall k :: k in WaitAsWritten(answers).killsAt ==> 10 <= k
    ensures forall k :: k in WaitTotalFirst(answers).killsAt ==> 10 <= k < 20
    ensures WaitAsWritten(answers).killsAt != [] <==> RunningPrefix(answers) >= 10
  {
    var n := RunningPrefix(answers);
  }

  /** A child that becomes reapable within k polls of the first SIGKILL bounds the wait. */
  lemma KilledChildBoundsTheWait(answers: seq<Poll>, k: nat)
    requires exists i :: 0 <= i < 10 + k && i < |answers| && !answers[i].StillRunning?
    ensures WaitAsWritten(answers).polls <= 10 + k
    ensures !WaitAsWritten(answers).end.Pending?
  {
    var i :| 0 <= i < 10 + k && i < |answers| && !answers[i].StillRunning?;
    assert RunningPrefix(answers) <= i;
  }

  /**
   The first answer that is not "still running" ends the wait, with the child's status or an
   error, which is what closing returns; from the tenth failed poll on each failed poll before
   it was followed by a SIGKILL.
   */
  lemma FirstAnswerEnds(answers: seq<Poll>, n: nat)
    requires n < |answers| && !answers[n].StillRunning?
    requires forall i :: 0 <= i < n ==> answers[i].StillRunning?
    ensures var w := WaitAsWritten(answers);
            && w.polls == n + 1
            && w.end == (match answers[n] case ExitStatus(status) => Reaped(status) case _ => WaitError)
            && CloseCode(w.end) == (match answers[n] case ExitStatus(status) => status case _ => -1)
            && |w.killsAt| == (if n < 10 then 0 else n - 9)
            && forall i :: 0 <= i < |w.killsAt| ==>
                 w.killsAt[i] == 10 + i && w.killsAt[i] * POLL_INTERVAL == 1000 + 100 * i
    ensures n < 20 ==> WaitTotalFirst(answers) == WaitAsWritten(answers)
  {
    RunningPrefixIs(answers, n);
  }

  // ---- the list ----

  /** The list without its first record for `fd`. */
  function RemoveFd(list: seq<Child>, fd: int): seq<Child> {
    if list == [] then []
    else if list[0].fd == fd then list[1..]
    else [list[0]] + RemoveFd(list[1..], fd)
  }

  function HasFd(list: seq<Child>, fd: int): bool {
    exists i :: 0 <= i < |list| && list[i].fd == fd
  }

  predicate DistinctFds(list: seq<Child>) {
    forall i, j :: 0 <= i < j < |list| ==> list[i].fd != list[j].fd
  }

  /** Removing an fd removes its record, keeps every other one in order, and keeps fds distinct. */
  lemma {:induction false} RemoveFdRemovesExactly(list: seq<Child>, fd: int)
    requires DistinctFds(list)
    ensures DistinctFds(RemoveFd(list, fd))
    ensures RemoveFd(list, fd) == Filter((c: Child) => c.fd != fd, list)
    ensures forall c :: c in RemoveFd(list, fd) <==> c in list && c.fd != fd
  {
    var keep := (c: Child) => c.fd != fd;
    if list == [] {
    } else {
      RemoveFdRemovesExactly(list[1..], fd);
      FilterKeeps(keep, list);
      if list[0].fd == fd {
        FilterAll(keep, list[1..]);
      } else {
        var r := RemoveFd(list[1..], fd);
        forall j | 0 <= j < |r| ensures r[j].fd != list[0].fd {
          assert r[j] in list[1..];
          var k :| 0 <= k < |list[1..]| && list[1..][k] == r[j];
          assert list[k + 1] == r[j];
        }
      }
    }
  }

  lemma {:induction false} RemoveFdAbsent(list: seq<Child>, fd: int)
    requires !HasFd(list, fd)
    ensures RemoveFd(list, fd) == list
  {
    if list != [] {
      assert !HasFd(list[1..], fd) by {
        assert forall i :: 0 <= i < |list[1..]| ==> list[1..][i] == list[i + 1];
      }
      RemoveFdAbsent(list[1..], fd);
    }
  }

  lemma {:induction false} RemoveFdAt(list: seq<Child>, i: nat)
    requires i < |list| && DistinctFds(list)
    ensures RemoveFd(list, list[i].fd) == list[..i] + list[i + 1..]
  {
    if i > 0 {
      RemoveFdAt(list[1..], i - 1);
      assert list[1..][..i - 1] == list[1..i] && list[1..][i..] == list[i + 1..];
      assert list[..i] == [list[0]] + list[1..i];
    }
  }

  /** A list record. Its fd and pid are set before it is linked and never change. */
  class Node {
    var next: Node?
    const fd: int
    const pid: int

    constructor (fd: int, pid: int, next: Node?)
      ensures this.fd == fd && this.pid == pid && this.next == next
    {
      this.fd, this.pid, this.next := fd, pid, next;
    }
  }

  function Records(nodes: seq<Node>): seq<Child> {
    seq(|nodes|, i requires 0 <= i < |nodes| => Child(nodes[i].fd, nodes[i].pid))
  }

  /** System calls of `sace_pclose`, in the order in which it makes them. */
  datatype Call = Unlinked(fd: int) | Waited(wait: Wait) | ClosedFd(fd: int)

  class PidList {
    var head: Node?
    var calls: seq<Call>
    ghost var nodes: seq<Node>

    /** The nodes from `head` are exactly `nodes`, so the chain is acyclic; fds are distinct. */
    ghost predicate Valid()
      reads this, nodes
    {
      && head == (if nodes == [] then null else nodes[0])
      && (forall i {:trigger nodes[i].next} :: 0 <= i < |nodes| ==>
            nodes[i].next == (if i + 1 < |nodes| then nodes[i + 1] else null))
      && DistinctFds(Contents())
    }

    ghost function Contents(): seq<Child>
      reads this
    {
      Records(nodes)
    }

    constructor ()
      ensures Valid() && Contents() == [] && calls == [] && nodes == []
    {
      head, nodes, calls := null, [], [];
    }

    /** `sace_popen`: on success the new child is prepended and its kept pipe end returned. */
    method Popen(spawn: Spawn, write: bool) returns (fd: int, pid: int)
      requires Valid()
      requires spawn.Spawned? ==> KeptEnd(spawn, write) >= 0 && !HasFd(Contents(), KeptEnd(spawn, write))
      modifies this
      ensures Valid() && calls == old(calls)
      ensures spawn.SpawnFailed? ==> fd == -1 && nodes == old(nodes)
      ensures spawn.Spawned? ==> fd == (if write then spawn.writeEnd else spawn.readEnd) && pid == spawn.pid
      ensures spawn.Spawned? ==> Contents() == [Child(fd, pid)] + old(Contents())
      ensures spawn.Spawned? ==> nodes != [] && fresh(nodes[0]) && nodes[1..] == old(nodes)
    {
      if spawn.SpawnFailed? {
        return -1, 0;
      }
      fd, pid := KeptEnd(spawn, write), spawn.pid;
      var cur := new Node(fd, pid, head);
      head := cur;
      RecordsPrepended(cur, nodes);
      nodes := [cur] + nodes;
    }

    /** The search and unlink of `sace_pclose`. */
    method Unlink(fd: int) returns (cur: Node?)
      requires Valid()
      modifies this`head, this`nodes, nodes`next
      ensures Valid()
      ensures cur == null <==> !HasFd(old(Contents()), fd)
      ensures cur != null ==> cur in old(nodes) && cur !in nodes && cur.fd == fd
      ensures Contents() == RemoveFd(old(Contents()), fd)
      ensures forall n :: n in nodes ==> n in old(nodes)
    {
      cur := head;
      var last: Node? := null;
      ghost var i := 0;
      while cur != null && cur.fd != fd
        invariant 0 <= i <= |nodes|
        invariant cur == if i < |nodes| then nodes[i] else null
        invariant last == if i == 0 then null else nodes[i - 1]
        invariant forall k :: 0 <= k < i ==> nodes[k].fd != fd
        decreases |nodes| - i
      {
        last, cur := cur, cur.next;
        i := i + 1;
      }
      if cur == null {
        RemoveFdAbsent(Contents(), fd);
        return;
      }
      RemoveFdAt(Contents(), i);
      RecordsWithout(nodes, i);
      NodesDistinct(nodes);
      if last == null {
        head := cur.next;
      } else {
        last.next := cur.next;
      }
      nodes := nodes[..i] + nodes[i + 1..];
    }

    /**
     `sace_pclose`: the record is unlinked once, then the child is awaited, then the fd is
     closed. With answers that never find the child gone the call has not returned
     (`Pending`) and the fd is still open.
     */
    method Pclose(fd: int, answers: seq<Poll>) returns (code: int, end: End)
      requires Valid()
      modifies this, nodes`next
      ensures Valid()
      ensures Contents() == if fd < 0 then old(Contents()) else RemoveFd(old(Contents()), fd)
      ensures forall n :: n in nodes ==> n in old(nodes)
      ensures fd < 0 || !HasFd(old(Contents()), fd) ==> code == -1 && end == WaitError && calls == old(calls)
      ensures fd >= 0 && HasFd(old(Contents()), fd) ==>
                var w := WaitAsWritten(answers);
                && end == w.end && code == (if end.Reaped? then end.status else -1)
                && calls == old(calls) + [Unlinked(fd), Waited(w)] + (if end.Pending? then [] else [ClosedFd(fd)])
    {
      if fd < 0 {
        return -1, WaitError;
      }
      var cur := Unlink(fd);
      if cur == null {
        return -1, WaitError;
      }
      calls := calls + [Unlinked(fd)];
      var w := AwaitChild(answers);
      calls := calls + [Waited(w)];
      if !w.end.Pending? {
        calls := calls + [ClosedFd(fd)];
      }
      code, end := CloseCode(w.end), w.end;
    }
  }

  lemma RecordsPrepended(cur: Node, nodes: seq<Node>)
    requires DistinctFds(Records(nodes)) && !HasFd(Records(nodes), cur.fd)
    ensures Records([cur] + nodes) == [Child(cur.fd, cur.pid)] + Records(nodes)
    ensures DistinctFds(Records([cur] + nodes))
  {
  }

  lemma NodesDistinct(nodes: seq<Node>)
    requires DistinctFds(Records(nodes))
    ensures NoDuplicates(nodes)
  {
    forall i, j | 0 <= i < j < |nodes| ensures nodes[i] != nodes[j] {
      assert Records(nodes)[i].fd != Records(nodes)[j].fd;
    }
  }

  /** Unlinking the record at one position leaves the records of the other nodes. */
  lemma RecordsWithout(nodes: seq<Node>, i: nat)
    requires i < |nodes| && DistinctFds(Records(nodes))
    ensures Records(nodes[..i] + nodes[i + 1..]) == Records(nodes)[..i] + Records(nodes)[i + 1..]
    ensures DistinctFds(Records(nodes[..i] + nodes[i + 1..]))
    ensures nodes[i] !in nodes[..i] + nodes[i + 1..]
  {
    var rest := nodes[..i] + nodes[i + 1..];
    assert forall k :: 0 <= k < |rest| ==> rest[k] == nodes[if k < i then k else k + 1];
    forall k | 0 <= k < |rest| ensures rest[k] != nodes[i] {
      var k' := if k < i then k else k + 1;
      assert Records(nodes)[k'].fd != Records(nodes)[i].fd;
    }
  }
}
