/**
 What each message of the normal executor does, outright: the state that START, CLOSE and
 DESTROY leave and what their clients are told.
 */
module NormalAnswers {
  import opened NormalSpec
  import opened ProcessList
  import opened Sequences

  /** The list of a client's labels, empty when it has none. */
  function LabelsOf(byClient: map<Client, seq<nat>>, c: Client): seq<nat> {
    if c in byClient then byClient[c] else []
  }

  /**
   A START that spawned: one command more, at the end of the vector, with the pipe end that its
   mode keeps, the child's pid, its own command line and writer, and a label whose halves are
   the low words of sequence and address; it is in the label map, at the end of its client's
   list and of no other, and its child in front of the process list. Its client has label and fd.
   */
  lemma StartAnswered(s: State, r: Request)
    requires r.Start? && r.spawn.Spawned?
    ensures var t := Step(s, r);
            var lbl := r.sequence % 0x1_0000_0000 + (r.address % 0x1_0000_0000) * 0x1_0000_0000;
            var fd := if r.write then r.spawn.writeEnd else r.spawn.readEnd;
            var cmd := CommandInfo(lbl, fd, r.spawn.pid, r.cmdLine, r.writer);
            && t.running == s.running + [cmd]
            && t.bySeq == s.bySeq[lbl := cmd]
            && t.byClient == s.byClient[r.client := LabelsOf(s.byClient, r.client) + [lbl]]
            && t.pids == [Child(fd, r.spawn.pid)] + s.pids
            && t.starter == s.starter[lbl := r.client]
            && t.replies == s.replies + [Started(r.writer, r.sequence, lbl, fd)]
  {
  }

  /**
   A START that could not spawn and a CLOSE of a label that is not live only answer; an unknown
   message and a DESTROY of a client without commands do nothing.
   */
  lemma RefusedLeavesAll(s: State, r: Request)
    ensures r.Start? && r.spawn.SpawnFailed? ==>
              Step(s, r) == s.(replies := s.replies + [StartFailed(r.writer, r.sequence)])
    ensures r.Close? && r.lbl !in s.bySeq ==>
              Step(s, r) == s.(replies := s.replies + [CloseFailed(r.writer, r.sequence)])
    ensures r.Unknown? || (r.Destroy? && r.client !in s.byClient) ==> Step(s, r) == s
  {
  }

  /** One command is in none of the indexes any more, every other as it was and in its place. */
  ghost predicate Gone(s: State, t: State, cmd: CommandInfo) {
    && (exists i :: 0 <= i < |s.running| && s.running[i] == cmd && t.running == s.running[..i] + s.running[i + 1..])
    && (exists i :: 0 <= i < |s.pids| && s.pids[i] == Child(cmd.fd, cmd.pid) && t.pids == s.pids[..i] + s.pids[i + 1..])
    && t.bySeq == s.bySeq - {cmd.lbl}
  }

  lemma {:induction false} RemovedAt(running: seq<CommandInfo>, i: nat)
    requires DistinctLabels(running) && i < |running|
    ensures Without(running, {running[i].lbl}) == running[..i] + running[i + 1..]
  {
    if i == 0 {
      TailLabels(running);
      WithoutNone(running[1..], {running[0].lbl});
      assert running[..0] + running[1..] == running[1..];
    } else {
      TailLabels(running);
      RemovedAt(running[1..], i - 1);
      assert running[1..][..i - 1] == running[1..i] && running[1..][i..] == running[i + 1..];
      assert running[..i] == [running[0]] + running[1..i];
    }
  }

  lemma ChildGoes(pids: seq<Child>, cmd: CommandInfo)
    requires DistinctFds(pids) && Child(cmd.fd, cmd.pid) in pids
    ensures exists i :: 0 <= i < |pids| && pids[i] == Child(cmd.fd, cmd.pid)
                        && RemoveFd(pids, cmd.fd) == pids[..i] + pids[i + 1..]
  {
    var i :| 0 <= i < |pids| && pids[i] == Child(cmd.fd, cmd.pid);
    RemoveFdAt(pids, i);
  }

  lemma {:induction false} ChildrenMembers(running: seq<CommandInfo>, cmd: CommandInfo)
    requires cmd in running
    ensures Child(cmd.fd, cmd.pid) in Children(running)
  {
    if running[0] != cmd { ChildrenMembers(running[1..], cmd); }
  }

  lemma DropGoes(s: State, lbl: nat)
    requires Agreement(s) && lbl in s.bySeq
    ensures Gone(s, Drop(s, lbl), s.bySeq[lbl])
  {
    var cmd := s.bySeq[lbl];
    var i :| 0 <= i < |s.running| && s.running[i] == cmd;
    DropIsWithout(s, lbl);
    RemovedAt(s.running, i);
    ChildrenMembers(s.running, cmd);
    ChildGoes(s.pids, cmd);
  }

  /** The label is out of a list, if it was in it, and the others are in their order. */
  ghost predicate LabelGone(a: seq<nat>, b: seq<nat>, lbl: nat) {
    && (lbl !in a ==> b == a)
    && (lbl in a ==> lbl !in b && exists i :: 0 <= i < |a| && a[i] == lbl && b == a[..i] + a[i + 1..])
  }

  lemma {:induction false} RemoveFirstAt(a: seq<nat>, lbl: nat) returns (i: nat)
    requires lbl in a
    ensures i < |a| && a[i] == lbl && RemoveFirst(a, lbl) == a[..i] + a[i + 1..]
  {
    if a[0] == lbl {
      i := 0;
    } else {
      var j := RemoveFirstAt(a[1..], lbl);
      i := j + 1;
      assert a[..i] == [a[0]] + a[1..][..j] && a[1..][j + 1..] == a[i + 1..];
    }
  }

  lemma {:induction false} RemoveFirstNone(a: seq<nat>, lbl: nat)
    requires lbl !in a
    ensures RemoveFirst(a, lbl) == a
  {
    if a != [] { RemoveFirstNone(a[1..], lbl); }
  }

  lemma RemovedGone(a: seq<nat>, lbl: nat)
    requires NoDuplicates(a)
    ensures LabelGone(a, RemoveFirst(a, lbl), lbl)
  {
    if lbl in a {
      var i := RemoveFirstAt(a, lbl);
      RemoveFirstRemovesExactly(a, lbl);
    } else {
      RemoveFirstNone(a, lbl);
    }
  }

  /**
   A CLOSE of a live label: the command leaves all indexes, its label the closing client's list,
   and an emptied list goes; the client is told.
   */
  lemma CloseAnswered(s: State, r: Request)
    requires Agreement(s) && r.Close? && r.lbl in s.bySeq
    ensures var t := Step(s, r);
            && Gone(s, t, s.bySeq[r.lbl])
            && t.replies == s.replies + [Closed(r.writer, r.sequence)] && t.starter == s.starter
            && (forall c :: c != r.client ==> LabelsOf(t.byClient, c) == LabelsOf(s.byClient, c))
            && LabelGone(LabelsOf(s.byClient, r.client), LabelsOf(t.byClient, r.client), r.lbl)
            && (r.client in t.byClient ==> t.byClient[r.client] != [])
  {
    hide Gone, Drop, Agreement, Without, Children, LabelsOf, ForgetLabel;
    var u, t := Drop(s, r.lbl), Step(s, r);
    DropGoes(s, r.lbl);
    GoneHereToo(s, u, t, s.bySeq[r.lbl]);
    OneReplyEach(s, r);
    assert t.starter == s.starter by { DropKeepsStarter(s, r.lbl); }
    CloseLists(s, r);
  }

  lemma DropKeepsStarter(s: State, lbl: nat)
    ensures Drop(s, lbl).starter == s.starter && Drop(s, lbl).byClient == s.byClient
  {
  }

  lemma GoneHereToo(s: State, u: State, t: State, cmd: CommandInfo)
    requires Gone(s, u, cmd) && t.running == u.running && t.pids == u.pids && t.bySeq == u.bySeq
    ensures Gone(s, t, cmd)
  {
  }

  lemma CloseLists(s: State, r: Request)
    requires Agreement(s) && r.Close? && r.lbl in s.bySeq
    ensures var t := Step(s, r);
            && (forall c :: c != r.client ==> LabelsOf(t.byClient, c) == LabelsOf(s.byClient, c))
            && LabelGone(LabelsOf(s.byClient, r.client), LabelsOf(t.byClient, r.client), r.lbl)
            && (r.client in t.byClient ==> t.byClient[r.client] != [])
  {
    hide VectorAgrees, ListAgrees;
    DropKeepsStarter(s, r.lbl);
    if r.client in s.byClient {
      assert OwnLabels(s.starter, r.client, s.byClient[r.client]);
      hide LabelGone;
      RemovedGone(s.byClient[r.client], r.lbl);
    } else {
      assert LabelGone([], [], r.lbl);
    }
  }

  /** The commands that are not this client's, in order. */
  function Others(running: seq<CommandInfo>, starter: map<nat, Client>, c: Client): seq<CommandInfo> {
    if running == [] then []
    else (if running[0].lbl in starter && starter[running[0].lbl] == c then [] else [running[0]])
         + Others(running[1..], starter, c)
  }

  /** Their children, the latest first. */
  function ChildrenOf(running: seq<CommandInfo>): seq<Child> {
    if running == [] then [] else ChildrenOf(running[1..]) + [Child(running[0].fd, running[0].pid)]
  }

  lemma {:induction false} OthersAreWithout(running: seq<CommandInfo>, s: State, c: Client)
    ensures Others(running, s.starter, c) == Without(running, StartedBy(s, c))
  {
    if running != [] { OthersAreWithout(running[1..], s, c); }
  }

  lemma {:induction false} ChildrenAreThose(running: seq<CommandInfo>)
    ensures ChildrenOf(running) == Children(running)
  {
    if running != [] { ChildrenAreThose(running[1..]); }
  }

  /**
   A DESTROY: what its client started goes and its list with it, everybody else's stays in
   order, and nobody is told.
   */
  lemma DestroyAnswered(s: State, c: Client)
    requires Agreement(s)
    ensures var t := Step(s, Destroy(c));
            && t.running == Others(s.running, s.starter, c)
            && t.pids == ChildrenOf(t.running)
            && (forall k :: k in t.bySeq <==> k in s.bySeq && !(k in s.starter && s.starter[k] == c))
            && (forall k :: k in t.bySeq ==> t.bySeq[k] == s.bySeq[k])
            && t.byClient == s.byClient - {c}
            && t.starter == s.starter && t.replies == s.replies
  {
    DestroyRemovesExactly(s, c);
    OthersAreWithout(s.running, s, c);
    ChildrenAreThose(Step(s, Destroy(c)).running);
    DropAllFrame(s, ClientLabels(s, c));
  }
}
