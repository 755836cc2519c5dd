/**
 The normal-command executor as a state machine on values: the command vector, the label
 map, the per-client label lists and the records of the process list, with what START,
 CLOSE and DESTROY do to them.
 */
module NormalSpec {
  import opened Labels
  import opened ProcessList
  import opened Sequences

  /** A (uid, pid) pair. */
  datatype Client = Client(uid: int, pid: int)

  /** A started command. Its fields are set before it is registered and never change. */
  datatype CommandInfo = CommandInfo(lbl: nat, fd: int, pid: int, cmdLine: string, writer: int)

  /** A result sent to a writer. */
  datatype Reply =
    | Started(writer: int, sequence: nat, lbl: nat, fd: int)
    | StartFailed(writer: int, sequence: nat)
    | Closed(writer: int, sequence: nat)
    | CloseFailed(writer: int, sequence: nat)

  /** The commands; `address` is where START allocates its record, `spawn` what it got from the OS. */
  datatype Request =
    | Start(client: Client, writer: int, sequence: nat, cmdLine: string, write: bool, address: nat, spawn: Spawn)
    | Close(client: Client, writer: int, sequence: nat, lbl: nat)
    | Destroy(client: Client)
    | Unknown(client: Client)

  /** `starter` is history: who started each label ever given out. */
  datatype State = State(
    running: seq<CommandInfo>,
    bySeq: map<nat, CommandInfo>,
    byClient: map<Client, seq<nat>>,
    pids: seq<Child>,
    starter: map<nat, Client>,
    replies: seq<Reply>)

  const INITIAL := State([], map[], map[], [], map[], [])

  function ClientLabels(s: State, c: Client): seq<nat> {
    if c in s.byClient then s.byClient[c] else []
  }

  function NewCommand(r: Request): CommandInfo
    requires r.Start? && r.spawn.Spawned?
  {
    CommandInfo(SequenceToLabel(r.sequence, r.address), KeptEnd(r.spawn, r.write), r.spawn.pid, r.cmdLine, r.writer)
  }

  /** What START registers, for a command and its starter. */
  function Register(s: State, cmd: CommandInfo, c: Client): State {
    s.(running := s.running + [cmd],
       bySeq := s.bySeq[cmd.lbl := cmd],
       byClient := s.byClient[c := ClientLabels(s, c) + [cmd.lbl]],
       pids := [Child(cmd.fd, cmd.pid)] + s.pids,
       starter := s.starter[cmd.lbl := c])
  }

  function StartStep(s: State, r: Request): State
    requires r.Start?
  {
    if r.spawn.SpawnFailed? then
      s.(replies := s.replies + [StartFailed(r.writer, r.sequence)])
    else
      var cmd := NewCommand(r);
      Register(s, cmd, r.client).(replies := s.replies + [Started(r.writer, r.sequence, cmd.lbl, cmd.fd)])
  }

  /** What CLOSE and DESTROY do to one live command: `sace_pclose`, then drop it from vector and map. */
  function Drop(s: State, lbl: nat): State {
    if lbl !in s.bySeq then s
    else
      var cmd := s.bySeq[lbl];
      s.(pids := RemoveFd(s.pids, cmd.fd),
         running := RemoveFirst(s.running, cmd),
         bySeq := s.bySeq - {lbl})
  }

  /** The label leaves the list of the closing client, and an emptied list goes. */
  function ForgetLabel(byClient: map<Client, seq<nat>>, c: Client, lbl: nat): map<Client, seq<nat>> {
    if c !in byClient then byClient
    else
      var rest := RemoveFirst(byClient[c], lbl);
      if rest == [] then byClient - {c} else byClient[c := rest]
  }

  function CloseStep(s: State, r: Request): State
    requires r.Close?
  {
    if r.lbl !in s.bySeq then
      s.(replies := s.replies + [CloseFailed(r.writer, r.sequence)])
    else
      Drop(s, r.lbl).(byClient := ForgetLabel(s.byClient, r.client, r.lbl),
                      replies := s.replies + [Closed(r.writer, r.sequence)])
  }

  function DropAll(s: State, labels: seq<nat>): State
    decreases labels
  {
    if labels == [] then s else DropAll(Drop(s, labels[0]), labels[1..])
  }

  function DestroyStep(s: State, c: Client): State {
    if c !in s.byClient then s
    else DropAll(s, s.byClient[c]).(byClient := s.byClient - {c})
  }

  function Step(s: State, r: Request): State {
    match r
    case Start(_, _, _, _, _, _, _) => StartStep(s, r)
    case Close(_, _, _, _) => CloseStep(s, r)
    case Destroy(c) => DestroyStep(s, c)
    case Unknown(_) => s
  }

  function Run(s: State, rs: seq<Request>): State
    decreases rs
  {
    if rs == [] then s else Run(Step(s, rs[0]), rs[1..])
  }

  // ---- what holds in every reachable state ----

  predicate DistinctLabels(running: seq<CommandInfo>) {
    forall i, j :: 0 <= i < j < |running| ==> running[i].lbl != running[j].lbl
  }

  /** The vector is duplicate-free and holds exactly the values of the label map, keyed by their labels. */
  predicate VectorAgrees(s: State) {
    && DistinctLabels(s.running)
    && (forall cmd :: cmd in s.running ==> cmd.lbl in s.bySeq && s.bySeq[cmd.lbl] == cmd)
    && (forall k :: k in s.bySeq ==> s.bySeq[k].lbl == k && s.bySeq[k] in s.running)
  }

  /** The (fd, pid) pairs of the commands, the latest first. */
  function Children(running: seq<CommandInfo>): seq<Child> {
    if running == [] then [] else Children(running[1..]) + [Child(running[0].fd, running[0].pid)]
  }

  /** The process list holds exactly the (fd, pid) pairs of the live commands, latest first, fds distinct. */
  predicate ListAgrees(s: State) {
    && s.pids == Children(s.running)
    && DistinctFds(s.pids)
    && (forall cmd :: cmd in s.running ==> cmd.fd >= 0)
  }

  /** A client list is not empty, has no duplicates, and holds only labels its client started. */
  predicate OwnLabels(starter: map<nat, Client>, c: Client, labels: seq<nat>) {
    && labels != []
    && NoDuplicates(labels)
    && (forall k :: k in labels ==> k in starter && starter[k] == c)
  }

  predicate Listed(s: State, k: nat) {
    k in s.starter && s.starter[k] in s.byClient && k in s.byClient[s.starter[k]]
  }

  /** Every live label is in its starter's list, and so in no other and only once. */
  predicate ClientsAgree(s: State) {
    && (forall c :: c in s.byClient ==> OwnLabels(s.starter, c, s.byClient[c]))
    && (forall k :: k in s.bySeq ==> Listed(s, k))
  }

  predicate Agreement(s: State) {
    VectorAgrees(s) && ListAgrees(s) && ClientsAgree(s)
  }

  /** The environment: a fresh label, a valid fd that is not open. */
  predicate Environment(s: State, r: Request) {
    r.Start? && r.spawn.Spawned? ==>
      && NewCommand(r).lbl !in s.starter
      && NewCommand(r).fd >= 0
      && !HasFd(s.pids, NewCommand(r).fd)
  }

  predicate EnvironmentRun(s: State, rs: seq<Request>)
    decreases rs
  {
    rs != [] ==> Environment(s, rs[0]) && EnvironmentRun(Step(s, rs[0]), rs[1..])
  }

  /** The commands whose labels are not in `gone`, in order. */
  function Without(running: seq<CommandInfo>, gone: set<nat>): seq<CommandInfo> {
    if running == [] then []
    else if running[0].lbl in gone then Without(running[1..], gone)
    else [running[0]] + Without(running[1..], gone)
  }

  lemma {:induction false} WithoutMembers(running: seq<CommandInfo>, gone: set<nat>)
    ensures forall x :: x in Without(running, gone) <==> x in running && x.lbl !in gone
    ensures DistinctLabels(running) ==> DistinctLabels(Without(running, gone))
  {
    if running != [] {
      var t := running[1..];
      WithoutMembers(t, gone);
      assert running == [running[0]] + t;
      if DistinctLabels(running) {
        forall j | 0 <= j < |t| ensures t[j].lbl != running[0].lbl { assert t[j] == running[j + 1]; }
        assert DistinctLabels(t);
        forall x | x in Without(t, gone) ensures x.lbl != running[0].lbl { assert x in t; }
      }
    }
  }

  lemma {:induction false} WithoutTwice(running: seq<CommandInfo>, a: set<nat>, b: set<nat>)
    ensures Without(Without(running, a), b) == Without(running, a + b)
  {
    if running != [] {
      WithoutTwice(running[1..], a, b);
      var t := Without(running[1..], a);
      assert ([running[0]] + t)[1..] == t;
    }
  }

  lemma {:induction false} WithoutSame(running: seq<CommandInfo>, a: set<nat>, b: set<nat>)
    requires forall x :: x in running ==> (x.lbl in a <==> x.lbl in b)
    ensures Without(running, a) == Without(running, b)
  {
    if running != [] { WithoutSame(running[1..], a, b); }
  }

  lemma {:induction false} WithoutNone(running: seq<CommandInfo>, gone: set<nat>)
    requires forall x :: x in running ==> x.lbl !in gone
    ensures Without(running, gone) == running
  {
    if running != [] { WithoutNone(running[1..], gone); }
  }

  lemma TailLabels(running: seq<CommandInfo>)
    requires running != [] && DistinctLabels(running)
    ensures DistinctLabels(running[1..])
    ensures forall x :: x in running[1..] ==> x.lbl != running[0].lbl
  {
    forall x | x in running[1..] ensures x.lbl != running[0].lbl {
      var j :| 0 <= j < |running[1..]| && running[1..][j] == x;
      assert running[j + 1] == x;
    }
  }

  lemma {:induction false} RemoveFirstIsWithout(running: seq<CommandInfo>, cmd: CommandInfo)
    requires DistinctLabels(running) && cmd in running
    ensures RemoveFirst(running, cmd) == Without(running, {cmd.lbl})
  {
    TailLabels(running);
    if running[0] == cmd {
      WithoutNone(running[1..], {cmd.lbl});
    } else {
      RemoveFirstIsWithout(running[1..], cmd);
    }
  }

  lemma {:induction false} RemoveFdAppended(a: seq<Child>, last: Child, fd: int)
    ensures RemoveFd(a + [last], fd)
            == if HasFd(a, fd) then RemoveFd(a, fd) + [last] else if last.fd == fd then a else a + [last]
  {
    if a == [] {
      assert a + [last] == [last];
    } else {
      assert (a + [last])[1..] == a[1..] + [last];
      RemoveFdAppended(a[1..], last, fd);
      assert HasFd(a, fd) <==> a[0].fd == fd || HasFd(a[1..], fd) by {
        if i :| 0 <= i < |a| && a[i].fd == fd && i > 0 { assert a[1..][i - 1].fd == fd; }
        if i :| 0 <= i < |a[1..]| && a[1..][i].fd == fd { assert a[i + 1].fd == fd; }
      }
    }
  }

  lemma {:induction false} FdOfChild(running: seq<CommandInfo>, cmd: CommandInfo)
    requires cmd in running
    ensures HasFd(Children(running), cmd.fd)
  {
    var n := |Children(running[1..])|;
    if running[0] == cmd {
      assert Children(running)[n].fd == cmd.fd;
    } else {
      FdOfChild(running[1..], cmd);
      var i :| 0 <= i < n && Children(running[1..])[i].fd == cmd.fd;
      assert Children(running)[i].fd == cmd.fd;
    }
  }

  /** Taking a command's fd out of the process list leaves the records of the other commands. */
  lemma {:induction false} RemoveFdIsWithout(running: seq<CommandInfo>, cmd: CommandInfo)
    requires DistinctLabels(running) && cmd in running && DistinctFds(Children(running))
    ensures RemoveFd(Children(running), cmd.fd) == Children(Without(running, {cmd.lbl}))
  {
    var a, last := Children(running[1..]), Child(running[0].fd, running[0].pid);
    TailLabels(running);
    RemoveFdAppended(a, last, cmd.fd);
    assert forall i :: 0 <= i < |a| ==> a[i] == Children(running)[i];
    assert Children(running)[|a|] == last;
    if running[0] == cmd {
      WithoutNone(running[1..], {cmd.lbl});
      assert !HasFd(a, cmd.fd);
    } else {
      FdOfChild(running[1..], cmd);
      RemoveFdIsWithout(running[1..], cmd);
      var rest := Without(running[1..], {cmd.lbl});
      assert Without(running, {cmd.lbl}) == [running[0]] + rest;
      assert ([running[0]] + rest)[1..] == rest;
    }
  }

  /** Dropping a live command takes its entry out of vector, map and process list, and no other. */
  lemma DropIsWithout(s: State, lbl: nat)
    requires VectorAgrees(s) && ListAgrees(s)
    ensures Drop(s, lbl).running == Without(s.running, {lbl})
    ensures Drop(s, lbl).pids == Children(Drop(s, lbl).running) && DistinctFds(Drop(s, lbl).pids)
  {
    if lbl !in s.bySeq {
      WithoutNone(s.running, {lbl});
    } else {
      RemoveFirstIsWithout(s.running, s.bySeq[lbl]);
      RemoveFdIsWithout(s.running, s.bySeq[lbl]);
      RemoveFdRemovesExactly(s.pids, s.bySeq[lbl].fd);
    }
  }

  lemma DropKeepsVector(s: State, lbl: nat)
    requires VectorAgrees(s) && ListAgrees(s)
    ensures VectorAgrees(Drop(s, lbl)) && ListAgrees(Drop(s, lbl))
  {
    DropIsWithout(s, lbl);
    WithoutMembers(s.running, {lbl});
  }

  lemma DropKeepsAgreement(s: State, lbl: nat)
    requires Agreement(s)
    ensures Agreement(Drop(s, lbl))
    ensures Drop(s, lbl).bySeq == s.bySeq - {lbl}
  {
    DropKeepsVector(s, lbl);
    var t := Drop(s, lbl);
    forall k | k in t.bySeq ensures Listed(t, k) { assert Listed(s, k); }
  }

  function Elements(labels: seq<nat>): set<nat> {
    set k | k in labels
  }

  lemma ElementsSplit(labels: seq<nat>)
    requires labels != []
    ensures Elements(labels) == {labels[0]} + Elements(labels[1..])
  {
  }

  lemma {:induction false} DropAllFrame(s: State, labels: seq<nat>)
    ensures DropAll(s, labels).bySeq == s.bySeq - Elements(labels)
    ensures DropAll(s, labels).byClient == s.byClient && DropAll(s, labels).starter == s.starter
    ensures DropAll(s, labels).replies == s.replies
    decreases labels
  {
    if labels != [] {
      DropAllFrame(Drop(s, labels[0]), labels[1..]);
      ElementsSplit(labels);
    }
  }

  lemma {:induction false} DropAllKeepsAgreement(s: State, labels: seq<nat>)
    requires Agreement(s)
    ensures Agreement(DropAll(s, labels))
    decreases labels
  {
    if labels != [] {
      DropKeepsAgreement(s, labels[0]);
      DropAllKeepsAgreement(Drop(s, labels[0]), labels[1..]);
    }
  }

  lemma WithoutStep(running: seq<CommandInfo>, labels: seq<nat>)
    requires labels != []
    ensures Without(Without(running, {labels[0]}), Elements(labels[1..])) == Without(running, Elements(labels))
  {
    WithoutTwice(running, {labels[0]}, Elements(labels[1..]));
    ElementsSplit(labels);
  }

  /** Dropping a list of labels keeps the other commands in order. */
  lemma {:induction false} DropAllIsWithout(s: State, labels: seq<nat>)
    requires VectorAgrees(s) && ListAgrees(s)
    ensures DropAll(s, labels).running == Without(s.running, Elements(labels))
    decreases labels
  {
    if labels == [] {
      assert DropAll(s, labels) == s;
      WithoutNone(s.running, Elements(labels));
    } else {
      var t := Drop(s, labels[0]);
      assert VectorAgrees(t) && ListAgrees(t) && t.running == Without(s.running, {labels[0]}) by {
        DropKeepsVector(s, labels[0]);
        DropIsWithout(s, labels[0]);
      }
      assert DropAll(s, labels) == DropAll(t, labels[1..]);
      DropAllIsWithout(t, labels[1..]);
      WithoutStep(s.running, labels);
    }
  }

  lemma {:induction false} ChildrenAppended(running: seq<CommandInfo>, cmd: CommandInfo)
    ensures Children(running + [cmd]) == [Child(cmd.fd, cmd.pid)] + Children(running)
  {
    if running == [] {
      assert running + [cmd] == [cmd];
    } else {
      assert (running + [cmd])[1..] == running[1..] + [cmd];
      ChildrenAppended(running[1..], cmd);
    }
  }

  lemma RegisterKeepsVector(s: State, cmd: CommandInfo, c: Client)
    requires VectorAgrees(s) && cmd.lbl !in s.bySeq
    ensures VectorAgrees(Register(s, cmd, c))
  {
    var t := Register(s, cmd, c);
    forall x | x in s.running ensures x.lbl != cmd.lbl { assert x.lbl in s.bySeq; }
  }

  lemma RegisterKeepsList(s: State, cmd: CommandInfo, c: Client)
    requires ListAgrees(s) && cmd.fd >= 0 && !HasFd(s.pids, cmd.fd)
    ensures ListAgrees(Register(s, cmd, c))
  {
    ChildrenAppended(s.running, cmd);
  }

  lemma FreshIsNotLive(s: State, lbl: nat)
    requires ClientsAgree(s) && lbl !in s.starter
    ensures lbl !in s.bySeq
  {
    assert lbl in s.bySeq ==> Listed(s, lbl);
  }

  lemma RegisterKeepsAgreement(s: State, cmd: CommandInfo, c: Client)
    requires Agreement(s)
    requires cmd.lbl !in s.starter && cmd.fd >= 0 && !HasFd(s.pids, cmd.fd)
    ensures Agreement(Register(s, cmd, c))
  {
    FreshIsNotLive(s, cmd.lbl);
    RegisterKeepsVector(s, cmd, c);
    RegisterKeepsList(s, cmd, c);
    RegisterKeepsClients(s, cmd, c);
  }

  lemma RegisterKeepsClients(s: State, cmd: CommandInfo, c: Client)
    requires ClientsAgree(s) && cmd.lbl !in s.starter
    ensures ClientsAgree(Register(s, cmd, c))
  {
    var t := Register(s, cmd, c);
    forall d | d in t.byClient ensures OwnLabels(t.starter, d, t.byClient[d]) {
      if d in s.byClient { assert OwnLabels(s.starter, d, s.byClient[d]); }
    }
    forall k | k in t.bySeq ensures Listed(t, k) {
      if k != cmd.lbl { assert Listed(s, k); }
    }
  }

  lemma StartKeepsAgreement(s: State, r: Request)
    requires Agreement(s) && r.Start? && Environment(s, r)
    ensures Agreement(StartStep(s, r))
  {
    if r.spawn.Spawned? {
      RegisterKeepsAgreement(s, NewCommand(r), r.client);
    }
  }

  lemma ForgetKeepsClients(s: State, c: Client, lbl: nat)
    requires ClientsAgree(s) && lbl !in s.bySeq
    ensures ClientsAgree(s.(byClient := ForgetLabel(s.byClient, c, lbl)))
  {
    var t := s.(byClient := ForgetLabel(s.byClient, c, lbl));
    if c in s.byClient {
      assert OwnLabels(s.starter, c, s.byClient[c]);
      RemoveFirstRemovesExactly(s.byClient[c], lbl);
      forall d | d in t.byClient ensures OwnLabels(t.starter, d, t.byClient[d]) {
        assert OwnLabels(s.starter, d, s.byClient[d]);
      }
      forall k | k in t.bySeq ensures Listed(t, k) { assert Listed(s, k); }
    }
  }

  lemma CloseKeepsAgreement(s: State, r: Request)
    requires Agreement(s) && r.Close?
    ensures Agreement(CloseStep(s, r))
  {
    if r.lbl in s.bySeq {
      DropKeepsAgreement(s, r.lbl);
      ForgetKeepsClients(Drop(s, r.lbl), r.client, r.lbl);
    }
  }

  lemma DestroyKeepsAgreement(s: State, c: Client)
    requires Agreement(s)
    ensures Agreement(DestroyStep(s, c))
  {
    if c in s.byClient {
      DropAllKeepsAgreement(s, s.byClient[c]);
      DropAllFrame(s, s.byClient[c]);
      var u, t := DropAll(s, s.byClient[c]), DestroyStep(s, c);
      forall k | k in t.bySeq ensures Listed(t, k) { assert Listed(s, k) && Listed(u, k); }
      assert ClientsAgree(t);
    }
  }

  lemma StepKeepsAgreement(s: State, r: Request)
    requires Agreement(s) && Environment(s, r)
    ensures Agreement(Step(s, r))
  {
    match r
    case Start(_, _, _, _, _, _, _) => StartKeepsAgreement(s, r);
    case Close(_, _, _, _) => CloseKeepsAgreement(s, r);
    case Destroy(c) => DestroyKeepsAgreement(s, c);
    case Unknown(_) =>
  }

  /** Every run of START, CLOSE and DESTROY keeps all four indexes in agreement. */
  lemma {:induction false} RunKeepsAgreement(s: State, rs: seq<Request>)
    requires Agreement(s) && EnvironmentRun(s, rs)
    ensures Agreement(Run(s, rs))
    decreases |rs|
  {
    if rs != [] {
      StepKeepsAgreement(s, rs[0]);
      RunKeepsAgreement(Step(s, rs[0]), rs[1..]);
    }
  }

  /** A live label started by `c` is one that is in the list of `c`. */
  lemma OwnIsListed(s: State, c: Client, k: nat)
    requires ClientsAgree(s) && k in s.bySeq
    ensures k in s.starter
    ensures k in ClientLabels(s, c) <==> s.starter[k] == c
  {
    assert Listed(s, k);
    if c in s.byClient { assert OwnLabels(s.starter, c, s.byClient[c]); }
  }

  function StartedBy(s: State, c: Client): set<nat> {
    set k | k in s.starter && s.starter[k] == c
  }

  lemma OwnAreListed(s: State, c: Client)
    requires VectorAgrees(s) && ClientsAgree(s)
    ensures forall k :: k in s.bySeq ==> (k in ClientLabels(s, c) <==> k in StartedBy(s, c))
    ensures forall x :: x in s.running ==> (x.lbl in Elements(ClientLabels(s, c)) <==> x.lbl in StartedBy(s, c))
  {
    forall k | k in s.bySeq ensures k in ClientLabels(s, c) <==> k in StartedBy(s, c) {
      OwnIsListed(s, c, k);
    }
  }

  lemma DestroyVector(s: State, c: Client)
    requires Agreement(s)
    ensures DestroyStep(s, c).running == Without(s.running, StartedBy(s, c))
  {
    OwnAreListed(s, c);
    WithoutSame(s.running, Elements(ClientLabels(s, c)), StartedBy(s, c));
    if c in s.byClient {
      DropAllIsWithout(s, s.byClient[c]);
    } else {
      WithoutNone(s.running, Elements([]));
    }
  }

  lemma DestroyMaps(s: State, c: Client)
    requires VectorAgrees(s) && ClientsAgree(s)
    ensures DestroyStep(s, c).bySeq == s.bySeq - StartedBy(s, c)
    ensures DestroyStep(s, c).byClient == s.byClient - {c}
  {
    OwnAreListed(s, c);
    DropAllFrame(s, ClientLabels(s, c));
  }

  /** DESTROY removes exactly the live commands its client started, and nobody else's. */
  lemma DestroyRemovesExactly(s: State, c: Client)
    requires Agreement(s)
    ensures DestroyStep(s, c).bySeq == s.bySeq - StartedBy(s, c)
    ensures DestroyStep(s, c).running == Without(s.running, StartedBy(s, c))
    ensures DestroyStep(s, c).pids == Children(Without(s.running, StartedBy(s, c)))
    ensures DestroyStep(s, c).byClient == s.byClient - {c}
  {
    DestroyVector(s, c);
    DestroyMaps(s, c);
    assert ListAgrees(DestroyStep(s, c)) by { DestroyKeepsAgreement(s, c); }
  }

  lemma ForgetRemovesExactly(s: State, c: Client, lbl: nat)
    requires ClientsAgree(s)
    ensures var t := s.(byClient := ForgetLabel(s.byClient, c, lbl));
            forall d, k :: k in ClientLabels(t, d) <==> k in ClientLabels(s, d) && !(d == c && k == lbl)
  {
    if c in s.byClient {
      assert OwnLabels(s.starter, c, s.byClient[c]);
      RemoveFirstRemovesExactly(s.byClient[c], lbl);
    }
  }

  /**
   CLOSE by anyone removes one live command from vector, map and process list; its label
   leaves the list of the closing client, so it stays listed only if another client closed.
   */
  lemma CloseRemovesExactly(s: State, r: Request)
    requires Agreement(s) && r.Close? && r.lbl in s.bySeq
    ensures CloseStep(s, r).bySeq == s.bySeq - {r.lbl}
    ensures CloseStep(s, r).running == Without(s.running, {r.lbl})
    ensures CloseStep(s, r).pids == Children(Without(s.running, {r.lbl}))
    ensures forall c, k :: k in ClientLabels(CloseStep(s, r), c)
                           <==> k in ClientLabels(s, c) && !(c == r.client && k == r.lbl)
    ensures r.lbl in s.starter
    ensures Listed(CloseStep(s, r), r.lbl) <==> s.starter[r.lbl] != r.client
  {
    DropIsWithout(s, r.lbl);
    ForgetRemovesExactly(s, r.client, r.lbl);
    var t := s.(byClient := ForgetLabel(s.byClient, r.client, r.lbl));
    assert forall c :: ClientLabels(CloseStep(s, r), c) == ClientLabels(t, c);
    assert Listed(s, r.lbl);
    OwnIsListed(s, s.starter[r.lbl], r.lbl);
  }

  /** A close by its own client undoes a start in all four indexes. */
  lemma CloseUndoesStart(s: State, r: Request, writer: int, sequence: nat)
    requires Agreement(s) && r.Start? && r.spawn.Spawned? && Environment(s, r)
    ensures var t := CloseStep(StartStep(s, r), Close(r.client, writer, sequence, NewCommand(r).lbl));
            && t.running == s.running && t.bySeq == s.bySeq
            && t.byClient == s.byClient && t.pids == s.pids
  {
    RegisterThenDrop(s, NewCommand(r), r.client);
  }

  lemma RegisterThenDrop(s: State, cmd: CommandInfo, c: Client)
    requires Agreement(s)
    requires cmd.lbl !in s.starter && !HasFd(s.pids, cmd.fd)
    ensures var t := Drop(Register(s, cmd, c), cmd.lbl);
            && t.running == s.running && t.bySeq == s.bySeq && t.pids == s.pids
            && ForgetLabel(t.byClient, c, cmd.lbl) == s.byClient
  {
    FreshIsNotLive(s, cmd.lbl);
    assert cmd !in s.running;
    RemoveFirstAppended(s.running, cmd);
    if c in s.byClient { assert OwnLabels(s.starter, c, s.byClient[c]); }
    assert cmd.lbl !in ClientLabels(s, c);
    RemoveFirstAppended(ClientLabels(s, c), cmd.lbl);
  }

  /** Each START and each CLOSE is answered once, to its own writer with its own sequence; DESTROY never. */
  lemma OneReplyEach(s: State, r: Request)
    ensures Step(s, r).replies
            == s.replies + (match r
                            case Start(_, w, q, _, _, _, spawn) =>
                              [if spawn.SpawnFailed? then StartFailed(w, q)
                               else Started(w, q, NewCommand(r).lbl, NewCommand(r).fd)]
                            case Close(_, w, q, lbl) => [if lbl in s.bySeq then Closed(w, q) else CloseFailed(w, q)]
                            case _ => [])
  {
    if r.Destroy? && r.client in s.byClient {
      DropAllFrame(s, s.byClient[r.client]);
    }
  }
}
