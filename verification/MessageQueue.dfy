/**
 The queue of an executor: producers test the exit flag, push under the mutex and post the
 semaphore; the executor's thread waits (with a time-out or without), tests the flag, pops
 under the mutex and executes; shutting down sets the flag and posts once. Every step that
 the mutex or the semaphore makes atomic is one action, and actions interleave freely.
 */
module MessageQueue {

  type Message = nat
  type Thread = nat

  /** A producer between its test of the flag and its push, or between its push and its post. */
  datatype Producer = Tested(msg: Message) | Pushed

  /** `token`: the thread woke by taking one from the semaphore, not by a signal. */
  datatype Consumer =
    | Waiting
    | Woken(token: bool)
    | Popping(token: bool)
    | Holding(msg: Message)
    | Exited(token: bool)

  /** `accepted` and `executed` are history. */
  datatype State = State(
    exit: bool,
    exitPosted: bool,
    queue: seq<Message>,
    sem: nat,
    producers: map<Thread, Producer>,
    consumer: Consumer,
    accepted: seq<Message>,
    executed: seq<Message>)

  const INITIAL := State(false, false, [], 0, map[], Waiting, [], [])

  datatype Action =
    | Test(t: Thread, msg: Message)
    | Push(t: Thread)
    | Post(t: Thread)
    | Wake
    | Interrupt
    | TimeOut
    | TestExit
    | Pop
    | Execute
    | SetExit
    | PostExit

  predicate Enabled(s: State, a: Action) {
    match a
    case Test(t, _) => t !in s.producers
    case Push(t) => t in s.producers && s.producers[t].Tested?
    case Post(t) => t in s.producers && s.producers[t].Pushed?
    case Wake => s.consumer.Waiting? && s.sem > 0
    case Interrupt => s.consumer.Waiting?
    case TimeOut => s.consumer.Waiting?
    case TestExit => s.consumer.Woken?
    case Pop => s.consumer.Popping?
    case Execute => s.consumer.Holding?
    case SetExit => !s.exit
    case PostExit => s.exit && !s.exitPosted
  }

  /**
   An action that is not enabled does nothing. A time-out runs the executor's time-out hook,
   which leaves the queue alone.
   */
  function Next(s: State, a: Action): State {
    if !Enabled(s, a) then s
    else
      match a
      case Test(t, m) => if s.exit then s else s.(producers := s.producers[t := Tested(m)])
      case Push(t) =>
        s.(queue := s.queue + [s.producers[t].msg],
           accepted := s.accepted + [s.producers[t].msg],
           producers := s.producers[t := Pushed])
      case Post(t) => s.(sem := s.sem + 1, producers := s.producers - {t})
      case Wake => s.(sem := s.sem - 1, consumer := Woken(true))
      case Interrupt => s.(consumer := Woken(false))
      case TimeOut => s
      case TestExit => s.(consumer := if s.exit then Exited(s.consumer.token) else Popping(s.consumer.token))
      case Pop =>
        if s.queue == [] then s.(consumer := Waiting)
        else s.(queue := s.queue[1..], consumer := Holding(s.queue[0]))
      case Execute => s.(executed := s.executed + [s.consumer.msg], consumer := Waiting)
      case SetExit => s.(exit := true)
      case PostExit => s.(sem := s.sem + 1, exitPosted := true)
  }

  function Run(s: State, acts: seq<Action>): State
    decreases acts
  {
    if acts == [] then s else Run(Next(s, acts[0]), acts[1..])
  }

  // ---- the invariant ----

  /** The producers that pushed and have not posted. */
  function MidPost(s: State): set<Thread> {
    set t | t in s.producers && s.producers[t].Pushed?
  }

  function InHand(c: Consumer): seq<Message> {
    if c.Holding? then [c.msg] else []
  }

  function TokensHeld(c: Consumer): nat {
    if (c.Woken? || c.Popping? || c.Exited?) && c.token then 1 else 0
  }

  /** Nothing accepted is lost, doubled or overtaken. */
  predicate Conserves(s: State) {
    s.accepted == s.executed + InHand(s.consumer) + s.queue
  }

  /** Every queued message has a token waiting, on its way, or taken for it. */
  predicate Covered(s: State) {
    |s.queue| <= s.sem + |MidPost(s)| + TokensHeld(s.consumer)
  }

  /** The token posted at shutdown is there until the thread takes it and exits. */
  predicate ExitReaches(s: State) {
    && (s.exitPosted ==> s.exit)
    && (s.exitPosted ==>
          s.consumer.Exited? || s.sem > 0 || (s.consumer.Woken? && s.consumer.token))
  }

  predicate Inv(s: State) {
    Conserves(s) && Covered(s) && ExitReaches(s)
  }

  lemma ProducersCounted(s: State, a: Action)
    requires Enabled(s, a)
    ensures |MidPost(Next(s, a))|
            == |MidPost(s)| + (if a.Push? then 1 else 0) - (if a.Post? then 1 else 0)
  {
    if a.Push? {
      assert MidPost(Next(s, a)) == MidPost(s) + {a.t};
    } else if a.Post? {
      assert MidPost(Next(s, a)) == MidPost(s) - {a.t};
    } else {
      assert MidPost(Next(s, a)) == MidPost(s);
    }
  }

  lemma NextKeepsInv(s: State, a: Action)
    requires Inv(s)
    ensures Inv(Next(s, a))
  {
    if Enabled(s, a) {
      ProducersCounted(s, a);
    }
  }

  /** Under any interleaving, with any time-outs and signals. */
  lemma {:induction false} RunKeepsInv(s: State, acts: seq<Action>)
    requires Inv(s)
    ensures Inv(Run(s, acts))
    decreases acts
  {
    if acts != [] {
      NextKeepsInv(s, acts[0]);
      RunKeepsInv(Next(s, acts[0]), acts[1..]);
    }
  }

  lemma InitialInv()
    ensures Inv(INITIAL)
  {
    assert MidPost(INITIAL) == {};
  }

  /** The executor's thread is blocked with no producer about to post only if nothing is queued. */
  lemma BlockedMeansEmpty(acts: seq<Action>)
    ensures var s := Run(INITIAL, acts);
            s.consumer.Waiting? && s.sem == 0 && MidPost(s) == {} ==> s.queue == [] && s.executed == s.accepted
  {
    InitialInv();
    RunKeepsInv(INITIAL, acts);
  }

  lemma RunTwo(s: State, a: Action, b: Action)
    ensures Run(s, [a, b]) == Next(Next(s, a), b)
  {
    assert [a, b][1..] == [b];
    assert Run(Next(s, a), [b]) == Run(Next(Next(s, a), b), []);
  }

  /** Before shutdown a message that is offered is accepted, at the end of the queue, with a token for it. */
  lemma OfferAccepted(s: State, t: Thread, m: Message)
    requires !s.exit && t !in s.producers
    ensures Run(s, [Test(t, m), Push(t), Post(t)])
            == s.(queue := s.queue + [m], accepted := s.accepted + [m], sem := s.sem + 1)
  {
    var tested := s.(producers := s.producers[t := Tested(m)]);
    var pushed := tested.(queue := s.queue + [m], accepted := s.accepted + [m], producers := s.producers[t := Pushed]);
    assert s.producers[t := Tested(m)][t := Pushed] == s.producers[t := Pushed];
    assert [Test(t, m), Push(t), Post(t)][1..] == [Push(t), Post(t)];
    RunTwo(tested, Push(t), Post(t));
    assert Next(s, Test(t, m)) == tested && Next(tested, Push(t)) == pushed;
    assert s.producers[t := Pushed] - {t} == s.producers;
  }

  /** After it none is, and a thread that has exited executes nothing more. */
  lemma NothingAfterExit(s: State, t: Thread, m: Message, a: Action)
    ensures s.exit ==> Next(s, Test(t, m)) == s && Next(s, a).exit
    ensures s.exit && s.consumer.Woken? ==> Next(s, TestExit) == s.(consumer := Exited(s.consumer.token))
    ensures s.consumer.Exited? ==> Next(s, a).consumer == s.consumer && Next(s, a).executed == s.executed
  {
  }

  /** Shutting down sets the flag and then posts once; a time-out leaves all as it was. */
  lemma ShutdownSteps(s: State)
    ensures Next(s, SetExit) == s.(exit := true)
    ensures s.exit && !s.exitPosted ==> Next(s, PostExit) == s.(sem := s.sem + 1, exitPosted := true)
    ensures s.exitPosted ==> Next(s, PostExit) == s
    ensures Next(s, TimeOut) == s
  {
  }

  /** A signal wakes a waiting thread without a token, and it takes what is queued all the same. */
  lemma SignalWakes(s: State)
    requires !s.exit && s.consumer.Waiting?
    ensures Next(Next(Next(s, Interrupt), TestExit), Pop)
            == if s.queue == [] then s else s.(queue := s.queue[1..], consumer := Holding(s.queue[0]))
  {
  }

  /** Once shutdown has posted, the thread is never blocked again before it exits. */
  lemma ShutdownNeverBlocks(acts: seq<Action>)
    ensures var s := Run(INITIAL, acts);
            s.exitPosted && s.consumer.Waiting? ==> s.sem > 0 && Run(s, [Wake, TestExit]).consumer.Exited?
  {
    InitialInv();
    RunKeepsInv(INITIAL, acts);
    RunTwo(Run(INITIAL, acts), Wake, TestExit);
  }

  /** One message, from the wait to its execution. */
  const TURN := [Wake, TestExit, Pop, Execute]

  function Turns(n: nat): seq<Action> {
    if n == 0 then [] else TURN + Turns(n - 1)
  }

  lemma {:induction false} RunAppended(s: State, a: seq<Action>, b: seq<Action>)
    ensures Run(s, a + b) == Run(Run(s, a), b)
    decreases a
  {
    if a == [] {
      assert a + b == b;
    } else {
      assert (a + b)[1..] == a[1..] + b;
      RunAppended(Next(s, a[0]), a[1..], b);
    }
  }

  lemma RunTurn(s: State)
    ensures Run(s, TURN) == Next(Next(Next(Next(s, Wake), TestExit), Pop), Execute)
  {
    hide Next, Run;
    assert TURN == [Wake, TestExit] + [Pop, Execute];
    RunAppended(s, [Wake, TestExit], [Pop, Execute]);
    RunTwo(s, Wake, TestExit);
    RunTwo(Next(Next(s, Wake), TestExit), Pop, Execute);
  }

  lemma OneTurn(s: State)
    requires s.sem > 0 && !s.exit && s.consumer.Waiting? && s.queue != []
    ensures Run(s, TURN) == s.(sem := s.sem - 1, queue := s.queue[1..], executed := s.executed + [s.queue[0]])
  {
    hide Run;
    RunTurn(s);
    var woken := s.(sem := s.sem - 1, consumer := Woken(true));
    var popping := woken.(consumer := Popping(true));
    var holding := popping.(queue := s.queue[1..], consumer := Holding(s.queue[0]));
    assert Next(s, Wake) == woken;
    assert Next(woken, TestExit) == popping;
    assert Next(popping, Pop) == holding;
    assert Next(holding, Execute) == holding.(executed := s.executed + [s.queue[0]], consumer := Waiting);
  }

  /** With no producer mid-post, the thread alone executes everything accepted, in order, without blocking. */
  lemma {:induction false} ThreadDrainsQueue(s: State)
    requires Inv(s) && !s.exit && s.consumer.Waiting? && MidPost(s) == {}
    ensures var t := Run(s, Turns(|s.queue|));
            t.queue == [] && t.executed == s.accepted && t.consumer.Waiting?
    decreases |s.queue|
  {
    if s.queue != [] {
      var u := Run(s, TURN);
      OneTurn(s);
      RunKeepsInv(s, TURN);
      assert MidPost(u) == MidPost(s);
      ThreadDrainsQueue(u);
      RunAppended(s, TURN, Turns(|u.queue|));
    }
  }
}
