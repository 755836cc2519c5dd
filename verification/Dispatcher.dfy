/** The dispatcher's routing of one message to the queues of the executors that take its type. */
module Dispatcher {
  import opened Pipeline

  // Where start() puts the normal executor.
  const NORMAL := 1

  class CommandDispatcher {
    const handlers: seq<Handler>
    const queues: array<seq<Message>>

    ghost predicate Valid() {
      queues.Length == |handlers| == 3 && handlers == [HandlerService, HandlerNormal, HandlerEvent]
    }

    constructor ()
      ensures Valid() && fresh(queues) && forall i :: 0 <= i < queues.Length ==> queues[i] == []
    {
      handlers := [HandlerService, HandlerNormal, HandlerEvent];
      queues := new seq<Message>[3](_ => []);
    }

    /**
     The loop over the executors: those of the message's type get it at the end of their queue,
     the others are left alone. `system` is the state of the whole path, whose step this is.
     */
    method HandleMessage(msg: Message, ghost system: System) returns (handle: bool)
      requires Valid()
      requires system.looper != [] && system.looper[0] == msg && queues[NORMAL] == system.queue
      modifies queues
      ensures forall i :: 0 <= i < queues.Length ==>
                queues[i] == if handlers[i] == msg.handler then old(queues[i]) + [msg] else old(queues[i])
      ensures handle <==> msg.handler in handlers
      ensures queues[NORMAL] == DispatchStep(system).queue
    {
      handle := false;
      var i := 0;
      while i < queues.Length
        invariant 0 <= i <= queues.Length
        invariant handle <==> msg.handler in handlers[..i]
        invariant forall j :: 0 <= j < i ==>
                    queues[j] == if handlers[j] == msg.handler then old(queues[j]) + [msg] else old(queues[j])
        invariant forall j :: i <= j < queues.Length ==> queues[j] == old(queues[j])
      {
        if handlers[i] == msg.handler {
          queues[i] := queues[i] + [msg];
          handle := true;
        }
        i := i + 1;
      }
      assert handlers[..i] == handlers;
    }
  }
}
