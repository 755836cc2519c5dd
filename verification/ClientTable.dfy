/** The socket reader's fixed table of client slots, and what `accept` does to it. */
module ClientTable {
  import opened NormalSpec

  const MAX_CLIENT_NUM := 32

  /** A slot; it is free when its fd is negative. */
  datatype ClientSocket = ClientSocket(fd: int, client: Client)

  const NO_CLIENT := ClientSocket(-1, Client(-1, -1))

  /** The first free slot, or the table size. */
  function FirstFree(slots: seq<ClientSocket>): (i: nat)
    ensures i <= |slots|
    ensures i < |slots| ==> slots[i].fd < 0
    ensures forall j :: 0 <= j < i ==> slots[j].fd >= 0
  {
    if slots == [] || slots[0].fd < 0 then 0
    else
      var i := FirstFree(slots[1..]);
      assert forall j :: 0 < j < i + 1 ==> slots[j] == slots[1..][j - 1];
      i + 1
  }

  predicate HasFree(slots: seq<ClientSocket>) {
    exists j :: 0 <= j < |slots| && slots[j].fd < 0
  }

  /** The table after a connection was accepted: the first free slot takes it, if there is one. */
  function Accepted(slots: seq<ClientSocket>, c: ClientSocket): seq<ClientSocket> {
    var i := FirstFree(slots);
    if i < |slots| then slots[i := c] else slots
  }

  lemma FirstFreeIs(slots: seq<ClientSocket>, i: nat)
    requires i <= |slots|
    requires forall j :: 0 <= j < i ==> slots[j].fd >= 0
    requires i < |slots| ==> slots[i].fd < 0
    ensures FirstFree(slots) == i
  {
    var k := FirstFree(slots);
  }

  predicate FirstFreeAt(slots: seq<ClientSocket>, i: nat)
    requires i < |slots|
  {
    slots[i].fd < 0 && forall j :: 0 <= j < i ==> slots[j].fd >= 0
  }

  /**
   What an accept is for: the first free slot takes the client, every other slot is as it was,
   and its fd stays open; with a full table nothing changes and its fd is closed.
   */
  ghost predicate Served(before: seq<ClientSocket>, after: seq<ClientSocket>, c: ClientSocket, closed: bool) {
    if HasFree(before) then
      !closed && exists i :: 0 <= i < |before| && FirstFreeAt(before, i) && after == before[i := c]
    else
      closed && after == before
  }

  class Table {
    var mClients: array<ClientSocket>

    ghost predicate Valid()
      reads this
    {
      mClients.Length == MAX_CLIENT_NUM
    }

    constructor ()
      ensures Valid() && fresh(mClients)
      ensures forall i :: 0 <= i < mClients.Length ==> mClients[i] == NO_CLIENT
    {
      mClients := new ClientSocket[MAX_CLIENT_NUM](_ => NO_CLIENT);
    }

    /**
     The code as it is written. Its loop declares an index of its own, so the test after it
     reads an outer variable that was never set: `unset` is the value it happens to hold.
     */
    method AcceptAsWritten(c: ClientSocket, unset: int) returns (closed: bool)
      requires Valid()
      modifies mClients
      ensures mClients[..] == Accepted(old(mClients[..]), c)
      ensures closed <==> unset >= MAX_CLIENT_NUM
    {
      var i := 0;
      while i < MAX_CLIENT_NUM
        invariant 0 <= i <= MAX_CLIENT_NUM
        invariant mClients[..] == old(mClients[..])
        invariant forall j :: 0 <= j < i ==> mClients[j].fd >= 0
      {
        if mClients[i].fd < 0 {
          FirstFreeIs(mClients[..], i);
          mClients[i] := c;
          break;
        }
        i := i + 1;
      }
      if i == MAX_CLIENT_NUM {
        FirstFreeIs(mClients[..], i);
      }
      closed := unset >= MAX_CLIENT_NUM;
    }

    /** The same code with one index for the loop and the test. */
    method Accept(c: ClientSocket) returns (closed: bool)
      requires Valid()
      modifies mClients
      ensures mClients[..] == Accepted(old(mClients[..]), c)
      ensures closed <==> FirstFree(old(mClients[..])) == MAX_CLIENT_NUM
      ensures Served(old(mClients[..]), mClients[..], c, closed)
    {
      var i := 0;
      while i < MAX_CLIENT_NUM
        invariant 0 <= i <= MAX_CLIENT_NUM
        invariant mClients[..] == old(mClients[..])
        invariant forall j :: 0 <= j < i ==> mClients[j].fd >= 0
      {
        if mClients[i].fd < 0 {
          mClients[i] := c;
          break;
        }
        i := i + 1;
      }
      FirstFreeIs(old(mClients[..]), i);
      assert i < MAX_CLIENT_NUM ==> FirstFreeAt(old(mClients[..]), i);
      closed := i >= MAX_CLIENT_NUM;
    }
  }

  /** As written, an accept serves or rejects correctly exactly if the unset index happens to tell a full table. */
  lemma AcceptAsWrittenExactly(before: seq<ClientSocket>, c: ClientSocket, unset: int)
    requires |before| == MAX_CLIENT_NUM && c.fd >= 0
    ensures Served(before, Accepted(before, c), c, unset >= MAX_CLIENT_NUM)
            <==> (unset >= MAX_CLIENT_NUM <==> !HasFree(before))
  {
    var i := FirstFree(before);
    if HasFree(before) {
      assert i < |before| && FirstFreeAt(before, i);
    }
  }
}
