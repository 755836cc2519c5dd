/**
 Event triggers: edge-triggered conditions that the monitor thread polls. A poll stops at the
 first trigger that fires, so that a later one waits for its turn.
 */
module Triggers {

  const NUL := 0 as char

  /** What a C function sees of a string: the characters before its first NUL. */
  function CString(s: string): string {
    if s == "" || s[0] == NUL then "" else [s[0]] + CString(s[1..])
  }

  /** `last` is the value a property trigger fired on, empty before. */
  datatype Trigger =
    | Property(key: string, want: string, last: string)
    | Boot(hasTriggered: bool)

  /** The system properties; an unset one reads as empty. */
  type Properties = string -> string

  /** What property_get puts into its buffer. */
  function PropertyGet(props: Properties, key: string): string {
    CString(props(CString(key)))
  }

  lemma {:induction false} CutAtNul(s: string, rest: string)
    requires NUL !in s
    ensures CString(s + [NUL] + rest) == s && CString(s) == s
  {
    if s == "" {
      assert s + [NUL] + rest == [NUL] + rest;
    } else {
      assert s[0] in s && (s + [NUL] + rest)[1..] == s[1..] + [NUL] + rest;
      CutAtNul(s[1..], rest);
    }
  }

  /** The property that is asked for ends at its key's first NUL, and so does the value. */
  lemma PropertyAsked(props: Properties, key: string, value: string, more: string, rest: string)
    requires NUL !in key && NUL !in value && (props(key) == value || props(key) == value + [NUL] + rest)
    ensures PropertyGet(props, key) == value && PropertyGet(props, key + [NUL] + more) == value
  {
    CutAtNul(key, more);
    CutAtNul(value, rest);
  }

  /** The condition that the trigger waits for. */
  predicate Holds(t: Trigger, props: Properties) {
    t.Property? ==> PropertyGet(props, t.key) != "" && PropertyGet(props, t.key) == CString(t.want)
  }

  predicate Spent(t: Trigger) {
    if t.Property? then t.last == CString(t.want) else t.hasTriggered
  }

  function AfterFiring(t: Trigger): (r: Trigger)
    ensures Spent(r)
  {
    if t.Property? then t.(last := CString(t.want)) else Boot(true)
  }

  /** One trigger's own poll: the wanted value is compared as a C string, the last one as a string. */
  function Triggered(t: Trigger, props: Properties): (Trigger, bool) {
    match t
    case Property(key, want, last) =>
      var value := PropertyGet(props, key);
      if |value| <= 0 then (t, false)
      else if CString(want) == value then
        if last == value then (t, false) else (Property(key, want, value), true)
      else (t, false)
    case Boot(hasTriggered) => if hasTriggered then (t, false) else (Boot(true), true)
  }

  lemma TriggeredExactly(t: Trigger, props: Properties)
    ensures Triggered(t, props) == if Holds(t, props) && !Spent(t) then (AfterFiring(t), true) else (t, false)
  {
  }

  /** The poll of a service's triggers up to the first that fires. */
  function Poll(ts: seq<Trigger>, props: Properties): (r: (seq<Trigger>, bool))
    ensures |r.0| == |ts|
  {
    if ts == [] then ([], false)
    else
      var (t, fired) := Triggered(ts[0], props);
      if fired then ([t] + ts[1..], true)
      else
        var (rest, b) := Poll(ts[1..], props);
        ([t] + rest, b)
  }

  class Service {
    const triggers: array<Trigger>

    constructor (ts: seq<Trigger>)
      ensures fresh(triggers) && triggers[..] == ts
    {
      triggers := new Trigger[|ts|](i requires 0 <= i < |ts| => ts[i]);
    }

    /** The loop over the triggers, which updates them in place. */
    method PollTriggers(props: Properties) returns (b: bool)
      modifies triggers
      ensures (triggers[..], b) == Poll(old(triggers[..]), props)
    {
      ghost var was := triggers[..];
      var i := 0;
      PollFromStart(was, props);
      while i < triggers.Length
        invariant 0 <= i <= triggers.Length
        invariant triggers[..] == was
        invariant PollsFrom(was, props, i)
      {
        TriggeredExactly(was[i], props);
        var (t, fired) := Triggered(triggers[i], props);
        triggers[i] := t;
        assert triggers[..] == was[i := t];
        if fired {
          TurnFires(was, props, i, t);
          return true;
        }
        TurnPasses(was, props, i);
        i := i + 1;
      }
      PollEnds(was, props);
      b := false;
    }
  }

  /** The triggers before `i` did not fire and are unchanged: the poll is that of the rest. */
  predicate PollsFrom(ts: seq<Trigger>, props: Properties, i: nat) {
    && i <= |ts|
    && Poll(ts, props).0 == ts[..i] + Poll(ts[i..], props).0
    && Poll(ts, props).1 == Poll(ts[i..], props).1
  }

  lemma PollFromStart(ts: seq<Trigger>, props: Properties)
    ensures PollsFrom(ts, props, 0)
  {
    assert ts[0..] == ts && ts[..0] == [];
  }

  lemma SuffixHead(ts: seq<Trigger>, i: nat)
    requires i < |ts|
    ensures ts[i..] != [] && ts[i..][0] == ts[i] && ts[i..][1..] == ts[i + 1..]
  {
  }

  lemma TurnFires(ts: seq<Trigger>, props: Properties, i: nat, t: Trigger)
    requires PollsFrom(ts, props, i) && i < |ts| && Triggered(ts[i], props) == (t, true)
    ensures Poll(ts, props).0 == ts[i := t] && Poll(ts, props).1
  {
    hide Triggered;
    SuffixHead(ts, i);
    assert Poll(ts[i..], props).0 == [t] + ts[i + 1..];
    assert ts[..i] + ([t] + ts[i + 1..]) == ts[i := t];
  }

  lemma TurnPasses(ts: seq<Trigger>, props: Properties, i: nat)
    requires PollsFrom(ts, props, i) && i < |ts| && Triggered(ts[i], props) == (ts[i], false)
    ensures PollsFrom(ts, props, i + 1)
  {
    hide Triggered;
    SuffixHead(ts, i);
    var rest := Poll(ts[i + 1..], props).0;
    assert Poll(ts[i..], props).0 == [ts[i]] + rest;
    assert ts[..i] + ([ts[i]] + rest) == ts[..i + 1] + rest;
  }

  lemma PollEnds(ts: seq<Trigger>, props: Properties)
    requires PollsFrom(ts, props, |ts|)
    ensures Poll(ts, props) == (ts, false)
  {
    assert Poll([], props) == ([], false);
    assert ts[|ts|..] == [] && ts[..|ts|] + [] == ts;
  }

  /** The triggers of an event: its properties in order, then boot if it is set. */
  function Parsed(keys: seq<string>, values: seq<string>, boot: bool): (ts: seq<Trigger>)
    requires |keys| <= |values|
  {
    seq(|keys|, i requires 0 <= i < |keys| => Property(keys[i], values[i], "")) + if boot then [Boot(false)] else []
  }

  /** Parameters off the wire may have more keys than values, and then the loop reads past the values. */
  method ParseEventParams(keys: seq<string>, values: seq<string>, boot: bool)
    returns (ts: seq<Trigger>, pastEnd: bool)
    ensures pastEnd <==> |keys| > |values|
    ensures !pastEnd ==> ts == Parsed(keys, values, boot) && |ts| == |keys| + (if boot then 1 else 0)
    ensures !pastEnd ==> forall i :: 0 <= i < |keys| ==> ts[i] == Property(keys[i], values[i], "")
    ensures !pastEnd && boot ==> ts[|keys|] == Boot(false)
  {
    ts, pastEnd := [], false;
    var i := 0;
    while i < |keys|
      invariant 0 <= i <= |keys| && i <= |values|
      invariant |ts| == i && forall j :: 0 <= j < i ==> ts[j] == Property(keys[j], values[j], "")
    {
      if i >= |values| { return ts, true; }
      ts := ts + [Property(keys[i], values[i], "")];
      i := i + 1;
    }
    assert ts == Parsed(keys, values, false);
    if boot { ts := ts + [Boot(false)]; }
  }

  // ---- any number of polls ----

  function PollAll(ts: seq<Trigger>, envs: seq<Properties>): (r: seq<Trigger>)
    ensures |r| == |ts|
    decreases envs
  {
    if envs == [] then ts else PollAll(Poll(ts, envs[0]).0, envs[1..])
  }

  /** How many of the polls answer true, and start the service. */
  function Starts(ts: seq<Trigger>, envs: seq<Properties>): nat
    decreases envs
  {
    if envs == [] then 0
    else (if Poll(ts, envs[0]).1 then 1 else 0) + Starts(Poll(ts, envs[0]).0, envs[1..])
  }

  function Unspent(ts: seq<Trigger>): (n: nat)
    ensures n <= |ts|
  {
    if ts == [] then 0 else (if Spent(ts[0]) then 0 else 1) + Unspent(ts[1..])
  }

  /** A poll that answers true spends exactly one trigger; one that answers false changes nothing. */
  lemma {:induction false} PollSpendsOne(ts: seq<Trigger>, props: Properties)
    ensures var (after, b) := Poll(ts, props);
            && Unspent(after) == Unspent(ts) - (if b then 1 else 0)
            && (!b ==> after == ts)
            && (b <==> exists i :: 0 <= i < |ts| && Holds(ts[i], props) && !Spent(ts[i]))
            && (forall i :: 0 <= i < |ts| ==> after[i] == ts[i] || (!Spent(ts[i]) && after[i] == AfterFiring(ts[i])))
  {
    if ts == [] {
    } else {
      TriggeredExactly(ts[0], props);
      PollSpendsOne(ts[1..], props);
      var (t, fired) := Triggered(ts[0], props);
      if fired {
        assert ([t] + ts[1..])[1..] == ts[1..];
      } else {
        var (rest, b) := Poll(ts[1..], props);
        assert ([t] + rest)[1..] == rest;
        assert ts == [t] + ts[1..];
        assert b ==> exists i :: 0 <= i < |ts[1..]| && Holds(ts[1..][i], props) && !Spent(ts[1..][i]);
        forall i | 0 <= i < |ts| && Holds(ts[i], props) && !Spent(ts[i]) ensures b {
          assert ts[1..][i - 1] == ts[i];
        }
      }
    }
  }

  /** However the properties change, a service starts as often as triggers become spent: at most once for each. */
  lemma {:induction false} StartsAreSpentTriggers(ts: seq<Trigger>, envs: seq<Properties>)
    ensures Starts(ts, envs) + Unspent(PollAll(ts, envs)) == Unspent(ts)
    ensures Starts(ts, envs) <= |ts|
    decreases envs
  {
    if envs != [] {
      PollSpendsOne(ts, envs[0]);
      StartsAreSpentTriggers(Poll(ts, envs[0]).0, envs[1..]);
    }
  }

  // ---- progress ----

  lemma {:induction false} SpentPrefix(ts: seq<Trigger>, i: nat)
    requires i < |ts| && !Spent(ts[i])
    ensures Unspent(ts[..i + 1]) > 0
  {
    if i == 0 {
    } else {
      assert ts[..i + 1][1..] == ts[1..][..i];
      SpentPrefix(ts[1..], i - 1);
    }
  }

  /** While trigger i waits with its condition true, each poll spends a trigger at or before it. */
  lemma {:induction false} PollSpendsBefore(ts: seq<Trigger>, props: Properties, i: nat)
    requires i < |ts| && Holds(ts[i], props) && !Spent(ts[i])
    ensures Unspent(Poll(ts, props).0[..i + 1]) == Unspent(ts[..i + 1]) - 1
  {
    TriggeredExactly(ts[0], props);
    var (t, fired) := Triggered(ts[0], props);
    assert ts[..i + 1][1..] == ts[1..][..i];
    if fired {
      assert ([t] + ts[1..])[..i + 1][1..] == ts[1..][..i];
    } else {
      var rest := Poll(ts[1..], props).0;
      assert ([t] + rest)[..i + 1][1..] == rest[..i];
      PollSpendsBefore(ts[1..], props, i - 1);
    }
  }

  lemma {:induction false} SpentStays(ts: seq<Trigger>, envs: seq<Properties>, i: nat)
    requires i < |ts| && Spent(ts[i])
    ensures Spent(PollAll(ts, envs)[i])
    decreases envs
  {
    if envs != [] {
      PollSpendsOne(ts, envs[0]);
      SpentStays(Poll(ts, envs[0]).0, envs[1..], i);
    }
  }

  /** The condition of a trigger does not depend on whether it fired. */
  ghost predicate HoldsThroughout(t: Trigger, envs: seq<Properties>) {
    forall j :: 0 <= j < |envs| ==> Holds(t, envs[j])
  }

  lemma {:induction false} SpentWithin(ts: seq<Trigger>, envs: seq<Properties>, i: nat)
    requires i < |ts| && HoldsThroughout(ts[i], envs) && |envs| >= Unspent(ts[..i + 1])
    ensures Spent(PollAll(ts, envs)[i])
    decreases envs
  {
    if Spent(ts[i]) {
      SpentStays(ts, envs, i);
    } else {
      SpentPrefix(ts, i);
      PollSpendsBefore(ts, envs[0], i);
      PollSpendsOne(ts, envs[0]);
      var after := Poll(ts, envs[0]).0;
      forall j | 0 <= j < |envs[1..]| ensures Holds(after[i], envs[1..][j]) {
        assert Holds(ts[i], envs[j + 1]);
      }
      SpentWithin(after, envs[1..], i);
    }
  }

  /** Despite the short-circuit, a trigger at index i whose condition stays true fires within i + 1 polls. */
  lemma FiresWithin(ts: seq<Trigger>, envs: seq<Properties>, i: nat)
    requires i < |ts| && HoldsThroughout(ts[i], envs) && |envs| >= i + 1
    ensures Spent(PollAll(ts, envs)[i])
  {
    SpentWithin(ts, envs, i);
  }
}
