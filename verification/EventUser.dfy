/**
 Whom an event's process runs as: how the strings of an event decode to a user, groups and a
 security label, and what that becomes once the event was written to the file and read back.
 getpwnam and strtoul are parameters; both see a string up to its first NUL.
 */
module EventUser {
  import opened IniFile
  import opened IniRoundTrip
  import opened Triggers

  // DEF_UID and DEF_GID.
  const AID_SYSTEM := 1000

  datatype Account = NoAccount | Account(id: int)

  /** strtoul gives a value even when it fails. */
  datatype Number = Number(value: int, failed: bool)

  datatype Lookups = Lookups(accounts: string -> Account, numbers: string -> Number)

  predicate IsAlpha(c: char) {
    'a' <= c <= 'z' || 'A' <= c <= 'Z'
  }

  /** Whether decoding succeeded, and what it left in the variable that held `id` before. */
  datatype Decoding = Decoding(ok: bool, id: int)

  function DecodeUid(env: Lookups, s: string, was: int): Decoding {
    if s == "" then Decoding(false, was)
    else if IsAlpha(s[0]) then
      match env.accounts(CString(s))
      case NoAccount => Decoding(false, was)
      case Account(id) => Decoding(true, id)
    else
      Decoding(!env.numbers(CString(s)).failed, env.numbers(CString(s)).value)
  }

  predicate Decodes(env: Lookups, s: string) {
    DecodeUid(env, s, 0).ok
  }

  /** The user, and likewise the group, of the process. */
  function IdOf(env: Lookups, s: string): int {
    if Decodes(env, s) then DecodeUid(env, s, 0).id else AID_SYSTEM
  }

  /** The security label that is set, if one is. */
  datatype Label = Unset | SetTo(text: string)

  function LabelOf(s: string): Label {
    if s == "" then Unset else SetTo(CString(s))
  }

  /** A string that starts with a letter names an account, any other is a number; empty or failing it is the default. */
  lemma IdIs(env: Lookups, s: string)
    ensures s == "" ==> IdOf(env, s) == 1000
    ensures s != "" && ('a' <= s[0] <= 'z' || 'A' <= s[0] <= 'Z') ==>
              IdOf(env, s) == match env.accounts(CString(s)) { case NoAccount => 1000 case Account(id) => id }
    ensures s != "" && !('a' <= s[0] <= 'z' || 'A' <= s[0] <= 'Z') ==>
              IdOf(env, s) == (if env.numbers(CString(s)).failed then 1000 else env.numbers(CString(s)).value)
  {
  }

  // ---- supplementary groups ----

  /** As written: a group is kept when it does not decode, as whatever the variable holds. */
  function SuppGids(env: Lookups, groups: seq<string>, was: int): seq<int> {
    if groups == [] then []
    else
      var d := DecodeUid(env, groups[0], was);
      (if d.ok then [] else [d.id]) + SuppGids(env, groups[1..], d.id)
  }

  function IntendedGids(env: Lookups, groups: seq<string>): seq<int> {
    if groups == [] then []
    else (if Decodes(env, groups[0]) then [DecodeUid(env, groups[0], 0).id] else []) + IntendedGids(env, groups[1..])
  }

  /**
   One group after another: an empty one or an unknown account keeps what the variable held, a
   number that fails what strtoul gave; one that decodes keeps nothing and leaves its id there.
   */
  lemma GidsOneByOne(env: Lookups, g: string, rest: seq<string>, was: int)
    ensures SuppGids(env, [], was) == []
    ensures var all := SuppGids(env, [g] + rest, was);
            if g == "" then all == [was] + SuppGids(env, rest, was)
            else if 'a' <= g[0] <= 'z' || 'A' <= g[0] <= 'Z' then
              match env.accounts(CString(g))
              case NoAccount => all == [was] + SuppGids(env, rest, was)
              case Account(id) => all == SuppGids(env, rest, id)
            else
              var n := env.numbers(CString(g));
              all == (if n.failed then [n.value] else []) + SuppGids(env, rest, n.value)
  {
    assert ([g] + rest)[1..] == rest;
  }

  method ParseSuppGids(env: Lookups, groups: seq<string>, was: int) returns (gids: seq<int>)
    ensures gids == SuppGids(env, groups, was)
  {
    gids := [];
    var gid := was;
    assert groups[0..] == groups;
    for i := 0 to |groups|
      invariant gids + SuppGids(env, groups[i..], gid) == SuppGids(env, groups, was)
    {
      var d := DecodeUid(env, groups[i], gid);
      assert groups[i..][1..] == groups[i + 1..];
      gid := d.id;
      if !d.ok { gids := gids + [gid]; }
    }
  }

  /** Each group is in just one of the two lists. */
  lemma {:induction false} GidsInverted(env: Lookups, groups: seq<string>, was: int)
    ensures |SuppGids(env, groups, was)| + |IntendedGids(env, groups)| == |groups|
    ensures SuppGids(env, groups, was) == [] <==> forall g :: g in groups ==> Decodes(env, g)
    decreases groups
  {
    if groups != [] {
      var d := DecodeUid(env, groups[0], was);
      GidsInverted(env, groups[1..], d.id);
      assert d.ok <==> Decodes(env, groups[0]);
      assert groups == [groups[0]] + groups[1..];
    }
  }

  /** When every group decodes, the process gets the groups it should exactly if there are none. */
  lemma GidsExactly(env: Lookups, groups: seq<string>, was: int)
    requires forall g :: g in groups ==> Decodes(env, g)
    ensures SuppGids(env, groups, was) == IntendedGids(env, groups) <==> groups == []
  {
    GidsInverted(env, groups, was);
  }

  // ---- an event that was read back ----

  lemma RereadDecodes(env: Lookups, s: string, was: int)
    ensures var d := DecodeUid(env, CString(s) + [NUL], was);
            if s == "" then d == Decoding(!env.numbers("").failed, env.numbers("").value)
            else d == DecodeUid(env, s, was)
  {
    PrintsSame(s);
  }

  /** strtoul of nothing, which gives 0, gives the default or fails. */
  predicate EmptyIsDefault(env: Lookups) {
    env.numbers("").failed || env.numbers("").value == AID_SYSTEM
  }

  /**
   The user and the group of an event are what they were once it was written and read back,
   exactly if they were not left empty: an empty one comes back as a NUL, which is a number.
   */
  lemma RereadUserExactly(env: Lookups, e: Event)
    ensures IdOf(env, Reread(e).cmd.uid) == IdOf(env, e.cmd.uid) <==> e.cmd.uid != "" || EmptyIsDefault(env)
    ensures IdOf(env, Reread(e).cmd.gid) == IdOf(env, e.cmd.gid) <==> e.cmd.gid != "" || EmptyIsDefault(env)
  {
    RereadDecodes(env, e.cmd.uid, 0);
    RereadDecodes(env, e.cmd.gid, 0);
  }

  /** An event without a security label comes back with an empty one, which is then set. */
  lemma RereadLabelExactly(e: Event)
    ensures LabelOf(Reread(e).cmd.seclabel) == LabelOf(e.cmd.seclabel) <==> e.cmd.seclabel != ""
    ensures e.cmd.seclabel == "" ==> LabelOf(Reread(e).cmd.seclabel) == SetTo("")
  {
    PrintsSame(e.cmd.seclabel);
  }

  /** From then on they stay, over any further cycle. */
  lemma RereadAgainStays(e: Event)
    ensures var r, again := Reread(e).cmd, Reread(Reread(e)).cmd;
            again.uid == r.uid && again.gid == r.gid && again.seclabel == r.seclabel
  {
    PrintsSame(e.cmd.uid);
    PrintsSame(e.cmd.gid);
    PrintsSame(e.cmd.seclabel);
  }
}
