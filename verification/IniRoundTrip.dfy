/**
 Writing the event table and reading it back: what comes back of any table, and exactly when
 it prints as it did.
 */
module IniRoundTrip {
  import opened IniFile
  import opened Triggers

  // ---- lines come back ----

  /** The line as getline delivers it. */
  function WithNul(ls: seq<string>): seq<string> {
    if ls == [] then [] else [ls[0] + [NUL]] + WithNul(ls[1..])
  }

  predicate Fits(l: string) {
    '\n' !in l && |l| <= LINE_MAX
  }

  predicate AllFit(ls: seq<string>) {
    forall l :: l in ls ==> Fits(l)
  }

  lemma {:induction false} FindFirst(a: string, c: char, rest: string, from: nat)
    requires from <= |a| && forall i :: from <= i < |a| ==> a[i] != c
    ensures Find(a + [c] + rest, c, from) == |a|
    decreases |a| - from
  {
    var s := a + [c] + rest;
    if from < |a| {
      assert s[from] == a[from];
      FindFirst(a, c, rest, from + 1);
    } else {
      assert s[from] == c;
    }
  }

  lemma {:induction false} FileLinesAreLines(ls: seq<string>)
    requires AllFit(ls)
    ensures FileLines(Unlines(ls)) == WithNul(ls)
  {
    if ls == [] {
      assert Find("", '\n', 0) == 0;
    } else {
      var l, rest := ls[0], Unlines(ls[1..]);
      assert Fits(l);
      FindFirst(l, '\n', rest, 0);
      var file := Unlines(ls);
      assert file == l + ['\n'] + rest;
      assert file[..|l|] == l && file[|l| + 1..] == rest;
      FileLinesAreLines(ls[1..]);
    }
  }

  lemma {:induction false} ParseAppended(p: Parser, a: seq<string>, b: seq<string>)
    ensures ParseLines(p, a + b) == ParseLines(ParseLines(p, a), b)
    decreases a
  {
    if a == [] {
      assert a + b == b;
    } else {
      assert (a + b)[1..] == a[1..] + b;
      ParseAppended(ParseLine(p, a[0]), a[1..], b);
    }
  }

  lemma {:induction false} WithNulAppended(a: seq<string>, b: seq<string>)
    ensures WithNul(a + b) == WithNul(a) + WithNul(b)
    decreases a
  {
    if a == [] {
      assert a + b == b;
    } else {
      assert (a + b)[1..] == a[1..] + b;
      WithNulAppended(a[1..], b);
    }
  }

  // ---- one line ----

  lemma {:induction false} SkipNul(s: string)
    ensures SkipSpaces(s + [NUL]) == SkipSpaces(s) + [NUL]
  {
    assert !IsSpace(NUL);
    if s == "" {
      assert s + [NUL] == [NUL];
    } else {
      assert (s + [NUL])[0] == s[0] && (s + [NUL])[1..] == s[1..] + [NUL];
      SkipNul(s[1..]);
    }
  }

  /** An indented line is trimmed to its text and the NUL. */
  lemma TrimLine(s: string)
    ensures Trim(s + [NUL]) == SkipSpaces(s) + [NUL]
    ensures s != "" && !IsSpace(s[0]) ==> SkipSpaces("  " + s) == s && SkipSpaces(s) == s
  {
    SkipNul(s);
    var t := SkipSpaces(s) + [NUL];
    assert t[|t| - 1] == NUL;
    assert ("  " + s)[1..] == " " + s && (" " + s)[1..] == s;
  }

  lemma {:induction false} WordOf(w: string, rest: string)
    requires NoSpace(w) && (rest == "" || IsSpace(rest[0]))
    ensures Word(w + rest) == w
  {
    if w == "" {
      assert w + rest == rest;
    } else {
      assert w[0] in w;
      assert (w + rest)[1..] == w[1..] + rest;
      WordOf(w[1..], rest);
    }
  }

  lemma WordsSkip(s: string)
    ensures Words(" " + s) == Words(s)
  {
    assert (" " + s)[1..] == s;
    assert SkipSpaces(" " + s) == SkipSpaces(s);
  }

  lemma LastWord(w: string)
    requires NoSpace(w) && w != ""
    ensures Words(w) == [w]
  {
    assert w[0] in w;
    WordOf(w, "");
    assert w + "" == w;
    assert Words("") == [];
  }

  lemma FirstWord(w: string, rest: string)
    requires NoSpace(w) && w != ""
    ensures Words(w + " " + rest) == [w] + Words(rest)
  {
    assert w[0] in w;
    var s := w + (" " + rest);
    assert s == w + " " + rest;
    WordOf(w, " " + rest);
    assert s[|w|..] == " " + rest;
    assert SkipSpaces(s) == s;
    WordsSkip(rest);
  }

  lemma NoSpaceNul(v: string)
    requires NoSpace(v)
    ensures NoSpace(v + [NUL])
  {
  }

  lemma AttrWords(tag: string, v: string)
    requires NoSpace(tag) && tag != "" && NoSpace(v)
    ensures Words(tag + " " + (v + [NUL])) == [tag, v + [NUL]]
  {
    FirstWord(tag, v + [NUL]);
    NoSpaceNul(v);
    LastWord(v + [NUL]);
  }

  lemma {:induction false} GroupWords(gs: seq<string>)
    requires forall g :: g in gs ==> NoSpace(g) && g != ""
    ensures Words(EachSpaced(gs) + [NUL]) == gs + [[NUL]]
  {
    if gs == [] {
      assert EachSpaced(gs) + [NUL] == [NUL];
      LastWord([NUL]);
    } else {
      assert gs[0] in gs;
      assert EachSpaced(gs) + [NUL] == gs[0] + " " + (EachSpaced(gs[1..]) + [NUL]);
      FirstWord(gs[0], EachSpaced(gs[1..]) + [NUL]);
      GroupWords(gs[1..]);
    }
  }

  lemma {:induction false} TokenOf(n: string, rest: string)
    requires NoSpace(n) && '"' !in n
    ensures TokenChars(n + " " + rest) == n
  {
    if n == "" {
      assert (n + " " + rest)[0] == ' ';
    } else {
      assert n[0] in n;
      assert (n + " " + rest)[1..] == n[1..] + " " + rest;
      TokenOf(n[1..], rest);
    }
  }

  /**
   The service line as getline ends it: the erasure of the last character takes exactly the
   NUL, and the space before the command stays.
   */
  lemma ServiceLine(n: string, c: string)
    requires NoSpace(n) && '"' !in n
    ensures NextToken(n + " " + c + [NUL]) == TokenText(n, " " + c)
  {
    var line := n + " " + c + [NUL];
    assert line[|line| - 1] == NUL;
    var cut := n + " " + c;
    assert line[..|line| - 1] == cut;
    TokenOf(n, c);
    assert cut[|n|..] == " " + c;
  }

  lemma ParsesService(p: Parser, n: string, c: string)
    requires p.state.ParseNone? && !p.thrown
    requires NoSpace(n) && '"' !in n && n != "" && n[0] != '#'
    ensures ParseLine(p, n + " " + c + [NUL]) == p.(state := ParseService(NewCommand(n, " " + c)))
  {
    hide NextToken, Trim, SkipSpaces;
    var l := n + " " + c;
    assert n[0] in n;
    TrimLine(l);
    ServiceLine(n, c);
    assert l[0] == n[0];
  }

  /** Inside a service an indented line reaches the attribute parser, with its NUL. */
  lemma ParsesAttr(p: Parser, cmd: Command, s: string)
    requires p.state == ParseService(cmd) && !p.thrown
    requires s != "" && !IsSpace(s[0]) && s[0] != '#'
    ensures ParseLine(p, "  " + s + [NUL]) == p.(state := ParseService(ParseAttr(s + [NUL], cmd)))
  {
    hide ParseAttr, Trim, SkipSpaces;
    TrimLine("  " + s);
    TrimLine(s);
    assert "  " + s + [NUL] == ("  " + s) + [NUL];
    assert (s + [NUL])[0] == s[0];
  }

  lemma ParsesBlank(p: Parser)
    requires !p.thrown
    ensures ParseLine(p, "" + [NUL])
            == Parser(if p.state.ParseService? then InsertEvent(p.events, Finished(p.state.cmd)) else p.events,
                      ParseNone, false)
  {
    TrimLine("");
    assert SkipSpaces("") + [NUL] == [NUL];
  }

  // ---- one event ----

  /** The command as it comes back: a space before it, a NUL after each attribute's last word. */
  function RereadCommand(e: Event): Command {
    Command(e.cmd.name, " " + CString(e.cmd.command),
            CString(e.cmd.uid) + [NUL], CString(e.cmd.gid) + [NUL], CString(e.cmd.seclabel) + [NUL],
            if e.cmd.groups == [] then [] else e.cmd.groups + [[NUL]],
            RereadKeys(e.triggers), RereadValues(e.triggers))
  }

  function RereadKeys(ts: seq<Trigger>): seq<string> {
    if ts == [] then [] else (if ts[0].Property? then [":" + ts[0].key] else []) + RereadKeys(ts[1..])
  }

  function RereadValues(ts: seq<Trigger>): (r: seq<string>)
    ensures |r| == |RereadKeys(ts)|
  {
    if ts == [] then [] else (if ts[0].Property? then ["=" + ts[0].want + [NUL]] else []) + RereadValues(ts[1..])
  }

  function Reread(e: Event): Event {
    Finished(RereadCommand(e))
  }

  function RereadAll(es: seq<Event>): seq<Event> {
    if es == [] then [] else [Reread(es[0])] + RereadAll(es[1..])
  }

  predicate PrintableTrigger(t: Trigger) {
    t.Property? ==> NoSpace(t.key) && NoSpace(t.want) && '=' !in t.key
  }

  /** The lines that are printed as they are, without a buffer. */
  function PlainLines(e: Event): seq<string> {
    GroupLines(e.cmd.groups) + TriggerLines(e.triggers)
  }

  /**
   The events that printer and parser both handle: both formatted chunks fit their buffer,
   every other line fits that of getline, and the strings are free of what separates them.
   */
  predicate Printable(e: Event) {
    && e.cmd.name != "" && NoSpace(e.cmd.name) && '"' !in e.cmd.name && e.cmd.name[0] != '#'
    && CString(e.cmd.name) == e.cmd.name
    && '\n' !in CString(e.cmd.command)
    && NoSpace(CString(e.cmd.uid)) && NoSpace(CString(e.cmd.gid)) && NoSpace(CString(e.cmd.seclabel))
    && (forall g :: g in e.cmd.groups ==> NoSpace(g) && g != "")
    && (forall t :: t in e.triggers ==> PrintableTrigger(t))
    && ChunksFit(e.cmd) && AllFit(PlainLines(e))
  }

  lemma AttrSets(cmd: Command, tag: string, v: string)
    requires NoSpace(tag) && tag != "" && NoSpace(v)
    ensures var words := Words(tag + " " + v + [NUL]); |words| == 2 && words[0] == tag && words[1] == v + [NUL]
  {
    AttrWords(tag, v);
    assert tag + " " + v + [NUL] == tag + " " + (v + [NUL]);
  }

  lemma ParsesUser(p: Parser, cmd: Command, v: string)
    requires p.state == ParseService(cmd) && !p.thrown && NoSpace(v)
    ensures ParseLine(p, "  user " + v + [NUL]) == p.(state := ParseService(cmd.(uid := v + [NUL])))
  {
    hide Words;
    AttrSets(cmd, "user", v);
    ParsesAttr(p, cmd, "user " + v);
    assert "  user " + v == "  " + ("user " + v) && "user " + v == "user" + " " + v;
  }

  lemma ParsesGroup(p: Parser, cmd: Command, v: string)
    requires p.state == ParseService(cmd) && !p.thrown && NoSpace(v)
    ensures ParseLine(p, "  group " + v + [NUL]) == p.(state := ParseService(cmd.(gid := v + [NUL])))
  {
    hide Words;
    AttrSets(cmd, "group", v);
    ParsesAttr(p, cmd, "group " + v);
    assert "  group " + v == "  " + ("group " + v) && "group " + v == "group" + " " + v;
  }

  lemma ParsesSeclabel(p: Parser, cmd: Command, v: string)
    requires p.state == ParseService(cmd) && !p.thrown && NoSpace(v)
    ensures ParseLine(p, "  seclabel " + v + [NUL]) == p.(state := ParseService(cmd.(seclabel := v + [NUL])))
  {
    hide Words;
    AttrSets(cmd, "seclabel", v);
    ParsesAttr(p, cmd, "seclabel " + v);
    assert "  seclabel " + v == "  " + ("seclabel " + v) && "seclabel " + v == "seclabel" + " " + v;
  }

  lemma ParsesGroups(p: Parser, cmd: Command, gs: seq<string>)
    requires p.state == ParseService(cmd) && !p.thrown
    requires forall g :: g in gs ==> NoSpace(g) && g != ""
    ensures ParseLine(p, "  groups " + EachSpaced(gs) + [NUL])
            == p.(state := ParseService(cmd.(groups := cmd.groups + (gs + [[NUL]]))))
  {
    hide Words, EachSpaced;
    var v := EachSpaced(gs);
    ParsesAttr(p, cmd, "groups " + v);
    assert "  groups " + v == "  " + ("groups " + v);
    assert "groups " + v + [NUL] == "groups" + " " + (v + [NUL]);
    FirstWord("groups", v + [NUL]);
    GroupWords(gs);
    var words := ["groups"] + (gs + [[NUL]]);
    assert words[1..] == gs + [[NUL]];
  }

  /** A property comes back with the colon in its key, and the equal sign and the NUL in its value. */
  lemma TriggerRereads(key: string, want: string, cmd: Command)
    requires '=' !in key
    ensures ParseTrigger("property:" + key + "=" + want + [NUL], cmd)
            == cmd.(keys := cmd.keys + [":" + key], values := cmd.values + ["=" + want + [NUL]])
  {
    var value := "=" + want + [NUL];
    var word := "property:" + key + "=" + want + [NUL];
    assert word == "property" + [':'] + (key + value);
    FindFirst("property", ':', key + value, 0);
    assert word == ("property:" + key) + ['='] + (want + [NUL]);
    FindFirst("property:" + key, '=', want + [NUL], 8);
    assert word[8..9 + |key|] == ":" + key;
    assert word[9 + |key|..] == value;
  }

  lemma BootRereads(cmd: Command)
    ensures ParseTrigger("boot" + [NUL], cmd) == cmd
  {
    assert ("boot" + [NUL])[0] == 'b';
  }

  function AfterTrigger(t: Trigger, cmd: Command): Command {
    if t.Property? then cmd.(keys := cmd.keys + [":" + t.key], values := cmd.values + ["=" + t.want + [NUL]]) else cmd
  }

  lemma TriggerTextReads(t: Trigger, cmd: Command)
    requires PrintableTrigger(t)
    ensures NoSpace(TriggerText(t)) && ParseTrigger(TriggerText(t) + [NUL], cmd) == AfterTrigger(t, cmd)
  {
    if t.Property? {
      TriggerRereads(t.key, t.want, cmd);
      assert TriggerText(t) + [NUL] == "property:" + t.key + "=" + t.want + [NUL];
    } else {
      BootRereads(cmd);
    }
  }

  lemma ParsesTrigger(p: Parser, cmd: Command, t: Trigger)
    requires p.state == ParseService(cmd) && !p.thrown && PrintableTrigger(t)
    ensures ParseLine(p, "  trigger " + TriggerText(t) + [NUL]) == p.(state := ParseService(AfterTrigger(t, cmd)))
  {
    hide Words, TriggerText, ParseTrigger, AfterTrigger;
    TriggerTextReads(t, cmd);
    var v := TriggerText(t);
    AttrSets(cmd, "trigger", v);
    ParsesAttr(p, cmd, "trigger " + v);
    assert "  trigger " + v == "  " + ("trigger " + v) && "trigger " + v == "trigger" + " " + v;
  }

  lemma {:induction false} ParsesTriggers(p: Parser, cmd: Command, ts: seq<Trigger>)
    requires p.state == ParseService(cmd) && !p.thrown
    requires forall t :: t in ts ==> PrintableTrigger(t)
    ensures ParseLines(p, WithNul(TriggerLines(ts)))
            == p.(state := ParseService(cmd.(keys := cmd.keys + RereadKeys(ts),
                                             values := cmd.values + RereadValues(ts))))
    decreases ts
  {
    hide ParseLine, TriggerText;
    if ts == [] {
      assert cmd.keys + [] == cmd.keys && cmd.values + [] == cmd.values;
      assert cmd.(keys := cmd.keys + [], values := cmd.values + []) == cmd;
    } else {
      var t := ts[0];
      assert t in ts;
      var next := p.(state := ParseService(AfterTrigger(t, cmd)));
      ParsesTrigger(p, cmd, t);
      ParsesTriggers(next, AfterTrigger(t, cmd), ts[1..]);
      var lines := WithNul(TriggerLines(ts));
      assert lines[0] == "  trigger " + TriggerText(t) + [NUL];
      assert lines[1..] == WithNul(TriggerLines(ts[1..]));
      TriggersAdd(cmd, t, ts[1..]);
    }
  }

  lemma TriggersAdd(cmd: Command, t: Trigger, ts: seq<Trigger>)
    ensures var u := AfterTrigger(t, cmd);
            u.(keys := u.keys + RereadKeys(ts), values := u.values + RereadValues(ts))
            == cmd.(keys := cmd.keys + RereadKeys([t] + ts), values := cmd.values + RereadValues([t] + ts))
  {
    assert ([t] + ts)[1..] == ts;
    var k, v := if t.Property? then [":" + t.key] else [], if t.Property? then ["=" + t.want + [NUL]] else [];
    assert cmd.keys + (k + RereadKeys(ts)) == cmd.keys + k + RereadKeys(ts);
    assert cmd.values + (v + RereadValues(ts)) == cmd.values + v + RereadValues(ts);
    assert cmd.keys + [] == cmd.keys && cmd.values + [] == cmd.values;
  }

  lemma RunsTwo(p: Parser, a: string, b: string, rest: seq<string>)
    ensures ParseLines(p, [a, b] + rest) == ParseLines(ParseLine(ParseLine(p, a), b), rest)
  {
    hide ParseLine;
    var ls := [a, b] + rest;
    assert ls[1..] == [b] + rest && ls[1..][0] == b && ls[1..][1..] == rest;
  }

  function HeadCommand(cmd: Command): Command {
    NewCommand(cmd.name, " " + CString(cmd.command))
      .(uid := CString(cmd.uid) + [NUL], gid := CString(cmd.gid) + [NUL], seclabel := CString(cmd.seclabel) + [NUL])
  }

  lemma ParsesHead(p: Parser, e: Event)
    requires p.state.ParseNone? && !p.thrown && Printable(e)
    ensures ParseLines(p, WithNul(HeadLines(e.cmd))) == p.(state := ParseService(HeadCommand(e.cmd)))
  {
    hide ParseLine, CString, AllFit;
    var n, c := e.cmd.name, CString(e.cmd.command);
    var u, g, l := CString(e.cmd.uid), CString(e.cmd.gid), CString(e.cmd.seclabel);
    var c0 := NewCommand(n, " " + c);
    var c1 := c0.(uid := u + [NUL]);
    var c2 := c1.(gid := g + [NUL]);
    ParsesService(p, n, c);
    ParsesUser(p.(state := ParseService(c0)), c0, u);
    ParsesGroup(p.(state := ParseService(c1)), c1, g);
    ParsesSeclabel(p.(state := ParseService(c2)), c2, l);
    FourNuls(n + " " + c, "  user " + u, "  group " + g, "  seclabel " + l);
    RunsTwo(p, n + " " + c + [NUL], "  user " + u + [NUL], ["  group " + g + [NUL], "  seclabel " + l + [NUL]]);
    RunsTwo(p.(state := ParseService(c1)), "  group " + g + [NUL], "  seclabel " + l + [NUL], []);
    var last := ["  group " + g + [NUL], "  seclabel " + l + [NUL]];
    assert last + [] == last;
  }

  lemma FourNuls(a: string, b: string, c: string, d: string)
    ensures WithNul([a, b, c, d]) == [a + [NUL], b + [NUL]] + [c + [NUL], d + [NUL]]
  {
    assert [a, b, c, d][1..] == [b, c, d] && [b, c, d][1..] == [c, d] && [c, d][1..] == [d] && [d][1..] == [];
    assert WithNul([d]) == [d + [NUL]];
    assert WithNul([c, d]) == [c + [NUL]] + WithNul([d]);
    assert WithNul([b, c, d]) == [b + [NUL]] + WithNul([c, d]);
  }

  lemma ParsesGroupLines(p: Parser, cmd: Command, gs: seq<string>)
    requires p.state == ParseService(cmd) && !p.thrown && cmd.groups == []
    requires forall g :: g in gs ==> NoSpace(g) && g != ""
    ensures ParseLines(p, WithNul(GroupLines(gs)))
            == p.(state := ParseService(cmd.(groups := if gs == [] then [] else gs + [[NUL]])))
  {
    hide ParseLine, EachSpaced;
    if gs == [] {
      assert cmd.(groups := []) == cmd;
    } else {
      ParsesGroups(p, cmd, gs);
      var l := "  groups " + EachSpaced(gs);
      assert [l][1..] == [];
      assert WithNul([l]) == [l + [NUL]] + WithNul([]);
      assert [l + [NUL]][1..] == [];
      assert [] + (gs + [[NUL]]) == gs + [[NUL]];
    }
  }

  /** The lines of one printed event insert that event, reread. */
  lemma ParsesEvent(p: Parser, e: Event)
    requires p.state.ParseNone? && !p.thrown && Printable(e)
    ensures ParseLines(p, WithNul(EventLines(e))) == p.(events := InsertEvent(p.events, Reread(e)))
  {
    hide ParseLine, HeadLines, GroupLines, TriggerLines, AllFit, InsertEvent, Finished;
    var head, groups, triggers := HeadLines(e.cmd), GroupLines(e.cmd.groups), TriggerLines(e.triggers);
    assert EventLines(e) == head + (groups + (triggers + [""])) by { EventLinesAre(e); }
    WithNulAppended(head, groups + (triggers + [""]));
    WithNulAppended(groups, triggers + [""]);
    WithNulAppended(triggers, [""]);
    var c1 := HeadCommand(e.cmd);
    var c2 := c1.(groups := if e.cmd.groups == [] then [] else e.cmd.groups + [[NUL]]);
    var p1, p2 := p.(state := ParseService(c1)), p.(state := ParseService(c2));
    ParsesHead(p, e);
    ParsesGroupLines(p1, c1, e.cmd.groups);
    ParsesTriggers(p2, c2, e.triggers);
    assert [] + RereadKeys(e.triggers) == RereadKeys(e.triggers);
    assert [] + RereadValues(e.triggers) == RereadValues(e.triggers);
    var p3 := p.(state := ParseService(RereadCommand(e)));
    ParseAppended(p, WithNul(head), WithNul(groups) + (WithNul(triggers) + WithNul([""])));
    ParseAppended(p1, WithNul(groups), WithNul(triggers) + WithNul([""]));
    ParseAppended(p2, WithNul(triggers), WithNul([""]));
    ParsesBlank(p3);
    assert [""][1..] == [] && WithNul([""]) == ["" + [NUL]] + WithNul([]);
    assert ["" + [NUL]][1..] == [];
  }

  lemma EventLinesAre(e: Event)
    ensures EventLines(e) == HeadLines(e.cmd) + (GroupLines(e.cmd.groups) + (TriggerLines(e.triggers) + [""]))
  {
  }

  // ---- the table ----

  lemma {:induction false} LessIsStrict(a: string, b: string)
    requires Less(a, b)
    ensures a != b && !Less(b, a)
    decreases a
  {
    if a != "" && a[0] == b[0] {
      LessIsStrict(a[1..], b[1..]);
    }
  }

  /** Every event of the table is before this name. */
  ghost predicate AllBefore(events: seq<Event>, name: string) {
    forall i :: 0 <= i < |events| ==> Less(events[i].cmd.name, name)
  }

  lemma {:induction false} InsertsLast(events: seq<Event>, e: Event)
    requires AllBefore(events, e.cmd.name)
    ensures InsertEvent(events, e) == events + [e]
    decreases events
  {
    if events != [] {
      LessIsStrict(events[0].cmd.name, e.cmd.name);
      forall i | 0 <= i < |events[1..]| ensures Less(events[1..][i].cmd.name, e.cmd.name) {
        assert events[1..][i] == events[i + 1];
      }
      InsertsLast(events[1..], e);
      assert events == [events[0]] + events[1..];
    }
  }

  lemma RereadKeepsName(e: Event)
    ensures Reread(e).cmd.name == e.cmd.name
  {
  }

  lemma NextInOrder(events: seq<Event>, es: seq<Event>)
    requires es != [] && Sorted(es)
    requires forall e :: e in es ==> AllBefore(events, e.cmd.name)
    ensures Sorted(es[1..])
    ensures forall e :: e in es[1..] ==> AllBefore(events + [Reread(es[0])], e.cmd.name)
  {
    hide Reread, Less;
    RereadKeepsName(es[0]);
    forall e | e in es[1..] ensures AllBefore(events + [Reread(es[0])], e.cmd.name) {
      var i :| 0 <= i < |es[1..]| && es[1..][i] == e;
      assert es[i + 1] == e && e in es;
    }
    forall i, j | 0 <= i < j < |es[1..]| ensures Less(es[1..][i].cmd.name, es[1..][j].cmd.name) {
      assert es[1..][i] == es[i + 1] && es[1..][j] == es[j + 1];
    }
  }

  lemma ParsesFirst(p: Parser, es: seq<Event>)
    requires p.state.ParseNone? && !p.thrown && es != [] && Printable(es[0]) && AllBefore(p.events, es[0].cmd.name)
    ensures ParseLines(p, WithNul(TableLines(es)))
            == ParseLines(p.(events := p.events + [Reread(es[0])]), WithNul(TableLines(es[1..])))
  {
    hide ParseLine, ParseLines, EventLines, Printable, InsertEvent, Reread, AllBefore, WithNul;
    var e := es[0];
    RereadKeepsName(e);
    InsertsLast(p.events, Reread(e));
    ParsesEvent(p, e);
    WithNulAppended(EventLines(e), TableLines(es[1..]));
    ParseAppended(p, WithNul(EventLines(e)), WithNul(TableLines(es[1..])));
  }

  lemma RereadFirst(events: seq<Event>, es: seq<Event>)
    requires es != []
    ensures (events + [Reread(es[0])]) + RereadAll(es[1..]) == events + RereadAll(es)
  {
  }

  lemma {:induction false} ParsesTable(p: Parser, es: seq<Event>)
    requires p.state.ParseNone? && !p.thrown && Sorted(es)
    requires forall e :: e in es ==> Printable(e) && AllBefore(p.events, e.cmd.name)
    ensures ParseLines(p, WithNul(TableLines(es))) == p.(events := p.events + RereadAll(es))
    decreases es
  {
    if es == [] {
      assert p.events + [] == p.events;
    } else {
      hide ParseLines, TableLines, WithNul, Printable, Reread, RereadAll, Sorted, AllBefore;
      var next := p.(events := p.events + [Reread(es[0])]);
      assert es[0] in es;
      ParsesFirst(p, es);
      NextInOrder(p.events, es);
      assert forall e :: e in es[1..] ==> e in es;
      ParsesTable(next, es[1..]);
      RereadFirst(p.events, es);
    }
  }

  lemma NoNewline(s: string)
    requires NoSpace(s)
    ensures '\n' !in s
  {
  }

  lemma EventFits(e: Event)
    requires Printable(e)
    ensures AllFit(EventLines(e))
  {
    hide CString, TriggerLines, GroupLines, ParseTrigger;
    NoNewline(e.cmd.name);
    NoNewline(CString(e.cmd.uid));
    NoNewline(CString(e.cmd.gid));
    NoNewline(CString(e.cmd.seclabel));
    assert AllFit(HeadLines(e.cmd));
    assert EventLines(e) == HeadLines(e.cmd) + PlainLines(e) + [""];
  }

  lemma {:induction false} TableFits(es: seq<Event>)
    requires forall e :: e in es ==> Printable(e)
    ensures AllFit(TableLines(es)) && AllChunksFit(es)
  {
    hide EventLines, ChunksFit;
    if es != [] {
      assert es[0] in es;
      EventFits(es[0]);
      TableFits(es[1..]);
      assert es == [es[0]] + es[1..];
    }
  }

  /**
   Reading undoes writing, for any table of printable events: no buffer overflows, and every
   event comes back, in order, up to the space before its command, the NULs after its
   attributes' words, its property triggers' separators and a boot trigger of its own.
   */
  lemma ReadUndoesWrite(es: seq<Event>)
    requires Sorted(es) && forall e :: e in es ==> Printable(e)
    ensures WriteFile(es) == Written(Printed(es))
    ensures ReadFile(Printed(es)) == Parser(RereadAll(es), ParseNone, false)
  {
    hide Printable, ParseLine, TableLines, RereadAll, Sorted;
    TableFits(es);
    FileLinesAreLines(TableLines(es));
    ParsesTable(START, es);
    assert [] + RereadAll(es) == RereadAll(es);
    ParsesEnd(START.(events := RereadAll(es)));
  }

  lemma ParsesEnd(p: Parser)
    requires p.state.ParseNone? && !p.thrown
    ensures ParseLine(p, "") == p
  {
    assert Trim("") == "";
  }

  // ---- what prints the same again ----

  /** No groups, and the boot trigger only. */
  predicate BootOnly(e: Event) {
    e.cmd.groups == [] && |e.triggers| == 1 && e.triggers[0].Boot?
  }

  lemma {:induction false} CStringStops(s: string)
    ensures CString(s + [NUL]) == CString(s)
  {
    if s == "" {
      assert s + [NUL] == [NUL];
    } else {
      assert (s + [NUL])[1..] == s[1..] + [NUL];
      CStringStops(s[1..]);
    }
  }

  lemma {:induction false} CStringTwice(s: string)
    ensures CString(CString(s)) == CString(s)
  {
    if s != "" && s[0] != NUL { CStringTwice(s[1..]); }
  }

  lemma PrintsSame(s: string)
    ensures CString(CString(s) + [NUL]) == CString(s)
  {
    CStringStops(CString(s));
    CStringTwice(s);
  }

  /** Whatever the event, its user, group and label print as before, and its service line gains one space. */
  lemma RereadHead(e: Event)
    ensures CString(Reread(e).cmd.command) == " " + CString(e.cmd.command)
    ensures UserChunk(Reread(e).cmd) == UserChunk(e.cmd)
    ensures HeadLines(Reread(e).cmd)
            == [CString(e.cmd.name) + " " + (" " + CString(e.cmd.command))] + HeadLines(e.cmd)[1..]
  {
    PrintsSame(e.cmd.uid);
    PrintsSame(e.cmd.gid);
    PrintsSame(e.cmd.seclabel);
    CStringTwice(e.cmd.command);
    assert (" " + CString(e.cmd.command))[1..] == CString(e.cmd.command);
  }

  function Count(ts: seq<Trigger>): (n: nat)
    ensures n <= |ts|
  {
    if ts == [] then 0 else (if ts[0].Property? then 1 else 0) + Count(ts[1..])
  }

  /** The characters in some lines. */
  function Characters(ls: seq<string>): nat {
    if ls == [] then 0 else |ls[0]| + Characters(ls[1..])
  }

  lemma {:induction false} CharactersAppended(a: seq<string>, b: seq<string>)
    ensures Characters(a + b) == Characters(a) + Characters(b)
    decreases a
  {
    if a == [] {
      assert a + b == b;
    } else {
      assert (a + b)[1..] == a[1..] + b;
      CharactersAppended(a[1..], b);
    }
  }

  lemma {:induction false} TriggerLinesAppended(a: seq<Trigger>, b: seq<Trigger>)
    ensures TriggerLines(a + b) == TriggerLines(a) + TriggerLines(b)
    ensures |TriggerLines(a)| == |a|
    decreases a
  {
    if a == [] {
      assert a + b == b;
    } else {
      assert (a + b)[1..] == a[1..] + b;
      TriggerLinesAppended(a[1..], b);
    }
  }

  /** A property trigger as it comes back. */
  function PropertyBack(t: Trigger): (r: Trigger)
    requires t.Property?
    ensures |TriggerText(r)| == |TriggerText(t)| + 3
  {
    Property(":" + t.key, "=" + t.want + [NUL], "")
  }

  /** The property triggers of an event as they come back. */
  function RereadProperties(ts: seq<Trigger>): seq<Trigger> {
    if ts == [] then []
    else if ts[0].Property? then [PropertyBack(ts[0])] + RereadProperties(ts[1..])
    else RereadProperties(ts[1..])
  }

  lemma ParsedStep(k: string, v: string, keys: seq<string>, values: seq<string>)
    requires |keys| <= |values|
    ensures Parsed([k] + keys, [v] + values, false) == [Property(k, v, "")] + Parsed(keys, values, false)
  {
  }

  lemma {:induction false} ParsedIsReread(ts: seq<Trigger>)
    ensures Parsed(RereadKeys(ts), RereadValues(ts), false) == RereadProperties(ts)
  {
    if ts != [] {
      hide Parsed;
      ParsedIsReread(ts[1..]);
      var keys, values := RereadKeys(ts[1..]), RereadValues(ts[1..]);
      if ts[0].Property? {
        ParsedStep(":" + ts[0].key, "=" + ts[0].want + [NUL], keys, values);
      } else {
        assert [] + keys == keys && [] + values == values;
      }
    }
  }

  lemma CharactersStep(t: Trigger, ts: seq<Trigger>)
    ensures Characters(TriggerLines([t] + ts)) == |"  trigger "| + |TriggerText(t)| + Characters(TriggerLines(ts))
  {
    hide TriggerText;
    assert ([t] + ts)[1..] == ts;
    assert TriggerLines([t] + ts)[1..] == TriggerLines(ts);
  }

  /** Each property's line grows by three characters, and the others go. */
  lemma {:induction false} PropertiesGrow(ts: seq<Trigger>)
    ensures |RereadProperties(ts)| == Count(ts)
    ensures Characters(TriggerLines(ts)) + 3 * Count(ts)
            == Characters(TriggerLines(RereadProperties(ts))) + |"  trigger boot"| * (|ts| - Count(ts))
    decreases ts
  {
    hide TriggerLines, Characters, PropertyBack;
    if ts != [] {
      var t, rest := ts[0], ts[1..];
      assert ts == [t] + rest;
      PropertiesGrow(rest);
      CharactersStep(t, rest);
      if t.Property? {
        CharactersStep(PropertyBack(t), RereadProperties(rest));
      }
    }
  }

  lemma RereadTriggers(e: Event)
    ensures Reread(e).triggers == RereadProperties(e.triggers) + [Boot(false)]
  {
    ParsedIsReread(e.triggers);
    var ps := RereadProperties(e.triggers);
    assert ps + [] == ps;
  }

  lemma BootLine(ts: seq<Trigger>)
    requires |ts| == 1 && ts[0].Boot?
    ensures TriggerLines(ts) == ["  trigger boot"] && Count(ts) == 0
  {
    assert ts[1..] == [] && TriggerLines([]) == [];
    assert "  trigger " + "boot" == "  trigger boot";
  }

  /** The triggers print as before exactly if boot is the only one. */
  lemma TriggersPrintSame(ts: seq<Trigger>)
    ensures TriggerLines(RereadProperties(ts) + [Boot(false)]) == TriggerLines(ts) <==> |ts| == 1 && ts[0].Boot?
  {
    var ps := RereadProperties(ts);
    PropertiesGrow(ts);
    TriggerLinesAppended(ps, [Boot(false)]);
    TriggerLinesAppended(ts, []);
    BootLine([Boot(false)]);
    CharactersAppended(TriggerLines(ps), ["  trigger boot"]);
    assert ["  trigger boot"][1..] == [] && Characters(["  trigger boot"]) == |"  trigger boot"|;
    if |ts| == 1 && ts[0].Boot? {
      BootLine(ts);
      assert ps == [];
    } else if TriggerLines(ps + [Boot(false)]) == TriggerLines(ts) {
      assert |ts| == Count(ts) + 1;
      assert Count(ts) == 0;
      OneIsBoot(ts);
    }
  }

  lemma OneIsBoot(ts: seq<Trigger>)
    requires |ts| == 1 && Count(ts) == 0
    ensures ts[0].Boot?
  {
  }

  lemma {:induction false} SpacedAppended(gs: seq<string>, g: string)
    ensures EachSpaced(gs + [g]) == EachSpaced(gs) + g + " "
  {
    if gs == [] {
      assert gs + [g] == [g] && [g][1..] == [];
      assert EachSpaced([g]) == g + " " + "";
    } else {
      assert (gs + [g])[1..] == gs[1..] + [g];
      SpacedAppended(gs[1..], g);
    }
  }

  /** What is printed after the head. */
  function Tail(gs: seq<string>, ts: seq<Trigger>): seq<string> {
    GroupLines(gs) + TriggerLines(ts) + [""]
  }

  lemma GroupsPrintLonger(gs: seq<string>, ts: seq<Trigger>, ts': seq<Trigger>)
    requires gs != []
    ensures Tail(gs + [[NUL]], ts') != Tail(gs, ts)
  {
    SpacedAppended(gs, [NUL]);
    assert |Tail(gs + [[NUL]], ts')[0]| == |Tail(gs, ts)[0]| + 2;
  }

  lemma SameTriggerLines(ts: seq<Trigger>, ts': seq<Trigger>)
    ensures Tail([], ts') == Tail([], ts) <==> TriggerLines(ts') == TriggerLines(ts)
  {
    var a, b := TriggerLines(ts'), TriggerLines(ts);
    assert Tail([], ts') == a + [""] && Tail([], ts) == b + [""];
    if a + [""] == b + [""] {
      assert a == (a + [""])[..|a|] && b == (b + [""])[..|b|];
    }
  }

  lemma TailPrintsSame(e: Event)
    ensures Tail(Reread(e).cmd.groups, Reread(e).triggers) == Tail(e.cmd.groups, e.triggers) <==> BootOnly(e)
  {
    hide Tail, RereadProperties, CString, RereadKeys, RereadValues;
    RereadTriggers(e);
    if e.cmd.groups == [] {
      TriggersPrintSame(e.triggers);
      SameTriggerLines(e.triggers, Reread(e).triggers);
    } else {
      GroupsPrintLonger(e.cmd.groups, e.triggers, Reread(e).triggers);
    }
  }

  lemma EventLinesSplit(e: Event)
    ensures EventLines(e) == HeadLines(e.cmd) + Tail(e.cmd.groups, e.triggers)
  {
  }

  lemma SameTails(h: seq<string>, h': seq<string>, t: seq<string>, t': seq<string>)
    requires |h| == |h'| && h != [] && h[1..] == h'[1..]
    ensures (h + t)[1..] == (h' + t')[1..] <==> t == t'
  {
    assert (h + t)[1..] == h[1..] + t && (h' + t')[1..] == h'[1..] + t';
    if h[1..] + t == h'[1..] + t' {
      assert t == (h[1..] + t)[|h| - 1..] && t' == (h'[1..] + t')[|h| - 1..];
    }
  }

  /**
   Written, read and written again: every event's service line gains one space, and the rest
   is as it was exactly if the event has no groups and boot as its only trigger. A group
   gains a NUL group, a property its separators, an event without boot a boot trigger.
   */
  lemma PrintsSameExactly(e: Event)
    ensures EventLines(Reread(e)) != []
    ensures EventLines(Reread(e))[0] == CString(e.cmd.name) + " " + (" " + CString(e.cmd.command))
    ensures EventLines(Reread(e))[1..] == EventLines(e)[1..] <==> BootOnly(e)
  {
    hide Reread, Tail, BootOnly, EventLines, CString;
    var r := Reread(e);
    RereadHead(e);
    EventLinesSplit(e);
    EventLinesSplit(r);
    TailPrintsSame(e);
    SameTails(HeadLines(e.cmd), HeadLines(r.cmd), Tail(e.cmd.groups, e.triggers), Tail(r.cmd.groups, r.triggers));
  }

  // ---- how long an event survives ----

  /** The event after a number of cycles of writing and reading. */
  function Rereads(e: Event, cycles: nat): Event {
    if cycles == 0 then e else Reread(Rereads(e, cycles - 1))
  }

  lemma RereadChunks(e: Event)
    ensures |ServiceChunk(Reread(e).cmd)| == |ServiceChunk(e.cmd)| + 1
    ensures UserChunk(Reread(e).cmd) == UserChunk(e.cmd)
  {
    RereadHead(e);
  }

  /** Each cycle takes one byte of the buffer: the printer overflows exactly once they are used up. */
  lemma {:induction false} ChunksFitFor(e: Event, cycles: nat)
    ensures |ServiceChunk(Rereads(e, cycles).cmd)| == |ServiceChunk(e.cmd)| + cycles
    ensures UserChunk(Rereads(e, cycles).cmd) == UserChunk(e.cmd)
    ensures ChunksFit(Rereads(e, cycles).cmd)
            <==> |ServiceChunk(e.cmd)| + cycles < BUFFER_SIZE && |UserChunk(e.cmd)| < BUFFER_SIZE
  {
    hide ServiceChunk, UserChunk, Reread;
    if cycles > 0 {
      ChunksFitFor(e, cycles - 1);
      RereadChunks(Rereads(e, cycles - 1));
    }
  }

  lemma BootOnlyStays(e: Event)
    requires BootOnly(e)
    ensures BootOnly(Reread(e)) && PlainLines(Reread(e)) == PlainLines(e) && Reread(e).triggers == [Boot(false)]
  {
    hide CString;
    RereadTriggers(e);
    PropertiesGrow(e.triggers);
    BootLine(e.triggers);
    BootLine([Boot(false)]);
    assert RereadProperties(e.triggers) == [];
    assert [] + [Boot(false)] == [Boot(false)];
  }

  /** One cycle keeps all that makes an event printable but the room in the buffer. */
  lemma PrintableAfterCycle(e: Event)
    requires BootOnly(e) && Printable(e)
    ensures Printable(Reread(e)) <==> ChunksFit(Reread(e).cmd)
  {
    hide ChunksFit, PlainLines;
    BootOnlyStays(e);
    RereadHead(e);
    PrintsSame(e.cmd.uid);
    PrintsSame(e.cmd.gid);
    PrintsSame(e.cmd.seclabel);
  }

  /** A printable boot-only event can be written in every cycle up to the last that its buffer has room for. */
  lemma {:induction false} SurvivesCycles(e: Event, cycles: nat)
    requires BootOnly(e) && Printable(e)
    ensures BootOnly(Rereads(e, cycles))
    ensures Printable(Rereads(e, cycles)) <==> |ServiceChunk(e.cmd)| + cycles < BUFFER_SIZE
  {
    hide ServiceChunk, UserChunk, Reread, BootOnly;
    ChunksFitFor(e, cycles);
    if cycles > 0 {
      SurvivesCycles(e, cycles - 1);
      BootOnlyStays(Rereads(e, cycles - 1));
      if Printable(Rereads(e, cycles - 1)) { PrintableAfterCycle(Rereads(e, cycles - 1)); }
    }
  }
}
