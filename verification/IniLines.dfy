/**
 What each kind of line does to the parser of the event file, and what the printer writes, in
 terms of the characters themselves. Most of it no printed file shows: comments, attribute
 lines in any spacing, unknown attributes, a service line inside a service, a second event of
 a name.
 */
module IniLines {
  import opened EventTable
  import opened IniFile
  import opened IniRoundTrip
  import opened LastLine
  import opened Triggers

  /** A character that isspace() takes. */
  predicate Blank(c: char) {
    c == ' ' || c == '\t' || c == '\n' || c as int == 11 || c as int == 12 || c == '\r'
  }

  predicate AllBlank(s: string) {
    forall c :: c in s ==> Blank(c)
  }

  lemma {:induction false} BlanksSkipped(gap: string, s: string)
    requires AllBlank(gap)
    ensures SkipSpaces(gap + s) == SkipSpaces(s)
  {
    if gap == "" {
      assert gap + s == s;
    } else {
      assert gap[0] in gap && (gap + s)[1..] == gap[1..] + s;
      BlanksSkipped(gap[1..], s);
    }
  }

  lemma {:induction false} BlanksTrimmed(s: string, gap: string)
    requires AllBlank(gap) && s != "" && !Blank(s[|s| - 1])
    ensures TrimRight(s + gap) == s
    decreases gap
  {
    if gap == "" {
      assert s + gap == s;
    } else {
      var t := s + gap;
      assert t[|t| - 1] == gap[|gap| - 1] && gap[|gap| - 1] in gap;
      assert t[..|t| - 1] == s + gap[..|gap| - 1];
      BlanksTrimmed(s, gap[..|gap| - 1]);
    }
  }

  /** A text with blanks around it is trimmed to itself. */
  lemma TrimmedToText(left: string, s: string, right: string)
    requires AllBlank(left) && AllBlank(right) && s != "" && !Blank(s[0]) && !Blank(s[|s| - 1])
    ensures Trim(left + s + right) == s
  {
    BlanksSkipped(left, s + right);
    assert left + s + right == left + (s + right) && SkipSpaces(s + right) == s + right;
    BlanksTrimmed(s, right);
  }

  // ---- comments and blank lines ----

  /** The first character that is not blank is a '#'. */
  predicate Comment(raw: string) {
    exists i :: 0 <= i < |raw| && raw[i] == '#' && AllBlank(raw[..i])
  }

  lemma CommentDoesNothing(p: Parser, raw: string)
    requires Comment(raw)
    ensures ParseLine(p, raw) == p
  {
    hide InsertEvent, ParseAttr, ParseServiceLine;
    var i :| 0 <= i < |raw| && raw[i] == '#' && AllBlank(raw[..i]);
    BlanksSkipped(raw[..i], raw[i..]);
    assert raw == raw[..i] + raw[i..] && SkipSpaces(raw[i..]) == raw[i..];
    TrimRightKeeps(raw[i..]);
  }

  /** Wherever comments are put among lines, in or outside a service, the same is read. */
  lemma CommentsChangeNothing(p: Parser, a: seq<string>, comment: string, b: seq<string>)
    requires Comment(comment)
    ensures ParseLines(p, a + [comment] + b) == ParseLines(p, a + b)
  {
    hide ParseLine;
    ParseAppended(p, a + [comment], b);
    ParseAppended(p, a, [comment]);
    ParseAppended(p, a, b);
    OneLine(ParseLines(p, a), comment);
    CommentDoesNothing(ParseLines(p, a), comment);
  }

  lemma {:induction false} BlanksOnly(s: string)
    requires AllBlank(s)
    ensures SkipSpaces(s) == ""
  {
    BlanksSkipped(s, "");
    assert s + "" == s;
  }

  /** Blanks, with or without getline's NUL at the end. */
  predicate BlankLine(raw: string) {
    AllBlank(raw) || (raw != "" && raw[|raw| - 1] == NUL && AllBlank(raw[..|raw| - 1]))
  }

  /** The event that a service's lines make: its properties in their order, and then always boot. */
  function EventOf(cmd: Command): Event
    requires |cmd.keys| == |cmd.values|
  {
    Event(cmd, seq(|cmd.keys|, i requires 0 <= i < |cmd.keys| => Property(cmd.keys[i], cmd.values[i], ""))
               + [Boot(false)])
  }

  /** The table with an event at its place, or as it was if the name is there. */
  ghost predicate Inserted(before: seq<Event>, e: Event, after: seq<Event>) {
    if exists i :: 0 <= i < |before| && before[i].cmd.name == e.cmd.name then after == before
    else exists i :: 0 <= i <= |before| && after == before[..i] + [e] + before[i..]
  }

  lemma {:induction false} NamesDiffer(events: seq<Event>, name: string)
    requires Sorted(events) && events != [] && Less(name, events[0].cmd.name)
    ensures forall i :: 0 <= i < |events| ==> events[i].cmd.name != name
  {
    forall i | 0 <= i < |events| ensures events[i].cmd.name != name {
      LessIsStrict(name, events[0].cmd.name);
      if i > 0 {
        LessTransitive(name, events[0].cmd.name, events[i].cmd.name);
        LessIsStrict(name, events[i].cmd.name);
      }
    }
  }

  lemma {:induction false} InsertsOnce(events: seq<Event>, e: Event)
    requires Sorted(events)
    ensures Inserted(events, e, InsertEvent(events, e))
    decreases events
  {
    hide Less, Sorted;
    if events == [] {
      assert [] + [e] + [] == [e] && events[..0] == [] && events[0..] == [];
    } else if Less(e.cmd.name, events[0].cmd.name) {
      NamesDiffer(events, e.cmd.name);
      assert events[..0] + [e] + events[0..] == [e] + events;
    } else if e.cmd.name == events[0].cmd.name {
    } else {
      SortedTail(events);
      InsertsOnce(events[1..], e);
      InsertedBehind(events, e, InsertEvent(events[1..], e));
    }
  }

  lemma InsertedBehind(events: seq<Event>, e: Event, rest: seq<Event>)
    requires events != [] && e.cmd.name != events[0].cmd.name && Inserted(events[1..], e, rest)
    ensures Inserted(events, e, [events[0]] + rest)
  {
    var t := events[1..];
    if i :| 0 <= i < |events| && events[i].cmd.name == e.cmd.name {
      assert t[i - 1].cmd.name == e.cmd.name;
      assert [events[0]] + t == events;
    } else {
      assert forall i :: 0 <= i < |t| ==> t[i] == events[i + 1];
      var i :| 0 <= i <= |t| && rest == t[..i] + [e] + t[i..];
      assert [events[0]] + rest == events[..i + 1] + [e] + events[i + 1..];
    }
  }

  /**
   A blank line ends a service: its event is inserted with its properties and a boot trigger,
   unless there is one of its name, which then stays. Outside a service it does nothing.
   */
  lemma BlankEndsService(p: Parser, raw: string)
    requires BlankLine(raw) && !p.thrown && Sorted(p.events)
    requires p.state.ParseService? ==> |p.state.cmd.keys| == |p.state.cmd.values|
    ensures var q := ParseLine(p, raw);
            && q.state.ParseNone? && !q.thrown
            && (p.state.ParseNone? ==> q.events == p.events)
            && (p.state.ParseService? ==> Inserted(p.events, EventOf(p.state.cmd), q.events))
  {
    hide InsertEvent, ParseAttr, ParseServiceLine, Inserted;
    if AllBlank(raw) {
      BlanksOnly(raw);
    } else {
      var gap := raw[..|raw| - 1];
      BlanksOnly(gap);
      SkipNul(gap);
      assert raw == gap + [NUL];
    }
    if p.state.ParseService? {
      var cmd := p.state.cmd;
      assert Finished(cmd).triggers == EventOf(cmd).triggers;
      InsertsOnce(p.events, Finished(cmd));
    }
  }

  // ---- attribute lines ----

  /** Words with the gap before each, then a last gap. */
  function Spread(ws: seq<string>, gaps: seq<string>): string
    requires |gaps| == |ws| + 1
  {
    if ws == [] then gaps[0] else gaps[0] + ws[0] + Spread(ws[1..], gaps[1..])
  }

  predicate IsWord(w: string) {
    w != "" && forall c :: c in w ==> !Blank(c)
  }

  /** Words separated by blanks. */
  predicate Separated(ws: seq<string>, gaps: seq<string>) {
    && |gaps| == |ws| + 1
    && (forall w :: w in ws ==> IsWord(w))
    && (forall g :: g in gaps ==> AllBlank(g))
    && (forall i :: 0 < i < |ws| ==> gaps[i] != "")
  }

  lemma SpreadStarts(ws: seq<string>, gaps: seq<string>)
    requires Separated(ws, gaps) && gaps[0] != ""
    ensures Spread(ws, gaps) != "" && Blank(Spread(ws, gaps)[0])
  {
    assert gaps[0] in gaps && gaps[0][0] in gaps[0];
  }

  lemma SeparatedTail(ws: seq<string>, gaps: seq<string>)
    requires Separated(ws, gaps) && ws != []
    ensures Separated(ws[1..], gaps[1..])
    ensures NoSpace(ws[0]) && ws[0] != "" && AllBlank(gaps[0])
    ensures Spread(ws[1..], gaps[1..]) == "" || Blank(Spread(ws[1..], gaps[1..])[0])
  {
    assert ws[0] in ws && gaps[0] in gaps && gaps[1] in gaps;
    assert forall w :: w in ws[1..] ==> w in ws;
    forall g | g in gaps[1..] ensures AllBlank(g) {
      var i :| 0 <= i < |gaps[1..]| && gaps[1..][i] == g;
      assert gaps[i + 1] == g;
    }
    forall i | 0 < i < |ws[1..]| ensures gaps[1..][i] != "" { assert gaps[1..][i] == gaps[i + 1]; }
    if gaps[1] == "" {
      assert ws[1..] == [];
    } else {
      SpreadStarts(ws[1..], gaps[1..]);
    }
  }

  lemma {:induction false} WordsAreThose(ws: seq<string>, gaps: seq<string>)
    requires Separated(ws, gaps)
    ensures Words(Spread(ws, gaps)) == ws
    decreases ws
  {
    if ws == [] {
      assert gaps[0] in gaps;
      BlanksOnly(gaps[0]);
    } else {
      var w, rest := ws[0], Spread(ws[1..], gaps[1..]);
      SeparatedTail(ws, gaps);
      WordsAreThose(ws[1..], gaps[1..]);
      BlanksSkipped(gaps[0], w + rest);
      assert w[0] in w && Spread(ws, gaps) == gaps[0] + (w + rest);
      assert SkipSpaces(w + rest) == w + rest;
      WordOf(w, rest);
      assert (w + rest)[|w|..] == rest;
      assert ws == [w] + ws[1..];
    }
  }

  lemma {:induction false} BlankAddsNoWord(s: string, c: char)
    requires Blank(c)
    ensures Words(s + [c]) == Words(s)
    decreases |s|
  {
    var t := SkipSpaces(s);
    SkipShortens(s);
    BlankBehind(s, c);
    if t == "" {
    } else {
      WordIsPrefix(t);
      WordBefore(t, c);
      BlankAddsNoWord(t[|Word(t)|..], c);
      assert (t + [c])[|Word(t)|..] == t[|Word(t)|..] + [c];
    }
  }

  lemma {:induction false} BlankBehind(s: string, c: char)
    requires Blank(c)
    ensures SkipSpaces(s + [c]) == if SkipSpaces(s) == "" then "" else SkipSpaces(s) + [c]
  {
    if s == "" {
      assert s + [c] == [c] && [c][1..] == "";
    } else {
      assert (s + [c])[1..] == s[1..] + [c];
      BlankBehind(s[1..], c);
    }
  }

  lemma {:induction false} WordBefore(t: string, c: char)
    requires Blank(c)
    ensures Word(t + [c]) == Word(t)
  {
    if t == "" {
      assert t + [c] == [c];
    } else {
      assert (t + [c])[1..] == t[1..] + [c];
      WordBefore(t[1..], c);
    }
  }

  lemma {:induction false} TrimKeepsWords(s: string)
    ensures Words(TrimRight(s)) == Words(s)
    decreases |s|
  {
    if |s| > 1 && IsSpace(s[|s| - 1]) {
      TrimKeepsWords(s[..|s| - 1]);
      BlankAddsNoWord(s[..|s| - 1], s[|s| - 1]);
      assert s == s[..|s| - 1] + [s[|s| - 1]];
    }
  }

  lemma TrimmedWords(raw: string)
    ensures Words(Trim(raw)) == Words(raw)
  {
    TrimKeepsWords(SkipSpaces(raw));
    SkipShortens(raw);
    assert SkipSpaces(SkipSpaces(raw)) == SkipSpaces(raw);
  }

  /** What an attribute line does to the service it is in, by its words. */
  function WithAttribute(ws: seq<string>, cmd: Command): Command {
    if |ws| < 2 then cmd
    else if ws[0] == "user" then cmd.(uid := ws[1])
    else if ws[0] == "group" then cmd.(gid := ws[1])
    else if ws[0] == "seclabel" then cmd.(seclabel := ws[1])
    else if ws[0] == "groups" then cmd.(groups := cmd.groups + ws[1..])
    else if ws[0] == "trigger" then ParseTrigger(ws[1], cmd)
    else cmd
  }

  /**
   Inside a service a line of words is an attribute, in any spacing: the first word says which.
   An unknown one, or one without a value, changes nothing, and none starts a service.
   */
  lemma AttributeLine(p: Parser, ws: seq<string>, gaps: seq<string>)
    requires p.state.ParseService? && !p.thrown
    requires Separated(ws, gaps) && ws != [] && ws[0] != "" && ws[0][0] != '#' && ws != [[NUL]]
    ensures ParseLine(p, Spread(ws, gaps)) == p.(state := ParseService(WithAttribute(ws, p.state.cmd)))
  {
    hide InsertEvent, ParseServiceLine, ParseTrigger;
    var raw := Spread(ws, gaps);
    WordsAreThose(ws, gaps);
    TrimmedWords(raw);
    FirstOfTrimmed(ws, gaps);
  }

  lemma FirstOfTrimmed(ws: seq<string>, gaps: seq<string>)
    requires Separated(ws, gaps) && ws != [] && ws[0] != "" && ws != [[NUL]]
    ensures var line := Trim(Spread(ws, gaps)); line != "" && line[0] == ws[0][0] && line != [NUL]
  {
    var w, rest, raw := ws[0], Spread(ws[1..], gaps[1..]), Spread(ws, gaps);
    SeparatedTail(ws, gaps);
    BlanksSkipped(gaps[0], w + rest);
    assert w[0] in w && raw == gaps[0] + (w + rest) && SkipSpaces(w + rest) == w + rest;
    TrimRightKeeps(w + rest);
    WordsAreThose(ws, gaps);
    TrimmedWords(raw);
    if Trim(raw) == [NUL] { LastWord([NUL]); }
  }

  /** A property trigger adds its key, from the colon on, and its value, from the equal sign on. */
  lemma PropertyTrigger(cmd: Command, before: string, key: string, value: string)
    requires "property" <= before && ':' !in before && '=' !in key
    ensures ParseTrigger(before + ":" + key + "=" + value, cmd)
            == cmd.(keys := cmd.keys + [":" + key], values := cmd.values + ["=" + value])
  {
    var word := before + ":" + key + "=" + value;
    var rest := key + "=" + value;
    assert word == before + [':'] + rest;
    FindFirst(before, ':', rest, 0);
    var head := before + ":" + key;
    assert word == head + ['='] + value;
    FindFirst(head, '=', value, |before|);
    assert word[|before|..|head|] == ":" + key && word[|head|..] == "=" + value;
    assert word[..8] == before[..8];
  }

  /** Any other trigger changes nothing: no property, no colon, or no equal sign after the first colon. */
  lemma OtherTrigger(cmd: Command, word: string)
    requires !("property" <= word) || ':' !in word ||
             exists i :: 0 <= i < |word| && word[i] == ':' && ':' !in word[..i] && '=' !in word[i..]
    ensures ParseTrigger(word, cmd) == cmd
  {
    hide Find;
    if "property" <= word {
      if ':' !in word {
        FindNone(word, ':', 0);
      } else {
        var i :| 0 <= i < |word| && word[i] == ':' && ':' !in word[..i] && '=' !in word[i..];
        NoEqualSign(word, i);
      }
    }
  }

  lemma NoEqualSign(word: string, i: nat)
    requires i < |word| && word[i] == ':' && ':' !in word[..i] && '=' !in word[i..]
    ensures Find(word, ':', 0) == i && Find(word, '=', i) == |word|
  {
    hide Find;
    FindFirst(word[..i], ':', word[i + 1..], 0);
    assert word == word[..i] + [':'] + word[i + 1..];
    assert word[i..|word|] == word[i..];
    FindAfter(word, '=', i, |word|);
  }

  // ---- service lines ----

  /** A word as it comes out of a service line: each quote twice. */
  function Doubled(w: string): string {
    if w == "" then "" else (if w[0] == '"' then ['"', '"'] else [w[0]]) + Doubled(w[1..])
  }

  lemma {:induction false} DoubledToken(w: string, rest: string)
    requires (forall c :: c in w ==> !Blank(c)) && (rest == "" || rest[0] == ' ' || rest[0] == '\t' || rest[0] == '\n')
    ensures TokenChars(w + rest) == Doubled(w)
  {
    if w == "" {
      assert w + rest == rest;
    } else {
      assert w[0] in w && (w + rest)[1..] == w[1..] + rest;
      DoubledToken(w[1..], rest);
    }
  }

  /**
   An ended service line outside a service: the name is its first word with the quotes doubled,
   the command what is left after as many characters as the name has; without a command the
   line starts nothing.
   */
  lemma ServiceLineStarts(p: Parser, w: string, rest: string)
    requires p.state.ParseNone? && !p.thrown
    requires IsWord(w) && w[0] != '#' && (rest == "" || rest[0] == ' ' || rest[0] == '\t')
    ensures var n, l := |Doubled(w)|, w + rest;
            ParseLine(p, l + [NUL])
            == if n >= |l| then p else p.(state := ParseService(Command(Doubled(w), l[n..], "", "", "", [], [], [])))
  {
    var l := w + rest;
    assert w[0] in w && l[0] == w[0];
    hide TokenChars, NextToken, InsertEvent, ParseAttr, Doubled, Trim;
    TrimLine(l);
    TextNotSkipped(l);
    EndedCut(l);
    DoubledToken(w, rest);
    assert (l + [NUL])[0] == l[0] && |l + [NUL]| > 1;
  }

  lemma TextNotSkipped(l: string)
    requires l != "" && !Blank(l[0])
    ensures SkipSpaces(l) == l
  {
  }

  /** next_token throws for a line of blanks, and only there, so that the parser never gets to it. */
  lemma NeverThrows(p: Parser, raw: string)
    ensures AllBlank(raw) ==> NextToken(raw) == TokenThrows
    ensures ParseLine(p, raw).thrown ==> p.thrown
  {
    hide InsertEvent, ParseAttr, TokenChars, TrimRight;
    if AllBlank(raw) { NoneLeft(raw); }
    if SkipSpaces(raw) == "" {
      assert Trim(raw) == "" by { assert TrimRight("") == "" by { NothingTrimmed(); } }
    } else {
      TrimTwice(raw);
      LastIsBeforeEnd(Trim(raw));
    }
  }

  lemma NothingTrimmed()
    ensures TrimRight("") == ""
  {
  }

  lemma {:induction false} NoneLeft(s: string)
    requires AllBlank(s)
    ensures LastNonSpace(s) == -1
  {
    if s != "" {
      assert s[|s| - 1] in s;
      NoneLeft(s[..|s| - 1]);
    }
  }

  /** Once next_token has thrown nothing more is read. */
  lemma ThrownStays(p: Parser, raw: string)
    requires p.thrown
    ensures ParseLine(p, raw) == p
  {
  }

  // ---- printing ----

  function GroupsText(gs: seq<string>): string {
    if gs == [] then "" else gs[0] + " " + GroupsText(gs[1..])
  }

  function TriggersText(ts: seq<Trigger>): string {
    if ts == [] then ""
    else
      (match ts[0]
       case Property(key, want, _) => "  trigger property:" + key + "=" + want + "\n"
       case Boot(_) => "  trigger boot\n")
      + TriggersText(ts[1..])
  }

  /** One event in the file. */
  function EventText(e: Event): string {
    CString(e.cmd.name) + " " + CString(e.cmd.command) + "\n"
    + "  user " + CString(e.cmd.uid) + "\n" + "  group " + CString(e.cmd.gid) + "\n"
    + "  seclabel " + CString(e.cmd.seclabel) + "\n"
    + (if e.cmd.groups == [] then "" else "  groups " + GroupsText(e.cmd.groups) + "\n")
    + TriggersText(e.triggers) + "\n"
  }

  function TableText(es: seq<Event>): string {
    if es == [] then "" else EventText(es[0]) + TableText(es[1..])
  }

  lemma {:induction false} GroupsTextIs(gs: seq<string>)
    ensures GroupsText(gs) == EachSpaced(gs)
  {
    if gs != [] { GroupsTextIs(gs[1..]); }
  }

  lemma TriggerTextIs(t: Trigger)
    ensures "  trigger " + TriggerText(t) + "\n"
            == match t
               case Property(key, want, _) => "  trigger property:" + key + "=" + want + "\n"
               case Boot(_) => "  trigger boot\n"
  {
    assert "  trigger " + "property:" == "  trigger property:" && "  trigger " + "boot" == "  trigger boot";
    if t.Property? {
      assert "  trigger " + ("property:" + t.key + "=" + t.want) == "  trigger property:" + t.key + "=" + t.want;
    }
  }

  lemma {:induction false} TriggersTextIs(ts: seq<Trigger>)
    ensures TriggersText(ts) == Unlines(TriggerLines(ts))
  {
    if ts != [] {
      hide TriggerText;
      TriggerTextIs(ts[0]);
      TriggersTextIs(ts[1..]);
      TriggerLinesSplit(ts);
      var l := "  trigger " + TriggerText(ts[0]);
      UnlinesAppended([l], TriggerLines(ts[1..]));
      OneLineText(l);
    }
  }

  lemma TriggerLinesSplit(ts: seq<Trigger>)
    requires ts != []
    ensures TriggerLines(ts) == ["  trigger " + TriggerText(ts[0])] + TriggerLines(ts[1..])
  {
  }

  lemma EventTextIs(e: Event)
    ensures EventText(e) == Unlines(EventLines(e))
  {
    hide CString, TriggersText, TriggerLines, GroupsText, EachSpaced, Unlines;
    var gs := GroupLines(e.cmd.groups);
    UnlinesSnoc(HeadLines(e.cmd) + gs + TriggerLines(e.triggers), "");
    UnlinesAppended(HeadLines(e.cmd) + gs, TriggerLines(e.triggers));
    UnlinesAppended(HeadLines(e.cmd), gs);
    TriggersTextIs(e.triggers);
    GroupsTextIs(e.cmd.groups);
    HeadTextIs(e.cmd);
    GroupsLineIs(e.cmd.groups);
  }

  lemma HeadTextIs(cmd: Command)
    ensures Unlines(HeadLines(cmd))
            == CString(cmd.name) + " " + CString(cmd.command) + "\n"
               + "  user " + CString(cmd.uid) + "\n" + "  group " + CString(cmd.gid) + "\n"
               + "  seclabel " + CString(cmd.seclabel) + "\n"
  {
    hide CString, Unlines;
    var a, b, c, d := CString(cmd.name) + " " + CString(cmd.command), "  user " + CString(cmd.uid),
      "  group " + CString(cmd.gid), "  seclabel " + CString(cmd.seclabel);
    assert HeadLines(cmd) == [a] + [b] + [c] + [d];
    UnlinesSnoc([a] + [b] + [c], d);
    UnlinesSnoc([a] + [b], c);
    UnlinesSnoc([a], b);
    OneLineText(a);
  }

  lemma OneLineText(l: string)
    ensures Unlines([l]) == l + "\n"
  {
    assert [l][1..] == [] && l + "\n" + "" == l + "\n";
  }

  lemma GroupsLineIs(gs: seq<string>)
    ensures Unlines(GroupLines(gs)) == if gs == [] then "" else "  groups " + EachSpaced(gs) + "\n"
  {
    if gs != [] { OneLineText("  groups " + EachSpaced(gs)); }
  }

  lemma {:induction false} TableTextIs(es: seq<Event>)
    ensures TableText(es) == Unlines(TableLines(es))
  {
    if es != [] {
      hide EventText, EventLines, Unlines;
      EventTextIs(es[0]);
      UnlinesAppended(EventLines(es[0]), TableLines(es[1..]));
      TableTextIs(es[1..]);
    } else {
      assert Unlines([]) == "";
    }
  }

  /** What may be in an event whose two formatted chunks fit 128 bytes, each with its NUL. */
  predicate Short(cmd: Command) {
    && |CString(cmd.name)| + |CString(cmd.command)| + 2 < 128
    && |CString(cmd.uid)| + |CString(cmd.gid)| + |CString(cmd.seclabel)| + 29 < 128
  }

  /** The whole file, character by character; a table with an event that is not short overflows. */
  lemma FileIs(es: seq<Event>)
    ensures WriteFile(es) == if forall e :: e in es ==> Short(e.cmd) then Written(TableText(es)) else Overflown
  {
    hide CString, TableText, TableLines, Unlines;
    TableTextIs(es);
    forall e | e in es ensures ChunksFit(e.cmd) <==> Short(e.cmd) {
    }
  }
}
