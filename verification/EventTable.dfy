/** The event table's parser and printer as methods that update it in place. */
module EventTable {
  import opened IniFile
  import opened Triggers

  method TrimSpaceChar(line: string) returns (r: string)
    ensures r == Trim(line)
  {
    r := line;
    var i := 0;
    assert r[0..] == line;
    while i < |r| && IsSpace(r[i])
      invariant i <= |r|
      invariant SkipSpaces(r[i..]) == SkipSpaces(line)
    {
      i := i + 1;
    }
    r := r[i..];
    var len := |r|;
    var k, j := if len > 0 then len - 1 else 0, len;
    assert r[..j] == r;
    while k > 0 && IsSpace(r[k])
      invariant 0 <= k && j <= len && (len > 0 ==> k == j - 1) && (len == 0 ==> k == 0 && j == 0)
      invariant TrimRight(r[..j]) == TrimRight(r)
    {
      assert r[..j][..|r[..j]| - 1] == r[..k];
      k, j := k - 1, j - 1;
    }
    r := r[..j];
  }

  /** The scan from the right for a character that is not a space. */
  method ScanRight(line: string) returns (j: int)
    ensures j == LastNonSpace(line)
  {
    j := |line| - 1;
    assert line[..j + 1] == line;
    while j >= 0 && IsSpace(line[j])
      invariant -1 <= j < |line|
      invariant LastNonSpace(line[..j + 1]) == LastNonSpace(line)
    {
      assert line[..j + 1][..j] == line[..j];
      j := j - 1;
    }
  }

  lemma TokenStep(s: string, i: nat)
    requires i < |s| && s[i] != '\t' && s[i] != ' ' && s[i] != '\n'
    ensures TokenChars(s[i..]) == (if s[i] == '"' then "\"\"" else [s[i]]) + TokenChars(s[i + 1..])
  {
    assert s[i..][1..] == s[i + 1..];
  }

  lemma TokenStops(s: string, i: nat)
    requires i <= |s| && (i < |s| ==> s[i] == '\t' || s[i] == ' ' || s[i] == '\n')
    ensures TokenChars(s[i..]) == ""
  {
  }

  /** The copy of characters up to the first blank. */
  method CopyToken(s: string) returns (str: string)
    ensures str == TokenChars(s)
  {
    hide TokenChars;
    var i := 0;
    str := "";
    assert s[0..] == s && "" + TokenChars(s) == TokenChars(s);
    while i < |s| && s[i] != '\t' && s[i] != ' ' && s[i] != '\n'
      invariant 0 <= i <= |s|
      invariant str + TokenChars(s[i..]) == TokenChars(s)
    {
      TokenStep(s, i);
      var piece := if s[i] == '"' then "\"\"" else [s[i]];
      assert str + (piece + TokenChars(s[i + 1..])) == str + piece + TokenChars(s[i + 1..]);
      str := str + piece;
      i := i + 1;
    }
    TokenStops(s, i);
    assert str + "" == str;
  }

  method NextTokenOf(line: string) returns (r: Token)
    ensures r == NextToken(line)
  {
    var j := ScanRight(line);
    if j < 0 { return TokenThrows; }
    var cut := line[..j];
    if cut == "" { return TokenEmpty; }
    var str := CopyToken(cut);
    r := TokenText(str, Drop(cut, |str|));
  }

  lemma {:induction false} LessTransitive(a: string, b: string, c: string)
    requires Less(a, b) && Less(b, c)
    ensures Less(a, c)
    decreases a
  {
    if a != "" && a[0] == b[0] == c[0] {
      LessTransitive(a[1..], b[1..], c[1..]);
    }
  }

  lemma {:induction false} LessTotal(a: string, b: string)
    requires a != b
    ensures Less(a, b) || Less(b, a)
    decreases a
  {
    if a != "" && b != "" && a[0] == b[0] {
      assert a == [a[0]] + a[1..] && b == [b[0]] + b[1..];
      LessTotal(a[1..], b[1..]);
    }
  }

  lemma SortedTail(events: seq<Event>)
    requires events != [] && Sorted(events)
    ensures Sorted(events[1..]) && forall x :: x in events[1..] ==> Less(events[0].cmd.name, x.cmd.name)
  {
    hide Less;
    forall i, j | 0 <= i < j < |events[1..]| ensures Less(events[1..][i].cmd.name, events[1..][j].cmd.name) {
      assert events[1..][i] == events[i + 1] && events[1..][j] == events[j + 1];
    }
    forall x | x in events[1..] ensures Less(events[0].cmd.name, x.cmd.name) {
      var i :| 0 <= i < |events[1..]| && events[1..][i] == x;
      assert events[i + 1] == x;
    }
  }

  lemma SortedHead(e: Event, events: seq<Event>)
    requires Sorted(events) && forall x :: x in events ==> Less(e.cmd.name, x.cmd.name)
    ensures Sorted([e] + events)
  {
    hide Less;
    var all := [e] + events;
    forall i, j | 0 <= i < j < |all| ensures Less(all[i].cmd.name, all[j].cmd.name) {
      assert all[j] == events[j - 1] && events[j - 1] in events;
      assert i > 0 ==> all[i] == events[i - 1];
    }
  }

  /** Inserting keeps the order. */
  lemma {:induction false} InsertKeepsSorted(events: seq<Event>, e: Event)
    requires Sorted(events)
    ensures Sorted(InsertEvent(events, e))
    ensures forall x :: x in InsertEvent(events, e) ==> x in events || x == e
  {
    hide Less, Sorted;
    if events == [] {
      assert Sorted(events);
      SortedHead(e, events);
    } else {
      var head, rest := events[0], events[1..];
      SortedTail(events);
      assert events == [head] + rest;
      if Less(e.cmd.name, head.cmd.name) {
        forall x | x in events ensures Less(e.cmd.name, x.cmd.name) {
          if x in rest { LessTransitive(e.cmd.name, head.cmd.name, x.cmd.name); }
        }
        SortedHead(e, events);
      } else if e.cmd.name != head.cmd.name {
        LessTotal(e.cmd.name, head.cmd.name);
        InsertKeepsSorted(rest, e);
        SortedHead(head, InsertEvent(rest, e));
      }
    }
  }

  class Table {
    var events: seq<Event>
    var parseState: ParseState
    var thrown: bool

    constructor ()
      ensures Valid() && View() == Parser([], ParseNone, false)
    {
      events, parseState, thrown := [], ParseNone, false;
    }

    /** The map's order. */
    ghost predicate Valid()
      reads this
    {
      Sorted(events)
    }

    ghost function View(): (p: Parser)
      reads this
    {
      Parser(events, parseState, thrown)
    }

    method ParseEventFromIni(lineToken: string)
      requires Valid()
      modifies this
      ensures Valid() && View() == ParseLine(old(View()), lineToken)
    {
      if thrown { return; }
      var line := TrimSpaceChar(lineToken);
      if line == "" || line == [NUL] {
        if parseState.ParseService? {
          InsertKeepsSorted(events, Finished(parseState.cmd));
          events := InsertEvent(events, Finished(parseState.cmd));
        }
        parseState := ParseNone;
        return;
      }
      if line[0] == '#' { return; }
      if parseState.ParseService? {
        parseState := ParseService(ParseAttr(line, parseState.cmd));
        return;
      }
      var t := NextTokenOf(line);
      if t.TokenThrows? {
        thrown := true;
      } else if t.TokenText? && t.rest != "" {
        parseState := ParseService(NewCommand(t.token, t.rest));
      }
    }

    /** The loop over getline, then an empty line to finish the last event. */
    method ReadIniFile(file: string)
      requires Valid()
      modifies this
      ensures Valid() && View() == ParseLine(ParseLines(old(View()), FileLines(file)), "")
    {
      ghost var all := ParseLines(View(), FileLines(file));
      var rest, good := file, true;
      while good
        invariant Valid()
        invariant good ==> ParseLines(View(), FileLines(rest)) == all
        invariant !good ==> View() == all
        decreases good, |rest|
      {
        var k := Find(rest, '\n', 0);
        ghost var lines := FileLines(rest);
        if k > LINE_MAX {
          assert lines[1..] == [];
          ParseEventFromIni(rest[..LINE_MAX]);
          good := false;
        } else if k == |rest| {
          if |rest| > 0 {
            assert lines[1..] == [];
            ParseEventFromIni(rest);
          }
          good := false;
        } else {
          assert lines[0] == rest[..k] + [NUL] && lines[1..] == FileLines(rest[k + 1..]);
          ParseEventFromIni(rest[..k] + [NUL]);
          rest := rest[k + 1..];
        }
      }
      ParseEventFromIni("");
    }

    /** Each event's chunks are formatted, then printed with its other lines. */
    method WriteIniFile() returns (overflown: bool, file: string)
      ensures WriteFile(events) == if overflown then Overflown else Written(file)
    {
      hide Printed, EventLines, ChunksFit;
      overflown, file := false, "";
      var i := 0;
      assert events[0..] == events && "" + Printed(events) == Printed(events);
      while i < |events|
        invariant 0 <= i <= |events|
        invariant AllChunksFit(events[..i])
        invariant file + Printed(events[i..]) == Printed(events)
      {
        var over, chunk := WriteEvent(events[i]);
        if over {
          assert events[i] in events;
          return true, file;
        }
        FileStep(file, events, i);
        assert events[..i + 1] == events[..i] + [events[i]];
        file := file + chunk;
        i := i + 1;
      }
      NothingLeft(events[i..]);
      assert file + "" == file && events[..i] == events;
    }
  }

  lemma NothingLeft(es: seq<Event>)
    requires es == []
    ensures Printed(es) == ""
  {
  }

  lemma FileStep(file: string, es: seq<Event>, i: nat)
    requires i < |es|
    ensures file + Printed(es[i..]) == file + Unlines(EventLines(es[i])) + Printed(es[i + 1..])
  {
    hide EventLines, Unlines;
    var chunk := Unlines(EventLines(es[i]));
    assert es[i..][0] == es[i] && es[i..][1..] == es[i + 1..];
    UnlinesAppended(EventLines(es[i]), TableLines(es[i + 1..]));
    assert file + (chunk + Printed(es[i + 1..])) == file + chunk + Printed(es[i + 1..]);
  }

  lemma {:induction false} UnlinesAppended(a: seq<string>, b: seq<string>)
    ensures Unlines(a + b) == Unlines(a) + Unlines(b)
    decreases a
  {
    if a == [] {
      assert a + b == b;
    } else {
      assert (a + b)[1..] == a[1..] + b;
      UnlinesAppended(a[1..], b);
      assert a[0] + "\n" + (Unlines(a[1..]) + Unlines(b)) == a[0] + "\n" + Unlines(a[1..]) + Unlines(b);
    }
  }

  lemma UnlinesSnoc(a: seq<string>, l: string)
    ensures Unlines(a + [l]) == Unlines(a) + l + "\n"
  {
    UnlinesAppended(a, [l]);
    assert [l][1..] == [] && Unlines([l]) == l + "\n" + "";
  }

  /** One event's text. Its two chunks go through the buffer, where one that does not fit overflows. */
  method WriteEvent(e: Event) returns (overflown: bool, text: string)
    ensures overflown <==> !ChunksFit(e.cmd)
    ensures !overflown ==> text == Unlines(EventLines(e))
  {
    hide Unlines, CString;
    ghost var lines := HeadLines(e.cmd);
    overflown := false;
    var buf := CString(e.cmd.name) + " " + CString(e.cmd.command) + "\n";
    if |buf| >= BUFFER_SIZE { return true, ""; }
    text := buf;
    buf := "  user " + CString(e.cmd.uid) + "\n  group " + CString(e.cmd.gid)
      + "\n  seclabel " + CString(e.cmd.seclabel) + "\n";
    if |buf| >= BUFFER_SIZE { return true, ""; }
    text := text + buf;
    HeadText(e.cmd);
    if |e.cmd.groups| > 0 {
      var groups := WriteGroups(e.cmd.groups);
      UnlinesSnoc(lines, "  groups " + EachSpaced(e.cmd.groups));
      text := text + "  groups " + groups + "\n";
      lines := lines + GroupLines(e.cmd.groups);
    }
    assert lines == HeadLines(e.cmd) + GroupLines(e.cmd.groups);
    var i := 0;
    ghost var before := lines;
    assert e.triggers[0..] == e.triggers;
    while i < |e.triggers|
      invariant 0 <= i <= |e.triggers|
      invariant text == Unlines(lines)
      invariant lines + TriggerLines(e.triggers[i..]) == before + TriggerLines(e.triggers)
    {
      var l := "  trigger " + TriggerText(e.triggers[i]);
      UnlinesSnoc(lines, l);
      assert e.triggers[i..][0] == e.triggers[i] && e.triggers[i..][1..] == e.triggers[i + 1..];
      assert lines + ([l] + TriggerLines(e.triggers[i + 1..])) == lines + [l] + TriggerLines(e.triggers[i + 1..]);
      text := text + l + "\n";
      lines := lines + [l];
      i := i + 1;
    }
    assert lines + [] == lines;
    UnlinesSnoc(lines, "");
    assert Unlines(lines) + "" + "\n" == text + "\n";
    text := text + "\n";
  }

  lemma UnlinesTwo(a: string, b: string)
    ensures Unlines([a, b]) == a + "\n" + (b + "\n")
  {
    assert [a, b][1..] == [b] && [b][1..] == [];
    assert Unlines([b]) == b + "\n" + "";
  }

  lemma HeadText(cmd: Command)
    ensures Unlines(HeadLines(cmd)) == ServiceChunk(cmd) + UserChunk(cmd)
  {
    hide Unlines, CString;
    var a, b, c, d := CString(cmd.name) + " " + CString(cmd.command), "  user " + CString(cmd.uid),
      "  group " + CString(cmd.gid), "  seclabel " + CString(cmd.seclabel);
    UnlinesAppended([a, b], [c, d]);
    UnlinesTwo(a, b);
    UnlinesTwo(c, d);
    assert HeadLines(cmd) == [a, b] + [c, d];
    assert "\n  group " + CString(cmd.gid) == "\n" + c && "\n  seclabel " + CString(cmd.seclabel) == "\n" + d;
  }

  lemma SpacedStep(text: string, gs: seq<string>, i: nat)
    requires i < |gs|
    ensures text + EachSpaced(gs[i..]) == text + gs[i] + " " + EachSpaced(gs[i + 1..])
  {
    assert gs[i..][0] == gs[i] && gs[i..][1..] == gs[i + 1..];
    assert text + (gs[i] + " " + EachSpaced(gs[i + 1..])) == text + gs[i] + " " + EachSpaced(gs[i + 1..]);
  }

  method WriteGroups(gs: seq<string>) returns (text: string)
    ensures text == EachSpaced(gs)
  {
    text := "";
    var i := 0;
    assert gs[0..] == gs;
    while i < |gs|
      invariant 0 <= i <= |gs|
      invariant text + EachSpaced(gs[i..]) == EachSpaced(gs)
    {
      SpacedStep(text, gs, i);
      text := text + gs[i] + " ";
      i := i + 1;
    }
    assert text + "" == text;
  }
}
