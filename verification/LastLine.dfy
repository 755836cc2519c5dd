/**
 What the cut of one character too many does to a service line. getline leaves its NUL at
 the end of a line that a newline ended, and the cut takes that NUL. The last line of a file
 may have no newline, and a line longer than the buffer is delivered without one: there the
 cut takes a character of the line.
 */
module LastLine {
  import opened IniFile
  import opened IniRoundTrip
  import opened Triggers

  function Ending(ended: bool): string {
    if ended then [NUL] else ""
  }

  lemma {:induction false} LastIsBeforeEnd(s: string)
    requires s != "" && !IsSpace(s[0])
    ensures 0 <= LastNonSpace(s) < |s|
    ensures !IsSpace(s[|s| - 1]) ==> LastNonSpace(s) == |s| - 1
  {
    if |s| > 1 && IsSpace(s[|s| - 1]) {
      LastIsBeforeEnd(s[..|s| - 1]);
    }
  }

  /** With its NUL a line is cut to itself. */
  lemma EndedCut(t: string)
    requires t != ""
    ensures NextToken(t + [NUL]) == TokenText(TokenChars(t), Drop(t, |TokenChars(t)|))
  {
    var line := t + [NUL];
    assert line[|line| - 1] == NUL && line[..|line| - 1] == t;
    assert LastNonSpace(line) == |line| - 1;
  }

  /** Without it a line is cut to less than itself. */
  lemma UnendedCut(t: string)
    requires t != "" && !IsSpace(t[0])
    ensures 0 <= LastNonSpace(t) < |t|
    ensures var cut := t[..LastNonSpace(t)];
            && |cut| < |t|
            && NextToken(t)
               == if cut == "" then TokenEmpty else TokenText(TokenChars(cut), Drop(cut, |TokenChars(cut)|))
  {
    LastIsBeforeEnd(t);
  }

  /** Token and rest make up what they were cut from, if anything is left of it. */
  predicate MakesUp(r: Token, size: nat) {
    r.TokenText? && r.rest != "" ==> |r.token| + |r.rest| == size
  }

  lemma TokenMakesUp(cut: string)
    ensures MakesUp(TokenText(TokenChars(cut), Drop(cut, |TokenChars(cut)|)), |cut|)
  {
  }

  /** A line that holds a service is cut to its token and command exactly if it was delivered with its NUL. */
  lemma CutExactly(t: string, ended: bool)
    requires t != "" && !IsSpace(t[0]) && NextToken(t + [NUL]).TokenText? && NextToken(t + [NUL]).rest != ""
    ensures NextToken(t + Ending(ended)) == NextToken(t + [NUL]) <==> ended
  {
    EndedCut(t);
    UnendedCut(t);
    TokenMakesUp(t);
    TokenMakesUp(t[..LastNonSpace(t)]);
    assert t + "" == t;
  }

  /** The service line `n c`: token and command are intact exactly if it was delivered with its NUL. */
  lemma ServiceLineExactly(n: string, c: string, ended: bool)
    requires n != "" && NoSpace(n) && '"' !in n
    ensures NextToken(n + " " + c + Ending(ended)) == TokenText(n, " " + c) <==> ended
    ensures !ended && c != "" && !IsSpace(c[|c| - 1]) ==>
              NextToken(n + " " + c + Ending(ended)) == TokenText(n, " " + c[..|c| - 1])
  {
    var t := n + " " + c;
    assert n[0] in n && t[0] == n[0];
    ServiceLine(n, c);
    CutExactly(t, ended);
    if !ended && c != "" && !IsSpace(c[|c| - 1]) {
      LosesItsEnd(n, c);
      assert t + "" == t;
    }
  }

  lemma LosesItsEnd(n: string, c: string)
    requires n != "" && NoSpace(n) && '"' !in n && c != "" && !IsSpace(c[|c| - 1])
    ensures NextToken(n + " " + c) == TokenText(n, " " + c[..|c| - 1])
  {
    var t, d := n + " " + c, c[..|c| - 1];
    assert n[0] in n && t[0] == n[0] && t[|t| - 1] == c[|c| - 1];
    UnendedCut(t);
    LastIsBeforeEnd(t);
    var cut := n + " " + d;
    assert t[..|t| - 1] == cut;
    TokenOf(n, d);
    assert cut[|n|..] == " " + d;
  }

  // ---- the last line of a file ----

  lemma {:induction false} FindNone(s: string, c: char, from: nat)
    requires from <= |s| && c !in s
    ensures Find(s, c, from) == |s|
    decreases |s| - from
  {
    if from < |s| {
      assert s[from] in s;
      FindNone(s, c, from + 1);
    }
  }

  lemma FirstLine(l: string, after: string)
    requires Fits(l)
    ensures FileLines(l + "\n" + after) == [l + [NUL]] + FileLines(after)
  {
    var file := l + "\n" + after;
    assert file == l + ['\n'] + after;
    FindFirst(l, '\n', after, 0);
    assert file[..|l|] == l && file[|l| + 1..] == after;
  }

  /** Ended lines are delivered with their NULs, and then the rest is. */
  lemma {:induction false} LinesThenRest(ls: seq<string>, rest: string)
    requires AllFit(ls)
    ensures FileLines(Unlines(ls) + rest) == WithNul(ls) + FileLines(rest)
    decreases ls
  {
    hide FileLines;
    if ls == [] {
      assert Unlines(ls) + rest == rest;
      assert [] + FileLines(rest) == FileLines(rest);
    } else {
      var l, after := ls[0], Unlines(ls[1..]) + rest;
      assert Fits(l);
      assert Unlines(ls) + rest == l + "\n" + after;
      FirstLine(l, after);
      LinesThenRest(ls[1..], rest);
      assert [l + [NUL]] + (WithNul(ls[1..]) + FileLines(rest)) == WithNul(ls) + FileLines(rest);
    }
  }

  lemma UnendedLine(l: string)
    requires Fits(l)
    ensures FileLines(l) == if l == "" then [] else [l]
  {
    FindNone(l, '\n', 0);
  }

  lemma EndedLine(l: string)
    requires Fits(l)
    ensures FileLines(l + "\n") == [l + [NUL]]
  {
    FindFirst(l, '\n', "", 0);
    assert l + ['\n'] + "" == l + "\n";
    assert (l + "\n")[..|l|] == l && (l + "\n")[|l| + 1..] == "";
    assert FileLines("") == [];
  }

  lemma {:induction false} FindAfter(s: string, c: char, from: nat, to: nat)
    requires from <= to <= |s| && c !in s[from..to]
    ensures Find(s, c, from) >= to
    decreases |s| - from
  {
    if from < to {
      assert s[from] == s[from..to][0] && s[from + 1..to] == s[from..to][1..];
      FindAfter(s, c, from + 1, to);
    }
  }

  lemma LongLine(l: string)
    requires |l| > LINE_MAX && '\n' !in l[..LINE_MAX + 1]
    ensures FileLines(l) == [l[..LINE_MAX]]
  {
    assert l[0..LINE_MAX + 1] == l[..LINE_MAX + 1];
    FindAfter(l, '\n', 0, LINE_MAX + 1);
  }

  /** A line that does not fit the buffer is delivered without its end, and nothing after it is read. */
  lemma LongLineEndsReading(ls: seq<string>, l: string)
    requires AllFit(ls) && |l| > LINE_MAX && '\n' !in l[..LINE_MAX + 1]
    ensures FileLines(Unlines(ls) + l) == WithNul(ls) + [l[..LINE_MAX]]
  {
    LinesThenRest(ls, l);
    LongLine(l);
  }

  /** The parser after some ended lines. */
  function After(ls: seq<string>): Parser {
    ParseLines(START, WithNul(ls))
  }

  /** The file: ended lines, then a last one with or without a newline. */
  function FileOf(ls: seq<string>, l: string, ended: bool): string {
    Unlines(ls) + (l + if ended then "\n" else "")
  }

  /** What the last line does. */
  function LastStep(p: Parser, l: string, ended: bool): Parser {
    ParseLine(if l == "" && !ended then p else ParseLine(p, l + Ending(ended)), "")
  }

  lemma OneLine(p: Parser, l: string)
    ensures ParseLines(p, [l]) == ParseLine(p, l)
  {
    assert [l][1..] == [];
  }

  lemma ReadsLast(ls: seq<string>, l: string, ended: bool)
    requires AllFit(ls) && Fits(l)
    ensures ReadFile(FileOf(ls, l, ended)) == LastStep(After(ls), l, ended)
  {
    hide ParseLine, Unlines;
    LinesThenRest(ls, l + if ended then "\n" else "");
    assert l + "" == l;
    if ended { EndedLine(l); } else { UnendedLine(l); }
    ParseAppended(START, WithNul(ls), if l == "" && !ended then [] else [l + Ending(ended)]);
    OneLine(After(ls), l + Ending(ended));
  }

  /** What a token starts, outside a service: nothing, or the service that the end of the file finishes. */
  function EventsAfter(p: Parser, r: Token): seq<Event> {
    if r.TokenText? && r.rest != "" then InsertEvent(p.events, Finished(NewCommand(r.token, r.rest))) else p.events
  }

  predicate Ready(p: Parser) {
    p.state.ParseNone? && !p.thrown
  }

  lemma Finishes(p: Parser, line: string)
    requires Ready(p) && line != "" && line != [NUL] && line[0] != '#' && !NextToken(line).TokenThrows?
    requires Trim(line) == line
    ensures ParseLine(ParseLine(p, line), "") == Parser(EventsAfter(p, NextToken(line)), ParseNone, false)
  {
    hide NextToken, InsertEvent, Finished;
    assert Trim("") == "";
  }

  lemma TrimAgain(raw: string, p: Parser)
    requires Trim(Trim(raw)) == Trim(raw)
    ensures ParseLine(p, raw) == ParseLine(p, Trim(raw))
  {
    hide NextToken, ParseAttr;
  }

  lemma {:induction false} TrimRightKeeps(s: string)
    requires s != "" && !IsSpace(s[0])
    ensures TrimRight(s) != "" && TrimRight(s) <= s && TrimRight(TrimRight(s)) == TrimRight(s)
    decreases s
  {
    if |s| > 1 && IsSpace(s[|s| - 1]) {
      TrimRightKeeps(s[..|s| - 1]);
    }
  }

  lemma TrimTwice(raw: string)
    requires SkipSpaces(raw) != ""
    ensures Trim(Trim(raw)) == Trim(raw) && Trim(raw) != "" && Trim(raw) <= SkipSpaces(raw)
    ensures !IsSpace(Trim(raw)[0])
  {
    SkipShortens(raw);
    TrimRightKeeps(SkipSpaces(raw));
    assert SkipSpaces(Trim(raw)) == Trim(raw);
  }

  lemma EndedTrim(l: string)
    ensures Trim(l + [NUL]) == SkipSpaces(l) + [NUL] && Trim(SkipSpaces(l) + [NUL]) == SkipSpaces(l) + [NUL]
  {
    TrimLine(l);
    TrimLine(SkipSpaces(l));
    SkipShortens(l);
    assert SkipSpaces(SkipSpaces(l)) == SkipSpaces(l);
  }

  /** The last line with its newline. */
  lemma EndedStep(p: Parser, l: string)
    requires Ready(p)
    ensures var t := SkipSpaces(l);
            LastStep(p, l, true)
            == if t == "" || t[0] == '#' then p
               else Parser(EventsAfter(p, NextToken(t + [NUL])), ParseNone, false)
  {
    hide EventsAfter, InsertEvent, NextToken, TrimRight;
    var t := SkipSpaces(l);
    EndedTrim(l);
    ParsesEnd(p);
    if t == "" {
      assert t + [NUL] == [NUL];
    } else if t[0] == '#' {
      assert (t + [NUL])[0] == '#';
    } else {
      assert (t + [NUL])[0] == t[0];
      EndedCut(t);
      TrimAgain(l + [NUL], p);
      Finishes(p, t + [NUL]);
    }
  }

  /** And without it. */
  lemma UnendedStep(p: Parser, l: string)
    requires Ready(p)
    ensures var t := Trim(l);
            LastStep(p, l, false)
            == if t == "" || t == [NUL] || t[0] == '#' then p
               else Parser(EventsAfter(p, NextToken(t)), ParseNone, false)
  {
    hide EventsAfter, InsertEvent, NextToken;
    assert l + "" == l;
    ParsesEnd(p);
    if SkipSpaces(l) == "" {
      assert Trim(l) == "";
    } else {
      TrimTwice(l);
      var t := Trim(l);
      if t != [NUL] && t[0] != '#' {
        UnendedCut(t);
        TrimAgain(l, p);
        Finishes(p, t);
      }
    }
  }

  // ---- when the newline does not matter ----

  /** A token that ends inside a text is the token of every longer text. */
  lemma {:induction false} TokenStopsInside(x: string, y: string)
    requires |TokenChars(x)| < |x|
    ensures TokenChars(x + y) == TokenChars(x)
    decreases x
  {
    if !(x[0] == '\t' || x[0] == ' ' || x[0] == '\n') {
      assert (x + y)[1..] == x[1..] + y;
      TokenStopsInside(x[1..], y);
    }
  }

  /** If the beginning of a text has a rest, so has the text. */
  lemma RestStays(t: string, cut: string)
    requires cut <= t && |cut| < |t| && Drop(cut, |TokenChars(cut)|) != ""
    ensures Drop(t, |TokenChars(t)|) != ""
  {
    hide TokenChars;
    TokenStopsInside(cut, t[|cut|..]);
    assert cut + t[|cut|..] == t;
  }

  lemma {:induction false} InsertMembers(events: seq<Event>, e: Event)
    ensures forall x :: x in InsertEvent(events, e) ==> x in events || x == e
    ensures !Has(events, e.cmd.name) ==> e in InsertEvent(events, e)
  {
    if events != [] {
      InsertMembers(events[1..], e);
      if !Has(events, e.cmd.name) {
        assert events[0].cmd.name != e.cmd.name;
        assert !Has(events[1..], e.cmd.name) by {
          assert forall i :: 0 <= i < |events[1..]| ==> events[1..][i] == events[i + 1];
        }
      }
    }
  }

  /** A service with a new name is told apart from any other outcome. */
  lemma NewServiceShows(p: Parser, r: Token, other: Token)
    requires r.TokenText? && r.rest != "" && !Has(p.events, r.token) && other != r
    ensures EventsAfter(p, r) != EventsAfter(p, other)
  {
    var e := Finished(NewCommand(r.token, r.rest));
    InsertMembers(p.events, e);
    assert e !in p.events;
    if other.TokenText? && other.rest != "" {
      var f := Finished(NewCommand(other.token, other.rest));
      assert f.cmd != e.cmd;
      InsertMembers(p.events, f);
    }
  }

  lemma CutsDiffer(t: string, t': string)
    requires t != "" && !IsSpace(t[0]) && t' != "" && t' <= t && Drop(t, |TokenChars(t)|) != ""
    ensures NextToken(t') != NextToken(t + [NUL])
  {
    EndedCut(t);
    UnendedCut(t');
    TokenMakesUp(t);
    TokenMakesUp(t'[..LastNonSpace(t')]);
  }

  lemma NoServiceEither(p: Parser, t: string, t': string)
    requires t != "" && !IsSpace(t[0]) && t' != "" && t' <= t && Drop(t, |TokenChars(t)|) == ""
    ensures EventsAfter(p, NextToken(t')) == p.events
  {
    UnendedCut(t');
    var cut := t'[..LastNonSpace(t')];
    if Drop(cut, |TokenChars(cut)|) != "" { RestStays(t, cut); }
  }

  /**
   The last line of a file, outside a service and with a new name: the newline at its end
   makes no difference exactly if the line is blank, a comment, or names a service without a
   command.
   */
  lemma LastLineExactly(ls: seq<string>, l: string)
    requires AllFit(ls) && Fits(l) && Ready(After(ls))
    requires !Has(After(ls).events, TokenChars(SkipSpaces(l)))
    ensures var t := SkipSpaces(l);
            ReadFile(FileOf(ls, l, false)) == ReadFile(FileOf(ls, l, true))
            <==> t == "" || t[0] == '#' || Drop(t, |TokenChars(t)|) == ""
  {
    hide FileOf, LastStep, EventsAfter, ReadFile, NextToken, TokenChars, ParseLines;
    var p, t, t' := After(ls), SkipSpaces(l), Trim(l);
    ReadsLast(ls, l, false);
    ReadsLast(ls, l, true);
    EndedStep(p, l);
    UnendedStep(p, l);
    if t != "" {
      SkipShortens(l);
      TrimTwice(l);
      EndedCut(t);
      assert t'[0] == t[0];
      if t[0] != '#' { LastServiceStep(p, t, t'); }
    }
  }

  lemma LastServiceStep(p: Parser, t: string, t': string)
    requires t != "" && !IsSpace(t[0]) && t' != "" && t' <= t && !Has(p.events, TokenChars(t))
    ensures var events := if t' == [NUL] then p.events else EventsAfter(p, NextToken(t'));
            events == EventsAfter(p, NextToken(t + [NUL])) <==> Drop(t, |TokenChars(t)|) == ""
  {
    hide InsertEvent, Finished;
    EndedCut(t);
    var r := NextToken(t + [NUL]);
    if Drop(t, |TokenChars(t)|) == "" {
      NoServiceEither(p, t, t');
    } else {
      CutsDiffer(t, t');
      NewServiceShows(p, r, NextToken(t'));
      NewServiceShows(p, r, TokenEmpty);
    }
  }

  /** The last service of a file has its command intact exactly if its line ends in a newline. */
  lemma LastServiceIntactExactly(ls: seq<string>, n: string, c: string, ended: bool)
    requires AllFit(ls) && Fits(n + " " + c) && Ready(After(ls)) && !Has(After(ls).events, n)
    requires n != "" && NoSpace(n) && '"' !in n && n[0] != '#'
    ensures ReadFile(FileOf(ls, n + " " + c, ended)).events
              == InsertEvent(After(ls).events, Finished(NewCommand(n, " " + c)))
            <==> ended
  {
    hide FileOf, LastStep, ReadFile, NextToken, InsertEvent, Finished, ParseLines;
    var p, l := After(ls), n + " " + c;
    assert n[0] in n && l[0] == n[0] && SkipSpaces(l) == l;
    ReadsLast(ls, l, ended);
    ServiceLine(n, c);
    if ended {
      EndedStep(p, l);
    } else {
      UnendedStep(p, l);
      TrimTwice(l);
      assert Trim(l)[0] == l[0];
      TokenOf(n, c);
      EndedCut(l);
      CutsDiffer(l, Trim(l));
      NewServiceShows(p, TokenText(n, " " + c), NextToken(Trim(l)));
      NewServiceShows(p, TokenText(n, " " + c), TokenEmpty);
    }
  }

  lemma UnendedService(n: string, c: string)
    requires Fits(n + " " + c) && n != "" && NoSpace(n) && '"' !in n && n[0] != '#' && n[0] != NUL
    requires c != "" && !IsSpace(c[|c| - 1])
    ensures ReadFile(n + " " + c).events == [Finished(NewCommand(n, " " + c[..|c| - 1]))]
  {
    hide ParseLine, FileLines, NextToken, Finished, LastStep;
    var l := n + " " + c;
    assert n[0] in n && l[0] == n[0] && l[|l| - 1] == c[|c| - 1];
    ReadsLast([], l, false);
    assert FileOf([], l, false) == l && After([]) == START;
    UnendedStep(START, l);
    assert Trim(l) == l;
    LosesItsEnd(n, c);
  }

  /** A file of one service line without a newline: the command loses its last character. */
  lemma LastCharacterLost()
    ensures ReadFile("n abc").events == [Finished(NewCommand("n", " ab"))]
  {
    hide ReadFile, Finished;
    UnendedService("n", "abc");
    assert "n" + " " + "abc" == "n abc" && "abc"[..2] == "ab" && " " + "ab" == " ab";
  }
}
