/**
 The event file: how the daemon writes its table of events and reads it back, on the fields
 that both sides handle. getline leaves its terminating NUL on a line that a newline ended;
 the parser's cut of one character too many takes it off a service line, and nothing takes it
 off an attribute.
 */
module IniFile {
  import opened Triggers

  const BUFFER_SIZE := 128
  const LINE_MAX := 127

  /** An event's command and parameters, as far as the file carries them. */
  datatype Command = Command(
    name: string, command: string, uid: string, gid: string, seclabel: string,
    groups: seq<string>, keys: seq<string>, values: seq<string>)

  datatype Event = Event(cmd: Command, triggers: seq<Trigger>)

  // ---- strings ----

  predicate IsSpace(c: char) {
    c == ' ' || ('\t' <= c <= '\r')
  }

  predicate NoSpace(s: string) {
    forall c :: c in s ==> !IsSpace(c)
  }

  function SkipSpaces(s: string): string {
    if s == "" || !IsSpace(s[0]) then s else SkipSpaces(s[1..])
  }

  /** The right end of trim_space_char, which never removes the first character. */
  function TrimRight(s: string): string {
    if |s| <= 1 || !IsSpace(s[|s| - 1]) then s else TrimRight(s[..|s| - 1])
  }

  function Trim(s: string): string {
    TrimRight(SkipSpaces(s))
  }

  function Word(s: string): string {
    if s == "" || IsSpace(s[0]) then "" else [s[0]] + Word(s[1..])
  }

  function LastNonSpace(s: string): (j: int)
    ensures -1 <= j < |s|
  {
    if s == "" then -1 else if !IsSpace(s[|s| - 1]) then |s| - 1 else LastNonSpace(s[..|s| - 1])
  }

  // ---- tokens ----

  /** The characters of a token: a quote comes out doubled. */
  function TokenChars(s: string): string {
    if s == "" || s[0] == '\t' || s[0] == ' ' || s[0] == '\n' then ""
    else (if s[0] == '"' then "\"\"" else [s[0]]) + TokenChars(s[1..])
  }

  /** `TokenThrows`: there is nothing but spaces, and erasing from position -1 throws. */
  datatype Token = TokenEmpty | TokenText(token: string, rest: string) | TokenThrows

  function Drop(s: string, n: nat): string {
    if n <= |s| then s[n..] else ""
  }

  /** Cut from the last non-space character on, then take a token off the front. */
  function NextToken(line: string): Token {
    var j := LastNonSpace(line);
    if j < 0 then TokenThrows
    else
      var cut := line[..j];
      if cut == "" then TokenEmpty else TokenText(TokenChars(cut), Drop(cut, |TokenChars(cut)|))
  }

  // ---- parsing ----

  /** `Service`: inside the lines of a service. */
  datatype ParseState = ParseNone | ParseService(cmd: Command)

  datatype Parser = Parser(events: seq<Event>, state: ParseState, thrown: bool)

  const START := Parser([], ParseNone, false)

  function NewCommand(name: string, command: string): Command {
    Command(name, command, "", "", "", [], [], [])
  }

  /** The order of the map's keys. */
  predicate Less(a: string, b: string) {
    b != "" && (a == "" || a[0] < b[0] || (a[0] == b[0] && Less(a[1..], b[1..])))
  }

  /** The table is a map from names: its events in the order of their names. */
  ghost predicate Sorted(events: seq<Event>) {
    forall i, j :: 0 <= i < j < |events| ==> Less(events[i].cmd.name, events[j].cmd.name)
  }

  predicate Has(events: seq<Event>, name: string) {
    exists i :: 0 <= i < |events| && events[i].cmd.name == name
  }

  /** insert() puts an event at its place, and keeps the event that has its name. */
  function InsertEvent(events: seq<Event>, e: Event): seq<Event> {
    if events == [] || Less(e.cmd.name, events[0].cmd.name) then [e] + events
    else if e.cmd.name == events[0].cmd.name then events
    else [events[0]] + InsertEvent(events[1..], e)
  }

  /**
   An event read from the file always has its boot trigger: the flag starts set and no line
   clears it. Keys and values of properties are added together.
   */
  function Finished(cmd: Command): Event {
    Event(cmd, if |cmd.keys| <= |cmd.values| then Parsed(cmd.keys, cmd.values, true) else [])
  }

  function Find(s: string, c: char, from: nat): (r: nat)
    requires from <= |s|
    ensures from <= r <= |s| && (r < |s| ==> s[r] == c)
    decreases |s| - from
  {
    if from == |s| || s[from] == c then from else Find(s, c, from + 1)
  }

  function Words(s: string): seq<string>
    decreases |s|
  {
    var t := SkipSpaces(s);
    SkipShortens(s);
    if t == "" then [] else [Word(t)] + (WordIsPrefix(t); Words(t[|Word(t)|..]))
  }

  lemma {:induction false} SkipShortens(s: string)
    ensures |SkipSpaces(s)| <= |s|
    ensures SkipSpaces(s) == "" || !IsSpace(SkipSpaces(s)[0])
  {
    if s != "" && IsSpace(s[0]) { SkipShortens(s[1..]); }
  }

  lemma {:induction false} WordIsPrefix(s: string)
    ensures |Word(s)| <= |s| && (s != "" && !IsSpace(s[0]) ==> |Word(s)| > 0)
  {
    if s != "" && !IsSpace(s[0]) { WordIsPrefix(s[1..]); }
  }

  function ParseTrigger(word: string, cmd: Command): Command {
    if "property" <= word then
      var colon := Find(word, ':', 0);
      var equal := Find(word, '=', colon);
      if equal == |word| then cmd
      else cmd.(keys := cmd.keys + [word[colon..equal]], values := cmd.values + [word[equal..]])
    else cmd
  }

  /** An attribute line: the first word says which. Capability and rlimits lines set nothing modelled here. */
  function ParseAttr(line: string, cmd: Command): Command {
    var words := Words(line);
    if |words| < 2 then cmd
    else
      var tag, value := words[0], words[1];
      if tag == "user" then cmd.(uid := value)
      else if tag == "group" then cmd.(gid := value)
      else if tag == "seclabel" then cmd.(seclabel := value)
      else if tag == "groups" then cmd.(groups := cmd.groups + words[1..])
      else if tag == "trigger" then ParseTrigger(value, cmd)
      else cmd
  }

  function ParseServiceLine(p: Parser, line: string): Parser {
    match NextToken(line)
    case TokenThrows => p.(thrown := true)
    case TokenEmpty => p
    case TokenText(token, rest) => if rest == "" then p else p.(state := ParseService(NewCommand(token, rest)))
  }

  function ParseLine(p: Parser, raw: string): Parser {
    var line := Trim(raw);
    if p.thrown then p
    else if line == "" || line == [NUL] then
      Parser(if p.state.ParseService? then InsertEvent(p.events, Finished(p.state.cmd)) else p.events, ParseNone, false)
    else if line[0] == '#' then p
    else if p.state.ParseNone? then ParseServiceLine(p, line)
    else p.(state := ParseService(ParseAttr(line, p.state.cmd)))
  }

  function ParseLines(p: Parser, lines: seq<string>): Parser
    decreases lines
  {
    if lines == [] then p else ParseLines(ParseLine(p, lines[0]), lines[1..])
  }

  // ---- reading ----

  /**
   The lines that getline delivers: with the NUL in place of the newline, without one at the
   end of the file, and no more after a line that does not fit the buffer.
   */
  function FileLines(file: string): seq<string>
    decreases |file|
  {
    var k := Find(file, '\n', 0);
    if k > LINE_MAX then [file[..LINE_MAX]]
    else if k == |file| then if file == "" then [] else [file]
    else [file[..k] + [NUL]] + FileLines(file[k + 1..])
  }

  function ReadFile(file: string): Parser {
    ParseLine(ParseLines(START, FileLines(file)), "")
  }

  // ---- writing ----

  function TriggerText(t: Trigger): string {
    if t.Property? then "property:" + t.key + "=" + t.want else "boot"
  }

  function TriggerLines(ts: seq<Trigger>): seq<string> {
    if ts == [] then [] else ["  trigger " + TriggerText(ts[0])] + TriggerLines(ts[1..])
  }

  function EachSpaced(gs: seq<string>): string {
    if gs == [] then "" else gs[0] + " " + EachSpaced(gs[1..])
  }

  function GroupLines(gs: seq<string>): seq<string> {
    if gs == [] then [] else ["  groups " + EachSpaced(gs)]
  }

  /** The service line and the three lines that every event has. */
  function HeadLines(cmd: Command): seq<string> {
    [CString(cmd.name) + " " + CString(cmd.command),
     "  user " + CString(cmd.uid), "  group " + CString(cmd.gid), "  seclabel " + CString(cmd.seclabel)]
  }

  function EventLines(e: Event): seq<string> {
    HeadLines(e.cmd) + GroupLines(e.cmd.groups) + TriggerLines(e.triggers) + [""]
  }

  function TableLines(es: seq<Event>): seq<string> {
    if es == [] then [] else EventLines(es[0]) + TableLines(es[1..])
  }

  function Unlines(ls: seq<string>): string {
    if ls == [] then "" else ls[0] + "\n" + Unlines(ls[1..])
  }

  /** The two chunks that are formatted in a buffer before they are printed. */
  function ServiceChunk(cmd: Command): string {
    CString(cmd.name) + " " + CString(cmd.command) + "\n"
  }

  function UserChunk(cmd: Command): string {
    "  user " + CString(cmd.uid) + "\n  group " + CString(cmd.gid) + "\n  seclabel " + CString(cmd.seclabel) + "\n"
  }

  /** A chunk fits with the NUL that ends it. */
  predicate ChunksFit(cmd: Command) {
    |ServiceChunk(cmd)| < BUFFER_SIZE && |UserChunk(cmd)| < BUFFER_SIZE
  }

  predicate AllChunksFit(es: seq<Event>) {
    forall e :: e in es ==> ChunksFit(e.cmd)
  }

  /** `Overflown`: a chunk was formatted past the end of its buffer. */
  datatype Written = Written(file: string) | Overflown

  function Printed(es: seq<Event>): string {
    Unlines(TableLines(es))
  }

  function WriteFile(es: seq<Event>): Written {
    if AllChunksFit(es) then Written(Printed(es)) else Overflown
  }
}
