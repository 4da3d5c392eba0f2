/** The three agents' dialogs (internal/tmux/blocked.go): what each one's region of the
    screen is, and the rules its lines are read by. */
module Screens {
  import opened Prelude
  import opened Text
  import opened Dialogs

  const MAX_QUESTION := 256

  // ------------------------------------------------------------------ numbered choices

  function DigitsEnd(s: string, from: nat): (i: nat)
    requires from <= |s|
    ensures from <= i <= |s|
    decreases |s| - from
  {
    if from < |s| && IsDigit(s[from]) then DigitsEnd(s, from + 1) else from
  }

  /** What follows a number, a full stop and a space. */
  function AfterNumber(s: string): Option<string> {
    var i := DigitsEnd(s, 0);
    if i > 0 && i + 1 < |s| && s[i] == '.' && s[i + 1] == ' ' then Some(s[i + 2..]) else None
  }

  /** What follows the cursor and a number. */
  function AfterCursor(cursor: char, body: string): Option<string> {
    if |body| >= 2 && body[0] == cursor && body[1] == ' ' then AfterNumber(body[2..]) else None
  }

  function AfterChoice(cursor: char, body: string): Option<string> {
    if AfterCursor(cursor, body).Some? then AfterCursor(cursor, body) else AfterNumber(body)
  }

  predicate Asks(body: string) {
    body != "" && body[|body| - 1] == '?'
  }

  function Numbered(cursor: char): Rules {
    Rules((body: string) => AfterCursor(cursor, body).Some?, (body: string) => AfterChoice(cursor, body), Asks, 2)
  }

  lemma NumberedSkipsBlanks(cursor: char)
    ensures SkipsBlanks(Numbered(cursor))
  {
  }

  const CLEAN: string -> string := (s: string) => TrimSpace(s)

  // --------------------------------------------------------------------- Claude Code

  const CLAUDE := Numbered('❯')

  predicate IsRuleRune(c: char) {
    c == '─' || c == '╌'
  }

  /** A line drawn entirely from rule runes. */
  predicate IsRule(line: string) {
    TrimSpace(line) != "" && Trim(TrimSpace(line), IsRuleRune) == ""
  }

  predicate IsPlainSpace(c: char) {
    c == ' '
  }

  function Trimmed(region: seq<string>): seq<string> {
    seq(|region|, i requires 0 <= i < |region| => TrimSpace(region[i]))
  }

  function Indent(line: string): int {
    |line| - |TrimLeft(line, IsPlainSpace)|
  }

  /** A line as the extractor measures it: its trailing spaces first taken off. */
  function LineOf(raw: string): Line {
    var line := TrimRight(raw, IsPlainSpace);
    Line(TrimSpace(line), Indent(line))
  }

  function LinesOf(region: seq<string>): seq<Line> {
    seq(|region|, i requires 0 <= i < |region| => LineOf(region[i]))
  }

  /** Detector and extractor see the same words on every line. */
  lemma SameWords(region: seq<string>)
    ensures BodiesOf(LinesOf(region)) == Trimmed(region)
  {
    forall i | 0 <= i < |region|
      ensures LineOf(region[i]).body == TrimSpace(region[i])
    {
      TrimAfterTrim(region[i], IsPlainSpace, IsSpace);
    }
  }

  function Waits(seen: Seen): bool {
    seen.cursor && seen.choices >= CLAUDE.minChoices
  }

  /** The region below the bottommost rule, if there is a rule. */
  function ClaudeRegion(screen: string): Option<seq<string>> {
    BelowLast(Split(screen, '\n'), IsRule)
  }

  predicate ClaudeBlocked(screen: string) {
    var region := ClaudeRegion(screen);
    region.Some? && Waits(Scan(CLAUDE, Trimmed(region.value))) && Scan(CLAUDE, Trimmed(region.value)).asked
  }

  function ClaudeQuestion(screen: string): Option<Question> {
    var region := ClaudeRegion(screen);
    if region.None? then None else Extract(CLAUDE, CLEAN, LinesOf(region.value))
  }

  method ClaudeIsBlocked(screen: string) returns (blocked: bool)
    ensures blocked == ClaudeBlocked(screen)
  {
    var region := LastBelow(Split(screen, '\n'), IsRule);
    if region.None? {
      return false;
    }
    var seen := ScanMenu(CLAUDE, Trimmed(region.value));
    return seen.cursor && seen.asked && seen.choices >= CLAUDE.minChoices;
  }

  method ClaudeExtractQuestion(screen: string) returns (q: Option<Question>)
    ensures q == ClaudeQuestion(screen)
  {
    var region := LastBelow(Split(screen, '\n'), IsRule);
    if region.None? {
      return None;
    }
    q := ReadQuestion(CLAUDE, LinesOf(region.value));
  }

  method ReadQuestion(r: Rules, lines: seq<Line>) returns (q: Option<Question>)
    ensures q == Extract(r, CLEAN, lines)
  {
    var o := ReadMenu(r, CLEAN, lines);
    if o.first.None? || o.first.value > |lines| || |o.choices| < r.minChoices {
      return None;
    }
    var text := AskedText(r, BodiesOf(lines), o.first.value);
    if text.None? {
      return None;
    }
    return Some(Question(text.value, o.choices));
  }

  /** Local: whatever stands above a screen with a rule on it changes neither whether its
      dialog waits nor what it says. */
  lemma ClaudeReadsBelowTheRule(above: string, screen: string)
    requires ClaudeRegion(screen).Some?
    ensures ClaudeRegion(above + ['\n'] + screen) == ClaudeRegion(screen)
    ensures ClaudeBlocked(above + ['\n'] + screen) == ClaudeBlocked(screen)
    ensures ClaudeQuestion(above + ['\n'] + screen) == ClaudeQuestion(screen)
  {
    SplitConcat(above, '\n', screen);
    AboveIsIrrelevant(Split(above, '\n'), Split(screen, '\n'), IsRule);
  }

  /** The same dialog, read twice: on a screen that waits the question cannot be read
      exactly when every line that asks is at or below the first option, and when it can,
      the options are all the ones that were counted. */
  lemma ClaudeReadsWhatItDetects(screen: string)
    requires ClaudeBlocked(screen)
    ensures var bodies := Trimmed(ClaudeRegion(screen).value);
      var q := ClaudeQuestion(screen);
      && (q.None? <==> forall i | 0 <= i < |bodies| && Asks(bodies[i]) :: i >= FirstChoice(CLAUDE, bodies))
      && (q.Some? ==> |q.value.choices| == Scan(CLAUDE, bodies).choices >= 2)
  {
    var region := ClaudeRegion(screen).value;
    NumberedSkipsBlanks('❯');
    SameWords(region);
    ExtractionIsExact(CLAUDE, CLEAN, LinesOf(region));
    assert forall b :: CLAUDE.question(b) == Asks(b);
  }

  // ------------------------------------------------------------------------ opencode

  const GUTTER := '┃'

  /** What a line holds to the right of its gutter, if it has one. */
  function Guttered(line: string): Option<string> {
    var body := TrimLeft(line, IsPlainSpace);
    if body != "" && body[0] == GUTTER then Some(body[1..]) else None
  }

  const PERMISSION_REQUIRED := "Permission required"

  predicate IsWordRune(c: char) {
    IsDigit(c) || 'a' <= c <= 'z' || 'A' <= c <= 'Z' || c == '_'
  }

  /** The title, and before it nothing that is part of a word. */
  predicate IsHeader(body: string) {
    var n := |body| - |PERMISSION_REQUIRED|;
    n >= 0 && body[n..] == PERMISSION_REQUIRED && forall i | 0 <= i < n :: !IsWordRune(body[i])
  }

  function FirstContent(block: seq<string>): string {
    if block == [] then ""
    else if TrimSpace(block[0]) != "" then TrimSpace(block[0])
    else FirstContent(block[1..])
  }

  /** An answered box above a fresh input block is not read: the title must be the first
      thing in the bottommost block, whatever stands above it. */
  predicate OpencodeBlocked(screen: string) {
    IsHeader(FirstContent(BottomBlock(Split(screen, '\n'), Guttered)))
  }

  method OpencodeIsBlocked(screen: string) returns (blocked: bool)
    ensures blocked == OpencodeBlocked(screen)
  {
    var block := GutterBlock(Split(screen, '\n'), Guttered);
    var content := "";
    for i := 0 to |block|
      invariant FirstContent(block) == FirstContent(block[i..])
    {
      if TrimSpace(block[i]) != "" {
        content := TrimSpace(block[i]);
        return IsHeader(content);
      }
    }
    return IsHeader(content);
  }

  /** What follows the arrow of a request line. */
  function Requested(body: string): Option<string> {
    if body == "" || body[0] != '→' then None
    else
      var text := TrimLeft(body[1..], IsRegexSpace);
      if |text| == |body| - 1 || text == "" then None else Some(text)
  }

  // A regular expression's white space: the ASCII kind, without the vertical tab.
  predicate IsRegexSpace(c: char) {
    c == ' ' || c == '\t' || c == '\n' || c == '\r' || c == '\U{0C}'
  }

  function FirstRequest(block: seq<string>): Option<string> {
    if block == [] then None
    else if Requested(TrimSpace(block[0])).Some? then Requested(TrimSpace(block[0]))
    else FirstRequest(block[1..])
  }

  function OpencodeQuestion(screen: string): Option<Question> {
    var request := FirstRequest(BottomBlock(Split(screen, '\n'), Guttered));
    if request.None? then None else Some(Question(request.value, []))
  }

  method OpencodeExtractQuestion(screen: string) returns (q: Option<Question>)
    ensures q == OpencodeQuestion(screen)
  {
    var block := GutterBlock(Split(screen, '\n'), Guttered);
    for i := 0 to |block|
      invariant FirstRequest(block) == FirstRequest(block[i..])
    {
      var request := Requested(TrimSpace(block[i]));
      if request.Some? {
        return Some(Question(request.value, []));
      }
    }
    return None;
  }

  /** What both opencode readers look at is the bottommost run of guttered lines that can
      be made no longer at either end, each without its gutter. */
  lemma OpencodeReadsTheBottomBlock(screen: string, first: nat, last: nat, block: seq<string>)
    requires IsBottomRun(Split(screen, '\n'), Guttered, first, last)
    requires |block| == last - first + 1 && IsStripped(block, Split(screen, '\n'), Guttered, first)
    ensures OpencodeBlocked(screen) <==> IsHeader(FirstContent(block))
    ensures OpencodeQuestion(screen)
      == if FirstRequest(block).Some? then Some(Question(FirstRequest(block).value, [])) else None
  {
    var lines := Split(screen, '\n');
    BottomBlockIs(lines, Guttered, first, last);
    StrippedIsUnique(block, BottomBlock(lines, Guttered), lines, Guttered, first);
  }

  // ------------------------------------------------------------------------------ pi

  const PI := Numbered('→')
  const WALL := '│'

  /** A border line: a left corner, and a right corner after it. */
  predicate HasBorder(line: string, left: char, right: char) {
    exists i, j | 0 <= i < j < |line| :: line[i] == left && line[j] == right
  }

  predicate IsTop(line: string) {
    HasBorder(line, '╭', '╮')
  }

  predicate IsBottom(line: string) {
    HasBorder(line, '╰', '╯')
  }

  /** What a box line holds between its first two walls. */
  function Column(line: string): string {
    var parts := Split(line, WALL);
    if |parts| >= 3 then parts[1] else ""
  }

  /** A box's lines as both readers see them. Nothing is ever indented far enough to
      continue the option above it. */
  function Columns(box: seq<string>): seq<Line> {
    seq(|box|, i requires 0 <= i < |box| => Line(TrimSpace(Column(box[i])), -1))
  }

  function PiBox(screen: string): Option<seq<string>> {
    Boxed(Split(screen, '\n'), IsTop, IsBottom)
  }

  /** A menu with something highlighted is waiting, whether or not it asks. */
  predicate PiBlocked(screen: string) {
    var box := PiBox(screen);
    box.Some? && Waits(Scan(PI, BodiesOf(Columns(box.value))))
  }

  function PiQuestion(screen: string): Option<Question> {
    var box := PiBox(screen);
    if box.None? then None else Extract(PI, CLEAN, Columns(box.value))
  }

  method PiIsBlocked(screen: string) returns (blocked: bool)
    ensures blocked == PiBlocked(screen)
  {
    var box := Box(Split(screen, '\n'), IsTop, IsBottom);
    if box.None? {
      return false;
    }
    var seen := ScanMenu(PI, BodiesOf(Columns(box.value)));
    return seen.cursor && seen.choices >= PI.minChoices;
  }

  method PiExtractQuestion(screen: string) returns (q: Option<Question>)
    ensures q == PiQuestion(screen)
  {
    var box := Box(Split(screen, '\n'), IsTop, IsBottom);
    if box.None? {
      return None;
    }
    q := ReadQuestion(PI, Columns(box.value));
  }

  /** A waiting menu is quoted exactly when something above its first option asks. */
  lemma PiReadsWhatItDetects(screen: string)
    requires PiBlocked(screen)
    ensures var bodies := BodiesOf(Columns(PiBox(screen).value));
      var q := PiQuestion(screen);
      && (q.None? <==> forall i | 0 <= i < |bodies| && Asks(bodies[i]) :: i >= FirstChoice(PI, bodies))
      && (q.Some? ==> |q.value.choices| == Scan(PI, bodies).choices >= 2)
  {
    NumberedSkipsBlanks('→');
    ExtractionIsExact(PI, CLEAN, Columns(PiBox(screen).value));
    assert forall b :: PI.question(b) == Asks(b);
  }

  // ------------------------------------------------------------------- every agent's form

  predicate IsBlocked(agent: string, screen: string) {
    if agent == "claude" then ClaudeBlocked(screen)
    else if agent == "opencode" then OpencodeBlocked(screen)
    else if agent == "pi" then PiBlocked(screen)
    else false
  }

  function RawQuestion(agent: string, screen: string): Option<Question> {
    if agent == "claude" then ClaudeQuestion(screen)
    else if agent == "opencode" then OpencodeQuestion(screen)
    else if agent == "pi" then PiQuestion(screen)
    else None
  }

  function Shortened(choices: seq<string>): (r: seq<string>)
    ensures |r| == |choices| && forall i | 0 <= i < |r| :: r[i] == Take(choices[i], MAX_QUESTION)
  {
    seq(|choices|, i requires 0 <= i < |choices| => Take(choices[i], MAX_QUESTION))
  }

  /** Only a form that is on the screen may be quoted, and only so much of it. */
  function ExtractQuestion(agent: string, screen: string): (q: Option<Question>)
    ensures q.Some? ==>
              && IsBlocked(agent, screen) && |q.value.text| <= 256
              && forall i | 0 <= i < |q.value.choices| :: |q.value.choices[i]| <= 256
    ensures q.Some? <==> IsBlocked(agent, screen) && RawQuestion(agent, screen).Some?
  {
    if !IsBlocked(agent, screen) || RawQuestion(agent, screen).None? then None
    else
      var q := RawQuestion(agent, screen).value;
      Some(Question(Take(q.text, MAX_QUESTION), Shortened(q.choices)))
  }
}
