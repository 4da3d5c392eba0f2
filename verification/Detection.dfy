/** When a screen waits, and what on it counts, character by character
    (internal/tmux/blocked.go). */
module Detection {
  import opened Prelude
  import opened Text
  import opened Dialogs
  import opened Screens

  // ------------------------------------------------------------------------ one line

  /** The line begins with d digits, a full stop and a space. */
  predicate NumberAt(s: string, d: nat) {
    && 0 < d && d + 2 <= |s| && (forall i | 0 <= i < d :: '0' <= s[i] <= '9') && s[d] == '.' && s[d + 1] == ' '
  }

  ghost predicate HasNumber(s: string) {
    exists d: nat :: NumberAt(s, d)
  }

  /** The cursor stands on a number. */
  ghost predicate CursorOn(cursor: char, s: string) {
    |s| >= 2 && s[0] == cursor && s[1] == ' ' && HasNumber(s[2..])
  }

  /** A numbered option, with the cursor on it or not. */
  ghost predicate IsOption(cursor: char, s: string) {
    HasNumber(s) || CursorOn(cursor, s)
  }

  predicate EndsAsking(s: string) {
    |s| > 0 && s[|s| - 1] == '?'
  }

  lemma {:induction false} DigitsEndIs(s: string, from: nat, d: nat)
    requires from <= d < |s| && (forall i | from <= i < d :: '0' <= s[i] <= '9') && !('0' <= s[d] <= '9')
    ensures DigitsEnd(s, from) == d
    decreases d - from
  {
    if from < d {
      DigitsEndIs(s, from + 1, d);
    }
  }

  lemma {:induction false} DigitsEndsAt(s: string, from: nat)
    requires from <= |s|
    ensures forall i | from <= i < DigitsEnd(s, from) :: '0' <= s[i] <= '9'
    decreases |s| - from
  {
    if from < |s| && IsDigit(s[from]) {
      DigitsEndsAt(s, from + 1);
    }
  }

  /** What is read of a numbered line: what follows its number. */
  lemma AfterNumberIs(s: string, d: nat)
    requires NumberAt(s, d)
    ensures AfterNumber(s) == Some(s[d + 2..])
  {
    DigitsEndIs(s, 0, d);
  }

  lemma NumbersAreFound(s: string)
    ensures AfterNumber(s).Some? <==> HasNumber(s)
  {
    if AfterNumber(s).Some? {
      DigitsEndsAt(s, 0);
      assert NumberAt(s, DigitsEnd(s, 0));
    }
    if d: nat :| NumberAt(s, d) {
      AfterNumberIs(s, d);
    }
  }

  /** What the two rules of a numbered menu match. */
  lemma OptionsAreFound(cursor: char, s: string)
    ensures AfterCursor(cursor, s).Some? <==> CursorOn(cursor, s)
    ensures AfterChoice(cursor, s).Some? <==> IsOption(cursor, s)
  {
    NumbersAreFound(s);
    if |s| >= 2 {
      NumbersAreFound(s[2..]);
    }
  }

  /** The text of an option: what follows its number, wherever the cursor is. */
  lemma OptionText(cursor: char, s: string, d: nat)
    requires !('0' <= cursor <= '9')
    ensures NumberAt(s, d) ==> AfterChoice(cursor, s) == Some(s[d + 2..])
    ensures |s| >= 2 && s[0] == cursor && s[1] == ' ' && NumberAt(s[2..], d) ==> AfterChoice(cursor, s) == Some(s[d + 4..])
  {
    if NumberAt(s, d) {
      AfterNumberIs(s, d);
    }
    if |s| >= 2 && NumberAt(s[2..], d) {
      AfterNumberIs(s[2..], d);
      assert s[2..][d + 2..] == s[d + 4..];
    }
  }

  // ------------------------------------------------------------------- a menu's lines

  /** Two different lines are options. */
  ghost predicate TwoOptions(cursor: char, bodies: seq<string>) {
    exists i, j | 0 <= i < j < |bodies| :: IsOption(cursor, bodies[i]) && IsOption(cursor, bodies[j])
  }

  ghost predicate SomeCursor(cursor: char, bodies: seq<string>) {
    exists i | 0 <= i < |bodies| :: CursorOn(cursor, bodies[i])
  }

  ghost predicate SomeAsks(bodies: seq<string>) {
    exists i | 0 <= i < |bodies| :: EndsAsking(bodies[i])
  }

  lemma {:induction false} TwoAreCounted(cursor: char, bodies: seq<string>)
    ensures ChoiceCount(Numbered(cursor), bodies) >= 1 <==> exists i | 0 <= i < |bodies| :: IsOption(cursor, bodies[i])
    ensures ChoiceCount(Numbered(cursor), bodies) >= 2 <==> TwoOptions(cursor, bodies)
  {
    if bodies != [] {
      var init, n := bodies[..|bodies| - 1], |bodies| - 1;
      TwoAreCounted(cursor, init);
      OptionsAreFound(cursor, bodies[n]);
      assert forall i | 0 <= i < n :: init[i] == bodies[i];
      if TwoOptions(cursor, init) {
        var i, j :| 0 <= i < j < |init| && IsOption(cursor, init[i]) && IsOption(cursor, init[j]);
        assert IsOption(cursor, bodies[i]) && IsOption(cursor, bodies[j]);
      } else if TwoOptions(cursor, bodies) {
        var i, j :| 0 <= i < j < |bodies| && IsOption(cursor, bodies[i]) && IsOption(cursor, bodies[j]);
        assert j == n && IsOption(cursor, init[i]);
      } else if i :| 0 <= i < |init| && IsOption(cursor, init[i]) {
        assert IsOption(cursor, bodies[i]);
      }
    }
  }

  /** What a pass over a menu sees. */
  lemma MenuIs(cursor: char, bodies: seq<string>)
    ensures var seen := Scan(Numbered(cursor), bodies);
      && (seen.choices >= 2 <==> TwoOptions(cursor, bodies))
      && (seen.cursor <==> SomeCursor(cursor, bodies))
      && (seen.asked <==> SomeAsks(bodies))
  {
    var r := Numbered(cursor);
    NumberedSkipsBlanks(cursor);
    ScanIs(r, bodies);
    TwoAreCounted(cursor, bodies);
    forall i | 0 <= i < |bodies|
      ensures r.cursorChoice(bodies[i]) <==> CursorOn(cursor, bodies[i])
      ensures r.question(bodies[i]) <==> EndsAsking(bodies[i])
    {
      OptionsAreFound(cursor, bodies[i]);
    }
  }

  // ---------------------------------------------------------------------- Claude Code

  /** From a to b the line is drawn in rule runes, and the rest of it is blank. */
  predicate RuleSpan(line: string, a: nat, b: nat) {
    && a < b <= |line| && (forall i | a <= i < b :: line[i] == '─' || line[i] == '╌')
    && (forall i | 0 <= i < |line| && !(a <= i < b) :: IsSpace(line[i]))
  }

  ghost predicate DrawnRule(line: string) {
    exists a: nat, b: nat :: RuleSpan(line, a, b)
  }

  lemma AllRuleRunes(s: string)
    ensures Trim(s, IsRuleRune) == "" <==> forall i | 0 <= i < |s| :: s[i] == '─' || s[i] == '╌'
  {
    var a, b := TrimIs(s, IsRuleRune);
    if forall i | 0 <= i < |s| :: s[i] == '─' || s[i] == '╌' {
      assert a < b ==> IsRuleRune(s[a]);
    }
  }

  lemma RuleIsDrawn(line: string)
    requires IsRule(line)
    ensures DrawnRule(line)
  {
    var a, b := TrimIs(line, IsSpace);
    AllRuleRunes(line[a..b]);
    assert forall i | a <= i < b :: line[i] == line[a..b][i - a];
    assert RuleSpan(line, a, b);
  }

  lemma DrawnIsRule(line: string, a: nat, b: nat)
    requires RuleSpan(line, a, b)
    ensures IsRule(line)
  {
    assert TrimsTo(line, IsSpace, a, b);
    TrimIsUnique(line, IsSpace, a, b);
    AllRuleRunes(line[a..b]);
  }

  lemma RulesAreDrawn(line: string)
    ensures IsRule(line) <==> DrawnRule(line)
  {
    if IsRule(line) {
      RuleIsDrawn(line);
    }
    if a: nat, b: nat :| RuleSpan(line, a, b) {
      DrawnIsRule(line, a, b);
    }
  }

  /** Line k is the last rule on the screen. */
  ghost predicate LastRule(lines: seq<string>, k: nat) {
    k < |lines| && DrawnRule(lines[k]) && forall i | k < i < |lines| :: !DrawnRule(lines[i])
  }

  lemma {:induction false} LastIsFound(lines: seq<string>, p: string -> bool) returns (k: nat)
    requires exists i | 0 <= i < |lines| :: p(lines[i])
    ensures k < |lines| && p(lines[k]) && forall i | k < i < |lines| :: !p(lines[i])
  {
    k := |lines| - 1;
    if !p(lines[k]) {
      var init := lines[..|lines| - 1];
      assert exists i | 0 <= i < |init| :: p(init[i]);
      k := LastIsFound(init, p);
      assert forall i | 0 <= i < |init| :: init[i] == lines[i];
    }
  }

  lemma ClaudeRegionIs(screen: string, k: nat)
    requires LastRule(Split(screen, '\n'), k)
    ensures ClaudeRegion(screen) == Some(Split(screen, '\n')[k + 1..])
  {
    var lines := Split(screen, '\n');
    forall i | 0 <= i < |lines|
      ensures IsRule(lines[i]) <==> DrawnRule(lines[i])
    {
      RulesAreDrawn(lines[i]);
    }
    BelowLastIs(lines, IsRule, k);
  }

  lemma ClaudeRegionEnds(screen: string) returns (k: nat)
    requires ClaudeRegion(screen).Some?
    ensures LastRule(Split(screen, '\n'), k)
  {
    var lines := Split(screen, '\n');
    if forall i | 0 <= i < |lines| :: !IsRule(lines[i]) {
      NoneBelow(lines, IsRule);
    }
    k := LastIsFound(lines, IsRule);
    forall i | 0 <= i < |lines|
      ensures IsRule(lines[i]) <==> DrawnRule(lines[i])
    {
      RulesAreDrawn(lines[i]);
    }
  }

  /** A claude screen waits exactly when it has a rule on it and, below the last one, some
      line has the cursor on a number, some line ends in a question mark, and two lines
      are numbered options. */
  ghost predicate ClaudeWaits(lines: seq<string>, k: nat) {
    && LastRule(lines, k)
    && var bodies := Trimmed(lines[k + 1..]);
    SomeCursor('❯', bodies) && SomeAsks(bodies) && TwoOptions('❯', bodies)
  }

  lemma ClaudeDetects(screen: string)
    ensures ClaudeBlocked(screen) <==> exists k: nat :: ClaudeWaits(Split(screen, '\n'), k)
  {
    var lines := Split(screen, '\n');
    if ClaudeBlocked(screen) {
      var k := ClaudeRegionEnds(screen);
      ClaudeRegionIs(screen, k);
      MenuIs('❯', Trimmed(lines[k + 1..]));
      assert ClaudeWaits(lines, k);
    }
    if k: nat :| ClaudeWaits(lines, k) {
      ClaudeRegionIs(screen, k);
      MenuIs('❯', Trimmed(lines[k + 1..]));
    }
  }

  // ------------------------------------------------------------------------------- pi

  /** Two walls, the first on the line and the next after it. */
  predicate Walls(line: string, i: nat, j: nat) {
    && i < j < |line| && line[i] == '│' && line[j] == '│'
    && (forall m | 0 <= m < i :: line[m] != '│') && (forall m | i < m < j :: line[m] != '│')
  }

  lemma SecondPart(head: string, inner: string, rest: string, sep: char)
    requires sep !in head && sep !in inner
    ensures var parts := Split(head + [sep] + (inner + [sep] + rest), sep); |parts| >= 3 && parts[1] == inner
  {
    SplitHead(head, sep, inner + [sep] + rest);
    SplitHead(inner, sep, rest);
  }

  lemma ColumnIs(line: string, i: nat, j: nat)
    requires Walls(line, i, j)
    ensures Column(line) == line[i + 1..j]
  {
    var inner, rest, tail := line[i + 1..j], line[j + 1..], line[i + 1..];
    assert line == line[..i] + ['│'] + tail;
    assert tail == inner + ['│'] + rest;
    SecondPart(line[..i], inner, rest, '│');
  }

  lemma NoColumn(line: string)
    requires forall i, j | 0 <= i < j < |line| :: line[i] != '│' || line[j] != '│'
    ensures Column(line) == ""
  {
    if '│' in line {
      var i := IndexOf(line, '│');
      var rest := line[i + 1..];
      assert forall j | 0 <= j < |rest| :: rest[j] == line[i + 1 + j];
      assert Split(line, '│') == [line[..i]] + Split(rest, '│');
      assert Split(rest, '│') == [rest];
    }
  }

  /** A left corner and, after it, a right one. */
  predicate Cornered(line: string, left: char, right: char) {
    exists i, j | 0 <= i < j < |line| :: line[i] == left && line[j] == right
  }

  /** The bottommost bottom border, and the nearest top border above it. */
  predicate PiBoxAt(lines: seq<string>, top: nat, bottom: nat) {
    && top < bottom < |lines| && Cornered(lines[top], '╭', '╮') && Cornered(lines[bottom], '╰', '╯')
    && (forall i | bottom < i < |lines| :: !Cornered(lines[i], '╰', '╯'))
    && (forall i | top < i < bottom :: !Cornered(lines[i], '╭', '╮'))
  }

  lemma PiBoxIs(screen: string, top: nat, bottom: nat)
    requires PiBoxAt(Split(screen, '\n'), top, bottom)
    ensures PiBox(screen) == Some(Split(screen, '\n')[top + 1..bottom])
  {
    BoxedIs(Split(screen, '\n'), IsTop, IsBottom, top, bottom);
  }

  lemma PiBoxEnds(screen: string) returns (top: nat, bottom: nat)
    requires PiBox(screen).Some?
    ensures PiBoxAt(Split(screen, '\n'), top, bottom)
  {
    var lines := Split(screen, '\n');
    if forall i | 0 <= i < |lines| :: !IsBottom(lines[i]) {
      NoneUp(lines, IsBottom);
    }
    bottom := LastIsFound(lines, IsBottom);
    UpToLastIs(lines, IsBottom, bottom);
    if forall i | 0 <= i < bottom :: !IsTop(lines[..bottom][i]) {
      NoneBelow(lines[..bottom], IsTop);
    }
    top := LastIsFound(lines[..bottom], IsTop);
  }

  ghost predicate PiWaits(lines: seq<string>, top: nat, bottom: nat) {
    && PiBoxAt(lines, top, bottom)
    && var bodies := BodiesOf(Columns(lines[top + 1..bottom]));
    SomeCursor('→', bodies) && TwoOptions('→', bodies)
  }

  /** A pi screen waits exactly when there is a closed box on it and, between the first
      two walls of the bottommost one's lines, one has the cursor on a number and two are
      numbered options, asking or not. */
  lemma PiDetects(screen: string)
    ensures PiBlocked(screen) <==> exists top: nat, bottom: nat :: PiWaits(Split(screen, '\n'), top, bottom)
  {
    var lines := Split(screen, '\n');
    if PiBlocked(screen) {
      var top, bottom := PiBoxEnds(screen);
      PiBoxIs(screen, top, bottom);
      MenuIs('→', BodiesOf(Columns(lines[top + 1..bottom])));
      assert PiWaits(lines, top, bottom);
    }
    if top: nat, bottom: nat :| PiWaits(lines, top, bottom) {
      PiBoxIs(screen, top, bottom);
      MenuIs('→', BodiesOf(Columns(lines[top + 1..bottom])));
    }
  }

  // ------------------------------------------------------------------------- opencode

  /** The line's first character that is not a space is the gutter, at a. */
  predicate GutterAt(line: string, a: nat) {
    a < |line| && line[a] == '┃' && forall i | 0 <= i < a :: line[i] == ' '
  }

  lemma GutteredIs(line: string, a: nat)
    requires GutterAt(line, a)
    ensures Guttered(line) == Some(line[a + 1..])
  {
    TrimLeftAt(line, IsPlainSpace, a);
  }

  lemma GutterIsFound(line: string) returns (a: nat)
    requires Guttered(line).Some?
    ensures GutterAt(line, a)
  {
    TrimLeftIs(line, IsPlainSpace);
    a := |line| - |TrimLeft(line, IsPlainSpace)|;
  }

  predicate IsWord(c: char) {
    '0' <= c <= '9' || 'a' <= c <= 'z' || 'A' <= c <= 'Z' || c == '_'
  }

  /** The words of the title are all of the line but for decoration before them. */
  predicate TitleAt(body: string, n: nat) {
    n <= |body| && body[n..] == "Permission required" && forall i | 0 <= i < n :: !IsWord(body[i])
  }

  lemma TitlesAreHeaders(body: string)
    ensures IsHeader(body) <==> IsTitle(body)
  {
    if IsHeader(body) {
      assert TitleAt(body, |body| - |PERMISSION_REQUIRED|);
    }
    if n: nat :| TitleAt(body, n) {
      assert |body[n..]| == |"Permission required"|;
    }
  }

  /** Lines first to last are the bottommost unbroken run of guttered lines. */
  ghost predicate GutterRun(lines: seq<string>, first: nat, last: nat) {
    && first <= last < |lines|
    && (forall i | first <= i <= last :: HasGutter(lines[i]))
    && (forall i | last < i < |lines| :: !HasGutter(lines[i]))
    && (first > 0 ==> !HasGutter(lines[first - 1]))
  }

  ghost predicate HasGutter(line: string) {
    exists a: nat :: GutterAt(line, a)
  }

  lemma GuttersAreFound(line: string)
    ensures Guttered(line).Some? <==> HasGutter(line)
  {
    if Guttered(line).Some? {
      var a := GutterIsFound(line);
    }
    if a: nat :| GutterAt(line, a) {
      GutteredIs(line, a);
    }
  }

  lemma RunsAreBottomRuns(lines: seq<string>, first: nat, last: nat)
    ensures GutterRun(lines, first, last) <==> IsBottomRun(lines, Guttered, first, last)
  {
    forall i | 0 <= i < |lines|
      ensures Guttered(lines[i]).Some? <==> HasGutter(lines[i])
    {
      GuttersAreFound(lines[i]);
    }
  }

  predicate IsGuttered(line: string) {
    Guttered(line).Some?
  }

  lemma RunIsFound(lines: seq<string>) returns (first: nat, last: nat)
    requires exists i | 0 <= i < |lines| :: IsGuttered(lines[i])
    ensures IsBottomRun(lines, Guttered, first, last)
  {
    last := LastIsFound(lines, IsGuttered);
    first := last;
    while first > 0 && Guttered(lines[first - 1]).Some?
      invariant first <= last && forall i | first <= i <= last :: Guttered(lines[i]).Some?
    {
      first := first - 1;
    }
  }

  /** What a line holds to the right of its gutter. */
  ghost predicate Holds(line: string, rest: string) {
    exists a: nat :: GutterAt(line, a) && line[a + 1..] == rest
  }

  ghost predicate IsTitle(body: string) {
    exists n: nat :: TitleAt(body, n)
  }

  lemma HoldsIs(line: string, rest: string)
    ensures Guttered(line) == Some(rest) <==> Holds(line, rest)
  {
    if Guttered(line) == Some(rest) {
      var a := GutterIsFound(line);
      GutteredIs(line, a);
    }
    if a: nat :| GutterAt(line, a) && line[a + 1..] == rest {
      GutteredIs(line, a);
    }
  }

  /** The bottommost unbroken run of guttered lines begins at first, and holds this. */
  ghost predicate GutterBlockAt(lines: seq<string>, first: nat, block: seq<string>) {
    && block != [] && GutterRun(lines, first, first + |block| - 1)
    && forall i | 0 <= i < |block| :: Holds(lines[first + i], block[i])
  }

  predicate FirstNonBlank(bodies: seq<string>, k: nat) {
    k < |bodies| && bodies[k] != "" && forall i | 0 <= i < k :: bodies[i] == ""
  }

  function FirstNonEmpty(bodies: seq<string>): string {
    if bodies == [] then "" else if bodies[0] != "" then bodies[0] else FirstNonEmpty(bodies[1..])
  }

  lemma FirstNonEmptyNext(first: string, rest: seq<string>)
    ensures FirstNonEmpty([first] + rest) == if first != "" then first else FirstNonEmpty(rest)
  {
    assert ([first] + rest)[1..] == rest;
  }

  lemma TrimmedFirst(block: seq<string>)
    requires block != []
    ensures Trimmed(block)[0] == TrimSpace(block[0]) && Trimmed(block[1..]) == Trimmed(block)[1..]
  {
  }

  lemma TrimmedNext(block: seq<string>)
    requires block != []
    ensures Trimmed(block) == [TrimSpace(block[0])] + Trimmed(block[1..])
  {
    TrimmedFirst(block);
    var all := Trimmed(block);
    assert all == [all[0]] + all[1..];
  }

  lemma {:induction false} FirstContentIsFirst(block: seq<string>)
    ensures FirstContent(block) == FirstNonEmpty(Trimmed(block))
  {
    if block != [] {
      TrimmedNext(block);
      FirstNonEmptyNext(TrimSpace(block[0]), Trimmed(block[1..]));
      FirstContentIsFirst(block[1..]);
    }
  }

  lemma {:induction false} FirstNonEmptyIs(bodies: seq<string>, k: nat)
    requires FirstNonBlank(bodies, k)
    ensures FirstNonEmpty(bodies) == bodies[k]
  {
    if k > 0 {
      FirstNonEmptyIs(bodies[1..], k - 1);
    }
  }

  lemma FirstContentIs(block: seq<string>, k: nat)
    requires FirstNonBlank(Trimmed(block), k)
    ensures FirstContent(block) == Trimmed(block)[k]
  {
    FirstContentIsFirst(block);
    FirstNonEmptyIs(Trimmed(block), k);
  }

  lemma {:induction false} AllBlank(bodies: seq<string>)
    requires forall i | 0 <= i < |bodies| :: bodies[i] == ""
    ensures FirstNonEmpty(bodies) == ""
  {
    if bodies != [] {
      AllBlank(bodies[1..]);
    }
  }

  lemma NoContent(block: seq<string>)
    requires forall i | 0 <= i < |block| :: Trimmed(block)[i] == ""
    ensures FirstContent(block) == ""
  {
    FirstContentIsFirst(block);
    AllBlank(Trimmed(block));
  }

  lemma {:induction false} FirstIsFound(bodies: seq<string>) returns (k: nat)
    requires exists i | 0 <= i < |bodies| :: bodies[i] != ""
    ensures FirstNonBlank(bodies, k)
  {
    k := 0;
    if bodies[0] == "" {
      var rest := bodies[1..];
      assert forall i | 0 < i < |bodies| :: bodies[i] == rest[i - 1];
      k := FirstIsFound(rest);
      k := k + 1;
    }
  }

  lemma BlockIs(screen: string, first: nat, block: seq<string>)
    requires GutterBlockAt(Split(screen, '\n'), first, block)
    ensures BottomBlock(Split(screen, '\n'), Guttered) == block
  {
    var lines := Split(screen, '\n');
    RunsAreBottomRuns(lines, first, first + |block| - 1);
    BottomBlockIs(lines, Guttered, first, first + |block| - 1);
    forall i | 0 <= i < |block|
      ensures Guttered(lines[first + i]) == Some(block[i])
    {
      HoldsIs(lines[first + i], block[i]);
    }
    StrippedIsUnique(block, BottomBlock(lines, Guttered), lines, Guttered, first);
  }

  lemma BlockIsFound(screen: string) returns (first: nat)
    requires BottomBlock(Split(screen, '\n'), Guttered) != []
    ensures GutterBlockAt(Split(screen, '\n'), first, BottomBlock(Split(screen, '\n'), Guttered))
  {
    var lines := Split(screen, '\n');
    var block := BottomBlock(lines, Guttered);
    if forall i | 0 <= i < |lines| :: !IsGuttered(lines[i]) {
      NoBlock(lines, Guttered);
    }
    var last;
    first, last := RunIsFound(lines);
    RunsAreBottomRuns(lines, first, last);
    BottomBlockIs(lines, Guttered, first, last);
    forall i | 0 <= i < |block|
      ensures Holds(lines[first + i], block[i])
    {
      HoldsIs(lines[first + i], block[i]);
    }
  }

  /** The first line of the bottommost block that is not blank is the title. */
  ghost predicate OpencodeWaits(lines: seq<string>, first: nat, block: seq<string>, k: nat) {
    GutterBlockAt(lines, first, block) && FirstNonBlank(Trimmed(block), k) && IsTitle(Trimmed(block)[k])
  }

  lemma HeadersAreFirst(block: seq<string>) returns (k: nat)
    requires IsHeader(FirstContent(block))
    ensures FirstNonBlank(Trimmed(block), k) && IsTitle(Trimmed(block)[k])
  {
    TitlesAreHeaders(FirstContent(block));
    if forall i | 0 <= i < |block| :: Trimmed(block)[i] == "" {
      NoContent(block);
    }
    k := FirstIsFound(Trimmed(block));
    FirstContentIs(block, k);
  }

  /** An opencode screen waits exactly when the title is the first thing said in the
      bottommost block of guttered lines. */
  lemma OpencodeDetects(screen: string)
    ensures OpencodeBlocked(screen)
      <==> exists first: nat, block: seq<string>, k: nat :: OpencodeWaits(Split(screen, '\n'), first, block, k)
  {
    var lines := Split(screen, '\n');
    if OpencodeBlocked(screen) {
      var block := BottomBlock(lines, Guttered);
      var k := HeadersAreFirst(block);
      var first := BlockIsFound(screen);
      assert OpencodeWaits(lines, first, block, k);
    }
    if first: nat, block: seq<string>, k: nat :| OpencodeWaits(lines, first, block, k) {
      BlockIs(screen, first, block);
      FirstContentIs(block, k);
      TitlesAreHeaders(Trimmed(block)[k]);
    }
  }

  // ------------------------------------------------------------------ what is quoted

  predicate IsGap(c: char) {
    c == ' ' || c == '\t' || c == '\n' || c == '\r' || c == '\U{0C}'
  }

  /** An arrow, a gap, and from a on the request. */
  predicate RequestAt(body: string, a: nat) {
    && 1 < a < |body| && body[0] == '→' && (forall i | 1 <= i < a :: IsGap(body[i])) && !IsGap(body[a])
  }

  ghost predicate IsRequest(body: string) {
    exists a: nat :: RequestAt(body, a)
  }

  lemma RequestIs(body: string, a: nat)
    requires RequestAt(body, a)
    ensures Requested(body) == Some(body[a..])
  {
    var rest := body[1..];
    assert forall i | 0 <= i < a - 1 :: rest[i] == body[i + 1];
    TrimLeftAt(rest, IsRegexSpace, a - 1);
  }

  lemma RequestsAreFound(body: string)
    ensures Requested(body).Some? <==> IsRequest(body)
  {
    if Requested(body).Some? {
      var rest := body[1..];
      TrimLeftIs(rest, IsRegexSpace);
      var a := |body| - |TrimLeft(rest, IsRegexSpace)|;
      assert forall i | 1 <= i < a :: body[i] == rest[i - 1];
      assert RequestAt(body, a);
    }
    if a: nat :| RequestAt(body, a) {
      RequestIs(body, a);
    }
  }

  /** What each line of a block requests. */
  function RequestsOf(block: seq<string>): (found: seq<Option<string>>)
    ensures |found| == |block|
  {
    if block == [] then [] else [Requested(TrimSpace(block[0]))] + RequestsOf(block[1..])
  }

  lemma {:induction false} RequestsAt(block: seq<string>, i: nat)
    requires i < |block|
    ensures RequestsOf(block)[i] == Requested(Trimmed(block)[i])
  {
    if i > 0 {
      RequestsAt(block[1..], i - 1);
    }
  }

  function FirstSome(found: seq<Option<string>>): Option<string> {
    if found == [] then None else if found[0].Some? then found[0] else FirstSome(found[1..])
  }

  lemma FirstSomeNext(first: Option<string>, rest: seq<Option<string>>)
    ensures FirstSome([first] + rest) == if first.Some? then first else FirstSome(rest)
  {
    assert ([first] + rest)[1..] == rest;
  }

  lemma {:induction false} FirstRequestIsFirst(block: seq<string>)
    ensures FirstRequest(block) == FirstSome(RequestsOf(block))
  {
    if block != [] {
      FirstSomeNext(Requested(TrimSpace(block[0])), RequestsOf(block[1..]));
      FirstRequestIsFirst(block[1..]);
    }
  }

  lemma {:induction false} FirstSomeIs(found: seq<Option<string>>, k: nat)
    requires k <= |found| && (k < |found| ==> found[k].Some?) && forall i | 0 <= i < k :: found[i].None?
    ensures FirstSome(found) == if k < |found| then found[k] else None
  {
    if k > 0 {
      FirstSomeIs(found[1..], k - 1);
    }
  }

  /** What opencode's dialog is quoted as: the first request in its block, without the
      arrow, and nothing when the block has no request. */
  lemma OpencodeQuotes(screen: string, first: nat, block: seq<string>, k: nat, a: nat)
    requires GutterBlockAt(Split(screen, '\n'), first, block)
    requires k <= |block| && (forall i | 0 <= i < k :: !IsRequest(Trimmed(block)[i]))
    requires k < |block| ==> RequestAt(Trimmed(block)[k], a)
    ensures OpencodeQuestion(screen) == if k < |block| then Some(Question(Trimmed(block)[k][a..], [])) else None
  {
    BlockIs(screen, first, block);
    forall i | 0 <= i < k
      ensures RequestsOf(block)[i].None?
    {
      RequestsAt(block, i);
      RequestsAreFound(Trimmed(block)[i]);
    }
    if k < |block| {
      RequestsAt(block, k);
      RequestIs(Trimmed(block)[k], a);
    }
    FirstRequestIsFirst(block);
    FirstSomeIs(RequestsOf(block), k);
  }

  /** What claude's and pi's dialogs are quoted as: the nearest line above the first
      option that ends in a question mark, ... */
  predicate AsksAt(bodies: seq<string>, i: nat, n: nat) {
    i < n <= |bodies| && EndsAsking(bodies[i]) && forall j | i < j < n :: !EndsAsking(bodies[j])
  }

  lemma {:induction false} NearestAsks(cursor: char, bodies: seq<string>, i: nat, n: nat)
    requires AsksAt(bodies, i, n)
    ensures AskedAbove(Numbered(cursor), bodies, n) == Some(bodies[i])
    decreases n
  {
    if i < n - 1 {
      NearestAsks(cursor, bodies, i, n - 1);
    }
  }

  /** Line n is the first option. */
  ghost predicate FirstOptionAt(cursor: char, bodies: seq<string>, n: nat) {
    n < |bodies| && IsOption(cursor, bodies[n]) && forall i | 0 <= i < n :: !IsOption(cursor, bodies[i])
  }

  lemma FirstOptionIs(cursor: char, bodies: seq<string>, n: nat)
    requires FirstOptionAt(cursor, bodies, n)
    ensures FirstChoice(Numbered(cursor), bodies) == n
  {
    forall i | 0 <= i <= n
      ensures Numbered(cursor).choice(bodies[i]).Some? <==> IsOption(cursor, bodies[i])
    {
      OptionsAreFound(cursor, bodies[i]);
    }
  }

  /** ... with every option there is. */
  lemma MenuQuotes(cursor: char, lines: seq<Line>, n: nat, i: nat)
    requires FirstOptionAt(cursor, BodiesOf(lines), n) && TwoOptions(cursor, BodiesOf(lines))
    requires AsksAt(BodiesOf(lines), i, n)
    ensures Extract(Numbered(cursor), CLEAN, lines)
      == Some(Question(lines[i].body, ReadOptions(Numbered(cursor), CLEAN, lines).choices))
  {
    var bodies := BodiesOf(lines);
    SameOptions(Numbered(cursor), CLEAN, lines);
    FirstOptionIs(cursor, bodies, n);
    NearestAsks(cursor, bodies, i, n);
    TwoAreCounted(cursor, bodies);
  }

  /** The text of the option on this line starts at a. */
  predicate TextAt(cursor: char, s: string, a: nat) {
    || (a > 2 && NumberAt(s, a - 2))
    || (a > 4 && |s| >= 2 && s[0] == cursor && s[1] == ' ' && NumberAt(s[2..], a - 4))
  }

  lemma TextIs(cursor: char, s: string, a: nat)
    requires TextAt(cursor, s, a) && !('0' <= cursor <= '9')
    ensures a <= |s| && AfterChoice(cursor, s) == Some(s[a..])
  {
    if a > 2 && NumberAt(s, a - 2) {
      OptionText(cursor, s, a - 2);
    } else {
      OptionText(cursor, s, a - 4);
    }
  }

  /** The option on line p runs on to line q: its text, and the lines that line up under
      it. */
  ghost predicate OptionLines(cursor: char, lines: seq<Line>, p: nat, q: nat, a: nat) {
    && p < q <= |lines| && TextAt(cursor, lines[p].body, a) && lines[p].indent + a >= 0
    && (forall i | p < i < q :: !IsOption(cursor, lines[i].body) && lines[i].indent >= lines[p].indent + a)
    && (q < |lines| ==> IsOption(cursor, lines[q].body) || lines[q].indent < lines[p].indent + a)
  }

  lemma LinesAreASpan(cursor: char, lines: seq<Line>, p: nat, q: nat, a: nat)
    requires OptionLines(cursor, lines, p, q, a) && !('0' <= cursor <= '9')
    ensures a <= |lines[p].body|
    ensures OptionSpan(Numbered(cursor), lines, p, q, lines[p].body[a..], lines[p].indent + a)
  {
    TextIs(cursor, lines[p].body, a);
    forall i | 0 <= i < |lines|
      ensures Numbered(cursor).choice(lines[i].body).Some? <==> IsOption(cursor, lines[i].body)
    {
      OptionsAreFound(cursor, lines[i].body);
    }
  }

  /** Every option is quoted as that text, wherever the cursor is. */
  lemma NumberedOptionIs(cursor: char, lines: seq<Line>, p: nat, q: nat, a: nat)
    requires OptionLines(cursor, lines, p, q, a) && !('0' <= cursor <= '9')
    ensures a <= |lines[p].body|
    ensures var choices, k := ReadOptions(Numbered(cursor), CLEAN, lines).choices, ChoiceCount(Numbered(cursor), BodiesOf(lines)[..p]);
      k < |choices| && choices[k] == Wrapped(CLEAN, lines[p].body[a..], BodiesOf(lines)[p + 1..q])
  {
    LinesAreASpan(cursor, lines, p, q, a);
    OptionIs(Numbered(cursor), CLEAN, lines, p, q, lines[p].body[a..], lines[p].indent + a);
  }
}
