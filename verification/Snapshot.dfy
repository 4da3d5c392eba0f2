/** The batched read (internal/tmux/snapshot.go, internal/tmux/client.go,
    internal/tmux/report.go): four blocks of tagged lines come out of one tmux
    invocation, each parser takes its own lines, and one row is left per pane. */
module Snapshot {
  import opened Prelude
  import opened Text
  import opened Sorting

  const SEP := '\U{1F}'
  const SNAPSHOT_TAG := "S"
  const REPORT_TAG := "A"
  const PATH_TAG := "P"
  const START_TAG := "G"
  const FIELD_COUNT := 15
  const MAX_TITLE := 256
  const MAX_LABEL := 128

  datatype Row = Row(groupKey: string, sessionID: string, sessionName: string, paneID: string, paneIndex: int,
                     appOwned: bool, windowID: string, windowIndex: int, windowName: string, paneActive: bool,
                     command: string, title: string, paneMode: string, labelText: string, path: string)

  // -------------------------------------------------------------------- cleaning

  /** The longest run of whole runes at the front of s that fits in max bytes. */
  function Clipped(s: string, max: nat): (r: string)
    ensures r <= s && Bytes(r) <= max
    ensures r != s ==> Bytes(r) + RuneBytes(s[|r|]) > max
  {
    if s == [] || RuneBytes(s[0]) > max then []
    else
      assert s == [s[0]] + s[1..];
      [s[0]] + Clipped(s[1..], max - RuneBytes(s[0]))
  }

  function Plain(c: char): char {
    if IsControl(c) then ' ' else c
  }

  function PlainText(s: string): (r: string)
    ensures |r| == |s| && forall i | 0 <= i < |s| :: r[i] == Plain(s[i])
  {
    if s == [] then [] else PlainText(s[..|s| - 1]) + [Plain(s[|s| - 1])]
  }

  function LabelOf(s: string): string {
    TrimSpace(PlainText(Take(s, MAX_LABEL)))
  }

  method SanitizeLabel(s: string) returns (labelText: string)
    ensures labelText == LabelOf(s)
  {
    var b := "";
    var runes := 0;
    for i := 0 to |s|
      invariant runes == |b| == Min(i, MAX_LABEL)
      invariant b == PlainText(Take(s[..i], MAX_LABEL))
    {
      if runes == MAX_LABEL {
        assert Take(s[..i], MAX_LABEL) == Take(s, MAX_LABEL);
        break;
      }
      assert s[..i + 1][..i] == s[..i];
      b := b + [Plain(s[i])];
      runes := runes + 1;
    }
    assert s[..|s|] == s;
    labelText := TrimSpace(b);
  }

  function Min(a: nat, b: nat): nat {
    if a <= b then a else b
  }

  /** A label is safe to show, whatever was stored, and cleaning it again changes
      nothing. */
  lemma LabelIsSafe(s: string)
    ensures |LabelOf(s)| <= MAX_LABEL && (forall c | c in LabelOf(s) :: !IsControl(c))
    ensures LabelOf(LabelOf(s)) == LabelOf(s)
  {
    var plain := PlainText(Take(s, MAX_LABEL));
    assert forall i | 0 <= i < |plain| :: !IsControl(plain[i]);
    TrimSpaceKeeps(plain);
    SafeIsKept(LabelOf(s));
  }

  lemma SafeIsKept(t: string)
    requires |t| <= MAX_LABEL && (forall c | c in t :: !IsControl(c)) && TrimSpace(t) == t
    ensures LabelOf(t) == t
  {
    assert PlainText(t) == t by {
      assert forall i | 0 <= i < |t| :: t[i] in t;
    }
  }

  /** What a label is: the stored text's first 128 runes, each control a space, without
      the blanks at either end. */
  lemma LabelIs(s: string) returns (a: nat, b: nat)
    ensures a <= b <= |s| && b <= 128 && |LabelOf(s)| == b - a
    ensures forall i | a <= i < b :: LabelOf(s)[i - a] == if IsControl(s[i]) then ' ' else s[i]
    ensures forall i | 0 <= i < |s| && i < 128 && !(a <= i < b) :: IsBlank(s[i])
    ensures a < b ==> !IsBlank(s[a]) && !IsBlank(s[b - 1])
  {
    var plain := PlainText(Take(s, 128));
    a, b := TrimIs(plain, IsSpace);
    forall i | 0 <= i < |plain|
      ensures plain[i] == (if IsControl(s[i]) then ' ' else s[i]) && (IsSpace(plain[i]) <==> IsBlank(s[i]))
    {
    }
    assert LabelOf(s) == plain[a..b];
  }

  // --------------------------------------------------------------------- the parsers

  /** What one line is to ParseRows. */
  datatype Parsed = Other | Malformed | Pane(row: Row)

  function RowFrom(fields: seq<string>, paneIndex: int, windowIndex: int): Row
    requires |fields| >= FIELD_COUNT
  {
    Row(fields[1], fields[2], fields[3], fields[4], paneIndex, fields[6] == "1", fields[7], windowIndex, fields[9],
        fields[10] == "1", fields[11], Clipped(fields[12], MAX_TITLE), fields[13],
        LabelOf(Join(fields[FIELD_COUNT - 1..], SEP)), "")
  }

  /** The tag decides, and then the count: a line of another block is nobody's loss, and
      surplus separators belong to the label. */
  function ParseFields(fields: seq<string>): Parsed
    requires fields != []
  {
    if fields[0] == REPORT_TAG || fields[0] == PATH_TAG || fields[0] == START_TAG then Other
    else if |fields| < FIELD_COUNT || fields[0] != SNAPSHOT_TAG then Malformed
    else
      var paneIndex, windowIndex := Atoi(fields[5]), Atoi(fields[8]);
      if paneIndex.None? || windowIndex.None? then Malformed
      else Pane(RowFrom(fields, paneIndex.value, windowIndex.value))
  }

  function ParseLine(line: string): Parsed {
    ParseFields(Split(line, SEP))
  }

  function RowsOf(lines: seq<string>): seq<Row> {
    if lines == [] then []
    else
      var p := ParseLine(lines[|lines| - 1]);
      RowsOf(lines[..|lines| - 1]) + if p.Pane? then [p.row] else []
  }

  function DroppedOf(lines: seq<string>): nat {
    if lines == [] then 0
    else DroppedOf(lines[..|lines| - 1]) + if ParseLine(lines[|lines| - 1]).Malformed? then 1 else 0
  }

  /** Which lines are dropped: those of no other block that have fewer than fifteen fields,
      are not tagged as a pane, or hold something else where a position should be. */
  lemma MalformedIs(line: string)
    ensures var fields := Split(line, '\U{1F}');
      ParseLine(line).Malformed?
      <==> fields[0] !in {"A", "P", "G"}
           && (|fields| < 15 || fields[0] != "S" || Atoi(fields[5]).None? || Atoi(fields[8]).None?)
  {
  }

  lemma DroppedSnoc(lines: seq<string>, line: string)
    ensures DroppedOf(lines + [line]) == DroppedOf(lines) + if ParseLine(line).Malformed? then 1 else 0
  {
    assert (lines + [line])[..|lines|] == lines;
  }

  lemma OneMoreAddsUp(a: seq<string>, b: seq<string>, line: string)
    requires DroppedOf(a + b) == DroppedOf(a) + DroppedOf(b)
    ensures DroppedOf(a + (b + [line])) == DroppedOf(a) + DroppedOf(b + [line])
  {
    DroppedSnoc(a + b, line);
    DroppedSnoc(b, line);
    assert a + (b + [line]) == (a + b) + [line];
  }

  lemma {:induction false} DroppedAddUp(a: seq<string>, b: seq<string>)
    ensures DroppedOf(a + b) == DroppedOf(a) + DroppedOf(b)
    decreases |b|
  {
    if b == [] {
      assert a + b == a;
    } else {
      var init := b[..|b| - 1];
      DroppedAddUp(a, init);
      OneMoreAddsUp(a, init, b[|b| - 1]);
      assert b == init + [b[|b| - 1]];
    }
  }

  lemma OneIsDropped(line: string)
    ensures DroppedOf([line]) == if ParseLine(line).Malformed? then 1 else 0
  {
    DroppedSnoc([], line);
    assert [] + [line] == [line];
  }

  function TrimNewline(out: string): string {
    if out != "" && out[|out| - 1] == '\n' then out[..|out| - 1] else out
  }

  /** strings.TrimSuffix: one newline at the end, if there is one. */
  lemma OneNewlineGoes(out: string)
    ensures TrimNewline(out + "\n") == out
    ensures out == "" || out[|out| - 1] != '\n' ==> TrimNewline(out) == out
  {
    assert (out + "\n")[..|out|] == out;
  }

  /** The lines the parsers walk. */
  function LinesOf(out: string): (lines: seq<string>)
    ensures lines != []
  {
    Split(TrimNewline(out), '\n')
  }

  function ReadRows(out: string): (seq<Row>, nat) {
    if TrimNewline(out) == "" then ([], 0) else (RowsOf(LinesOf(out)), DroppedOf(LinesOf(out)))
  }

  method ParseRows(out: string) returns (rows: seq<Row>, dropped: nat)
    ensures (rows, dropped) == ReadRows(out)
  {
    rows, dropped := [], 0;
    if TrimNewline(out) == "" {
      return;
    }
    var lines := LinesOf(out);
    for i := 0 to |lines|
      invariant rows == RowsOf(lines[..i]) && dropped == DroppedOf(lines[..i])
    {
      assert lines[..i + 1][..i] == lines[..i];
      match ParseLine(lines[i]) {
        case Other =>
        case Malformed => dropped := dropped + 1;
        case Pane(row) => rows := rows + [row];
      }
    }
    assert lines[..|lines|] == lines;
  }

  /** One line of a block keyed by pane, if it is this block's. */
  function ParseValue(tag: string, line: string): Option<(string, string)> {
    var parts := SplitN(line, SEP, 3);
    if |parts| != 3 || parts[0] != tag then None else Some((parts[1], parts[2]))
  }

  /** ParseReports and ParsePaths, which differ only in their tag: the last value each
      pane has a line for. */
  function ValuesOf(tag: string, lines: seq<string>): map<string, string> {
    if lines == [] then map[]
    else
      var before := ValuesOf(tag, lines[..|lines| - 1]);
      var value := ParseValue(tag, lines[|lines| - 1]);
      if value.None? then before else before[value.value.0 := value.value.1]
  }

  method ParseValues(tag: string, out: string) returns (values: map<string, string>)
    ensures values == ValuesOf(tag, LinesOf(out))
  {
    values := map[];
    var lines := LinesOf(out);
    for i := 0 to |lines|
      invariant values == ValuesOf(tag, lines[..i])
    {
      assert lines[..i + 1][..i] == lines[..i];
      var value := ParseValue(tag, lines[i]);
      if value.None? {
        continue;
      }
      values := values[value.value.0 := value.value.1];
    }
    assert lines[..|lines|] == lines;
  }

  /** strings.Cut at the first separator. */
  function Cut(line: string): Option<(string, string)> {
    if SEP !in line then None
    else
      var i := IndexOf(line, SEP);
      Some((line[..i], line[i + 1..]))
  }

  function StartOf(lines: seq<string>): Option<string> {
    if lines == [] then None
    else
      var cut := Cut(lines[0]);
      if cut.Some? && cut.value.0 == START_TAG then Some(TrimSpace(cut.value.1)) else StartOf(lines[1..])
  }

  lemma StartStep(lines: seq<string>, i: nat)
    requires i < |lines|
    ensures var cut := Cut(lines[i]);
      StartOf(lines[i..]) == if cut.Some? && cut.value.0 == START_TAG then Some(TrimSpace(cut.value.1)) else StartOf(lines[i + 1..])
  {
    assert lines[i..][1..] == lines[i + 1..];
  }

  method ParseServerStart(out: string) returns (start: Option<string>)
    ensures start == StartOf(LinesOf(out))
  {
    var lines := LinesOf(out);
    for i := 0 to |lines|
      invariant StartOf(lines) == StartOf(lines[i..])
    {
      StartStep(lines, i);
      var cut := Cut(lines[i]);
      if cut.None? || cut.value.0 != START_TAG {
        continue;
      }
      return Some(TrimSpace(cut.value.1));
    }
    return None;
  }

  // ----------------------------------------------------------------- what tmux prints

  /** A pane as tmux expands its format: text in every slot but the two positions. */
  datatype Record = Record(groupKey: string, sessionID: string, sessionName: string, paneID: string, paneIndex: int,
                           owned: string, windowID: string, windowIndex: int, windowName: string, active: string,
                           command: string, title: string, paneMode: string, labelText: string)

  /** One line of the batched read, whichever block it is in. */
  datatype Line =
    | PaneLine(pane: Record)
    | ReportLine(paneID: string, report: string)
    | PathLine(paneID: string, path: string)
    | StartLine(generation: string)

  /** The fourteen fields before a pane's label. */
  function Fields(r: Record): (fields: seq<string>)
    ensures |fields| == FIELD_COUNT - 1
  {
    [SNAPSHOT_TAG, r.groupKey, r.sessionID, r.sessionName, r.paneID, FormatInt(r.paneIndex), r.owned, r.windowID,
     FormatInt(r.windowIndex), r.windowName, r.active, r.command, r.title, r.paneMode]
  }

  function Printed(l: Line): string {
    match l
    case PaneLine(r) => Join(Fields(r) + [r.labelText], SEP)
    case ReportLine(id, report) => REPORT_TAG + [SEP] + (id + [SEP] + report)
    case PathLine(id, path) => PATH_TAG + [SEP] + (id + [SEP] + path)
    case StartLine(generation) => START_TAG + [SEP] + generation
  }

  /** The tags, and the separator after them. */
  lemma TagsAre(l: Line)
    ensures "S\U{1F}" <= Printed(l) <==> l.PaneLine?
    ensures "A\U{1F}" <= Printed(l) <==> l.ReportLine?
    ensures "P\U{1F}" <= Printed(l) <==> l.PathLine?
    ensures "G\U{1F}" <= Printed(l) <==> l.StartLine?
  {
    var rest := PrintedTag(l);
    assert Printed(l)[0] == TagOf(l)[0] && Printed(l)[1] == SEP;
  }

  function PrintedLines(ls: seq<Line>): (r: seq<string>)
    ensures |r| == |ls|
  {
    if ls == [] then [] else PrintedLines(ls[..|ls| - 1]) + [Printed(ls[|ls| - 1])]
  }

  function Output(ls: seq<Line>): string {
    if ls == [] then "" else Join(PrintedLines(ls), '\n') + "\n"
  }

  /** tmux leaves no newline in any field, and a separator at most in the last one. */
  predicate Clean(s: string) {
    SEP !in s && '\n' !in s
  }

  predicate WellFormed(l: Line) {
    match l
    case PaneLine(r) =>
      && (forall i | 0 <= i < |Fields(r)| :: Clean(Fields(r)[i])) && '\n' !in r.labelText
      && -MAX_INT - 1 <= r.paneIndex <= MAX_INT && -MAX_INT - 1 <= r.windowIndex <= MAX_INT
    case ReportLine(id, report) => Clean(id) && '\n' !in report
    case PathLine(id, path) => Clean(id) && '\n' !in path
    case StartLine(generation) => '\n' !in generation
  }

  /** The row a pane's own record makes. */
  function RowFor(r: Record): Row {
    Row(r.groupKey, r.sessionID, r.sessionName, r.paneID, r.paneIndex, r.owned == "1", r.windowID, r.windowIndex,
        r.windowName, r.active == "1", r.command, Clipped(r.title, MAX_TITLE), r.paneMode, LabelOf(r.labelText), "")
  }

  // -------------------------------------------------------- taking the blocks apart

  lemma JoinTwo(head: string, rest: seq<string>, sep: char)
    requires rest != []
    ensures Join([head] + rest, sep) == head + [sep] + Join(rest, sep)
  {
    assert ([head] + rest)[1..] == rest;
  }

  lemma Regroup(s: seq<string>, more: seq<string>)
    requires s != []
    ensures [s[0]] + (s[1..] + more) == s + more
  {
  }

  /** Splitting fields that were joined gives them back, the last one in the pieces its
      own separators make of it. */
  lemma {:induction false} SplitFields(fields: seq<string>, last: string)
    requires forall i | 0 <= i < |fields| :: SEP !in fields[i]
    ensures Split(Join(fields + [last], SEP), SEP) == fields + Split(last, SEP)
  {
    if fields == [] {
      assert fields + [last] == [last];
    } else {
      var rest := fields[1..] + [last];
      assert fields + [last] == [fields[0]] + rest;
      JoinTwo(fields[0], rest, SEP);
      SplitHead(fields[0], SEP, Join(rest, SEP));
      SplitFields(fields[1..], last);
      Regroup(fields, Split(last, SEP));
    }
  }

  /** The fields of a record, read back one by one. */
  predicate Carries(all: seq<string>, r: Record) {
    && |all| >= FIELD_COUNT
    && (forall i | 0 <= i < FIELD_COUNT - 1 :: all[i] == Fields(r)[i])
    && Join(all[FIELD_COUNT - 1..], SEP) == r.labelText
  }

  lemma RowIsCarried(r: Record, all: seq<string>)
    requires Carries(all, r)
    ensures RowFrom(all, r.paneIndex, r.windowIndex) == RowFor(r)
  {
    assert all[1] == r.groupKey && all[2] == r.sessionID && all[3] == r.sessionName;
    assert all[4] == r.paneID && all[6] == r.owned && all[7] == r.windowID;
    assert all[9] == r.windowName && all[10] == r.active;
    assert all[11] == r.command && all[12] == r.title && all[13] == r.paneMode;
  }

  lemma FieldsParse(r: Record, all: seq<string>)
    requires WellFormed(PaneLine(r)) && Carries(all, r)
    ensures ParseFields(all) == Pane(RowFrom(all, r.paneIndex, r.windowIndex))
  {
    AtoiFormat(r.paneIndex);
    AtoiFormat(r.windowIndex);
    assert all[0] == Fields(r)[0] && all[5] == Fields(r)[5] && all[8] == Fields(r)[8];
    assert SNAPSHOT_TAG[0] == 'S' && REPORT_TAG[0] == 'A' && PATH_TAG[0] == 'P' && START_TAG[0] == 'G';
  }

  /** A pane's own line makes its own row: a separator in the label is put back where it
      was and moves no other field. */
  lemma PaneLineParses(r: Record)
    requires WellFormed(PaneLine(r))
    ensures ParseLine(Printed(PaneLine(r))) == Pane(RowFor(r))
  {
    var fields, pieces := Fields(r), Split(r.labelText, SEP);
    SplitFields(fields, r.labelText);
    JoinSplit(r.labelText, SEP);
    assert (fields + pieces)[FIELD_COUNT - 1..] == pieces;
    FieldsParse(r, fields + pieces);
    RowIsCarried(r, fields + pieces);
  }

  /** Of its title a row keeps as many whole runes as fit in 256 bytes. */
  lemma TitleFits(r: Record)
    ensures var title := RowFor(r).title;
      && title <= r.title && Bytes(title) <= 256
      && (title != r.title ==> Bytes(title) + RuneBytes(r.title[|title|]) > 256)
  {
  }

  lemma TaggedLine(tag: string, rest: string, n: nat)
    requires SEP !in tag && n > 1
    ensures Split(tag + [SEP] + rest, SEP)[0] == tag && SplitN(tag + [SEP] + rest, SEP, n)[0] == tag
    ensures Cut(tag + [SEP] + rest) == Some((tag, rest))
  {
    var line := tag + [SEP] + rest;
    SplitHead(tag, SEP, rest);
    SplitNHead(tag, SEP, rest, n);
    assert line[..|tag|] == tag && line[|tag| + 1..] == rest;
    IndexOfFirst(line, SEP, |tag|);
  }

  function TagOf(l: Line): string {
    match l
    case PaneLine(_) => SNAPSHOT_TAG
    case ReportLine(_, _) => REPORT_TAG
    case PathLine(_, _) => PATH_TAG
    case StartLine(_) => START_TAG
  }

  /** Every line begins with its block's tag and a separator. */
  lemma PrintedTag(l: Line) returns (rest: string)
    ensures Printed(l) == TagOf(l) + [SEP] + rest
  {
    match l
    case PaneLine(r) =>
      var more := Fields(r)[1..] + [r.labelText];
      assert Fields(r) + [r.labelText] == [SNAPSHOT_TAG] + more;
      JoinTwo(SNAPSHOT_TAG, more, SEP);
      rest := Join(more, SEP);
    case ReportLine(id, report) => rest := id + [SEP] + report;
    case PathLine(id, path) => rest := id + [SEP] + path;
    case StartLine(generation) => rest := generation;
  }

  /** No other block's line is a row, or counts as a bad one. */
  lemma OtherLineParses(l: Line)
    requires !l.PaneLine?
    ensures ParseLine(Printed(l)) == Other
  {
    var rest := PrintedTag(l);
    TaggedLine(TagOf(l), rest, 3);
  }

  lemma ValueLineParses(tag: string, id: string, value: string)
    requires SEP !in tag && SEP !in id
    ensures ParseValue(tag, tag + [SEP] + (id + [SEP] + value)) == Some((id, value))
  {
    SplitNHead(id, SEP, value, 2);
    SplitNHead(tag, SEP, id + [SEP] + value, 3);
  }

  lemma OtherValueParses(tag: string, l: Line)
    requires TagOf(l) != tag
    ensures ParseValue(tag, Printed(l)) == None
  {
    var rest := PrintedTag(l);
    TaggedLine(TagOf(l), rest, 3);
  }

  lemma StartLineParses(l: Line)
    ensures var cut := Cut(Printed(l));
      cut.Some? && cut.value.0 == TagOf(l) && (l.StartLine? ==> cut.value.1 == l.generation)
  {
    var rest := PrintedTag(l);
    TaggedLine(TagOf(l), rest, 3);
    if l.StartLine? {
      TaggedLine(START_TAG, l.generation, 3);
    }
  }

  // ------------------------------------------------- what each parser recovers, and that is all

  function PanesIn(ls: seq<Line>): seq<Row> {
    if ls == [] then []
    else
      var before, l := PanesIn(ls[..|ls| - 1]), ls[|ls| - 1];
      if l.PaneLine? then before + [RowFor(l.pane)] else before
  }

  function ReportsIn(ls: seq<Line>): map<string, string> {
    if ls == [] then map[]
    else
      var before, l := ReportsIn(ls[..|ls| - 1]), ls[|ls| - 1];
      if l.ReportLine? then before[l.paneID := l.report] else before
  }

  function PathsIn(ls: seq<Line>): map<string, string> {
    if ls == [] then map[]
    else
      var before, l := PathsIn(ls[..|ls| - 1]), ls[|ls| - 1];
      if l.PathLine? then before[l.paneID := l.path] else before
  }

  function GenerationIn(ls: seq<Line>): Option<string> {
    if ls == [] then None
    else if ls[0].StartLine? then Some(TrimSpace(ls[0].generation))
    else GenerationIn(ls[1..])
  }

  lemma LineParses(l: Line)
    requires WellFormed(l)
    ensures ParseLine(Printed(l)) == if l.PaneLine? then Pane(RowFor(l.pane)) else Other
    ensures ParseValue(REPORT_TAG, Printed(l)) == if l.ReportLine? then Some((l.paneID, l.report)) else None
    ensures ParseValue(PATH_TAG, Printed(l)) == if l.PathLine? then Some((l.paneID, l.path)) else None
  {
    match l
    case PaneLine(r) =>
      PaneLineParses(r);
      OtherValueParses(REPORT_TAG, l);
      OtherValueParses(PATH_TAG, l);
    case ReportLine(id, report) =>
      OtherLineParses(l);
      ValueLineParses(REPORT_TAG, id, report);
      OtherValueParses(PATH_TAG, l);
    case PathLine(id, path) =>
      OtherLineParses(l);
      ValueLineParses(PATH_TAG, id, path);
      OtherValueParses(REPORT_TAG, l);
    case StartLine(_) =>
      OtherLineParses(l);
      OtherValueParses(REPORT_TAG, l);
      OtherValueParses(PATH_TAG, l);
  }

  lemma {:induction false} LinesParse(ls: seq<Line>)
    requires forall i | 0 <= i < |ls| :: WellFormed(ls[i])
    ensures RowsOf(PrintedLines(ls)) == PanesIn(ls) && DroppedOf(PrintedLines(ls)) == 0
    ensures ValuesOf(REPORT_TAG, PrintedLines(ls)) == ReportsIn(ls)
    ensures ValuesOf(PATH_TAG, PrintedLines(ls)) == PathsIn(ls)
  {
    if ls != [] {
      LinesParse(ls[..|ls| - 1]);
      LineParses(ls[|ls| - 1]);
      assert PrintedLines(ls)[..|ls| - 1] == PrintedLines(ls[..|ls| - 1]);
    }
  }

  lemma {:induction false} StartParses(ls: seq<Line>)
    ensures StartOf(PrintedLines(ls)) == GenerationIn(ls)
  {
    if ls != [] {
      StartParses(ls[1..]);
      StartLineParses(ls[0]);
      PrintedFirst(ls);
    }
  }

  lemma {:induction false} PrintedFirst(ls: seq<Line>)
    requires ls != []
    ensures PrintedLines(ls) == [Printed(ls[0])] + PrintedLines(ls[1..])
  {
    if |ls| > 1 {
      var init := ls[..|ls| - 1];
      PrintedFirst(init);
      assert init[1..] == ls[1..][..|ls| - 2];
    } else {
      assert ls[..0] == [] && ls[1..] == [];
    }
  }

  lemma {:induction false} NotInJoin(parts: seq<string>, sep: char, c: char)
    requires c != sep && forall i | 0 <= i < |parts| :: c !in parts[i]
    ensures c !in Join(parts, sep)
  {
    if |parts| > 1 {
      NotInJoin(parts[1..], sep, c);
    }
  }

  lemma PrintedIsOneLine(l: Line)
    requires WellFormed(l)
    ensures '\n' !in Printed(l) && Printed(l) != ""
  {
    if l.PaneLine? {
      NotInJoin(Fields(l.pane) + [l.pane.labelText], SEP, '\n');
    }
    var rest := PrintedTag(l);
  }

  lemma {:induction false} AllOneLine(ls: seq<Line>)
    requires forall i | 0 <= i < |ls| :: WellFormed(ls[i])
    ensures forall i | 0 <= i < |ls| :: '\n' !in PrintedLines(ls)[i] && PrintedLines(ls)[i] != ""
  {
    if ls != [] {
      AllOneLine(ls[..|ls| - 1]);
      PrintedIsOneLine(ls[|ls| - 1]);
    }
  }

  lemma TrimsBack(s: string)
    ensures TrimNewline(s + "\n") == s
  {
    assert (s + "\n")[..|s|] == s;
  }

  lemma JoinIsSomething(parts: seq<string>, sep: char)
    requires parts != [] && parts[0] != ""
    ensures Join(parts, sep) != ""
  {
  }

  /** The lines the parsers walk are the lines tmux printed. */
  lemma OutputSplits(ls: seq<Line>)
    requires ls != [] && forall i | 0 <= i < |ls| :: WellFormed(ls[i])
    ensures LinesOf(Output(ls)) == PrintedLines(ls) && TrimNewline(Output(ls)) != ""
  {
    var texts := PrintedLines(ls);
    AllOneLine(ls);
    var joined := Join(texts, '\n');
    TrimsBack(joined);
    JoinIsSomething(texts, '\n');
    forall t | t in texts
      ensures '\n' !in t
    {
    }
    SplitJoin(texts, '\n');
  }

  /** The batched read comes apart: however the four blocks' lines are interleaved, each
      parser recovers exactly its own, in order, nothing is counted as dropped, and a
      separator in a label, a report or a path disturbs nothing but itself. */
  lemma BlocksComeApart(ls: seq<Line>)
    requires forall i | 0 <= i < |ls| :: WellFormed(ls[i])
    ensures ReadRows(Output(ls)) == (PanesIn(ls), 0)
    ensures ValuesOf(REPORT_TAG, LinesOf(Output(ls))) == ReportsIn(ls)
    ensures ValuesOf(PATH_TAG, LinesOf(Output(ls))) == PathsIn(ls)
    ensures StartOf(LinesOf(Output(ls))) == GenerationIn(ls)
  {
    if ls != [] {
      OutputSplits(ls);
      LinesParse(ls);
      StartParses(ls);
    } else {
      assert LinesOf("") == [""];
      NothingParses(REPORT_TAG);
      NothingParses(PATH_TAG);
    }
  }

  lemma NothingParses(tag: string)
    ensures ValuesOf(tag, [""]) == map[] && StartOf([""]) == None
  {
    assert [""][..0] == [];
    assert [""][1..] == [];
  }

  // ------------------------------------------------------------------- one row per pane

  /** Where the user sees the row: group, window, pane, and the id if all else is equal. */
  predicate Before(a: Row, b: Row) {
    || Less(a.groupKey, b.groupKey)
    || (a.groupKey == b.groupKey
        && (a.windowIndex < b.windowIndex
            || (a.windowIndex == b.windowIndex
                && (a.paneIndex < b.paneIndex
                    || (a.paneIndex == b.paneIndex && Less(a.paneID, b.paneID))))))
  }

  const BEFORE := (a: Row, b: Row) => Before(a, b)

  function Best(rows: seq<Row>): map<string, Row> {
    if rows == [] then map[]
    else
      var before, r := Best(rows[..|rows| - 1]), rows[|rows| - 1];
      if r.paneID !in before || (before[r.paneID].appOwned && !r.appOwned) then before[r.paneID := r] else before
  }

  predicate Keyed(best: map<string, Row>) {
    forall id | id in best :: best[id].paneID == id
  }

  /** The copy of a pane that is kept: the first that is not the app's own, or the first
      of all when every copy is. */
  predicate Kept(rows: seq<Row>, i: nat) {
    && i < |rows|
    && (!rows[i].appOwned ==> forall j | 0 <= j < i && rows[j].paneID == rows[i].paneID :: rows[j].appOwned)
    && (rows[i].appOwned ==>
          (forall j | 0 <= j < |rows| && rows[j].paneID == rows[i].paneID :: rows[j].appOwned)
          && (forall j | 0 <= j < i :: rows[j].paneID != rows[i].paneID))
  }

  lemma {:induction false} BestIsKept(rows: seq<Row>, id: string) returns (i: nat)
    ensures id in Best(rows) <==> exists j :: 0 <= j < |rows| && rows[j].paneID == id
    ensures id in Best(rows) ==> Kept(rows, i) && rows[i].paneID == id && Best(rows)[id] == rows[i]
  {
    i := 0;
    if rows != [] {
      var init, n := rows[..|rows| - 1], |rows| - 1;
      i := BestIsKept(init, id);
      if rows[n].paneID == id && (id !in Best(init) || (Best(init)[id].appOwned && !rows[n].appOwned)) {
        i := n;
      }
    }
  }

  lemma {:induction false} BestIsKeyed(rows: seq<Row>)
    ensures Keyed(Best(rows))
  {
    if rows != [] {
      BestIsKeyed(rows[..|rows| - 1]);
    }
  }

  lemma BeforeOrders(best: map<string, Row>)
    requires Keyed(best)
    ensures Orders(BEFORE, best.Values)
  {
    forall x, y | x in best.Values && y in best.Values
      ensures BEFORE(x, y) ==> !BEFORE(y, x)
      ensures x != y ==> BEFORE(x, y) || BEFORE(y, x)
    {
      LessOneWay(x.groupKey, y.groupKey);
      LessOneWay(y.groupKey, x.groupKey);
      LessOneWay(x.paneID, y.paneID);
      assert best[x.paneID] == x && best[y.paneID] == y;
    }
    forall x, y, z | BEFORE(x, y) && BEFORE(y, z)
      ensures BEFORE(x, z)
    {
      BeforeChains(x, y, z);
    }
  }

  lemma BeforeChains(x: Row, y: Row, z: Row)
    requires Before(x, y) && Before(y, z)
    ensures Before(x, z)
  {
    if Less(x.groupKey, y.groupKey) && Less(y.groupKey, z.groupKey) {
      LessChains(x.groupKey, y.groupKey, z.groupKey);
    }
    if Less(x.paneID, y.paneID) && Less(y.paneID, z.paneID) {
      LessChains(x.paneID, y.paneID, z.paneID);
    }
  }

  /** One row for every pane there is, each the copy that is kept, in the order the user
      sees them. */
  ghost predicate IsDeduped(out: seq<Row>, rows: seq<Row>) {
    Lists(out, Best(rows).Values) && Ascending(BEFORE, out)
  }

  method Dedupe(rows: seq<Row>) returns (out: seq<Row>)
    ensures IsDeduped(out, rows)
  {
    var best: map<string, Row> := map[];
    for i := 0 to |rows|
      invariant best == Best(rows[..i])
    {
      assert rows[..i + 1][..i] == rows[..i];
      var r := rows[i];
      if r.paneID !in best || (best[r.paneID].appOwned && !r.appOwned) {
        best := best[r.paneID := r];
      }
    }
    assert rows[..|rows|] == rows;
    BestIsKeyed(rows);
    out := [];
    var left := best.Keys;
    while left != {}
      invariant left <= best.Keys
      invariant forall i | 0 <= i < |out| :: out[i].paneID in best.Keys - left && best[out[i].paneID] == out[i]
      invariant forall id | id in best.Keys - left :: best[id] in out
      invariant forall i, j | 0 <= i < j < |out| :: out[i].paneID != out[j].paneID
      decreases |left|
    {
      var id :| id in left;
      left := left - {id};
      out := out + [best[id]];
    }
    BeforeOrders(best);
    assert Lists(out, best.Values);
    SortedAscends(BEFORE, out, best.Values);
    out := Sorted(BEFORE, out);
  }

  /** The answer is one sequence: no map's order, and no sort's, shows in it. */
  lemma DedupedIsUnique(a: seq<Row>, b: seq<Row>, rows: seq<Row>)
    requires IsDeduped(a, rows) && IsDeduped(b, rows)
    ensures a == b
  {
    BestIsKeyed(rows);
    BeforeOrders(Best(rows));
    AscendingIsUnique(BEFORE, a, b, Best(rows).Values);
  }

  lemma {:induction false} BestOfOneEach(rows: seq<Row>)
    requires forall i, j | 0 <= i < j < |rows| :: rows[i].paneID != rows[j].paneID
    ensures forall id :: id in Best(rows) <==> exists i :: 0 <= i < |rows| && rows[i].paneID == id
    ensures forall i | 0 <= i < |rows| :: rows[i].paneID in Best(rows) && Best(rows)[rows[i].paneID] == rows[i]
  {
    if rows != [] {
      BestOfOneEach(rows[..|rows| - 1]);
    }
  }

  /** Deduping what is already deduped changes nothing. */
  lemma DedupeTwice(once: seq<Row>, rows: seq<Row>, twice: seq<Row>)
    requires IsDeduped(once, rows) && IsDeduped(twice, once)
    ensures twice == once
  {
    BestIsKeyed(rows);
    forall i, j | 0 <= i < j < |once|
      ensures once[i].paneID != once[j].paneID
    {
      assert once[i] in Best(rows).Values && once[j] in Best(rows).Values;
    }
    BestOfOneEach(once);
    assert Best(once).Values == Best(rows).Values by {
      forall r | r in Best(once).Values
        ensures r in Best(rows).Values
      {
        var id :| id in Best(once) && Best(once)[id] == r;
        var i :| 0 <= i < |once| && once[i].paneID == id;
        assert once[i] == r && r in once;
      }
      forall r | r in Best(rows).Values
        ensures r in Best(once).Values
      {
        var i :| 0 <= i < |once| && once[i] == r;
        assert Best(once)[r.paneID] == r;
      }
    }
    assert IsDeduped(once, once);
    DedupedIsUnique(twice, once, once);
  }

  /** What a reader can say of each row: it is the kept copy of its pane, every pane there
      is has exactly one, and a row is the app's own only when every copy of it is. */
  lemma DedupedRows(out: seq<Row>, rows: seq<Row>, r: Row)
    requires IsDeduped(out, rows) && r in rows
    ensures exists k :: 0 <= k < |out| && out[k].paneID == r.paneID
    ensures forall k | 0 <= k < |out| && out[k].paneID == r.paneID ::
              && out[k] in rows
              && (out[k].appOwned <==> forall j | 0 <= j < |rows| && rows[j].paneID == r.paneID :: rows[j].appOwned)
  {
    BestIsKeyed(rows);
    var i := BestIsKept(rows, r.paneID);
    var j :| 0 <= j < |rows| && rows[j] == r;
    assert r.paneID in Best(rows) && Best(rows)[r.paneID] in out;
    forall k | 0 <= k < |out| && out[k].paneID == r.paneID
      ensures out[k] == rows[i]
    {
      assert out[k] in Best(rows).Values;
    }
  }

  /** The order the user sees: by group, within a group by window, within a window by pane,
      and by id where all three are equal. */
  lemma DisplayOrder(out: seq<Row>, rows: seq<Row>, i: nat, j: nat)
    requires IsDeduped(out, rows) && i < j < |out|
    ensures forall k: nat :: !SmallerAt(out[j].groupKey, out[i].groupKey, k)
    ensures out[i].groupKey == out[j].groupKey ==> out[i].windowIndex <= out[j].windowIndex
    ensures out[i].groupKey == out[j].groupKey && out[i].windowIndex == out[j].windowIndex ==>
              out[i].paneIndex <= out[j].paneIndex
    ensures out[i].groupKey == out[j].groupKey && out[i].windowIndex == out[j].windowIndex ==>
              out[i].paneIndex == out[j].paneIndex ==> exists k: nat :: SmallerAt(out[i].paneID, out[j].paneID, k)
  {
    var a, b := out[i], out[j];
    assert BEFORE(a, b);
    LessIs(b.groupKey, a.groupKey);
    LessIs(a.paneID, b.paneID);
    LessOneWay(b.groupKey, a.groupKey);
    LessOneWay(a.groupKey, b.groupKey);
  }

  // ---------------------------------------------------------------------- the whole read

  /** Line i gives this pane this value, in the block with this tag: the tag, the id and
      the value, with a separator after each of the first two. */
  predicate GivesValue(tag: string, line: string, id: string, value: string) {
    SEP !in id && line == tag + [SEP] + id + [SEP] + value
  }

  lemma ParseValueIs(tag: string, line: string, id: string, value: string)
    requires SEP !in tag
    ensures ParseValue(tag, line) == Some((id, value)) <==> GivesValue(tag, line, id, value)
  {
    if GivesValue(tag, line, id, value) {
      assert line == tag + [SEP] + (id + [SEP] + value);
      ValueLineParses(tag, id, value);
    }
    if ParseValue(tag, line) == Some((id, value)) {
      var a, b, c := ThreeParts(line);
      assert a + [SEP] + (b + [SEP] + c) == a + [SEP] + b + [SEP] + c;
    }
  }

  lemma TwoParts(rest: string) returns (id: string, value: string)
    requires |SplitN(rest, SEP, 2)| == 2
    ensures SEP !in id && rest == id + [SEP] + value && SplitN(rest, SEP, 2) == [id, value]
  {
    id, value := SplitNCut(rest, SEP, 2);
    assert SplitN(value, SEP, 1) == [value];
  }

  lemma ThreeParts(line: string) returns (tag: string, id: string, value: string)
    requires |SplitN(line, SEP, 3)| == 3
    ensures SplitN(line, SEP, 3) == [tag, id, value] && SEP !in id && line == tag + [SEP] + (id + [SEP] + value)
  {
    var rest;
    tag, rest := SplitNCut(line, SEP, 3);
    id, value := TwoParts(rest);
  }

  ghost predicate GivesSome(tag: string, line: string, id: string) {
    exists value :: GivesValue(tag, line, id, value)
  }

  /** Line k is the last to give this pane a value. */
  ghost predicate LastGives(tag: string, lines: seq<string>, k: nat, id: string, value: string) {
    k < |lines| && GivesValue(tag, lines[k], id, value) && forall i | k < i < |lines| :: !GivesSome(tag, lines[i], id)
  }

  /** The last line that gives the pane a value decides it. */
  lemma {:induction false} LastValueStands(tag: string, lines: seq<string>, k: nat, id: string, value: string)
    requires SEP !in tag && k < |lines| && GivesValue(tag, lines[k], id, value)
    requires forall i | k < i < |lines| :: !GivesSome(tag, lines[i], id)
    ensures id in ValuesOf(tag, lines) && ValuesOf(tag, lines)[id] == value
    decreases |lines|
  {
    var n := |lines| - 1;
    var last := ParseValue(tag, lines[n]);
    if k == n {
      ParseValueIs(tag, lines[n], id, value);
    } else {
      LastValueStands(tag, lines[..n], k, id, value);
      if last.Some? {
        ParseValueIs(tag, lines[n], last.value.0, last.value.1);
      }
    }
  }

  lemma {:induction false} NoValueStands(tag: string, lines: seq<string>, id: string)
    requires SEP !in tag && forall i | 0 <= i < |lines| :: !GivesSome(tag, lines[i], id)
    ensures id !in ValuesOf(tag, lines)
  {
    if lines != [] {
      var n := |lines| - 1;
      NoValueStands(tag, lines[..n], id);
      var last := ParseValue(tag, lines[n]);
      if last.Some? {
        ParseValueIs(tag, lines[n], last.value.0, last.value.1);
      }
    }
  }

  function PathFor(paths: map<string, string>, id: string): string {
    if id in paths then paths[id] else ""
  }

  function WithPath(r: Row, paths: map<string, string>): Row {
    r.(path := PathFor(paths, r.paneID))
  }

  function Attached(rows: seq<Row>, paths: map<string, string>): seq<Row> {
    seq(|rows|, i requires 0 <= i < |rows| => WithPath(rows[i], paths))
  }

  /** Every row is given its own pane's path, in place. */
  method AttachPaths(a: array<Row>, paths: map<string, string>)
    modifies a
    ensures a[..] == Attached(old(a[..]), paths)
  {
    for i := 0 to a.Length
      invariant forall k | 0 <= k < i :: a[k] == WithPath(old(a[k]), paths)
      invariant forall k | i <= k < a.Length :: a[k] == old(a[k])
    {
      a[i] := a[i].(path := if a[i].paneID in paths then paths[a[i].paneID] else "");
    }
  }

  /** A published row's path is what the last line of the path block says of its pane, and
      nothing when no line does. */
  lemma PublishedPath(out: seq<Row>, rows: seq<Row>, lines: seq<string>, r: Row)
    requires IsDeduped(out, Attached(rows, ValuesOf(PATH_TAG, lines))) && r in out
    ensures forall k: nat, path | LastGives("P", lines, k, r.paneID, path) :: r.path == path
    ensures (forall i | 0 <= i < |lines| :: !GivesSome("P", lines[i], r.paneID)) ==> r.path == ""
  {
    var all, paths := Attached(rows, ValuesOf(PATH_TAG, lines)), ValuesOf(PATH_TAG, lines);
    var j := BestIsKept(all, r.paneID);
    BestIsKeyed(all);
    assert r.path == PathFor(paths, r.paneID) by {
      assert r in Best(all).Values && all[j] == r;
    }
    forall k: nat, path | LastGives("P", lines, k, r.paneID, path)
      ensures r.path == path
    {
      LastValueStands(PATH_TAG, lines, k, r.paneID, path);
    }
    if forall i | 0 <= i < |lines| :: !GivesSome("P", lines[i], r.paneID) {
      NoValueStands(PATH_TAG, lines, r.paneID);
    }
  }

  /** How the tmux invocation ended: well, with no server to ask, or with some later
      block broken. */
  datatype Exit = Clean | NoServer | Broken

  datatype Answer = Answer(rows: seq<Row>, reports: map<string, string>, start: Option<string>)

  /** What a poll makes of what came back. No server is an answer, and its generation is
      known to be empty; a broken exit fails the poll only when not one row came; and rows
      carry their paths before a copy of each is chosen. */
  method Poll(out: string, exit: Exit) returns (p: Option<Answer>)
    ensures exit.NoServer? ==> p == Some(Answer([], map[], Some("")))
    ensures !exit.NoServer? ==> (p.None? <==> exit.Broken? && ReadRows(out).0 == [])
    ensures !exit.NoServer? && p.Some? ==>
              && IsDeduped(p.value.rows, Attached(ReadRows(out).0, ValuesOf(PATH_TAG, LinesOf(out))))
              && p.value.reports == ValuesOf(REPORT_TAG, LinesOf(out))
              && p.value.start == StartOf(LinesOf(out))
  {
    if exit.NoServer? {
      return Some(Answer([], map[], Some("")));
    }
    var found, _ := ParseRows(out);
    if exit.Broken? && |found| == 0 {
      return None;
    }
    var paths := ParseValues(PATH_TAG, out);
    var a := new Row[|found|](i requires 0 <= i < |found| => found[i]);
    assert a[..] == found;
    AttachPaths(a, paths);
    var rows := Dedupe(a[..]);
    var start := ParseServerStart(out);
    var reports := ParseValues(REPORT_TAG, out);
    return Some(Answer(rows, reports, start));
  }
}
