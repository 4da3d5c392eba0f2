/** Reading a dialog off an agent's screen (internal/tmux/blocked.go): where the live
    dialog is, whether it is waiting, and what it asks. The grammars are data there, and
    here; what is proved of the reading holds for any of them. */
module Dialogs {
  import opened Prelude
  import opened Text

  datatype Question = Question(text: string, choices: seq<string>)

  /** What a grammar looks for in a line without the blanks around it: the cursor on a
      numbered option, any numbered option and what follows its number, and a line that
      asks. */
  datatype Rules = Rules(cursorChoice: string -> bool, choice: string -> Option<string>, question: string -> bool,
                         minChoices: nat)

  // ---------------------------------------------------------------------------- a menu

  function ChoiceCount(r: Rules, bodies: seq<string>): nat {
    if bodies == [] then 0
    else ChoiceCount(r, bodies[..|bodies| - 1]) + if r.choice(bodies[|bodies| - 1]).Some? then 1 else 0
  }

  /** The first option, or one past the end when there is none. */
  function FirstChoice(r: Rules, bodies: seq<string>): (n: nat)
    ensures n <= |bodies| && (n < |bodies| ==> r.choice(bodies[n]).Some?)
    ensures forall i | 0 <= i < n :: r.choice(bodies[i]).None?
  {
    if bodies == [] then 0
    else
      var n := FirstChoice(r, bodies[..|bodies| - 1]);
      if n < |bodies| - 1 then n
      else if r.choice(bodies[|bodies| - 1]).Some? then |bodies| - 1 else |bodies|
  }

  /** The nearest line above n that asks. */
  function AskedAbove(r: Rules, bodies: seq<string>, n: nat): (text: Option<string>)
    requires n <= |bodies|
    ensures text.Some? <==> exists i | 0 <= i < n :: r.question(bodies[i])
    ensures text.Some? ==> exists i | 0 <= i < n ::
                             bodies[i] == text.value && r.question(bodies[i]) && forall j | i < j < n :: !r.question(bodies[j])
  {
    if n == 0 then None
    else if r.question(bodies[n - 1]) then Some(bodies[n - 1])
    else AskedAbove(r, bodies, n - 1)
  }

  /** What a pass over a menu's lines has seen: options, the cursor on one, and a line
      that asks. */
  datatype Seen = Seen(choices: nat, cursor: bool, asked: bool)

  /** A blank line is passed over. */
  function See(r: Rules, seen: Seen, body: string): Seen {
    if body == "" then seen
    else Seen(seen.choices + (if r.choice(body).Some? then 1 else 0),
              seen.cursor || r.cursorChoice(body), seen.asked || r.question(body))
  }

  function Scan(r: Rules, bodies: seq<string>): Seen {
    if bodies == [] then Seen(0, false, false)
    else See(r, Scan(r, bodies[..|bodies| - 1]), bodies[|bodies| - 1])
  }

  method ScanMenu(r: Rules, bodies: seq<string>) returns (seen: Seen)
    ensures seen == Scan(r, bodies)
  {
    var choices, cursor, asked := 0, false, false;
    for i := 0 to |bodies|
      invariant Seen(choices, cursor, asked) == Scan(r, bodies[..i])
    {
      assert bodies[..i + 1][..i] == bodies[..i];
      if bodies[i] == "" {
        continue;
      }
      if r.cursorChoice(bodies[i]) {
        cursor := true;
      }
      if r.choice(bodies[i]).Some? {
        choices := choices + 1;
      }
      if r.question(bodies[i]) {
        asked := true;
      }
    }
    assert bodies[..|bodies|] == bodies;
    seen := Seen(choices, cursor, asked);
  }

  /** No rule matches a blank line. */
  predicate SkipsBlanks(r: Rules) {
    !r.cursorChoice("") && r.choice("").None? && !r.question("")
  }

  lemma {:induction false} ScanIs(r: Rules, bodies: seq<string>)
    requires SkipsBlanks(r)
    ensures var seen := Scan(r, bodies);
      && seen.choices == ChoiceCount(r, bodies)
      && (seen.cursor <==> exists i | 0 <= i < |bodies| :: r.cursorChoice(bodies[i]))
      && (seen.asked <==> exists i | 0 <= i < |bodies| :: r.question(bodies[i]))
  {
    if bodies != [] {
      var init, n := bodies[..|bodies| - 1], |bodies| - 1;
      ScanIs(r, init);
      assert forall i | 0 <= i < n :: init[i] == bodies[i];
    }
  }

  method AskedText(r: Rules, bodies: seq<string>, n: nat) returns (text: Option<string>)
    requires n <= |bodies|
    ensures text == AskedAbove(r, bodies, n)
  {
    text := None;
    for i := 0 to n
      invariant text == AskedAbove(r, bodies, i)
    {
      if r.question(bodies[i]) {
        text := Some(bodies[i]);
      }
    }
  }

  lemma {:induction false} NoChoiceCountsNothing(r: Rules, bodies: seq<string>)
    ensures FirstChoice(r, bodies) == |bodies| ==> ChoiceCount(r, bodies) == 0
  {
    if bodies != [] {
      NoChoiceCountsNothing(r, bodies[..|bodies| - 1]);
    }
  }

  // -------------------------------------------------------------------- reading options

  /** A line of a dialog: what it says, and the column it starts at. */
  datatype Line = Line(body: string, indent: int)

  function BodiesOf(lines: seq<Line>): seq<string> {
    seq(|lines|, i requires 0 <= i < |lines| => lines[i].body)
  }

  /** The options so far, the first one's line, and the column the open option's own text
      starts at, below zero when none is open. */
  datatype Options = Options(first: Option<nat>, choices: seq<string>, textCol: int)

  /** One line: an option, the rest of the option above it, or neither. */
  function ReadLine(r: Rules, clean: string -> string, o: Options, i: nat, line: Line): Options {
    var choice := r.choice(line.body);
    if choice.Some? then
      Options(if o.first.Some? then o.first else Some(i), o.choices + [clean(choice.value)],
              line.indent + |line.body| - |choice.value|)
    else if o.textCol >= 0 && line.indent >= o.textCol && o.choices != [] then
      o.(choices := o.choices[|o.choices| - 1 := clean(o.choices[|o.choices| - 1] + " " + line.body)])
    else o.(textCol := -1)
  }

  function ReadOptions(r: Rules, clean: string -> string, lines: seq<Line>): Options {
    if lines == [] then Options(None, [], -1)
    else ReadLine(r, clean, ReadOptions(r, clean, lines[..|lines| - 1]), |lines| - 1, lines[|lines| - 1])
  }

  method ReadMenu(r: Rules, clean: string -> string, lines: seq<Line>) returns (o: Options)
    ensures o == ReadOptions(r, clean, lines)
  {
    var choices: seq<string> := [];
    var first: Option<nat> := None;
    var textCol := -1;
    for i := 0 to |lines|
      invariant ReadOptions(r, clean, lines[..i]) == Options(first, choices, textCol)
    {
      assert lines[..i + 1][..i] == lines[..i];
      var choice := r.choice(lines[i].body);
      if choice.Some? {
        if first.None? {
          first := Some(i);
        }
        choices := choices + [clean(choice.value)];
        textCol := lines[i].indent + |lines[i].body| - |choice.value|;
        continue;
      }
      if textCol >= 0 && lines[i].indent >= textCol && choices != [] {
        choices := choices[|choices| - 1 := clean(choices[|choices| - 1] + " " + lines[i].body)];
        continue;
      }
      textCol := -1;
    }
    assert lines[..|lines|] == lines;
    o := Options(first, choices, textCol);
  }

  /** An option's text with the lines that continue it, joined as they come. */
  function Wrapped(clean: string -> string, text: string, more: seq<string>): string {
    if more == [] then clean(text)
    else clean(Wrapped(clean, text, more[..|more| - 1]) + " " + more[|more| - 1])
  }

  /** Not an option, and indented to the column of the text of the one above. */
  predicate Continues(r: Rules, line: Line, column: int) {
    r.choice(line.body).None? && line.indent >= column
  }

  /** The option on line p, whose text starts at this column, runs on to line q. */
  predicate OptionSpan(r: Rules, lines: seq<Line>, p: nat, q: nat, text: string, column: int) {
    && p < q <= |lines| && r.choice(lines[p].body) == Some(text)
    && column == lines[p].indent + |lines[p].body| - |text| >= 0
    && (forall i | p < i < q :: Continues(r, lines[i], column))
    && (q < |lines| ==> !Continues(r, lines[q], column))
  }

  /** What has been read before line n. */
  function ReadTo(r: Rules, clean: string -> string, lines: seq<Line>, n: nat): Options
    requires n <= |lines|
  {
    if n == 0 then Options(None, [], -1) else ReadLine(r, clean, ReadTo(r, clean, lines, n - 1), n - 1, lines[n - 1])
  }

  lemma {:induction false} ReadToIs(r: Rules, clean: string -> string, lines: seq<Line>, n: nat)
    requires n <= |lines|
    ensures ReadTo(r, clean, lines, n) == ReadOptions(r, clean, lines[..n])
  {
    if n > 0 {
      ReadToIs(r, clean, lines, n - 1);
      assert lines[..n][..n - 1] == lines[..n - 1] && lines[..n][n - 1] == lines[n - 1];
    }
  }

  lemma {:induction false} OptionsAreCounted(r: Rules, clean: string -> string, lines: seq<Line>, n: nat)
    requires n <= |lines|
    ensures |ReadTo(r, clean, lines, n).choices| == ChoiceCount(r, BodiesOf(lines)[..n])
  {
    if n > 0 {
      OptionsAreCounted(r, clean, lines, n - 1);
      var bodies := BodiesOf(lines)[..n];
      assert bodies[..n - 1] == BodiesOf(lines)[..n - 1] && bodies[n - 1] == lines[n - 1].body;
    }
  }

  /** A line that opens an option, and one that goes on with it. */
  lemma LineOpens(r: Rules, clean: string -> string, o: Options, i: nat, line: Line, text: string)
    requires r.choice(line.body) == Some(text)
    ensures var after := ReadLine(r, clean, o, i, line);
      after.choices == o.choices + [Wrapped(clean, text, [])] && after.textCol == line.indent + |line.body| - |text|
  {
  }

  lemma LineContinues(r: Rules, clean: string -> string, o: Options, i: nat, line: Line, text: string, more: seq<string>)
    requires o.choices != [] && o.textCol >= 0 && Continues(r, line, o.textCol)
    requires o.choices[|o.choices| - 1] == Wrapped(clean, text, more)
    ensures var after := ReadLine(r, clean, o, i, line);
      && after.textCol == o.textCol && |after.choices| == |o.choices|
      && after.choices[|o.choices| - 1] == Wrapped(clean, text, more + [line.body])
  {
    assert (more + [line.body])[..|more|] == more;
  }

  /** Option k is the last one read, still open at this column, with this text. */
  predicate IsOpen(clean: string -> string, o: Options, k: nat, text: string, column: int, more: seq<string>) {
    |o.choices| == k + 1 && o.textCol == column && o.choices[k] == Wrapped(clean, text, more)
  }

  lemma StaysOpen(r: Rules, clean: string -> string, o: Options, k: nat, text: string, column: int, more: seq<string>,
                  i: nat, line: Line)
    requires IsOpen(clean, o, k, text, column, more) && column >= 0 && Continues(r, line, column)
    ensures IsOpen(clean, ReadLine(r, clean, o, i, line), k, text, column, more + [line.body])
  {
    LineContinues(r, clean, o, i, line, text, more);
  }

  /** The open option, read as far as line n. */
  lemma {:induction false} OptionIsOpen(r: Rules, clean: string -> string, lines: seq<Line>, p: nat, q: nat,
                                        text: string, column: int, n: nat)
    requires OptionSpan(r, lines, p, q, text, column) && p < n <= q
    ensures IsOpen(clean, ReadTo(r, clean, lines, n), |ReadTo(r, clean, lines, p).choices|, text, column,
                   BodiesOf(lines)[p + 1..n])
    decreases n
  {
    var o, bodies := ReadTo(r, clean, lines, n - 1), BodiesOf(lines);
    if n == p + 1 {
      LineOpens(r, clean, o, p, lines[p], text);
      assert bodies[p + 1..n] == [];
    } else {
      OptionIsOpen(r, clean, lines, p, q, text, column, n - 1);
      assert bodies[p + 1..n] == bodies[p + 1..n - 1] + [lines[n - 1].body];
      StaysOpen(r, clean, o, |ReadTo(r, clean, lines, p).choices|, text, column, bodies[p + 1..n - 1], n - 1, lines[n - 1]);
    }
  }

  /** A line that does not continue option k closes it, and no line reopens it. */
  lemma LineCloses(r: Rules, clean: string -> string, o: Options, i: nat, line: Line, k: nat)
    requires |o.choices| > k
    requires |o.choices| == k + 1 && o.textCol >= 0 ==> !Continues(r, line, o.textCol)
    ensures var after := ReadLine(r, clean, o, i, line);
      |after.choices| > k && after.choices[k] == o.choices[k] && (|after.choices| == k + 1 ==> after.textCol < 0)
  {
  }

  /** Once it is closed nothing below changes it. */
  lemma {:induction false} OptionIsClosed(r: Rules, clean: string -> string, lines: seq<Line>, p: nat, q: nat,
                                          text: string, column: int, n: nat)
    requires OptionSpan(r, lines, p, q, text, column) && q < n <= |lines|
    ensures var o, k := ReadTo(r, clean, lines, n), |ReadTo(r, clean, lines, p).choices|;
      && |o.choices| > k && o.choices[k] == Wrapped(clean, text, BodiesOf(lines)[p + 1..q])
      && (|o.choices| == k + 1 ==> o.textCol < 0)
    decreases n
  {
    var k := |ReadTo(r, clean, lines, p).choices|;
    if n == q + 1 {
      OptionIsOpen(r, clean, lines, p, q, text, column, q);
    } else {
      OptionIsClosed(r, clean, lines, p, q, text, column, n - 1);
    }
    LineCloses(r, clean, ReadTo(r, clean, lines, n - 1), n - 1, lines[n - 1], k);
  }

  /** Every option that is read: the one on line p is the text after its number, with the
      lines that line up under that text, and stands where the options above it put it. */
  lemma OptionIs(r: Rules, clean: string -> string, lines: seq<Line>, p: nat, q: nat, text: string, column: int)
    requires OptionSpan(r, lines, p, q, text, column)
    ensures var o, k := ReadOptions(r, clean, lines), ChoiceCount(r, BodiesOf(lines)[..p]);
      k < |o.choices| && o.choices[k] == Wrapped(clean, text, BodiesOf(lines)[p + 1..q])
  {
    if q == |lines| {
      OptionIsOpen(r, clean, lines, p, q, text, column, q);
    } else {
      OptionIsClosed(r, clean, lines, p, q, text, column, |lines|);
    }
    OptionsAreCounted(r, clean, lines, p);
    ReadToIs(r, clean, lines, |lines|);
    assert lines[..|lines|] == lines;
  }

  function Extract(r: Rules, clean: string -> string, lines: seq<Line>): Option<Question> {
    var o := ReadOptions(r, clean, lines);
    if o.first.None? || o.first.value > |lines| || |o.choices| < r.minChoices then None
    else
      var text := AskedAbove(r, BodiesOf(lines), o.first.value);
      if text.None? then None else Some(Question(text.value, o.choices))
  }

  /** Extraction meets the options detection counts, and starts at the same one. */
  lemma {:induction false} SameOptions(r: Rules, clean: string -> string, lines: seq<Line>)
    ensures var o, bodies := ReadOptions(r, clean, lines), BodiesOf(lines);
      && |o.choices| == ChoiceCount(r, bodies)
      && (o.first == if FirstChoice(r, bodies) < |bodies| then Some(FirstChoice(r, bodies)) else None)
  {
    if lines != [] {
      var n := |lines| - 1;
      SameOptions(r, clean, lines[..n]);
      assert BodiesOf(lines)[..n] == BodiesOf(lines[..n]);
    }
  }

  /** The same dialog, read twice. Where there are options enough, the question is missing
      exactly when nothing asks above the first option; when it is there it is the nearest
      such line, and the options are all the ones that were counted. */
  lemma ExtractionIsExact(r: Rules, clean: string -> string, lines: seq<Line>)
    requires SkipsBlanks(r) && r.minChoices > 0 && Scan(r, BodiesOf(lines)).choices >= r.minChoices
    ensures var bodies := BodiesOf(lines);
      var q := Extract(r, clean, lines);
      && (q.None? <==> forall i | 0 <= i < |bodies| && r.question(bodies[i]) :: i >= FirstChoice(r, bodies))
      && (q.Some? ==> |q.value.choices| == Scan(r, bodies).choices
                      && Some(q.value.text) == AskedAbove(r, bodies, FirstChoice(r, bodies)))
  {
    var bodies := BodiesOf(lines);
    SameOptions(r, clean, lines);
    ScanIs(r, bodies);
    NoChoiceCountsNothing(r, bodies);
  }

  // ------------------------------------------------------------------- lines and regions

  /** The lines after the last one that p holds of, if there is one. */
  function BelowLast(lines: seq<string>, p: string -> bool): Option<seq<string>> {
    if lines == [] then None
    else if p(lines[|lines| - 1]) then Some([])
    else
      var below := BelowLast(lines[..|lines| - 1], p);
      if below.None? then None else Some(below.value + [lines[|lines| - 1]])
  }

  lemma {:induction false} BelowLastIs(lines: seq<string>, p: string -> bool, k: nat)
    requires k < |lines| && p(lines[k]) && forall i | k < i < |lines| :: !p(lines[i])
    ensures BelowLast(lines, p) == Some(lines[k + 1..])
    decreases |lines|
  {
    if k < |lines| - 1 {
      var init := lines[..|lines| - 1];
      BelowLastIs(init, p, k);
      assert lines[k + 1..] == init[k + 1..] + [lines[|lines| - 1]];
    }
  }

  lemma {:induction false} NoneBelow(lines: seq<string>, p: string -> bool)
    requires forall i | 0 <= i < |lines| :: !p(lines[i])
    ensures BelowLast(lines, p) == None
  {
    if lines != [] {
      NoneBelow(lines[..|lines| - 1], p);
    }
  }

  method LastBelow(lines: seq<string>, p: string -> bool) returns (region: Option<seq<string>>)
    ensures region == BelowLast(lines, p)
  {
    var last := -1;
    for i := 0 to |lines|
      invariant -1 <= last < i
      invariant last >= 0 ==> p(lines[last])
      invariant forall k | last < k < i :: !p(lines[k])
    {
      if p(lines[i]) {
        last := i;
      }
    }
    if last < 0 {
      NoneBelow(lines, p);
      return None;
    }
    BelowLastIs(lines, p, last);
    return Some(lines[last + 1..]);
  }

  /** The lines before the last one that p holds of, if there is one. */
  function UpToLast(lines: seq<string>, p: string -> bool): Option<seq<string>> {
    if lines == [] then None
    else if p(lines[|lines| - 1]) then Some(lines[..|lines| - 1])
    else UpToLast(lines[..|lines| - 1], p)
  }

  lemma {:induction false} UpToLastIs(lines: seq<string>, p: string -> bool, k: nat)
    requires k < |lines| && p(lines[k]) && forall i | k < i < |lines| :: !p(lines[i])
    ensures UpToLast(lines, p) == Some(lines[..k])
    decreases |lines|
  {
    if k < |lines| - 1 {
      UpToLastIs(lines[..|lines| - 1], p, k);
      assert lines[..|lines| - 1][..k] == lines[..k];
    }
  }

  lemma {:induction false} NoneUp(lines: seq<string>, p: string -> bool)
    requires forall i | 0 <= i < |lines| :: !p(lines[i])
    ensures UpToLast(lines, p) == None
  {
    if lines != [] {
      NoneUp(lines[..|lines| - 1], p);
    }
  }

  /** What is between the bottommost bottom border and the nearest top border above it. */
  function Boxed(lines: seq<string>, isTop: string -> bool, isBottom: string -> bool): Option<seq<string>> {
    var above := UpToLast(lines, isBottom);
    if above.None? then None else BelowLast(above.value, isTop)
  }

  /** The bottommost bottom border, and the nearest top border above it. */
  predicate IsBox(lines: seq<string>, isTop: string -> bool, isBottom: string -> bool, top: nat, bottom: nat) {
    && top < bottom < |lines| && isTop(lines[top]) && isBottom(lines[bottom])
    && (forall i | bottom < i < |lines| :: !isBottom(lines[i]))
    && (forall i | top < i < bottom :: !isTop(lines[i]))
  }

  lemma BoxedIs(lines: seq<string>, isTop: string -> bool, isBottom: string -> bool, top: nat, bottom: nat)
    requires IsBox(lines, isTop, isBottom, top, bottom)
    ensures Boxed(lines, isTop, isBottom) == Some(lines[top + 1..bottom])
  {
    UpToLastIs(lines, isBottom, bottom);
    BelowLastIs(lines[..bottom], isTop, top);
    assert lines[..bottom][top + 1..] == lines[top + 1..bottom];
  }

  method Box(lines: seq<string>, isTop: string -> bool, isBottom: string -> bool) returns (box: Option<seq<string>>)
    ensures box == Boxed(lines, isTop, isBottom)
  {
    var bottom := -1;
    for i := 0 to |lines|
      invariant -1 <= bottom < i
      invariant bottom >= 0 ==> isBottom(lines[bottom])
      invariant forall k | bottom < k < i :: !isBottom(lines[k])
    {
      if isBottom(lines[i]) {
        bottom := i;
      }
    }
    if bottom < 0 {
      NoneUp(lines, isBottom);
      return None;
    }
    var top := bottom - 1;
    while top >= 0
      invariant -1 <= top < bottom
      invariant forall k | top < k < bottom :: !isTop(lines[k])
    {
      if isTop(lines[top]) {
        BoxedIs(lines, isTop, isBottom, top, bottom);
        return Some(lines[top + 1..bottom]);
      }
      top := top - 1;
    }
    UpToLastIs(lines, isBottom, bottom);
    NoneBelow(lines[..bottom], isTop);
    return None;
  }

  /** Nothing above the last such line makes any difference. */
  lemma {:induction false} AboveIsIrrelevant(above: seq<string>, lines: seq<string>, p: string -> bool)
    requires BelowLast(lines, p).Some?
    ensures BelowLast(above + lines, p) == BelowLast(lines, p)
  {
    if lines != [] {
      assert (above + lines)[..|above + lines| - 1] == above + lines[..|lines| - 1];
      if !p(lines[|lines| - 1]) {
        AboveIsIrrelevant(above, lines[..|lines| - 1], p);
      }
    }
  }

  lemma Associates(a: seq<string>, b: seq<string>, c: seq<string>)
    ensures a + (b + c) == a + b + c
  {
  }

  lemma ApartAt(a: string, i: nat, more: string)
    requires i < |a|
    ensures a + more == a[..i] + [a[i]] + (a[i + 1..] + more)
  {
  }

  /** Splitting text joined at a separator splits both parts. */
  lemma {:induction false} SplitConcat(a: string, sep: char, b: string)
    ensures Split(a + [sep] + b, sep) == Split(a, sep) + Split(b, sep)
    decreases |a|
  {
    if sep in a {
      var i := IndexOf(a, sep);
      SplitConcat(a[i + 1..], sep, b);
      ApartAt(a, i, [sep] + b);
      assert a + [sep] + b == a + ([sep] + b) && a[i + 1..] + [sep] + b == a[i + 1..] + ([sep] + b);
      SplitHead(a[..i], sep, a[i + 1..] + [sep] + b);
      Associates([a[..i]], Split(a[i + 1..], sep), Split(b, sep));
    } else {
      SplitHead(a, sep, b);
    }
  }

  // ------------------------------------------------------------------------- blocks

  /** The unbroken run of lines at the very end that strip takes something off, stripped. */
  function RunAtEnd(lines: seq<string>, strip: string -> Option<string>): (run: seq<string>)
    ensures |run| <= |lines|
  {
    if lines == [] || strip(lines[|lines| - 1]).None? then []
    else RunAtEnd(lines[..|lines| - 1], strip) + [strip(lines[|lines| - 1]).value]
  }

  /** The bottommost such run, wherever it ends. */
  function BottomBlock(lines: seq<string>, strip: string -> Option<string>): seq<string> {
    if lines == [] then []
    else if strip(lines[|lines| - 1]).Some? then RunAtEnd(lines, strip)
    else BottomBlock(lines[..|lines| - 1], strip)
  }

  /** Lines first to last are the bottommost run, and all of it. */
  predicate IsBottomRun(lines: seq<string>, strip: string -> Option<string>, first: nat, last: nat) {
    && first <= last < |lines|
    && (forall i | first <= i <= last :: strip(lines[i]).Some?)
    && (forall i | last < i < |lines| :: strip(lines[i]).None?)
    && (first > 0 ==> strip(lines[first - 1]).None?)
  }

  /** The block is those lines, stripped. */
  predicate IsStripped(block: seq<string>, lines: seq<string>, strip: string -> Option<string>, first: nat) {
    first + |block| <= |lines| && forall i | 0 <= i < |block| :: strip(lines[first + i]) == Some(block[i])
  }

  lemma {:induction false} RunAtEndIs(lines: seq<string>, strip: string -> Option<string>, first: nat)
    requires first <= |lines| && (forall i | first <= i < |lines| :: strip(lines[i]).Some?)
    requires first > 0 ==> strip(lines[first - 1]).None?
    ensures |RunAtEnd(lines, strip)| == |lines| - first && IsStripped(RunAtEnd(lines, strip), lines, strip, first)
    decreases |lines|
  {
    if first < |lines| {
      var init := lines[..|lines| - 1];
      RunAtEndIs(init, strip, first);
      assert forall i | 0 <= i < |init| :: init[i] == lines[i];
    }
  }

  /** What the bottom block is: the bottommost run that cannot be made longer at either
      end, or nothing on a screen with no such line. */
  lemma {:induction false} BottomBlockIs(lines: seq<string>, strip: string -> Option<string>, first: nat, last: nat)
    requires IsBottomRun(lines, strip, first, last)
    ensures |BottomBlock(lines, strip)| == last - first + 1 && IsStripped(BottomBlock(lines, strip), lines, strip, first)
    decreases |lines|
  {
    if last == |lines| - 1 {
      RunAtEndIs(lines, strip, first);
    } else {
      var init := lines[..|lines| - 1];
      BottomBlockIs(init, strip, first, last);
      assert forall i | 0 <= i < |init| :: init[i] == lines[i];
    }
  }

  lemma {:induction false} NoBlock(lines: seq<string>, strip: string -> Option<string>)
    requires forall i | 0 <= i < |lines| :: strip(lines[i]).None?
    ensures BottomBlock(lines, strip) == []
  {
    if lines != [] {
      NoBlock(lines[..|lines| - 1], strip);
    }
  }

  lemma StrippedIsUnique(a: seq<string>, b: seq<string>, lines: seq<string>, strip: string -> Option<string>, first: nat)
    requires |a| == |b| && IsStripped(a, lines, strip, first) && IsStripped(b, lines, strip, first)
    ensures a == b
  {
    forall i | 0 <= i < |a|
      ensures a[i] == b[i]
    {
      assert strip(lines[first + i]) == Some(a[i]) && strip(lines[first + i]) == Some(b[i]);
    }
  }

  method GutterBlock(lines: seq<string>, strip: string -> Option<string>) returns (block: seq<string>)
    ensures block == BottomBlock(lines, strip)
  {
    var last := -1;
    for i := 0 to |lines|
      invariant -1 <= last < i
      invariant last >= 0 ==> strip(lines[last]).Some?
      invariant forall k | last < k < i :: strip(lines[k]).None?
    {
      if strip(lines[i]).Some? {
        last := i;
      }
    }
    if last < 0 {
      NoBlock(lines, strip);
      return [];
    }
    var first := last;
    while first > 0 && strip(lines[first - 1]).Some?
      invariant 0 <= first <= last
      invariant forall k | first <= k <= last :: strip(lines[k]).Some?
    {
      first := first - 1;
    }
    block := [];
    for i := first to last + 1
      invariant |block| == i - first && IsStripped(block, lines, strip, first)
    {
      block := block + [strip(lines[i]).value];
    }
    BottomBlockIs(lines, strip, first, last);
    StrippedIsUnique(block, BottomBlock(lines, strip), lines, strip, first);
  }
}
