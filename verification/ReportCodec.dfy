/** The @tmux_web_agent option value: what a writer stores, what a reader takes
    back out of it, and the cleaning both of them give the activity line
    (internal/tmux/report.go). */
module ReportCodec {
  import opened Prelude
  import opened Text
  import opened ReportTypes

  const REPORT_VERSION := "1"
  const MAX_ACTIVITY := 128
  const MAX_REPORT_BYTES := 1024
  const MAX_INT64 := 0x7fff_ffff_ffff_ffff
  const FUTURE_SKEW := 5 * NANOS_PER_SECOND
  const FUTURE_SKEW_MS := 5000

  const ESC := '\U{1B}'
  const BEL := '\U{07}'

  // ------------------------------------------------------------- sanitising

  function SkipWhile(s: string, from: nat, p: char -> bool): (i: nat)
    requires from <= |s|
    ensures from <= i <= |s|
    decreases |s| - from
  {
    if from < |s| && p(s[from]) then SkipWhile(s, from + 1, p) else from
  }

  /** The length of the escape sequence at the front of s, or 0 when there is
      none: a CSI sequence, an OSC ended by BEL or ST, or a two-byte Fe form. */
  function EscapeLength(s: string): (n: nat)
    ensures n <= |s|
    ensures n > 0 ==> s[0] == ESC
  {
    if |s| < 2 || s[0] != ESC then 0
    else if s[1] == '[' then
      var i := SkipWhile(s, 2, c => IsDigit(c) || c == ';' || c == '?');
      var j := SkipWhile(s, i, c => ' ' <= c <= '/');
      if j < |s| && '@' <= s[j] <= '~' then j + 1 else 0
    else
      var i := SkipWhile(s, 2, c => c != BEL && c != ESC);
      if s[1] == ']' && i < |s| && s[i] == BEL then i + 1
      else if s[1] == ']' && i + 1 < |s| && s[i] == ESC && s[i + 1] == '\\' then i + 2
      else if '@' <= s[1] <= 'Z' || '\\' <= s[1] <= '_' then 2
      else 0
  }

  /** ansiSequence.ReplaceAllString(s, ""). */
  function StripEscapes(s: string): string
    decreases |s|
  {
    if s == [] then []
    else if EscapeLength(s) > 0 then StripEscapes(s[EscapeLength(s)..])
    else [s[0]] + StripEscapes(s[1..])
  }

  predicate EndsBlank(s: string) {
    s != [] && IsBlank(s[|s| - 1])
  }

  /** s with every run of blanks between two visible runes closed up to one space,
      and the blanks at both ends gone. */
  function Collapsed(s: string): string {
    if s == [] then []
    else
      var before, r := s[..|s| - 1], s[|s| - 1];
      if IsBlank(r) then Collapsed(before)
      else if EndsBlank(before) && Collapsed(before) != [] then Collapsed(before) + [' ', r]
      else Collapsed(before) + [r]
  }

  function Sanitized(s: string): string {
    Take(Collapsed(StripEscapes(s)), MAX_ACTIVITY)
  }

  lemma {:induction false} CollapsedGrows(s: string, i: nat)
    requires i <= |s|
    ensures Collapsed(s[..i]) <= Collapsed(s)
    decreases |s|
  {
    if i == |s| {
      assert s[..i] == s;
    } else {
      var before := s[..|s| - 1];
      CollapsedGrows(before, i);
      assert before[..i] == s[..i];
    }
  }

  /** The cleaning loop: one pass, a pending flag and a rune count. */
  method SanitizeActivity(activity: string) returns (b: string)
    ensures b == Sanitized(activity)
  {
    var s := StripEscapes(activity);
    b := "";
    var pending, runes := false, 0;
    for i := 0 to |s|
      invariant runes == |b| <= MAX_ACTIVITY
      invariant b == Collapsed(s[..i])
      invariant pending <==> runes > 0 && EndsBlank(s[..i])
    {
      var r := s[i];
      assert s[..i + 1][..i] == s[..i];
      CollapsedGrows(s, i + 1);
      if IsBlank(r) {
        pending := runes > 0;
        continue;
      }
      if pending {
        if runes == MAX_ACTIVITY {
          break;
        }
        b := b + [' '];
        runes := runes + 1;
        pending := false;
      }
      if runes == MAX_ACTIVITY {
        break;
      }
      b := b + [r];
      runes := runes + 1;
    }
    assert s[..|s|] == s;
  }

  /** Every blank is a single space with a visible rune in front of it. */
  predicate Spaced(s: string) {
    forall i | 0 <= i < |s| && IsBlank(s[i]) :: s[i] == ' ' && i > 0 && !IsBlank(s[i - 1])
  }

  lemma {:induction false} CollapsedIsSpaced(s: string)
    ensures Spaced(Collapsed(s)) && !EndsBlank(Collapsed(s))
  {
    if s != [] {
      CollapsedIsSpaced(s[..|s| - 1]);
    }
  }

  lemma {:induction false} SpacedIsCollapsed(s: string)
    requires Spaced(s)
    ensures Collapsed(s) == if EndsBlank(s) then s[..|s| - 1] else s
  {
    if s != [] {
      var before := s[..|s| - 1];
      SpacedIsCollapsed(before);
      if EndsBlank(before) {
        assert s[|s| - 2] == ' ';
        assert s == before[..|before| - 1] + [' ', s[|s| - 1]];
      } else {
        assert s == before + [s[|s| - 1]];
      }
    }
  }

  lemma {:induction false} NothingToStrip(s: string)
    requires ESC !in s
    ensures StripEscapes(s) == s
  {
    if s != [] {
      NothingToStrip(s[1..]);
    }
  }

  /** What the row may rely on: at most 128 runes, no control, no leading blank, no
      run of blanks, and a trailing space only where the cut fell on one. */
  lemma SanitizedShape(s: string)
    ensures var a := Sanitized(s);
      && |a| <= 128 && Spaced(a)
      && (forall i | 0 <= i < |a| :: !IsControl(a[i]))
      && (EndsBlank(a) ==> |a| == 128)
  {
    CollapsedIsSpaced(StripEscapes(s));
  }

  /** A second pass takes off exactly the space a cut can leave, and a third pass
      finds nothing to do. */
  lemma TwoPassesSettle(s: string)
    ensures var one := Sanitized(s); var two := Sanitized(one);
      && Sanitized(two) == two
      && (one == two || (|one| == MAX_ACTIVITY && one == two + " "))
      && (one == two <==> !EndsBlank(one))
  {
    var one := Sanitized(s);
    SanitizedShape(s);
    NothingToStrip(one);
    SpacedIsCollapsed(one);
    var two := Sanitized(one);
    if EndsBlank(one) {
      assert one == two + " ";
      assert two[|two| - 1] == one[|one| - 2];
    }
    NothingToStrip(two);
    SpacedIsCollapsed(two);
  }

  /** One pass is not idempotent: 127 visible runes, a space, and one more. */
  lemma OnePassIsNotIdempotent()
    ensures var s := seq(127, _ => 'a') + " b"; Sanitized(Sanitized(s)) != Sanitized(s)
  {
    var long := seq(127, _ => 'a');
    var s := long + " b";
    assert ESC !in s by {
      assert forall i | 0 <= i < |s| :: s[i] != ESC;
    }
    NothingToStrip(s);
    assert Spaced(s);
    SpacedIsCollapsed(s);
    assert Sanitized(s) == s[..128];
    assert EndsBlank(s[..128]);
    TwoPassesSettle(s);
  }

  /** The words of s: its maximal runs of visible runes, in order. */
  function Words(s: string): (w: seq<string>)
    ensures s != [] && !EndsBlank(s) ==> w != []
  {
    if s == [] then []
    else
      var before, r := s[..|s| - 1], s[|s| - 1];
      var w := Words(before);
      if IsBlank(r) then w
      else if before == [] || EndsBlank(before) then w + [[r]]
      else w[..|w| - 1] + [w[|w| - 1] + [r]]
  }

  lemma {:induction false} JoinSnoc(parts: seq<string>, last: string, sep: char)
    ensures Join(parts + [last], sep) == if parts == [] then last else Join(parts, sep) + [sep] + last
  {
    if |parts| > 0 {
      JoinSnoc(parts[1..], last, sep);
      assert (parts + [last])[1..] == parts[1..] + [last];
    }
  }

  lemma {:induction false} WordsAreNotEmpty(s: string)
    ensures forall i | 0 <= i < |Words(s)| :: Words(s)[i] != []
  {
    if s != [] {
      WordsAreNotEmpty(s[..|s| - 1]);
    }
  }

  /** What the cleaning means: the words of the text, one space between them. */
  lemma {:induction false} CollapsedJoinsWords(s: string)
    ensures Collapsed(s) == Join(Words(s), ' ')
    ensures Collapsed(s) == [] <==> Words(s) == []
  {
    if s != [] {
      var before, r := s[..|s| - 1], s[|s| - 1];
      CollapsedJoinsWords(before);
      var w := Words(before);
      if !IsBlank(r) {
        if before == [] || EndsBlank(before) {
          JoinSnoc(w, [r], ' ');
        } else {
          var init, last := w[..|w| - 1], w[|w| - 1];
          assert w == init + [last];
          JoinSnoc(init, last, ' ');
          JoinSnoc(init, last + [r], ' ');
        }
      }
    }
  }

  /** Exactly when one pass is not enough, on the text the pass is given: more than 128
      runes are left of it once it is closed up, and the 128th is a space. */
  lemma OnePassSettles(s: string)
    ensures var c := Collapsed(StripEscapes(s));
      Sanitized(Sanitized(s)) == Sanitized(s) <==> !(|c| > MAX_ACTIVITY && c[MAX_ACTIVITY - 1] == ' ')
  {
    var stripped := StripEscapes(s);
    TwoPassesSettle(s);
    CollapsedIsSpaced(stripped);
    var c := Collapsed(stripped);
    if |c| > MAX_ACTIVITY {
      assert Sanitized(s)[MAX_ACTIVITY - 1] == c[MAX_ACTIVITY - 1];
    }
  }

  lemma {:induction false} WordsAreVisible(s: string)
    ensures forall i | 0 <= i < |Words(s)| :: ' ' !in Words(s)[i]
  {
    if s != [] {
      var before, r := s[..|s| - 1], s[|s| - 1];
      WordsAreVisible(before);
      if !IsBlank(r) && before != [] && !EndsBlank(before) {
        var w := Words(before);
        assert forall i | 0 <= i < |w| - 1 :: Words(s)[i] == w[i];
        assert ' ' !in w[|w| - 1] + [r];
      }
    }
  }

  /** The first k of these words, put together, end just before p. */
  predicate EndAt(w: seq<string>, k: nat, p: nat) {
    0 < k < |w| && |Join(w[..k], ' ')| == p
  }

  /** Some of the words end at p, and others follow. */
  ghost predicate EndsBetween(w: seq<string>, p: nat) {
    exists k: nat :: EndAt(w, k, p)
  }

  lemma LastWordEnds(w: seq<string>, p: nat)
    requires w != []
    ensures var init := w[..|w| - 1];
      EndsBetween(w, p) <==> EndsBetween(init, p) || (init != [] && p == |Join(init, ' ')|)
  {
    var init := w[..|w| - 1];
    forall k: nat
      ensures EndAt(w, k, p) <==> EndAt(init, k, p) || (0 < k == |init| && p == |Join(init, ' ')|)
    {
      if k < |init| {
        assert init[..k] == w[..k];
      }
    }
    if init != [] && p == |Join(init, ' ')| {
      assert EndAt(w, |init|, p);
    }
  }

  /** Among words put together a space stands at p exactly when some of them end there and
      others follow. */
  lemma {:induction false} SpaceBetweenWords(w: seq<string>, p: nat)
    requires forall i | 0 <= i < |w| :: w[i] != [] && ' ' !in w[i]
    requires p < |Join(w, ' ')|
    ensures Join(w, ' ')[p] == ' ' <==> EndsBetween(w, p)
  {
    var init, last := w[..|w| - 1], w[|w| - 1];
    assert w == init + [last];
    JoinSnoc(init, last, ' ');
    LastWordEnds(w, p);
    var n := |Join(init, ' ')|;
    if init == [] {
      WordsEndWithin(init, p);
    } else if p < n {
      SpaceBetweenWords(init, p);
    } else if p > n {
      assert Join(w, ' ')[p] == last[p - n - 1];
      WordsEndWithin(init, p);
    }
  }

  lemma {:induction false} WordsEndWithin(w: seq<string>, p: nat)
    requires p >= |Join(w, ' ')|
    ensures !EndsBetween(w, p)
  {
    if |w| > 0 {
      var init, last := w[..|w| - 1], w[|w| - 1];
      assert w == init + [last];
      JoinSnoc(init, last, ' ');
      LastWordEnds(w, p);
      WordsEndWithin(init, p);
    }
  }

  /** The same on the words: one pass is not enough exactly when some of them, but not all,
      fill 127 runes, so that the cut falls on the space after them. */
  lemma OnePassSettlesByWords(s: string)
    ensures var w := Words(StripEscapes(s));
      Sanitized(Sanitized(s)) != Sanitized(s) <==> EndsBetween(w, MAX_ACTIVITY - 1)
  {
    var stripped := StripEscapes(s);
    var w := Words(stripped);
    OnePassSettles(s);
    CollapsedJoinsWords(stripped);
    WordsAreNotEmpty(stripped);
    WordsAreVisible(stripped);
    if |Join(w, ' ')| >= MAX_ACTIVITY {
      SpaceBetweenWords(w, MAX_ACTIVITY - 1);
      CollapsedIsSpaced(stripped);
    } else {
      WordsEndWithin(w, MAX_ACTIVITY - 1);
    }
  }

  // ------------------------------------------------------------- the wire value

  function StateName(state: AgentState): string {
    match state
    case Working => "working"
    case Blocked => "blocked"
    case Idle => "idle"
  }

  function StateNamed(name: string): Option<AgentState> {
    if name == "working" then Some(Working)
    else if name == "blocked" then Some(Blocked)
    else if name == "idle" then Some(Idle)
    else None
  }

  function FormatReport(state: AgentState, ms: int, activity: string): string {
    var a := Sanitized(activity);
    var stamped := FormatInt(ms);
    var tail := if a != "" then stamped + [';'] + a else stamped;
    REPORT_VERSION + [';'] + (StateName(state) + [';'] + tail)
  }

  /** Everything ParseReport decides without a clock: the shape of the value, and a
      positive timestamp that fits in 64 bits. */
  function Decode(v: string): (r: Option<Report>)
    ensures r.Some? ==> 0 < r.value.timestamp <= MAX_INT64
  {
    if v == "" || Bytes(v) > MAX_REPORT_BYTES then None else FromParts(SplitN(v, ';', 4))
  }

  function FromParts(parts: seq<string>): (r: Option<Report>)
    ensures r.Some? ==> 0 < r.value.timestamp <= MAX_INT64
  {
    if |parts| < 3 || parts[0] != REPORT_VERSION || StateNamed(parts[1]).None? then None
    else if !AllDigits(parts[2]) || parts[2] == "" then None
    else
      var ms := DigitsValue(parts[2]);
      if ms == 0 || ms > MAX_INT64 then None
      else Some(Report(StateNamed(parts[1]).value, ms, if |parts| == 4 then Sanitized(parts[3]) else ""))
  }

  /** ParseReport: a value dated more than five seconds ahead of the reader's clock
      is refused whole. */
  function ParseReport(v: string, now: int): (r: Option<Report>)
    ensures r.Some? ==> r == Decode(v) && 0 < r.value.timestamp <= UnixMilli(now) + FUTURE_SKEW_MS
    ensures r.None? <==> Decode(v).None? || Decode(v).value.timestamp > UnixMilli(now) + FUTURE_SKEW_MS
  {
    var r := Decode(v);
    if r.Some? && r.value.timestamp > UnixMilli(now + FUTURE_SKEW) then None else r
  }

  /** The reader the daemon is built over. */
  const PARSER: Parser := (v: string, now: int) => ParseReport(v, now)

  lemma StateNames(state: AgentState)
    ensures StateNamed(StateName(state)) == Some(state)
    ensures ';' !in StateName(state)
    ensures Bytes(StateName(state)) <= 7
  {
    BytesAscii(StateName(state));
  }

  /** Only the first three separators of a value are structural. */
  lemma SplitFields(a: string, b: string, rest: string, n: nat)
    requires ';' !in a && ';' !in b && n > 2
    ensures SplitN(a + [';'] + (b + [';'] + rest), ';', n) == [a, b] + SplitN(rest, ';', n - 2)
  {
    SplitNHead(b, ';', rest, n - 1);
    SplitNHead(a, ';', b + [';'] + rest, n);
  }

  lemma DigitsAreFree(ms: int)
    ensures ';' !in FormatInt(ms)
  {
    var digits := FormatInt(ms);
    assert forall i | 0 <= i < |digits| :: digits[i] == '-' || IsDigit(digits[i]);
  }

  lemma TailParts(digits: string, a: string)
    requires ';' !in digits
    ensures SplitN(if a != "" then digits + [';'] + a else digits, ';', 2) == [digits] + if a != "" then [a] else []
  {
    if a != "" {
      SplitNHead(digits, ';', a, 2);
    }
  }

  /** The value a writer stores, taken apart at its separators. */
  lemma FormatParts(state: AgentState, ms: int, activity: string)
    ensures SplitN(FormatReport(state, ms, activity), ';', 4)
      == [REPORT_VERSION, StateName(state), FormatInt(ms)]
         + (if Sanitized(activity) != "" then [Sanitized(activity)] else [])
  {
    StateNames(state);
    var digits, a := FormatInt(ms), Sanitized(activity);
    DigitsAreFree(ms);
    TailParts(digits, a);
    SplitFields(REPORT_VERSION, StateName(state), if a != "" then digits + [';'] + a else digits, 4);
  }

  lemma StampBytes(ms: int)
    requires 0 <= ms <= MAX_INT64
    ensures Bytes(FormatInt(ms)) <= 19
  {
    assert MAX_INT64 < PowerOfTen(19) by {
      assert PowerOfTen(10) == 10_000_000_000;
      assert PowerOfTen(19) == 1_000_000_000 * PowerOfTen(10);
    }
    DecimalLength(ms, 19);
    BytesAscii(Decimal(ms));
  }

  lemma BytesWithSeparator(head: string, tail: string)
    ensures Bytes(head + [';'] + tail) == Bytes(head) + 1 + Bytes(tail)
  {
    BytesConcat(head, [';']);
    BytesConcat(head + [';'], tail);
    BytesAscii([';']);
  }

  /** A stored value is never longer than 542 bytes, far inside the reader's cap. */
  lemma FormatBytes(state: AgentState, ms: int, activity: string)
    requires 0 <= ms <= MAX_INT64
    ensures Bytes(FormatReport(state, ms, activity)) <= 542
  {
    var stamped, a := FormatInt(ms), Sanitized(activity);
    var tail := if a != "" then stamped + [';'] + a else stamped;
    assert Bytes(tail) <= 532 by {
      StampBytes(ms);
      BytesBounds(a);
      BytesWithSeparator(stamped, a);
    }
    StateNames(state);
    BytesWithSeparator(StateName(state), tail);
    BytesWithSeparator(REPORT_VERSION, StateName(state) + [';'] + tail);
    BytesAscii(REPORT_VERSION);
  }

  lemma DecodeParts(v: string, state: AgentState, digits: string, text: seq<string>)
    requires SplitN(v, ';', 4) == [REPORT_VERSION, StateName(state), digits] + text && |text| <= 1
    requires v != "" && Bytes(v) <= MAX_REPORT_BYTES
    requires digits != "" && AllDigits(digits) && 0 < DigitsValue(digits) <= MAX_INT64
    ensures Decode(v) == Some(Report(state, DigitsValue(digits), if text != [] then Sanitized(text[0]) else ""))
  {
    assert StateNamed(StateName(state)) == Some(state) by {
      StateNames(state);
    }
  }

  /** What a writer stores is what every reader decodes, with the activity cleaned
      once on the way in and once on the way out. */
  lemma DecodeFormat(state: AgentState, ms: int, activity: string)
    requires 0 < ms <= MAX_INT64
    ensures Decode(FormatReport(state, ms, activity))
      == Some(Report(state, ms, Sanitized(Sanitized(activity))))
  {
    FormatParts(state, ms, activity);
    FormatBytes(state, ms, activity);
    DecimalValue(ms);
    var a := Sanitized(activity);
    DecodeParts(FormatReport(state, ms, activity), state, FormatInt(ms), if a != "" then [a] else []);
    assert Sanitized("") == "";
  }

  /** The three states, as they are spelled. */
  predicate Spelled(state: AgentState, name: string) {
    match state
    case Working => name == "working"
    case Blocked => name == "blocked"
    case Idle => name == "idle"
  }

  /** The value is version 1, a state, a decimal timestamp that is positive and fits in 64
      bits, and perhaps an activity, in at most 1024 bytes. */
  predicate Reads(v: string, r: Report, name: string, digits: string, text: Option<string>) {
    && Spelled(r.state, name) && digits != "" && (forall i | 0 <= i < |digits| :: '0' <= digits[i] <= '9')
    && v == "1" + [';'] + (name + [';'] + Stamped(digits, text))
    && 0 < r.timestamp == DigitsValue(digits) <= 0x7fff_ffff_ffff_ffff
    && r.activity == (if text.Some? then Sanitized(text.value) else "")
    && Bytes(v) <= 1024
  }

  lemma TailIs(stamped: string) returns (digits: string, text: Option<string>)
    ensures stamped == Stamped(digits, text)
    ensures SplitN(stamped, ';', 2) == [digits] + if text.Some? then [text.value] else []
  {
    digits, text := stamped, None;
    if ';' in stamped {
      var tail;
      digits, tail := SplitNCut(stamped, ';', 2);
      text := Some(tail);
      assert SplitN(tail, ';', 1) == [tail];
    }
  }

  lemma NothingToCut(s: string, n: nat)
    requires n > 0 && |SplitN(s, ';', n)| > 1
    ensures ';' in s
  {
  }

  lemma NameAndTail(rest: string) returns (name: string, digits: string, text: Option<string>)
    requires |SplitN(rest, ';', 3)| >= 2
    ensures rest == name + [';'] + Stamped(digits, text)
    ensures SplitN(rest, ';', 3) == [name] + ([digits] + if text.Some? then [text.value] else [])
  {
    var stamped;
    NothingToCut(rest, 3);
    name, stamped := SplitNCut(rest, ';', 3);
    digits, text := TailIs(stamped);
  }

  /** A value taken apart at its first separators. */
  lemma PartsAre(v: string) returns (version: string, name: string, digits: string, text: Option<string>)
    requires |SplitN(v, ';', 4)| >= 3
    ensures v == version + [';'] + (name + [';'] + Stamped(digits, text))
    ensures SplitN(v, ';', 4) == [version, name, digits] + if text.Some? then [text.value] else []
  {
    var rest;
    NothingToCut(v, 4);
    version, rest := SplitNCut(v, ';', 4);
    name, digits, text := NameAndTail(rest);
    Regrouped(version, name, digits, if text.Some? then [text.value] else []);
  }

  lemma Regrouped(a: string, b: string, c: string, more: seq<string>)
    ensures [a] + ([b] + ([c] + more)) == [a, b, c] + more
  {
  }

  function Stamped(digits: string, text: Option<string>): string {
    if text.Some? then digits + [';'] + text.value else digits
  }

  lemma TailSplits(digits: string, text: Option<string>)
    requires ';' !in digits
    ensures SplitN(Stamped(digits, text), ';', 2) == [digits] + if text.Some? then [text.value] else []
  {
    if text.Some? {
      SplitNHead(digits, ';', text.value, 2);
    }
  }

  lemma NamesAre(name: string, state: AgentState)
    ensures StateNamed(name) == Some(state) <==> Spelled(state, name)
  {
  }

  lemma PartsSay(version: string, name: string, digits: string, text: Option<string>, r: Report)
    ensures FromParts([version, name, digits] + if text.Some? then [text.value] else []) == Some(r)
      <==> && version == REPORT_VERSION && StateNamed(name) == Some(r.state) && digits != "" && AllDigits(digits)
           && 0 < r.timestamp == DigitsValue(digits) <= 0x7fff_ffff_ffff_ffff
           && r.activity == if text.Some? then Sanitized(text.value) else ""
  {
  }

  lemma SomeRead(v: string, r: Report) returns (name: string, digits: string, text: Option<string>)
    requires Decode(v) == Some(r)
    ensures Reads(v, r, name, digits, text)
  {
    var version;
    version, name, digits, text := PartsAre(v);
    PartsSay(version, name, digits, text, r);
    NamesAre(name, r.state);
  }

  lemma ReadParts(name: string, digits: string, text: Option<string>)
    requires ';' !in name && ';' !in digits
    ensures SplitN("1" + [';'] + (name + [';'] + Stamped(digits, text)), ';', 4)
      == ["1", name, digits] + if text.Some? then [text.value] else []
  {
    TailSplits(digits, text);
    SplitFields("1", name, Stamped(digits, text), 4);
  }

  lemma NothingToSplit(name: string, state: AgentState, digits: string)
    requires Spelled(state, name) && forall i | 0 <= i < |digits| :: '0' <= digits[i] <= '9'
    ensures ';' !in name && ';' !in digits
  {
  }

  lemma ReadIs(v: string, r: Report, name: string, digits: string, text: Option<string>)
    requires Reads(v, r, name, digits, text)
    ensures Decode(v) == Some(r)
  {
    NothingToSplit(name, r.state, digits);
    ReadParts(name, digits, text);
    NamesAre(name, r.state);
    PartsSay("1", name, digits, text, r);
  }

  ghost predicate SomeReads(v: string, r: Report) {
    exists name, digits, text :: Reads(v, r, name, digits, text)
  }

  /** What a value says, whoever wrote it. */
  lemma DecodeIs(v: string, r: Report)
    ensures Decode(v) == Some(r) <==> SomeReads(v, r)
  {
    if Decode(v) == Some(r) {
      var name, digits, text := SomeRead(v, r);
    }
    if name, digits, text :| Reads(v, r, name, digits, text) {
      ReadIs(v, r, name, digits, text);
    }
  }

  /** The round trip, and exactly when there is one: for any 64-bit timestamp the
      value reads back if and only if it is positive and at most five seconds
      ahead of the reader. */
  lemma ReportRoundTrip(state: AgentState, ms: int, activity: string, now: int)
    requires -MAX_INT64 - 1 <= ms <= MAX_INT64
    ensures ParseReport(FormatReport(state, ms, activity), now)
      == if 0 < ms <= UnixMilli(now) + 5000
         then Some(Report(state, ms, Sanitized(Sanitized(activity)))) else None
  {
    if ms > 0 {
      DecodeFormat(state, ms, activity);
    } else {
      FormatParts(state, ms, activity);
      if ms < 0 {
        assert FormatInt(ms)[0] == '-';
      } else {
        DecimalValue(0);
      }
    }
  }

  /** The round trip loses nothing the first cleaning kept, except the one space a
      cut at the 128th rune can leave. */
  lemma RoundTripActivity(state: AgentState, ms: int, activity: string)
    requires 0 < ms <= MAX_INT64
    ensures exists read ::
              && Decode(FormatReport(state, ms, activity)) == Some(Report(state, ms, read))
              && (read == Sanitized(activity) || (|Sanitized(activity)| == MAX_ACTIVITY && Sanitized(activity) == read + " "))
              && Decode(FormatReport(state, ms, read)) == Some(Report(state, ms, read))
  {
    DecodeFormat(state, ms, activity);
    TwoPassesSettle(activity);
    DecodeFormat(state, ms, Sanitized(Sanitized(activity)));
  }

  /** A writer's end and a reader's end of the option. */
  datatype Wire = Wire(format: (AgentState, int, string) -> string, parse: Parser)

  const CODEC := Wire((state: AgentState, ms: int, activity: string) => FormatReport(state, ms, activity), PARSER)

  /** A value reads back with its own state and date, whenever the reader's clock is at
      most five seconds behind that date, and not at all otherwise. */
  predicate ReadsBack(wire: Wire, state: AgentState, ms: int, activity: string, now: int) {
    var shown := wire.parse(wire.format(state, ms, activity), now);
    && (shown.Some? <==> ms <= UnixMilli(now) + FUTURE_SKEW_MS)
    && (shown.Some? ==> shown.value.state == state && shown.value.timestamp == ms)
  }

  /** What the rest of the protocol needs of the two ends. */
  ghost predicate Faithful(wire: Wire) {
    && (forall state, ms, activity, now | 0 < ms <= MAX_INT64 :: ReadsBack(wire, state, ms, activity, now))
    && (forall v, now ::
          wire.parse(v, now).Some? ==> wire.parse(v, now).value.timestamp <= UnixMilli(now) + FUTURE_SKEW_MS)
  }

  lemma CodecReadsBack(state: AgentState, ms: int, activity: string, now: int)
    requires 0 < ms <= MAX_INT64
    ensures ReadsBack(CODEC, state, ms, activity, now)
  {
    ReportRoundTrip(state, ms, activity, now);
  }

  lemma CodecIsFaithful()
    ensures Faithful(CODEC)
  {
    forall state, ms, activity, now | 0 < ms <= MAX_INT64
      ensures ReadsBack(CODEC, state, ms, activity, now)
    {
      CodecReadsBack(state, ms, activity, now);
    }
  }
}
