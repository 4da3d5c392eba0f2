/** Merging the hook entries into, and out of, a settings file somebody else owns
    (cmd/tmux-web/install.go). */
module Settings {
  import opened Prelude
  import opened Text
  import J = JsonText

  const SCRIPT_NAME := "tmux-web-report.sh"
  const CLAUDE_HOOK_EVENTS := ["UserPromptSubmit", "PreToolUse", "Notification", "Stop"]

  /** A value in the file: what it says once compacted, and how it is laid out. */
  datatype Entry = Entry(compact: J.Value, layout: string)

  /** The commands a value's hooks run, if it parses as a hook entry. */
  type Commands = J.Value -> Option<seq<string>>

  /** They are read from what the value says, however it spells it. */
  ghost predicate ReadsValues(commands: Commands) {
    forall a: J.Value, b: J.Value | J.Says(a) == J.Says(b) :: commands(a) == commands(b)
  }

  /** How the file is indented: the layout of a value is its compacted text's. */
  type Layout = J.Value -> string

  predicate ContainsAt(s: string, part: string, i: nat) {
    i + |part| <= |s| && s[i..i + |part|] == part
  }

  /** strings.Contains. */
  predicate Contains(s: string, part: string) {
    exists i: nat | i <= |s| :: ContainsAt(s, part, i)
  }

  /** An entry is ours by what it runs, wherever it stands. */
  predicate IsOurs(commands: Commands, e: Entry) {
    var hooks := commands(e.compact);
    hooks.Some? && exists i | 0 <= i < |hooks.value| :: Contains(hooks.value[i], SCRIPT_NAME)
  }

  /** The script's name stands at position k of the command. */
  predicate NamedAt(command: string, k: nat) {
    k + 18 <= |command| && command[k..k + 18] == "tmux-web-report.sh"
  }

  ghost predicate RunsTheScript(command: string) {
    exists k: nat :: NamedAt(command, k)
  }

  /** Ours are exactly the entries of which some command runs the script, and everything
      else is somebody else's: entries that do not parse, run nothing, or run no command
      with its name in it. */
  lemma OursRunTheScript(commands: Commands, e: Entry)
    ensures IsOurs(commands, e)
      <==> commands(e.compact).Some? && exists i | 0 <= i < |commands(e.compact).value| :: RunsTheScript(commands(e.compact).value[i])
  {
    var hooks := commands(e.compact);
    if hooks.Some? {
      forall i | 0 <= i < |hooks.value|
        ensures Contains(hooks.value[i], SCRIPT_NAME) <==> RunsTheScript(hooks.value[i])
      {
        ContainsName(hooks.value[i]);
      }
    }
  }

  lemma ContainsName(command: string)
    ensures Contains(command, SCRIPT_NAME) <==> RunsTheScript(command)
  {
    if i: nat :| i <= |command| && ContainsAt(command, SCRIPT_NAME, i) {
      assert NamedAt(command, i);
    }
    if k: nat :| NamedAt(command, k) {
      assert ContainsAt(command, SCRIPT_NAME, k);
    }
  }

  method IsOurEntry(commands: Commands, e: Entry) returns (ours: bool)
    ensures ours == IsOurs(commands, e)
  {
    var hooks := commands(e.compact);
    if hooks.None? {
      return false;
    }
    for i := 0 to |hooks.value|
      invariant forall k | 0 <= k < i :: !Contains(hooks.value[k], SCRIPT_NAME)
    {
      if Contains(hooks.value[i], SCRIPT_NAME) {
        return true;
      }
    }
    return false;
  }

  predicate SameJSON(a: Entry, b: Entry) {
    a.compact == b.compact
  }

  /** An event's value: a list of entries, or something this cannot merge into. */
  datatype HookValue = List(entries: seq<Entry>) | NotList

  type Hooks = map<string, HookValue>

  /** The file's "hooks": missing, an object of events, or something else. */
  datatype Field = Missing | Object(hooks: Hooks) | NotObject

  /** The file: not JSON, or the hooks beside everything else it holds. */
  datatype File = Invalid | File(rest: map<string, Entry>, field: Field)

  datatype Merge = Failed | Unchanged | Rewritten(file: File)

  // ------------------------------------------------------------------ writing it back

  /** An entry as it goes back into the file: marshalled with the hooks, then indented. */
  function Printed(lay: Layout, e: Entry): Entry {
    J.EscapedIsWell(e.compact);
    Entry(J.Escaped(e.compact), lay(J.Escaped(e.compact)))
  }

  function PrintedAll(lay: Layout, entries: seq<Entry>): seq<Entry> {
    if entries == [] then [] else PrintedAll(lay, entries[..|entries| - 1]) + [Printed(lay, entries[|entries| - 1])]
  }

  function PrintedValue(lay: Layout, v: Option<HookValue>): (r: Option<HookValue>)
    ensures r.Some? <==> v.Some?
  {
    if v.Some? && v.value.List? then Some(List(PrintedAll(lay, v.value.entries))) else v
  }

  function PrintedHooks(lay: Layout, hooks: Hooks): Hooks {
    map event | event in hooks :: PrintedValue(lay, Some(hooks[event])).value
  }

  /** The rest of the file is indented too, but its characters are left alone. */
  function Relaid(lay: Layout, rest: map<string, Entry>): map<string, Entry> {
    map key | key in rest :: rest[key].(layout := lay(rest[key].compact))
  }

  /** These entries say the same, whatever they look like. */
  predicate SaySame(a: seq<Entry>, b: seq<Entry>) {
    |a| == |b| && forall i | 0 <= i < |a| :: J.Says(a[i].compact) == J.Says(b[i].compact)
  }

  predicate SameButLayout(a: map<string, Entry>, b: map<string, Entry>) {
    a.Keys == b.Keys && forall key | key in a :: SameJSON(a[key], b[key])
  }

  lemma PrintedSnoc(lay: Layout, entries: seq<Entry>, e: Entry)
    ensures PrintedAll(lay, entries + [e]) == PrintedAll(lay, entries) + [Printed(lay, e)]
  {
    assert (entries + [e])[..|entries|] == entries;
  }

  lemma SaySameSnoc(a: seq<Entry>, b: seq<Entry>, x: Entry, y: Entry)
    requires SaySame(a, b) && J.Says(x.compact) == J.Says(y.compact)
    ensures SaySame(a + [x], b + [y])
  {
  }

  /** Going back into the file changes nothing an entry says, ... */
  lemma {:induction false} PrintedSaysTheSame(lay: Layout, entries: seq<Entry>)
    ensures SaySame(PrintedAll(lay, entries), entries)
  {
    if entries != [] {
      var init, e := entries[..|entries| - 1], entries[|entries| - 1];
      PrintedSaysTheSame(lay, init);
      J.EscapedSaysTheSame(e.compact);
      SaySameSnoc(PrintedAll(lay, init), init, Printed(lay, e), e);
      assert init + [e] == entries;
    }
  }

  /** ... but its text comes back as it was exactly when it has none of the characters
      that json.Marshal escapes. */
  lemma PrintedTextIsSame(lay: Layout, e: Entry)
    ensures SameJSON(Printed(lay, e), e) <==> forall i | 0 <= i < |e.compact| :: J.IsPlain(e.compact[i])
  {
    J.EscapedIsSame(e.compact);
  }

  /** What has been through once goes through again unchanged. */
  lemma {:induction false} PrintedTwice(lay: Layout, entries: seq<Entry>)
    ensures PrintedAll(lay, PrintedAll(lay, entries)) == PrintedAll(lay, entries)
  {
    if entries != [] {
      var init, e := entries[..|entries| - 1], entries[|entries| - 1];
      PrintedTwice(lay, init);
      PrintedSnoc(lay, PrintedAll(lay, init), Printed(lay, e));
      J.EscapedTwice(e.compact);
    }
  }

  lemma PrintedOwner(commands: Commands, lay: Layout, e: Entry)
    requires ReadsValues(commands)
    ensures IsOurs(commands, Printed(lay, e)) <==> IsOurs(commands, e)
  {
    J.EscapedSaysTheSame(e.compact);
  }

  /** One matcher entry of ours for each event, as generated. */
  type Desired = map<string, Entry>

  // ------------------------------------------------------------------- one event's list

  /** Walking one list: what is kept of it, whether our entry has its place, and whether
      anything is different. */
  datatype Swept = Swept(kept: seq<Entry>, placed: bool, changed: bool)

  function Sweep(commands: Commands, entries: seq<Entry>, want: Option<Entry>, remove: bool): Swept {
    if entries == [] then Swept([], false, false)
    else
      var s, e := Sweep(commands, entries[..|entries| - 1], want, remove), entries[|entries| - 1];
      if !IsOurs(commands, e) then s.(kept := s.kept + [e])
      else if remove || want.None? || s.placed then s.(changed := true)
      else Swept(s.kept + [want.value], true, s.changed || !SameJSON(e, want.value))
  }

  method SweepEntries(commands: Commands, entries: seq<Entry>, want: Option<Entry>, remove: bool) returns (s: Swept)
    ensures s == Sweep(commands, entries, want, remove)
  {
    var kept, placed, changed := [], false, false;
    for i := 0 to |entries|
      invariant Swept(kept, placed, changed) == Sweep(commands, entries[..i], want, remove)
    {
      assert entries[..i + 1][..i] == entries[..i];
      var ours := IsOurEntry(commands, entries[i]);
      if !ours {
        kept := kept + [entries[i]];
        continue;
      }
      if remove || want.None? || placed {
        changed := true;
        continue;
      }
      placed := true;
      if !SameJSON(entries[i], want.value) {
        changed := true;
      }
      kept := kept + [want.value];
    }
    assert entries[..|entries|] == entries;
    s := Swept(kept, placed, changed);
  }

  /** The entries of a list that are ours, and those that are not, each in order. */
  function OursIn(commands: Commands, entries: seq<Entry>): seq<Entry> {
    if entries == [] then []
    else
      var before, e := OursIn(commands, entries[..|entries| - 1]), entries[|entries| - 1];
      if IsOurs(commands, e) then before + [e] else before
  }

  function ForeignIn(commands: Commands, entries: seq<Entry>): seq<Entry> {
    if entries == [] then []
    else
      var before, e := ForeignIn(commands, entries[..|entries| - 1]), entries[|entries| - 1];
      if IsOurs(commands, e) then before else before + [e]
  }

  lemma InSnoc(commands: Commands, entries: seq<Entry>, e: Entry)
    ensures OursIn(commands, entries + [e]) == OursIn(commands, entries) + if IsOurs(commands, e) then [e] else []
    ensures ForeignIn(commands, entries + [e]) == ForeignIn(commands, entries) + if IsOurs(commands, e) then [] else [e]
  {
    assert (entries + [e])[..|entries|] == entries;
  }

  /** Nobody's entries change hands on the way into the file. */
  lemma {:induction false} InPrinted(commands: Commands, lay: Layout, entries: seq<Entry>)
    requires ReadsValues(commands)
    ensures OursIn(commands, PrintedAll(lay, entries)) == PrintedAll(lay, OursIn(commands, entries))
    ensures ForeignIn(commands, PrintedAll(lay, entries)) == PrintedAll(lay, ForeignIn(commands, entries))
  {
    if entries != [] {
      var init, e := entries[..|entries| - 1], entries[|entries| - 1];
      InPrinted(commands, lay, init);
      PrintedOwner(commands, lay, e);
      InSnoc(commands, PrintedAll(lay, init), Printed(lay, e));
      PrintedSnoc(lay, OursIn(commands, init), e);
      PrintedSnoc(lay, ForeignIn(commands, init), e);
    }
  }

  /** Our entry stands in this list as it should: once, and saying what is wanted. */
  predicate Settled(commands: Commands, entries: seq<Entry>, want: Option<Entry>) {
    var ours := OursIn(commands, entries);
    if want.None? then ours == [] else |ours| == 1 && SameJSON(ours[0], want.value)
  }

  lemma SettledPrinted(commands: Commands, lay: Layout, entries: seq<Entry>, want: Option<Entry>)
    requires ReadsValues(commands) && Settled(commands, entries, want)
    requires want.Some? ==> J.Escaped(want.value.compact) == want.value.compact
    ensures Settled(commands, PrintedAll(lay, entries), want)
  {
    InPrinted(commands, lay, entries);
    if want.Some? {
      var ours := OursIn(commands, entries);
      assert ours == [] + [ours[0]];
      PrintedSnoc(lay, [], ours[0]);
    }
  }

  /** What a sweep does to a list, in terms of whose entries are in it. */
  lemma {:induction false} SweepIs(commands: Commands, entries: seq<Entry>, want: Option<Entry>, remove: bool)
    requires want.Some? ==> IsOurs(commands, want.value)
    ensures var s, ours := Sweep(commands, entries, want, remove), OursIn(commands, entries);
      && ForeignIn(commands, s.kept) == ForeignIn(commands, entries)
      && (s.placed <==> !remove && want.Some? && ours != [])
      && OursIn(commands, s.kept) == (if s.placed then [want.value] else [])
      && (s.changed <==> if s.placed then |ours| > 1 || !SameJSON(ours[0], want.value) else ours != [])
  {
    if entries != [] {
      var init, e := entries[..|entries| - 1], entries[|entries| - 1];
      SweepIs(commands, init, want, remove);
      var s := Sweep(commands, init, want, remove);
      InSnoc(commands, s.kept, e);
      if want.Some? {
        InSnoc(commands, s.kept, want.value);
      }
    }
  }

  /** A reinstall replaces our entry where it stands and touches nothing else. */
  lemma {:induction false} SweepInPlace(commands: Commands, entries: seq<Entry>, want: Entry)
    requires |OursIn(commands, entries)| <= 1
    ensures var s := Sweep(commands, entries, Some(want), false);
      && |s.kept| == |entries| && (s.placed <==> OursIn(commands, entries) != [])
      && forall i | 0 <= i < |entries| :: s.kept[i] == if IsOurs(commands, entries[i]) then want else entries[i]
  {
    if entries != [] {
      SweepInPlace(commands, entries[..|entries| - 1], want);
    }
  }

  // ------------------------------------------------------------------ one event's value

  function EntriesOf(v: Option<HookValue>): seq<Entry> {
    if v.Some? && v.value.List? then v.value.entries else []
  }

  /** An event once swept: as it was if nothing differs, gone if nothing is left. */
  function Left(commands: Commands, v: Option<HookValue>, want: Option<Entry>, remove: bool): (left: Option<HookValue>)
    requires v.Some? ==> v.value.List?
    ensures left.Some? ==> left.value.List?
  {
    var s := Sweep(commands, EntriesOf(v), want, remove);
    if !s.changed then v else if s.kept == [] then None else Some(List(s.kept))
  }

  /** What becomes of one event: swept, and given our entry if it has none yet. A list
      left empty goes. */
  function After(commands: Commands, v: Option<HookValue>, want: Option<Entry>, remove: bool): Option<HookValue>
    requires v.Some? ==> v.value.List?
  {
    var left := Left(commands, v, want, remove);
    if remove || want.None? || Sweep(commands, EntriesOf(v), want, remove).placed then left
    else Some(List(EntriesOf(left) + [want.value]))
  }

  /** A removal does the same to a list whether it has been through the file or not. */
  lemma {:induction false} SweepPrinted(commands: Commands, lay: Layout, entries: seq<Entry>, want: Option<Entry>)
    requires ReadsValues(commands)
    ensures var s := Sweep(commands, entries, want, true);
      Sweep(commands, PrintedAll(lay, entries), want, true) == s.(kept := PrintedAll(lay, s.kept))
  {
    if entries != [] {
      var init, e := entries[..|entries| - 1], entries[|entries| - 1];
      SweepPrinted(commands, lay, init, want);
      PrintedOwner(commands, lay, e);
      PrintedSnoc(lay, Sweep(commands, init, want, true).kept, e);
    }
  }

  lemma AfterPrinted(commands: Commands, lay: Layout, v: Option<HookValue>, want: Option<Entry>)
    requires ReadsValues(commands) && (v.Some? ==> v.value.List?)
    ensures After(commands, PrintedValue(lay, v), want, true) == PrintedValue(lay, After(commands, v, want, true))
  {
    SweepPrinted(commands, lay, EntriesOf(v), want);
    assert EntriesOf(PrintedValue(lay, v)) == PrintedAll(lay, EntriesOf(v));
  }

  /** Whether one event is different afterwards. */
  predicate Changes(commands: Commands, v: Option<HookValue>, want: Option<Entry>, remove: bool)
    requires v.Some? ==> v.value.List?
  {
    var s := Sweep(commands, EntriesOf(v), want, remove);
    s.changed || (!remove && want.Some? && !s.placed)
  }

  /** Afterwards the event holds what it should of ours, and of everybody else's exactly
      what it held before, in the same order. */
  lemma AfterIs(commands: Commands, v: Option<HookValue>, want: Option<Entry>, remove: bool)
    requires v.Some? ==> v.value.List?
    requires want.Some? ==> IsOurs(commands, want.value)
    ensures var a := After(commands, v, want, remove);
      && (a.Some? ==> a.value.List?)
      && Settled(commands, EntriesOf(a), if remove then None else want)
      && ForeignIn(commands, EntriesOf(a)) == ForeignIn(commands, EntriesOf(v))
      && (!Changes(commands, v, want, remove) ==> a == v)
  {
    SweepIs(commands, EntriesOf(v), want, remove);
    var s := Sweep(commands, EntriesOf(v), want, remove);
    if want.Some? {
      InSnoc(commands, s.kept, want.value);
      InSnoc(commands, EntriesOf(v), want.value);
      InSnoc(commands, [], want.value);
    }
  }

  /** What is settled is left alone. */
  lemma SettledIsUnchanged(commands: Commands, v: Option<HookValue>, want: Option<Entry>)
    requires v.Some? ==> v.value.List?
    requires want.Some? ==> IsOurs(commands, want.value)
    ensures Settled(commands, EntriesOf(v), want) <==> !Changes(commands, v, want, false)
  {
    SweepIs(commands, EntriesOf(v), want, false);
  }

  /** Taking our entry out again after putting it into a list that had none gives the
      list back, unless it was empty: an empty list goes. */
  lemma {:induction false} NoneOfOurs(commands: Commands, entries: seq<Entry>, want: Option<Entry>, remove: bool)
    requires OursIn(commands, entries) == []
    ensures Sweep(commands, entries, want, remove) == Swept(entries, false, false)
  {
    if entries != [] {
      NoneOfOurs(commands, entries[..|entries| - 1], want, remove);
      assert entries[..|entries| - 1] + [entries[|entries| - 1]] == entries;
    }
  }

  lemma RemoveUndoesInstall(commands: Commands, v: Option<HookValue>, want: Option<Entry>)
    requires v.Some? ==> v.value.List?
    requires want.Some? ==> IsOurs(commands, want.value)
    requires OursIn(commands, EntriesOf(v)) == []
    ensures var a := After(commands, v, want, false);
      && (a.Some? ==> a.value.List?)
      && After(commands, a, want, true) == if want.Some? && EntriesOf(v) == [] then None else v
  {
    var entries := EntriesOf(v);
    NoneOfOurs(commands, entries, want, false);
    var a := After(commands, v, want, false);
    if want.Some? {
      NoneOfOurs(commands, entries, want, true);
      assert (entries + [want.value])[..|entries|] == entries;
      assert Sweep(commands, entries + [want.value], want, true) == Swept(entries, false, true);
    } else {
      NoneOfOurs(commands, entries, want, true);
    }
  }

  // ----------------------------------------------------------------------- the whole file

  function ValueOf(hooks: Hooks, event: string): Option<HookValue> {
    if event in hooks then Some(hooks[event]) else None
  }

  function WantFor(desired: Desired, event: string): Option<Entry> {
    if event in desired then Some(desired[event]) else None
  }

  predicate AllLists(hooks: Hooks) {
    forall event | event in hooks :: hooks[event].List?
  }

  function AfterIn(commands: Commands, hooks: Hooks, desired: Desired, remove: bool, event: string): Option<HookValue>
    requires AllLists(hooks)
  {
    After(commands, ValueOf(hooks, event), WantFor(desired, event), remove)
  }

  function MergedHooks(commands: Commands, hooks: Hooks, desired: Desired, remove: bool): (merged: Hooks)
    requires AllLists(hooks)
  {
    map event | event in hooks.Keys + desired.Keys && AfterIn(commands, hooks, desired, remove, event).Some? ::
      AfterIn(commands, hooks, desired, remove, event).value
  }

  predicate ChangesIn(commands: Commands, hooks: Hooks, desired: Desired, remove: bool, event: string)
    requires AllLists(hooks)
  {
    Changes(commands, ValueOf(hooks, event), WantFor(desired, event), remove)
  }

  predicate AnyChanges(commands: Commands, hooks: Hooks, desired: Desired, remove: bool)
    requires AllLists(hooks)
  {
    exists event | event in hooks.Keys + desired.Keys :: ChangesIn(commands, hooks, desired, remove, event)
  }

  /** The events as the merge reads them: a missing object is an empty one. */
  function HooksIn(f: Field): Option<Hooks> {
    match f
    case Missing => Some(map[])
    case Object(hooks) => if AllLists(hooks) then Some(hooks) else None
    case NotObject => None
  }

  function FieldFor(hooks: Hooks): Field {
    if hooks == map[] then Missing else Object(hooks)
  }

  /** The file with these hooks in it, as it is written. */
  function Written(lay: Layout, file: File, hooks: Hooks): (out: File)
    requires file.File?
    ensures out.File?
  {
    File(Relaid(lay, file.rest), FieldFor(PrintedHooks(lay, hooks)))
  }

  lemma WrittenHooks(lay: Layout, file: File, hooks: Hooks)
    requires file.File? && AllLists(hooks)
    ensures HooksIn(Written(lay, file, hooks).field) == Some(PrintedHooks(lay, hooks)) && AllLists(PrintedHooks(lay, hooks))
    ensures forall event :: ValueOf(PrintedHooks(lay, hooks), event) == PrintedValue(lay, ValueOf(hooks, event))
  {
  }

  /** The merge: refused on anything that is not the shape it knows, and otherwise each
      event on its own. A merge that changes nothing writes nothing. */
  function MergeFile(commands: Commands, lay: Layout, file: File, desired: Desired, remove: bool): Merge {
    if file.Invalid? || HooksIn(file.field).None? then Failed
    else
      var hooks := HooksIn(file.field).value;
      if !AnyChanges(commands, hooks, desired, remove) then Unchanged
      else Rewritten(Written(lay, file, MergedHooks(commands, hooks, desired, remove)))
  }

  /** The generated block, itself marshalled: one entry of ours for each of the events,
      each named once. */
  predicate Generated(commands: Commands, desired: Desired, events: seq<string>) {
    && (forall event | event in desired :: IsOurs(commands, desired[event]))
    && (forall event | event in desired :: J.Escaped(desired[event].compact) == desired[event].compact)
    && (forall event | event in desired :: event in events) && (forall event | event in events :: event in desired)
    && (forall i, j | 0 <= i < j < |events| :: events[i] != events[j])
  }

  lemma ClaudeEventsAreDistinct()
    ensures forall i, j | 0 <= i < j < |CLAUDE_HOOK_EVENTS| :: CLAUDE_HOOK_EVENTS[i] != CLAUDE_HOOK_EVENTS[j]
  {
    assert |CLAUDE_HOOK_EVENTS[0]| == 16 && |CLAUDE_HOOK_EVENTS[1]| == 10;
    assert |CLAUDE_HOOK_EVENTS[2]| == 12 && |CLAUDE_HOOK_EVENTS[3]| == 4;
  }

  predicate PlacedIn(commands: Commands, hooks: Hooks, desired: Desired, remove: bool, event: string) {
    Sweep(commands, EntriesOf(ValueOf(hooks, event)), WantFor(desired, event), remove).placed
  }

  predicate SweptIn(commands: Commands, hooks: Hooks, desired: Desired, remove: bool, event: string) {
    Sweep(commands, EntriesOf(ValueOf(hooks, event)), WantFor(desired, event), remove).changed
  }

  function PutValue(hooks: Hooks, event: string, v: Option<HookValue>): Hooks {
    if v.Some? then hooks[event := v.value] else hooks - {event}
  }

  lemma PutValueIs(hooks: Hooks, event: string, v: Option<HookValue>)
    ensures forall other :: ValueOf(PutValue(hooks, event, v), other) == if other == event then v else ValueOf(hooks, other)
  {
  }

  /** Where the first loop stands on one event: swept, or as it was. */
  predicate SweptEvent(commands: Commands, original: Hooks, desired: Desired, remove: bool, event: string,
                       done: bool, v: Option<HookValue>, placed: bool, differs: bool)
  {
    if done && event in original then
      && original[event].List?
      && v == Left(commands, ValueOf(original, event), WantFor(desired, event), remove)
      && (placed <==> PlacedIn(commands, original, desired, remove, event))
      && (differs <==> SweptIn(commands, original, desired, remove, event))
    else v == ValueOf(original, event) && !placed && !differs
  }

  /** What the first loop has done once every event but those left has been swept. */
  ghost predicate SweptAllBut(commands: Commands, original: Hooks, desired: Desired, remove: bool, left: set<string>,
                              hooks: Hooks, placed: set<string>, differing: set<string>)
  {
    forall event :: SweptEvent(commands, original, desired, remove, event, event !in left,
                               ValueOf(hooks, event), event in placed, event in differing)
  }

  lemma OneMoreSwept(commands: Commands, original: Hooks, desired: Desired, remove: bool, left: set<string>,
                     hooks: Hooks, placed: set<string>, differing: set<string>, event: string)
    requires SweptAllBut(commands, original, desired, remove, left, hooks, placed, differing)
    requires event in left && left <= original.Keys && original[event].List?
    ensures var s := Sweep(commands, original[event].entries, WantFor(desired, event), remove);
      SweptAllBut(commands, original, desired, remove, left - {event},
                  if s.changed then PutValue(hooks, event, if s.kept == [] then None else Some(List(s.kept))) else hooks,
                  if s.placed then placed + {event} else placed, if s.changed then differing + {event} else differing)
  {
    var s := Sweep(commands, original[event].entries, WantFor(desired, event), remove);
    var v := if s.kept == [] then None else Some(List(s.kept));
    var hooks' := if s.changed then PutValue(hooks, event, v) else hooks;
    PutValueIs(hooks, event, v);
    forall other
      ensures SweptEvent(commands, original, desired, remove, other, other !in left - {event}, ValueOf(hooks', other),
                         other in (if s.placed then placed + {event} else placed),
                         other in (if s.changed then differing + {event} else differing))
    {
      assert SweptEvent(commands, original, desired, remove, other, other !in left,
                        ValueOf(hooks, other), other in placed, other in differing);
    }
  }

  lemma SweptAreLists(commands: Commands, original: Hooks, desired: Desired, remove: bool,
                      hooks: Hooks, placed: set<string>, differing: set<string>)
    requires SweptAllBut(commands, original, desired, remove, {}, hooks, placed, differing)
    ensures AllLists(original) && AllLists(hooks)
  {
    assert forall event | event in original :: event in original.Keys - {};
    forall event | event in hooks
      ensures hooks[event].List?
    {
      assert ValueOf(hooks, event).Some?;
      if event in original {
        assert ValueOf(hooks, event) == Left(commands, ValueOf(original, event), WantFor(desired, event), remove);
      }
    }
  }

  /** The first loop: every event there is, in whatever order the map gives them. */
  method SweepAll(commands: Commands, original: Hooks, desired: Desired, remove: bool)
    returns (hooks: Hooks, placed: set<string>, changed: bool, ok: bool, ghost differing: set<string>)
    ensures ok <==> AllLists(original)
    ensures ok ==> SweptAllBut(commands, original, desired, remove, {}, hooks, placed, differing)
    ensures ok ==> (changed <==> differing != {})
  {
    hooks, placed, changed, ok, differing := original, {}, false, true, {};
    var left := original.Keys;
    while left != {}
      invariant left <= original.Keys && (changed <==> differing != {}) && ok
      invariant SweptAllBut(commands, original, desired, remove, left, hooks, placed, differing)
      decreases |left|
    {
      var event :| event in left;
      if original[event].NotList? {
        ok := false;
        return;
      }
      OneMoreSwept(commands, original, desired, remove, left, hooks, placed, differing, event);
      left := left - {event};
      var s := SweepEntries(commands, original[event].entries, WantFor(desired, event), remove);
      if s.placed {
        placed := placed + {event};
      }
      if s.changed {
        changed := true;
        differing := differing + {event};
        hooks := PutValue(hooks, event, if s.kept == [] then None else Some(List(s.kept)));
      }
    }
  }

  /** An event with our entry put at its end, where that is asked for. */
  function Placed(v: Option<HookValue>, want: Option<Entry>, add: bool): Option<HookValue> {
    if add && want.Some? then Some(List(EntriesOf(v) + [want.value])) else v
  }

  /** The second loop: our entry at the end of every event that has none. */
  method PlaceAll(hooks: Hooks, placed: set<string>, desired: Desired, events: seq<string>)
    returns (out: Hooks, added: bool)
    requires AllLists(hooks) && (forall event | event in events :: event in desired)
    requires forall i, j | 0 <= i < j < |events| :: events[i] != events[j]
    ensures forall event :: ValueOf(out, event)
              == Placed(ValueOf(hooks, event), WantFor(desired, event), event in events && event !in placed)
    ensures added <==> exists event | event in events :: event !in placed
  {
    out, added := hooks, false;
    for i := 0 to |events|
      invariant forall event :: ValueOf(out, event)
                  == Placed(ValueOf(hooks, event), WantFor(desired, event), event in events[..i] && event !in placed)
      invariant added <==> exists k | 0 <= k < i :: events[k] !in placed
    {
      var event := events[i];
      assert event !in events[..i];
      if event in placed {
        continue;
      }
      var entries := if event in out then out[event].entries else [];
      out := out[event := List(entries + [desired[event]])];
      added := true;
    }
    assert events[..|events|] == events;
  }

  lemma MergedIs(commands: Commands, hooks: Hooks, desired: Desired, events: seq<string>, remove: bool)
    requires AllLists(hooks) && Generated(commands, desired, events)
    ensures var merged := MergedHooks(commands, hooks, desired, remove);
      && AllLists(merged) && HooksIn(FieldFor(merged)) == Some(merged)
      && forall event :: ValueOf(merged, event) == AfterIn(commands, hooks, desired, remove, event)
  {
    forall event
      ensures var a := AfterIn(commands, hooks, desired, remove, event); a.Some? ==> a.value.List?
      ensures event !in hooks.Keys + desired.Keys ==> AfterIn(commands, hooks, desired, remove, event).None?
    {
      AfterIs(commands, ValueOf(hooks, event), WantFor(desired, event), remove);
    }
  }

  lemma BothLoopsOn(commands: Commands, original: Hooks, desired: Desired, remove: bool,
                    swept: Hooks, placed: set<string>, differing: set<string>, event: string)
    requires SweptAllBut(commands, original, desired, remove, {}, swept, placed, differing) && AllLists(original)
    ensures Placed(ValueOf(swept, event), WantFor(desired, event), !remove && event !in placed)
      == AfterIn(commands, original, desired, remove, event)
  {
    assert SweptEvent(commands, original, desired, remove, event, event !in {},
                      ValueOf(swept, event), event in placed, event in differing);
  }

  /** Both loops together leave each event what it should become. */
  lemma BothLoopsMerge(commands: Commands, original: Hooks, desired: Desired, events: seq<string>, remove: bool,
                       swept: Hooks, placed: set<string>, differing: set<string>, out: Hooks)
    requires Generated(commands, desired, events)
    requires SweptAllBut(commands, original, desired, remove, {}, swept, placed, differing) && AllLists(original)
    requires forall event :: ValueOf(out, event)
               == Placed(ValueOf(swept, event), WantFor(desired, event), !remove && event !in placed)
    ensures out == MergedHooks(commands, original, desired, remove)
  {
    var merged := MergedHooks(commands, original, desired, remove);
    MergedIs(commands, original, desired, events, remove);
    forall event
      ensures ValueOf(out, event) == ValueOf(merged, event)
    {
      BothLoopsOn(commands, original, desired, remove, swept, placed, differing, event);
    }
    SameValues(out, merged);
  }

  lemma SameValues(a: Hooks, b: Hooks)
    requires forall event :: ValueOf(a, event) == ValueOf(b, event)
    ensures a == b
  {
    forall event
      ensures event in a <==> event in b
      ensures event in a ==> a[event] == b[event]
    {
      assert ValueOf(a, event) == ValueOf(b, event);
    }
  }

  lemma BothLoopsChange(commands: Commands, original: Hooks, desired: Desired, events: seq<string>, remove: bool,
                        swept: Hooks, placed: set<string>, differing: set<string>)
    requires Generated(commands, desired, events)
    requires SweptAllBut(commands, original, desired, remove, {}, swept, placed, differing) && AllLists(original)
    ensures AnyChanges(commands, original, desired, remove)
      <==> differing != {} || (!remove && exists event | event in events :: event !in placed)
  {
    assert original.Keys - {} == original.Keys;
    forall event | event in original.Keys + desired.Keys
      ensures ChangesIn(commands, original, desired, remove, event)
        <==> event in differing || (!remove && event in events && event !in placed)
    {
    }
    if event :| event in differing {
      assert ChangesIn(commands, original, desired, remove, event);
    }
    if !remove {
      if event :| event in events && event !in placed {
        assert ChangesIn(commands, original, desired, remove, event);
      }
    }
  }

  /** The last event takes the object with it. */
  method WriteBack(lay: Layout, file: File, hooks: Hooks) returns (out: File)
    requires file.File?
    ensures out == Written(lay, file, hooks)
  {
    var field := if |hooks| == 0 then Missing else Object(PrintedHooks(lay, hooks));
    assert hooks != map[] ==> PrintedHooks(lay, hooks).Keys == hooks.Keys != {};
    out := File(Relaid(lay, file.rest), field);
  }

  method MergeClaudeHooks(commands: Commands, lay: Layout, file: File, desired: Desired, events: seq<string>, remove: bool)
    returns (merge: Merge)
    requires Generated(commands, desired, events)
    ensures merge == MergeFile(commands, lay, file, desired, remove)
  {
    if file.Invalid? || file.field.NotObject? {
      return Failed;
    }
    var original: Hooks := if file.field.Missing? then map[] else file.field.hooks;
    var hooks, placed, changed, ok, differing := SweepAll(commands, original, desired, remove);
    if !ok {
      return Failed;
    }
    ghost var swept := hooks;
    assert HooksIn(file.field) == Some(original);
    SweptAreLists(commands, original, desired, remove, hooks, placed, differing);
    BothLoopsChange(commands, original, desired, events, remove, swept, placed, differing);
    if !remove {
      var added;
      hooks, added := PlaceAll(hooks, placed, desired, events);
      changed := changed || added;
    }
    if !changed {
      return Unchanged;
    }
    BothLoopsMerge(commands, original, desired, events, remove, swept, placed, differing, hooks);
    var out := WriteBack(lay, file, hooks);
    return Rewritten(out);
  }

  // --------------------------------------------------------------------- what users get

  /** The file after a merge. */
  function Result(file: File, m: Merge): File {
    if m.Rewritten? then m.file else file
  }

  /** What an event holds in a file. */
  function EntriesFor(file: File, event: string): seq<Entry> {
    if file.File? && HooksIn(file.field).Some? then EntriesOf(ValueOf(HooksIn(file.field).value, event)) else []
  }

  /** What a rewritten file holds for one event. */
  lemma WrittenFor(commands: Commands, lay: Layout, file: File, desired: Desired, events: seq<string>, remove: bool, event: string)
    requires Generated(commands, desired, events) && file.File? && HooksIn(file.field).Some?
    ensures var hooks := HooksIn(file.field).value;
      var out := Written(lay, file, MergedHooks(commands, hooks, desired, remove));
      && HooksIn(out.field).Some?
      && ValueOf(HooksIn(out.field).value, event) == PrintedValue(lay, AfterIn(commands, hooks, desired, remove, event))
      && EntriesFor(out, event) == PrintedAll(lay, EntriesOf(AfterIn(commands, hooks, desired, remove, event)))
  {
    var hooks := HooksIn(file.field).value;
    MergedIs(commands, hooks, desired, events, remove);
    WrittenHooks(lay, file, MergedHooks(commands, hooks, desired, remove));
    AfterIs(commands, ValueOf(hooks, event), WantFor(desired, event), remove);
  }

  lemma RewriteIsExact(commands: Commands, lay: Layout, file: File, desired: Desired, events: seq<string>, remove: bool, event: string)
    requires ReadsValues(commands) && Generated(commands, desired, events) && file.File? && HooksIn(file.field).Some?
    ensures var after := Written(lay, file, MergedHooks(commands, HooksIn(file.field).value, desired, remove));
      && HooksIn(after.field).Some?
      && Settled(commands, EntriesFor(after, event), if remove then None else WantFor(desired, event))
      && SaySame(ForeignIn(commands, EntriesFor(after, event)), ForeignIn(commands, EntriesFor(file, event)))
  {
    var hooks, want := HooksIn(file.field).value, WantFor(desired, event);
    WrittenFor(commands, lay, file, desired, events, remove, event);
    AfterIs(commands, ValueOf(hooks, event), want, remove);
    var entries := EntriesOf(AfterIn(commands, hooks, desired, remove, event));
    SettledPrinted(commands, lay, entries, if remove then None else want);
    InPrinted(commands, lay, entries);
    PrintedSaysTheSame(lay, ForeignIn(commands, entries));
  }

  /** After a merge that was not refused, every event holds exactly what it should of
      ours: one entry saying what is wanted where one is wanted, and otherwise none.
      Everybody else's entries are all there in their order, saying what they said, and
      the rest of the file is as it was but for its layout. */
  lemma MergeIsExact(commands: Commands, lay: Layout, file: File, desired: Desired, events: seq<string>, remove: bool, event: string)
    requires ReadsValues(commands) && Generated(commands, desired, events)
    requires var m := MergeFile(commands, lay, file, desired, remove); !m.Failed?
    ensures var after := Result(file, MergeFile(commands, lay, file, desired, remove));
      && after.File? && HooksIn(after.field).Some? && SameButLayout(after.rest, file.rest)
      && Settled(commands, EntriesFor(after, event), if remove then None else WantFor(desired, event))
      && SaySame(ForeignIn(commands, EntriesFor(after, event)), ForeignIn(commands, EntriesFor(file, event)))
  {
    var hooks := HooksIn(file.field).value;
    var want := WantFor(desired, event);
    AfterIs(commands, ValueOf(hooks, event), want, remove);
    if AnyChanges(commands, hooks, desired, remove) {
      RewriteIsExact(commands, lay, file, desired, events, remove, event);
    } else if event in hooks.Keys + desired.Keys {
      assert !ChangesIn(commands, hooks, desired, remove, event);
    }
  }

  /** Installing twice changes nothing the second time, and it is exactly the files that
      hold what an install leaves that an install leaves alone. */
  lemma InstallSettles(commands: Commands, lay: Layout, file: File, desired: Desired, events: seq<string>)
    requires Generated(commands, desired, events)
    requires file.File? && HooksIn(file.field).Some?
    ensures MergeFile(commands, lay, file, desired, false) == Unchanged
      <==> forall event :: Settled(commands, EntriesFor(file, event), WantFor(desired, event))
  {
    var hooks := HooksIn(file.field).value;
    forall event
      ensures Settled(commands, EntriesFor(file, event), WantFor(desired, event))
        <==> !ChangesIn(commands, hooks, desired, false, event)
    {
      SettledIsUnchanged(commands, ValueOf(hooks, event), WantFor(desired, event));
    }
    assert forall event | event !in hooks.Keys + desired.Keys :: !ChangesIn(commands, hooks, desired, false, event);
  }

  lemma InstallTwice(commands: Commands, lay: Layout, file: File, desired: Desired, events: seq<string>)
    requires ReadsValues(commands) && Generated(commands, desired, events)
    requires !MergeFile(commands, lay, file, desired, false).Failed?
    ensures MergeFile(commands, lay, Result(file, MergeFile(commands, lay, file, desired, false)), desired, false) == Unchanged
  {
    var after := Result(file, MergeFile(commands, lay, file, desired, false));
    forall event
      ensures after.File? && HooksIn(after.field).Some?
      ensures Settled(commands, EntriesFor(after, event), WantFor(desired, event))
    {
      MergeIsExact(commands, lay, file, desired, events, false, event);
    }
    MergeIsExact(commands, lay, file, desired, events, false, "");
    InstallSettles(commands, lay, after, desired, events);
  }

  /** A rewritten file never holds an empty object of hooks: the last event takes the object
      with it; and the rest is laid out anew. */
  lemma NoEmptyObject(commands: Commands, lay: Layout, file: File, desired: Desired, remove: bool)
    requires MergeFile(commands, lay, file, desired, remove).Rewritten?
    ensures var out := MergeFile(commands, lay, file, desired, remove).file;
      && out.File? && !out.field.NotObject? && (out.field.Object? ==> out.field.hooks != map[])
      && (forall key | key in out.rest :: out.rest[key].layout == lay(out.rest[key].compact))
  {
    var merged := MergedHooks(commands, HooksIn(file.field).value, desired, remove);
    assert PrintedHooks(lay, merged).Keys == merged.Keys;
  }

  /** Nothing in the file is ours. */
  ghost predicate AllForeign(commands: Commands, file: File) {
    file.File? && HooksIn(file.field).Some? && forall event :: OursIn(commands, EntriesFor(file, event)) == []
  }

  lemma InstallWrites(commands: Commands, lay: Layout, file: File, desired: Desired, events: seq<string>)
    requires Generated(commands, desired, events) && events != [] && AllForeign(commands, file)
    ensures var hooks := HooksIn(file.field).value;
      MergeFile(commands, lay, file, desired, false) == Rewritten(Written(lay, file, MergedHooks(commands, hooks, desired, false)))
  {
    NoneOfOurs(commands, EntriesFor(file, events[0]), WantFor(desired, events[0]), false);
    assert ChangesIn(commands, HooksIn(file.field).value, desired, false, events[0]);
  }

  lemma RemoveWrites(commands: Commands, lay: Layout, file: File, desired: Desired, events: seq<string>)
    requires Generated(commands, desired, events) && events != [] && file.File? && HooksIn(file.field).Some?
    requires Settled(commands, EntriesFor(file, events[0]), WantFor(desired, events[0]))
    ensures var hooks := HooksIn(file.field).value;
      MergeFile(commands, lay, file, desired, true) == Rewritten(Written(lay, file, MergedHooks(commands, hooks, desired, true)))
  {
    SweepIs(commands, EntriesFor(file, events[0]), WantFor(desired, events[0]), true);
    assert ChangesIn(commands, HooksIn(file.field).value, desired, true, events[0]);
  }

  /** What an event comes back as: gone if it was an installed one with nothing in it, and
      otherwise as it was, printed. */
  function Restored(lay: Layout, v: Option<HookValue>, installed: bool): Option<HookValue> {
    if installed && EntriesOf(v) == [] then None else PrintedValue(lay, v)
  }

  /** One event's value, installed and written, then removed and written again. */
  lemma InstalledAndRemoved(commands: Commands, lay: Layout, v: Option<HookValue>, want: Option<Entry>)
    requires ReadsValues(commands) && (v.Some? ==> v.value.List?) && (want.Some? ==> IsOurs(commands, want.value))
    requires OursIn(commands, EntriesOf(v)) == []
    ensures var a := After(commands, v, want, false);
      && (a.Some? ==> a.value.List?)
      && PrintedValue(lay, After(commands, PrintedValue(lay, a), want, true)) == Restored(lay, v, want.Some?)
  {
    RemoveUndoesInstall(commands, v, want);
    AfterPrinted(commands, lay, After(commands, v, want, false), want);
    PrintedTwice(lay, EntriesOf(v));
  }

  /** Removing undoes installing. In a file that held nothing of ours each event comes
      back with the entries it had, saying what they said, except that one of the
      installed events whose list was empty is gone; and the rest of the file is as it
      was but for its layout. */
  lemma RemoveAfterInstall(commands: Commands, lay: Layout, file: File, desired: Desired, events: seq<string>, event: string)
    requires ReadsValues(commands) && Generated(commands, desired, events) && events != [] && AllForeign(commands, file)
    ensures var installed := Result(file, MergeFile(commands, lay, file, desired, false));
      var m := MergeFile(commands, lay, installed, desired, true);
      && m.Rewritten? && m.file.File? && SameButLayout(m.file.rest, file.rest) && HooksIn(m.file.field).Some?
      && ValueOf(HooksIn(m.file.field).value, event) == Restored(lay, ValueOf(HooksIn(file.field).value, event), event in events)
      && SaySame(EntriesFor(m.file, event), EntriesFor(file, event))
  {
    var hooks := HooksIn(file.field).value;
    var installed := Written(lay, file, MergedHooks(commands, hooks, desired, false));
    InstallWrites(commands, lay, file, desired, events);
    WrittenFor(commands, lay, file, desired, events, false, event);
    MergeIsExact(commands, lay, file, desired, events, false, events[0]);
    RemoveWrites(commands, lay, installed, desired, events);
    WrittenFor(commands, lay, installed, desired, events, true, event);
    assert OursIn(commands, EntriesFor(file, event)) == [];
    InstalledAndRemoved(commands, lay, ValueOf(hooks, event), WantFor(desired, event));
    PrintedSaysTheSame(lay, EntriesFor(file, event));
  }
}
