/** The shape of one classifying loop, with the decision about a single pane left
    open: two memories keyed by pane id, one pass over rows that name each pane at
    most once, and both memories cut back at the end to what the pass saw. */
module PaneWalk {
  import opened Prelude
  import opened PaneMaps

  /** One pane's step: what both memories say about it and its row, before and after. */
  datatype Step<E, S, R> = Step(report: Option<E>, screen: Option<S>, row: R)

  /** The decision, and how to read a row. A row that is no agent's keeps no report. */
  datatype Rule<!E, !S, !R> = Rule(id: R -> string, agent: R -> bool, decide: Step<E, S, R> -> Step<E, S, R>)

  ghost predicate Sound<E(!new), S(!new), R(!new)>(rule: Rule<E, S, R>) {
    forall s: Step<E, S, R> :: !rule.agent(s.row) ==> rule.decide(s).report.None? && rule.decide(s).screen.None?
  }

  datatype Walk<E, S, R> = Walk(reports: map<string, E>, screens: map<string, S>,
                                agents: seq<string>, captured: seq<string>, out: seq<R>)

  function StepOf<E, S, R>(rule: Rule<E, S, R>, reports: map<string, E>, screens: map<string, S>, row: R): Step<E, S, R> {
    rule.decide(Step(At(reports, rule.id(row)), At(screens, rule.id(row)), row))
  }

  /** One row of the loop: an agent's report is written back, its screen only if it
      was captured. */
  function Over<E, S, R>(rule: Rule<E, S, R>, walk: Walk<E, S, R>, row: R): Walk<E, S, R> {
    var id := rule.id(row);
    var step := StepOf(rule, walk.reports, walk.screens, row);
    Walk(if rule.agent(row) then Put(walk.reports, id, step.report) else walk.reports,
         if step.screen.Some? then Put(walk.screens, id, step.screen) else walk.screens,
         if rule.agent(row) then walk.agents + [id] else walk.agents,
         if step.screen.Some? then walk.captured + [id] else walk.captured,
         walk.out + [step.row])
  }

  function Walked<E, S, R>(rule: Rule<E, S, R>, reports: map<string, E>, screens: map<string, S>, rows: seq<R>): Walk<E, S, R> {
    if rows == [] then Walk(reports, screens, [], [], [])
    else Over(rule, Walked(rule, reports, screens, rows[..|rows| - 1]), rows[|rows| - 1])
  }

  lemma WalkStep<E, S, R>(rule: Rule<E, S, R>, reports: map<string, E>, screens: map<string, S>, rows: seq<R>, i: nat)
    requires i < |rows|
    ensures Walked(rule, reports, screens, rows[..i + 1]) == Over(rule, Walked(rule, reports, screens, rows[..i]), rows[i])
  {
    assert rows[..i + 1][..i] == rows[..i];
  }

  predicate OnePerPane<E, S, R>(rule: Rule<E, S, R>, rows: seq<R>) {
    forall i, j | 0 <= i < j < |rows| :: rule.id(rows[i]) != rule.id(rows[j])
  }

  predicate Absent<E, S, R>(rule: Rule<E, S, R>, rows: seq<R>, id: string) {
    forall i | 0 <= i < |rows| :: rule.id(rows[i]) != id
  }

  /** What the loop has established about one pane: its own step and nothing else. */
  predicate Settled<E(==), S(==), R(==)>(walk: Walk<E, S, R>, id: string, step: Step<E, S, R>) {
    && step.report == (if id in walk.agents then At(walk.reports, id) else None)
    && step.screen == (if id in walk.captured then At(walk.screens, id) else None)
  }

  predicate Untouched<E(==), S(==), R(==)>(walk: Walk<E, S, R>, id: string, reports: map<string, E>, screens: map<string, S>) {
    && id !in walk.agents && id !in walk.captured
    && At(walk.reports, id) == At(reports, id) && At(walk.screens, id) == At(screens, id)
  }

  lemma OverOne<E(!new), S(!new), R(!new)>(rule: Rule<E, S, R>, walk: Walk<E, S, R>, row: R)
    requires Sound(rule) && rule.id(row) !in walk.agents && rule.id(row) !in walk.captured
    ensures Settled(Over(rule, walk, row), rule.id(row), StepOf(rule, walk.reports, walk.screens, row))
  {
  }

  lemma OverOther<E(!new), S(!new), R(!new)>(rule: Rule<E, S, R>, walk: Walk<E, S, R>, row: R, id: string)
    requires id != rule.id(row)
    ensures var after := Over(rule, walk, row);
      && (id in after.agents <==> id in walk.agents) && (id in after.captured <==> id in walk.captured)
      && At(after.reports, id) == At(walk.reports, id) && At(after.screens, id) == At(walk.screens, id)
  {
  }

  /** Each pane's outcome is its own step from the memories the loop started with,
      whatever the other rows are and whatever order they come in. */
  lemma {:induction false} WalkIsPanewise<E(!new), S(!new), R(!new)>(
    rule: Rule<E, S, R>, reports: map<string, E>, screens: map<string, S>, rows: seq<R>)
    requires Sound(rule) && OnePerPane(rule, rows)
    ensures var walk := Walked(rule, reports, screens, rows);
      && |walk.out| == |rows|
      && (forall i | 0 <= i < |rows| ::
            var step := StepOf(rule, reports, screens, rows[i]);
            walk.out[i] == step.row && Settled(walk, rule.id(rows[i]), step))
      && (forall id | Absent(rule, rows, id) :: Untouched(walk, id, reports, screens))
  {
    if rows != [] {
      var n := |rows| - 1;
      var row, init := rows[n], rows[..n];
      WalkIsPanewise(rule, reports, screens, init);
      var walk := Walked(rule, reports, screens, init);
      assert Absent(rule, init, rule.id(row));
      OverOne(rule, walk, row);
      forall i | 0 <= i < n
        ensures Settled(Over(rule, walk, row), rule.id(rows[i]), StepOf(rule, reports, screens, rows[i]))
      {
        assert rows[i] == init[i];
        OverOther(rule, walk, row, rule.id(rows[i]));
      }
      forall id | Absent(rule, rows, id)
        ensures Untouched(Over(rule, walk, row), id, reports, screens)
      {
        assert Absent(rule, init, id) && rule.id(rows[n]) != id;
        OverOther(rule, walk, row, id);
      }
    }
  }

  /** The whole pass: every row is its own pane's step, and once the two memories are
      cut back they hold what those steps left and nothing about any other pane. */
  ghost predicate Passed<E(!new), S(!new), R(!new)>(
    rule: Rule<E, S, R>, reports: map<string, E>, screens: map<string, S>, rows: seq<R>,
    out: seq<R>, reports': map<string, E>, screens': map<string, S>)
  {
    && |out| == |rows|
    && (forall i | 0 <= i < |rows| :: StepOf(rule, reports, screens, rows[i])
          == Step(At(reports', rule.id(rows[i])), At(screens', rule.id(rows[i])), out[i]))
    && (forall id | Absent(rule, rows, id) :: id !in reports' && id !in screens')
  }

  lemma WalkPasses<E(!new), S(!new), R(!new)>(
    rule: Rule<E, S, R>, reports: map<string, E>, screens: map<string, S>, rows: seq<R>)
    requires Sound(rule) && OnePerPane(rule, rows)
    ensures var walk := Walked(rule, reports, screens, rows);
      Passed(rule, reports, screens, rows, walk.out, Keep(walk.reports, walk.agents), Keep(walk.screens, walk.captured))
  {
    WalkIsPanewise(rule, reports, screens, rows);
  }
}
