/**
 * The three tables of db.py (goals, steps, checkins) as a value, and what each
 * SQL statement of db.py does to them. The class in module Db performs these
 * changes in place; the functions here are its specification.
 */
module Tables {
  import opened Wrappers
  import opened Text
  import opened Dates
  import opened Sorting
  import opened Seqs

  /** A row of `goals`; `created_at` comes from the database clock and is left out. */
  datatype Goal = Goal(title: string, deadline: Option<string>)

  /** A row of `steps`. */
  datatype StepRow = StepRow(
    id: int, goalId: int, orderIndex: int, title: string, detail: string, metric: string,
    durationMin: Option<int>, why: string, dueDate: Option<string>, done: int)

  /** A row of `checkins`; its own `id` column is never read and is left out. */
  datatype CheckinRow = CheckinRow(goalId: int, day: Day)

  /**
   * A step as the Python dict the application passes around; `None` stands for
   * a key that is missing or holds `None`.
   */
  datatype Draft = Draft(
    orderIndex: Option<int>, title: Option<string>, detail: Option<string>, metric: Option<string>,
    durationMin: Option<int>, why: Option<string>, dueDate: Option<string>, done: Option<int>)

  /** The column values `update_step` writes, exactly as its caller gives them. */
  datatype StepValues = StepValues(
    orderIndex: int, title: string, detail: string, metric: string,
    durationMin: Option<int>, why: string, dueDate: Option<string>, done: int)

  /**
   * The database: the three tables, rows in insertion (rowid) order, and the
   * next identifier `AUTOINCREMENT` hands out for goals and for steps.
   */
  datatype Snapshot = Snapshot(
    goals: map<int, Goal>, steps: seq<StepRow>, checkins: seq<CheckinRow>,
    nextGoalId: int, nextStepId: int)

  /** Python's `(x or "")` for an optional string. */
  function OrEmpty(x: Option<string>): string
  {
    x.GetOr("")
  }

  // ---- Selecting rows ---------------------------------------------------------

  function OfGoal(goalId: int): StepRow -> bool
  {
    (r: StepRow) => r.goalId == goalId
  }

  function NotOfGoal(goalId: int): StepRow -> bool
  {
    (r: StepRow) => r.goalId != goalId
  }

  function CheckinNotOfGoal(goalId: int): CheckinRow -> bool
  {
    (c: CheckinRow) => c.goalId != goalId
  }

  function CheckinOtherThan(row: CheckinRow): CheckinRow -> bool
  {
    (c: CheckinRow) => c != row
  }

  /** `SELECT ... FROM steps WHERE goal_id = goalId`, in rowid order. */
  function StepsOf(steps: seq<StepRow>, goalId: int): seq<StepRow>
  {
    Filter(steps, OfGoal(goalId))
  }

  /** `DELETE FROM steps WHERE goal_id = goalId`: the rows that remain. */
  function StepsExcept(steps: seq<StepRow>, goalId: int): seq<StepRow>
  {
    Filter(steps, NotOfGoal(goalId))
  }

  /** `DELETE FROM checkins WHERE goal_id = goalId`: the rows that remain. */
  function CheckinsExcept(checkins: seq<CheckinRow>, goalId: int): seq<CheckinRow>
  {
    Filter(checkins, CheckinNotOfGoal(goalId))
  }

  /** The days checked in for a goal, as `set(days)` in db.py's streak functions. */
  function CheckinDays(checkins: seq<CheckinRow>, goalId: int): (days: set<Day>)
    ensures forall d :: d in days <==> CheckinRow(goalId, d) in checkins
  {
    set c | c in checkins && c.goalId == goalId :: c.day
  }

  // ---- Invariants -------------------------------------------------------------

  /** Step ids grow with the rowid order and lie below the next id to hand out. */
  ghost predicate IdsBelow(steps: seq<StepRow>, next: int)
  {
    && (forall i, j :: 0 <= i < j < |steps| ==> steps[i].id < steps[j].id)
    && (forall i :: 0 <= i < |steps| ==> 1 <= steps[i].id < next)
  }

  /**
   * The table rules: primary keys unique (steps' ids from `AUTOINCREMENT`),
   * goal ids below the next one, and `UNIQUE(goal_id, day)` on check-ins.
   */
  ghost predicate Valid(t: Snapshot)
  {
    && t.nextGoalId >= 1 && t.nextStepId >= 1
    && (forall g :: g in t.goals ==> 1 <= g < t.nextGoalId)
    && IdsBelow(t.steps, t.nextStepId)
    && Distinct(t.checkins)
  }

  /** The tables `init_db` creates. */
  function Empty(): (t: Snapshot)
    ensures Valid(t)
  {
    Snapshot(map[], [], [], 1, 1)
  }

  // ---- Goals ------------------------------------------------------------------

  /** db.py `create_goal`: a new goal under the next id, which it returns. */
  function CreateGoal(t: Snapshot, title: string, deadline: Option<string>): Snapshot
  {
    t.(goals := t.goals[t.nextGoalId := Goal(title, deadline)], nextGoalId := t.nextGoalId + 1)
  }

  /** db.py `delete_goal`: the goal, its steps and its check-ins go. */
  function DeleteGoal(t: Snapshot, goalId: int): Snapshot
  {
    t.(goals := t.goals - {goalId},
       steps := StepsExcept(t.steps, goalId),
       checkins := CheckinsExcept(t.checkins, goalId))
  }

  lemma CreateGoalValid(t: Snapshot, title: string, deadline: Option<string>)
    requires Valid(t)
    ensures Valid(CreateGoal(t, title, deadline))
    ensures t.nextGoalId !in t.goals
    ensures CreateGoal(t, title, deadline).goals[t.nextGoalId] == Goal(title, deadline)
  {
  }

  /**
   * Deleting a goal removes it with all its steps and check-ins, and leaves every
   * other goal, step and check-in as it was.
   */
  lemma DeleteGoalCascades(t: Snapshot, goalId: int)
    requires Valid(t)
    ensures Valid(DeleteGoal(t, goalId))
    ensures goalId !in DeleteGoal(t, goalId).goals
    ensures forall g :: g in t.goals && g != goalId ==> g in DeleteGoal(t, goalId).goals && DeleteGoal(t, goalId).goals[g] == t.goals[g]
    ensures StepsOf(DeleteGoal(t, goalId).steps, goalId) == []
    ensures CheckinDays(DeleteGoal(t, goalId).checkins, goalId) == {}
    ensures forall h :: h != goalId ==> StepsOf(DeleteGoal(t, goalId).steps, h) == StepsOf(t.steps, h)
    ensures forall h :: h != goalId ==> CheckinDays(DeleteGoal(t, goalId).checkins, h) == CheckinDays(t.checkins, h)
  {
    var t' := DeleteGoal(t, goalId);
    StepsExceptIds(t.steps, goalId, t.nextStepId);
    FilterKeepsDistinct(t.checkins, CheckinNotOfGoal(goalId));
    StepsOfExcept(t.steps, goalId);
  }

  // ---- Steps ------------------------------------------------------------------

  /** The row `add_steps` inserts for one dict, with its defaults and trimming (db.py:78-86). */
  function NewRow(id: int, goalId: int, d: Draft): StepRow
  {
    StepRow(id, goalId, d.orderIndex.GetOr(0), Strip(OrEmpty(d.title)), Strip(OrEmpty(d.detail)),
            Strip(OrEmpty(d.metric)), d.durationMin, Strip(OrEmpty(d.why)), d.dueDate, d.done.GetOr(0))
  }

  /** The row `add_steps` inserts for a dict, as a function of the id it receives. */
  function RowFor(goalId: int): (int, Draft) -> StepRow
  {
    (id: int, d: Draft) => NewRow(id, goalId, d)
  }

  /** The rows `add_steps` inserts for `drafts`, numbered from `firstId`. */
  function NewRows(firstId: int, goalId: int, drafts: seq<Draft>): seq<StepRow>
  {
    Numbered(RowFor(goalId), firstId, drafts, |drafts|)
  }

  /** Row `k` is the row for dict `k`, under id `firstId + k`. */
  lemma NewRowsAt(firstId: int, goalId: int, drafts: seq<Draft>)
    ensures |NewRows(firstId, goalId, drafts)| == |drafts|
    ensures forall k :: 0 <= k < |drafts| ==> NewRows(firstId, goalId, drafts)[k] == NewRow(firstId + k, goalId, drafts[k])
  {
    NumberedAt(RowFor(goalId), firstId, drafts, |drafts|);
  }

  /** The rows `add_steps` inserts belong to the goal and take consecutive new ids. */
  lemma NewRowsShape(firstId: int, goalId: int, drafts: seq<Draft>)
    ensures |NewRows(firstId, goalId, drafts)| == |drafts|
    ensures forall k :: 0 <= k < |drafts| ==>
      NewRows(firstId, goalId, drafts)[k].goalId == goalId && NewRows(firstId, goalId, drafts)[k].id == firstId + k
  {
    NewRowsAt(firstId, goalId, drafts);
  }

  /** db.py `add_steps`: optionally delete the goal's steps, then insert one row per dict. */
  function AddSteps(t: Snapshot, goalId: int, drafts: seq<Draft>, replace: bool): Snapshot
  {
    var base := if replace then StepsExcept(t.steps, goalId) else t.steps;
    t.(steps := base + NewRows(t.nextStepId, goalId, drafts), nextStepId := t.nextStepId + |drafts|)
  }

  /** A full row from `update_step`'s arguments. */
  function RowOf(id: int, goalId: int, v: StepValues): StepRow
  {
    StepRow(id, goalId, v.orderIndex, v.title, v.detail, v.metric, v.durationMin, v.why, v.dueDate, v.done)
  }

  /** `UPDATE steps SET ... WHERE id = stepId AND goal_id = goalId`. */
  function UpdateRows(steps: seq<StepRow>, stepId: int, goalId: int, v: StepValues): (r: seq<StepRow>)
  {
    seq(|steps|, i requires 0 <= i < |steps| =>
      if steps[i].id == stepId && steps[i].goalId == goalId then RowOf(stepId, goalId, v) else steps[i])
  }

  /** db.py `update_step`: insert when there is no id, otherwise update the matching row. */
  function UpdateStep(t: Snapshot, stepId: Option<int>, goalId: int, v: StepValues): Snapshot
  {
    match stepId
    case None => t.(steps := t.steps + [RowOf(t.nextStepId, goalId, v)], nextStepId := t.nextStepId + 1)
    case Some(id) => t.(steps := UpdateRows(t.steps, id, goalId, v))
  }

  lemma {:induction false} StepsExceptIds(steps: seq<StepRow>, goalId: int, next: int)
    requires IdsBelow(steps, next)
    ensures IdsBelow(StepsExcept(steps, goalId), next)
    decreases |steps|
  {
    if steps != [] {
      var init, last := steps[..|steps| - 1], steps[|steps| - 1];
      assert IdsBelow(init, next);
      StepsExceptIds(init, goalId, next);
      var e := StepsExcept(init, goalId);
      forall i | 0 <= i < |e| ensures e[i].id < last.id {
        assert e[i] in init;
        var k :| 0 <= k < |init| && init[k] == e[i];
        assert steps[k] == init[k];
      }
    }
  }

  lemma {:induction false} FilterKeepsDistinct<T(!new)>(xs: seq<T>, keep: T -> bool)
    requires Distinct(xs)
    ensures Distinct(Filter(xs, keep))
    decreases |xs|
  {
    if xs != [] {
      var init := xs[..|xs| - 1];
      FilterKeepsDistinct(init, keep);
      assert xs[|xs| - 1] !in init;
    }
  }

  lemma {:induction false} StepsOfExcept(steps: seq<StepRow>, goalId: int)
    ensures StepsOf(StepsExcept(steps, goalId), goalId) == []
    ensures forall h :: h != goalId ==> StepsOf(StepsExcept(steps, goalId), h) == StepsOf(steps, h)
    decreases |steps|
  {
    if steps != [] {
      var init, last := steps[..|steps| - 1], steps[|steps| - 1];
      StepsOfExcept(init, goalId);
      var e := StepsExcept(init, goalId);
      if last.goalId == goalId {
        assert StepsExcept(steps, goalId) == e + [];
        assert StepsExcept(steps, goalId) == e;
        forall h | h != goalId ensures StepsOf(e, h) == StepsOf(steps, h) {
          assert StepsOf(steps, h) == StepsOf(init, h) + [];
        }
      } else {
        assert StepsExcept(steps, goalId) == e + [last];
        FilterConcat(e, [last], OfGoal(goalId));
        assert Filter([last], OfGoal(goalId)) == [] by {
          assert [last][..0] == [];
        }
        forall h | h != goalId ensures StepsOf(e + [last], h) == StepsOf(steps, h) {
          FilterConcat(e, [last], OfGoal(h));
          assert [last][..0] == [];
          assert Filter([last], OfGoal(h)) == if last.goalId == h then [last] else [];
          assert StepsOf(e, h) == StepsOf(init, h);
          assert StepsOf(steps, h) == StepsOf(init, h) + (if last.goalId == h then [last] else []);
        }
      }
    }
  }

  /** Rows that all belong to one goal are selected whole for it and not at all for another. */
  lemma {:induction false} StepsOfOneGoal(rows: seq<StepRow>, goalId: int, h: int)
    requires forall k :: 0 <= k < |rows| ==> rows[k].goalId == goalId
    ensures StepsOf(rows, h) == if h == goalId then rows else []
    decreases |rows|
  {
    if rows != [] {
      var init := rows[..|rows| - 1];
      StepsOfOneGoal(init, goalId, h);
      assert init + [rows[|rows| - 1]] == rows;
    }
  }

  /** Appending rows of one goal adds them to that goal's selection and to no other. */
  lemma AppendGoalRows(base: seq<StepRow>, rows: seq<StepRow>, goalId: int)
    requires forall k :: 0 <= k < |rows| ==> rows[k].goalId == goalId
    ensures StepsOf(base + rows, goalId) == StepsOf(base, goalId) + rows
    ensures forall h :: h != goalId ==> StepsOf(base + rows, h) == StepsOf(base, h)
  {
    FilterConcat(base, rows, OfGoal(goalId));
    StepsOfOneGoal(rows, goalId, goalId);
    forall h | h != goalId ensures StepsOf(base + rows, h) == StepsOf(base, h) {
      FilterConcat(base, rows, OfGoal(h));
      StepsOfOneGoal(rows, goalId, h);
      assert StepsOf(base, h) + [] == StepsOf(base, h);
    }
  }

  /**
   * `add_steps(replace=True)` leaves exactly the given steps for the goal, in the
   * given order; every other goal keeps its steps.
   */
  lemma AddStepsReplaces(t: Snapshot, goalId: int, drafts: seq<Draft>)
    requires Valid(t)
    ensures Valid(AddSteps(t, goalId, drafts, true))
    ensures StepsOf(AddSteps(t, goalId, drafts, true).steps, goalId) == NewRows(t.nextStepId, goalId, drafts)
    ensures forall h :: h != goalId ==> StepsOf(AddSteps(t, goalId, drafts, true).steps, h) == StepsOf(t.steps, h)
  {
    var base := StepsExcept(t.steps, goalId);
    var rows := NewRows(t.nextStepId, goalId, drafts);
    NewRowsShape(t.nextStepId, goalId, drafts);
    StepsOfExcept(t.steps, goalId);
    StepsExceptIds(t.steps, goalId, t.nextStepId);
    AppendGoalRows(base, rows, goalId);
    assert [] + rows == rows;
    AppendRowsIds(base, t.nextStepId, rows);
  }

  /** `add_steps` without replace appends the new rows after the goal's existing ones. */
  lemma AddStepsAppends(t: Snapshot, goalId: int, drafts: seq<Draft>)
    requires Valid(t)
    ensures Valid(AddSteps(t, goalId, drafts, false))
    ensures StepsOf(AddSteps(t, goalId, drafts, false).steps, goalId)
            == StepsOf(t.steps, goalId) + NewRows(t.nextStepId, goalId, drafts)
    ensures forall h :: h != goalId ==> StepsOf(AddSteps(t, goalId, drafts, false).steps, h) == StepsOf(t.steps, h)
  {
    var rows := NewRows(t.nextStepId, goalId, drafts);
    NewRowsShape(t.nextStepId, goalId, drafts);
    AppendGoalRows(t.steps, rows, goalId);
    AppendRowsIds(t.steps, t.nextStepId, rows);
  }

  /** `add_steps` keeps the table rules, with or without `replace`. */
  lemma AddStepsValid(t: Snapshot, goalId: int, drafts: seq<Draft>, replace: bool)
    requires Valid(t)
    ensures Valid(AddSteps(t, goalId, drafts, replace))
  {
    if replace {
      AddStepsReplaces(t, goalId, drafts);
    } else {
      AddStepsAppends(t, goalId, drafts);
    }
  }

  /** Rows numbered consecutively from the next id keep the ids increasing. */
  lemma AppendRowsIds(base: seq<StepRow>, next: int, rows: seq<StepRow>)
    requires IdsBelow(base, next) && next >= 1
    requires forall k :: 0 <= k < |rows| ==> rows[k].id == next + k
    ensures IdsBelow(base + rows, next + |rows|)
  {
    var s := base + rows;
    forall i, j | 0 <= i < j < |s| ensures s[i].id < s[j].id {
      if j < |base| {
      } else if i < |base| {
        assert s[j] == rows[j - |base|];
      } else {
        assert s[i] == rows[i - |base|] && s[j] == rows[j - |base|];
      }
    }
    forall i | 0 <= i < |s| ensures 1 <= s[i].id < next + |rows| {
      if i >= |base| { assert s[i] == rows[i - |base|]; }
    }
  }

  /**
   * Stored steps are normalised: text columns trimmed (a missing one stored as
   * ""), a missing `order_index` or `done` stored as 0, the rest as given.
   */
  lemma NewRowNormalised(id: int, goalId: int, d: Draft)
    ensures var r := NewRow(id, goalId, d);
      && IsStripped(r.title) && IsStripped(r.detail) && IsStripped(r.metric) && IsStripped(r.why)
      && PaddedBy(OrEmpty(d.title), r.title) && PaddedBy(OrEmpty(d.detail), r.detail)
      && PaddedBy(OrEmpty(d.metric), r.metric) && PaddedBy(OrEmpty(d.why), r.why)
      && (d.done.None? ==> r.done == 0) && (d.orderIndex.None? ==> r.orderIndex == 0)
      && (d.done.Some? ==> r.done == d.done.value) && (d.orderIndex.Some? ==> r.orderIndex == d.orderIndex.value)
      && r.id == id && r.goalId == goalId
      && r.durationMin == d.durationMin && r.dueDate == d.dueDate
  {
    StripSpec(OrEmpty(d.title));
    StripSpec(OrEmpty(d.detail));
    StripSpec(OrEmpty(d.metric));
    StripSpec(OrEmpty(d.why));
  }

  /**
   * `update_step` with no id inserts a row under a fresh id; with an id it
   * rewrites only the row whose id and goal both match (at most one, ids being
   * unique) and keeps that row's id and goal.
   */
  lemma UpdateStepOnlyMatching(t: Snapshot, stepId: Option<int>, goalId: int, v: StepValues)
    requires Valid(t)
    ensures Valid(UpdateStep(t, stepId, goalId, v))
    ensures stepId.None? ==>
      && UpdateStep(t, stepId, goalId, v).steps == t.steps + [RowOf(t.nextStepId, goalId, v)]
      && forall i :: 0 <= i < |t.steps| ==> t.steps[i].id != t.nextStepId
    ensures stepId.Some? ==>
      var s := UpdateStep(t, stepId, goalId, v).steps;
      && |s| == |t.steps|
      && (forall i :: 0 <= i < |s| && (t.steps[i].id != stepId.value || t.steps[i].goalId != goalId) ==> s[i] == t.steps[i])
      && (forall i :: 0 <= i < |s| && t.steps[i].id == stepId.value && t.steps[i].goalId == goalId ==>
            s[i] == RowOf(stepId.value, goalId, v)
            && forall j :: 0 <= j < |s| && j != i ==> s[j] == t.steps[j])
  {
    if stepId.Some? {
      var s := UpdateRows(t.steps, stepId.value, goalId, v);
      assert forall i :: 0 <= i < |s| ==> s[i].id == t.steps[i].id;
    }
  }

  // ---- Check-ins --------------------------------------------------------------

  /** db.py `checkin`: `INSERT OR IGNORE` under `UNIQUE(goal_id, day)`. */
  function Checkin(t: Snapshot, goalId: int, day: Day): Snapshot
  {
    if CheckinRow(goalId, day) in t.checkins then t
    else t.(checkins := t.checkins + [CheckinRow(goalId, day)])
  }

  /** db.py `delete_checkin`: removes that goal's row for that day. */
  function DeleteCheckin(t: Snapshot, goalId: int, day: Day): Snapshot
  {
    t.(checkins := Filter(t.checkins, CheckinOtherThan(CheckinRow(goalId, day))))
  }

  /**
   * A check-in is recorded once: afterwards the day is checked in, the table
   * still holds no duplicate, nothing else changed, and repeating it is a no-op.
   */
  lemma CheckinIdempotent(t: Snapshot, goalId: int, day: Day)
    requires Valid(t)
    ensures Valid(Checkin(t, goalId, day))
    ensures CheckinDays(Checkin(t, goalId, day).checkins, goalId) == CheckinDays(t.checkins, goalId) + {day}
    ensures forall h :: h != goalId ==> CheckinDays(Checkin(t, goalId, day).checkins, h) == CheckinDays(t.checkins, h)
    ensures Checkin(Checkin(t, goalId, day), goalId, day) == Checkin(t, goalId, day)
    ensures Checkin(t, goalId, day).steps == t.steps && Checkin(t, goalId, day).goals == t.goals
  {
  }

  /** Undoing a check-in removes exactly that (goal, day) pair. */
  lemma DeleteCheckinExact(t: Snapshot, goalId: int, day: Day)
    requires Valid(t)
    ensures Valid(DeleteCheckin(t, goalId, day))
    ensures CheckinDays(DeleteCheckin(t, goalId, day).checkins, goalId) == CheckinDays(t.checkins, goalId) - {day}
    ensures forall h :: h != goalId ==> CheckinDays(DeleteCheckin(t, goalId, day).checkins, h) == CheckinDays(t.checkins, h)
    ensures DeleteCheckin(t, goalId, day).steps == t.steps && DeleteCheckin(t, goalId, day).goals == t.goals
  {
    FilterKeepsDistinct(t.checkins, CheckinOtherThan(CheckinRow(goalId, day)));
  }

  /** Checking in then undoing the same day restores the goal's check-in days. */
  lemma CheckinThenUndo(t: Snapshot, goalId: int, day: Day)
    requires Valid(t) && day !in CheckinDays(t.checkins, goalId)
    ensures CheckinDays(DeleteCheckin(Checkin(t, goalId, day), goalId, day).checkins, goalId)
            == CheckinDays(t.checkins, goalId)
  {
    CheckinIdempotent(t, goalId, day);
    DeleteCheckinExact(Checkin(t, goalId, day), goalId, day);
  }

  // ---- Query order ------------------------------------------------------------

  /** `COALESCE(due_date, '9999-12-31')`. */
  function DueKey(r: StepRow): string
  {
    r.dueDate.GetOr("9999-12-31")
  }

  /** `ORDER BY order_index, COALESCE(due_date, '9999-12-31') ASC`. */
  predicate StepKeyLe(a: StepRow, b: StepRow)
  {
    a.orderIndex < b.orderIndex || (a.orderIndex == b.orderIndex && LexLe(DueKey(a), DueKey(b)))
  }

  lemma StepKeyLeIsPreorder()
    ensures Total(StepKeyLe) && Transitive(StepKeyLe)
  {
    forall a, b ensures StepKeyLe(a, b) || StepKeyLe(b, a) {
      LexLeTotal(DueKey(a), DueKey(b));
    }
    forall a, b, c | StepKeyLe(a, b) && StepKeyLe(b, c) ensures StepKeyLe(a, c) {
      if a.orderIndex == b.orderIndex == c.orderIndex {
        LexLeTransitive(DueKey(a), DueKey(b), DueKey(c));
      }
    }
  }

  /** Among steps with the same `order_index`, one without a due date never comes before one with an ISO due date. */
  lemma MissingDueDateSortsLast(a: StepRow, b: StepRow, due: CalendarDate)
    requires a.orderIndex == b.orderIndex && a.dueDate == Some(Iso(due)) && b.dueDate.None?
    ensures StepKeyLe(a, b)
  {
    NoIsoAfterLastDate(due);
  }

  predicate IntLe(a: int, b: int)
  {
    a <= b
  }

  lemma IntLeIsPreorder()
    ensures Total(IntLe) && Transitive(IntLe)
  {
  }
}
