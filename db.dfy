/**
 * db.py as an object: the three tables are fields that each operation updates
 * in place, scanning rows the way the SQL statements do. Every method's new
 * state is the corresponding function of module Tables applied to the old one,
 * and the table rules (`Tables.Valid`) hold before and after.
 */
module Db {
  import opened Wrappers
  import opened Dates
  import opened Sorting
  import opened Tables
  import opened Seqs
  import Streak

  class Store {
    var goals: map<int, Goal>
    var steps: seq<StepRow>
    var checkins: seq<CheckinRow>
    var nextGoalId: int
    var nextStepId: int

    /** The tables as a value. */
    function State(): Snapshot
      reads this
    {
      Snapshot(goals, steps, checkins, nextGoalId, nextStepId)
    }

    ghost predicate Valid()
      reads this
    {
      Tables.Valid(State())
    }

    /** db.py `init_db` on a fresh database file. */
    constructor ()
      ensures Valid() && State() == Empty()
    {
      goals, steps, checkins := map[], [], [];
      nextGoalId, nextStepId := 1, 1;
    }

    /** db.py `create_goal`: returns the new goal's id. */
    method CreateGoal(title: string, deadline: Option<string>) returns (id: int)
      requires Valid()
      modifies this
      ensures Valid() && State() == Tables.CreateGoal(old(State()), title, deadline)
      ensures id == old(nextGoalId) && id !in old(goals)
    {
      CreateGoalValid(State(), title, deadline);
      id := nextGoalId;
      goals := goals[id := Goal(title, deadline)];
      nextGoalId := nextGoalId + 1;
    }

    /** `DELETE FROM steps WHERE goal_id = ?`, one row at a time. */
    method DeleteStepsOf(goalId: int)
      requires Valid()
      modifies this
      ensures Valid()
      ensures State() == old(State()).(steps := StepsExcept(old(steps), goalId))
    {
      StepsExceptIds(steps, goalId, nextStepId);
      steps := Select(steps, NotOfGoal(goalId));
    }

    /** `DELETE FROM checkins WHERE goal_id = ?`, one row at a time. */
    method DeleteCheckinsOf(goalId: int)
      requires Valid()
      modifies this
      ensures Valid()
      ensures State() == old(State()).(checkins := CheckinsExcept(old(checkins), goalId))
    {
      FilterKeepsDistinct(checkins, CheckinNotOfGoal(goalId));
      checkins := Select(checkins, CheckinNotOfGoal(goalId));
    }

    /** db.py `delete_goal`: the goal row, then its steps, then its check-ins. */
    method DeleteGoal(goalId: int)
      requires Valid()
      modifies this
      ensures Valid() && State() == Tables.DeleteGoal(old(State()), goalId)
    {
      DeleteGoalCascades(State(), goalId);
      goals := goals - {goalId};
      DeleteStepsOf(goalId);
      DeleteCheckinsOf(goalId);
    }

    /** The `INSERT` loop of `add_steps`: one new row per dict, ids counting up. */
    method InsertRows(goalId: int, drafts: seq<Draft>)
      requires Valid()
      modifies this
      ensures Valid()
      ensures State() == old(State()).(steps := old(steps) + NewRows(old(nextStepId), goalId, drafts),
                                       nextStepId := old(nextStepId) + |drafts|)
    {
      NewRowsShape(nextStepId, goalId, drafts);
      AppendRowsIds(steps, nextStepId, NewRows(nextStepId, goalId, drafts));
      var added := Enumerate(RowFor(goalId), nextStepId, drafts);
      steps := steps + added;
      nextStepId := nextStepId + |drafts|;
    }

    /** db.py `add_steps`: with `replace`, the goal's steps are deleted first; then one row per dict. */
    method AddSteps(goalId: int, drafts: seq<Draft>, replace: bool)
      requires Valid()
      modifies this
      ensures Valid() && State() == Tables.AddSteps(old(State()), goalId, drafts, replace)
    {
      AddStepsValid(State(), goalId, drafts, replace);
      if replace {
        DeleteStepsOf(goalId);
      }
      InsertRows(goalId, drafts);
    }

    /**
     * db.py `update_step`: with no id, insert the row; otherwise rewrite the row
     * whose id and goal both match, if there is one.
     */
    method UpdateStep(stepId: Option<int>, goalId: int, v: StepValues)
      requires Valid()
      modifies this
      ensures Valid() && State() == Tables.UpdateStep(old(State()), stepId, goalId, v)
    {
      UpdateStepOnlyMatching(State(), stepId, goalId, v);
      if stepId.None? {
        steps := steps + [RowOf(nextStepId, goalId, v)];
        nextStepId := nextStepId + 1;
      } else {
        var id := stepId.value;
        var updated: seq<StepRow> := [];
        var i := 0;
        while i < |steps|
          invariant 0 <= i <= |steps| && |updated| == i
          invariant forall k :: 0 <= k < i ==>
            updated[k] == if steps[k].id == id && steps[k].goalId == goalId then RowOf(id, goalId, v) else steps[k]
          invariant unchanged(this)
        {
          var row := if steps[i].id == id && steps[i].goalId == goalId then RowOf(id, goalId, v) else steps[i];
          updated := updated + [row];
          i := i + 1;
        }
        steps := updated;
      }
    }

    /** db.py `checkin`: `INSERT OR IGNORE`, so a day already checked in is left alone. */
    method Checkin(goalId: int, day: Day)
      requires Valid()
      modifies this
      ensures Valid() && State() == Tables.Checkin(old(State()), goalId, day)
    {
      CheckinIdempotent(State(), goalId, day);
      var row := CheckinRow(goalId, day);
      if row !in checkins {
        checkins := checkins + [row];
      }
    }

    /** db.py `delete_checkin`. */
    method DeleteCheckin(goalId: int, day: Day)
      requires Valid()
      modifies this
      ensures Valid() && State() == Tables.DeleteCheckin(old(State()), goalId, day)
    {
      DeleteCheckinExact(State(), goalId, day);
      checkins := Select(checkins, CheckinOtherThan(CheckinRow(goalId, day)));
    }

    /**
     * db.py `get_checkins`: the goal's days in ascending order, each once
     * (`ORDER BY day` on ISO strings is chronological, see `Dates.IsoOrder`).
     */
    method GetCheckins(goalId: int) returns (days: seq<Day>)
      requires Valid()
      ensures forall i, j :: 0 <= i < j < |days| ==> days[i] < days[j]
      ensures forall d :: d in days <==> d in CheckinDays(checkins, goalId)
    {
      IntLeIsPreorder();
      days := [];
      var i := 0;
      while i < |checkins|
        invariant 0 <= i <= |checkins|
        invariant SortedBy(days, IntLe) && Distinct(days)
        invariant forall d :: d in days <==> CheckinRow(goalId, d) in checkins[..i]
      {
        assert checkins[..i + 1] == checkins[..i] + [checkins[i]];
        if checkins[i].goalId == goalId {
          var d := checkins[i].day;
          forall k | 0 <= k < i ensures checkins[..i][k] != checkins[i] {
            assert checkins[..i][k] == checkins[k];
          }
          var next := Insert(d, days, IntLe);
          AddFresh(d, days, next);
          assert forall e :: e in next <==> e in multiset(next);
          days := next;
        }
        i := i + 1;
      }
      assert checkins[..i] == checkins;
    }

    /**
     * db.py `get_steps`: the goal's steps ordered by `order_index`, then by due
     * date with a missing one read as `9999-12-31`. SQL leaves the order of
     * equal keys open, so only the ordering and the rows are promised.
     */
    method GetSteps(goalId: int) returns (rows: seq<StepRow>)
      ensures SortedBy(rows, StepKeyLe)
      ensures multiset(rows) == multiset(StepsOf(steps, goalId))
    {
      StepKeyLeIsPreorder();
      rows := [];
      var i := 0;
      while i < |steps|
        invariant 0 <= i <= |steps|
        invariant SortedBy(rows, StepKeyLe)
        invariant multiset(rows) == multiset(StepsOf(steps[..i], goalId))
      {
        FilterStep(steps, i, OfGoal(goalId));
        if steps[i].goalId == goalId {
          rows := Insert(steps[i], rows, StepKeyLe);
        }
        i := i + 1;
      }
      assert steps[..i] == steps;
    }

    /** db.py `compute_streak_strict`, with today's ordinal passed in. */
    method ComputeStreakStrict(goalId: int, today: Day) returns (streak: nat)
      requires Valid()
      ensures streak == Streak.Strict(CheckinDays(checkins, goalId), today)
      ensures Streak.RunFrom(CheckinDays(checkins, goalId), today, streak)
      ensures today - streak !in CheckinDays(checkins, goalId)
    {
      var days := GetCheckins(goalId);
      var s := set d | d in days;
      assert s == CheckinDays(checkins, goalId);
      streak := Streak.StrictStreak(s, today);
    }

    /** db.py `compute_streak_friendly`, with today's ordinal passed in. */
    method ComputeStreakFriendly(goalId: int, today: Day) returns (streak: nat)
      requires Valid()
      ensures streak == Streak.Friendly(CheckinDays(checkins, goalId), today)
    {
      var days := GetCheckins(goalId);
      var s := set d | d in days;
      assert s == CheckinDays(checkins, goalId);
      streak := Streak.FriendlyStreak(s, today);
    }
  }
}
