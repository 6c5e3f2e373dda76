/**
 * The two write paths of app.py's plan tab. "Regenerate (keep dates & done)"
 * merges a freshly generated plan with the goal's stored steps: a new step
 * whose trimmed, lower-cased title matches a stored one takes over that step's
 * due date, done flag and order. "Save changes" normalises every row of the
 * step editor and writes it back with `update_step`.
 */
module Reconcile {
  import opened Wrappers
  import opened Text
  import opened Dates
  import opened Sorting
  import opened Tables
  import Db

  // ---- Regenerate: matching new steps with stored ones ------------------------

  /** The lookup key of a stored step: `(s["title"] or "").strip().lower()`. */
  function RowKey(row: StepRow): string
  {
    Normalize(row.title)
  }

  /** The lookup key of a new step. */
  function DraftKey(d: Draft): string
  {
    Normalize(OrEmpty(d.title))
  }

  /** `xs[i]` is the last element of `xs` whose key is `k`. */
  ghost predicate LastWith<T>(xs: seq<T>, key: T -> string, k: string, i: int)
  {
    0 <= i < |xs| && key(xs[i]) == k && forall j :: i < j < |xs| ==> key(xs[j]) != k
  }

  /** `{key(x): x for x in xs}`: a later element replaces an earlier one with the same key. */
  function IndexBy<T>(xs: seq<T>, key: T -> string): map<string, T>
    decreases |xs|
  {
    if xs == [] then map[]
    else IndexBy(xs[..|xs| - 1], key)[key(xs[|xs| - 1]) := xs[|xs| - 1]]
  }

  /** Every element's key is in the dict, and each key maps to the last element with that key. */
  lemma {:induction false} IndexBySpec<T>(xs: seq<T>, key: T -> string)
    ensures forall i :: 0 <= i < |xs| ==> key(xs[i]) in IndexBy(xs, key)
    ensures forall k :: k in IndexBy(xs, key) ==> exists i :: LastWith(xs, key, k, i) && IndexBy(xs, key)[k] == xs[i]
    decreases |xs|
  {
    if xs != [] {
      var init, last := xs[..|xs| - 1], xs[|xs| - 1];
      IndexBySpec(init, key);
      var m := IndexBy(xs, key);
      forall i | 0 <= i < |xs| ensures key(xs[i]) in m {
        if i < |init| {
          assert xs[i] == init[i];
        }
      }
      forall k | k in m ensures exists i :: LastWith(xs, key, k, i) && m[k] == xs[i] {
        if k == key(last) {
          assert LastWith(xs, key, k, |xs| - 1);
        } else {
          var i :| LastWith(init, key, k, i) && IndexBy(init, key)[k] == init[i];
          assert xs[i] == init[i];
          assert LastWith(xs, key, k, i);
        }
      }
    }
  }

  /** `existing[i]` is the last stored step whose key is `k`. */
  ghost predicate LastWithKey(existing: seq<StepRow>, k: string, i: int)
  {
    LastWith(existing, RowKey, k, i)
  }

  /** The dict comprehension that builds `existing` from the goal's stored steps. */
  function TitleIndex(existing: seq<StepRow>): map<string, StepRow>
  {
    IndexBy(existing, RowKey)
  }

  /** The dict appended to `merged` for the new step `d` at 1-based position `pos`. */
  function MergeOne(d: Draft, pos: int, index: map<string, StepRow>): Draft
  {
    var key := DraftKey(d);
    if key in index then
      d.(dueDate := index[key].dueDate, done := Some(index[key].done), orderIndex := Some(index[key].orderIndex))
    else
      d.(dueDate := None, done := Some(0), orderIndex := Some(pos))
  }

  /** The `for` loop that builds `merged`, one new step at a time, in order. */
  method Merge(newSteps: seq<Draft>, existing: seq<StepRow>) returns (merged: seq<Draft>)
    ensures |merged| == |newSteps|
    ensures forall k :: 0 <= k < |merged| ==> merged[k] == MergeOne(newSteps[k], k + 1, TitleIndex(existing))
  {
    var index := TitleIndex(existing);
    merged := [];
    var i := 0;
    while i < |newSteps|
      invariant 0 <= i <= |newSteps| && |merged| == i
      invariant forall k :: 0 <= k < i ==> merged[k] == MergeOne(newSteps[k], k + 1, index)
    {
      merged := merged + [MergeOne(newSteps[i], i + 1, index)];
      i := i + 1;
    }
  }

  /**
   * What one merged step is: the new step's own text and duration; with no
   * stored step under its key, no due date, not done and its own position;
   * otherwise the due date, done flag and order of the last stored step under
   * its key.
   */
  lemma MergeOneSpec(d: Draft, pos: int, existing: seq<StepRow>)
    ensures var r := MergeOne(d, pos, TitleIndex(existing));
      && r.title == d.title && r.detail == d.detail && r.metric == d.metric
      && r.durationMin == d.durationMin && r.why == d.why
      && ((forall i :: 0 <= i < |existing| ==> RowKey(existing[i]) != DraftKey(d)) ==>
            r.dueDate.None? && r.done == Some(0) && r.orderIndex == Some(pos))
      && (forall i :: LastWithKey(existing, DraftKey(d), i) ==>
            r.dueDate == existing[i].dueDate && r.done == Some(existing[i].done)
            && r.orderIndex == Some(existing[i].orderIndex))
  {
    IndexBySpec(existing, RowKey);
    var index := TitleIndex(existing);
    var key := DraftKey(d);
    if key in index {
      var i :| LastWithKey(existing, key, i) && index[key] == existing[i];
      assert forall j :: LastWithKey(existing, key, j) ==> j == i;
    }
  }

  /**
   * Matching ignores whitespace around the title and ASCII letter case: a new
   * step titled `p + a + q` is merged exactly as one titled `b` would be.
   */
  lemma MatchIgnoresCaseAndPadding(d: Draft, p: string, a: string, q: string, b: string, pos: int, existing: seq<StepRow>)
    requires AllSpace(p) && AllSpace(q) && Lower(a) == Lower(b)
    requires d.title == Some(p + a + q)
    ensures var r1, r2 := MergeOne(d, pos, TitleIndex(existing)), MergeOne(d.(title := Some(b)), pos, TitleIndex(existing));
      r1.dueDate == r2.dueDate && r1.done == r2.done && r1.orderIndex == r2.orderIndex
  {
    NormalizeIgnoresCaseAndPadding(p, a, q, b);
  }

  /** A stored step titled as the first step of tests/test_app_core.py:19, dated and done. */
  const StoredDesignStep := StepRow(7, 1, 3, "Design home page", "", "", None, "", Some("2025-11-01"), 1)

  /** A regenerated step titled "design Home Page " takes over that step's due date, done flag and order. */
  lemma RegenerateKeepsDesignStep(d: Draft, pos: int)
    requires d.title == Some("design Home Page ")
    ensures var r := MergeOne(d, pos, TitleIndex([StoredDesignStep]));
      r.dueDate == Some("2025-11-01") && r.done == Some(1) && r.orderIndex == Some(3)
  {
    assert AllSpace(" ");
    assert Lower("design Home Page") == Lower("Design home page") by {
      assert Lower("design Home Page") == "design home page";
      assert Lower("Design home page") == "design home page";
    }
    assert "" + "design Home Page" + " " == "design Home Page ";
    NormalizeIgnoresCaseAndPadding("", "design Home Page", " ", "Design home page");
    MergeOneSpec(d, pos, [StoredDesignStep]);
    assert LastWithKey([StoredDesignStep], DraftKey(d), 0);
  }

  /**
   * The "Regenerate" button: read the goal's steps (`get_steps` order), merge
   * the new plan with them, and replace the goal's steps with the result. The
   * new plan is passed in; generating it is module Plan's concern.
   */
  method Regenerate(store: Db.Store, goalId: int, newSteps: seq<Draft>) returns (existing: seq<StepRow>, merged: seq<Draft>)
    requires store.Valid()
    modifies store
    ensures store.Valid()
    ensures SortedBy(existing, StepKeyLe) && multiset(existing) == multiset(StepsOf(old(store.steps), goalId))
    ensures |merged| == |newSteps|
    ensures forall k :: 0 <= k < |merged| ==> merged[k] == MergeOne(newSteps[k], k + 1, TitleIndex(existing))
    ensures store.State() == Tables.AddSteps(old(store.State()), goalId, merged, true)
  {
    existing := store.GetSteps(goalId);
    merged := Merge(newSteps, existing);
    store.AddSteps(goalId, merged, true);
  }

  // ---- Save changes: writing the editor's rows back ------------------------------

  /**
   * A row of the step editor; `None` stands for an empty cell. `id` is empty on
   * a row added in the editor.
   */
  datatype EditorRow = EditorRow(
    id: Option<int>, orderIndex: Option<int>, title: Option<string>, detail: Option<string>,
    metric: Option<string>, durationMin: Option<int>, why: Option<string>,
    dueDate: Option<CalendarDate>, done: Option<bool>)

  /** `int(row["done"] or 0)` for a checkbox cell. */
  function DoneFlag(x: Option<bool>): (n: int)
    ensures n == 1 <==> x == Some(true)
    ensures n == 0 <==> x != Some(true)
  {
    if x == Some(true) then 1 else 0
  }

  /** The arguments the save loop passes to `update_step` for one editor row. */
  function RowValues(row: EditorRow): StepValues
  {
    StepValues(
      row.orderIndex.GetOr(0), Strip(OrEmpty(row.title)), Strip(OrEmpty(row.detail)), Strip(OrEmpty(row.metric)),
      row.durationMin, Strip(OrEmpty(row.why)),
      if row.dueDate.Some? then Some(Iso(row.dueDate.value)) else None,
      DoneFlag(row.done))
  }

  /**
   * What is written for an editor row: an empty order as 0, text trimmed with an
   * empty cell as "", the due date as a `YYYY-MM-DD` string that reads back as
   * the same date, and `done` as 0 or 1.
   */
  lemma RowValuesSpec(row: EditorRow)
    ensures var v := RowValues(row);
      && (row.orderIndex.None? ==> v.orderIndex == 0) && (row.orderIndex.Some? ==> v.orderIndex == row.orderIndex.value)
      && IsStripped(v.title) && PaddedBy(OrEmpty(row.title), v.title)
      && IsStripped(v.detail) && PaddedBy(OrEmpty(row.detail), v.detail)
      && IsStripped(v.metric) && PaddedBy(OrEmpty(row.metric), v.metric)
      && IsStripped(v.why) && PaddedBy(OrEmpty(row.why), v.why)
      && v.durationMin == row.durationMin
      && (row.dueDate.None? <==> v.dueDate.None?)
      && (row.dueDate.Some? ==> ParseIso(v.dueDate.value) == row.dueDate)
      && (v.done == 0 || v.done == 1)
  {
    StripSpec(OrEmpty(row.title));
    StripSpec(OrEmpty(row.detail));
    StripSpec(OrEmpty(row.metric));
    StripSpec(OrEmpty(row.why));
    if row.dueDate.Some? {
      IsoRoundTrip(row.dueDate.value);
    }
  }

  /** The state after `update_step` has been called for each row in turn. */
  function SaveAll(t: Snapshot, goalId: int, rows: seq<EditorRow>): Snapshot
    decreases |rows|
  {
    if rows == [] then t
    else
      var init := rows[..|rows| - 1];
      var last := rows[|rows| - 1];
      Tables.UpdateStep(SaveAll(t, goalId, init), last.id, goalId, RowValues(last))
  }

  /** Saving keeps the table rules, whatever the rows. */
  lemma {:induction false} SaveAllValid(t: Snapshot, goalId: int, rows: seq<EditorRow>)
    requires Valid(t)
    ensures Valid(SaveAll(t, goalId, rows))
    decreases |rows|
  {
    if rows != [] {
      var init := rows[..|rows| - 1];
      SaveAllValid(t, goalId, init);
      UpdateStepOnlyMatching(SaveAll(t, goalId, init), rows[|rows| - 1].id, goalId, RowValues(rows[|rows| - 1]));
    }
  }

  /** Saving never touches goals or check-ins. */
  lemma {:induction false} SaveAllKeepsGoalsAndCheckins(t: Snapshot, goalId: int, rows: seq<EditorRow>)
    ensures SaveAll(t, goalId, rows).goals == t.goals && SaveAll(t, goalId, rows).checkins == t.checkins
    decreases |rows|
  {
    if rows != [] {
      SaveAllKeepsGoalsAndCheckins(t, goalId, rows[..|rows| - 1]);
    }
  }

  /** The "Save changes" button: `update_step` for every editor row, in order. */
  method SaveChanges(store: Db.Store, goalId: int, rows: seq<EditorRow>)
    requires store.Valid()
    modifies store
    ensures store.Valid()
    ensures store.State() == SaveAll(old(store.State()), goalId, rows)
  {
    var i := 0;
    while i < |rows|
      invariant 0 <= i <= |rows|
      invariant store.Valid()
      invariant store.State() == SaveAll(old(store.State()), goalId, rows[..i])
    {
      assert rows[..i + 1][..i] == rows[..i];
      store.UpdateStep(rows[i].id, goalId, RowValues(rows[i]));
      i := i + 1;
    }
    assert rows[..i] == rows;
  }
}
