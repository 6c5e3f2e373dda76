/**
 * The streak engine of db.py: how many consecutive checked-in days end at an
 * anchor day. Days are ordinals, so "the day before" is `d - 1`; the current
 * date is a parameter instead of a clock read.
 */
module Streak {
  import opened Wrappers
  import opened Dates

  /** The `k` days `anchor, anchor - 1, ..., anchor - (k - 1)` are all checked in. */
  ghost predicate RunFrom(days: set<Day>, anchor: Day, k: nat)
  {
    forall d :: anchor - k < d <= anchor ==> d in days
  }

  /**
   * The length of the run of checked-in days ending at `anchor`: every one of
   * those days is present and the day before the run is not.
   */
  function RunLength(days: set<Day>, anchor: Day): (k: nat)
    ensures RunFrom(days, anchor, k) && anchor - k !in days
    ensures k <= |days|
    decreases |days|
  {
    if anchor in days then
      var k' := RunLength(days - {anchor}, anchor - 1);
      assert RunFrom(days, anchor, 1 + k') by {
        forall d | anchor - (1 + k') < d <= anchor ensures d in days {
          if d != anchor { assert d in days - {anchor}; }
        }
      }
      1 + k'
    else 0
  }

  /** The run length is the only number with the property `RunLength` promises. */
  lemma RunLengthUnique(days: set<Day>, anchor: Day, k: nat)
    ensures (RunFrom(days, anchor, k) && anchor - k !in days) <==> k == RunLength(days, anchor)
  {
  }

  /** A run through a checked-in day is one longer than the run ending the day before. */
  lemma RunLengthStep(days: set<Day>, anchor: Day)
    requires anchor in days
    ensures RunLength(days, anchor) == 1 + RunLength(days, anchor - 1)
  {
    RunLengthUnique(days, anchor, 1 + RunLength(days, anchor - 1));
  }

  /** db.py `compute_streak_strict` as a value: the run ending today, 0 when today is missing. */
  function Strict(days: set<Day>, today: Day): (r: nat)
    ensures r <= |days|
    ensures r > 0 <==> today in days
  {
    if |days| == 0 then 0
    else if today !in days then 0
    else RunLength(days, today)
  }

  /** The day `compute_streak_friendly` counts back from: today, else yesterday, else none. */
  function FriendlyAnchor(days: set<Day>, today: Day): (a: Option<Day>)
    ensures a.Some? ==> a.value in days && (a.value == today || a.value == today - 1)
    ensures a.None? <==> today !in days && today - 1 !in days
  {
    if today in days then Some(today)
    else if today - 1 in days then Some(today - 1)
    else None
  }

  /** db.py `compute_streak_friendly` as a value. */
  function Friendly(days: set<Day>, today: Day): (r: nat)
    ensures r <= |days|
    ensures r > 0 <==> today in days || today - 1 in days
  {
    if |days| == 0 then 0
    else match FriendlyAnchor(days, today)
      case None => 0
      case Some(a) => RunLength(days, a)
  }

  /**
   * The walk of db.py:141-144 and db.py:157-161: count days back from
   * `anchor` while they are checked in.
   */
  method CountBack(days: set<Day>, anchor: Day) returns (streak: nat)
    ensures RunFrom(days, anchor, streak) && anchor - streak !in days
    ensures streak == RunLength(days, anchor)
  {
    streak := 0;
    var cur := anchor;
    while cur in days
      invariant cur == anchor - streak
      invariant RunLength(days, anchor) == streak + RunLength(days, cur)
      decreases RunLength(days, cur)
    {
      RunLengthStep(days, cur);
      streak := streak + 1;
      cur := cur - 1;
    }
  }

  /** db.py `compute_streak_strict`: the run ending today; 0 if today is not checked in. */
  method StrictStreak(days: set<Day>, today: Day) returns (streak: nat)
    ensures today !in days ==> streak == 0
    ensures RunFrom(days, today, streak) && today - streak !in days
    ensures streak == Strict(days, today)
  {
    if |days| == 0 {
      return 0;
    }
    if today !in days {
      return 0;
    }
    streak := CountBack(days, today);
  }

  /**
   * db.py `compute_streak_friendly`: the run ending today if today is checked
   * in, else the run ending yesterday (0 if yesterday is missing too).
   */
  method FriendlyStreak(days: set<Day>, today: Day) returns (streak: nat)
    ensures today in days ==> RunFrom(days, today, streak) && today - streak !in days
    ensures today !in days ==> RunFrom(days, today - 1, streak) && today - 1 - streak !in days
    ensures streak == Friendly(days, today)
  {
    if |days| == 0 {
      return 0;
    }
    var anchor := FriendlyAnchor(days, today);
    if anchor.None? {
      return 0;
    }
    streak := CountBack(days, anchor.value);
  }

  /** With no check-ins at all both streaks are 0. */
  lemma NoCheckinsNoStreak(today: Day)
    ensures Strict({}, today) == 0 && Friendly({}, today) == 0
  {
  }

  /** Strict: 0 without a check-in today, whatever other days are present. */
  lemma StrictNeedsToday(days: set<Day>, today: Day)
    requires today !in days
    ensures Strict(days, today) == 0
  {
  }

  /**
   * Strict is `k` exactly when today and the `k - 1` days before it are checked
   * in and the day before those is not; so it never exceeds the number of days.
   */
  lemma StrictExact(days: set<Day>, today: Day, k: nat)
    ensures Strict(days, today) == k <==> RunFrom(days, today, k) && today - k !in days
    ensures Strict(days, today) <= |days|
  {
    RunLengthUnique(days, today, k);
  }

  /** Friendly forgives one missing day only: today and yesterday both missing give 0. */
  lemma FriendlyForgivesOneDay(days: set<Day>, today: Day)
    requires today !in days && today - 1 !in days
    ensures Friendly(days, today) == 0
  {
  }

  /** Friendly never reports less than strict, and both agree when today is checked in. */
  lemma FriendlyAtLeastStrict(days: set<Day>, today: Day)
    ensures Friendly(days, today) >= Strict(days, today)
    ensures today in days ==> Friendly(days, today) == Strict(days, today)
  {
  }

  /**
   * Today missing, yesterday present: strict is 0 and friendly is the length of
   * the run ending yesterday, which is at least 1.
   */
  lemma FriendlyFromYesterday(days: set<Day>, today: Day)
    requires today !in days && today - 1 in days
    ensures Strict(days, today) == 0
    ensures Friendly(days, today) == RunLength(days, today - 1) >= 1
    ensures RunFrom(days, today - 1, Friendly(days, today)) && today - 1 - Friendly(days, today) !in days
  {
    RunLengthStep(days, today - 1);
  }

  /**
   * The scenario of tests/test_app_core.py:54-84: check-ins today, yesterday and
   * the day before give a strict streak of 3; after undoing today strict is 0
   * and friendly is 2.
   */
  lemma ThreeDayScenario(today: Day)
    ensures Strict({today - 2, today - 1, today}, today) == 3
    ensures Strict({today - 2, today - 1}, today) == 0
    ensures Friendly({today - 2, today - 1}, today) == 2
  {
    var full, undone := {today - 2, today - 1, today}, {today - 2, today - 1};
    RunLengthUnique(full, today, 3);
    RunLengthUnique(undone, today - 1, 2);
  }

  /** A gap right before today breaks the chain: days {today - 2, today} give 1. */
  lemma GapBreaksChain(today: Day)
    ensures Strict({today - 2, today}, today) == 1
  {
    RunLengthUnique({today - 2, today}, today, 1);
  }
}
