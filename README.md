# smart-goals-tracker core, modelled in Dafny

smart-goals-tracker is a Streamlit app. It turns a goal into a step-by-step plan with the help of a language model. It stores goals, steps and daily check-ins in SQLite and reports a daily streak. This project models the logic under the user interface:

- **the store** (db.py): the `goals`, `steps` and `checkins` tables, held in memory.
  - A class `Db.Store` has one field per table.
  - Its methods change those fields in place, scanning rows as the SQL statements do.
  - Each method is proved against a function of module `Tables` that says what the statement does to the tables as a value.
- **the streak engine** (db.py `compute_streak_strict` and `compute_streak_friendly`): the walk back from today (or yesterday) over the set of checked-in days.
  - It is proved against `Streak.RunLength`, the length of the run of checked-in days ending at a given day.
- **plan normalisation** (gpt.py `generate_plan` after the model's answer is parsed, and `_safe_json`):
  - parsed items become step drafts;
  - drafts whose title is empty are dropped.
- **the two write paths of the plan tab** (app.py):
  - "Regenerate (keep dates & done)" merges a new plan with the stored steps by trimmed, lower-cased title;
  - "Save changes" writes every editor row back with `update_step`.
- **the date helpers** (utils.py): `parse_date`, `today_ymd` and `upcoming_days`, with today passed in.

Days are integer ordinals, as Python's `date.toordinal()` gives them.
- `Dates.IsoInjective` shows that distinct calendar dates have distinct `YYYY-MM-DD` strings. So a set of ISO strings and the set of the days they name answer membership alike.
- `Dates.IsoOrder` shows that the string order SQLite uses for `ORDER BY day` is the chronological order.

The merge at app.py:179-189 does not drop drafts with an empty title. It also does not keep empty titles out of its lookup dictionary. In the code, drafts with an empty title are dropped only at gpt.py:63, before the merge; the model does the same.

Modules:
- `Wrappers`: `Option`.
- `Text`: Python's `str.strip()` and `str.lower()`, and SQLite's TEXT order.
- `Dates`: utils.py.
- `Sorting`: ordered insertion for `ORDER BY`.
- `Seqs`: filtering and `enumerate`-style numbering of sequences, with the loops that perform them.
- `Tables`: the tables as a value and one function per SQL statement.
- `Streak`: the streak engine.
- `Db`: the `Store` class.
- `Plan`: gpt.py.
- `Reconcile`: app.py.

## Model

| member | source | states |
|---|---|---|
| Text.Strip | db.py:80-85 | Python's `str.strip()`: the infix left after skipping whitespace at both ends; `StripSpec` and `StripUnique` characterise it |
| Text.Lower | app.py:179 | Python's `str.lower()` on ASCII letters; the result has the input's length |
| Text.Normalize | app.py:179 | the title key `strip().lower()`; its properties are the `Normalize` lemmas below |
| Text.StripSpec | gpt.py:54 | `str.strip()` leaves no whitespace at either end and only removes whitespace from both sides |
| Text.StripUnique | db.py:80 | exactly one string is a stripped core of `s` padded with whitespace, namely `Strip(s)` |
| Text.StripIdempotent | app.py:163 | stripping twice is stripping once |
| Text.StripIgnoresPadding | app.py:182 | extra whitespace around a title does not change its stripped form |
| Text.LowerStripCommute | app.py:179 | lower-casing and stripping commute |
| Text.NormalizeIgnoresCaseAndPadding | app.py:179 | two titles equal up to ASCII case and surrounding whitespace have the same `strip().lower()` key |
| Text.NormalizeIdempotent | app.py:182 | the key of a key is itself |
| Text.LexLeTotal | db.py:129 | SQLite's TEXT order compares any two strings |
| Text.LexLeTransitive | db.py:129 | SQLite's TEXT order is transitive |
| Text.LexLeAntisymmetric | db.py:129 | two strings ordered both ways are equal |
| Text.CountConcat | tests/test_app_core.py:104 | `count` of a concatenation is the sum of the counts |
| Dates.Iso | utils.py:10 | `isoformat()` is 10 characters, digits with dashes at positions 4 and 7 |
| Dates.IsoRoundTrip | utils.py:10 | every calendar date reads back from its ISO string |
| Dates.IsoInjective | db.py:137-142 | distinct dates have distinct ISO strings, so membership in the string set is membership of the day |
| Dates.IsoOrder | db.py:129 | ISO strings in TEXT order are in chronological order |
| Dates.NoIsoAfterLastDate | db.py:95 | no ISO due date sorts after the `9999-12-31` that stands in for a missing one |
| Dates.IsoDashes | utils.py:14 | an ISO date string holds exactly two dashes |
| Dates.TodayYmd | utils.py:13-14 | today's string has 10 characters, two dashes, and reads back as today |
| Dates.ParseDate | utils.py:6-11 | `None` exactly for a falsy value; a date gives its ISO string; any other string is returned as is |
| Dates.ParseDateIdempotent | utils.py:6-11 | feeding the result back to `parse_date` returns it unchanged |
| Dates.UpcomingDays | utils.py:16-18 | `n` entries for `n > 0`, none otherwise, starting today, each one day after the previous |
| Dates.UpcomingDaysAt | utils.py:18 | entry `i` is today plus `i` days and lies in `[today, today + n)` |
| Sorting.Insert | db.py:95 | inserting into a sorted list keeps it sorted and adds exactly that element |
| Sorting.AddFresh | db.py:46 | adding a fresh element to a list without repeats leaves no repeats |
| Streak.Strict | db.py:132-145 | `compute_streak_strict` on the goal's day set: positive exactly when today is checked in, never more than the number of days |
| Streak.Friendly | db.py:147-162 | `compute_streak_friendly` on the goal's day set: positive exactly when today or yesterday is checked in, never more than the number of days |
| Streak.RunLength | db.py:141-145 | the run ending at the anchor: all its days are checked in and the day before it is not; never more than the number of days |
| Streak.RunLengthUnique | db.py:141-145 | the run length is the only number with that property, in both directions |
| Streak.RunLengthStep | db.py:142-144 | a checked-in anchor adds one to the run ending the day before |
| Streak.FriendlyAnchor | db.py:154-156 | the anchor is today or yesterday and checked in; there is none exactly when both are missing |
| Streak.CountBack | db.py:141-144 | the `while` loop stops after exactly the run length |
| Streak.StrictStreak | db.py:132-145 | 0 without a check-in today; otherwise the run ending today |
| Streak.FriendlyStreak | db.py:147-162 | the run ending today if today is checked in, else the run ending yesterday |
| Streak.NoCheckinsNoStreak | db.py:135-136 | with no check-ins both streaks are 0 |
| Streak.StrictNeedsToday | db.py:139-140 | strict is 0 when today is not checked in |
| Streak.StrictExact | db.py:141-145 | strict is `k` iff today, ..., today-(k-1) are checked in and today-k is not; strict is at most the number of days |
| Streak.FriendlyForgivesOneDay | db.py:154-156 | today and yesterday both missing give a friendly streak of 0 |
| Streak.FriendlyAtLeastStrict | db.py:139-162 | friendly is at least strict, and the two are equal when today is checked in |
| Streak.FriendlyFromYesterday | db.py:154-162 | today missing and yesterday present: strict is 0, friendly is the run ending yesterday (at least 1) |
| Streak.ThreeDayScenario | tests/test_app_core.py:69-84 | check-ins on three consecutive days up to today give strict 3; after undoing today, strict 0 and friendly 2 |
| Streak.GapBreaksChain | db.py:142-144 | a missing yesterday stops the walk after today |
| Seqs.Filter | db.py:94 | a `WHERE` scan keeps exactly the rows that match, never more rows than there were |
| Seqs.Select | db.py:124 | the scan of a `DELETE ... WHERE` leaves exactly `Filter` of the table, in order |
| Seqs.NumberedAt | gpt.py:51 | element `k` of an `enumerate(xs, start=first)` loop is `f(first + k, xs[k])` |
| Seqs.Enumerate | gpt.py:50-62 | the `for` loop over `enumerate` appends `f(i, x)` for each element, in order |
| Seqs.FilterConcat | db.py:65 | filtering a concatenation filters each part |
| Tables.CreateGoal | db.py:51-55 | `create_goal` as a value: the goal is stored under the next `AUTOINCREMENT` id; `CreateGoalValid` states its properties |
| Tables.DeleteGoal | db.py:62-67 | `delete_goal` as a value: the goal row, the goal's steps and its check-ins are removed; `DeleteGoalCascades` states its properties |
| Tables.NewRow | db.py:78-86 | the row inserted for one dict, with its defaults and trimming; `NewRowNormalised` states its properties |
| Tables.AddSteps | db.py:69-88 | `add_steps` as a value: with `replace` the goal's steps go first, then one new row per dict under consecutive ids; `AddStepsReplaces` and `AddStepsAppends` state its properties |
| Tables.UpdateStep | db.py:99-113 | `update_step` as a value: insert under a fresh id when there is no id, else rewrite the rows matching both id and goal; `UpdateStepOnlyMatching` states its properties |
| Tables.Checkin | db.py:117-120 | `INSERT OR IGNORE` of a (goal, day) row; `CheckinIdempotent` states its properties |
| Tables.DeleteCheckin | db.py:122-125 | `DELETE` of the (goal, day) rows; `DeleteCheckinExact` states its properties |
| Tables.StepKeyLe | db.py:95 | the `ORDER BY order_index, COALESCE(due_date, '9999-12-31')` comparison; `StepKeyLeIsPreorder` states it is a total preorder |
| Tables.CheckinDays | db.py:134-137 | a day is in the goal's day set iff the goal has a check-in row for it |
| Tables.Empty | db.py:17-49 | the freshly created tables satisfy the table rules |
| Tables.CreateGoalValid | db.py:51-55 | a new goal gets an unused id, is stored under it, and the table rules still hold |
| Tables.DeleteGoalCascades | db.py:62-67 | deleting a goal removes it, all its steps and all its check-ins; every other goal stays unchanged, with its steps and days |
| Tables.NewRowsAt | db.py:73-87 | the `k`-th inserted row is the row for the `k`-th dict, under id `first + k` |
| Tables.NewRowsShape | db.py:73-87 | one inserted row per dict, all of the goal, with consecutive new ids |
| Tables.AddStepsReplaces | db.py:69-88 | with `replace`, the goal's steps are exactly the new rows in the given order; other goals keep their steps; rules hold |
| Tables.AddStepsAppends | db.py:69-88 | without `replace`, the new rows follow the goal's old steps; other goals keep theirs; rules hold |
| Tables.AddStepsValid | db.py:69-88 | `add_steps` keeps the table rules with or without `replace` |
| Tables.AppendRowsIds | db.py:29 | rows numbered on from the next `AUTOINCREMENT` id keep the ids unique and increasing |
| Tables.NewRowNormalised | db.py:78-86 | each of title, detail, metric and why is stored as its input trimmed (missing text as ""); a given `order_index` or `done` is stored as given, a missing one as 0; duration and due date as given |
| Tables.UpdateStepOnlyMatching | db.py:99-113 | no id: a row is appended under a fresh id; an id: only the row whose id and goal both match is rewritten, all others unchanged |
| Tables.CheckinIdempotent | db.py:117-120 | a check-in adds that day to the goal's days and nothing else; repeating it changes nothing; no duplicate rows |
| Tables.DeleteCheckinExact | db.py:122-125 | undoing a check-in removes exactly that (goal, day); other goals' days, steps and goals are kept |
| Tables.CheckinThenUndo | db.py:117-125 | checking in a new day and undoing it restores the goal's days |
| Tables.StepKeyLeIsPreorder | db.py:95 | the `ORDER BY order_index, COALESCE(due_date, '9999-12-31')` key is a total preorder |
| Tables.MissingDueDateSortsLast | db.py:95 | for the same `order_index`, a step with an ISO due date never sorts after one without |
| Db.Store.constructor | db.py:17-49 | the store starts with empty tables |
| Db.Store.CreateGoal | db.py:51-55 | the new state is `Tables.CreateGoal`; the returned id was unused |
| Db.Store.DeleteStepsOf | db.py:65 | the scan leaves exactly the other goals' steps, in order; rules hold |
| Db.Store.DeleteCheckinsOf | db.py:66 | the scan leaves exactly the other goals' check-ins, in order; rules hold |
| Db.Store.DeleteGoal | db.py:62-67 | the new state is `Tables.DeleteGoal`; rules hold |
| Db.Store.InsertRows | db.py:73-87 | the insert loop appends `NewRows` (one row per dict, ids counting up) and advances the id counter by the number of dicts; rules hold |
| Db.Store.AddSteps | db.py:69-88 | the new state is `Tables.AddSteps`; rules hold |
| Db.Store.UpdateStep | db.py:99-114 | the new state is `Tables.UpdateStep`; rules hold |
| Db.Store.Checkin | db.py:117-120 | the new state is `Tables.Checkin` (`INSERT OR IGNORE`); rules hold |
| Db.Store.DeleteCheckin | db.py:122-125 | the new state is `Tables.DeleteCheckin`; rules hold |
| Db.Store.GetCheckins | db.py:127-130 | the goal's check-in days, strictly ascending, each day exactly when checked in |
| Db.Store.GetSteps | db.py:90-97 | exactly the goal's steps (as a multiset), sorted by order index then due date with missing dates last |
| Db.Store.ComputeStreakStrict | db.py:132-145 | the strict streak of the goal's days: the run ending today, and the day before the run is not checked in |
| Db.Store.ComputeStreakFriendly | db.py:147-162 | the friendly streak of the goal's days |
| Plan.NormaliseItem | gpt.py:52-62 | the draft built from one parsed item at its 1-based position; `NormaliseItemShape` states its properties |
| Plan.PlanOf | gpt.py:50-63 | what `generate_plan` returns for a parsed answer; `PlanShape`, `KeptExactlyTitled` and `KeptInOrder` state its properties |
| Plan.SafeJson | gpt.py:31-35 | unparseable text gives `[]`, parsed text gives the parsed list |
| Plan.DurationOf | gpt.py:57 | a duration is kept iff present and non-zero, and then unchanged |
| Plan.GeneratePlan | gpt.py:48-63 | the normalisation loop then the filter give the plan of the parsed answer; unparseable output gives an empty plan; never longer than the item list |
| Plan.NormalisedAt | gpt.py:51-53 | one draft per item; draft `k` is built from item `k` with `order_index` `k + 1` |
| Plan.NormaliseItemShape | gpt.py:52-62 | every draft has trimmed text (missing as ""), no due date, `done` 0 and its position as `order_index` |
| Plan.FilterKeepsOrder | gpt.py:63 | dropping drafts keeps `order_index` strictly increasing |
| Plan.KeepAllTitled | gpt.py:63 | when every draft has a title the filter keeps them all |
| Plan.NormalisedInOrder | gpt.py:51-53 | before filtering, the drafts are numbered 1 to n, strictly increasing |
| Plan.KeptInOrder | gpt.py:50-63 | kept drafts have positions within 1 to n, strictly increasing (gaps allowed) |
| Plan.NormalisedFromItems | gpt.py:51-62 | before filtering, each draft is the draft of the item its `order_index` names |
| Plan.KeptFromItems | gpt.py:50-63 | each kept draft is the draft of the item its `order_index` names |
| Plan.KeptExactlyTitled | gpt.py:54-63 | an item's draft is kept iff its title is non-empty after trimming |
| Plan.PlanShape | gpt.py:50-63 | every plan is no longer than the items; titles non-empty and trimmed; no due dates; `done` 0; positions increasing and each draft from its item |
| Plan.TwoItemPlan | tests/test_gpt_mock.py:24-55 | the two-item answer of the test yields two drafts with the given titles, no due date, `done` 0, numbered 1 and 2 |
| Reconcile.TitleIndex | app.py:179 | the `existing` dict from the stripped, lower-cased title to the stored step; `IndexBySpec` states its properties |
| Reconcile.MergeOne | app.py:181-189 | the merged dict for one new step; `MergeOneSpec` states its properties |
| Reconcile.IndexBySpec | app.py:179 | every stored step's key is in the dict, and each key maps to the last stored step with that key |
| Reconcile.Merge | app.py:180-189 | one merged step per new step, in order, each the merge of that step with the title index |
| Reconcile.MergeOneSpec | app.py:181-189 | text and duration pass through; no match gives no due date, `done` 0 and the 1-based position; a match gives the last matching stored step's due date, `done` and order |
| Reconcile.MatchIgnoresCaseAndPadding | app.py:179-183 | a title differing only in ASCII case and surrounding whitespace is merged the same way |
| Reconcile.RegenerateKeepsDesignStep | app.py:179-188 | a new "design Home Page " keeps the due date, done flag and order of a stored "Design home page" |
| Reconcile.Regenerate | app.py:173-190 | reads the goal's steps in `get_steps` order, merges, and replaces the goal's steps with the merged list |
| Reconcile.RowValues | app.py:159-169 | the column values the save loop passes to `update_step` for one editor row; `RowValuesSpec` states its properties |
| Reconcile.SaveAll | app.py:158-170 | `update_step` applied to each editor row in turn; `SaveAllValid` and `SaveAllKeepsGoalsAndCheckins` state its properties |
| Reconcile.DoneFlag | app.py:169 | the checkbox is written as 1 iff ticked, else 0 |
| Reconcile.RowValuesSpec | app.py:159-169 | an empty order cell gives 0; text trimmed with an empty cell as ""; duration as given; a date is written as an ISO string that reads back as it; `done` is 0 or 1 |
| Reconcile.SaveAllValid | app.py:158-170 | saving any rows keeps the table rules |
| Reconcile.SaveAllKeepsGoalsAndCheckins | app.py:158-170 | saving never touches goals or check-ins |
| Reconcile.SaveChanges | app.py:156-171 | the store ends as `update_step` applied to each row in turn |

## Left out

- The Streamlit interface, pandas, plotly, report.py's PDF drawing, `.env` loading and status messages. These are presentation and framework code.
- The OpenAI requests, prompt texts, `weekly_summary` and `short_quote`. These are network calls with nondeterministic answers. `generate_plan` starts from the parsed answer.
- `json.loads` is not modelled. `Plan.SafeJson` takes the parser's outcome: `None` for text that does not parse.
- Parsed answers that are not lists, list items that are not objects, and non-string titles are not modelled. gpt.py would raise on them.
- gpt.py's `int(...)` on a string duration such as "30" is not modelled. Durations are integers in the model.
- SQLite connections, transactions and schema text are not modelled. The tables are in-memory values.
- Foreign keys are not modelled. SQLite does not enforce them without `PRAGMA foreign_keys`, and db.py never sets it.
- `created_at` (the database clock) and `list_goals` are not modelled.
- The clock is not modelled. `today` is a parameter (a day ordinal for streaks, a calendar date for `today_ymd`).
- Converting between ordinals and calendar dates is not modelled. Neither is `OverflowError` at the ends of the date range.
- Text.Lower: case mapping covers ASCII letters only; Python's `str.lower()` also maps non-ASCII letters.
- Tables.NewRow: a dict whose `title` key holds `None` is stored with the title "" here. db.py's `s.get("title","").strip()` raises on it.
- Tables.NewRow: an `order_index` or `done` key holding `None` is stored as 0 here. db.py's `int(None)` raises on it.
- Dates.UpcomingDays: entries are day ordinals; their `isoformat()` strings (10-character `YYYY-MM-DD` text) are not modelled. `Dates.IsoRoundTrip` and `Dates.Iso` give the form each entry takes.
- Dates.ParseDate: covers `None`, strings and date objects. Other values (`str(x)` of numbers and so on) are not modelled.
- Reconcile.RowValues: a NaN cell other than the id is read as an empty cell.
- Reconcile.SaveChanges: an id cell of a row added in the editor is taken as `None`. If pandas gives NaN there, `update_step` would update nothing; that case is not modelled. Float durations are not truncated with `int(...)`.
- Db.Store.GetSteps: the order of steps with equal sort keys is left open, as SQL leaves it. The contract promises the order and the multiset of rows, not a particular tie order.
- Regenerating the plan from the goal's title and deadline (app.py:175-177) is not modelled. `Reconcile.Regenerate` takes the new plan as a parameter.
