/**
 * Calendar helpers of utils.py: ISO-8601 calendar dates (`YYYY-MM-DD`, the
 * extended format of section 4.1.2.2 of ISO 8601:2004), `parse_date`,
 * `today_ymd` and `upcoming_days`, with the clock read replaced by a parameter.
 */
module Dates {
  import opened Wrappers
  import opened Text

  /** A day as its proleptic Gregorian ordinal, as Python's `date.toordinal()` gives it. */
  type Day = int

  datatype Date = Date(year: int, month: int, day: int)

  predicate IsLeap(y: int)
  {
    y % 4 == 0 && (y % 100 != 0 || y % 400 == 0)
  }

  function DaysInMonth(y: int, m: int): int
    requires 1 <= m <= 12
  {
    if m == 2 then (if IsLeap(y) then 29 else 28)
    else if m == 4 || m == 6 || m == 9 || m == 11 then 30
    else 31
  }

  /** The dates Python's `datetime.date` can hold: years 1 to 9999. */
  predicate ValidDate(d: Date)
  {
    1 <= d.year <= 9999 && 1 <= d.month <= 12 && 1 <= d.day <= DaysInMonth(d.year, d.month)
  }

  type CalendarDate = d: Date | ValidDate(d) witness Date(1, 1, 1)

  /** Chronological order of calendar dates. */
  predicate DateLe(a: Date, b: Date)
  {
    a.year < b.year || (a.year == b.year && (a.month < b.month || (a.month == b.month && a.day <= b.day)))
  }

  function Pow10(n: nat): (p: nat)
    ensures p >= 1
  {
    if n == 0 then 1 else 10 * Pow10(n - 1)
  }

  predicate IsDigit(c: char)
  {
    '0' <= c <= '9'
  }

  predicate AllDigits(s: string)
  {
    forall i :: 0 <= i < |s| ==> IsDigit(s[i])
  }

  function DigitChar(n: int): char
    requires 0 <= n < 10
  {
    ('0' as int + n) as char
  }

  /** `x` written in decimal with exactly `width` digits, as `"%0<width>d" % x` does for small `x`. */
  function Pad(x: nat, width: nat): (r: string)
    ensures |r| == width && AllDigits(r)
  {
    if width == 0 then "" else Pad(x / 10, width - 1) + [DigitChar(x % 10)]
  }

  /** The number a string of decimal digits denotes. */
  function DigitsValue(s: string): nat
    requires AllDigits(s)
  {
    if s == [] then 0 else DigitsValue(s[..|s| - 1]) * 10 + (s[|s| - 1] as int - '0' as int)
  }

  lemma {:induction false} PadRoundTrip(x: nat, width: nat)
    requires x < Pow10(width)
    ensures DigitsValue(Pad(x, width)) == x
  {
    if width > 0 {
      var p := Pad(x / 10, width - 1);
      PadRoundTrip(x / 10, width - 1);
      assert (p + [DigitChar(x % 10)])[..width - 1] == p;
    }
  }

  /** Python's `date.isoformat()`: `"%04d-%02d-%02d" % (year, month, day)`. */
  function Iso(d: CalendarDate): (r: string)
    ensures |r| == 10 && r[4] == '-' && r[7] == '-'
    ensures forall i :: 0 <= i < 10 && i != 4 && i != 7 ==> IsDigit(r[i])
  {
    Pad(d.year, 4) + "-" + Pad(d.month, 2) + "-" + Pad(d.day, 2)
  }

  /** Reads back a `YYYY-MM-DD` string; `None` for anything else or an impossible date. */
  function ParseIso(s: string): (r: Option<CalendarDate>)
    ensures r.Some? ==> |s| == 10 && s[4] == '-' && s[7] == '-'
  {
    if |s| == 10 && s[4] == '-' && s[7] == '-'
       && AllDigits(s[..4]) && AllDigits(s[5..7]) && AllDigits(s[8..])
    then
      var d := Date(DigitsValue(s[..4]), DigitsValue(s[5..7]), DigitsValue(s[8..]));
      if ValidDate(d) then Some(d) else None
    else None
  }

  /** Every calendar date reads back from its ISO form. */
  lemma IsoRoundTrip(d: CalendarDate)
    ensures ParseIso(Iso(d)) == Some(d)
  {
    var s := Iso(d);
    assert s[..4] == Pad(d.year, 4);
    assert s[5..7] == Pad(d.month, 2);
    assert s[8..] == Pad(d.day, 2);
    PadRoundTrip(d.year, 4);
    PadRoundTrip(d.month, 2);
    PadRoundTrip(d.day, 2);
  }

  /**
   * Distinct dates have distinct ISO forms, so a set of ISO strings and the set
   * of the days they name answer membership alike.
   */
  lemma IsoInjective(a: CalendarDate, b: CalendarDate)
    requires Iso(a) == Iso(b)
    ensures a == b
  {
    IsoRoundTrip(a);
    IsoRoundTrip(b);
  }

  /** The comparison of two strings that share no more than a common-length head. */
  lemma {:induction false} LexLeConcat(p: string, s: string, q: string, t: string)
    requires |p| == |q|
    ensures LexLe(p + s, q + t) == ((p != q && LexLe(p, q)) || (p == q && LexLe(s, t)))
    decreases |p|
  {
    if p != [] {
      assert (p + s)[0] == p[0] && (q + t)[0] == q[0];
      assert (p + s)[1..] == p[1..] + s && (q + t)[1..] == q[1..] + t;
      LexLeConcat(p[1..], s, q[1..], t);
      if p[0] == q[0] && p[1..] == q[1..] {
        assert p == [p[0]] + p[1..] && q == [q[0]] + q[1..];
      }
    } else {
      assert p + s == s && q + t == t;
    }
  }

  /** Equal-width decimal strings compare as the numbers they denote. */
  lemma {:induction false} PadOrder(x: nat, z: nat, width: nat)
    requires x < Pow10(width) && z < Pow10(width)
    ensures LexLe(Pad(x, width), Pad(z, width)) == (x <= z)
  {
    if width > 0 {
      var p, q := Pad(x / 10, width - 1), Pad(z / 10, width - 1);
      PadOrder(x / 10, z / 10, width - 1);
      LexLeConcat(p, [DigitChar(x % 10)], q, [DigitChar(z % 10)]);
      PadRoundTrip(x / 10, width - 1);
      PadRoundTrip(z / 10, width - 1);
      assert p == q <==> x / 10 == z / 10;
      assert LexLe([DigitChar(x % 10)], [DigitChar(z % 10)]) == (x % 10 <= z % 10);
    }
  }

  /** ISO strings sort as the dates they name: `ORDER BY day` on them is chronological. */
  lemma IsoOrder(a: CalendarDate, b: CalendarDate)
    ensures LexLe(Iso(a), Iso(b)) == DateLe(a, b)
  {
    var ya, yb := Pad(a.year, 4), Pad(b.year, 4);
    var ma, mb := Pad(a.month, 2), Pad(b.month, 2);
    var da, db := Pad(a.day, 2), Pad(b.day, 2);
    PadOrder(a.year, b.year, 4);
    PadOrder(a.month, b.month, 2);
    PadOrder(a.day, b.day, 2);
    PadRoundTrip(a.year, 4); PadRoundTrip(b.year, 4);
    PadRoundTrip(a.month, 2); PadRoundTrip(b.month, 2);
    assert Iso(a) == ya + ("-" + ma + "-" + da);
    assert Iso(b) == yb + ("-" + mb + "-" + db);
    LexLeConcat(ya, "-" + ma + "-" + da, yb, "-" + mb + "-" + db);
    assert "-" + ma + "-" + da == "-" + (ma + ("-" + da));
    assert "-" + mb + "-" + db == "-" + (mb + ("-" + db));
    LexLeConcat("-", ma + ("-" + da), "-", mb + ("-" + db));
    LexLeConcat(ma, "-" + da, mb, "-" + db);
    LexLeConcat("-", da, "-", db);
  }

  /** The last date Python can represent, the one SQL's `COALESCE(due_date, '9999-12-31')` stands in with. */
  const LastDate: CalendarDate := Date(9999, 12, 31)

  lemma LastDateIso()
    ensures Iso(LastDate) == "9999-12-31"
  {
  }

  /** No ISO date string sorts after the stand-in for a missing one. */
  lemma NoIsoAfterLastDate(d: CalendarDate)
    ensures LexLe(Iso(d), "9999-12-31")
  {
    IsoOrder(d, LastDate);
    LastDateIso();
  }

  /** utils.py `today_ymd`, with the current date passed in. */
  function TodayYmd(today: CalendarDate): (r: string)
    ensures |r| == 10 && Count(r, '-') == 2
    ensures ParseIso(r) == Some(today)
  {
    IsoRoundTrip(today);
    IsoDashes(today);
    Iso(today)
  }

  /** An ISO date string holds exactly two dashes. */
  lemma IsoDashes(d: CalendarDate)
    ensures Count(Iso(d), '-') == 2
  {
    var r := Iso(d);
    CountConcat(r[..4], r[4..], '-');
    CountConcat([r[4]], r[5..], '-');
    CountConcat(r[5..7], r[7..], '-');
    CountConcat([r[7]], r[8..], '-');
    assert r[4..] == [r[4]] + r[5..];
    assert r[5..] == r[5..7] + r[7..];
    assert r[7..] == [r[7]] + r[8..];
    assert r == r[..4] + r[4..];
    assert Count([r[4]], '-') == 1 && Count([r[7]], '-') == 1;
    NoDash(r[..4]);
    NoDash(r[5..7]);
    NoDash(r[8..]);
  }

  lemma {:induction false} NoDash(s: string)
    requires AllDigits(s)
    ensures Count(s, '-') == 0
  {
    if s != [] { NoDash(s[1..]); }
  }

  /** The values `parse_date` meets: `None`, a string, or a date object. */
  datatype Value = NoneValue | Str(s: string) | DateValue(d: CalendarDate)

  /** Python's truthiness of such a value. */
  predicate Truthy(x: Value)
  {
    match x
    case NoneValue => false
    case Str(s) => s != ""
    case DateValue(_) => true
  }

  /** utils.py `parse_date`: `None` for a falsy value, the ISO form of a date, the string itself otherwise. */
  function ParseDate(x: Value): (r: Option<string>)
    ensures r.None? <==> !Truthy(x)
    ensures x.DateValue? ==> r.Some? && ParseIso(r.value) == Some(x.d)
    ensures x.Str? && Truthy(x) ==> r == Some(x.s)
  {
    match x
    case NoneValue => None
    case Str(s) => if s == "" then None else Some(s)
    case DateValue(d) => IsoRoundTrip(d); Some(Iso(d))
  }

  /** Feeding `parse_date`'s string result back to it changes nothing. */
  lemma ParseDateIdempotent(x: Value)
    ensures ParseDate(x).Some? ==> ParseDate(Str(ParseDate(x).value)) == ParseDate(x)
  {
    if x.DateValue? {
      assert |Iso(x.d)| == 10;
    }
  }

  /** utils.py `upcoming_days(n)`: the `n` days starting today (none when `n <= 0`). */
  function UpcomingDays(today: Day, n: int): (r: seq<Day>)
    ensures |r| == if n > 0 then n else 0
    ensures |r| > 0 ==> r[0] == today
    ensures forall i :: 0 < i < |r| ==> r[i] == r[i - 1] + 1
  {
    seq(if n > 0 then n else 0, i => today + i)
  }

  /** Entry `i` of `upcoming_days` is today plus `i` days, so the entries are strictly increasing. */
  lemma {:induction false} UpcomingDaysAt(today: Day, n: int, i: int)
    requires 0 <= i < |UpcomingDays(today, n)|
    ensures UpcomingDays(today, n)[i] == today + i
    ensures today <= UpcomingDays(today, n)[i] < today + n
  {
    if i > 0 {
      UpcomingDaysAt(today, n, i - 1);
    }
  }
}
