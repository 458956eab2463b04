/** Week-of-month numbering where weeks run Monday to Sunday, the 1st of a
    month is always in week 1, and a month that starts on a Saturday or a
    Sunday has its first week anchored at that Saturday. */
module WeekOfMonth {

  /** Day of the month: 1 for the 1st. Month lengths are not modelled. */
  type DayOfMonth = d: int | 1 <= d witness 1

  /** A calendar date. `dayNumber` counts days from a fixed Monday, so the
      weekday (Monday = 0 ... Sunday = 6) is `dayNumber % 7`; `day` is the
      day of the month the date falls on. */
  datatype Date = Date(dayNumber: int, day: DayOfMonth)

  /** A series of values with its index labels, as a data frame library keeps it. */
  datatype Series<K, V> = Series(index: seq<K>, values: seq<V>)

  const Saturday := 5
  const Sunday := 6

  /** The weekday of a day number, Monday = 0. */
  function Weekday(n: int): (w: int)
    ensures 0 <= w < 7
    ensures (n - w) % 7 == 0
  {
    n % 7
  }

  /** The day number of the 1st of the date's month (`date.replace(day=1)`). */
  function FirstOfMonth(date: Date): int {
    date.dayNumber - (date.day - 1)
  }

  /** The Monday that starts the week holding day number n. */
  function WeekStart(n: int): (m: int)
    ensures Weekday(m) == 0 && m <= n < m + 7
  {
    n - Weekday(n)
  }

  /** Where week 1 begins: the Monday of the 1st's week, or, when the 1st is a
      Saturday or a Sunday, that Saturday. */
  function FirstWeekStart(first: int): (s: int)
    ensures s <= first
    ensures Weekday(first) < Saturday ==> s == WeekStart(first)
    ensures Weekday(first) >= Saturday ==> Weekday(s) == Saturday && first - s < 2
  {
    var wd := Weekday(first);
    if wd == Saturday || wd == Sunday then first - (wd - Saturday) else first - wd
  }

  /** The week number before the clamp. Dafny's `/` by a positive divisor
      rounds down, as Python's `//` does. */
  function RawWeek(date: Date): int {
    (WeekStart(date.dayNumber) - FirstWeekStart(FirstOfMonth(date))) / 7 + 1
  }

  function Max(a: int, b: int): int {
    if a >= b then a else b
  }

  /** The week of the month of one date. */
  function WeekOfMonth(date: Date): (w: int)
    ensures w >= 1
    ensures RawWeek(date) >= 1 ==> w == RawWeek(date)
  {
    Max(RawWeek(date), 1)
  }

  /** Two dates are in the same month when they share the day number of the 1st. */
  predicate SameMonth(a: Date, b: Date) {
    FirstOfMonth(a) == FirstOfMonth(b)
  }

  /** The weekday of the k-th day after n. */
  lemma {:induction false} WeekdayShift(n: int, k: nat)
    ensures Weekday(n + k) == (Weekday(n) + k) % 7
  {
    var q, q' := n / 7, (n + k) / 7;
    assert n == 7 * q + Weekday(n);
    assert n + k == 7 * q' + Weekday(n + k);
    var r := (Weekday(n) + k) % 7;
    assert Weekday(n) + k == 7 * ((Weekday(n) + k) / 7) + r;
    assert n + k == 7 * (q + (Weekday(n) + k) / 7) + r;
    ModUnique(n + k, q + (Weekday(n) + k) / 7, r);
  }

  /** A remainder by 7 is determined by any representation `x = 7q + r`, `0 <= r < 7`. */
  lemma ModUnique(x: int, q: int, r: int)
    requires 0 <= r < 7 && x == 7 * q + r
    ensures x % 7 == r && x / 7 == q
  {
  }

  /** A closed form independent of the step-by-step computation: with `wd` the
      weekday of the 1st, a month starting Monday to Friday numbers day d as
      `(d - 1 + wd) / 7 + 1`; a month starting on a weekend numbers it one
      less, but never below 1. */
  lemma {:induction false} WeekOfMonthClosedForm(date: Date)
    ensures var wd := Weekday(FirstOfMonth(date));
      WeekOfMonth(date) ==
        if wd < Saturday then (date.day - 1 + wd) / 7 + 1
        else Max((date.day - 1 + wd) / 7, 1)
  {
    var first := FirstOfMonth(date);
    var wd := Weekday(first);
    var x := date.day - 1 + wd;
    var q := x / 7;
    WeekdayShift(first, date.day - 1);
    assert Weekday(date.dayNumber) == x % 7;
    assert x == 7 * q + x % 7;
    assert WeekStart(date.dayNumber) == first - wd + 7 * q;
    if wd < Saturday {
      assert FirstWeekStart(first) == first - wd;
      ModUnique(7 * q, q, 0);
      assert RawWeek(date) == q + 1;
    } else {
      assert FirstWeekStart(first) == first - wd + Saturday;
      ModUnique(7 * q - Saturday, q - 1, 2);
      assert RawWeek(date) == q;
    }
  }

  /** The 1st of every month is in week 1, whatever weekday it falls on. */
  lemma FirstIsWeekOne(date: Date)
    requires date.day == 1
    ensures WeekOfMonth(date) == 1
  {
    WeekOfMonthClosedForm(date);
  }

  /** Within one month, two dates that the clamp does not touch share their
      week number exactly when they share their Monday-started week. */
  lemma SameWeekIffSameNumber(a: Date, b: Date)
    requires SameMonth(a, b) && RawWeek(a) >= 1 && RawWeek(b) >= 1
    ensures WeekOfMonth(a) == WeekOfMonth(b) <==> WeekStart(a.dayNumber) == WeekStart(b.dayNumber)
  {
    var s := FirstWeekStart(FirstOfMonth(a));
    var da, db := WeekStart(a.dayNumber) - s, WeekStart(b.dayNumber) - s;
    assert Weekday(WeekStart(a.dayNumber)) == 0 && Weekday(WeekStart(b.dayNumber)) == 0;
    assert (WeekStart(a.dayNumber) - WeekStart(b.dayNumber)) % 7 == 0 by {
      DifferenceOfMultiples(WeekStart(a.dayNumber), WeekStart(b.dayNumber));
    }
    if da / 7 == db / 7 {
      SameQuotientMultiples(da, db);
    }
  }

  /** Two day numbers with the same weekday are a multiple of 7 apart. */
  lemma DifferenceOfMultiples(m: int, n: int)
    requires Weekday(m) == Weekday(n)
    ensures (m - n) % 7 == 0
  {
    ModUnique(m - n, m / 7 - n / 7, 0);
  }

  /** Numbers a multiple of 7 apart with the same quotient by 7 are equal. */
  lemma SameQuotientMultiples(x: int, y: int)
    requires (x - y) % 7 == 0 && x / 7 == y / 7
    ensures x == y
  {
    var k := (x - y) / 7;
    assert x - y == 7 * k;
    assert x == 7 * (x / 7) + x % 7;
    assert y == 7 * (y / 7) + y % 7;
    assert 7 * k == x % 7 - y % 7;
  }

  /** Every two dates of a month that share a Monday-started week share a number. */
  lemma SameWeekSameNumber(a: Date, b: Date)
    requires SameMonth(a, b) && WeekStart(a.dayNumber) == WeekStart(b.dayNumber)
    ensures WeekOfMonth(a) == WeekOfMonth(b)
  {
  }

  /** Seven days later in the same month is exactly one week later, unless the
      clamp lifted the earlier date's number to 1. */
  lemma AdvanceOneWeek(date: Date)
    requires RawWeek(date) >= 1
    ensures WeekOfMonth(Date(date.dayNumber + 7, date.day + 7)) == WeekOfMonth(date) + 1
  {
    var later := Date(date.dayNumber + 7, date.day + 7);
    assert FirstOfMonth(later) == FirstOfMonth(date);
    WeekOfMonthClosedForm(date);
    WeekOfMonthClosedForm(later);
    var wd := Weekday(FirstOfMonth(date));
    ModUnique(date.day + 7 - 1 + wd, (date.day - 1 + wd) / 7 + 1, (date.day - 1 + wd) % 7);
  }

  /** Within one month, the week number never decreases as the date advances. */
  lemma Monotone(a: Date, b: Date)
    requires SameMonth(a, b) && a.dayNumber <= b.dayNumber
    ensures WeekOfMonth(a) <= WeekOfMonth(b)
  {
    WeekOfMonthClosedForm(a);
    WeekOfMonthClosedForm(b);
    var wd := Weekday(FirstOfMonth(a));
    DivMonotone(a.day - 1 + wd, b.day - 1 + wd);
  }

  lemma DivMonotone(x: int, y: int)
    requires x <= y
    ensures x / 7 <= y / 7
  {
  }

  /** When the 1st is a Saturday or a Sunday, week 1 runs from the 1st through
      the Sunday after the following Monday, and the next Monday opens week 2. */
  lemma WeekendStartAnchorsWeekOne(date: Date)
    requires Weekday(FirstOfMonth(date)) >= Saturday
    ensures var nextMonday := FirstOfMonth(date) + (7 - Weekday(FirstOfMonth(date)));
      (date.dayNumber < nextMonday + 7 ==> WeekOfMonth(date) == 1) &&
      (nextMonday + 7 <= date.dayNumber < nextMonday + 14 ==> WeekOfMonth(date) == 2)
  {
    WeekOfMonthClosedForm(date);
    var wd := Weekday(FirstOfMonth(date));
    var x := date.day - 1 + wd;
    if x < 14 {
      ModUnique(x, x / 7, x % 7);
    } else if x < 21 {
      ModUnique(x, 2, x - 14);
    }
  }

  /** The week of the month of every date of a series, with the series' index
      kept: one entry per date, in the same order. */
  method GetWeekOfMonthIso<K>(dates: Series<K, Date>) returns (weeks: Series<K, int>)
    requires |dates.index| == |dates.values|
    ensures weeks.index == dates.index
    ensures |weeks.values| == |dates.values|
    ensures forall i :: 0 <= i < |dates.values| ==> weeks.values[i] == WeekOfMonth(dates.values[i])
  {
    var weekOfMonth: seq<int> := [];
    for i := 0 to |dates.values|
      invariant |weekOfMonth| == i
      invariant forall k :: 0 <= k < i ==> weekOfMonth[k] == WeekOfMonth(dates.values[k])
    {
      var date := dates.values[i];
      var firstDay := FirstOfMonth(date);
      var firstWeekStart := firstDay - Weekday(firstDay);
      if Weekday(firstDay) == Saturday || Weekday(firstDay) == Sunday {
        firstWeekStart := firstDay - (Weekday(firstDay) - Saturday);
      }
      var currentWeekStart := date.dayNumber - Weekday(date.dayNumber);
      var wom := (currentWeekStart - firstWeekStart) / 7 + 1;
      wom := Max(wom, 1);
      weekOfMonth := weekOfMonth + [wom];
    }
    weeks := Series(dates.index, weekOfMonth);
  }
}
