/**
  Five-field cron schedules: what an instant must satisfy, and the search for
  the next one. A minute index counts UTC minutes from 1970; instants are
  nanoseconds from 1970.
 */
module CronSearch {
  import opened Text
  import opened Calendar
  import opened Cron

  const MINUTE: int := 60_000_000_000
  const DAY: int := 1440 * MINUTE

  datatype Schedule = Schedule(min: CronField, hour: CronField, dom: CronField, month: CronField, dow: CronField)

  // ---- parsing ---------------------------------------------------------------

  /** Day of week: both 0 and 7 are Sunday. */
  ghost predicate DenotesDow(spec: string, v: int) {
    Denotes(spec, 0, 7, v) || (v == 0 && Denotes(spec, 0, 7, 7))
  }

  ghost predicate ParsedDow(f: CronField, spec: string) {
    match f
    case Any => spec == "*"
    case Set(values) =>
      spec != "*" && values != [] && Ascending(values) && forall v: nat :: v in values <==> v < 7 && DenotesDow(spec, v)
  }

  /** `CronField::parse_dow`. */
  method ParseDow(spec: string) returns (f: Option<CronField>)
    ensures f.Some? <==> WellFormed(spec, 0, 7)
    ensures f.Some? ==> ParsedDow(f.value, spec)
  {
    var parsed := ParseField(spec, 0, 7);
    if parsed.None? || parsed.value.Any? {
      return parsed;
    }
    hide Denotes, SortDedup, Ascending;
    var days := parsed.value.values;
    forall j | 0 <= j < |days| ensures days[j] <= 7 {
      DenotedInRange(spec, 0, 7, days[j]);
    }
    var v := days;
    var i := 0;
    while i < |v|
      invariant 0 <= i <= |v| == |days|
      invariant forall j :: 0 <= j < i ==> v[j] == FoldSunday(days[j])
      invariant forall j :: i <= j < |v| ==> v[j] == days[j]
    {
      if v[i] == 7 {
        v := v[i := 0];
      }
      i := i + 1;
    }
    SortDedupKeeps(v);
    assert v[0] in SortDedup(v);
    forall x: nat ensures x in v <==> x < 7 && DenotesDow(spec, x) {
      FoldedMembers(days, v, x);
    }
    f := Some(Set(SortDedup(v)));
  }

  function FoldSunday(v: nat): nat { if v == 7 then 0 else v }

  lemma FoldedMembers(s: seq<nat>, v: seq<nat>, x: nat)
    requires |s| == |v| && forall j :: 0 <= j < |s| ==> v[j] == FoldSunday(s[j]) && s[j] <= 7
    ensures x in v <==> x < 7 && (x in s || (x == 0 && 7 in s))
  {
    if x < 7 && x in s {
      var j :| 0 <= j < |s| && s[j] == x;
      assert v[j] == x;
    }
    if x == 0 && 7 in s {
      var j :| 0 <= j < |s| && s[j] == 7;
      assert v[j] == x;
    }
  }

  lemma DenotedInRange(spec: string, min: nat, max: nat, v: nat)
    requires spec != "*" && Denotes(spec, min, max, v)
    ensures min <= v <= max
  {
  }

  predicate WellFormedCron(f: seq<string>) {
    && |f| == 5
    && WellFormed(f[0], 0, 59) && WellFormed(f[1], 0, 23) && WellFormed(f[2], 1, 31)
    && WellFormed(f[3], 1, 12) && WellFormed(f[4], 0, 7)
  }

  ghost predicate Represents(c: Schedule, f: seq<string>)
    requires |f| == 5
  {
    && Parsed(c.min, f[0], 0, 59) && Parsed(c.hour, f[1], 0, 23) && Parsed(c.dom, f[2], 1, 31)
    && Parsed(c.month, f[3], 1, 12) && ParsedDow(c.dow, f[4])
  }

  /** `parse_cron`: exactly five fields, each well formed. */
  method ParseCron(s: string) returns (c: Option<Schedule>)
    ensures c.Some? <==> WellFormedCron(Words(s))
    ensures c.Some? ==> Represents(c.value, Words(s))
  {
    hide WellFormed, Parsed, ParsedDow;
    var f := Words(s);
    if |f| != 5 {
      return None;
    }
    var min := ParseField(f[0], 0, 59);
    if min.None? { return None; }
    var hour := ParseField(f[1], 0, 23);
    if hour.None? { return None; }
    var dom := ParseField(f[2], 1, 31);
    if dom.None? { return None; }
    var month := ParseField(f[3], 1, 12);
    if month.None? { return None; }
    var dow := ParseDow(f[4]);
    if dow.None? { return None; }
    c := Some(Schedule(min.value, hour.value, dom.value, month.value, dow.value));
  }

  // ---- matching --------------------------------------------------------------

  predicate Allows(f: CronField, v: int) {
    f.Any? || (v >= 0 && v in f.values)
  }

  function MinuteOf(m: int): int { m % 60 }

  function HourOf(m: int): int { m / 60 % 24 }

  function DayOf(m: int): int { m / 1440 }

  /** `day_matches`. */
  predicate DayMatches(c: Schedule, n: int) {
    match (c.dom, c.dow)
    case (Any, Any) => true
    case (_, Any) => Allows(c.dom, DateOf(n).day)
    case (Any, _) => Allows(c.dow, Weekday(n))
    case _ => Allows(c.dom, DateOf(n).day) || Allows(c.dow, Weekday(n))
  }

  /** `matches`. */
  predicate Matches(c: Schedule, m: int) {
    && Allows(c.min, MinuteOf(m))
    && Allows(c.hour, HourOf(m))
    && Allows(c.month, DateOf(DayOf(m)).month)
    && DayMatches(c, DayOf(m))
  }

  /** What the five texts say of a date and time of day in UTC, with neither parser nor minute count in between. */
  ghost predicate Says(f: seq<string>, date: Date, hour: int, minute: int)
    requires |f| == 5 && Valid(date)
  {
    var weekday := (DaysBeforeYear(date.year) + DaysBeforeMonth(date.year, date.month) + date.day) % 7;
    var onDate := Denotes(f[2], 1, 31, date.day);
    var onWeekday := f[4] == "*" || DenotesDow(f[4], weekday);
    && Denotes(f[0], 0, 59, minute)
    && Denotes(f[1], 0, 23, hour)
    && Denotes(f[3], 1, 12, date.month)
    && (if f[2] == "*" || f[4] == "*" then onDate && onWeekday else onDate || onWeekday)
  }

  /** The minute count of a date and time of day. */
  function MinuteAt(date: Date, hour: int, minute: int): (m: int)
    requires Valid(date)
  {
    DayNumber(date) * 1440 + hour * 60 + minute
  }

  /** A parsed schedule matches exactly the dates and times its text denotes. */
  lemma MatchesMeans(c: Schedule, f: seq<string>, date: Date, hour: nat, minute: nat)
    requires |f| == 5 && Represents(c, f) && Valid(date) && hour < 24 && minute < 60
    ensures Matches(c, MinuteAt(date, hour, minute)) <==> Says(f, date, hour, minute)
  {
    MatchesAt(c, date, hour, minute);
    AllowsMeans(c.min, f[0], 0, 59, minute);
    AllowsMeans(c.hour, f[1], 0, 23, hour);
    AllowsMeans(c.dom, f[2], 1, 31, date.day);
    AllowsMeans(c.month, f[3], 1, 12, date.month);
    hide Denotes, Parsed, DaysBeforeYear, DaysBeforeMonth, MinuteAt, Matches, Allows;
  }

  /** A schedule on a date and time of day. */
  lemma MatchesAt(c: Schedule, date: Date, hour: nat, minute: nat)
    requires Valid(date) && hour < 24 && minute < 60
    ensures Matches(c, MinuteAt(date, hour, minute)) <==>
      && Allows(c.min, minute) && Allows(c.hour, hour) && Allows(c.month, date.month)
      && (if c.dom.Any? || c.dow.Any? then Allows(c.dom, date.day) && Allows(c.dow, WeekdayOf(date))
          else Allows(c.dom, date.day) || Allows(c.dow, WeekdayOf(date)))
  {
    TimeSplits(DayNumber(date), hour, minute);
    DateOfDayNumber(date);
    WeekdayIs(date);
    assert MinuteAt(date, hour, minute) == DayNumber(date) * 1440 + (hour * 60 + minute);
    hide DateOf, Weekday, WeekdayOf, DayNumber, MinuteOf, HourOf, DayOf, MinuteAt;
  }

  /** A day of week written as a number is that day, and 7 is Sunday like 0. */
  lemma DowReads(w: nat, v: nat)
    requires w <= 7 && v < 7
    ensures DenotesDow(Print(w), v) <==> v == w % 7
  {
    NumberDenotes(w, 0, 7, v);
    NumberDenotes(w, 0, 7, 7);
    hide Denotes;
  }

  /** The schedule `minute hour * * weekday` matches that time of that day of the week, and no other. */
  lemma WeeklyTextMeans(c: Schedule, minute: nat, hour: nat, weekday: nat, date: Date, h: nat, m: nat)
    requires minute < 60 && hour < 24 && weekday <= 7 && Valid(date) && h < 24 && m < 60
    requires Represents(c, [Print(minute), Print(hour), "*", "*", Print(weekday)])
    ensures Matches(c, MinuteAt(date, h, m)) <==>
      m == minute && h == hour && WeekdayOf(date) == weekday % 7
  {
    var f := [Print(minute), Print(hour), "*", "*", Print(weekday)];
    MatchesMeans(c, f, date, h, m);
    NumberDenotes(minute, 0, 59, m);
    NumberDenotes(hour, 0, 23, h);
    DowReads(weekday, WeekdayOf(date));
    NumberReads(weekday);
    hide Denotes, DenotesDow, Represents, Matches, Print, DaysBeforeYear, DaysBeforeMonth;
  }

  lemma AllowsMeans(field: CronField, spec: string, min: nat, max: nat, v: int)
    requires Parsed(field, spec, min, max) && v >= 0
    ensures Allows(field, v) <==> Denotes(spec, min, max, v)
    ensures field.Any? <==> spec == "*"
  {
  }

  // ---- the search ------------------------------------------------------------

  /** The minute `m` falls in the half-open window the search covers. */
  predicate InWindow(after: int, m: int) {
    after < m * MINUTE <= after + 366 * DAY
  }

  /** The least match after `after` and within 366 days of it, if there is one. */
  ghost predicate IsNext(c: Schedule, after: int, r: Option<int>) {
    match r
    case Some(t) =>
      var m := t / MINUTE;
      && t == m * MINUTE && InWindow(after, m) && Matches(c, m)
      && forall k: int :: InWindow(after, k) && k < m ==> !Matches(c, k)
    case None => forall k: int :: InWindow(after, k) ==> !Matches(c, k)
  }

  function FirstMatch(c: Schedule, m: int, hi: int): (r: Option<int>)
    ensures r.Some? ==> m <= r.value <= hi && Matches(c, r.value)
    ensures r.Some? ==> forall k: int :: m <= k < r.value ==> !Matches(c, k)
    ensures r.None? ==> forall k: int :: m <= k <= hi ==> !Matches(c, k)
    decreases hi - m
  {
    if m > hi then None else if Matches(c, m) then Some(m) else FirstMatch(c, m + 1, hi)
  }

  /** The search as a function of its input. */
  function NextOf(c: Schedule, after: int): (r: Option<int>)
    ensures IsNext(c, after, r)
  {
    var m := FirstMatch(c, after / MINUTE + 1, (after + 366 * DAY) / MINUTE);
    FirstIsNext(c, after);
    if m.None? then None else Some(m.value * MINUTE)
  }

  lemma WindowIs(after: int, k: int)
    ensures InWindow(after, k) <==> after / MINUTE + 1 <= k <= (after + 366 * DAY) / MINUTE
  {
  }

  lemma FirstIsNext(c: Schedule, after: int)
    ensures var m := FirstMatch(c, after / MINUTE + 1, (after + 366 * DAY) / MINUTE);
      IsNext(c, after, if m.None? then None else Some(m.value * MINUTE))
  {
    hide Matches, FirstMatch;
    var m := FirstMatch(c, after / MINUTE + 1, (after + 366 * DAY) / MINUTE);
    forall k: int ensures InWindow(after, k) <==> after / MINUTE + 1 <= k <= (after + 366 * DAY) / MINUTE {
      WindowIs(after, k);
    }
    if m.Some? { assert m.value * MINUTE / MINUTE == m.value; }
    hide InWindow;
  }

  /** There is one answer. */
  lemma NextIsUnique(c: Schedule, after: int, r: Option<int>)
    requires IsNext(c, after, r)
    ensures r == NextOf(c, after)
  {
    var n := NextOf(c, after);
    hide NextOf, Matches;
    if r.Some? && n.Some? {
      assert r.value == r.value / MINUTE * MINUTE && n.value == n.value / MINUTE * MINUTE;
    }
  }

  /** `next_occurrence_after`. */
  method NextOccurrence(c: Schedule, after: int) returns (r: Option<int>)
    ensures IsNext(c, after, r) && r == NextOf(c, after)
    ensures InRanges(c) && Perennial(c) ==> r.Some?
    ensures InRanges(c) && Daily(c) ==> r.Some? && r.value <= after + DAY
    ensures InRanges(c) && Weekly(c) ==> r.Some? && r.value <= after + 7 * DAY
  {
    var t := after / MINUTE * MINUTE + MINUTE;
    var bound := after + 366 * DAY;
    ghost var m := after / MINUTE + 1;
    r := None;
    while t <= bound
      invariant t == m * MINUTE && after < t
      invariant forall k: int :: InWindow(after, k) && k < m ==> !Matches(c, k)
      decreases bound - t
    {
      if Matches(c, t / MINUTE) {
        r := Some(t);
        break;
      }
      t := t + MINUTE;
      m := m + 1;
    }
    assert IsNext(c, after, r);
    NextIsUnique(c, after, r);
    SearchSucceeds(c, after, r);
  }

  /** Every field admits something, and only values an instant can have. */
  predicate InRanges(c: Schedule) {
    && Within(c.min, 0, 59) && Within(c.hour, 0, 23) && Within(c.dom, 1, 31)
    && Within(c.month, 1, 12) && Within(c.dow, 0, 6)
  }

  predicate Within(f: CronField, min: nat, max: nat) {
    f.Any? || (f.values != [] && forall v :: v in f.values ==> min <= v <= max)
  }

  /** What the parser returns is in range. */
  lemma ParsedInRanges(c: Schedule, f: seq<string>)
    requires |f| == 5 && Represents(c, f)
    ensures InRanges(c)
  {
    ParsedWithin(c.min, f[0], 0, 59);
    ParsedWithin(c.hour, f[1], 0, 23);
    ParsedWithin(c.dom, f[2], 1, 31);
    ParsedWithin(c.month, f[3], 1, 12);
  }

  lemma ParsedWithin(field: CronField, spec: string, min: nat, max: nat)
    requires Parsed(field, spec, min, max)
    ensures Within(field, min, max)
  {
    if field.Set? {
      forall v | v in field.values ensures min <= v <= max {
        DenotedInRange(spec, min, max, v);
      }
    }
  }

  predicate Daily(c: Schedule) { c.dom.Any? && c.month.Any? && c.dow.Any? }

  predicate Weekly(c: Schedule) { c.dom.Any? && c.month.Any? && c.dow.Set? }

  /**
    Some admitted day comes round every year. The field texts decide it: only a
    day of the month without a day of the week can name nothing but February 29
    or dates that do not exist.
   */
  predicate Perennial(c: Schedule) {
    || c.dow.Set?
    || c.dom.Any?
    || exists m, d :: 1 <= m <= 12 && 1 <= d <= 31 && Allows(c.month, m) && Allows(c.dom, d) && EveryYear(m, d)
  }

  /** A value the field admits. */
  function Pick(f: CronField, min: nat, max: nat): (v: nat)
    requires Within(f, min, max) && min <= max
    ensures min <= v <= max && Allows(f, v)
  {
    if f.Any? then min else assert f.values[0] in f.values; f.values[0]
  }

  predicate DayOk(c: Schedule, n: int) {
    Allows(c.month, DateOf(n).month) && DayMatches(c, n)
  }

  /** An admitted day among the next `k` days gives a match within `k` times 1440 minutes. */
  lemma DayGivesMinute(c: Schedule, a: int, n: int, k: nat) returns (m: int)
    requires InRanges(c) && DayOk(c, n)
    requires Reset(c, a) < n <= Reset(c, a) + k
    ensures a < m <= a + 1440 * k && Matches(c, m)
  {
    hide DayMatches, DateOf, Allows;
    m := n * 1440 + TimeOfDay(c);
    TimeSplits(n, Pick(c.hour, 0, 23), Pick(c.min, 0, 59));
  }

  lemma TimeSplits(n: int, h: nat, min: nat)
    requires h < 24 && min < 60
    ensures var m := n * 1440 + (h * 60 + min); DayOf(m) == n && HourOf(m) == h && MinuteOf(m) == min
  {
    var m := n * 1440 + (h * 60 + min);
    assert m / 60 == n * 24 + h;
  }

  function TimeOfDay(c: Schedule): (t: nat)
    requires InRanges(c)
    ensures t < 1440
  {
    Pick(c.hour, 0, 23) * 60 + Pick(c.min, 0, 59)
  }

  /** The last day on which the chosen time of day is not after minute `a`. */
  function Reset(c: Schedule, a: int): int
    requires InRanges(c)
  {
    (a - TimeOfDay(c)) / 1440
  }

  lemma SearchSucceeds(c: Schedule, after: int, r: Option<int>)
    requires IsNext(c, after, r)
    ensures InRanges(c) && Perennial(c) ==> r.Some?
    ensures InRanges(c) && Daily(c) ==> r.Some? && r.value <= after + DAY
    ensures InRanges(c) && Weekly(c) ==> r.Some? && r.value <= after + 7 * DAY
  {
    if InRanges(c) && Perennial(c) {
      var a := after / MINUTE;
      var d := Reset(c, a);
      var n, k := AdmittedDay(c, d);
      var m := DayGivesMinute(c, a, n, k);
      hide Matches, Reset, Daily, Weekly;
      assert InWindow(after, m);
      assert r.Some? && r.value <= m * MINUTE;
    }
  }

  /** An admitted day within the next 366, or 7, or 1. */
  lemma AdmittedDay(c: Schedule, after: int) returns (n: int, k: nat)
    requires InRanges(c) && Perennial(c)
    ensures after < n <= after + k && k <= 366 && DayOk(c, n)
    ensures Daily(c) ==> k == 1
    ensures Weekly(c) ==> k == 7
  {
    var m := Pick(c.month, 1, 12);
    if Daily(c) {
      n, k := after + 1, 1;
    } else if Weekly(c) {
      n, k := NextWeekday(after, Pick(c.dow, 0, 6)), 7;
    } else if c.dow.Set? {
      k := 366;
      n := WeekdayInMonth(m, Pick(c.dow, 0, 6), after);
    } else if c.dom.Any? {
      k := 366;
      n := Recurs(m, 1, after);
    } else {
      var m', d :| 1 <= m' <= 12 && 1 <= d <= 31 && Allows(c.month, m') && Allows(c.dom, d) && EveryYear(m', d);
      k := 366;
      n := Recurs(m', d, after);
    }
  }

  function NextWeekday(after: int, w: int): (n: int)
    requires 0 <= w < 7
    ensures after < n <= after + 7 && Weekday(n) == w
  {
    after + 1 + (w - Weekday(after + 1)) % 7
  }

  /** Every month holds seven consecutive days inside any 366-day window, so every weekday too. */
  lemma WeekdayInMonth(m: int, w: int, after: int) returns (n: int)
    requires 1 <= m <= 12 && 0 <= w < 7
    ensures after < n <= after + 366 && DateOf(n).month == m && Weekday(n) == w
  {
    var d := Recurs(m, 22, after);
    DayNumberOfDate(d);
    var y := DateOf(d).year;
    n := if d >= after + 22 then NextWeekday(d - 22, w) else NextWeekday(d - 1, w);
    DateOfDayNumber(Date(y, m, 22 + (n - d)));
  }

  // ---- when the search can fail ----------------------------------------------

  /** Midnight on the first of March 2021, a year and more before the next leap day. */
  const BARREN: int := 18687 * DAY

  lemma BarrenYear()
    ensures DayNumber(Date(2021, 3, 1)) == 18687 && DayNumber(Date(2022, 3, 2)) == 18687 + 366
  {
  }

  lemma DatesFrom2021(n: int)
    requires 18687 <= n <= 18687 + 366
    ensures EveryYear(DateOf(n).month, DateOf(n).day)
  {
    var start, end := Date(2021, 3, 1), Date(2022, 3, 2);
    BarrenYear();
    DayNumberOfDate(n);
    hide DayNumber, DateOf;
    YearsAscend(start, DateOf(n));
    YearsAscend(DateOf(n), end);
  }

  /** From then, a schedule that is not perennial has no occurrence within reach. */
  lemma BarrenFrom2021(c: Schedule)
    requires !Perennial(c)
    ensures IsNext(c, BARREN, None)
  {
    forall k: int | InWindow(BARREN, k) ensures !Matches(c, k) {
      DatesFrom2021(DayOf(k));
      var date := DateOf(DayOf(k));
      assert EveryYear(date.month, date.day);
      assert Matches(c, k) ==> Allows(c.month, date.month) && Allows(c.dom, date.day);
    }
  }

  /** The search finds an occurrence from every instant if and only if the schedule is perennial. */
  lemma NeverNoneIffPerennial(c: Schedule)
    requires InRanges(c)
    ensures (forall after, r :: IsNext(c, after, r) ==> r.Some?) <==> Perennial(c)
  {
    if Perennial(c) {
      forall after, r | IsNext(c, after, r) ensures r.Some? {
        SearchSucceeds(c, after, r);
      }
    } else {
      BarrenFrom2021(c);
    }
  }

  // ---- the leap day ----------------------------------------------------------

  /** Without a perennial date, all a schedule can still match is February 29. */
  predicate AdmitsLeapDay(c: Schedule) { Allows(c.month, 2) && Allows(c.dom, 29) }

  /** A schedule with neither never matches. */
  lemma NeverMatches(c: Schedule, m: int)
    requires !Perennial(c) && !AdmitsLeapDay(c)
    ensures !Matches(c, m)
  {
    var date := DateOf(DayOf(m));
    DayNumberOfDate(DayOf(m));
    hide DateOf;
    assert Matches(c, m) ==> Allows(c.month, date.month) && Allows(c.dom, date.day);
    assert !EveryYear(date.month, date.day) ==> date.month == 2 && date.day == 29;
  }

  /** February 29 2020. */
  const LEAP_DAY: int := 18321

  lemma LeapDay2020()
    ensures DateOf(LEAP_DAY) == Date(2020, 2, 29)
  {
    assert DayNumber(Date(2020, 2, 29)) == LEAP_DAY;
    DateOfDayNumber(Date(2020, 2, 29));
  }

  lemma LeapYear()
    ensures DayNumber(Date(2020, 2, 29)) == LEAP_DAY && DayNumber(Date(2020, 3, 1)) == LEAP_DAY + 1
    ensures DayNumber(Date(2021, 3, 1)) == LEAP_DAY + 366
  {
  }

  /** The days up to March 1 2021 all have dates that come round every year. */
  lemma DatesAfterLeapDay(n: int)
    requires LEAP_DAY < n <= LEAP_DAY + 366
    ensures EveryYear(DateOf(n).month, DateOf(n).day)
  {
    var start, end := Date(2020, 3, 1), Date(2021, 3, 1);
    LeapYear();
    DayNumberOfDate(n);
    hide DayNumber, DateOf;
    YearsAscend(start, DateOf(n));
    YearsAscend(DateOf(n), end);
    assert DateOf(n) != Date(2020, 2, 29);
  }

  /** The last of the minutes up to `hi` that the schedule matches. */
  lemma {:induction false} LastMatch(c: Schedule, lo: int, hi: int) returns (m: int)
    requires lo <= hi && Matches(c, lo)
    ensures lo <= m <= hi && Matches(c, m) && forall k :: m < k <= hi ==> !Matches(c, k)
    decreases hi - lo
  {
    hide Matches;
    if Matches(c, hi) {
      m := hi;
    } else {
      m := LastMatch(c, lo, hi - 1);
    }
  }

  /**
    A schedule that only February 29 serves matches a last minute of it in 2020:
    found from the minute before, and followed by none within 366 days.
   */
  lemma LastOfLeapDay(c: Schedule) returns (m: int)
    requires InRanges(c) && !Perennial(c) && AdmitsLeapDay(c)
    ensures m > 0 && NextOf(c, (m - 1) * MINUTE) == Some(m * MINUTE) && NextOf(c, m * MINUTE) == None
  {
    LeapDay2020();
    var lo := LEAP_DAY * 1440 + TimeOfDay(c);
    TimeSplits(LEAP_DAY, Pick(c.hour, 0, 23), Pick(c.min, 0, 59));
    hide DateOf, NextOf;
    assert DayMatches(c, LEAP_DAY);
    assert Matches(c, lo);
    m := LastMatch(c, lo, LEAP_DAY * 1440 + 1439);
    NextMinute(c, m);
    NoneAfter(c, m);
  }

  lemma NextMinute(c: Schedule, m: int)
    requires Matches(c, m)
    ensures NextOf(c, (m - 1) * MINUTE) == Some(m * MINUTE)
  {
    hide Matches, NextOf;
    assert m * MINUTE / MINUTE == m;
    assert IsNext(c, (m - 1) * MINUTE, Some(m * MINUTE));
    NextIsUnique(c, (m - 1) * MINUTE, Some(m * MINUTE));
  }

  lemma NoneAfter(c: Schedule, m: int)
    requires !Perennial(c) && LEAP_DAY * 1440 <= m <= LEAP_DAY * 1440 + 1439
    requires forall k :: m < k <= LEAP_DAY * 1440 + 1439 ==> !Matches(c, k)
    ensures NextOf(c, m * MINUTE) == None
  {
    forall k: int | InWindow(m * MINUTE, k) ensures !Matches(c, k) {
      assert m < k <= m + 366 * 1440;
      if k > LEAP_DAY * 1440 + 1439 {
        assert LEAP_DAY < DayOf(k) <= LEAP_DAY + 366;
        DatesAfterLeapDay(DayOf(k));
        var date := DateOf(DayOf(k));
        assert Matches(c, k) ==> Allows(c.month, date.month) && Allows(c.dom, date.day);
      }
    }
    hide Matches, NextOf;
    NextIsUnique(c, m * MINUTE, None);
  }
}
