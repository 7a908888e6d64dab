/** Recurring schedules in a zone with a fixed UTC offset; instants and durations are milliseconds. */
module Schedule {
  import opened Common

  const MINUTE_MS := 60_000
  const HOUR_MS := 3_600_000
  const DAY_MS := 86_400_000
  const MIN_MINUTE_INTERVAL := 5

  datatype IntervalUnit = MINUTE | HOUR | DAY | WEEK | MONTH

  /** `offset` is local time minus UTC; `plusMonths` is the calendar's month addition. */
  datatype Zone = Zone(offset: int, plusMonths: (int, int) -> int)

  datatype Recurrence = Recurrence(unit: IntervalUnit, value: int, timeOfDay: Option<string>, dayOfWeek: Option<int>, zone: Zone)

  // ---------------------------------------------------------------- wall-clock parts

  predicate Digit(c: char) {
    '0' <= c <= '9'
  }

  function DigitValue(c: char): int {
    c as int - '0' as int
  }

  /** `^([01]\d|2[0-3]):([0-5]\d)$`. */
  predicate TimeFormat(s: string) {
    && |s| == 5 && s[2] == ':'
    && ((('0' <= s[0] <= '1') && Digit(s[1])) || (s[0] == '2' && '0' <= s[1] <= '3'))
    && '0' <= s[3] <= '5' && Digit(s[4])
  }

  /** Milliseconds after local midnight, or nothing when the format is wrong. */
  function ParseTimeOfDay(s: string): (tod: Option<int>)
    ensures tod.Some? <==> TimeFormat(s)
    ensures tod.Some? ==> 0 <= tod.value < DAY_MS && tod.value % MINUTE_MS == 0
  {
    if TimeFormat(s)
    then Some((10 * DigitValue(s[0]) + DigitValue(s[1])) * HOUR_MS + (10 * DigitValue(s[3]) + DigitValue(s[4])) * MINUTE_MS)
    else None
  }

  function LocalDay(t: int, offset: int): int {
    (t + offset) / DAY_MS
  }

  function LocalTime(t: int, offset: int): int {
    (t + offset) % DAY_MS
  }

  /** The instant with local time `tod` on a local day. */
  function InstantOf(day: int, tod: int, offset: int): int {
    day * DAY_MS + tod - offset
  }

  /** 1 is Monday, 7 is Sunday; day 0 of the epoch was a Thursday. */
  function Weekday(day: int): int {
    (day + 3) % 7 + 1
  }

  function TargetWeekday(dayOfWeek: Option<int>): int {
    if dayOfWeek == Some(0) then 7 else if dayOfWeek.Some? then dayOfWeek.value else 1
  }

  predicate IsSlot(t: int, tod: int, weekday: int, offset: int) {
    LocalTime(t, offset) == tod && Weekday(LocalDay(t, offset)) == weekday
  }

  lemma InstantParts(day: int, tod: int, offset: int)
    requires 0 <= tod < DAY_MS
    ensures LocalDay(InstantOf(day, tod, offset), offset) == day && LocalTime(InstantOf(day, tod, offset), offset) == tod
  {
  }

  // ---------------------------------------------------------------- next run

  /** What `validateScheduleInput` leaves of the fields that matter here. */
  predicate ValidRecurrence(r: Recurrence) {
    && r.value >= 1
    && (r.unit == MINUTE ==> r.value >= MIN_MINUTE_INTERVAL)
    && (r.unit != MINUTE && r.unit != HOUR ==> r.timeOfDay.Some? && TimeFormat(r.timeOfDay.value))
    && (r.unit == WEEK ==> r.dayOfWeek.Some? && 0 <= r.dayOfWeek.value <= 6)
  }

  /** A month is never shorter than 28 days. */
  ghost predicate CalendarAdvances(zone: Zone) {
    forall t: int, n: int :: n >= 1 ==> zone.plusMonths(t, n) >= t + 28 * DAY_MS
  }

  function EffectiveTime(r: Recurrence): Option<int> {
    ParseTimeOfDay(if r.timeOfDay.Some? then r.timeOfDay.value else "00:00")
  }

  /** The first instant after `after` with the given local time and weekday. */
  function NextSlot(after: int, tod: int, weekday: int, offset: int): int {
    var day := LocalDay(after, offset);
    var slot := InstantOf(day + (weekday - Weekday(day)) % 7, tod, offset);
    if slot <= after then slot + 7 * DAY_MS else slot
  }

  /** `computeNextRunAt` as a function; nothing when the stored time of day is malformed. */
  function NextRun(r: Recurrence, after: int): Option<int> {
    var tod := EffectiveTime(r);
    match r.unit
    case MINUTE => Some(after + r.value * MINUTE_MS)
    case HOUR => Some(after + r.value * HOUR_MS)
    case DAY =>
      if tod.None? then None
      else
        var candidate := InstantOf(LocalDay(after, r.zone.offset), tod.value, r.zone.offset);
        Some(if candidate <= after then candidate + r.value * DAY_MS else candidate)
    case WEEK =>
      if tod.None? then None
      else
        var slot := NextSlot(after, tod.value, TargetWeekday(r.dayOfWeek), r.zone.offset);
        Some(if r.value > 1 then slot + (r.value - 1) * 7 * DAY_MS else slot)
    case MONTH =>
      if tod.None? then None
      else
        var candidate := InstantOf(LocalDay(after, r.zone.offset), tod.value, r.zone.offset);
        Some(if candidate <= after then r.zone.plusMonths(candidate, r.value) else candidate)
  }

  /** A day the weekly search passes over. */
  predicate Misses(day: int, after: int, tod: int, weekday: int, offset: int) {
    Weekday(day) != weekday || InstantOf(day, tod, offset) <= after
  }

  /** Day by day from the local day of `after`: at most seven steps reach the slot. */
  method AdvanceToSlot(after: int, tod: int, weekday: int, offset: int) returns (candidate: int, steps: nat)
    requires 0 <= tod < DAY_MS && 1 <= weekday <= 7
    ensures candidate == NextSlot(after, tod, weekday, offset) && steps <= 7
  {
    var day := LocalDay(after, offset);
    candidate, steps := InstantOf(day, tod, offset), 0;
    InstantParts(day, tod, offset);
    while Weekday(LocalDay(candidate, offset)) != weekday || candidate <= after
      invariant steps <= 7 && candidate == InstantOf(day + steps, tod, offset)
      invariant forall d :: day <= d < day + steps ==> Misses(d, after, tod, weekday, offset)
      decreases 7 - steps
    {
      InstantParts(day + steps, tod, offset);
      SlotWithinWeek(day, weekday, after, tod, offset, steps);
      candidate, steps := candidate + DAY_MS, steps + 1;
    }
    InstantParts(day + steps, tod, offset);
    FirstSlotIsNext(day, weekday, after, tod, offset, steps);
  }

  /** The weekday comes up within seven days, and again seven days later. */
  lemma DayOfWeekday(day: int, weekday: int) returns (d: int)
    requires 1 <= weekday <= 7
    ensures 0 <= d < 7 && Weekday(day + d) == Weekday(day + d + 7) == weekday
  {
    d := (weekday - Weekday(day)) % 7;
  }

  lemma SlotWithinWeek(day: int, weekday: int, after: int, tod: int, offset: int, steps: nat)
    requires 1 <= weekday <= 7 && 0 <= tod < DAY_MS && day == LocalDay(after, offset)
    requires Misses(day + steps, after, tod, weekday, offset)
    requires forall d :: day <= d < day + steps ==> Misses(d, after, tod, weekday, offset)
    requires steps <= 7
    ensures steps < 7
  {
    var d := DayOfWeekday(day, weekday);
    assert d > 0 ==> !Misses(day + d, after, tod, weekday, offset);
    assert !Misses(day + d + 7, after, tod, weekday, offset);
  }

  lemma FirstSlotIsNext(day: int, weekday: int, after: int, tod: int, offset: int, steps: nat)
    requires 1 <= weekday <= 7 && 0 <= tod < DAY_MS && day == LocalDay(after, offset) && steps <= 7
    requires !Misses(day + steps, after, tod, weekday, offset)
    requires forall d :: day <= d < day + steps ==> Misses(d, after, tod, weekday, offset)
    ensures InstantOf(day + steps, tod, offset) == NextSlot(after, tod, weekday, offset)
  {
    var d := (weekday - Weekday(day)) % 7;
    assert Weekday(day + d) == weekday;
    SameWeekdayApart(day, d, day + steps, weekday);
    assert steps == 7 ==> Misses(day, after, tod, weekday, offset);
  }

  // ---------------------------------------------------------------- the next run in terms of clock and calendar

  function TwoDigits(n: int): string
    requires 0 <= n < 100
  {
    [('0' as int + n / 10) as char, ('0' as int + n % 10) as char]
  }

  predicate TimeOfDay(h: int, m: int) {
    0 <= h < 24 && 0 <= m < 60
  }

  /** The 24-hour clock showing h:m. */
  function Clock(h: int, m: int): (s: string)
    requires TimeOfDay(h, m)
  {
    TwoDigits(h) + ":" + TwoDigits(m)
  }

  /** Every time of day is printed in the accepted format and read back as that many hours and minutes. */
  lemma ClockIsRead(h: int, m: int)
    requires TimeOfDay(h, m)
    ensures ParseTimeOfDay(Clock(h, m)) == Some(h * 3_600_000 + m * 60_000)
  {
    var s := Clock(h, m);
    assert s[0] == ('0' as int + h / 10) as char && s[1] == ('0' as int + h % 10) as char && s[2] == ':';
    assert s[3] == ('0' as int + m / 10) as char && s[4] == ('0' as int + m % 10) as char;
  }

  /** The accepted times are those the clock shows, and nothing else. */
  lemma ReadIffClock(s: string)
    ensures ParseTimeOfDay(s).Some? <==> exists h, m :: TimeOfDay(h, m) && s == Clock(h, m)
  {
    if TimeFormat(s) {
      var h, m := 10 * DigitValue(s[0]) + DigitValue(s[1]), 10 * DigitValue(s[3]) + DigitValue(s[4]);
      assert h / 10 == DigitValue(s[0]) && h % 10 == DigitValue(s[1]) && m / 10 == DigitValue(s[3]) && m % 10 == DigitValue(s[4]);
      assert s == Clock(h, m);
    }
    if exists h, m :: TimeOfDay(h, m) && s == Clock(h, m) {
      var h, m :| TimeOfDay(h, m) && s == Clock(h, m);
      ClockIsRead(h, m);
    }
  }

  function StoredTime(r: Recurrence): string {
    if r.timeOfDay.Some? then r.timeOfDay.value else "00:00"
  }

  /** h:m on the local day that `t` falls on. */
  function SameDayAt(t: int, offset: int, h: int, m: int): int {
    t - (t + offset) % 86_400_000 + h * 3_600_000 + m * 60_000
  }

  /** The local date of `t` is a Sunday for 0, up to Saturday for 6; 1 January 1970, day 0, was a Thursday. */
  predicate FallsOn(t: int, offset: int, dayOfWeek: int) {
    ((t + offset) / 86_400_000 + 4) % 7 == dayOfWeek
  }

  /** Between midnight and midnight, h:m. */
  predicate Shows(t: int, offset: int, h: int, m: int) {
    (t + offset) % 86_400_000 == h * 3_600_000 + m * 60_000
  }

  /** The first instant after `after` that shows h:m on the given weekday. */
  ghost predicate FirstOn(t: int, after: int, offset: int, dayOfWeek: int, h: int, m: int) {
    && t > after && FallsOn(t, offset, dayOfWeek) && Shows(t, offset, h, m)
    && forall u: int :: u > after && FallsOn(u, offset, dayOfWeek) && Shows(u, offset, h, m) ==> t <= u
  }

  /** What the next run is, for a stored time of h:m. */
  ghost predicate NextAt(r: Recurrence, after: int, h: int, m: int, next: int) {
    var today, offset := SameDayAt(after, r.zone.offset, h, m), r.zone.offset;
    && (r.unit == DAY ==> next == if today > after then today else today + r.value * 86_400_000)
    && (r.unit == MONTH ==> next == if today > after then today else r.zone.plusMonths(today, r.value))
    && (r.unit == WEEK ==>
          FirstOn(next - (if r.value > 1 then r.value - 1 else 0) * 604_800_000, after, offset,
                  if r.dayOfWeek.Some? then r.dayOfWeek.value % 7 else 1, h, m))
  }

  /** Minutes and hours count on from `after`; days, weeks and months go by the stored wall-clock time, and fail on a malformed one. */
  ghost predicate NextIs(r: Recurrence, after: int, next: Option<int>) {
    && (r.unit == MINUTE ==> next == Some(after + r.value * 60_000))
    && (r.unit == HOUR ==> next == Some(after + r.value * 3_600_000))
    && (r.unit != MINUTE && r.unit != HOUR ==>
          && (next.Some? <==> exists h, m :: TimeOfDay(h, m) && StoredTime(r) == Clock(h, m))
          && (forall h, m :: TimeOfDay(h, m) && StoredTime(r) == Clock(h, m) ==> next.Some? && NextAt(r, after, h, m, next.value)))
  }

  /** The value `ComputeNextRunAt` returns, in terms of the digits stored and the calendar alone. */
  lemma NextRunMeans(r: Recurrence, after: int)
    requires r.unit == WEEK && r.dayOfWeek.Some? ==> 0 <= r.dayOfWeek.value <= 7
    ensures NextIs(r, after, NextRun(r, after))
  {
    if r.unit != MINUTE && r.unit != HOUR {
      ReadIffClock(StoredTime(r));
      forall h, m | TimeOfDay(h, m) && StoredTime(r) == Clock(h, m) ensures NextRun(r, after).Some? && NextAt(r, after, h, m, NextRun(r, after).value) {
        ClockIsRead(h, m);
        NextRunAt(r, after, h, m);
      }
    }
  }

  lemma NextRunAt(r: Recurrence, after: int, h: int, m: int)
    requires r.unit != MINUTE && r.unit != HOUR && TimeOfDay(h, m) && EffectiveTime(r) == Some(h * 3_600_000 + m * 60_000)
    requires r.unit == WEEK && r.dayOfWeek.Some? ==> 0 <= r.dayOfWeek.value <= 7
    ensures NextRun(r, after).Some? && NextAt(r, after, h, m, NextRun(r, after).value)
  {
    var tod, offset := h * 3_600_000 + m * 60_000, r.zone.offset;
    assert InstantOf(LocalDay(after, offset), tod, offset) == SameDayAt(after, offset, h, m);
    if r.unit == WEEK { WeekSlotMeans(after, offset, r.dayOfWeek, h, m); }
  }

  lemma WeekSlotMeans(after: int, offset: int, dayOfWeek: Option<int>, h: int, m: int)
    requires TimeOfDay(h, m) && (dayOfWeek.Some? ==> 0 <= dayOfWeek.value <= 7)
    ensures FirstOn(NextSlot(after, h * 3_600_000 + m * 60_000, TargetWeekday(dayOfWeek), offset), after, offset,
                    if dayOfWeek.Some? then dayOfWeek.value % 7 else 1, h, m)
  {
    var tod, weekday, wanted := h * 3_600_000 + m * 60_000, TargetWeekday(dayOfWeek), if dayOfWeek.Some? then dayOfWeek.value % 7 else 1;
    NextSlotIsEarliest(after, tod, weekday, offset);
    forall u: int ensures IsSlot(u, tod, weekday, offset) <==> FallsOn(u, offset, wanted) && Shows(u, offset, h, m) {
      WeekdayMeans(LocalDay(u, offset), if dayOfWeek.Some? then dayOfWeek.value else 1);
    }
  }

  /** The weekday numbers of the search, Monday 1 to Sunday 7, are those of the schedule, Sunday 0 to Saturday 6. */
  lemma WeekdayMeans(day: int, dayOfWeek: int)
    requires 0 <= dayOfWeek <= 7
    ensures Weekday(day) == TargetWeekday(Some(dayOfWeek)) <==> (day + 4) % 7 == dayOfWeek % 7
  {
  }

  method ComputeNextRunAt(r: Recurrence, after: int) returns (next: Option<int>)
    requires r.unit == WEEK ==> 1 <= TargetWeekday(r.dayOfWeek) <= 7
    ensures next == NextRun(r, after)
  {
    match r.unit {
      case MINUTE => next := Some(after + r.value * MINUTE_MS);
      case HOUR => next := Some(after + r.value * HOUR_MS);
      case DAY =>
        var tod := EffectiveTime(r);
        if tod.None? { return None; }
        var candidate := InstantOf(LocalDay(after, r.zone.offset), tod.value, r.zone.offset);
        if candidate <= after { candidate := candidate + r.value * DAY_MS; }
        next := Some(candidate);
      case WEEK =>
        var tod := EffectiveTime(r);
        if tod.None? { return None; }
        var candidate, _ := AdvanceToSlot(after, tod.value, TargetWeekday(r.dayOfWeek), r.zone.offset);
        if r.value > 1 { candidate := candidate + (r.value - 1) * 7 * DAY_MS; }
        next := Some(candidate);
      case MONTH =>
        var tod := EffectiveTime(r);
        if tod.None? { return None; }
        var candidate := InstantOf(LocalDay(after, r.zone.offset), tod.value, r.zone.offset);
        if candidate <= after { candidate := r.zone.plusMonths(candidate, r.value); }
        next := Some(candidate);
    }
  }

  // ---------------------------------------------------------------- what the next run promises

  /** The weekly slot is the earliest later instant with the wanted weekday and time, at most a week away. */
  lemma NextSlotIsEarliest(after: int, tod: int, weekday: int, offset: int)
    requires 0 <= tod < DAY_MS && 1 <= weekday <= 7
    ensures var slot := NextSlot(after, tod, weekday, offset);
            && IsSlot(slot, tod, weekday, offset) && after < slot <= after + 7 * DAY_MS
            && forall u :: IsSlot(u, tod, weekday, offset) && u > after ==> slot <= u
  {
    var slot := NextSlot(after, tod, weekday, offset);
    var day := LocalDay(after, offset);
    var d := (weekday - Weekday(day)) % 7;
    InstantParts(day + d, tod, offset);
    InstantParts(day + d + 7, tod, offset);
    assert Weekday(day + d) == weekday == Weekday(day + d + 7);
    forall u | IsSlot(u, tod, weekday, offset) && u > after ensures slot <= u {
      var uDay := LocalDay(u, offset);
      assert u == InstantOf(uDay, tod, offset) && uDay >= day;
      SameWeekdayApart(day, d, uDay, weekday);
    }
  }

  lemma SameWeekdayApart(day: int, d: int, other: int, weekday: int)
    requires other >= day && d == (weekday - Weekday(day)) % 7 && Weekday(other) == weekday
    ensures other == day + d || other >= day + d + 7
  {
    assert (other - day - d) % 7 == 0;
  }

  /** Every valid schedule moves strictly forward. */
  lemma NextRunAdvances(r: Recurrence, after: int)
    requires ValidRecurrence(r) && CalendarAdvances(r.zone)
    ensures NextRun(r, after).Some? && NextRun(r, after).value > after
  {
    match r.unit {
      case MINUTE => ProductPositive(r.value, MINUTE_MS);
      case HOUR => ProductPositive(r.value, HOUR_MS);
      case DAY => ProductPositive(r.value, DAY_MS);
      case WEEK =>
        NextSlotIsEarliest(after, EffectiveTime(r).value, TargetWeekday(r.dayOfWeek), r.zone.offset);
        if r.value > 1 { ProductPositive(r.value - 1, 7 * DAY_MS); }
      case MONTH =>
    }
  }

  lemma ProductPositive(n: int, unit: int)
    requires n >= 1 && unit >= 1
    ensures n * unit >= unit
  {
  }

  lemma SuccessiveDays(r: Recurrence, after: int)
    requires ValidRecurrence(r) && r.unit == DAY
    ensures var run := NextRun(r, after).value; NextRun(r, run) == Some(run + r.value * DAY_MS)
  {
    var tod, offset := EffectiveTime(r).value, r.zone.offset;
    var day := LocalDay(after, offset);
    InstantParts(day, tod, offset);
    InstantParts(day + r.value, tod, offset);
    assert InstantOf(day + r.value, tod, offset) == InstantOf(day, tod, offset) + r.value * DAY_MS;
  }

  lemma SuccessiveWeeks(r: Recurrence, after: int)
    requires ValidRecurrence(r) && r.unit == WEEK
    ensures var run := NextRun(r, after).value; NextRun(r, run) == Some(run + r.value * (7 * DAY_MS))
  {
    var tod, offset := EffectiveTime(r).value, r.zone.offset;
    NextSlotIsEarliest(after, tod, TargetWeekday(r.dayOfWeek), offset);
    var slot := NextSlot(after, tod, TargetWeekday(r.dayOfWeek), offset);
    WeeksLater(slot, r.value - 1, tod, TargetWeekday(r.dayOfWeek), offset);
    var run := NextRun(r, after).value;
    assert run == slot + (r.value - 1) * 7 * DAY_MS;
    assert NextSlot(run, tod, TargetWeekday(r.dayOfWeek), offset) == run + 7 * DAY_MS;
  }

  /** From one run to the next: exactly the interval for days, exactly that many weeks for weeks. */
  lemma SuccessiveRuns(r: Recurrence, after: int)
    requires ValidRecurrence(r) && (r.unit == DAY || r.unit == WEEK)
    ensures var run := NextRun(r, after).value;
            NextRun(r, run) == Some(run + r.value * (if r.unit == DAY then DAY_MS else 7 * DAY_MS))
  {
    if r.unit == DAY { SuccessiveDays(r, after); } else { SuccessiveWeeks(r, after); }
  }

  lemma WeeksLater(slot: int, weeks: nat, tod: int, weekday: int, offset: int)
    requires 0 <= tod < DAY_MS && IsSlot(slot, tod, weekday, offset)
    ensures var later := slot + weeks * 7 * DAY_MS; NextSlot(later, tod, weekday, offset) == later + 7 * DAY_MS
  {
    var day := LocalDay(slot, offset);
    assert slot == InstantOf(day, tod, offset);
    assert slot + weeks * 7 * DAY_MS == InstantOf(day + 7 * weeks, tod, offset);
    assert Weekday(day + 7 * weeks) == weekday;
    NextSlotAfterSlot(day + 7 * weeks, tod, weekday, offset);
  }

  lemma NextSlotAfterSlot(day: int, tod: int, weekday: int, offset: int)
    requires 0 <= tod < DAY_MS && Weekday(day) == weekday
    ensures NextSlot(InstantOf(day, tod, offset), tod, weekday, offset) == InstantOf(day, tod, offset) + 7 * DAY_MS
  {
    InstantParts(day, tod, offset);
  }

  // ---------------------------------------------------------------- coalescing missed runs

  /** The `n`-th run after `occurrence`. */
  function Iterate(r: Recurrence, occurrence: int, n: nat): Option<int> {
    if n == 0 then Some(occurrence)
    else
      var before := Iterate(r, occurrence, n - 1);
      if before.None? then None else NextRun(r, before.value)
  }

  const MAX_COALESCE_ITERATIONS := 100_000

  /** `next` is the first run after `now`, with `skipped` earlier ones passed over, unless `cap` cut the search short. */
  ghost predicate Coalesced(r: Recurrence, occurrence: int, now: int, cap: nat, next: int, skipped: nat) {
    && skipped <= cap
    && Iterate(r, occurrence, skipped + 1) == Some(next)
    && (forall k: nat :: 1 <= k <= skipped ==> Iterate(r, occurrence, k).Some? && Iterate(r, occurrence, k).value <= now)
    && (next <= now ==> skipped == cap)
  }

  lemma {:induction false} IterateDefined(r: Recurrence, occurrence: int, n: nat)
    requires ValidRecurrence(r) && CalendarAdvances(r.zone)
    ensures Iterate(r, occurrence, n).Some?
    ensures n > 0 ==> Iterate(r, occurrence, n).value > Iterate(r, occurrence, n - 1).value
    ensures Iterate(r, occurrence, n).value >= occurrence
  {
    if n > 0 {
      IterateDefined(r, occurrence, n - 1);
      NextRunAdvances(r, Iterate(r, occurrence, n - 1).value);
    }
  }

  /** The loop itself as a function of the first computed run: where it stops and how many runs it skipped. */
  function CoalesceFrom(r: Recurrence, next: int, now: int, budget: nat): (int, nat)
    decreases budget
  {
    if next <= now && budget > 0 && NextRun(r, next).Some? then
      var later := CoalesceFrom(r, NextRun(r, next).value, now, budget - 1);
      (later.0, later.1 + 1)
    else (next, 0)
  }

  function CoalesceOutcome(r: Recurrence, occurrence: int, now: int, cap: nat): (int, nat) {
    CoalesceFrom(r, if NextRun(r, occurrence).Some? then NextRun(r, occurrence).value else occurrence, now, cap)
  }

  lemma {:induction false} CoalesceFromIs(r: Recurrence, occurrence: int, k: nat, next: int, now: int, budget: nat)
    requires ValidRecurrence(r) && CalendarAdvances(r.zone) && Iterate(r, occurrence, k + 1) == Some(next)
    requires forall j: nat :: 1 <= j <= k ==> Iterate(r, occurrence, j).Some? && Iterate(r, occurrence, j).value <= now
    ensures var o := CoalesceFrom(r, next, now, budget); Coalesced(r, occurrence, now, k + budget, o.0, k + o.1)
    decreases budget
  {
    if next <= now && budget > 0 {
      IterateDefined(r, occurrence, k + 2);
      CoalesceFromIs(r, occurrence, k + 1, NextRun(r, next).value, now, budget - 1);
    }
  }

  /** The runs up to `now` are skipped one after the other, unless the cap is met first. */
  lemma OutcomeCoalesces(r: Recurrence, occurrence: int, now: int, cap: nat)
    requires ValidRecurrence(r) && CalendarAdvances(r.zone)
    ensures var o := CoalesceOutcome(r, occurrence, now, cap); Coalesced(r, occurrence, now, cap, o.0, o.1)
  {
    IterateDefined(r, occurrence, 1);
    assert Iterate(r, occurrence, 0) == Some(occurrence);
    CoalesceFromIs(r, occurrence, 0, NextRun(r, occurrence).value, now, cap);
  }

  method Coalesce(r: Recurrence, occurrence: int, now: int, cap: nat) returns (next: int, skipped: nat)
    requires ValidRecurrence(r) && CalendarAdvances(r.zone)
    ensures Coalesced(r, occurrence, now, cap, next, skipped) && next > occurrence
    ensures (next, skipped) == CoalesceOutcome(r, occurrence, now, cap)
  {
    NextRunAdvances(r, occurrence);
    var first := ComputeNextRunAt(r, occurrence);
    next, skipped := first.value, 0;
    assert Iterate(r, occurrence, 0) == Some(occurrence);
    while next <= now && skipped < cap
      invariant skipped <= cap && next > occurrence
      invariant CoalesceOutcome(r, occurrence, now, cap) ==
                (CoalesceFrom(r, next, now, cap - skipped).0, CoalesceFrom(r, next, now, cap - skipped).1 + skipped)
      invariant Iterate(r, occurrence, skipped + 1) == Some(next)
      invariant forall k: nat :: 1 <= k <= skipped ==> Iterate(r, occurrence, k).Some? && Iterate(r, occurrence, k).value <= now
      decreases cap - skipped
    {
      NextRunAdvances(r, next);
      var later := ComputeNextRunAt(r, next);
      next, skipped := later.value, skipped + 1;
    }
  }

  lemma {:induction false} IteratesGrow(r: Recurrence, occurrence: int, a: nat, b: nat)
    requires ValidRecurrence(r) && CalendarAdvances(r.zone) && a < b
    ensures Iterate(r, occurrence, a).Some? && Iterate(r, occurrence, b).Some?
    ensures Iterate(r, occurrence, a).value < Iterate(r, occurrence, b).value
    decreases b
  {
    IterateDefined(r, occurrence, a);
    IterateDefined(r, occurrence, b);
    if a < b - 1 { IteratesGrow(r, occurrence, a, b - 1); }
  }

  /** The outcome of coalescing is unique, so two schedulers reading the same row agree on it. */
  lemma CoalescedUnique(r: Recurrence, occurrence: int, now: int, cap: nat, next: int, skipped: nat, next': int, skipped': nat)
    requires ValidRecurrence(r) && CalendarAdvances(r.zone)
    requires Coalesced(r, occurrence, now, cap, next, skipped) && Coalesced(r, occurrence, now, cap, next', skipped')
    ensures next == next' && skipped == skipped'
  {
  }

  function PeriodMs(r: Recurrence): int {
    r.value * (if r.unit == MINUTE then MINUTE_MS else HOUR_MS)
  }

  lemma {:induction false} IterateByPeriod(r: Recurrence, occurrence: int, n: nat)
    requires r.unit == MINUTE || r.unit == HOUR
    ensures Iterate(r, occurrence, n) == Some(occurrence + n * PeriodMs(r))
  {
    if n > 0 {
      IterateByPeriod(r, occurrence, n - 1);
      assert (n - 1) * PeriodMs(r) + PeriodMs(r) == n * PeriodMs(r);
    }
  }

  /** Minute and hour schedules land on the closed form, or stay due when the cap is reached. */
  lemma CoalescedClosedForm(r: Recurrence, occurrence: int, now: int, cap: nat, next: int, skipped: nat)
    requires ValidRecurrence(r) && (r.unit == MINUTE || r.unit == HOUR) && occurrence <= now
    requires Coalesced(r, occurrence, now, cap, next, skipped)
    ensures var missed := (now - occurrence) / PeriodMs(r);
            if missed <= cap then skipped == missed && next == occurrence + (missed + 1) * PeriodMs(r) && next > now
            else skipped == cap && next <= now
  {
    var d := PeriodMs(r);
    ProductPositive(r.value, if r.unit == MINUTE then MINUTE_MS else HOUR_MS);
    var missed := (now - occurrence) / d;
    IterateByPeriod(r, occurrence, skipped + 1);
    IterateByPeriod(r, occurrence, skipped);
    DivisionBounds(now - occurrence, d);
    if skipped > 0 {
      assert Iterate(r, occurrence, skipped).value <= now;
    }
    MultipleWithin(skipped, d, now - occurrence);
    MultipleWithin(skipped + 1, d, now - occurrence);
  }

  lemma DivisionBounds(x: int, d: int)
    requires x >= 0 && d >= 1
    ensures x / d >= 0 && (x / d) * d <= x < (x / d + 1) * d
  {
  }

  lemma MultipleWithin(n: nat, d: int, x: int)
    requires x >= 0 && d >= 1
    ensures n * d <= x <==> n <= x / d
  {
    DivisionBounds(x, d);
    if n <= x / d {
      MulMonotone(n, x / d, d);
    } else {
      MulMonotone(x / d + 1, n, d);
    }
  }

  lemma MulMonotone(a: int, b: int, d: int)
    requires a <= b && d >= 0
    ensures a * d <= b * d
  {
  }
}
