/** The weekly auction window: local wall-clock times turned into instants of a time zone. */
module CreationWindow {
  import opened Collections

  const MINUTE_MS: int := 60 * 1000
  const DAY_MS: int := 24 * 60 * 60 * 1000
  const MAX_TIMESTAMP: int := 8640000000000000

  /** No zone is this far from universal time. */
  const MAX_OFFSET: int := DAY_MS

  /** A time zone, as the milliseconds its wall clock is ahead of universal time at each instant. */
  type Zone = int -> int

  datatype Failure = InputInvalid | TimestampInvalid | TimezoneInvalid

  /** At this instant the wall clock of the zone reads this local time. */
  predicate Reads(z: Zone, t: int, local: int) {
    t + z(t) == local
  }

  // ---------- the fixed-point iteration ----------

  /** The candidate after some corrections, starting from the local time read as universal time. */
  function Candidate(z: Zone, local: int, n: nat): int {
    if n == 0 then local
    else Candidate(z, local, n - 1) + (local - (Candidate(z, local, n - 1) + z(Candidate(z, local, n - 1))))
  }

  /** The first of the candidates, up to one of them, that reads as asked. */
  function FirstReading(z: Zone, local: int, n: nat): Option<int> {
    if n > 0 && FirstReading(z, local, n - 1).Some? then FirstReading(z, local, n - 1)
    else if Reads(z, Candidate(z, local, n), local) then Some(Candidate(z, local, n))
    else None
  }

  /** The latest of the corrected candidates. */
  function Latest(z: Zone, local: int, n: nat): int
    requires n > 0
  {
    if n == 1 then Candidate(z, local, 1) else Max(Latest(z, local, n - 1), Candidate(z, local, n))
  }

  function ZonedInstant(z: Zone, local: int, shiftMissingTime: bool): Result<int, Failure> {
    match FirstReading(z, local, 4)
    case Some(t) => Ok(t)
    case None => if shiftMissingTime then Ok(Latest(z, local, 4)) else Err(TimezoneInvalid)
  }

  function Largest(s: seq<int>): int
    requires s != []
  {
    if |s| == 1 then s[0] else Max(Largest(s[..|s| - 1]), s[|s| - 1])
  }

  lemma {:induction false} LargestIsLatest(z: Zone, local: int, candidates: seq<int>)
    requires candidates != [] && forall i :: 0 <= i < |candidates| ==> candidates[i] == Candidate(z, local, i + 1)
    ensures Largest(candidates) == Latest(z, local, |candidates|)
  {
    if |candidates| > 1 {
      LargestIsLatest(z, local, candidates[..|candidates| - 1]);
    }
  }

  lemma {:induction false} EarlierReadingStays(z: Zone, local: int, i: nat, n: nat)
    requires i <= n && FirstReading(z, local, i).Some?
    ensures FirstReading(z, local, n) == FirstReading(z, local, i)
  {
    if i < n { EarlierReadingStays(z, local, i, n - 1); }
  }

  /** Corrects a candidate up to four times; what is left over is shifted or refused. */
  method FindZonedInstant(z: Zone, local: int, shiftMissingTime: bool) returns (r: Result<int, Failure>)
    ensures r == ZonedInstant(z, local, shiftMissingTime)
  {
    var candidate := local;
    var candidates := [];
    for index := 0 to 4
      invariant candidate == Candidate(z, local, index) && |candidates| == index
      invariant forall i :: 0 <= i < index ==> candidates[i] == Candidate(z, local, i + 1)
      invariant index > 0 ==> FirstReading(z, local, index - 1).None?
    {
      var actual := candidate + z(candidate);
      var delta := local - actual;
      if delta == 0 {
        EarlierReadingStays(z, local, index, 4);
        return Ok(candidate);
      }
      candidate := candidate + delta;
      candidates := candidates + [candidate];
    }
    if candidate + z(candidate) != local {
      LargestIsLatest(z, local, candidates);
      return if shiftMissingTime then Ok(Largest(candidates)) else Err(TimezoneInvalid);
    }
    return Ok(candidate);
  }

  // ---------- zones with at most one change ----------

  /** Between two instants the zone's offset changes at most once. */
  datatype Change = Change(at: int, before: int, after: int)

  ghost predicate OneChange(z: Zone, from: int, to: int, c: Change) {
    && -MAX_OFFSET <= c.before <= MAX_OFFSET && -MAX_OFFSET <= c.after <= MAX_OFFSET
    && forall t :: from <= t <= to ==> z(t) == if t < c.at then c.before else c.after
  }

  /** The clock jumps over this local time. */
  predicate Skipped(local: int, c: Change) {
    c.at <= local - c.before && local - c.after < c.at
  }

  lemma CandidatesUnderOneChange(z: Zone, local: int, c: Change)
    requires OneChange(z, local - MAX_OFFSET, local + MAX_OFFSET, c)
    ensures
      var o := if local < c.at then c.before else c.after;
      var c1 := local - o;
      var o1 := if c1 < c.at then c.before else c.after;
      var c2 := local - o1;
      var o2 := if c2 < c.at then c.before else c.after;
      var c3 := local - o2;
      var o3 := if c3 < c.at then c.before else c.after;
      && Candidate(z, local, 0) == local && Candidate(z, local, 1) == c1 && Candidate(z, local, 2) == c2
      && Candidate(z, local, 3) == c3 && Candidate(z, local, 4) == local - o3
  {
  }

  lemma ReadingsUnderOneChange(z: Zone, local: int, c: Change, t: int)
    requires OneChange(z, local - MAX_OFFSET, local + MAX_OFFSET, c) && local - MAX_OFFSET <= t <= local + MAX_OFFSET
    ensures Reads(z, t, local) <==>
              (t == local - c.before && t < c.at) || (t == local - c.after && t >= c.at)
  {
  }

  lemma SkippedExactly(z: Zone, local: int, c: Change)
    requires OneChange(z, local - MAX_OFFSET, local + MAX_OFFSET, c)
    ensures Skipped(local, c) <==> !exists t :: local - MAX_OFFSET <= t <= local + MAX_OFFSET && Reads(z, t, local)
  {
    ReadingsUnderOneChange(z, local, c, local - c.before);
    ReadingsUnderOneChange(z, local, c, local - c.after);
    if t :| local - MAX_OFFSET <= t <= local + MAX_OFFSET && Reads(z, t, local) {
      ReadingsUnderOneChange(z, local, c, t);
    }
  }

  lemma CandidateInRange(z: Zone, local: int, c: Change, n: nat)
    requires OneChange(z, local - MAX_OFFSET, local + MAX_OFFSET, c) && n <= 4
    ensures local - MAX_OFFSET <= Candidate(z, local, n) <= local + MAX_OFFSET
  {
  }

  lemma FirstOfFive(z: Zone, local: int)
    ensures FirstReading(z, local, 4) ==
            if Reads(z, Candidate(z, local, 0), local) then Some(Candidate(z, local, 0))
            else if Reads(z, Candidate(z, local, 1), local) then Some(Candidate(z, local, 1))
            else if Reads(z, Candidate(z, local, 2), local) then Some(Candidate(z, local, 2))
            else if Reads(z, Candidate(z, local, 3), local) then Some(Candidate(z, local, 3))
            else if Reads(z, Candidate(z, local, 4), local) then Some(Candidate(z, local, 4))
            else None
  {
    hide Candidate, Reads;
    assert FirstReading(z, local, 1) == FirstReading(z, local, 1);
    assert FirstReading(z, local, 2) == FirstReading(z, local, 2);
    assert FirstReading(z, local, 3) == FirstReading(z, local, 3);
  }

  lemma LatestOfFour(z: Zone, local: int)
    ensures Latest(z, local, 4) == Max(Max(Max(Candidate(z, local, 1), Candidate(z, local, 2)), Candidate(z, local, 3)),
                                       Candidate(z, local, 4))
  {
    hide Candidate;
    assert Latest(z, local, 2) == Max(Latest(z, local, 1), Candidate(z, local, 2));
    assert Latest(z, local, 3) == Max(Latest(z, local, 2), Candidate(z, local, 3));
  }

  /**
   * With at most one change around it, a local time is found whenever some instant reads it; a
   * skipped time is refused, or, when shifted, read with the offset from before the change.
   */
  lemma ZonedInstantIsExact(z: Zone, local: int, shift: bool, c: Change)
    requires OneChange(z, local - MAX_OFFSET, local + MAX_OFFSET, c)
    ensures Skipped(local, c) <==> !exists t :: local - MAX_OFFSET <= t <= local + MAX_OFFSET && Reads(z, t, local)
    ensures !Skipped(local, c) ==>
              ZonedInstant(z, local, shift).Ok? && Reads(z, ZonedInstant(z, local, shift).value, local)
    ensures Skipped(local, c) ==>
              ZonedInstant(z, local, shift) == if shift then Ok(local - c.before) else Err(TimezoneInvalid)
    ensures Skipped(local, c) ==> c.before < c.after
  {
    CandidatesUnderOneChange(z, local, c);
    SkippedExactly(z, local, c);
    forall n: nat | n <= 4
      ensures Reads(z, Candidate(z, local, n), local) <==>
                (Candidate(z, local, n) == local - c.before < c.at)
                || (Candidate(z, local, n) == local - c.after >= c.at)
    {
      CandidateInRange(z, local, c, n);
      ReadingsUnderOneChange(z, local, c, Candidate(z, local, n));
    }
    FirstOfFive(z, local);
    LatestOfFour(z, local);
  }

  /** The instant in closed form. Of two readings, the one nearer the local time read as universal time is taken. */
  lemma InstantUnderOneChange(z: Zone, local: int, shift: bool, c: Change)
    requires OneChange(z, local - MAX_OFFSET, local + MAX_OFFSET, c)
    ensures ZonedInstant(z, local, shift) ==
            if Skipped(local, c) then (if shift then Ok(local - c.before) else Err(TimezoneInvalid))
            else if local - c.before >= c.at then Ok(local - c.after)
            else if local - c.after < c.at then Ok(local - c.before)
            else if local < c.at then Ok(local - c.before)
            else Ok(local - c.after)
  {
    ZonedInstantIsExact(z, local, shift, c);
    CandidatesUnderOneChange(z, local, c);
    FirstOfFive(z, local);
    forall n: nat | n <= 4
      ensures Reads(z, Candidate(z, local, n), local) <==>
                (Candidate(z, local, n) == local - c.before < c.at)
                || (Candidate(z, local, n) == local - c.after >= c.at)
    {
      CandidateInRange(z, local, c, n);
      ReadingsUnderOneChange(z, local, c, Candidate(z, local, n));
    }
  }

  /**
   * A later local time gives a later instant, provided the earlier of the two is not itself
   * skipped: a shifted time can overtake the times right after the jump.
   */
  lemma LaterTimesAreLaterInstants(z: Zone, first: int, second: int, shift1: bool, shift2: bool, c: Change)
    requires first <= second && OneChange(z, first - MAX_OFFSET, second + MAX_OFFSET, c) && !Skipped(first, c)
    requires ZonedInstant(z, second, shift2).Ok?
    ensures ZonedInstant(z, first, shift1).Ok?
    ensures ZonedInstant(z, first, shift1).value <= ZonedInstant(z, second, shift2).value
    ensures first < second ==> ZonedInstant(z, first, shift1).value < ZonedInstant(z, second, shift2).value
  {
    InstantUnderOneChange(z, first, shift1, c);
    InstantUnderOneChange(z, second, shift2, c);
  }

  // ---------- the window ----------

  /** Calendar dates are day numbers from 1 January 1970, which was a Thursday. */
  function DayOf(local: int): int {
    local / DAY_MS
  }

  /** Monday is 0. */
  function WeekdayOf(day: int): int {
    (day + 3) % 7
  }

  function LocalTime(day: int, minuteOfDay: int): int {
    day * DAY_MS + minuteOfDay * MINUTE_MS
  }

  datatype Schedule = Schedule(closeWeekday: int, closeMinuteOfDay: int, creationCutoffMinutes: int)

  datatype Window = Window(opens: int, cutoff: int, closes: int, nextOpens: int, canStart: bool)

  const FOUR_IN_THE_AFTERNOON: int := 16 * 60

  predicate ScheduleValid(s: Schedule) {
    && 0 <= s.closeWeekday <= 6 && 0 <= s.closeMinuteOfDay <= 1439
    && 0 <= s.creationCutoffMinutes < s.closeWeekday * 1440 + s.closeMinuteOfDay
  }

  function MondayOf(z: Zone, now: int): int {
    DayOf(now + z(now)) - WeekdayOf(DayOf(now + z(now)))
  }

  function ScheduledWindow(z: Zone, now: int, s: Schedule): Result<Window, Failure> {
    var monday := MondayOf(z, now);
    var opens := ZonedInstant(z, LocalTime(monday, 0), false);
    var closes := ZonedInstant(z, LocalTime(monday + s.closeWeekday, s.closeMinuteOfDay), true);
    var nextOpens := ZonedInstant(z, LocalTime(monday + 7, 0), false);
    if !ScheduleValid(s) then Err(InputInvalid)
    else if opens.Err? || closes.Err? || nextOpens.Err? then Err(TimezoneInvalid)
    else
      var cutoff := Max(opens.value, closes.value - s.creationCutoffMinutes * MINUTE_MS);
      Ok(Window(opens.value, cutoff, closes.value, nextOpens.value, opens.value <= now < cutoff))
  }

  /** Mondays at midnight, creation until Friday at midnight, bids until Sunday at four in the afternoon. */
  function WeeklyWindow(z: Zone, now: int): Result<Window, Failure> {
    var monday := MondayOf(z, now);
    var opens := ZonedInstant(z, LocalTime(monday, 0), false);
    var cutoff := ZonedInstant(z, LocalTime(monday + 4, 0), false);
    var closes := ZonedInstant(z, LocalTime(monday + 6, FOUR_IN_THE_AFTERNOON), false);
    var nextOpens := ZonedInstant(z, LocalTime(monday + 7, 0), false);
    if opens.Err? || cutoff.Err? || closes.Err? || nextOpens.Err? then Err(TimezoneInvalid)
    else
      Ok(Window(opens.value, cutoff.value, closes.value, nextOpens.value, opens.value <= now < cutoff.value))
  }

  /** From one afternoon to the next. */
  function DailyWindow(z: Zone, now: int): Result<Window, Failure> {
    var today := DayOf(now + z(now));
    var todayClose := ZonedInstant(z, LocalTime(today, FOUR_IN_THE_AFTERNOON), false);
    if todayClose.Err? then Err(TimezoneInvalid)
    else
      var closeDay := if now >= todayClose.value then today + 1 else today;
      var closes := ZonedInstant(z, LocalTime(closeDay, FOUR_IN_THE_AFTERNOON), false);
      var opens := ZonedInstant(z, LocalTime(closeDay - 1, FOUR_IN_THE_AFTERNOON), false);
      if closes.Err? || opens.Err? then Err(TimezoneInvalid)
      else Ok(Window(opens.value, closes.value, closes.value, closes.value, true))
  }

  /** `zone` is None for a time-zone name that the platform does not know. */
  function WindowOf(zone: Option<Zone>, now: int, stagingDaily: bool,
                    schedule: Option<Schedule>): Result<Window, Failure> {
    if !(0 <= now <= MAX_TIMESTAMP) then Err(TimestampInvalid)
    else
      match zone
      case None => Err(TimezoneInvalid)
      case Some(z) =>
        if schedule.Some? then ScheduledWindow(z, now, schedule.value)
        else if stagingDaily then DailyWindow(z, now)
        else WeeklyWindow(z, now)
  }

  method GetAuctionCreationWindow(zone: Option<Zone>, now: int, stagingDaily: bool, schedule: Option<Schedule>)
    returns (r: Result<Window, Failure>)
    ensures r == WindowOf(zone, now, stagingDaily, schedule)
  {
    hide ZonedInstant, MondayOf, DayOf, LocalTime;
    if !(0 <= now <= MAX_TIMESTAMP) { return Err(TimestampInvalid); }
    if zone.None? { return Err(TimezoneInvalid); }
    var z := zone.value;
    if schedule.Some? {
      var s := schedule.value;
      if !ScheduleValid(s) { return Err(InputInvalid); }
      var monday := MondayOf(z, now);
      var opens := FindZonedInstant(z, LocalTime(monday, 0), false);
      if opens.Err? { return Err(TimezoneInvalid); }
      var closes := FindZonedInstant(z, LocalTime(monday + s.closeWeekday, s.closeMinuteOfDay), true);
      if closes.Err? { return Err(TimezoneInvalid); }
      var cutoff := Max(opens.value, closes.value - s.creationCutoffMinutes * MINUTE_MS);
      var nextOpens := FindZonedInstant(z, LocalTime(monday + 7, 0), false);
      if nextOpens.Err? { return Err(TimezoneInvalid); }
      return Ok(Window(opens.value, cutoff, closes.value, nextOpens.value, now >= opens.value && now < cutoff));
    }
    if stagingDaily {
      var today := DayOf(now + z(now));
      var todayClose := FindZonedInstant(z, LocalTime(today, FOUR_IN_THE_AFTERNOON), false);
      if todayClose.Err? { return Err(TimezoneInvalid); }
      var closeDay := if now >= todayClose.value then today + 1 else today;
      var closes := FindZonedInstant(z, LocalTime(closeDay, FOUR_IN_THE_AFTERNOON), false);
      if closes.Err? { return Err(TimezoneInvalid); }
      var opens := FindZonedInstant(z, LocalTime(closeDay - 1, FOUR_IN_THE_AFTERNOON), false);
      if opens.Err? { return Err(TimezoneInvalid); }
      return Ok(Window(opens.value, closes.value, closes.value, closes.value, true));
    }
    var monday := MondayOf(z, now);
    var opens := FindZonedInstant(z, LocalTime(monday, 0), false);
    if opens.Err? { return Err(TimezoneInvalid); }
    var cutoff := FindZonedInstant(z, LocalTime(monday + 4, 0), false);
    if cutoff.Err? { return Err(TimezoneInvalid); }
    var closes := FindZonedInstant(z, LocalTime(monday + 6, FOUR_IN_THE_AFTERNOON), false);
    if closes.Err? { return Err(TimezoneInvalid); }
    var nextOpens := FindZonedInstant(z, LocalTime(monday + 7, 0), false);
    if nextOpens.Err? { return Err(TimezoneInvalid); }
    return Ok(Window(opens.value, cutoff.value, closes.value, nextOpens.value,
                     now >= opens.value && now < cutoff.value));
  }

  // ---------- the order of the window ----------

  /** At most one change of offset within nine days of this instant. */
  ghost predicate OneChangeAround(z: Zone, now: int, c: Change) {
    OneChange(z, now - 9 * DAY_MS, now + 9 * DAY_MS, c)
  }

  lemma WeekAround(z: Zone, now: int, c: Change)
    requires OneChangeAround(z, now, c)
    ensures
      var monday := MondayOf(z, now);
      && LocalTime(monday, 0) <= now + z(now) < LocalTime(monday + 7, 0)
      && now - 9 * DAY_MS <= LocalTime(monday, 0) - MAX_OFFSET
      && LocalTime(monday + 7, 0) + MAX_OFFSET <= now + 9 * DAY_MS
  {
  }

  /** Within the nine days, any two local times of the week keep their order as instants. */
  lemma InOrder(z: Zone, now: int, c: Change, first: int, second: int, shift2: bool)
    requires OneChangeAround(z, now, c) && first < second
    requires now - 9 * DAY_MS <= first - MAX_OFFSET && second + MAX_OFFSET <= now + 9 * DAY_MS
    requires ZonedInstant(z, first, false).Ok? && ZonedInstant(z, second, shift2).Ok?
    ensures ZonedInstant(z, first, false).value < ZonedInstant(z, second, shift2).value
  {
    InstantUnderOneChange(z, first, false, c);
    LaterTimesAreLaterInstants(z, first, second, false, shift2, c);
  }

  /** Every accepted weekly window is in order. */
  lemma WeeklyWindowIsOrdered(z: Zone, now: int, c: Change)
    requires OneChangeAround(z, now, c) && WeeklyWindow(z, now).Ok?
    ensures
      var w := WeeklyWindow(z, now).value;
      w.opens < w.cutoff < w.closes < w.nextOpens
  {
    var monday := MondayOf(z, now);
    WeekAround(z, now, c);
    hide ZonedInstant, OneChangeAround, MondayOf;
    InOrder(z, now, c, LocalTime(monday, 0), LocalTime(monday + 4, 0), false);
    InOrder(z, now, c, LocalTime(monday + 4, 0), LocalTime(monday + 6, FOUR_IN_THE_AFTERNOON), false);
    InOrder(z, now, c, LocalTime(monday + 6, FOUR_IN_THE_AFTERNOON), LocalTime(monday + 7, 0), false);
  }

  lemma CloseIsInTheWeek(monday: int, s: Schedule)
    requires ScheduleValid(s)
    ensures LocalTime(monday, 0) < LocalTime(monday + s.closeWeekday, s.closeMinuteOfDay) < LocalTime(monday + 7, 0)
  {
  }

  /** Three local times in a row, the middle one shifted when it is skipped. */
  lemma OpenCloseNext(z: Zone, open: int, close: int, next: int, c: Change)
    requires open < close < next && OneChange(z, open - MAX_OFFSET, next + MAX_OFFSET, c)
    ensures ZonedInstant(z, open, false).Ok? <==> !Skipped(open, c)
    ensures ZonedInstant(z, next, false).Ok? <==> !Skipped(next, c)
    ensures ZonedInstant(z, close, true).Ok?
    ensures
      !Skipped(open, c) && !Skipped(next, c) ==>
        var opens, nextOpens := ZonedInstant(z, open, false).value, ZonedInstant(z, next, false).value;
        var closes := ZonedInstant(z, close, true).value;
        && opens < closes && opens < nextOpens
        && (closes <= nextOpens <==> !Skipped(close, c) || close - c.before <= next - c.after)
  {
    InstantUnderOneChange(z, open, false, c);
    InstantUnderOneChange(z, close, true, c);
    InstantUnderOneChange(z, next, false, c);
    hide ZonedInstant;
  }

  /**
   * Every accepted schedule opens before creation ends, and ends creation before bids close. It
   * fails only when a Monday midnight is skipped. Bids close before the next opening too,
   * unless the closing time is skipped and shifted past the first moments of the next week.
   */
  lemma ScheduledWindowIsOrdered(z: Zone, now: int, s: Schedule, c: Change)
    requires OneChangeAround(z, now, c) && ScheduleValid(s)
    ensures
      var monday := MondayOf(z, now);
      var close, next := LocalTime(monday + s.closeWeekday, s.closeMinuteOfDay), LocalTime(monday + 7, 0);
      && (ScheduledWindow(z, now, s).Ok? <==> !Skipped(LocalTime(monday, 0), c) && !Skipped(next, c))
      && (ScheduledWindow(z, now, s).Ok? ==>
            var w := ScheduledWindow(z, now, s).value;
            && w.opens <= w.cutoff <= w.closes && w.opens < w.nextOpens
            && (w.closes <= w.nextOpens <==> !Skipped(close, c) || close - c.before <= next - c.after))
  {
    var monday := MondayOf(z, now);
    var open, next := LocalTime(monday, 0), LocalTime(monday + 7, 0);
    var close := LocalTime(monday + s.closeWeekday, s.closeMinuteOfDay);
    WeekAround(z, now, c);
    CloseIsInTheWeek(monday, s);
    hide MondayOf, LocalTime, ZonedInstant, Skipped;
    OpenCloseNext(z, open, close, next, c);
  }

  /** The clock of the example: it jumps from eleven on a Sunday evening to midnight. */
  function JumpingClock(): Zone {
    t => if t < LocalTime(10, 23 * 60) then 0 else 60 * MINUTE_MS
  }

  lemma JumpingInstants()
    ensures ZonedInstant(JumpingClock(), LocalTime(4, 0), false) == Ok(LocalTime(4, 0))
    ensures ZonedInstant(JumpingClock(), LocalTime(10, 23 * 60 + 30), true) == Ok(LocalTime(10, 23 * 60 + 30))
    ensures ZonedInstant(JumpingClock(), LocalTime(11, 0), false) == Ok(LocalTime(10, 23 * 60))
  {
    hide ZonedInstant;
    var c := Change(LocalTime(10, 23 * 60), 0, 60 * MINUTE_MS);
    InstantUnderOneChange(JumpingClock(), LocalTime(4, 0), false, c);
    InstantUnderOneChange(JumpingClock(), LocalTime(10, 23 * 60 + 30), true, c);
    InstantUnderOneChange(JumpingClock(), LocalTime(11, 0), false, c);
  }

  lemma JumpingMonday()
    ensures MondayOf(JumpingClock(), 5 * DAY_MS) == 4
  {
  }

  lemma HalfAnHourLater(day: int, minuteOfDay: int)
    ensures LocalTime(day, minuteOfDay + 30) == LocalTime(day, minuteOfDay) + 30 * MINUTE_MS
  {
  }

  /** Bids close at half past eleven on that Sunday: half an hour after the next opening. */
  lemma ShiftedCloseOvertakesTheOpening()
    ensures
      var window := ScheduledWindow(JumpingClock(), 5 * DAY_MS, Schedule(6, 23 * 60 + 30, 0));
      window.Ok? && window.value.closes == window.value.nextOpens + 30 * MINUTE_MS
  {
    hide ZonedInstant, MondayOf, JumpingClock, LocalTime;
    JumpingInstants();
    assert MondayOf(JumpingClock(), 5 * DAY_MS) == 4 by { JumpingMonday(); }
    assert LocalTime(10, 23 * 60 + 30) == LocalTime(10, 23 * 60) + 30 * MINUTE_MS by { HalfAnHourLater(10, 23 * 60); }
  }

  /** The clock reads this local time twice. */
  predicate ReadTwice(local: int, c: Change) {
    local - c.before < c.at <= local - c.after
  }

  /**
   * The window is that of the week the wall clock is in, but for the hours before the clock is set
   * back over its Monday midnight, when its later reading is taken, and those after it is set back
   * over the next one, when its earlier reading is taken.
   */
  lemma WindowContainsNow(z: Zone, now: int, s: Schedule, c: Change)
    requires OneChangeAround(z, now, c) && ScheduledWindow(z, now, s).Ok?
    ensures
      var open, next := LocalTime(MondayOf(z, now), 0), LocalTime(MondayOf(z, now) + 7, 0);
      var w := ScheduledWindow(z, now, s).value;
      && (w.opens <= now <==> !(ReadTwice(open, c) && now < c.at <= open))
      && (now < w.nextOpens <==> !(ReadTwice(next, c) && next < c.at <= now))
  {
    var open, next := LocalTime(MondayOf(z, now), 0), LocalTime(MondayOf(z, now) + 7, 0);
    WeekAround(z, now, c);
    hide MondayOf, LocalTime;
    InstantUnderOneChange(z, open, false, c);
    InstantUnderOneChange(z, next, false, c);
  }

  /** This clock is set back from half past midnight on a Monday to half past eleven. */
  function RepeatingClock(): Zone {
    t => if t < LocalTime(4, 0) - 90 * MINUTE_MS then 120 * MINUTE_MS else 60 * MINUTE_MS
  }

  lemma RepeatedMonday()
    ensures MondayOf(RepeatingClock(), LocalTime(4, 0) - 120 * MINUTE_MS) == 4
  {
  }

  lemma RepeatedMidnight(c: Change)
    requires c == Change(LocalTime(4, 0) - 90 * MINUTE_MS, 120 * MINUTE_MS, 60 * MINUTE_MS)
    ensures OneChangeAround(RepeatingClock(), LocalTime(4, 0) - 120 * MINUTE_MS, c)
    ensures ReadTwice(LocalTime(4, 0), c) && LocalTime(4, 0) - 120 * MINUTE_MS < c.at <= LocalTime(4, 0)
    ensures !Skipped(LocalTime(4, 0), c) && !Skipped(LocalTime(11, 0), c)
  {
  }

  /** When it first strikes midnight the new week has begun, but its window has not opened. */
  lemma RepeatedMidnightOpensLate()
    ensures
      var now := LocalTime(4, 0) - 120 * MINUTE_MS;
      var window := ScheduledWindow(RepeatingClock(), now, Schedule(4, FOUR_IN_THE_AFTERNOON, 0));
      window.Ok? && now + RepeatingClock()(now) == LocalTime(4, 0) && now < window.value.opens
  {
    var now, s := LocalTime(4, 0) - 120 * MINUTE_MS, Schedule(4, FOUR_IN_THE_AFTERNOON, 0);
    var c := Change(LocalTime(4, 0) - 90 * MINUTE_MS, 120 * MINUTE_MS, 60 * MINUTE_MS);
    hide ScheduledWindow, MondayOf, OneChangeAround, LocalTime, ReadTwice, Skipped;
    RepeatedMonday();
    RepeatedMidnight(c);
    ScheduledWindowIsOrdered(RepeatingClock(), now, s, c);
    WindowContainsNow(RepeatingClock(), now, s, c);
  }

  /** A local time eight hours behind the clock has passed, and one eight hours ahead is still to come. */
  lemma EightHoursApart(z: Zone, now: int, local: int, c: Change)
    requires OneChange(z, local - MAX_OFFSET, local + MAX_OFFSET, c)
             && z(now) == (if now < c.at then c.before else c.after)
    requires ZonedInstant(z, local, false).Ok? && c.before - c.after <= DAY_MS / 3
    ensures local + DAY_MS / 3 <= now + z(now) ==> ZonedInstant(z, local, false).value <= now
    ensures now + z(now) + DAY_MS / 3 < local ==> now < ZonedInstant(z, local, false).value
  {
    InstantUnderOneChange(z, local, false, c);
    hide ZonedInstant, OneChange;
  }

  lemma DayAround(z: Zone, now: int, c: Change)
    requires OneChangeAround(z, now, c)
    ensures
      var today := DayOf(now + z(now));
      && LocalTime(today - 1, FOUR_IN_THE_AFTERNOON) + DAY_MS / 3 <= now + z(now)
      && now + z(now) + DAY_MS / 3 < LocalTime(today + 1, FOUR_IN_THE_AFTERNOON)
      && now - 9 * DAY_MS <= LocalTime(today - 1, FOUR_IN_THE_AFTERNOON) - MAX_OFFSET
      && LocalTime(today + 1, FOUR_IN_THE_AFTERNOON) + MAX_OFFSET <= now + 9 * DAY_MS
      && LocalTime(today - 1, FOUR_IN_THE_AFTERNOON) <= LocalTime(today + 1, FOUR_IN_THE_AFTERNOON)
      && z(now) == (if now < c.at then c.before else c.after)
  {
  }

  /** A daily window always contains the present, if the clock is never set back more than eight hours. */
  lemma DailyWindowContainsNow(z: Zone, now: int, c: Change)
    requires OneChangeAround(z, now, c) && DailyWindow(z, now).Ok? && c.before - c.after <= DAY_MS / 3
    ensures
      var w := DailyWindow(z, now).value;
      w.opens <= now < w.closes && w.cutoff == w.closes == w.nextOpens
  {
    var today := DayOf(now + z(now));
    DayAround(z, now, c);
    hide ZonedInstant, DayOf, LocalTime;
    var todayClose := ZonedInstant(z, LocalTime(today, FOUR_IN_THE_AFTERNOON), false).value;
    if now >= todayClose {
      EightHoursApart(z, now, LocalTime(today + 1, FOUR_IN_THE_AFTERNOON), c);
    } else {
      EightHoursApart(z, now, LocalTime(today - 1, FOUR_IN_THE_AFTERNOON), c);
    }
  }
}
