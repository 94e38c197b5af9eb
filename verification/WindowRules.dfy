/** What the clocks of a zone read at the instants of an auction window, in milliseconds of local time. */
module WindowRules {
  import opened Collections
  import opened CreationWindow

  /** Midnight of the Monday of the week of a local time; 5 January 1970 was a Monday. */
  function MondayMidnight(local: int): int {
    local - (local - 345_600_000) % 604_800_000
  }

  lemma MondayMeans(z: Zone, now: int, days: int, minutes: int)
    ensures LocalTime(MondayOf(z, now) + days, minutes)
            == MondayMidnight(now + z(now)) + days * 86_400_000 + minutes * 60_000
  {
  }

  lemma {:induction false} FoundReads(z: Zone, local: int, n: nat)
    requires FirstReading(z, local, n).Some?
    ensures
      var t := FirstReading(z, local, n).value;
      t + z(t) == local
  {
    if n > 0 && FirstReading(z, local, n - 1).Some? { FoundReads(z, local, n - 1); }
  }

  lemma InstantReads(z: Zone, local: int)
    requires ZonedInstant(z, local, false).Ok?
    ensures
      var t := ZonedInstant(z, local, false).value;
      t + z(t) == local
  {
    FoundReads(z, local, 4);
    hide FirstReading;
  }

  /** The clock of the zone reads this local time at this instant. */
  predicate At(z: Zone, t: int, local: int) {
    t + z(t) == local
  }

  /**
   * A weekly window opens at midnight on the Monday of the present week and again a week later;
   * creation ends at midnight on the Friday, and bids close on the Sunday at four in the afternoon.
   */
  lemma WeeklyWindowReads(z: Zone, now: int)
    requires WeeklyWindow(z, now).Ok?
    ensures
      var w, monday := WeeklyWindow(z, now).value, MondayMidnight(now + z(now));
      && At(z, w.opens, monday) && At(z, w.cutoff, monday + 345_600_000)
      && At(z, w.closes, monday + 576_000_000) && At(z, w.nextOpens, monday + 604_800_000)
      && (w.canStart <==> w.opens <= now < w.cutoff)
  {
    MondayMeans(z, now, 0, 0);
    MondayMeans(z, now, 4, 0);
    MondayMeans(z, now, 6, 960);
    MondayMeans(z, now, 7, 0);
    hide MondayOf, LocalTime, MondayMidnight, ZonedInstant;
    InstantReads(z, LocalTime(MondayOf(z, now), 0));
    InstantReads(z, LocalTime(MondayOf(z, now) + 4, 0));
    InstantReads(z, LocalTime(MondayOf(z, now) + 6, 960));
    InstantReads(z, LocalTime(MondayOf(z, now) + 7, 0));
  }

  lemma ShiftedOrRead(z: Zone, local: int, c: Change)
    requires OneChange(z, local - MAX_OFFSET, local + MAX_OFFSET, c)
    ensures ZonedInstant(z, local, true).Ok?
    ensures
      var t := ZonedInstant(z, local, true).value;
      if Skipped(local, c) then t == local - c.before else At(z, t, local)
  {
    InstantUnderOneChange(z, local, true, c);
    InstantUnderOneChange(z, local, false, c);
    if !Skipped(local, c) { InstantReads(z, local); }
    hide ZonedInstant;
  }

  /**
   * A scheduled window opens on Mondays in the same way. Bids close on the stated weekday at the
   * stated minute, read with the earlier offset when the clock skips it, and creation ends the stated
   * minutes earlier, though not before the opening.
   */
  lemma ScheduledWindowReads(z: Zone, now: int, s: Schedule, c: Change)
    requires OneChangeAround(z, now, c) && ScheduledWindow(z, now, s).Ok?
    ensures 0 <= s.closeWeekday <= 6 && 0 <= s.closeMinuteOfDay <= 1439
    ensures 0 <= s.creationCutoffMinutes < s.closeWeekday * 1440 + s.closeMinuteOfDay
    ensures
      var w, monday := ScheduledWindow(z, now, s).value, MondayMidnight(now + z(now));
      var close := monday + s.closeWeekday * 86_400_000 + s.closeMinuteOfDay * 60_000;
      && At(z, w.opens, monday) && At(z, w.nextOpens, monday + 604_800_000)
      && (if Skipped(close, c) then w.closes == close - c.before else At(z, w.closes, close))
      && w.cutoff == (if w.opens >= w.closes - s.creationCutoffMinutes * 60_000 then w.opens
                      else w.closes - s.creationCutoffMinutes * 60_000)
      && (w.canStart <==> w.opens <= now < w.cutoff)
  {
    var monday := MondayOf(z, now);
    var open, next := LocalTime(monday, 0), LocalTime(monday + 7, 0);
    var close := LocalTime(monday + s.closeWeekday, s.closeMinuteOfDay);
    MondayMeans(z, now, 0, 0);
    MondayMeans(z, now, s.closeWeekday, s.closeMinuteOfDay);
    MondayMeans(z, now, 7, 0);
    WeekAround(z, now, c);
    CloseIsInTheWeek(monday, s);
    hide MondayOf, LocalTime, MondayMidnight;
    ShiftedOrRead(z, close, c);
    hide ZonedInstant, OneChangeAround, Skipped;
    InstantReads(z, open);
    InstantReads(z, next);
  }

  lemma DayMeans(local: int)
    ensures
      var midnight := local - local % 86_400_000;
      && LocalTime(DayOf(local), 960) == midnight + 57_600_000
      && LocalTime(DayOf(local) + 1, 960) == midnight + 144_000_000
      && LocalTime(DayOf(local) - 1, 960) == midnight - 28_800_000
  {
  }

  /** A daily window closes today or tomorrow at four in the afternoon and opened a day earlier by the clock. */
  lemma DailyWindowReads(z: Zone, now: int)
    requires DailyWindow(z, now).Ok?
    ensures
      var w, local := DailyWindow(z, now).value, now + z(now);
      var today := local - local % 86_400_000;
      && w.canStart && w.cutoff == w.closes == w.nextOpens
      && ((At(z, w.closes, today + 57_600_000) && At(z, w.opens, today - 28_800_000))
          || (At(z, w.closes, today + 144_000_000) && At(z, w.opens, today + 57_600_000)))
  {
    var today := DayOf(now + z(now));
    DayMeans(now + z(now));
    hide ZonedInstant, DayOf, LocalTime;
    var todayClose := ZonedInstant(z, LocalTime(today, 960), false).value;
    InstantReads(z, LocalTime(today, 960));
    if now >= todayClose {
      InstantReads(z, LocalTime(today + 1, 960));
    } else {
      InstantReads(z, LocalTime(today - 1, 960));
    }
  }

  /** A schedule takes precedence over the daily windows, and these over the weekly ones. */
  lemma WindowIsChosen(zone: Option<Zone>, now: int, stagingDaily: bool, schedule: Option<Schedule>)
    requires WindowOf(zone, now, stagingDaily, schedule).Ok?
    ensures 0 <= now <= 8_640_000_000_000_000 && zone.Some?
    ensures
      WindowOf(zone, now, stagingDaily, schedule) ==
      if schedule.Some? then ScheduledWindow(zone.value, now, schedule.value)
      else if stagingDaily then DailyWindow(zone.value, now)
      else WeeklyWindow(zone.value, now)
  {
    hide ScheduledWindow, DailyWindow, WeeklyWindow;
  }
}
