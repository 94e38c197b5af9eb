/** The life of a login session: its deadlines, its refreshes and when a use of it is still valid. */
module Sessions {
  import opened Collections

  const HOUR_MS: int := 60 * 60 * 1000
  const DAY_MS: int := 24 * HOUR_MS
  const ABSOLUTE_LIFETIME_MS: int := 7 * DAY_MS
  const IDLE_LIFETIME_MS: int := 12 * HOUR_MS
  const REFRESH_INTERVAL_MS: int := 5 * 60 * 1000

  datatype Status = Active | Revoked | Expired | OtherStatus(n: nat)

  datatype Session = Session(created: int, lastUsed: int, idleExpires: int, absoluteExpires: int, status: Status)

  datatype Failure = Malformed | ClockInvalid

  datatype Refresh = Refresh(lastUsed: int, idleExpires: int)

  datatype Reason = WasRevoked | WasExpired | AbsoluteExpired | IdleExpired

  datatype Verdict = Valid(refresh: Option<Refresh>) | Invalid(reason: Reason)

  predicate IsTimestamp(t: int) {
    IsSafe(t) && t >= 0
  }

  function CreateSessionDeadlines(created: int): Result<Session, Failure> {
    if !IsTimestamp(created) || !IsSafe(created + ABSOLUTE_LIFETIME_MS) || !IsSafe(created + IDLE_LIFETIME_MS) then
      Err(ClockInvalid)
    else
      var absolute := created + ABSOLUTE_LIFETIME_MS;
      Ok(Session(created, created, Min(created + IDLE_LIFETIME_MS, absolute), absolute, Active))
  }

  predicate TimingValid(s: Session) {
    && IsTimestamp(s.created) && IsTimestamp(s.lastUsed) && IsTimestamp(s.idleExpires) && IsTimestamp(s.absoluteExpires)
    && s.created <= s.lastUsed < s.absoluteExpires && s.created < s.idleExpires <= s.absoluteExpires
    && !s.status.OtherStatus?
  }

  function EvaluateSession(s: Session, now: int): Result<Verdict, Failure> {
    if !TimingValid(s) then Err(Malformed)
    else if !IsTimestamp(now) || now < s.created then Err(ClockInvalid)
    else if s.status == Revoked then Ok(Invalid(WasRevoked))
    else if s.status == Expired then Ok(Invalid(WasExpired))
    else if now >= s.absoluteExpires then Ok(Invalid(AbsoluteExpired))
    else if now >= s.idleExpires then Ok(Invalid(IdleExpired))
    else if now - s.lastUsed < REFRESH_INTERVAL_MS then Ok(Valid(None))
    else if !IsSafe(now + IDLE_LIFETIME_MS) then Err(ClockInvalid)
    else Ok(Valid(Some(Refresh(now, Min(now + IDLE_LIFETIME_MS, s.absoluteExpires)))))
  }

  // ---------- one use ----------

  /** A session lives for seven days, and for twelve hours without a use. */
  lemma DeadlinesInMilliseconds(created: int)
    ensures CreateSessionDeadlines(created).Ok? <==> 0 <= created <= 9_007_199_254_740_991 - 604_800_000
    ensures CreateSessionDeadlines(created).Ok? ==>
              CreateSessionDeadlines(created).value
              == Session(created, created, created + 43_200_000, created + 604_800_000, Active)
  {
  }

  /** A stored session is well formed when its times are timestamps in order and its status is known. */
  lemma MalformedExactly(s: Session, now: int)
    ensures EvaluateSession(s, now) == Err(Malformed) <==>
              !(&& 0 <= s.created <= s.lastUsed < s.absoluteExpires <= 9_007_199_254_740_991
                && s.created < s.idleExpires <= s.absoluteExpires
                && (s.status == Active || s.status == Revoked || s.status == Expired))
  {
  }

  /**
   * A closed session is invalid for what closed it. An active one is valid before both of its
   * deadlines; a use five minutes or more after the last persisted one is persisted, and moves the
   * idle deadline to twelve hours later, though not past the absolute one.
   */
  lemma VerdictInMilliseconds(s: Session, now: int)
    requires EvaluateSession(s, now) != Err(Malformed) && s.created <= now && 0 <= now <= 9_007_199_254_740_991
    ensures
      var r := EvaluateSession(s, now);
      var open := s.status == Active && now < s.absoluteExpires && now < s.idleExpires;
      && (r == Ok(Invalid(WasRevoked)) <==> s.status == Revoked)
      && (r == Ok(Invalid(WasExpired)) <==> s.status == Expired)
      && (r == Ok(Invalid(AbsoluteExpired)) <==> s.status == Active && s.absoluteExpires <= now)
      && (r == Ok(Invalid(IdleExpired)) <==> s.status == Active && s.idleExpires <= now < s.absoluteExpires)
      && (r == Ok(Valid(None)) <==> open && now - s.lastUsed < 300_000)
      && (r == Err(ClockInvalid) <==>
            open && now - s.lastUsed >= 300_000 && now + 43_200_000 > 9_007_199_254_740_991)
      && (open && now - s.lastUsed >= 300_000 && now + 43_200_000 <= 9_007_199_254_740_991 ==>
            r == Ok(Valid(Some(Refresh(now, if now + 43_200_000 <= s.absoluteExpires then now + 43_200_000
                                            else s.absoluteExpires)))))
  {
  }

  // ---------- runs ----------

  /** A use persists its refresh, if it has one; revocation and expiry close a session for good. */
  datatype Event = Use(now: int) | Close(status: Status)

  function After(s: Session, e: Event): Session {
    match e
    case Use(now) =>
      var v := EvaluateSession(s, now);
      if v.Ok? && v.value.Valid? && v.value.refresh.Some? then
        s.(lastUsed := v.value.refresh.value.lastUsed, idleExpires := v.value.refresh.value.idleExpires)
      else s
    case Close(status) => if status == Revoked || status == Expired then s.(status := status) else s
  }

  function AfterAll(s: Session, events: seq<Event>): Session {
    if events == [] then s else After(AfterAll(s, events[..|events| - 1]), events[|events| - 1])
  }

  /** What creation establishes and every event keeps. */
  predicate Kept(s: Session) {
    && TimingValid(s)
    && s.absoluteExpires == s.created + ABSOLUTE_LIFETIME_MS
    && s.idleExpires == Min(s.lastUsed + IDLE_LIFETIME_MS, s.absoluteExpires)
  }

  lemma EventKeepsTiming(s: Session, e: Event)
    requires Kept(s)
    ensures
      var s' := After(s, e);
      && Kept(s') && s'.created == s.created && s'.absoluteExpires == s.absoluteExpires
      && s.lastUsed <= s'.lastUsed && s.idleExpires <= s'.idleExpires
      && (s.status != Active ==> s'.status != Active)
  {
  }

  /**
   * Over every run the timing stays valid, the creation and the absolute deadline never move, the
   * idle deadline follows the last persisted use, and a closed session is never open again.
   */
  lemma {:induction false} EveryRunKeepsTiming(created: int, events: seq<Event>, i: nat)
    requires CreateSessionDeadlines(created).Ok? && i <= |events|
    ensures
      var s := CreateSessionDeadlines(created).value;
      var earlier, later := AfterAll(s, events[..i]), AfterAll(s, events);
      && Kept(later) && later.created == created && later.absoluteExpires == s.absoluteExpires
      && earlier.lastUsed <= later.lastUsed && earlier.idleExpires <= later.idleExpires
      && (earlier.status != Active ==> later.status != Active)
    decreases |events|
  {
    var s := CreateSessionDeadlines(created).value;
    if events == [] {
      assert events[..i] == [];
    } else {
      var n := |events| - 1;
      EveryRunKeepsTiming(created, events[..n], if i <= n then i else n);
      assert i <= n ==> events[..n][..i] == events[..i];
      assert events[..n][..n] == events[..n] && events[..n + 1] == events;
      hide Kept, After, CreateSessionDeadlines;
      EventKeepsTiming(AfterAll(s, events[..n]), events[n]);
    }
  }

  /** However often it is refreshed, no session is valid seven days or more after its creation. */
  lemma NoUseAfterSevenDays(created: int, events: seq<Event>, now: int)
    requires CreateSessionDeadlines(created).Ok? && now >= created + 604_800_000
    ensures
      var v := EvaluateSession(AfterAll(CreateSessionDeadlines(created).value, events), now);
      v.Ok? ==> v.value.Invalid?
  {
    EveryRunKeepsTiming(created, events, 0);
  }

  /** A use twelve hours or more after the last persisted use is never valid. */
  lemma NoUseAfterTwelveIdleHours(created: int, events: seq<Event>, now: int)
    requires CreateSessionDeadlines(created).Ok?
    requires now >= AfterAll(CreateSessionDeadlines(created).value, events).lastUsed + 43_200_000
    ensures
      var v := EvaluateSession(AfterAll(CreateSessionDeadlines(created).value, events), now);
      v.Ok? ==> v.value.Invalid?
  {
  }

  /** The only failure of a kept session at a timestamp after its creation is a refresh beyond the safe integers. */
  lemma EvaluationFailsExactly(s: Session, now: int)
    requires Kept(s) && IsTimestamp(now) && now >= s.created
    ensures EvaluateSession(s, now).Err? <==>
              s.status == Active && now < s.idleExpires && now - s.lastUsed >= REFRESH_INTERVAL_MS
              && !IsSafe(now + IDLE_LIFETIME_MS)
  {
  }

  // ---------- regular use ----------

  /** Eleven hours and fifty-five minutes. */
  const LONGEST_REGULAR_GAP_MS: int := 42_900_000

  function Uses(times: seq<int>): seq<Event> {
    seq(|times|, i requires 0 <= i < |times| => Use(times[i]))
  }

  function PreviousUse(created: int, times: seq<int>, i: nat): int
    requires i <= |times|
  {
    if i == 0 then created else times[i - 1]
  }

  /** Each use comes at most eleven hours and fifty-five minutes after the one before, or after creation. */
  predicate Regular(created: int, times: seq<int>) {
    forall i | 0 <= i < |times| :: 0 <= times[i] - PreviousUse(created, times, i) <= LONGEST_REGULAR_GAP_MS
  }

  /** The session as its first uses leave it. */
  function UsedUpTo(created: int, times: seq<int>, i: nat): Session
    requires CreateSessionDeadlines(created).Ok? && i <= |times|
  {
    AfterAll(CreateSessionDeadlines(created).value, Uses(times[..i]))
  }

  lemma UsesStep(times: seq<int>, i: nat)
    requires i < |times|
    ensures Uses(times[..i + 1]) == Uses(times[..i]) + [Use(times[i])]
  {
  }

  lemma AfterStep(s: Session, events: seq<Event>, e: Event)
    ensures AfterAll(s, events + [e]) == After(AfterAll(s, events), e)
  {
  }

  lemma UsedOnceMore(created: int, times: seq<int>, i: nat)
    requires CreateSessionDeadlines(created).Ok? && i < |times|
    ensures UsedUpTo(created, times, i + 1) == After(UsedUpTo(created, times, i), Use(times[i]))
  {
    hide After, CreateSessionDeadlines;
    UsesStep(times, i);
    AfterStep(CreateSessionDeadlines(created).value, Uses(times[..i]), Use(times[i]));
  }

  lemma FreshAtCreation(created: int, times: seq<int>)
    requires CreateSessionDeadlines(created).Ok?
    ensures
      var s := UsedUpTo(created, times, 0);
      Kept(s) && s.created == s.lastUsed == created && s.status == Active
  {
  }

  lemma RegularGap(created: int, times: seq<int>, i: nat)
    requires Regular(created, times) && i < |times|
    ensures 0 <= times[i] - PreviousUse(created, times, i) <= LONGEST_REGULAR_GAP_MS
    ensures PreviousUse(created, times, i + 1) == times[i]
  {
  }

  lemma RegularStep(s: Session, previous: int, now: int)
    requires Kept(s) && s.status == Active && s.lastUsed <= previous < s.lastUsed + REFRESH_INTERVAL_MS
    requires 0 <= now - previous <= LONGEST_REGULAR_GAP_MS && now < s.created + ABSOLUTE_LIFETIME_MS
    requires IsSafe(s.created + ABSOLUTE_LIFETIME_MS + IDLE_LIFETIME_MS)
    ensures EvaluateSession(s, now).Ok? && EvaluateSession(s, now).value.Valid?
    ensures
      var s' := After(s, Use(now));
      && Kept(s') && s'.created == s.created && s'.status == Active
      && s'.lastUsed <= now < s'.lastUsed + REFRESH_INTERVAL_MS
  {
  }

  /** The last use is less than a refresh interval after the last persisted one. */
  lemma {:induction false} RegularUseStaysFresh(created: int, times: seq<int>, i: nat)
    requires CreateSessionDeadlines(created).Ok? && IsSafe(created + ABSOLUTE_LIFETIME_MS + IDLE_LIFETIME_MS)
    requires Regular(created, times) && i <= |times| && PreviousUse(created, times, i) < created + ABSOLUTE_LIFETIME_MS
    ensures
      var s := UsedUpTo(created, times, i);
      && Kept(s) && s.created == created && s.status == Active
      && s.lastUsed <= PreviousUse(created, times, i) < s.lastUsed + REFRESH_INTERVAL_MS
    decreases i
  {
    hide Regular, UsedUpTo, After, Kept, CreateSessionDeadlines;
    if i == 0 {
      FreshAtCreation(created, times);
    } else {
      hide PreviousUse;
      RegularGap(created, times, i - 1);
      RegularUseStaysFresh(created, times, i - 1);
      UsedOnceMore(created, times, i - 1);
      RegularStep(UsedUpTo(created, times, i - 1), PreviousUse(created, times, i - 1), times[i - 1]);
    }
  }

  /** A session used that regularly is valid at every one of those uses until its absolute deadline. */
  lemma RegularUseIsNeverIdleExpired(created: int, times: seq<int>, i: nat)
    requires CreateSessionDeadlines(created).Ok? && IsSafe(created + ABSOLUTE_LIFETIME_MS + IDLE_LIFETIME_MS)
    requires Regular(created, times) && i < |times| && times[i] < created + ABSOLUTE_LIFETIME_MS
    ensures
      var v := EvaluateSession(UsedUpTo(created, times, i), times[i]);
      v.Ok? && v.value.Valid?
  {
    hide Regular, UsedUpTo, Kept, EvaluateSession, CreateSessionDeadlines, PreviousUse;
    RegularGap(created, times, i);
    RegularUseStaysFresh(created, times, i);
    RegularStep(UsedUpTo(created, times, i), PreviousUse(created, times, i), times[i]);
  }

  /** The bound is sharp: one millisecond more and a used session can idle out. */
  lemma LongerGapsMayIdleOut()
    ensures
      var times := [REFRESH_INTERVAL_MS - 1, REFRESH_INTERVAL_MS - 1 + LONGEST_REGULAR_GAP_MS + 1];
      var s := UsedUpTo(0, times, 1);
      && EvaluateSession(CreateSessionDeadlines(0).value, times[0]) == Ok(Valid(None))
      && EvaluateSession(s, times[1]) == Ok(Invalid(IdleExpired))
  {
    var times := [REFRESH_INTERVAL_MS - 1, REFRESH_INTERVAL_MS - 1 + LONGEST_REGULAR_GAP_MS + 1];
    UsedOnceMore(0, times, 0);
    FreshAtCreation(0, times);
  }
}
