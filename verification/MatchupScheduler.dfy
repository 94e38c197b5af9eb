/** The scheduler and its runners as one object, whose methods run from one await to the next. */
module MatchupScheduler {
  import opened Collections
  import opened Jobs

  /** Every cycle's calls so far are a prefix of the job order. */
  ghost predicate AllInOrder(s: State) {
    forall id :: InOrder(s, id)
  }

  /** A caller may call this job: anyone at an await, and a cycle whose turn has come to call it. */
  ghost predicate MayCall(s: State, job: nat, owner: Option<nat>) {
    && job <= ROLLOVER_WEEK && AllInOrder(s)
    && match owner
       case None => Safe(s)
       case Some(id) =>
         ReadyToCall(s, id) && |CallsOf(s.log, id)| == job && (job == ROLLOVER_WEEK ==> Finalized(s.log, id))
  }

  /** Whatever was being executed still is. */
  ghost predicate ExecutionsGoOn(was: State, now: State) {
    forall x :: x in was.executions ==> x in now.executions && now.executions[x] == was.executions[x]
  }

  /**
   * Whoever calls, the job is being executed afterwards; a new execution was started only if none
   * was in flight, and a calling cycle has its reply already only if one was.
   */
  ghost predicate Answered(was: State, now: State, job: nat, owner: Option<nat>) {
    && job in now.running && ExecutionsGoOn(was, now)
    && (now.executions == was.executions <==> job in was.running)
    && (owner.Some? ==>
          && owner.value in now.cycles && now.cycles[owner.value].job == job
          && (now.cycles[owner.value].pending.Some? <==> job in was.running))
  }

  /**
   * The job is executed no more, all others still are, and a cycle that awaited it can resume, with
   * the status it returned, success where it returned none, and failure where it threw.
   */
  ghost predicate Over(was: State, now: State, execution: nat, ending: Ending)
    requires execution in was.executions
  {
    var e := was.executions[execution];
    && e.job !in now.running && (forall x :: x in now.executions ==> now.executions[x].job != e.job)
    && (forall x :: x in was.executions && x != execution ==>
                      x in now.executions && now.executions[x] == was.executions[x])
    && (e.owner.Some? ==>
          && Enabled(now, AwaitResumes(e.owner.value, false))
          && now.cycles[e.owner.value] == Cycle(e.job, Some(match ending
                                                           case Returned(Some(status)) => Resolved(status)
                                                           case Returned(None) => Resolved(Succeeded)
                                                           case Threw(true) => Rejected
                                                           case Threw(false) => Resolved(Failed))))
  }

  /** No cycle is in flight any more; the executions are as they were. */
  ghost predicate CycleOver(was: State, now: State) {
    now.cycles == map[] && !now.cycleRunning && now.executions == was.executions
  }

  lemma NumbersAreFree(s: State, job: nat, owner: Option<nat>)
    requires MayCall(s, job, owner)
    ensures s.nextExecution !in s.executions
  {
  }

  lemma CallKeepsOrder(s: State, job: nat, owner: Option<nat>)
    requires MayCall(s, job, owner)
    ensures Safe(CallRun(s, job, owner)) && AllInOrder(CallRun(s, job, owner))
    ensures Answered(s, CallRun(s, job, owner), job, owner)
  {
    assert Answered(s, CallRun(s, job, owner), job, owner) by { NumbersAreFree(s, job, owner); }
    hide Answered, Safe, InOrder, CallsOf, Finalized, CallRun;
    forall id ensures InOrder(CallRun(s, job, owner), id) {
      CallIsInOrder(s, job, owner, id);
    }
    if owner.None? { OutsideCallIsSafe(s, job); } else { OwnCallIsSafe(s, job, owner.value); }
  }

  lemma SettlingKeepsOrder(s: State, execution: nat, ending: Ending)
    requires Safe(s) && AllInOrder(s) && execution in s.executions
    ensures Safe(Settle(s, execution, ending)) && AllInOrder(Settle(s, execution, ending))
    ensures Over(s, Settle(s, execution, ending), execution, ending)
  {
    assert Over(s, Settle(s, execution, ending), execution, ending) by { hide AllInOrder; }
    hide Safe, InOrder, Settle, Over;
    SettleIsSafe(s, execution, ending);
    forall id ensures InOrder(Settle(s, execution, ending), id) {
      SettleIsInOrder(s, execution, ending, id);
    }
  }

  lemma EndingKeepsOrder(s: State, id: nat, result: CycleResult)
    requires ReadyToCall(s, id) && AllInOrder(s)
    ensures Safe(EndCycle(s, id, result)) && AllInOrder(EndCycle(s, id, result))
    ensures CycleOver(s, EndCycle(s, id, result))
  {
    EndIsSafe(s, id, result);
    hide Safe, InOrder;
    forall i ensures InOrder(EndCycle(s, id, result), i) {
      EndIsInOrder(s, id, result, i);
    }
  }

  /**
   * The cycle goes on to the next job of the order, unless that was the last one, the finalization
   * failed, or the logger threw: then no cycle is in flight.
   */
  ghost predicate WentOn(was: State, now: State, id: nat, loggerThrows: bool)
    requires id in was.cycles && was.cycles[id].pending.Some?
  {
    var c := was.cycles[id];
    && ExecutionsGoOn(was, now)
    && (id in now.cycles <==>
          && c.job < ROLLOVER_WEEK && !(c.pending.value.Rejected? && loggerThrows)
          && !(c.job == FINALIZE_RESULTS && StatusOf(c.pending.value) == Failed))
    && (id in now.cycles ==> now.cycles[id].job == c.job + 1 && c.job + 1 in now.running)
    && (id !in now.cycles ==> CycleOver(was, now))
  }

  /** A cycle whose job has been answered may call the next one, and the rollover only after a finalization. */
  lemma NotedMayGoOn(s: State, id: nat, status: JobStatus)
    requires Safe(s) && AllInOrder(s) && id in s.cycles && s.cycles[id].pending.Some?
    ensures
      var job := s.cycles[id].job;
      var s1 := Noted(s, id, job, status);
      && AllInOrder(s1) && ReadyToCall(s1, id)
      && (job < FINALIZE_RESULTS || (job == FINALIZE_RESULTS && status != Failed) ==> MayCall(s1, job + 1, Some(id)))
  {
    var job := s.cycles[id].job;
    var s1 := Noted(s, id, job, status);
    RepliedIsReady(s, id, s1.log);
    assert InOrder(s, id);
    assert |CallsOf(s.log, id)| == job + 1;
    hide Safe, InOrder, ReadyToCall, CallsOf, Finalized;
    forall i ensures InOrder(s1, i) {
      ReplyIsInOrder(s, id, job, status, i);
    }
    ReplyIsInOrder(s, id, job, status, id);
  }

  /** When no cycle is in flight, a new one may call the first job. */
  lemma FirstCallIsDue(s: State)
    requires Safe(s) && AllInOrder(s) && !s.cycleRunning
    ensures MayCall(s.(cycleRunning := true, nextCycle := s.nextCycle + 1), APPLY_ROSTER_LOCKS, Some(s.nextCycle))
  {
    var s' := s.(cycleRunning := true, nextCycle := s.nextCycle + 1);
    assert InOrder(s, s.nextCycle);
    assert ReadyToCall(s', s.nextCycle) by { hide InOrder, CallsOf; }
    forall id ensures InOrder(s', id) {
      assert InOrder(s, id);
    }
  }

  /** One cycle is in flight: the one there was, with nothing changed, or a new one calling the first job. */
  ghost predicate Begun(was: State, now: State) {
    && now.cycleRunning && |now.cycles| == 1
    && (was.cycleRunning ==> now == was)
    && (!was.cycleRunning ==> now.cycles.Keys == {was.nextCycle} && Answered(was, now, APPLY_ROSTER_LOCKS, None))
  }

  lemma OneCycle(s: State)
    requires FlagsTell(s)
    ensures s.cycleRunning ==> |s.cycles| == 1
  {
    if s.cycleRunning {
      var id :| id in s.cycles;
      assert s.cycles.Keys == {id};
    }
  }

  lemma TickBegins(s: State)
    requires Safe(s)
    ensures Begun(s, CallCycle(s))
  {
    OneCycle(s);
    if !s.cycleRunning {
      assert s.cycles == map[] && s.nextExecution !in s.executions;
      hide Safe;
      assert CallCycle(s).cycles.Keys == {s.nextCycle};
    }
  }

  lemma TickingKeepsOrder(s: State)
    requires Safe(s) && AllInOrder(s)
    ensures Safe(CallCycle(s)) && AllInOrder(CallCycle(s)) && Begun(s, CallCycle(s))
  {
    hide Safe, InOrder, CallCycle, Begun;
    TickIsSafe(s);
    forall id ensures InOrder(CallCycle(s), id) {
      TickIsInOrder(s, id);
    }
    TickBegins(s);
  }

  lemma ResumptionGoesOn(s: State, id: nat, loggerThrows: bool)
    requires Safe(s) && id in s.cycles && s.cycles[id].pending.Some?
    ensures WentOn(s, Resume(s, id, loggerThrows), id, loggerThrows)
  {
    assert forall i :: i in s.cycles ==> i == id;
    assert s.nextExecution !in s.executions && s.cycles[id].job <= ROLLOVER_WEEK;
    hide Safe, StatusOf;
  }

  lemma ResumingKeepsOrder(s: State, id: nat, loggerThrows: bool)
    requires Safe(s) && AllInOrder(s) && id in s.cycles && s.cycles[id].pending.Some?
    ensures Safe(Resume(s, id, loggerThrows)) && AllInOrder(Resume(s, id, loggerThrows))
    ensures WentOn(s, Resume(s, id, loggerThrows), id, loggerThrows)
  {
    hide Safe, InOrder, Resume, WentOn;
    ResumeIsSafe(s, id, loggerThrows);
    forall i ensures InOrder(Resume(s, id, loggerThrows), i) {
      ResumeIsInOrder(s, id, loggerThrows, i);
    }
    ResumptionGoesOn(s, id, loggerThrows);
  }

  /** The scheduler with its four runners; each method runs up to the next await. */
  class Scheduler {
    var cycleRunning: bool
    var running: set<nat>
    var cycles: map<nat, Cycle>
    var executions: map<nat, Execution>
    var nextCycle: nat
    var nextExecution: nat
    ghost var log: seq<Entry>

    ghost function State(): State
      reads this
    {
      Jobs.State(cycleRunning, running, cycles, executions, nextCycle, nextExecution, log)
    }

    /** What holds at every await: the flags tell what is in flight, and every cycle is in order. */
    ghost predicate Valid()
      reads this
    {
      Safe(State()) && AllInOrder(State())
    }

    /** `startMatchupScheduler`: nothing is in flight, and the first cycle starts at once. */
    constructor ()
      ensures Valid() && cycleRunning && running == {APPLY_ROSTER_LOCKS}
      ensures State() == Step(Initial(), Tick)
    {
      cycleRunning, running, cycles, executions := false, {}, map[], map[];
      nextCycle, nextExecution, log := 0, 0, [];
      new;
      assert Valid();
      RunCycle();
    }

    /** A runner's `run` up to its await. */
    method RunJob(job: nat, owner: Option<nat>)
      requires MayCall(State(), job, owner)
      modifies this
      ensures State() == CallRun(old(State()), job, owner)
      ensures Valid() && Answered(old(State()), State(), job, owner)
    {
      hide Safe, AllInOrder, MayCall, Answered;
      CallKeepsOrder(State(), job, owner);
      log := log + [Called(owner, job)];
      if job in running {
        if owner.Some? { cycles := cycles[owner.value := Cycle(job, Some(Resolved(Skipped)))]; }
      } else {
        running := running + {job};
        executions := executions[nextExecution := Execution(job, owner)];
        nextExecution := nextExecution + 1;
        if owner.Some? { cycles := cycles[owner.value := Cycle(job, None)]; }
      }
    }

    /** A runner after its await: `finally` clears the flag however the execution ended. */
    method FinishJob(execution: nat, ending: Ending)
      requires Valid() && execution in executions
      modifies this
      ensures State() == Settle(old(State()), execution, ending)
      ensures Valid() && Over(old(State()), State(), execution, ending)
    {
      hide Safe, AllInOrder, Over;
      SettlingKeepsOrder(State(), execution, ending);
      var e := executions[execution];
      running := running - {e.job};
      executions := executions - {execution};
      if e.owner.Some? { cycles := cycles[e.owner.value := Cycle(e.job, Some(ReplyTo(ending)))]; }
    }

    /** `runCycle` up to its first await. */
    method RunCycle()
      requires Valid()
      modifies this
      ensures State() == CallCycle(old(State()))
      ensures Valid() && Begun(old(State()), State())
    {
      hide Safe, AllInOrder, MayCall, Answered, Begun, CallRun;
      TickingKeepsOrder(State());
      if !cycleRunning {
        FirstCallIsDue(State());
        ghost var due := State().(cycleRunning := true, nextCycle := nextCycle + 1);
        cycleRunning := true;
        nextCycle := nextCycle + 1;
        assert State() == due;
        RunJob(APPLY_ROSTER_LOCKS, Some(nextCycle - 1));
      }
    }

    /** The way out of a cycle: `finally` clears the flag. */
    method FinishCycle(id: nat, result: CycleResult)
      requires ReadyToCall(State(), id) && AllInOrder(State())
      modifies this
      ensures State() == EndCycle(old(State()), id, result)
      ensures Valid() && CycleOver(old(State()), State())
    {
      hide Safe, AllInOrder, ReadyToCall, CycleOver;
      EndingKeepsOrder(State(), id, result);
      cycleRunning := false;
      cycles := cycles - {id};
      log := log + [Ended(id, result)];
    }

    /** `runCycle` from one await to the next, or to its end. */
    method ResumeCycle(id: nat, loggerThrows: bool)
      requires Valid() && id in cycles && cycles[id].pending.Some?
      modifies this
      ensures State() == Resume(old(State()), id, loggerThrows)
      ensures Valid() && WentOn(old(State()), State(), id, loggerThrows)
    {
      hide Safe, AllInOrder, ReadyToCall, MayCall, WentOn, Answered, CycleOver, CallRun, EndCycle;
      ResumingKeepsOrder(State(), id, loggerThrows);
      RepliedIsReady(State(), id, log);
      var c := cycles[id];
      if c.pending.value.Rejected? && loggerThrows {
        FinishCycle(id, CycleThrew);
      } else {
        var status := StatusOf(c.pending.value);
        NotedMayGoOn(State(), id, status);
        log := log + [Replied(id, c.job, status)];
        if c.job < FINALIZE_RESULTS {
          RunJob(c.job + 1, Some(id));
        } else if c.job == FINALIZE_RESULTS {
          if status == Failed { FinishCycle(id, CycleFailed); } else { RunJob(ROLLOVER_WEEK, Some(id)); }
        } else {
          FinishCycle(id, if status == Failed then CycleFailed else CycleSucceeded);
        }
      }
    }
  }
}
