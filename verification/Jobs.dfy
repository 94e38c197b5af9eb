/** The scheduler's cycle and the job runners, as a system of steps between awaits. */
module Jobs {
  import opened Collections

  /** Jobs by their place in the order of a cycle. */
  const APPLY_ROSTER_LOCKS: nat := 0
  const CAPTURE_BASELINE: nat := 1
  const FINALIZE_RESULTS: nat := 2
  const ROLLOVER_WEEK: nat := 3

  datatype JobStatus = Failed | Skipped | Succeeded

  /** How an execution ends: with a result whose status may not be a known one, or with an error. */
  datatype Ending = Returned(status: Option<JobStatus>) | Threw(loggerThrows: bool)

  /** What a runner's promise settles with. It is rejected only when its own logger throws. */
  datatype Reply = Resolved(status: JobStatus) | Rejected

  /** A cycle awaiting the reply of one job; `pending` is the reply once it is there. */
  datatype Cycle = Cycle(job: nat, pending: Option<Reply>)

  /** An execution in flight, called by a cycle or from elsewhere. */
  datatype Execution = Execution(job: nat, owner: Option<nat>)

  datatype CycleResult = CycleFailed | CycleSucceeded | CycleThrew

  datatype Entry =
    | Called(owner: Option<nat>, job: nat)
    | Replied(cycle: nat, job: nat, status: JobStatus)
    | Ended(cycle: nat, result: CycleResult)

  /** The flags, what is in flight, and a log of what has happened. Cycles and executions are numbered. */
  datatype State = State(cycleRunning: bool, running: set<nat>, cycles: map<nat, Cycle>,
                         executions: map<nat, Execution>, nextCycle: nat, nextExecution: nat, log: seq<Entry>)

  function Initial(): State {
    State(false, {}, map[], map[], 0, 0, [])
  }

  /** A runner is called: it starts an execution, or answers at once that one is in flight. */
  function CallRun(s: State, job: nat, owner: Option<nat>): State {
    var s1 := s.(log := s.log + [Called(owner, job)]);
    if job in s.running then
      match owner
      case None => s1
      case Some(id) => s1.(cycles := s.cycles[id := Cycle(job, Some(Resolved(Skipped)))])
    else
      var s2 := s1.(running := s.running + {job},
                    executions := s.executions[s.nextExecution := Execution(job, owner)],
                    nextExecution := s.nextExecution + 1);
      match owner
      case None => s2
      case Some(id) => s2.(cycles := s.cycles[id := Cycle(job, None)])
  }

  function ReplyTo(ending: Ending): Reply {
    match ending
    case Returned(Some(status)) => Resolved(status)
    case Returned(None) => Resolved(Succeeded)
    case Threw(loggerThrows) => if loggerThrows then Rejected else Resolved(Failed)
  }

  /** An execution ends, normally or not; the runner's flag is cleared and its caller gets the reply. */
  function Settle(s: State, execution: nat, ending: Ending): State
    requires execution in s.executions
  {
    var e := s.executions[execution];
    var s1 := s.(running := s.running - {e.job}, executions := s.executions - {execution});
    match e.owner
    case None => s1
    case Some(id) => s1.(cycles := s.cycles[id := Cycle(e.job, Some(ReplyTo(ending)))])
  }

  function CallCycle(s: State): State {
    if s.cycleRunning then s
    else
      CallRun(s.(cycleRunning := true, nextCycle := s.nextCycle + 1), APPLY_ROSTER_LOCKS, Some(s.nextCycle))
  }

  function EndCycle(s: State, id: nat, result: CycleResult): State {
    s.(cycleRunning := false, cycles := s.cycles - {id}, log := s.log + [Ended(id, result)])
  }

  function StatusOf(reply: Reply): JobStatus {
    match reply
    case Resolved(status) => status
    case Rejected => Failed
  }

  function Noted(s: State, id: nat, job: nat, status: JobStatus): State {
    s.(log := s.log + [Replied(id, job, status)])
  }

  /** What a cycle does once a job has been answered: the next job, or the end. */
  function Proceed(s: State, id: nat, job: nat, status: JobStatus): State {
    if job < FINALIZE_RESULTS then CallRun(s, job + 1, Some(id))
    else if job == FINALIZE_RESULTS then
      if status == Failed then EndCycle(s, id, CycleFailed) else CallRun(s, ROLLOVER_WEEK, Some(id))
    else EndCycle(s, id, if status == Failed then CycleFailed else CycleSucceeded)
  }

  /** A cycle goes on with the reply it awaited; a rejected one is logged, and the logger may throw. */
  function Resume(s: State, id: nat, loggerThrows: bool): State
    requires id in s.cycles && s.cycles[id].pending.Some?
  {
    var c := s.cycles[id];
    if c.pending.value.Rejected? && loggerThrows then EndCycle(s, id, CycleThrew)
    else
      var status := StatusOf(c.pending.value);
      Proceed(Noted(s, id, c.job, status), id, c.job, status)
  }

  /** Ticks and calls come at any time; executions end and awaits resume in any order. */
  datatype Event =
    | Tick
    | OutsideCall(job: nat)
    | ExecutionEnds(execution: nat, ending: Ending)
    | AwaitResumes(cycle: nat, loggerThrows: bool)

  predicate Enabled(s: State, e: Event) {
    match e
    case Tick => true
    case OutsideCall(job) => job <= ROLLOVER_WEEK
    case ExecutionEnds(execution, _) => execution in s.executions
    case AwaitResumes(id, _) => id in s.cycles && s.cycles[id].pending.Some?
  }

  function Step(s: State, e: Event): State
    requires Enabled(s, e)
  {
    match e
    case Tick => CallCycle(s)
    case OutsideCall(job) => CallRun(s, job, None)
    case ExecutionEnds(execution, ending) => Settle(s, execution, ending)
    case AwaitResumes(id, loggerThrows) => Resume(s, id, loggerThrows)
  }

  /** The state after a run; events that are not enabled do not happen. */
  function Run(events: seq<Event>): State {
    if events == [] then Initial()
    else
      var s := Run(events[..|events| - 1]);
      var e := events[|events| - 1];
      if Enabled(s, e) then Step(s, e) else s
  }

  // ---------- what every interleaving keeps ----------

  /** At most one cycle and at most one execution of each job are in flight, and the flags say so. */
  ghost predicate FlagsTell(s: State) {
    && (s.cycleRunning <==> s.cycles != map[])
    && (forall i, j :: i in s.cycles && j in s.cycles ==> i == j)
    && (forall job :: job in s.running <==> exists x :: x in s.executions && s.executions[x].job == job)
    && (forall x, y :: x in s.executions && y in s.executions && s.executions[x].job == s.executions[y].job ==> x == y)
  }

  /** A cycle that awaits a reply has its execution in flight, and no execution is owned by anything else. */
  ghost predicate RepliesWillCome(s: State) {
    && (forall x :: x in s.executions && s.executions[x].owner.Some? ==>
                      var id := s.executions[x].owner.value;
                      id in s.cycles && s.cycles[id] == Cycle(s.executions[x].job, None))
    && (forall id :: id in s.cycles && s.cycles[id].pending.None? ==>
                       exists x :: x in s.executions && s.executions[x] == Execution(s.cycles[id].job, Some(id)))
  }

  ghost predicate Numbered(s: State) {
    && (forall id :: id in s.cycles ==> id < s.nextCycle && s.cycles[id].job <= ROLLOVER_WEEK)
    && (forall x :: x in s.executions ==> x < s.nextExecution && s.executions[x].job <= ROLLOVER_WEEK)
  }

  ghost predicate Safe(s: State) {
    FlagsTell(s) && RepliesWillCome(s) && Numbered(s)
  }

  /** A cycle whose turn it is to call a job, with no execution of its own. */
  ghost predicate ReadyToCall(s: State, id: nat) {
    && Numbered(s) && s.cycleRunning && id < s.nextCycle
    && (forall i :: i in s.cycles ==> i == id)
    && (forall job :: job in s.running <==> exists x :: x in s.executions && s.executions[x].job == job)
    && (forall x, y :: x in s.executions && y in s.executions && s.executions[x].job == s.executions[y].job ==> x == y)
    && (forall x :: x in s.executions ==> s.executions[x].owner.None?)
  }

  lemma OwnCallIsSafe(s: State, job: nat, id: nat)
    requires ReadyToCall(s, id) && job <= ROLLOVER_WEEK
    ensures Safe(CallRun(s, job, Some(id)))
  {
    var s' := CallRun(s, job, Some(id));
    assert id in s'.cycles;
    if job !in s.running {
      assert s'.executions[s.nextExecution] == Execution(job, Some(id));
      forall j ensures j in s'.running <==> exists x :: x in s'.executions && s'.executions[x].job == j {
        if j in s.running {
          var x :| x in s.executions && s.executions[x].job == j;
          assert x in s'.executions && s'.executions[x].job == j;
        }
      }
    }
  }

  lemma OutsideCallIsSafe(s: State, job: nat)
    requires Safe(s) && job <= ROLLOVER_WEEK
    ensures Safe(CallRun(s, job, None))
  {
    var s' := CallRun(s, job, None);
    if job !in s.running {
      forall j ensures j in s'.running <==> exists x :: x in s'.executions && s'.executions[x].job == j {
        if j in s.running {
          var x :| x in s.executions && s.executions[x].job == j;
          assert x in s'.executions && s'.executions[x].job == j;
        }
        if j == job { assert s'.executions[s.nextExecution].job == job; }
      }
      forall id | id in s'.cycles && s'.cycles[id].pending.None?
        ensures exists x :: x in s'.executions && s'.executions[x] == Execution(s'.cycles[id].job, Some(id))
      {
        var x :| x in s.executions && s.executions[x] == Execution(s.cycles[id].job, Some(id));
        assert x in s'.executions && s'.executions[x] == s.executions[x];
      }
    }
  }

  lemma SettleIsSafe(s: State, execution: nat, ending: Ending)
    requires Safe(s) && execution in s.executions
    ensures Safe(Settle(s, execution, ending))
  {
    var s' := Settle(s, execution, ending);
    forall j ensures j in s'.running <==> exists x :: x in s'.executions && s'.executions[x].job == j {
      if j in s'.running {
        var x :| x in s.executions && s.executions[x].job == j;
        assert x in s'.executions && s'.executions[x].job == j;
      }
    }
    forall id | id in s'.cycles && s'.cycles[id].pending.None?
      ensures exists x :: x in s'.executions && s'.executions[x] == Execution(s'.cycles[id].job, Some(id))
    {
      var x :| x in s.executions && s.executions[x] == Execution(s.cycles[id].job, Some(id));
      assert x in s'.executions && s'.executions[x] == s.executions[x];
    }
  }

  lemma RepliedIsReady(s: State, id: nat, log: seq<Entry>)
    requires Safe(s) && id in s.cycles && s.cycles[id].pending.Some?
    ensures ReadyToCall(s.(log := log), id)
  {
  }

  lemma EndIsSafe(s: State, id: nat, result: CycleResult)
    requires ReadyToCall(s, id)
    ensures Safe(EndCycle(s, id, result))
  {
  }

  lemma ProceedIsSafe(s: State, id: nat, job: nat, status: JobStatus)
    requires ReadyToCall(s, id) && job <= ROLLOVER_WEEK
    ensures Safe(Proceed(s, id, job, status))
  {
    hide Safe, ReadyToCall, CallRun, EndCycle;
    if job < FINALIZE_RESULTS || (job == FINALIZE_RESULTS && status != Failed) {
      OwnCallIsSafe(s, job + 1, id);
    } else {
      EndIsSafe(s, id, if status == Failed then CycleFailed else CycleSucceeded);
    }
  }

  lemma ResumeIsSafe(s: State, id: nat, loggerThrows: bool)
    requires Safe(s) && id in s.cycles && s.cycles[id].pending.Some?
    ensures Safe(Resume(s, id, loggerThrows))
  {
    var c := s.cycles[id];
    assert c.job <= ROLLOVER_WEEK && s.(log := s.log) == s;
    hide Safe, ReadyToCall, Proceed, EndCycle, StatusOf;
    if c.pending.value.Rejected? && loggerThrows {
      RepliedIsReady(s, id, s.log);
      EndIsSafe(s, id, CycleThrew);
    } else {
      var status := StatusOf(c.pending.value);
      RepliedIsReady(s, id, s.log + [Replied(id, c.job, status)]);
      ProceedIsSafe(Noted(s, id, c.job, status), id, c.job, status);
    }
  }

  lemma TickIsSafe(s: State)
    requires Safe(s)
    ensures Safe(CallCycle(s))
  {
    if !s.cycleRunning {
      OwnCallIsSafe(s.(cycleRunning := true, nextCycle := s.nextCycle + 1), APPLY_ROSTER_LOCKS, s.nextCycle);
    }
  }

  /** Whatever the interleaving of ticks, outside calls, endings and resumed awaits. */
  lemma {:induction false} EveryRunIsSafe(events: seq<Event>)
    ensures Safe(Run(events))
  {
    if events != [] {
      var s, e := Run(events[..|events| - 1]), events[|events| - 1];
      EveryRunIsSafe(events[..|events| - 1]);
      if Enabled(s, e) {
        match e
        case Tick => TickIsSafe(s);
        case OutsideCall(job) => OutsideCallIsSafe(s, job);
        case ExecutionEnds(execution, ending) => SettleIsSafe(s, execution, ending);
        case AwaitResumes(id, loggerThrows) => ResumeIsSafe(s, id, loggerThrows);
      }
    }
  }

  /** When nothing is in flight no flag is set, however everything ended. */
  lemma QuietMeansClear(events: seq<Event>)
    ensures Run(events).cycles == map[] && Run(events).executions == map[] ==>
              !Run(events).cycleRunning && Run(events).running == {}
  {
    EveryRunIsSafe(events);
    var s := Run(events);
    if s.executions == map[] {
      forall job ensures job !in s.running {
      }
    }
  }

  /** No cycle is ever stuck: its reply is there and its await can resume, or its execution is in flight and can end. */
  lemma CyclesCanProceed(events: seq<Event>, id: nat) returns (x: nat)
    requires id in Run(events).cycles
    ensures Enabled(Run(events), AwaitResumes(id, false))
            || (x in Run(events).executions && Run(events).executions[x].owner == Some(id))
  {
    EveryRunIsSafe(events);
    var s := Run(events);
    if s.cycles[id].pending.None? {
      x :| x in s.executions && s.executions[x] == Execution(s.cycles[id].job, Some(id));
    } else {
      x := 0;
    }
  }

  // ---------- the order of a cycle ----------

  /** The jobs a cycle has called, in order. */
  function CallsOf(log: seq<Entry>, id: nat): seq<nat> {
    if log == [] then []
    else
      var last := log[|log| - 1];
      CallsOf(log[..|log| - 1], id) + if last.Called? && last.owner == Some(id) then [last.job] else []
  }

  function FirstJobs(n: nat): seq<nat> {
    seq(n, i => i)
  }

  /** Finalization was answered, and not with a failure. */
  ghost predicate Finalized(log: seq<Entry>, id: nat) {
    exists i :: 0 <= i < |log| && log[i].Replied? && log[i].cycle == id && log[i].job == FINALIZE_RESULTS
                && log[i].status != Failed
  }

  /** A cycle's calls are the first of the job order, up to its present job while it is in flight. */
  ghost predicate InOrder(s: State, id: nat) {
    var calls := CallsOf(s.log, id);
    && |calls| <= ROLLOVER_WEEK + 1 && calls == FirstJobs(|calls|)
    && (|calls| == ROLLOVER_WEEK + 1 ==> Finalized(s.log, id))
    && (id in s.cycles ==> |calls| == s.cycles[id].job + 1)
    && (id >= s.nextCycle ==> calls == [] && id !in s.cycles)
  }

  lemma LogAppend(log: seq<Entry>, entry: Entry, id: nat)
    ensures CallsOf(log + [entry], id) ==
            CallsOf(log, id) + if entry.Called? && entry.owner == Some(id) then [entry.job] else []
    ensures Finalized(log, id) ==> Finalized(log + [entry], id)
    ensures entry.Replied? && entry.cycle == id && entry.job == FINALIZE_RESULTS && entry.status != Failed ==>
              Finalized(log + [entry], id)
  {
  }

  lemma FirstJobsNext(n: nat)
    ensures FirstJobs(n) + [n] == FirstJobs(n + 1)
  {
  }

  lemma CallIsInOrder(s: State, job: nat, owner: Option<nat>, id: nat)
    requires InOrder(s, id)
    requires owner == Some(id) ==>
               id < s.nextCycle && job <= ROLLOVER_WEEK && |CallsOf(s.log, id)| == job
               && (job == ROLLOVER_WEEK ==> Finalized(s.log, id))
    ensures InOrder(CallRun(s, job, owner), id)
  {
    LogAppend(s.log, Called(owner, job), id);
    FirstJobsNext(job);
    hide CallsOf, FirstJobs, Finalized;
  }

  lemma EndIsInOrder(s: State, ended: nat, result: CycleResult, id: nat)
    requires InOrder(s, id)
    ensures InOrder(EndCycle(s, ended, result), id)
  {
  }

  lemma ReplyIsInOrder(s: State, cycle: nat, job: nat, status: JobStatus, id: nat)
    requires InOrder(s, id)
    ensures
      var s1 := Noted(s, cycle, job, status);
      && InOrder(s1, id) && CallsOf(s1.log, id) == CallsOf(s.log, id) && s1.nextCycle == s.nextCycle
      && (cycle == id && job == FINALIZE_RESULTS && status != Failed ==> Finalized(s1.log, id))
  {
  }

  lemma ProceedIsInOrder(s: State, cycle: nat, job: nat, status: JobStatus, id: nat)
    requires InOrder(s, id) && job <= ROLLOVER_WEEK && cycle < s.nextCycle
    requires cycle == id ==> |CallsOf(s.log, id)| == job + 1
                             && (job == FINALIZE_RESULTS && status != Failed ==> Finalized(s.log, id))
    ensures InOrder(Proceed(s, cycle, job, status), id)
  {
    hide InOrder, CallRun, EndCycle, CallsOf, Finalized;
    if job < FINALIZE_RESULTS || (job == FINALIZE_RESULTS && status != Failed) {
      CallIsInOrder(s, job + 1, Some(cycle), id);
    } else {
      EndIsInOrder(s, cycle, if status == Failed then CycleFailed else CycleSucceeded, id);
    }
  }

  lemma ResumeIsInOrder(s: State, cycle: nat, loggerThrows: bool, id: nat)
    requires Safe(s) && InOrder(s, id) && cycle in s.cycles && s.cycles[cycle].pending.Some?
    ensures InOrder(Resume(s, cycle, loggerThrows), id)
  {
    var c := s.cycles[cycle];
    assert cycle < s.nextCycle && c.job <= ROLLOVER_WEEK && (id == cycle ==> |CallsOf(s.log, id)| == c.job + 1);
    hide Safe, InOrder, Proceed, EndCycle, CallsOf, Finalized, StatusOf, Noted;
    if c.pending.value.Rejected? && loggerThrows {
      EndIsInOrder(s, cycle, CycleThrew, id);
    } else {
      var status := StatusOf(c.pending.value);
      ReplyIsInOrder(s, cycle, c.job, status, id);
      ProceedIsInOrder(Noted(s, cycle, c.job, status), cycle, c.job, status, id);
    }
  }

  lemma SettleIsInOrder(s: State, execution: nat, ending: Ending, id: nat)
    requires Safe(s) && InOrder(s, id) && execution in s.executions
    ensures InOrder(Settle(s, execution, ending), id)
  {
  }

  lemma TickIsInOrder(s: State, id: nat)
    requires Safe(s) && InOrder(s, id)
    ensures InOrder(CallCycle(s), id)
  {
    if !s.cycleRunning {
      CallIsInOrder(s.(cycleRunning := true, nextCycle := s.nextCycle + 1), APPLY_ROSTER_LOCKS, Some(s.nextCycle), id);
    }
  }

  /**
   * Whatever the interleaving, each cycle's calls are a prefix of the job order, and a cycle has
   * called the rollover only after its own finalization was answered with something else than
   * a failure.
   */
  lemma {:induction false} EveryCycleIsInOrder(events: seq<Event>, id: nat)
    ensures InOrder(Run(events), id)
  {
    if events != [] {
      var s, e := Run(events[..|events| - 1]), events[|events| - 1];
      EveryCycleIsInOrder(events[..|events| - 1], id);
      EveryRunIsSafe(events[..|events| - 1]);
      hide InOrder, Safe;
      if Enabled(s, e) {
        match e
        case Tick => TickIsInOrder(s, id);
        case OutsideCall(job) => CallIsInOrder(s, job, None, id);
        case ExecutionEnds(execution, ending) => SettleIsInOrder(s, execution, ending, id);
        case AwaitResumes(cycle, loggerThrows) => ResumeIsInOrder(s, cycle, loggerThrows, id);
      }
    }
  }

  /** Roster locks, then the baseline, then the results, then the rollover. */
  lemma CallsFollowTheOrder(events: seq<Event>, id: nat)
    ensures CallsOf(Run(events).log, id)
            <= [APPLY_ROSTER_LOCKS, CAPTURE_BASELINE, FINALIZE_RESULTS, ROLLOVER_WEEK]
  {
    EveryCycleIsInOrder(events, id);
    hide Run, CallsOf;
  }

  // ---------- how a cycle ends ----------

  /** The cycle was told this about a job. */
  ghost predicate WasTold(log: seq<Entry>, id: nat, job: nat, failed: bool) {
    exists i :: 0 <= i < |log| && log[i].Replied? && log[i].cycle == id && log[i].job == job
                && (log[i].status == Failed <==> failed)
  }

  /**
   * A cycle is said to have succeeded only once its rollover was answered without failure, and to
   * have failed only once its finalization or its rollover was answered with one.
   */
  ghost predicate EndsAreEarned(log: seq<Entry>) {
    forall e :: e in log && e.Ended? ==>
                  && (e.result == CycleSucceeded ==> WasTold(log, e.cycle, ROLLOVER_WEEK, false))
                  && (e.result == CycleFailed ==>
                        || WasTold(log, e.cycle, FINALIZE_RESULTS, true)
                        || WasTold(log, e.cycle, ROLLOVER_WEEK, true))
  }

  lemma ToldBefore(log: seq<Entry>, entry: Entry)
    ensures forall id, job, failed :: WasTold(log, id, job, failed) ==> WasTold(log + [entry], id, job, failed)
    ensures entry.Replied? ==> WasTold(log + [entry], entry.cycle, entry.job, entry.status == Failed)
  {
    forall id, job, failed | WasTold(log, id, job, failed) ensures WasTold(log + [entry], id, job, failed) {
      var i :| 0 <= i < |log| && log[i].Replied? && log[i].cycle == id && log[i].job == job
               && (log[i].status == Failed <==> failed);
      assert (log + [entry])[i] == log[i];
    }
    if entry.Replied? { assert (log + [entry])[|log|] == entry; }
  }

  lemma MoreEarned(log: seq<Entry>, entry: Entry)
    requires EndsAreEarned(log)
    requires entry.Ended? ==>
               && (entry.result == CycleSucceeded ==> WasTold(log, entry.cycle, ROLLOVER_WEEK, false))
               && (entry.result == CycleFailed ==>
                     || WasTold(log, entry.cycle, FINALIZE_RESULTS, true)
                     || WasTold(log, entry.cycle, ROLLOVER_WEEK, true))
    ensures EndsAreEarned(log + [entry])
  {
    ToldBefore(log, entry);
    hide WasTold;
  }

  lemma ProceedEarns(s: State, id: nat, job: nat, status: JobStatus)
    requires EndsAreEarned(s.log) && job <= ROLLOVER_WEEK && WasTold(s.log, id, job, status == Failed)
    ensures EndsAreEarned(Proceed(s, id, job, status).log)
  {
    hide EndsAreEarned, WasTold;
    MoreEarned(s.log, Called(Some(id), job + 1));
    if job == FINALIZE_RESULTS && status == Failed {
      MoreEarned(s.log, Ended(id, CycleFailed));
    } else if job == ROLLOVER_WEEK {
      MoreEarned(s.log, Ended(id, if status == Failed then CycleFailed else CycleSucceeded));
    }
  }

  lemma ResumeEarns(s: State, id: nat, loggerThrows: bool)
    requires Safe(s) && EndsAreEarned(s.log) && id in s.cycles && s.cycles[id].pending.Some?
    ensures EndsAreEarned(Resume(s, id, loggerThrows).log)
  {
    var c := s.cycles[id];
    assert c.job <= ROLLOVER_WEEK;
    var status := StatusOf(c.pending.value);
    hide Safe, EndsAreEarned, WasTold, Proceed, StatusOf;
    if c.pending.value.Rejected? && loggerThrows {
      MoreEarned(s.log, Ended(id, CycleThrew));
    } else {
      MoreEarned(s.log, Replied(id, c.job, status));
      ToldBefore(s.log, Replied(id, c.job, status));
      ProceedEarns(Noted(s, id, c.job, status), id, c.job, status);
    }
  }

  /** Over every run the ends of cycles say what their finalizations and rollovers were answered. */
  lemma {:induction false} EveryEndIsEarned(events: seq<Event>)
    ensures EndsAreEarned(Run(events).log)
  {
    if events != [] {
      var s, e := Run(events[..|events| - 1]), events[|events| - 1];
      EveryEndIsEarned(events[..|events| - 1]);
      EveryRunIsSafe(events[..|events| - 1]);
      hide EndsAreEarned, Safe;
      if Enabled(s, e) {
        match e
        case Tick => MoreEarned(s.log, Called(Some(s.nextCycle), APPLY_ROSTER_LOCKS));
        case OutsideCall(job) => MoreEarned(s.log, Called(None, job));
        case ExecutionEnds(_, _) =>
        case AwaitResumes(id, loggerThrows) => ResumeEarns(s, id, loggerThrows);
      }
    }
  }

  // ---------- finalization beside a rollover ----------

  /** No finalization is in flight beside the rollover of a cycle. */
  ghost predicate FinalizationExcludesRollover(s: State) {
    forall x, y | x in s.executions && y in s.executions ::
      s.executions[x].job == FINALIZE_RESULTS && s.executions[y].job == ROLLOVER_WEEK ==> s.executions[y].owner.None?
  }

  /** Whoever calls runners besides the scheduler calls these jobs only. */
  predicate OutsideCallsAreOf(events: seq<Event>, jobs: set<nat>) {
    forall e | e in events :: e.OutsideCall? ==> e.job in jobs
  }

  /** A finalization in flight beside a cycle's rollover was never called by a cycle. */
  lemma FinalizationBesideRolloverIsForeign(events: seq<Event>, x: nat, y: nat)
    requires x in Run(events).executions && Run(events).executions[x].job == FINALIZE_RESULTS
    requires y in Run(events).executions && Run(events).executions[y].job == ROLLOVER_WEEK
    requires Run(events).executions[y].owner.Some?
    ensures Run(events).executions[x].owner.None?
  {
    EveryRunIsSafe(events);
  }

  /** All finalizations in flight were called by cycles. */
  ghost predicate FinalizationsAreOwned(s: State) {
    forall x :: x in s.executions && s.executions[x].job == FINALIZE_RESULTS ==> s.executions[x].owner.Some?
  }

  lemma StepKeepsFinalizationsOwned(s: State, e: Event)
    requires FinalizationsAreOwned(s) && Enabled(s, e)
    requires e.OutsideCall? ==> e.job != FINALIZE_RESULTS
    ensures FinalizationsAreOwned(Step(s, e))
  {
  }

  lemma {:induction false} FinalizationsStayOwned(events: seq<Event>, jobs: set<nat>)
    requires OutsideCallsAreOf(events, jobs) && FINALIZE_RESULTS !in jobs
    ensures FinalizationsAreOwned(Run(events))
  {
    if events != [] {
      var before, e := events[..|events| - 1], events[|events| - 1];
      FinalizationsStayOwned(before, jobs);
      if Enabled(Run(before), e) {
        assert e in events;
        StepKeepsFinalizationsOwned(Run(before), e);
      }
    }
  }

  lemma NothingRun()
    ensures Run([]) == Initial()
  {
  }

  lemma RunStep(events: seq<Event>, e: Event)
    ensures Run(events + [e]) == if Enabled(Run(events), e) then Step(Run(events), e) else Run(events)
  {
  }

  /**
   * The guarantee is about the cycle's own answer: a finalization skipped because another caller's
   * is in flight is no failure, so the rollover may start beside that other finalization.
   */
  lemma RolloverMayStartBesideFinalization() returns (events: seq<Event>)
    ensures OutsideCallsAreOf(events, {FINALIZE_RESULTS})
    ensures
      var s := Run(events);
      && (exists x :: x in s.executions && s.executions[x] == Execution(FINALIZE_RESULTS, None))
      && (exists x :: x in s.executions && s.executions[x] == Execution(ROLLOVER_WEEK, Some(0)))
  {
    var ok := Returned(Some(Succeeded));
    var e0, e1 := OutsideCall(FINALIZE_RESULTS), Tick;
    var e2, e3 := ExecutionEnds(1, ok), AwaitResumes(0, false);
    var e4, e5, e6 := ExecutionEnds(2, ok), AwaitResumes(0, false), AwaitResumes(0, false);
    var other := Execution(FINALIZE_RESULTS, None);
    var r1 := [] + [e0];
    var r2 := r1 + [e1];
    var r3 := r2 + [e2];
    var r4 := r3 + [e3];
    var r5 := r4 + [e4];
    var r6 := r5 + [e5];
    events := r6 + [e6];
    hide Run;
    RunStep([], e0);
    assert Run([]) == Initial() by { NothingRun(); }
    assert Run(r1).executions == map[0 := other] && Run(r1).running == {FINALIZE_RESULTS};
    RunStep(r1, e1);
    assert Run(r2).executions == map[0 := other, 1 := Execution(APPLY_ROSTER_LOCKS, Some(0))];
    assert Run(r2).running == {FINALIZE_RESULTS, APPLY_ROSTER_LOCKS};
    RunStep(r2, e2);
    assert Run(r3).executions == map[0 := other] && Run(r3).running == {FINALIZE_RESULTS};
    RunStep(r3, e3);
    assert Run(r4).executions == map[0 := other, 2 := Execution(CAPTURE_BASELINE, Some(0))];
    assert Run(r4).running == {FINALIZE_RESULTS, CAPTURE_BASELINE};
    RunStep(r4, e4);
    assert Run(r5).executions == map[0 := other] && Run(r5).running == {FINALIZE_RESULTS};
    RunStep(r5, e5);
    assert Run(r6).executions == map[0 := other];
    assert Run(r6).cycles[0] == Cycle(FINALIZE_RESULTS, Some(Resolved(Skipped)));
    RunStep(r6, e6);
    assert Run(events).executions[0] == other && Run(events).executions[3] == Execution(ROLLOVER_WEEK, Some(0));
  }

  /**
   * The exclusion holds over all runs exactly when nobody but the scheduler may call the
   * finalization. The program hands its runners to the scheduler alone.
   */
  lemma FinalizationExcludesRolloverExactly(jobs: set<nat>)
    ensures (forall events :: OutsideCallsAreOf(events, jobs) ==> FinalizationExcludesRollover(Run(events)))
            <==> FINALIZE_RESULTS !in jobs
  {
    hide Run;
    if FINALIZE_RESULTS in jobs {
      var events := RolloverMayStartBesideFinalization();
      assert OutsideCallsAreOf(events, jobs) && !FinalizationExcludesRollover(Run(events));
    } else {
      forall events | OutsideCallsAreOf(events, jobs) ensures FinalizationExcludesRollover(Run(events)) {
        FinalizationsStayOwned(events, jobs);
        forall x, y | x in Run(events).executions && y in Run(events).executions
                      && Run(events).executions[x].job == FINALIZE_RESULTS
                      && Run(events).executions[y].job == ROLLOVER_WEEK
          ensures Run(events).executions[y].owner.None?
        {
          if Run(events).executions[y].owner.Some? { FinalizationBesideRolloverIsForeign(events, x, y); }
        }
      }
    }
  }
}
