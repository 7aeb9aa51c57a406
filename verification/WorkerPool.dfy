/**
 The fetch loop and job goroutines of worker.go as an interleaving of atomic steps.

 Each step is one access to shared memory: a channel operation on the semaphore, a store to or a
 delete from the activeJobs map, an add to or a load of activeCount, a load of the lifecycle state.
 handleServerState loads and then stores the lifecycle; here the two are one step.
 */
module WorkerPool {
  import opened Sequences
  import opened Wrappers

  /** Where a dispatched job is, in the order the code moves it. */
  datatype Phase = Acquired | Stored | Counted | Executing | Released | Deleted | Done {
    function Rank(): nat {
      match this
      case Acquired => 0
      case Stored => 1
      case Counted => 2
      case Executing => 3
      case Released => 4
      case Deleted => 5
      case Done => 6
    }
  }

  datatype Job = Job(id: string, phase: Phase)

  datatype WorkerState = Running | Quiet | Terminate

  /**
   The fetch loop's position. A request begun after cancellation is `doomed` to return an error.
   `pending` are fetched jobs not yet dispatched; in StoreNext and CountNext one more is in hand.
   */
  datatype Pc =
    | Top
    | ReadState
    | ReadCapacity
    | Ask
    | Fetching(count: int, doomed: bool)
    | Dispatch(pending: seq<string>)
    | StoreNext(pending: seq<string>)
    | CountNext(pending: seq<string>)
    | Waiting
    | Returned

  datatype State = State(
    concurrency: nat, pc: Pc, lifecycle: WorkerState, cancelled: bool,
    sem: int, activeJobs: set<string>, activeCount: int, jobs: seq<Job>)

  datatype Label =
    // the fetch loop
    | Loop | LoadState | LoadCapacity | BeginFetch | Reply(ids: seq<string>) | Wake(leave: bool)
    | Acquire | Store | Count
    // job number i
    | Begin(i: nat) | Release(i: nat) | Delete(i: nat) | Uncount(i: nat)
    // the caller of Start, the rest of Start, and the heartbeat loop
    | Cancel | StoreTerminate | Directive(desired: Option<WorkerState>)

  function Init(concurrency: nat): State {
    State(concurrency, Top, Running, false, 0, {}, 0, [])
  }

  /** A state directive from the server; None is any other text. */
  function HandleServerState(current: WorkerState, desired: Option<WorkerState>): WorkerState {
    match (current, desired)
    case (Running, Some(Quiet)) => Quiet
    case (Running, Some(Terminate)) => Terminate
    case (Quiet, Some(Terminate)) => Terminate
    case (Quiet, Some(Running)) => Running
    case (_, _) => current
  }

  predicate JobAt(s: State, i: nat, phase: Phase) {
    i < |s.jobs| && s.jobs[i].phase == phase
  }

  predicate Enabled(s: State, l: Label) {
    match l
    case Loop => s.pc.Top? || s.pc == Dispatch([])
    case LoadState => s.pc.ReadState?
    case LoadCapacity => s.pc.ReadCapacity?
    case BeginFetch => s.pc.Ask?
    case Reply(ids) => s.pc.Fetching? && (s.pc.doomed ==> ids == [])
    case Wake(leave) => s.pc.Waiting? && (leave ==> s.cancelled)
    case Acquire => s.pc.Dispatch? && s.pc.pending != [] && s.sem < s.concurrency
    case Store => s.pc.StoreNext? && s.jobs != []
    case Count => s.pc.CountNext? && s.jobs != []
    case Begin(i) => JobAt(s, i, Counted)
    case Release(i) => JobAt(s, i, Executing)
    case Delete(i) => JobAt(s, i, Released)
    case Uncount(i) => JobAt(s, i, Deleted)
    case Cancel => true
    case StoreTerminate => s.cancelled
    case Directive(_) => true
  }

  function Move(s: State, i: nat, phase: Phase): State
    requires i < |s.jobs|
  {
    s.(jobs := s.jobs[i := s.jobs[i].(phase := phase)])
  }

  function Next(s: State, l: Label): State
    requires Enabled(s, l)
  {
    match l
    case Loop =>
      if s.pc.Dispatch? then s.(pc := Top)
      else s.(pc := if s.cancelled then Returned else ReadState)
    case LoadState => s.(pc := if s.lifecycle.Running? then ReadCapacity else Waiting)
    case LoadCapacity => s.(pc := if s.activeCount >= s.concurrency then Waiting else Ask)
    case BeginFetch =>
      var count := s.concurrency - s.activeCount;
      s.(pc := Fetching(if count <= 0 then 1 else count, s.cancelled))
    case Reply(ids) => s.(pc := if ids == [] then Waiting else Dispatch(ids))
    case Wake(leave) => s.(pc := if leave then Returned else Top)
    case Acquire =>
      s.(pc := StoreNext(s.pc.pending[1..]), sem := s.sem + 1, jobs := s.jobs + [Job(s.pc.pending[0], Acquired)])
    case Store =>
      var i := |s.jobs| - 1;
      Move(s, i, Stored).(pc := CountNext(s.pc.pending), activeJobs := s.activeJobs + {s.jobs[i].id})
    case Count => Move(s, |s.jobs| - 1, Counted).(pc := Dispatch(s.pc.pending), activeCount := s.activeCount + 1)
    case Begin(i) => Move(s, i, Executing)
    case Release(i) => Move(s, i, Released).(sem := s.sem - 1)
    case Delete(i) => Move(s, i, Deleted).(activeJobs := s.activeJobs - {s.jobs[i].id})
    case Uncount(i) => Move(s, i, Done).(activeCount := s.activeCount - 1)
    case Cancel => s.(cancelled := true)
    case StoreTerminate => s.(lifecycle := Terminate)
    case Directive(desired) => s.(lifecycle := HandleServerState(s.lifecycle, desired))
  }

  /** The state after a trace of steps, if each step was enabled when it was taken. */
  function RunFrom(s: State, trace: seq<Label>): Option<State> {
    if trace == [] then Some(s)
    else
      var before := RunFrom(s, trace[..|trace| - 1]);
      if before.Some? && Enabled(before.value, trace[|trace| - 1])
      then Some(Next(before.value, trace[|trace| - 1]))
      else None
  }

  ghost predicate Reachable(s: State) {
    exists trace :: RunFrom(Init(s.concurrency), trace) == Some(s)
  }

  /** A schedule asks for steps; a step that is not enabled when it is asked for does not happen. */
  function Scheduled(s: State, schedule: seq<Label>): State {
    if schedule == [] then s
    else
      var before := Scheduled(s, schedule[..|schedule| - 1]);
      if Enabled(before, schedule[|schedule| - 1]) then Next(before, schedule[|schedule| - 1]) else before
  }

  /** The shared variables of a Worker, each step updating them in place. */
  class Worker {
    const concurrency: nat
    var pc: Pc
    var state: WorkerState
    var cancelled: bool
    var sem: int
    var activeJobs: set<string>
    var activeCount: int
    var jobs: seq<Job>
    /** The steps taken so far. */
    ghost var history: seq<Label>

    ghost predicate Valid()
      reads this
    {
      RunFrom(Init(concurrency), history) == Some(Snapshot())
    }

    function Snapshot(): State
      reads this
    {
      State(concurrency, pc, state, cancelled, sem, activeJobs, activeCount, jobs)
    }

    constructor (concurrency: nat)
      ensures Valid() && Snapshot() == Init(concurrency)
    {
      this.concurrency := concurrency;
      pc, state, cancelled := Top, Running, false;
      sem, activeJobs, activeCount, jobs, history := 0, {}, 0, [], [];
    }

    method SetPhase(i: nat, phase: Phase)
      requires i < |jobs|
      modifies this`jobs
      ensures Snapshot() == Move(old(Snapshot()), i, phase)
    {
      jobs := jobs[i := jobs[i].(phase := phase)];
    }

    method FetchLoopStep(l: Label)
      requires Enabled(Snapshot(), l)
      requires l.Loop? || l.LoadState? || l.LoadCapacity? || l.BeginFetch? || l.Reply? || l.Wake?
      modifies this`pc
      ensures Snapshot() == Next(old(Snapshot()), l)
    {
      match l
      case Loop =>
        if pc.Dispatch? {
          pc := Top;
        } else if cancelled {
          pc := Returned;
        } else {
          pc := ReadState;
        }
      case LoadState =>
        pc := if state == Running then ReadCapacity else Waiting;
      case LoadCapacity =>
        pc := if activeCount >= concurrency then Waiting else Ask;
      case BeginFetch =>
        var count := concurrency - activeCount;
        if count <= 0 {
          count := 1;
        }
        pc := Fetching(count, cancelled);
      case Reply(ids) =>
        pc := if |ids| == 0 then Waiting else Dispatch(ids);
      case Wake(leave) =>
        pc := if leave then Returned else Top;
    }

    method DispatchStep(l: Label)
      requires Enabled(Snapshot(), l)
      requires l.Acquire? || l.Store? || l.Count?
      modifies this`pc, this`sem, this`activeJobs, this`activeCount, this`jobs
      ensures Snapshot() == Next(old(Snapshot()), l)
    {
      match l
      case Acquire =>
        sem := sem + 1;
        jobs := jobs + [Job(pc.pending[0], Acquired)];
        pc := StoreNext(pc.pending[1..]);
      case Store =>
        activeJobs := activeJobs + {jobs[|jobs| - 1].id};
        SetPhase(|jobs| - 1, Stored);
        pc := CountNext(pc.pending);
      case Count =>
        activeCount := activeCount + 1;
        SetPhase(|jobs| - 1, Counted);
        pc := Dispatch(pc.pending);
    }

    method JobStep(l: Label)
      requires Enabled(Snapshot(), l)
      requires l.Begin? || l.Release? || l.Delete? || l.Uncount?
      modifies this`sem, this`activeJobs, this`activeCount, this`jobs
      ensures Snapshot() == Next(old(Snapshot()), l)
    {
      match l
      case Begin(i) =>
        SetPhase(i, Executing);
      case Release(i) =>
        sem := sem - 1;
        SetPhase(i, Released);
      case Delete(i) =>
        activeJobs := activeJobs - {jobs[i].id};
        SetPhase(i, Deleted);
      case Uncount(i) =>
        activeCount := activeCount - 1;
        SetPhase(i, Done);
    }

    method LifecycleStep(l: Label)
      requires Enabled(Snapshot(), l)
      requires l.Cancel? || l.StoreTerminate? || l.Directive?
      modifies this`state, this`cancelled
      ensures Snapshot() == Next(old(Snapshot()), l)
    {
      match l
      case Cancel =>
        cancelled := true;
      case StoreTerminate =>
        state := Terminate;
      case Directive(desired) =>
        if state == Running && desired == Some(Quiet) {
          state := Quiet;
        } else if state == Running && desired == Some(Terminate) {
          state := Terminate;
        } else if state == Quiet && desired == Some(Terminate) {
          state := Terminate;
        } else if state == Quiet && desired == Some(Running) {
          state := Running;
        }
    }

    method Step(l: Label)
      requires Valid() && Enabled(Snapshot(), l)
      modifies this
      ensures Valid() && Snapshot() == Next(old(Snapshot()), l)
    {
      RunMore(Init(concurrency), history, l);
      history := history + [l];
      match l
      case Acquire => DispatchStep(l);
      case Store => DispatchStep(l);
      case Count => DispatchStep(l);
      case Begin(_) => JobStep(l);
      case Release(_) => JobStep(l);
      case Delete(_) => JobStep(l);
      case Uncount(_) => JobStep(l);
      case Cancel => LifecycleStep(l);
      case StoreTerminate => LifecycleStep(l);
      case Directive(_) => LifecycleStep(l);
      case _ => FetchLoopStep(l);
    }
  }

  /**
   A worker under an arbitrary schedule of its fetch loop, its jobs, its caller and the server. Wherever
   the schedule stops, the fields keep their bounds.
   */
  method RunWorker(concurrency: nat, schedule: seq<Label>) returns (s: State)
    ensures s == Scheduled(Init(concurrency), schedule) && s.concurrency == concurrency && Reachable(s)
    ensures Tally(s.jobs, Executing.Rank(), Executing.Rank()) <= s.sem <= concurrency
    ensures s.sem == Tally(s.jobs, Acquired.Rank(), Executing.Rank())
    ensures s.activeCount == Tally(s.jobs, Counted.Rank(), Deleted.Rank())
    ensures s.pc.Fetching? ==> 1 <= s.pc.count <= concurrency
    ensures s.pc.Returned? && s.activeCount == 0 ==> AllDone(s.jobs) && s.activeJobs == {} && s.sem == 0
  {
    var w := new Worker(concurrency);
    for i := 0 to |schedule|
      invariant fresh(w) && w.Valid() && w.concurrency == concurrency
      invariant w.Snapshot() == Scheduled(Init(concurrency), schedule[..i])
    {
      assert schedule[..i + 1][..i] == schedule[..i];
      if Enabled(w.Snapshot(), schedule[i]) {
        w.Step(schedule[i]);
      }
    }
    assert schedule[..|schedule|] == schedule;
    s := w.Snapshot();
    assert Reachable(s);
    Occupancy(s);
    InvReachable(s);
    if s.pc.Returned? && s.activeCount == 0 {
      CountZeroAfterReturn(s);
    }
  }

  /** Schedules reach exactly the reachable states. */
  lemma {:induction false} ScheduleRuns(s: State, trace: seq<Label>)
    requires RunFrom(s, trace).Some?
    ensures RunFrom(s, trace) == Some(Scheduled(s, trace))
  {
    if trace != [] {
      ScheduleRuns(s, trace[..|trace| - 1]);
    }
  }

  // --- Counting jobs by phase ---

  predicate Between(j: Job, lo: nat, hi: nat) {
    lo <= j.phase.Rank() <= hi
  }

  /** How many jobs are in the phases ranked lo to hi. */
  function Tally(jobs: seq<Job>, lo: nat, hi: nat): nat {
    if jobs == [] then 0
    else Tally(jobs[..|jobs| - 1], lo, hi) + if Between(jobs[|jobs| - 1], lo, hi) then 1 else 0
  }

  lemma {:induction false} TallyUpdate(jobs: seq<Job>, i: nat, j: Job, lo: nat, hi: nat)
    requires i < |jobs|
    ensures Tally(jobs[i := j], lo, hi)
         == Tally(jobs, lo, hi) - (if Between(jobs[i], lo, hi) then 1 else 0) + (if Between(j, lo, hi) then 1 else 0)
  {
    var n := |jobs| - 1;
    if i < n {
      assert jobs[i := j][..n] == jobs[..n][i := j];
      TallyUpdate(jobs[..n], i, j, lo, hi);
    } else {
      assert jobs[i := j][..n] == jobs[..n];
    }
  }

  lemma TallyAppend(jobs: seq<Job>, j: Job, lo: nat, hi: nat)
    ensures Tally(jobs + [j], lo, hi) == Tally(jobs, lo, hi) + if Between(j, lo, hi) then 1 else 0
  {
    assert (jobs + [j])[..|jobs|] == jobs;
  }

  lemma {:induction false} TallySplit(jobs: seq<Job>, lo: nat, mid: nat, hi: nat)
    requires lo <= mid <= hi
    ensures Tally(jobs, lo, hi) == Tally(jobs, lo, mid) + Tally(jobs, mid + 1, hi)
  {
    if jobs != [] {
      TallySplit(jobs[..|jobs| - 1], lo, mid, hi);
    }
  }

  lemma {:induction false} TallyZero(jobs: seq<Job>, lo: nat, hi: nat)
    ensures Tally(jobs, lo, hi) == 0 <==> forall i :: 0 <= i < |jobs| ==> !Between(jobs[i], lo, hi)
  {
    if jobs != [] {
      TallyZero(jobs[..|jobs| - 1], lo, hi);
    }
  }

  // --- What every interleaving keeps ---

  predicate InHand(pc: Pc) { pc.StoreNext? || pc.CountNext? }

  ghost predicate Inv(s: State) {
    && s.sem == Tally(s.jobs, 0, 3) <= s.concurrency
    && s.activeCount == Tally(s.jobs, 2, 5)
    && Tally(s.jobs, 0, 1) == (if InHand(s.pc) then 1 else 0)
    && (s.pc.StoreNext? ==> s.jobs != [] && s.jobs[|s.jobs| - 1].phase == Acquired)
    && (s.pc.CountNext? ==> s.jobs != [] && s.jobs[|s.jobs| - 1].phase == Stored)
    && (s.pc.Ask? ==> s.activeCount < s.concurrency)
    && (s.pc.Fetching? ==> 1 <= s.pc.count <= s.concurrency && s.activeCount + s.pc.count <= s.concurrency)
    && (forall id :: id in s.activeJobs ==> Listed(s.jobs, id))
  }

  ghost predicate Listed(jobs: seq<Job>, id: string) {
    exists i :: 0 <= i < |jobs| && jobs[i].id == id && Between(jobs[i], 1, 4)
  }

  predicate MovesTally(s: State, i: nat, phase: Phase, lo: nat, hi: nat)
    requires i < |s.jobs|
  {
    Tally(Move(s, i, phase).jobs, lo, hi)
    == Tally(s.jobs, lo, hi) - (if Between(s.jobs[i], lo, hi) then 1 else 0)
       + (if Between(s.jobs[i].(phase := phase), lo, hi) then 1 else 0)
  }

  lemma MoveTallies(s: State, i: nat, phase: Phase)
    requires i < |s.jobs|
    ensures MovesTally(s, i, phase, 0, 3) && MovesTally(s, i, phase, 2, 5) && MovesTally(s, i, phase, 0, 1)
  {
    TallyUpdate(s.jobs, i, s.jobs[i].(phase := phase), 0, 3);
    TallyUpdate(s.jobs, i, s.jobs[i].(phase := phase), 2, 5);
    TallyUpdate(s.jobs, i, s.jobs[i].(phase := phase), 0, 1);
  }

  lemma ListedMove(s: State, i: nat, phase: Phase, id: string)
    requires i < |s.jobs| && Listed(s.jobs, id)
    requires id != s.jobs[i].id || 1 <= phase.Rank() <= 4
    ensures Listed(Move(s, i, phase).jobs, id)
  {
    var k :| 0 <= k < |s.jobs| && s.jobs[k].id == id && Between(s.jobs[k], 1, 4);
    assert Move(s, i, phase).jobs[k].id == id;
    if k == i {
      assert Between(Move(s, i, phase).jobs[i], 1, 4);
    } else {
      assert Between(Move(s, i, phase).jobs[k], 1, 4);
    }
  }

  lemma AcquireInv(s: State)
    requires Inv(s) && Enabled(s, Acquire)
    ensures Inv(Next(s, Acquire))
  {
    var s' := Next(s, Acquire);
    var j := Job(s.pc.pending[0], Acquired);
    TallyAppend(s.jobs, j, 0, 3);
    TallyAppend(s.jobs, j, 2, 5);
    TallyAppend(s.jobs, j, 0, 1);
    forall id | id in s'.activeJobs ensures Listed(s'.jobs, id) {
      var k :| 0 <= k < |s.jobs| && s.jobs[k].id == id && Between(s.jobs[k], 1, 4);
      assert s'.jobs[k] == s.jobs[k];
    }
  }

  lemma MoveInv(s: State, l: Label, i: nat, phase: Phase)
    requires Inv(s) && Enabled(s, l) && i < |s.jobs| && Next(s, l).jobs == Move(s, i, phase).jobs
    requires s.jobs[i].phase.Rank() + 1 == phase.Rank()
    requires (l == Store && i == |s.jobs| - 1 && phase == Stored)
          || (l == Count && i == |s.jobs| - 1 && phase == Counted)
          || (l == Begin(i) && phase == Executing) || (l == Release(i) && phase == Released)
          || (l == Delete(i) && phase == Deleted) || (l == Uncount(i) && phase == Done)
    ensures Inv(Next(s, l))
  {
    var s' := Next(s, l);
    MoveTallies(s, i, phase);
    forall id | id in s'.activeJobs ensures Listed(s'.jobs, id) {
      if l == Store && id == s.jobs[i].id {
        assert s'.jobs[i].id == id && Between(s'.jobs[i], 1, 4);
      } else if l.Uncount? {
        var k :| 0 <= k < |s.jobs| && s.jobs[k].id == id && Between(s.jobs[k], 1, 4);
        assert s'.jobs[k] == s.jobs[k];
      } else {
        ListedMove(s, i, phase, id);
      }
    }
  }

  lemma InvStep(s: State, l: Label)
    requires Inv(s) && Enabled(s, l)
    ensures Inv(Next(s, l))
  {
    match l
    case Acquire => AcquireInv(s);
    case Store => MoveInv(s, l, |s.jobs| - 1, Stored);
    case Count => MoveInv(s, l, |s.jobs| - 1, Counted);
    case Begin(i) => MoveInv(s, l, i, Executing);
    case Release(i) => MoveInv(s, l, i, Released);
    case Delete(i) => MoveInv(s, l, i, Deleted);
    case Uncount(i) => MoveInv(s, l, i, Done);
    case _ =>
  }

  lemma {:induction false} InvRuns(s: State, trace: seq<Label>)
    requires Inv(s) && RunFrom(s, trace).Some?
    ensures Inv(RunFrom(s, trace).value)
  {
    if trace != [] {
      var before, last := trace[..|trace| - 1], trace[|trace| - 1];
      InvRuns(s, before);
      InvStep(RunFrom(s, before).value, last);
    }
  }

  lemma InvReachable(s: State)
    requires Reachable(s)
    ensures Inv(s)
  {
    var trace :| RunFrom(Init(s.concurrency), trace) == Some(s);
    InvRuns(Init(s.concurrency), trace);
  }

  lemma RunMore(s: State, trace: seq<Label>, l: Label)
    ensures RunFrom(s, trace + [l])
         == var before := RunFrom(s, trace);
            if before.Some? && Enabled(before.value, l) then Some(Next(before.value, l)) else None
  {
    assert (trace + [l])[..|trace|] == trace;
  }

  // --- Main results: concurrency ---

  /**
   In every interleaving the semaphore counts the jobs from acquisition to release, activeCount those
   from the add to the subtraction, at most `concurrency` slots are taken and at most that many
   processJob calls run.
   */
  lemma Occupancy(s: State)
    requires Reachable(s)
    ensures s.sem == Tally(s.jobs, Acquired.Rank(), Executing.Rank())
    ensures s.activeCount == Tally(s.jobs, Counted.Rank(), Deleted.Rank())
    ensures Tally(s.jobs, Executing.Rank(), Executing.Rank()) <= s.sem <= s.concurrency
    ensures forall id :: id in s.activeJobs ==> Listed(s.jobs, id)
  {
    InvReachable(s);
    TallySplit(s.jobs, 0, 2, 3);
  }

  /** Whatever the server answers, every request asks for between 1 and `concurrency` jobs. */
  lemma RequestedCount(s: State)
    requires Reachable(s) && s.pc.Ask?
    ensures Next(s, BeginFetch).pc == Fetching(s.concurrency - s.activeCount, s.cancelled)
    ensures 1 <= s.concurrency - s.activeCount <= s.concurrency
  {
    InvReachable(s);
  }

  /** Jobs the loop has asked for, or got and not counted yet. */
  function Outstanding(pc: Pc): int {
    match pc
    case Fetching(count, _) => count
    case Dispatch(pending) => |pending|
    case StoreNext(pending) => 1 + |pending|
    case CountNext(pending) => 1 + |pending|
    case _ => 0
  }

  predicate Room(s: State) { s.activeCount + Outstanding(s.pc) <= s.concurrency }

  /** The server never returns more jobs than asked for. */
  predicate Polite(s: State, trace: seq<Label>) {
    trace == []
    || (var before, last := trace[..|trace| - 1], trace[|trace| - 1];
        Polite(s, before)
        && (last.Reply? && RunFrom(s, before).Some? && RunFrom(s, before).value.pc.Fetching? ==>
              |last.ids| <= RunFrom(s, before).value.pc.count))
  }

  lemma RoomStep(s: State, l: Label)
    requires Inv(s) && Room(s) && Enabled(s, l)
    requires l.Reply? ==> s.activeCount + |l.ids| <= s.concurrency
    ensures Room(Next(s, l))
  {
  }

  /** A full semaphore never holds up the loop when there is room. */
  lemma RoomToAcquire(s: State)
    requires Inv(s) && Room(s) && s.pc.Dispatch? && s.pc.pending != []
    ensures Enabled(s, Acquire)
  {
    TallySplit(s.jobs, 0, 1, 3);
    TallySplit(s.jobs, 2, 3, 5);
  }

  /**
   If the server never returns more than asked, activeCount stays within `concurrency` and the send
   on the semaphore never blocks, although slots are freed before the counter goes down.
   */
  lemma {:induction false} PoliteServer(concurrency: nat, trace: seq<Label>)
    requires RunFrom(Init(concurrency), trace).Some? && Polite(Init(concurrency), trace)
    ensures var s := RunFrom(Init(concurrency), trace).value;
            && s.concurrency == concurrency && Room(s) && s.activeCount <= concurrency
            && (s.pc.Dispatch? && s.pc.pending != [] ==> Enabled(s, Acquire))
  {
    if trace != [] {
      var before, last := trace[..|trace| - 1], trace[|trace| - 1];
      PoliteServer(concurrency, before);
      var s := RunFrom(Init(concurrency), before).value;
      InvRuns(Init(concurrency), before);
      RoomStep(s, last);
    }
    InvRuns(Init(concurrency), trace);
    var s := RunFrom(Init(concurrency), trace).value;
    if s.pc.Dispatch? && s.pc.pending != [] {
      RoomToAcquire(s);
    }
  }

  predicate NoReply(trace: seq<Label>) {
    forall l :: l in trace ==> !l.Reply?
  }

  lemma {:induction false} RoomRuns(s: State, trace: seq<Label>)
    requires Inv(s) && Room(s) && NoReply(trace) && RunFrom(s, trace).Some?
    ensures Room(RunFrom(s, trace).value) && RunFrom(s, trace).value.concurrency == s.concurrency
  {
    if trace != [] {
      var before, last := trace[..|trace| - 1], trace[|trace| - 1];
      RoomRuns(s, before);
      InvRuns(s, before);
      RoomStep(RunFrom(s, before).value, last);
    }
  }

  lemma StepMore(s: State, trace: seq<Label>, s1: State, l: Label) returns (trace': seq<Label>, s2: State)
    requires NoReply(trace) && RunFrom(s, trace) == Some(s1) && Inv(s1)
    requires Enabled(s1, l) && !l.Reply?
    ensures NoReply(trace') && RunFrom(s, trace') == Some(s2) && Inv(s2)
    ensures s2 == Next(s1, l)
  {
    RunMore(s, trace, l);
    InvStep(s1, l);
    trace', s2 := trace + [l], Next(s1, l);
  }

  /** A slot can always be freed without the counter going down. */
  lemma FreeSlot(s: State) returns (trace: seq<Label>, s': State)
    requires Inv(s) && s.concurrency >= 1 && s.pc.Dispatch?
    ensures NoReply(trace) && RunFrom(s, trace) == Some(s') && Inv(s')
    ensures s'.concurrency == s.concurrency && s'.sem < s'.concurrency
    ensures s'.pc == s.pc && s'.activeCount == s.activeCount
    ensures |s'.jobs| == |s.jobs| && KeepsJobs(s.jobs, s'.jobs)
  {
    trace, s' := [], s;
    if s.sem == s.concurrency {
      var i := Occupant(s);
      if s.jobs[i].phase == Counted {
        trace, s' := StepMore(s, trace, s', Begin(i));
      }
      trace, s' := StepMore(s, trace, s', Release(i));
    }
  }

  lemma Occupant(s: State) returns (i: nat)
    requires Inv(s) && !InHand(s.pc) && s.sem > 0
    ensures JobAt(s, i, Counted) || JobAt(s, i, Executing)
  {
    TallySplit(s.jobs, 0, 1, 3);
    TallyZero(s.jobs, 2, 3);
    i :| 0 <= i < |s.jobs| && Between(s.jobs[i], 2, 3);
  }

  /** Job i has this id, has been counted and not been deleted. */
  predicate Active(jobs: seq<Job>, i: nat, id: string) {
    i < |jobs| && jobs[i].id == id && Between(jobs[i], 2, 4)
  }

  /** The active jobs stay active. */
  ghost predicate KeepsJobs(jobs: seq<Job>, jobs': seq<Job>) {
    forall i: nat, id :: Active(jobs, i, id) ==> Active(jobs', i, id)
  }

  /** One pending job can always be dispatched without the counter going down in between. */
  lemma DispatchOne(s: State) returns (trace: seq<Label>, s': State)
    requires Inv(s) && s.concurrency >= 1 && s.pc.Dispatch? && s.pc.pending != []
    ensures NoReply(trace) && RunFrom(s, trace) == Some(s') && Inv(s')
    ensures s'.concurrency == s.concurrency && s'.pc == Dispatch(s.pc.pending[1..])
    ensures s'.activeCount == s.activeCount + 1
    ensures |s'.jobs| == |s.jobs| + 1 && KeepsJobs(s.jobs, s'.jobs)
    ensures s'.jobs[|s.jobs|] == Job(s.pc.pending[0], Counted)
  {
    trace, s' := FreeSlot(s);
    trace, s' := StepMore(s, trace, s', Acquire);
    trace, s' := StepMore(s, trace, s', Store);
    trace, s' := StepMore(s, trace, s', Count);
  }

  lemma {:induction false} RunJoin(s: State, a: seq<Label>, b: seq<Label>)
    requires RunFrom(s, a).Some?
    ensures RunFrom(s, a + b) == RunFrom(RunFrom(s, a).value, b)
    decreases |b|
  {
    if b == [] {
      assert a + b == a;
    } else {
      RunJoin(s, a, b[..|b| - 1]);
      assert (a + b)[..|a + b| - 1] == a + b[..|b| - 1];
    }
  }

  lemma {:induction false} DispatchAll(s: State) returns (trace: seq<Label>, s': State)
    requires Inv(s) && s.concurrency >= 1 && s.pc.Dispatch?
    ensures NoReply(trace) && RunFrom(s, trace) == Some(s')
    ensures s'.concurrency == s.concurrency && s'.activeCount == s.activeCount + |s.pc.pending|
    decreases |s.pc.pending|
  {
    trace, s' := [], s;
    if s.pc.pending != [] {
      var t1, s1 := DispatchOne(s);
      var t2, s2 := DispatchAll(s1);
      RunJoin(s, t1, t2);
      trace, s' := t1 + t2, s2;
    }
  }

  /**
   Exactly when a reply can push activeCount over `concurrency` before the next reply: when it holds
   more jobs than there is room for at that moment.
   */
  lemma OverDelivery(s: State, ids: seq<string>)
    requires Reachable(s) && Enabled(s, Reply(ids))
    ensures (exists trace :: NoReply(trace)
                             && RunFrom(Next(s, Reply(ids)), trace).Some?
                             && RunFrom(Next(s, Reply(ids)), trace).value.activeCount > s.concurrency)
       <==> s.activeCount + |ids| > s.concurrency
  {
    InvReachable(s);
    var s1 := Next(s, Reply(ids));
    InvStep(s, Reply(ids));
    if s.activeCount + |ids| > s.concurrency {
      var trace, s2 := DispatchAll(s1);
      assert RunFrom(s1, trace).value.activeCount > s.concurrency;
    } else {
      forall trace | NoReply(trace) && RunFrom(s1, trace).Some?
        ensures RunFrom(s1, trace).value.activeCount <= s.concurrency
      {
        RoomRuns(s1, trace);
        InvRuns(s1, trace);
      }
    }
  }

  // --- Main results: draining ---

  predicate AllDone(jobs: seq<Job>) {
    forall i :: 0 <= i < |jobs| ==> jobs[i].phase == Done
  }

  /** The loop has, or may still get, a job it has not dispatched. */
  predicate Undispatched(s: State) {
    InHand(s.pc) || (s.pc.Dispatch? && s.pc.pending != []) || (s.pc.Fetching? && !s.pc.doomed)
  }

  ghost predicate Executes(s: State) { exists i :: JobAt(s, i, Executing) }

  /** Once the fetch loop has returned, a zero count means that everything is over. */
  lemma CountZeroAfterReturn(s: State)
    requires Reachable(s) && s.pc.Returned? && s.activeCount == 0
    ensures AllDone(s.jobs) && s.activeJobs == {} && s.sem == 0 && !Executes(s)
  {
    InvReachable(s);
    NothingCounted(s);
  }

  lemma NothingCounted(s: State)
    requires Inv(s) && s.activeCount == 0 && !InHand(s.pc)
    ensures AllDone(s.jobs) && s.activeJobs == {} && s.sem == 0
  {
    TallyZero(s.jobs, 2, 5);
    TallyZero(s.jobs, 0, 1);
    TallyZero(s.jobs, 0, 3);
    forall i | 0 <= i < |s.jobs| ensures s.jobs[i].phase == Done {
      assert !Between(s.jobs[i], 2, 5) && !Between(s.jobs[i], 0, 1);
    }
  }

  ghost predicate Over(s: State) {
    s.cancelled && AllDone(s.jobs) && !Undispatched(s)
  }

  lemma {:induction false} OverRuns(s: State, trace: seq<Label>)
    requires Over(s) && RunFrom(s, trace).Some?
    ensures Over(RunFrom(s, trace).value)
  {
    if trace != [] {
      OverRuns(s, trace[..|trace| - 1]);
    }
  }

  lemma RunOne(s: State, l: Label, rest: seq<Label>)
    requires Enabled(s, l)
    ensures RunFrom(s, [l]) == Some(Next(s, l))
    ensures RunFrom(s, [l] + rest) == RunFrom(Next(s, l), rest)
  {
    assert [l][..0] == [];
    RunJoin(s, [l], rest);
  }

  lemma BeginLast(s: State) returns (trace: seq<Label>)
    requires s.jobs != [] && JobAt(s, |s.jobs| - 1, Counted)
    ensures RunFrom(s, trace).Some? && Executes(RunFrom(s, trace).value)
  {
    var last := |s.jobs| - 1;
    RunOne(s, Begin(last), []);
    trace := [Begin(last)];
    assert JobAt(Next(s, Begin(last)), last, Executing);
  }

  lemma {:induction false} CanExecute(s: State) returns (trace: seq<Label>)
    requires Inv(s) && s.concurrency >= 1 && Undispatched(s)
    ensures RunFrom(s, trace).Some? && Executes(RunFrom(s, trace).value)
    decreases if s.pc.Fetching? then 1 else 0
  {
    if s.pc.Fetching? {
      var l := Reply(["job"]);
      InvStep(s, l);
      var more := CanExecute(Next(s, l));
      RunOne(s, l, more);
      trace := [l] + more;
    } else if s.pc.Dispatch? {
      var one, s1 := DispatchOne(s);
      var more := BeginLast(s1);
      RunJoin(s, one, more);
      trace := one + more;
    } else {
      trace := CanExecuteInHand(s);
    }
  }

  lemma {:induction false} CanExecuteInHand(s: State) returns (trace: seq<Label>)
    requires Inv(s) && InHand(s.pc)
    ensures RunFrom(s, trace).Some? && Executes(RunFrom(s, trace).value)
    decreases if s.pc.StoreNext? then 1 else 0
  {
    var l := if s.pc.StoreNext? then Store else Count;
    InvStep(s, l);
    var more: seq<Label>;
    if s.pc.StoreNext? {
      more := CanExecuteInHand(Next(s, l));
    } else {
      more := BeginLast(Next(s, l));
    }
    RunOne(s, l, more);
    trace := [l] + more;
  }

  /**
   What waitForActiveJobs can conclude after cancellation. When it reads a zero count, a handler can
   still run later if and only if the fetch loop has a job, or an answer, that it has not dispatched.
   */
  lemma DrainIsFinalIff(s: State)
    requires Reachable(s) && s.concurrency >= 1 && s.cancelled && s.activeCount == 0
    ensures Undispatched(s) <==>
            exists trace :: RunFrom(s, trace).Some? && Executes(RunFrom(s, trace).value)
  {
    InvReachable(s);
    if Undispatched(s) {
      var trace := CanExecute(s);
    } else {
      NothingCounted(s);
      forall trace | RunFrom(s, trace).Some? ensures !Executes(RunFrom(s, trace).value) {
        OverRuns(s, trace);
      }
    }
  }

  // --- Main results: lifecycle ---

  function FetchesBegun(trace: seq<Label>): nat {
    if trace == [] then 0
    else FetchesBegun(trace[..|trace| - 1]) + if trace[|trace| - 1].BeginFetch? then 1 else 0
  }

  predicate PastLifecycleCheck(pc: Pc) { pc.ReadCapacity? || pc.Ask? }

  /**
   Terminate is never left, whoever stored it, and after it is stored at most one more fetch begins,
   and only when the loop had already read the lifecycle state.
   */
  lemma {:induction false} TerminateIsFinal(s: State, trace: seq<Label>)
    requires s.lifecycle == Terminate && RunFrom(s, trace).Some?
    ensures var s' := RunFrom(s, trace).value;
            && s'.lifecycle == Terminate
            && FetchesBegun(trace) + (if PastLifecycleCheck(s'.pc) then 1 else 0)
               <= if PastLifecycleCheck(s.pc) then 1 else 0
  {
    if trace != [] {
      TerminateIsFinal(s, trace[..|trace| - 1]);
    }
  }

  ghost predicate ToldToRun(trace: seq<Label>) { Directive(Some(Running)) in trace }

  lemma NotRunningStep(s: State, l: Label)
    requires Enabled(s, l) && !s.lifecycle.Running? && l != Directive(Some(Running))
    ensures var s' := Next(s, l);
            && !s'.lifecycle.Running?
            && (if l.BeginFetch? then 1 else 0) + (if PastLifecycleCheck(s'.pc) then 1 else 0)
               <= (if PastLifecycleCheck(s.pc) then 1 else 0)
  {
  }

  /**
   A worker that is not running fetches no more until it is told to run: at most one fetch begins, and only
   when the loop had already read the lifecycle state.
   */
  lemma {:induction false} NotRunningFetches(s: State, trace: seq<Label>)
    requires !s.lifecycle.Running? && !ToldToRun(trace) && RunFrom(s, trace).Some?
    ensures var s' := RunFrom(s, trace).value;
            && !s'.lifecycle.Running?
            && FetchesBegun(trace) + (if PastLifecycleCheck(s'.pc) then 1 else 0)
               <= if PastLifecycleCheck(s.pc) then 1 else 0
  {
    if trace != [] {
      var before, last := trace[..|trace| - 1], trace[|trace| - 1];
      NotRunningFetches(s, before);
      assert last in trace;
      NotRunningStep(RunFrom(s, before).value, last);
    }
  }

  predicate PastCancelCheck(pc: Pc) { pc.ReadState? || PastLifecycleCheck(pc) }

  /** After cancellation at most one more fetch begins, only if the loop had passed its check, and it is doomed. */
  lemma {:induction false} CancelledFetches(s: State, trace: seq<Label>)
    requires s.cancelled && RunFrom(s, trace).Some?
    ensures var s' := RunFrom(s, trace).value;
            && s'.cancelled
            && FetchesBegun(trace) + (if PastCancelCheck(s'.pc) then 1 else 0)
               <= (if PastCancelCheck(s.pc) then 1 else 0)
            && (FetchesBegun(trace) > 0 && s'.pc.Fetching? ==> s'.pc.doomed)
  {
    if trace != [] {
      CancelledFetches(s, trace[..|trace| - 1]);
    }
  }

  /** The worker has been told to terminate, by a directive or at the end of Start. */
  predicate ToldToTerminate(trace: seq<Label>) {
    StoreTerminate in trace || Directive(Some(Terminate)) in trace
  }

  /** The last state that a directive of the trace names. */
  function LastDirective(first: WorkerState, trace: seq<Label>): WorkerState {
    if trace == [] then first
    else
      var last := trace[|trace| - 1];
      if last.Directive? && last.desired.Some? then last.desired.value
      else LastDirective(first, trace[..|trace| - 1])
  }

  lemma Obeyed(s: State, l: Label)
    requires Enabled(s, l)
    ensures Next(s, l).lifecycle
         == if s.lifecycle.Terminate? || ToldToTerminate([l]) then Terminate else LastDirective(s.lifecycle, [l])
    ensures Next(s, l).lifecycle.Terminate? <==> s.lifecycle.Terminate? || ToldToTerminate([l])
  {
    assert [l][..0] == [];
  }

  lemma ToldMore(trace: seq<Label>, l: Label)
    ensures ToldToTerminate(trace + [l]) <==> ToldToTerminate(trace) || ToldToTerminate([l])
    ensures forall first :: LastDirective(first, trace + [l]) == LastDirective(LastDirective(first, trace), [l])
  {
    assert (trace + [l])[..|trace|] == trace && [l][..0] == [];
  }

  /**
   Every directive is obeyed until the first that says terminate: over a whole run the lifecycle is what
   the last directive named, and terminate if the worker was ever told to.
   */
  lemma {:induction false} DirectivesAreObeyed(concurrency: nat, trace: seq<Label>)
    requires RunFrom(Init(concurrency), trace).Some?
    ensures RunFrom(Init(concurrency), trace).value.lifecycle
         == if ToldToTerminate(trace) then Terminate else LastDirective(Running, trace)
    ensures RunFrom(Init(concurrency), trace).value.lifecycle.Terminate? <==> ToldToTerminate(trace)
  {
    if trace != [] {
      var before, last := trace[..|trace| - 1], trace[|trace| - 1];
      DirectivesAreObeyed(concurrency, before);
      Obeyed(RunFrom(Init(concurrency), before).value, last);
      ToldMore(before, last);
      assert trace == before + [last];
    }
  }

  lemma RunningStep(s: State, l: Label)
    requires Enabled(s, l) && s.lifecycle != Running && Next(s, l).lifecycle == Running
    ensures l == Directive(Some(Running)) && s.lifecycle == Quiet
  {
  }

  /** After step i the worker runs again: a directive received in the quiet state. */
  predicate Resumes(s: State, trace: seq<Label>, i: nat) {
    i < |trace| && trace[i] == Directive(Some(Running))
    && RunFrom(s, trace[..i]).Some? && RunFrom(s, trace[..i]).value.lifecycle == Quiet
  }

  /** A worker that is not running runs again only by a directive received in the quiet state. */
  lemma {:induction false} RunningOnlyFromQuiet(s: State, trace: seq<Label>)
    requires s.lifecycle != Running && RunFrom(s, trace).Some? && RunFrom(s, trace).value.lifecycle == Running
    ensures exists i: nat :: Resumes(s, trace, i)
  {
    var n := |trace| - 1;
    var before := trace[..n];
    if RunFrom(s, before).value.lifecycle == Running {
      RunningOnlyFromQuiet(s, before);
      var i: nat :| Resumes(s, before, i);
      assert before[..i] == trace[..i];
      assert Resumes(s, trace, i);
    } else {
      RunningStep(RunFrom(s, before).value, trace[n]);
      assert Resumes(s, trace, n);
    }
  }
}
