/** What a worker can get done: every job it is given, and its own shutdown. */
module WorkerProgress {
  import opened Wrappers
  import opened WorkerPool

  /** Some run leads from one state to the other. */
  ghost predicate CanReach(s: State, s': State) {
    exists trace :: RunFrom(s, trace) == Some(s')
  }

  lemma ReachSelf(s: State)
    ensures CanReach(s, s)
  {
    assert RunFrom(s, []) == Some(s);
  }

  lemma ReachMore(s0: State, s: State, l: Label) returns (s': State)
    requires CanReach(s0, s) && Enabled(s, l)
    ensures CanReach(s0, s') && s' == Next(s, l)
  {
    var trace :| RunFrom(s0, trace) == Some(s);
    RunMore(s0, trace, l);
    s' := Next(s, l);
    assert RunFrom(s0, trace + [l]) == Some(s');
  }

  lemma ReachOn(a: State, b: State, c: State)
    requires CanReach(a, b) && CanReach(b, c)
    ensures CanReach(a, c)
  {
    var t :| RunFrom(a, t) == Some(b);
    var u :| RunFrom(b, u) == Some(c);
    RunJoin(a, t, u);
  }

  /** How many steps the jobs have before them. */
  function Work(jobs: seq<Job>): nat {
    if jobs == [] then 0 else Work(jobs[..|jobs| - 1]) + (6 - jobs[|jobs| - 1].phase.Rank())
  }

  lemma {:induction false} WorkUpdate(jobs: seq<Job>, i: nat, j: Job)
    requires i < |jobs| && jobs[i].phase.Rank() < j.phase.Rank()
    ensures Work(jobs[i := j]) < Work(jobs)
  {
    var n := |jobs| - 1;
    if i < n {
      assert jobs[i := j][..n] == jobs[..n][i := j];
      WorkUpdate(jobs[..n], i, j);
    } else {
      assert jobs[i := j][..n] == jobs[..n];
    }
  }

  function Ids(jobs: seq<Job>): seq<string> { seq(|jobs|, i requires 0 <= i < |jobs| => jobs[i].id) }

  /** The next step of a job that has been counted. */
  function NextOf(s: State, i: nat): Label
    requires i < |s.jobs|
  {
    match s.jobs[i].phase
    case Counted => Begin(i)
    case Executing => Release(i)
    case Released => Delete(i)
    case _ => Uncount(i)
  }

  lemma Advances(s: State, i: nat)
    requires i < |s.jobs| && Between(s.jobs[i], 2, 5)
    ensures Enabled(s, NextOf(s, i))
    ensures var s' := Next(s, NextOf(s, i));
            && s'.pc == s.pc && s'.concurrency == s.concurrency && s'.cancelled == s.cancelled
            && s'.lifecycle == s.lifecycle && Ids(s'.jobs) == Ids(s.jobs) && Work(s'.jobs) < Work(s.jobs)
  {
    var phase := Next(s, NextOf(s, i)).jobs[i].phase;
    WorkUpdate(s.jobs, i, s.jobs[i].(phase := phase));
    assert Ids(Next(s, NextOf(s, i)).jobs) == Ids(s.jobs);
  }

  /** All dispatched jobs can run to their end, whatever the loop does. */
  lemma {:induction false} FinishJobs(s: State) returns (s': State)
    requires Inv(s) && !InHand(s.pc)
    ensures CanReach(s, s') && Inv(s') && AllDone(s'.jobs) && Ids(s'.jobs) == Ids(s.jobs)
    ensures s'.pc == s.pc && s'.concurrency == s.concurrency && s'.cancelled == s.cancelled
    decreases Work(s.jobs)
  {
    if AllDone(s.jobs) {
      s' := s;
      ReachSelf(s);
    } else {
      var i := Unfinished(s);
      Advances(s, i);
      InvStep(s, NextOf(s, i));
      ReachSelf(s);
      var s1 := ReachMore(s, s, NextOf(s, i));
      s' := FinishJobs(s1);
      ReachOn(s, s1, s');
    }
  }

  lemma Unfinished(s: State) returns (i: nat)
    requires Inv(s) && !InHand(s.pc) && !AllDone(s.jobs)
    ensures i < |s.jobs| && Between(s.jobs[i], 2, 5)
  {
    TallyZero(s.jobs, 0, 1);
    i :| 0 <= i < |s.jobs| && s.jobs[i].phase != Done;
    assert !Between(s.jobs[i], 0, 1);
  }

  /** How far a cancelled loop is from returning. */
  function ToReturn(pc: Pc): nat {
    match pc
    case Returned => 0
    case Waiting => 1
    case Top => 1
    case Fetching(_, _) => 2
    case Ask => 3
    case ReadCapacity => 4
    case ReadState => 5
    case Dispatch(pending) => 10 + 10 * |pending|
    case CountNext(pending) => 13 + 10 * |pending|
    case StoreNext(pending) => 14 + 10 * |pending|
  }

  /** The next step of a cancelled loop to which the server sends no more jobs. */
  function LoopStep(pc: Pc): Label {
    match pc
    case Returned => Cancel
    case Waiting => Wake(true)
    case Top => Loop
    case Fetching(_, _) => Reply([])
    case Ask => BeginFetch
    case ReadCapacity => LoadCapacity
    case ReadState => LoadState
    case Dispatch(pending) => if pending == [] then Loop else Acquire
    case CountNext(_) => Count
    case StoreNext(_) => Store
  }

  lemma LoopAdvances(s: State)
    requires Inv(s) && s.cancelled && !s.pc.Returned?
    requires s.pc.Dispatch? && s.pc.pending != [] ==> s.sem < s.concurrency
    ensures Enabled(s, LoopStep(s.pc))
    ensures var s' := Next(s, LoopStep(s.pc));
            ToReturn(s'.pc) < ToReturn(s.pc) && s'.cancelled && s'.concurrency == s.concurrency
  {
  }

  lemma {:induction false} ReturnLoop(s: State) returns (s': State)
    requires Inv(s) && s.cancelled && s.concurrency >= 1
    ensures CanReach(s, s') && Inv(s') && s'.pc.Returned?
    decreases ToReturn(s.pc)
  {
    ReachSelf(s);
    s' := s;
    if !s.pc.Returned? {
      var s1 := MakeRoom(s);
      LoopAdvances(s1);
      InvStep(s1, LoopStep(s1.pc));
      var s2 := ReachMore(s, s1, LoopStep(s1.pc));
      s' := ReturnLoop(s2);
      ReachOn(s, s2, s');
    }
  }

  lemma MakeRoom(s: State) returns (s': State)
    requires Inv(s) && s.cancelled && s.concurrency >= 1
    ensures CanReach(s, s') && Inv(s') && s'.pc == s.pc && s'.cancelled && s'.concurrency == s.concurrency
    ensures s.pc.Dispatch? ==> s'.sem < s'.concurrency
  {
    ReachSelf(s);
    s' := s;
    if s.pc.Dispatch? {
      s' := FinishJobs(s);
      NoneTaken(s');
    }
  }

  lemma NoneTaken(s: State)
    requires Inv(s) && AllDone(s.jobs)
    ensures s.sem == 0 && s.activeCount == 0 && s.activeJobs == {}
  {
    TallyZero(s.jobs, 0, 3);
    TallyZero(s.jobs, 2, 5);
  }

  /**
   A cancelled worker can always drain: from every reachable state there is a run in which the loop
   returns, all jobs end, the semaphore and the map empty and the count falls to zero.
   */
  lemma CanDrain(s: State) returns (s': State)
    requires Reachable(s) && s.concurrency >= 1 && s.cancelled
    ensures CanReach(s, s') && s'.pc.Returned?
    ensures AllDone(s'.jobs) && s'.sem == 0 && s'.activeCount == 0 && s'.activeJobs == {}
  {
    InvReachable(s);
    var s1 := ReturnLoop(s);
    s' := FinishJobs(s1);
    ReachOn(s, s1, s');
    NoneTaken(s');
  }

  lemma CanAsk(s0: State, s: State) returns (s': State)
    requires CanReach(s0, s) && s.pc.Top?
    requires s.lifecycle.Running? && !s.cancelled && s.activeCount < s.concurrency
    ensures CanReach(s0, s') && s' == s.(pc := Fetching(s.concurrency - s.activeCount, false))
  {
    var s1 := ReachMore(s0, s, Loop);
    assert s1 == s.(pc := ReadState);
    var s2 := ReachMore(s0, s1, LoadState);
    assert s2 == s.(pc := ReadCapacity);
    var s3 := ReachMore(s0, s2, LoadCapacity);
    assert s3 == s.(pc := Ask);
    s' := ReachMore(s0, s3, BeginFetch);
  }

  /** A running worker, at the top of its loop or waiting, can ask for as many jobs as it has room for. */
  lemma CanFetch(s: State) returns (s': State)
    requires s.lifecycle.Running? && !s.cancelled && s.activeCount < s.concurrency && (s.pc.Top? || s.pc.Waiting?)
    ensures CanReach(s, s') && s' == s.(pc := Fetching(s.concurrency - s.activeCount, false))
  {
    ReachSelf(s);
    s' := s;
    if s.pc.Waiting? {
      s' := ReachMore(s, s', Wake(false));
    }
    s' := CanAsk(s, s');
  }

  /** Every job of a reply can be dispatched and run to its end, each once and in order, with nothing left over. */
  lemma RepliesCanRun(s: State, ids: seq<string>) returns (s': State)
    requires Reachable(s) && Enabled(s, Reply(ids)) && ids != []
    ensures CanReach(Next(s, Reply(ids)), s') && s'.pc.Top?
    ensures Ids(s'.jobs) == Ids(s.jobs) + ids
    ensures AllDone(s'.jobs) && s'.sem == 0 && s'.activeCount == 0 && s'.activeJobs == {}
  {
    InvReachable(s);
    var s1 := Next(s, Reply(ids));
    InvStep(s, Reply(ids));
    var s2 := DispatchReply(s1);
    InvStep(s2, Loop);
    var s3 := ReachMore(s1, s2, Loop);
    s' := FinishJobs(s3);
    ReachOn(s1, s3, s');
    NoneTaken(s');
  }

  lemma {:induction false} DispatchReply(s: State) returns (s': State)
    requires Inv(s) && s.concurrency >= 1 && s.pc.Dispatch?
    ensures CanReach(s, s') && Inv(s') && s'.pc == Dispatch([])
    ensures Ids(s'.jobs) == Ids(s.jobs) + s.pc.pending
    decreases |s.pc.pending|
  {
    if s.pc.pending == [] {
      s' := s;
      ReachSelf(s);
    } else {
      var s1 := FinishJobs(s);
      var s2 := DispatchIdle(s1);
      ReachOn(s, s1, s2);
      s' := DispatchReply(s2);
      ReachOn(s, s2, s');
      assert [s.pc.pending[0]] + s.pc.pending[1..] == s.pc.pending;
    }
  }

  lemma DispatchIdle(s: State) returns (s': State)
    requires Inv(s) && s.concurrency >= 1 && s.pc.Dispatch? && s.pc.pending != [] && AllDone(s.jobs)
    ensures CanReach(s, s') && Inv(s') && s'.concurrency == s.concurrency && s'.pc == Dispatch(s.pc.pending[1..])
    ensures Ids(s'.jobs) == Ids(s.jobs) + [s.pc.pending[0]]
  {
    NoneTaken(s);
    ReachSelf(s);
    InvStep(s, Acquire);
    s' := ReachMore(s, s, Acquire);
    InvStep(s', Store);
    s' := ReachMore(s, s', Store);
    InvStep(s', Count);
    s' := ReachMore(s, s', Count);
    assert s'.jobs == s.jobs + [Job(s.pc.pending[0], Counted)];
  }
}
