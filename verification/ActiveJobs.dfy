/** The map of active jobs in worker.go: when it is exact, and when a job is lost from it. */
module ActiveJobs {
  import opened Sequences
  import opened Wrappers
  import opened WorkerPool

  /** A job of the id has not come to its delete yet. */
  predicate Held(jobs: seq<Job>, id: string) {
    exists i :: 0 <= i < |jobs| && jobs[i].id == id && Between(jobs[i], 0, 4)
  }

  /** The reply repeats no id and names none that is in the map. */
  ghost predicate NewIds(s: State, ids: seq<string>) {
    Distinct(ids) && forall id :: id in ids ==> id !in s.activeJobs
  }

  /** No reply of the run redelivers a job. */
  ghost predicate NoRedelivery(s: State, trace: seq<Label>) {
    trace == []
    || (var before, last := trace[..|trace| - 1], trace[|trace| - 1];
        NoRedelivery(s, before)
        && (last.Reply? && RunFrom(s, before).Some? ==> NewIds(RunFrom(s, before).value, last.ids)))
  }

  function Pending(pc: Pc): seq<string> {
    if pc.Dispatch? || pc.StoreNext? || pc.CountNext? then pc.pending else []
  }

  ghost predicate OneEach(s: State) {
    && DistinctHeld(s.jobs)
    && Distinct(Pending(s.pc))
    && (forall id :: id in Pending(s.pc) ==> !Held(s.jobs, id))
    && (forall i :: 0 <= i < |s.jobs| && Between(s.jobs[i], 1, 4) ==> s.jobs[i].id in s.activeJobs)
  }

  ghost predicate DistinctHeld(jobs: seq<Job>) {
    forall i, j ::
      0 <= i < j < |jobs| && Between(jobs[i], 0, 4) && Between(jobs[j], 0, 4) ==> jobs[i].id != jobs[j].id
  }

  lemma HeldMove(s: State, i: nat, phase: Phase, id: string)
    requires i < |s.jobs| && s.jobs[i].phase.Rank() < phase.Rank() && !Held(s.jobs, id)
    ensures !Held(Move(s, i, phase).jobs, id)
  {
    var jobs' := Move(s, i, phase).jobs;
    forall k | 0 <= k < |jobs'| && jobs'[k].id == id
      ensures !Between(jobs'[k], 0, 4)
    {
      assert s.jobs[k].id == id;
      assert !Between(s.jobs[k], 0, 4);
    }
  }

  lemma DistinctHeldMove(s: State, i: nat, phase: Phase)
    requires DistinctHeld(s.jobs) && i < |s.jobs| && s.jobs[i].phase.Rank() < phase.Rank()
    ensures DistinctHeld(Move(s, i, phase).jobs)
  {
  }

  /** The other jobs keep their entries in the map. */
  lemma OthersStayListed(s: State, l: Label, i: nat, phase: Phase)
    requires OneEach(s) && Enabled(s, l) && i < |s.jobs|
    requires Next(s, l).jobs == Move(s, i, phase).jobs && s.jobs[i].phase.Rank() < phase.Rank()
    requires Between(s.jobs[i].(phase := phase), 1, 4) ==> s.jobs[i].id in Next(s, l).activeJobs
    requires Between(s.jobs[i], 0, 4) || s.activeJobs == Next(s, l).activeJobs
    requires s.activeJobs - {s.jobs[i].id} <= Next(s, l).activeJobs
    ensures forall k ::
              0 <= k < |s.jobs| && Between(Next(s, l).jobs[k], 1, 4) ==> Next(s, l).jobs[k].id in Next(s, l).activeJobs
  {
    forall k | 0 <= k < |s.jobs| && k != i && Between(Next(s, l).jobs[k], 1, 4)
      ensures Next(s, l).jobs[k].id in Next(s, l).activeJobs
    {
      assert Next(s, l).jobs[k] == s.jobs[k];
      assert Between(s.jobs[k], 0, 4);
    }
  }

  lemma OneEachMove(s: State, l: Label, i: nat, phase: Phase)
    requires OneEach(s) && Enabled(s, l) && i < |s.jobs|
    requires Next(s, l).jobs == Move(s, i, phase).jobs && s.jobs[i].phase.Rank() < phase.Rank()
    requires Pending(Next(s, l).pc) == Pending(s.pc)
    requires Between(s.jobs[i].(phase := phase), 1, 4) ==> s.jobs[i].id in Next(s, l).activeJobs
    requires Between(s.jobs[i], 0, 4) || s.activeJobs == Next(s, l).activeJobs
    requires s.activeJobs - {s.jobs[i].id} <= Next(s, l).activeJobs
    ensures OneEach(Next(s, l))
  {
    DistinctHeldMove(s, i, phase);
    OthersStayListed(s, l, i, phase);
    forall id | id in Pending(s.pc) ensures !Held(Next(s, l).jobs, id) {
      HeldMove(s, i, phase, id);
    }
  }

  lemma OneEachAcquire(s: State)
    requires OneEach(s) && Enabled(s, Acquire)
    ensures OneEach(Next(s, Acquire))
  {
    var s' := Next(s, Acquire);
    var id0 := s.pc.pending[0];
    assert id0 in Pending(s.pc);
    assert forall i :: 0 <= i < |s.jobs| ==> s'.jobs[i] == s.jobs[i];
    forall i | 0 <= i < |s.jobs| && Between(s.jobs[i], 0, 4) ensures s.jobs[i].id != id0 {
      assert !Held(s.jobs, id0);
    }
    forall id | id in Pending(s'.pc) ensures !Held(s'.jobs, id) {
      assert id in Pending(s.pc) && id != id0;
      forall k | 0 <= k < |s'.jobs| && s'.jobs[k].id == id ensures !Between(s'.jobs[k], 0, 4) {
        assert s'.jobs[k] == s.jobs[k];
        assert !Held(s.jobs, id);
      }
    }
  }

  /** While the loop awaits a reply, a job is held only if the map has its id. */
  lemma OneEachReply(s: State, ids: seq<string>)
    requires Inv(s) && OneEach(s) && Enabled(s, Reply(ids)) && NewIds(s, ids)
    ensures OneEach(Next(s, Reply(ids)))
  {
    TallyZero(s.jobs, 0, 1);
    forall id | id in ids ensures !Held(s.jobs, id) {
      forall i | 0 <= i < |s.jobs| && s.jobs[i].id == id ensures !Between(s.jobs[i], 0, 4) {
        assert !Between(s.jobs[i], 0, 1);
      }
    }
  }

  lemma OneEachStep(s: State, l: Label)
    requires Inv(s) && OneEach(s) && Enabled(s, l)
    requires l.Reply? ==> NewIds(s, l.ids)
    ensures OneEach(Next(s, l))
  {
    match l
    case Acquire => OneEachAcquire(s);
    case Store => OneEachMove(s, l, |s.jobs| - 1, Stored);
    case Count => OneEachMove(s, l, |s.jobs| - 1, Counted);
    case Begin(i) => OneEachMove(s, l, i, Executing);
    case Release(i) => OneEachMove(s, l, i, Released);
    case Delete(i) => OneEachMove(s, l, i, Deleted);
    case Uncount(i) => OneEachMove(s, l, i, Done);
    case Reply(ids) => OneEachReply(s, ids);
    case _ =>
  }

  lemma {:induction false} OneEachRuns(s: State, trace: seq<Label>)
    requires Inv(s) && OneEach(s) && NoRedelivery(s, trace) && RunFrom(s, trace).Some?
    ensures OneEach(RunFrom(s, trace).value)
  {
    if trace != [] {
      var before, last := trace[..|trace| - 1], trace[|trace| - 1];
      OneEachRuns(s, before);
      InvRuns(s, before);
      OneEachStep(RunFrom(s, before).value, last);
    }
  }

  /** The map is exact: it holds the ids of the jobs from the store to the delete. */
  ghost predicate Exact(s: State) {
    forall id :: id in s.activeJobs <==> Listed(s.jobs, id)
  }

  /** Without redelivery the map is exact. */
  lemma ActiveJobsExact(concurrency: nat, trace: seq<Label>)
    requires RunFrom(Init(concurrency), trace).Some? && NoRedelivery(Init(concurrency), trace)
    ensures OneEach(RunFrom(Init(concurrency), trace).value) && Exact(RunFrom(Init(concurrency), trace).value)
  {
    InvRuns(Init(concurrency), trace);
    OneEachRuns(Init(concurrency), trace);
  }

  lemma {:induction false} QuietIsClean(s: State, trace: seq<Label>)
    requires NoReply(trace)
    ensures NoRedelivery(s, trace)
  {
    if trace != [] {
      assert trace[|trace| - 1] in trace;
      QuietIsClean(s, trace[..|trace| - 1]);
    }
  }

  // --- Redelivery loses a job ---

  /** The jobs from index `base` on are active and have these ids. */
  ghost predicate Appended(jobs: seq<Job>, base: nat, ids: seq<string>) {
    forall k: nat :: k < |ids| ==> Active(jobs, base + k, ids[k])
  }

  /** A run without replies leads from one state to the other. */
  ghost predicate Leads(s: State, s': State) {
    exists trace :: Quietly(s, trace, s')
  }

  ghost predicate Quietly(s: State, trace: seq<Label>, s': State) {
    NoReply(trace) && RunFrom(s, trace) == Some(s')
  }

  lemma LeadsOn(a: State, b: State, c: State)
    requires Leads(a, b) && Leads(b, c)
    ensures Leads(a, c)
  {
    var t :| Quietly(a, t, b);
    var u :| Quietly(b, u, c);
    RunJoin(a, t, u);
    assert Quietly(a, t + u, c);
  }

  lemma DispatchFirst(s: State) returns (s': State)
    requires Inv(s) && s.concurrency >= 1 && s.pc.Dispatch? && s.pc.pending != []
    ensures Leads(s, s') && Inv(s') && s'.concurrency == s.concurrency && s'.pc == Dispatch(s.pc.pending[1..])
    ensures KeepsJobs(s.jobs, s'.jobs) && |s'.jobs| == |s.jobs| + 1
    ensures s'.jobs[|s.jobs|] == Job(s.pc.pending[0], Counted)
  {
    var trace;
    trace, s' := DispatchOne(s);
    assert Quietly(s, trace, s');
  }

  /** The first n pending jobs can be dispatched while all active jobs stay active. */
  lemma {:induction false} DispatchSome(s: State, n: nat) returns (s': State)
    requires Inv(s) && s.concurrency >= 1 && s.pc.Dispatch? && n <= |s.pc.pending|
    ensures Leads(s, s')
    ensures KeepsJobs(s.jobs, s'.jobs) && Appended(s'.jobs, |s.jobs|, s.pc.pending[..n])
    decreases n
  {
    if n == 0 {
      s' := s;
      assert Quietly(s, [], s);
    } else {
      var s1 := DispatchFirst(s);
      s' := DispatchSome(s1, n - 1);
      LeadsOn(s, s1, s');
      KeepsOn(s.jobs, s1.jobs, s'.jobs);
      AppendedMore(s.jobs, s.pc.pending, s1.jobs, s'.jobs, n);
    }
  }

  lemma KeepsOn(a: seq<Job>, b: seq<Job>, c: seq<Job>)
    requires KeepsJobs(a, b) && KeepsJobs(b, c)
    ensures KeepsJobs(a, c)
  {
  }

  lemma AppendedMore(jobs: seq<Job>, pending: seq<string>, jobs1: seq<Job>, jobs2: seq<Job>, n: nat)
    requires 0 < n <= |pending| && |jobs1| == |jobs| + 1 && jobs1[|jobs|] == Job(pending[0], Counted)
    requires KeepsJobs(jobs1, jobs2) && Appended(jobs2, |jobs1|, pending[1..][..n - 1])
    ensures Appended(jobs2, |jobs|, pending[..n])
  {
    forall k: nat | k < n ensures Active(jobs2, |jobs| + k, pending[..n][k]) {
      if k == 0 {
        assert Active(jobs1, |jobs|, pending[0]);
      } else {
        assert Active(jobs2, |jobs1| + (k - 1), pending[1..][..n - 1][k - 1]);
      }
    }
  }

  lemma LeadsMore(s: State, s1: State, l: Label) returns (s': State)
    requires Leads(s, s1) && Enabled(s1, l) && !l.Reply?
    ensures Leads(s, s') && s' == Next(s1, l)
  {
    var trace :| Quietly(s, trace, s1);
    RunMore(s, trace, l);
    s' := Next(s1, l);
    assert Quietly(s, trace + [l], s');
  }

  /** A job between its count and its delete can be deleted at once. */
  lemma DeleteNow(s: State, i: nat) returns (s': State)
    requires i < |s.jobs| && Between(s.jobs[i], 2, 4)
    ensures Leads(s, s')
    ensures |s'.jobs| == |s.jobs| && s.jobs[i].id !in s'.activeJobs
    ensures forall k :: 0 <= k < |s.jobs| && k != i ==> s'.jobs[k] == s.jobs[k]
  {
    s' := s;
    assert Quietly(s, [], s);
    if s'.jobs[i].phase == Counted {
      s' := LeadsMore(s, s', Begin(i));
    }
    if s'.jobs[i].phase == Executing {
      s' := LeadsMore(s, s', Release(i));
    }
    s' := LeadsMore(s, s', Delete(i));
  }

  /** The map has lost a job that is between its store and its delete. */
  ghost predicate Lost(s: State) {
    exists i :: 0 <= i < |s.jobs| && Between(s.jobs[i], 1, 4) && s.jobs[i].id !in s.activeJobs
  }

  /** The map can lose a job before the next reply. */
  ghost predicate CanLose(s: State) {
    exists s' :: Leads(s, s') && Lost(s')
  }

  lemma CanLoseLater(s: State, s1: State)
    requires Leads(s, s1) && CanLose(s1)
    ensures CanLose(s)
  {
    var s' :| Leads(s1, s') && Lost(s');
    LeadsOn(s, s1, s');
  }

  /** Two jobs with one id: deleting the first loses the second. */
  lemma DeleteOneOfTwo(s: State, i: nat, j: nat, id: string)
    requires i != j && Active(s.jobs, i, id) && Active(s.jobs, j, id)
    ensures CanLose(s)
  {
    var s' := DeleteNow(s, i);
    assert s'.jobs[j] == s.jobs[j] && Between(s'.jobs[j], 1, 4);
    assert Lost(s');
  }

  /** Where a redelivered id is in the reply, and where else: earlier in the reply, or among the jobs. */
  lemma Redelivered(s: State, ids: seq<string>) returns (k: nat, earlier: Option<nat>, i: nat)
    requires Inv(s) && s.pc.Fetching? && !NewIds(s, ids)
    ensures k < |ids|
    ensures earlier.Some? ==> earlier.value < k && ids[earlier.value] == ids[k]
    ensures earlier.None? ==> Active(s.jobs, i, ids[k])
  {
    i, earlier := 0, None;
    if Distinct(ids) {
      var id :| id in ids && id in s.activeJobs;
      k :| 0 <= k < |ids| && ids[k] == id;
      assert Listed(s.jobs, id);
      i :| 0 <= i < |s.jobs| && s.jobs[i].id == id && Between(s.jobs[i], 1, 4);
      TallyZero(s.jobs, 0, 1);
      assert !Between(s.jobs[i], 0, 1);
    } else {
      var m: nat, n: nat :| m < n < |ids| && ids[m] == ids[n];
      k, earlier := n, Some(m);
    }
  }

  lemma RedeliveryLoses(s: State, ids: seq<string>)
    requires Inv(s) && Enabled(s, Reply(ids)) && !NewIds(s, ids)
    ensures CanLose(Next(s, Reply(ids)))
  {
    InvStep(s, Reply(ids));
    var k, earlier, i := Redelivered(s, ids);
    var first := if earlier.Some? then |s.jobs| + earlier.value else i;
    var s2 := DispatchBoth(Next(s, Reply(ids)), k, first, earlier);
    DeleteOneOfTwo(s2, first, |s.jobs| + k, ids[k]);
    CanLoseLater(Next(s, Reply(ids)), s2);
  }

  /** `first` is where the other job with the id of the k-th pending one is once that one is dispatched. */
  lemma DispatchBoth(s: State, k: nat, first: nat, earlier: Option<nat>) returns (s': State)
    requires Inv(s) && s.concurrency >= 1 && s.pc.Dispatch? && k < |s.pc.pending|
    requires earlier.Some? ==>
               earlier.value < k && first == |s.jobs| + earlier.value && s.pc.pending[earlier.value] == s.pc.pending[k]
    requires earlier.None? ==> Active(s.jobs, first, s.pc.pending[k])
    ensures Leads(s, s') && first != |s.jobs| + k
    ensures Active(s'.jobs, first, s.pc.pending[k]) && Active(s'.jobs, |s.jobs| + k, s.pc.pending[k])
  {
    s' := DispatchSome(s, k + 1);
    BothActive(s.jobs, s'.jobs, s.pc.pending, k, earlier, first);
  }

  lemma BothActive(jobs: seq<Job>, jobs2: seq<Job>, ids: seq<string>, k: nat, earlier: Option<nat>, i: nat)
    requires k < |ids| && Appended(jobs2, |jobs|, ids[..k + 1]) && KeepsJobs(jobs, jobs2)
    requires earlier.Some? ==> earlier.value < k && i == |jobs| + earlier.value && ids[earlier.value] == ids[k]
    requires earlier.None? ==> Active(jobs, i, ids[k])
    ensures Active(jobs2, |jobs| + k, ids[k])
    ensures Active(jobs2, i, ids[k])
  {
    assert ids[..k + 1][k] == ids[k];
    if earlier.Some? {
      assert ids[..k + 1][earlier.value] == ids[k];
    }
  }

  lemma OneEachIsExact(s: State)
    requires Inv(s) && OneEach(s)
    ensures !CanLose(s)
  {
    forall s' | Leads(s, s') ensures !Lost(s') {
      var more :| Quietly(s, more, s');
      QuietIsClean(s, more);
      OneEachRuns(s, more);
    }
  }

  /**
   Exactly when a reply can make the map lose a job before the next reply, in a run without redelivery so
   far: when it repeats an id or names one that is in the map.
   */
  lemma LossIff(concurrency: nat, trace: seq<Label>, s: State, ids: seq<string>)
    requires RunFrom(Init(concurrency), trace) == Some(s) && NoRedelivery(Init(concurrency), trace)
    requires Enabled(s, Reply(ids))
    ensures CanLose(Next(s, Reply(ids))) <==> !NewIds(s, ids)
  {
    ActiveJobsExact(concurrency, trace);
    InvRuns(Init(concurrency), trace);
    var s1 := Next(s, Reply(ids));
    InvStep(s, Reply(ids));
    if NewIds(s, ids) {
      OneEachReply(s, ids);
      OneEachIsExact(s1);
    } else {
      RedeliveryLoses(s, ids);
    }
  }

  ghost predicate ExactAt(s: State, trace: seq<Label>, n: nat)
    requires n <= |trace|
  {
    RunFrom(s, trace[..n]).Some? ==> !CanLose(RunFrom(s, trace[..n]).value)
  }

  /** The first redelivery of a run. */
  lemma {:induction false} FirstRedelivery(s: State, trace: seq<Label>) returns (n: nat)
    requires RunFrom(s, trace).Some? && !NoRedelivery(s, trace)
    ensures n < |trace| && NoRedelivery(s, trace[..n]) && RunFrom(s, trace[..n]).Some? && trace[n].Reply?
    ensures !NewIds(RunFrom(s, trace[..n]).value, trace[n].ids)
    ensures Enabled(RunFrom(s, trace[..n]).value, trace[n])
    ensures RunFrom(s, trace[..n + 1]) == Some(Next(RunFrom(s, trace[..n]).value, trace[n]))
  {
    var before := trace[..|trace| - 1];
    if NoRedelivery(s, before) {
      n := |trace| - 1;
      assert trace[..n + 1] == trace;
    } else {
      n := FirstRedelivery(s, before);
      assert before[..n] == trace[..n] && before[..n + 1] == trace[..n + 1];
    }
  }

  lemma {:induction false} PrefixRuns(s: State, trace: seq<Label>, n: nat)
    requires n <= |trace| && RunFrom(s, trace).Some?
    ensures RunFrom(s, trace[..n]).Some? && (NoRedelivery(s, trace) ==> NoRedelivery(s, trace[..n]))
  {
    if n == |trace| {
      assert trace[..n] == trace;
    } else {
      assert trace[..|trace| - 1][..n] == trace[..n];
      PrefixRuns(s, trace[..|trace| - 1], n);
    }
  }

  /**
   Over a whole run: at no time can the map lose a job before the next reply if and only if no reply
   redelivers one.
   */
  lemma ExactIff(concurrency: nat, trace: seq<Label>)
    requires RunFrom(Init(concurrency), trace).Some?
    ensures NoRedelivery(Init(concurrency), trace)
       <==> forall n: nat :: n <= |trace| ==> ExactAt(Init(concurrency), trace, n)
  {
    var init := Init(concurrency);
    if NoRedelivery(init, trace) {
      forall n: nat | n <= |trace| ensures ExactAt(init, trace, n) {
        PrefixRuns(init, trace, n);
        StaysExact(concurrency, trace[..n]);
      }
    } else {
      var n := FirstRedelivery(init, trace);
      var s := RunFrom(init, trace[..n]).value;
      InvRuns(init, trace[..n]);
      RedeliveryLoses(s, trace[n].ids);
      assert !ExactAt(init, trace, n + 1);
    }
  }

  lemma StaysExact(concurrency: nat, trace: seq<Label>)
    requires RunFrom(Init(concurrency), trace).Some? && NoRedelivery(Init(concurrency), trace)
    ensures !CanLose(RunFrom(Init(concurrency), trace).value)
  {
    ActiveJobsExact(concurrency, trace);
    InvRuns(Init(concurrency), trace);
    OneEachIsExact(RunFrom(Init(concurrency), trace).value);
  }
}
