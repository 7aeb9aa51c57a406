/** Workflow definitions and the dependency graph they are compiled to: workflow.go. */
module Workflow {
  import opened Sequences
  import opened Wrappers

  /** The enqueue options of a step once resolved. */
  datatype Options = Options(queue: string, timeoutMS: int)

  datatype Step<A> = Step(jobType: string, args: A, options: Options)

  datatype Callbacks<A> = Callbacks(onComplete: Option<Step<A>>, onSuccess: Option<Step<A>>, onFailure: Option<Step<A>>)

  datatype Definition<A> =
    Definition(kind: string, steps: seq<Step<A>>, jobs: seq<Step<A>>, callbacks: Option<Callbacks<A>>)

  datatype WireStep<A> =
    WireStep(id: string, jobType: string, args: A, dependsOn: seq<string>, options: Option<Options>)

  datatype Error =
    | NoSteps
    | TooManySteps(count: nat)
    | StepWithoutType(index: nat)
    | TooFewJobs
    | TooManyJobs(count: nat)
    | JobWithoutType(index: nat)
    | NoJobs
    | NoCallbacks
    | UnknownKind(kind: string)

  function Chain<A>(steps: seq<Step<A>>): Definition<A> { Definition("chain", steps, [], None) }

  function Group<A>(jobs: seq<Step<A>>): Definition<A> { Definition("group", [], jobs, None) }

  function Batch<A>(callbacks: Callbacks<A>, jobs: seq<Step<A>>): Definition<A> {
    Definition("batch", [], jobs, Some(callbacks))
  }

  // --- Validation ---

  const MAX_STEPS := 500

  /** The index of the first step without a type. */
  function FirstUntyped<A>(steps: seq<Step<A>>): (k: nat)
    ensures k <= |steps| && (k < |steps| ==> steps[k].jobType == "")
    ensures forall i :: 0 <= i < k ==> steps[i].jobType != ""
  {
    if steps == [] || steps[0].jobType == "" then 0 else 1 + FirstUntyped(steps[1..])
  }

  function Validate<A>(d: Definition<A>): Result<(), Error> {
    if d.kind == "chain" then
      if |d.steps| < 1 then Err(NoSteps)
      else if |d.steps| > MAX_STEPS then Err(TooManySteps(|d.steps|))
      else if FirstUntyped(d.steps) < |d.steps| then Err(StepWithoutType(FirstUntyped(d.steps)))
      else Ok(())
    else if d.kind == "group" then
      if |d.jobs| < 2 then Err(TooFewJobs)
      else if |d.jobs| > MAX_STEPS then Err(TooManyJobs(|d.jobs|))
      else if FirstUntyped(d.jobs) < |d.jobs| then Err(JobWithoutType(FirstUntyped(d.jobs)))
      else Ok(())
    else if d.kind == "batch" then
      if |d.jobs| < 1 then Err(NoJobs)
      else if |d.jobs| > MAX_STEPS then Err(TooManyJobs(|d.jobs|))
      else if CallbackSteps(d.callbacks) == [] then Err(NoCallbacks)
      else Ok(())
    else Err(UnknownKind(d.kind))
  }

  ghost predicate Typed<A>(steps: seq<Step<A>>) {
    forall i :: 0 <= i < |steps| ==> steps[i].jobType != ""
  }

  /** An error tells what is wrong: which bound was missed, or which step is the first without a type. */
  lemma ErrorsAreAccurate<A>(d: Definition<A>)
    requires Validate(d).Err?
    ensures match Validate(d).error
            case NoSteps => d.kind == "chain" && d.steps == []
            case TooManySteps(count) => d.kind == "chain" && count == |d.steps| > 500
            case StepWithoutType(i) =>
              d.kind == "chain" && i < |d.steps| <= 500 && d.steps[i].jobType == "" && Typed(d.steps[..i])
            case TooFewJobs => d.kind == "group" && |d.jobs| < 2
            case TooManyJobs(count) => d.kind in {"group", "batch"} && count == |d.jobs| > 500
            case JobWithoutType(i) =>
              d.kind == "group" && i < |d.jobs| <= 500 && d.jobs[i].jobType == "" && Typed(d.jobs[..i])
            case NoJobs => d.kind == "batch" && d.jobs == []
            case NoCallbacks => d.kind == "batch" && 1 <= |d.jobs| <= 500
            case UnknownKind(kind) => kind == d.kind && kind !in {"chain", "group", "batch"}
  {
  }

  lemma TypedIff<A>(steps: seq<Step<A>>)
    ensures Typed(steps) <==> FirstUntyped(steps) == |steps|
  {
    if FirstUntyped(steps) < |steps| {
      assert steps[FirstUntyped(steps)].jobType == "";
    }
  }

  lemma ChainAcceptedIff<A>(steps: seq<Step<A>>)
    ensures Validate(Chain(steps)).Ok? <==> 1 <= |steps| <= MAX_STEPS && Typed(steps)
  {
    TypedIff(steps);
  }

  lemma GroupAcceptedIff<A>(jobs: seq<Step<A>>)
    ensures Validate(Group(jobs)).Ok? <==> 2 <= |jobs| <= MAX_STEPS && Typed(jobs)
  {
    TypedIff(jobs);
  }

  /** Unlike the steps of a chain and the jobs of a group, those of a batch need no type. */
  lemma BatchAcceptedIff<A>(c: Callbacks<A>, jobs: seq<Step<A>>)
    ensures Validate(Batch(c, jobs)).Ok? <==>
            1 <= |jobs| <= MAX_STEPS && (c.onComplete.Some? || c.onSuccess.Some? || c.onFailure.Some?)
  {
  }

  // --- Compilation ---

  function Digit(n: nat): char
    requires n < 10
  {
    '0' + n as char
  }

  /** A number as %d prints it. */
  function Decimal(n: nat): (s: string)
    ensures s != []
  {
    if n < 10 then [Digit(n)] else Decimal(n / 10) + [Digit(n % 10)]
  }

  function StepId(i: nat): string { "step-" + Decimal(i) }

  function JobId(i: nat): string { "job-" + Decimal(i) }

  function JobIds(n: nat): seq<string> { seq(n, i requires 0 <= i < n => JobId(i)) }

  function WireOptions(o: Options): Option<Options> {
    if o.queue != "default" || o.timeoutMS > 0 then Some(o) else None
  }

  function ChainStep<A>(s: Step<A>, i: nat): WireStep<A> {
    WireStep(StepId(i), s.jobType, s.args, if i > 0 then [StepId(i - 1)] else [], WireOptions(s.options))
  }

  /** The options of a job in a group or a batch are not sent. */
  function JobStep<A>(s: Step<A>, i: nat): WireStep<A> {
    WireStep(JobId(i), s.jobType, s.args, [], None)
  }

  function ChainSteps<A>(steps: seq<Step<A>>): seq<WireStep<A>> {
    seq(|steps|, i requires 0 <= i < |steps| => ChainStep(steps[i], i))
  }

  function JobSteps<A>(jobs: seq<Step<A>>): seq<WireStep<A>> {
    seq(|jobs|, i requires 0 <= i < |jobs| => JobStep(jobs[i], i))
  }

  function Callback<A>(id: string, s: Option<Step<A>>, jobIDs: seq<string>): seq<WireStep<A>> {
    if s.Some? then [WireStep(id, s.value.jobType, s.value.args, jobIDs, None)] else []
  }

  function CallbackWires<A>(c: Option<Callbacks<A>>, jobIDs: seq<string>): seq<WireStep<A>> {
    if c == None then []
    else
      Callback("on-complete", c.value.onComplete, jobIDs)
      + Callback("on-success", c.value.onSuccess, jobIDs)
      + Callback("on-failure", c.value.onFailure, jobIDs)
  }

  function Compiled<A>(d: Definition<A>): seq<WireStep<A>> {
    if d.kind == "chain" then ChainSteps(d.steps)
    else if d.kind == "group" then JobSteps(d.jobs)
    else if d.kind == "batch" then JobSteps(d.jobs) + CallbackWires(d.callbacks, JobIds(|d.jobs|))
    else []
  }

  /** The steps that CreateWorkflow sends, or why it sends none. */
  method CreateWorkflow<A>(d: Definition<A>) returns (r: Result<seq<WireStep<A>>, Error>)
    ensures Validate(d).Err? ==> r == Err(Validate(d).error)
    ensures Validate(d).Ok? ==> r == Ok(Compiled(d))
  {
    if Validate(d).Err? {
      return Err(Validate(d).error);
    }
    var steps: seq<WireStep<A>>;
    if d.kind == "chain" {
      steps := AppendSteps(d.steps);
    } else if d.kind == "group" {
      steps := AppendJobs(d.jobs);
    } else {
      steps := AppendJobs(d.jobs);
      var jobIDs := new string[|d.jobs|];
      for i := 0 to |d.jobs|
        invariant forall j :: 0 <= j < i ==> jobIDs[j] == JobId(j)
      {
        jobIDs[i] := JobId(i);
      }
      assert jobIDs[..] == JobIds(|d.jobs|);
      if d.callbacks != None {
        steps := AppendCallbacks(steps, d.callbacks.value, jobIDs[..]);
      }
    }
    r := Ok(steps);
  }

  method AppendSteps<A>(given: seq<Step<A>>) returns (steps: seq<WireStep<A>>)
    ensures steps == ChainSteps(given)
  {
    steps := [];
    for i := 0 to |given|
      invariant steps == ChainSteps(given[..i])
    {
      var s := given[i];
      var step := WireStep(StepId(i), s.jobType, s.args, [], None);
      if i > 0 {
        step := step.(dependsOn := [StepId(i - 1)]);
      }
      if s.options.queue != "default" || s.options.timeoutMS > 0 {
        step := step.(options := Some(s.options));
      }
      steps := steps + [step];
    }
    assert given[..|given|] == given;
  }

  method AppendCallbacks<A>(before: seq<WireStep<A>>, c: Callbacks<A>, jobIDs: seq<string>)
    returns (steps: seq<WireStep<A>>)
    ensures steps == before + CallbackWires(Some(c), jobIDs)
  {
    var more: seq<WireStep<A>> := [];
    if c.onComplete != None {
      var s := c.onComplete.value;
      more := more + [WireStep("on-complete", s.jobType, s.args, jobIDs, None)];
    }
    assert more == Callback("on-complete", c.onComplete, jobIDs);
    ghost var one := more;
    if c.onSuccess != None {
      var s := c.onSuccess.value;
      more := more + [WireStep("on-success", s.jobType, s.args, jobIDs, None)];
    }
    assert more == one + Callback("on-success", c.onSuccess, jobIDs);
    ghost var two := more;
    if c.onFailure != None {
      var s := c.onFailure.value;
      more := more + [WireStep("on-failure", s.jobType, s.args, jobIDs, None)];
    }
    assert more == two + Callback("on-failure", c.onFailure, jobIDs);
    steps := before + more;
  }

  method AppendJobs<A>(jobs: seq<Step<A>>) returns (steps: seq<WireStep<A>>)
    ensures steps == JobSteps(jobs)
  {
    steps := [];
    for i := 0 to |jobs|
      invariant steps == JobSteps(jobs[..i])
    {
      steps := steps + [WireStep(JobId(i), jobs[i].jobType, jobs[i].args, [], None)];
    }
    assert jobs[..|jobs|] == jobs;
  }

  // --- What the compiled steps are made of ---

  function Given<A>(s: Option<Step<A>>): seq<Step<A>> { if s.Some? then [s.value] else [] }

  function CallbackSteps<A>(c: Option<Callbacks<A>>): seq<Step<A>> {
    if c == None then []
    else Given(c.value.onComplete) + Given(c.value.onSuccess) + Given(c.value.onFailure)
  }

  /** The steps of a definition, callbacks last. */
  function Sources<A>(d: Definition<A>): seq<Step<A>> {
    if d.kind == "chain" then d.steps
    else if d.kind == "group" then d.jobs
    else d.jobs + CallbackSteps(d.callbacks)
  }

  /** The compiled steps have the types and arguments of the given ones, in the same order. */
  ghost predicate Carries<A>(wire: seq<WireStep<A>>, steps: seq<Step<A>>) {
    |wire| == |steps|
    && forall k :: 0 <= k < |wire| ==> wire[k].jobType == steps[k].jobType && wire[k].args == steps[k].args
  }

  lemma CarriesJoin<A>(v: seq<WireStep<A>>, w: seq<WireStep<A>>, s: seq<Step<A>>, t: seq<Step<A>>)
    requires Carries(v, s) && Carries(w, t)
    ensures Carries(v + w, s + t)
  {
  }

  lemma CallbacksCarry<A>(c: Callbacks<A>, jobIDs: seq<string>)
    ensures Carries(CallbackWires(Some(c), jobIDs), CallbackSteps(Some(c)))
  {
    var a := Callback("on-complete", c.onComplete, jobIDs);
    var b := Callback("on-success", c.onSuccess, jobIDs);
    CarriesJoin(a, b, Given(c.onComplete), Given(c.onSuccess));
    CarriesJoin(a + b, Callback("on-failure", c.onFailure, jobIDs), Given(c.onComplete) + Given(c.onSuccess),
                Given(c.onFailure));
  }

  lemma EveryStepOnce<A>(d: Definition<A>)
    requires Validate(d).Ok?
    ensures Carries(Compiled(d), Sources(d))
  {
    if d.kind == "batch" && d.callbacks != None {
      var jobIDs := JobIds(|d.jobs|);
      CallbacksCarry(d.callbacks.value, jobIDs);
      CarriesJoin(JobSteps(d.jobs), CallbackWires(d.callbacks, jobIDs), d.jobs, CallbackSteps(d.callbacks));
    }
  }

  /** Only a batch can have more steps than the maximum, and then by its callbacks. */
  lemma StepsBeyondTheMaximum<A>(d: Definition<A>)
    requires Validate(d).Ok?
    ensures |Compiled(d)| > MAX_STEPS <==> d.kind == "batch" && |d.jobs| + |CallbackSteps(d.callbacks)| > MAX_STEPS
    ensures 1 <= |Compiled(d)| <= MAX_STEPS + 3
  {
    EveryStepOnce(d);
  }

  /** The step of the given id is there, with this type, these arguments and all jobs as its dependencies. */
  ghost predicate HasCallback<A>(wire: seq<WireStep<A>>, id: string, s: Step<A>, jobIDs: seq<string>) {
    exists k :: 0 <= k < |wire| && wire[k] == WireStep(id, s.jobType, s.args, jobIDs, None)
  }

  ghost predicate HasId<A>(wire: seq<WireStep<A>>, id: string) {
    exists k :: 0 <= k < |wire| && wire[k].id == id
  }

  lemma HasLater<A>(v: seq<WireStep<A>>, w: seq<WireStep<A>>, id: string, s: Step<A>, jobIDs: seq<string>)
    ensures HasCallback(w, id, s, jobIDs) ==> HasCallback(v + w, id, s, jobIDs)
    ensures HasCallback(v, id, s, jobIDs) ==> HasCallback(v + w, id, s, jobIDs)
  {
    if HasCallback(w, id, s, jobIDs) {
      var k :| 0 <= k < |w| && w[k] == WireStep(id, s.jobType, s.args, jobIDs, None);
      assert (v + w)[|v| + k] == w[k];
    }
    if HasCallback(v, id, s, jobIDs) {
      var k :| 0 <= k < |v| && v[k] == WireStep(id, s.jobType, s.args, jobIDs, None);
      assert (v + w)[k] == v[k];
    }
  }

  /** Each given callback is compiled under its own id, and waits for all jobs. */
  lemma CallbacksAreNamed<A>(c: Callbacks<A>, jobs: seq<Step<A>>)
    ensures var wire, jobIDs := Compiled(Batch(c, jobs)), JobIds(|jobs|);
            && (c.onComplete.Some? ==> HasCallback(wire, "on-complete", c.onComplete.value, jobIDs))
            && (c.onSuccess.Some? ==> HasCallback(wire, "on-success", c.onSuccess.value, jobIDs))
            && (c.onFailure.Some? ==> HasCallback(wire, "on-failure", c.onFailure.value, jobIDs))
  {
    var jobIDs := JobIds(|jobs|);
    CallbackIsThere("on-complete", c.onComplete, jobIDs, JobSteps(jobs),
                    Callback("on-success", c.onSuccess, jobIDs) + Callback("on-failure", c.onFailure, jobIDs));
    CallbackIsThere("on-success", c.onSuccess, jobIDs, JobSteps(jobs) + Callback("on-complete", c.onComplete, jobIDs),
                    Callback("on-failure", c.onFailure, jobIDs));
    CallbackIsThere("on-failure", c.onFailure, jobIDs,
                    JobSteps(jobs) + Callback("on-complete", c.onComplete, jobIDs)
                    + Callback("on-success", c.onSuccess, jobIDs), []);
    BatchParts(c, jobs);
  }

  lemma CallbackIsThere<A>(id: string, s: Option<Step<A>>, jobIDs: seq<string>,
                           v: seq<WireStep<A>>, w: seq<WireStep<A>>)
    ensures s.Some? ==> HasCallback(v + Callback(id, s, jobIDs) + w, id, s.value, jobIDs)
  {
    if s.Some? {
      assert HasCallback(Callback(id, s, jobIDs), id, s.value, jobIDs) by {
        assert Callback(id, s, jobIDs)[0].id == id;
      }
      HasLater(v, Callback(id, s, jobIDs), id, s.value, jobIDs);
      HasLater(v + Callback(id, s, jobIDs), w, id, s.value, jobIDs);
    }
  }

  lemma BatchParts<A>(c: Callbacks<A>, jobs: seq<Step<A>>)
    ensures var wire, jobIDs := Compiled(Batch(c, jobs)), JobIds(|jobs|);
            var a, b, d := Callback("on-complete", c.onComplete, jobIDs), Callback("on-success", c.onSuccess, jobIDs),
                           Callback("on-failure", c.onFailure, jobIDs);
            && wire == JobSteps(jobs) + a + (b + d)
            && wire == JobSteps(jobs) + a + b + d
            && wire == JobSteps(jobs) + a + b + d + []
  {
    var jobIDs := JobIds(|jobs|);
    var a, b, d := Callback("on-complete", c.onComplete, jobIDs), Callback("on-success", c.onSuccess, jobIDs),
                   Callback("on-failure", c.onFailure, jobIDs);
    assert JobSteps(jobs) + (a + b + d) == JobSteps(jobs) + a + (b + d) == JobSteps(jobs) + a + b + d;
  }

  /** The options of a chain's step are sent if they name a queue of their own or a timeout, those of jobs never. */
  lemma OptionsSent<A>(steps: seq<Step<A>>, i: nat)
    requires i < |steps|
    ensures var sent, given := Compiled(Chain(steps))[i].options, steps[i].options;
            if given.queue == "default" && given.timeoutMS <= 0 then sent == None else sent == Some(given)
    ensures Compiled(Group(steps))[i].options == None
  {
  }

  // --- Ids ---

  function Ids<A>(wire: seq<WireStep<A>>): seq<string> {
    seq(|wire|, i requires 0 <= i < |wire| => wire[i].id)
  }

  function DigitValue(c: char): int { c as int - '0' as int }

  /** The number that a string of digits denotes. */
  function Value(s: string): int {
    if s == "" then 0 else 10 * Value(s[..|s| - 1]) + DigitValue(s[|s| - 1])
  }

  /** The decimal form consists of digits, has no leading zero, and denotes its number. */
  lemma {:induction false} DecimalDenotes(n: nat)
    ensures Value(Decimal(n)) == n && (Decimal(n)[0] == '0' ==> n == 0)
    ensures forall i :: 0 <= i < |Decimal(n)| ==> '0' <= Decimal(n)[i] <= '9'
  {
    var s := Decimal(n);
    if n >= 10 {
      DecimalDenotes(n / 10);
      assert s[..|s| - 1] == Decimal(n / 10) && s[0] == Decimal(n / 10)[0];
    } else {
      assert s[..0] == "";
    }
  }

  /** An id names the place of its step or job. */
  lemma IdsDenote<A>(steps: seq<Step<A>>, i: nat)
    requires i < |steps|
    ensures var id := Compiled(Chain(steps))[i].id; |id| > 5 && id[..5] == "step-" && Value(id[5..]) == i
    ensures var id := Compiled(Group(steps))[i].id; |id| > 4 && id[..4] == "job-" && Value(id[4..]) == i
  {
    DecimalDenotes(i);
    assert StepId(i)[..5] == "step-" && StepId(i)[5..] == Decimal(i);
    assert JobId(i)[..4] == "job-" && JobId(i)[4..] == Decimal(i);
  }

  lemma {:induction false} DecimalInjective(m: nat, n: nat)
    requires Decimal(m) == Decimal(n)
    ensures m == n
  {
    var a, b := Decimal(m), Decimal(n);
    assert a[|a| - 1] == Digit(m % 10) && b[|b| - 1] == Digit(n % 10);
    if m >= 10 && n >= 10 {
      assert a[..|a| - 1] == Decimal(m / 10) && b[..|b| - 1] == Decimal(n / 10);
      DecimalInjective(m / 10, n / 10);
    }
  }

  lemma IdsDiffer(i: nat, j: nat)
    requires i != j
    ensures StepId(i) != StepId(j) && JobId(i) != JobId(j)
  {
    if Decimal(i) == Decimal(j) {
      DecimalInjective(i, j);
    }
    assert StepId(i)[5..] == Decimal(i) && StepId(j)[5..] == Decimal(j);
    assert JobId(i)[4..] == Decimal(i) && JobId(j)[4..] == Decimal(j);
  }

  lemma JobIdsDistinct(n: nat)
    ensures Distinct(JobIds(n))
  {
    forall i, j | 0 <= i < j < n ensures JobIds(n)[i] != JobIds(n)[j] {
      IdsDiffer(i, j);
    }
  }

  lemma CallbackIds<A>(c: Option<Callbacks<A>>, jobIDs: seq<string>)
    ensures var ids := Ids(CallbackWires(c, jobIDs));
            Distinct(ids) && forall k :: 0 <= k < |ids| ==> ids[k] != [] && ids[k][0] == 'o'
  {
    assert "on-complete"[3] == 'c' && "on-success"[3] == 's' && "on-failure"[3] == 'f';
  }

  lemma DistinctJoin(a: seq<string>, b: seq<string>)
    requires Distinct(a) && Distinct(b) && forall i, j :: 0 <= i < |a| && 0 <= j < |b| ==> a[i] != b[j]
    ensures Distinct(a + b)
  {
  }

  /** No id of a callback is the id of a job. */
  lemma CallbackIsNoJob<A>(c: Option<Callbacks<A>>, jobIDs: seq<string>, i: nat, k: nat)
    requires k < |CallbackWires(c, jobIDs)|
    ensures JobId(i) != CallbackWires(c, jobIDs)[k].id
  {
    CallbackIds(c, jobIDs);
    assert Ids(CallbackWires(c, jobIDs))[k][0] == 'o' && JobId(i)[0] == 'j';
  }

  lemma IdsDistinct<A>(d: Definition<A>)
    requires Validate(d).Ok?
    ensures Distinct(Ids(Compiled(d)))
  {
    if d.kind == "chain" {
      forall i, j | 0 <= i < j < |d.steps| ensures StepId(i) != StepId(j) {
        IdsDiffer(i, j);
      }
    } else {
      var n, jobIDs := |d.jobs|, JobIds(|d.jobs|);
      JobIdsDistinct(n);
      assert Ids(JobSteps(d.jobs)) == jobIDs;
      if d.kind == "batch" {
        var more := CallbackWires(d.callbacks, jobIDs);
        CallbackIds(d.callbacks, jobIDs);
        forall i, k | 0 <= i < n && 0 <= k < |more| ensures jobIDs[i] != Ids(more)[k] {
          CallbackIsNoJob(d.callbacks, jobIDs, i, k);
        }
        DistinctJoin(jobIDs, Ids(more));
        assert Ids(Compiled(d)) == jobIDs + Ids(more);
      }
    }
  }

  /** Every dependency is the id of an earlier step. */
  lemma DependsOnEarlier<A>(d: Definition<A>, k: nat, dep: string)
    requires Validate(d).Ok? && k < |Compiled(d)| && dep in Compiled(d)[k].dependsOn
    ensures dep in Ids(Compiled(d))[..k]
  {
    var wire := Compiled(d);
    if d.kind == "chain" {
      assert Ids(wire)[..k][k - 1] == dep;
    } else {
      var i :| 0 <= i < |d.jobs| && JobIds(|d.jobs|)[i] == dep;
      assert Ids(wire)[..k][i] == dep;
    }
  }

  // --- Schedules ---

  ghost predicate Permutation(order: seq<string>, ids: seq<string>) {
    Distinct(order) && forall id :: id in order <==> id in ids
  }

  /** Everything that a step depends on is in `done`. */
  ghost predicate Ready<A>(wire: seq<WireStep<A>>, id: string, done: seq<string>) {
    forall k :: 0 <= k < |wire| && wire[k].id == id ==> forall dep :: dep in wire[k].dependsOn ==> dep in done
  }

  /** An order of all the steps in which each comes after what it depends on. */
  ghost predicate Schedule<A>(wire: seq<WireStep<A>>, order: seq<string>) {
    Permutation(order, Ids(wire)) && forall i :: 0 <= i < |order| ==> Ready(wire, order[i], order[..i])
  }

  /** So there are no cycles: the order in which the steps are listed is a schedule. */
  lemma ListedOrderIsSchedule<A>(d: Definition<A>)
    requires Validate(d).Ok?
    ensures Schedule(Compiled(d), Ids(Compiled(d)))
  {
    var wire := Compiled(d);
    var ids := Ids(wire);
    IdsDistinct(d);
    forall i | 0 <= i < |ids| ensures Ready(wire, ids[i], ids[..i]) {
      forall k, dep | 0 <= k < |wire| && wire[k].id == ids[i] && dep in wire[k].dependsOn ensures dep in ids[..i] {
        assert ids[k] == ids[i];
        DependsOnEarlier(d, i, dep);
      }
    }
  }

  /** Each step depends on the one before it. */
  ghost predicate Linear<A>(wire: seq<WireStep<A>>) {
    forall k :: 0 <= k < |wire| ==> wire[k].dependsOn == if k > 0 then [wire[k - 1].id] else []
  }

  /** The only schedule of a chain is the given order. */
  lemma ChainSchedules<A>(d: Definition<A>, order: seq<string>)
    requires Validate(d).Ok? && d.kind == "chain"
    ensures Schedule(Compiled(d), order) <==> order == Ids(Compiled(d))
  {
    ListedOrderIsSchedule(d);
    if Schedule(Compiled(d), order) {
      ChainPrefix(Compiled(d), order, |order|);
      SameWhenPrefix(order, Ids(Compiled(d)));
    }
  }

  lemma {:induction false} ChainPrefix<A>(wire: seq<WireStep<A>>, order: seq<string>, n: nat)
    requires Linear(wire) && Distinct(Ids(wire)) && Schedule(wire, order) && n <= |order|
    ensures n <= |wire| && order[..n] == Ids(wire)[..n]
  {
    if n > 0 {
      ChainPrefix(wire, order, n - 1);
      NextInChain(wire, order, n - 1);
      assert order[..n] == order[..n - 1] + [order[n - 1]];
    }
  }

  lemma NextInChain<A>(wire: seq<WireStep<A>>, order: seq<string>, i: nat)
    requires Linear(wire) && Distinct(Ids(wire)) && Schedule(wire, order)
    requires i < |order| && i <= |wire| && order[..i] == Ids(wire)[..i]
    ensures i < |wire| && order[i] == Ids(wire)[i]
  {
    var ids := Ids(wire);
    assert order[i] in ids;
    var k :| 0 <= k < |ids| && ids[k] == order[i];
    forall j | 0 <= j < i ensures order[j] == ids[j] {
      assert order[..i][j] == ids[..i][j];
    }
    if k > 0 {
      assert Ready(wire, order[i], order[..i]) && wire[k].dependsOn == [ids[k - 1]];
      assert ids[k - 1] in wire[k].dependsOn;
      var j :| 0 <= j < i && ids[..i][j] == ids[k - 1];
    }
  }

  lemma SameWhenPrefix(order: seq<string>, ids: seq<string>)
    requires Permutation(order, ids) && Distinct(ids) && |order| <= |ids| && order == ids[..|order|]
    ensures order == ids
  {
    if ids != [] {
      var last := |ids| - 1;
      assert ids[last] in order;
      var j :| 0 <= j < |order| && order[j] == ids[last];
      assert ids[j] == ids[last];
    }
  }

  /** The jobs of a group may run in any order. */
  lemma GroupSchedules<A>(d: Definition<A>, order: seq<string>)
    requires Validate(d).Ok? && d.kind == "group"
    ensures Schedule(Compiled(d), order) <==> Permutation(order, JobIds(|d.jobs|))
  {
    assert Ids(Compiled(d)) == JobIds(|d.jobs|);
  }

  /** Whatever is not a job comes after all the jobs. */
  ghost predicate JobsFirst(jobIDs: seq<string>, order: seq<string>) {
    forall i, j :: 0 <= i < |order| && 0 <= j < |order| && order[i] !in jobIDs && order[j] in jobIDs ==> j < i
  }

  /** The schedules of a batch are the orders in which every callback follows all the jobs. */
  lemma BatchSchedules<A>(d: Definition<A>, order: seq<string>)
    requires Validate(d).Ok? && d.kind == "batch"
    ensures Schedule(Compiled(d), order)
       <==> Permutation(order, Ids(Compiled(d))) && JobsFirst(JobIds(|d.jobs|), order)
  {
    var wire, jobIDs := Compiled(d), JobIds(|d.jobs|);
    if Schedule(wire, order) {
      forall i, j | 0 <= i < |order| && 0 <= j < |order| && order[i] !in jobIDs && order[j] in jobIDs ensures j < i {
        AfterAllJobs(d, order, i, j);
      }
    }
    if Permutation(order, Ids(wire)) && JobsFirst(jobIDs, order) {
      forall i | 0 <= i < |order| ensures Ready(wire, order[i], order[..i]) {
        ReadyInBatch(d, order, i);
      }
    }
  }

  lemma BatchStep<A>(d: Definition<A>, k: nat)
    requires Validate(d).Ok? && d.kind == "batch" && k < |Compiled(d)|
    ensures k < |d.jobs| <==> Compiled(d)[k].id in JobIds(|d.jobs|)
    ensures Compiled(d)[k].dependsOn == if k < |d.jobs| then [] else JobIds(|d.jobs|)
    ensures forall id :: id in JobIds(|d.jobs|) ==> id in Ids(Compiled(d))
  {
    var wire, jobIDs := Compiled(d), JobIds(|d.jobs|);
    if k < |d.jobs| {
      assert jobIDs[k] == wire[k].id;
    } else {
      forall i | 0 <= i < |d.jobs| ensures jobIDs[i] != wire[k].id {
        CallbackIsNoJob(d.callbacks, jobIDs, i, k - |d.jobs|);
      }
    }
    forall i | 0 <= i < |d.jobs| ensures Ids(wire)[i] == jobIDs[i] {
    }
  }

  lemma AfterAllJobs<A>(d: Definition<A>, order: seq<string>, i: nat, j: nat)
    requires Validate(d).Ok? && d.kind == "batch" && Schedule(Compiled(d), order)
    requires i < |order| && j < |order| && order[i] !in JobIds(|d.jobs|) && order[j] in JobIds(|d.jobs|)
    ensures j < i
  {
    var wire := Compiled(d);
    assert order[i] in Ids(wire);
    var k: nat :| k < |wire| && Ids(wire)[k] == order[i];
    BatchStep(d, k);
    assert Ready(wire, order[i], order[..i]);
    var m :| 0 <= m < i && order[..i][m] == order[j];
    assert order[m] == order[j];
  }

  lemma ReadyInBatch<A>(d: Definition<A>, order: seq<string>, i: nat)
    requires Validate(d).Ok? && d.kind == "batch" && i < |order|
    requires Permutation(order, Ids(Compiled(d))) && JobsFirst(JobIds(|d.jobs|), order)
    ensures Ready(Compiled(d), order[i], order[..i])
  {
    var wire, jobIDs := Compiled(d), JobIds(|d.jobs|);
    forall k, dep | 0 <= k < |wire| && wire[k].id == order[i] && dep in wire[k].dependsOn ensures dep in order[..i] {
      BatchStep(d, k);
      assert dep in order;
      var j :| 0 <= j < |order| && order[j] == dep;
      assert order[..i][j] == dep;
    }
  }
}
