/**
 The circuit breaker of one region: checkRegion and recordFailure of federation/client.go over the
 fields of regionState (federation/types.go).

 A probe's beginning, its end and the recording of a failure are one step each. Times are nanoseconds.
 */
module Breaker {
  import opened Wrappers

  datatype Circuit = Closed | Open | HalfOpen

  datatype Region = Region(healthy: bool, latency: int, circuit: Circuit, failures: int, lastFailure: int)

  const NewRegion := Region(true, 0, Closed, 0, 0)

  /** The settings of the client: failureThreshold is an int32. */
  datatype Config = Config(failureThreshold: int, cooldownPeriod: int)

  const MAX_INT32 := 0x7FFF_FFFF

  /** The value of an int32 after an addition. */
  function Wrap32(n: int): int {
    (n + 0x8000_0000) % 0x1_0000_0000 - 0x8000_0000
  }

  // --- Steps ---

  function RecordFailure(cfg: Config, r: Region, now: int): Region {
    var count := Wrap32(r.failures + 1);
    var r' := r.(lastFailure := now, failures := count);
    if count >= cfg.failureThreshold then r'.(circuit := Open, healthy := false) else r'
  }

  predicate InCooldown(cfg: Config, r: Region, now: int) {
    r.circuit.Open? && now - r.lastFailure < cfg.cooldownPeriod
  }

  function BeginProbe(cfg: Config, r: Region, now: int): Region {
    if r.circuit.Open? && !InCooldown(cfg, r, now) then r.(circuit := HalfOpen) else r
  }

  function EndProbe(cfg: Config, r: Region, ok: bool, latency: int, now: int): Region {
    if ok then Region(true, latency, Closed, 0, r.lastFailure) else RecordFailure(cfg, r, now)
  }

  /** checkRegion as one step: nothing during the cooldown, else a probe that begins and ends. */
  function Check(cfg: Config, r: Region, start: int, ok: bool, finish: int): Region {
    if InCooldown(cfg, r, start) then r
    else EndProbe(cfg, BeginProbe(cfg, r, start), ok, finish - start, finish)
  }

  class RegionState {
    var healthy: bool
    var latency: int
    var cbState: Circuit
    var failures: int
    var lastFailure: int

    ghost function Snapshot(): Region
      reads this
    {
      Region(healthy, latency, cbState, failures, lastFailure)
    }

    constructor ()
      ensures Snapshot() == NewRegion
    {
      healthy, latency, cbState, failures, lastFailure := true, 0, Closed, 0, 0;
    }

    method RecordFailureAt(cfg: Config, now: int)
      modifies this
      ensures Snapshot() == RecordFailure(cfg, old(Snapshot()), now)
    {
      lastFailure := now;
      failures := Wrap32(failures + 1);
      if failures >= cfg.failureThreshold {
        cbState := Open;
        healthy := false;
      }
    }

    /** `ok` is whether the health request, answered at `finish`, reported "ok". */
    method CheckRegion(cfg: Config, start: int, ok: bool, finish: int)
      modifies this
      ensures Snapshot() == Check(cfg, old(Snapshot()), start, ok, finish)
    {
      if cbState == Open {
        if start - lastFailure < cfg.cooldownPeriod {
          return;
        }
        cbState := HalfOpen;
      }
      if !ok {
        RecordFailureAt(cfg, finish);
        return;
      }
      healthy := true;
      latency := finish - start;
      failures := 0;
      cbState := Closed;
    }
  }

  // --- Runs in which probes and enqueue failures interleave ---

  /** Any number of probes may be under way; `probe` tells which one begins or ends. */
  datatype Step =
    | Begin(probe: nat, now: int)
    | End(probe: nat, ok: bool, latency: int, now: int)
    | EnqueueFailed(now: int)

  function Take(cfg: Config, r: Region, s: Step): Region {
    match s
    case Begin(_, now) => BeginProbe(cfg, r, now)
    case End(_, ok, latency, now) => EndProbe(cfg, r, ok, latency, now)
    case EnqueueFailed(now) => RecordFailure(cfg, r, now)
  }

  function After(cfg: Config, trace: seq<Step>): Region {
    if trace == [] then NewRegion
    else Take(cfg, After(cfg, trace[..|trace| - 1]), trace[|trace| - 1])
  }

  predicate Fails(s: Step) { s.EnqueueFailed? || (s.End? && !s.ok) }

  /** How many failures there were since the last successful probe. */
  function FailuresInARow(trace: seq<Step>): nat {
    if trace == [] then 0
    else
      var last := trace[|trace| - 1];
      if last.End? && last.ok then 0
      else FailuresInARow(trace[..|trace| - 1]) + if Fails(last) then 1 else 0
  }

  /** The counter never passes the largest int32. */
  predicate NoWrap(trace: seq<Step>) {
    FailuresInARow(trace) <= MAX_INT32 && (trace == [] || NoWrap(trace[..|trace| - 1]))
  }

  predicate Consistent(cfg: Config, r: Region) {
    (r.healthy <==> r.circuit.Closed?) && (r.circuit.Closed? <==> r.failures < cfg.failureThreshold)
  }

  /** In every run the three fields agree, and the counter counts the failures since the last success. */
  lemma {:induction false} BreakerInvariant(cfg: Config, trace: seq<Step>)
    requires cfg.failureThreshold >= 1 && NoWrap(trace)
    ensures Consistent(cfg, After(cfg, trace)) && After(cfg, trace).failures == FailuresInARow(trace)
  {
    if trace != [] {
      BreakerInvariant(cfg, trace[..|trace| - 1]);
    }
  }

  /** A failed half-open probe always reopens the circuit. */
  lemma HalfOpenFailureReopens(cfg: Config, trace: seq<Step>, probe: nat, latency: int, now: int)
    requires cfg.failureThreshold >= 1 && NoWrap(trace + [End(probe, false, latency, now)])
    requires After(cfg, trace).circuit.HalfOpen?
    ensures var r := After(cfg, trace + [End(probe, false, latency, now)]);
            r.circuit.Open? && !r.healthy && r.lastFailure == now
  {
    var last := End(probe, false, latency, now);
    assert (trace + [last])[..|trace|] == trace;
    BreakerInvariant(cfg, trace);
    BreakerInvariant(cfg, trace + [last]);
  }

  predicate Succeeds(s: Step) { s.End? && s.ok }

  /** Step i is the last successful end of a probe. */
  ghost predicate LastSuccess(trace: seq<Step>, i: nat) {
    i < |trace| && Succeeds(trace[i]) && forall j :: i < j < |trace| ==> !Succeeds(trace[j])
  }

  /** The latency is the one that the last successful probe measured, and zero if there was none. */
  lemma {:induction false} LatencyIsMeasured(cfg: Config, trace: seq<Step>)
    ensures forall i: nat :: LastSuccess(trace, i) ==> After(cfg, trace).latency == trace[i].latency
    ensures (forall i :: 0 <= i < |trace| ==> !Succeeds(trace[i])) ==> After(cfg, trace).latency == 0
  {
    if trace != [] {
      var n := |trace| - 1;
      var before := trace[..n];
      LatencyIsMeasured(cfg, before);
      forall i: nat | LastSuccess(trace, i) ensures After(cfg, trace).latency == trace[i].latency {
        if i < n {
          assert !Succeeds(trace[n]);
          assert LastSuccess(before, i);
        }
      }
    }
  }

  predicate ConsistentAfter(cfg: Config, trace: seq<Step>) {
    NoWrap(trace) ==> Consistent(cfg, After(cfg, trace))
  }

  /** A threshold of at least one is exactly what the agreement of the fields takes. */
  lemma ThresholdNeeded(cfg: Config)
    ensures cfg.failureThreshold >= 1 <==> forall trace :: ConsistentAfter(cfg, trace)
  {
    if cfg.failureThreshold >= 1 {
      forall trace | NoWrap(trace) ensures Consistent(cfg, After(cfg, trace)) {
        BreakerInvariant(cfg, trace);
      }
    } else {
      assert !ConsistentAfter(cfg, []);
    }
  }

  predicate ConsistentAt(cfg: Config, trace: seq<Step>, n: nat)
    requires n <= |trace|
  {
    Consistent(cfg, After(cfg, trace[..n]))
  }

  lemma {:induction false} NoWrapPrefix(trace: seq<Step>, n: nat)
    requires NoWrap(trace) && n <= |trace|
    ensures NoWrap(trace[..n])
  {
    if n == |trace| {
      assert trace[..n] == trace;
    } else {
      assert trace[..|trace| - 1][..n] == trace[..n];
      NoWrapPrefix(trace[..|trace| - 1], n);
    }
  }

  /** The first prefix in which the counter wraps. */
  lemma {:induction false} FirstWrap(trace: seq<Step>) returns (n: nat)
    requires !NoWrap(trace)
    ensures 0 < n <= |trace| && NoWrap(trace[..n - 1]) && FailuresInARow(trace[..n]) > MAX_INT32
  {
    var before := trace[..|trace| - 1];
    if NoWrap(before) {
      n := |trace|;
      assert trace[..n] == trace;
    } else {
      n := FirstWrap(before);
      assert before[..n] == trace[..n] && before[..n - 1] == trace[..n - 1];
    }
  }

  /** The failure that makes the counter wrap leaves an open circuit with a negative counter. */
  lemma WrapIsInconsistent(cfg: Config, trace: seq<Step>)
    requires 1 <= cfg.failureThreshold <= MAX_INT32
    requires trace != [] && NoWrap(trace[..|trace| - 1]) && FailuresInARow(trace) > MAX_INT32
    ensures !Consistent(cfg, After(cfg, trace))
  {
    BreakerInvariant(cfg, trace[..|trace| - 1]);
    assert After(cfg, trace).failures == -0x8000_0000;
  }

  /**
   In a given run the three fields agree all along if and only if the threshold is at least one and the
   failures in a row never exceed what an int32 counts.
   */
  lemma ConsistentIff(cfg: Config, trace: seq<Step>)
    requires cfg.failureThreshold <= MAX_INT32
    ensures (forall n: nat :: n <= |trace| ==> ConsistentAt(cfg, trace, n))
       <==> cfg.failureThreshold >= 1 && NoWrap(trace)
  {
    if cfg.failureThreshold < 1 {
      assert !ConsistentAt(cfg, trace, 0);
    } else if NoWrap(trace) {
      forall n: nat | n <= |trace| ensures ConsistentAt(cfg, trace, n) {
        NoWrapPrefix(trace, n);
        BreakerInvariant(cfg, trace[..n]);
      }
    } else {
      var n := FirstWrap(trace);
      assert trace[..n][..n - 1] == trace[..n - 1];
      WrapIsInconsistent(cfg, trace[..n]);
      assert !ConsistentAt(cfg, trace, n);
    }
  }

  /** A region that is down, and stays down for n enqueues. */
  function Outage(n: nat): seq<Step> { seq(n, _ => EnqueueFailed(0)) }

  lemma {:induction false} OutageCounts(n: nat)
    ensures FailuresInARow(Outage(n)) == n
  {
    if n > 0 {
      assert Outage(n)[..n - 1] == Outage(n - 1);
      OutageCounts(n - 1);
    }
  }

  /** There are runs in which the counter wraps, and then the fields disagree at some time. */
  lemma OutageWraps(cfg: Config)
    requires cfg.failureThreshold <= MAX_INT32
    ensures var trace := Outage(MAX_INT32 + 1);
            !NoWrap(trace) && exists n: nat :: n <= |trace| && !ConsistentAt(cfg, trace, n)
  {
    OutageCounts(MAX_INT32 + 1);
    ConsistentIff(cfg, Outage(MAX_INT32 + 1));
  }

  // --- The cooldown, with probes that take time ---

  function Time(s: Step): int { s.now }

  /** The clock does not go back. */
  ghost predicate InOrder(trace: seq<Step>) {
    forall i, j :: 0 <= i < j < |trace| ==> Time(trace[i]) <= Time(trace[j])
  }

  /** Where the probe began that is under way, if it is. */
  function UnderWay(cfg: Config, trace: seq<Step>, probe: nat): (begun: Option<nat>)
    ensures begun.Some? ==> begun.value < |trace| && trace[begun.value].Begin?
  {
    if trace == [] then None
    else
      var before, last := trace[..|trace| - 1], trace[|trace| - 1];
      if last.Begin? && last.probe == probe then
        if InCooldown(cfg, After(cfg, before), last.now) then None else Some(|trace| - 1)
      else if last.End? && last.probe == probe then None
      else UnderWay(cfg, before, probe)
  }

  lemma {:induction false} BegunAfterCooldown(cfg: Config, trace: seq<Step>, probe: nat)
    requires UnderWay(cfg, trace, probe).Some?
    ensures var i := UnderWay(cfg, trace, probe).value;
            !InCooldown(cfg, After(cfg, trace[..i]), Time(trace[i]))
  {
    var before := trace[..|trace| - 1];
    var i := UnderWay(cfg, trace, probe).value;
    if i < |trace| - 1 {
      BegunAfterCooldown(cfg, before, probe);
      assert before[..i] == trace[..i];
    }
  }

  lemma {:induction false} RememberedIsLatest(cfg: Config, trace: seq<Step>, i: nat)
    requires InOrder(trace) && i < |trace| && Fails(trace[i])
    ensures Time(trace[i]) <= After(cfg, trace).lastFailure
    decreases |trace|
  {
    var n := |trace| - 1;
    if i < n {
      RememberedIsLatest(cfg, trace[..n], i);
      assert Fails(trace[n]) ==> After(cfg, trace).lastFailure == Time(trace[n]);
    }
  }

  /** At `now` every failure recorded is at least the cooldown old. */
  ghost predicate Cooled(cfg: Config, trace: seq<Step>, now: int) {
    forall i :: 0 <= i < |trace| && Fails(trace[i]) ==> now >= Time(trace[i]) + cfg.cooldownPeriod
  }

  lemma OnlySuccessCloses(cfg: Config, r: Region, s: Step)
    ensures !r.circuit.Closed? && Take(cfg, r, s).circuit.Closed? ==> s.End? && s.ok
  {
  }

  lemma RememberedCooled(cfg: Config, trace: seq<Step>, now: int)
    requires InOrder(trace) && now >= After(cfg, trace).lastFailure + cfg.cooldownPeriod
    ensures Cooled(cfg, trace, now)
  {
    forall i | 0 <= i < |trace| && Fails(trace[i]) ensures Time(trace[i]) <= After(cfg, trace).lastFailure {
      RememberedIsLatest(cfg, trace, i);
    }
  }

  lemma CooledLater(cfg: Config, trace: seq<Step>, last: Step, now: int)
    requires Cooled(cfg, trace, now) && now <= Time(last) && !Fails(last)
    ensures Cooled(cfg, trace + [last], Time(last))
  {
  }

  /** A half-open circuit has cooled down, and no failure was recorded since. */
  lemma {:induction false} HalfOpenCooled(cfg: Config, trace: seq<Step>)
    requires cfg.failureThreshold >= 1 && NoWrap(trace) && InOrder(trace)
    requires After(cfg, trace).circuit.HalfOpen?
    ensures trace != [] && Cooled(cfg, trace, Time(trace[|trace| - 1]))
  {
    var before, last := trace[..|trace| - 1], trace[|trace| - 1];
    BreakerInvariant(cfg, trace);
    assert trace == before + [last];
    if After(cfg, before).circuit.HalfOpen? {
      BreakerInvariant(cfg, before);
      HalfOpenCooled(cfg, before);
      CooledLater(cfg, before, last, Time(before[|before| - 1]));
    } else {
      RememberedCooled(cfg, before, Time(last));
      CooledLater(cfg, before, last, Time(last));
    }
  }

  /** No failure was recorded since the probe began. */
  ghost predicate Undisturbed(trace: seq<Step>, begun: nat) {
    forall j :: begun < j < |trace| ==> !Fails(trace[j])
  }

  lemma {:induction false} StaysClosed(cfg: Config, trace: seq<Step>, begun: nat)
    requires begun < |trace| && trace[begun].Begin? && Undisturbed(trace, begun)
    requires After(cfg, trace[..begun]).circuit.Closed?
    ensures After(cfg, trace).circuit.Closed?
    decreases |trace|
  {
    var before := trace[..|trace| - 1];
    if begun < |trace| - 1 {
      assert before[..begun] == trace[..begun];
      StaysClosed(cfg, before, begun);
    }
  }

  /** When a probe begins on a circuit that is not closed, every failure before is at least the cooldown old. */
  lemma BegunCooled(cfg: Config, trace: seq<Step>, probe: nat)
    requires cfg.failureThreshold >= 1 && NoWrap(trace) && InOrder(trace) && UnderWay(cfg, trace, probe).Some?
    ensures var i := UnderWay(cfg, trace, probe).value;
            !After(cfg, trace[..i]).circuit.Closed? ==> Cooled(cfg, trace[..i], Time(trace[i]))
  {
    var i := UnderWay(cfg, trace, probe).value;
    BegunAfterCooldown(cfg, trace, probe);
    NoWrapPrefix(trace, i);
    var r := After(cfg, trace[..i]);
    if r.circuit.HalfOpen? {
      HalfOpenCooled(cfg, trace[..i]);
      assert Time(trace[i - 1]) <= Time(trace[i]);
    } else if r.circuit.Open? {
      RememberedCooled(cfg, trace[..i], Time(trace[i]));
    }
  }

  /**
   A circuit that is not closed closes only at the successful end of a probe. That probe began at least
   the cooldown, if there is one, after every failure recorded so far if and only if none was recorded while
   it was under way.
   */
  lemma ClosedAfterCooldownIff(cfg: Config, trace: seq<Step>, s: Step)
    requires cfg.failureThreshold >= 1 && NoWrap(trace) && InOrder(trace)
    requires s.End? ==> UnderWay(cfg, trace, s.probe).Some?
    requires !After(cfg, trace).circuit.Closed? && After(cfg, trace + [s]).circuit.Closed?
    ensures s.End? && s.ok
    ensures var begun := UnderWay(cfg, trace, s.probe).value;
            && (Undisturbed(trace, begun) ==> Cooled(cfg, trace, Time(trace[begun])))
            && (cfg.cooldownPeriod > 0 && Cooled(cfg, trace, Time(trace[begun])) ==> Undisturbed(trace, begun))
  {
    AfterOne(cfg, trace, s);
    OnlySuccessCloses(cfg, After(cfg, trace), s);
    var begun := UnderWay(cfg, trace, s.probe).value;
    BegunCooled(cfg, trace, s.probe);
    if Undisturbed(trace, begun) {
      StaysClosedOrCools(cfg, trace, begun);
    }
  }

  /** A failure that is recorded while a probe is under way is forgotten when the probe succeeds. */
  lemma ClosedTooEarly(cool: nat)
    requires cool > 0
    ensures var cfg := Config(1, cool);
            var trace := [EnqueueFailed(0), Begin(0, cool), EnqueueFailed(cool + 1)];
            && NoWrap(trace) && InOrder(trace) && UnderWay(cfg, trace, 0) == Some(1)
            && After(cfg, trace).circuit.Open?
            && After(cfg, trace + [End(0, true, 2, cool + 2)]).circuit.Closed?
            && !Cooled(cfg, trace, cool)
  {
    var cfg := Config(1, cool);
    var a, b, d := EnqueueFailed(0), Begin(0, cool), EnqueueFailed(cool + 1);
    assert [a, b, d][..2] == [a, b] && [a, b][..1] == [a] && [a][..0] == [];
    AfterOne(cfg, [a, b, d], End(0, true, 2, cool + 2));
    assert After(cfg, [a]) == Region(false, 0, Open, 1, 0);
    assert FailuresInARow([a]) == 1 && NoWrap([a]) && NoWrap([a, b]);
    assert Fails([a, b, d][2]) && Time([a, b, d][2]) == cool + 1;
  }

  lemma StaysClosedOrCools(cfg: Config, trace: seq<Step>, begun: nat)
    requires begun < |trace| && trace[begun].Begin? && Undisturbed(trace, begun)
    requires !After(cfg, trace[..begun]).circuit.Closed? ==> Cooled(cfg, trace[..begun], Time(trace[begun]))
    ensures After(cfg, trace).circuit.Closed? || Cooled(cfg, trace, Time(trace[begun]))
  {
    if After(cfg, trace[..begun]).circuit.Closed? {
      StaysClosed(cfg, trace, begun);
    } else {
      forall j | 0 <= j < begun && Fails(trace[j]) ensures Time(trace[begun]) >= Time(trace[j]) + cfg.cooldownPeriod {
        assert trace[..begun][j] == trace[j];
      }
    }
  }

  // --- Runs in which each check is one step ---

  datatype Event = Probe(start: int, ok: bool, finish: int) | Failure(now: int)

  function Apply(cfg: Config, r: Region, e: Event): Region {
    match e
    case Probe(start, ok, finish) => Check(cfg, r, start, ok, finish)
    case Failure(now) => RecordFailure(cfg, r, now)
  }

  function State(cfg: Config, trace: seq<Event>): Region {
    if trace == [] then NewRegion else Apply(cfg, State(cfg, trace[..|trace| - 1]), trace[|trace| - 1])
  }

  function Finish(e: Event): int { if e.Probe? then e.finish else e.now }

  function Start(e: Event): int { if e.Probe? then e.start else e.now }

  /** The clock does not go back. */
  ghost predicate Monotone(trace: seq<Event>) {
    && (forall i :: 0 <= i < |trace| ==> Start(trace[i]) <= Finish(trace[i]))
    && (forall i, j :: 0 <= i < j < |trace| ==> Finish(trace[i]) <= Start(trace[j]))
  }

  /** Did event i record a failure? A failing probe that was skipped for the cooldown did not. */
  predicate Recorded(cfg: Config, trace: seq<Event>, i: nat)
    requires i < |trace|
  {
    trace[i].Failure? || (!trace[i].ok && !InCooldown(cfg, State(cfg, trace[..i]), trace[i].start))
  }

  function Expand(cfg: Config, r: Region, e: Event): seq<Step> {
    match e
    case Failure(now) => [EnqueueFailed(now)]
    case Probe(start, ok, finish) =>
      if InCooldown(cfg, r, start) then [Begin(0, start)]
      else [Begin(0, start), End(0, ok, finish - start, finish)]
  }

  /** The same run with each check taken apart into its steps. */
  function Steps(cfg: Config, trace: seq<Event>): seq<Step> {
    if trace == [] then []
    else
      var before := trace[..|trace| - 1];
      Steps(cfg, before) + Expand(cfg, State(cfg, before), trace[|trace| - 1])
  }

  lemma AfterOne(cfg: Config, trace: seq<Step>, s: Step)
    ensures After(cfg, trace + [s]) == Take(cfg, After(cfg, trace), s)
  {
    assert (trace + [s])[..|trace|] == trace;
  }

  lemma AfterTwo(cfg: Config, trace: seq<Step>, s: Step, t: Step)
    ensures After(cfg, trace + [s, t]) == Take(cfg, Take(cfg, After(cfg, trace), s), t)
  {
    AfterOne(cfg, trace, s);
    AfterOne(cfg, trace + [s], t);
    assert trace + [s, t] == trace + [s] + [t];
  }

  lemma ExpandApplies(cfg: Config, trace: seq<Step>, e: Event)
    ensures After(cfg, trace + Expand(cfg, After(cfg, trace), e)) == Apply(cfg, After(cfg, trace), e)
  {
    match e
    case Failure(now) => AfterOne(cfg, trace, EnqueueFailed(now));
    case Probe(start, ok, finish) =>
      if InCooldown(cfg, After(cfg, trace), start) {
        AfterOne(cfg, trace, Begin(0, start));
      } else {
        AfterTwo(cfg, trace, Begin(0, start), End(0, ok, finish - start, finish));
      }
  }

  lemma {:induction false} StateIsAfter(cfg: Config, trace: seq<Event>)
    ensures State(cfg, trace) == After(cfg, Steps(cfg, trace))
  {
    if trace != [] {
      StateIsAfter(cfg, trace[..|trace| - 1]);
      ExpandApplies(cfg, Steps(cfg, trace[..|trace| - 1]), trace[|trace| - 1]);
    }
  }

  /** With a clock that does not go back, no recorded failure is later than the one remembered. */
  lemma {:induction false} LastFailureIsLatest(cfg: Config, trace: seq<Event>, i: nat)
    requires Monotone(trace) && i < |trace| && Recorded(cfg, trace, i)
    ensures Finish(trace[i]) <= State(cfg, trace).lastFailure
    decreases |trace|
  {
    var n := |trace| - 1;
    var before := trace[..n];
    if i < n {
      assert before[..i] == trace[..i];
      LastFailureIsLatest(cfg, before, i);
      LaterFailure(cfg, State(cfg, before), trace[n]);
    }
  }

  lemma LaterFailure(cfg: Config, r: Region, e: Event)
    ensures Apply(cfg, r, e).lastFailure == r.lastFailure || Apply(cfg, r, e).lastFailure == Finish(e)
  {
  }

  /** The failure remembered by a breaker that is not closed was recorded in the run. */
  lemma {:induction false} LastFailureIsRecorded(cfg: Config, trace: seq<Event>) returns (i: nat)
    requires !State(cfg, trace).circuit.Closed?
    ensures i < |trace| && Recorded(cfg, trace, i) && Finish(trace[i]) == State(cfg, trace).lastFailure
  {
    var n := |trace| - 1;
    var before := trace[..n];
    i := n;
    if !Recorded(cfg, trace, n) {
      i := LastFailureIsRecorded(cfg, before);
      assert before[..i] == trace[..i] && before[i] == trace[i];
    }
  }

  /** At least the cooldown has passed since every failure recorded in the run. */
  ghost predicate CooledDown(cfg: Config, trace: seq<Event>, now: int) {
    forall i :: 0 <= i < |trace| && Recorded(cfg, trace, i) ==> now >= Finish(trace[i]) + cfg.cooldownPeriod
  }

  lemma CooledDownIff(cfg: Config, trace: seq<Event>, now: int)
    requires Monotone(trace) && State(cfg, trace).circuit.Open?
    ensures CooledDown(cfg, trace, now) <==> !InCooldown(cfg, State(cfg, trace), now)
  {
    var k := LastFailureIsRecorded(cfg, trace);
    forall i | 0 <= i < |trace| && Recorded(cfg, trace, i)
      ensures Finish(trace[i]) <= State(cfg, trace).lastFailure
    {
      LastFailureIsLatest(cfg, trace, i);
    }
  }

  /**
   An open breaker closes on, and only on, a successful probe that starts at least the cooldown after
   every recorded failure; whatever else happens it stays open.
   */
  lemma OpenUntilCooledProbe(cfg: Config, trace: seq<Event>, e: Event)
    requires cfg.failureThreshold >= 1 && Monotone(trace) && NoWrap(Steps(cfg, trace + [e]))
    requires State(cfg, trace).circuit.Open?
    ensures var r := State(cfg, trace + [e]);
            && (r.circuit.Closed? <==> e.Probe? && e.ok && CooledDown(cfg, trace, e.start))
            && (r.circuit.Open? <==> !r.circuit.Closed?)
  {
    assert (trace + [e])[..|trace|] == trace;
    NotHalfOpen(cfg, trace + [e]);
    CooledDownIff(cfg, trace, Start(e));
  }

  lemma ConsistentBetweenChecks(cfg: Config, trace: seq<Event>)
    requires cfg.failureThreshold >= 1 && NoWrap(Steps(cfg, trace))
    ensures Consistent(cfg, State(cfg, trace))
  {
    StateIsAfter(cfg, trace);
    BreakerInvariant(cfg, Steps(cfg, trace));
  }

  /** Check i was a probe that was made and succeeded. */
  predicate Measured(cfg: Config, trace: seq<Event>, i: nat)
    requires i < |trace|
  {
    trace[i].Probe? && trace[i].ok && !InCooldown(cfg, State(cfg, trace[..i]), trace[i].start)
  }

  ghost predicate LastMeasured(cfg: Config, trace: seq<Event>, i: nat) {
    i < |trace| && Measured(cfg, trace, i) && forall j: nat :: i < j < |trace| ==> !Measured(cfg, trace, j)
  }

  lemma LatencyStep(cfg: Config, r: Region, e: Event)
    ensures Apply(cfg, r, e).latency
         == if e.Probe? && e.ok && !InCooldown(cfg, r, e.start) then e.finish - e.start else r.latency
  {
  }

  /**
   In runs of whole checks the latency is the time that the last successful check took, one that was not
   skipped for the cooldown.
   */
  lemma {:induction false} LatencyOfLastCheck(cfg: Config, trace: seq<Event>, i: nat)
    requires LastMeasured(cfg, trace, i)
    ensures State(cfg, trace).latency == trace[i].finish - trace[i].start
    decreases |trace|
  {
    var n := |trace| - 1;
    var before := trace[..n];
    LatencyStep(cfg, State(cfg, before), trace[n]);
    if i < n {
      assert !Measured(cfg, trace, n);
      MeasuredBefore(cfg, trace, i);
      forall j: nat | i < j < n ensures !Measured(cfg, before, j) {
        MeasuredBefore(cfg, trace, j);
      }
      LatencyOfLastCheck(cfg, before, i);
    }
  }

  /** Until a check succeeds the latency is zero. */
  lemma {:induction false} NoLatencyYet(cfg: Config, trace: seq<Event>)
    requires forall i: nat :: i < |trace| ==> !Measured(cfg, trace, i)
    ensures State(cfg, trace).latency == 0
  {
    if trace != [] {
      var n := |trace| - 1;
      assert !Measured(cfg, trace, n);
      forall i: nat | i < n ensures !Measured(cfg, trace[..n], i) {
        MeasuredBefore(cfg, trace, i);
      }
      NoLatencyYet(cfg, trace[..n]);
      LatencyStep(cfg, State(cfg, trace[..n]), trace[n]);
    }
  }

  lemma MeasuredBefore(cfg: Config, trace: seq<Event>, i: nat)
    requires i < |trace| - 1
    ensures Measured(cfg, trace[..|trace| - 1], i) == Measured(cfg, trace, i)
  {
    assert trace[..|trace| - 1][..i] == trace[..i];
  }

  lemma {:induction false} StepsPrefix(cfg: Config, trace: seq<Event>, n: nat)
    requires n <= |trace|
    ensures Steps(cfg, trace[..n]) <= Steps(cfg, trace)
  {
    if n == |trace| {
      assert trace[..n] == trace;
    } else {
      assert trace[..|trace| - 1][..n] == trace[..n];
      StepsPrefix(cfg, trace[..|trace| - 1], n);
    }
  }

  lemma NoWrapBefore(cfg: Config, trace: seq<Event>, n: nat)
    requires n <= |trace| && NoWrap(Steps(cfg, trace))
    ensures NoWrap(Steps(cfg, trace[..n]))
  {
    var all, some := Steps(cfg, trace), Steps(cfg, trace[..n]);
    StepsPrefix(cfg, trace, n);
    NoWrapPrefix(all, |some|);
    assert all[..|some|] == some;
  }

  /** After any run of whole checks the breaker is not half-open. */
  lemma {:induction false} NotHalfOpen(cfg: Config, trace: seq<Event>)
    requires cfg.failureThreshold >= 1 && NoWrap(Steps(cfg, trace))
    ensures !State(cfg, trace).circuit.HalfOpen?
  {
    if trace != [] {
      NoWrapBefore(cfg, trace, |trace| - 1);
      NotHalfOpen(cfg, trace[..|trace| - 1]);
      ConsistentBetweenChecks(cfg, trace);
    }
  }
}
