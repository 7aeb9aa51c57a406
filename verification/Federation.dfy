/**
 Federated enqueueing: the traffic that the breakers of federation/client.go gate.

 An enqueue, from the snapshot of the healthy regions to the recording of a failure, and a check are one
 step each. Which regions are reachable is a parameter of each operation.
 */
module Federation {
  import opened Sequences
  import opened Wrappers
  import Breaker
  import Router

  datatype Error =
    | NoRegions
    | NoHealthyRegions
    | RegionNotFound
    | RegionUnavailable
    | Routing(error: Router.Error)
    | Rejected

  // --- Runs over all regions ---

  /** A step of the breaker of one region. */
  datatype Event = Event(region: string, step: Breaker.Step)

  type Fleet = map<string, Breaker.Region>

  function TakeAt(cfg: Breaker.Config, fleet: Fleet, e: Event): Fleet {
    if e.region in fleet then fleet[e.region := Breaker.Take(cfg, fleet[e.region], e.step)] else fleet
  }

  function NewFleet(ids: set<string>): Fleet { map id | id in ids :: Breaker.NewRegion }

  function Run(cfg: Breaker.Config, ids: set<string>, trace: seq<Event>): Fleet {
    if trace == [] then NewFleet(ids)
    else TakeAt(cfg, Run(cfg, ids, trace[..|trace| - 1]), trace[|trace| - 1])
  }

  /** The steps of one region. */
  function Project(trace: seq<Event>, id: string): seq<Breaker.Step> {
    if trace == [] then []
    else
      var last := trace[|trace| - 1];
      Project(trace[..|trace| - 1], id) + if last.region == id then [last.step] else []
  }

  lemma RunOne(cfg: Breaker.Config, ids: set<string>, trace: seq<Event>, e: Event)
    ensures Run(cfg, ids, trace + [e]) == TakeAt(cfg, Run(cfg, ids, trace), e)
  {
    assert (trace + [e])[..|trace|] == trace;
  }

  /** Regions do not affect each other: each is as its own steps alone leave it. */
  lemma {:induction false} Isolated(cfg: Breaker.Config, ids: set<string>, trace: seq<Event>, id: string)
    requires id in ids
    ensures Run(cfg, ids, trace).Keys == ids
    ensures Run(cfg, ids, trace)[id] == Breaker.After(cfg, Project(trace, id))
  {
    if trace != [] {
      var before, last := trace[..|trace| - 1], trace[|trace| - 1];
      Isolated(cfg, ids, before, id);
      if last.region == id {
        Breaker.AfterOne(cfg, Project(before, id), last.step);
      } else {
        assert Project(before, id) + [] == Project(before, id);
      }
    }
  }

  /** What the routing strategies are shown. */
  function Healthy(fleet: Fleet, weights: map<string, int>): Router.Regions
    requires fleet.Keys <= weights.Keys
  {
    map id | id in fleet && fleet[id].healthy :: Router.Info(weights[id], fleet[id].latency)
  }

  /**
   After any run the healthy regions are those whose circuit is closed, and those with fewer failures
   since their last successful probe than the threshold.
   */
  lemma HealthyIffClosed(cfg: Breaker.Config, weights: map<string, int>, trace: seq<Event>, id: string)
    requires cfg.failureThreshold >= 1 && id in weights && Breaker.NoWrap(Project(trace, id))
    ensures var fleet := Run(cfg, weights.Keys, trace);
            && fleet.Keys == weights.Keys
            && (id in Healthy(fleet, weights) <==> fleet[id].circuit.Closed?)
            && (id in Healthy(fleet, weights)
                <==> Breaker.FailuresInARow(Project(trace, id)) < cfg.failureThreshold)
  {
    Isolated(cfg, weights.Keys, trace, id);
    Breaker.BreakerInvariant(cfg, Project(trace, id));
  }

  /**
   What a strategy is shown of a healthy region: its own configured weight, and the latency that the last
   successful probe of that region measured.
   */
  lemma ShownIs(cfg: Breaker.Config, weights: map<string, int>, trace: seq<Event>, id: string)
    requires id in weights && Run(cfg, weights.Keys, trace).Keys == weights.Keys
    requires id in Healthy(Run(cfg, weights.Keys, trace), weights)
    ensures var shown, steps := Healthy(Run(cfg, weights.Keys, trace), weights)[id], Project(trace, id);
            && shown.weight == weights[id]
            && (forall i: nat :: Breaker.LastSuccess(steps, i) ==> shown.latency == steps[i].latency)
            && ((forall i :: 0 <= i < |steps| ==> !Breaker.Succeeds(steps[i])) ==> shown.latency == 0)
  {
    Isolated(cfg, weights.Keys, trace, id);
    Breaker.LatencyIsMeasured(cfg, Project(trace, id));
  }

  // --- The client ---

  /** `reachable` is whether a client can be made for the URL. */
  datatype RegionConfig = RegionConfig(id: string, weight: int, reachable: bool)

  const DEFAULT_WEIGHT := 1

  /** The weights that a list of options configures; a later option for a region replaces an earlier one. */
  function Weights(configs: seq<RegionConfig>): map<string, int> {
    if configs == [] then map[]
    else
      var before, last := Weights(configs[..|configs| - 1]), configs[|configs| - 1];
      if !last.reachable then before
      else before[last.id := if last.weight <= 0 then DEFAULT_WEIGHT else last.weight]
  }

  class FederatedClient {
    const regions: map<string, Breaker.RegionState>
    const weights: map<string, int>
    const localRegion: string
    const strategy: Router.Strategy
    const cfg: Breaker.Config
    /** What has happened to the breakers so far. */
    ghost var history: seq<Event>

    ghost function States(): set<object> { set id | id in regions :: regions[id] }

    ghost function Routers(): set<object> { if strategy.RoundRobin? then {strategy.router} else {} }

    ghost function Fleet(): Fleet
      reads States()
    {
      map id | id in regions :: regions[id].Snapshot()
    }

    ghost predicate Valid()
      reads this, States(), Routers()
    {
      && regions.Keys == weights.Keys && (forall id :: id in weights ==> weights[id] >= 1)
      && (forall a, b :: a in regions && b in regions && regions[a] == regions[b] ==> a == b)
      && States() !! Routers() && (strategy.RoundRobin? ==> strategy.router.Valid())
      && Fleet() == Run(cfg, regions.Keys, history)
    }

    /** The options are applied in order; one whose client cannot be made is skipped. */
    constructor (configs: seq<RegionConfig>, localRegion: string, strategy: Router.Strategy, cfg: Breaker.Config)
      requires strategy.RoundRobin? ==> strategy.router.Valid()
      ensures Valid() && history == []
      ensures weights == Weights(configs)
      ensures this.localRegion == localRegion && this.strategy == strategy && this.cfg == cfg
      ensures forall id :: id in regions ==> fresh(regions[id])
    {
      var made: map<string, Breaker.RegionState>, given: map<string, int> := map[], map[];
      for i := 0 to |configs|
        invariant given == Weights(configs[..i])
        invariant made.Keys == given.Keys && forall id :: id in given ==> given[id] >= 1
        invariant forall id :: id in made ==> fresh(made[id]) && made[id].Snapshot() == Breaker.NewRegion
        invariant forall a, b :: a in made && b in made && made[a] == made[b] ==> a == b
      {
        assert configs[..i + 1][..i] == configs[..i];
        var config := configs[i];
        var weight := if config.weight <= 0 then DEFAULT_WEIGHT else config.weight;
        if config.reachable {
          var rs := new Breaker.RegionState();
          made, given := made[config.id := rs], given[config.id := weight];
        }
      }
      assert configs[..|configs|] == configs;
      this.localRegion, this.strategy, this.cfg, history := localRegion, strategy, cfg, [];
      regions, weights := made, given;
    }

    method HealthyRegions(order: seq<string>) returns (healthy: Router.Regions)
      requires Valid() && Distinct(order) && forall id :: id in order <==> id in regions
      ensures healthy == Healthy(Fleet(), weights)
      ensures forall id :: id in healthy <==> id in regions && regions[id].healthy
      ensures forall id :: id in healthy ==>
                healthy[id].weight == weights[id] && healthy[id].latency == regions[id].latency
    {
      healthy := map[];
      for i := 0 to |order|
        invariant forall id :: id in healthy <==> id in order[..i] && regions[id].healthy
        invariant forall id :: id in healthy ==> healthy[id] == Router.Info(weights[id], regions[id].latency)
      {
        var id := order[i];
        assert id in order;
        if regions[id].healthy {
          healthy := healthy[id := Router.Info(weights[id], regions[id].latency)];
        }
      }
      assert order[..|order|] == order;
    }

    /** Unless the threshold is below one or the counter has wrapped, the circuit of the region is closed. */
    ghost predicate WasClosed(fleet: Fleet, trace: seq<Event>, id: string) {
      cfg.failureThreshold >= 1 && Breaker.NoWrap(Project(trace, id)) ==> id in fleet && fleet[id].circuit.Closed?
    }

    lemma HealthyWereClosed()
      requires Valid()
      ensures forall id :: id in Healthy(Fleet(), weights) ==> WasClosed(Fleet(), history, id)
    {
      forall id | id in Healthy(Fleet(), weights) ensures WasClosed(Fleet(), history, id) {
        if cfg.failureThreshold >= 1 && Breaker.NoWrap(Project(history, id)) {
          HealthyIffClosed(cfg, weights, history, id);
        }
      }
    }

    ghost predicate Routes(healthy: Router.Regions, c: Router.Chance, turn: int, r: Result<string, Router.Error>)
      requires Router.Plausible(healthy, c)
    {
      Router.Routed(strategy, healthy, c, localRegion, turn, r)
    }

    /** What becomes of the choice among the healthy regions; `turn` is the turn of a round robin. */
    ghost predicate Chosen(healthy: Router.Regions, c: Router.Chance, turn: int, r: Result<string, Error>)
      requires Router.Plausible(healthy, c)
    {
      match r
      case Ok(id) => id in healthy && Routes(healthy, c, turn, Ok(id))
      case Err(NoHealthyRegions) => healthy == map[]
      case Err(Routing(error)) => healthy != map[] && Routes(healthy, c, turn, Err(error))
      case Err(RegionUnavailable) => healthy != map[] && strategy.Custom?
      case Err(_) => false
    }

    method Choose(healthy: Router.Regions, c: Router.Chance) returns (r: Result<string, Error>)
      requires Valid() && Router.Plausible(healthy, c)
      requires forall id :: id in healthy ==> 0 <= healthy[id].weight && healthy[id].latency <= Router.MAX_INT64
      modifies Routers()
      ensures Valid() && Fleet() == old(Fleet())
      ensures Chosen(healthy, c, old(Router.TurnOf(strategy)), r)
    {
      if |healthy| == 0 {
        return Err(NoHealthyRegions);
      }
      var selected := Router.Select(strategy, healthy, c, localRegion);
      if selected.Err? {
        return Err(Routing(selected.error));
      }
      if selected.value !in healthy {
        return Err(RegionUnavailable);
      }
      r := Ok(selected.value);
    }

    twostate lemma OnlyChanged(id: string)
      requires old(Valid()) && id in regions && history == old(history)
      requires forall x :: x in regions && x != id ==> unchanged(regions[x])
      requires unchanged(Routers())
      ensures Fleet() == old(Fleet())[id := regions[id].Snapshot()]
      ensures strategy.RoundRobin? ==> strategy.router.Valid()
    {
    }

    method RecordFailure(id: string, now: int)
      requires Valid() && id in regions
      modifies this`history, regions[id]
      ensures Valid() && history == old(history) + [Event(id, Breaker.EnqueueFailed(now))]
      ensures Fleet() == old(Fleet())[id := Breaker.RecordFailure(cfg, old(Fleet())[id], now)]
    {
      RunOne(cfg, regions.Keys, history, Event(id, Breaker.EnqueueFailed(now)));
      regions[id].RecordFailureAt(cfg, now);
      history := history + [Event(id, Breaker.EnqueueFailed(now))];
    }

    /** The enqueue in the chosen region, and the failure that its rejection counts as. */
    method Send(id: string, accepted: string -> bool, now: int) returns (ok: bool)
      requires Valid() && id in regions
      modifies this`history, regions[id]
      ensures Valid() && ok == accepted(id)
      ensures ok ==> Fleet() == old(Fleet()) && history == old(history)
      ensures !ok ==>
                && history == old(history) + [Event(id, Breaker.EnqueueFailed(now))]
                && Fleet() == old(Fleet())[id := Breaker.RecordFailure(cfg, old(Fleet())[id], now)]
    {
      ok := accepted(id);
      if !ok {
        RecordFailure(id, now);
      }
    }

    /**
     `c` is for the snapshot, `accepted` is what becomes of an enqueue in a region. Unless an error came
     first, a job is sent to `sent`, the healthy region that the strategy selects, and only the breaker of
     that region is affected.
     */
    method EnqueueWithRegion(order: seq<string>, c: Router.Chance, accepted: string -> bool, now: int)
      returns (r: Result<string, Error>, ghost sent: Option<string>)
      requires Valid() && Distinct(order) && forall id :: id in order <==> id in regions
      requires Router.Plausible(Healthy(Fleet(), weights), c)
      requires forall id :: id in regions ==> regions[id].latency <= Router.MAX_INT64
      modifies this`history, States(), Routers()
      ensures Valid()
      ensures Chosen(Healthy(old(Fleet()), weights), c, old(Router.TurnOf(strategy)),
                     if sent.Some? then Ok(sent.value) else r)
      ensures sent == None ==> r.Err? && Fleet() == old(Fleet()) && history == old(history)
      ensures sent.Some? && accepted(sent.value) ==>
                r == Ok(sent.value) && Fleet() == old(Fleet()) && history == old(history)
      ensures sent.Some? && !accepted(sent.value) ==>
                && r == Err(Rejected)
                && history == old(history) + [Event(sent.value, Breaker.EnqueueFailed(now))]
                && Fleet() == old(Fleet())[sent.value := Breaker.RecordFailure(cfg, old(Fleet())[sent.value], now)]
      ensures sent.Some? ==> WasClosed(old(Fleet()), old(history), sent.value)
    {
      sent := None;
      HealthyWereClosed();
      var healthy := HealthyRegions(order);
      var chosen := Choose(healthy, c);
      if chosen.Err? {
        return chosen, None;
      }
      sent := Some(chosen.value);
      var ok := Send(chosen.value, accepted, now);
      r := if ok then chosen else Err(Rejected);
    }

    method EnqueueToRegion(regionID: string, accepted: string -> bool, now: int) returns (r: Result<(), Error>)
      requires Valid()
      modifies this`history, States()
      ensures Valid()
      ensures regionID !in regions ==> r == Err(RegionNotFound)
      ensures regionID in regions && regionID !in Healthy(old(Fleet()), weights) ==> r == Err(RegionUnavailable)
      ensures regionID in Healthy(old(Fleet()), weights) ==>
                && r == (if accepted(regionID) then Ok(()) else Err(Rejected))
                && WasClosed(old(Fleet()), old(history), regionID)
      ensures r == Err(Rejected) ==>
                && history == old(history) + [Event(regionID, Breaker.EnqueueFailed(now))]
                && Fleet() == old(Fleet())[regionID := Breaker.RecordFailure(cfg, old(Fleet())[regionID], now)]
      ensures r != Err(Rejected) ==> Fleet() == old(Fleet()) && history == old(history)
    {
      if regionID !in regions {
        return Err(RegionNotFound);
      }
      if !regions[regionID].healthy {
        return Err(RegionUnavailable);
      }
      HealthyWereClosed();
      var ok := Send(regionID, accepted, now);
      r := if ok then Ok(()) else Err(Rejected);
    }

    /** One region's part of checkAllRegions. */
    method CheckRegion(id: string, start: int, ok: bool, finish: int)
      requires Valid() && id in regions
      modifies this`history, regions[id]
      ensures Valid()
      ensures Fleet() == old(Fleet())[id := Breaker.Check(cfg, old(Fleet())[id], start, ok, finish)]
      ensures Project(history, id)
           == old(Project(history, id)) + Breaker.Expand(cfg, old(Fleet())[id], Breaker.Probe(start, ok, finish))
    {
      ghost var after := RunProbe(cfg, regions.Keys, history, id, Breaker.Probe(start, ok, finish));
      regions[id].CheckRegion(cfg, start, ok, finish);
      OnlyChanged(id);
      history := after;
    }
  }

  lemma {:induction false} WeightsOf(configs: seq<RegionConfig>)
    ensures forall id ::
              id in Weights(configs) <==> exists i :: 0 <= i < |configs| && configs[i].id == id && configs[i].reachable
  {
    if configs != [] {
      var before, last := configs[..|configs| - 1], configs[|configs| - 1];
      WeightsOf(before);
      forall id ensures id in Weights(configs) <==>
                        exists i :: 0 <= i < |configs| && configs[i].id == id && configs[i].reachable {
        if id in Weights(before) {
          var i :| 0 <= i < |before| && before[i].id == id && before[i].reachable;
          assert configs[i] == before[i];
        }
        assert last == configs[|configs| - 1];
      }
    }
  }

  /** The last option for a region that can be reached decides its weight; a weight has to be positive. */
  lemma {:induction false} WeightIsLast(configs: seq<RegionConfig>, i: nat)
    requires i < |configs| && configs[i].reachable
    requires forall j :: i < j < |configs| ==> !(configs[j].reachable && configs[j].id == configs[i].id)
    ensures configs[i].id in Weights(configs)
    ensures Weights(configs)[configs[i].id] == if configs[i].weight >= 1 then configs[i].weight else 1
  {
    if i < |configs| - 1 {
      WeightIsLast(configs[..|configs| - 1], i);
    }
  }

  /** A client for the regions that can be reached, unless there are none. */
  method New(configs: seq<RegionConfig>, localRegion: string, strategy: Router.Strategy, cfg: Breaker.Config)
    returns (r: Result<FederatedClient, Error>)
    requires strategy.RoundRobin? ==> strategy.router.Valid()
    ensures r.Err? <==> forall i :: 0 <= i < |configs| ==> !configs[i].reachable
    ensures r.Err? ==> r.error == NoRegions
    ensures r.Ok? ==> fresh(r.value) && r.value.Valid() && r.value.history == [] && r.value.weights == Weights(configs)
  {
    var fc := new FederatedClient(configs, localRegion, strategy, cfg);
    WeightsOf(configs);
    if |fc.regions| == 0 {
      forall i | 0 <= i < |configs| ensures !configs[i].reachable {
        assert configs[i].id !in fc.weights;
      }
      return Err(NoRegions);
    }
    ghost var id :| id in fc.regions;
    assert id in fc.weights;
    r := Ok(fc);
  }

  function TakeAll(cfg: Breaker.Config, r: Breaker.Region, steps: seq<Breaker.Step>): Breaker.Region
    decreases |steps|
  {
    if steps == [] then r else TakeAll(cfg, Breaker.Take(cfg, r, steps[0]), steps[1..])
  }

  lemma TakeOne(cfg: Breaker.Config, r: Breaker.Region, s: Breaker.Step)
    ensures TakeAll(cfg, r, [s]) == Breaker.Take(cfg, r, s)
  {
    assert [s][1..] == [];
  }

  lemma TakeTwo(cfg: Breaker.Config, r: Breaker.Region, s: Breaker.Step, t: Breaker.Step)
    ensures TakeAll(cfg, r, [s, t]) == Breaker.Take(cfg, Breaker.Take(cfg, r, s), t)
  {
    assert [s, t][1..] == [t];
    TakeOne(cfg, Breaker.Take(cfg, r, s), t);
  }

  /** A check does what its steps do one after the other. */
  lemma ExpandTakes(cfg: Breaker.Config, r: Breaker.Region, e: Breaker.Event)
    ensures TakeAll(cfg, r, Breaker.Expand(cfg, r, e)) == Breaker.Apply(cfg, r, e)
  {
    match e
    case Failure(now) => TakeOne(cfg, r, Breaker.EnqueueFailed(now));
    case Probe(start, ok, finish) =>
      TakeOne(cfg, r, Breaker.Begin(0, start));
      TakeTwo(cfg, r, Breaker.Begin(0, start), Breaker.End(0, ok, finish - start, finish));
  }

  lemma {:induction false} RunSteps(cfg: Breaker.Config, ids: set<string>, trace: seq<Event>, id: string,
                                    steps: seq<Breaker.Step>)
    returns (after: seq<Event>)
    requires id in ids && Run(cfg, ids, trace).Keys == ids
    ensures Run(cfg, ids, after) == Run(cfg, ids, trace)[id := TakeAll(cfg, Run(cfg, ids, trace)[id], steps)]
    ensures Project(after, id) == Project(trace, id) + steps
    decreases |steps|
  {
    if steps == [] {
      after := trace;
    } else {
      var e := Event(id, steps[0]);
      RunOne(cfg, ids, trace, e);
      assert (trace + [e])[..|trace|] == trace;
      after := RunSteps(cfg, ids, trace + [e], id, steps[1..]);
      assert Project(trace, id) + [steps[0]] + steps[1..] == Project(trace, id) + steps;
    }
  }

  lemma RunProbe(cfg: Breaker.Config, ids: set<string>, trace: seq<Event>, id: string, e: Breaker.Event)
    returns (after: seq<Event>)
    requires id in ids && Run(cfg, ids, trace).Keys == ids
    ensures Run(cfg, ids, after) == Run(cfg, ids, trace)[id := Breaker.Apply(cfg, Run(cfg, ids, trace)[id], e)]
    ensures Project(after, id) == Project(trace, id) + Breaker.Expand(cfg, Run(cfg, ids, trace)[id], e)
  {
    ExpandTakes(cfg, Run(cfg, ids, trace)[id], e);
    after := RunSteps(cfg, ids, trace, id, Breaker.Expand(cfg, Run(cfg, ids, trace)[id], e));
  }
}
