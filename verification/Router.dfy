/**
 The routing strategies of federation/router.go.

 A Go map is a Dafny map together with an iteration order, which may differ from one loop to the next.
 */
module Router {
  import opened Sequences
  import opened Wrappers

  /** What the strategies look at in a regionState: the configured weight and the last latency. */
  datatype Info = Info(weight: int, latency: int)

  type Regions = map<string, Info>

  datatype Error = NoHealthyRegions | RegionUnavailable(region: string) | NoTargetRegion

  /** One order in which a loop may visit the regions. */
  ghost predicate Order(regions: Regions, ids: seq<string>) {
    Distinct(ids) && forall id :: id in ids <==> id in regions
  }

  ghost predicate Within(regions: Regions, ids: seq<string>) {
    forall i :: 0 <= i < |ids| ==> ids[i] in regions
  }

  // --- Weighted choice ---

  function Total(regions: Regions, ids: seq<string>): int
    requires Within(regions, ids)
  {
    if ids == [] then 0 else regions[ids[0]].weight + Total(regions, ids[1..])
  }

  /** The region at which the running subtraction from `pick` first goes below zero. */
  function Pick(regions: Regions, ids: seq<string>, pick: int): Option<string>
    requires Within(regions, ids)
  {
    if ids == [] then None
    else if pick - regions[ids[0]].weight < 0 then Some(ids[0])
    else Pick(regions, ids[1..], pick - regions[ids[0]].weight)
  }

  method SumWeights(regions: Regions, ids: seq<string>) returns (total: int)
    requires Within(regions, ids)
    ensures total == Total(regions, ids)
  {
    total := 0;
    for i := 0 to |ids|
      invariant total + Total(regions, ids[i..]) == Total(regions, ids)
    {
      assert ids[i..][1..] == ids[i + 1..];
      total := total + regions[ids[i]].weight;
    }
  }

  /** The subtracting loop, and the code after it, which is not reached. */
  method SubtractWeights(regions: Regions, ids: seq<string>, drawn: int) returns (id: string)
    requires Within(regions, ids) && 0 <= drawn < Total(regions, ids)
    ensures Pick(regions, ids, drawn) == Some(id)
  {
    PickIsSome(regions, ids, drawn);
    var pick := drawn;
    for i := 0 to |ids|
      invariant Pick(regions, ids[i..], pick) == Pick(regions, ids, drawn)
    {
      assert ids[i..][1..] == ids[i + 1..];
      pick := pick - regions[ids[i]].weight;
      if pick < 0 {
        return ids[i];
      }
    }
    assert false;
    id := "";
  }

  ghost predicate NonNegative(regions: Regions) {
    forall id :: id in regions ==> regions[id].weight >= 0
  }

  /** `draw(n)` is a number below n; the orders are those of the summing and of the subtracting loop. */
  method OverflowSelect(regions: Regions, first: seq<string>, second: seq<string>, draw: int -> int)
    returns (r: Result<string, Error>)
    requires Order(regions, first) && Order(regions, second) && NonNegative(regions)
    requires forall n :: n > 0 ==> 0 <= draw(n) < n
    ensures r.Err? <==> forall id :: id in regions ==> regions[id].weight == 0
    ensures r.Err? ==> r.error == NoHealthyRegions
    ensures r.Ok? ==> Pick(regions, second, draw(Total(regions, second))) == Some(r.value)
    ensures r.Ok? ==> r.value in regions && regions[r.value].weight > 0
  {
    if |regions| == 0 {
      return Err(NoHealthyRegions);
    }
    var totalWeight := SumWeights(regions, first);
    TotalIsZero(regions, first);
    if totalWeight == 0 {
      return Err(NoHealthyRegions);
    }
    TotalOfAnyOrder(regions, first, second);
    PickIsSome(regions, second, draw(totalWeight));
    var id := SubtractWeights(regions, second, draw(totalWeight));
    assert id in second;
    r := Ok(id);
  }

  /** The total is zero exactly if every weight is. */
  lemma TotalIsZero(regions: Regions, ids: seq<string>)
    requires Order(regions, ids) && NonNegative(regions)
    ensures Total(regions, ids) >= 0
    ensures Total(regions, ids) == 0 <==> forall id :: id in regions ==> regions[id].weight == 0
  {
    WeightsBound(regions, ids);
    assert forall i :: 0 <= i < |ids| ==> ids[i] in ids;
    forall id | id in regions ensures regions[id].weight <= Total(regions, ids) {
      assert id in ids;
    }
  }

  lemma {:induction false} WeightsBound(regions: Regions, ids: seq<string>)
    requires Within(regions, ids) && NonNegative(regions)
    ensures Total(regions, ids) >= 0
    ensures forall i :: 0 <= i < |ids| ==> regions[ids[i]].weight <= Total(regions, ids)
    ensures (forall i :: 0 <= i < |ids| ==> regions[ids[i]].weight == 0) ==> Total(regions, ids) == 0
  {
    if ids != [] {
      WeightsBound(regions, ids[1..]);
      forall i | 0 <= i < |ids| ensures regions[ids[i]].weight <= Total(regions, ids) {
        assert i > 0 ==> ids[1..][i - 1] == ids[i];
      }
    }
  }

  lemma {:induction false} TotalRemove(regions: Regions, ids: seq<string>, k: nat)
    requires Within(regions, ids) && k < |ids|
    ensures Total(regions, ids) == regions[ids[k]].weight + Total(regions, ids[..k] + ids[k + 1..])
  {
    if k == 0 {
      assert ids[..0] + ids[1..] == ids[1..];
    } else {
      TotalRemove(regions, ids[1..], k - 1);
      assert (ids[..k] + ids[k + 1..])[1..] == ids[1..][..k - 1] + ids[1..][k..];
    }
  }

  /** The sum does not depend on the order of the loop. */
  lemma {:induction false} TotalOfAnyOrder(regions: Regions, a: seq<string>, b: seq<string>)
    requires Within(regions, a) && Within(regions, b) && Distinct(a) && Distinct(b)
    requires forall id :: id in a <==> id in b
    ensures Total(regions, a) == Total(regions, b)
  {
    if a == [] {
      NothingIn(b);
    } else {
      assert a[0] in b;
      var k :| 0 <= k < |b| && b[k] == a[0];
      var rest := b[..k] + b[k + 1..];
      TotalRemove(regions, b, k);
      SameRest(a, b, k);
      TotalOfAnyOrder(regions, a[1..], rest);
    }
  }

  lemma NothingIn(ids: seq<string>)
    ensures ids == [] || exists id :: id in ids
  {
    if ids != [] {
      assert ids[0] in ids;
    }
  }

  lemma HasSome(ids: seq<string>, id: string)
    requires id in ids
    ensures ids != []
  {
  }

  lemma SameRest(a: seq<string>, b: seq<string>, k: nat)
    requires Distinct(a) && Distinct(b) && a != [] && k < |b| && b[k] == a[0]
    requires forall id :: id in a <==> id in b
    ensures Distinct(a[1..]) && Distinct(b[..k] + b[k + 1..])
    ensures forall id :: id in a[1..] <==> id in b[..k] + b[k + 1..]
  {
    var rest := b[..k] + b[k + 1..];
    forall id ensures id in a[1..] <==> id in rest {
      if id in a[1..] {
        assert id in b;
        var j :| 0 <= j < |b| && b[j] == id;
        assert rest[if j < k then j else j - 1] == id;
      }
      if id in rest {
        var j :| 0 <= j < |rest| && rest[j] == id;
        assert b[if j < k then j else j + 1] == id;
        assert id in a;
      }
    }
  }

  /** Where the share of a region begins in the order of the subtracting loop. */
  function Before(regions: Regions, ids: seq<string>, id: string): int
    requires Within(regions, ids) && id in ids
  {
    if ids[0] == id then 0 else regions[ids[0]].weight + Before(regions, ids[1..], id)
  }

  lemma {:induction false} BeforeBound(regions: Regions, ids: seq<string>, id: string)
    requires Within(regions, ids) && id in ids && NonNegative(regions)
    ensures 0 <= Before(regions, ids, id)
    ensures Before(regions, ids, id) + regions[id].weight <= Total(regions, ids)
  {
    if ids[0] != id {
      BeforeBound(regions, ids[1..], id);
    } else {
      WeightsBound(regions, ids[1..]);
    }
  }

  /** A region is picked exactly by the numbers in its share. */
  lemma {:induction false} PickIff(regions: Regions, ids: seq<string>, id: string, pick: int)
    requires Within(regions, ids) && Distinct(ids) && id in ids && NonNegative(regions) && 0 <= pick
    ensures Pick(regions, ids, pick) == Some(id)
       <==> Before(regions, ids, id) <= pick < Before(regions, ids, id) + regions[id].weight
  {
    var w := regions[ids[0]].weight;
    if ids[0] != id {
      BeforeBound(regions, ids[1..], id);
      if pick >= w {
        PickIff(regions, ids[1..], id, pick - w);
      }
    } else if pick >= w {
      NotPicked(regions, ids[1..], id, pick - w);
    }
  }

  lemma {:induction false} NotPicked(regions: Regions, ids: seq<string>, id: string, pick: int)
    requires Within(regions, ids) && id !in ids
    ensures Pick(regions, ids, pick) != Some(id)
  {
    if ids != [] {
      NotPicked(regions, ids[1..], id, pick - regions[ids[0]].weight);
    }
  }

  /** The code after the subtracting loop is never reached. */
  lemma {:induction false} PickIsSome(regions: Regions, ids: seq<string>, pick: int)
    requires Within(regions, ids) && 0 <= pick < Total(regions, ids)
    ensures Pick(regions, ids, pick).Some? && Pick(regions, ids, pick).value in ids
    ensures regions[Pick(regions, ids, pick).value].weight > 0
  {
    if pick >= regions[ids[0]].weight {
      PickIsSome(regions, ids[1..], pick - regions[ids[0]].weight);
    }
  }

  /** How many of the numbers below n select a region. */
  function Draws(regions: Regions, ids: seq<string>, id: string, n: nat): nat
    requires Within(regions, ids)
  {
    if n == 0 then 0
    else Draws(regions, ids, id, n - 1) + if Pick(regions, ids, n - 1) == Some(id) then 1 else 0
  }

  lemma {:induction false} DrawsFillTheShare(regions: Regions, ids: seq<string>, id: string, n: nat)
    requires Within(regions, ids) && Distinct(ids) && id in ids && NonNegative(regions)
    ensures var lo, w := Before(regions, ids, id), regions[id].weight;
            Draws(regions, ids, id, n) == if n <= lo then 0 else if n <= lo + w then n - lo else w
  {
    BeforeBound(regions, ids, id);
    if n > 0 {
      DrawsFillTheShare(regions, ids, id, n - 1);
      PickIff(regions, ids, id, n - 1);
    }
  }

  /**
   Weighted routing counts exactly: whatever the orders of the two loops, of the numbers that can be
   drawn precisely as many select a region as its weight.
   */
  lemma WeightedExactly(regions: Regions, first: seq<string>, second: seq<string>, id: string)
    requires Order(regions, first) && Order(regions, second) && NonNegative(regions) && id in regions
    ensures Total(regions, first) >= 0
    ensures Draws(regions, second, id, Total(regions, first)) == regions[id].weight
  {
    TotalOfAnyOrder(regions, first, second);
    BeforeBound(regions, second, id);
    DrawsFillTheShare(regions, second, id, Total(regions, second));
  }

  // --- Lowest latency ---

  const MAX_INT64: int := 0x7FFF_FFFF_FFFF_FFFF

  /** No region comes before k in the order with a latency as low, and none after with a lower one. */
  ghost predicate FirstLowest(regions: Regions, ids: seq<string>, k: nat)
    requires Within(regions, ids) && k < |ids|
  {
    && (forall j :: 0 <= j < k ==> regions[ids[j]].latency > regions[ids[k]].latency)
    && (forall j :: k < j < |ids| ==> regions[ids[j]].latency >= regions[ids[k]].latency)
  }

  /**
   The first region of the lowest latency in the order of the loop, unless it has no name or no latency
   is below the largest int64.
   */
  ghost predicate Lowest(regions: Regions, ids: seq<string>, r: Result<string, Error>)
    requires Within(regions, ids)
  {
    match r
    case Ok(id) => id != "" && IsFirstLowest(regions, ids, id)
    case Err(e) =>
      && e == NoHealthyRegions
      && ((forall id :: id in regions ==> regions[id].latency == MAX_INT64) || IsFirstLowest(regions, ids, ""))
  }

  ghost predicate IsFirstLowest(regions: Regions, ids: seq<string>, id: string)
    requires Within(regions, ids)
  {
    && id in regions && regions[id].latency < MAX_INT64
    && exists k :: 0 <= k < |ids| && ids[k] == id && FirstLowest(regions, ids, k)
  }

  method LowestLatencyRegion(regions: Regions, ids: seq<string>) returns (r: Result<string, Error>)
    requires Order(regions, ids)
    requires forall id :: id in regions ==> regions[id].latency <= MAX_INT64
    ensures Lowest(regions, ids, r)
    ensures r.Ok? ==> r.value in regions
  {
    if |regions| == 0 {
      return Err(NoHealthyRegions);
    }
    var bestID, bestLatency := "", MAX_INT64;
    ghost var best := -1;
    for i := 0 to |ids|
      invariant -1 <= best < i && bestLatency <= MAX_INT64
      invariant best == -1 ==> bestID == "" && bestLatency == MAX_INT64
      invariant best >= 0 ==> bestID == ids[best] && bestLatency == regions[bestID].latency < MAX_INT64
      invariant forall j :: 0 <= j < i ==> regions[ids[j]].latency >= bestLatency
      invariant forall j :: 0 <= j < best ==> regions[ids[j]].latency > bestLatency
    {
      var lat := regions[ids[i]].latency;
      if lat < bestLatency {
        bestLatency, bestID := lat, ids[i];
        best := i;
      }
    }
    if best >= 0 {
      assert FirstLowest(regions, ids, best);
      assert ids[best] in regions;
    }
    if bestID == "" {
      if best < 0 {
        forall id | id in regions ensures regions[id].latency == MAX_INT64 {
          assert id in ids;
        }
      }
      return Err(NoHealthyRegions);
    }
    r := Ok(bestID);
  }

  // --- Sorted ids ---

  /** The order of Go strings, byte by byte. */
  predicate Less(a: string, b: string) {
    b != [] && (a == [] || a[0] < b[0] || (a[0] == b[0] && Less(a[1..], b[1..])))
  }

  /** At the first difference the smaller byte comes first, and a prefix comes before what it begins. */
  ghost predicate DiffersAt(a: string, b: string, k: nat) {
    && k <= |a| && k < |b| && a[..k] == b[..k]
    && (k == |a| || a[k] < b[k])
  }

  lemma {:induction false} LessIff(a: string, b: string)
    ensures Less(a, b) <==> exists k: nat :: DiffersAt(a, b, k)
  {
    if b == [] {
    } else if a == [] {
      assert DiffersAt(a, b, 0);
    } else if a[0] != b[0] {
      if a[0] < b[0] {
        assert DiffersAt(a, b, 0);
      }
      forall k: nat | DiffersAt(a, b, k) ensures a[0] < b[0] {
        SameHead(a, b, k);
      }
    } else {
      LessIff(a[1..], b[1..]);
      if Less(a, b) {
        var k: nat :| DiffersAt(a[1..], b[1..], k);
        assert a[..k + 1] == [a[0]] + a[1..][..k] && b[..k + 1] == [b[0]] + b[1..][..k];
        assert DiffersAt(a, b, k + 1);
      }
      forall k: nat | DiffersAt(a, b, k) ensures DiffersAt(a[1..], b[1..], k - 1) {
        assert a[1..][..k - 1] == a[..k][1..] && b[1..][..k - 1] == b[..k][1..];
      }
    }
  }

  lemma SameHead(a: string, b: string, k: nat)
    requires k <= |a| && k <= |b| && a[..k] == b[..k]
    ensures k == 0 || a[0] == b[0]
  {
    if k > 0 {
      assert a[..k][0] == a[0] && b[..k][0] == b[0];
    }
  }

  lemma {:induction false} LessTrans(a: string, b: string, c: string)
    requires Less(a, b) && Less(b, c)
    ensures Less(a, c)
  {
    if a != [] && a[0] == b[0] == c[0] {
      LessTrans(a[1..], b[1..], c[1..]);
    }
  }

  lemma {:induction false} LessTotal(a: string, b: string)
    ensures Less(a, b) || Less(b, a) || a == b
    ensures !(Less(a, b) && Less(b, a)) && !Less(a, a)
  {
    if a != [] && b != [] {
      LessTotal(a[1..], b[1..]);
      if a[0] == b[0] && a[1..] == b[1..] {
        assert a == [a[0]] + a[1..] && b == [b[0]] + b[1..];
      }
    }
    if a != [] {
      LessTotal(a[1..], a[1..]);
    }
  }

  ghost predicate Sorted(ids: seq<string>) {
    forall i, j :: 0 <= i < j < |ids| ==> Less(ids[i], ids[j])
  }

  function Insert(id: string, ids: seq<string>): (r: seq<string>)
    ensures forall x :: x in r <==> x == id || x in ids
  {
    if ids == [] || Less(id, ids[0]) then [id] + ids else [ids[0]] + Insert(id, ids[1..])
  }

  /** What sort.Strings makes of the ids, by insertion. */
  function Sort(ids: seq<string>): (r: seq<string>)
    ensures forall x :: x in r <==> x in ids
  {
    if ids == [] then [] else Insert(ids[0], Sort(ids[1..]))
  }

  lemma {:induction false} InsertSorted(id: string, ids: seq<string>)
    requires Sorted(ids) && id !in ids
    ensures Sorted(Insert(id, ids)) && |Insert(id, ids)| == |ids| + 1
  {
    if ids != [] {
      LessTotal(id, ids[0]);
      if Less(id, ids[0]) {
        forall j | 0 < j < |ids| ensures Less(id, ids[j]) {
          LessTrans(id, ids[0], ids[j]);
        }
      } else {
        InsertSorted(id, ids[1..]);
        var rest := Insert(id, ids[1..]);
        forall j | 0 <= j < |rest| ensures Less(ids[0], rest[j]) {
          assert rest[j] in rest;
        }
      }
    }
  }

  lemma {:induction false} SortSorts(ids: seq<string>)
    requires Distinct(ids)
    ensures Sorted(Sort(ids)) && |Sort(ids)| == |ids|
  {
    if ids != [] {
      SortSorts(ids[1..]);
      InsertSorted(ids[0], Sort(ids[1..]));
    }
  }

  /** There is one sorted list of given ids, so the order in which a map is visited does not matter. */
  lemma {:induction false} SortedUnique(a: seq<string>, b: seq<string>)
    requires Sorted(a) && Sorted(b) && forall x :: x in a <==> x in b
    ensures a == b
  {
    if a == [] {
      NothingIn(b);
    } else {
      HasSome(b, a[0]);
      assert a[0] in b && b != [] && b[0] in a;
      var i :| 0 <= i < |b| && b[i] == a[0];
      var j :| 0 <= j < |a| && a[j] == b[0];
      LessTotal(a[0], b[0]);
      assert a[0] == b[0];
      forall x ensures x in a[1..] <==> x in b[1..] {
        SortedTail(a, x);
        SortedTail(b, x);
      }
      SortedUnique(a[1..], b[1..]);
    }
  }

  lemma SortedTail(a: seq<string>, x: string)
    requires Sorted(a) && a != []
    ensures x in a[1..] <==> x in a && x != a[0]
  {
    if x in a[1..] {
      var k :| 0 <= k < |a[1..]| && a[1..][k] == x;
      LessTotal(a[0], a[k + 1]);
    }
  }

  method SortedRegionIDs(regions: Regions, order: seq<string>) returns (ids: seq<string>)
    requires Order(regions, order)
    ensures Sorted(ids) && |ids| == |order| && forall id :: id in ids <==> id in regions
    ensures ids == Sort(order)
  {
    ids := [];
    for i := 0 to |order|
      invariant ids == order[..i]
    {
      ids := ids + [order[i]];
    }
    ids := Sort(ids);
    assert order[..|order|] == order;
    SortSorts(order);
  }

  lemma SortOfAnyOrder(regions: Regions, a: seq<string>, b: seq<string>)
    requires Order(regions, a) && Order(regions, b)
    ensures Sort(a) == Sort(b)
  {
    SortSorts(a);
    SortSorts(b);
    SortedUnique(Sort(a), Sort(b));
  }

  // --- Round robin ---

  const TWO_64: int := 0x1_0000_0000_0000_0000

  class RoundRobinRouter {
    /** A uint64. */
    var counter: int

    ghost predicate Valid()
      reads this
    {
      0 <= counter < TWO_64
    }

    constructor ()
      ensures Valid() && counter == 0
    {
      counter := 0;
    }

    method Select(regions: Regions, order: seq<string>) returns (r: Result<string, Error>)
      requires Valid() && Order(regions, order)
      modifies this
      ensures Valid()
      ensures regions == map[] ==> r == Err(NoHealthyRegions) && counter == old(counter)
      ensures regions != map[] ==> order != [] && counter == Counter(old(counter), 1)
      ensures regions != map[] ==> r == Ok(Turn(Sort(order), old(counter), 0)) && r.value in regions
    {
      if |regions| == 0 {
        return Err(NoHealthyRegions);
      }
      var ids := SortedRegionIDs(regions, order);
      NonEmpty(regions, order);
      BeforeTheAddition(counter);
      counter := (counter + 1) % TWO_64;
      var idx := (counter - 1) % TWO_64;
      var id := ids[idx % |ids|];
      assert id in ids;
      r := Ok(id);
    }

    /** One call after the other, from the same healthy regions, however their map is visited each time. */
    method SelectInTurn(regions: Regions, orders: seq<seq<string>>) returns (picks: seq<string>)
      requires Valid() && regions != map[]
      requires orders != [] && forall i :: 0 <= i < |orders| ==> Order(regions, orders[i])
      modifies this
      ensures Valid() && counter == Counter(old(counter), |orders|)
      ensures Sort(orders[0]) != [] && picks == Turns(Sort(orders[0]), old(counter), |orders|)
      ensures Fair(regions, old(counter), picks)
    {
      picks := [];
      var ids := Sort(orders[0]);
      TurnsAreFair(regions, orders[0], counter, |orders|);
      CounterAfter(counter, 0);
      for i := 0 to |orders|
        invariant Valid() && counter == Counter(old(counter), i)
        invariant picks == Turns(ids, old(counter), i)
      {
        SortOfAnyOrder(regions, orders[0], orders[i]);
        CounterAfter(old(counter), i);
        var r := Select(regions, orders[i]);
        picks := picks + [r.value];
      }
    }
  }

  lemma NonEmpty(regions: Regions, ids: seq<string>)
    requires Order(regions, ids) && regions != map[]
    ensures ids != []
  {
    var some :| some in regions;
    assert some in ids;
  }

  lemma BeforeTheAddition(c: int)
    requires 0 <= c < TWO_64
    ensures ((c + 1) % TWO_64 - 1) % TWO_64 == Counter(c, 0)
  {
  }

  /** The counter i calls after it was c. */
  function Counter(c: int, i: nat): int { (c + i) % TWO_64 }

  lemma CounterAfter(c: int, i: nat)
    ensures Counter(Counter(c, i), 0) == Counter(c, i) && Counter(Counter(c, i), 1) == Counter(c, i + 1)
  {
  }

  /** The region selected i calls after the counter was c. */
  function Turn(ids: seq<string>, c: int, i: nat): string
    requires ids != []
  {
    ids[Counter(c, i) % |ids|]
  }

  /** The turns go round the list in its order, from its first id for a new router. */
  lemma TurnsGoRound(ids: seq<string>, c: int, j: nat)
    requires ids != [] && 0 <= c && c + 2 <= TWO_64 && j < |ids| && c % |ids| == j
    ensures Turn(ids, c, 0) == ids[j] && Turn(ids, c, 1) == ids[if j + 1 < |ids| then j + 1 else 0]
    ensures Turn(ids, 0, 0) == ids[0]
  {
    CounterIs(c, 0);
    CounterIs(c, 1);
    ModNext(c, |ids|);
    ModIs(0, 0, 0, |ids|);
  }

  lemma CounterIs(c: int, i: nat)
    requires 0 <= c && c + i < TWO_64
    ensures Counter(c, i) == c + i && Counter(0, 0) == 0
  {
  }

  /** The regions selected by k calls in a row. */
  function Turns(ids: seq<string>, c: int, k: nat): (r: seq<string>)
    requires ids != []
    ensures |r| == k
  {
    if k == 0 then [] else Turns(ids, c, k - 1) + [Turn(ids, c, k - 1)]
  }

  /** The counter does not wrap during the k calls, or wrapping does no harm. */
  predicate Regular(n: nat, c: int, k: nat)
    requires n > 0
  {
    c + k <= TWO_64 || TWO_64 % n == 0
  }

  lemma ModIs(x: int, q: int, r: int, n: nat)
    requires x == q * n + r && 0 <= r < n
    ensures x % n == r && x / n == q
  {
    var q', r' := x / n, x % n;
    assert x == q' * n + r';
    if q' < q {
      MulStep(q', q, n);
    } else if q' > q {
      MulStep(q, q', n);
    }
  }

  lemma {:induction false} MulStep(a: int, b: int, n: nat)
    requires a < b
    ensures a * n + n <= b * n
    decreases b - a
  {
    Distribute(b - 1, n);
    if a < b - 1 {
      MulStep(a, b - 1, n);
    }
  }

  lemma Distribute(a: int, n: int)
    ensures (a + 1) * n == a * n + n
  {
  }

  lemma ModNext(x: int, n: nat)
    requires n > 0
    ensures (x + 1) % n == if x % n + 1 == n then 0 else x % n + 1
  {
    var q, r := x / n, x % n;
    assert x == q * n + r;
    if r + 1 == n {
      Distribute(q, n);
      ModIs(x + 1, q + 1, 0, n);
    } else {
      ModIs(x + 1, q, r + 1, n);
    }
  }

  lemma ModOfMod(x: int, m: nat, n: nat)
    requires n > 0 && m > 0 && m % n == 0
    ensures (x % m) % n == x % n
  {
    var q, t := x / m, m / n;
    var y := x % m;
    var p, r := y / n, y % n;
    assert x == q * m + y && m == t * n && y == p * n + r;
    Collect(q, t, p, n);
    ModIs(x, q * t + p, r, n);
  }

  lemma Collect(q: int, t: int, p: int, n: int)
    ensures q * (t * n) + p * n == (q * t + p) * n
  {
  }

  lemma RegularTurn(ids: seq<string>, c: int, k: nat, i: nat)
    requires ids != [] && 0 <= c < TWO_64 && i < k && Regular(|ids|, c, k)
    ensures Turn(ids, c, i) == ids[(c + i) % |ids|]
  {
    if c + k > TWO_64 {
      ModOfMod(c + i, TWO_64, |ids|);
    }
  }

  /** After `start` and d further steps around a circle of n. */
  function Around(start: nat, d: nat, n: nat): nat {
    if start + d < n then start + d else start + d - n
  }

  /** Every region has had b turns, and those of the last d calls one more. */
  ghost predicate Shared(ids: seq<string>, c: int, k: nat, b: nat, d: nat)
    requires ids != []
  {
    forall j: nat :: j < |ids| ==>
      multiset(Turns(ids, c, k))[ids[j]] == b + if Ahead(c % |ids|, j, |ids|) < d then 1 else 0
  }

  /** k calls are b full rounds and d calls more. */
  ghost predicate Split(ids: seq<string>, c: int, k: nat, b: nat, d: nat)
    requires ids != []
  {
    && k == b * |ids| + d && d < |ids|
    && (c + k) % |ids| == Around(c % |ids|, d, |ids|)
    && Shared(ids, c, k, b, d)
  }

  lemma {:induction false} Rounds(ids: seq<string>, c: int, k: nat) returns (b: nat, d: nat)
    requires ids != [] && Distinct(ids) && 0 <= c < TWO_64 && Regular(|ids|, c, k)
    ensures Split(ids, c, k, b, d)
  {
    if k == 0 {
      b, d := 0, 0;
      NoRounds(ids, c);
    } else {
      var b', d' := Rounds(ids, c, k - 1);
      RegularTurn(ids, c, k, k - 1);
      b, d := MoreRounds(ids, c, k, b', d');
    }
  }

  lemma NoRounds(ids: seq<string>, c: int)
    requires ids != [] && 0 <= c
    ensures Split(ids, c, 0, 0, 0)
  {
    assert Turns(ids, c, 0) == [];
  }

  lemma MoreRounds(ids: seq<string>, c: int, k: nat, b: nat, d: nat) returns (b': nat, d': nat)
    requires ids != [] && Distinct(ids) && k > 0 && Split(ids, c, k - 1, b, d)
    requires Turn(ids, c, k - 1) == ids[(c + (k - 1)) % |ids|]
    ensures Split(ids, c, k, b', d')
  {
    OneMore(ids, c, k, b, d);
    RoundDone(ids, c, k, b);
    b', d' := NextRound(c, k, |ids|, b, d);
  }

  lemma RoundDone(ids: seq<string>, c: int, k: nat, b: nat)
    requires ids != []
    ensures Shared(ids, c, k, b, |ids|) ==> Shared(ids, c, k, b + 1, 0)
  {
  }

  lemma NextRound(c: int, k: nat, n: nat, b: nat, d: nat) returns (b': nat, d': nat)
    requires k > 0 && d < n && k - 1 == b * n + d && (c + (k - 1)) % n == Around(c % n, d, n)
    ensures d' < n && k == b' * n + d' && (c + k) % n == Around(c % n, d', n)
    ensures if d + 1 == n then b' == b + 1 && d' == 0 else b' == b && d' == d + 1
  {
    ModNext(c + (k - 1), n);
    assert c + k == c + (k - 1) + 1;
    if d + 1 == n {
      Distribute(b, n);
      b', d' := b + 1, 0;
    } else {
      b', d' := b, d + 1;
    }
  }

  /** How many steps around the circle j is ahead of `start`. */
  function Ahead(start: nat, j: nat, n: nat): int {
    if j >= start then j - start else j - start + n
  }

  lemma OneMore(ids: seq<string>, c: int, k: nat, b: nat, d: nat)
    requires ids != [] && Distinct(ids) && k > 0 && d < |ids| && Shared(ids, c, k - 1, b, d)
    requires Turn(ids, c, k - 1) == ids[Around(c % |ids|, d, |ids|)]
    ensures Shared(ids, c, k, b, d + 1)
  {
    var n, start := |ids|, c % |ids|;
    var before := Turns(ids, c, k - 1);
    var at := Around(start, d, n);
    forall j: nat | j < n
      ensures multiset(before + [ids[at]])[ids[j]] == b + if Ahead(start, j, n) < d + 1 then 1 else 0
    {
      assert ids[at] == ids[j] <==> at == j;
    }
  }

  /**
   Round robin is fair: after any number of calls every region has had its whole share of turns, and no
   region more than one turn beyond it.
   */
  lemma RoundRobinFair(ids: seq<string>, c: int, k: nat, x: string, y: string)
    requires ids != [] && Distinct(ids) && 0 <= c < TWO_64 && Regular(|ids|, c, k)
    requires x in ids && y in ids
    ensures var turns := multiset(Turns(ids, c, k));
            k / |ids| <= turns[x] <= k / |ids| + 1 && turns[x] <= turns[y] + 1 && turns[y] <= turns[x] + 1
  {
    var b, d := Rounds(ids, c, k);
    ModIs(k, b, d, |ids|);
    var i: nat :| i < |ids| && ids[i] == x;
    var j: nat :| j < |ids| && ids[j] == y;
  }

  /** Every region is picked its share of times, the share rounded down or up. */
  ghost predicate FairShares(regions: Regions, picks: seq<string>)
    requires regions != map[]
  {
    forall id :: id in regions ==> InShare(multiset(picks)[id], |picks|, |regions|)
  }

  /**
   Unless the counter wraps in a harmful way the picks are fair; and as many picks as there are regions
   visit each once exactly if it does not.
   */
  ghost predicate Fair(regions: Regions, c: int, picks: seq<string>)
    requires regions != map[]
  {
    && (Regular(|regions|, c, |picks|) ==> FairShares(regions, picks))
    && (|picks| == |regions| <= TWO_64 ==>
          ((forall id :: id in regions ==> multiset(picks)[id] == 1) <==> Regular(|regions|, c, |picks|)))
  }

  predicate InShare(count: nat, k: nat, n: nat)
    requires n > 0
  {
    k / n <= count <= k / n + 1
  }

  lemma SortedOrder(regions: Regions, order: seq<string>)
    requires Order(regions, order) && regions != map[]
    ensures Sort(order) != [] && Order(regions, Sort(order)) && |Sort(order)| == |regions|
  {
    SortSorts(order);
    NonEmpty(regions, order);
    SortedIsDistinct(Sort(order));
    AsManyIds(regions, Sort(order));
  }

  lemma TurnsAreFair(regions: Regions, order: seq<string>, c: int, k: nat)
    requires Order(regions, order) && regions != map[] && 0 <= c < TWO_64
    ensures Sort(order) != [] && Fair(regions, c, Turns(Sort(order), c, k))
  {
    SortedOrder(regions, order);
    var ids := Sort(order);
    var turns := Turns(ids, c, k);
    if Regular(|regions|, c, k) {
      forall id | id in regions ensures InShare(multiset(turns)[id], k, |regions|) {
        RoundRobinFair(ids, c, k, id, id);
      }
    }
    if k == |regions| <= TWO_64 {
      WindowVisitsEachOnce(ids, c);
    }
  }

  lemma SortedIsDistinct(ids: seq<string>)
    requires Sorted(ids)
    ensures Distinct(ids)
  {
    forall i, j | 0 <= i < j < |ids| ensures ids[i] != ids[j] {
      LessTotal(ids[i], ids[j]);
    }
  }

  /** A list of each region once is as long as the map has regions. */
  lemma {:induction false} AsManyIds(regions: Regions, ids: seq<string>)
    requires Order(regions, ids)
    ensures |ids| == |regions|
    decreases |ids|
  {
    if ids == [] {
      assert regions.Keys == {};
    } else {
      var rest := regions - {ids[0]};
      assert ids[0] in ids;
      assert rest.Keys == regions.Keys - {ids[0]};
      RestOrder(regions, ids);
      AsManyIds(rest, ids[1..]);
    }
  }

  lemma RestOrder(regions: Regions, ids: seq<string>)
    requires Order(regions, ids) && ids != []
    ensures Order(regions - {ids[0]}, ids[1..])
  {
    forall id ensures id in ids[1..] <==> id in regions - {ids[0]} {
      if id in ids[1..] {
        var k :| 0 <= k < |ids[1..]| && ids[1..][k] == id;
        assert id == ids[k + 1] && id in ids;
      }
    }
  }

  ghost predicate EachOnce(ids: seq<string>, turns: seq<string>) {
    forall id :: id in ids ==> multiset(turns)[id] == 1
  }

  /**
   As many calls as there are regions select each region once exactly when the counter does not wrap
   among them or the number of regions divides 2^64.
   */
  lemma WindowVisitsEachOnce(ids: seq<string>, c: int)
    requires ids != [] && Distinct(ids) && |ids| <= TWO_64 && 0 <= c < TWO_64
    ensures EachOnce(ids, Turns(ids, c, |ids|)) <==> Regular(|ids|, c, |ids|)
  {
    var n := |ids|;
    if Regular(n, c, n) {
      var b, d := Rounds(ids, c, n);
      assert n == 1 * n + 0;
      ModIs(n, b, d, n);
      ModIs(n, 1, 0, n);
      forall id | id in ids ensures multiset(Turns(ids, c, n))[id] == 1 {
        var j: nat :| j < n && ids[j] == id;
      }
    } else {
      var i, j := WrapRepeats(TWO_64, c, n);
      TurnsAt(ids, c, n, i);
      TurnsAt(ids, c, n, j);
      SeenTwice(Turns(ids, c, n), i, j);
    }
  }

  /** Three regions and a counter at its last value: one of them is missed. */
  lemma WrapSkipsARegion(ids: seq<string>)
    requires |ids| == 3 && Distinct(ids)
    ensures !EachOnce(ids, Turns(ids, TWO_64 - 1, 3))
  {
    WindowVisitsEachOnce(ids, TWO_64 - 1);
  }

  /** Around a wrap two of n consecutive counters have the same remainder by n. */
  lemma WrapRepeats(m: nat, c: int, n: nat) returns (i: nat, j: nat)
    requires 0 <= c < m && 0 < n <= m && c + n > m && m % n != 0
    ensures i < j < n && ((c + i) % m) % n == ((c + j) % m) % n
  {
    var a, q, r := m - c, m / n, m % n;
    assert m == q * n + r;
    if r <= n - a {
      i, j := a - 1, a + r - 1;
      ModIs(c + i, 0, c + i, m);
      ModIs(c + i, q, r - 1, n);
      AfterWrap(m, c, n, j, r - 1);
    } else {
      i, j := n - 1 - r, n - 1;
      ModIs(c + i, 0, c + i, m);
      ModIs(c + i, q, n - 1 - a, n);
      AfterWrap(m, c, n, j, n - 1 - a);
    }
  }

  lemma AfterWrap(m: nat, c: int, n: nat, j: nat, t: nat)
    requires 0 < n <= m && c + j == m + t && t < n
    ensures ((c + j) % m) % n == t
  {
    ModIs(c + j, 1, t, m);
    ModIs(t, 0, t, n);
  }

  lemma {:induction false} TurnsAt(ids: seq<string>, c: int, k: nat, i: nat)
    requires ids != [] && i < k
    ensures Turns(ids, c, k)[i] == Turn(ids, c, i)
  {
    if i < k - 1 {
      TurnsAt(ids, c, k - 1, i);
    }
  }

  lemma SeenTwice(s: seq<string>, i: nat, j: nat)
    requires i < j < |s| && s[i] == s[j]
    ensures multiset(s)[s[i]] >= 2
  {
    assert s == s[..i] + [s[i]] + s[i + 1..j] + [s[j]] + s[j + 1..];
  }

  // --- The other strategies ---

  /** A strategy as it is configured; a custom one may return anything. */
  datatype Strategy =
    | Affinity
    | Overflow
    | GeoPin(region: string)
    | RoundRobin(router: RoundRobinRouter)
    | LatencyBased
    | ActivePassive(primary: string, secondaries: seq<string>)
    | Geographic(mapping: map<string, string>, defaultRegion: string)
    | Custom(choose: Regions -> Result<string, Error>)

  /** What differs from call to call: the orders of the map loops, the random number and the hint. */
  datatype Chance = Chance(first: seq<string>, second: seq<string>, draw: int -> int, hint: string)

  ghost predicate Plausible(regions: Regions, c: Chance) {
    && Order(regions, c.first) && Order(regions, c.second)
    && forall n :: n > 0 ==> 0 <= c.draw(n) < n
  }

  /** The regions that a strategy asks for, the most wanted first. */
  function Wanted(s: Strategy, localRegion: string, hint: string): seq<string> {
    match s
    case Affinity => Named(localRegion)
    case GeoPin(region) => Named(region)
    case ActivePassive(primary, secondaries) => Named(primary) + secondaries
    case Geographic(mapping, defaultRegion) =>
      (if hint != "" && hint in mapping then [mapping[hint]] else []) + Named(defaultRegion)
    case _ => []
  }

  function Named(id: string): seq<string> { if id == "" then [] else [id] }

  /** `id` is the first of the wanted regions that there is. */
  ghost predicate FirstWanted(regions: Regions, wanted: seq<string>, id: string) {
    id in regions
    && exists k :: 0 <= k < |wanted| && wanted[k] == id && forall j :: 0 <= j < k ==> wanted[j] !in regions
  }

  ghost predicate NoneWanted(regions: Regions, wanted: seq<string>) {
    forall k :: 0 <= k < |wanted| ==> wanted[k] !in regions
  }

  ghost predicate Least(regions: Regions, id: string) {
    id in regions && forall x :: x in regions ==> x == id || Less(id, x)
  }

  /** What a strategy that prefers regions does when there is none that it wants. */
  ghost predicate FallsBack(s: Strategy, regions: Regions, order: seq<string>, r: Result<string, Error>)
    requires Within(regions, order)
  {
    match s
    case Affinity => Lowest(regions, order, r)
    case GeoPin(region) => r == Err(if region == "" then NoTargetRegion else RegionUnavailable(region))
    case _ => if regions == map[] then r == Err(NoHealthyRegions) else r.Ok? && Least(regions, r.value)
  }

  /** The first wanted region that there is, else what the strategy falls back on. */
  ghost predicate Preferred(s: Strategy, regions: Regions, order: seq<string>, localRegion: string, hint: string,
                            r: Result<string, Error>)
    requires Within(regions, order)
  {
    var wanted := Wanted(s, localRegion, hint);
    if NoneWanted(regions, wanted) then FallsBack(s, regions, order, r)
    else r.Ok? && FirstWanted(regions, wanted, r.value)
  }

  method FirstRegion(regions: Regions, order: seq<string>) returns (id: string)
    requires Order(regions, order) && regions != map[]
    ensures Least(regions, id)
  {
    var ids := SortedRegionIDs(regions, order);
    NonEmpty(regions, order);
    id := ids[0];
    assert id in ids;
    forall x | x in regions ensures x == id || Less(id, x) {
      assert x in ids;
    }
  }

  method AffinitySelect(regions: Regions, order: seq<string>, localRegion: string)
    returns (r: Result<string, Error>)
    requires Order(regions, order) && forall id :: id in regions ==> regions[id].latency <= MAX_INT64
    ensures r.Ok? ==> r.value in regions
    ensures localRegion != "" && localRegion in regions ==> r == Ok(localRegion)
    ensures localRegion == "" || localRegion !in regions ==> Lowest(regions, order, r)
    ensures Preferred(Affinity, regions, order, localRegion, "", r)
  {
    if |regions| == 0 {
      return Err(NoHealthyRegions);
    }
    if localRegion != "" {
      if localRegion in regions {
        assert Named(localRegion)[0] == localRegion;
        return Ok(localRegion);
      }
    }
    r := LowestLatencyRegion(regions, order);
  }

  method GeoPinSelect(regions: Regions, region: string) returns (r: Result<string, Error>)
    ensures region == "" ==> r == Err(NoTargetRegion)
    ensures region != "" && region in regions ==> r == Ok(region)
    ensures region != "" && region !in regions ==> r == Err(RegionUnavailable(region))
    ensures Preferred(GeoPin(region), regions, [], "", "", r)
  {
    if region == "" {
      return Err(NoTargetRegion);
    }
    assert Named(region)[0] == region;
    if region !in regions {
      return Err(RegionUnavailable(region));
    }
    r := Ok(region);
  }

  method ActivePassiveSelect(regions: Regions, order: seq<string>, primary: string, secondaries: seq<string>)
    returns (r: Result<string, Error>)
    requires Order(regions, order)
    ensures regions == map[] ==> r == Err(NoHealthyRegions)
    ensures primary != "" && primary in regions ==> r == Ok(primary)
    ensures !(primary != "" && primary in regions) && regions != map[] ==>
              r.Ok? && if NoneWanted(regions, secondaries) then Least(regions, r.value)
                       else FirstWanted(regions, secondaries, r.value)
    ensures Preferred(ActivePassive(primary, secondaries), regions, order, "", "", r)
  {
    if |regions| == 0 {
      return Err(NoHealthyRegions);
    }
    ghost var wanted, k := Named(primary) + secondaries, |Named(primary)|;
    if primary != "" {
      if primary in regions {
        assert wanted[0] == primary;
        return Ok(primary);
      }
    }
    for i := 0 to |secondaries|
      invariant forall j :: 0 <= j < k + i ==> wanted[j] !in regions
      invariant forall j :: 0 <= j < i ==> secondaries[j] !in regions
    {
      assert wanted[k + i] == secondaries[i];
      if secondaries[i] in regions {
        return Ok(secondaries[i]);
      }
    }
    var id := FirstRegion(regions, order);
    r := Ok(id);
  }

  /** The hint is mapped to one of the regions. */
  predicate Mapped(regions: Regions, mapping: map<string, string>, hint: string) {
    hint != "" && hint in mapping && mapping[hint] in regions
  }

  method GeographicSelect(regions: Regions, order: seq<string>, mapping: map<string, string>, defaultRegion: string,
                          hint: string)
    returns (r: Result<string, Error>)
    requires Order(regions, order)
    ensures regions == map[] ==> r == Err(NoHealthyRegions)
    ensures Mapped(regions, mapping, hint) ==> r == Ok(mapping[hint])
    ensures !Mapped(regions, mapping, hint) && defaultRegion != "" && defaultRegion in regions ==>
              r == Ok(defaultRegion)
    ensures !Mapped(regions, mapping, hint) && (defaultRegion == "" || defaultRegion !in regions) ==>
              regions != map[] ==> r.Ok? && Least(regions, r.value)
    ensures Preferred(Geographic(mapping, defaultRegion), regions, order, "", hint, r)
  {
    if |regions| == 0 {
      return Err(NoHealthyRegions);
    }
    ghost var wanted := Wanted(Geographic(mapping, defaultRegion), "", hint);
    if hint != "" {
      if hint in mapping {
        var regionID := mapping[hint];
        if regionID in regions {
          assert wanted[0] == regionID;
          return Ok(regionID);
        }
      }
    }
    if defaultRegion != "" {
      if defaultRegion in regions {
        assert wanted[|wanted| - 1] == defaultRegion;
        return Ok(defaultRegion);
      }
    }
    var id := FirstRegion(regions, order);
    r := Ok(id);
  }

  /** The next turn of a round robin. */
  function TurnOf(s: Strategy): int
    reads if s.RoundRobin? then {s.router} else {}
  {
    if s.RoundRobin? then s.router.counter else 0
  }

  /** `r` is what the strategy selects; `turn` is the turn of a round robin. */
  ghost predicate Routed(s: Strategy, regions: Regions, c: Chance, localRegion: string, turn: int,
                         r: Result<string, Error>)
    requires Plausible(regions, c)
  {
    match s
    case Overflow =>
      if forall id :: id in regions ==> regions[id].weight == 0 then r == Err(NoHealthyRegions)
      else r.Ok? && Pick(regions, c.second, c.draw(Total(regions, c.second))) == Some(r.value)
    case RoundRobin(_) =>
      if regions == map[] then r == Err(NoHealthyRegions)
      else Sort(c.first) != [] && r == Ok(Turn(Sort(c.first), turn, 0))
    case LatencyBased => Lowest(regions, c.first, r)
    case Custom(choose) => r == choose(regions)
    case _ => Preferred(s, regions, c.first, localRegion, c.hint, r)
  }

  /** A custom strategy aside, what is selected is one of the regions. */
  method Select(s: Strategy, regions: Regions, c: Chance, localRegion: string) returns (r: Result<string, Error>)
    requires Plausible(regions, c) && (s.RoundRobin? ==> s.router.Valid())
    requires forall id :: id in regions ==> 0 <= regions[id].weight && regions[id].latency <= MAX_INT64
    modifies if s.RoundRobin? then {s.router} else {}
    ensures Routed(s, regions, c, localRegion, old(TurnOf(s)), r)
    ensures s.Affinity? && localRegion != "" && localRegion in regions ==> r == Ok(localRegion)
    ensures s.Affinity? && (localRegion == "" || localRegion !in regions) ==> Lowest(regions, c.first, r)
    ensures s.GeoPin? && s.region != "" && s.region in regions ==> r == Ok(s.region)
    ensures s.GeoPin? && s.region != "" && s.region !in regions ==> r == Err(RegionUnavailable(s.region))
    ensures s.GeoPin? && s.region == "" ==> r == Err(NoTargetRegion)
    ensures s.ActivePassive? && s.primary != "" && s.primary in regions ==> r == Ok(s.primary)
    ensures s.ActivePassive? && !(s.primary != "" && s.primary in regions) && regions != map[] ==>
              r.Ok? && if NoneWanted(regions, s.secondaries) then Least(regions, r.value)
                       else FirstWanted(regions, s.secondaries, r.value)
    ensures s.Geographic? && Mapped(regions, s.mapping, c.hint) ==> r == Ok(s.mapping[c.hint])
    ensures s.Geographic? && !Mapped(regions, s.mapping, c.hint) && s.defaultRegion != "" ==>
              s.defaultRegion in regions ==> r == Ok(s.defaultRegion)
    ensures s.Geographic? && !Mapped(regions, s.mapping, c.hint) && regions != map[] ==>
              s.defaultRegion == "" || s.defaultRegion !in regions ==> r.Ok? && Least(regions, r.value)
    ensures !s.Custom? && r.Ok? ==> r.value in regions
    ensures !s.GeoPin? && !s.Custom? && r.Err? ==> r.error == NoHealthyRegions
    ensures s.RoundRobin? ==> s.router.Valid()
    ensures s.RoundRobin? && regions != map[] ==> s.router.counter == Counter(old(s.router.counter), 1)
  {
    match s
    case Affinity => r := AffinitySelect(regions, c.first, localRegion);
    case Overflow => r := OverflowSelect(regions, c.first, c.second, c.draw);
    case GeoPin(region) => r := GeoPinSelect(regions, region);
    case RoundRobin(router) => r := router.Select(regions, c.first);
    case LatencyBased => r := LowestLatencyRegion(regions, c.first);
    case ActivePassive(primary, secondaries) => r := ActivePassiveSelect(regions, c.first, primary, secondaries);
    case Geographic(mapping, defaultRegion) =>
      r := GeographicSelect(regions, c.first, mapping, defaultRegion, c.hint);
    case Custom(choose) => r := choose(regions);
  }

  /**
   Overflow aside, whose pick for a drawn number depends on it, the order in which a map is visited decides
   only ties between equally low latencies.
   */
  lemma SameFromAnyOrder(s: Strategy, regions: Regions, c: Chance, c': Chance, localRegion: string, turn: int,
                         r: Result<string, Error>, r': Result<string, Error>)
    requires !s.Overflow? && Plausible(regions, c) && Plausible(regions, c') && c.hint == c'.hint && "" !in regions
    requires Routed(s, regions, c, localRegion, turn, r) && Routed(s, regions, c', localRegion, turn, r')
    ensures r == r' || ((s.Affinity? || s.LatencyBased?) && TiedLatencies(regions, r, r'))
  {
    match s
    case Custom(_) =>
    case LatencyBased => SameLowest(regions, c.first, c'.first, r, r');
    case RoundRobin(_) =>
      if regions != map[] {
        SortOfAnyOrder(regions, c.first, c'.first);
      }
    case _ => SamePreferred(s, regions, c.first, c'.first, localRegion, c.hint, r, r');
  }

  predicate TiedLatencies(regions: Regions, r: Result<string, Error>, r': Result<string, Error>) {
    && r.Ok? && r'.Ok? && r.value in regions && r'.value in regions
    && regions[r.value].latency == regions[r'.value].latency
  }

  lemma SamePreferred(s: Strategy, regions: Regions, a: seq<string>, b: seq<string>, localRegion: string,
                      hint: string, r: Result<string, Error>, r': Result<string, Error>)
    requires s.Affinity? || s.GeoPin? || s.ActivePassive? || s.Geographic?
    requires Order(regions, a) && Order(regions, b) && "" !in regions
    requires Preferred(s, regions, a, localRegion, hint, r) && Preferred(s, regions, b, localRegion, hint, r')
    ensures r == r' || (s.Affinity? && TiedLatencies(regions, r, r'))
  {
    var wanted := Wanted(s, localRegion, hint);
    if !NoneWanted(regions, wanted) {
      var k :| 0 <= k < |wanted| && wanted[k] == r.value && forall j :: 0 <= j < k ==> wanted[j] !in regions;
      var k' :| 0 <= k' < |wanted| && wanted[k'] == r'.value && forall j :: 0 <= j < k' ==> wanted[j] !in regions;
    } else if s.Affinity? {
      SameLowest(regions, a, b, r, r');
    } else if regions != map[] && !s.GeoPin? {
      LessTotal(r.value, r'.value);
    }
  }

  lemma SameLowest(regions: Regions, a: seq<string>, b: seq<string>,
                   r: Result<string, Error>, r': Result<string, Error>)
    requires Order(regions, a) && Order(regions, b) && "" !in regions
    requires Lowest(regions, a, r) && Lowest(regions, b, r')
    ensures r == r' || TiedLatencies(regions, r, r')
  {
    if r.Ok? {
      LowestOfAll(regions, a, r.value);
    }
    if r'.Ok? {
      LowestOfAll(regions, b, r'.value);
    }
  }

  lemma LowestOfAll(regions: Regions, ids: seq<string>, id: string)
    requires Order(regions, ids) && IsFirstLowest(regions, ids, id)
    ensures forall x :: x in regions ==> regions[x].latency >= regions[id].latency
  {
    var k :| 0 <= k < |ids| && ids[k] == id && FirstLowest(regions, ids, k);
    forall x | x in regions ensures regions[x].latency >= regions[id].latency {
      assert x in ids;
      var j :| 0 <= j < |ids| && ids[j] == x;
    }
  }
}
