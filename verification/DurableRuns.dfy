/**
 Durable execution across attempts: an adaptive handler runs against a DurableContext,
 crashes at an arbitrary instant, and is started again from whatever the server has stored.

 A handler is a strategy: from what it has observed so far in this attempt to what it does next.
 The world (clock, entropy, side effects, fate of each save, instant of each crash) is arbitrary.
 */
module DurableRuns {
  import opened Wrappers
  import opened Durable

  datatype Action = Do(call: Call) | Ask | Save | Finish | Stop

  /** To an `Ask` the context says whether it is replaying. */
  datatype Observed =
    | Answered(answer: Answer)
    | ReplayReported(replaying: bool)
    | SaveReported(ok: bool)
    | FinishReported(ok: bool)

  type Handler = seq<Observed> -> Action

  /** One turn of the world: what a call would produce and what becomes of a request. */
  datatype Tick = Tick(supply: Supply, fate: Fate)

  /** An attempt: is the stored log readable at the start, and the turns taken before the crash. */
  datatype Attempt = Attempt(reachable: bool, ticks: seq<Tick>)

  /** A call of a side-effect function: the log position it is for, and how much was saved by then. */
  datatype FnRun = FnRun(position: nat, saved: nat)

  datatype World = World(
    ctx: State, seen: seq<Observed>,
    stored: Option<string>, saves: seq<seq<Entry>>, fnRuns: seq<FnRun>, finished: bool)

  /** The results the handler was given, without failures and reports. */
  function Recorded(seen: seq<Observed>): (r: seq<Answer>)
    ensures |r| <= |seen|
  {
    if seen == [] then []
    else
      var last := seen[|seen| - 1];
      Recorded(seen[..|seen| - 1])
      + if last.Answered? && last.answer.Recorded() then [last.answer] else []
  }

  predicate SameKey(a: string, b: string) { a == b || a == "" || b == "" }

  /** Replay does not tell the calls apart: it compares keys only if both are set, and no lengths. */
  predicate Interchangeable(a: Call, b: Call) {
    match (a, b)
    case (Now, Now) => true
    case (Random(_), Random(_)) => true
    case (SideEffect(k), SideEffect(l)) => SameKey(k, l)
    case _ => false
  }

  /**
   The handler is deterministic: which recorded call it makes, when it makes one, depends only on
   the results it was given. It may ask, save, stop or finish whenever it likes. After a failed side
   effect it may stop or try the same call again, but it may not go on to a different call.
   */
  ghost predicate Deterministic(h: Handler) {
    forall a, b :: Recorded(a) == Recorded(b) && h(a).Do? && h(b).Do? ==> Interchangeable(h(a).call, h(b).call)
  }

  // --- Running ---

  /** The world once a call of Complete has taken effect, or has not. */
  function AfterComplete(w: World, completed: bool): World {
    if completed then w.(stored := None, finished := true) else w
  }

  function Turn(h: Handler, c: Codec, w: World, tick: Tick): World {
    match h(w.seen)
    case Do(call) =>
      var o := Perform(c, w.ctx, call, tick.supply);
      w.(ctx := o.state, seen := w.seen + [Answered(o.answer)],
      fnRuns := w.fnRuns + if o.ran then [FnRun(|Recorded(w.seen)|, |Load(c, w.stored, true)|)] else [])
    case Ask => w.(seen := w.seen + [ReplayReported(InReplay(w.ctx))])
    case Save =>
      var w' := w.(seen := w.seen + [SaveReported(tick.fate.AppliedHeard?)]);
      if tick.fate.Lost? then w'
      else w'.(stored := Some(c.encodeLog(w.ctx.entries)), saves := w.saves + [w.ctx.entries])
    case Finish =>
      var w' := w.(seen := w.seen + [FinishReported(tick.fate.AppliedHeard?)]);
      AfterComplete(w', !tick.fate.Lost?)
    case Stop => w
  }

  function Turns(h: Handler, c: Codec, w: World, ticks: seq<Tick>): World {
    if ticks == [] then w
    else Turn(h, c, Turns(h, c, w, ticks[..|ticks| - 1]), ticks[|ticks| - 1])
  }

  const Untouched := World(Opened([]), [], None, [], [], false)

  /** A new attempt keeps what the server and the outside saw, and opens a new context. */
  function Restart(c: Codec, w: World, reachable: bool): World {
    w.(ctx := Opened(Load(c, w.stored, reachable)), seen := [])
  }

  function RunAttempt(h: Handler, c: Codec, w: World, a: Attempt): World {
    Turns(h, c, Restart(c, w, a.reachable), a.ticks)
  }

  function Lifetime(h: Handler, c: Codec, attempts: seq<Attempt>): World {
    if attempts == [] then Untouched
    else RunAttempt(h, c, Lifetime(h, c, attempts[..|attempts| - 1]), attempts[|attempts| - 1])
  }

  /** Every attempt can read the log when there is one, and none starts after Complete took effect. */
  ghost predicate Undisturbed(h: Handler, c: Codec, attempts: seq<Attempt>) {
    forall i :: 0 <= i < |attempts| ==>
                  var w := Lifetime(h, c, attempts[..i]);
                  !w.finished && (attempts[i].reachable || Load(c, w.stored, true) == [])
  }

  method Dispatch(dc: DurableContext, call: Call, supply: Supply) returns (r: Answer)
    modifies dc
    ensures var o := Perform(dc.codec, old(dc.Snapshot()), call, supply);
            dc.Snapshot() == o.state && r == o.answer
  {
    match call
    case Now =>
      var t := dc.Now(supply.clock);
      r := TimeIs(t);
    case Random(_) =>
      var s := dc.Random(supply.hex);
      r := TextIs(s);
    case SideEffect(key) =>
      var answer, _ := dc.SideEffect(key, supply.fn);
      r := answer;
  }

  method ExecuteTurn(h: Handler, dc: DurableContext, store: CheckpointStore, seen: seq<Observed>, tick: Tick,
                     ghost w: World)
    returns (seen': seq<Observed>)
    requires dc.Snapshot() == w.ctx && seen == w.seen && store.log == w.stored
    modifies dc, store
    ensures var w' := Turn(h, dc.codec, w, tick);
            dc.Snapshot() == w'.ctx && seen' == w'.seen && store.log == w'.stored
  {
    match h(seen)
    case Do(call) =>
      var r := Dispatch(dc, call, tick.supply);
      seen' := seen + [Answered(r)];
    case Ask =>
      var replaying := dc.IsReplaying();
      seen' := seen + [ReplayReported(replaying)];
    case Save =>
      var ok := dc.Checkpoint(store, tick.fate);
      seen' := seen + [SaveReported(ok)];
    case Finish =>
      var ok := dc.Complete(store, tick.fate);
      seen' := seen + [FinishReported(ok)];
    case Stop =>
      seen' := seen;
  }

  /** A registered durable handler, executed on a DurableContext until it stops or the attempt ends. */
  method Execute(h: Handler, codec: Codec, store: CheckpointStore, a: Attempt, ghost w: World)
    returns (seen: seq<Observed>)
    requires store.log == w.stored
    modifies store
    ensures store.log == RunAttempt(h, codec, w, a).stored
    ensures seen == RunAttempt(h, codec, w, a).seen
  {
    var dc := new DurableContext(codec, store, a.reachable);
    seen := [];
    ghost var w' := Restart(codec, w, a.reachable);
    for i := 0 to |a.ticks|
      invariant w' == Turns(h, codec, Restart(codec, w, a.reachable), a.ticks[..i])
      invariant dc.codec == codec && dc.Snapshot() == w'.ctx && seen == w'.seen && store.log == w'.stored
    {
      seen := ExecuteTurn(h, dc, store, seen, a.ticks[i], w');
      w' := Turn(h, codec, w', a.ticks[i]);
      TurnAt(h, codec, Restart(codec, w, a.reachable), a.ticks, i);
    }
    assert a.ticks[..|a.ticks|] == a.ticks;
  }

  // --- What a log says ---

  function ValueOf(c: Codec, e: Entry): Answer {
    if e.kind == "time" && c.decodeTime(e.result).Some? then TimeIs(c.decodeTime(e.result).value)
    else if e.kind == "random" && c.decodeText(e.result).Some? then TextIs(c.decodeText(e.result).value)
    else if e.kind == "call" then ResultIs(e.result)
    else Failed
  }

  function Values(c: Codec, es: seq<Entry>): (vs: seq<Answer>)
    ensures |vs| == |es|
    ensures forall i :: 0 <= i < |es| ==> vs[i] == ValueOf(c, es[i])
  {
    seq(|es|, i requires 0 <= i < |es| => ValueOf(c, es[i]))
  }

  /** The entry is one that the call writes. */
  ghost predicate Fits(c: Codec, call: Call, e: Entry) {
    Accepts(c, call, e) && (call.SideEffect? ==> e.key == call.key)
  }

  /** The entry answers the call in replay: the kind is right, the result readable, the keys do not clash. */
  predicate Accepts(c: Codec, call: Call, e: Entry) {
    match call
    case Now => e.kind == "time" && c.decodeTime(e.result).Some?
    case Random(_) => e.kind == "random" && c.decodeText(e.result).Some?
    case SideEffect(key) => e.kind == "call" && SameKey(key, e.key)
  }

  ghost predicate Explains(h: Handler, c: Codec, log: seq<Entry>, k: nat, seen: seq<Observed>)
    requires k < |log|
  {
    Recorded(seen) == Values(c, log[..k]) && h(seen).Do? && Fits(c, h(seen).call, log[k])
  }

  ghost predicate Explained(h: Handler, c: Codec, log: seq<Entry>, k: nat)
    requires k < |log|
  {
    exists seen :: Explains(h, c, log, k, seen)
  }

  /** The handler could have written this log. */
  ghost predicate WrittenBy(h: Handler, c: Codec, log: seq<Entry>) {
    forall k :: 0 <= k < |log| ==> Explained(h, c, log, k)
  }

  // --- The invariant of an attempt that started from `log` ---

  ghost predicate Faithful(h: Handler, c: Codec, log: seq<Entry>, w: World) {
    var r, es := Recorded(w.seen), w.ctx.entries;
    && log <= es
    && |r| <= |es|
    && r == Values(c, es[..|r|])
    && w.ctx.cursor == (if |r| < |log| then |r| else |log|)
    && (w.ctx.replaying <==> |r| < |log|)
    && (|r| < |log| ==> es == log)
    && (|log| <= |r| ==> |es| == |r|)
    && WrittenBy(h, c, es)
    && NoMismatch(w.seen)
  }

  /** Saves only ever extend what is stored, and side effects run only past the end of it. */
  ghost predicate Durably(c: Codec, log: seq<Entry>, w: World) {
    var stored := Load(c, w.stored, true);
    && log <= stored <= w.ctx.entries
    && (forall i :: 0 <= i < |w.saves| ==> w.saves[i] <= stored)
    && (forall i, j :: 0 <= i < j < |w.saves| ==> w.saves[i] <= w.saves[j])
    && (forall r :: r in w.fnRuns ==> r.saved <= r.position)
  }

  lemma RecordedMore(seen: seq<Observed>, o: Observed)
    ensures Recorded(seen + [o])
         == Recorded(seen) + if o.Answered? && o.answer.Recorded() then [o.answer] else []
  {
    assert (seen + [o])[..|seen|] == seen;
  }

  lemma WrittenByMore(h: Handler, c: Codec, log: seq<Entry>, e: Entry, seen: seq<Observed>)
    requires WrittenBy(h, c, log)
    requires Explains(h, c, log + [e], |log|, seen)
    ensures WrittenBy(h, c, log + [e])
  {
    forall k | 0 <= k < |log + [e]|
      ensures Explained(h, c, log + [e], k)
    {
      if k < |log| {
        assert (log + [e])[..k] == log[..k];
        assert Explained(h, c, log, k);
        var s :| Explains(h, c, log, k, s);
        assert Explains(h, c, log + [e], k, s);
      }
    }
  }

  // --- When an attempt follows the log ---

  ghost predicate NoMismatch(seen: seq<Observed>) {
    forall i :: 0 <= i < |seen| ==> !(seen[i].Answered? && seen[i].answer.KeyMismatch?)
  }

  /** The results are those of the log, as far as both go. */
  ghost predicate Agrees(c: Codec, log: seq<Entry>, r: seq<Answer>) {
    forall k :: 0 <= k < |r| && k < |log| ==> r[k] == ValueOf(c, log[k])
  }

  /** The results so far are those of the log, which is replayed exactly while any are left. */
  ghost predicate OnTrack(c: Codec, log: seq<Entry>, w: World) {
    && Agrees(c, log, Recorded(w.seen))
    && (w.ctx.replaying <==> |Recorded(w.seen)| < |log|)
    && NoMismatch(w.seen)
  }

  /** A call made at a position inside the log is accepted by the entry there. */
  ghost predicate Accepted(h: Handler, c: Codec, log: seq<Entry>, w: World) {
    var k := |Recorded(w.seen)|;
    h(w.seen).Do? && k < |log| ==> Accepts(c, h(w.seen).call, log[k])
  }

  /** On track, with the context where it should be. */
  ghost predicate Tracks(c: Codec, log: seq<Entry>, w: World) {
    var k := |Recorded(w.seen)|;
    OnTrack(c, log, w) && (k < |log| ==> w.ctx == State(log, k, true))
  }

  /** An attempt, whatever went before, on a context opened on `log`. */
  function Begun(log: seq<Entry>, w: World): World {
    w.(ctx := Opened(log), seen := [])
  }

  ghost predicate OnTrackAt(h: Handler, c: Codec, log: seq<Entry>, w: World, ticks: seq<Tick>, n: nat)
    requires n <= |ticks|
  {
    OnTrack(c, log, Turns(h, c, Begun(log, w), ticks[..n]))
  }

  ghost predicate AcceptedAt(h: Handler, c: Codec, log: seq<Entry>, w: World, ticks: seq<Tick>, n: nat)
    requires n <= |ticks|
  {
    Accepted(h, c, log, Turns(h, c, Begun(log, w), ticks[..n]))
  }

  lemma CallTurn(h: Handler, c: Codec, w: World, tick: Tick)
    requires h(w.seen).Do?
    ensures var o := Perform(c, w.ctx, h(w.seen).call, tick.supply);
            && Turn(h, c, w, tick).ctx == o.state
            && Turn(h, c, w, tick).seen == w.seen + [Answered(o.answer)]
            && Recorded(Turn(h, c, w, tick).seen)
            == Recorded(w.seen) + if o.answer.Recorded() then [o.answer] else []
  {
    RecordedMore(w.seen, Answered(Perform(c, w.ctx, h(w.seen).call, tick.supply).answer));
  }

  lemma AcceptedCall(c: Codec, log: seq<Entry>, k: nat, call: Call, supply: Supply)
    requires k < |log| && Accepts(c, call, log[k])
    ensures ValueOf(c, log[k]).Recorded()
    ensures Perform(c, State(log, k, true), call, supply)
         == Outcome(State(log, k + 1, k + 1 < |log|), ValueOf(c, log[k]), false)
  {
  }

  lemma RejectedCall(c: Codec, log: seq<Entry>, k: nat, call: Call, supply: Supply)
    requires k < |log| && !Accepts(c, call, log[k])
    ensures var o := Perform(c, State(log, k, true), call, supply);
            o.answer.KeyMismatch? || (!o.state.replaying && o.answer != ValueOf(c, log[k]))
            || (!o.state.replaying && !o.answer.Recorded())
  {
  }

  lemma FreshStaysFresh(c: Codec, s: State, call: Call, supply: Supply)
    requires !s.replaying
    ensures var o := Perform(c, s, call, supply); !o.state.replaying && !o.answer.KeyMismatch?
  {
  }

  lemma TracksReplayed(h: Handler, c: Codec, log: seq<Entry>, w: World, tick: Tick)
    requires Tracks(c, log, w) && Accepted(h, c, log, w) && h(w.seen).Do? && |Recorded(w.seen)| < |log|
    ensures Tracks(c, log, Turn(h, c, w, tick))
  {
    var k := |Recorded(w.seen)|;
    CallTurn(h, c, w, tick);
    AcceptedCall(c, log, k, h(w.seen).call, tick.supply);
    TracksMore(c, log, w, ValueOf(c, log[k]), Turn(h, c, w, tick));
  }

  lemma TracksMore(c: Codec, log: seq<Entry>, w: World, v: Answer, w': World)
    requires Tracks(c, log, w) && |Recorded(w.seen)| < |log|
    requires v == ValueOf(c, log[|Recorded(w.seen)|]) && v.Recorded()
    requires w'.seen == w.seen + [Answered(v)] && Recorded(w'.seen) == Recorded(w.seen) + [v]
    requires w'.ctx == State(log, |Recorded(w.seen)| + 1, |Recorded(w.seen)| + 1 < |log|)
    ensures Tracks(c, log, w')
  {
    AgreesMore(c, log, Recorded(w.seen), v);
    NoMismatchMore(w.seen, Answered(v));
  }

  lemma AgreesMore(c: Codec, log: seq<Entry>, r: seq<Answer>, v: Answer)
    requires Agrees(c, log, r) && (|r| < |log| ==> v == ValueOf(c, log[|r|]))
    ensures Agrees(c, log, r + [v])
  {
  }

  lemma NoMismatchMore(seen: seq<Observed>, o: Observed)
    requires NoMismatch(seen) && !(o.Answered? && o.answer.KeyMismatch?)
    ensures NoMismatch(seen + [o])
  {
  }

  lemma TracksFresh(h: Handler, c: Codec, log: seq<Entry>, w: World, tick: Tick)
    requires Tracks(c, log, w) && h(w.seen).Do? && |log| <= |Recorded(w.seen)|
    ensures Tracks(c, log, Turn(h, c, w, tick))
  {
    var o := Perform(c, w.ctx, h(w.seen).call, tick.supply);
    CallTurn(h, c, w, tick);
    FreshStaysFresh(c, w.ctx, h(w.seen).call, tick.supply);
    AgreesMore(c, log, Recorded(w.seen), o.answer);
    NoMismatchMore(w.seen, Answered(o.answer));
  }

  lemma TracksReport(c: Codec, log: seq<Entry>, w: World, o: Observed, w': World)
    requires Tracks(c, log, w) && !o.Answered? && w'.ctx == w.ctx && w'.seen == w.seen + [o]
    ensures Tracks(c, log, w')
  {
    NoMismatchMore(w.seen, o);
    RecordedMore(w.seen, o);
  }

  lemma TracksTurn(h: Handler, c: Codec, log: seq<Entry>, w: World, tick: Tick)
    requires Tracks(c, log, w) && Accepted(h, c, log, w)
    ensures Tracks(c, log, Turn(h, c, w, tick))
  {
    var heard := tick.fate.AppliedHeard?;
    match h(w.seen)
    case Do(call) =>
      if |Recorded(w.seen)| < |log| {
        TracksReplayed(h, c, log, w, tick);
      } else {
        TracksFresh(h, c, log, w, tick);
      }
    case Ask => TracksReport(c, log, w, ReplayReported(InReplay(w.ctx)), Turn(h, c, w, tick));
    case Save => TracksReport(c, log, w, SaveReported(heard), Turn(h, c, w, tick));
    case Finish => TracksReport(c, log, w, FinishReported(heard), Turn(h, c, w, tick));
    case Stop =>
  }

  lemma LeavesTrack(h: Handler, c: Codec, log: seq<Entry>, w: World, tick: Tick)
    requires Tracks(c, log, w) && !Accepted(h, c, log, w)
    ensures !OnTrack(c, log, Turn(h, c, w, tick))
  {
    var k := |Recorded(w.seen)|;
    var o := Perform(c, w.ctx, h(w.seen).call, tick.supply);
    var w' := Turn(h, c, w, tick);
    CallTurn(h, c, w, tick);
    RejectedCall(c, log, k, h(w.seen).call, tick.supply);
    if o.answer.KeyMismatch? {
      assert w'.seen[|w.seen|].answer.KeyMismatch?;
    } else if o.answer.Recorded() {
      assert Recorded(w'.seen)[k] == o.answer;
    }
  }

  lemma TurnAt(h: Handler, c: Codec, w: World, ticks: seq<Tick>, n: nat)
    requires n < |ticks|
    ensures Turns(h, c, w, ticks[..n + 1]) == Turn(h, c, Turns(h, c, w, ticks[..n]), ticks[n])
  {
    assert ticks[..n + 1][..n] == ticks[..n];
  }

  lemma {:induction false} TracksSoFar(h: Handler, c: Codec, log: seq<Entry>, w: World, ticks: seq<Tick>, n: nat)
    requires n <= |ticks| && forall m: nat :: m < n ==> AcceptedAt(h, c, log, w, ticks, m)
    ensures Tracks(c, log, Turns(h, c, Begun(log, w), ticks[..n]))
  {
    if n > 0 {
      TracksSoFar(h, c, log, w, ticks, n - 1);
      assert AcceptedAt(h, c, log, w, ticks, n - 1);
      TracksTurn(h, c, log, Turns(h, c, Begun(log, w), ticks[..n - 1]), ticks[n - 1]);
      TurnAt(h, c, Begun(log, w), ticks, n - 1);
    }
  }

  lemma AcceptedIfStillOnTrack(h: Handler, c: Codec, log: seq<Entry>, w: World, ticks: seq<Tick>, n: nat)
    requires n < |ticks| && forall m: nat :: m < n ==> AcceptedAt(h, c, log, w, ticks, m)
    requires OnTrackAt(h, c, log, w, ticks, n + 1)
    ensures AcceptedAt(h, c, log, w, ticks, n)
  {
    TracksSoFar(h, c, log, w, ticks, n);
    TurnAt(h, c, Begun(log, w), ticks, n);
    var before := Turns(h, c, Begun(log, w), ticks[..n]);
    if !Accepted(h, c, log, before) {
      LeavesTrack(h, c, log, before, ticks[n]);
    }
  }

  /** The first turn whose call was not accepted, if any was not. */
  lemma {:induction false} FirstRejected(h: Handler, c: Codec, log: seq<Entry>, w: World, ticks: seq<Tick>, n: nat)
    returns (m: nat)
    requires n <= |ticks|
    ensures m <= n && (m < n ==> !AcceptedAt(h, c, log, w, ticks, m))
    ensures forall k: nat :: k < m ==> AcceptedAt(h, c, log, w, ticks, k)
  {
    m := 0;
    if n > 0 {
      m := FirstRejected(h, c, log, w, ticks, n - 1);
      if m == n - 1 && AcceptedAt(h, c, log, w, ticks, n - 1) {
        m := n;
      }
    }
  }

  /**
   For any handler, log and codec: an attempt is on track after every turn if and only if every call it
   made at a position inside the log was accepted by the entry there.
   */
  lemma OnTrackIff(h: Handler, c: Codec, log: seq<Entry>, w: World, ticks: seq<Tick>)
    ensures (forall n: nat :: n <= |ticks| ==> OnTrackAt(h, c, log, w, ticks, n))
       <==> (forall n: nat :: n < |ticks| ==> AcceptedAt(h, c, log, w, ticks, n))
  {
    if forall n: nat :: n <= |ticks| ==> OnTrackAt(h, c, log, w, ticks, n) {
      var m := FirstRejected(h, c, log, w, ticks, |ticks|);
      if m < |ticks| {
        assert OnTrackAt(h, c, log, w, ticks, m + 1);
        AcceptedIfStillOnTrack(h, c, log, w, ticks, m);
      }
    }
    if forall n: nat :: n < |ticks| ==> AcceptedAt(h, c, log, w, ticks, n) {
      forall n: nat | n <= |ticks| ensures OnTrackAt(h, c, log, w, ticks, n) {
        TracksSoFar(h, c, log, w, ticks, n);
      }
    }
  }

  /** Results that follow the log are the values of its beginning. */
  lemma TracksValues(c: Codec, log: seq<Entry>, w: World)
    requires Tracks(c, log, w) && |Recorded(w.seen)| <= |log|
    ensures Recorded(w.seen) == Values(c, log[..|Recorded(w.seen)|])
  {
  }

  lemma CallIsAccepted(h: Handler, c: Codec, log: seq<Entry>, w: World)
    requires Deterministic(h) && WrittenBy(h, c, log) && |Recorded(w.seen)| < |log|
    requires Recorded(w.seen) == Values(c, log[..|Recorded(w.seen)|])
    ensures Accepted(h, c, log, w)
  {
    var k := |Recorded(w.seen)|;
    assert Explained(h, c, log, k);
    var seen :| Explains(h, c, log, k, seen);
    if h(w.seen).Do? {
      assert Interchangeable(h(w.seen).call, h(seen).call);
    }
  }

  lemma DeterministicCall(h: Handler, c: Codec, log: seq<Entry>, w: World)
    requires Deterministic(h) && WrittenBy(h, c, log) && Tracks(c, log, w)
    ensures Accepted(h, c, log, w)
  {
    if |Recorded(w.seen)| < |log| {
      TracksValues(c, log, w);
      CallIsAccepted(h, c, log, w);
    }
  }

  /** What Deterministic is for: a log that the handler wrote accepts every call it makes in replay. */
  lemma {:induction false} DeterministicIsAccepted(
      h: Handler, c: Codec, log: seq<Entry>, w: World, ticks: seq<Tick>, n: nat)
    requires Deterministic(h) && WrittenBy(h, c, log) && n <= |ticks|
    ensures forall m: nat :: m <= n ==> AcceptedAt(h, c, log, w, ticks, m)
  {
    if n > 0 {
      DeterministicIsAccepted(h, c, log, w, ticks, n - 1);
    }
    TracksSoFar(h, c, log, w, ticks, n);
    DeterministicCall(h, c, log, Turns(h, c, Begun(log, w), ticks[..n]));
    assert AcceptedAt(h, c, log, w, ticks, n);
  }

  /** While the log lasts, a call finds at the cursor an entry that accepts it. */
  lemma ReplayedCall(h: Handler, c: Codec, log: seq<Entry>, w: World, call: Call, supply: Supply)
    requires Deterministic(h) && Faithful(h, c, log, w)
    requires h(w.seen) == Do(call)
    requires |Recorded(w.seen)| < |log|
    ensures var k := |Recorded(w.seen)|;
            Perform(c, w.ctx, call, supply) == Outcome(State(log, k + 1, k + 1 < |log|), ValueOf(c, log[k]), false)
    ensures ValueOf(c, log[|Recorded(w.seen)|]).Recorded()
  {
    var k := |Recorded(w.seen)|;
    CallIsAccepted(h, c, log, w);
    AcceptedCall(c, log, k, call, supply);
  }

  lemma FaithfulReplayedCall(h: Handler, c: Codec, log: seq<Entry>, w: World, call: Call, tick: Tick)
    requires Deterministic(h) && Faithful(h, c, log, w)
    requires h(w.seen) == Do(call)
    requires |Recorded(w.seen)| < |log|
    ensures Faithful(h, c, log, Turn(h, c, w, tick))
  {
    var r := Recorded(w.seen);
    ReplayedCall(h, c, log, w, call, tick.supply);
    RecordedMore(w.seen, Answered(ValueOf(c, log[|r|])));
    assert log[..|r| + 1] == log[..|r|] + [log[|r|]];
  }

  /** A call executed afresh: either it fails and records nothing, or its entry reads back as its result. */
  lemma FreshCall(c: Codec, s: State, call: Call, supply: Supply)
    requires Lawful(c) && !s.replaying
    ensures var o := Perform(c, s, call, supply);
            if o.answer.Recorded() then
              exists e :: o.state == State(s.entries + [e], s.cursor, false)
                          && Fits(c, call, e) && ValueOf(c, e) == o.answer
            else o.state == s && o.answer.Failed?
  {
    var o := Perform(c, s, call, supply);
    if o.answer.Recorded() {
      var e := o.state.entries[|s.entries|];
      assert o.state == State(s.entries + [e], s.cursor, false);
    }
  }

  /** Appending an entry the handler's call explains, and handing out its value. */
  lemma FaithfulAppend(h: Handler, c: Codec, log: seq<Entry>, w: World, e: Entry, w': World)
    requires Faithful(h, c, log, w) && |log| <= |Recorded(w.seen)|
    requires h(w.seen).Do? && Fits(c, h(w.seen).call, e) && ValueOf(c, e).Recorded()
    requires w'.ctx == State(w.ctx.entries + [e], w.ctx.cursor, false)
    requires w'.seen == w.seen + [Answered(ValueOf(c, e))]
    ensures Faithful(h, c, log, w')
  {
    var r, es := Recorded(w.seen), w.ctx.entries;
    RecordedMore(w.seen, Answered(ValueOf(c, e)));
    assert es[..|r|] == es && (es + [e])[..|es|] == es && (es + [e])[..|es| + 1] == es + [e];
    assert Explains(h, c, es + [e], |es|, w.seen);
    WrittenByMore(h, c, es, e, w.seen);
  }

  lemma FaithfulFreshCall(h: Handler, c: Codec, log: seq<Entry>, w: World, call: Call, tick: Tick)
    requires Lawful(c) && Faithful(h, c, log, w)
    requires h(w.seen) == Do(call)
    requires |log| <= |Recorded(w.seen)|
    ensures Faithful(h, c, log, Turn(h, c, w, tick))
  {
    var o := Perform(c, w.ctx, call, tick.supply);
    FreshCall(c, w.ctx, call, tick.supply);
    if o.answer.Recorded() {
      var e :|
        o.state == State(w.ctx.entries + [e], w.ctx.cursor, false) && Fits(c, call, e) && ValueOf(c, e) == o.answer;
      FaithfulAppend(h, c, log, w, e, Turn(h, c, w, tick));
    } else {
      FaithfulReport(h, c, log, w, Answered(o.answer), Turn(h, c, w, tick));
    }
  }

  /** Hearing about a request, or about a failed side effect, changes nothing that matters. */
  lemma FaithfulReport(h: Handler, c: Codec, log: seq<Entry>, w: World, o: Observed, w': World)
    requires Faithful(h, c, log, w)
    requires o.Answered? ==> o.answer.Failed?
    requires w'.ctx == w.ctx && w'.seen == w.seen + [o]
    ensures Faithful(h, c, log, w')
  {
    RecordedMore(w.seen, o);
  }

  lemma FaithfulTurn(h: Handler, c: Codec, log: seq<Entry>, w: World, tick: Tick)
    requires Lawful(c) && Deterministic(h) && Faithful(h, c, log, w)
    ensures Faithful(h, c, log, Turn(h, c, w, tick))
  {
    var heard := tick.fate.AppliedHeard?;
    match h(w.seen)
    case Do(call) =>
      if |Recorded(w.seen)| < |log| {
        FaithfulReplayedCall(h, c, log, w, call, tick);
      } else {
        FaithfulFreshCall(h, c, log, w, call, tick);
      }
    case Ask => FaithfulReport(h, c, log, w, ReplayReported(InReplay(w.ctx)), Turn(h, c, w, tick));
    case Save => FaithfulReport(h, c, log, w, SaveReported(heard), Turn(h, c, w, tick));
    case Finish => FaithfulReport(h, c, log, w, FinishReported(heard), Turn(h, c, w, tick));
    case Stop =>
  }

  lemma DurablyTurn(h: Handler, c: Codec, log: seq<Entry>, w: World, tick: Tick)
    requires Lawful(c) && Deterministic(h) && Faithful(h, c, log, w) && Durably(c, log, w)
    requires !Turn(h, c, w, tick).finished
    ensures Durably(c, log, Turn(h, c, w, tick))
  {
    match h(w.seen)
    case Do(call) =>
      if |Recorded(w.seen)| < |log| {
        ReplayedCall(h, c, log, w, call, tick.supply);
      }
    case _ =>
  }

  lemma {:induction false} TurnsKeep(h: Handler, c: Codec, log: seq<Entry>, w: World, ticks: seq<Tick>)
    requires Lawful(c) && Deterministic(h) && Faithful(h, c, log, w)
    ensures var w' := Turns(h, c, w, ticks);
            Faithful(h, c, log, w') && (Durably(c, log, w) && !w'.finished ==> Durably(c, log, w'))
    ensures w.finished ==> Turns(h, c, w, ticks).finished
  {
    if ticks != [] {
      var before, last := ticks[..|ticks| - 1], ticks[|ticks| - 1];
      TurnsKeep(h, c, log, w, before);
      var w' := Turns(h, c, w, before);
      FaithfulTurn(h, c, log, w', last);
      if Durably(c, log, w) && !Turn(h, c, w', last).finished {
        DurablyTurn(h, c, log, w', last);
      }
    }
  }

  lemma WrittenByPrefix(h: Handler, c: Codec, log: seq<Entry>, more: seq<Entry>)
    requires WrittenBy(h, c, more) && log <= more
    ensures WrittenBy(h, c, log)
  {
    forall k | 0 <= k < |log|
      ensures Explained(h, c, log, k)
    {
      assert Explained(h, c, more, k);
      var seen :| Explains(h, c, more, k, seen);
      assert log[..k] == more[..k];
      assert Explains(h, c, log, k, seen);
    }
  }

  /** The log an attempt starts from is what the server has, and it is one the handler wrote. */
  lemma {:induction false} LifetimeKeeps(h: Handler, c: Codec, attempts: seq<Attempt>)
    requires Lawful(c) && Deterministic(h) && Undisturbed(h, c, attempts)
    ensures var w := Lifetime(h, c, attempts);
            !w.finished ==>
              && WrittenBy(h, c, Load(c, w.stored, true))
              && Durably(c, [], w)
  {
    if attempts != [] {
      var before, last := attempts[..|attempts| - 1], attempts[|attempts| - 1];
      assert forall i :: 0 <= i < |before| ==> before[..i] == attempts[..i];
      LifetimeKeeps(h, c, before);
      LastAttempt(h, c, before, last);
      var w := Lifetime(h, c, attempts);
      if !w.finished {
        WrittenByPrefix(h, c, Load(c, w.stored, true), w.ctx.entries);
      }
    }
  }

  lemma LastAttempt(h: Handler, c: Codec, before: seq<Attempt>, last: Attempt)
    requires Lawful(c) && Deterministic(h)
    requires var w := Lifetime(h, c, before);
             && !w.finished && (last.reachable || Load(c, w.stored, true) == [])
             && WrittenBy(h, c, Load(c, w.stored, true)) && Durably(c, [], w)
    ensures var log := Load(c, Lifetime(h, c, before).stored, true);
            var w := RunAttempt(h, c, Lifetime(h, c, before), last);
            Faithful(h, c, log, w) && (!w.finished ==> Durably(c, log, w))
  {
    var w := Lifetime(h, c, before);
    var log := Load(c, w.stored, true);
    var start := Restart(c, w, last.reachable);
    assert Load(c, w.stored, last.reachable) == log;
    assert Recorded([]) == Values(c, log[..0]);
    TurnsKeep(h, c, log, start, last.ticks);
  }

  // --- Main results ---

  /**
   Replay determinism. After any number of crashing attempts, a new attempt cut at any instant
   replays the stored log without a mismatch: its results so far are position by position those in
   the log, it is in replay mode exactly while results of the log remain, and from then on every
   result it is given is the one it appends.
   */
  lemma ReplayIsFaithful(h: Handler, c: Codec, before: seq<Attempt>, last: Attempt)
    requires Lawful(c) && Deterministic(h) && Undisturbed(h, c, before + [last])
    ensures var log := Load(c, Lifetime(h, c, before).stored, true);
            var w := Lifetime(h, c, before + [last]);
            var r := Recorded(w.seen);
            && (forall k :: 0 <= k < |r| && k < |log| ==> r[k] == ValueOf(c, log[k]))
            && (w.ctx.replaying <==> |r| < |log|)
            && (|r| >= |log| ==> log <= w.ctx.entries && Values(c, w.ctx.entries) == r)
            && (forall o :: o in w.seen && o.Answered? ==> !o.answer.KeyMismatch?)
  {
    UndisturbedPrefix(h, c, before, last);
    LifetimeKeeps(h, c, before);
    LastAttempt(h, c, before, last);
    var w := Lifetime(h, c, before + [last]);
    assert w == RunAttempt(h, c, Lifetime(h, c, before), last) by {
      assert (before + [last])[..|before|] == before;
    }
    var r := Recorded(w.seen);
    assert |r| == |w.ctx.entries| ==> w.ctx.entries[..|r|] == w.ctx.entries;
  }

  lemma UndisturbedPrefix(h: Handler, c: Codec, before: seq<Attempt>, last: Attempt)
    requires Undisturbed(h, c, before + [last])
    ensures Undisturbed(h, c, before)
    ensures var w := Lifetime(h, c, before);
            !w.finished && (last.reachable || Load(c, w.stored, true) == [])
  {
    var all := before + [last];
    assert forall i :: 0 <= i <= |before| ==> all[..i] == before[..i];
    assert before[..|before|] == before && all[|before|] == last;
  }

  /**
   Until Complete takes effect, the logs saved over all attempts form a prefix chain ending in the
   stored one, and no side-effect function runs for a position that had been saved.
   */
  lemma SavedLogsFormAChain(h: Handler, c: Codec, attempts: seq<Attempt>)
    requires Lawful(c) && Deterministic(h) && Undisturbed(h, c, attempts)
    requires !Lifetime(h, c, attempts).finished
    ensures var w := Lifetime(h, c, attempts);
            && (forall i, j :: 0 <= i < j < |w.saves| ==> w.saves[i] <= w.saves[j])
            && (forall i :: 0 <= i < |w.saves| ==> w.saves[i] <= Load(c, w.stored, true))
            && (forall r :: r in w.fnRuns ==> r.saved <= r.position)
  {
    LifetimeKeeps(h, c, attempts);
  }

  lemma OneAttemptGrows(h: Handler, c: Codec, before: seq<Attempt>, last: Attempt)
    requires Lawful(c) && Deterministic(h) && Undisturbed(h, c, before + [last])
    requires !Lifetime(h, c, before + [last]).finished
    ensures StoredLog(h, c, before) <= StoredLog(h, c, before + [last])
  {
    UndisturbedPrefix(h, c, before, last);
    LifetimeKeeps(h, c, before);
    LastAttempt(h, c, before, last);
    assert (before + [last])[..|before|] == before;
  }

  /** The log that the next attempt would find. */
  function StoredLog(h: Handler, c: Codec, attempts: seq<Attempt>): seq<Entry> {
    Load(c, Lifetime(h, c, attempts).stored, true)
  }

  lemma {:induction false} StoredLogGrows(h: Handler, c: Codec, first: seq<Attempt>, more: seq<Attempt>)
    requires Lawful(c) && Deterministic(h) && Undisturbed(h, c, first + more)
    requires !Lifetime(h, c, first + more).finished
    ensures StoredLog(h, c, first) <= StoredLog(h, c, first + more)
    decreases |more|
  {
    if more == [] {
      assert first + more == first;
    } else {
      StillUndisturbed(h, c, first, more);
      StoredLogGrows(h, c, first, more[..|more| - 1]);
      OneAttemptGrows(h, c, first + more[..|more| - 1], more[|more| - 1]);
    }
  }

  lemma StillUndisturbed(h: Handler, c: Codec, first: seq<Attempt>, more: seq<Attempt>)
    requires Undisturbed(h, c, first + more) && more != []
    ensures first + more == first + more[..|more| - 1] + [more[|more| - 1]]
    ensures Undisturbed(h, c, first + more[..|more| - 1]) && !Lifetime(h, c, first + more[..|more| - 1]).finished
  {
    assert first + more == first + more[..|more| - 1] + [more[|more| - 1]];
    UndisturbedPrefix(h, c, first + more[..|more| - 1], more[|more| - 1]);
  }

  /** At the end of an attempt, what it was given agrees with what is stored. */
  lemma StoredAgrees(h: Handler, c: Codec, log: seq<Entry>, w: World, k: nat)
    requires Faithful(h, c, log, w) && Durably(c, log, w)
    requires k < |Recorded(w.seen)| && k < |Load(c, w.stored, true)|
    ensures Recorded(w.seen)[k] == ValueOf(c, Load(c, w.stored, true)[k])
  {
    assert Load(c, w.stored, true)[k] == w.ctx.entries[k];
  }

  lemma EndOfAttempt(h: Handler, c: Codec, before: seq<Attempt>, last: Attempt, k: nat)
    requires Lawful(c) && Deterministic(h) && Undisturbed(h, c, before + [last])
    requires !Lifetime(h, c, before + [last]).finished
    requires var w := Lifetime(h, c, before + [last]);
             k < |Recorded(w.seen)| && k < |Load(c, w.stored, true)|
    ensures var w := Lifetime(h, c, before + [last]);
            Recorded(w.seen)[k] == ValueOf(c, Load(c, w.stored, true)[k])
  {
    UndisturbedPrefix(h, c, before, last);
    LifetimeKeeps(h, c, before);
    LastAttempt(h, c, before, last);
    var w := RunAttempt(h, c, Lifetime(h, c, before), last);
    assert Lifetime(h, c, before + [last]) == w by {
      assert (before + [last])[..|before|] == before;
    }
    StoredAgrees(h, c, Load(c, Lifetime(h, c, before).stored, true), w, k);
  }

  lemma UndisturbedFirst(h: Handler, c: Codec, first: seq<Attempt>, more: seq<Attempt>)
    requires Undisturbed(h, c, first + more) && more != []
    ensures Undisturbed(h, c, first) && !Lifetime(h, c, first).finished
  {
    var all := first + more;
    assert forall i :: 0 <= i <= |first| ==> all[..i] == first[..i];
    assert first[..|first|] == first;
  }

  lemma StoredSince(h: Handler, c: Codec, first: seq<Attempt>, between: seq<Attempt>, b: Attempt)
    requires Lawful(c) && Deterministic(h) && Undisturbed(h, c, first + between + [b])
    ensures Undisturbed(h, c, first) && !Lifetime(h, c, first).finished
    ensures Load(c, Lifetime(h, c, first).stored, true) <= Load(c, Lifetime(h, c, first + between).stored, true)
  {
    UndisturbedPrefix(h, c, first + between, b);
    assert first + between + [b] == first + (between + [b]);
    UndisturbedFirst(h, c, first, between + [b]);
    StoredLogGrows(h, c, first, between);
  }

  /**
   What one attempt was given and saved, every later attempt is given again at the same position.
   The earlier attempt is `a`, after those in `before`; the later one is `b`.
   */
  lemma SameHistory(
      h: Handler, c: Codec, before: seq<Attempt>, a: Attempt, between: seq<Attempt>, b: Attempt, k: nat)
    requires Lawful(c) && Deterministic(h) && Undisturbed(h, c, before + [a] + between + [b])
    requires var w := Lifetime(h, c, before + [a]);
             k < |Recorded(w.seen)| && k < |Load(c, w.stored, true)|
    requires k < |Recorded(Lifetime(h, c, before + [a] + between + [b]).seen)|
    ensures Recorded(Lifetime(h, c, before + [a] + between + [b]).seen)[k]
         == Recorded(Lifetime(h, c, before + [a]).seen)[k]
  {
    StoredSince(h, c, before + [a], between, b);
    ReplayIsFaithful(h, c, before + [a] + between, b);
    EndOfAttempt(h, c, before, a, k);
  }

  // --- What the conditions are for ---

  function FirstAnswer(h: Handler, c: Codec, w: World, reachable: bool, tick: Tick): seq<Answer> {
    Recorded(RunAttempt(h, c, w, Attempt(reachable, [tick])).seen)
  }

  function Contrary(c: Codec, v: Answer): Tick {
    Tick(Supply(if v.TimeIs? then v.t + 1 else 0, if v.TextIs? then v.s + "0" else "",
                Returned(if v.ResultIs? then v.raw + " " else "")), Lost)
  }

  lemma OneTurn(h: Handler, c: Codec, w: World, a: Tick)
    ensures Turns(h, c, w, [a]) == Turn(h, c, w, a)
  {
    assert [a][..0] == [];
  }

  lemma ThreeTurns(h: Handler, c: Codec, w: World, a: Tick, b: Tick, d: Tick)
    ensures Turns(h, c, w, [a, b, d]) == Turn(h, c, Turn(h, c, Turn(h, c, w, a), b), d)
  {
    OneTurn(h, c, w, a);
    assert [a, b][..1] == [a] && [a, b, d][..2] == [a, b];
    assert Turns(h, c, w, [a, b]) == Turn(h, c, Turns(h, c, w, [a]), b);
  }

  lemma FirstAnswerIs(h: Handler, c: Codec, w: World, reachable: bool, tick: Tick)
    requires h([]).Do?
    ensures FirstAnswer(h, c, w, reachable, tick)
         == var o := Perform(c, Opened(Load(c, w.stored, reachable)), h([]).call, tick.supply);
            if o.answer.Recorded() then [o.answer] else []
  {
    var start := Restart(c, w, reachable);
    OneTurn(h, c, start, tick);
    CallTurn(h, c, start, tick);
  }

  lemma ReadableFirst(h: Handler, c: Codec, w: World, tick: Tick)
    requires h([]).Do? && Deterministic(h)
    requires WrittenBy(h, c, Load(c, w.stored, true)) && Load(c, w.stored, true) != []
    ensures FirstAnswer(h, c, w, true, tick) == [ValueOf(c, Load(c, w.stored, true)[0])]
  {
    var log := Load(c, w.stored, true);
    FirstAnswerIs(h, c, w, true, tick);
    assert Recorded([]) == Values(c, log[..0]);
    CallIsAccepted(h, c, log, w.(seen := []));
    AcceptedCall(c, log, 0, h([]).call, tick.supply);
  }

  lemma UnreadableFirst(h: Handler, c: Codec, w: World, reachable: bool, v: Answer)
    requires h([]).Do? && Load(c, w.stored, reachable) == []
    ensures FirstAnswer(h, c, w, reachable, Contrary(c, v)) != [v]
  {
    FirstAnswerIs(h, c, w, reachable, Contrary(c, v));
  }

  /**
   A stored and readable log is exactly what it takes: an attempt of a handler that starts with a recorded
   call gets the first saved result whatever the world supplies, if and only if Complete has not removed
   the log and it could be read. (durable.go starts from an empty log, without an error, when it could not.)
   */
  lemma FaithfulIffReadable(h: Handler, c: Codec, before: seq<Attempt>, completed: bool, reachable: bool)
    requires Lawful(c) && Deterministic(h) && Undisturbed(h, c, before) && !Lifetime(h, c, before).finished
    requires h([]).Do?
    requires Load(c, Lifetime(h, c, before).stored, true) != []
    ensures var w := Lifetime(h, c, before);
            var log := Load(c, w.stored, true);
            reachable && !completed <==>
            forall tick :: FirstAnswer(h, c, AfterComplete(w, completed), reachable, tick) == [ValueOf(c, log[0])]
  {
    var w := Lifetime(h, c, before);
    var v := ValueOf(c, Load(c, w.stored, true)[0]);
    LifetimeKeeps(h, c, before);
    if reachable && !completed {
      forall tick ensures FirstAnswer(h, c, w, reachable, tick) == [v] {
        ReadableFirst(h, c, w, tick);
      }
    } else {
      UnreadableFirst(h, c, AfterComplete(w, completed), reachable, v);
    }
  }

  /** Asks for the time after its side effect failed, then saves. */
  function Undaunted(seen: seq<Observed>): Action {
    if seen == [] then Do(SideEffect("charge"))
    else if |seen| == 1 && seen[0] == Answered(Failed) then Do(Now)
    else if |seen| == 2 && seen[0] == Answered(Failed) then Save
    else Stop
  }

  lemma UndauntedIsNotDeterministic()
    ensures !Deterministic(Undaunted)
  {
    var failed := [Answered(Failed)];
    RecordedMore([], Answered(Failed));
    assert [] + failed == failed;
    assert !Interchangeable(Undaunted([]).call, Undaunted(failed).call);
  }

  /**
   A handler that goes on to a different call after a failed side effect is not deterministic
   (UndauntedIsNotDeterministic), and the log it saves does not replay: its next attempt falls out of
   replay at once, without an error, and runs the side effect with the logged time still unread.
   */
  lemma OtherCallAfterFailure(c: Codec, t: int, raw: string)
    requires Lawful(c)
    ensures var supply := Supply(t, "", Raised);
            var first := Attempt(true, [Tick(supply, Lost), Tick(supply, Lost), Tick(supply, AppliedHeard)]);
            var again := Attempt(true, [Tick(Supply(t, "", Returned(raw)), Lost)]);
            var log := [Entry(0, "time", "now", c.encodeTime(t))];
            && Undisturbed(Undaunted, c, [first, again])
            && Load(c, Lifetime(Undaunted, c, [first]).stored, true) == log
            && var w := Lifetime(Undaunted, c, [first, again]);
               && Recorded(w.seen) == [ResultIs(raw)]
               && w.ctx == State([log[0], Entry(1, "call", "charge", raw)], 0, false)
               && ValueOf(c, log[0]) == TimeIs(t)
  {
    var supply := Supply(t, "", Raised);
    var t1, t3 := Tick(supply, Lost), Tick(supply, AppliedHeard);
    var first := Attempt(true, [t1, t1, t3]);
    var t4 := Tick(Supply(t, "", Returned(raw)), Lost);
    var again := Attempt(true, [t4]);
    var w := UndauntedFirst(c, t);
    UndauntedAgain(c, t, raw, w);
    assert [first][..0] == [] && [first, again][..1] == [first] && [first, again][..0] == [];
    assert Lifetime(Undaunted, c, []) == Untouched;
    assert Lifetime(Undaunted, c, [first]) == w;
  }

  lemma UndauntedFirst(c: Codec, t: int) returns (w: World)
    requires Lawful(c)
    ensures var supply := Supply(t, "", Raised);
            w == RunAttempt(Undaunted, c, Untouched,
                            Attempt(true, [Tick(supply, Lost), Tick(supply, Lost), Tick(supply, AppliedHeard)]))
    ensures !w.finished && Load(c, w.stored, true) == [Entry(0, "time", "now", c.encodeTime(t))]
  {
    var supply := Supply(t, "", Raised);
    var t1, t3 := Tick(supply, Lost), Tick(supply, AppliedHeard);
    var start := Restart(c, Untouched, true);
    ThreeTurns(Undaunted, c, start, t1, t1, t3);
    var w1 := Turn(Undaunted, c, start, t1);
    CallTurn(Undaunted, c, start, t1);
    assert w1.seen == [Answered(Failed)];
    var w2 := Turn(Undaunted, c, w1, t1);
    CallTurn(Undaunted, c, w1, t1);
    assert w2.seen == [Answered(Failed), Answered(TimeIs(t))];
    assert w2.ctx.entries == [Entry(0, "time", "now", c.encodeTime(t))];
    w := Turn(Undaunted, c, w2, t3);
  }

  lemma UndauntedAgain(c: Codec, t: int, raw: string, w: World)
    requires Lawful(c)
    requires Load(c, w.stored, true) == [Entry(0, "time", "now", c.encodeTime(t))]
    ensures var w' := RunAttempt(Undaunted, c, w, Attempt(true, [Tick(Supply(t, "", Returned(raw)), Lost)]));
            && Recorded(w'.seen) == [ResultIs(raw)]
            && w'.ctx == State([Entry(0, "time", "now", c.encodeTime(t)), Entry(1, "call", "charge", raw)], 0, false)
  {
    var t4 := Tick(Supply(t, "", Returned(raw)), Lost);
    var start := Restart(c, w, true);
    OneTurn(Undaunted, c, start, t4);
    CallTurn(Undaunted, c, start, t4);
    ChargeAfresh(c, Entry(0, "time", "now", c.encodeTime(t)), raw, t4.supply);
  }

  lemma ChargeAfresh(c: Codec, e: Entry, raw: string, supply: Supply)
    requires e.kind == "time" && supply.fn == Returned(raw)
    ensures Perform(c, Opened([e]), SideEffect("charge"), supply)
         == Outcome(State([e, Entry(1, "call", "charge", raw)], 0, false), ResultIs(raw), true)
  {
  }
}
