/**
 The record/replay context of durable.go.

 A `State` is the value of the three mutable fields of a DurableContext. The step
 functions say what one call does to it; the class runs the same steps in place.
 JSON is abstracted to a `Codec`; what the code needs of it is `Lawful`.
 */
module Durable {
  import opened Wrappers

  datatype Entry = Entry(num: int, kind: string, key: string, result: string)

  datatype Codec = Codec(
    encodeTime: int -> string, decodeTime: string -> Option<int>,
    encodeText: string -> string, decodeText: string -> Option<string>,
    encodeLog: seq<Entry> -> string, decodeLog: string -> Option<seq<Entry>>)

  /** Decoding undoes encoding. Nothing is asked of text that was not produced by encoding. */
  ghost predicate Lawful(c: Codec) {
    && (forall t :: c.decodeTime(c.encodeTime(t)) == Some(t))
    && (forall s :: c.decodeText(c.encodeText(s)) == Some(s))
    && (forall es :: c.decodeLog(c.encodeLog(es)) == Some(es))
  }

  datatype Call = Now | Random(numBytes: nat) | SideEffect(key: string)

  /** What the function given to SideEffect does when it is called. */
  datatype FnOutcome = Returned(raw: string) | Raised | Unserializable

  /** What the outside world would supply if the call had to be executed. */
  datatype Supply = Supply(clock: int, hex: string, fn: FnOutcome)

  datatype Answer =
    | TimeIs(t: int)
    | TextIs(s: string)
    | ResultIs(raw: string)
    | Failed
    | KeyMismatch(at: nat)
  {
    predicate Recorded() { TimeIs? || TextIs? || ResultIs? }
  }

  datatype State = State(entries: seq<Entry>, cursor: nat, replaying: bool)

  /** The new state, what the caller sees, and whether the side-effect function ran. */
  datatype Outcome = Outcome(state: State, answer: Answer, ran: bool)

  // --- One call ---

  predicate AtEntry(s: State, kind: string) {
    s.replaying && s.cursor < |s.entries| && s.entries[s.cursor].kind == kind
  }

  function Consume(s: State): State
    requires s.cursor < |s.entries|
  {
    s.(cursor := s.cursor + 1, replaying := s.replaying && s.cursor + 1 < |s.entries|)
  }

  function Append(s: State, kind: string, key: string, result: string): State {
    State(s.entries + [Entry(|s.entries|, kind, key, result)], s.cursor, false)
  }

  function NowStep(c: Codec, s: State, clock: int): Outcome {
    if AtEntry(s, "time") && c.decodeTime(s.entries[s.cursor].result).Some? then
      Outcome(Consume(s), TimeIs(c.decodeTime(s.entries[s.cursor].result).value), false)
    else
      Outcome(Append(s, "time", "now", c.encodeTime(clock)), TimeIs(clock), false)
  }

  function RandomStep(c: Codec, s: State, hex: string): Outcome {
    if AtEntry(s, "random") && c.decodeText(s.entries[s.cursor].result).Some? then
      Outcome(Consume(s), TextIs(c.decodeText(s.entries[s.cursor].result).value), false)
    else
      Outcome(Append(s, "random", "", c.encodeText(hex)), TextIs(hex), false)
  }

  function SideEffectStep(s: State, key: string, fn: FnOutcome): Outcome {
    if AtEntry(s, "call") then
      var entry := s.entries[s.cursor];
      if key != "" && entry.key != "" && entry.key != key then
        Outcome(s, KeyMismatch(s.cursor), false)
      else
        Outcome(Consume(s), ResultIs(entry.result), false)
    else if fn.Returned? then
      Outcome(Append(s, "call", key, fn.raw), ResultIs(fn.raw), true)
    else
      Outcome(s.(replaying := false), Failed, true)
  }

  function Perform(c: Codec, s: State, call: Call, w: Supply): Outcome {
    match call
    case Now => NowStep(c, s, w.clock)
    case Random(_) => RandomStep(c, s, w.hex)
    case SideEffect(key) => SideEffectStep(s, key, w.fn)
  }

  // --- Opening a context on the stored checkpoint ---

  /** The log a new context starts from. Every way of not getting one ends in the empty log. */
  function Load(c: Codec, stored: Option<string>, reachable: bool): seq<Entry> {
    if reachable && stored.Some? && c.decodeLog(stored.value).Some? then
      c.decodeLog(stored.value).value
    else
      []
  }

  function Opened(log: seq<Entry>): State {
    State(log, 0, |log| > 0)
  }

  // --- Any sequence of calls, matching the log or not ---

  function Calls(c: Codec, log: seq<Entry>, calls: seq<(Call, Supply)>): State {
    if calls == [] then Opened(log)
    else
      var last := calls[|calls| - 1];
      Perform(c, Calls(c, log, calls[..|calls| - 1]), last.0, last.1).state
  }

  /** How many of the calls returned without an error. */
  function Succeeded(c: Codec, log: seq<Entry>, calls: seq<(Call, Supply)>): nat {
    if calls == [] then 0
    else
      var before, last := calls[..|calls| - 1], calls[|calls| - 1];
      Succeeded(c, log, before)
      + if Perform(c, Calls(c, log, before), last.0, last.1).answer.Recorded() then 1 else 0
  }

  /** What a context opened on `log` keeps. */
  ghost predicate Keeps(log: seq<Entry>, s: State) {
    && log <= s.entries
    && s.cursor <= |log|
    && (s.replaying ==> s.cursor < |log| && s.entries == log)
    && (forall i :: |log| <= i < |s.entries| ==> s.entries[i].num == i)
  }

  /** A call that is answered moves the cursor or appends an entry, one that fails does neither. */
  ghost predicate Advances(s: State, o: Outcome) {
    o.state.cursor + |o.state.entries| == s.cursor + |s.entries| + if o.answer.Recorded() then 1 else 0
  }

  lemma AppendKeeps(log: seq<Entry>, s: State, kind: string, key: string, result: string)
    requires Keeps(log, s)
    ensures Keeps(log, Append(s, kind, key, result))
  {
  }

  lemma ConsumeKeeps(log: seq<Entry>, s: State)
    requires Keeps(log, s) && s.replaying
    ensures Keeps(log, Consume(s))
  {
  }

  lemma NowKeeps(c: Codec, log: seq<Entry>, s: State, clock: int)
    requires Keeps(log, s)
    ensures Keeps(log, NowStep(c, s, clock).state) && Advances(s, NowStep(c, s, clock))
  {
    if AtEntry(s, "time") {
      ConsumeKeeps(log, s);
    }
    AppendKeeps(log, s, "time", "now", c.encodeTime(clock));
  }

  lemma RandomKeeps(c: Codec, log: seq<Entry>, s: State, hex: string)
    requires Keeps(log, s)
    ensures Keeps(log, RandomStep(c, s, hex).state) && Advances(s, RandomStep(c, s, hex))
  {
    if AtEntry(s, "random") {
      ConsumeKeeps(log, s);
    }
    AppendKeeps(log, s, "random", "", c.encodeText(hex));
  }

  lemma SideEffectKeeps(log: seq<Entry>, s: State, key: string, fn: FnOutcome)
    requires Keeps(log, s)
    ensures Keeps(log, SideEffectStep(s, key, fn).state) && Advances(s, SideEffectStep(s, key, fn))
  {
    if AtEntry(s, "call") {
      ConsumeKeeps(log, s);
    } else if fn.Returned? {
      AppendKeeps(log, s, "call", key, fn.raw);
    }
  }

  lemma CallKeeps(c: Codec, log: seq<Entry>, s: State, call: Call, w: Supply)
    requires Keeps(log, s)
    ensures Keeps(log, Perform(c, s, call, w).state) && Advances(s, Perform(c, s, call, w))
  {
    match call
    case Now => NowKeeps(c, log, s, w.clock);
    case Random(_) => RandomKeeps(c, log, s, w.hex);
    case SideEffect(key) => SideEffectKeeps(log, s, key, w.fn);
  }

  /** What every call sequence keeps, whatever the loaded log, the codec and the caller do. */
  lemma {:induction false} AnyCallSequence(c: Codec, log: seq<Entry>, calls: seq<(Call, Supply)>)
    ensures Keeps(log, Calls(c, log, calls))
    ensures var s := Calls(c, log, calls); Succeeded(c, log, calls) == s.cursor + (|s.entries| - |log|)
  {
    if calls != [] {
      var before, last := calls[..|calls| - 1], calls[|calls| - 1];
      AnyCallSequence(c, log, before);
      CallKeeps(c, log, Calls(c, log, before), last.0, last.1);
    }
  }

  /** The entry at the cursor does not answer the call, nor object to its key: the call is executed. */
  predicate Executes(c: Codec, s: State, call: Call) {
    match call
    case Now => !(AtEntry(s, "time") && c.decodeTime(s.entries[s.cursor].result).Some?)
    case Random(_) => !(AtEntry(s, "random") && c.decodeText(s.entries[s.cursor].result).Some?)
    case SideEffect(_) => !AtEntry(s, "call")
  }

  /** The call appends one entry, numbered by its position, and replay is over. */
  ghost predicate Logs(s: State, s': State, kind: string, key: string, result: string) {
    && s'.entries == s.entries + [Entry(|s.entries|, kind, key, result)]
    && s'.cursor == s.cursor && !s'.replaying
  }

  /**
   A call that is executed answers with what the world supplies, and logs exactly that; a side-effect
   function that fails, or whose result cannot be encoded, leaves no entry.
   */
  lemma ExecutedCall(c: Codec, s: State, call: Call, w: Supply)
    requires Executes(c, s, call)
    ensures var o := Perform(c, s, call, w);
            && (call.Now? ==> o.answer == TimeIs(w.clock) && Logs(s, o.state, "time", "now", c.encodeTime(w.clock)))
            && (call.Random? ==> o.answer == TextIs(w.hex) && Logs(s, o.state, "random", "", c.encodeText(w.hex)))
            && (call.SideEffect? && w.fn.Returned? ==>
                  o.answer == ResultIs(w.fn.raw) && Logs(s, o.state, "call", call.key, w.fn.raw))
            && (call.SideEffect? && !w.fn.Returned? ==>
                  o.answer == Failed && o.state == State(s.entries, s.cursor, false))
            && (o.ran <==> call.SideEffect?)
  {
  }

  /**
   A call that is not executed takes the entry at the cursor as it is, whatever the world would supply; only
   a side effect with another key takes nothing and gets an error that names the position.
   */
  lemma AnsweredFromLog(c: Codec, s: State, call: Call, w: Supply)
    requires !Executes(c, s, call)
    ensures s.replaying && s.cursor < |s.entries|
    ensures var o, e := Perform(c, s, call, w), s.entries[s.cursor];
            var clash := call.SideEffect? && call.key != "" && e.key != "" && call.key != e.key;
            && !o.ran && o.state.entries == s.entries
            && (clash ==> o.answer == KeyMismatch(s.cursor) && o.state == s)
            && (!clash ==> o.state.cursor == s.cursor + 1 && (o.state.replaying <==> s.cursor + 1 < |s.entries|))
            && (call.Now? ==> o.answer.TimeIs? && c.decodeTime(e.result) == Some(o.answer.t))
            && (call.Random? ==> o.answer.TextIs? && c.decodeText(e.result) == Some(o.answer.s))
            && (call.SideEffect? && !clash ==> o.answer == ResultIs(e.result))
  {
  }

  predicate NoneExecuted(c: Codec, log: seq<Entry>, calls: seq<(Call, Supply)>) {
    calls == []
    || (var before := calls[..|calls| - 1];
        NoneExecuted(c, log, before) && !Executes(c, Calls(c, log, before), calls[|calls| - 1].0))
  }

  predicate InReplay(s: State) { s.replaying && s.cursor < |s.entries| }

  lemma ReplayingStep(c: Codec, log: seq<Entry>, s: State, call: Call, w: Supply)
    requires Keeps(log, s)
    ensures var s' := Perform(c, s, call, w).state;
            s'.replaying <==> s.replaying && !Executes(c, s, call) && s'.cursor < |log|
  {
  }

  /**
   IsReplaying tells, after any calls, that none of them was executed and that the loaded log has entries
   left; its test of the cursor is redundant.
   */
  lemma {:induction false} ReplayingIff(c: Codec, log: seq<Entry>, calls: seq<(Call, Supply)>)
    ensures var s := Calls(c, log, calls);
            && (InReplay(s) <==> s.replaying)
            && (InReplay(s) <==> NoneExecuted(c, log, calls) && s.cursor < |log|)
  {
    AnyCallSequence(c, log, calls);
    if calls != [] {
      var before, last := calls[..|calls| - 1], calls[|calls| - 1];
      ReplayingIff(c, log, before);
      AnyCallSequence(c, log, before);
      ReplayingStep(c, log, Calls(c, log, before), last.0, last.1);
      CursorGrows(c, Calls(c, log, before), last.0, last.1);
    }
  }

  lemma CursorGrows(c: Codec, s: State, call: Call, w: Supply)
    ensures s.cursor <= Perform(c, s, call, w).state.cursor
  {
  }

  /** Once replay is over it never starts again. */
  lemma {:induction false} ReplayNeverResumes(c: Codec, log: seq<Entry>, calls: seq<(Call, Supply)>, n: nat)
    requires n <= |calls|
    requires !Calls(c, log, calls[..n]).replaying
    ensures !Calls(c, log, calls).replaying
    decreases |calls|
  {
    if n == |calls| {
      assert calls[..n] == calls;
    } else {
      var before := calls[..|calls| - 1];
      assert before[..n] == calls[..n];
      ReplayNeverResumes(c, log, before, n);
    }
  }

  // --- The object ---

  /** The checkpoint the server keeps for the job: the text under "_replay_log", if any. */
  class CheckpointStore {
    var log: Option<string>

    constructor ()
      ensures log == None
    {
      log := None;
    }
  }

  /** What becomes of one request to the store. */
  datatype Fate = Lost | AppliedUnheard | AppliedHeard

  class DurableContext {
    const codec: Codec
    var entries: seq<Entry>
    var cursor: nat
    var replaying: bool

    ghost function Snapshot(): State
      reads this
    {
      State(entries, cursor, replaying)
    }

    constructor (codec: Codec, store: CheckpointStore, reachable: bool)
      ensures this.codec == codec
      ensures Snapshot() == Opened(Load(codec, store.log, reachable))
    {
      this.codec := codec;
      entries, cursor, replaying := [], 0, false;
      new;
      if reachable && store.log.Some? {
        var decoded := codec.decodeLog(store.log.value);
        if decoded.Some? && |decoded.value| > 0 {
          entries := decoded.value;
          replaying := true;
        }
      }
    }

    method Now(clock: int) returns (t: int)
      modifies this
      ensures var o := NowStep(codec, old(Snapshot()), clock);
              Snapshot() == o.state && TimeIs(t) == o.answer
    {
      if replaying && cursor < |entries| {
        var entry := entries[cursor];
        if entry.kind == "time" {
          var decoded := codec.decodeTime(entry.result);
          if decoded.Some? {
            cursor := cursor + 1;
            if cursor >= |entries| {
              replaying := false;
            }
            return decoded.value;
          }
        }
      }
      entries := entries + [Entry(|entries|, "time", "now", codec.encodeTime(clock))];
      replaying := false;
      t := clock;
    }

    method Random(hex: string) returns (s: string)
      modifies this
      ensures var o := RandomStep(codec, old(Snapshot()), hex);
              Snapshot() == o.state && TextIs(s) == o.answer
    {
      if replaying && cursor < |entries| {
        var entry := entries[cursor];
        if entry.kind == "random" {
          var decoded := codec.decodeText(entry.result);
          if decoded.Some? {
            cursor := cursor + 1;
            if cursor >= |entries| {
              replaying := false;
            }
            return decoded.value;
          }
        }
      }
      entries := entries + [Entry(|entries|, "random", "", codec.encodeText(hex))];
      replaying := false;
      s := hex;
    }

    /** `ran` tells whether the function was called; `fn` is what it does when called. */
    method SideEffect(key: string, fn: FnOutcome) returns (r: Answer, ran: bool)
      modifies this
      ensures var o := SideEffectStep(old(Snapshot()), key, fn);
              Snapshot() == o.state && r == o.answer && ran == o.ran
    {
      if replaying && cursor < |entries| {
        var entry := entries[cursor];
        if entry.kind == "call" {
          if key != "" && entry.key != "" && entry.key != key {
            return KeyMismatch(cursor), false;
          }
          cursor := cursor + 1;
          if cursor >= |entries| {
            replaying := false;
          }
          return ResultIs(entry.result), false;
        }
      }
      replaying := false;
      if fn.Returned? {
        entries := entries + [Entry(|entries|, "call", key, fn.raw)];
        return ResultIs(fn.raw), true;
      }
      return Failed, true;
    }

    /** Saves the whole log, replayed or not. The caller hears of success only if the answer arrives. */
    method Checkpoint(store: CheckpointStore, fate: Fate) returns (ok: bool)
      modifies store
      ensures store.log == if fate.Lost? then old(store.log) else Some(codec.encodeLog(entries))
      ensures ok == fate.AppliedHeard?
    {
      var logData := codec.encodeLog(entries);
      if !fate.Lost? {
        store.log := Some(logData);
      }
      ok := fate.AppliedHeard?;
    }

    method Complete(store: CheckpointStore, fate: Fate) returns (ok: bool)
      modifies store
      ensures store.log == if fate.Lost? then old(store.log) else None
      ensures ok == fate.AppliedHeard?
    {
      if !fate.Lost? {
        store.log := None;
      }
      ok := fate.AppliedHeard?;
    }

    method IsReplaying() returns (b: bool)
      ensures b == InReplay(Snapshot())
    {
      b := replaying && cursor < |entries|;
    }
  }
}
