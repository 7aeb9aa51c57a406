/**
 Reporting a job's outcome: processJob (worker.go) over the ACK/NACK retry loop (worker.go) over the
 retry loop of transport.do (transport.go) and its decisions (rate_limiter.go).

 Durations are nanoseconds, unbounded. The network and the cancellation of the context are arbitrary.
 */
module Delivery {
  import opened Wrappers

  datatype RetryConfig = RetryConfig(
    maxRetries: int, minBackoff: int, maxBackoff: int, enabled: bool, retryServerErrors: bool)

  /** Broken: no response, an unreadable one, or one over the size limit. */
  datatype Reply = Broken | Response(status: int, retryAfter: int, decodes: bool)

  /**
   One HTTP request as the loop experiences it. If a backoff follows, `jitter` scales it by a random
   factor (see Jitters) and `cut` tells whether, and after how long, the context is cancelled in it.
   */
  datatype Exchange = Exchange(reply: Reply, jitter: int -> int, cut: Option<int>)

  datatype Outcome = Success | Failure(cancelled: bool)

  datatype Ending = Ending(requests: nat, waited: int, outcome: Outcome)

  function Max0(x: int): int { if x < 0 then 0 else x }

  /** n times x. */
  function Times(n: nat, x: int): int { if n == 0 then 0 else Times(n - 1, x) + x }

  lemma {:induction false} TimesPositive(n: nat, x: int)
    requires x >= 0
    ensures Times(n, x) >= 0
  {
    if n > 0 {
      TimesPositive(n - 1, x);
    }
  }

  // --- rate_limiter.go ---

  /** minBackoff doubled `attempt` times. */
  function Exponential(minBackoff: int, attempt: nat): int {
    if attempt == 0 then minBackoff else 2 * Exponential(minBackoff, attempt - 1)
  }

  function RetryBackoff(rc: RetryConfig, attempt: nat, retryAfter: int, jitter: int -> int): int {
    if retryAfter > 0 then
      if retryAfter > rc.maxBackoff then rc.maxBackoff else retryAfter
    else
      var backoff := Exponential(rc.minBackoff, attempt);
      jitter(if backoff > rc.maxBackoff then rc.maxBackoff else backoff)
  }

  predicate Retryable(rc: RetryConfig, status: int) {
    status == 429 || (rc.retryServerErrors && (status == 502 || status == 503 || status == 504))
  }

  predicate ShouldRetry(rc: RetryConfig, status: int, attempt: nat) {
    rc.enabled && attempt < rc.maxRetries && Retryable(rc, status)
  }

  /** How long a timer set to d runs, if the context may be cancelled meanwhile. */
  function Slept(d: int, cut: Option<int>): int {
    if cut.Some? && Max0(cut.value) < Max0(d) then Max0(cut.value) else Max0(d)
  }

  /** What scaling by a random factor of at least a half and less than one, then truncating, guarantees. */
  ghost predicate Jitters(jitter: int -> int) {
    forall b :: if b >= 0 then b - 1 <= 2 * jitter(b) && jitter(b) <= b else b <= jitter(b) <= 0
  }

  /** A backoff never exceeds the maximum; without Retry-After it is at least half the clamped exponential. */
  lemma BackoffIsClamped(rc: RetryConfig, attempt: nat, retryAfter: int, jitter: int -> int)
    requires Jitters(jitter)
    ensures Max0(RetryBackoff(rc, attempt, retryAfter, jitter)) <= Max0(rc.maxBackoff)
    ensures retryAfter <= 0 && 0 <= rc.minBackoff <= rc.maxBackoff ==>
              2 * RetryBackoff(rc, attempt, retryAfter, jitter) >= rc.minBackoff - 1
  {
    if retryAfter <= 0 {
      var backoff := Exponential(rc.minBackoff, attempt);
      assert Jitters(jitter);
      if rc.minBackoff >= 0 {
        ExponentialGrows(rc.minBackoff, attempt);
      }
    }
  }

  /** A Retry-After is honoured up to the maximum. */
  lemma RetryAfterIsHonoured(rc: RetryConfig, attempt: nat, retryAfter: int, jitter: int -> int)
    requires retryAfter > 0
    ensures RetryBackoff(rc, attempt, retryAfter, jitter) <= retryAfter
    ensures RetryBackoff(rc, attempt, retryAfter, jitter) <= rc.maxBackoff
    ensures RetryBackoff(rc, attempt, retryAfter, jitter) in {retryAfter, rc.maxBackoff}
  {
  }

  function NoJitter(b: int): int { b }

  /** Without one, the jitter scales a backoff that starts at the minimum and doubles up to the maximum. */
  lemma BackoffDoubles(rc: RetryConfig, attempt: nat, jitter: int -> int)
    requires 0 <= rc.minBackoff <= rc.maxBackoff
    ensures RetryBackoff(rc, 0, 0, NoJitter) == rc.minBackoff
    ensures var b := RetryBackoff(rc, attempt, 0, NoJitter);
            && RetryBackoff(rc, attempt + 1, 0, NoJitter) == (if 2 * b > rc.maxBackoff then rc.maxBackoff else 2 * b)
            && RetryBackoff(rc, attempt, 0, jitter) == jitter(b)
  {
    ExponentialGrows(rc.minBackoff, attempt);
  }

  lemma {:induction false} ExponentialGrows(minBackoff: int, attempt: nat)
    requires minBackoff >= 0
    ensures Exponential(minBackoff, attempt) >= minBackoff
  {
    if attempt > 0 {
      ExponentialGrows(minBackoff, attempt - 1);
    }
  }

  // --- transport.go ---

  function Judge(reply: Reply): Outcome {
    if reply.Broken? || reply.status >= 400 || !reply.decodes then Failure(false) else Success
  }

  /** The rest of a transport.do call whose next request is exchange n, its attempt-th retry. */
  function DoFrom(rc: RetryConfig, net: nat -> Exchange, n: nat, attempt: nat): Ending
    decreases rc.maxRetries - attempt
  {
    var x := net(n);
    if x.reply.Response? && ShouldRetry(rc, x.reply.status, attempt) then
      var slept := Slept(RetryBackoff(rc, attempt, x.reply.retryAfter, x.jitter), x.cut);
      if x.cut.Some? then Ending(1, slept, Failure(true))
      else
        var rest := DoFrom(rc, net, n + 1, attempt + 1);
        Ending(1 + rest.requests, slept + rest.waited, rest.outcome)
    else
      Ending(1, 0, Judge(x.reply))
  }

  datatype Message = Ack(jobId: string) | Nack(jobId: string, code: string, retryable: bool)

  function Repeat(m: Message, n: nat): seq<Message> { seq(n, _ => m) }

  method Do(rc: RetryConfig, net: nat -> Exchange, n: nat, m: Message) returns (e: Ending, sent: seq<Message>)
    ensures e == DoFrom(rc, net, n, 0)
    ensures sent == Repeat(m, e.requests)
  {
    var attempt: nat := 0;
    var waited := 0;
    sent := [];
    while true
      invariant |sent| == attempt && sent == Repeat(m, attempt)
      invariant Joined(attempt, waited, DoFrom(rc, net, n + attempt, attempt)) == DoFrom(rc, net, n, 0)
      decreases rc.maxRetries - attempt
    {
      sent := sent + [m];
      var x := net(n + attempt);
      if x.reply.Broken? {
        return Ending(attempt + 1, waited, Failure(false)), sent;
      }
      if ShouldRetry(rc, x.reply.status, attempt) {
        var backoff := RetryBackoff(rc, attempt, x.reply.retryAfter, x.jitter);
        waited := waited + Slept(backoff, x.cut);
        if x.cut.Some? {
          return Ending(attempt + 1, waited, Failure(true)), sent;
        }
        attempt := attempt + 1;
        continue;
      }
      if x.reply.status >= 400 || !x.reply.decodes {
        return Ending(attempt + 1, waited, Failure(false)), sent;
      }
      return Ending(attempt + 1, waited, Success), sent;
    }
  }

  function Joined(requests: nat, waited: int, rest: Ending): Ending {
    Ending(requests + rest.requests, waited + rest.waited, rest.outcome)
  }

  function Retries(rc: RetryConfig): nat {
    if rc.enabled && rc.maxRetries > 0 then rc.maxRetries else 0
  }

  /** When a call of transport.do ends, and how. */
  lemma {:induction false} DoEnds(rc: RetryConfig, net: nat -> Exchange, n: nat, attempt: nat)
    ensures var e := DoFrom(rc, net, n, attempt);
            var last := net(n + e.requests - 1);
            && e.requests >= 1
            // every earlier answer was retryable and its backoff ran to the end
            && (forall k :: n <= k < n + e.requests - 1 ==>
                              net(k).reply.Response? && Retryable(rc, net(k).reply.status) && net(k).cut.None?)
            // it ends with an answer that is final, with the retries used up, or by cancellation
            && (e.outcome == Failure(true) <==>
                last.cut.Some? && last.reply.Response? && ShouldRetry(rc, last.reply.status, attempt + e.requests - 1))
            && (e.outcome != Failure(true) ==>
                e.outcome == Judge(last.reply)
                && (last.reply.Response? ==> !ShouldRetry(rc, last.reply.status, attempt + e.requests - 1)))
    decreases rc.maxRetries - attempt
  {
    var x := net(n);
    if x.reply.Response? && ShouldRetry(rc, x.reply.status, attempt) && x.cut.None? {
      DoEnds(rc, net, n + 1, attempt + 1);
    }
  }

  /** A call succeeds exactly if the last answer has a status below 400 and a body that can be read. */
  lemma SuccessIff(rc: RetryConfig, net: nat -> Exchange, n: nat, attempt: nat)
    ensures var e := DoFrom(rc, net, n, attempt);
            var last := net(n + e.requests - 1).reply;
            e.requests >= 1 && (e.outcome == Success <==> last.Response? && last.status < 400 && last.decodes)
  {
    DoEnds(rc, net, n, attempt);
  }

  /** The statuses after which there is another attempt: too many requests, and the transient server errors. */
  predicate Transient(rc: RetryConfig, status: int) {
    status in (if rc.retryServerErrors then {429, 502, 503, 504} else {429})
  }

  /**
   There is a second request exactly if retries are enabled, one is left, the answer was transient and the
   context outlasts the backoff; cancellation during the backoff ends the call at once.
   */
  lemma SecondRequestIff(rc: RetryConfig, net: nat -> Exchange, n: nat)
    ensures DoFrom(rc, net, n, 0).requests >= 2 <==>
            && rc.enabled && rc.maxRetries >= 1
            && net(n).reply.Response? && Transient(rc, net(n).reply.status) && net(n).cut.None?
    ensures rc.enabled && rc.maxRetries >= 1 && net(n).reply.Response? && Transient(rc, net(n).reply.status)
            && net(n).cut.Some? && net(n).cut.value >= 0 ==>
              var b := RetryBackoff(rc, 0, net(n).reply.retryAfter, net(n).jitter);
              0 <= b ==>
                DoFrom(rc, net, n, 0) == Ending(1, if net(n).cut.value < b then net(n).cut.value else b, Failure(true))
  {
    DoEnds(rc, net, n + 1, 1);
  }

  lemma {:induction false} DoBound(rc: RetryConfig, net: nat -> Exchange, n: nat, attempt: nat)
    requires forall k :: Jitters(net(k).jitter)
    ensures var e := DoFrom(rc, net, n, attempt);
            var left: nat := if attempt < Retries(rc) then Retries(rc) - attempt else 0;
            1 <= e.requests <= left + 1 && 0 <= e.waited <= Times(left, Max0(rc.maxBackoff))
    decreases rc.maxRetries - attempt
  {
    var x := net(n);
    if x.reply.Response? && ShouldRetry(rc, x.reply.status, attempt) {
      BackoffIsClamped(rc, attempt, x.reply.retryAfter, x.jitter);
      TimesPositive(Retries(rc) - attempt - 1, Max0(rc.maxBackoff));
      if x.cut.None? {
        DoBound(rc, net, n + 1, attempt + 1);
      }
    } else {
      TimesPositive(if attempt < Retries(rc) then Retries(rc) - attempt else 0, Max0(rc.maxBackoff));
    }
  }

  // --- worker.go: ackJobWithRetry and nackJobWithRetry ---

  const ACK_NACK_MAX_RETRIES: nat := 3

  function Pause(attempt: nat): int { (attempt + 1) * 500_000_000 }

  /** One try, then its pause, then the rest of the loop, as far as it gets. */
  function Continue(e: Ending, pause: int, cut: Option<int>, rest: Ending): Ending {
    if e.outcome != Failure(false) then e
    else if cut.Some? then Ending(e.requests, e.waited + Slept(pause, cut), Failure(true))
    else Ending(e.requests + rest.requests, e.waited + Max0(pause) + rest.waited, rest.outcome)
  }

  /** What each transport.do call comes to, by its first exchange. */
  function Calls(rc: RetryConfig, net: nat -> Exchange): nat -> Ending {
    (n: nat) => DoFrom(rc, net, n, 0)
  }

  /**
   The rest of a retry loop of `limit` tries, from a given try and exchange on; `pauses` tells which
   of its pauses is cut by cancellation.
   */
  function ReportFrom(call: nat -> Ending, pauses: nat -> Option<int>, limit: nat, n: nat, attempt: nat): Ending
    requires attempt <= limit
    decreases limit - attempt
  {
    if attempt == limit then Ending(0, 0, Failure(false))
    else
      Continue(call(n), Pause(attempt), pauses(attempt),
               ReportFrom(call, pauses, limit, n + call(n).requests, attempt + 1))
  }

  /** After so many requests and so long a wait, the rest of the loop makes up `whole`. */
  ghost predicate Remains(call: nat -> Ending, pauses: nat -> Option<int>, limit: nat, requests: nat, attempt: nat,
                          waited: int, whole: Ending)
    requires attempt <= limit
  {
    whole == Joined(requests, waited, ReportFrom(call, pauses, limit, requests, attempt))
  }

  lemma RetryStep(call: nat -> Ending, pauses: nat -> Option<int>, limit: nat, requests: nat, attempt: nat, waited: int,
                  whole: Ending, one: Ending)
    requires attempt < limit && Remains(call, pauses, limit, requests, attempt, waited, whole)
    requires one == call(requests)
    ensures one.outcome != Failure(false) ==>
              whole == Ending(requests + one.requests, waited + one.waited, one.outcome)
    ensures one.outcome == Failure(false) && pauses(attempt).Some? ==>
              whole == Ending(requests + one.requests, waited + one.waited + Slept(Pause(attempt), pauses(attempt)),
                              Failure(true))
    ensures one.outcome == Failure(false) && pauses(attempt).None? ==>
              Remains(call, pauses, limit, requests + one.requests, attempt + 1,
                      waited + one.waited + Slept(Pause(attempt), pauses(attempt)), whole)
  {
  }

  /**
   How a retry loop ends, in its k-th try, the call that begins with exchange `at`: it succeeds exactly if
   that call did; it fails, uncancelled, only when the tries are used up; and no try follows a success.
   */
  lemma {:induction false} ReportEnds(call: nat -> Ending, pauses: nat -> Option<int>, limit: nat, n: nat, attempt: nat)
    returns (k: nat, at: nat)
    requires attempt < limit
    ensures attempt <= k < limit && n <= at && (k == attempt ==> at == n)
    ensures var e := ReportFrom(call, pauses, limit, n, attempt);
            && e.requests == at - n + call(at).requests
            && (e.outcome == Success <==> call(at).outcome == Success)
            && (e.outcome == Failure(false) ==> k == limit - 1 && call(at).outcome == Failure(false))
    ensures k > attempt ==> call(n).outcome == Failure(false) && pauses(attempt).None?
    ensures k < limit - 1 ==> call(at).outcome != Failure(false) || pauses(k).Some?
    decreases limit - attempt
  {
    k, at := attempt, n;
    if call(n).outcome == Failure(false) && pauses(attempt).None? && attempt + 1 < limit {
      k, at := ReportEnds(call, pauses, limit, n + call(n).requests, attempt + 1);
    }
  }

  /** The pauses of a retry loop of three: half a second before the second try, a whole one before the third. */
  lemma PausesGrow(call: nat -> Ending, pauses: nat -> Option<int>)
    requires pauses(0).None? && pauses(1).None? && call(0).outcome == Failure(false)
    ensures var second := call(call(0).requests);
            second.outcome == Success ==>
              ReportFrom(call, pauses, 3, 0, 0)
              == Ending(call(0).requests + second.requests, call(0).waited + 500_000_000 + second.waited, Success)
    ensures var second := call(call(0).requests);
            var third := call(call(0).requests + second.requests);
            second.outcome == Failure(false) && third.outcome == Success ==>
              ReportFrom(call, pauses, 3, 0, 0)
              == Ending(call(0).requests + second.requests + third.requests,
                        call(0).waited + 500_000_000 + second.waited + 1_000_000_000 + third.waited, Success)
  {
    var second := call(call(0).requests);
    var n := call(0).requests + second.requests;
    assert ReportFrom(call, pauses, 3, 0, 0)
        == Continue(call(0), 500_000_000, None, ReportFrom(call, pauses, 3, call(0).requests, 1));
    assert ReportFrom(call, pauses, 3, call(0).requests, 1)
        == Continue(second, 1_000_000_000, None, ReportFrom(call, pauses, 3, n, 2));
  }

  /** `call` tells what the transport.do call that begins with exchange n comes to. */
  ghost predicate Tells(call: nat -> Ending, rc: RetryConfig, net: nat -> Exchange, n: nat) {
    call(n) == DoFrom(rc, net, n, 0)
  }

  method ReportWithRetry(
      rc: RetryConfig, net: nat -> Exchange, pauses: nat -> Option<int>, limit: nat, m: Message,
      ghost call: nat -> Ending)
    returns (e: Ending, sent: seq<Message>)
    requires forall n :: Tells(call, rc, net, n)
    ensures e == ReportFrom(call, pauses, limit, 0, 0)
    ensures sent == Repeat(m, e.requests)
  {
    var requests: nat, waited := 0, 0;
    ghost var whole := ReportFrom(call, pauses, limit, 0, 0);
    sent := [];
    for attempt := 0 to limit
      invariant sent == Repeat(m, requests)
      invariant Remains(call, pauses, limit, requests, attempt, waited, whole)
    {
      var one, more := Do(rc, net, requests, m);
      assert Tells(call, rc, net, requests);
      RetryStep(call, pauses, limit, requests, attempt, waited, whole, one);
      RepeatMore(m, requests, one.requests);
      sent := sent + more;
      requests, waited := requests + one.requests, waited + one.waited;
      if one.outcome != Failure(false) {
        return Ending(requests, waited, one.outcome), sent;
      }
      waited := waited + Slept(Pause(attempt), pauses(attempt));
      if pauses(attempt).Some? {
        return Ending(requests, waited, Failure(true)), sent;
      }
    }
    e := Ending(requests, waited, Failure(false));
  }

  lemma RepeatMore(m: Message, a: nat, b: nat)
    ensures Repeat(m, a) + Repeat(m, b) == Repeat(m, a + b)
  {
  }

  /** The pauses of a retry loop from a given try on, in full. */
  function Pauses(limit: nat, attempt: nat): int
    requires attempt <= limit
    decreases limit - attempt
  {
    if attempt == limit then 0 else Pause(attempt) + Pauses(limit, attempt + 1)
  }

  lemma PausesSum()
    ensures Pauses(ACK_NACK_MAX_RETRIES, 0) == 3_000_000_000
  {
    assert Pauses(3, 3) == 0;
    assert Pauses(3, 2) == 1_500_000_000;
    assert Pauses(3, 1) == 2_500_000_000;
  }

  /** The requests of n calls of transport.do that use up their retries. */
  function Requests(n: nat, retries: nat): nat {
    if n == 0 then 0 else Requests(n - 1, retries) + retries + 1
  }

  lemma ContinueBound(e: Ending, pause: int, cut: Option<int>, rest: Ending, r: nat, w: int, rs: nat, ws: int)
    requires e.requests <= r && 0 <= e.waited <= w
    requires rest.requests <= rs && 0 <= rest.waited <= ws && 0 <= pause
    ensures var all := Continue(e, pause, cut, rest);
            all.requests <= r + rs && 0 <= all.waited <= w + pause + ws
  {
  }

  lemma {:induction false} ReportBoundFrom(
      call: nat -> Ending, pauses: nat -> Option<int>, limit: nat, n: nat, attempt: nat, retries: nat, w: int)
    requires attempt <= limit && w >= 0
    requires forall k :: call(k).requests <= retries + 1 && 0 <= call(k).waited <= w
    ensures var e := ReportFrom(call, pauses, limit, n, attempt);
            var left := limit - attempt;
            && e.requests <= Requests(left, retries)
            && 0 <= e.waited <= Times(left, w) + Pauses(limit, attempt)
    decreases limit - attempt
  {
    if attempt < limit {
      var left := limit - attempt;
      ReportBoundFrom(call, pauses, limit, n + call(n).requests, attempt + 1, retries, w);
      ContinueBound(call(n), Pause(attempt), pauses(attempt),
                    ReportFrom(call, pauses, limit, n + call(n).requests, attempt + 1),
                    retries + 1, w,
                    Requests(left - 1, retries), Times(left - 1, w) + Pauses(limit, attempt + 1));
    }
  }

  // --- worker.go: processJob ---

  /** How the wrapped handler ended. */
  datatype HandlerRun = ReturnedNil | ReturnedError(nonRetryable: bool) | Panicked

  /** The one message processJob sends for a job, as often as it takes. */
  function Verdict(jobId: string, registered: bool, run: HandlerRun): Message {
    if !registered then Nack(jobId, "handler_error", false)
    else
      match run
      case ReturnedNil => Ack(jobId)
      case ReturnedError(nonRetryable) => Nack(jobId, "handler_error", !nonRetryable)
      case Panicked => Nack(jobId, "handler_error", true)
  }

  /**
   Whatever the network answers and whenever the context is cancelled, processJob sends one and the
   same message: an ACK only if the handler returned nil, else a NACK; within the nested bound.
   */
  method ProcessJob(rc: RetryConfig, net: nat -> Exchange, pauses: nat -> Option<int>,
                    jobId: string, registered: bool, run: HandlerRun)
    returns (sent: seq<Message>, waited: int)
    requires forall k :: Jitters(net(k).jitter)
    ensures sent != [] && forall m :: m in sent ==> m == Verdict(jobId, registered, run)
    ensures Ack(jobId) in sent <==> registered && run == ReturnedNil
    ensures forall m :: m in sent ==> m.jobId == jobId
    ensures forall m :: m in sent && m.Nack? ==>
              && m.code == "handler_error"
              && (m.retryable <==> registered && (run.Panicked? || (run.ReturnedError? && !run.nonRetryable)))
    ensures |sent| <= ACK_NACK_MAX_RETRIES * (Retries(rc) + 1)
    ensures 0 <= waited <= Times(3, Times(Retries(rc), Max0(rc.maxBackoff))) + 3_000_000_000
  {
    var e: Ending;
    ghost var call := Calls(rc, net);
    ProcessBound(rc, net, pauses);
    assert forall n :: Tells(call, rc, net, n);
    if !registered {
      e, sent := Do(rc, net, 0, Nack(jobId, "handler_error", false));
    } else if run != ReturnedNil {
      var retryable := run.Panicked? || !run.nonRetryable;
      e, sent := ReportWithRetry(rc, net, pauses, ACK_NACK_MAX_RETRIES, Nack(jobId, "handler_error", retryable), call);
    } else {
      e, sent := ReportWithRetry(rc, net, pauses, ACK_NACK_MAX_RETRIES, Ack(jobId), call);
    }
    assert sent[0] == Verdict(jobId, registered, run);
    waited := e.waited;
  }

  lemma ProcessBound(rc: RetryConfig, net: nat -> Exchange, pauses: nat -> Option<int>)
    requires forall k :: Jitters(net(k).jitter)
    ensures forall e ::
              e == DoFrom(rc, net, 0, 0) || e == ReportFrom(Calls(rc, net), pauses, ACK_NACK_MAX_RETRIES, 0, 0) ==>
                          && 1 <= e.requests <= ACK_NACK_MAX_RETRIES * (Retries(rc) + 1)
                          && 0 <= e.waited <= Times(3, Times(Retries(rc), Max0(rc.maxBackoff))) + 3_000_000_000
  {
    var call := Calls(rc, net);
    var w := Times(Retries(rc), Max0(rc.maxBackoff));
    TimesPositive(Retries(rc), Max0(rc.maxBackoff));
    forall k
      ensures 1 <= call(k).requests <= Retries(rc) + 1 && 0 <= call(k).waited <= w
    {
      DoBound(rc, net, k, 0);
    }
    ReportBoundFrom(call, pauses, ACK_NACK_MAX_RETRIES, 0, 0, Retries(rc), w);
    PausesSum();
    ThreeTimes(Retries(rc), w);
  }

  lemma ThreeTimes(retries: nat, w: int)
    ensures Times(3, w) == 3 * w && Requests(3, retries) == 3 * (retries + 1)
  {
    assert Times(1, w) == w && Times(2, w) == w + w;
    assert Requests(1, retries) == retries + 1 && Requests(2, retries) == 2 * (retries + 1);
  }

  // --- The bound is reached ---

  /** A server that is overloaded throughout and asks for the longest wait. */
  function Overloaded(rc: RetryConfig): nat -> Exchange {
    (k: nat) => Exchange(Response(503, rc.maxBackoff + 1, true), (b: int) => b / 2, None)
  }

  function NeverCut(): nat -> Option<int> { (k: nat) => None }

  lemma {:induction false} OverloadedDo(rc: RetryConfig, n: nat, attempt: nat)
    requires rc.enabled && rc.retryServerErrors && 0 <= rc.maxRetries && attempt <= rc.maxRetries
    requires rc.maxBackoff >= 0
    ensures DoFrom(rc, Overloaded(rc), n, attempt)
         == Ending(rc.maxRetries - attempt + 1, Times(rc.maxRetries - attempt, rc.maxBackoff), Failure(false))
    decreases rc.maxRetries - attempt
  {
    if attempt < rc.maxRetries {
      OverloadedDo(rc, n + 1, attempt + 1);
    }
  }

  /** No smaller bound holds, for any configuration that retries server errors. */
  lemma BoundIsReached(rc: RetryConfig)
    requires rc.enabled && rc.retryServerErrors && 0 <= rc.maxRetries && rc.maxBackoff >= 0
    ensures forall k: nat :: Jitters(Overloaded(rc)(k).jitter)
    ensures ReportFrom(Calls(rc, Overloaded(rc)), NeverCut(), ACK_NACK_MAX_RETRIES, 0, 0)
         == Ending(ACK_NACK_MAX_RETRIES * (rc.maxRetries + 1),
                   Times(3, Times(rc.maxRetries, rc.maxBackoff)) + 3_000_000_000, Failure(false))
  {
    var call := Calls(rc, Overloaded(rc));
    var r: nat, w := rc.maxRetries + 1, Times(rc.maxRetries, rc.maxBackoff);
    forall n
      ensures call(n) == Ending(r, w, Failure(false))
    {
      OverloadedDo(rc, n, 0);
    }
    assert ReportFrom(call, NeverCut(), 3, 3 * r, 3) == Ending(0, 0, Failure(false));
    assert ReportFrom(call, NeverCut(), 3, 2 * r, 2) == Ending(r, w + 1_500_000_000, Failure(false));
    assert ReportFrom(call, NeverCut(), 3, r, 1) == Ending(2 * r, w + w + 2_500_000_000, Failure(false));
    ThreeTimes(rc.maxRetries, w);
  }
}
