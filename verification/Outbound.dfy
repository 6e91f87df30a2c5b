/** Outbound HTTP calls with retry and breaker (internal/outbound/http.go:73-166). */
module Outbound {
  import opened Basics

  /** One attempt: a response with its status, or an error. After a failed redirect the client returns an error and
      a response whose body it has already closed. `cancelled` says whether the error wraps context.Canceled. */
  datatype Attempt = Answered(status: int) | Failed(redirect: bool, cancelled: bool)

  /** What the wait after an attempt comes to: the whole delay, or the context ending after a part of it, cancelled or
      at its deadline. */
  datatype Wait = Slept | Interrupted(elapsed: nat, cancelled: bool)

  /** Attempts are numbered from 1; a body is known by the number of its attempt. */
  datatype Outcome =
    | Response(attempt: nat, status: int)
    | BadPath
    | BadRequest
    | CallError(cancelled: bool)
    | ContextEnded(cancelled: bool)
    | Exhausted

  /** A retry policy that passed validation (internal/config/config.go:639). */
  datatype Retry = Retry(maxAttempts: int, initial: int, max: int) {
    ghost predicate Validated() {
      1 <= maxAttempts <= 5 && initial > 0 && max >= initial
    }
  }

  datatype Request = Request(method_: string, hasKey: bool, relative: bool, builds: bool)

  /** What the network and the clock will do. */
  datatype World = World(attempt: nat -> Attempt, wait: nat -> Wait)

  predicate RetryableMethod(method_: string, hasKey: bool) {
    method_ == "GET" || method_ == "HEAD" || method_ == "OPTIONS" || method_ == "PUT" || method_ == "DELETE" || hasKey
  }

  predicate RetryableStatus(status: int) {
    status == 429 || status == 502 || status == 503 || status == 504
  }

  function Pow2(n: nat): nat {
    if n == 0 then 1 else 2 * Pow2(n - 1)
  }

  /** min(initial * 2^(attempt - 1), max) */
  function Backoff(retry: Retry, attempt: nat): int
    requires attempt >= 1
  {
    var delay := retry.initial * Pow2(attempt - 1);
    if delay > retry.max then retry.max else delay
  }

  /** The most the waits of the first n attempts can take. */
  function TotalBackoff(retry: Retry, n: nat): int {
    if n == 0 then 0 else TotalBackoff(retry, n - 1) + Backoff(retry, n)
  }

  // ---------------------------------------------------------------- what a call should come to

  /** How often a call may be sent: more than once if its method can be repeated or it carries an idempotency key. */
  function MaxAttempts(q: Request, retry: Retry): int {
    if q.hasKey || q.method_ in {"GET", "HEAD", "OPTIONS", "PUT", "DELETE"} then retry.maxAttempts else 1
  }

  /** The attempt settles the call: a response that is not worth a retry. */
  predicate Settles(a: Attempt) {
    a.Answered? && a.status !in {429, 502, 503, 504}
  }

  /** An attempt that leads to the next one: an error or one of the four statuses, and then the whole wait is slept. */
  predicate GoesOn(w: World, k: nat) {
    !Settles(w.attempt(k)) && w.wait(k).Slept?
  }

  ghost predicate AllGoOn(w: World, n: nat) {
    forall k :: 1 <= k < n ==> GoesOn(w, k)
  }

  /** The call ends with attempt n: it is the first that settles it, whose wait is interrupted, or the last allowed. */
  ghost predicate EndsAt(w: World, max: int, n: nat) {
    1 <= n <= max && AllGoOn(w, n) && (n == max || Settles(w.attempt(n)) || w.wait(n).Interrupted?)
  }

  lemma LastReached(w: World, max: int, n: nat)
    requires EndsAt(w, max, n)
    ensures n == max <==> AllGoOn(w, max)
  {
    assert n < max && AllGoOn(w, max) ==> GoesOn(w, n);
  }

  /** And its outcome then. */
  function OutcomeAt(w: World, max: int, n: nat): Outcome {
    match w.attempt(n)
    case Answered(status) => if Settles(w.attempt(n)) || n == max then Response(n, status) else Interruption(w.wait(n))
    case Failed(_, cancelled) => if n == max then CallError(cancelled) else Interruption(w.wait(n))
  }

  /** What the caller gets: the response of the last attempt, if it settles the call or no more are allowed; the error of
      the last one allowed; or else the end of the context, with its own reason. */
  predicate Gets(w: World, max: int, n: nat, r: Outcome) {
    match r
    case Response(k, status) => k == n && w.attempt(n) == Answered(status) && (status !in {429, 502, 503, 504} || n == max)
    case CallError(cancelled) => n == max && w.attempt(n).Failed? && w.attempt(n).cancelled == cancelled
    case ContextEnded(cancelled) =>
      && n < max && !Settles(w.attempt(n)) && w.wait(n).Interrupted? && w.wait(n).cancelled == cancelled
    case _ => false
  }

  lemma OutcomeIs(w: World, max: int, n: nat)
    requires EndsAt(w, max, n)
    ensures Gets(w, max, n, OutcomeAt(w, max, n))
  {
  }

  function Interruption(wait: Wait): Outcome {
    ContextEnded(wait.Interrupted? && wait.cancelled)
  }

  /** The attempts among the first n that brought a body, in order. */
  ghost function Bodies(w: World, n: nat): (bs: seq<nat>)
    ensures forall k :: k in bs <==> 1 <= k <= n && w.attempt(k).Answered?
    ensures forall i :: 0 <= i < |bs| ==> 1 <= bs[i] <= n
    ensures forall i, j :: 0 <= i < j < |bs| ==> bs[i] < bs[j]
  {
    if n == 0 then [] else if w.attempt(n).Answered? then Bodies(w, n - 1) + [n] else Bodies(w, n - 1)
  }

  // ---------------------------------------------------------------- the loop

  class Client {
    const retry: Retry
    const world: World
    /** Attempts made, response bodies obtained and bodies closed by the client, in order, and time spent waiting. */
    var calls: nat
    var obtained: seq<nat>
    var closed: seq<nat>
    var waited: int

    constructor (retry: Retry, world: World)
      ensures this.retry == retry && this.world == world && calls == 0 && obtained == [] && closed == [] && waited == 0
    {
      this.retry, this.world := retry, world;
      calls, obtained, closed, waited := 0, [], [], 0;
    }

    method Send(attempt: nat) returns (a: Attempt)
      modifies this`calls, this`obtained
      ensures a == world.attempt(attempt) && calls == old(calls) + 1
      ensures obtained == if a.Answered? then old(obtained) + [attempt] else old(obtained)
    {
      a := world.attempt(attempt);
      calls := calls + 1;
      if a.Answered? {
        obtained := obtained + [attempt];
      }
    }

    method WaitBackoff(attempt: nat) returns (ok: bool)
      requires attempt >= 1 && retry.Validated()
      modifies this`waited
      ensures ok <==> world.wait(attempt).Slept?
      ensures old(waited) <= waited <= old(waited) + Backoff(retry, attempt)
      ensures ok ==> waited == old(waited) + Backoff(retry, attempt)
    {
      var delay := Backoff(retry, attempt);
      BackoffBounds(retry, attempt);
      match world.wait(attempt) {
        case Slept =>
          waited := waited + delay;
          ok := true;
        case Interrupted(elapsed, _) =>
          waited := waited + (if elapsed < delay then elapsed else delay);
          ok := false;
      }
    }

    /** One round of the loop: None to go on with the next attempt. */
    method Try(attempt: nat, maxAttempts: int) returns (ended: Option<Outcome>)
      requires 1 <= attempt <= maxAttempts && retry.Validated()
      modifies this
      ensures calls == old(calls) + 1
      ensures match ended
              case Some(r) => (attempt == maxAttempts || Settles(world.attempt(attempt)) || world.wait(attempt).Interrupted?)
                              && r == OutcomeAt(world, maxAttempts, attempt)
              case None => attempt < maxAttempts && GoesOn(world, attempt)
      ensures obtained == if world.attempt(attempt).Answered? then old(obtained) + [attempt] else old(obtained)
      ensures closed == if world.attempt(attempt).Answered? && !(ended.Some? && ended.value.Response?) then old(closed) + [attempt] else old(closed)
      ensures old(waited) <= waited && (ended.None? ==> waited == old(waited) + Backoff(retry, attempt))
      ensures waited <= if attempt < maxAttempts then old(waited) + Backoff(retry, attempt) else old(waited)
    {
      BackoffBounds(retry, attempt);
      var a := Send(attempt);
      if a.Answered? && (!RetryableStatus(a.status) || attempt == maxAttempts) {
        return Some(Response(attempt, a.status));
      }
      if a.Failed? && attempt == maxAttempts {
        return Some(CallError(a.cancelled));
      }
      if a.Answered? {
        closed := closed + [attempt];
      }
      if attempt < maxAttempts {
        var slept := WaitBackoff(attempt);
        if !slept {
          return Some(Interruption(world.wait(attempt)));
        }
      }
      ended := None;
    }

    /** A round after `attempt - 1` that went on, with what all of them come to. */
    method Round(attempt: nat, maxAttempts: int) returns (ended: Option<Outcome>)
      requires 1 <= attempt <= maxAttempts && retry.Validated() && AllGoOn(world, attempt)
      requires calls == attempt - 1 && obtained == closed == Bodies(world, attempt - 1) && waited == TotalBackoff(retry, attempt - 1)
      modifies this
      ensures calls == attempt && obtained == Bodies(world, attempt)
      ensures match ended
              case Some(r) =>
                && EndsAt(world, maxAttempts, attempt) && r == OutcomeAt(world, maxAttempts, attempt)
                && obtained == (if r.Response? then closed + [r.attempt] else closed) && waited <= TotalBackoff(retry, maxAttempts - 1)
              case None =>
                attempt < maxAttempts && AllGoOn(world, attempt + 1) && obtained == closed && waited == TotalBackoff(retry, attempt)
    {
      ended := Try(attempt, maxAttempts);
      WaitsFit(retry, attempt, maxAttempts, waited);
    }

    /** The loop over the attempts. */
    method Attempts(maxAttempts: int, builds: bool) returns (r: Outcome)
      requires retry.Validated() && 1 <= maxAttempts <= retry.maxAttempts && calls == 0 && obtained == [] && closed == [] && waited == 0
      modifies this
      ensures !r.Exhausted? && !r.BadPath? && (r.BadRequest? <==> !builds)
      ensures if builds then EndsAt(world, maxAttempts, calls) && r == OutcomeAt(world, maxAttempts, calls) else calls == 0
      ensures obtained == Bodies(world, calls) == if r.Response? then closed + [r.attempt] else closed
      ensures waited <= TotalBackoff(retry, maxAttempts - 1)
    {
      var attempt := 1;
      while attempt <= maxAttempts
        invariant 1 <= attempt <= maxAttempts
        invariant calls == attempt - 1 && (attempt > 1 ==> builds)
        invariant AllGoOn(world, attempt)
        invariant obtained == closed == Bodies(world, attempt - 1)
        invariant waited == TotalBackoff(retry, attempt - 1)
        decreases maxAttempts - attempt
      {
        if !builds {
          BackoffsGrow(retry, 0, maxAttempts - 1);
          return BadRequest;
        }
        var ended := Round(attempt, maxAttempts);
        if ended.Some? {
          return ended.value;
        }
        attempt := attempt + 1;
      }
      r := Exhausted;
    }

    /** On a new client: between 1 and MaxAttempts calls once the path is accepted and the request built, exactly 1
        if the method is not retryable; the first attempt that ends the call decides it, and the attempts are never
        "exhausted". Every body obtained is closed once, except the one handed to the caller. */
    method DoWithRetry(q: Request) returns (r: Outcome)
      requires retry.Validated() && calls == 0 && obtained == [] && closed == [] && waited == 0
      modifies this
      ensures !r.Exhausted?
      ensures r.BadPath? <==> !q.relative
      ensures r.BadRequest? <==> q.relative && !q.builds
      ensures if q.relative && q.builds
              then EndsAt(world, MaxAttempts(q, retry), calls) && r == OutcomeAt(world, MaxAttempts(q, retry), calls)
              else calls == 0
      ensures q.relative && q.builds ==> Gets(world, MaxAttempts(q, retry), calls, r)
      ensures obtained == Bodies(world, calls) == if r.Response? then closed + [r.attempt] else closed
      ensures waited <= TotalBackoff(retry, MaxAttempts(q, retry) - 1)
      ensures !q.hasKey && q.method_ !in {"GET", "HEAD", "OPTIONS", "PUT", "DELETE"} ==> calls <= 1
      ensures q.relative && q.builds && (q.hasKey || q.method_ in {"GET", "HEAD", "OPTIONS", "PUT", "DELETE"}) ==>
                (calls == retry.maxAttempts <==> AllGoOn(world, retry.maxAttempts))
    {
      if !q.relative {
        BackoffsGrow(retry, 0, MaxAttempts(q, retry) - 1);
        return BadPath;
      }
      var maxAttempts := 1;
      if RetryableMethod(q.method_, q.hasKey) {
        maxAttempts := retry.maxAttempts;
      }
      r := Attempts(maxAttempts, q.builds);
      if q.builds {
        OutcomeIs(world, maxAttempts, calls);
        LastReached(world, maxAttempts, calls);
      }
    }

    /** With a breaker: one that is open turns the call away before anything is sent. One that admits it counts a
        response worth a retry as a failure, and still the caller gets that response, open, as without a breaker. */
    method Execute(q: Request, breaker: Option<Breaker>) returns (r: Option<Outcome>)
      requires retry.Validated() && calls == 0 && obtained == [] && closed == [] && waited == 0
      modifies this, if breaker.Some? then {breaker.value} else {}
      ensures r.None? <==> breaker.Some? && !old(breaker.value.admits)
      ensures r.None? ==> calls == 0 && breaker.value.verdicts == old(breaker.value.verdicts)
      ensures r.Some? && q.relative && q.builds ==>
                EndsAt(world, MaxAttempts(q, retry), calls) && r.value == OutcomeAt(world, MaxAttempts(q, retry), calls)
      ensures r.Some? ==> obtained == Bodies(world, calls) == if r.value.Response? then closed + [r.value.attempt] else closed
      ensures r.Some? && breaker.Some? ==> breaker.value.verdicts == old(breaker.value.verdicts) + [VerdictOn(r.value)]
    {
      if breaker.None? {
        var plain := DoWithRetry(q);
        return Some(plain);
      }
      if !breaker.value.admits {
        return None;
      }
      var outcome := DoWithRetry(q);
      breaker.value.verdicts := breaker.value.verdicts + [VerdictOn(outcome)];
      r := Some(outcome);
    }
  }

  /** What the breaker makes of a call: one that was cancelled does not count either way. */
  datatype Verdict = Success | Failure | Excluded

  function VerdictOn(outcome: Outcome): (v: Verdict)
    ensures v == Success <==> outcome.Response? && outcome.status !in {429, 502, 503, 504}
    ensures v == Excluded <==> (outcome.CallError? || outcome.ContextEnded?) && outcome.cancelled
  {
    match outcome
    case Response(_, status) => if RetryableStatus(status) then Failure else Success
    case CallError(cancelled) => if cancelled then Excluded else Failure
    case ContextEnded(cancelled) => if cancelled then Excluded else Failure
    case _ => Failure
  }

  /** gobreaker, seen from outside: whether it admits a call now, and the verdicts it was given. */
  class Breaker {
    var admits: bool
    var verdicts: seq<Verdict>

    constructor ()
      ensures admits && verdicts == []
    {
      admits, verdicts := true, [];
    }
  }

  lemma {:induction false} PowIsPositive(n: nat)
    ensures Pow2(n) >= 1
  {
    if n > 0 { PowIsPositive(n - 1); }
  }

  lemma BackoffBounds(retry: Retry, attempt: nat)
    requires retry.Validated() && attempt >= 1
    ensures 0 < Backoff(retry, attempt) <= retry.max
  {
    PowIsPositive(attempt - 1);
  }

  /** The first delay is the initial one, each further one twice the one before, none above the maximum. */
  lemma BackoffIs(retry: Retry, attempt: nat)
    requires retry.Validated() && attempt >= 1
    ensures Backoff(retry, 1) == retry.initial
    ensures Backoff(retry, attempt + 1) == if 2 * Backoff(retry, attempt) > retry.max then retry.max else 2 * Backoff(retry, attempt)
  {
    PowIsPositive(attempt - 1);
    assert retry.initial * Pow2(attempt) == 2 * (retry.initial * Pow2(attempt - 1));
  }

  lemma {:induction false} BackoffsGrow(retry: Retry, n: nat, m: nat)
    requires retry.Validated() && n <= m
    ensures 0 <= TotalBackoff(retry, n) <= TotalBackoff(retry, m)
    decreases m
  {
    if n < m {
      BackoffsGrow(retry, n, m - 1);
      BackoffBounds(retry, m);
    } else if n > 0 {
      BackoffsGrow(retry, n - 1, n - 1);
      BackoffBounds(retry, n);
    }
  }

  /** The waits up to an attempt, that of the attempt included unless it is the last, fit in the bound. */
  lemma WaitsFit(retry: Retry, attempt: nat, maxAttempts: int, waited: int)
    requires retry.Validated() && 1 <= attempt <= maxAttempts
    requires waited <= if attempt < maxAttempts then TotalBackoff(retry, attempt - 1) + Backoff(retry, attempt) else TotalBackoff(retry, attempt - 1)
    ensures waited <= TotalBackoff(retry, maxAttempts - 1)
  {
    if attempt < maxAttempts { BackoffsGrow(retry, attempt, maxAttempts - 1); }
  }
}
