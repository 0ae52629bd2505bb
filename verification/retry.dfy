/** Retry policies: which attempts are made, how long the pauses are, and what a key changes. */
module Retry {
  import opened Text
  import opened Idempotency
  import opened IdempotencyProtocol
  import opened IdempotencyHistory

  datatype EffectClass = Pure | Idempotent | Keyed | Unsafe

  predicate PermitsRetry(e: EffectClass, hasKey: bool) {
    match e
    case Pure => true
    case Idempotent => true
    case Keyed => hasKey
    case Unsafe => false
  }

  datatype Jitter = NoJitter | Full

  datatype Policy = Policy(
    enabled: bool,
    maxAttempts: nat,
    baseDelayMs: nat,
    maxDelayMs: nat,
    multiplier: real,
    jitter: Jitter,
    statuses: set<int>,
    retryOnNetworkError: bool,
    respectRetryAfter: bool)

  /** What an attempt produces: a response, or a transport-level error. */
  datatype Attempt = Response(response: StoredResponse, retryAfter: Option<nat>) | Error(retryable: bool)

  // ---- the pause before the next attempt -------------------------------------

  function PowReal(m: real, k: nat): (r: real)
  {
    if k == 0 then 1.0 else m * PowReal(m, k - 1)
  }

  const U64_MAX: nat := 0xFFFF_FFFF_FFFF_FFFF

  /** `raw as u64`: truncation that saturates at both ends. */
  function Saturate(raw: real): (n: nat)
    ensures n <= U64_MAX
  {
    if raw < 0.0 then 0 else if raw.Floor > U64_MAX then U64_MAX else raw.Floor
  }

  function Min(a: nat, b: nat): (m: nat)
  {
    if a < b then a else b
  }

  /** The backoff, in whole milliseconds and cut at the cap. */
  function Capped(p: Policy, failed: nat): (ms: nat)
    requires failed >= 1
    ensures ms <= p.maxDelayMs
  {
    Min(Saturate(Raw(p.baseDelayMs, p.multiplier, failed)), p.maxDelayMs)
  }

  function Raw(base: nat, multiplier: real, failed: nat): (ms: real)
    requires failed >= 1
  {
    base as real * PowReal(multiplier, failed - 1)
  }

  /** `random` stands for the generator; it is used only under full jitter. */
  function Delay(p: Policy, failed: nat, retryAfter: Option<nat>, random: nat): (ms: nat)
    requires failed >= 1
    ensures ms <= p.maxDelayMs
  {
    if p.respectRetryAfter && retryAfter.Some? then Min(retryAfter.value, p.maxDelayMs)
    else if p.jitter.NoJitter? then Capped(p, failed)
    else random % (Capped(p, failed) + 1)
  }

  /** A Retry-After from the server is honoured, up to the cap. */
  lemma RetryAfterWins(p: Policy, failed: nat, seconds: nat, random: nat)
    requires failed >= 1 && p.respectRetryAfter
    ensures Delay(p, failed, Some(seconds), random) == if seconds <= p.maxDelayMs then seconds else p.maxDelayMs
  {
  }

  /** The backoff of the failed attempt, as a real number of milliseconds: the base, times the multiplier for each earlier failure. */
  function Backoff(p: Policy, failed: nat): (r: real)
    requires failed >= 1
  {
    if failed == 1 then p.baseDelayMs as real else p.multiplier * Backoff(p, failed - 1)
  }

  lemma {:induction false} BackoffIs(p: Policy, failed: nat)
    requires failed >= 1
    ensures Raw(p.baseDelayMs, p.multiplier, failed) == Backoff(p, failed)
  {
    if failed > 1 {
      BackoffIs(p, failed - 1);
      Regroup(p.baseDelayMs as real, p.multiplier, PowReal(p.multiplier, failed - 2));
    }
  }

  lemma Regroup(a: real, b: real, c: real)
    ensures a * (b * c) == b * (a * c)
  {
  }

  /** No Retry-After to honour. */
  predicate Unguided(p: Policy, retryAfter: Option<nat>) { !p.respectRetryAfter || retryAfter.None? }

  lemma CappedIs(raw: real, most: nat)
    requires most <= U64_MAX
    ensures var ms := Min(Saturate(raw), most);
      && (raw < 0.0 ==> ms == 0)
      && (0.0 <= raw < most as real ==> ms as real <= raw < ms as real + 1.0)
      && (raw >= most as real ==> ms == most)
  {
    var f := raw.Floor;
    assert f as real <= raw < f as real + 1.0;
  }

  /**
    Without a Retry-After and without jitter the pause is the backoff in whole
    milliseconds, cut at the cap; the first is the base itself.
   */
  lemma PlainPause(p: Policy, failed: nat, retryAfter: Option<nat>, random: nat)
    requires failed >= 1 && Unguided(p, retryAfter) && p.jitter == NoJitter && p.maxDelayMs <= U64_MAX
    ensures var ms, raw := Delay(p, failed, retryAfter, random), Backoff(p, failed);
      && (raw < 0.0 ==> ms == 0)
      && (0.0 <= raw < p.maxDelayMs as real ==> ms as real <= raw < ms as real + 1.0)
      && (raw >= p.maxDelayMs as real ==> ms == p.maxDelayMs)
    ensures Delay(p, 1, retryAfter, random) == if p.baseDelayMs < p.maxDelayMs then p.baseDelayMs else p.maxDelayMs
  {
    assert failed >= 1 && p.maxDelayMs <= U64_MAX;
    DelayIs(p, failed, retryAfter, random);
    DelayIs(p, 1, retryAfter, random);
    hide *;
    CappedBackoff(p, failed);
    CappedBackoff(p, 1);
    CappedIs(Backoff(p, failed), p.maxDelayMs);
    CappedIs(p.baseDelayMs as real, p.maxDelayMs);
  }

  lemma CappedBackoff(p: Policy, failed: nat)
    requires failed >= 1
    ensures Capped(p, failed) == Min(Saturate(Backoff(p, failed)), p.maxDelayMs)
    ensures Backoff(p, 1) == p.baseDelayMs as real
  {
    hide Saturate, Raw, Min;
    BackoffIs(p, failed);
  }

  lemma DelayIs(p: Policy, failed: nat, retryAfter: Option<nat>, random: nat)
    requires failed >= 1 && Unguided(p, retryAfter)
    ensures Delay(p, failed, retryAfter, random) ==
      if p.jitter.NoJitter? then Capped(p, failed) else random % (Capped(p, failed) + 1)
  {
    hide Capped;
  }

  lemma DrawIs(random: nat, most: nat)
    ensures random % (most + 1) <= most && (random <= most ==> random % (most + 1) == random)
  {
  }

  lemma SameCap(p: Policy, failed: nat)
    requires failed >= 1
    ensures Capped(p.(jitter := NoJitter), failed) == Capped(p, failed)
  {
    hide Min, Saturate, Raw;
  }

  /** Full jitter draws from zero up to that pause, and can draw any of it. */
  lemma JitteredPause(p: Policy, failed: nat, retryAfter: Option<nat>, random: nat)
    requires failed >= 1 && Unguided(p, retryAfter) && p.jitter == Full
    ensures var most := Delay(p.(jitter := NoJitter), failed, retryAfter, random);
      && Delay(p, failed, retryAfter, random) <= most
      && (random <= most ==> Delay(p, failed, retryAfter, random) == random)
  {
    DelayIs(p, failed, retryAfter, random);
    DelayIs(p.(jitter := NoJitter), failed, retryAfter, random);
    hide *;
    SameCap(p, failed);
    DrawIs(random, Capped(p, failed));
  }

  // ---- the loop --------------------------------------------------------------

  function Allowed(p: Policy, effect: EffectClass, hasKey: bool): (n: nat)
  {
    if p.enabled && PermitsRetry(effect, hasKey) && p.maxAttempts > 1 then p.maxAttempts else 1
  }

  predicate Retryable(p: Policy, a: Attempt) {
    match a
    case Response(r, _) => p.enabled && r.status in p.statuses
    case Error(retryable) => p.enabled && p.retryOnNetworkError && retryable
  }

  /** The policy lists the status, or retries on network errors and the error is one that may pass. */
  predicate Transient(p: Policy, a: Attempt) {
    || (a.Response? && a.response.status in p.statuses)
    || (a == Error(true) && p.retryOnNetworkError)
  }

  lemma RetryableIs(p: Policy, a: Attempt)
    ensures Retryable(p, a) <==> p.enabled && Transient(p, a)
  {
  }

  function PauseAfter(p: Policy, k: nat, a: Attempt, random: nat): (ms: nat)
    requires k >= 1
    ensures ms <= p.maxDelayMs
  {
    Delay(p, k, if a.Response? then a.retryAfter else None, random)
  }

  /** Attempt `n` is the one whose result is returned: all before it were retried, it is not. */
  predicate LastAttempt(p: Policy, effect: EffectClass, hasKey: bool, attempt: nat -> Attempt, n: nat) {
    && 1 <= n <= Allowed(p, effect, hasKey)
    && (forall k :: 1 <= k < n ==> Retryable(p, attempt(k)))
    && (n == Allowed(p, effect, hasKey) || !Retryable(p, attempt(n)))
  }

  lemma LastAttemptIsUnique(p: Policy, effect: EffectClass, hasKey: bool, attempt: nat -> Attempt, m: nat, n: nat)
    requires LastAttempt(p, effect, hasKey, attempt, m) && LastAttempt(p, effect, hasKey, attempt, n)
    ensures m == n
  {
    assert m < n ==> Retryable(p, attempt(m));
    assert n < m ==> Retryable(p, attempt(n));
  }

  /** `retry_request`, with the attempts and the random samples given by the environment. */
  method RetryRequest(p: Policy, effect: EffectClass, hasKey: bool, attempt: nat -> Attempt, random: nat -> nat)
    returns (result: Attempt, attempts: nat, sleeps: seq<nat>)
    ensures LastAttempt(p, effect, hasKey, attempt, attempts) && result == attempt(attempts)
    ensures effect == Unsafe || (effect == Keyed && !hasKey) || !p.enabled ==> attempts == 1
    ensures 1 <= attempts && (attempts > 1 ==> attempts <= p.maxAttempts)
    ensures forall k :: 1 <= k < attempts ==> Transient(p, attempt(k))
    ensures p.enabled && (effect == Pure || effect == Idempotent || (effect == Keyed && hasKey)) ==>
              !Transient(p, result) || attempts == (if p.maxAttempts > 1 then p.maxAttempts else 1)
    ensures |sleeps| == attempts - 1
    ensures forall k :: 0 <= k < |sleeps| ==>
              sleeps[k] == PauseAfter(p, k + 1, attempt(k + 1), random(k + 1)) && sleeps[k] <= p.maxDelayMs
  {
    var maxAttempts :=
      if p.enabled && PermitsRetry(effect, hasKey) then (if p.maxAttempts > 1 then p.maxAttempts else 1) else 1;
    assert maxAttempts == Allowed(p, effect, hasKey);
    forall k ensures Retryable(p, attempt(k)) <==> p.enabled && Transient(p, attempt(k)) {
      RetryableIs(p, attempt(k));
    }
    ghost var permits := PermitsRetry(effect, hasKey);
    assert permits <==> effect == Pure || effect == Idempotent || (effect == Keyed && hasKey);
    hide Allowed, Transient, Retryable, PauseAfter, PermitsRetry;
    attempts, sleeps := 1, [];
    while true
      invariant 1 <= attempts <= maxAttempts
      invariant |sleeps| == attempts - 1
      invariant forall k :: 1 <= k < attempts ==> Retryable(p, attempt(k))
      invariant forall k :: 0 <= k < |sleeps| ==> sleeps[k] == PauseAfter(p, k + 1, attempt(k + 1), random(k + 1))
      decreases maxAttempts - attempts
    {
      result := attempt(attempts);
      if attempts >= maxAttempts || !Retryable(p, result) {
        return;
      }
      sleeps := sleeps + [PauseAfter(p, attempts, result, random(attempts))];
      attempts := attempts + 1;
    }
  }

  // ---- retries under an idempotency key --------------------------------------

  /**
    The caller sees the answer of `begin`, when it is not `Fresh`, as this attempt: 409 is
    retryable, 422 is not, and a replay is the stored response, with whatever Retry-After it holds.
   */
  predicate SeenAs(b: Begin, a: Attempt) {
    match b
    case Fresh => true
    case Busy => a == Error(true)
    case PayloadMismatch => a == Error(false)
    case Replay(response) => a.Response? && a.response == response
  }

  predicate SameRequest(d: Event, e: Event) {
    d.Began? && e.Began? && d.slot == e.slot && d.hash == e.hash
  }

  /**
    Attempt k of the caller is event b[k - 1] of the log, all under one key and payload. An attempt
    that was not `Fresh` saw what `begin` answered; one that was ran the service, and may have
    erred and been abandoned.
   */
  predicate KeyedAttempts(log: seq<Event>, b: seq<nat>, attempt: nat -> Attempt) {
    && |b| >= 1 && (forall k, l :: 0 <= k < l < |b| ==> b[k] < b[l])
    && (forall k :: 0 <= k < |b| ==> b[k] < |log| && SameRequest(log[b[0]], log[b[k]]))
    && (forall k :: 0 <= k < |b| ==> SeenAs(log[b[k]].answer, attempt(k + 1)))
  }

  /** The service ran for the request at event f, the caller's own attempt or another, and was captured at event i. */
  predicate CapturedAt(log: seq<Event>, request: Event, f: nat, i: nat) {
    && f < i < |log| && FreshAt(log, f, log[f].slot) && SameRequest(request, log[f])
    && Quiet(log, log[f].slot, f + 1, i) && log[i].Completed? && log[i].slot == log[f].slot
  }

  /** The attempt began after the capture, or is the captured one and its response reached the caller. */
  predicate Knows(b: seq<nat>, f: nat, i: nat, attempt: nat -> Attempt, k: nat)
    requires k < |b|
  {
    b[k] > i || (b[k] == f && attempt(k + 1).Response?)
  }

  /** Of the attempts after the capture none came after the window, and the slot was not evicted. */
  predicate StillStored(c: Config, log: seq<Event>, b: seq<nat>, i: nat)
    requires i < |log| && forall k :: 0 <= k < |b| ==> b[k] < |log|
  {
    && !EvictedWithin(log, log[i].slot, i + 1, |log|)
    && forall k :: 0 <= k < |b| && b[k] > i ==> log[b[k]].at - log[i].at <= c.window
  }

  /**
    Keyed attempts around a capture that is still stored. When the captured one is the caller's own
    and its response was not lost on the way, it is the captured response, and came after the capture.
   */
  predicate Captured(c: Config, log: seq<Event>, b: seq<nat>, f: nat, i: nat, attempt: nat -> Attempt) {
    && KeyedAttempts(log, b, attempt) && CapturedAt(log, log[b[0]], f, i) && StillStored(c, log, b, i)
    && forall k :: 0 <= k < |b| && b[k] == f && attempt(k + 1).Response? ==>
         attempt(k + 1).response == log[i].response && forall l :: k < l < |b| ==> b[l] > i
  }

  /** What an attempt after the capture, or while the captured one runs, is answered. */
  lemma AttemptAnswers(c: Config, log: seq<Event>, b: seq<nat>, f: nat, i: nat, attempt: nat -> Attempt, k: nat)
    requires Lawful(c, log) && Captured(c, log, b, f, i, attempt) && k < |b|
    ensures b[k] > i ==> log[b[k]].answer == Replay(log[i].response)
    ensures f < b[k] < i ==> log[b[k]].answer == Busy
    ensures Knows(b, f, i, attempt, k) ==> attempt(k + 1).Response? && attempt(k + 1).response == log[i].response
  {
    assert SameRequest(log[b[0]], log[b[k]]);
    if b[k] > i {
      NotEvictedBefore(log, log[i].slot, i + 1, b[k] + 1);
      hide Lawful, EvictedWithin, Quiet;
      RetriesReplay(c, log, f, i, b[k]);
      assert SeenAs(log[b[k]].answer, attempt(k + 1));
    } else if f < b[k] < i {
      assert !Touches(log[b[k]], log[f].slot);
      assert Quiet(log, log[f].slot, f + 1, b[k]);
      hide Lawful, EvictedWithin, Quiet;
      InFlightAnswers(c, log, f, b[k]);
    }
  }

  /** From the first attempt that gets the captured response, the policy alone decides how many follow. */
  lemma CallerEnds(c: Config, log: seq<Event>, b: seq<nat>, f: nat, i: nat, attempt: nat -> Attempt,
                   p: Policy, effect: EffectClass, n: nat, k: nat)
    requires Lawful(c, log) && Captured(c, log, b, f, i, attempt) && |b| == n && k < n && Knows(b, f, i, attempt, k)
    requires LastAttempt(p, effect, true, attempt, n)
    ensures attempt(n).Response? && attempt(n).response == log[i].response
    ensures if p.enabled && log[i].response.status in p.statuses then n == Allowed(p, effect, true) else k == n - 1
  {
    hide *;
    KnowsOn(c, log, b, f, i, attempt, k);
    AttemptAnswers(c, log, b, f, i, attempt, k);
    AttemptAnswers(c, log, b, f, i, attempt, n - 1);
    assert n - 1 + 1 == n;
    PolicyEnds(p, effect, attempt, n, k, log[i].response);
  }

  lemma KnowsOn(c: Config, log: seq<Event>, b: seq<nat>, f: nat, i: nat, attempt: nat -> Attempt, k: nat)
    requires Captured(c, log, b, f, i, attempt) && k < |b| && Knows(b, f, i, attempt, k)
    ensures Knows(b, f, i, attempt, |b| - 1) && i < |log| && log[i].Completed?
  {
  }

  lemma PolicyEnds(p: Policy, effect: EffectClass, attempt: nat -> Attempt, n: nat, k: nat, r: StoredResponse)
    requires LastAttempt(p, effect, true, attempt, n) && k < n
    requires attempt(k + 1).Response? && attempt(k + 1).response == r
    requires attempt(n).Response? && attempt(n).response == r
    ensures if p.enabled && r.status in p.statuses then n == Allowed(p, effect, true) else k == n - 1
  {
    hide Allowed;
    assert k < n - 1 ==> Retryable(p, attempt(k + 1));
  }

  /**
    Whichever attempt is captured, and however the earlier ones fared, the service does not run for
    any later one: while it runs they are told to wait, and then they get its response, even a
    retryable one. The caller ends with that response, at once when its status is not retryable.
   */
  lemma CapturedResponseEndsRetries(c: Config, log: seq<Event>, b: seq<nat>, f: nat, i: nat, attempt: nat -> Attempt,
                                    p: Policy, effect: EffectClass, n: nat)
    requires Lawful(c, log) && Captured(c, log, b, f, i, attempt)
    requires LastAttempt(p, effect, true, attempt, n) && |b| == n
    ensures forall k :: 0 <= k < n && b[k] > i ==> log[b[k]].answer == Replay(log[i].response)
    ensures forall k :: 0 <= k < n && f < b[k] < i ==> log[b[k]].answer == Busy
    ensures forall k :: 0 <= k < n && Knows(b, f, i, attempt, k) ==>
              && attempt(n).Response? && attempt(n).response == log[i].response
              && (if p.enabled && log[i].response.status in p.statuses then n == Allowed(p, effect, true) else k == n - 1)
  {
    forall k | 0 <= k < n
      ensures b[k] > i ==> log[b[k]].answer == Replay(log[i].response)
      ensures f < b[k] < i ==> log[b[k]].answer == Busy
    {
      AttemptAnswers(c, log, b, f, i, attempt, k);
    }
    forall k | 0 <= k < n && Knows(b, f, i, attempt, k)
      ensures attempt(n).Response? && attempt(n).response == log[i].response
      ensures if p.enabled && log[i].response.status in p.statuses then n == Allowed(p, effect, true) else k == n - 1
    {
      CallerEnds(c, log, b, f, i, attempt, p, effect, n, k);
    }
  }

  lemma NotEvictedBefore(log: seq<Event>, slot: Slot, from: nat, to: nat)
    requires to <= |log| && !EvictedWithin(log, slot, from, |log|)
    ensures !EvictedWithin(log, slot, from, to)
  {
  }
}
