/** The lazily started agent pool: wake, retry with capped exponential backoff, hand over. */
module PoolLifecycle {
  import opened Options

  const INITIAL_RETRY_DELAY: nat := 5
  const MAX_RETRY_DELAY: nat := 300
  const U32_MAX: nat := 0xffff_ffff
  const U64_MAX: nat := 0xffff_ffff_ffff_ffff

  type Attempt = a: nat | a <= U32_MAX

  datatype State<P> =
    | Listening
    | Waking(attempt: Attempt)
    | Ready(pool: P)
    | Failed(attempt: Attempt, retryAt: nat, error: string)

  datatype Result<P> = Success(pool: P) | Failure(error: string)

  // -------------------------------------------------------------------- Backoff

  function Pow2(n: nat): (p: nat)
    ensures p > 0
  {
    if n == 0 then 1 else 2 * Pow2(n - 1)
  }

  /** The delay as computed with saturating 64-bit arithmetic. */
  function RetryDelay(attempt: Attempt): nat {
    var exponent := var e := if attempt == 0 then 0 else attempt - 1; if e < 63 then e else 63;
    DelayOf(if exponent < 64 then Pow2(exponent) % (U64_MAX + 1) else U64_MAX)
  }

  /** The saturating product with the initial delay, at most the longest one. */
  function DelayOf(multiplier: nat): nat {
    var product := if 5 * multiplier > U64_MAX then U64_MAX else 5 * multiplier;
    if product < MAX_RETRY_DELAY then product else MAX_RETRY_DELAY
  }

  /** The delay as designed: five seconds, doubling, at most five minutes. */
  function Backoff(attempt: nat): nat
    requires attempt > 0
  {
    var delay := INITIAL_RETRY_DELAY * Pow2(attempt - 1);
    if delay < MAX_RETRY_DELAY then delay else MAX_RETRY_DELAY
  }

  lemma {:induction false} Pow2Grows(m: nat, n: nat)
    requires m <= n
    ensures Pow2(m) <= Pow2(n)
    decreases n - m
  {
    if m < n {
      Pow2Grows(m, n - 1);
    }
  }

  /** No attempt number makes the saturating arithmetic depart from the design. */
  lemma RetryDelayIsBackoff(attempt: Attempt)
    requires attempt > 0
    ensures RetryDelay(attempt) == Backoff(attempt)
  {
    var e := attempt - 1;
    var exponent := if e < 63 then e else 63;
    Pow2Of63();
    Pow2Grows(exponent, 63);
    if e >= 63 {
      assert Pow2(6) == 64;
      Pow2Grows(6, 63);
      Pow2Grows(6, e);
    }
    DelayAgrees(Pow2(exponent), Pow2(e));
  }

  /** Neither the shift limit nor saturation shows behind the longest delay. */
  lemma DelayAgrees(multiplier: nat, power: nat)
    requires multiplier <= 0x8000_0000_0000_0000 && (multiplier == power || (multiplier >= 64 && power >= 64))
    ensures DelayOf(multiplier % (U64_MAX + 1)) ==
              if INITIAL_RETRY_DELAY * power < MAX_RETRY_DELAY then INITIAL_RETRY_DELAY * power else MAX_RETRY_DELAY
  {
  }

  lemma Pow2Of63()
    ensures Pow2(63) == 0x8000_0000_0000_0000
  {
    Pow2Product(8, 8, 0x100, 0x100);
    Pow2Product(16, 16, 0x1_0000, 0x1_0000);
    Pow2Product(8, 7, 0x100, 0x80);
    Pow2Product(16, 15, 0x1_0000, 0x8000);
    Pow2Product(32, 31, 0x1_0000_0000, 0x8000_0000);
  }

  lemma Pow2Product(m: nat, n: nat, a: nat, b: nat)
    requires Pow2(m) == a && Pow2(n) == b
    ensures Pow2(m + n) == a * b
  {
    Pow2Adds(m, n);
  }

  lemma {:induction false} Pow2Adds(m: nat, n: nat)
    ensures Pow2(m + n) == Pow2(m) * Pow2(n)
    decreases n
  {
    if n > 0 {
      Pow2Adds(m, n - 1);
      assert Pow2(m + n) == 2 * Pow2(m + (n - 1));
    }
  }

  // ---------------------------------------------------------------- Transitions

  function SaturatingNext(attempt: Attempt): Attempt {
    if attempt == U32_MAX then U32_MAX else attempt + 1
  }

  function StartWake<P>(s: State<P>, pending: bool, now: nat): (State<P>, Option<Attempt>) {
    if !pending then (s, None)
    else match s
      case Listening => (Waking(1), Some(1))
      case Failed(attempt, retryAt, _) =>
        if now >= retryAt then (Waking(SaturatingNext(attempt)), Some(SaturatingNext(attempt))) else (s, None)
      case Waking(_) => (s, None)
      case Ready(_) => (s, None)
  }

  /** The second component says whether the result was accepted. */
  function CompleteWake<P>(s: State<P>, attempt: Attempt, result: Result<P>, now: nat): (State<P>, bool) {
    if s.Waking? && s.attempt == attempt then
      match result
      case Success(pool) => (Ready(pool), true)
      case Failure(error) => (Failed(attempt, now + RetryDelay(attempt), error), true)
    else (s, false)
  }

  function TakeReady<P>(s: State<P>): (State<P>, Option<P>) {
    if s.Ready? then (Listening, Some(s.pool)) else (s, None)
  }

  /** A wake starts exactly when work is pending and the pool is listening or its retry is
      due, and then with the next number. */
  lemma StartsIff<P>(s: State<P>, pending: bool, now: nat)
    ensures var (s', attempt) := StartWake(s, pending, now);
      && (attempt.Some? <==> pending && (s.Listening? || (s.Failed? && s.retryAt <= now)))
      && s' == (if attempt.Some? then Waking(attempt.value) else s)
      && (attempt.Some? && s.Listening? ==> attempt.value == 1)
      && (attempt.Some? && s.Failed? ==>
            attempt.value == (if s.attempt < 0xffff_ffff then s.attempt + 1 else 0xffff_ffff))
  {
  }

  /** A result is accepted exactly under the number of the wake in progress; a failure is due
      again after its backoff. */
  lemma CompletesIff<P>(s: State<P>, attempt: Attempt, result: Result<P>, now: nat)
    ensures var (s', accepted) := CompleteWake(s, attempt, result, now);
      && (accepted <==> s == Waking(attempt))
      && (!accepted ==> s' == s)
      && (accepted && result.Success? ==> s' == Ready(result.pool))
      && (accepted && result.Failure? && attempt > 0 ==>
            s' == Failed(attempt, now + Backoff(attempt), result.error))
  {
    if attempt > 0 {
      RetryDelayIsBackoff(attempt);
    }
  }

  /** A pool is handed over exactly when one is ready, and the lifecycle listens again. */
  lemma TakesIff<P>(s: State<P>)
    ensures var (s', pool) := TakeReady(s);
      && (pool.Some? <==> s.Ready?)
      && (if s.Ready? then s == Ready(pool.value) && s' == Listening else s' == s)
  {
  }

  class Lifecycle<P> {
    var state: State<P>

    constructor ()
      ensures state == Listening
    {
      state := Listening;
    }

    method StartWakeIfDue(pending: bool, now: nat) returns (attempt: Option<Attempt>)
      modifies this
      ensures (state, attempt) == StartWake(old(state), pending, now)
    {
      attempt := None;
      if !pending {
        return;
      }
      match state {
        case Listening => attempt := Some(1);
        case Failed(failed, retryAt, _) =>
          if now >= retryAt {
            attempt := Some(SaturatingNext(failed));
          }
        case Waking(_) =>
        case Ready(_) =>
      }
      if attempt.Some? {
        state := Waking(attempt.value);
      }
    }

    method Complete(attempt: Attempt, result: Result<P>, now: nat) returns (accepted: bool)
      modifies this
      ensures (state, accepted) == CompleteWake(old(state), attempt, result, now)
    {
      if !state.Waking? || state.attempt != attempt {
        return false;
      }
      match result {
        case Success(pool) => state := Ready(pool);
        case Failure(error) => state := Failed(attempt, now + RetryDelay(attempt), error);
      }
      accepted := true;
    }

    method Cancel(attempt: Attempt, error: string, now: nat) returns (cancelled: bool)
      modifies this
      ensures (state, cancelled) == CompleteWake(old(state), attempt, Failure(error), now)
    {
      cancelled := Complete(attempt, Failure(error), now);
    }

    method Take() returns (pool: Option<P>)
      modifies this
      ensures (state, pool) == TakeReady(old(state))
    {
      if state.Ready? {
        pool := Some(state.pool);
        state := Listening;
      } else {
        pool := None;
      }
    }
  }

  // ---------------------------------------------------------------- Whole runs

  datatype Op<P> =
    | Start(pending: bool, now: nat)
    | Complete(attempt: Attempt, result: Result<P>, now: nat)
    | Take

  /** The lifecycle with its history: starts and accepted completions in order, the start
      times since the last success, the time of the latest operation, and how many wakes
      succeeded and pools were taken. */
  datatype Trace<P> = Trace(state: State<P>, marks: seq<Mark>, starts: seq<nat>, clock: nat, succeeded: nat, taken: nat)
  datatype Mark = Started(token: Attempt) | Completed(token: Attempt)

  function Begin<P>(): Trace<P> {
    Trace(Listening, [], [], 0, 0, 0)
  }

  function Perform<P>(t: Trace<P>, op: Op<P>): Trace<P> {
    match op
    case Start(pending, now) =>
      var (state, attempt) := StartWake(t.state, pending, now);
      if attempt.None? then t.(clock := now)
      else t.(state := state, marks := t.marks + [Started(attempt.value)], starts := t.starts + [now], clock := now)
    case Complete(attempt, result, now) =>
      var (state, accepted) := CompleteWake(t.state, attempt, result, now);
      if !accepted then t.(clock := now)
      else
        var t := t.(state := state, marks := t.marks + [Completed(attempt)], clock := now);
        if result.Success? then t.(starts := [], succeeded := t.succeeded + 1) else t
    case Take =>
      var (state, pool) := TakeReady(t.state);
      if pool.None? then t else t.(state := state, taken := t.taken + 1)
  }

  function Run<P>(t: Trace<P>, ops: seq<Op<P>>): Trace<P>
    decreases |ops|
  {
    if ops == [] then t else Run(Perform(t, ops[0]), ops[1..])
  }

  /** The operations carry readings of a clock that never goes back. */
  predicate Ticking<P>(clock: nat, ops: seq<Op<P>>)
    decreases |ops|
  {
    ops == [] ||
    (if ops[0].Take? then Ticking(clock, ops[1..])
     else clock <= ops[0].now && Ticking(ops[0].now, ops[1..]))
  }

  /** Starts and completions alternate, beginning with a start, each completion carrying
      the token of the start before it. */
  ghost predicate Alternating(marks: seq<Mark>) {
    && (forall i :: 0 <= i < |marks| ==> (marks[i].Started? <==> i % 2 == 0))
    && (forall i :: 1 <= i < |marks| && marks[i].Completed? ==> marks[i].token == marks[i - 1].token)
  }

  /** The delays that `k` failures in a row add up to. */
  function TotalBackoff(k: nat): nat {
    if k == 0 then 0 else TotalBackoff(k - 1) + Backoff(k)
  }

  /** The attempt number is the number of starts since the last success, capped. */
  function Capped(n: nat): Attempt {
    if n > U32_MAX then U32_MAX else n
  }

  ghost predicate TraceOk<P>(t: Trace<P>) {
    && Alternating(t.marks)
    && (t.state.Waking? <==> |t.marks| % 2 == 1)
    && (t.state.Waking? ==> t.marks[|t.marks| - 1] == Started(t.state.attempt))
    && t.succeeded == t.taken + (if t.state.Ready? then 1 else 0)
    && (forall i, j :: 0 <= i < j < |t.starts| ==> t.starts[i] <= t.starts[j])
    && (forall k :: 0 <= k < |t.starts| ==> t.starts[k] >= t.starts[0] + TotalBackoff(k) && t.starts[k] <= t.clock)
    && match t.state
       case Listening => t.starts == []
       case Ready(_) => t.starts == []
       case Waking(attempt) => t.starts != [] && attempt == Capped(|t.starts|)
       case Failed(attempt, retryAt, _) =>
         t.starts != [] && attempt == Capped(|t.starts|) && retryAt >= t.starts[0] + TotalBackoff(|t.starts|)
  }

  lemma CappedBackoff(n: nat)
    requires n > 0
    ensures RetryDelay(Capped(n)) == Backoff(n)
  {
    RetryDelayIsBackoff(Capped(n));
    if n > U32_MAX {
      assert Pow2(6) == 64;
      Pow2Grows(6, U32_MAX - 1);
      Pow2Grows(6, n - 1);
    }
  }

  lemma StartOk<P>(t: Trace<P>, pending: bool, now: nat)
    requires TraceOk(t) && t.clock <= now
    ensures TraceOk(Perform(t, Start(pending, now)))
  {
    var (state, attempt) := StartWake(t.state, pending, now);
    if attempt.Some? {
      StartAlternates(t.marks, attempt.value);
    }
  }

  lemma StartAlternates(marks: seq<Mark>, token: Attempt)
    requires Alternating(marks) && |marks| % 2 == 0
    ensures Alternating(marks + [Started(token)])
  {
  }

  lemma CompleteOk<P>(t: Trace<P>, attempt: Attempt, result: Result<P>, now: nat)
    requires TraceOk(t) && t.clock <= now
    ensures TraceOk(Perform(t, Complete(attempt, result, now)))
  {
    if t.state.Waking? && t.state.attempt == attempt {
      CompletionAlternates(t.marks, attempt);
      match result
      case Success(_) =>
      case Failure(_) => FailureDue(t, now);
    }
  }

  lemma CompletionAlternates(marks: seq<Mark>, token: Attempt)
    requires Alternating(marks) && |marks| % 2 == 1 && marks[|marks| - 1] == Started(token)
    ensures Alternating(marks + [Completed(token)])
  {
  }

  /** The delay after one more failure adds to those before. */
  lemma FailureDue<P>(t: Trace<P>, now: nat)
    requires TraceOk(t) && t.clock <= now && t.state.Waking?
    ensures now + RetryDelay(Capped(|t.starts|)) >= t.starts[0] + TotalBackoff(|t.starts|)
  {
    var last := |t.starts| - 1;
    CappedBackoff(|t.starts|);
    assert t.starts[last] >= t.starts[0] + TotalBackoff(last) && t.starts[last] <= t.clock;
    assert TotalBackoff(|t.starts|) == TotalBackoff(last) + Backoff(|t.starts|);
  }

  lemma PerformOk<P>(t: Trace<P>, op: Op<P>)
    requires TraceOk(t) && (!op.Take? ==> t.clock <= op.now)
    ensures TraceOk(Perform(t, op))
  {
    match op
    case Start(pending, now) => StartOk(t, pending, now);
    case Complete(attempt, result, now) => CompleteOk(t, attempt, result, now);
    case Take =>
  }

  /** Every run keeps it: wakes never overlap, each retry waits out its backoff, and every
      pool that came up is taken once or still waiting to be taken. */
  lemma {:induction false} RunOk<P>(t: Trace<P>, ops: seq<Op<P>>)
    requires TraceOk(t) && Ticking(t.clock, ops)
    ensures TraceOk(Run(t, ops))
    decreases |ops|
  {
    if ops != [] {
      PerformOk(t, ops[0]);
      RunOk(Perform(t, ops[0]), ops[1..]);
    }
  }

  /** So does every run of a pool that starts out listening. */
  lemma EveryRun<P>(ops: seq<Op<P>>)
    requires Ticking(0, ops)
    ensures TraceOk(Run(Begin<P>(), ops))
  {
    RunOk(Begin<P>(), ops);
  }
}
