/** Retrying with capped exponential backoff, over exact real durations. */
module Backoff {

  import opened Prelude

  /** The error classes the retry loop tells apart. `Other` stands for every
      class that is neither retryable nor made by the loop itself. */
  datatype Error =
    | Inference(message: string)
    | Network(message: string)
    | Io(message: string)
    | RetriesExceeded(message: string)
    | Other(text: string)
  {
    predicate IsRetryable() {
      Inference? || Network? || Io?
    }

    function Display(): string {
      match this
      case Inference(m) => "Inference error: " + m
      case Network(m) => "Network error: " + m
      case Io(m) => "IO error: " + m
      case RetriesExceeded(m) => "Retries exceeded: " + m
      case Other(text) => text
    }
  }

  datatype Outcome<T> = Ok(value: T) | Err(error: Error)

  /** Durations in seconds. */
  datatype Config = Config(maxRetries: nat, initial: real, max: real, multiplier: real, maxTime: real)

  /** A negative duration cannot be built; the multiplier is any number. */
  predicate Durations(c: Config) {
    0.0 <= c.initial && 0.0 <= c.max && 0.0 <= c.maxTime
  }

  predicate Valid(c: Config) {
    Durations(c) && 0.0 <= c.multiplier
  }

  predicate Retries<T>(o: Outcome<T>) {
    o.Err? && o.error.IsRetryable()
  }

  /** A failure of inference, of the network or of input and output. */
  predicate Transient<T>(o: Outcome<T>) {
    match o
    case Err(Inference(_)) => true
    case Err(Network(_)) => true
    case Err(Io(_)) => true
    case _ => false
  }

  lemma RetriesTransient<T>(o: Outcome<T>)
    ensures Retries(o) <==> Transient(o)
  {
  }

  /** The error text carried out of the loop when it gives up after `calls` calls. */
  function LastError<T>(f: nat -> Outcome<T>, calls: nat): string {
    if calls == 0 || f(calls - 1).Ok? then "unknown error" else f(calls - 1).error.Display()
  }

  function Min(a: real, b: real): real { if a < b then a else b }

  function Times(x: real, m: real): real { x * m }

  function Next(c: Config, current: real): real { Min(Times(current, c.multiplier), c.max) }

  /** The `k`-th sleep, each computed from the one before. */
  function Sleep(c: Config, k: nat): real {
    if k == 0 then c.initial else Next(c, Sleep(c, k - 1))
  }

  function Sum(xs: seq<real>): real {
    if xs == [] then 0.0 else Sum(xs[..|xs| - 1]) + xs[|xs| - 1]
  }

  /** Every sleep so far followed a retryable failure and had its scheduled length. */
  ghost predicate Slept<T>(c: Config, f: nat -> Outcome<T>, sleeps: seq<real>) {
    forall k {:trigger SleptAt(c, f, sleeps, k)} :: 0 <= k < |sleeps| ==> SleptAt(c, f, sleeps, k)
  }

  ghost predicate SleptAt<T>(c: Config, f: nat -> Outcome<T>, sleeps: seq<real>, k: nat)
    requires k < |sleeps|
  {
    Retries(f(k)) && sleeps[k] == Sleep(c, k)
  }

  lemma SleptMore<T>(c: Config, f: nat -> Outcome<T>, sleeps: seq<real>, x: real)
    requires Slept(c, f, sleeps) && Retries(f(|sleeps|)) && x == Sleep(c, |sleeps|)
    ensures Slept(c, f, sleeps + [x])
  {
    var more := sleeps + [x];
    forall k | 0 <= k < |more| ensures SleptAt(c, f, more, k) {
      if k < |sleeps| { assert SleptAt(c, f, sleeps, k); }
    }
  }

  /** Only a first sleep that is not zero can be scaled below zero. */
  lemma NextSign(c: Config, k: nat)
    requires Durations(c) && Sleep(c, k) >= 0.0 && (k > 0 ==> Times(c.initial, c.multiplier) >= 0.0)
    ensures Next(c, Sleep(c, k)) < 0.0 <==> k == 0 && Times(c.initial, c.multiplier) < 0.0
  {
    if k > 0 && c.initial == 0.0 { ZeroStays(c, k); }
    SignOfProduct(c.initial, c.multiplier);
    SignOfProduct(Sleep(c, k), c.multiplier);
  }

  lemma SignOfProduct(x: real, m: real)
    requires x >= 0.0
    ensures Times(x, m) < 0.0 <==> x > 0.0 && m < 0.0
  {
  }

  lemma {:induction false} ZeroStays(c: Config, k: nat)
    requires Durations(c) && c.initial == 0.0
    ensures Sleep(c, k) == 0.0
  {
    if k > 0 { ZeroStays(c, k - 1); }
  }

  /** The next backoff, before it is made a duration. */
  method ScaleBackoff(c: Config, current: real, ghost k: nat, ghost negative: bool) returns (next: real)
    requires Durations(c) && current == Sleep(c, k) >= 0.0
    requires negative == (Times(c.initial, c.multiplier) < 0.0) && (k > 0 ==> !negative)
    ensures next == Sleep(c, k + 1) && (next < 0.0 <==> k == 0 && negative)
  {
    next := Next(c, current);
    NextSign(c, k);
  }

  /** `f(k)` is what the `k`-th call of the operation yields and `elapsed(k)` the
      time passed when the loop is about to make it. */
  method RetryWithBackoff<T>(c: Config, f: nat -> Outcome<T>, elapsed: nat -> real)
      returns (result: Option<Outcome<T>>, sleeps: seq<real>, calls: nat)
    requires Durations(c)
    // building a negative duration panics, after the first sleep
    ensures result.None? <==> sleeps != [] && Times(c.initial, c.multiplier) < 0.0
    ensures result.None? ==> |sleeps| == calls == 1
    // one sleep between two calls, none after the last
    ensures Slept(c, f, sleeps) && |sleeps| <= c.maxRetries
    ensures |sleeps| <= calls <= |sleeps| + 1
    // no call is made past the time limit
    ensures forall k :: 0 <= k < calls ==> elapsed(k) <= c.maxTime
    // a value or a final error is passed on as it came
    ensures calls == |sleeps| + 1 && !Retries(f(calls - 1)) ==> result == Some(f(calls - 1))
    // otherwise the retries, or the time, ran out
    ensures calls == |sleeps| + 1 && Retries(f(calls - 1)) ==> calls == c.maxRetries + 1
    ensures calls == |sleeps| && result.Some? ==> elapsed(calls) > c.maxTime
    // after a transient failure with retries and time left a further call is made, after
    // anything else none
    ensures forall k :: 0 <= k < calls - 1 ==> Transient(f(k))
    ensures calls > 0 && Transient(f(calls - 1)) && calls <= c.maxRetries && elapsed(calls) <= c.maxTime
            ==> result.None?
    ensures result.Some? && (calls == |sleeps| || Retries(f(calls - 1))) ==>
      result == Some(Err(RetriesExceeded(LastError(f, calls))))
  {
    var attempt, currentBackoff, lastError := 0, c.initial, "unknown error";
    sleeps, calls := [], 0;
    ghost var negative := Times(c.initial, c.multiplier) < 0.0;
    while true
      invariant attempt == calls == |sleeps| <= c.maxRetries
      invariant currentBackoff == Sleep(c, attempt) >= 0.0
      invariant sleeps != [] ==> !negative
      invariant Slept(c, f, sleeps)
      invariant lastError == LastError(f, calls)
      invariant forall k :: 0 <= k < calls ==> Transient(f(k))
      invariant forall k :: 0 <= k < calls ==> elapsed(k) <= c.maxTime
      decreases c.maxRetries - attempt
    {
      if elapsed(calls) > c.maxTime {
        return Some(Err(RetriesExceeded(lastError))), sleeps, calls;
      }
      var o := f(calls);
      RetriesTransient(o);
      calls := calls + 1;
      if o.Ok? || !o.error.IsRetryable() {
        return Some(o), sleeps, calls;
      }
      lastError := o.error.Display();
      attempt := attempt + 1;
      if attempt > c.maxRetries {
        return Some(Err(RetriesExceeded(lastError))), sleeps, calls;
      }
      SleptMore(c, f, sleeps, currentBackoff);
      sleeps := sleeps + [currentBackoff];
      var next := ScaleBackoff(c, currentBackoff, attempt - 1, negative);
      if next < 0.0 {
        return None, sleeps, calls;
      }
      currentBackoff := next;
    }
  }

  // ---- closed forms --------------------------------------------------------

  /** `a` multiplied `k` times by `m`. */
  function Scaled(a: real, m: real, k: nat): real {
    if k == 0 then a else Times(Scaled(a, m, k - 1), m)
  }

  function Pow(m: real, k: nat): real { Scaled(1.0, m, k) }

  lemma {:induction false} ScaledIsPower(a: real, m: real, k: nat)
    ensures Scaled(a, m, k) == Times(a, Pow(m, k))
  {
    if k > 0 {
      ScaledIsPower(a, m, k - 1);
      Regroup(a, Pow(m, k - 1), m);
    }
  }

  lemma Regroup(a: real, p: real, m: real)
    ensures Times(Times(a, p), m) == Times(a, Times(p, m))
  {
  }

  lemma Scale(a: real, b: real, m: real)
    requires a <= b && 0.0 <= m
    ensures Times(a, m) <= Times(b, m)
  {
  }

  /** What the recurrence is meant to compute: the exponential, capped. */
  function Capped(c: Config, k: nat): real {
    Min(Scaled(c.initial, c.multiplier, k), c.max)
  }

  lemma GrowingStep(a: real, b: real, m: real, s: real)
    requires 0.0 <= b && m >= 1.0 && s == Min(a, b)
    ensures Min(Times(s, m), b) == Min(Times(a, m), b)
  {
    Scale(1.0, m, b);
    if a >= b { Scale(b, a, m); }
  }

  /** With a multiplier of at least one, every sleep after the first is the
      exponential, capped. */
  lemma {:induction false} GrowingClosedForm(c: Config, k: nat)
    requires Valid(c) && c.multiplier >= 1.0 && k >= 1
    ensures Sleep(c, k) == Capped(c, k)
  {
    if k == 1 {
      assert Sleep(c, 0) == Scaled(c.initial, c.multiplier, 0);
    } else {
      GrowingClosedForm(c, k - 1);
      GrowingStep(Scaled(c.initial, c.multiplier, k - 1), c.max, c.multiplier, Sleep(c, k - 1));
    }
  }

  lemma {:induction false} SleepBounds(c: Config, k: nat)
    requires Valid(c)
    ensures 0.0 <= Sleep(c, k)
    ensures k >= 1 ==> Sleep(c, k) <= c.max
  {
    if k >= 1 {
      SleepBounds(c, k - 1);
      Scale(0.0, Sleep(c, k - 1), c.multiplier);
    }
  }

  /** With a shrinking multiplier the cap binds at most once, on the second sleep,
      and the rest decay from there. */
  lemma {:induction false} ShrinkingClosedForm(c: Config, k: nat)
    requires Valid(c) && c.multiplier <= 1.0 && k >= 1
    ensures Sleep(c, k) == Scaled(Next(c, c.initial), c.multiplier, k - 1)
  {
    if k == 1 {
      assert Sleep(c, 0) == c.initial;
    } else {
      ShrinkingClosedForm(c, k - 1);
      SleepBounds(c, k - 1);
      Scale(c.multiplier, 1.0, Sleep(c, k - 1));
    }
  }

  /** A caller can tell from the configuration whether the schedule is the capped
      exponential: the multiplier does not shrink, or the cap cuts nothing. */
  predicate CapHarmless(c: Config) {
    c.multiplier >= 1.0 || Times(c.initial, c.multiplier) <= c.max || c.max == 0.0
  }

  lemma {:induction false} ScaledNonNegative(a: real, m: real, k: nat)
    requires 0.0 <= a && 0.0 <= m
    ensures 0.0 <= Scaled(a, m, k)
  {
    if k > 0 {
      ScaledNonNegative(a, m, k - 1);
      Scale(0.0, Scaled(a, m, k - 1), m);
    }
  }

  lemma {:induction false} ScaledOnce(a: real, m: real, k: nat)
    requires k >= 1
    ensures Scaled(a, m, k) == Scaled(Times(a, m), m, k - 1)
  {
    if k == 1 {
      assert Scaled(a, m, 0) == a;
    } else {
      ScaledOnce(a, m, k - 1);
    }
  }

  lemma HarmlessCap(c: Config, k: nat)
    requires Valid(c) && CapHarmless(c) && k >= 1
    ensures Sleep(c, k) == Capped(c, k)
  {
    if c.multiplier >= 1.0 {
      GrowingClosedForm(c, k);
    } else {
      SleepBounds(c, k);
      ScaledNonNegative(c.initial, c.multiplier, k);
      if Times(c.initial, c.multiplier) <= c.max {
        ShrinkingClosedForm(c, k);
        ScaledOnce(c.initial, c.multiplier, k);
      }
    }
  }

  lemma CutStep(a: real, max: real, m: real)
    requires 0.0 < m < 1.0 && a > max > 0.0
    ensures Times(max, m) < max && Times(max, m) < Times(a, m)
  {
  }

  /** Where the cap does cut a shrinking schedule, the third sleep already falls
      short of the capped exponential. */
  lemma HarmfulCap(c: Config)
    requires Valid(c) && !CapHarmless(c)
    ensures Sleep(c, 2) < Capped(c, 2)
  {
    var i, m := c.initial, c.multiplier;
    assert Sleep(c, 0) == Scaled(i, m, 0) == i;
    assert Sleep(c, 1) == c.max && Scaled(i, m, 1) > c.max;
    CutStep(Scaled(i, m, 1), c.max, m);
  }

  /** The capped exponential is met by every sleep after the first exactly when
      the cap is harmless. */
  lemma ClosedFormIffCapHarmless(c: Config)
    requires Valid(c)
    ensures (forall k: nat :: k >= 1 ==> Sleep(c, k) == Capped(c, k)) <==> CapHarmless(c)
  {
    if CapHarmless(c) {
      forall k: nat | k >= 1 ensures Sleep(c, k) == Capped(c, k) { HarmlessCap(c, k); }
    } else {
      HarmfulCap(c);
    }
  }

  // ---- total waiting -------------------------------------------------------

  lemma Distribute(n: int, x: real)
    ensures Times((n - 1) as real, x) + x == Times(n as real, x)
  {
  }

  /** All the sleeps of a run together: the first, and at most the cap for each
      of the others. */
  lemma {:induction false} TotalSleep(c: Config, sleeps: seq<real>)
    requires Valid(c) && forall k :: 0 <= k < |sleeps| ==> sleeps[k] == Sleep(c, k)
    ensures 0.0 <= Sum(sleeps)
    ensures |sleeps| >= 1 ==> Sum(sleeps) <= c.initial + Times((|sleeps| - 1) as real, c.max)
  {
    if |sleeps| > 0 {
      var n := |sleeps| - 1;
      TotalSleep(c, sleeps[..n]);
      SleepBounds(c, n);
      Distribute(n, c.max);
    }
  }

  lemma TotalSleepBounded<T>(c: Config, f: nat -> Outcome<T>, sleeps: seq<real>)
    requires Valid(c) && 1 <= c.maxRetries && |sleeps| <= c.maxRetries && Slept(c, f, sleeps)
    ensures Sum(sleeps) <= c.initial + Times((c.maxRetries - 1) as real, c.max)
  {
    forall k | 0 <= k < |sleeps| ensures sleeps[k] == Sleep(c, k) { assert SleptAt(c, f, sleeps, k); }
    TotalSleep(c, sleeps);
    Scale(0.0, (c.maxRetries - 1) as real, c.max);
    if |sleeps| > 0 { Scale((|sleeps| - 1) as real, (c.maxRetries - 1) as real, c.max); }
  }
}
