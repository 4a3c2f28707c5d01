/** Capped exponential backoff, over real numbers. */
module Backoff {
  import opened Common
  import Breaker

  datatype Policy = Policy(initial: real, maximum: real) {
    /** What the validators demand. */
    predicate Valid() { initial > 0.0 && maximum > 0.0 }
  }

  /** `initial * 2 ** n` of a positive `initial`. */
  function Doubled(initial: real, n: nat): (doubled: real)
    ensures initial > 0.0 ==> doubled >= initial
  {
    if n == 0 then initial else 2.0 * Doubled(initial, n - 1)
  }

  function Min(a: real, b: real): real { if a <= b then a else b }

  const LAST_EXPONENT: nat := 64

  /** `duration` without jitter, before the given retry. */
  function Duration(policy: Policy, retry: nat): real
    requires retry > 0
  {
    Min(policy.maximum, Doubled(policy.initial, Exponent(retry)))
  }

  function Exponent(retry: nat): nat
    requires retry > 0
  {
    if retry - 1 <= LAST_EXPONENT then retry - 1 else LAST_EXPONENT
  }

  /** `duration` with jitter, where `draw` is what the random generator draws. */
  function Jittered(policy: Policy, retry: nat, draw: real): (duration: real)
    requires retry > 0 && 0.0 <= draw <= Duration(policy, retry) / 2.0
    ensures duration <= policy.maximum && Duration(policy, retry) / 2.0 <= duration <= Duration(policy, retry)
  {
    Duration(policy, retry) / 2.0 + draw
  }

  /** Jitter is half the duration and the draw: two draws differ as their durations do. */
  lemma JitterIsDrawn(policy: Policy, retry: nat, some: real, other: real)
    requires policy.Valid() && retry > 0
    requires 0.0 <= some <= Duration(policy, retry) / 2.0 && 0.0 <= other <= Duration(policy, retry) / 2.0
    ensures Jittered(policy, retry, other) - Jittered(policy, retry, some) == other - some
    ensures Jittered(policy, retry, 0.0) == Duration(policy, retry) / 2.0
  {
    DurationsGrow(policy, retry, retry);
  }

  /** The duration as documented, which doubles without end below the maximum. */
  function Unclamped(policy: Policy, retry: nat): real
    requires retry > 0
  {
    Min(policy.maximum, Doubled(policy.initial, retry - 1))
  }

  lemma {:induction false} DoublingGrows(initial: real, m: nat, n: nat)
    requires initial > 0.0 && m <= n
    ensures Doubled(initial, m) <= Doubled(initial, n)
  {
    if m < n {
      DoublingGrows(initial, m, n - 1);
    }
  }

  /** Durations never shrink, and none is above the maximum. */
  lemma DurationsGrow(policy: Policy, m: nat, n: nat)
    requires policy.Valid() && 0 < m <= n
    ensures 0.0 < Duration(policy, m) <= Duration(policy, n) <= policy.maximum
  {
    hide Doubled;
    DoublingGrows(policy.initial, Exponent(m), Exponent(n));
  }

  /** What the first sleeps take together. */
  function Total(policy: Policy, sleeps: nat): real {
    if sleeps == 0 then 0.0 else Total(policy, sleeps - 1) + Duration(policy, sleeps)
  }

  /** All sleeps together take at most `initial * (2 ** sleeps - 1)`. */
  lemma {:induction false} TotalIsBounded(policy: Policy, sleeps: nat)
    requires policy.Valid()
    ensures Total(policy, sleeps) <= Doubled(policy.initial, sleeps) - policy.initial
  {
    if sleeps > 0 {
      TotalIsBounded(policy, sleeps - 1);
      DoublingGrows(policy.initial, Exponent(sleeps), sleeps - 1);
      assert Duration(policy, sleeps) <= Doubled(policy.initial, sleeps - 1) by {
        hide Doubled;
      }
    }
  }

  /** The clamp of the exponent cannot be noticed exactly if the maximum is reached by then. */
  lemma ClampIsUnnoticed(policy: Policy)
    requires policy.Valid()
    ensures (forall retry: nat | retry > 0 :: Duration(policy, retry) == Unclamped(policy, retry))
            <==> policy.maximum <= Doubled(policy.initial, LAST_EXPONENT)
  {
    hide Doubled;
    if policy.maximum <= Doubled(policy.initial, LAST_EXPONENT) {
      forall retry: nat | retry > 0 ensures Duration(policy, retry) == Unclamped(policy, retry) {
        DoublingGrows(policy.initial, Exponent(retry), retry - 1);
      }
    } else {
      DoubledOnce(policy.initial, LAST_EXPONENT);
      assert Duration(policy, LAST_EXPONENT + 2) != Unclamped(policy, LAST_EXPONENT + 2);
    }
  }

  /** With an initial second and a maximum above 2 ** 64 seconds, the 66th retry comes too early. */
  lemma ClampIsNoticed()
    ensures var policy := Policy(1.0, 40000000000000000000.0);
            && policy.Valid()
            && Duration(policy, 66) == 18446744073709551616.0
            && Unclamped(policy, 66) == 36893488147419103232.0
  {
    hide Doubled;
    assert Doubled(1.0, 0) == 1.0 by { DoubledNever(1.0); }
    Doubled16(1.0, 0);
    Doubled16(1.0, 16);
    Doubled16(1.0, 32);
    Doubled16(1.0, 48);
    DoubledOnce(1.0, 64);
  }

  lemma DoubledNever(initial: real)
    ensures Doubled(initial, 0) == initial
  {
  }

  lemma Doubled16(initial: real, n: nat)
    ensures Doubled(initial, n + 16) == 65536.0 * Doubled(initial, n)
  {
    hide Doubled;
    Doubled4(initial, n);
    Doubled4(initial, n + 4);
    Doubled4(initial, n + 8);
    Doubled4(initial, n + 12);
  }

  lemma Doubled4(initial: real, n: nat)
    ensures Doubled(initial, n + 4) == 16.0 * Doubled(initial, n)
  {
    hide Doubled;
    DoubledOnce(initial, n);
    DoubledOnce(initial, n + 1);
    DoubledOnce(initial, n + 2);
    DoubledOnce(initial, n + 3);
  }

  lemma DoubledOnce(initial: real, n: nat)
    ensures Doubled(initial, n + 1) == 2.0 * Doubled(initial, n)
  {
  }

  // ------------------------------------------------------------------- attempts

  function FirstNumbers(n: nat): (numbers: seq<nat>)
    ensures |numbers| == n && forall i | 0 <= i < n :: numbers[i] == i + 1
  {
    seq(n, i => i + 1)
  }

  /** How many attempts a consumer that asks `demand` times gets. */
  function Granted(demand: nat, maxRetries: Option<nat>): nat {
    if maxRetries.Some? && maxRetries.value + 1 < demand then maxRetries.value + 1 else demand
  }

  /** `attempts`: what it yields, and before which retries it sleeps. */
  method Attempts(demand: nat, maxRetries: Option<nat>) returns (yielded: seq<nat>, slept: seq<nat>)
    ensures |yielded| == if maxRetries.Some? && maxRetries.value + 1 < demand then maxRetries.value + 1 else demand
    ensures forall i | 0 <= i < |yielded| :: yielded[i] == i + 1
    ensures slept == FirstNumbers(if yielded == [] then 0 else |yielded| - 1)
  {
    var attempt: nat := 0;
    yielded, slept := [], [];
    while attempt < demand && !Breaker.IsExhausted(attempt, maxRetries)
      invariant attempt <= Granted(demand, maxRetries)
      invariant yielded == FirstNumbers(attempt)
      invariant slept == FirstNumbers(if attempt == 0 then 0 else attempt - 1)
    {
      if attempt > 0 {
        slept := slept + [attempt];
      }
      attempt := attempt + 1;
      yielded := yielded + [attempt];
    }
  }
}
