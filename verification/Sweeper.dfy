/** The queue sweeper: when a letter is due, what one sweep does to the whole store, and what
    successive sweeps do to a letter that keeps failing. */
module Sweeper {
  import opened Basics
  import opened Lifecycle

  // ---------- the retry window ----------

  const U64: nat := 0x1_0000_0000_0000_0000

  function Pow2(k: nat): (p: nat)
    ensures 0 < p
  {
    if k == 0 then 1 else 2 * Pow2(k - 1)
  }

  /** The position of the highest bit. */
  function Ilog2(n: nat): nat
    requires 0 < n
  {
    if n == 1 then 0 else 1 + Ilog2(n / 2)
  }

  /** A 64-bit shift drops what does not fit. */
  function Shl64(n: nat, k: nat): nat { n * Pow2(k) % U64 }

  function Step(minBackoff: nat): (s: nat)
    ensures 0 < s
  {
    var secs := minBackoff / NANOS_PER_SEC;
    if secs < 1 then 1 else secs
  }

  /** The backoff exponent that a letter of that age has reached. */
  function Doublings(age: nat, step: nat): (k: nat)
    requires 0 < step
    ensures k <= 5
  {
    var q := age / NANOS_PER_SEC / step;
    if q == 0 then 0 else Min(Ilog2(q), 5)
  }

  function RetryWindow(age: nat, minBackoff: nat): nat {
    var step := Step(minBackoff);
    Shl64(step, Doublings(age, step)) * NANOS_PER_SEC
  }

  lemma {:induction false} Ilog2Is(n: nat)
    requires 0 < n
    ensures Pow2(Ilog2(n)) <= n < Pow2(Ilog2(n) + 1)
  {
    if n > 1 {
      Ilog2Is(n / 2);
    }
  }

  lemma {:induction false} Ilog2Monotone(m: nat, n: nat)
    requires 0 < m <= n
    ensures Ilog2(m) <= Ilog2(n)
  {
    if m > 1 {
      Ilog2Monotone(m / 2, n / 2);
    }
  }

  lemma {:induction false} Pow2Monotone(j: nat, k: nat)
    requires j <= k
    ensures Pow2(j) <= Pow2(k)
  {
    if j < k {
      Pow2Monotone(j, k - 1);
    }
  }

  lemma {:induction false} DoublingsAre(age: nat, step: nat)
    requires 0 < step
    ensures var q, k := age / NANOS_PER_SEC / step, Doublings(age, step);
            && (q == 0 ==> k == 0)
            && (0 < q ==> Pow2(k) <= q)
            && (k < 5 ==> q < Pow2(k + 1))
  {
    var q, k := age / NANOS_PER_SEC / step, Doublings(age, step);
    if 0 < q {
      Ilog2Is(q);
      Pow2Monotone(k, Ilog2(q));
    }
  }

  lemma {:induction false} Product(step: nat, q: nat, secs: nat, p: nat)
    requires 0 < step && q == secs / step && p <= q
    ensures step * p <= secs
  {
    assert step * q <= secs;
    assert step * p <= step * q;
  }

  lemma {:induction false} NoQuotient(secs: nat, step: nat)
    requires 0 < step
    ensures secs / step == 0 <==> secs < step
  {}

  /** The shifted step fits both the age, once that has reached one step, and 64 bits. */
  lemma {:induction false} ShiftFits(age: nat, step: nat)
    requires 0 < step < U64 && age / NANOS_PER_SEC < U64
    ensures var k, secs := Doublings(age, step), age / NANOS_PER_SEC;
            && Shl64(step, k) == step * Pow2(k)
            && (step <= secs ==> step * Pow2(k) <= secs)
            && (secs < step ==> k == 0 && step * Pow2(k) == step)
  {
    var k, secs := Doublings(age, step), age / NANOS_PER_SEC;
    DoublingsAre(age, step);
    NoQuotient(secs, step);
    if step <= secs {
      Product(step, secs / step, secs, Pow2(k));
    }
  }

  /** For all durations that fit 64-bit seconds, the window is the step - the minimum backoff in
      whole seconds, or one second if that is none - doubled floor(log2(age / step)) times, at
      most five, and the shift loses no bits. */
  lemma {:induction false} WindowIs(age: nat, minBackoff: nat)
    requires age / NANOS_PER_SEC < U64 && minBackoff / NANOS_PER_SEC < U64
    ensures var step := Max(1, minBackoff / NANOS_PER_SEC);
            var q := age / NANOS_PER_SEC / step;
            exists k: nat ::
              && RetryWindow(age, minBackoff) == step * Pow2(k) * NANOS_PER_SEC
              && k <= 5 && (q == 0 ==> k == 0) && (0 < q ==> Pow2(k) <= q) && (k < 5 ==> q < Pow2(k + 1))
  {
    var step := Max(1, minBackoff / NANOS_PER_SEC);
    assert Step(minBackoff) == step;
    ShiftFits(age, step);
    DoublingsAre(age, step);
    var k := Doublings(age, step);
    assert RetryWindow(age, minBackoff) == step * Pow2(k) * NANOS_PER_SEC;
  }

  lemma {:induction false} ScaleMonotone(a: nat, b: nat, c: nat)
    requires a <= b
    ensures a * c <= b * c
  {}

  lemma {:induction false} DoublingsMonotone(age: nat, later: nat, step: nat)
    requires 0 < step && age <= later
    ensures Doublings(age, step) <= Doublings(later, step)
  {
    var p, q := age / NANOS_PER_SEC / step, later / NANOS_PER_SEC / step;
    QuotientMonotone(age / NANOS_PER_SEC, later / NANOS_PER_SEC, step);
    if 0 < p {
      Ilog2Monotone(p, q);
    }
  }

  lemma {:induction false} QuotientMonotone(a: nat, b: nat, step: nat)
    requires 0 < step && a <= b
    ensures a / step <= b / step
  {
    var p, q := a / step, b / step;
    assert p * step <= a && b < (q + 1) * step;
    Cancel(p, q + 1, step);
  }

  lemma {:induction false} Cancel(p: nat, q: nat, step: nat)
    ensures p * step < q * step ==> p < q
  {
    if q <= p {
      ScaleMonotone(q, p, step);
    }
  }

  /** The window lies between one step and 32 of them and never shrinks as a letter ages. */
  lemma {:induction false} WindowGrows(age: nat, later: nat, minBackoff: nat)
    requires age <= later && later / NANOS_PER_SEC < U64 && minBackoff / NANOS_PER_SEC < U64
    ensures var step := Max(1, minBackoff / NANOS_PER_SEC);
            step * NANOS_PER_SEC <= RetryWindow(age, minBackoff) <= RetryWindow(later, minBackoff) <= 32 * step * NANOS_PER_SEC
  {
    var step := Step(minBackoff);
    var j, k := Doublings(age, step), Doublings(later, step);
    ShiftFits(age, step);
    ShiftFits(later, step);
    DoublingsMonotone(age, later, step);
    Pow2Monotone(j, k);
    Pow2Monotone(k, 5);
    assert Pow2(5) == 32;
    ScaleMonotone(1, Pow2(j), step);
    ScaleMonotone(Pow2(j), Pow2(k), step);
    ScaleMonotone(Pow2(k), 32, step);
  }

  /** The sweep passes over a letter that is younger than its window; without a minimum
      backoff it passes over none. */
  predicate Gated(age: nat, minBackoff: nat) {
    0 < minBackoff && age < RetryWindow(age, minBackoff)
  }

  /** The gate comes to this: only the first step counts. From then on the age has always
      outgrown the window that is computed from it, so no letter ever waits a second time. */
  lemma {:induction false} GateIsOneStep(age: nat, minBackoff: nat)
    requires age / NANOS_PER_SEC < U64 && minBackoff / NANOS_PER_SEC < U64
    ensures Gated(age, minBackoff) <==> 0 < minBackoff && age / NANOS_PER_SEC < Max(1, minBackoff / NANOS_PER_SEC)
  {
    var step := Step(minBackoff);
    ShiftFits(age, step);
  }

  /** The powers of two that occur. */
  lemma {:induction false} SmallPowers()
    ensures Pow2(0) == 1 && Pow2(1) == 2 && Pow2(2) == 4 && Pow2(3) == 8 && Pow2(4) == 16 && Pow2(5) == 32
  {
    assert Pow2(2) == 2 * Pow2(1) && Pow2(4) == 2 * Pow2(3) && Pow2(5) == 2 * Pow2(4) && Pow2(3) == 2 * Pow2(2);
  }
}
