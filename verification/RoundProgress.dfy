/** How far a round has come and how many ladder rungs that makes due (reward_watch_poller.rs). */
module RoundProgress {
  const L1_BLOCK_SECS := 12

  function Max(a: int, b: int): int {
    if a < b then b else a
  }

  function Clamp(x: real, lo: real, hi: real): real {
    if x < lo then lo else if x > hi then hi else x
  }

  /** The share of the round elapsed at `now`, in percent; timestamps are whole seconds. */
  function ElapsedPct(startedAt: int, now: int, roundLengthBlocks: int): real
    requires roundLengthBlocks >= 1
  {
    var roundSecs := roundLengthBlocks * L1_BLOCK_SECS;
    Clamp(Max(now - startedAt, 0) as real / roundSecs as real, 0.0, 1.0) * 100.0
  }

  /** Truncation toward zero, as a cast to an integer does; only applied to non-negative values. */
  function DueAlerts(elapsedPct: real, firstPct: int, stepPct: int): int
    requires stepPct >= 1
  {
    if elapsedPct < firstPct as real then 0
    else 1 + ((elapsedPct - firstPct as real) / stepPct as real).Floor
  }

  /** The rungs a full round climbs. */
  function MaxRungs(firstPct: int, stepPct: int): int
    requires 1 <= firstPct <= 100 && stepPct >= 1
  {
    1 + (100 - firstPct) / stepPct
  }

  lemma DivideMonotone(a: real, b: real, d: real)
    requires a <= b && d > 0.0
    ensures a / d <= b / d
  {
  }

  lemma ClampedShareMonotone(a: real, b: real, d: real)
    requires 0.0 <= a <= b && d > 0.0
    ensures 0.0 <= Clamp(a / d, 0.0, 1.0) <= Clamp(b / d, 0.0, 1.0) <= 1.0
  {
    DivideMonotone(a, b, d);
    DivideMonotone(0.0, a, d);
  }

  /** Progress never leaves 0 to 100, never falls as the clock advances, and saturates at the round's end. */
  lemma ProgressMonotone(startedAt: int, t: int, u: int, length: int)
    requires length >= 1 && t <= u
    ensures 0.0 <= ElapsedPct(startedAt, t, length) <= ElapsedPct(startedAt, u, length) <= 100.0
    ensures t <= startedAt ==> ElapsedPct(startedAt, t, length) == 0.0
    ensures t - startedAt >= length * L1_BLOCK_SECS ==> ElapsedPct(startedAt, t, length) == 100.0
  {
    var secs := (length * L1_BLOCK_SECS) as real;
    var a, b := Max(t - startedAt, 0) as real, Max(u - startedAt, 0) as real;
    ClampedShareMonotone(a, b, secs);
    if t - startedAt >= length * L1_BLOCK_SECS {
      DivideMonotone(secs, a, secs);
    }
  }

  /** Inside the round, of blocks of twelve seconds, progress is the elapsed share of it in percent. */
  lemma ProgressIsElapsedShare(startedAt: int, now: int, length: int)
    requires length >= 1 && startedAt <= now <= startedAt + 12 * length
    ensures ElapsedPct(startedAt, now, length) * (12 * length) as real == 100.0 * (now - startedAt) as real
  {
    var elapsed, secs := (now - startedAt) as real, (length * L1_BLOCK_SECS) as real;
    var share := elapsed / secs;
    assert share * secs == elapsed;
    DivideMonotone(0.0, elapsed, secs);
    DivideMonotone(elapsed, secs, secs);
    assert ElapsedPct(startedAt, now, length) == share * 100.0;
    assert share * 100.0 * secs == 100.0 * (share * secs);
  }

  lemma ScaleOrder(a: real, b: real, d: real)
    requires d > 0.0
    ensures a <= b <==> a * d <= b * d
  {
    if a <= b {
      assert a * d <= b * d;
    } else {
      assert (a - b) * d > 0.0;
    }
  }

  lemma FloorOfQuotient(x: real, d: real, k: int)
    requires d > 0.0
    ensures k as real * d <= x <==> k <= (x / d).Floor
  {
    var q := x / d;
    assert q * d == x;
    ScaleOrder(k as real, q, d);
  }

  /** Rung `k`, at `firstPct + k * stepPct`, has been reached exactly when more than `k` alerts are due. */
  lemma DueCountsRungs(pct: real, firstPct: int, stepPct: int, k: nat)
    requires stepPct >= 1
    ensures (firstPct + k * stepPct) as real <= pct <==> k < DueAlerts(pct, firstPct, stepPct)
  {
    var first, step := firstPct as real, stepPct as real;
    assert (firstPct + k * stepPct) as real == first + k as real * step;
    FloorOfQuotient(pct - first, step, k);
    ScaleOrder(0.0, k as real, step);
  }

  lemma QuotientBound(k: int, d: int, n: int)
    requires d >= 1 && k * d <= n
    ensures k <= n / d
  {
    var q, e := n / d, k - n / d - 1;
    assert n == q * d + n % d;
    assert k * d == q * d + e * d + d;
    assert e >= 0 ==> e * d >= 0;
  }

  /** No clock makes more rungs due than a full round has. */
  lemma DueIsBounded(pct: real, firstPct: int, stepPct: int)
    requires 0.0 <= pct <= 100.0 && 1 <= firstPct <= 100 && stepPct >= 1
    ensures 0 <= DueAlerts(pct, firstPct, stepPct) <= MaxRungs(firstPct, stepPct)
  {
    if pct >= firstPct as real {
      var k := DueAlerts(pct, firstPct, stepPct) - 1;
      FloorOfQuotient(pct - firstPct as real, stepPct as real, 0);
      FloorOfQuotient(pct - firstPct as real, stepPct as real, k);
      assert k as real * stepPct as real == (k * stepPct) as real;
      QuotientBound(k, stepPct, 100 - firstPct);
    }
  }
}
