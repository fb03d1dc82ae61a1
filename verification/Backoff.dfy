/** The doubling intervals of the daemon, computed in 64-bit signed arithmetic:
    zeroYieldBackoff (state.go), byteBackoffIntervalFor (main.go) and the
    doubling part of earlyGap (plugins/bazel_bases.go). */
module Backoff {
  import opened Common

  const MAX64 := 0x7fff_ffff_ffff_ffff
  const TWO64 := 0x1_0000_0000_0000_0000
  const TWO62 := 0x4000_0000_0000_0000

  predicate Int64(x: int) {
    -MAX64 - 1 <= x <= MAX64
  }

  /** A time.Duration: 64-bit signed nanoseconds. */
  type Duration64 = d: int | Int64(d)

  /** The value a 64-bit signed register holds after computing x. */
  function Wrap(x: int): (r: int)
    ensures Int64(r)
    ensures Int64(x) ==> r == x
  {
    var m := x % TWO64;
    if m > MAX64 then m - TWO64 else m
  }

  function Pow2(k: nat): nat {
    if k == 0 then 1 else 2 * Pow2(k - 1)
  }

  /** base * 2^k over the unbounded integers, see DoubledIsPower. */
  function Doubled(base: int, k: nat): int
    decreases k
  {
    if k == 0 then base else Doubled(2 * base, k - 1)
  }

  lemma {:induction false} DoubledIsPower(base: int, k: nat)
    ensures Doubled(base, k) == base * Pow2(k)
    decreases k
  {
    if k > 0 {
      DoubledIsPower(2 * base, k - 1);
    }
  }

  lemma {:induction false} DoubledLast(base: int, k: nat)
    ensures Doubled(base, k + 1) == 2 * Doubled(base, k)
    decreases k
  {
    if k > 0 {
      DoubledLast(2 * base, k - 1);
    }
  }

  lemma {:induction false} DoubledGrows(base: int, j: nat, k: nat)
    requires 0 < base && j <= k
    ensures Doubled(base, j) <= Doubled(base, k)
    decreases k - j
  {
    if j < k {
      DoubledGrows(base, j + 1, k);
      DoubledLast(base, j);
      DoubledPositive(base, j);
    }
  }

  lemma {:induction false} DoubledPositive(base: int, k: nat)
    requires 0 < base
    ensures base <= Doubled(base, k)
    decreases k
  {
    if k > 0 {
      DoubledPositive(2 * base, k - 1);
    }
  }

  // ---------------------------------------------------------------- zero yield

  datatype ZeroYieldPolicy = ZeroYieldPolicy(limit: int, base: Duration64, max: Duration64, pressureMin: Duration64)

  /** What the documentation of zeroYieldBackoff promises: base at the limit,
      doubling per further run, capped at max. */
  function ZeroYieldInterval(count: int, p: ZeroYieldPolicy): Duration {
    if p.limit <= 0 || count < p.limit || p.base <= 0 then 0
    else if p.max <= 0 then p.base
    else Min(p.max, Doubled(p.base, count - p.limit))
  }

  /** zeroYieldBackoff: for every 64-bit cap the loop computes the promised
      interval; the wrap-around never happens. */
  method ZeroYieldBackoff(count: int, p: ZeroYieldPolicy) returns (interval: Duration)
    ensures interval == ZeroYieldInterval(count, p)
  {
    if p.limit <= 0 || count < p.limit || p.base <= 0 {
      return 0;
    }
    interval := p.base;
    var i := p.limit;
    while i < count && interval < p.max
      invariant p.limit <= i <= count
      invariant interval == Doubled(p.base, i - p.limit)
      invariant 0 < interval && (p.max <= 0 ==> i == p.limit)
    {
      DoubledLast(p.base, i - p.limit);
      if p.max > 0 && interval > p.max / 2 {
        DoubledGrows(p.base, i + 1 - p.limit, count - p.limit);
        interval := p.max;
        break;
      }
      interval := Wrap(interval * 2);
      i := i + 1;
    }
    DoubledGrows(p.base, i - p.limit, count - p.limit);
    if p.max > 0 && interval > p.max {
      interval := p.max;
    }
  }

  // ------------------------------------------------------- byte backoff, early walks

  /** The unguarded doubling loop, one step at a time, in 64-bit arithmetic. */
  function DoublingLoop(interval: Duration, limit: Duration, steps: nat): Duration
    decreases steps
  {
    if steps == 0 || interval >= limit then interval
    else DoublingLoop(Wrap(2 * interval), limit, steps - 1)
  }

  /** A doubling of base lands in the upper half of the 64-bit range below the cap,
      so the next doubling overflows. */
  ghost predicate DoublingOverflows(base: Duration, limit: Duration) {
    exists j: nat :: TWO62 <= Doubled(base, j) < limit
  }

  lemma {:induction false} LoopExact(base: Duration, limit: Duration, k: nat)
    requires 0 < base && limit <= MAX64
    requires !DoublingOverflows(base, limit)
    ensures Min(limit, DoublingLoop(base, limit, k)) == Min(limit, Doubled(base, k))
    ensures DoublingLoop(base, limit, k) >= Min(limit, Doubled(base, k))
    ensures DoublingLoop(base, limit, k) <= Doubled(base, k)
    decreases k
  {
    DoubledPositive(base, k);
    if k > 0 && base < limit {
      assert Doubled(base, 0) == base;
      assert forall j: nat :: Doubled(2 * base, j) == Doubled(base, j + 1);
      LoopExact(2 * base, limit, k - 1);
    }
  }

  lemma {:induction false} LoopOverflow(base: Duration, limit: Duration, j: nat)
    requires 0 < base && limit <= MAX64
    requires TWO62 <= Doubled(base, j) < limit
    ensures DoublingLoop(base, limit, j + 1) < 0
    decreases j
  {
    DoubledPositive(base, j);
    if j == 0 {
      assert Wrap(2 * base) == 2 * base - TWO64;
      assert DoublingLoop(base, limit, 1) == DoublingLoop(Wrap(2 * base), limit, 0);
    } else {
      DoubledPositive(2 * base, j - 1);
      LoopOverflow(2 * base, limit, j - 1);
    }
  }

  /** byteBackoffIntervalFor for an engaged path: first is byteBackoffInterval,
      limit is byte_backoff_max, steps is noProgress minus the configured limit. */
  function ByteIntervalFor(first: Duration, limit: Duration, steps: int): Duration {
    Min(limit, DoublingLoop(first, limit, Max(steps, 0)))
  }

  /** The loop of byteBackoffIntervalFor. */
  method ByteBackoffIntervalFor(first: Duration, limit: Duration, noProgress: int, noProgressLimit: int)
    returns (interval: Duration)
    ensures interval == ByteIntervalFor(first, limit, noProgress - noProgressLimit)
  {
    interval := first;
    var steps := noProgress - noProgressLimit;
    ghost var total: nat := Max(steps, 0);
    while steps > 0 && interval < limit
      invariant DoublingLoop(first, limit, total) == DoublingLoop(interval, limit, Max(steps, 0))
      invariant steps <= total
    {
      interval := Wrap(interval * 2);
      steps := steps - 1;
    }
    if interval > limit {
      interval := limit;
    }
  }

  /** The interval is min(max, first * 2^steps) at every step exactly when no
      doubling below the cap reaches 2^62 ns. */
  lemma ByteIntervalExact(first: Duration, limit: Duration)
    requires 0 < first <= limit <= MAX64
    ensures (forall steps: nat :: ByteIntervalFor(first, limit, steps) == Min(limit, first * Pow2(steps)))
            <==> !DoublingOverflows(first, limit)
  {
    if DoublingOverflows(first, limit) {
      var j: nat :| TWO62 <= Doubled(first, j) < limit;
      LoopOverflow(first, limit, j);
      DoubledIsPower(first, j + 1);
      DoubledPositive(first, j + 1);
      assert ByteIntervalFor(first, limit, j + 1) != Min(limit, first * Pow2(j + 1));
    } else {
      forall steps: nat
        ensures ByteIntervalFor(first, limit, steps) == Min(limit, first * Pow2(steps))
      {
        LoopExact(first, limit, steps);
        DoubledIsPower(first, steps);
      }
    }
  }

  /** Every cap up to 2^62 ns (about 146 years) is safe. */
  lemma CapUpTo62BitsIsExact(first: Duration, limit: Duration, steps: nat)
    requires 0 < first <= limit <= TWO62
    ensures ByteIntervalFor(first, limit, steps) == Min(limit, first * Pow2(steps))
  {
    ByteIntervalExact(first, limit);
  }

  /** A cap of 2^63 - 1 ns with a first interval of 2^62 ns: one further failed attempt
      turns the interval negative, so nothing holds the plugins back. */
  lemma HugeCapOverflows()
    ensures ByteIntervalFor(TWO62, MAX64, 1) < 0
    ensures !(forall steps: nat :: ByteIntervalFor(TWO62, MAX64, steps) == Min(MAX64, TWO62 * Pow2(steps)))
  {
    assert Doubled(TWO62, 0) == TWO62;
    LoopOverflow(TWO62, MAX64, 0);
    ByteIntervalExact(TWO62, MAX64);
  }
}
