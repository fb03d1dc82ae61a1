/** When the output-base reaper walks again before its discovery interval: earlyGap, due,
    noteWork and pressureState of plugins/bazel_bases.go. */
module EarlyWalks {
  import opened Common
  import opened Backoff

  const PRESSURE_MIN_INTERVAL: Duration := 5 * MINUTE

  /** duty is early_walk_max_duty_percent as resolved: 1 to 100. */
  datatype Policy = Policy(interval: Duration64, duty: int, minYield: int)

  predicate ValidPolicy(p: Policy) {
    1 <= p.duty <= 100
  }

  /** Division of durations truncates toward zero. */
  function Quotient(a: int, b: int): int
    requires b > 0
  {
    if a >= 0 then a / b else -(-a / b)
  }

  /** The product whose d-th part a walk is to be followed by, at d percent duty. */
  function Owed(walk: int, d: int): int {
    walk * (100 - d)
  }

  /** What earlyGap promises, in 64-bit arithmetic. */
  function Gap(p: Policy, emptyWalks: nat, lastWalk: Duration): Duration
    requires ValidPolicy(p)
  {
    var gap := DoublingLoop(PRESSURE_MIN_INTERVAL, p.interval, emptyWalks);
    if p.duty < 100 && lastWalk > 0 then Max(gap, Quotient(Wrap(Owed(lastWalk, p.duty)), p.duty)) else gap
  }

  /** One look at a root: its device, if readable, and the reading of its mount. */
  datatype RootLook = RootLook(dev: Option<nat>, reading: Option<Reading>)

  /** At or above the start line, and at or above the stop line, by bytes or inodes. */
  datatype Reading = Reading(overStart: bool, overStop: bool)

  /** A base of the finished cycle, as noteWork sees it. dev 0 could not be read. */
  datatype Note = Note(dev: nat, leftBehind: bool, recent: bool, lastUse: Option<Time>, pressureWindow: Duration)

  /** The scheduler's memory; None means no cycle has completed. */
  datatype Memory = Memory(lastDiscovery: Option<Time>, earlyAt: Option<map<nat, Time>>, partial: bool,
                           emptyWalks: nat, lastWalk: Duration, pressured: map<nat, bool>)

  // ----------------------------------------------------------------------------- due

  /** pressureState, with the hysteresis of the last cycle. */
  predicate Pressured(m: Memory, dev: nat, r: Reading) {
    r.overStart || (dev in m.pressured && m.pressured[dev] && r.overStop)
  }

  /** An early walk has something to do at this root. */
  predicate HasReason(m: Memory, now: Time, look: RootLook) {
    && look.dev.Some? && look.reading.Some? && Pressured(m, look.dev.value, look.reading.value)
    && (m.earlyAt.None? || m.partial
        || (look.dev.value in m.earlyAt.value && now >= m.earlyAt.value[look.dev.value]))
  }

  predicate IntervalPassed(p: Policy, m: Memory, now: Time) {
    m.lastDiscovery.None? || now - m.lastDiscovery.value >= p.interval
  }

  predicate EarlyDue(p: Policy, m: Memory, apply: bool, now: Time, looks: seq<RootLook>)
    requires ValidPolicy(p)
  {
    && apply && m.lastDiscovery.Some? && now - m.lastDiscovery.value >= Gap(p, m.emptyWalks, m.lastWalk)
    && exists look | look in looks :: HasReason(m, now, look)
  }

  // ----------------------------------------------------------------------- noteWork

  /** When an early walk could take this base, if ever. */
  function WorkAt(n: Note): Option<Time> {
    if n.dev == 0 then None
    else if n.leftBehind then Some(ZERO_TIME)
    else if n.recent && n.lastUse.Some? && n.pressureWindow > 0 then Some(n.lastUse.value + n.pressureWindow)
    else None
  }

  /** early is, per device, the earliest time any of its bases could be taken. */
  ghost predicate EarliestWork(early: map<nat, Time>, notes: seq<Note>) {
    && (forall n :: n in notes && WorkAt(n).Some? ==> n.dev in early && early[n.dev] <= WorkAt(n).value)
    && (forall d :: d in early ==> exists n :: n in notes && n.dev == d && WorkAt(n) == Some(early[d]))
  }

  /** The plugin's scheduling fields. */
  class Scheduler {
    var memory: Memory

    constructor ()
      ensures memory == Memory(None, None, false, 0, 0, map[])
    {
      memory := Memory(None, None, false, 0, 0, map[]);
    }

    method EarlyGap(p: Policy) returns (gap: Duration)
      requires ValidPolicy(p)
      ensures gap == Gap(p, memory.emptyWalks, memory.lastWalk)
    {
      gap := PRESSURE_MIN_INTERVAL;
      var i := 0;
      while i < memory.emptyWalks && gap < p.interval
        invariant 0 <= i <= memory.emptyWalks
        invariant DoublingLoop(gap, p.interval, memory.emptyWalks - i)
                  == DoublingLoop(PRESSURE_MIN_INTERVAL, p.interval, memory.emptyWalks)
      {
        gap := Wrap(2 * gap);
        i := i + 1;
      }
      if p.duty > 0 && p.duty < 100 && memory.lastWalk > 0 {
        var floor := Quotient(Wrap(memory.lastWalk * (100 - p.duty)), p.duty);
        if floor > gap {
          gap := floor;
        }
      }
    }

    /** due: the interval has passed, or an early walk has something to do. */
    method Due(p: Policy, apply: bool, now: Time, looks: seq<RootLook>) returns (due: bool)
      requires ValidPolicy(p)
      ensures due <==> IntervalPassed(p, memory, now) || EarlyDue(p, memory, apply, now, looks)
    {
      if memory.lastDiscovery.None? || now - memory.lastDiscovery.value >= p.interval {
        return true;
      }
      var gap := EarlyGap(p);
      if !apply || now - memory.lastDiscovery.value < gap {
        return false;
      }
      for k := 0 to |looks|
        invariant forall look :: look in looks[..k] ==> !HasReason(memory, now, look)
      {
        var look := looks[k];
        assert look in looks;
        assert looks[..k + 1] == looks[..k] + [look];
        if look.dev.None? || look.reading.None? {
          continue;
        }
        if !Pressured(memory, look.dev.value, look.reading.value) {
          continue;
        }
        if memory.earlyAt.None? || memory.partial {
          return true;
        }
        if look.dev.value in memory.earlyAt.value && now >= memory.earlyAt.value[look.dev.value] {
          return true;
        }
      }
      assert looks[..|looks|] == looks;
      return false;
    }

    /** noteWork: what the finished cycle leaves for the next early walk. */
    method NoteWork(p: Policy, notes: seq<Note>, partial: bool, apply: bool, removedBytes: int)
      modifies this
      ensures memory.earlyAt.Some? && EarliestWork(memory.earlyAt.value, notes)
      ensures memory.partial <==> partial || exists n :: n in notes && n.dev == 0
      ensures memory.emptyWalks == if apply && removedBytes < p.minYield then old(memory).emptyWalks + 1 else 0
      ensures memory == old(memory).(earlyAt := memory.earlyAt, partial := memory.partial, emptyWalks := memory.emptyWalks)
    {
      var early: map<nat, Time> := map[];
      var cut := partial;
      for k := 0 to |notes|
        invariant EarliestWork(early, notes[..k])
        invariant cut <==> partial || exists n :: n in notes[..k] && n.dev == 0
      {
        var n := notes[k];
        assert notes[..k + 1] == notes[..k] + [n];
        if n.dev == 0 {
          cut := true;
          continue;
        }
        var at := WorkAt(n);
        if at.Some? && (n.dev !in early || at.value < early[n.dev]) {
          early := early[n.dev := at.value];
        }
      }
      assert notes[..|notes|] == notes;
      var empty := if apply && removedBytes < p.minYield then memory.emptyWalks + 1 else 0;
      memory := memory.(earlyAt := Some(early), partial := cut, emptyWalks := empty);
    }

    /** One Cleanup call: nothing when not due, else a walk and what it leaves behind. */
    method Poll(p: Policy, w: World) returns (walked: bool)
      requires ValidPolicy(p)
      modifies this
      ensures walked <==> IntervalPassed(p, old(memory), w.now) || EarlyDue(p, old(memory), w.apply, w.now, w.looks)
      ensures if walked then After(p, old(memory), w, memory) else memory == old(memory)
    {
      walked := Due(p, w.apply, w.now, w.looks);
      if !walked {
        return;
      }
      memory := memory.(pressured := w.pressured);
      memory := memory.(lastDiscovery := Some(w.end));
      memory := memory.(lastWalk := w.end - w.start);
      NoteWork(p, w.notes, w.partial, w.apply, w.removedBytes);
    }
  }

  // -------------------------------------------------------------------------- walks

  /** One Cleanup call and, if it walks, its walk: the clock reads now, then start, then end. */
  datatype World = World(now: Time, start: Time, end: Time, apply: bool, looks: seq<RootLook>, notes: seq<Note>,
                         partial: bool, removedBytes: int, pressured: map<nat, bool>)

  ghost predicate After(p: Policy, m: Memory, w: World, m': Memory) {
    && m'.lastDiscovery == Some(w.end) && m'.lastWalk == w.end - w.start && m'.pressured == w.pressured
    && m'.earlyAt.Some? && EarliestWork(m'.earlyAt.value, w.notes)
    && (m'.partial <==> w.partial || exists n :: n in w.notes && n.dev == 0)
    && m'.emptyWalks == (if w.apply && w.removedBytes < p.minYield then m.emptyWalks + 1 else 0)
  }

  /** Consecutive walks: the memory each was judged by, and the calls that walked. Calls in
      between that did not walk leave the memory alone. */
  datatype Walks = Walks(memories: seq<Memory>, worlds: seq<World>)

  ghost predicate WalkStep(p: Policy, ws: Walks, k: nat)
    requires ValidPolicy(p) && |ws.memories| == |ws.worlds| + 1 && k < |ws.worlds|
  {
    var m, w := ws.memories[k], ws.worlds[k];
    && w.now <= w.start <= w.end
    && (IntervalPassed(p, m, w.now) || EarlyDue(p, m, w.apply, w.now, w.looks))
    && After(p, m, w, ws.memories[k + 1])
  }

  /** The clock never goes back. */
  ghost predicate Valid(p: Policy, ws: Walks) {
    && ValidPolicy(p)
    && |ws.memories| == |ws.worlds| + 1
    && (forall k :: 0 <= k < |ws.worlds| ==> WalkStep(p, ws, k))
    && (forall j, k :: 0 <= j < k < |ws.worlds| ==> ws.worlds[j].end <= ws.worlds[k].now)
  }

  /** Walk k started before the discovery interval had passed. */
  predicate Early(p: Policy, ws: Walks, k: nat)
    requires k < |ws.worlds| && k < |ws.memories|
  {
    !IntervalPassed(p, ws.memories[k], ws.worlds[k].now)
  }

  function WalkTime(ws: Walks, a: nat, n: nat): Duration
    requires a <= n <= |ws.worlds|
    decreases n
  {
    if n == a then 0 else WalkTime(ws, a, n - 1) + (ws.worlds[n - 1].end - ws.worlds[n - 1].start)
  }

  /** The product in earlyGap fits 64 bits: at the lowest duty, a walk under 2.9 years. */
  predicate Representable(p: Policy, w: World) {
    Owed(w.end - w.start, p.duty) <= MAX64
  }

  /** Waiting at least walk * (100 - d) / d keeps a walk to d percent, up to one nanosecond. */
  lemma DutyArithmetic(walk: int, wait: int, d: int)
    requires 1 <= d <= 100 && walk >= 0 && wait >= Quotient(Owed(walk, d), d)
    ensures 100 * walk <= d * (wait + walk + 1)
  {
    var a := Owed(walk, d);
    assert a >= 0;
    var q := a / d;
    assert a == d * q + a % d;
    assert d * wait >= d * q;
    assert d * (wait + walk + 1) == d * wait + d * walk + d;
    assert a == 100 * walk - d * walk;
  }

  lemma GapCoversDuty(p: Policy, emptyWalks: nat, walk: Duration)
    requires ValidPolicy(p) && 0 < walk && p.duty < 100 && Owed(walk, p.duty) <= MAX64
    ensures Gap(p, emptyWalks, walk) >= Quotient(Owed(walk, p.duty), p.duty)
  {
    NonNegative(walk, 100 - p.duty);
    WrapKeeps(Owed(walk, p.duty));
  }

  lemma NonNegative(a: int, b: int)
    requires a >= 0 && b >= 0
    ensures a * b >= 0
  {
  }

  lemma WrapKeeps(x: int)
    requires 0 <= x <= MAX64
    ensures Wrap(x) == x
  {
  }

  /** Every walk up to this long is followed by a wait for its duty share if and only if its
      product with the duty fits 64 bits. */
  lemma DutyFloorExactly(longest: Duration, d: int)
    requires 1 <= d < 100 && longest >= 0
    ensures (forall walk :: 0 < walk <= longest ==> Quotient(Wrap(Owed(walk, d)), d) >= Quotient(Owed(walk, d), d))
       <==> Owed(longest, d) <= MAX64
  {
    if Owed(longest, d) <= MAX64 {
      forall walk | 0 < walk <= longest
        ensures Quotient(Wrap(Owed(walk, d)), d) >= Quotient(Owed(walk, d), d)
      {
        OwedGrows(walk, longest, d);
        WrapKeeps(Owed(walk, d));
      }
    } else {
      var walk := MAX64 / (100 - d) + 1;
      FirstTooLong(d, walk);
      if longest < walk {
        OwedGrows(longest, walk - 1, d);
      }
      assert Quotient(Wrap(Owed(walk, d)), d) < Quotient(Owed(walk, d), d);
    }
  }

  lemma OwedGrows(a: int, b: int, d: int)
    requires 0 <= a <= b && d < 100
    ensures 0 <= Owed(a, d) <= Owed(b, d)
  {
  }

  /** The shortest walk whose product overflows: it wraps to a negative number. */
  lemma FirstTooLong(d: int, walk: int)
    requires 1 <= d < 100 && walk == MAX64 / (100 - d) + 1
    ensures Owed(walk - 1, d) <= MAX64 && Wrap(Owed(walk, d)) < 0 < walk
    ensures Quotient(Wrap(Owed(walk, d)), d) <= 0 < Quotient(Owed(walk, d), d)
  {
    var q := MAX64 / (100 - d);
    assert MAX64 == (100 - d) * q + MAX64 % (100 - d);
    assert Owed(walk, d) == Owed(q, d) + (100 - d);
    var a := Owed(walk, d);
    assert MAX64 < a <= MAX64 + 99;
    assert Wrap(a) == a - TWO64;
    QuotientSign(a, d);
    QuotientSign(a - TWO64, d);
  }

  lemma QuotientSign(a: int, d: int)
    requires 1 <= d < 100
    ensures a < 0 ==> Quotient(a, d) <= 0
    ensures a >= 100 ==> Quotient(a, d) > 0
  {
  }

  lemma NothingToCover(walk: Duration, d: int)
    requires 1 <= d <= 100 && (walk == 0 || d == 100)
    ensures Quotient(Owed(walk, d), d) == 0
  {
    assert walk * (100 - d) == 0;
  }

  /** An early walk waits for at least the duty share of the walk before it. */
  lemma EarlyWalkWaits(p: Policy, m': Memory, w: World, next: World)
    requires ValidPolicy(p) && w.start <= w.end <= next.now && Representable(p, w)
    requires m'.lastDiscovery == Some(w.end) && m'.lastWalk == w.end - w.start
    requires EarlyDue(p, m', next.apply, next.now, next.looks)
    ensures next.now - w.end >= Quotient(Owed(w.end - w.start, p.duty), p.duty)
  {
    if p.duty == 100 || w.end == w.start {
      NothingToCover(w.end - w.start, p.duty);
    } else {
      GapCoversDuty(p, m'.emptyWalks, w.end - w.start);
    }
  }

  lemma EarlyWalkShare(p: Policy, ws: Walks, k: nat)
    requires Valid(p, ws) && k + 1 < |ws.worlds| && Early(p, ws, k + 1) && Representable(p, ws.worlds[k])
    ensures 100 * (ws.worlds[k].end - ws.worlds[k].start) <= p.duty * (ws.worlds[k + 1].start - ws.worlds[k].start + 1)
  {
    var w, next := ws.worlds[k], ws.worlds[k + 1];
    assert WalkStep(p, ws, k) && WalkStep(p, ws, k + 1);
    EarlyWalkWaits(p, ws.memories[k + 1], w, next);
    DutyArithmetic(w.end - w.start, next.start - w.end, p.duty);
    assert next.start - w.end + (w.end - w.start) + 1 == next.start - w.start + 1;
  }

  lemma SharesAdd(total: int, walk: int, d: int, before: int, last: int)
    requires 100 * total <= d * before && 100 * walk <= d * last
    ensures 100 * (total + walk) <= d * (before + last)
  {
    assert d * (before + last) == d * before + d * last;
  }

  /** Consecutive early walks spend at most the duty percentage of the time that passes, plus
      one nanosecond of rounding per walk. */
  lemma {:induction false} EarlyWalksKeepDuty(p: Policy, ws: Walks, a: nat, n: nat)
    requires Valid(p, ws) && a <= n < |ws.worlds|
    requires forall k :: a < k <= n ==> Early(p, ws, k)
    requires forall k :: a <= k < n ==> Representable(p, ws.worlds[k])
    ensures 100 * WalkTime(ws, a, n) <= p.duty * (ws.worlds[n].start - ws.worlds[a].start + (n - a))
    decreases n
  {
    if n > a {
      EarlyWalksKeepDuty(p, ws, a, n - 1);
      EarlyWalkShare(p, ws, n - 1);
      var before := ws.worlds[n - 1].start - ws.worlds[a].start + (n - 1 - a);
      var last := ws.worlds[n].start - ws.worlds[n - 1].start + 1;
      SharesAdd(WalkTime(ws, a, n - 1), ws.worlds[n - 1].end - ws.worlds[n - 1].start, p.duty, before, last);
    }
  }

  // ------------------------------------------------------------------- empty walks

  /** The walks at the end of the first n that were in apply mode and removed too little. */
  function TrailingEmpty(p: Policy, ws: Walks, n: nat): nat
    requires n <= |ws.worlds|
  {
    if n == 0 || !ws.worlds[n - 1].apply || ws.worlds[n - 1].removedBytes >= p.minYield then 0
    else TrailingEmpty(p, ws, n - 1) + 1
  }

  lemma {:induction false} EmptyWalksAreTrailing(p: Policy, ws: Walks, n: nat)
    requires Valid(p, ws) && n <= |ws.worlds| && ws.memories[0].emptyWalks == 0
    ensures ws.memories[n].emptyWalks == TrailingEmpty(p, ws, n)
    decreases n
  {
    if n > 0 {
      EmptyWalksAreTrailing(p, ws, n - 1);
      assert WalkStep(p, ws, n - 1);
    }
  }

  /** Five minutes doubled 24 times, about 159 years: the longest interval the doubling meets
      without an overflow. */
  const LONGEST_INTERVAL: Duration := 5_033_164_800_000_000_000

  lemma LongestIntervalIs()
    ensures PRESSURE_MIN_INTERVAL * Pow2(23) < TWO62 <= PRESSURE_MIN_INTERVAL * Pow2(24) == LONGEST_INTERVAL
    ensures PRESSURE_MIN_INTERVAL * Pow2(25) > MAX64
  {
    assert Pow2(8) == 256;
    assert Pow2(16) == 65536;
    assert Pow2(23) == 8388608;
  }

  lemma GapOverflowsExactly(p: Policy)
    ensures DoublingOverflows(PRESSURE_MIN_INTERVAL, p.interval) <==> p.interval > LONGEST_INTERVAL
  {
    LongestIntervalIs();
    DoubledIsPower(PRESSURE_MIN_INTERVAL, 23);
    DoubledIsPower(PRESSURE_MIN_INTERVAL, 24);
    forall j: nat
      ensures j <= 23 ==> Doubled(PRESSURE_MIN_INTERVAL, j) < TWO62
      ensures j >= 24 ==> Doubled(PRESSURE_MIN_INTERVAL, j) >= LONGEST_INTERVAL
    {
      if j <= 23 {
        DoubledGrows(PRESSURE_MIN_INTERVAL, j, 23);
      } else {
        DoubledGrows(PRESSURE_MIN_INTERVAL, 24, j);
      }
    }
  }

  /** Once five minutes, doubled for every trailing empty walk, reaches the discovery interval,
      no walk starts before that interval. */
  predicate GapDoubledOut(p: Policy, ws: Walks, n: nat)
    requires n <= |ws.worlds|
  {
    PRESSURE_MIN_INTERVAL * Pow2(TrailingEmpty(p, ws, n)) >= p.interval
  }

  ghost predicate ThinsOut(p: Policy) {
    forall ws: Walks, n: nat ::
      Valid(p, ws) && n < |ws.worlds| && ws.memories[0].emptyWalks == 0 && GapDoubledOut(p, ws, n) ==> !Early(p, ws, n)
  }

  lemma EmptyWalksThinOut(p: Policy, ws: Walks, n: nat)
    requires Valid(p, ws) && n < |ws.worlds| && ws.memories[0].emptyWalks == 0
    requires p.interval <= LONGEST_INTERVAL
    requires GapDoubledOut(p, ws, n)
    ensures !Early(p, ws, n)
  {
    var e := TrailingEmpty(p, ws, n);
    GapOverflowsExactly(p);
    EmptyWalksAreTrailing(p, ws, n);
    LoopExact(PRESSURE_MIN_INTERVAL, p.interval, e);
    DoubledIsPower(PRESSURE_MIN_INTERVAL, e);
    assert WalkStep(p, ws, n);
  }

  /** Past the longest interval, 25 empty walks turn the gap negative. */
  lemma LongIntervalGoesNegative(p: Policy)
    requires ValidPolicy(p) && p.interval > LONGEST_INTERVAL
    ensures PRESSURE_MIN_INTERVAL * Pow2(25) >= p.interval && Gap(p, 25, 0) < 0
  {
    LongestIntervalIs();
    DoubledIsPower(PRESSURE_MIN_INTERVAL, 24);
    LoopOverflow(PRESSURE_MIN_INTERVAL, p.interval, 24);
  }

  /** A run of empty walks of no duration: one per discovery interval, and the twenty-sixth at
      once after the twenty-fifth. */
  function EmptyWalkAt(p: Policy, k: nat): Time {
    if k < 25 then k * p.interval else 24 * p.interval
  }

  /** A walk of a pressured root that removes nothing and is cut short. */
  function EmptyWalk(at: Time): World {
    World(at, at, at, true, [RootLook(Some(1), Some(Reading(true, true)))], [], true, 0, map[])
  }

  function EmptyMemory(p: Policy, k: nat): Memory {
    if k == 0 then Memory(None, None, false, 0, 0, map[])
    else Memory(Some(EmptyWalkAt(p, k - 1)), Some(map[]), true, k, 0, map[])
  }

  lemma EmptyWalksPass(p: Policy, j: nat, k: nat)
    requires 0 <= p.interval && j < k
    ensures EmptyWalkAt(p, j) + (if j < 24 then p.interval else 0) <= EmptyWalkAt(p, k)
    ensures k == j + 1 < 25 ==> EmptyWalkAt(p, j) + p.interval == EmptyWalkAt(p, k)
    ensures k == 25 && j == 24 ==> EmptyWalkAt(p, j) == EmptyWalkAt(p, k)
  {
    var last := if k < 25 then k else 24;
    if j < last {
      assert last * p.interval == j * p.interval + (last - j) * p.interval;
      AtLeastOnce(last - j, p.interval);
    }
    assert j >= 24 ==> EmptyWalkAt(p, j) == EmptyWalkAt(p, k);
  }

  lemma AtLeastOnce(n: nat, d: nat)
    requires n > 0
    ensures n * d >= d
  {
  }

  lemma EmptyWalkLeaves(p: Policy, k: nat)
    requires p.minYield > 0
    ensures After(p, EmptyMemory(p, k), EmptyWalk(EmptyWalkAt(p, k)), EmptyMemory(p, k + 1))
  {
  }

  /** The first 25 walks wait for the interval. The gap is then negative, so the next is early. */
  lemma EmptyWalkIsDue(p: Policy, k: nat)
    requires ValidPolicy(p) && p.interval > LONGEST_INTERVAL && k <= 25
    ensures var m, w := EmptyMemory(p, k), EmptyWalk(EmptyWalkAt(p, k));
      if k < 25 then IntervalPassed(p, m, w.now)
      else EarlyDue(p, m, w.apply, w.now, w.looks) && !IntervalPassed(p, m, w.now)
  {
    if k > 0 {
      EmptyWalksPass(p, k - 1, k);
    }
    if k == 25 {
      LongIntervalGoesNegative(p);
      assert HasReason(EmptyMemory(p, 25), EmptyWalkAt(p, 25), EmptyWalk(EmptyWalkAt(p, 25)).looks[0]);
    }
  }

  /** The twenty-sixth walk of this run is early although 25 empty walks came before it. */
  lemma LongIntervalDoesNotThinOut(p: Policy) returns (ws: Walks)
    requires ValidPolicy(p) && p.minYield > 0 && p.interval > LONGEST_INTERVAL
    ensures Valid(p, ws) && |ws.worlds| == 26 && ws.memories[0].emptyWalks == 0
    ensures GapDoubledOut(p, ws, 25) && Early(p, ws, 25)
  {
    ws := Walks(seq(27, k requires 0 <= k < 27 => EmptyMemory(p, k)),
                seq(26, k requires 0 <= k < 26 => EmptyWalk(EmptyWalkAt(p, k))));
    forall k: nat | k < 26
      ensures WalkStep(p, ws, k)
    {
      EmptyWalkLeaves(p, k);
      EmptyWalkIsDue(p, k);
    }
    forall j: nat, k: nat | j < k < 26
      ensures ws.worlds[j].end <= ws.worlds[k].now
    {
      EmptyWalksPass(p, j, k);
    }
    EmptyWalksAreTrailing(p, ws, 25);
    LongIntervalGoesNegative(p);
    EmptyWalkIsDue(p, 25);
  }

  /** Walks thin out, for every run and every count of empty walks, if and only if the
      discovery interval is at most the longest one the doubling meets. */
  lemma ThinsOutExactly(p: Policy)
    requires ValidPolicy(p) && p.minYield > 0
    ensures ThinsOut(p) <==> p.interval <= LONGEST_INTERVAL
  {
    if p.interval <= LONGEST_INTERVAL {
      forall ws: Walks, n: nat | Valid(p, ws) && n < |ws.worlds| && ws.memories[0].emptyWalks == 0
                                 && GapDoubledOut(p, ws, n)
        ensures !Early(p, ws, n)
      {
        EmptyWalksThinOut(p, ws, n);
      }
    } else {
      var ws := LongIntervalDoesNotThinOut(p);
      assert Early(p, ws, 25);
    }
  }

  /** A discovery interval of 100000 days, which configuration accepts. */
  lemma HundredThousandDays(p: Policy)
    requires ValidPolicy(p) && p.minYield > 0 && p.interval == 100_000 * 24 * HOUR
    ensures Gap(p, 25, 0) < 0 && !ThinsOut(p)
  {
    LongIntervalGoesNegative(p);
    ThinsOutExactly(p);
  }

  // ------------------------------------------------------------- calls, walking or not

  /** Any calls of Poll: the memory before and after each of them. */
  datatype Calls = Calls(memories: seq<Memory>, worlds: seq<World>)

  predicate Walks?(p: Policy, m: Memory, w: World)
    requires ValidPolicy(p)
  {
    IntervalPassed(p, m, w.now) || EarlyDue(p, m, w.apply, w.now, w.looks)
  }

  /** What Poll ensures of one call, and the readings of the clock during it. */
  ghost predicate CallStep(p: Policy, cs: Calls, k: nat)
    requires ValidPolicy(p) && |cs.memories| == |cs.worlds| + 1 && k < |cs.worlds|
  {
    var m, w, m' := cs.memories[k], cs.worlds[k], cs.memories[k + 1];
    && w.now <= w.start <= w.end
    && (if Walks?(p, m, w) then After(p, m, w, m') else m' == m)
  }

  ghost predicate ValidCalls(p: Policy, cs: Calls) {
    && ValidPolicy(p) && |cs.memories| == |cs.worlds| + 1
    && (forall k :: 0 <= k < |cs.worlds| ==> CallStep(p, cs, k))
    && (forall j, k :: 0 <= j < k < |cs.worlds| ==> cs.worlds[j].end <= cs.worlds[k].now)
  }

  /** The calls among the first n that walked, with the memories they were judged by. */
  function WalksOf(p: Policy, cs: Calls, n: nat): Walks
    requires ValidPolicy(p) && |cs.memories| == |cs.worlds| + 1 && n <= |cs.worlds|
  {
    if n == 0 then Walks([cs.memories[0]], [])
    else
      var before := WalksOf(p, cs, n - 1);
      if Walks?(p, cs.memories[n - 1], cs.worlds[n - 1]) then
        Walks(before.memories + [cs.memories[n]], before.worlds + [cs.worlds[n - 1]])
      else before
  }

  lemma WalkAppended(p: Policy, ws: Walks, w: World, m: Memory)
    requires Valid(p, ws)
    requires w.now <= w.start <= w.end && Walks?(p, ws.memories[|ws.worlds|], w) && After(p, ws.memories[|ws.worlds|], w, m)
    requires forall before :: before in ws.worlds ==> before.end <= w.now
    ensures Valid(p, Walks(ws.memories + [m], ws.worlds + [w]))
  {
    var more, n := Walks(ws.memories + [m], ws.worlds + [w]), |ws.worlds|;
    forall k: nat | k < n + 1
      ensures WalkStep(p, more, k)
    {
      assert k < n ==> WalkStep(p, ws, k);
    }
  }

  /** Whatever calls are made, the ones that walk are consecutive walks, and the calls in
      between leave the memory alone. */
  lemma {:induction false} CallsAreWalks(p: Policy, cs: Calls, n: nat)
    requires ValidCalls(p, cs) && n <= |cs.worlds|
    ensures var ws := WalksOf(p, cs, n);
      && Valid(p, ws) && ws.memories[|ws.worlds|] == cs.memories[n]
      && forall w :: w in ws.worlds ==> exists j :: 0 <= j < n && w == cs.worlds[j]
    decreases n
  {
    if n > 0 {
      CallsAreWalks(p, cs, n - 1);
      assert CallStep(p, cs, n - 1);
      var before := WalksOf(p, cs, n - 1);
      if Walks?(p, cs.memories[n - 1], cs.worlds[n - 1]) {
        WalkAppended(p, before, cs.worlds[n - 1], cs.memories[n]);
      }
    }
  }

  // ------------------------------------------------------------ when an early walk is due

  /** A base used this recently is too young until it has been idle for its pressure window;
      what a cut-short removal left behind can be taken at once. */
  lemma WorkAtExactly(n: Note, now: Time)
    requires now >= ZERO_TIME && n.dev != 0
    ensures WorkAt(n).Some? && now >= WorkAt(n).value <==>
            n.leftBehind || (n.recent && n.lastUse.Some? && n.pressureWindow > 0 && now - n.lastUse.value >= n.pressureWindow)
  {
  }

  /** The root can be looked at and is under pressure: at the start line, or at the stop line
      with pressure remembered for its device. */
  predicate UnderPressure(m: Memory, look: RootLook) {
    && look.dev.Some? && look.reading.Some?
    && (look.reading.value.overStart
        || (look.reading.value.overStop && look.dev.value in m.pressured && m.pressured[look.dev.value]))
  }

  /** Some base of the last walk could be taken now on this device. */
  ghost predicate WorkFor(notes: seq<Note>, dev: nat, now: Time) {
    exists n :: n in notes && n.dev == dev && WorkAt(n).Some? && now >= WorkAt(n).value
  }

  /** After a walk, an early one is due if and only if the daemon removes, the gap has passed,
      and some root under pressure has a base that could be taken, or the walk was partial. */
  lemma EarlyDueExactly(p: Policy, m: Memory, w: World, m': Memory, apply: bool, now: Time, looks: seq<RootLook>)
    requires ValidPolicy(p) && After(p, m, w, m')
    ensures EarlyDue(p, m', apply, now, looks) <==>
      && apply && now - w.end >= Gap(p, m'.emptyWalks, m'.lastWalk)
      && exists look :: look in looks && UnderPressure(m', look)
                        && (m'.partial || WorkFor(w.notes, look.dev.value, now))
  {
    forall look | look in looks
      ensures HasReason(m', now, look) <==> UnderPressure(m', look) && (m'.partial || WorkFor(w.notes, look.dev.value, now))
    {
      if look.dev.Some? {
        WorkIsEarliest(m'.earlyAt.value, w.notes, look.dev.value, now);
      }
    }
  }

  lemma WorkIsEarliest(early: map<nat, Time>, notes: seq<Note>, dev: nat, now: Time)
    requires EarliestWork(early, notes)
    ensures WorkFor(notes, dev, now) <==> dev in early && now >= early[dev]
  {
  }

  /** As far as the discovery interval goes, the gap is the longer of five minutes doubled for
      every trailing empty walk and the duty share of the last walk. */
  lemma GapExactly(p: Policy, emptyWalks: nat, lastWalk: Duration)
    requires ValidPolicy(p) && p.interval <= LONGEST_INTERVAL && 0 <= lastWalk && Owed(lastWalk, p.duty) <= MAX64
    ensures Min(p.interval, Gap(p, emptyWalks, lastWalk))
         == Min(p.interval, Max(PRESSURE_MIN_INTERVAL * Pow2(emptyWalks), Quotient(Owed(lastWalk, p.duty), p.duty)))
  {
    GapOverflowsExactly(p);
    LoopExact(PRESSURE_MIN_INTERVAL, p.interval, emptyWalks);
    DoubledIsPower(PRESSURE_MIN_INTERVAL, emptyWalks);
    DoubledPositive(PRESSURE_MIN_INTERVAL, emptyWalks);
    NonNegative(lastWalk, 100 - p.duty);
    WrapKeeps(Owed(lastWalk, p.duty));
    if p.duty == 100 || lastWalk == 0 {
      NothingToCover(lastWalk, p.duty);
    }
  }

  // ------------------------------------------------------------------------ hysteresis

  /** Pressure of one device over its readings, as each look finds it. */
  predicate Latched(dev: nat, readings: seq<Reading>) {
    readings != [] &&
      var n := |readings| - 1;
      Pressured(Memory(None, None, false, 0, 0, map[dev := Latched(dev, readings[..n])]), dev, readings[n])
  }

  /** A device is under pressure if and only if it was at the start line once and has not been
      below the stop line, nor short of the start line, at any reading since. */
  lemma {:induction false} LatchedExactly(dev: nat, readings: seq<Reading>)
    ensures Latched(dev, readings) <==>
      exists j :: 0 <= j < |readings| && readings[j].overStart
                  && forall k :: j < k < |readings| ==> readings[k].overStop || readings[k].overStart
    decreases |readings|
  {
    if readings != [] {
      var n := |readings| - 1;
      LatchedExactly(dev, readings[..n]);
      if j :| 0 <= j < |readings| && readings[j].overStart
              && forall k :: j < k < |readings| ==> readings[k].overStop || readings[k].overStart {
        assert j < n ==> readings[..n][j].overStart;
      }
    }
  }
}
