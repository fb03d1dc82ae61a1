/** The idle floors of the output-base reaper, from the configuration that is accepted
    (BazelBasesConfig.Validate) through the windows of a base and the decision to keep it,
    to the removal loop (windows, run and apply in plugins/bazel_bases.go). */
module IdleFloors {
  import opened Common

  // -------------------------------------------------------------------- configuration

  /** A duration as written: empty, not a duration, or parsed. */
  datatype Written = Empty | Malformed | Parsed(d: Duration)

  datatype Kind = Kind(idle: Written, pressureIdle: Written)

  datatype RootPressure = RootPressure(rootKnown: bool, start: int, stop: int)

  /** The bazel_bases section. pathsOk stands for the checks on roots, held paths, skip paths and
      bases-only roots, which only look at paths. */
  datatype Config = Config(
    modeOk: bool,
    rootsGiven: bool,
    idle: Written,
    pressureIdle: Written,
    basesOnlyIdle: Written,
    start: int,
    stop: int,
    rootPressure: seq<RootPressure>,
    earlyMinYieldMB: int,
    earlyDuty: int,
    skipsGit: bool,
    discoveryInterval: Written,
    kinds: map<string, Kind>,
    pathsOk: bool)

  const MIN_IDLE: Duration := 12 * HOUR
  const MIN_PRESSURE_IDLE: Duration := 2 * HOUR

  predicate LinesOk(start: int, stop: int) {
    0 < stop < start <= 100
  }

  predicate KindOk(k: Kind) {
    && (k.idle.Empty? || (k.idle.Parsed? && k.idle.d >= MIN_IDLE))
    && (k.pressureIdle.Empty? || (k.pressureIdle.Parsed? && k.pressureIdle.d >= MIN_PRESSURE_IDLE))
  }

  /** What an accepted section guarantees. */
  predicate Accepted(c: Config) {
    && c.modeOk && c.rootsGiven && c.pathsOk && c.skipsGit
    && c.idle.Parsed? && c.pressureIdle.Parsed? && c.basesOnlyIdle.Parsed? && c.discoveryInterval.Parsed?
    && MIN_IDLE <= c.idle.d <= c.basesOnlyIdle.d
    && MIN_PRESSURE_IDLE <= c.pressureIdle.d <= c.idle.d
    && LinesOk(c.start, c.stop)
    && (forall rp | rp in c.rootPressure :: rp.rootKnown && LinesOk(rp.start, rp.stop))
    && 0 <= c.earlyMinYieldMB && 0 <= c.earlyDuty <= 100
    && (forall k | k in c.kinds :: KindOk(c.kinds[k]))
  }

  /** Validate: a sequence of checks with early returns accepts exactly such a section. */
  method Validate(c: Config) returns (ok: bool)
    ensures ok <==> Accepted(c)
  {
    if !c.modeOk || !c.rootsGiven {
      return false;
    }
    if !c.idle.Parsed? || c.idle.d < MIN_IDLE {
      return false;
    }
    if !c.pressureIdle.Parsed? || c.pressureIdle.d < MIN_PRESSURE_IDLE || c.pressureIdle.d > c.idle.d {
      return false;
    }
    if !c.basesOnlyIdle.Parsed? || c.basesOnlyIdle.d < c.idle.d {
      return false;
    }
    if c.stop <= 0 || c.start <= c.stop || c.start > 100 {
      return false;
    }
    for k := 0 to |c.rootPressure|
      invariant forall rp :: rp in c.rootPressure[..k] ==> rp.rootKnown && LinesOk(rp.start, rp.stop)
    {
      var rp := c.rootPressure[k];
      assert rp in c.rootPressure;
      if !rp.rootKnown {
        return false;
      }
      if rp.stop <= 0 || rp.start <= rp.stop || rp.start > 100 {
        return false;
      }
      assert c.rootPressure[..k + 1] == c.rootPressure[..k] + [rp];
    }
    assert c.rootPressure[..|c.rootPressure|] == c.rootPressure;
    if c.earlyMinYieldMB < 0 || c.earlyDuty < 0 || c.earlyDuty > 100 {
      return false;
    }
    if !c.skipsGit || !c.discoveryInterval.Parsed? {
      return false;
    }
    var todo := c.kinds.Keys;
    while todo != {}
      invariant todo <= c.kinds.Keys
      invariant forall k :: k in c.kinds && k !in todo ==> KindOk(c.kinds[k])
      decreases todo
    {
      var name :| name in todo;
      todo := todo - {name};
      var k := c.kinds[name];
      if !k.idle.Empty? && (!k.idle.Parsed? || k.idle.d < MIN_IDLE) {
        return false;
      }
      if !k.pressureIdle.Empty? && (!k.pressureIdle.Parsed? || k.pressureIdle.d < MIN_PRESSURE_IDLE) {
        return false;
      }
    }
    return c.pathsOk;
  }

  // -------------------------------------------------------------------- one base

  function Value(w: Written): Duration {
    if w.Parsed? then w.d else 0
  }

  function LongerOf(w: Written, d: Duration): Duration {
    if w.Parsed? && w.d > d then w.d else d
  }

  /** windows: the idle window and the window under pressure for a kind of base. */
  function Windows(c: Config, kind: string): (Duration, Duration) {
    var k := if kind in c.kinds then c.kinds[kind] else Kind(Empty, Empty);
    var idle := LongerOf(k.idle, Value(c.idle));
    var pressure := LongerOf(k.pressureIdle, Value(c.pressureIdle));
    (idle, if pressure > idle then idle else pressure)
  }

  lemma WindowsHaveFloors(c: Config, kind: string)
    requires Accepted(c)
    ensures var (idle, pressure) := Windows(c, kind);
      MIN_IDLE <= idle && MIN_PRESSURE_IDLE <= pressure <= idle
  {
  }

  /** A discovered base. keep: something other than its age keeps it. */
  datatype Base = Base(dev: nat, pressure: bool, basesOnly: bool, kind: string, lastUse: Option<Time>, keep: bool)

  datatype Decision = Eligible | Keep | Deferred | Removed

  /** One row of the cycle. lastUse and recent drive the next early walk. */
  datatype Row = Row(base: Base, lastUse: Option<Time>, idle: Duration, window: Duration, normal: Duration,
                     pressureWindow: Duration, recent: bool, decision: Decision)

  function AtLeast(d: Duration, floor: Duration, applies: bool): Duration {
    if applies && d < floor then floor else d
  }

  /** The decision loop of run, for one base. */
  function Decide(c: Config, now: Time, b: Base): Row {
    if b.lastUse.None? then Row(b, None, 0, 0, 0, 0, false, Keep)
    else
      var (normal0, pressured0) := Windows(c, b.kind);
      var floor := Value(c.basesOnlyIdle);
      var pressured := AtLeast(pressured0, floor, b.basesOnly);
      var window := AtLeast(if b.pressure then pressured else normal0, floor, b.basesOnly);
      var normal := AtLeast(normal0, floor, b.basesOnly);
      var idle := now - b.lastUse.value;
      Row(b, b.lastUse, idle, window, normal, pressured, idle <= window,
          if idle <= window || b.keep then Keep else Eligible)
  }

  /** The decision loop: each row is filled in step by step, in order of discovery. */
  method DecideAll(c: Config, now: Time, bases: seq<Base>) returns (rows: seq<Row>)
    ensures |rows| == |bases| && forall k :: 0 <= k < |bases| ==> rows[k] == Decide(c, now, bases[k])
  {
    rows := [];
    for k := 0 to |bases|
      invariant |rows| == k && forall j :: 0 <= j < k ==> rows[j] == Decide(c, now, bases[j])
    {
      var b := bases[k];
      var row := Row(b, b.lastUse, 0, 0, 0, 0, false, Keep);
      if b.lastUse.Some? {
        row := row.(idle := now - b.lastUse.value);
        var (normal, pressured) := Windows(c, b.kind);
        var floor := Value(c.basesOnlyIdle);
        if b.basesOnly && pressured < floor {
          pressured := floor;
        }
        var window := normal;
        if b.pressure {
          window := pressured;
        }
        if b.basesOnly && window < floor {
          window := floor;
        }
        if b.basesOnly && normal < floor {
          normal := floor;
        }
        row := row.(pressureWindow := pressured, window := window, normal := normal);
        if row.idle <= window {
          row := row.(recent := true);
        } else if !b.keep {
          row := row.(decision := Eligible);
        }
      }
      rows := rows + [row];
    }
  }

  function KindOf(c: Config, kind: string): Kind {
    if kind in c.kinds then c.kinds[kind] else Kind(Empty, Empty)
  }

  /** Idle for longer than one limit, and than the limit of the kind where that one is written. */
  predicate Exceeds(idle: Duration, limit: Written, ofKind: Written) {
    && (limit.Parsed? ==> idle > limit.d)
    && (ofKind.Parsed? ==> idle > ofKind.d)
  }

  /** A base idle for this long is old enough: past idle_after; under pressure past
      pressure_idle_after is enough; in a bases-only root past bases_only_idle_after too. */
  predicate OldEnough(c: Config, b: Base, idle: Duration) {
    && (Exceeds(idle, c.idle, KindOf(c, b.kind).idle)
        || (b.pressure && Exceeds(idle, c.pressureIdle, KindOf(c, b.kind).pressureIdle)))
    && (b.basesOnly ==> Exceeds(idle, c.basesOnlyIdle, Empty))
  }

  /** A base is eligible if and only if it has a last use, nothing else keeps it, and it is old
      enough; it counts as recently used if and only if it has one and is not. */
  lemma EligibleExactly(c: Config, now: Time, b: Base)
    requires Accepted(c)
    ensures Decide(c, now, b).decision == Eligible <==> b.lastUse.Some? && !b.keep && OldEnough(c, b, now - b.lastUse.value)
    ensures Decide(c, now, b).decision != Eligible ==> Decide(c, now, b).decision == Keep
    ensures Decide(c, now, b).recent <==> b.lastUse.Some? && !OldEnough(c, b, now - b.lastUse.value)
    ensures Decide(c, now, b).lastUse == b.lastUse
  {
  }

  /** The window noted for the next early walk is the one that counts under pressure. */
  lemma PressureWindowIs(c: Config, now: Time, b: Base, idle: Duration)
    requires Accepted(c) && b.lastUse.Some?
    ensures idle > Decide(c, now, b).pressureWindow <==> OldEnough(c, b.(pressure := true), idle)
  {
  }

  lemma LimitsAre(c: Config, now: Time, b: Base, idle: Duration)
    requires Accepted(c) && b.lastUse.Some?
    ensures idle > Decide(c, now, b).window <==> OldEnough(c, b, idle)
    ensures idle > Decide(c, now, b).normal <==> OldEnough(c, b.(pressure := false), idle)
  {
  }

  lemma DecideHasFloors(c: Config, now: Time, b: Base)
    requires Accepted(c) && Decide(c, now, b).decision == Eligible
    ensures var row := Decide(c, now, b);
      && row.base == b && row.window >= MIN_PRESSURE_IDLE && row.normal >= MIN_IDLE
      && (!b.pressure ==> row.window >= MIN_IDLE)
      && (b.basesOnly ==> row.window >= c.basesOnlyIdle.d && row.normal >= c.basesOnlyIdle.d)
  {
    WindowsHaveFloors(c, b.kind);
  }

  // ------------------------------------------------------------------ the removal loop

  /** What the loop meets at one row: time left, a reading of the device against the stop
      line, the last use now, whether the base is measured, whether removeTree removes it. */
  datatype Look = Look(inTime: bool, below: bool, use: Option<Time>, now: Time, measured: bool, removes: bool)

  /** The devices seen below the stop line once this row was looked at. */
  function RelievedBy(relieved: set<nat>, row: Row, look: Look): set<nat> {
    if look.inTime && row.base.pressure && (row.base.dev in relieved || look.below) then relieved + {row.base.dev} else relieved
  }

  /** One iteration of apply; relieved already includes this row's reading. */
  function Applied(relieved: set<nat>, row: Row, look: Look): Row {
    var limit := if row.base.dev in relieved then row.normal else row.window;
    if !look.inTime then row.(decision := Deferred)
    else if row.base.pressure && row.base.dev in relieved && row.idle <= row.normal then row.(decision := Keep)
    else if look.use.None? || look.now - look.use.value <= limit then
      row.(decision := Keep, lastUse := look.use, recent := look.use.Some?)
    else if !look.measured || !look.removes then row.(decision := Keep)
    else row.(decision := Removed)
  }

  /** The devices seen below the stop line before row k. */
  function RelievedBefore(rows: seq<Row>, looks: seq<Look>, k: nat): set<nat>
    requires |rows| == |looks| && k <= |rows|
  {
    if k == 0 then {} else RelievedBy(RelievedBefore(rows, looks, k - 1), rows[k - 1], looks[k - 1])
  }

  /** A reading at or before row k found this device below the stop line. */
  ghost predicate SeenBelow(rows: seq<Row>, looks: seq<Look>, k: nat, dev: nat)
    requires |rows| == |looks| && k < |rows|
  {
    exists j :: 0 <= j <= k && rows[j].base.dev == dev && rows[j].base.pressure && looks[j].inTime && looks[j].below
  }

  lemma {:induction false} RelievedIsSeenBelow(rows: seq<Row>, looks: seq<Look>, k: nat, dev: nat)
    requires |rows| == |looks| && k < |rows|
    ensures dev in RelievedBefore(rows, looks, k + 1) <==> SeenBelow(rows, looks, k, dev)
    decreases k
  {
    if k > 0 {
      RelievedIsSeenBelow(rows, looks, k - 1, dev);
      if SeenBelow(rows, looks, k, dev) && !SeenBelow(rows, looks, k - 1, dev) {
        assert rows[k].base.dev == dev && rows[k].base.pressure && looks[k].inTime && looks[k].below;
      }
    }
  }

  /** The rows after the loop. */
  function ApplyAt(rows: seq<Row>, looks: seq<Look>, k: nat): Row
    requires |rows| == |looks| && k < |rows|
  {
    Applied(RelievedBefore(rows, looks, k + 1), rows[k], looks[k])
  }

  /** apply: walks the eligible rows in order, carrying the relieved devices. */
  method Apply(rows: seq<Row>, looks: seq<Look>, refused: bool) returns (after: seq<Row>)
    requires |rows| == |looks|
    ensures |after| == |rows|
    ensures refused ==> after == rows
    ensures !refused ==> forall k :: 0 <= k < |rows| ==> after[k] == ApplyAt(rows, looks, k)
  {
    after := rows;
    if refused {
      return;
    }
    var relieved: set<nat> := {};
    for k := 0 to |rows|
      invariant |after| == |rows| && relieved == RelievedBefore(rows, looks, k)
      invariant forall j :: 0 <= j < k ==> after[j] == ApplyAt(rows, looks, j)
      invariant forall j :: k <= j < |rows| ==> after[j] == rows[j]
    {
      var row, look := after[k], looks[k];
      if !look.inTime {
        after := after[k := row.(decision := Deferred)];
        continue;
      }
      if row.base.pressure {
        if row.base.dev in relieved || look.below {
          relieved := relieved + {row.base.dev};
          if row.idle <= row.normal {
            after := after[k := row.(decision := Keep)];
            continue;
          }
        }
      }
      var limit := row.window;
      if row.base.dev in relieved {
        limit := row.normal;
      }
      if look.use.None? || look.now - look.use.value <= limit {
        row := row.(decision := Keep);
        row := row.(lastUse := look.use, recent := look.use.Some?);
        after := after[k := row];
        continue;
      }
      if !look.measured {
        after := after[k := row.(decision := Keep)];
        continue;
      }
      row := row.(decision := if look.removes then Removed else Keep);
      after := after[k := row];
    }
  }

  /** The base as the removal loop sees it: pressure no longer counts once its device was seen
      below the stop line. */
  ghost function Seen(rows: seq<Row>, looks: seq<Look>, k: nat, b: Base): Base
    requires |rows| == |looks| && k < |rows|
  {
    b.(pressure := b.pressure && !SeenBelow(rows, looks, k, b.dev))
  }

  /** The loop removes an eligible base if and only if it comes to it in time, the base is
      measured, removeTree removes it, and it is old enough at its last check; a base whose
      pressure was relieved must have been old enough without it at discovery as well. */
  lemma RemovedExactly(c: Config, rows: seq<Row>, looks: seq<Look>, k: nat, decidedAt: Time, b: Base)
    requires Accepted(c) && |rows| == |looks| && k < |rows|
    requires rows[k] == Decide(c, decidedAt, b) && rows[k].decision == Eligible
    ensures var look, seen := looks[k], Seen(rows, looks, k, b);
      ApplyAt(rows, looks, k).decision == Removed <==>
      && look.inTime && look.measured && look.removes
      && look.use.Some? && OldEnough(c, seen, look.now - look.use.value)
      && (seen != b ==> OldEnough(c, seen, decidedAt - b.lastUse.value))
  {
    RelievedIsSeenBelow(rows, looks, k, b.dev);
    var look := looks[k];
    LimitsAre(c, decidedAt, b, decidedAt - b.lastUse.value);
    if look.use.Some? {
      LimitsAre(c, decidedAt, b, look.now - look.use.value);
    }
  }

  /** A base used again since discovery is kept, and the next early walk counts from that use. */
  lemma UsedAgainIsNoted(c: Config, rows: seq<Row>, looks: seq<Look>, k: nat, decidedAt: Time, b: Base)
    requires Accepted(c) && |rows| == |looks| && k < |rows|
    requires rows[k] == Decide(c, decidedAt, b) && rows[k].decision == Eligible
    requires looks[k].inTime && Seen(rows, looks, k, b) == b
    requires looks[k].use.Some? && !OldEnough(c, b, looks[k].now - looks[k].use.value)
    ensures var row := ApplyAt(rows, looks, k);
      row.decision == Keep && row.recent && row.lastUse == looks[k].use
  {
    RelievedIsSeenBelow(rows, looks, k, b.dev);
    LimitsAre(c, decidedAt, b, looks[k].now - looks[k].use.value);
  }

  /** For every accepted configuration, every base the loop removes was idle at its last check
      for more than 2h; for more than 12h if its device was not under pressure or had been seen
      below the stop line by then; and for more than bases_only_idle_after inside a bases-only root. */
  lemma RemovedBasesWereIdle(c: Config, rows: seq<Row>, looks: seq<Look>, k: nat, decidedAt: Time, b: Base)
    requires Accepted(c) && |rows| == |looks| && k < |rows|
    requires rows[k] == Decide(c, decidedAt, b) && rows[k].decision == Eligible
    requires ApplyAt(rows, looks, k).decision == Removed
    ensures !b.keep && looks[k].inTime && looks[k].measured && looks[k].removes && looks[k].use.Some?
    ensures var idle := looks[k].now - looks[k].use.value;
      && idle > MIN_PRESSURE_IDLE
      && (!b.pressure || SeenBelow(rows, looks, k, b.dev) ==> idle > MIN_IDLE)
      && (b.basesOnly ==> idle > c.basesOnlyIdle.d)
  {
    DecideHasFloors(c, decidedAt, b);
    EligibleExactly(c, decidedAt, b);
    RelievedIsSeenBelow(rows, looks, k, b.dev);
  }
}
