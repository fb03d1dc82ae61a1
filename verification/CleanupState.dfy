/** The persisted cleanup state (state.go) and the policy values a cycle resolves
    from the configuration (main.go). */
module CleanupState {
  import opened Common
  import opened Backoff

  /** none 0, warning 1, moderate 2, aggressive 3, critical 4. */
  type Level = l: int | 0 <= l <= 4

  const LEVEL_NONE: Level := 0
  const LEVEL_MODERATE: Level := 2

  // ------------------------------------------------------------------- policy

  /** The policy section. None stands for a duration that is unset or does not parse. */
  datatype Config = Config(
    cooldown: Option<Duration64>,
    bypassLevel: Level,
    minimumFreeGB: int,
    emergencyFreeGB: int,
    byteNoProgressLimit: int,
    byteProgressMinMB: int,
    byteBackoffMax: Option<Duration64>,
    inodeNoProgressLimit: int,
    zeroYieldLimit: int,
    zeroYieldBase: Option<Duration64>,
    zeroYieldMax: Option<Duration64>,
    zeroYieldPressureMin: Option<Duration64>,
    exemptPlugins: set<string>)

  /** The digest hashes the binary version and the whole configuration; it is only
      ever compared for equality, so the model keeps what is hashed. */
  datatype Digest = Digest(version: string, config: Config)

  const GIB := 1024 * 1024 * 1024

  function Cooldown(c: Config): (d: Duration)
    ensures d >= 0
  {
    if c.cooldown.Some? && c.cooldown.value >= 0 then c.cooldown.value else 0
  }

  function MinimumFree(c: Config): nat {
    if c.minimumFreeGB <= 0 then 0 else c.minimumFreeGB * GIB
  }

  function EmergencyFree(c: Config): nat {
    if c.emergencyFreeGB <= 0 then 0 else c.emergencyFreeGB * GIB
  }

  /** Zero uses the default of 3; a negative value disables byte backoff. */
  function ByteLimit(c: Config): int {
    if c.byteNoProgressLimit == 0 then 3 else c.byteNoProgressLimit
  }

  function InodeLimit(c: Config): int {
    if c.inodeNoProgressLimit > 0 then c.inodeNoProgressLimit else 3
  }

  function ByteProgressMin(c: Config): int {
    (if c.byteProgressMinMB > 0 then c.byteProgressMinMB else 256) * 1024 * 1024
  }

  function PositiveOr(d: Option<Duration64>, fallback: Duration64): Duration64 {
    if d.Some? && d.value > 0 then d.value else fallback
  }

  function ByteBackoffMax(c: Config): (d: Duration64)
    ensures d > 0
  {
    PositiveOr(c.byteBackoffMax, 30 * MINUTE)
  }

  /** The first interval once byte backoff engages: the cooldown capped at
      byte_backoff_max, or the cap itself with no cooldown. */
  function ByteBackoffInterval(c: Config): (d: Duration)
    ensures 0 < d <= ByteBackoffMax(c)
  {
    if Cooldown(c) <= 0 || Cooldown(c) > ByteBackoffMax(c) then ByteBackoffMax(c) else Cooldown(c)
  }

  function ResolveZeroYield(c: Config): (p: ZeroYieldPolicy)
    ensures 0 <= p.limit && 0 < p.base <= p.max && 5 * MINUTE <= p.pressureMin
    ensures p.limit == 0 <==> c.zeroYieldLimit < 0
  {
    var base := PositiveOr(c.zeroYieldBase, 30 * MINUTE);
    var max := PositiveOr(c.zeroYieldMax, 6 * HOUR);
    ZeroYieldPolicy(
      if c.zeroYieldLimit < 0 then 0 else if c.zeroYieldLimit > 0 then c.zeroYieldLimit else 2,
      base,
      Max(max, base),
      Max(PositiveOr(c.zeroYieldPressureMin, HOUR), 5 * MINUTE))
  }

  // -------------------------------------------------------------------- values

  /** lastRun and suppressedUntil are whole-second timestamps; None is an empty string. */
  datatype PluginRecord = PluginRecord(
    lastRun: Option<Time>,
    lastLevel: int,
    zeroYieldCount: int,
    suppressedUntil: Option<Time>,
    digest: Option<Digest>)

  datatype ByteRecord = ByteRecord(lastLevel: int, noProgress: int, engaged: bool)

  datatype StateValue = StateValue(
    plugins: map<string, PluginRecord>,
    inodes: map<string, int>,
    bytes: map<string, ByteRecord>)

  const FRESH := StateValue(map[], map[], map[])
  const NO_RECORD := PluginRecord(None, 0, 0, None, None)
  const NO_BYTES := ByteRecord(0, 0, false)

  function PluginOf(s: StateValue, name: string): PluginRecord {
    if name in s.plugins then s.plugins[name] else NO_RECORD
  }

  function BytesOf(s: StateValue, path: string): ByteRecord {
    if path in s.bytes then s.bytes[path] else NO_BYTES
  }

  function InodesOf(s: StateValue, path: string): int {
    if path in s.inodes then s.inodes[path] else 0
  }

  /** recordPluginRun keeps the zero-yield fields. */
  function RanRecord(r: PluginRecord, level: Level, now: Time): PluginRecord {
    r.(lastRun := Some(Stamp(now)), lastLevel := level)
  }

  /** recordPluginYield. */
  function YieldRecord(r: PluginRecord, zeroYield: bool, now: Time, digest: Digest,
                       p: ZeroYieldPolicy, suppressible: bool): PluginRecord {
    var start := if r.digest == Some(digest) then r.zeroYieldCount else 0;
    if !zeroYield || p.limit <= 0 then
      r.(zeroYieldCount := 0, suppressedUntil := None, digest := Some(digest))
    else
      var interval := ZeroYieldInterval(start + 1, p);
      r.(zeroYieldCount := start + 1,
         suppressedUntil := if suppressible && interval > 0 then Some(Stamp(now + interval)) else None,
         digest := Some(digest))
  }

  /** recordByteProgress on one record. */
  function ByteRecorded(r: ByteRecord, level: int, progress: bool, ran: bool, engaged: bool): ByteRecord {
    var start := if level > r.lastLevel then 0 else r.noProgress;
    ByteRecord(level, if progress then 0 else if ran then start + 1 else start, engaged)
  }

  /** cooldownRemaining. */
  function CooldownRemaining(r: PluginRecord, level: Level, now: Time, cooldown: Duration): Duration {
    if cooldown <= 0 || r.lastLevel < level || r.lastRun.None? then 0
    else Max(cooldown - Max(now - r.lastRun.value, 0), 0)
  }

  datatype Lift = LevelRose | ConfigChanged | OperatorRun | SafetyCritical | ExemptPlugin
                | FreeUnknown | BelowEmergencyFloor | MountPressure

  datatype Suppression = Clear(lifted: Option<Lift>) | Suppressed(until: Time)

  /** zeroYieldSuppression. */
  function SuppressionOf(r: PluginRecord, level: Level, now: Time, digest: Digest): Suppression {
    if r.suppressedUntil.None? || now >= r.suppressedUntil.value then Clear(None)
    else if level > r.lastLevel then Clear(Some(LevelRose))
    else if r.digest != Some(digest) then Clear(Some(ConfigChanged))
    else Suppressed(r.suppressedUntil.value)
  }

  /** pluginLastRun. */
  function LastRun(r: PluginRecord): Time {
    if r.lastRun.Some? then r.lastRun.value else ZERO_TIME
  }

  /** liftZeroYieldSuppression keeps the counts. */
  function Lifted(s: StateValue): StateValue {
    s.(plugins := map n | n in s.plugins :: s.plugins[n].(suppressedUntil := None))
  }

  /** byteNoProgressCount: a level above the recorded one earns a fresh attempt. */
  function ByteNoProgressCount(s: StateValue, path: string, level: int): int {
    if path == "" || path !in s.bytes || level > s.bytes[path].lastLevel then 0
    else s.bytes[path].noProgress
  }

  // --------------------------------------------------------- the state in memory

  /** The object one cycle loads, updates in place and saves. */
  class Memory {
    var plugins: map<string, PluginRecord>
    var inodes: map<string, int>
    var bytes: map<string, ByteRecord>

    ghost function Value(): StateValue
      reads this
    {
      StateValue(plugins, inodes, bytes)
    }

    constructor (s: StateValue)
      ensures Value() == s
    {
      plugins, inodes, bytes := s.plugins, s.inodes, s.bytes;
    }

    function Record(name: string): (r: PluginRecord)
      reads this
      ensures r == PluginOf(Value(), name)
    {
      if name in plugins then plugins[name] else NO_RECORD
    }

    method RecordPluginRun(name: string, level: Level, now: Time)
      modifies this`plugins
      ensures Value() == old(Value()).(plugins := old(plugins)[name := RanRecord(old(PluginOf(Value(), name)), level, now)])
    {
      var record := Record(name);
      record := record.(lastRun := Some(Stamp(now)));
      record := record.(lastLevel := level);
      plugins := plugins[name := record];
    }

    method RecordPluginYield(name: string, zeroYield: bool, now: Time, digest: Digest,
                             p: ZeroYieldPolicy, suppressible: bool) returns (record: PluginRecord)
      modifies this`plugins
      ensures record == YieldRecord(old(PluginOf(Value(), name)), zeroYield, now, digest, p, suppressible)
      ensures Value() == old(Value()).(plugins := old(plugins)[name := record])
    {
      record := Record(name);
      if record.digest != Some(digest) {
        record := record.(zeroYieldCount := 0);
      }
      record := record.(digest := Some(digest), suppressedUntil := None);
      if !zeroYield || p.limit <= 0 {
        record := record.(zeroYieldCount := 0);
      } else {
        record := record.(zeroYieldCount := record.zeroYieldCount + 1);
        var interval := ZeroYieldBackoff(record.zeroYieldCount, p);
        if suppressible && interval > 0 {
          record := record.(suppressedUntil := Some(Stamp(now + interval)));
        }
      }
      plugins := plugins[name := record];
    }

    method LiftZeroYieldSuppression() returns (lifted: bool)
      modifies this`plugins
      ensures Value() == Lifted(old(Value()))
      ensures lifted <==> exists n :: n in old(plugins) && old(plugins)[n].suppressedUntil.Some?
    {
      lifted := false;
      var todo := plugins.Keys;
      while todo != {}
        invariant todo <= plugins.Keys == old(plugins).Keys
        invariant forall n :: n in todo ==> plugins[n] == old(plugins)[n]
        invariant forall n :: n in plugins && n !in todo ==> plugins[n] == old(plugins)[n].(suppressedUntil := None)
        invariant lifted <==> exists n :: n in old(plugins) && n !in todo && old(plugins)[n].suppressedUntil.Some?
        decreases todo
      {
        var name :| name in todo;
        var record := plugins[name];
        todo := todo - {name};
        if record.suppressedUntil.None? {
          continue;
        }
        plugins := plugins[name := record.(suppressedUntil := None)];
        lifted := true;
      }
      assert plugins == Lifted(old(Value())).plugins;
    }

    method RecordInodeProgress(path: string, improved: bool)
      modifies this`inodes
      ensures Value() == old(Value()).(inodes :=
                if path == "" then old(inodes)
                else old(inodes)[path := if improved then 0 else InodesOf(old(Value()), path) + 1])
    {
      if path == "" {
        return;
      }
      var count := if path in inodes then inodes[path] else 0;
      count := if improved then 0 else count + 1;
      inodes := inodes[path := count];
    }

    method RecordByteProgress(path: string, level: int, progress: bool, ran: bool, engaged: bool)
      modifies this`bytes
      ensures Value() == old(Value()).(bytes :=
                if path == "" then old(bytes)
                else old(bytes)[path := ByteRecorded(BytesOf(old(Value()), path), level, progress, ran, engaged)])
    {
      if path == "" {
        return;
      }
      var record := if path in bytes then bytes[path] else NO_BYTES;
      if level > record.lastLevel {
        record := record.(noProgress := 0);
      }
      if progress {
        record := record.(noProgress := 0);
      } else if ran {
        record := record.(noProgress := record.noProgress + 1);
      }
      record := record.(lastLevel := level, engaged := engaged);
      bytes := bytes[path := record];
    }
  }
}
