/** One cleanup cycle of the daemon: runCycle in main.go with its gates, the
    level-independent plugins, and what the cycle folds back into the state. */
module Governor {
  import opened Common
  import opened Backoff
  import opened CleanupState

  datatype Plugin = Plugin(name: string, levelIndependent: bool, safetyCritical: bool, planner: bool)

  datatype RunResult = RunResult(bytesFreed: int, itemsCleaned: int, failed: bool)

  /** What the watchdog reports about one plugin run. */
  datatype Watch = Finished(result: RunResult) | Cancelled(result: RunResult) | Abandoned | Wedged

  /** One measurement of the monitored path, with the levels it is assessed at. */
  datatype Stats = Stats(free: nat, total: nat, inodesTotal: nat, inodesFree: nat, byteLevel: Level, inodeLevel: Level)

  /** One enabled plugin, how its run would go, and what a measurement right after it would read. */
  datatype Slot = Slot(plugin: Plugin, watch: Watch, after: Option<Stats>)

  datatype Mount = Mount(failed: bool, level: Level)

  /** The state file: read back, absent or quarantined (fresh state), or unreadable. */
  datatype Load = LoadSaved | LoadFresh | LoadFailed

  /** Everything a cycle observes of the world, apart from its plugins. */
  datatype Input = Input(
    now: Time,
    forced: Level,
    assessed: Level,
    maxInodeLevel: Level,
    mounts: seq<Mount>,
    monitorPath: string,
    targetUsed: int,
    dryRun: bool,
    filtered: bool,
    before: Option<Stats>,
    final: Option<Stats>,
    load: Load,
    saveOk: bool,
    version: string,
    config: Config)

  datatype SkipReason = TargetFreeMet | ZeroYieldHeld | CooldownHeld | ByteBackoffHeld | DryRun | PluginWedged

  datatype Entry = Entry(
    name: string,
    levelIndependent: bool,
    wouldRun: bool,
    ran: bool,
    skip: Option<SkipReason>,
    bytesFreed: int,
    itemsCleaned: int,
    failed: bool,
    lifted: Option<Lift>,
    zeroYieldCount: int,
    suppressedUntil: Option<Time>,
    retryAt: Option<Time>)

  datatype Report = Report(
    freeError: bool,
    freeDelta: int,
    byteLevelAfter: Level,
    inodeLevel: Level,
    inodesTotal: nat,
    inodesDelta: int,
    minimumMet: bool,
    targetMet: bool,
    stopped: bool,
    entries: seq<Entry>,
    totalFreed: int,
    totalItems: int,
    ladderFreed: int)

  const EMPTY_REPORT := Report(false, 0, 0, 0, 0, 0, false, false, false, [], 0, 0, 0)

  /** The report, the state in memory, and whether it must be saved. */
  datatype Progress = Progress(report: Report, state: StateValue, dirty: bool)

  // ------------------------------------------------------------------ measuring

  /** The free bytes the target asks for, in 64-bit unsigned arithmetic. */
  function TargetFree(total: nat, used: int): Option<nat> {
    if total == 0 || used <= 0 || used >= 100 then None
    else Some(total * (100 - used) % TWO64 / 100)
  }

  /** updateTargetFreeStatus. */
  function TargetStatus(i: Input, r: Report, s: Stats): Report {
    var r1 := if MinimumFree(i.config) > 0 then r.(minimumMet := s.free >= MinimumFree(i.config)) else r;
    var target := TargetFree(s.total, i.targetUsed);
    if target.None? then r1 else r1.(targetMet := s.free >= target.value)
  }

  /** A reading after cleanup, with its distance from the reading before it. */
  function Reading(i: Input, r: Report, s: Stats): Report {
    var r1 := r.(byteLevelAfter := s.byteLevel, inodeLevel := s.inodeLevel, inodesTotal := s.inodesTotal);
    if i.before.None? then r1
    else r1.(freeDelta := s.free - i.before.value.free, inodesDelta := s.inodesFree - i.before.value.inodesFree)
  }

  /** updateHostFreeAfter: a failed measurement marks the cycle and keeps the last reading. */
  function Measured(i: Input, r: Report, m: Option<Stats>): Report {
    if m.None? then r.(freeError := true) else TargetStatus(i, Reading(i, r, m.value), m.value)
  }

  /** The report before any plugin: the measurement taken first. */
  function Opening(i: Input): Report {
    match i.before
    case None => EMPTY_REPORT.(freeError := true)
    case Some(s) =>
      TargetStatus(i, EMPTY_REPORT.(inodesTotal := s.inodesTotal, inodeLevel := s.inodeLevel), s)
  }

  function TargetMet(i: Input, r: Report): bool {
    r.targetMet && i.maxInodeLevel == LEVEL_NONE
  }

  // ---------------------------------------------------------------- the loaded cycle

  function LevelOf(i: Input): Level {
    if i.forced == LEVEL_NONE then i.assessed else i.forced
  }

  predicate Forced(i: Input) {
    i.forced != LEVEL_NONE
  }

  /** A dry run never reads the state file. */
  predicate StateOk(i: Input) {
    i.dryRun || i.load != LoadFailed
  }

  /** The state file's content after the load: a quarantined file is gone. */
  function OnDisk(s: StateValue, i: Input): StateValue {
    if !i.dryRun && i.load == LoadFresh then FRESH else s
  }

  function Loaded(s: StateValue, i: Input): StateValue {
    if i.dryRun then FRESH else OnDisk(s, i)
  }

  function ByteLevel(i: Input): Level {
    if i.before.Some? then i.before.value.byteLevel else LEVEL_NONE
  }

  function ByteCount(s: StateValue, i: Input): int {
    if StateOk(i) && i.before.Some? then ByteNoProgressCount(s, i.monitorPath, ByteLevel(i)) else 0
  }

  predicate BelowFloor(i: Input) {
    EmergencyFree(i.config) > 0 && (if i.before.Some? then i.before.value.free else 0) < EmergencyFree(i.config)
  }

  /** byteBackoffActive, for a cycle that is neither forced nor dry. */
  predicate ByteBackoffOn(s: StateValue, i: Input) {
    && !Forced(i) && !i.dryRun && StateOk(i)
    && ByteLimit(i.config) > 0
    && ByteLevel(i) != LEVEL_NONE
    && ByteCount(s, i) >= ByteLimit(i.config)
    && !BelowFloor(i)
  }

  /** inodeBackoffActive, for a cycle that is not forced and has a cooldown. */
  predicate InodeBackoffOn(s: StateValue, i: Input) {
    && !Forced(i) && Cooldown(i.config) > 0
    && Opening(i).inodeLevel >= i.config.bypassLevel
    && ByteLevel(i) < i.config.bypassLevel
    && (if StateOk(i) then InodesOf(s, i.monitorPath) else 0) >= InodeLimit(i.config)
  }

  // ------------------------------------------------------------------------ gates

  /** shouldApplyCooldown. s is the state the cycle loaded. */
  predicate CooldownApplies(s: StateValue, i: Input, r: Report) {
    && !(MinimumFree(i.config) > 0 && !r.minimumMet)
    && !i.dryRun && !Forced(i) && Cooldown(i.config) > 0
    && (LevelOf(i) >= i.config.bypassLevel ==> InodeBackoffOn(s, i))
  }

  /** The interval of the engaged byte backoff. */
  function EngagedInterval(s: StateValue, i: Input): Duration {
    ByteIntervalFor(ByteBackoffInterval(i.config), ByteBackoffMax(i.config), ByteCount(s, i) - ByteLimit(i.config))
  }

  /** pluginCooldown. */
  function PluginCooldown(s: StateValue, i: Input, r: Report): Option<(Duration, SkipReason)> {
    if CooldownApplies(s, i, r) then Some((Cooldown(i.config), CooldownHeld))
    else if ByteBackoffOn(s, i) then Some((EngagedInterval(s, i), ByteBackoffHeld))
    else None
  }

  function PermanentExemption(i: Input, p: Plugin): Option<Lift> {
    if p.safetyCritical then Some(SafetyCritical)
    else if p.name in i.config.exemptPlugins then Some(ExemptPlugin)
    else None
  }

  predicate PressuredMount(i: Input) {
    exists m | m in i.mounts :: !m.failed && m.level >= LEVEL_MODERATE
  }

  /** zeroYieldExemption. */
  function Exemption(i: Input, p: Plugin): Option<Lift> {
    if Forced(i) || i.dryRun || i.filtered then Some(OperatorRun)
    else if PermanentExemption(i, p).Some? then PermanentExemption(i, p)
    else if i.before.None? then Some(FreeUnknown)
    else if BelowFloor(i) then Some(BelowEmergencyFloor)
    else if PressuredMount(i) then Some(MountPressure)
    else None
  }

  function DigestOf(i: Input): Digest {
    Digest(i.version, i.config)
  }

  /** count and lifted are what the zero-yield gate leaves in the report entry. */
  datatype Verdict = Hold(reason: SkipReason, count: int, lifted: Option<Lift>, retryAt: Option<Time>)
                   | Admit(count: int, lifted: Option<Lift>)

  /** The zero-yield gate for a plugin whose record is rec. */
  function ZeroYieldGate(i: Input, p: Plugin, rec: PluginRecord): Verdict {
    var policy := ResolveZeroYield(i.config);
    if !StateOk(i) || policy.limit <= 0 then Admit(0, None)
    else match SuppressionOf(rec, LevelOf(i), i.now, DigestOf(i))
      case Clear(lifted) => if lifted.None? then Admit(0, None) else Admit(rec.zeroYieldCount, lifted)
      case Suppressed(until) =>
        var exempt := Exemption(i, p);
        var next := LastRun(rec) + policy.pressureMin;
        if exempt == Some(MountPressure) && i.now < next then
          Hold(ZeroYieldHeld, rec.zeroYieldCount, None, Some(Stamp(Min(next, until))))
        else if exempt.Some? then Admit(rec.zeroYieldCount, exempt)
        else Hold(ZeroYieldHeld, rec.zeroYieldCount, None, Some(Stamp(until)))
  }

  /** The cooldown or byte-backoff gate. */
  function CooldownGate(s: StateValue, i: Input, r: Report, rec: PluginRecord): Option<(SkipReason, Time)> {
    var cooldown := PluginCooldown(s, i, r);
    if !StateOk(i) || cooldown.None? then None
    else
      var remaining := CooldownRemaining(rec, LevelOf(i), i.now, cooldown.value.0);
      if remaining > 0 then Some((cooldown.value.1, Stamp(i.now + remaining))) else None
  }

  /** Every gate a ladder plugin passes, in order. s is the loaded state, rec the
      plugin's record in memory now. */
  function Gate(s: StateValue, i: Input, r: Report, p: Plugin, rec: PluginRecord): Verdict {
    if !i.dryRun && TargetMet(i, r) then Hold(TargetFreeMet, 0, None, None)
    else match ZeroYieldGate(i, p, rec)
      case Hold(reason, count, lifted, retryAt) => Hold(reason, count, lifted, retryAt)
      case Admit(count, lifted) =>
        match CooldownGate(s, i, r, rec)
        case Some(held) => Hold(held.0, count, lifted, Some(held.1))
        case None => Admit(count, lifted)
  }

  // ------------------------------------------------------------------ one plugin

  function Blank(p: Plugin): Entry {
    Entry(p.name, p.levelIndependent, true, false, None, 0, 0, false, None, 0, None, None)
  }

  function Appended(r: Report, e: Entry): Report {
    r.(entries := r.entries + [e])
  }

  function RunFailed(w: Watch): bool
    requires w.Finished? || w.Cancelled?
  {
    w.Cancelled? || w.result.failed
  }

  predicate Productive(w: Watch) {
    && (w.Finished? || w.Cancelled?) && !RunFailed(w)
    && (w.result.bytesFreed > 0 || w.result.itemsCleaned > 0)
  }

  /** The entry of a plugin that was started: dry is only ever planned. */
  function StartedEntry(dry: bool, e: Entry, w: Watch, planner: bool): Entry {
    if dry then
      if planner && w.Wedged? then e.(wouldRun := false, skip := Some(PluginWedged)) else e.(skip := Some(DryRun))
    else match w
      case Wedged => e.(wouldRun := false, skip := Some(PluginWedged))
      case Abandoned => e.(ran := true, failed := true)
      case Finished(x) => e.(ran := true, bytesFreed := x.bytesFreed, itemsCleaned := x.itemsCleaned, failed := RunFailed(w))
      case Cancelled(x) => e.(ran := true, bytesFreed := x.bytesFreed, itemsCleaned := x.itemsCleaned, failed := RunFailed(w))
  }

  /** runLevelIndependentPlugin: never gated, never recorded. */
  function LevelIndependentStep(i: Input, r: Report, slot: Slot): Report {
    var r1 := Appended(r, StartedEntry(i.dryRun, Blank(slot.plugin), slot.watch, slot.plugin.planner));
    if !i.dryRun && Productive(slot.watch) then
      r1.(totalFreed := r1.totalFreed + slot.watch.result.bytesFreed,
          totalItems := r1.totalItems + slot.watch.result.itemsCleaned)
    else r1
  }

  /** The plugin's record after recordRun. */
  function RunRecord(i: Input, p: Plugin, rec: PluginRecord, bytesFreed: int): PluginRecord {
    YieldRecord(RanRecord(rec, LevelOf(i), i.now), bytesFreed < ByteProgressMin(i.config), i.now,
                DigestOf(i), ResolveZeroYield(i.config), PermanentExemption(i, p).None?)
  }

  /** The totals after a run that freed something. */
  function Credited(r: Report, w: Watch): Report {
    if !Productive(w) then r
    else r.(totalFreed := r.totalFreed + w.result.bytesFreed,
            totalItems := r.totalItems + w.result.itemsCleaned,
            ladderFreed := r.ladderFreed + w.result.bytesFreed)
  }

  /** Folding a ladder run back: its record, its entry, its bytes, then a measurement
      unless it failed. */
  function RunFolded(i: Input, g: Progress, slot: Slot, started: Entry, rec: PluginRecord): Progress {
    var entry := if StateOk(i)
                 then started.(zeroYieldCount := rec.zeroYieldCount, suppressedUntil := rec.suppressedUntil)
                 else started;
    var state := if StateOk(i) then g.state.(plugins := g.state.plugins[slot.plugin.name := rec]) else g.state;
    var r := Credited(Appended(g.report, entry), slot.watch);
    Progress(if entry.failed then r else Measured(i, r, slot.after), state, g.dirty || StateOk(i))
  }

  /** A ladder plugin that passed its gates. */
  function Admitted(i: Input, g: Progress, slot: Slot, e: Entry): Progress {
    var started := StartedEntry(i.dryRun, e, slot.watch, slot.plugin.planner);
    if !started.ran then g.(report := Appended(g.report, started))
    else RunFolded(i, g, slot, started, RunRecord(i, slot.plugin, PluginOf(g.state, slot.plugin.name), started.bytesFreed))
  }

  /** A ladder plugin with the verdict of its gates. */
  function LadderStep(i: Input, g: Progress, slot: Slot, v: Verdict): Progress {
    match v
    case Hold(reason, count, lifted, retryAt) =>
      var r := if reason == TargetFreeMet then g.report.(stopped := true) else g.report;
      g.(report := Appended(r, Blank(slot.plugin).(wouldRun := false, skip := Some(reason), zeroYieldCount := count,
                                                   lifted := lifted, retryAt := retryAt)))
    case Admit(count, lifted) =>
      Admitted(i, g, slot, Blank(slot.plugin).(zeroYieldCount := count, lifted := lifted))
  }

  /** One iteration of the plugin loop. s is the loaded state. */
  function Step(s: StateValue, i: Input, g: Progress, slot: Slot): Progress {
    var p := slot.plugin;
    if p.levelIndependent then
      g.(report := Measured(i, LevelIndependentStep(i, g.report, slot), slot.after))
    else
      LadderStep(i, g, slot, Gate(s, i, g.report, p, PluginOf(g.state, p.name)))
  }

  function Steps(s: StateValue, i: Input, g: Progress, slots: seq<Slot>): Progress
    decreases |slots|
  {
    if slots == [] then g
    else Step(s, i, Steps(s, i, g, slots[..|slots| - 1]), slots[|slots| - 1])
  }

  // ------------------------------------------------------------------- the cycle

  predicate AnyLadderRan(entries: seq<Entry>) {
    exists e | e in entries :: e.ran && !e.levelIndependent
  }

  /** byteProgressMade. */
  predicate ByteProgressMade(i: Input, r: Report) {
    || ByteLevel(i) == LEVEL_NONE
    || r.byteLevelAfter < ByteLevel(i)
    || r.ladderFreed >= ByteProgressMin(i.config)
    || (AnyLadderRan(r.entries) && r.freeDelta >= ByteProgressMin(i.config))
  }

  /** One recorded observation of byte progress. */
  datatype ByteEvent = ByteEvent(level: Level, progress: bool, ran: bool, engaged: bool)

  /** What a pressure cycle records about the bytes of its path, if anything. s is the loaded state. */
  function ByteEventOf(s: StateValue, i: Input, r: Report): Option<ByteEvent> {
    if i.dryRun || !StateOk(i) || i.before.None? || r.freeError || i.monitorPath == "" then None
    else if ByteLevel(i) == LEVEL_NONE && !BytesOf(s, i.monitorPath).engaged && BytesOf(s, i.monitorPath).noProgress <= 0 then None
    else Some(ByteEvent(ByteLevel(i), ByteProgressMade(i, r), AnyLadderRan(r.entries),
                        ByteBackoffOn(s, i) || (Forced(i) && BytesOf(s, i.monitorPath).engaged)))
  }

  /** What a cycle with no pressure records: progress, to release backoff. */
  function QuietEventOf(s: StateValue, i: Input): Option<ByteEvent> {
    if i.dryRun || !StateOk(i) || i.before.None? || i.monitorPath == "" then None
    else if BytesOf(s, i.monitorPath).engaged || BytesOf(s, i.monitorPath).noProgress > 0
    then Some(ByteEvent(LEVEL_NONE, true, false, false))
    else None
  }

  function ApplyByteEvent(s: StateValue, path: string, e: Option<ByteEvent>): StateValue {
    if e.None? then s
    else s.(bytes := s.bytes[path := ByteRecorded(BytesOf(s, path), e.value.level, e.value.progress, e.value.ran, e.value.engaged)])
  }

  /** The inode record of the path at the end of a pressure cycle. */
  function InodeEventOf(s: StateValue, i: Input, r: Report): Option<bool> {
    if i.dryRun || !StateOk(i) || r.inodesTotal == 0 then None
    else if i.maxInodeLevel != LEVEL_NONE then Some(r.inodesDelta > 0 || r.inodeLevel == LEVEL_NONE)
    else if i.monitorPath != "" && InodesOf(s, i.monitorPath) > 0 then Some(true)
    else None
  }

  function ApplyInodeEvent(s: StateValue, path: string, improved: Option<bool>): StateValue {
    if improved.None? || path == "" then s
    else s.(inodes := s.inodes[path := if improved.value then 0 else InodesOf(s, path) + 1])
  }

  /** The level-independent plugins of a cycle with no pressure. */
  function QuietSteps(i: Input, r: Report, slots: seq<Slot>): Report {
    if slots == [] then r
    else
      var r1 := QuietSteps(i, r, slots[..|slots| - 1]);
      if slots[|slots| - 1].plugin.levelIndependent then LevelIndependentStep(i, r1, slots[|slots| - 1]) else r1
  }

  predicate AnySuppressed(s: StateValue) {
    exists n | n in s.plugins :: s.plugins[n].suppressedUntil.Some?
  }

  function QuietCycle(s: StateValue, i: Input, slots: seq<Slot>): Progress {
    var e := QuietEventOf(s, i);
    var recorded := ApplyByteEvent(s, i.monitorPath, e);
    var lifts := !i.dryRun && StateOk(i) && AnySuppressed(s);
    Progress(QuietSteps(i, Opening(i), slots), if lifts then Lifted(recorded) else recorded, e.Some? || lifts)
  }

  /** The pressure cycle up to the last measurement. */
  function PluginPhase(s: StateValue, i: Input, slots: seq<Slot>): Progress {
    var g := Steps(s, i, Progress(Opening(i), s, false), slots);
    g.(report := Measured(i, g.report, i.final))
  }

  function PressureCycle(s: StateValue, i: Input, slots: seq<Slot>): Progress {
    var g := PluginPhase(s, i, slots);
    var improved := InodeEventOf(s, i, g.report);
    var e := ByteEventOf(s, i, g.report);
    Progress(g.report,
             ApplyByteEvent(ApplyInodeEvent(g.state, i.monitorPath, improved), i.monitorPath, e),
             g.dirty || improved.Some? || e.Some?)
  }

  /** A whole cycle from the state file's content. */
  function Cycle(s: StateValue, i: Input, slots: seq<Slot>): Progress {
    if LevelOf(i) == LEVEL_NONE then QuietCycle(Loaded(s, i), i, slots) else PressureCycle(Loaded(s, i), i, slots)
  }

  /** The state file's content after the cycle. */
  function Persisted(s: StateValue, i: Input, slots: seq<Slot>): StateValue {
    if Cycle(s, i, slots).dirty && i.saveOk then Cycle(s, i, slots).state else OnDisk(s, i)
  }
}
