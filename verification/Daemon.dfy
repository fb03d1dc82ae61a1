/** The cycle as the daemon runs it, step by step: runCycle with its recordRun closure,
    runLevelIndependentPlugin and updateHostFreeAfter (main.go), over the state object of
    state.go, proved to compute the specification in Governor. */
module Daemon {
  import opened Common
  import opened Backoff
  import opened CleanupState
  import opened Governor

  method FindPressuredMount(i: Input) returns (found: bool)
    ensures found == PressuredMount(i)
  {
    for k := 0 to |i.mounts|
      invariant forall m :: m in i.mounts[..k] ==> m.failed || m.level < LEVEL_MODERATE
    {
      if i.mounts[k].failed || i.mounts[k].level < LEVEL_MODERATE {
        continue;
      }
      return true;
    }
    assert i.mounts[..|i.mounts|] == i.mounts;
    return false;
  }

  method FindLadderRun(entries: seq<Entry>) returns (found: bool)
    ensures found == AnyLadderRan(entries)
  {
    for k := 0 to |entries|
      invariant forall e :: e in entries[..k] ==> !e.ran || e.levelIndependent
    {
      if entries[k].ran && !entries[k].levelIndependent {
        return true;
      }
    }
    assert entries[..|entries|] == entries;
    return false;
  }

  method ZeroYieldVerdict(i: Input, p: Plugin, rec: PluginRecord) returns (v: Verdict)
    ensures v == ZeroYieldGate(i, p, rec)
  {
    var policy := ResolveZeroYield(i.config);
    if !StateOk(i) || policy.limit <= 0 {
      return Admit(0, None);
    }
    match SuppressionOf(rec, LevelOf(i), i.now, DigestOf(i)) {
      case Clear(lifted) =>
        return if lifted.None? then Admit(0, None) else Admit(rec.zeroYieldCount, lifted);
      case Suppressed(suppressedUntil) =>
        var until := suppressedUntil;
        var exempt: Option<Lift> := None;
        if Forced(i) || i.dryRun || i.filtered {
          exempt := Some(OperatorRun);
        } else if PermanentExemption(i, p).Some? {
          exempt := PermanentExemption(i, p);
        } else if i.before.None? {
          exempt := Some(FreeUnknown);
        } else if BelowFloor(i) {
          exempt := Some(BelowEmergencyFloor);
        } else {
          var pressured := FindPressuredMount(i);
          if pressured {
            exempt := Some(MountPressure);
          }
        }
        if exempt == Some(MountPressure) {
          var next := LastRun(rec) + policy.pressureMin;
          if i.now < next {
            exempt := None;
            if next < until {
              until := next;
            }
          }
        }
        if exempt.Some? {
          return Admit(rec.zeroYieldCount, exempt);
        }
        return Hold(ZeroYieldHeld, rec.zeroYieldCount, None, Some(Stamp(until)));
    }
  }

  /** shouldApplyCooldown, pluginCooldown and cooldownRemaining, with the backoff answers
      taken at the start of the cycle. */
  method CooldownVerdict(ghost s: StateValue, i: Input, r: Report, rec: PluginRecord,
                         inodeBackoff: bool, byteBackoff: bool, byteCount: int) returns (held: Option<(SkipReason, Time)>)
    requires inodeBackoff == InodeBackoffOn(s, i) && byteBackoff == ByteBackoffOn(s, i) && byteCount == ByteCount(s, i)
    ensures held == CooldownGate(s, i, r, rec)
  {
    if !StateOk(i) {
      return None;
    }
    var applies;
    if MinimumFree(i.config) > 0 && !r.minimumMet {
      applies := false;
    } else if i.dryRun || Forced(i) || Cooldown(i.config) <= 0 {
      applies := false;
    } else if LevelOf(i) >= i.config.bypassLevel {
      applies := inodeBackoff;
    } else {
      applies := true;
    }
    var remaining := 0;
    var reason := CooldownHeld;
    if applies {
      remaining := CooldownRemaining(rec, LevelOf(i), i.now, Cooldown(i.config));
    } else if byteBackoff {
      var interval := ByteBackoffIntervalFor(ByteBackoffInterval(i.config), ByteBackoffMax(i.config), byteCount, ByteLimit(i.config));
      remaining := CooldownRemaining(rec, LevelOf(i), i.now, interval);
      reason := ByteBackoffHeld;
    }
    if remaining > 0 {
      return Some((reason, Stamp(i.now + remaining)));
    }
    return None;
  }

  /** Plans (dry run) or runs one plugin under the watchdog, and applies what it saw. */
  method StartPlugin(i: Input, e0: Entry, slot: Slot) returns (e: Entry)
    ensures e == StartedEntry(i.dryRun, e0, slot.watch, slot.plugin.planner)
  {
    e := e0;
    if i.dryRun {
      e := e.(skip := Some(DryRun));
      if slot.plugin.planner && slot.watch.Wedged? {
        e := e0.(wouldRun := false, skip := Some(PluginWedged));
      }
    } else if slot.watch.Wedged? {
      e := e.(wouldRun := false, skip := Some(PluginWedged));
    } else if slot.watch.Abandoned? {
      e := e.(ran := true, failed := true);
    } else {
      var result := slot.watch.result;
      if slot.watch.Cancelled? {
        result := result.(failed := true);
      }
      e := e.(ran := true, bytesFreed := result.bytesFreed, itemsCleaned := result.itemsCleaned, failed := result.failed);
    }
  }

  /** runLevelIndependentPlugin. */
  method RunLevelIndependentPlugin(i: Input, r: Report, slot: Slot) returns (r': Report)
    requires slot.plugin.levelIndependent
    ensures r' == LevelIndependentStep(i, r, slot)
  {
    var e := StartPlugin(i, Blank(slot.plugin), slot);
    r' := Appended(r, e);
    if e.ran && !e.failed && (e.bytesFreed > 0 || e.itemsCleaned > 0) {
      r' := r'.(totalFreed := r'.totalFreed + e.bytesFreed, totalItems := r'.totalItems + e.itemsCleaned);
    }
  }

  /** The recordRun closure: the run, then its yield. */
  method RecordRun(m: Memory, i: Input, p: Plugin, e: Entry, bytesFreed: int) returns (e': Entry)
    modifies m`plugins
    ensures var rec := RunRecord(i, p, old(PluginOf(m.Value(), p.name)), bytesFreed);
      && m.Value() == old(m.Value()).(plugins := old(m.plugins)[p.name := rec])
      && e' == e.(zeroYieldCount := rec.zeroYieldCount, suppressedUntil := rec.suppressedUntil)
  {
    m.RecordPluginRun(p.name, LevelOf(i), i.now);
    var suppressible := PermanentExemption(i, p).None?;
    var record := m.RecordPluginYield(p.name, bytesFreed < ByteProgressMin(i.config), i.now, DigestOf(i),
                                      ResolveZeroYield(i.config), suppressible);
    e' := e.(zeroYieldCount := record.zeroYieldCount, suppressedUntil := record.suppressedUntil);
  }

  /** The gates of one ladder plugin, in order. */
  method JudgeLadderPlugin(ghost s: StateValue, i: Input, r: Report, p: Plugin, rec: PluginRecord,
                           inodeBackoff: bool, byteBackoff: bool, byteCount: int) returns (v: Verdict)
    requires inodeBackoff == InodeBackoffOn(s, i) && byteBackoff == ByteBackoffOn(s, i) && byteCount == ByteCount(s, i)
    ensures v == Gate(s, i, r, p, rec)
  {
    if !i.dryRun && TargetMet(i, r) {
      return Hold(TargetFreeMet, 0, None, None);
    }
    v := ZeroYieldVerdict(i, p, rec);
    if v.Hold? {
      return;
    }
    var held := CooldownVerdict(s, i, r, rec, inodeBackoff, byteBackoff, byteCount);
    if held.Some? {
      return Hold(held.value.0, v.count, v.lifted, Some(held.value.1));
    }
  }

  /** A ladder run's entry goes into the report; what it freed is credited, and a run that
      did not fail is measured. */
  method EnterRun(i: Input, r: Report, slot: Slot, e: Entry) returns (r': Report)
    requires e.failed ==> !Productive(slot.watch)
    requires !e.failed ==> slot.watch.Finished? && !slot.watch.result.failed
    ensures r' == if e.failed then Credited(Appended(r, e), slot.watch)
                  else Measured(i, Credited(Appended(r, e), slot.watch), slot.after)
  {
    r' := Appended(r, e);
    if e.failed {
      return;
    }
    var result := slot.watch.result;
    if result.bytesFreed > 0 || result.itemsCleaned > 0 {
      r' := r'.(totalFreed := r'.totalFreed + result.bytesFreed,
                totalItems := r'.totalItems + result.itemsCleaned,
                ladderFreed := r'.ladderFreed + result.bytesFreed);
    }
    assert r' == Credited(Appended(r, e), slot.watch);
    r' := Measured(i, r', slot.after);
  }

  /** A ladder plugin that passed its gates. */
  method RunAdmittedPlugin(m: Memory, i: Input, r: Report, slot: Slot, e0: Entry, dirty: bool) returns (r': Report, dirty': bool)
    requires !e0.ran && !e0.failed && e0.bytesFreed == e0.itemsCleaned == 0
    modifies m`plugins
    ensures Progress(r', m.Value(), dirty') == Admitted(i, Progress(r, old(m.Value()), dirty), slot, e0)
  {
    var e := StartPlugin(i, e0, slot);
    if !e.ran {
      return Appended(r, e), dirty;
    }
    dirty' := dirty;
    if StateOk(i) {
      e := RecordRun(m, i, slot.plugin, e, e.bytesFreed);
      dirty' := true;
    }
    r' := EnterRun(i, r, slot, e);
  }

  /** One iteration of the plugin loop for a ladder plugin. */
  method RunLadderPlugin(ghost s: StateValue, m: Memory, i: Input, r: Report, slot: Slot, dirty: bool,
                         inodeBackoff: bool, byteBackoff: bool, byteCount: int) returns (r': Report, dirty': bool)
    requires inodeBackoff == InodeBackoffOn(s, i) && byteBackoff == ByteBackoffOn(s, i) && byteCount == ByteCount(s, i)
    modifies m`plugins
    ensures Progress(r', m.Value(), dirty') ==
            LadderStep(i, Progress(r, old(m.Value()), dirty), slot,
                       Gate(s, i, r, slot.plugin, PluginOf(old(m.Value()), slot.plugin.name)))
  {
    var v := JudgeLadderPlugin(s, i, r, slot.plugin, m.Record(slot.plugin.name), inodeBackoff, byteBackoff, byteCount);
    var e := Blank(slot.plugin).(zeroYieldCount := v.count, lifted := v.lifted);
    if v.Hold? {
      r' := if v.reason == TargetFreeMet then r.(stopped := true) else r;
      return Appended(r', e.(wouldRun := false, skip := Some(v.reason), retryAt := v.retryAt)), dirty;
    }
    r', dirty' := RunAdmittedPlugin(m, i, r, slot, e, dirty);
  }

  /** The loop over the enabled plugins under pressure. */
  method RunPlugins(m: Memory, i: Input, slots: seq<Slot>) returns (r: Report, dirty: bool)
    modifies m`plugins
    ensures Progress(r, m.Value(), dirty) == PluginPhase(old(m.Value()), i, slots)
  {
    ghost var s := m.Value();
    var byteCount := ByteCountNow(m, i);
    var byteBackoff := ByteBackoffNow(m, i);
    var inodeCount := if StateOk(i) && i.monitorPath in m.inodes then m.inodes[i.monitorPath] else 0;
    r := Opening(i);
    var inodeBackoff := !Forced(i) && Cooldown(i.config) > 0 && r.inodeLevel >= i.config.bypassLevel
                        && ByteLevel(i) < i.config.bypassLevel && inodeCount >= InodeLimit(i.config);
    dirty := false;
    for k := 0 to |slots|
      invariant Progress(r, m.Value(), dirty) == Steps(s, i, Progress(Opening(i), s, false), slots[..k])
    {
      ghost var g := Progress(r, m.Value(), dirty);
      if slots[k].plugin.levelIndependent {
        r := RunLevelIndependentPlugin(i, r, slots[k]);
        r := Measured(i, r, slots[k].after);
      } else {
        r, dirty := RunLadderPlugin(s, m, i, r, slots[k], dirty, inodeBackoff, byteBackoff, byteCount);
      }
      StepIs(s, i, g, slots, k, Progress(r, m.Value(), dirty));
    }
    assert slots[..|slots|] == slots;
    r := Measured(i, r, i.final);
  }

  lemma StepIs(s: StateValue, i: Input, g: Progress, slots: seq<Slot>, k: nat, g': Progress)
    requires k < |slots| && g == Steps(s, i, Progress(Opening(i), s, false), slots[..k])
    requires g' == if slots[k].plugin.levelIndependent
                   then g.(report := Measured(i, LevelIndependentStep(i, g.report, slots[k]), slots[k].after))
                   else LadderStep(i, g, slots[k], Gate(s, i, g.report, slots[k].plugin, PluginOf(g.state, slots[k].plugin.name)))
    ensures g' == Steps(s, i, Progress(Opening(i), s, false), slots[..k + 1])
  {
    assert slots[..k + 1][..k] == slots[..k];
  }

  lemma QuietIs(i: Input, r: Report, slots: seq<Slot>, k: nat)
    requires k < |slots|
    ensures QuietSteps(i, r, slots[..k + 1]) ==
            if slots[k].plugin.levelIndependent then LevelIndependentStep(i, QuietSteps(i, r, slots[..k]), slots[k])
            else QuietSteps(i, r, slots[..k])
  {
    assert slots[..k + 1][..k] == slots[..k];
  }

  /** The daemon between cycles: only the state file survives one. */
  class Daemon {
    var file: StateValue

    constructor ()
      ensures file == FRESH
    {
      file := FRESH;
    }

    /** runCycle, with the load of the state file before it and the save after it. */
    method RunCycle(i: Input, slots: seq<Slot>) returns (r: Report)
      modifies this
      ensures r == Cycle(old(file), i, slots).report
      ensures file == Persisted(old(file), i, slots)
    {
      var memory := new Memory(if i.dryRun || i.load == LoadFresh then FRESH else file);
      if !i.dryRun && i.load == LoadFresh {
        file := FRESH;
      }
      var dirty;
      if LevelOf(i) == LEVEL_NONE {
        r, dirty := RunQuietCycle(memory, i, slots);
      } else {
        r, dirty := RunPressureCycle(memory, i, slots);
      }
      if dirty && i.saveOk {
        file := StateValue(memory.plugins, memory.inodes, memory.bytes);
      }
    }

    /** Pressure cleared: release byte backoff, lift suppression, run the level-independent plugins. */
    method RunQuietCycle(m: Memory, i: Input, slots: seq<Slot>) returns (r: Report, dirty: bool)
      requires m as object != this
      modifies m
      ensures Progress(r, m.Value(), dirty) == QuietCycle(old(m.Value()), i, slots)
    {
      ghost var s := m.Value();
      dirty := false;
      r := Opening(i);
      var record := if i.monitorPath in m.bytes then m.bytes[i.monitorPath] else NO_BYTES;
      if !i.dryRun && StateOk(i) && i.before.Some? && i.monitorPath != "" && (record.engaged || record.noProgress > 0) {
        m.RecordByteProgress(i.monitorPath, LEVEL_NONE, true, false, false);
        dirty := true;
      }
      assert m.Value() == ApplyByteEvent(s, i.monitorPath, QuietEventOf(s, i)) && dirty == QuietEventOf(s, i).Some?;
      if !i.dryRun && StateOk(i) {
        ghost var before := m.Value();
        var lifted := m.LiftZeroYieldSuppression();
        assert lifted == AnySuppressed(s);
        if lifted {
          dirty := true;
        } else {
          assert before.plugins == Lifted(before).plugins;
          assert m.Value() == before;
        }
      }
      assert Progress(r, m.Value(), dirty) == QuietCycle(s, i, []);
      ghost var after := m.Value();
      for k := 0 to |slots|
        invariant m.Value() == after
        invariant r == QuietSteps(i, Opening(i), slots[..k])
      {
        QuietIs(i, Opening(i), slots, k);
        if slots[k].plugin.levelIndependent {
          r := RunLevelIndependentPlugin(i, r, slots[k]);
        }
      }
      assert slots[..|slots|] == slots;
    }

    /** Under pressure: the plugins, then the inode and byte progress of the monitored path. */
    method RunPressureCycle(m: Memory, i: Input, slots: seq<Slot>) returns (r: Report, dirty: bool)
      requires m as object != this
      modifies m
      ensures Progress(r, m.Value(), dirty) == PressureCycle(old(m.Value()), i, slots)
    {
      ghost var s := m.Value();
      r, dirty := RunPlugins(m, i, slots);
      assert m.inodes == s.inodes && m.bytes == s.bytes;
      ghost var g := Progress(r, m.Value(), dirty);
      dirty := RecordInodes(m, i, r, dirty);
      dirty := RecordBytes(m, i, r, dirty);
      EventsReadTheirMaps(s, g.state, i, r);
    }
  }

  lemma EventsReadTheirMaps(s: StateValue, s': StateValue, i: Input, r: Report)
    requires s.inodes == s'.inodes && s.bytes == s'.bytes
    ensures InodeEventOf(s, i, r) == InodeEventOf(s', i, r)
    ensures ByteEventOf(s, i, r) == ByteEventOf(ApplyInodeEvent(s', i.monitorPath, InodeEventOf(s', i, r)), i, r)
  {
  }

  /** Inode progress counts when free inodes grew or inode pressure cleared. */
  method RecordInodes(m: Memory, i: Input, r: Report, dirty: bool) returns (dirty': bool)
    modifies m`inodes
    ensures var e := InodeEventOf(old(m.Value()), i, r);
      m.Value() == ApplyInodeEvent(old(m.Value()), i.monitorPath, e) && dirty' == (dirty || e.Some?)
  {
    dirty' := dirty;
    if !i.dryRun && StateOk(i) && r.inodesTotal > 0 {
      if i.maxInodeLevel != LEVEL_NONE {
        m.RecordInodeProgress(i.monitorPath, r.inodesDelta > 0 || r.inodeLevel == LEVEL_NONE);
        dirty' := true;
      } else if i.monitorPath != "" && i.monitorPath in m.inodes && m.inodes[i.monitorPath] > 0 {
        m.RecordInodeProgress(i.monitorPath, true);
        dirty' := true;
      }
    }
  }

  /** Byte progress is recorded under byte pressure, and to settle an open streak. */
  method RecordBytes(m: Memory, i: Input, r: Report, dirty: bool) returns (dirty': bool)
    modifies m`bytes
    ensures var e := ByteEventOf(old(m.Value()), i, r);
      m.Value() == ApplyByteEvent(old(m.Value()), i.monitorPath, e) && dirty' == (dirty || e.Some?)
  {
    dirty' := dirty;
    if i.dryRun || !StateOk(i) || i.before.None? || r.freeError || i.monitorPath == "" {
      return;
    }
    var record := if i.monitorPath in m.bytes then m.bytes[i.monitorPath] else NO_BYTES;
    if ByteLevel(i) != LEVEL_NONE || record.engaged || record.noProgress > 0 {
      var byteBackoff := ByteBackoffNow(m, i);
      var ran := FindLadderRun(r.entries);
      m.RecordByteProgress(i.monitorPath, ByteLevel(i), ByteProgressMade(i, r), ran,
                           byteBackoff || (Forced(i) && record.engaged));
      dirty' := true;
    }
  }

  /** byteNoProgressCount for the monitored path at its level. */
  method ByteCountNow(m: Memory, i: Input) returns (count: int)
    ensures count == ByteCount(m.Value(), i)
  {
    if !StateOk(i) || i.before.None? || i.monitorPath == "" || i.monitorPath !in m.bytes {
      return 0;
    }
    var record := m.bytes[i.monitorPath];
    return if ByteLevel(i) > record.lastLevel then 0 else record.noProgress;
  }

  /** byteBackoffActive, never for a forced or dry run. */
  method ByteBackoffNow(m: Memory, i: Input) returns (active: bool)
    ensures active == ByteBackoffOn(m.Value(), i)
  {
    if Forced(i) || i.dryRun || !StateOk(i) {
      return false;
    }
    if ByteLimit(i.config) <= 0 || ByteLevel(i) == LEVEL_NONE {
      return false;
    }
    var count := ByteCountNow(m, i);
    return count >= ByteLimit(i.config) && !BelowFloor(i);
  }
}
