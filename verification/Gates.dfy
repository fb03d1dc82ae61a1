/** When the gates let a ladder plugin through, exactly, and when byte backoff is engaged. */
module Gates {
  import opened Common
  import opened Backoff
  import opened CleanupState
  import opened Governor
  import opened CycleAccounting
  import opened GovernorRuns
  import opened CycleOutcome
  import opened ByteHistory

  // -------------------------------------------------------------------- one plugin

  /** Suppressed for zero yield: before its retry time, at no higher level than it last ran at,
      under the configuration it was measured under. */
  predicate SuppressedNow(i: Input, rec: PluginRecord) {
    && i.config.zeroYieldLimit >= 0
    && rec.suppressedUntil.Some? && i.now < rec.suppressedUntil.value
    && LevelOf(i) <= rec.lastLevel
    && rec.digest == Some(Digest(i.version, i.config))
  }

  /** Suppressed, and let run all the same: always for an operator, a safety-critical or exempt
      plugin, an unknown free space or one below the emergency floor; under mount pressure once
      the pressure interval has passed since its last run. */
  predicate ExemptNow(i: Input, p: Plugin, rec: PluginRecord) {
    || i.forced != LEVEL_NONE || i.filtered
    || p.safetyCritical || p.name in i.config.exemptPlugins
    || i.before.None?
    || (i.config.emergencyFreeGB > 0 && i.before.value.free < i.config.emergencyFreeGB * GIB)
    || ((exists m | m in i.mounts :: !m.failed && m.level >= LEVEL_MODERATE)
        && i.now >= LastRun(rec) + ResolveZeroYield(i.config).pressureMin)
  }

  /** How long a plugin is held back after its last run: the cooldown, else the interval of
      engaged byte backoff, else not at all. */
  function HeldFor(s: StateValue, i: Input, r: Report): Duration {
    if CooldownApplies(s, i, r) then Cooldown(i.config) else if ByteBackoffOn(s, i) then EngagedInterval(s, i) else 0
  }

  predicate TooSoon(i: Input, rec: PluginRecord, d: Duration) {
    d > 0 && rec.lastRun.Some? && rec.lastLevel >= LevelOf(i) && i.now - rec.lastRun.value < d
  }

  /** Outside a dry run, with a readable state, the gates let a ladder plugin through if and only
      if the target is not met, it is not suppressed or is exempt, and its last run at this
      level or higher is old enough. A rise of the level is enough for both latter gates. */
  lemma AdmittedExactly(s: StateValue, i: Input, r: Report, p: Plugin, rec: PluginRecord)
    requires !i.dryRun && StateOk(i)
    ensures Gate(s, i, r, p, rec).Admit? <==>
            && !(r.targetMet && i.maxInodeLevel == LEVEL_NONE)
            && (SuppressedNow(i, rec) ==> ExemptNow(i, p, rec))
            && !TooSoon(i, rec, HeldFor(s, i, r))
    ensures rec.lastLevel < LevelOf(i) && !(r.targetMet && i.maxInodeLevel == LEVEL_NONE) ==> Gate(s, i, r, p, rec).Admit?
  {
    ZeroYieldExactly(i, p, rec);
    CooldownExactly(s, i, r, rec);
  }

  lemma ZeroYieldExactly(i: Input, p: Plugin, rec: PluginRecord)
    requires !i.dryRun && StateOk(i)
    ensures ZeroYieldGate(i, p, rec).Admit? <==> (SuppressedNow(i, rec) ==> ExemptNow(i, p, rec))
    ensures ZeroYieldGate(i, p, rec).Hold? ==> ZeroYieldGate(i, p, rec).reason == ZeroYieldHeld
  {
  }

  lemma CooldownExactly(s: StateValue, i: Input, r: Report, rec: PluginRecord)
    requires StateOk(i)
    ensures CooldownGate(s, i, r, rec).None? <==> !TooSoon(i, rec, HeldFor(s, i, r))
    ensures CooldownGate(s, i, r, rec).Some? ==>
              CooldownGate(s, i, r, rec).value.0 == if CooldownApplies(s, i, r) then CooldownHeld else ByteBackoffHeld
  {
  }

  /** The reason given is that of the first gate that holds the plugin back. */
  lemma ReasonExactly(s: StateValue, i: Input, r: Report, p: Plugin, rec: PluginRecord)
    requires !i.dryRun && StateOk(i) && Gate(s, i, r, p, rec).Hold?
    ensures Gate(s, i, r, p, rec).reason ==
            if r.targetMet && i.maxInodeLevel == LEVEL_NONE then TargetFreeMet
            else if SuppressedNow(i, rec) && !ExemptNow(i, p, rec) then ZeroYieldHeld
            else if CooldownApplies(s, i, r) then CooldownHeld else ByteBackoffHeld
  {
    ZeroYieldExactly(i, p, rec);
    CooldownExactly(s, i, r, rec);
  }

  /** With a state that cannot be read only the target holds a plugin back. */
  lemma UnreadableAdmits(s: StateValue, i: Input, r: Report, p: Plugin, rec: PluginRecord)
    requires !StateOk(i)
    ensures Gate(s, i, r, p, rec).Admit? <==> !(r.targetMet && i.maxInodeLevel == LEVEL_NONE)
  {
  }

  // ------------------------------------------------------------------- byte backoff

  /** In every run byte backoff is engaged if and only if the cycle is neither forced nor dry,
      its state could be read, free space is known and not below the emergency floor, there is
      byte pressure no higher than recorded last, and the pending attempts of the history have
      reached the limit, which is not negative. */
  lemma BackoffEngagedExactly(run: Run, k: nat)
    requires Valid(run) && k < |run.polls|
    ensures var i := run.polls[k].i;
      var h := if StateLost(i) then [] else History(run, k, i.monitorPath);
      var limit := if i.config.byteNoProgressLimit == 0 then 3 else i.config.byteNoProgressLimit;
      ByteBackoffOn(LoadedAt(run, k), i) <==>
      && i.forced == LEVEL_NONE && !i.dryRun && i.load != LoadFailed
      && i.before.Some? && i.before.value.byteLevel != LEVEL_NONE && i.monitorPath != ""
      && !(i.config.emergencyFreeGB > 0 && i.before.value.free < i.config.emergencyFreeGB * GIB)
      && h != [] && i.before.value.byteLevel <= h[|h| - 1].level
      && 0 < limit <= |PendingAttempts(h)|
  {
    var i := run.polls[k].i;
    var h := if StateLost(i) then [] else History(run, k, i.monitorPath);
    FileIsHistory(run, k, i.monitorPath);
    CounterCounts(h);
    if h == [] {
      assert PendingAttempts(h) == {};
    }
  }

  /** The inode breaker is engaged if and only if the cycle is not forced, has a cooldown, inode
      pressure is at the bypass level without byte pressure there, and the count has reached
      the limit. */
  lemma InodeBreakerExactly(s: StateValue, i: Input)
    ensures InodeBackoffOn(s, i) <==>
      && i.forced == LEVEL_NONE && Cooldown(i.config) > 0
      && (if i.before.Some? then i.before.value.inodeLevel else LEVEL_NONE) >= i.config.bypassLevel
      && (if i.before.Some? then i.before.value.byteLevel else LEVEL_NONE) < i.config.bypassLevel
      && (if i.dryRun || i.load != LoadFailed then InodesOf(s, i.monitorPath) else 0)
         >= (if i.config.inodeNoProgressLimit > 0 then i.config.inodeNoProgressLimit else 3)
  {
    OpeningReads(i);
  }

  /** Cooldown applies if and only if there is one, the run is an ordinary one, the minimum free
      space is met, and the level is below the bypass level or the inode breaker is engaged. */
  lemma CooldownAppliesExactly(s: StateValue, i: Input, r: Report)
    ensures CooldownApplies(s, i, r) <==>
      && Cooldown(i.config) > 0 && !i.dryRun && i.forced == LEVEL_NONE
      && (i.config.minimumFreeGB > 0 ==> r.minimumMet)
      && (LevelOf(i) < i.config.bypassLevel || InodeBackoffOn(s, i))
  {
  }
}
