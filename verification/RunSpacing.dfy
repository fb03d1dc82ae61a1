/** How far apart the runs of one ladder plugin are, over every run of the daemon. */
module RunSpacing {
  import opened Common
  import opened Backoff
  import opened CleanupState
  import opened Governor
  import opened GovernorRuns

  // ------------------------------------------------------------- consecutive runs

  /** Cycle i recorded a run of the plugin; cycle j is a later pressure cycle that read the
      state and ran it; no run was recorded in between and the state file was not lost. */
  ghost predicate NextRun(run: Run, i: nat, j: nat, name: string)
    requires Valid(run)
  {
    && i < j < |run.polls|
    && Recorded(run, i, name)
    && (forall k :: i < k < j ==> !Recorded(run, k, name))
    && (forall k :: i < k <= j ==> !StateLost(run.polls[k].i))
    && LevelOf(run.polls[j].i) != LEVEL_NONE && StateOk(run.polls[j].i)
    && LadderRan(CycleAt(run, j).report.entries, name)
  }

  /** The record cycle j judged the plugin by. */
  lemma NextRunRecord(run: Run, i: nat, j: nat, name: string)
    requires Valid(run) && NextRun(run, i, j, name)
    ensures RunStamped(run.polls[i].i, PluginOf(run.files[i + 1], name))
    ensures SameRun(PluginOf(run.files[j], name), PluginOf(run.files[i + 1], name))
    ensures (forall k :: i < k < j ==> !Quiet(run.polls[k].i)) ==>
              PluginOf(run.files[j], name) == PluginOf(run.files[i + 1], name)
  {
    assert PollStep(run, i);
    RecordedIsStamped(run.files[i], run.polls[i], run.files[i + 1], name);
    RecordFrames(run, i, j, name);
  }

  lemma NextRunAdmitted(run: Run, i: nat, j: nat, name: string)
    requires Valid(run) && NextRun(run, i, j, name)
    ensures !run.polls[j].i.dryRun && LoadedAt(run, j) == run.files[j]
    ensures AdmittedFrom(LoadedAt(run, j), run.polls[j].i, run.polls[j].slots, name, CycleAt(run, j).report.entries)
  {
    CycleTracked(run.files[j], run.polls[j].i, run.polls[j].slots, name);
  }

  // --------------------------------------------------------------- engaged byte backoff

  /** While byte backoff is engaged, cooldown is bypassed exactly below the minimum free space,
      with no cooldown configured, or at the bypass level unless the inode breaker restores it. */
  lemma BypassedExactly(s: StateValue, i: Input, r: Report)
    requires ByteBackoffOn(s, i)
    ensures !CooldownApplies(s, i, r) <==>
            || (MinimumFree(i.config) > 0 && !r.minimumMet)
            || Cooldown(i.config) == 0
            || (LevelOf(i) >= i.config.bypassLevel && !InodeBackoffOn(s, i))
  {
  }

  /** The interval of engaged byte backoff: min(max, first * 2^(count - limit)). */
  lemma EngagedIntervalIs(s: StateValue, i: Input)
    requires ByteBackoffOn(s, i)
    requires !DoublingOverflows(ByteBackoffInterval(i.config), ByteBackoffMax(i.config))
    ensures ByteCount(s, i) >= ByteLimit(i.config)
    ensures EngagedInterval(s, i) ==
            Min(ByteBackoffMax(i.config), ByteBackoffInterval(i.config) * Pow2(ByteCount(s, i) - ByteLimit(i.config)))
    ensures EngagedInterval(s, i) >= ByteBackoffInterval(i.config)
  {
    var steps: nat := ByteCount(s, i) - ByteLimit(i.config);
    ByteIntervalExact(ByteBackoffInterval(i.config), ByteBackoffMax(i.config));
    DoubledIsPower(ByteBackoffInterval(i.config), steps);
    DoubledPositive(ByteBackoffInterval(i.config), steps);
  }

  /** The byte-backoff gate is exact: it holds a plugin back if and only if its last run at
      this level or higher is younger than the interval. */
  lemma EngagedGateIsExact(s: StateValue, i: Input, r: Report, rec: PluginRecord)
    requires ByteBackoffOn(s, i) && !CooldownApplies(s, i, r)
    requires !DoublingOverflows(ByteBackoffInterval(i.config), ByteBackoffMax(i.config))
    requires rec.lastRun.Some? && rec.lastLevel >= LevelOf(i) && rec.lastRun.value <= i.now
    ensures CooldownGate(s, i, r, rec).Some? <==>
            i.now - rec.lastRun.value <
              Min(ByteBackoffMax(i.config), ByteBackoffInterval(i.config) * Pow2(ByteCount(s, i) - ByteLimit(i.config)))
  {
    EngagedIntervalIs(s, i);
  }

  lemma GateRespectsBackoff(s: StateValue, i: Input, r: Report, p: Plugin, rec: PluginRecord)
    requires Gate(s, i, r, p, rec).Admit? && StateOk(i)
    requires rec.lastRun.Some? && rec.lastLevel >= LevelOf(i)
    ensures CooldownApplies(s, i, r) ==> i.now - rec.lastRun.value >= Cooldown(i.config)
    ensures !CooldownApplies(s, i, r) && ByteBackoffOn(s, i) && EngagedInterval(s, i) > 0
            ==> i.now - rec.lastRun.value >= EngagedInterval(s, i)
  {
  }

  ghost predicate Exact(c: Config) {
    !DoublingOverflows(ByteBackoffInterval(c), ByteBackoffMax(c))
  }

  /** The whole doubled interval. */
  function WholeInterval(s: StateValue, i: Input): Duration
    requires ByteBackoffOn(s, i)
  {
    Min(ByteBackoffMax(i.config), ByteBackoffInterval(i.config) * Pow2(ByteCount(s, i) - ByteLimit(i.config)))
  }

  /** The gaps between a recorded run and the next one that byte backoff admits. */
  lemma AdmittedGap(s: StateValue, i: Input, r: Report, p: Plugin, prior: Input)
    requires Gate(s, i, r, p, PluginOf(s, p.name)).Admit? && ByteBackoffOn(s, i)
    requires PluginOf(s, p.name).lastRun == Some(Stamp(prior.now))
    requires LevelOf(i) <= PluginOf(s, p.name).lastLevel
    requires Exact(i.config)
    ensures i.now - prior.now > ByteBackoffInterval(i.config) - SECOND
    ensures i.now - prior.now > (if CooldownApplies(s, i, r) then Cooldown(i.config) else WholeInterval(s, i)) - SECOND
  {
    EngagedIntervalIs(s, i);
    GateRespectsBackoff(s, i, r, p, PluginOf(s, p.name));
    FirstIntervalIs(i.config);
  }

  /** The place at which cycle j ran the plugin, its gates having let it through. */
  lemma NextRunJudged(run: Run, i: nat, j: nat, name: string) returns (k: nat)
    requires Valid(run) && NextRun(run, i, j, name)
    ensures RanAt(LoadedAt(run, j), run.polls[j].i, run.polls[j].slots, k, name, CycleAt(run, j).report.entries)
    ensures PluginOf(LoadedAt(run, j), name).lastRun == Some(Stamp(run.polls[i].i.now))
    ensures PluginOf(LoadedAt(run, j), name).lastLevel == LevelOf(run.polls[i].i)
  {
    NextRunRecord(run, i, j, name);
    NextRunAdmitted(run, i, j, name);
    k :| k < |run.polls[j].slots| && LetThrough(LoadedAt(run, j), run.polls[j].i, run.polls[j].slots, k, name)
         && CycleAt(run, j).report.entries[k].ran;
  }

  /** The k-th plugin of the cycle has this name, was let through and ran. */
  predicate RanAt(s: StateValue, i: Input, slots: seq<Slot>, k: nat, name: string, entries: seq<Entry>) {
    |entries| == |slots| && k < |slots| && LetThrough(s, i, slots, k, name) && entries[k].ran
  }

  /** While byte backoff is engaged, a plugin that runs again at no higher level does so at
      least the first interval after its last recorded run; where cooldown applies when its
      turn comes, at least the cooldown; where cooldown is bypassed, at least the whole
      doubled interval. Each is less under a second of timestamp truncation. s is what cycle
      j loaded, cur and prior are the inputs of cycles j and i. */
  lemma EngagedSpacing(run: Run, i: nat, j: nat, name: string, s: StateValue, cur: Input, prior: Input) returns (k: nat)
    requires Valid(run) && NextRun(run, i, j, name)
    requires s == LoadedAt(run, j) && cur == run.polls[j].i && prior == run.polls[i].i
    requires ByteBackoffOn(s, cur) && LevelOf(cur) <= LevelOf(prior)
    ensures ByteCount(s, cur) >= ByteLimit(cur.config)
    ensures RanAt(s, cur, run.polls[j].slots, k, name, CycleAt(run, j).report.entries)
    ensures Exact(cur.config) ==> cur.now - prior.now > ByteBackoffInterval(cur.config) - SECOND
    ensures Exact(cur.config) ==>
              cur.now - prior.now > (if CooldownApplies(s, cur, ReportBefore(s, cur, run.polls[j].slots, k))
                                     then Cooldown(cur.config) else WholeInterval(s, cur)) - SECOND
  {
    k := NextRunJudged(run, i, j, name);
    if Exact(cur.config) {
      AdmittedGap(s, cur, ReportBefore(s, cur, run.polls[j].slots, k), run.polls[j].slots[k].plugin, prior);
    }
  }

  // ------------------------------------------------------------- below the minimum

  /** The reading is missing or below minimum_free_gb. */
  predicate Short(i: Input, m: Option<Stats>) {
    m.Some? ==> m.value.free < MinimumFree(i.config)
  }

  lemma MeasuredShort(i: Input, r: Report, m: Option<Stats>)
    requires MinimumFree(i.config) > 0 && !r.minimumMet && Short(i, m)
    ensures !Measured(i, r, m).minimumMet
  {
  }

  lemma StepShort(s: StateValue, i: Input, g: Progress, slot: Slot)
    requires MinimumFree(i.config) > 0 && !g.report.minimumMet && Short(i, slot.after)
    ensures !Step(s, i, g, slot).report.minimumMet
  {
    var p := slot.plugin;
    if p.levelIndependent {
      MeasuredShort(i, LevelIndependentStep(i, g.report, slot), slot.after);
    } else {
      LadderStepShort(i, g, slot, Gate(s, i, g.report, p, PluginOf(g.state, p.name)));
    }
  }

  lemma LadderStepShort(i: Input, g: Progress, slot: Slot, v: Verdict)
    requires MinimumFree(i.config) > 0 && !g.report.minimumMet && Short(i, slot.after)
    ensures !LadderStep(i, g, slot, v).report.minimumMet
  {
    if v.Admit? {
      var started := StartedEntry(i.dryRun, Blank(slot.plugin).(zeroYieldCount := v.count, lifted := v.lifted),
                                  slot.watch, slot.plugin.planner);
      if started.ran {
        RunFoldedShort(i, g, slot, started,
                       RunRecord(i, slot.plugin, PluginOf(g.state, slot.plugin.name), started.bytesFreed));
      }
    }
  }

  lemma RunFoldedShort(i: Input, g: Progress, slot: Slot, started: Entry, rec: PluginRecord)
    requires MinimumFree(i.config) > 0 && !g.report.minimumMet && Short(i, slot.after)
    ensures !RunFolded(i, g, slot, started, rec).report.minimumMet
  {
    var entry := if StateOk(i)
                 then started.(zeroYieldCount := rec.zeroYieldCount, suppressedUntil := rec.suppressedUntil)
                 else started;
    MeasuredShort(i, Credited(Appended(g.report, entry), slot.watch), slot.after);
  }

  /** While every reading is short the minimum stays unmet. */
  lemma {:induction false} MinimumStaysUnmet(s: StateValue, i: Input, slots: seq<Slot>, k: nat)
    requires MinimumFree(i.config) > 0 && Short(i, i.before) && k <= |slots|
    requires forall n :: 0 <= n < k ==> Short(i, slots[n].after)
    ensures !ReportBefore(s, i, slots, k).minimumMet
    decreases k
  {
    if k > 0 {
      MinimumStaysUnmet(s, i, slots, k - 1);
      assert slots[..k][..k - 1] == slots[..k - 1];
      StepShort(s, i, Steps(s, i, Progress(Opening(i), s, false), slots[..k - 1]), slots[k - 1]);
    }
  }

  /** Below minimum_free_gb every run waits for the whole doubled interval, whatever the level. */
  lemma EngagedSpacingBelowMinimum(run: Run, i: nat, j: nat, name: string, s: StateValue, cur: Input, prior: Input)
    requires Valid(run) && NextRun(run, i, j, name)
    requires s == LoadedAt(run, j) && cur == run.polls[j].i && prior == run.polls[i].i
    requires ByteBackoffOn(s, cur) && LevelOf(cur) <= LevelOf(prior) && Exact(cur.config)
    requires MinimumFree(cur.config) > 0 && Short(cur, cur.before)
    requires forall slot :: slot in run.polls[j].slots ==> Short(cur, slot.after)
    ensures cur.now - prior.now > WholeInterval(s, cur) - SECOND
  {
    var k := EngagedSpacing(run, i, j, name, s, cur, prior);
    MinimumStaysUnmet(s, cur, run.polls[j].slots, k);
  }

  // --------------------------------------------------------------- any two runs

  lemma LastTrue(flags: seq<bool>, a: nat) returns (i: nat)
    requires a < |flags| && flags[a]
    ensures a <= i < |flags| && flags[i] && forall k :: i < k < |flags| ==> !flags[k]
  {
    i := |flags| - 1;
    while !flags[i]
      invariant a <= i < |flags| && forall k :: i < k < |flags| ==> !flags[k]
      decreases i
    {
      i := i - 1;
    }
  }

  /** The last recorded run of the plugin before cycle b. */
  lemma LastRecorded(run: Run, a: nat, b: nat, name: string) returns (i: nat)
    requires |run.files| == |run.polls| + 1 && a < b < |run.polls| && Recorded(run, a, name)
    ensures a <= i < b && Recorded(run, i, name) && forall k :: i < k < b ==> !Recorded(run, k, name)
  {
    var flags := seq(b, k requires 0 <= k < b => Recorded(run, k, name));
    i := LastTrue(flags, a);
    assert forall k :: 0 <= k < b ==> flags[k] == Recorded(run, k, name);
  }

  /** Byte backoff is engaged, exactly computed, with a first interval of at least this. */
  ghost predicate EngagedFor(run: Run, k: nat, floor: Duration)
    requires k < |run.polls| && k < |run.files|
  {
    var c := run.polls[k].i.config;
    ByteBackoffOn(LoadedAt(run, k), run.polls[k].i) && Exact(c) && ByteBackoffInterval(c) >= floor
  }

  /** Any two recorded runs of a plugin, the later at no higher level, are the first interval
      apart if byte backoff was engaged at every recorded run after the first of them. */
  lemma {:induction false} AnyTwoRunsApart(run: Run, a: nat, b: nat, name: string, floor: Duration)
    requires Valid(run) && a < b < |run.polls| && Recorded(run, a, name) && Recorded(run, b, name)
    requires forall k, l :: 0 <= k <= l < |run.polls| ==> run.polls[k].i.now <= run.polls[l].i.now
    requires forall k :: a < k <= b ==> !StateLost(run.polls[k].i)
    requires forall k :: a < k <= b && Recorded(run, k, name) ==> EngagedFor(run, k, floor)
    requires LevelOf(run.polls[b].i) <= LevelOf(run.polls[a].i)
    ensures run.polls[b].i.now - run.polls[a].i.now > floor - SECOND
    decreases b
  {
    var i := LastRecorded(run, a, b, name);
    if LevelOf(run.polls[b].i) <= LevelOf(run.polls[i].i) {
      var k := EngagedSpacing(run, i, b, name, LoadedAt(run, b), run.polls[b].i, run.polls[i].i);
      assert EngagedFor(run, b, floor);
    } else {
      AnyTwoRunsApart(run, a, i, name, floor);
    }
  }

  /** The documented first interval: the cooldown capped at byte_backoff_max, or the cap. */
  lemma FirstIntervalIs(c: Config)
    ensures ByteBackoffInterval(c) == if Cooldown(c) == 0 then ByteBackoffMax(c) else Min(Cooldown(c), ByteBackoffMax(c))
    ensures ByteBackoffMax(c) <= TWO62 ==> !DoublingOverflows(ByteBackoffInterval(c), ByteBackoffMax(c))
  {
  }

  // ------------------------------------------------------------ zero-yield suppression

  /** An exemption other than mount pressure lets the plugin run: an operator's run, a
      permanently exempt plugin, an unknown free space or one below the emergency floor. */
  predicate OtherExemption(i: Input, slots: seq<Slot>, name: string) {
    exists slot | slot in slots ::
      && slot.plugin.name == name && !slot.plugin.levelIndependent
      && Exemption(i, slot.plugin).Some? && Exemption(i, slot.plugin) != Some(MountPressure)
  }

  lemma GateRespectsSuppression(s: StateValue, i: Input, r: Report, p: Plugin, rec: PluginRecord, until: Time)
    requires Gate(s, i, r, p, rec).Admit? && StateOk(i) && !i.dryRun
    requires rec.suppressedUntil == Some(until) && rec.lastRun.Some?
    requires LevelOf(i) <= rec.lastLevel && rec.digest == Some(DigestOf(i)) && ResolveZeroYield(i.config).limit > 0
    requires Exemption(i, p).None? || Exemption(i, p) == Some(MountPressure)
    ensures i.now >= until || i.now >= rec.lastRun.value + ResolveZeroYield(i.config).pressureMin
  {
  }

  /** A plugin whose last recorded run left it suppressed does not run again before the
      smaller of the pressure interval and its suppression interval has passed, less under a
      second, unless the level rose, the configuration changed, a cycle with no pressure
      intervened or another exemption holds. */
  lemma ZeroYieldSpacing(run: Run, i: nat, j: nat, name: string)
    requires Valid(run) && NextRun(run, i, j, name)
    requires PluginOf(run.files[i + 1], name).suppressedUntil.Some?
    ensures
      || LevelOf(run.polls[j].i) > LevelOf(run.polls[i].i)
      || DigestOf(run.polls[j].i) != DigestOf(run.polls[i].i)
      || (exists k :: i < k < j && Quiet(run.polls[k].i))
      || OtherExemption(run.polls[j].i, run.polls[j].slots, name)
      || run.polls[j].i.now - run.polls[i].i.now >
           Min(ResolveZeroYield(run.polls[j].i.config).pressureMin,
               ZeroYieldInterval(PluginOf(run.files[i + 1], name).zeroYieldCount, ResolveZeroYield(run.polls[i].i.config))) - SECOND
  {
    NextRunRecord(run, i, j, name);
    if (exists k :: i < k < j && Quiet(run.polls[k].i)) || OtherExemption(run.polls[j].i, run.polls[j].slots, name)
       || LevelOf(run.polls[j].i) > LevelOf(run.polls[i].i) || DigestOf(run.polls[j].i) != DigestOf(run.polls[i].i) {
      return;
    }
    NextRunAdmitted(run, i, j, name);
    var s, cur, slots := LoadedAt(run, j), run.polls[j].i, run.polls[j].slots;
    var rec := PluginOf(run.files[i + 1], name);
    var k := NextRunJudged(run, i, j, name);
    assert slots[k] in slots;
    GateRespectsSuppression(s, cur, ReportBefore(s, cur, slots, k), slots[k].plugin, rec, rec.suppressedUntil.value);
  }
}
