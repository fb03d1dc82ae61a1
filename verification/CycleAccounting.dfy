/** What one cycle's report says, for every state, every world and every plugin list. */
module CycleAccounting {
  import opened Common
  import opened CleanupState
  import opened Governor

  // ------------------------------------------------------------------ accounting

  /** An entry whose bytes count: it ran, it did not fail, and it freed something. */
  predicate Counts(e: Entry) {
    e.ran && !e.failed && (e.bytesFreed > 0 || e.itemsCleaned > 0)
  }

  function SumBytes(entries: seq<Entry>, ladderOnly: bool): int {
    if entries == [] then 0
    else
      var e := entries[|entries| - 1];
      SumBytes(entries[..|entries| - 1], ladderOnly)
      + (if Counts(e) && !(ladderOnly && e.levelIndependent) then e.bytesFreed else 0)
  }

  function SumItems(entries: seq<Entry>): int {
    if entries == [] then 0
    else
      var e := entries[|entries| - 1];
      SumItems(entries[..|entries| - 1]) + (if Counts(e) then e.itemsCleaned else 0)
  }

  /** An entry either ran or says why not, never both; nothing runs in a dry run. */
  predicate Settled(i: Input, e: Entry) {
    && (e.ran <==> e.skip.None?)
    && (i.dryRun ==> !e.ran)
  }

  ghost predicate Accounted(i: Input, slots: seq<Slot>, r: Report) {
    && |r.entries| == |slots|
    && (forall k :: 0 <= k < |slots| ==> r.entries[k].name == slots[k].plugin.name)
    && (forall k :: 0 <= k < |slots| ==> r.entries[k].levelIndependent == slots[k].plugin.levelIndependent)
    && (forall k :: 0 <= k < |slots| ==> Settled(i, r.entries[k]))
    && r.totalFreed == SumBytes(r.entries, false)
    && r.totalItems == SumItems(r.entries)
    && r.ladderFreed == SumBytes(r.entries, true)
  }

  /** What one iteration adds to the report: one settled entry, and its bytes. */
  ghost predicate Booked(i: Input, slot: Slot, r: Report, r': Report) {
    && |r'.entries| == |r.entries| + 1
    && r'.entries[..|r.entries|] == r.entries
    && var e := r'.entries[|r.entries|];
    && e.name == slot.plugin.name && e.levelIndependent == slot.plugin.levelIndependent
    && Settled(i, e)
    && r'.totalFreed == r.totalFreed + (if Counts(e) then e.bytesFreed else 0)
    && r'.totalItems == r.totalItems + (if Counts(e) then e.itemsCleaned else 0)
    && r'.ladderFreed == r.ladderFreed + (if Counts(e) && !e.levelIndependent then e.bytesFreed else 0)
  }

  predicate SameBooks(r: Report, r': Report) {
    r'.entries == r.entries && r'.totalFreed == r.totalFreed && r'.totalItems == r.totalItems && r'.ladderFreed == r.ladderFreed
  }

  lemma MeasuredKeepsBooks(i: Input, r: Report, m: Option<Stats>)
    ensures SameBooks(r, Measured(i, r, m))
  {
  }

  lemma LevelIndependentBooks(i: Input, r: Report, slot: Slot)
    requires slot.plugin.levelIndependent
    ensures Booked(i, slot, r, LevelIndependentStep(i, r, slot))
  {
  }

  lemma RunFoldedBooks(i: Input, g: Progress, slot: Slot, started: Entry, rec: PluginRecord)
    requires !slot.plugin.levelIndependent && !i.dryRun && started.ran && started.skip.None?
    requires started.name == slot.plugin.name && !started.levelIndependent
    requires Counts(started) <==> Productive(slot.watch)
    requires Counts(started) ==> started.bytesFreed == slot.watch.result.bytesFreed
    requires Counts(started) ==> started.itemsCleaned == slot.watch.result.itemsCleaned
    ensures Booked(i, slot, g.report, RunFolded(i, g, slot, started, rec).report)
  {
    var entry := if StateOk(i)
                 then started.(zeroYieldCount := rec.zeroYieldCount, suppressedUntil := rec.suppressedUntil)
                 else started;
    var r := Credited(Appended(g.report, entry), slot.watch);
    MeasuredKeepsBooks(i, r, slot.after);
    assert Booked(i, slot, g.report, r);
  }

  lemma LadderBooks(i: Input, g: Progress, slot: Slot, v: Verdict)
    requires !slot.plugin.levelIndependent
    ensures Booked(i, slot, g.report, LadderStep(i, g, slot, v).report)
  {
    if v.Admit? {
      var started := StartedEntry(i.dryRun, Blank(slot.plugin).(zeroYieldCount := v.count, lifted := v.lifted),
                                  slot.watch, slot.plugin.planner);
      if started.ran {
        RunFoldedBooks(i, g, slot, started,
                       RunRecord(i, slot.plugin, PluginOf(g.state, slot.plugin.name), started.bytesFreed));
      }
    }
  }

  lemma StepBooks(s: StateValue, i: Input, g: Progress, slot: Slot)
    ensures Booked(i, slot, g.report, Step(s, i, g, slot).report)
  {
    if slot.plugin.levelIndependent {
      LevelIndependentBooks(i, g.report, slot);
      MeasuredKeepsBooks(i, LevelIndependentStep(i, g.report, slot), slot.after);
    } else {
      LadderBooks(i, g, slot, Gate(s, i, g.report, slot.plugin, PluginOf(g.state, slot.plugin.name)));
    }
  }

  lemma BookedKeepsAccounts(i: Input, slots: seq<Slot>, slot: Slot, r: Report, r': Report)
    requires Accounted(i, slots, r) && Booked(i, slot, r, r')
    ensures Accounted(i, slots + [slot], r')
  {
    assert r'.entries[..|slots|] == r.entries;
    assert forall k :: 0 <= k < |slots| ==> r'.entries[k] == r.entries[k];
  }

  lemma StepAccounted(s: StateValue, i: Input, g: Progress, slots: seq<Slot>, slot: Slot)
    requires Accounted(i, slots, g.report)
    ensures Accounted(i, slots + [slot], Step(s, i, g, slot).report)
  {
    StepBooks(s, i, g, slot);
    BookedKeepsAccounts(i, slots, slot, g.report, Step(s, i, g, slot).report);
  }

  lemma {:induction false} StepsAccounted(s: StateValue, i: Input, g: Progress, slots: seq<Slot>)
    requires g.report.entries == [] && g.report.totalFreed == g.report.totalItems == g.report.ladderFreed == 0
    ensures Accounted(i, slots, Steps(s, i, g, slots).report)
    decreases |slots|
  {
    if slots != [] {
      var n := |slots| - 1;
      StepsAccounted(s, i, g, slots[..n]);
      StepAccounted(s, i, Steps(s, i, g, slots[..n]), slots[..n], slots[n]);
      assert slots[..n] + [slots[n]] == slots;
    }
  }

  lemma CycleReport(s: StateValue, i: Input, slots: seq<Slot>)
    requires LevelOf(i) != LEVEL_NONE
    ensures Cycle(s, i, slots).report == PluginPhase(Loaded(s, i), i, slots).report
  {
  }

  /** In every pressure cycle the report has one entry per enabled plugin, in order, each
      with exactly one of ran or a skip reason, and its totals are sums over its entries. */
  lemma PressureCycleAccounted(s: StateValue, i: Input, slots: seq<Slot>)
    requires LevelOf(i) != LEVEL_NONE
    ensures Accounted(i, slots, Cycle(s, i, slots).report)
  {
    var loaded := Loaded(s, i);
    var start := Progress(Opening(i), loaded, false);
    var end := Steps(loaded, i, start, slots).report;
    assert start.report.entries == [];
    StepsAccounted(loaded, i, start, slots);
    MeasuredKeepsBooks(i, end, i.final);
    CycleReport(s, i, slots);
  }

  // ----------------------------------------------------------------- the target gate

  /** A measurement is taken after every level-independent plugin and after every
      ladder run that did not fail. */
  predicate MeasuredAfter(e: Entry) {
    e.levelIndependent || (e.ran && !e.failed)
  }

  /** A reading that can be compared with the target. */
  predicate Usable(i: Input, m: Option<Stats>) {
    m.Some? && TargetFree(m.value.total, i.targetUsed).Some?
  }

  predicate Meets(i: Input, s: Stats)
    requires Usable(i, Some(s))
  {
    s.free >= TargetFree(s.total, i.targetUsed).value
  }

  /** The latest usable reading taken so far meets the target. */
  predicate LatestMeets(i: Input, slots: seq<Slot>, entries: seq<Entry>)
    requires |slots| == |entries|
  {
    if slots == [] then Usable(i, i.before) && Meets(i, i.before.value)
    else
      var n := |slots| - 1;
      if MeasuredAfter(entries[n]) && Usable(i, slots[n].after) then Meets(i, slots[n].after.value)
      else LatestMeets(i, slots[..n], entries[..n])
  }

  lemma MeasuredTarget(i: Input, r: Report, m: Option<Stats>)
    ensures Measured(i, r, m).targetMet == if Usable(i, m) then Meets(i, m.value) else r.targetMet
  {
  }

  /** The gates read only the target and the minimum from the report. */
  lemma GateAlike(s: StateValue, i: Input, r: Report, q: Report, p: Plugin, rec: PluginRecord)
    requires r.targetMet == q.targetMet && r.minimumMet == q.minimumMet
    ensures Gate(s, i, r, p, rec) == Gate(s, i, q, p, rec)
  {
    assert CooldownApplies(s, i, r) == CooldownApplies(s, i, q);
    assert CooldownGate(s, i, r, rec) == CooldownGate(s, i, q, rec);
  }

  lemma GateTarget(s: StateValue, i: Input, r: Report, p: Plugin, rec: PluginRecord)
    ensures Gate(s, i, r, p, rec).Admit? && !i.dryRun ==> !TargetMet(i, r)
  {
  }

  lemma LadderTarget(i: Input, g: Progress, slot: Slot, v: Verdict)
    requires !slot.plugin.levelIndependent
    ensures var r, r' := g.report, LadderStep(i, g, slot, v).report;
      && |r'.entries| == |r.entries| + 1
      && var e := r'.entries[|r.entries|];
      && (e.ran ==> v.Admit? && !i.dryRun) && !e.levelIndependent
      && (!MeasuredAfter(e) ==> r'.targetMet == r.targetMet)
      && (MeasuredAfter(e) ==> r'.targetMet == if Usable(i, slot.after) then Meets(i, slot.after.value) else r.targetMet)
  {
    if v.Admit? {
      var started := StartedEntry(i.dryRun, Blank(slot.plugin).(zeroYieldCount := v.count, lifted := v.lifted),
                                  slot.watch, slot.plugin.planner);
      if started.ran {
        RunFoldedTarget(i, g, slot, started,
                        RunRecord(i, slot.plugin, PluginOf(g.state, slot.plugin.name), started.bytesFreed));
      }
    }
  }

  lemma RunFoldedTarget(i: Input, g: Progress, slot: Slot, started: Entry, rec: PluginRecord)
    ensures var r, r' := g.report, RunFolded(i, g, slot, started, rec).report;
      && |r'.entries| == |r.entries| + 1
      && var e := r'.entries[|r.entries|];
      && e.ran == started.ran && e.failed == started.failed && e.levelIndependent == started.levelIndependent
      && r'.targetMet == if !e.failed && Usable(i, slot.after) then Meets(i, slot.after.value) else r.targetMet
  {
    var entry := if StateOk(i)
                 then started.(zeroYieldCount := rec.zeroYieldCount, suppressedUntil := rec.suppressedUntil)
                 else started;
    var r := Credited(Appended(g.report, entry), slot.watch);
    MeasuredTarget(i, r, slot.after);
    MeasuredKeepsBooks(i, r, slot.after);
    assert r.targetMet == g.report.targetMet;
  }

  lemma StepTarget(s: StateValue, i: Input, g: Progress, slots: seq<Slot>, slot: Slot)
    requires |slots| == |g.report.entries| && g.report.targetMet == LatestMeets(i, slots, g.report.entries)
    ensures var r := Step(s, i, g, slot).report;
      && |r.entries| == |slots| + 1
      && r.targetMet == LatestMeets(i, slots + [slot], r.entries)
      && var e := r.entries[|slots|];
         e.ran && !e.levelIndependent ==> !(LatestMeets(i, slots, g.report.entries) && i.maxInodeLevel == LEVEL_NONE)
  {
    var r := Step(s, i, g, slot).report;
    StepBooks(s, i, g, slot);
    assert (slots + [slot])[..|slots|] == slots;
    assert r.entries[..|slots|] == g.report.entries;
    if slot.plugin.levelIndependent {
      MeasuredTarget(i, LevelIndependentStep(i, g.report, slot), slot.after);
    } else {
      var rec := PluginOf(g.state, slot.plugin.name);
      GateTarget(s, i, g.report, slot.plugin, rec);
      LadderTarget(i, g, slot, Gate(s, i, g.report, slot.plugin, rec));
    }
  }

  /** A ladder plugin in this place ran only if the latest usable reading did not meet the
      target, or some mount was short of inodes. */
  predicate StoppedAtTarget(i: Input, slots: seq<Slot>, entries: seq<Entry>, k: nat)
    requires k < |slots| == |entries|
  {
    entries[k].ran && !entries[k].levelIndependent ==>
      !(LatestMeets(i, slots[..k], entries[..k]) && i.maxInodeLevel == LEVEL_NONE)
  }

  lemma StoppedGrows(i: Input, slots: seq<Slot>, slot: Slot, entries: seq<Entry>, entries': seq<Entry>, k: nat)
    requires k < |slots| == |entries| && |entries'| == |slots| + 1 && entries'[..|slots|] == entries
    requires StoppedAtTarget(i, slots, entries, k)
    ensures StoppedAtTarget(i, slots + [slot], entries', k)
  {
    assert (slots + [slot])[..k] == slots[..k] && entries'[..k] == entries[..k] && entries'[k] == entries[k];
  }

  lemma {:induction false} StepsTarget(s: StateValue, i: Input, g: Progress, slots: seq<Slot>)
    requires g.report.entries == [] && g.report.targetMet == LatestMeets(i, [], [])
    ensures var r := Steps(s, i, g, slots).report;
      && |r.entries| == |slots|
      && r.targetMet == LatestMeets(i, slots, r.entries)
      && forall k :: 0 <= k < |slots| ==> StoppedAtTarget(i, slots, r.entries, k)
    decreases |slots|
  {
    if slots != [] {
      var n := |slots| - 1;
      StepsTarget(s, i, g, slots[..n]);
      StepStopped(s, i, Steps(s, i, g, slots[..n]), slots[..n], slots[n]);
      assert slots[..n] + [slots[n]] == slots;
    }
  }

  lemma StepStopped(s: StateValue, i: Input, g: Progress, slots: seq<Slot>, slot: Slot)
    requires |slots| == |g.report.entries| && g.report.targetMet == LatestMeets(i, slots, g.report.entries)
    requires forall k :: 0 <= k < |slots| ==> StoppedAtTarget(i, slots, g.report.entries, k)
    ensures var r := Step(s, i, g, slot).report;
      && |r.entries| == |slots| + 1 && r.targetMet == LatestMeets(i, slots + [slot], r.entries)
      && forall k :: 0 <= k < |slots| + 1 ==> StoppedAtTarget(i, slots + [slot], r.entries, k)
  {
    var r, n := Step(s, i, g, slot).report, |slots|;
    StepTarget(s, i, g, slots, slot);
    StepBooks(s, i, g, slot);
    assert (slots + [slot])[..n] == slots && r.entries[..n] == g.report.entries;
    forall k | 0 <= k < n + 1
      ensures StoppedAtTarget(i, slots + [slot], r.entries, k)
    {
      if k < n {
        StoppedGrows(i, slots, slot, g.report.entries, r.entries, k);
      }
    }
  }

  /** Outside a dry run no ladder plugin runs while the latest reading meets the target
      and no mount is short of inodes. */
  lemma NoLadderRunOnceTargetMet(s: StateValue, i: Input, slots: seq<Slot>, k: nat)
    requires LevelOf(i) != LEVEL_NONE && k < |slots|
    ensures |Cycle(s, i, slots).report.entries| == |slots|
    ensures StoppedAtTarget(i, slots, Cycle(s, i, slots).report.entries, k)
  {
    var loaded := Loaded(s, i);
    var start := Progress(Opening(i), loaded, false);
    OpeningTarget(i);
    StepsTarget(loaded, i, start, slots);
    MeasuredKeepsBooks(i, Steps(loaded, i, start, slots).report, i.final);
    CycleReport(s, i, slots);
  }

  lemma OpeningTarget(i: Input)
    ensures Opening(i).entries == [] && Opening(i).targetMet == LatestMeets(i, [], [])
  {
  }
}
