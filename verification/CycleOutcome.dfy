/** What one cycle makes of its measurements and of each plugin, exactly: the report fields
    later decisions read, who runs, and what every entry says. */
module CycleOutcome {
  import opened Common
  import opened CleanupState
  import opened Governor
  import opened CycleAccounting
  import opened GovernorRuns

  // ------------------------------------------------------------------- measurements

  /** The latest measurement that worked, taken after a plugin. */
  function ReadingAfter(slots: seq<Slot>, entries: seq<Entry>): Option<Stats>
    requires |slots| == |entries|
  {
    if slots == [] then None
    else
      var n := |slots| - 1;
      if MeasuredAfter(entries[n]) && slots[n].after.Some? then slots[n].after
      else ReadingAfter(slots[..n], entries[..n])
  }

  /** Some measurement failed, the first included. */
  predicate AnyReadingFailed(i: Input, slots: seq<Slot>, entries: seq<Entry>)
    requires |slots| == |entries|
  {
    i.before.None? || exists k | 0 <= k < |slots| :: MeasuredAfter(entries[k]) && slots[k].after.None?
  }

  /** The report says what this reading says, against the one before cleanup. */
  ghost predicate Reads(i: Input, r: Report, after: Option<Stats>, failed: bool) {
    && (r.freeError <==> failed)
    && (after.Some? ==>
          && r.byteLevelAfter == after.value.byteLevel
          && r.inodeLevel == after.value.inodeLevel && r.inodesTotal == after.value.inodesTotal)
    && (after.Some? && i.before.Some? ==>
          && r.freeDelta == after.value.free - i.before.value.free
          && r.inodesDelta == after.value.inodesFree - i.before.value.inodesFree)
    && (after.None? || i.before.None? ==> r.freeDelta == r.inodesDelta == 0)
    && (after.None? ==>
          && r.byteLevelAfter == LEVEL_NONE
          && r.inodeLevel == (if i.before.Some? then i.before.value.inodeLevel else LEVEL_NONE)
          && r.inodesTotal == (if i.before.Some? then i.before.value.inodesTotal else 0))
    && (r.minimumMet <==>
          && MinimumFree(i.config) > 0
          && var latest := if after.Some? then after else i.before;
             latest.Some? && latest.value.free >= MinimumFree(i.config))
  }

  lemma OpeningReads(i: Input)
    ensures Reads(i, Opening(i), None, i.before.None?)
  {
  }

  lemma MeasuredReads(i: Input, r: Report, after: Option<Stats>, failed: bool, m: Option<Stats>)
    requires Reads(i, r, after, failed)
    ensures Reads(i, Measured(i, r, m), if m.Some? then m else after, failed || m.None?)
  {
  }

  /** Two reports that agree on everything measured. */
  predicate SameReadings(r: Report, q: Report) {
    q == r.(entries := q.entries, totalFreed := q.totalFreed, totalItems := q.totalItems, ladderFreed := q.ladderFreed,
            stopped := q.stopped)
  }

  lemma SameReads(i: Input, r: Report, q: Report, after: Option<Stats>, failed: bool)
    requires Reads(i, r, after, failed) && SameReadings(r, q)
    ensures Reads(i, q, after, failed)
  {
  }

  /** What one iteration does to the readings: it measures after a level-independent plugin and
      after a ladder run that did not fail. */
  ghost predicate StepMeasures(i: Input, slot: Slot, r: Report, r': Report) {
    && |r'.entries| == |r.entries| + 1 && r'.entries[..|r.entries|] == r.entries
    && exists q :: SameReadings(r, q) && r' == if MeasuredAfter(r'.entries[|r.entries|]) then Measured(i, q, slot.after) else q
  }

  lemma LevelIndependentMeasures(i: Input, r: Report, slot: Slot)
    requires slot.plugin.levelIndependent
    ensures StepMeasures(i, slot, r, Measured(i, LevelIndependentStep(i, r, slot), slot.after))
  {
    var q := LevelIndependentStep(i, r, slot);
    MeasuredKeepsBooks(i, q, slot.after);
    LevelIndependentBooks(i, r, slot);
    assert SameReadings(r, q);
  }

  lemma RunFoldedMeasures(i: Input, g: Progress, slot: Slot, started: Entry, rec: PluginRecord)
    requires started.ran && !started.levelIndependent
    ensures StepMeasures(i, slot, g.report, RunFolded(i, g, slot, started, rec).report)
  {
    var entry := if StateOk(i)
                 then started.(zeroYieldCount := rec.zeroYieldCount, suppressedUntil := rec.suppressedUntil)
                 else started;
    var q := Credited(Appended(g.report, entry), slot.watch);
    MeasuredKeepsBooks(i, q, slot.after);
    assert SameReadings(g.report, q);
  }

  lemma LadderMeasures(i: Input, g: Progress, slot: Slot, v: Verdict)
    requires !slot.plugin.levelIndependent
    ensures StepMeasures(i, slot, g.report, LadderStep(i, g, slot, v).report)
  {
    var r' := LadderStep(i, g, slot, v).report;
    if v.Admit? {
      var started := StartedEntry(i.dryRun, Blank(slot.plugin).(zeroYieldCount := v.count, lifted := v.lifted),
                                  slot.watch, slot.plugin.planner);
      if started.ran {
        RunFoldedMeasures(i, g, slot, started,
                          RunRecord(i, slot.plugin, PluginOf(g.state, slot.plugin.name), started.bytesFreed));
        return;
      }
    }
    assert SameReadings(g.report, r');
  }

  lemma StepIsMeasured(s: StateValue, i: Input, g: Progress, slot: Slot)
    ensures StepMeasures(i, slot, g.report, Step(s, i, g, slot).report)
  {
    if slot.plugin.levelIndependent {
      LevelIndependentMeasures(i, g.report, slot);
    } else {
      LadderMeasures(i, g, slot, Gate(s, i, g.report, slot.plugin, PluginOf(g.state, slot.plugin.name)));
    }
  }

  lemma ReadsGrow(i: Input, slots: seq<Slot>, slot: Slot, r: Report, r': Report)
    requires |r.entries| == |slots| && StepMeasures(i, slot, r, r')
    requires Reads(i, r, ReadingAfter(slots, r.entries), AnyReadingFailed(i, slots, r.entries))
    ensures |r'.entries| == |slots| + 1
    ensures Reads(i, r', ReadingAfter(slots + [slot], r'.entries), AnyReadingFailed(i, slots + [slot], r'.entries))
  {
    var n, more := |slots|, slots + [slot];
    var q :| SameReadings(r, q) && r' == if MeasuredAfter(r'.entries[n]) then Measured(i, q, slot.after) else q;
    assert more[..n] == slots && r'.entries[..n] == r.entries;
    var after, failed := ReadingAfter(slots, r.entries), AnyReadingFailed(i, slots, r.entries);
    FailuresGrow(i, slots, slot, r.entries, r'.entries);
    SameReads(i, r, q, after, failed);
    MeasuredReads(i, q, after, failed, slot.after);
  }

  lemma FailuresGrow(i: Input, slots: seq<Slot>, slot: Slot, entries: seq<Entry>, entries': seq<Entry>)
    requires |entries| == |slots| && |entries'| == |slots| + 1 && entries'[..|slots|] == entries
    ensures AnyReadingFailed(i, slots + [slot], entries') <==>
              AnyReadingFailed(i, slots, entries) || (MeasuredAfter(entries'[|slots|]) && slot.after.None?)
  {
    var more := slots + [slot];
    assert forall k :: 0 <= k < |slots| ==> more[k] == slots[k] && entries'[k] == entries[k];
    assert more[|slots|] == slot;
  }

  lemma {:induction false} StepsRead(s: StateValue, i: Input, g: Progress, slots: seq<Slot>)
    requires g.report == Opening(i)
    ensures var r := Steps(s, i, g, slots).report;
      |r.entries| == |slots| && Reads(i, r, ReadingAfter(slots, r.entries), AnyReadingFailed(i, slots, r.entries))
    decreases |slots|
  {
    if slots == [] {
      OpeningReads(i);
    } else {
      var n := |slots| - 1;
      var before := Steps(s, i, g, slots[..n]);
      StepsRead(s, i, g, slots[..n]);
      StepIsMeasured(s, i, before, slots[n]);
      ReadsGrow(i, slots[..n], slots[n], before.report, Step(s, i, before, slots[n]).report);
      assert slots[..n] + [slots[n]] == slots;
    }
  }

  /** When the loop reaches a plugin, the report says what the latest measurement that worked
      says, against the one before cleanup; the minimum is met if and only if it says so. */
  lemma ReportReads(s: StateValue, i: Input, slots: seq<Slot>, k: nat)
    requires k <= |slots|
    ensures var r := ReportBefore(s, i, slots, k);
      |r.entries| == k && Reads(i, r, ReadingAfter(slots[..k], r.entries), AnyReadingFailed(i, slots[..k], r.entries))
  {
    StepsRead(s, i, Progress(Opening(i), s, false), slots[..k]);
  }

  /** So does the report of a pressure cycle, of the last measurement if that one works. */
  lemma CycleReads(s: StateValue, i: Input, slots: seq<Slot>)
    requires LevelOf(i) != LEVEL_NONE
    ensures var r := Cycle(s, i, slots).report;
      && |r.entries| == |slots|
      && Reads(i, r, if i.final.Some? then i.final else ReadingAfter(slots, r.entries),
               AnyReadingFailed(i, slots, r.entries) || i.final.None?)
  {
    var loaded := Loaded(s, i);
    var r := Steps(loaded, i, Progress(Opening(i), loaded, false), slots).report;
    StepsRead(loaded, i, Progress(Opening(i), loaded, false), slots);
    MeasuredKeepsBooks(i, r, i.final);
    MeasuredReads(i, r, ReadingAfter(slots, r.entries), AnyReadingFailed(i, slots, r.entries), i.final);
    CycleReport(s, i, slots);
  }

  // ------------------------------------------------------------------------ entries

  /** Which skip reason an entry gives, if any. */
  function SkipOf(i: Input, slot: Slot, v: Verdict): Option<SkipReason> {
    if !slot.plugin.levelIndependent && v.Hold? then Some(v.reason)
    else if i.dryRun then Some(if slot.plugin.planner && slot.watch.Wedged? then PluginWedged else DryRun)
    else if slot.watch.Wedged? then Some(PluginWedged)
    else None
  }

  /** A plugin runs if and only if this is no dry run, its gates let it through (a
      level-independent plugin has none) and no earlier run of it is still out; its entry
      then says what the run returned, and otherwise why it did not run. */
  ghost predicate EntryTells(i: Input, slot: Slot, e: Entry, v: Verdict) {
    && e.name == slot.plugin.name && e.levelIndependent == slot.plugin.levelIndependent
    && (e.ran <==> !i.dryRun && (slot.plugin.levelIndependent || v.Admit?) && !slot.watch.Wedged?)
    && e.skip == SkipOf(i, slot, v)
    && (e.ran && slot.watch.Finished? ==>
          && e.bytesFreed == slot.watch.result.bytesFreed && e.itemsCleaned == slot.watch.result.itemsCleaned
          && e.failed == slot.watch.result.failed)
    && (e.ran && slot.watch.Cancelled? ==>
          && e.bytesFreed == slot.watch.result.bytesFreed && e.itemsCleaned == slot.watch.result.itemsCleaned && e.failed)
    && (e.ran && slot.watch.Abandoned? ==> e.bytesFreed == e.itemsCleaned == 0 && e.failed)
    && (!e.ran ==> e.bytesFreed == e.itemsCleaned == 0 && !e.failed)
    && (!slot.plugin.levelIndependent && v.Hold? ==> e.retryAt == v.retryAt)
  }

  lemma StartedTells(i: Input, slot: Slot, e0: Entry, v: Verdict)
    requires e0.name == slot.plugin.name && e0.levelIndependent == slot.plugin.levelIndependent
    requires !e0.ran && !e0.failed && e0.bytesFreed == e0.itemsCleaned == 0 && e0.skip.None?
    requires slot.plugin.levelIndependent || v.Admit?
    ensures EntryTells(i, slot, StartedEntry(i.dryRun, e0, slot.watch, slot.plugin.planner), v)
  {
  }

  /** The last entry after one iteration. */
  ghost predicate LastTells(i: Input, slot: Slot, r: Report, v: Verdict) {
    |r.entries| > 0 && EntryTells(i, slot, r.entries[|r.entries| - 1], v)
  }

  lemma LevelIndependentTells(i: Input, r: Report, slot: Slot, v: Verdict)
    requires slot.plugin.levelIndependent
    ensures LastTells(i, slot, LevelIndependentStep(i, r, slot), v)
  {
    StartedTells(i, slot, Blank(slot.plugin), v);
  }

  lemma RunFoldedTells(i: Input, g: Progress, slot: Slot, started: Entry, rec: PluginRecord, v: Verdict)
    requires EntryTells(i, slot, started, v)
    requires started.ran && !slot.plugin.levelIndependent
    ensures LastTells(i, slot, RunFolded(i, g, slot, started, rec).report, v)
  {
    var entry := if StateOk(i)
                 then started.(zeroYieldCount := rec.zeroYieldCount, suppressedUntil := rec.suppressedUntil)
                 else started;
    MeasuredKeepsBooks(i, Credited(Appended(g.report, entry), slot.watch), slot.after);
  }

  lemma LadderTells(i: Input, g: Progress, slot: Slot, v: Verdict)
    requires !slot.plugin.levelIndependent
    ensures LastTells(i, slot, LadderStep(i, g, slot, v).report, v)
  {
    if v.Admit? {
      var e := Blank(slot.plugin).(zeroYieldCount := v.count, lifted := v.lifted);
      var started := StartedEntry(i.dryRun, e, slot.watch, slot.plugin.planner);
      StartedTells(i, slot, e, v);
      if started.ran {
        RunFoldedTells(i, g, slot, started,
                       RunRecord(i, slot.plugin, PluginOf(g.state, slot.plugin.name), started.bytesFreed), v);
      }
    }
  }

  lemma StepTells(s: StateValue, i: Input, g: Progress, slot: Slot)
    ensures LastTells(i, slot, Step(s, i, g, slot).report,
                      Gate(s, i, g.report, slot.plugin, PluginOf(g.state, slot.plugin.name)))
  {
    var v := Gate(s, i, g.report, slot.plugin, PluginOf(g.state, slot.plugin.name));
    if slot.plugin.levelIndependent {
      LevelIndependentTells(i, g.report, slot, v);
      MeasuredKeepsBooks(i, LevelIndependentStep(i, g.report, slot), slot.after);
    } else {
      LadderTells(i, g, slot, v);
    }
  }

  /** The loop when it reaches the k-th plugin. */
  function ProgressBefore(s: StateValue, i: Input, slots: seq<Slot>, k: nat): Progress
    requires k <= |slots|
  {
    Steps(s, i, Progress(Opening(i), s, false), slots[..k])
  }

  /** What the gates say of the k-th plugin when its turn comes. */
  function VerdictAt(s: StateValue, i: Input, slots: seq<Slot>, k: nat): Verdict
    requires k < |slots|
  {
    var g := ProgressBefore(s, i, slots, k);
    Gate(s, i, g.report, slots[k].plugin, PluginOf(g.state, slots[k].plugin.name))
  }

  /** The verdicts of the first n plugins, each when its turn comes. */
  function Verdicts(s: StateValue, i: Input, slots: seq<Slot>, n: nat): (vs: seq<Verdict>)
    requires n <= |slots|
    ensures |vs| == n
  {
    if n == 0 then [] else Verdicts(s, i, slots, n - 1) + [VerdictAt(s, i, slots, n - 1)]
  }

  ghost predicate AllTell(i: Input, slots: seq<Slot>, entries: seq<Entry>, vs: seq<Verdict>) {
    && |entries| == |vs| <= |slots|
    && forall k :: 0 <= k < |vs| ==> EntryTells(i, slots[k], entries[k], vs[k])
  }

  lemma AllTellGrows(i: Input, slots: seq<Slot>, r: Report, r': Report, vs: seq<Verdict>, v: Verdict)
    requires AllTell(i, slots, r.entries, vs) && |vs| < |slots|
    requires Booked(i, slots[|vs|], r, r') && LastTells(i, slots[|vs|], r', v)
    ensures AllTell(i, slots, r'.entries, vs + [v])
  {
    assert forall k :: 0 <= k < |vs| ==> r'.entries[k] == r.entries[k];
  }

  lemma {:induction false} EntriesTell(s: StateValue, i: Input, slots: seq<Slot>, n: nat)
    requires n <= |slots|
    ensures AllTell(i, slots, ProgressBefore(s, i, slots, n).report.entries, Verdicts(s, i, slots, n))
  {
    if n > 0 {
      EntriesTell(s, i, slots, n - 1);
      var before := ProgressBefore(s, i, slots, n - 1);
      ProgressAfter(s, i, slots, n - 1);
      StepTells(s, i, before, slots[n - 1]);
      StepBooks(s, i, before, slots[n - 1]);
      AllTellGrows(i, slots, before.report, Step(s, i, before, slots[n - 1]).report, Verdicts(s, i, slots, n - 1),
                   VerdictAt(s, i, slots, n - 1));
    }
  }

  lemma ProgressAfter(s: StateValue, i: Input, slots: seq<Slot>, k: nat)
    requires k < |slots|
    ensures ProgressBefore(s, i, slots, k + 1) == Step(s, i, ProgressBefore(s, i, slots, k), slots[k])
  {
    assert slots[..k + 1][..k] == slots[..k];
  }

  lemma {:induction false} VerdictIs(s: StateValue, i: Input, slots: seq<Slot>, n: nat, k: nat)
    requires k < n <= |slots|
    ensures Verdicts(s, i, slots, n)[k] == VerdictAt(s, i, slots, k)
    decreases n
  {
    if k < n - 1 {
      VerdictIs(s, i, slots, n - 1, k);
    }
  }

  /** In every pressure cycle every entry says exactly who ran and what came of it. */
  lemma CycleEntriesTell(s: StateValue, i: Input, slots: seq<Slot>)
    requires LevelOf(i) != LEVEL_NONE
    ensures var entries := Cycle(s, i, slots).report.entries;
      && |entries| == |slots|
      && forall k :: 0 <= k < |slots| ==> EntryTells(i, slots[k], entries[k], VerdictAt(Loaded(s, i), i, slots, k))
  {
    var loaded := Loaded(s, i);
    EntriesTell(loaded, i, slots, |slots|);
    assert slots[..|slots|] == slots;
    MeasuredKeepsBooks(i, Steps(loaded, i, Progress(Opening(i), loaded, false), slots).report, i.final);
    CycleReport(s, i, slots);
    var entries := Cycle(s, i, slots).report.entries;
    forall k | 0 <= k < |slots|
      ensures EntryTells(i, slots[k], entries[k], VerdictAt(loaded, i, slots, k))
    {
      VerdictIs(loaded, i, slots, |slots|, k);
    }
  }

  predicate StoppedBy(entries: seq<Entry>) {
    exists k | 0 <= k < |entries| :: entries[k].skip == Some(TargetFreeMet)
  }

  lemma StopsGrow(i: Input, slot: Slot, r: Report, r': Report, v: Verdict)
    requires Booked(i, slot, r, r') && LastTells(i, slot, r', v)
    requires r.stopped <==> StoppedBy(r.entries)
    requires r'.stopped <==> r.stopped || (!slot.plugin.levelIndependent && v.Hold? && v.reason == TargetFreeMet)
    ensures r'.stopped <==> StoppedBy(r'.entries)
  {
    var n := |r.entries|;
    assert forall k :: 0 <= k < n ==> r'.entries[k] == r.entries[k];
    if StoppedBy(r.entries) {
      var k :| 0 <= k < n && r.entries[k].skip == Some(TargetFreeMet);
      assert r'.entries[k].skip == Some(TargetFreeMet);
    }
  }

  lemma LadderStopFlag(i: Input, g: Progress, slot: Slot, v: Verdict)
    ensures LadderStep(i, g, slot, v).report.stopped <==> g.report.stopped || (v.Hold? && v.reason == TargetFreeMet)
  {
    if v.Admit? {
      var e := Blank(slot.plugin).(zeroYieldCount := v.count, lifted := v.lifted);
      AdmittedStopFlag(i, g, slot, e);
    }
  }

  lemma AdmittedStopFlag(i: Input, g: Progress, slot: Slot, e: Entry)
    ensures Admitted(i, g, slot, e).report.stopped == g.report.stopped
  {
    var started := StartedEntry(i.dryRun, e, slot.watch, slot.plugin.planner);
    if started.ran {
      RunFoldedStopFlag(i, g, slot, started,
                        RunRecord(i, slot.plugin, PluginOf(g.state, slot.plugin.name), started.bytesFreed));
    }
  }

  lemma RunFoldedStopFlag(i: Input, g: Progress, slot: Slot, started: Entry, rec: PluginRecord)
    ensures RunFolded(i, g, slot, started, rec).report.stopped == g.report.stopped
  {
  }

  lemma LevelIndependentStopFlag(i: Input, r: Report, slot: Slot)
    ensures Measured(i, LevelIndependentStep(i, r, slot), slot.after).stopped == r.stopped
  {
  }

  lemma StepStops(s: StateValue, i: Input, g: Progress, slot: Slot)
    requires g.report.stopped <==> StoppedBy(g.report.entries)
    ensures Step(s, i, g, slot).report.stopped <==> StoppedBy(Step(s, i, g, slot).report.entries)
  {
    var v := Gate(s, i, g.report, slot.plugin, PluginOf(g.state, slot.plugin.name));
    StepBooks(s, i, g, slot);
    StepTells(s, i, g, slot);
    if slot.plugin.levelIndependent {
      LevelIndependentStopFlag(i, g.report, slot);
    } else {
      LadderStopFlag(i, g, slot, v);
    }
    StopsGrow(i, slot, g.report, Step(s, i, g, slot).report, v);
  }

  lemma {:induction false} StepsStop(s: StateValue, i: Input, g: Progress, slots: seq<Slot>)
    requires g.report.entries == [] && !g.report.stopped
    ensures var r := Steps(s, i, g, slots).report; r.stopped <==> StoppedBy(r.entries)
    decreases |slots|
  {
    if slots != [] {
      var n := |slots| - 1;
      StepsStop(s, i, g, slots[..n]);
      StepStops(s, i, Steps(s, i, g, slots[..n]), slots[n]);
    }
  }

  /** The cycle reports that it stopped at its target if and only if some plugin was skipped
      for that reason. */
  lemma StoppedExactly(s: StateValue, i: Input, slots: seq<Slot>)
    requires LevelOf(i) != LEVEL_NONE
    ensures Cycle(s, i, slots).report.stopped <==> StoppedBy(Cycle(s, i, slots).report.entries)
  {
    var loaded := Loaded(s, i);
    StepsStop(loaded, i, Progress(Opening(i), loaded, false), slots);
    MeasuredKeepsBooks(i, Steps(loaded, i, Progress(Opening(i), loaded, false), slots).report, i.final);
    CycleReport(s, i, slots);
  }

  /** The plugins that run whatever the pressure. */
  function LevelIndependentOnly(slots: seq<Slot>): seq<Slot> {
    if slots == [] then []
    else
      var n := |slots| - 1;
      LevelIndependentOnly(slots[..n]) + if slots[n].plugin.levelIndependent then [slots[n]] else []
  }

  lemma {:induction false} QuietStepsTell(i: Input, slots: seq<Slot>, v: Verdict)
    ensures var r, ran := QuietSteps(i, Opening(i), slots), LevelIndependentOnly(slots);
      Accounted(i, ran, r) && forall k :: 0 <= k < |ran| ==> EntryTells(i, ran[k], r.entries[k], v)
    decreases |slots|
  {
    if slots != [] {
      var n := |slots| - 1;
      QuietStepsTell(i, slots[..n], v);
      if slots[n].plugin.levelIndependent {
        var before := QuietSteps(i, Opening(i), slots[..n]);
        LevelIndependentBooks(i, before, slots[n]);
        LevelIndependentTells(i, before, slots[n], v);
        BookedKeepsAccounts(i, LevelIndependentOnly(slots[..n]), slots[n], before, LevelIndependentStep(i, before, slots[n]));
      }
    }
  }

  /** With no pressure the report has one entry per level-independent plugin, in order, each
      telling of its run, with exact totals. */
  lemma QuietCycleTells(s: StateValue, i: Input, slots: seq<Slot>, v: Verdict)
    requires LevelOf(i) == LEVEL_NONE
    ensures var r, ran := Cycle(s, i, slots).report, LevelIndependentOnly(slots);
      Accounted(i, ran, r) && forall k :: 0 <= k < |ran| ==> EntryTells(i, ran[k], r.entries[k], v)
  {
    QuietStepsTell(i, slots, v);
  }
}
