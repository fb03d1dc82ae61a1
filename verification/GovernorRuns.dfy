/** Whole runs of the daemon: any sequence of cycles from a fresh state file, with any
    measurements, any plugin outcomes, and loads and saves that may fail. */
module GovernorRuns {
  import opened Common
  import opened Backoff
  import opened CleanupState
  import opened Governor
  import opened CycleAccounting

  /** One poll: what the cycle observes, and its plugins. */
  datatype Poll = Poll(i: Input, slots: seq<Slot>)

  /** One poll takes the state file from s to s'. */
  predicate Follows(s: StateValue, poll: Poll, s': StateValue) {
    s' == Persisted(s, poll.i, poll.slots)
  }

  /** A run: its polls, and the state file before and after each of them. */
  datatype Run = Run(polls: seq<Poll>, files: seq<StateValue>)

  ghost predicate Valid(run: Run) {
    && |run.files| == |run.polls| + 1
    && run.files[0] == FRESH
    && forall k :: 0 <= k < |run.polls| ==> PollStep(run, k)
  }

  predicate PollStep(run: Run, k: nat)
    requires k < |run.polls| && |run.files| == |run.polls| + 1
  {
    Follows(run.files[k], run.polls[k], run.files[k + 1])
  }

  /** The state the k-th cycle worked from, and what it did. */
  function LoadedAt(run: Run, k: nat): StateValue
    requires k < |run.polls| && k < |run.files|
  {
    Loaded(run.files[k], run.polls[k].i)
  }

  function CycleAt(run: Run, k: nat): Progress
    requires k < |run.polls| && k < |run.files|
  {
    Cycle(run.files[k], run.polls[k].i, run.polls[k].slots)
  }

  // ---------------------------------------------- the record of one plugin in one cycle

  predicate LadderRan(entries: seq<Entry>, name: string) {
    exists e | e in entries :: e.ran && !e.levelIndependent && e.name == name
  }

  /** What a recorded run leaves behind. */
  ghost predicate RunStamped(i: Input, rec: PluginRecord) {
    && rec.lastRun == Some(Stamp(i.now))
    && rec.lastLevel == LevelOf(i)
    && rec.digest == Some(DigestOf(i))
    && (rec.suppressedUntil.Some? ==>
          && ResolveZeroYield(i.config).limit > 0
          && rec.suppressedUntil.value == Stamp(i.now + ZeroYieldInterval(rec.zeroYieldCount, ResolveZeroYield(i.config))))
  }

  /** The report when the loop reaches the k-th plugin. */
  function ReportBefore(s: StateValue, i: Input, slots: seq<Slot>, k: nat): Report
    requires k <= |slots|
  {
    Steps(s, i, Progress(Opening(i), s, false), slots[..k]).report
  }

  /** The k-th plugin has this name, and the gates let it through with the report at that
      point and the record loaded. */
  predicate LetThrough(s: StateValue, i: Input, slots: seq<Slot>, k: nat, name: string)
    requires k < |slots|
  {
    var p := slots[k].plugin;
    p.name == name && !p.levelIndependent && Gate(s, i, ReportBefore(s, i, slots, k), p, PluginOf(s, name)).Admit?
  }

  /** Some plugin of this name was let through and ran. */
  ghost predicate AdmittedFrom(s: StateValue, i: Input, slots: seq<Slot>, name: string, entries: seq<Entry>) {
    && !i.dryRun && |entries| == |slots|
    && exists k: nat :: k < |slots| && LetThrough(s, i, slots, k, name) && entries[k].ran
  }

  /** One more plugin changes nothing about the earlier ones. */
  lemma AdmittedGrows(s: StateValue, i: Input, slots: seq<Slot>, slot: Slot, name: string, entries: seq<Entry>, e: Entry)
    requires AdmittedFrom(s, i, slots, name, entries)
    ensures AdmittedFrom(s, i, slots + [slot], name, entries + [e])
  {
    var k: nat :| k < |slots| && LetThrough(s, i, slots, k, name) && entries[k].ran;
    assert (slots + [slot])[..k] == slots[..k] && (slots + [slot])[k] == slots[k];
    assert LetThrough(s, i, slots + [slot], k, name) && (entries + [e])[k].ran;
  }

  lemma AdmittedNow(s: StateValue, i: Input, slots: seq<Slot>, slot: Slot, name: string, entries: seq<Entry>)
    requires !i.dryRun && |entries| == |slots| + 1 && entries[|slots|].ran
    requires slot.plugin.name == name && !slot.plugin.levelIndependent
    requires Gate(s, i, ReportBefore(s, i, slots, |slots|), slot.plugin, PluginOf(s, name)).Admit?
    ensures AdmittedFrom(s, i, slots + [slot], name, entries)
  {
    var n, more := |slots|, slots + [slot];
    assert more[..n] == slots[..n] && more[n] == slot;
    assert LetThrough(s, i, more, n, name);
  }

  /** Either the plugin was admitted, ran and was recorded, or its record is untouched. */
  ghost predicate Tracked(i: Input, name: string, rec: PluginRecord, g: Progress, admitted: bool) {
    if LadderRan(g.report.entries, name) then
      (StateOk(i) ==> g.dirty && RunStamped(i, PluginOf(g.state, name))) && admitted
    else
      PluginOf(g.state, name) == rec
  }

  ghost predicate RecordTracked(s: StateValue, i: Input, slots: seq<Slot>, name: string, g: Progress) {
    Tracked(i, name, PluginOf(s, name), g, AdmittedFrom(s, i, slots, name, g.report.entries))
  }

  lemma RunRecordStamped(i: Input, p: Plugin, rec: PluginRecord, bytesFreed: int)
    ensures RunStamped(i, RunRecord(i, p, rec, bytesFreed))
  {
  }

  lemma LadderRanGrows(entries: seq<Entry>, entries': seq<Entry>, name: string)
    requires |entries'| == |entries| + 1 && entries'[..|entries|] == entries
    ensures var e := entries'[|entries|];
      LadderRan(entries', name) <==> LadderRan(entries, name) || (e.ran && !e.levelIndependent && e.name == name)
  {
    var e := entries'[|entries|];
    assert entries' == entries + [e];
    assert forall x :: x in entries' <==> x in entries || x == e;
  }

  /** What one ladder iteration does to the state and the entries. */
  lemma LadderStepRecord(i: Input, g: Progress, slot: Slot, v: Verdict)
    requires !slot.plugin.levelIndependent
    ensures var g' := LadderStep(i, g, slot, v);
      && |g'.report.entries| == |g.report.entries| + 1
      && g'.report.entries[..|g.report.entries|] == g.report.entries
      && var e := g'.report.entries[|g.report.entries|];
      && e.name == slot.plugin.name && !e.levelIndependent
      && (e.ran ==> v.Admit? && !i.dryRun)
      && (e.ran && StateOk(i) ==> g'.dirty && RunStamped(i, PluginOf(g'.state, e.name)))
      && (forall n :: n != slot.plugin.name || !e.ran ==> PluginOf(g'.state, n) == PluginOf(g.state, n))
      && (g.dirty ==> g'.dirty)
  {
    if v.Admit? {
      var started := StartedEntry(i.dryRun, Blank(slot.plugin).(zeroYieldCount := v.count, lifted := v.lifted),
                                  slot.watch, slot.plugin.planner);
      if started.ran {
        var rec := RunRecord(i, slot.plugin, PluginOf(g.state, slot.plugin.name), started.bytesFreed);
        RunRecordStamped(i, slot.plugin, PluginOf(g.state, slot.plugin.name), started.bytesFreed);
        RunFoldedRecord(i, g, slot, started, rec);
      }
    }
  }

  lemma RunFoldedRecord(i: Input, g: Progress, slot: Slot, started: Entry, rec: PluginRecord)
    ensures var g' := RunFolded(i, g, slot, started, rec);
      && |g'.report.entries| == |g.report.entries| + 1
      && g'.report.entries[..|g.report.entries|] == g.report.entries
      && var e := g'.report.entries[|g.report.entries|];
      && e.name == started.name && e.levelIndependent == started.levelIndependent && e.ran == started.ran
      && g'.dirty == (g.dirty || StateOk(i))
      && (StateOk(i) ==> PluginOf(g'.state, slot.plugin.name) == rec)
      && (forall n :: n != slot.plugin.name ==> PluginOf(g'.state, n) == PluginOf(g.state, n))
  {
    var entry := if StateOk(i)
                 then started.(zeroYieldCount := rec.zeroYieldCount, suppressedUntil := rec.suppressedUntil)
                 else started;
    MeasuredKeepsBooks(i, Credited(Appended(g.report, entry), slot.watch), slot.after);
  }

  /** What one iteration does to the entries and to the plugins' records. */
  ghost predicate StepDoes(i: Input, g: Progress, slot: Slot, g': Progress, v: Verdict) {
    var n := |g.report.entries|;
    && |g'.report.entries| == n + 1 && g'.report.entries[..n] == g.report.entries
    && var e := g'.report.entries[n];
    && e.name == slot.plugin.name && e.levelIndependent == slot.plugin.levelIndependent
    && (e.ran && !e.levelIndependent ==> v.Admit? && !i.dryRun)
    && (e.ran && !e.levelIndependent && StateOk(i) ==> g'.dirty && RunStamped(i, PluginOf(g'.state, e.name)))
    && (forall m :: m != e.name || !e.ran || e.levelIndependent ==> PluginOf(g'.state, m) == PluginOf(g.state, m))
    && (g.dirty ==> g'.dirty)
  }

  lemma StepIsSo(s: StateValue, i: Input, g: Progress, slot: Slot)
    ensures StepDoes(i, g, slot, Step(s, i, g, slot), Gate(s, i, g.report, slot.plugin, PluginOf(g.state, slot.plugin.name)))
  {
    StepBooks(s, i, g, slot);
    if !slot.plugin.levelIndependent {
      LadderStepRecord(i, g, slot, Gate(s, i, g.report, slot.plugin, PluginOf(g.state, slot.plugin.name)));
    }
  }

  lemma TrackedGrows(i: Input, g: Progress, g': Progress, slot: Slot, v: Verdict, name: string, rec: PluginRecord,
                     admitted: bool, admitted': bool)
    requires Tracked(i, name, rec, g, admitted) && StepDoes(i, g, slot, g', v)
    requires admitted ==> admitted'
    requires var e := g'.report.entries[|g.report.entries|];
      e.ran && !e.levelIndependent && e.name == name && PluginOf(g.state, name) == rec ==> admitted'
    ensures Tracked(i, name, rec, g', admitted')
  {
    LadderRanGrows(g.report.entries, g'.report.entries, name);
  }

  /** A plugin that ran for the first time in this cycle was judged by the record loaded. */
  lemma AdmissionBegins(s: StateValue, i: Input, g: Progress, slots: seq<Slot>, slot: Slot, name: string, g': Progress, v: Verdict)
    requires g.report == ReportBefore(s, i, slots, |slots|) && |g.report.entries| == |slots|
    requires v == Gate(s, i, g.report, slot.plugin, PluginOf(g.state, slot.plugin.name)) && StepDoes(i, g, slot, g', v)
    requires var e := g'.report.entries[|slots|];
      e.ran && !e.levelIndependent && e.name == name && PluginOf(g.state, name) == PluginOf(s, name)
    ensures AdmittedFrom(s, i, slots + [slot], name, g'.report.entries)
  {
    AdmittedNow(s, i, slots, slot, name, g'.report.entries);
  }

  lemma AdmissionStays(s: StateValue, i: Input, slots: seq<Slot>, slot: Slot, name: string, entries: seq<Entry>, entries': seq<Entry>)
    requires AdmittedFrom(s, i, slots, name, entries)
    requires |entries'| == |slots| + 1 && entries'[..|slots|] == entries
    ensures AdmittedFrom(s, i, slots + [slot], name, entries')
  {
    AdmittedGrows(s, i, slots, slot, name, entries, entries'[|slots|]);
    assert entries' == entries + [entries'[|slots|]];
  }

  lemma StepTracked(s: StateValue, i: Input, g: Progress, slots: seq<Slot>, slot: Slot, name: string, g': Progress, v: Verdict)
    requires RecordTracked(s, i, slots, name, g)
    requires g.report == ReportBefore(s, i, slots, |slots|) && |g.report.entries| == |slots|
    requires v == Gate(s, i, g.report, slot.plugin, PluginOf(g.state, slot.plugin.name)) && StepDoes(i, g, slot, g', v)
    ensures RecordTracked(s, i, slots + [slot], name, g')
  {
    var e := g'.report.entries[|slots|];
    if AdmittedFrom(s, i, slots, name, g.report.entries) {
      AdmissionStays(s, i, slots, slot, name, g.report.entries, g'.report.entries);
    } else if e.ran && !e.levelIndependent && e.name == name && PluginOf(g.state, name) == PluginOf(s, name) {
      AdmissionBegins(s, i, g, slots, slot, name, g', v);
    }
    TrackedGrows(i, g, g', slot, v, name, PluginOf(s, name), AdmittedFrom(s, i, slots, name, g.report.entries),
                 AdmittedFrom(s, i, slots + [slot], name, g'.report.entries));
  }

  lemma {:induction false} StepsTracked(s: StateValue, i: Input, g: Progress, slots: seq<Slot>, name: string)
    requires g == Progress(Opening(i), s, false)
    ensures RecordTracked(s, i, slots, name, Steps(s, i, g, slots))
    ensures |Steps(s, i, g, slots).report.entries| == |slots|
    decreases |slots|
  {
    if slots != [] {
      var n := |slots| - 1;
      StepsTracked(s, i, g, slots[..n], name);
      var before, p := Steps(s, i, g, slots[..n]), slots[n].plugin;
      assert slots[..n][..n] == slots[..n];
      StepIsSo(s, i, before, slots[n]);
      StepTracked(s, i, before, slots[..n], slots[n], name, Step(s, i, before, slots[n]),
                  Gate(s, i, before.report, p, PluginOf(before.state, p.name)));
      assert slots[..n] + [slots[n]] == slots;
    }
  }

  lemma EventsKeepPlugins(s: StateValue, path: string, improved: Option<bool>, e: Option<ByteEvent>)
    ensures ApplyByteEvent(ApplyInodeEvent(s, path, improved), path, e).plugins == s.plugins
  {
  }

  /** A pressure cycle records exactly the ladder runs of a plugin, and touches no other record. */
  lemma PressureTracked(s: StateValue, i: Input, slots: seq<Slot>, name: string)
    ensures RecordTracked(s, i, slots, name, PressureCycle(s, i, slots))
  {
    var start := Progress(Opening(i), s, false);
    StepsTracked(s, i, start, slots, name);
    var g := PluginPhase(s, i, slots);
    MeasuredKeepsBooks(i, Steps(s, i, start, slots).report, i.final);
    EventsKeepPlugins(g.state, i.monitorPath, InodeEventOf(s, i, g.report), ByteEventOf(s, i, g.report));
  }

  /** A ladder plugin that ran was let through by its gates. */
  lemma CycleTracked(s: StateValue, i: Input, slots: seq<Slot>, name: string)
    requires LevelOf(i) != LEVEL_NONE
    ensures RecordTracked(Loaded(s, i), i, slots, name, Cycle(s, i, slots))
  {
    PressureTracked(Loaded(s, i), i, slots, name);
  }

  // ------------------------------------------------------------------ recorded runs

  /** The cycle ran this ladder plugin, recorded the run and saved the state. */
  predicate Records(s: StateValue, poll: Poll, name: string) {
    && LevelOf(poll.i) != LEVEL_NONE && StateOk(poll.i) && poll.i.saveOk
    && LadderRan(Cycle(s, poll.i, poll.slots).report.entries, name)
  }

  predicate Recorded(run: Run, k: nat, name: string)
    requires k < |run.polls| && k < |run.files|
  {
    Records(run.files[k], run.polls[k], name)
  }

  /** The cycle lost the state file: it was absent, empty or quarantined. */
  predicate StateLost(i: Input) {
    !i.dryRun && i.load == LoadFresh
  }

  /** A cycle with no pressure that could lift suppression. */
  predicate Quiet(i: Input) {
    LevelOf(i) == LEVEL_NONE && !i.dryRun && StateOk(i)
  }

  predicate SameRun(a: PluginRecord, b: PluginRecord) {
    a.lastRun == b.lastRun && a.lastLevel == b.lastLevel
  }

  lemma QuietTracked(s: StateValue, i: Input, slots: seq<Slot>, name: string)
    ensures SameRun(PluginOf(QuietCycle(s, i, slots).state, name), PluginOf(s, name))
  {
  }

  lemma PersistedIs(s: StateValue, i: Input, slots: seq<Slot>)
    ensures Persisted(s, i, slots) == (if Cycle(s, i, slots).dirty && i.saveOk then Cycle(s, i, slots).state else OnDisk(s, i))
    ensures LevelOf(i) == LEVEL_NONE ==> Cycle(s, i, slots) == QuietCycle(Loaded(s, i), i, slots)
  {
  }

  /** A run that was recorded and saved is what the state file says next. */
  lemma RecordedIsStamped(s: StateValue, poll: Poll, s': StateValue, name: string)
    requires Records(s, poll, name) && Follows(s, poll, s')
    ensures RunStamped(poll.i, PluginOf(s', name))
  {
    PersistedIs(s, poll.i, poll.slots);
    CycleTracked(s, poll.i, poll.slots, name);
  }

  lemma LadderStepClean(i: Input, g: Progress, slot: Slot, v: Verdict)
    requires (!StateOk(i) || i.dryRun) && !g.dirty
    ensures !LadderStep(i, g, slot, v).dirty
  {
  }

  lemma {:induction false} StepsClean(s: StateValue, i: Input, g: Progress, slots: seq<Slot>)
    requires (!StateOk(i) || i.dryRun) && !g.dirty
    ensures !Steps(s, i, g, slots).dirty
    decreases |slots|
  {
    if slots != [] {
      var n := |slots| - 1;
      StepsClean(s, i, g, slots[..n]);
      var g1 := Steps(s, i, g, slots[..n]);
      if !slots[n].plugin.levelIndependent {
        LadderStepClean(i, g1, slots[n], Gate(s, i, g1.report, slots[n].plugin, PluginOf(g1.state, slots[n].plugin.name)));
      }
    }
  }

  /** A dry run, or a cycle that could not read its state, writes nothing. */
  lemma UnreadableIsClean(s: StateValue, i: Input, slots: seq<Slot>)
    requires !StateOk(i) || i.dryRun
    ensures !Cycle(s, i, slots).dirty
  {
    if LevelOf(i) != LEVEL_NONE {
      StepsClean(Loaded(s, i), i, Progress(Opening(i), Loaded(s, i), false), slots);
    }
  }

  /** Between its recorded runs a plugin's record keeps its run, and keeps everything
      unless a cycle with no pressure lifts suppression. */
  lemma RecordFrame(s: StateValue, poll: Poll, s': StateValue, name: string)
    requires Follows(s, poll, s') && !Records(s, poll, name) && !StateLost(poll.i)
    ensures SameRun(PluginOf(s', name), PluginOf(s, name))
    ensures !Quiet(poll.i) ==> PluginOf(s', name) == PluginOf(s, name)
  {
    var i, slots := poll.i, poll.slots;
    PersistedIs(s, i, slots);
    if !StateOk(i) || i.dryRun {
      UnreadableIsClean(s, i, slots);
    } else if LevelOf(i) == LEVEL_NONE {
      QuietTracked(s, i, slots, name);
    } else {
      CycleTracked(s, i, slots, name);
    }
  }

  lemma {:induction false} RecordFrames(run: Run, i: nat, j: nat, name: string)
    requires Valid(run) && i < j <= |run.polls|
    requires forall k :: i < k < j ==> !Recorded(run, k, name) && !StateLost(run.polls[k].i)
    ensures SameRun(PluginOf(run.files[j], name), PluginOf(run.files[i + 1], name))
    ensures (forall k :: i < k < j ==> !Quiet(run.polls[k].i)) ==>
              PluginOf(run.files[j], name) == PluginOf(run.files[i + 1], name)
    decreases j
  {
    if i + 1 < j {
      RecordFrames(run, i, j - 1, name);
      assert !Recorded(run, j - 1, name);
      assert PollStep(run, j - 1);
      RecordFrame(run.files[j - 1], run.polls[j - 1], run.files[j], name);
    }
  }
}
