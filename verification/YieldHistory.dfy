/** What the zero-yield count of a plugin means in the daemon's history, and when a recorded
    run leaves the plugin suppressed. */
module YieldHistory {
  import opened Common
  import opened Backoff
  import opened CleanupState
  import opened Governor
  import opened CycleAccounting
  import opened GovernorRuns
  import opened CycleOutcome

  // ------------------------------------------------------------------ runs, as reported

  /** One run of a ladder plugin: what its entry says it freed, under which configuration. */
  datatype Yield = Yield(bytes: int, version: string, config: Config)

  /** The runs of a plugin among these entries. */
  function YieldsOf(i: Input, entries: seq<Entry>, name: string): seq<Yield> {
    if entries == [] then []
    else
      var n := |entries| - 1;
      var e := entries[n];
      YieldsOf(i, entries[..n], name)
      + if e.ran && !e.levelIndependent && e.name == name then [Yield(e.bytesFreed, i.version, i.config)] else []
  }

  /** What a cycle adds to the history of a plugin, if its state is read and saved. */
  function CycleYields(s: StateValue, poll: Poll, name: string): seq<Yield> {
    if LevelOf(poll.i) == LEVEL_NONE || poll.i.dryRun || poll.i.load == LoadFailed || !poll.i.saveOk then []
    else YieldsOf(poll.i, Cycle(s, poll.i, poll.slots).report.entries, name)
  }

  /** The recorded runs of a plugin in the first k cycles, since the state file was last lost. */
  function YieldHistory(run: Run, k: nat, name: string): seq<Yield>
    requires k <= |run.polls| && k <= |run.files|
  {
    if k == 0 then []
    else
      var poll := run.polls[k - 1];
      (if StateLost(poll.i) then [] else YieldHistory(run, k - 1, name)) + CycleYields(run.files[k - 1], poll, name)
  }

  // ------------------------------------------------------------------------- the count

  /** The smallest reclaim that counts: 256 MiB unless configured. */
  function LeastYield(c: Config): int {
    if c.byteProgressMinMB > 0 then c.byteProgressMinMB * 1024 * 1024 else 256 * 1024 * 1024
  }

  /** The limit of fruitless runs: 2 unless configured; negative turns suppression off. */
  function YieldLimit(c: Config): int {
    if c.zeroYieldLimit == 0 then 2 else c.zeroYieldLimit
  }

  /** The k-th run was under the configuration of the last one and freed less than the minimum. */
  predicate FruitlessLikeLast(h: seq<Yield>, k: nat)
    requires k < |h|
  {
    var last := h[|h| - 1];
    h[k].version == last.version && h[k].config == last.config && h[k].bytes < LeastYield(h[k].config)
  }

  /** n is the number of trailing runs, under the configuration of the last, that freed less
      than the minimum. */
  predicate TrailingFruitless(h: seq<Yield>, n: nat) {
    && n <= |h|
    && (forall k: nat :: |h| - n <= k < |h| ==> FruitlessLikeLast(h, k))
    && (n < |h| ==> !FruitlessLikeLast(h, |h| - 1 - n))
  }

  /** The record tells the history: the configuration of the last run, and how many trailing
      runs under it were fruitless, none being counted with suppression turned off. */
  ghost predicate Tells(rec: PluginRecord, h: seq<Yield>) {
    if h == [] then rec.zeroYieldCount == 0 && rec.digest.None?
    else
      var last := h[|h| - 1];
      && rec.digest == Some(Digest(last.version, last.config))
      && rec.zeroYieldCount >= 0
      && (if YieldLimit(last.config) < 0 then rec.zeroYieldCount == 0 else TrailingFruitless(h, rec.zeroYieldCount))
  }

  lemma TrailingGrows(h: seq<Yield>, n: nat, y: Yield)
    requires TrailingFruitless(h, n)
    ensures var same := h != [] && h[|h| - 1].version == y.version && h[|h| - 1].config == y.config;
      TrailingFruitless(h + [y], if y.bytes < LeastYield(y.config) then 1 + (if same then n else 0) else 0)
  {
    var h', m := h + [y], |h|;
    assert forall k :: 0 <= k < m ==> h'[k] == h[k];
    assert h'[m] == y;
    if y.bytes < LeastYield(y.config) && h != [] {
      if h[m - 1].version == y.version && h[m - 1].config == y.config {
        assert forall k: nat :: k < m ==> (FruitlessLikeLast(h', k) <==> FruitlessLikeLast(h, k));
      } else {
        assert !FruitlessLikeLast(h', m - 1);
      }
    }
  }

  /** A recorded run keeps the record telling the history, and sets a retry time if and only if
      the count reached the limit, suppression is on and the plugin is not exempt for good. */
  lemma RunTells(i: Input, p: Plugin, rec: PluginRecord, bytes: int, h: seq<Yield>)
    requires Tells(rec, h)
    ensures var rec', h' := RunRecord(i, p, rec, bytes), h + [Yield(bytes, i.version, i.config)];
      && Tells(rec', h')
      && (rec'.suppressedUntil.Some? <==>
            && YieldLimit(i.config) > 0 && rec'.zeroYieldCount >= YieldLimit(i.config)
            && !p.safetyCritical && p.name !in i.config.exemptPlugins)
  {
    var y := Yield(bytes, i.version, i.config);
    if YieldLimit(i.config) >= 0 {
      if h == [] {
        TrailingGrows(h, 0, y);
      } else if h[|h| - 1].version == y.version && h[|h| - 1].config == y.config {
        TrailingGrows(h, rec.zeroYieldCount, y);
      } else {
        NewConfiguration(h, y);
      }
    }
    IntervalIsPositive(rec.zeroYieldCount + 1, ResolveZeroYield(i.config));
    IntervalIsPositive(1, ResolveZeroYield(i.config));
  }

  lemma NewConfiguration(h: seq<Yield>, y: Yield)
    requires h != [] && !(h[|h| - 1].version == y.version && h[|h| - 1].config == y.config)
    ensures TrailingFruitless(h + [y], if y.bytes < LeastYield(y.config) then 1 else 0)
  {
    var h' := h + [y];
    assert h'[|h| - 1] == h[|h| - 1] && h'[|h|] == y;
    assert !FruitlessLikeLast(h', |h| - 1);
  }

  lemma IntervalIsPositive(count: int, p: ZeroYieldPolicy)
    requires 0 < p.base <= p.max
    ensures ZeroYieldInterval(count, p) > 0 <==> 0 < p.limit <= count
  {
    if 0 < p.limit <= count {
      DoubledPositive(p.base, count - p.limit);
    }
  }

  // --------------------------------------------------------------------- one cycle

  /** Suppressed exactly when the trailing fruitless runs reached the limit. */
  ghost predicate SuppressedRightly(i: Input, p: Plugin, rec: PluginRecord) {
    rec.suppressedUntil.Some? <==>
      && YieldLimit(i.config) > 0 && rec.zeroYieldCount >= YieldLimit(i.config)
      && !p.safetyCritical && p.name !in i.config.exemptPlugins
  }

  /** What one iteration does to the records: a ladder run is recorded with what its entry says
      it freed, and nothing else changes. */
  ghost predicate StepRecords(i: Input, g: Progress, slot: Slot, g': Progress) {
    && |g'.report.entries| == |g.report.entries| + 1
    && g'.report.entries[..|g.report.entries|] == g.report.entries
    && var e := g'.report.entries[|g.report.entries|];
    && e.name == slot.plugin.name && e.levelIndependent == slot.plugin.levelIndependent
    && forall m :: PluginOf(g'.state, m) ==
                   if m == e.name && e.ran && !e.levelIndependent && StateOk(i)
                   then RunRecord(i, slot.plugin, PluginOf(g.state, m), e.bytesFreed) else PluginOf(g.state, m)
  }

  lemma RunFoldedRecords(i: Input, g: Progress, slot: Slot, started: Entry)
    requires started.ran && !started.levelIndependent && started.name == slot.plugin.name && !slot.plugin.levelIndependent
    ensures var rec := RunRecord(i, slot.plugin, PluginOf(g.state, slot.plugin.name), started.bytesFreed);
      StepRecords(i, g, slot, RunFolded(i, g, slot, started, rec))
  {
    var rec := RunRecord(i, slot.plugin, PluginOf(g.state, slot.plugin.name), started.bytesFreed);
    var entry := if StateOk(i)
                 then started.(zeroYieldCount := rec.zeroYieldCount, suppressedUntil := rec.suppressedUntil)
                 else started;
    MeasuredKeepsBooks(i, Credited(Appended(g.report, entry), slot.watch), slot.after);
  }

  lemma LadderRecords(i: Input, g: Progress, slot: Slot, v: Verdict)
    requires !slot.plugin.levelIndependent
    ensures StepRecords(i, g, slot, LadderStep(i, g, slot, v))
  {
    if v.Admit? {
      var started := StartedEntry(i.dryRun, Blank(slot.plugin).(zeroYieldCount := v.count, lifted := v.lifted),
                                  slot.watch, slot.plugin.planner);
      if started.ran {
        RunFoldedRecords(i, g, slot, started);
      }
    }
  }

  lemma StepIsRecorded(s: StateValue, i: Input, g: Progress, slot: Slot)
    ensures StepRecords(i, g, slot, Step(s, i, g, slot))
  {
    if slot.plugin.levelIndependent {
      LevelIndependentBooks(i, g.report, slot);
      MeasuredKeepsBooks(i, LevelIndependentStep(i, g.report, slot), slot.after);
    } else {
      LadderRecords(i, g, slot, Gate(s, i, g.report, slot.plugin, PluginOf(g.state, slot.plugin.name)));
    }
  }

  /** The plugin of the last run of this name in the entries, if it ran. */
  function LastPlugin(slots: seq<Slot>, entries: seq<Entry>, name: string): Option<Plugin>
    requires |slots| == |entries|
  {
    if slots == [] then None
    else
      var n := |slots| - 1;
      if entries[n].ran && !entries[n].levelIndependent && entries[n].name == name then Some(slots[n].plugin)
      else LastPlugin(slots[..n], entries[..n], name)
  }

  /** During a cycle: the record tells the history with the runs so far, and after a run it is
      suppressed rightly. */
  ghost predicate Recording(i: Input, slots: seq<Slot>, g: Progress, h: seq<Yield>, name: string) {
    && |g.report.entries| == |slots|
    && Tells(PluginOf(g.state, name), h + YieldsOf(i, g.report.entries, name))
    && (LastPlugin(slots, g.report.entries, name).Some? ==>
          && LastPlugin(slots, g.report.entries, name).value.name == name
          && SuppressedRightly(i, LastPlugin(slots, g.report.entries, name).value, PluginOf(g.state, name)))
  }

  lemma RecordingGrows(i: Input, slots: seq<Slot>, slot: Slot, g: Progress, g': Progress, h: seq<Yield>, name: string)
    requires StateOk(i) && Recording(i, slots, g, h, name) && StepRecords(i, g, slot, g')
    ensures Recording(i, slots + [slot], g', h, name)
  {
    var n, more := |slots|, slots + [slot];
    var entries, e := g'.report.entries, g'.report.entries[n];
    assert more[..n] == slots && more[n] == slot && entries[..n] == g.report.entries;
    if e.ran && !e.levelIndependent && e.name == name {
      RunTells(i, slot.plugin, PluginOf(g.state, name), e.bytesFreed, h + YieldsOf(i, g.report.entries, name));
      assert h + (YieldsOf(i, g.report.entries, name) + [Yield(e.bytesFreed, i.version, i.config)])
          == h + YieldsOf(i, g.report.entries, name) + [Yield(e.bytesFreed, i.version, i.config)];
    } else {
      assert YieldsOf(i, entries, name) == YieldsOf(i, g.report.entries, name);
    }
  }

  lemma {:induction false} StepsRecord(s: StateValue, i: Input, g: Progress, slots: seq<Slot>, h: seq<Yield>, name: string)
    requires StateOk(i) && g.report.entries == [] && Tells(PluginOf(g.state, name), h)
    ensures Recording(i, slots, Steps(s, i, g, slots), h, name)
    decreases |slots|
  {
    if slots == [] {
      assert h + YieldsOf(i, [], name) == h;
    } else {
      var n := |slots| - 1;
      var before := Steps(s, i, g, slots[..n]);
      StepsRecord(s, i, g, slots[..n], h, name);
      StepIsRecorded(s, i, before, slots[n]);
      RecordingGrows(i, slots[..n], slots[n], before, Step(s, i, before, slots[n]), h, name);
      assert slots[..n] + [slots[n]] == slots;
    }
  }

  lemma PressureRecords(s: StateValue, i: Input, slots: seq<Slot>, h: seq<Yield>, name: string)
    requires StateOk(i) && Tells(PluginOf(s, name), h)
    ensures Recording(i, slots, PressureCycle(s, i, slots), h, name)
  {
    var start := Progress(Opening(i), s, false);
    StepsRecord(s, i, start, slots, h, name);
    var g := PluginPhase(s, i, slots);
    MeasuredKeepsBooks(i, Steps(s, i, start, slots).report, i.final);
    EventsKeepPlugins(g.state, i.monitorPath, InodeEventOf(s, i, g.report), ByteEventOf(s, i, g.report));
  }

  // ------------------------------------------------------------------------- every run

  lemma QuietTells(s: StateValue, i: Input, slots: seq<Slot>, h: seq<Yield>, name: string)
    requires Tells(PluginOf(s, name), h)
    ensures Tells(PluginOf(QuietCycle(s, i, slots).state, name), h)
  {
  }


  /** A saved pressure cycle with no ladder run of the plugin adds nothing; one with a run is dirty. */
  lemma {:induction false} YieldsMeanRan(i: Input, entries: seq<Entry>, name: string)
    ensures YieldsOf(i, entries, name) != [] ==> LadderRan(entries, name)
    ensures |YieldsOf(i, entries, name)| > 0 <==> LadderRan(entries, name)
  {
    if entries != [] {
      var n := |entries| - 1;
      YieldsMeanRan(i, entries[..n], name);
      LadderRanGrows(entries[..n], entries, name);
    }
  }

  lemma FileTells(s: StateValue, poll: Poll, s': StateValue, h: seq<Yield>, name: string)
    requires Follows(s, poll, s') && Tells(PluginOf(OnDisk(s, poll.i), name), h)
    ensures Tells(PluginOf(s', name), h + CycleYields(s, poll, name))
  {
    var i, slots := poll.i, poll.slots;
    assert h + [] == h;
    PersistedIs(s, i, slots);
    if !StateOk(i) || i.dryRun {
      UnreadableIsClean(s, i, slots);
    } else if LevelOf(i) == LEVEL_NONE {
      QuietTells(Loaded(s, i), i, slots, h, name);
    } else {
      PressureRecords(Loaded(s, i), i, slots, h, name);
      CycleTracked(s, i, slots, name);
      YieldsMeanRan(i, Cycle(s, i, slots).report.entries, name);
    }
  }

  lemma OnDiskTells(s: StateValue, i: Input, h: seq<Yield>, name: string)
    requires Tells(PluginOf(s, name), h)
    ensures Tells(PluginOf(OnDisk(s, i), name), if StateLost(i) then [] else h)
  {
  }

  /** In every run of the daemon the zero-yield count of a plugin is the number of its trailing
      recorded runs, under the configuration of the last one, that freed less than the minimum. */
  lemma {:induction false} CountIsTrailingFruitless(run: Run, k: nat, name: string)
    requires Valid(run) && k <= |run.polls|
    ensures Tells(PluginOf(run.files[k], name), YieldHistory(run, k, name))
    decreases k
  {
    if k > 0 {
      CountIsTrailingFruitless(run, k - 1, name);
      assert PollStep(run, k - 1);
      var h, i := YieldHistory(run, k - 1, name), run.polls[k - 1].i;
      OnDiskTells(run.files[k - 1], i, h, name);
      FileTells(run.files[k - 1], run.polls[k - 1], run.files[k], if StateLost(i) then [] else h, name);
    }
  }

  /** After a recorded run a plugin is suppressed if and only if suppression is on, the trailing
      fruitless runs have reached the limit, and the plugin is neither safety-critical nor
      listed as exempt. */
  lemma SuppressedExactly(run: Run, k: nat, name: string)
    requires Valid(run) && k < |run.polls| && Recorded(run, k, name)
    ensures var i, rec := run.polls[k].i, PluginOf(run.files[k + 1], name);
      && |CycleAt(run, k).report.entries| == |run.polls[k].slots|
      && var last := LastPlugin(run.polls[k].slots, CycleAt(run, k).report.entries, name);
      && last.Some?
      && (rec.suppressedUntil.Some? <==>
            && YieldLimit(i.config) > 0 && rec.zeroYieldCount >= YieldLimit(i.config)
            && !last.value.safetyCritical && name !in i.config.exemptPlugins)
  {
    CountIsTrailingFruitless(run, k, name);
    assert PollStep(run, k);
    var h, poll := YieldHistory(run, k, name), run.polls[k];
    OnDiskTells(run.files[k], poll.i, h, name);
    PollSuppresses(run.files[k], poll, run.files[k + 1], if StateLost(poll.i) then [] else h, name);
  }

  lemma PollSuppresses(s: StateValue, poll: Poll, s': StateValue, h: seq<Yield>, name: string)
    requires Follows(s, poll, s') && Records(s, poll, name) && Tells(PluginOf(OnDisk(s, poll.i), name), h)
    ensures var entries := Cycle(s, poll.i, poll.slots).report.entries;
      && |entries| == |poll.slots|
      && var last := LastPlugin(poll.slots, entries, name);
         last.Some? && last.value.name == name && SuppressedRightly(poll.i, last.value, PluginOf(s', name))
  {
    RecordedIsSaved(s, poll, s', name);
    PressureRecords(Loaded(s, poll.i), poll.i, poll.slots, h, name);
    LastPluginRan(poll.slots, Cycle(s, poll.i, poll.slots).report.entries, name);
  }

  lemma RecordedIsSaved(s: StateValue, poll: Poll, s': StateValue, name: string)
    requires Follows(s, poll, s') && Records(s, poll, name)
    ensures !poll.i.dryRun && StateOk(poll.i) && s' == Cycle(s, poll.i, poll.slots).state
    ensures Cycle(s, poll.i, poll.slots) == PressureCycle(Loaded(s, poll.i), poll.i, poll.slots)
  {
    CycleTracked(s, poll.i, poll.slots, name);
    PersistedIs(s, poll.i, poll.slots);
  }

  lemma {:induction false} LastPluginRan(slots: seq<Slot>, entries: seq<Entry>, name: string)
    requires |slots| == |entries|
    ensures LastPlugin(slots, entries, name).Some? <==> LadderRan(entries, name)
  {
    if slots != [] {
      var n := |slots| - 1;
      LastPluginRan(slots[..n], entries[..n], name);
      LadderRanGrows(entries[..n], entries, name);
    }
  }
}
