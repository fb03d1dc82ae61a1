/** What the byte no-progress counter means in terms of the daemon's history, and what
    cannot influence it. */
module ByteHistory {
  import opened Common
  import opened CleanupState
  import opened Governor
  import opened CycleAccounting
  import opened GovernorRuns

  // ------------------------------------------------------- the counter as a count

  /** A recorded cycle in which a ladder plugin ran and nothing was relieved. */
  predicate FailedAttempt(e: ByteEvent) {
    e.ran && !e.progress
  }

  /** The event made progress, or the recorded level rose to it. */
  predicate Resets(h: seq<ByteEvent>, k: nat)
    requires k < |h|
  {
    h[k].progress || h[k].level > (if k == 0 then 0 else h[k - 1].level)
  }

  /** The failed attempts that no later event has reset. */
  ghost function PendingAttempts(h: seq<ByteEvent>): set<nat> {
    set k: nat | k < |h| && FailedAttempt(h[k]) && (forall m: nat :: k < m < |h| ==> !Resets(h, m))
  }

  /** The record after a history of recorded events. */
  function RecordOf(h: seq<ByteEvent>): ByteRecord {
    if h == [] then NO_BYTES
    else
      var e := h[|h| - 1];
      ByteRecorded(RecordOf(h[..|h| - 1]), e.level, e.progress, e.ran, e.engaged)
  }

  lemma PendingExtends(h: seq<ByteEvent>, e: ByteEvent)
    ensures var h' := h + [e];
      PendingAttempts(h') ==
        (if Resets(h', |h|) then {} else PendingAttempts(h)) + (if FailedAttempt(e) then {|h|} else {})
  {
    var h' := h + [e];
    assert forall k: nat :: k < |h| ==> h'[k] == h[k] && (Resets(h', k) <==> Resets(h, k));
    forall k: nat
      ensures k in PendingAttempts(h') <==>
              k in (if Resets(h', |h|) then {} else PendingAttempts(h)) + (if FailedAttempt(e) then {|h|} else {})
    {
      if k < |h| && (forall m: nat :: k < m < |h'| ==> !Resets(h', m)) {
        assert !Resets(h', |h|);
      }
    }
  }

  /** The counter is the number of pending attempts; level and engagement are the last ones. */
  lemma {:induction false} CounterCounts(h: seq<ByteEvent>)
    ensures RecordOf(h).noProgress == |PendingAttempts(h)|
    ensures RecordOf(h).lastLevel == if h == [] then 0 else h[|h| - 1].level
    ensures RecordOf(h).engaged <==> h != [] && h[|h| - 1].engaged
    decreases |h|
  {
    if h != [] {
      var n := |h| - 1;
      CounterCounts(h[..n]);
      assert h[..n] + [h[n]] == h;
      PendingExtends(h[..n], h[n]);
    }
  }

  // ------------------------------------------------------------- the counter over runs

  /** What a cycle records about the bytes of its path, before it knows whether the save works. */
  function CycleEvent(s: StateValue, poll: Poll): Option<ByteEvent> {
    if LevelOf(poll.i) == LEVEL_NONE then QuietEventOf(Loaded(s, poll.i), poll.i)
    else ByteEventOf(Loaded(s, poll.i), poll.i, PluginPhase(Loaded(s, poll.i), poll.i, poll.slots).report)
  }

  /** The events recorded and saved for a path by the first k cycles, since the state file was last lost. */
  function History(run: Run, k: nat, path: string): seq<ByteEvent>
    requires k <= |run.polls| && k <= |run.files|
  {
    if k == 0 then []
    else
      var poll, before := run.polls[k - 1], History(run, k - 1, path);
      var kept := if StateLost(poll.i) then [] else before;
      if poll.i.monitorPath == path && poll.i.saveOk && CycleEvent(run.files[k - 1], poll).Some?
      then kept + [CycleEvent(run.files[k - 1], poll).value] else kept
  }

  lemma {:induction false} StepsKeepBytes(s: StateValue, i: Input, g: Progress, slots: seq<Slot>)
    ensures Steps(s, i, g, slots).state.bytes == g.state.bytes
    decreases |slots|
  {
    if slots != [] {
      StepsKeepBytes(s, i, g, slots[..|slots| - 1]);
    }
  }

  /** A cycle applies its event to its own path's record and leaves every other path alone. */
  lemma CycleBytes(s: StateValue, poll: Poll, path: string)
    ensures var e := CycleEvent(s, poll);
      && BytesOf(Cycle(s, poll.i, poll.slots).state, path) ==
           (if poll.i.monitorPath == path && e.Some?
            then ByteRecorded(BytesOf(Loaded(s, poll.i), path), e.value.level, e.value.progress, e.value.ran, e.value.engaged)
            else BytesOf(Loaded(s, poll.i), path))
      && (e.Some? ==> Cycle(s, poll.i, poll.slots).dirty && !poll.i.dryRun && StateOk(poll.i))
  {
    var loaded := Loaded(s, poll.i);
    StepsKeepBytes(loaded, poll.i, Progress(Opening(poll.i), loaded, false), poll.slots);
  }

  lemma FileBytes(s: StateValue, poll: Poll, s': StateValue, path: string)
    requires Follows(s, poll, s')
    ensures var e := CycleEvent(s, poll);
      BytesOf(s', path) ==
        (if poll.i.monitorPath == path && poll.i.saveOk && e.Some?
         then ByteRecorded(BytesOf(OnDisk(s, poll.i), path), e.value.level, e.value.progress, e.value.ran, e.value.engaged)
         else BytesOf(OnDisk(s, poll.i), path))
  {
    CycleBytes(s, poll, path);
    if !StateOk(poll.i) || poll.i.dryRun {
      UnreadableIsClean(s, poll.i, poll.slots);
    }
  }

  lemma {:induction false} FileIsHistory(run: Run, k: nat, path: string)
    requires Valid(run) && k <= |run.polls|
    ensures BytesOf(run.files[k], path) == RecordOf(History(run, k, path))
    decreases k
  {
    if k > 0 {
      var s, poll := run.files[k - 1], run.polls[k - 1];
      FileIsHistory(run, k - 1, path);
      assert PollStep(run, k - 1);
      FileBytes(s, poll, run.files[k], path);
      var kept := if StateLost(poll.i) then [] else History(run, k - 1, path);
      assert BytesOf(OnDisk(s, poll.i), path) == RecordOf(kept);
      if poll.i.monitorPath == path && poll.i.saveOk && CycleEvent(s, poll).Some? {
        assert (kept + [CycleEvent(s, poll).value])[..|kept|] == kept;
      }
    }
  }

  /** In every run the no-progress count of a path is the number of recorded ladder attempts
      without progress since its last progress or recorded level rise, the rising cycle included. */
  lemma CounterIsPendingAttempts(run: Run, k: nat, path: string)
    requires Valid(run) && k <= |run.polls|
    ensures BytesOf(run.files[k], path).noProgress == |PendingAttempts(History(run, k, path))|
  {
    FileIsHistory(run, k, path);
    CounterCounts(History(run, k, path));
  }

  /** Byte backoff engages only after at least the configured number of such attempts, and
      never with free space below the emergency floor. */
  lemma BackoffNeedsAttempts(run: Run, k: nat)
    requires Valid(run) && k < |run.polls| && ByteBackoffOn(LoadedAt(run, k), run.polls[k].i)
    ensures var i := run.polls[k].i;
      && 0 < ByteLimit(i.config) <= |PendingAttempts(History(run, k, i.monitorPath))|
      && !StateLost(i)
      && i.before.Some? && i.before.value.free >= EmergencyFree(i.config)
  {
    CounterIsPendingAttempts(run, k, run.polls[k].i.monitorPath);
  }

  // ------------------------------------------------ level-independent plugins do not count

  /** The same plugins and measurements; only level-independent outcomes may differ. */
  predicate SameLadder(a: seq<Slot>, b: seq<Slot>) {
    && |a| == |b|
    && forall k :: 0 <= k < |a| ==>
         && a[k].plugin == b[k].plugin && a[k].after == b[k].after
         && (!a[k].plugin.levelIndependent ==> a[k].watch == b[k].watch)
  }

  /** Everything in a report that a later decision reads. */
  predicate Alike(r: Report, q: Report) {
    && r == q.(entries := r.entries, totalFreed := r.totalFreed, totalItems := r.totalItems)
    && (AnyLadderRan(r.entries) <==> AnyLadderRan(q.entries))
  }

  lemma AnyLadderRanGrows(entries: seq<Entry>, e: Entry)
    ensures AnyLadderRan(entries + [e]) <==> AnyLadderRan(entries) || (e.ran && !e.levelIndependent)
  {
    assert forall x :: x in entries + [e] <==> x in entries || x == e;
  }

  predicate AlikeProgress(g: Progress, h: Progress) {
    g.state == h.state && g.dirty == h.dirty && Alike(g.report, h.report)
  }

  lemma TargetStatusAlike(i: Input, r: Report, q: Report, st: Stats)
    requires Alike(r, q)
    ensures Alike(TargetStatus(i, r, st), TargetStatus(i, q, st))
  {
  }

  lemma ReadingAlike(i: Input, r: Report, q: Report, st: Stats)
    requires Alike(r, q)
    ensures Alike(Reading(i, r, st), Reading(i, q, st))
  {
  }

  lemma MeasuredAlike(i: Input, r: Report, q: Report, m: Option<Stats>)
    requires Alike(r, q)
    ensures Alike(Measured(i, r, m), Measured(i, q, m))
  {
    if m.Some? {
      ReadingAlike(i, r, q, m.value);
      TargetStatusAlike(i, Reading(i, r, m.value), Reading(i, q, m.value), m.value);
    }
  }

  lemma LevelIndependentAlike(i: Input, r: Report, q: Report, a: Slot, b: Slot)
    requires Alike(r, q) && a.plugin == b.plugin && a.plugin.levelIndependent
    ensures Alike(LevelIndependentStep(i, r, a), LevelIndependentStep(i, q, b))
  {
    LevelIndependentKeeps(i, r, a);
    LevelIndependentKeeps(i, q, b);
  }

  lemma LevelIndependentKeeps(i: Input, r: Report, slot: Slot)
    requires slot.plugin.levelIndependent
    ensures Alike(LevelIndependentStep(i, r, slot), r)
  {
    AnyLadderRanGrows(r.entries, StartedEntry(i.dryRun, Blank(slot.plugin), slot.watch, slot.plugin.planner));
  }

  lemma RunFoldedAlike(i: Input, g: Progress, h: Progress, slot: Slot, started: Entry, rec: PluginRecord)
    requires AlikeProgress(g, h)
    ensures AlikeProgress(RunFolded(i, g, slot, started, rec), RunFolded(i, h, slot, started, rec))
  {
    var entry := if StateOk(i)
                 then started.(zeroYieldCount := rec.zeroYieldCount, suppressedUntil := rec.suppressedUntil)
                 else started;
    AnyLadderRanGrows(g.report.entries, entry);
    AnyLadderRanGrows(h.report.entries, entry);
    MeasuredAlike(i, Credited(Appended(g.report, entry), slot.watch), Credited(Appended(h.report, entry), slot.watch), slot.after);
  }

  lemma LadderStepAlike(i: Input, g: Progress, h: Progress, slot: Slot, v: Verdict)
    requires AlikeProgress(g, h)
    ensures AlikeProgress(LadderStep(i, g, slot, v), LadderStep(i, h, slot, v))
  {
    if v.Hold? {
      var held := Blank(slot.plugin).(wouldRun := false, skip := Some(v.reason), zeroYieldCount := v.count,
                                      lifted := v.lifted, retryAt := v.retryAt);
      AnyLadderRanGrows(g.report.entries, held);
      AnyLadderRanGrows(h.report.entries, held);
    } else {
      var started := StartedEntry(i.dryRun, Blank(slot.plugin).(zeroYieldCount := v.count, lifted := v.lifted),
                                  slot.watch, slot.plugin.planner);
      if started.ran {
        RunFoldedAlike(i, g, h, slot, started,
                       RunRecord(i, slot.plugin, PluginOf(g.state, slot.plugin.name), started.bytesFreed));
      } else {
        AnyLadderRanGrows(g.report.entries, started);
        AnyLadderRanGrows(h.report.entries, started);
      }
    }
  }

  lemma {:induction false} StepsAlike(s: StateValue, i: Input, g: Progress, a: seq<Slot>, b: seq<Slot>)
    requires SameLadder(a, b)
    ensures AlikeProgress(Steps(s, i, g, a), Steps(s, i, g, b))
    decreases |a|
  {
    if a != [] {
      var n := |a| - 1;
      StepsAlike(s, i, g, a[..n], b[..n]);
      var x, y, p := Steps(s, i, g, a[..n]), Steps(s, i, g, b[..n]), a[n].plugin;
      if p.levelIndependent {
        LevelIndependentAlike(i, x.report, y.report, a[n], b[n]);
        MeasuredAlike(i, LevelIndependentStep(i, x.report, a[n]), LevelIndependentStep(i, y.report, b[n]), a[n].after);
      } else {
        assert a[n] == b[n];
        GateAlike(s, i, x.report, y.report, p, PluginOf(x.state, p.name));
        LadderStepAlike(i, x, y, a[n], Gate(s, i, x.report, p, PluginOf(x.state, p.name)));
      }
    }
  }

  lemma EventsAlike(s: StateValue, i: Input, r: Report, q: Report)
    requires Alike(r, q)
    ensures ByteEventOf(s, i, r) == ByteEventOf(s, i, q)
    ensures InodeEventOf(s, i, r) == InodeEventOf(s, i, q)
  {
  }

  /** With the same measurements, the outcomes of level-independent plugins change nothing
      the daemon remembers: no counter, no plugin record, no decision to save. */
  lemma LevelIndependentOutcomesDoNotCount(s: StateValue, i: Input, a: seq<Slot>, b: seq<Slot>)
    requires SameLadder(a, b)
    ensures Persisted(s, i, a) == Persisted(s, i, b)
    ensures CycleEvent(s, Poll(i, a)) == CycleEvent(s, Poll(i, b))
  {
    if LevelOf(i) != LEVEL_NONE {
      var loaded := Loaded(s, i);
      var start := Progress(Opening(i), loaded, false);
      StepsAlike(loaded, i, start, a, b);
      MeasuredAlike(i, Steps(loaded, i, start, a).report, Steps(loaded, i, start, b).report, i.final);
      EventsAlike(loaded, i, PluginPhase(loaded, i, a).report, PluginPhase(loaded, i, b).report);
    }
  }
}
