/** What a cycle records about progress, told from its measurements and entries, and what a
    cycle with no pressure clears. */
module CycleEvents {
  import opened Common
  import opened CleanupState
  import opened Governor
  import opened CycleAccounting
  import opened GovernorRuns
  import opened CycleOutcome
  import opened ByteHistory

  predicate SomeLadderRan(slots: seq<Slot>, entries: seq<Entry>)
    requires |slots| == |entries|
  {
    exists k | 0 <= k < |slots| :: entries[k].ran && !slots[k].plugin.levelIndependent
  }

  lemma LadderRanIs(i: Input, slots: seq<Slot>, r: Report)
    requires Accounted(i, slots, r)
    ensures AnyLadderRan(r.entries) <==> SomeLadderRan(slots, r.entries)
  {
    if AnyLadderRan(r.entries) {
      var e :| e in r.entries && e.ran && !e.levelIndependent;
      var k :| 0 <= k < |r.entries| && r.entries[k] == e;
      assert !slots[k].plugin.levelIndependent;
    }
  }

  /** A pressure cycle records byte progress if and only if its state was read, no measurement
      failed and there is byte pressure or an open streak. It records progress if and only if
      the byte level fell, the ladder's own runs freed the minimum, or free space grew by it
      while a ladder plugin ran; and an attempt if and only if one ran. */
  lemma ByteEventTells(s: StateValue, i: Input, slots: seq<Slot>)
    requires LevelOf(i) != LEVEL_NONE
    ensures |Cycle(s, i, slots).report.entries| == |slots|
    ensures var entries, e := Cycle(s, i, slots).report.entries, CycleEvent(s, Poll(i, slots));
      var rec := BytesOf(Loaded(s, i), i.monitorPath);
      && (e.Some? <==>
            && !i.dryRun && i.load != LoadFailed && i.monitorPath != "" && i.final.Some?
            && !AnyReadingFailed(i, slots, entries)
            && (i.before.value.byteLevel != LEVEL_NONE || rec.engaged || rec.noProgress > 0))
    ensures var entries, e := Cycle(s, i, slots).report.entries, CycleEvent(s, Poll(i, slots));
      e.Some? ==>
        && i.before.Some? && i.final.Some?
        && e.value.level == i.before.value.byteLevel
        && (e.value.ran <==> SomeLadderRan(slots, entries))
        && (e.value.engaged <==> ByteBackoffOn(Loaded(s, i), i)
                                 || (i.forced != LEVEL_NONE && BytesOf(Loaded(s, i), i.monitorPath).engaged))
        && (e.value.progress <==>
              || i.before.value.byteLevel == LEVEL_NONE
              || i.final.value.byteLevel < i.before.value.byteLevel
              || SumBytes(entries, true) >= ByteProgressMin(i.config)
              || (SomeLadderRan(slots, entries) && i.final.value.free - i.before.value.free >= ByteProgressMin(i.config)))
  {
    CycleReads(s, i, slots);
    PressureCycleAccounted(s, i, slots);
    LadderRanIs(i, slots, Cycle(s, i, slots).report);
    CycleReport(s, i, slots);
  }

  /** A pressure cycle counts inode relief if and only if inodes were gained or inode pressure
      cleared; with no inode pressure it settles an open streak. */
  lemma InodeEventTells(s: StateValue, i: Input, slots: seq<Slot>)
    requires LevelOf(i) != LEVEL_NONE && i.before.Some? && i.final.Some?
    ensures var loaded := Loaded(s, i);
      InodeEventOf(loaded, i, Cycle(s, i, slots).report) ==
      if i.dryRun || i.load == LoadFailed || i.final.value.inodesTotal == 0 then None
      else if i.maxInodeLevel != LEVEL_NONE then
        Some(i.final.value.inodesFree > i.before.value.inodesFree || i.final.value.inodeLevel == LEVEL_NONE)
      else if i.monitorPath != "" && InodesOf(loaded, i.monitorPath) > 0 then Some(true)
      else None
  {
    CycleReads(s, i, slots);
  }

  // ------------------------------------------------------------- no pressure

  /** The state file after a saved cycle with no pressure: every retry time is cleared, every
      count and last run stays; the byte streak of the path is over; inode counts stay. */
  lemma QuietClears(run: Run, k: nat)
    requires Valid(run) && k < |run.polls| && Quiet(run.polls[k].i) && run.polls[k].i.saveOk
    ensures var i, before, after := run.polls[k].i, OnDisk(run.files[k], run.polls[k].i), run.files[k + 1];
      && (forall n :: PluginOf(after, n) == PluginOf(before, n).(suppressedUntil := None))
      && after.inodes == before.inodes
      && (i.before.Some? && i.monitorPath != "" ==>
            BytesOf(after, i.monitorPath).noProgress <= 0 && !BytesOf(after, i.monitorPath).engaged)
      && (forall path :: path != i.monitorPath ==> BytesOf(after, path) == BytesOf(before, path))
  {
    var i, slots := run.polls[k].i, run.polls[k].slots;
    assert PollStep(run, k);
    PersistedIs(run.files[k], i, slots);
    var s := Loaded(run.files[k], i);
    assert s == OnDisk(run.files[k], i);
    LiftedIs(ApplyByteEvent(s, i.monitorPath, QuietEventOf(s, i)));
    forall n
      ensures PluginOf(run.files[k + 1], n) == PluginOf(s, n).(suppressedUntil := None)
    {
      if !AnySuppressed(s) && n in s.plugins {
        assert s.plugins[n].suppressedUntil.None?;
      }
    }
  }

  lemma LiftedIs(s: StateValue)
    ensures forall n :: PluginOf(Lifted(s), n) == PluginOf(s, n).(suppressedUntil := None)
    ensures Lifted(s).bytes == s.bytes && Lifted(s).inodes == s.inodes
  {
  }

  // ------------------------------------------------------- the inode counter in history

  /** The inode relief recorded and saved for a path by the first k cycles, since the state file
      was last lost. */
  function InodeHistory(run: Run, k: nat, path: string): seq<bool>
    requires k <= |run.polls| && k <= |run.files|
  {
    if k == 0 then []
    else
      var poll, before := run.polls[k - 1], InodeHistory(run, k - 1, path);
      var kept := if StateLost(poll.i) then [] else before;
      var e := InodeEventAt(run.files[k - 1], poll);
      if poll.i.monitorPath == path && path != "" && poll.i.saveOk && e.Some? then kept + [e.value] else kept
  }

  function InodeEventAt(s: StateValue, poll: Poll): Option<bool> {
    if LevelOf(poll.i) == LEVEL_NONE then None
    else InodeEventOf(Loaded(s, poll.i), poll.i, PluginPhase(Loaded(s, poll.i), poll.i, poll.slots).report)
  }

  /** The last n events brought no relief, and the one before them, if any, did. */
  predicate FruitlessSince(h: seq<bool>, n: nat) {
    && n <= |h|
    && (forall k :: |h| - n <= k < |h| ==> !h[k])
    && (n < |h| ==> h[|h| - 1 - n])
  }

  lemma {:induction false} StepsKeepInodes(s: StateValue, i: Input, g: Progress, slots: seq<Slot>)
    ensures Steps(s, i, g, slots).state.inodes == g.state.inodes
    decreases |slots|
  {
    if slots != [] {
      StepsKeepInodes(s, i, g, slots[..|slots| - 1]);
    }
  }

  lemma QuietKeepsInodes(s: StateValue, i: Input, slots: seq<Slot>)
    ensures QuietCycle(s, i, slots).state.inodes == s.inodes
  {
  }

  lemma PressureInodes(s: StateValue, i: Input, slots: seq<Slot>)
    ensures var e := InodeEventOf(s, i, PluginPhase(s, i, slots).report);
      && PressureCycle(s, i, slots).state.inodes == ApplyInodeEvent(s, i.monitorPath, e).inodes
      && (e.Some? ==> PressureCycle(s, i, slots).dirty && !i.dryRun && StateOk(i))
  {
    var g := PluginPhase(s, i, slots);
    StepsKeepInodes(s, i, Progress(Opening(i), s, false), slots);
    EventsKeepInodes(s, g.state, i, g.report);
  }

  lemma EventsKeepInodes(s: StateValue, s': StateValue, i: Input, r: Report)
    requires s'.inodes == s.inodes
    ensures var e := InodeEventOf(s, i, r);
      ApplyByteEvent(ApplyInodeEvent(s', i.monitorPath, e), i.monitorPath, ByteEventOf(s, i, r)).inodes
      == ApplyInodeEvent(s, i.monitorPath, e).inodes
  {
  }

  /** The count of a path after one event. */
  lemma EventCounts(s: StateValue, s': StateValue, at: string, e: Option<bool>, path: string)
    requires s'.inodes == ApplyInodeEvent(s, at, e).inodes
    ensures InodesOf(s', path) ==
            if at == path && path != "" && e.Some? then if e.value then 0 else InodesOf(s, path) + 1 else InodesOf(s, path)
  {
  }

  lemma CycleInodes(s: StateValue, poll: Poll, path: string)
    ensures var e := InodeEventAt(s, poll);
      && InodesOf(Cycle(s, poll.i, poll.slots).state, path) ==
           (if poll.i.monitorPath == path && path != "" && e.Some?
            then if e.value then 0 else InodesOf(Loaded(s, poll.i), path) + 1
            else InodesOf(Loaded(s, poll.i), path))
      && (e.Some? ==> Cycle(s, poll.i, poll.slots).dirty && !poll.i.dryRun && StateOk(poll.i))
  {
    var loaded := Loaded(s, poll.i);
    if LevelOf(poll.i) == LEVEL_NONE {
      QuietKeepsInodes(loaded, poll.i, poll.slots);
    } else {
      PressureInodes(loaded, poll.i, poll.slots);
      EventCounts(loaded, PressureCycle(loaded, poll.i, poll.slots).state, poll.i.monitorPath, InodeEventAt(s, poll), path);
    }
  }

  /** What the state file says of a path after one poll. */
  lemma FileInodes(s: StateValue, poll: Poll, s': StateValue, path: string)
    requires Follows(s, poll, s')
    ensures var e := InodeEventAt(s, poll);
      InodesOf(s', path) ==
        (if poll.i.monitorPath == path && path != "" && poll.i.saveOk && e.Some?
         then if e.value then 0 else InodesOf(OnDisk(s, poll.i), path) + 1
         else InodesOf(OnDisk(s, poll.i), path))
  {
    CycleInodes(s, poll, path);
    PersistedIs(s, poll.i, poll.slots);
    if !StateOk(poll.i) || poll.i.dryRun {
      UnreadableIsClean(s, poll.i, poll.slots);
    }
  }

  lemma FruitlessGrows(h: seq<bool>, n: nat, e: bool)
    requires FruitlessSince(h, n)
    ensures FruitlessSince(h + [e], if e then 0 else n + 1)
  {
  }

  /** In every run the inode count of a path is the number of recorded cycles without relief
      since the last one with relief. */
  lemma {:induction false} InodeCountIsFruitless(run: Run, k: nat, path: string)
    requires Valid(run) && k <= |run.polls|
    ensures InodesOf(run.files[k], path) >= 0 && FruitlessSince(InodeHistory(run, k, path), InodesOf(run.files[k], path))
    decreases k
  {
    if k > 0 {
      var s, poll := run.files[k - 1], run.polls[k - 1];
      InodeCountIsFruitless(run, k - 1, path);
      assert PollStep(run, k - 1);
      FileInodes(s, poll, run.files[k], path);
      if InodeEventAt(s, poll).Some? {
        FruitlessGrows(if StateLost(poll.i) then [] else InodeHistory(run, k - 1, path), InodesOf(OnDisk(s, poll.i), path),
                       InodeEventAt(s, poll).value);
      }
    }
  }
}
