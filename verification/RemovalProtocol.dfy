/** removeTree (plugins/bazel_bases.go) as a state machine: check, lock, rename aside,
    re-check, then rename back or delete, interleaved with every other process, and with
    every file-system call allowed to fail. */
module RemovalProtocol {

  /** What stands at a path: nothing, an empty directory, the base with all its contents,
      what a failed deletion left of it, or somebody else's tree. */
  datatype Node = Vacant | EmptyDir | Whole | Partial | Foreign

  /** What Lstat would find at the base's lock path. */
  datatype LockEntry = NoEntry | RegularFile | OtherEntry

  /** LockSkipped records what was so when the lock was passed over: whether the tree is a
      base, what stood at its lock path, and whether Lstat could say so. */
  datatype Event =
    | LockTaken
    | LockSkipped(isBase: bool, entry: LockEntry, statOk: bool)
    | Renamed
    | Inventoried(complete: bool, held: bool)
    | Rechecked(clean: bool)
    | RenamedBack
    | Deleting
    | Released
    | Returned(removed: bool)

  /** The point in removeTree that runs next. */
  datatype Point = Safety | Inventory | TakeLock | LookAside | Rename | LateInventory | Recheck
                 | RenameBack | MakeWritable | RemoveAll | Done

  datatype State = State(
    point: Point,
    isBase: bool,
    path: Node,
    aside: Node,
    // Other processes: the entry at the base's lock path, who holds the lock, who holds what is at path or aside.
    lockEntry: LockEntry,
    otherLock: bool,
    pathHeld: bool,
    asideHeld: bool,
    // This call: the lock it took, if any, and what it has done.
    ourLock: bool,
    log: seq<Event>)

  predicate Initial(s: State) {
    && s.point == Safety && s.path == Whole && s.aside in {Vacant, EmptyDir, Foreign}
    && !s.ourLock && s.log == []
  }

  /** Steps of other processes. They neither move nor destroy the base, cannot take a lock
      that is held, and may create or remove trees of their own at either path. */
  datatype Outside =
    | Hold(path: bool, aside: bool)
    | PutLockEntry(entry: LockEntry)
    | TakeOther
    | DropOther
    | PutPath(node: Node)
    | PutAside(node: Node)

  predicate Theirs(n: Node) {
    n in {Vacant, EmptyDir, Foreign}
  }

  predicate OutsideEnabled(s: State, o: Outside) {
    match o
    case Hold(_, _) => true
    case PutLockEntry(_) => true
    case TakeOther => !s.ourLock
    case DropOther => true
    case PutPath(n) => Theirs(s.path) && Theirs(n)
    case PutAside(n) => Theirs(s.aside) && Theirs(n)
  }

  function OutsideNext(s: State, o: Outside): State {
    match o
    case Hold(p, a) => s.(pathHeld := p, asideHeld := a)
    case PutLockEntry(e) => s.(lockEntry := e)
    case TakeOther => s.(otherLock := true)
    case DropOther => s.(otherLock := false)
    case PutPath(n) => s.(path := n)
    case PutAside(n) => s.(aside := n)
  }

  /** What the next call answers: whether it works, whether Lstat of the lock path does, what
      the inventory says, and whether a failing deletion deleted some. */
  datatype Reply = Reply(ok: bool, statOk: bool, complete: bool, live: bool, deletedSome: bool)

  /** The one case in which removeTree asks for Bazel's lock. */
  predicate AsksForLock(isBase: bool, entry: LockEntry, statOk: bool) {
    isBase && entry == RegularFile && statOk
  }

  /** Seen through a lock of ours, if any: no other holder. */
  predicate NobodyElseHolds(s: State, r: Reply) {
    s.ourLock ==> r.ok && !s.otherLock
  }

  /** A return gives the lock back. */
  function Return(s: State, removed: bool): State {
    s.(point := Done, ourLock := false,
       log := s.log + (if s.ourLock then [Released] else []) + [Returned(removed)])
  }

  /** rename works onto nothing or onto an empty directory. */
  predicate Renameable(target: Node) {
    target == Vacant || target == EmptyDir
  }

  /** The next step of removeTree. A complete inventory sees who holds the tree it is asked about. */
  function Next(s: State, r: Reply): State
    requires s.point != Done
  {
    match s.point
    case Safety => if r.ok then s.(point := Inventory) else Return(s, false)
    case Inventory =>
      var lockHeld := r.statOk && s.lockEntry == RegularFile && s.otherLock;
      if !r.complete || s.pathHeld || lockHeld || r.live then Return(s, false) else s.(point := TakeLock)
    case TakeLock =>
      if s.isBase && r.statOk && s.lockEntry == RegularFile then
        if !r.ok || s.otherLock then Return(s, false)
        else s.(point := LookAside, ourLock := true, log := s.log + [LockTaken])
      else s.(point := LookAside, log := s.log + [LockSkipped(s.isBase, s.lockEntry, r.statOk)])
    case LookAside => if s.aside != Vacant && r.ok then Return(s, false) else s.(point := Rename)
    case Rename =>
      if !r.ok || !Renameable(s.aside) then Return(s, false)
      else s.(point := LateInventory, aside := s.path, path := Vacant, log := s.log + [Renamed])
    case LateInventory =>
      var seen := s.asideHeld || r.live;
      s.(point := if r.complete && !seen then Recheck else RenameBack,
         log := s.log + [Inventoried(r.complete, s.asideHeld)])
    case Recheck =>
      var dirty := s.ourLock && (!r.ok || s.otherLock);
      s.(point := if dirty then RenameBack else MakeWritable,
         log := s.log + [Rechecked(NobodyElseHolds(s, r))])
    case RenameBack =>
      if !r.ok || !Renameable(s.path) then Return(s, false)
      else Return(s.(path := s.aside, aside := Vacant, log := s.log + [RenamedBack]), false)
    case MakeWritable => if r.ok then s.(point := RemoveAll) else Return(s, false)
    case RemoveAll =>
      var s1 := s.(log := s.log + [Deleting]);
      if r.ok then Return(s1.(aside := Vacant), true)
      else Return(s1.(aside := if r.deletedSome then Partial else s.aside), false)
  }

  // ------------------------------------------------------------------------ invariant

  /** Before the rename: the lock was taken, or there was no asking for it. */
  predicate Opens(e: Event) {
    e.LockTaken? || (e.LockSkipped? && !AsksForLock(e.isBase, e.entry, e.statOk))
  }

  /** What must have happened, in this order and with nothing in between, before anything is deleted. */
  function Licence(opening: Event): seq<Event> {
    [opening, Renamed, Inventoried(true, false), Rechecked(true)]
  }

  function Closing(opening: Event, removed: bool): seq<Event> {
    (if opening.LockTaken? then [Released] else []) + [Returned(removed)]
  }

  /** The base is whole at exactly one of the two paths. */
  predicate WholeOnce(s: State) {
    (s.path == Whole && Theirs(s.aside)) || (s.aside == Whole && Theirs(s.path))
  }

  /** The late inventory or the recheck said no. */
  predicate Refused(log: seq<Event>, opening: Event) {
    && 3 <= |log| <= 4 && log[..2] == Licence(opening)[..2] && log[2].Inventoried?
    && (|log| == 4 ==> log[3] == Rechecked(false))
  }

  /** Before the return, the point reached determines the log and where the base is. */
  predicate Running(s: State, opening: Event) {
    && Opens(opening)
    && s.ourLock == (opening.LockTaken? && s.point !in {Safety, Inventory, TakeLock})
    && (s.ourLock ==> !s.otherLock)
    && WholeOnce(s)
    && match s.point
       case Safety => s.log == [] && s.path == Whole
       case Inventory => s.log == [] && s.path == Whole
       case TakeLock => s.log == [] && s.path == Whole
       case LookAside => s.log == [opening] && s.path == Whole
       case Rename => s.log == [opening] && s.path == Whole
       case LateInventory => s.log == Licence(opening)[..2] && s.aside == Whole
       case Recheck => s.log == Licence(opening)[..3] && s.aside == Whole
       case RenameBack => Refused(s.log, opening) && s.aside == Whole
       case MakeWritable => s.log == Licence(opening) && s.aside == Whole
       case RemoveAll => s.log == Licence(opening) && s.aside == Whole
       case Done => false
  }

  /** After the return: either nothing was deleted and the base is whole where the log says,
      or the deletion was licensed and the answer says whether the base is gone. */
  predicate Settled(s: State, opening: Event, removed: bool) {
    && s.point == Done && !s.ourLock && Opens(opening)
    && (if Deleting in s.log then
          && s.log == Licence(opening) + [Deleting] + Closing(opening, removed)
          && Theirs(s.path) && (if removed then Theirs(s.aside) else s.aside in {Whole, Partial})
        else
          && !removed && WholeOnce(s) && |s.log| > 0 && s.log[|s.log| - 1] == Returned(false)
          && (s.path == Whole <==> (Renamed in s.log ==> RenamedBack in s.log)))
  }

  ghost predicate Inv(s: State) {
    (exists opening :: Running(s, opening)) || (exists opening, removed :: Settled(s, opening, removed))
  }

  lemma OutsideKeepsInv(s: State, o: Outside)
    requires Inv(s) && OutsideEnabled(s, o)
    ensures Inv(OutsideNext(s, o))
  {
    var s' := OutsideNext(s, o);
    if opening :| Running(s, opening) {
      assert Running(s', opening);
    } else {
      var opening, removed :| Settled(s, opening, removed);
      assert Settled(s', opening, removed);
    }
  }

  /** A return with nothing deleted, from a log that says where the base is. */
  lemma ReturnSettles(s: State, opening: Event)
    requires WholeOnce(s) && Deleting !in s.log && Opens(opening)
    requires s.path == Whole <==> (Renamed in s.log ==> RenamedBack in s.log)
    ensures Settled(Return(s, false), opening, false)
  {
    var tail := (if s.ourLock then [Released] else []) + [Returned(false)];
    assert Return(s, false).log == s.log + tail;
    assert forall e :: e in s.log + tail <==> e in s.log || e in tail;
  }

  lemma GiveUpEarly(s: State, opening: Event)
    requires Running(s, opening) && s.point in {Safety, Inventory, TakeLock, LookAside, Rename}
    ensures Settled(Return(s, false), opening, false)
  {
    assert s.log == [] || s.log == [opening];
    ReturnSettles(s, opening);
  }

  /** The checks before the rename. */
  lemma EarlyStep(s: State, r: Reply, opening: Event)
    requires Running(s, opening) && s.point in {Safety, Inventory, LookAside}
    ensures Inv(Next(s, r))
  {
    GiveUpEarly(s, opening);
    assert Next(s, r).point != Done ==> Running(Next(s, r), opening);
  }

  lemma TakeLockStep(s: State, r: Reply, opening: Event)
    requires Running(s, opening) && s.point == TakeLock
    ensures Inv(Next(s, r))
  {
    GiveUpEarly(s, opening);
    assert Next(s, r).point != Done ==> Running(Next(s, r), Next(s, r).log[0]);
  }

  lemma RenameStep(s: State, r: Reply, opening: Event)
    requires Running(s, opening) && s.point == Rename
    ensures Inv(Next(s, r))
  {
    GiveUpEarly(s, opening);
    assert [opening] + [Renamed] == Licence(opening)[..2];
    assert Next(s, r).point != Done ==> Running(Next(s, r), opening);
  }

  /** The late inventory and the recheck. */
  lemma CheckStep(s: State, r: Reply, opening: Event)
    requires Running(s, opening) && s.point in {LateInventory, Recheck}
    ensures Inv(Next(s, r))
  {
    var s' := Next(s, r);
    if s'.point == RenameBack {
      assert s'.log[..2] == Licence(opening)[..2] && s'.log[2].Inventoried?;
      assert Refused(s'.log, opening);
    } else if s.point == LateInventory {
      assert s'.log == Licence(opening)[..3];
    } else {
      assert s'.log == Licence(opening);
    }
    assert Running(s', opening);
  }

  lemma RefusedEvents(log: seq<Event>, opening: Event)
    requires Refused(log, opening) && Opens(opening)
    ensures Renamed in log && RenamedBack !in log && Deleting !in log && (LockTaken in log ==> opening.LockTaken?)
  {
    assert log[0] == Licence(opening)[0] && log[1] == Licence(opening)[1] == Renamed;
    assert forall e :: e in log ==> e == log[0] || e == log[1] || e == log[2] || e == Rechecked(false);
  }

  lemma RenameBackStep(s: State, r: Reply, opening: Event)
    requires Running(s, opening) && s.point == RenameBack
    ensures Settled(Next(s, r), opening, false)
  {
    RefusedEvents(s.log, opening);
    var back := s.(path := s.aside, aside := Vacant, log := s.log + [RenamedBack]);
    assert forall e :: e in back.log <==> e in s.log || e == RenamedBack;
    if r.ok && Renameable(s.path) {
      ReturnSettles(back, opening);
    } else {
      ReturnSettles(s, opening);
    }
  }

  lemma LicenceEvents(opening: Event)
    requires Opens(opening)
    ensures Renamed in Licence(opening) && RenamedBack !in Licence(opening) && Deleting !in Licence(opening)
    ensures LockTaken in Licence(opening) <==> opening.LockTaken?
  {
    assert Licence(opening)[1] == Renamed;
    assert Licence(opening)[0] == opening;
  }

  lemma MakeWritableStep(s: State, r: Reply, opening: Event)
    requires Running(s, opening) && s.point == MakeWritable
    ensures Inv(Next(s, r))
  {
    LicenceEvents(opening);
    if r.ok {
      assert Running(Next(s, r), opening);
    } else {
      ReturnSettles(s, opening);
    }
  }

  lemma RemoveAllStep(s: State, r: Reply, opening: Event)
    requires Running(s, opening) && s.point == RemoveAll
    ensures Settled(Next(s, r), opening, r.ok)
  {
    var log := Next(s, r).log;
    assert log == Licence(opening) + [Deleting] + Closing(opening, r.ok);
    assert log[|Licence(opening)|] == Deleting;
  }

  // ----------------------------------------------------------------------- behaviours

  datatype Move = Ours(reply: Reply) | Others(outside: Outside)

  predicate Enabled(s: State, m: Move) {
    match m
    case Ours(_) => s.point != Done
    case Others(o) => OutsideEnabled(s, o)
  }

  function Moved(s: State, m: Move): State
    requires Enabled(s, m)
  {
    match m
    case Ours(r) => Next(s, r)
    case Others(o) => OutsideNext(s, o)
  }

  /** The states a call goes through, for any replies and any steps of other processes. */
  ghost predicate Behaves(states: seq<State>, moves: seq<Move>) {
    && |states| == |moves| + 1 && Initial(states[0])
    && forall k :: 0 <= k < |moves| ==> StepOf(states, moves, k)
  }

  predicate StepOf(states: seq<State>, moves: seq<Move>, k: nat)
    requires |states| == |moves| + 1 && k < |moves|
  {
    Enabled(states[k], moves[k]) && states[k + 1] == Moved(states[k], moves[k])
  }

  lemma {:induction false} InvAlways(states: seq<State>, moves: seq<Move>, k: nat)
    requires Behaves(states, moves) && k < |states|
    ensures Inv(states[k])
    decreases k
  {
    if k == 0 {
      assert Running(states[0], LockTaken);
    } else {
      InvAlways(states, moves, k - 1);
      var s, m := states[k - 1], moves[k - 1];
      assert StepOf(states, moves, k - 1);
      if m.Others? {
        OutsideKeepsInv(s, m.outside);
      } else {
        var opening :| Running(s, opening);
        if s.point in {Safety, Inventory, LookAside} {
          EarlyStep(s, m.reply, opening);
        } else if s.point == TakeLock {
          TakeLockStep(s, m.reply, opening);
        } else if s.point == Rename {
          RenameStep(s, m.reply, opening);
        } else if s.point in {LateInventory, Recheck} {
          CheckStep(s, m.reply, opening);
        } else if s.point == RenameBack {
          RenameBackStep(s, m.reply, opening);
        } else if s.point == MakeWritable {
          MakeWritableStep(s, m.reply, opening);
        } else {
          RemoveAllStep(s, m.reply, opening);
        }
      }
    }
  }

  /** A base's contents are damaged only after the rename aside was followed by a complete
      inventory with no holder of the aside and a clean lock recheck; a lock taken before
      the rename is not released before the return. */
  lemma DeletedOnlyWithLicence(states: seq<State>, moves: seq<Move>, k: nat)
    requires Behaves(states, moves) && k < |states|
    ensures !WholeOnce(states[k]) ==> Deleting in states[k].log
    ensures Deleting in states[k].log ==>
              exists opening, removed ::
                Opens(opening) && states[k].log == Licence(opening) + [Deleting] + Closing(opening, removed)
  {
    InvAlways(states, moves, k);
    var s := states[k];
    if opening :| Running(s, opening) {
      RunningEvents(s, opening);
    }
  }

  lemma RunningEvents(s: State, opening: Event)
    requires Running(s, opening)
    ensures Deleting !in s.log && (LockTaken in s.log ==> s.ourLock)
  {
    LicenceEvents(opening);
    if s.point == RenameBack {
      RefusedEvents(s.log, opening);
    } else {
      assert s.log <= Licence(opening);
    }
  }

  // ------------------------------------------------------------------ when the lock is taken

  /** The call passed its lock step at move j, with or without the lock. */
  predicate PassedLock(states: seq<State>, moves: seq<Move>, j: nat)
    requires |states| == |moves| + 1 && j < |moves|
  {
    moves[j].Ours? && states[j].point == TakeLock && states[j + 1].point != Done
  }

  /** What was so at that step. */
  predicate AskedForLock(states: seq<State>, moves: seq<Move>, j: nat)
    requires |states| == |moves| + 1 && j < |moves| && moves[j].Ours?
  {
    AsksForLock(states[j].isBase, states[j].lockEntry, moves[j].reply.statOk)
  }

  lemma FirstEventStays(s: State, r: Reply)
    requires s.point != Done && s.log != []
    ensures Next(s, r).log != [] && Next(s, r).log[0] == s.log[0]
  {
    ReturnKeepsFirst(s, false);
    if s.point == RenameBack {
      ReturnKeepsFirst(s.(path := s.aside, aside := Vacant, log := s.log + [RenamedBack]), false);
    } else if s.point == RemoveAll {
      RemoveAllKeepsFirst(s, r);
    }
  }

  lemma RemoveAllKeepsFirst(s: State, r: Reply)
    requires s.point == RemoveAll && s.log != []
    ensures Next(s, r).log != [] && Next(s, r).log[0] == s.log[0]
  {
    var s1 := s.(log := s.log + [Deleting]);
    ReturnKeepsFirst(s1.(aside := Vacant), true);
    ReturnKeepsFirst(s1.(aside := if r.deletedSome then Partial else s.aside), false);
  }

  lemma ReturnKeepsFirst(s: State, removed: bool)
    requires s.log != []
    ensures Return(s, removed).log != [] && Return(s, removed).log[0] == s.log[0]
  {
  }

  lemma FirstEventAfter(s: State, m: Move)
    requires Enabled(s, m) && s.log != []
    ensures Moved(s, m).log != [] && Moved(s, m).log[0] == s.log[0]
  {
    if m.Ours? {
      FirstEventStays(s, m.reply);
    }
  }

  lemma FirstEventIsAboutLock(s: State, m: Move)
    requires Inv(s) && Enabled(s, m) && s.log == []
    requires Moved(s, m).log != [] && Opens(Moved(s, m).log[0])
    ensures m.Ours? && s.point == TakeLock && Moved(s, m).point != Done
  {
    EmptyLog(s);
  }

  lemma EmptyLog(s: State)
    requires Inv(s) && s.log == []
    ensures !s.ourLock && s.point in {Safety, Inventory, TakeLock}
  {
    var opening :| Running(s, opening);
    assert |Licence(opening)[..2]| == 2 && |Licence(opening)[..3]| == 3 && |Licence(opening)| == 4;
  }

  /** The first event of a log is about the lock only once the lock step was passed. */
  lemma {:induction false} SomeLockStep(states: seq<State>, moves: seq<Move>, k: nat)
    requires Behaves(states, moves) && k < |states| && states[k].log != [] && Opens(states[k].log[0])
    ensures exists j: nat :: j < k && PassedLock(states, moves, j)
    decreases k
  {
    if k > 0 {
      assert StepOf(states, moves, k - 1);
      if states[k - 1].log != [] {
        FirstEventAfter(states[k - 1], moves[k - 1]);
        SomeLockStep(states, moves, k - 1);
      } else {
        InvAlways(states, moves, k - 1);
        FirstEventIsAboutLock(states[k - 1], moves[k - 1]);
        assert PassedLock(states, moves, k - 1);
      }
    }
  }

  lemma LockStepLogs(s: State, r: Reply, opening: Event)
    requires Running(s, opening) && s.point == TakeLock && Next(s, r).point != Done
    ensures Next(s, r).log != []
    ensures Next(s, r).log[0] == LockTaken <==> AsksForLock(s.isBase, s.lockEntry, r.statOk)
  {
  }

  /** What the lock step logged stays first in the log. */
  lemma {:induction false} FirstEventTells(states: seq<State>, moves: seq<Move>, j: nat, k: nat)
    requires Behaves(states, moves) && j < k < |states| && PassedLock(states, moves, j)
    ensures states[k].log != [] && (states[k].log[0] == LockTaken <==> AskedForLock(states, moves, j))
    decreases k
  {
    if k == j + 1 {
      InvAlways(states, moves, j);
      var opening :| Running(states[j], opening);
      assert StepOf(states, moves, j);
      LockStepLogs(states[j], moves[j].reply, opening);
    } else {
      FirstEventTells(states, moves, j, k - 1);
      assert StepOf(states, moves, k - 1);
      FirstEventAfter(states[k - 1], moves[k - 1]);
    }
  }

  lemma LicenceTellsLock(log: seq<Event>, opening: Event, removed: bool)
    requires Opens(opening) && log == Licence(opening) + [Deleting] + Closing(opening, removed)
    ensures log[0] == opening && (LockTaken in log <==> opening == LockTaken)
  {
    LicenceEvents(opening);
    var tail := [Deleting] + Closing(opening, removed);
    assert LockTaken !in tail && log == Licence(opening) + tail;
  }

  /** A deletion is made under Bazel's lock if and only if, when the call passed its lock step,
      the tree was a base, a regular file stood at its lock path and Lstat could say so. */
  lemma DeletedUnderLockExactly(states: seq<State>, moves: seq<Move>, k: nat)
    requires Behaves(states, moves) && k < |states| && Deleting in states[k].log
    ensures exists j: nat :: j < k && PassedLock(states, moves, j)
    ensures forall j: nat :: j < k && PassedLock(states, moves, j) ==>
                               (LockTaken in states[k].log <==> AskedForLock(states, moves, j))
  {
    DeletedOnlyWithLicence(states, moves, k);
    var opening, removed :| Opens(opening) && states[k].log == Licence(opening) + [Deleting] + Closing(opening, removed);
    LicenceTellsLock(states[k].log, opening, removed);
    SomeLockStep(states, moves, k);
    forall j: nat | j < k && PassedLock(states, moves, j)
      ensures LockTaken in states[k].log <==> AskedForLock(states, moves, j)
    {
      FirstEventTells(states, moves, j, k);
    }
  }

  const FRIENDLY := Reply(true, true, true, false, false)

  /** The move a call makes k steps after its start: every answer is friendly but the Lstat of the lock. */
  function UnlockedMove(k: nat): Move {
    Ours(FRIENDLY.(statOk := k != 2))
  }

  function UnlockedState(k: nat): State
    requires k <= 9
    ensures k < 9 ==> UnlockedState(k).point != Done
  {
    var skipped := LockSkipped(true, RegularFile, false);
    var start := State(Safety, true, Whole, Vacant, RegularFile, false, false, false, false, []);
    var moved := start.(path := Vacant, aside := Whole);
    var licence := Licence(skipped);
    match k
    case 0 => start
    case 1 => start.(point := Inventory)
    case 2 => start.(point := TakeLock)
    case 3 => start.(point := LookAside, log := [skipped])
    case 4 => start.(point := Rename, log := [skipped])
    case 5 => moved.(point := LateInventory, log := licence[..2])
    case 6 => moved.(point := Recheck, log := licence[..3])
    case 7 => moved.(point := MakeWritable, log := licence)
    case 8 => moved.(point := RemoveAll, log := licence)
    case _ => moved.(point := Done, aside := Vacant, log := licence + [Deleting, Returned(true)])
  }

  lemma UnlockedStep(k: nat)
    requires k < 9
    ensures UnlockedState(k + 1) == Next(UnlockedState(k), UnlockedMove(k).reply)
  {
    var licence := Licence(LockSkipped(true, RegularFile, false));
    assert licence[..2] == licence[..1] + [licence[1]] && licence[..3] == licence[..2] + [licence[2]];
    assert licence == licence[..3] + [licence[3]];
    assert licence + [Deleting] + [] + [Returned(true)] == licence + [Deleting, Returned(true)];
  }

  /** A base that has its lock file throughout is deleted without the lock when Lstat of the
      lock file fails once. */
  lemma LockFileDoesNotStopDeletion() returns (states: seq<State>, moves: seq<Move>)
    ensures Behaves(states, moves)
    ensures forall k :: 0 <= k < |states| ==> states[k].isBase && states[k].lockEntry == RegularFile
    ensures var last := states[|states| - 1];
      last.path == Vacant && last.aside == Vacant && Deleting in last.log && LockTaken !in last.log
  {
    states := seq(10, k requires 0 <= k < 10 => UnlockedState(k));
    moves := seq(9, k requires 0 <= k < 9 => UnlockedMove(k));
    forall k: nat | k < 9
      ensures StepOf(states, moves, k)
    {
      UnlockedStep(k);
    }
    var skipped := LockSkipped(true, RegularFile, false);
    LicenceTellsLock(states[9].log, skipped, true);
  }

  /** The lock a call took stays its own, and nobody else's, until it returns. */
  lemma LockHeldUntilReturn(states: seq<State>, moves: seq<Move>, k: nat)
    requires Behaves(states, moves) && k < |states| && LockTaken in states[k].log
    ensures states[k].point != Done ==> states[k].ourLock && !states[k].otherLock
  {
    InvAlways(states, moves, k);
    var s := states[k];
    if s.point != Done {
      var opening :| Running(s, opening);
      RunningEvents(s, opening);
    }
  }

  /** Until something is deleted the contents stay whole at exactly one of path and aside; a
      call that answers true has left nothing of them; one that answers false without deleting
      left them where its log says: at path unless the rename could not be undone. */
  lemma WholeUntilDeleted(states: seq<State>, moves: seq<Move>, k: nat)
    requires Behaves(states, moves) && k < |states|
    ensures var s := states[k];
      && (Deleting !in s.log ==> WholeOnce(s))
      && (s.point == Done ==> |s.log| > 0 && s.log[|s.log| - 1].Returned?)
      && (s.point == Done && s.log[|s.log| - 1] == Returned(true) ==> Theirs(s.path) && Theirs(s.aside))
      && (s.point == Done && Deleting !in s.log ==> (s.path == Whole <==> (Renamed in s.log ==> RenamedBack in s.log)))
  {
    InvAlways(states, moves, k);
    var s := states[k];
    if s.point == Done {
      var opening, removed :| Settled(s, opening, removed);
      if Deleting in s.log {
        assert s.log[|s.log| - 1] == Returned(removed);
      }
    }
  }

  // ------------------------------------------------------------- told from the moves alone

  /** The call's own step at this point lets it go on: what each call answered, and what stood
      at the paths, decide. */
  predicate Clear(s: State, r: Reply) {
    match s.point
    case Safety => r.ok
    case Inventory => r.complete && !s.pathHeld && !r.live && !(s.otherLock && s.lockEntry == RegularFile && r.statOk)
    case TakeLock => AsksForLock(s.isBase, s.lockEntry, r.statOk) ==> r.ok && !s.otherLock
    case LookAside => s.aside == Vacant || !r.ok
    case Rename => r.ok && Renameable(s.aside)
    case LateInventory => r.complete && !s.asideHeld && !r.live
    case Recheck => NobodyElseHolds(s, r)
    case RenameBack => false
    case MakeWritable => r.ok
    case RemoveAll => false
    case Done => false
  }

  /** The next point of a call that may go on. */
  function Onward(p: Point): Point {
    match p
    case Safety => Inventory
    case Inventory => TakeLock
    case TakeLock => LookAside
    case LookAside => Rename
    case Rename => LateInventory
    case LateInventory => Recheck
    case Recheck => MakeWritable
    case MakeWritable => RemoveAll
    case _ => Done
  }

  /** A call goes on exactly when the step is clear; else the late checks turn to renaming
      back, and every other step returns. It answers true exactly when the deletion works. */
  lemma StepsExactly(states: seq<State>, moves: seq<Move>, k: nat)
    requires Behaves(states, moves) && k < |moves| && moves[k].Ours?
    ensures var s, r := states[k], moves[k].reply;
      states[k + 1].point == if Clear(s, r) then Onward(s.point)
                             else if s.point in {LateInventory, Recheck} then RenameBack else Done
    ensures states[k + 1].point == Done ==>
              (states[k + 1].log != [] && states[k + 1].log[|states[k + 1].log| - 1]
                                          == Returned(states[k].point == RemoveAll && moves[k].reply.ok))
  {
    assert StepOf(states, moves, k);
    var s, r := states[k], moves[k].reply;
    if s.point in {Safety, Inventory, TakeLock, LookAside, Rename} {
      EarlyStepIs(s, r);
    } else {
      LateStepIs(s, r);
    }
  }

  ghost predicate StepIs(s: State, r: Reply, s': State) {
    && s'.point == (if Clear(s, r) then Onward(s.point)
                    else if s.point in {LateInventory, Recheck} then RenameBack else Done)
    && (s'.point == Done ==>
          s'.log != [] && s'.log[|s'.log| - 1] == Returned(s.point == RemoveAll && r.ok))
  }

  lemma ReturnIs(s: State, removed: bool)
    ensures var s' := Return(s, removed);
      && s'.point == Done && s'.path == s.path && s'.aside == s.aside
      && s'.log != [] && s'.log[|s'.log| - 1] == Returned(removed)
  {
  }

  lemma EarlyStepIs(s: State, r: Reply)
    requires s.point in {Safety, Inventory, TakeLock, LookAside, Rename}
    ensures StepIs(s, r, Next(s, r))
  {
    ReturnIs(s, false);
  }

  lemma LateStepIs(s: State, r: Reply)
    requires s.point in {LateInventory, Recheck, RenameBack, MakeWritable, RemoveAll}
    ensures StepIs(s, r, Next(s, r))
  {
    ReturnIs(s, false);
    if s.point == RenameBack {
      ReturnIs(s.(path := s.aside, aside := Vacant, log := s.log + [RenamedBack]), false);
    } else if s.point == RemoveAll {
      RemoveAllIs(s, r);
    }
  }

  lemma RemoveAllIs(s: State, r: Reply)
    requires s.point == RemoveAll
    ensures StepIs(s, r, Next(s, r))
  {
    var s1 := s.(log := s.log + [Deleting]);
    ReturnIs(s1.(aside := Vacant), true);
    ReturnIs(s1.(aside := if r.deletedSome then Partial else s.aside), false);
  }

  /** The call made its own step at this point, among the first k moves. */
  predicate Did(states: seq<State>, moves: seq<Move>, k: nat, p: Point)
    requires |states| == |moves| + 1 && k <= |moves|
  {
    exists j: nat | j < k :: DidAt(states, moves, j, p)
  }

  predicate DidAt(states: seq<State>, moves: seq<Move>, j: nat, p: Point)
    requires |states| == |moves| + 1 && j < |moves|
  {
    moves[j].Ours? && states[j].point == p
  }

  /** The rename back worked and found nothing in its way. */
  predicate WentBackAt(states: seq<State>, moves: seq<Move>, j: nat)
    requires |states| == |moves| + 1 && j < |moves|
  {
    moves[j].Ours? && states[j].point == RenameBack && moves[j].reply.ok && Renameable(states[j].path)
  }

  predicate WentBack(states: seq<State>, moves: seq<Move>, k: nat)
    requires |states| == |moves| + 1 && k <= |moves|
  {
    exists j: nat | j < k :: WentBackAt(states, moves, j)
  }

  lemma DidNext(states: seq<State>, moves: seq<Move>, k: nat, p: Point)
    requires |states| == |moves| + 1 && k < |moves|
    ensures Did(states, moves, k + 1, p) <==> Did(states, moves, k, p) || DidAt(states, moves, k, p)
    ensures WentBack(states, moves, k + 1) <==> WentBack(states, moves, k) || WentBackAt(states, moves, k)
  {
    if DidAt(states, moves, k, p) { assert Did(states, moves, k + 1, p); }
    if WentBackAt(states, moves, k) { assert WentBack(states, moves, k + 1); }
  }

  /** Where the base is, from whether the call renamed it aside, back, or began to delete. */
  predicate Whereabouts(s: State, renamed: bool, back: bool, deleting: bool) {
    match s.point
    case Done => !deleting ==> (s.path == Whole <==> !renamed || back) && WholeOnce(s)
    case LateInventory => !renamed && !back && !deleting && s.aside == Whole && Theirs(s.path)
    case Recheck => renamed && !back && !deleting && s.aside == Whole && Theirs(s.path)
    case RenameBack => renamed && !back && !deleting && s.aside == Whole && Theirs(s.path)
    case MakeWritable => renamed && !back && !deleting && s.aside == Whole && Theirs(s.path)
    case RemoveAll => renamed && !back && !deleting && s.aside == Whole && Theirs(s.path)
    case _ => !renamed && !back && !deleting && s.path == Whole && Theirs(s.aside)
  }

  lemma WhereOthers(s: State, o: Outside, renamed: bool, back: bool, deleting: bool)
    requires OutsideEnabled(s, o) && Whereabouts(s, renamed, back, deleting)
    ensures Whereabouts(OutsideNext(s, o), renamed, back, deleting)
  {
  }

  lemma WhereEarly(s: State, r: Reply, renamed: bool, back: bool, deleting: bool)
    requires s.point in {Safety, Inventory, TakeLock, LookAside, Rename} && Whereabouts(s, renamed, back, deleting)
    ensures Whereabouts(Next(s, r), renamed, back, deleting)
  {
    ReturnIs(s, false);
  }

  lemma WhereLate(s: State, r: Reply, renamed: bool, back: bool, deleting: bool)
    requires s.point in {LateInventory, Recheck, RenameBack, MakeWritable, RemoveAll} && Whereabouts(s, renamed, back, deleting)
    ensures Whereabouts(Next(s, r), renamed || s.point == LateInventory,
                        back || (s.point == RenameBack && r.ok && Renameable(s.path)), deleting || s.point == RemoveAll)
  {
    ReturnIs(s, false);
    if s.point == RenameBack {
      ReturnIs(s.(path := s.aside, aside := Vacant, log := s.log + [RenamedBack]), false);
    } else if s.point == RemoveAll {
      RemoveAllIs(s, r);
    }
  }

  lemma {:induction false} WhereaboutsAlways(states: seq<State>, moves: seq<Move>, k: nat)
    requires Behaves(states, moves) && k < |states|
    ensures Whereabouts(states[k], Did(states, moves, k, LateInventory), WentBack(states, moves, k),
                        Did(states, moves, k, RemoveAll))
    decreases k
  {
    if k > 0 {
      WhereaboutsAlways(states, moves, k - 1);
      assert StepOf(states, moves, k - 1);
      DidNext(states, moves, k - 1, LateInventory);
      DidNext(states, moves, k - 1, RemoveAll);
      var s, m := states[k - 1], moves[k - 1];
      var renamed, back, deleting := Did(states, moves, k - 1, LateInventory), WentBack(states, moves, k - 1),
                                     Did(states, moves, k - 1, RemoveAll);
      if m.Others? {
        WhereOthers(s, m.outside, renamed, back, deleting);
      } else if s.point in {Safety, Inventory, TakeLock, LookAside, Rename} {
        WhereEarly(s, m.reply, renamed, back, deleting);
      } else {
        WhereLate(s, m.reply, renamed, back, deleting);
      }
    }
  }

  /** A call that returned without deleting, after it had renamed the base aside, has the base
      whole at path if and only if its own rename back worked and found nothing there but an
      empty directory; otherwise the base is whole at aside. A call that did not rename it
      aside has it at path. */
  lemma RestoredExactly(states: seq<State>, moves: seq<Move>, k: nat)
    requires Behaves(states, moves) && k < |states| && states[k].point == Done && !Did(states, moves, k, RemoveAll)
    ensures WholeOnce(states[k])
    ensures states[k].path == Whole <==> (Did(states, moves, k, LateInventory) ==> WentBack(states, moves, k))
  {
    WhereaboutsAlways(states, moves, k);
  }

  /** A call that has passed both late checks never goes back. */
  lemma {:induction false} NoWayBack(states: seq<State>, moves: seq<Move>, j: nat, k: nat)
    requires Behaves(states, moves) && j <= k < |states| && states[j].point == MakeWritable
    ensures states[k].point in {MakeWritable, RemoveAll, Done}
    ensures forall n :: j <= n < k ==> !DidAt(states, moves, n, RenameBack)
    decreases k
  {
    if j < k {
      NoWayBack(states, moves, j, k - 1);
      assert StepOf(states, moves, k - 1);
    }
  }
}
