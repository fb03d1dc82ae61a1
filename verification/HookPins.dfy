/** Hook pins for Nix garbage collection (plugins/nix_hookpins.go): each refresh roots the
    store paths the hook configuration references, and releases a path only when no session
    that could still use it is alive. */
module HookPins {
  import opened Common
  import opened Paths

  // -------------------------------------------------------------------- references

  const STORE := "/nix/store/"

  predicate HashChar(c: char) {
    '0' <= c <= '9' || 'a' <= c <= 'z'
  }

  predicate NameChar(c: char) {
    c !in "/ \t\n\r\"'\\,;:)]}" && c != 12 as char
  }

  /** What the reference pattern matches: the store directory, a 32-character hash, a dash, a name. */
  predicate Reference(ref: string) {
    && |ref| > |STORE| + 33
    && ref[..|STORE|] == STORE
    && (forall k :: |STORE| <= k < |STORE| + 32 ==> HashChar(ref[k]))
    && ref[|STORE| + 32] == '-'
    && (forall k :: |STORE| + 33 <= k < |ref| ==> NameChar(ref[k]))
  }

  /** filepath.Base: the link's name in the pin directory. */
  function LinkName(ref: string): string
    requires Reference(ref)
  {
    ref[LastSlash(ref) + 1..]
  }

  lemma LinkNameIs(ref: string)
    requires Reference(ref)
    ensures LastSlash(ref) == |STORE| - 1
    ensures LinkName(ref) == ref[|STORE|..] && ref == STORE + LinkName(ref) && |LinkName(ref)| >= 34
  {
    assert ref[|STORE| - 1] == STORE[|STORE| - 1] == '/';
    forall k | |STORE| <= k < |ref|
      ensures ref[k] != '/'
    {
      if k < |STORE| + 32 {
        assert HashChar(ref[k]);
      } else if k > |STORE| + 32 {
        assert NameChar(ref[k]);
      }
    }
    assert ref[LastSlash(ref)] == '/';
  }

  /** Distinct references never share a link name, nor the name of the state file. */
  lemma LinkNamesAreDistinct(a: string, b: string)
    requires Reference(a) && Reference(b)
    ensures LinkName(a) == LinkName(b) ==> a == b
    ensures LinkName(a) != "state.json" && LinkName(a) != "state.json.tmp"
  {
    LinkNameIs(a);
    LinkNameIs(b);
  }

  // -------------------------------------------------------------------- one refresh

  datatype Pin = Pin(firstSeen: Time, lastReferenced: Time, unreferenced: Option<Time>)

  /** The outcome of registering a root: a failure may or may not leave the link behind. */
  datatype AddResult = Added | FailedBare | FailedLinked

  /** What one refresh meets. The load of the saved pins fails to bring back those in lost: all
      of them when the state file cannot be read or parsed, an error the refresh ignores. Link
      names in unreadable fail to read; those in stuck fail to be removed. */
  datatype World = World(
    now: Time,
    configOk: bool,
    lost: set<string>,
    refs: set<string>,
    valid: set<string>,
    add: map<string, AddResult>,
    unreadable: set<string>,
    stuck: set<string>,
    starts: Option<seq<Time>>,
    saveOk: bool)

  type Pins = map<string, Pin>
  type Links = map<string, string>

  function LoadedPins(pins: Pins, w: World): Pins {
    pins - w.lost
  }

  ghost predicate WellFormed(w: World) {
    forall r :: r in w.refs ==> Reference(r)
  }

  function Fresh(pins: Pins, r: string, now: Time): Pin {
    Pin(if r in pins then pins[r].firstSeen else now, now, None)
  }

  /** The pins after noting these references. */
  function Noted(pins: Pins, refs: set<string>, now: Time): Pins {
    map r | r in pins.Keys + refs :: if r in refs then Fresh(pins, r, now) else pins[r]
  }

  lemma NotedNone(pins: Pins, now: Time)
    ensures Noted(pins, {}, now) == pins
  {
  }

  lemma NotedStep(pins: Pins, refs: set<string>, now: Time, r: string)
    ensures Noted(pins, refs + {r}, now) == Noted(pins, refs, now)[r := Fresh(pins, r, now)]
  {
  }

  /** The link of this name selects the store path of this name. */
  predicate Own(links: Links, name: string) {
    name in links && links[name] == STORE + name
  }

  predicate Linked(links: Links, r: string)
    requires Reference(r)
  {
    LinkName(r) in links && links[LinkName(r)] == r
  }

  /** Every one of these references that is valid has its link. */
  ghost predicate Rooted(links: Links, refs: set<string>, w: World) {
    forall n :: STORE + n in refs && STORE + n in w.valid ==> Own(links, n)
  }

  /** The only store paths whose own links may have gone are these. */
  ghost predicate KeptBut(links: Links, links': Links, gone: set<string>) {
    forall n :: Own(links, n) ==> Own(links', n) || STORE + n in gone
  }

  /** The links of all other names are as before. */
  ghost predicate SameBut(links: Links, links': Links, refs: set<string>) {
    forall n :: STORE + n !in refs ==> (Own(links', n) <==> Own(links, n))
  }

  /** A change to one link keeps the other roots. */
  lemma OneLinkChanged(start: Links, b: Links, c: Links, gone: set<string>, name: string)
    requires KeptBut(start, b, gone) && forall m :: m != name ==> (Own(c, m) <==> Own(b, m))
    ensures KeptBut(start, c, gone + {STORE + name})
    ensures (Own(b, name) ==> Own(c, name)) ==> KeptBut(start, c, gone)
  {
  }

  lemma RootedStep(b: Links, c: Links, refs: set<string>, w: World, name: string)
    requires Rooted(b, refs, w) && forall m :: m != name ==> (Own(c, m) <==> Own(b, m))
    requires STORE + name in w.valid ==> Own(c, name)
    ensures Rooted(c, refs + {STORE + name}, w)
  {
    forall n | STORE + n in refs + {STORE + name} && STORE + n in w.valid
      ensures Own(c, n)
    {
      assert n == (STORE + n)[|STORE|..] && name == (STORE + name)[|STORE|..];
    }
  }

  /** References whose own link cannot be read, so it is made anew. */
  function Unreadable(w: World): set<string> {
    set n | n in w.unreadable && STORE + n in w.refs :: STORE + n
  }

  function Dropped(p: Pin, referenced: bool, now: Time): Pin {
    if referenced || p.unreferenced.Some? then p else p.(unreferenced := Some(now))
  }

  /** The pins once every reference is noted and every other pin has a time it was last dropped. */
  function Marked(pins: Pins, w: World): Pins {
    map r | r in pins.Keys + w.refs ::
      if r in w.refs then Fresh(pins, r, w.now)
      else if pins[r].unreferenced.Some? then pins[r]
      else pins[r].(unreferenced := Some(w.now))
  }

  /** No session that started before the path was dropped is alive. */
  predicate Releasable(p: Pin, starts: Option<seq<Time>>) {
    starts.Some? && p.unreferenced.Some? && forall s | s in starts.value :: s >= p.unreferenced.value
  }

  /** The pins a successful refresh saves. */
  function Refreshed(pins: Pins, w: World): Pins {
    map r | r in Marked(pins, w) && !Releasable(Marked(pins, w)[r], w.starts) :: Marked(pins, w)[r]
  }

  /** The reference of this name can be rooted: its link is there to be read, the path is not
      valid, or registering the root works. */
  predicate Pinnable(links: Links, w: World, n: string) {
    || (Own(links, n) && n !in w.unreadable)
    || STORE + n !in w.valid
    || STORE + n !in w.add
    || w.add[STORE + n] == Added
  }

  /** The link of this name would be taken down, but cannot be. */
  predicate Stuck(links: Links, w: World, n: string) {
    Own(links, n) && n !in w.unreadable && n in w.stuck
  }

  /** The name of a pin that a refresh with these pins may release. */
  predicate Drops(marked: Pins, w: World, n: string) {
    STORE + n in marked && Releasable(marked[STORE + n], w.starts)
  }

  /** Nothing stands in the way of a refresh. */
  ghost predicate Works(loaded: Pins, links: Links, w: World) {
    && w.configOk && w.saveOk
    && (forall n :: STORE + n in w.refs ==> Pinnable(links, w, n))
    && (forall n :: Drops(Marked(loaded, w), w, n) ==> !Stuck(links, w, n))
  }

  /** No link is new but those of these references. */
  ghost predicate NewOnlyOf(links: Links, links': Links, refs: set<string>) {
    forall n :: Own(links', n) ==> Own(links, n) || STORE + n in refs
  }

  /** What is released is no longer rooted, unless its link could not be read. */
  ghost predicate Unrooted(marked: Pins, links': Links, w: World) {
    forall n :: Drops(marked, w, n) && n !in w.unreadable ==> !Own(links', n)
  }

  /** What one refresh does. It succeeds exactly when nothing stands in its way. A failed one
      leaves the saved pins alone; links go only when the release loop takes them (unlinked)
      or when a reference's own link was unreadable; a successful one roots every valid
      reference and unroots what it releases. */
  ghost predicate RefreshStep(pins: Pins, links: Links, w: World, ok: bool, pins': Pins, links': Links, unlinked: set<string>) {
    var loaded := LoadedPins(pins, w);
    && pins' == (if ok then Refreshed(loaded, w) else pins)
    && (forall r :: r in unlinked ==> r in Marked(loaded, w) && Releasable(Marked(loaded, w)[r], w.starts))
    && KeptBut(links, links', unlinked + Unreadable(w)) && NewOnlyOf(links, links', w.refs)
    && (ok <==> Works(loaded, links, w))
    && (ok ==> Rooted(links', w.refs, w) && Unrooted(Marked(loaded, w), links', w))
  }

  class Pinner {
    // The saved state and the links of the pin directory.
    var pins: Pins
    var links: Links

    ghost predicate Valid()
      reads this
    {
      forall r :: r in pins ==> Reference(r)
    }

    constructor ()
      ensures Valid() && pins == map[] && links == map[]
    {
      pins, links := map[], map[];
    }

    /** refresh. */
    method Refresh(w: World) returns (ok: bool, ghost unlinked: set<string>)
      requires Valid() && WellFormed(w)
      modifies this
      ensures Valid()
      ensures RefreshStep(old(pins), old(links), w, ok, pins, links, unlinked)
    {
      unlinked := {};
      if !w.configOk {
        return false, unlinked;
      }
      var loaded := LoadedPins(pins, w);
      var st, pinned := PinReferences(loaded, w);
      if !pinned {
        return false, unlinked;
      }
      st := MarkDropped(loaded, st, w);
      ghost var rooted := links;
      if w.starts.Some? {
        var released;
        st, released, unlinked := Release(st, w);
        if !released {
          return false, unlinked;
        }
      }
      RootsSurvive(rooted, links, w, unlinked, loaded);
      KeptTwice(old(links), rooted, links, Unreadable(w), unlinked);
      if !w.saveOk {
        return false, unlinked;
      }
      pins := st;
      return true, unlinked;
    }

    lemma KeptTwice(a: Links, b: Links, c: Links, first: set<string>, second: set<string>)
      requires KeptBut(a, b, first) && KeptBut(b, c, second)
      ensures KeptBut(a, c, second + first)
    {
    }

    lemma RootsSurvive(rooted: Links, after: Links, w: World, unlinked: set<string>, before: Pins)
      requires forall r :: r in unlinked ==> r in Marked(before, w) && Releasable(Marked(before, w)[r], w.starts)
      requires KeptBut(rooted, after, unlinked)
      ensures Rooted(rooted, w.refs, w) ==> Rooted(after, w.refs, w)
    {
    }

    /** Roots one reference: nothing but its own link changes. */
    method PinOne(ref: string, w: World) returns (ok: bool)
      requires Reference(ref)
      modifies this`links
      ensures forall m :: m != LinkName(ref) ==> (Own(links, m) <==> Own(old(links), m))
      ensures Own(old(links), LinkName(ref)) && LinkName(ref) !in w.unreadable ==> Own(links, LinkName(ref))
      ensures ok && ref in w.valid ==> Own(links, LinkName(ref))
      ensures ok <==> Pinnable(old(links), w, LinkName(ref))
    {
      LinkNameIs(ref);
      var link := LinkName(ref);
      if link !in w.unreadable && link in links && links[link] == ref {
        return true;
      }
      if ref !in w.valid {
        return true;
      }
      links := links - {link};
      var added := if ref in w.add then w.add[ref] else Added;
      if added == FailedBare {
        return false;
      }
      links := links[link := ref];
      return added == Added;
    }

    /** The pinning loop: note every reference, and root each one that is valid and not linked. */
    method PinReferences(saved: Pins, w: World) returns (st: Pins, ok: bool)
      requires WellFormed(w)
      modifies this`links
      ensures KeptBut(old(links), links, Unreadable(w))
      ensures ok ==> st == Noted(saved, w.refs, w.now) && Rooted(links, w.refs, w)
      ensures SameBut(old(links), links, w.refs)
      ensures ok <==> forall n :: STORE + n in w.refs ==> Pinnable(old(links), w, n)
    {
      st := saved;
      var todo := w.refs;
      ghost var done: set<string> := {};
      ghost var start := links;
      NotedNone(saved, w.now);
      while todo != {}
        invariant done + todo == w.refs
        invariant st == Noted(saved, done, w.now)
        invariant KeptBut(start, links, Unreadable(w)) && Rooted(links, done, w)
        invariant done !! todo && SameBut(start, links, done)
        invariant forall n :: STORE + n in done ==> Pinnable(start, w, n)
        decreases todo
      {
        var ref :| ref in todo;
        var pinned;
        LinkNameIs(ref);
        ghost var before := links;
        st, pinned := NoteAndPin(saved, st, ref, w, start, done);
        SameButGrows(start, before, links, done, LinkName(ref));
        assert Pinnable(start, w, LinkName(ref)) == pinned;
        if !pinned {
          SameButAll(start, links, done + {ref}, w.refs);
          return st, false;
        }
        PinnableGrows(start, w, done, LinkName(ref));
        todo, done := todo - {ref}, done + {ref};
      }
      return st, true;
    }

    lemma SameButGrows(start: Links, b: Links, c: Links, refs: set<string>, name: string)
      requires SameBut(start, b, refs) && forall m :: m != name ==> (Own(c, m) <==> Own(b, m))
      ensures SameBut(start, c, refs + {STORE + name})
    {
    }

    lemma SameButAll(start: Links, b: Links, refs: set<string>, all: set<string>)
      requires SameBut(start, b, refs) && refs <= all
      ensures SameBut(start, b, all)
    {
    }

    lemma PinnableGrows(start: Links, w: World, refs: set<string>, name: string)
      requires (forall n :: STORE + n in refs ==> Pinnable(start, w, n)) && Pinnable(start, w, name)
      ensures forall n :: STORE + n in refs + {STORE + name} ==> Pinnable(start, w, n)
    {
      forall n | STORE + n in refs + {STORE + name}
        ensures Pinnable(start, w, n)
      {
        assert n == (STORE + n)[|STORE|..] && name == (STORE + name)[|STORE|..];
      }
    }

    method NoteAndPin(saved: Pins, st: Pins, ref: string, w: World, ghost start: Links, ghost done: set<string>) returns (st': Pins, ok: bool)
      requires Reference(ref) && ref in w.refs && st == Noted(saved, done, w.now)
      requires KeptBut(start, links, Unreadable(w)) && Rooted(links, done, w)
      modifies this`links
      ensures st' == Noted(saved, done + {ref}, w.now) && KeptBut(start, links, Unreadable(w))
      ensures ok ==> Rooted(links, done + {ref}, w)
      ensures forall m :: m != LinkName(ref) ==> (Own(links, m) <==> Own(old(links), m))
      ensures ok <==> Pinnable(old(links), w, LinkName(ref))
    {
      ghost var before := links;
      st' := st[ref := Fresh(saved, ref, w.now)];
      ok := PinOne(ref, w);
      PinOneFits(saved, start, before, links, w, done, ref, ok);
    }

    lemma PinOneFits(pins: Pins, start: Links, before: Links, after: Links, w: World, done: set<string>, ref: string, ok: bool)
      requires Reference(ref) && ref in w.refs && KeptBut(start, before, Unreadable(w))
      requires forall m :: m != LinkName(ref) ==> (Own(after, m) <==> Own(before, m))
      requires Own(before, LinkName(ref)) && LinkName(ref) !in w.unreadable ==> Own(after, LinkName(ref))
      requires ok && ref in w.valid ==> Own(after, LinkName(ref))
      ensures Noted(pins, done + {ref}, w.now) == Noted(pins, done, w.now)[ref := Fresh(pins, ref, w.now)]
      ensures KeptBut(start, after, Unreadable(w))
      ensures ok && Rooted(before, done, w) ==> Rooted(after, done + {ref}, w)
    {
      LinkNameIs(ref);
      NotedStep(pins, done, w.now, ref);
      OneLinkChanged(start, before, after, Unreadable(w), LinkName(ref));
      assert LinkName(ref) in w.unreadable ==> Unreadable(w) + {ref} == Unreadable(w);
      if ok && Rooted(before, done, w) {
        RootedStep(before, after, done, w, LinkName(ref));
      }
    }

    /** A pin the configuration no longer names gets the time it was first missing. */
    method MarkDropped(ghost loaded: Pins, pinned: Pins, w: World) returns (st: Pins)
      requires pinned == Noted(loaded, w.refs, w.now)
      ensures st == Marked(loaded, w)
    {
      st := pinned;
      var todo := st.Keys;
      while todo != {}
        invariant todo <= pinned.Keys == st.Keys
        invariant forall r :: r in pinned ==> st[r] == if r in todo then pinned[r] else Dropped(pinned[r], r in w.refs, w.now)
        decreases todo
      {
        var ref :| ref in todo;
        todo := todo - {ref};
        if ref in w.refs || st[ref].unreferenced.Some? {
          continue;
        }
        st := st[ref := st[ref].(unreferenced := Some(w.now))];
      }
      MarkedIs(loaded, w, st);
    }

    lemma MarkedIs(pins: Pins, w: World, st: Pins)
      requires st.Keys == Noted(pins, w.refs, w.now).Keys
      requires forall r :: r in st ==> st[r] == Dropped(Noted(pins, w.refs, w.now)[r], r in w.refs, w.now)
      ensures st == Marked(pins, w)
    {
    }

    /** Some live session started before the path was dropped. */
    method Held(dropped: Time, starts: seq<Time>) returns (held: bool)
      ensures held <==> !(forall s :: s in starts ==> s >= dropped)
    {
      for k := 0 to |starts|
        invariant forall s :: s in starts[..k] ==> s >= dropped
      {
        if starts[k] < dropped {
          assert starts[k] in starts;
          return true;
        }
        assert starts[..k + 1] == starts[..k] + [starts[k]];
      }
      assert starts[..|starts|] == starts;
      return false;
    }

    /** Takes down one link, if it still selects this reference. */
    method Unlink(ref: string, w: World) returns (ok: bool)
      requires Reference(ref)
      modifies this`links
      ensures forall m :: m != LinkName(ref) ==> (Own(links, m) <==> Own(old(links), m))
      ensures !ok ==> links == old(links)
      ensures ok <==> !Stuck(old(links), w, LinkName(ref))
      ensures ok && LinkName(ref) !in w.unreadable ==> !Own(links, LinkName(ref))
      ensures Own(links, LinkName(ref)) ==> Own(old(links), LinkName(ref))
    {
      LinkNameIs(ref);
      var link := LinkName(ref);
      if link !in w.unreadable && link in links && links[link] == ref {
        if link in w.stuck {
          return false;
        }
        links := links - {link};
      }
      return true;
    }

    /** How far the release loop has come: the pins still to do are untouched, those done and
        droppable are no longer rooted. */
    static ghost predicate Progress(marked: Pins, start: Links, now: Links, todo: set<string>, w: World) {
      && (forall n :: Own(now, n) ==> Own(start, n))
      && (forall n :: STORE + n in todo ==> (Own(now, n) <==> Own(start, n)))
      && (forall n :: Drops(marked, w, n) && STORE + n !in todo ==>
                        !Stuck(start, w, n) && (n !in w.unreadable ==> !Own(now, n)))
    }

    static lemma ProgressKept(marked: Pins, start: Links, now: Links, todo: set<string>, w: World, ref: string)
      requires Progress(marked, start, now, todo, w) && ref in marked && !Releasable(marked[ref], w.starts)
      ensures Progress(marked, start, now, todo - {ref}, w)
    {
    }

    static lemma ProgressReleased(marked: Pins, start: Links, before: Links, after: Links, todo: set<string>, w: World, name: string)
      requires Progress(marked, start, before, todo, w) && STORE + name in todo && !Stuck(before, w, name)
      requires forall m :: m != name ==> (Own(after, m) <==> Own(before, m))
      requires (Own(after, name) ==> Own(before, name)) && (name !in w.unreadable ==> !Own(after, name))
      ensures Progress(marked, start, after, todo - {STORE + name}, w)
    {
      forall n | STORE + n in todo - {STORE + name}
        ensures Own(after, n) <==> Own(start, n)
      {
      }
      forall n | Drops(marked, w, n) && STORE + n !in todo - {STORE + name}
        ensures !Stuck(start, w, n) && (n !in w.unreadable ==> !Own(after, n))
      {
        assert n == (STORE + n)[|STORE|..] && name == (STORE + name)[|STORE|..];
      }
    }

    /** The release loop, with the session starts known. */
    method Release(marked: Pins, w: World) returns (st: Pins, ok: bool, ghost unlinked: set<string>)
      requires w.starts.Some? && forall r :: r in marked ==> Reference(r)
      modifies this`links
      ensures forall r :: r in unlinked ==> r in marked && Releasable(marked[r], w.starts)
      ensures KeptBut(old(links), links, unlinked)
      ensures ok ==> st == map r | r in marked && !Releasable(marked[r], w.starts) :: marked[r]
      ensures forall n :: Own(links, n) ==> Own(old(links), n)
      ensures ok <==> forall n :: Drops(marked, w, n) ==> !Stuck(old(links), w, n)
      ensures ok ==> Unrooted(marked, links, w)
    {
      st := marked;
      unlinked := {};
      ok := true;
      var todo := marked.Keys;
      while todo != {}
        invariant todo <= marked.Keys && st.Keys <= marked.Keys
        invariant forall r :: r in marked ==> (r in st <==> r in todo || !Releasable(marked[r], w.starts))
        invariant forall r :: r in st ==> st[r] == marked[r]
        invariant forall r :: r in unlinked ==> r in marked && Releasable(marked[r], w.starts)
        invariant KeptBut(old(links), links, unlinked)
        invariant Progress(marked, old(links), links, todo, w)
        decreases todo
      {
        var ref :| ref in todo;
        ghost var left := todo;
        todo := todo - {ref};
        if st[ref].unreferenced.None? {
          ProgressKept(marked, old(links), links, left, w, ref);
          continue;
        }
        var held := Held(st[ref].unreferenced.value, w.starts.value);
        if held {
          ProgressKept(marked, old(links), links, left, w, ref);
          continue;
        }
        ghost var before := links;
        LinkNameIs(ref);
        ok := Unlink(ref, w);
        if !ok {
          assert Drops(marked, w, LinkName(ref)) && Stuck(old(links), w, LinkName(ref));
          return;
        }
        ProgressReleased(marked, old(links), before, links, left, w, LinkName(ref));
        OneLinkChanged(old(links), before, links, unlinked, LinkName(ref));
        unlinked := unlinked + {ref};
        st := st - {ref};
      }
    }
  }

  // ---------------------------------------------------------------------- whole runs

  /** The saved pins and the links between refreshes. */
  datatype Disk = Disk(pins: Pins, links: Links)

  /** A run: disks before and after each refresh, what each met, whether it succeeded, and
      which references' links its release loop took down. Nothing else touches the disk. */
  datatype Run = Run(disks: seq<Disk>, worlds: seq<World>, oks: seq<bool>, unlinked: seq<set<string>>)

  ghost predicate StepOf(run: Run, k: nat)
    requires k < |run.worlds| && |run.disks| == |run.worlds| + 1 && |run.oks| == |run.unlinked| == |run.worlds|
  {
    && WellFormed(run.worlds[k])
    && RefreshStep(run.disks[k].pins, run.disks[k].links, run.worlds[k], run.oks[k],
                   run.disks[k + 1].pins, run.disks[k + 1].links, run.unlinked[k])
  }

  /** The clock of the refreshes is strictly increasing. */
  ghost predicate ValidRun(run: Run) {
    && |run.disks| == |run.worlds| + 1 && |run.oks| == |run.unlinked| == |run.worlds|
    && (forall k :: 0 <= k < |run.worlds| ==> StepOf(run, k))
    && (forall j, k :: 0 <= j < k < |run.worlds| ==> run.worlds[j].now < run.worlds[k].now)
  }

  /** From refresh a on, every inspection either fails or reports this session alive. */
  ghost predicate AliveFrom(run: Run, a: nat, session: Time) {
    forall k :: a <= k < |run.worlds| ==>
      run.worlds[k].starts.None? || session in run.worlds[k].starts.value
  }

  /** The pin is held, and was not dropped before this moment. */
  predicate HeldSince(pins: Pins, ref: string, since: Time) {
    ref in pins && (pins[ref].unreferenced.Some? ==> pins[ref].unreferenced.value > since)
  }

  /** One refresh, successful or not, that loads a pin a live session could still use keeps
      it; loaded or not, it never takes the pin's link down. */
  lemma RefreshKeepsPin(pins: Pins, links: Links, w: World, ok: bool, pins': Pins, links': Links, unlinked: set<string>,
                        ref: string, since: Time, session: Time)
    requires RefreshStep(pins, links, w, ok, pins', links', unlinked)
    requires ref in pins ==> HeldSince(pins, ref, since)
    requires since < w.now && session <= since && (w.starts.None? || session in w.starts.value)
    ensures ref in pins' <==> (ref in pins && (ok ==> ref !in w.lost)) || (ok && ref in w.refs)
    ensures ref in pins' ==> HeldSince(pins', ref, since)
    ensures ref !in unlinked
  {
    var loaded := LoadedPins(pins, w);
    assert ref in Marked(loaded, w) <==> ref in loaded || ref in w.refs;
    assert ref in Marked(loaded, w) ==> HeldSince(Marked(loaded, w), ref, since);
    assert ref in Marked(loaded, w) ==> !Releasable(Marked(loaded, w)[ref], w.starts);
  }

  /** A successful refresh after a, and before n, failed to load the pin, and no successful
      refresh from then on saw the path referenced again. */
  ghost predicate Forgotten(run: Run, a: nat, ref: string, n: nat)
    requires n <= |run.worlds| == |run.oks|
  {
    exists k :: a < k < n && LosesPin(run, k, ref, n)
  }

  ghost predicate LosesPin(run: Run, k: nat, ref: string, n: nat)
    requires k < n <= |run.worlds| == |run.oks|
  {
    && run.oks[k] && ref in run.worlds[k].lost
    && forall m :: k <= m < n && run.oks[m] ==> ref !in run.worlds[m].refs
  }

  lemma ForgottenStep(run: Run, a: nat, ref: string, n: nat)
    requires a < n < |run.worlds| == |run.oks|
    ensures Forgotten(run, a, ref, n + 1) <==>
            if run.oks[n] then ref !in run.worlds[n].refs && (ref in run.worlds[n].lost || Forgotten(run, a, ref, n))
            else Forgotten(run, a, ref, n)
  {
    if k :| a < k < n && LosesPin(run, k, ref, n) {
      assert (run.oks[n] && ref in run.worlds[n].refs) || LosesPin(run, k, ref, n + 1);
    }
    var next := n + 1;
    if k :| a < k < next && LosesPin(run, k, ref, next) {
      assert k < n ==> LosesPin(run, k, ref, n);
    }
    if run.oks[n] && ref in run.worlds[n].lost && ref !in run.worlds[n].refs {
      assert LosesPin(run, n, ref, n + 1);
    }
  }

  /** If a successful refresh saw the path referenced, and a session that started no later than
      that refresh is reported alive at every later one, then the pin is kept if and only if no
      later load forgot it, and its link is never taken down by a release either way. */
  lemma {:induction false} LiveSessionKeepsPin(run: Run, a: nat, ref: string, session: Time, n: nat)
    requires ValidRun(run) && a < |run.worlds| && a < n <= |run.worlds|
    requires run.oks[a] && ref in run.worlds[a].refs && session <= run.worlds[a].now
    requires AliveFrom(run, a + 1, session)
    ensures ref in run.disks[n].pins <==> !Forgotten(run, a, ref, n)
    ensures ref in run.disks[n].pins ==> HeldSince(run.disks[n].pins, ref, run.worlds[a].now)
    ensures forall k :: a <= k < n ==> ref !in run.unlinked[k]
    decreases n
  {
    if n == a + 1 {
      assert StepOf(run, a);
      assert ref in Marked(LoadedPins(run.disks[a].pins, run.worlds[a]), run.worlds[a]);
    } else {
      var k := n - 1;
      LiveSessionKeepsPin(run, a, ref, session, k);
      assert StepOf(run, k);
      assert run.worlds[a].now < run.worlds[k].now;
      RefreshKeepsPin(run.disks[k].pins, run.disks[k].links, run.worlds[k], run.oks[k],
                      run.disks[n].pins, run.disks[n].links, run.unlinked[k], ref, run.worlds[a].now, session);
      ForgottenStep(run, a, ref, k);
    }
  }

  /** A state file that cannot be read once drops a pin that a live session needs, in a refresh
      that succeeds. */
  lemma LostLoadDropsPin(ref: string) returns (run: Run)
    requires Reference(ref)
    ensures ValidRun(run) && |run.worlds| == 2 && run.oks == [true, true] && AliveFrom(run, 0, 0)
    ensures ref in run.worlds[0].refs && 0 <= run.worlds[0].now
    ensures ref in run.disks[1].pins && ref !in run.disks[2].pins
  {
    run := Run([Disk(map[], map[]), Disk(OnePin(ref), map[]), Disk(map[], map[])], [SeesPath(ref), LosesPath(ref)],
               [true, true], [{}, {}]);
    FirstRefresh(ref);
    SecondRefresh(ref);
    assert StepOf(run, 0) && StepOf(run, 1);
  }

  function OnePin(ref: string): Pins {
    map[ref := Pin(1, 1, None)]
  }

  /** A refresh that sees the path referenced, not valid yet, with one session alive. */
  function SeesPath(ref: string): World {
    World(1, true, {}, {ref}, {}, map[], {}, {}, Some([0]), true)
  }

  /** A later one that sees no reference and cannot read the state file. */
  function LosesPath(ref: string): World {
    World(2, true, {ref}, {}, {}, map[], {}, {}, Some([0]), true)
  }

  lemma FirstRefresh(ref: string)
    ensures RefreshStep(map[], map[], SeesPath(ref), true, OnePin(ref), map[], {})
  {
    assert LoadedPins(map[], SeesPath(ref)) == map[];
    assert Marked(map[], SeesPath(ref)) == OnePin(ref);
    assert Refreshed(map[], SeesPath(ref)) == OnePin(ref);
  }

  lemma SecondRefresh(ref: string)
    ensures RefreshStep(OnePin(ref), map[], LosesPath(ref), true, map[], map[], {})
  {
    assert LoadedPins(OnePin(ref), LosesPath(ref)) == map[];
    assert Marked(map[], LosesPath(ref)) == map[];
  }

  /** Rooted at refresh a, the path stays rooted, whatever loads fail: its link selects it after
      every later refresh at which the link could be read. */
  lemma {:induction false} LiveSessionStaysRooted(run: Run, a: nat, ref: string, session: Time, n: nat)
    requires ValidRun(run) && a < |run.worlds| && a < n <= |run.worlds| && Reference(ref)
    requires run.oks[a] && ref in run.worlds[a].refs && ref in run.worlds[a].valid && session <= run.worlds[a].now
    requires AliveFrom(run, a + 1, session)
    requires forall k :: a < k < n ==> LinkName(ref) !in run.worlds[k].unreadable
    ensures Linked(run.disks[n].links, ref)
    decreases n
  {
    if n == a + 1 {
      assert StepOf(run, a);
      LinkNameIs(ref);
      assert Own(run.disks[n].links, LinkName(ref));
    } else {
      var k := n - 1;
      LiveSessionStaysRooted(run, a, ref, session, k);
      LiveSessionKeepsPin(run, a, ref, session, n);
      assert StepOf(run, k);
      LinkNameIs(ref);
      assert ref !in run.unlinked[k] && ref !in Unreadable(run.worlds[k]);
      assert Own(run.disks[k].links, LinkName(ref));
    }
  }

  /** An inspection failure releases nothing: every pin that was loaded stays. */
  lemma FailedInspectionReleasesNothing(pins: Pins, links: Links, w: World, ok: bool, pins': Pins, links': Links, unlinked: set<string>)
    requires RefreshStep(pins, links, w, ok, pins', links', unlinked) && w.starts.None?
    ensures unlinked == {}
    ensures forall r :: r in pins ==> (r in pins' <==> (ok ==> r !in w.lost || r in w.refs))
  {
    var loaded := LoadedPins(pins, w);
    forall r | r in pins
      ensures r in pins' <==> (ok ==> r !in w.lost || r in w.refs)
    {
      assert r in Marked(loaded, w) <==> r in loaded || r in w.refs;
    }
  }

  /** A release is only of a path that no live session could use: at a successful refresh with
      inspected sessions, a pin goes if and only if it is not referenced now and either its
      load failed or every live session started at or after the time it was dropped. */
  lemma ReleasedExactly(pins: Pins, links: Links, w: World, pins': Pins, links': Links, unlinked: set<string>, ref: string)
    requires RefreshStep(pins, links, w, true, pins', links', unlinked) && w.starts.Some? && ref in pins
    ensures ref !in pins' <==>
      && ref !in w.refs
      && (ref in w.lost
          || forall s :: s in w.starts.value ==> s >= (if pins[ref].unreferenced.Some? then pins[ref].unreferenced.value else w.now))
  {
    assert ref in Marked(LoadedPins(pins, w), w) <==> ref !in w.lost || ref in w.refs;
  }

  /** A path that a successful refresh released, whose link could then be read, is not rooted
      under its name again until a refresh sees it referenced. */
  lemma {:induction false} ReleasedStaysUnrooted(run: Run, a: nat, ref: string, n: nat)
    requires ValidRun(run) && a < n <= |run.worlds| && Reference(ref) && run.oks[a]
    requires ref in run.disks[a].pins && ref !in run.worlds[a].lost && ref !in run.disks[a + 1].pins
    requires LinkName(ref) !in run.worlds[a].unreadable
    requires forall k :: a < k < n ==> ref !in run.worlds[k].refs
    ensures !Own(run.disks[n].links, LinkName(ref))
    decreases n
  {
    LinkNameIs(ref);
    if n == a + 1 {
      assert StepOf(run, a);
      assert Drops(Marked(LoadedPins(run.disks[a].pins, run.worlds[a]), run.worlds[a]), run.worlds[a], LinkName(ref));
    } else {
      ReleasedStaysUnrooted(run, a, ref, n - 1);
      assert StepOf(run, n - 1);
    }
  }
}
