/** The index of held paths that the output-base reaper consults
    (bbActivity in plugins/bazel_bases.go). */
module Activity {
  import opened Paths

  const DELETED := " (deleted)"

  function TrimSuffix(s: string, suffix: string): string {
    if |s| >= |suffix| && s[|s| - |suffix|..] == suffix then s[..|s| - |suffix|] else s
  }

  /** The index takes absolute paths, inside the given trees when there are any. */
  predicate Accepts(path: string, within: seq<string>) {
    var s := TrimSuffix(path, DELETED);
    && |s| > 0 && s[0] == '/'
    && (within == [] || exists w | w in within :: Under(Clean(s), w))
  }

  function Accepted(path: string): (p: string)
    requires Accepts(path, [])
    ensures CleanAbs(p)
  {
    Clean(TrimSuffix(path, DELETED))
  }

  /** The parent walk with its early return: stop at the first path already held. */
  function IndexPath(held: set<string>, p: string): set<string>
    requires CleanAbs(p)
    decreases |p|
  {
    if p == "/" || p in held then held else IndexPath(held + {p}, Dir(p))
  }

  function IndexAll(paths: seq<string>): set<string>
    requires forall p :: p in paths ==> CleanAbs(p)
  {
    if paths == [] then {} else IndexPath(IndexAll(paths[..|paths| - 1]), paths[|paths| - 1])
  }

  /** Every held path's parent is held, up to the root. */
  ghost predicate Closed(held: set<string>) {
    forall t :: t in held ==> CleanAbs(t) && t != "/" && (Dir(t) == "/" || Dir(t) in held)
  }

  ghost predicate ClosedBut(held: set<string>, p: string) {
    forall t :: t in held ==> CleanAbs(t) && t != "/" && (Dir(t) == "/" || Dir(t) in held || Dir(t) == p)
  }

  lemma {:induction false} AncestorsHeld(held: set<string>, p: string, t: string)
    requires Closed(held) && p in held && CleanAbs(t) && t != "/" && Under(p, t)
    ensures t in held
    decreases |p|
  {
    if t != p {
      UnderDir(p, t);
      AncestorsHeld(held, Dir(p), t);
    }
  }

  /** One walk adds exactly the path and everything above it. */
  lemma {:induction false} IndexPathIs(held: set<string>, p: string)
    requires CleanAbs(p) && ClosedBut(held, p)
    ensures Closed(IndexPath(held, p))
    ensures forall t :: CleanAbs(t) ==> (t in IndexPath(held, p) <==> t in held || (t != "/" && Under(p, t)))
    decreases |p|
  {
    if p == "/" {
    } else if p in held {
      forall t | CleanAbs(t) && t != "/" && Under(p, t)
        ensures t in held
      {
        AncestorsHeld(held, p, t);
      }
    } else {
      IndexPathIs(held + {p}, Dir(p));
      forall t | CleanAbs(t)
        ensures t in IndexPath(held, p) <==> t in held || (t != "/" && Under(p, t))
      {
        if t != p {
          UnderDir(p, t);
        }
      }
    }
  }

  /** After any sequence of paths, the index is closed under parents and holds a directory
      if and only if some indexed path is that directory or lies below it. */
  lemma {:induction false} IndexIsExact(paths: seq<string>)
    requires forall p :: p in paths ==> CleanAbs(p)
    ensures Closed(IndexAll(paths))
    ensures forall t :: CleanAbs(t) && t != "/" ==> (t in IndexAll(paths) <==> exists p :: p in paths && Under(p, t))
    decreases |paths|
  {
    if paths != [] {
      var n := |paths| - 1;
      IndexIsExact(paths[..n]);
      IndexPathIs(IndexAll(paths[..n]), paths[n]);
      forall t | CleanAbs(t) && t != "/"
        ensures t in IndexAll(paths) <==> exists p :: p in paths && Under(p, t)
      {
        if p :| p in paths && Under(p, t) {
          assert p in paths[..n] || p == paths[n];
        }
      }
    }
  }

  /** One inventory of the processes this user can inspect: each held path with the first reason given for it. */
  class Inventory {
    var held: map<string, string>
    ghost var paths: seq<string>

    ghost predicate Valid()
      reads this
    {
      && (forall p :: p in paths ==> CleanAbs(p))
      && held.Keys == IndexAll(paths)
    }

    constructor ()
      ensures Valid() && paths == []
    {
      held := map[];
      paths := [];
    }

    /** index: records path and its parents unless it lies outside every tree of within. */
    method Index(path: string, why: string, within: seq<string>)
      requires Valid()
      modifies this
      ensures Valid()
      ensures paths == if Accepts(path, within) then old(paths) + [Accepted(path)] else old(paths)
      ensures forall t :: t in old(held) ==> t in held && held[t] == old(held)[t]
      ensures forall t :: t in held && t !in old(held) ==> held[t] == why
    {
      var s := TrimSuffix(path, DELETED);
      if |s| == 0 || s[0] != '/' {
        return;
      }
      var p := Clean(s);
      if |within| > 0 {
        var inside := false;
        for k := 0 to |within|
          invariant !inside && forall j :: 0 <= j < k ==> !Under(p, within[j])
        {
          if Under(p, within[k]) {
            inside := true;
            break;
          }
        }
        if !inside {
          return;
        }
      }
      ghost var start := p;
      while p != "/" && p !in held
        invariant CleanAbs(p) && paths == old(paths)
        invariant IndexPath(held.Keys, p) == IndexPath(old(held).Keys, start)
        invariant forall t :: t in old(held) ==> t in held && held[t] == old(held)[t]
        invariant forall t :: t in held && t !in old(held) ==> held[t] == why
        decreases |p|
      {
        ghost var keys := held.Keys;
        held := held[p := why];
        assert held.Keys == keys + {p};
        p := Dir(p);
      }
      paths := paths + [start];
      assert paths[..|paths| - 1] == old(paths);
    }

    /** The index half of blockers: some indexed path is the target or lies below it. */
    method HeldBelow(target: string) returns (found: bool)
      requires Valid() && CleanAbs(target) && target != "/"
      ensures found <==> exists p :: p in paths && Under(p, target)
    {
      IndexIsExact(paths);
      return target in held;
    }
  }

  // ------------------------------------------------------------------- what is indexed

  /** The kernel's mark of a deleted file is ignored: the file counts where it was. */
  lemma DeletedCountsWhereItWas(path: string, within: seq<string>)
    requires |path| > 0 && path[0] == '/'
    ensures Accepts(path + DELETED, []) && Accepted(path + DELETED) == Clean(path)
    ensures Accepts(path + DELETED, within) <==> within == [] || exists w :: w in within && Under(Clean(path), w)
  {
    var marked := path + DELETED;
    assert marked[|marked| - |DELETED|..] == DELETED && marked[..|marked| - |DELETED|] == path;
  }

  /** The filter loses no path at or below a target inside one of its trees. */
  lemma FilterKeepsWhatMatters(path: string, within: seq<string>, tree: string, target: string)
    requires Accepts(path, []) && CleanAbs(tree)
    requires tree in within && Under(target, tree) && Under(Accepted(path), target)
    ensures Accepts(path, within)
  {
    UnderTransitive(Accepted(path), target, tree);
  }

  /** The accepted ones among these paths. */
  function AcceptedOnes(paths: seq<string>, within: seq<string>): (ps: seq<string>)
    ensures forall p :: p in ps ==> CleanAbs(p)
  {
    if paths == [] then []
    else
      var last := paths[|paths| - 1];
      AcceptedOnes(paths[..|paths| - 1], within) + if Accepts(last, within) then [Accepted(last)] else []
  }

  lemma {:induction false} AcceptedOnesAre(paths: seq<string>, within: seq<string>, p: string)
    ensures p in AcceptedOnes(paths, within) <==> exists path :: path in paths && Accepts(path, within) && Accepted(path) == p
    decreases |paths|
  {
    if paths != [] {
      var n := |paths| - 1;
      AcceptedOnesAre(paths[..n], within, p);
      assert forall path :: path in paths <==> path in paths[..n] || path == paths[n];
    }
  }

  /** Whatever the processes hold, a target inside one of the trees is held below in the
      filtered index if and only if some absolute path they hold is the target or lies below it. */
  lemma FilteredIndexIsExact(paths: seq<string>, within: seq<string>, tree: string, target: string)
    requires tree in within && CleanAbs(tree) && CleanAbs(target) && target != "/" && Under(target, tree)
    ensures target in IndexAll(AcceptedOnes(paths, within)) <==>
            exists path :: path in paths && Accepts(path, []) && Under(Accepted(path), target)
  {
    IndexIsExact(AcceptedOnes(paths, within));
    if p :| p in AcceptedOnes(paths, within) && Under(p, target) {
      AcceptedOnesAre(paths, within, p);
    }
    if path :| path in paths && Accepts(path, []) && Under(Accepted(path), target) {
      FilterKeepsWhatMatters(path, within, tree, target);
      AcceptedOnesAre(paths, within, Accepted(path));
    }
  }
}
