/** Whether a directory holds files Git tracks: the sorted search, the repository-root
    memo and the list cache of devArtifactGitTracker in plugins/devartifacts.go. */
module TrackedFiles {
  import opened Common
  import opened Paths

  // ----------------------------------------------------------------- the sorted search

  /** Go's order on strings. */
  predicate AtMost(a: string, b: string) {
    a == "" || (b != "" && (a[0] < b[0] || (a[0] == b[0] && AtMost(a[1..], b[1..]))))
  }

  ghost predicate Sorted(files: seq<string>) {
    forall i, j :: 0 <= i < j < |files| ==> AtMost(files[i], files[j])
  }

  lemma {:induction false} AtMostTotal(a: string, b: string)
    ensures AtMost(a, b) || AtMost(b, a)
    ensures AtMost(a, b) && AtMost(b, a) ==> a == b
  {
    if a != "" && b != "" {
      AtMostTotal(a[1..], b[1..]);
      assert a == [a[0]] + a[1..] && b == [b[0]] + b[1..];
    }
  }

  lemma {:induction false} AtMostTransitive(a: string, b: string, c: string)
    requires AtMost(a, b) && AtMost(b, c)
    ensures AtMost(a, c)
  {
    if a != "" && a[0] == b[0] == c[0] {
      AtMostTransitive(a[1..], b[1..], c[1..]);
    }
  }

  /** The strings that start with a prefix follow it, without a gap. */
  lemma {:induction false} PrefixIsInterval(prefix: string, a: string, b: string)
    ensures prefix <= b ==> AtMost(prefix, b)
    ensures prefix <= b && AtMost(prefix, a) && AtMost(a, b) ==> prefix <= a
  {
    if prefix != "" && b != "" && prefix[0] == b[0] {
      PrefixIsInterval(prefix[1..], if a == "" then "" else a[1..], b[1..]);
      assert prefix <= b ==> prefix[1..] <= b[1..];
      if prefix <= b && AtMost(prefix, a) && AtMost(a, b) {
        assert a == [a[0]] + a[1..] && prefix == [prefix[0]] + prefix[1..];
      }
    }
  }

  /** sort.SearchStrings, and sort.Search with the same test. */
  method FirstAtLeast(files: seq<string>, x: string) returns (i: nat)
    requires Sorted(files)
    ensures i <= |files|
    ensures forall k :: 0 <= k < i ==> !AtMost(x, files[k])
    ensures forall k :: i <= k < |files| ==> AtMost(x, files[k])
  {
    var j := |files|;
    i := 0;
    while i < j
      invariant i <= j <= |files|
      invariant forall k :: 0 <= k < i ==> !AtMost(x, files[k])
      invariant forall k :: j <= k < |files| ==> AtMost(x, files[k])
    {
      var h := (i + j) / 2;
      if AtMost(x, files[h]) {
        forall k | h <= k < |files|
          ensures AtMost(x, files[k])
        {
          if h < k { AtMostTransitive(x, files[h], files[k]); }
        }
        j := h;
      } else {
        forall k | 0 <= k <= h
          ensures !AtMost(x, files[k])
        {
          if k < h && AtMost(x, files[k]) { AtMostTransitive(x, files[k], files[h]); }
        }
        i := h + 1;
      }
    }
  }

  /** A tracked file is rel or lies below it. */
  predicate Covers(rel: string, file: string) {
    rel == "." || file == rel || rel + "/" <= file
  }

  method TrackedFilesContain(files: seq<string>, rel: string) returns (found: bool)
    requires Sorted(files)
    ensures found <==> exists k :: 0 <= k < |files| && Covers(rel, files[k])
  {
    if rel == "." {
      assert |files| > 0 ==> Covers(rel, files[0]);
      return |files| > 0;
    }
    var idx := FirstAtLeast(files, rel);
    if idx < |files| && files[idx] == rel {
      return true;
    }
    forall k | 0 <= k < |files|
      ensures files[k] != rel
    {
      AtMostTotal(rel, rel);
      if idx < |files| && idx < k && files[k] == rel { AtMostTotal(rel, files[idx]); }
    }
    var prefix := rel + "/";
    idx := FirstAtLeast(files, prefix);
    forall k | 0 <= k < |files| && prefix <= files[k]
      ensures idx < |files| && prefix <= files[idx]
    {
      PrefixIsInterval(prefix, files[k], files[k]);
      if idx < k { PrefixIsInterval(prefix, files[idx], files[k]); }
    }
    return idx < |files| && prefix <= files[idx];
  }

  // ------------------------------------------------------------------------ the memo

  /** The plain walk up from dir: the nearest directory holding .git, "" for none. */
  function RootAbove(marked: set<string>, dir: string): string
    requires CleanAbs(dir)
    decreases |dir|
  {
    if dir in marked then dir
    else if Dir(dir) == dir then ""
    else RootAbove(marked, Dir(dir))
  }

  /** The walk finds the nearest marked directory at or above its start. */
  lemma {:induction false} RootAboveIsNearest(marked: set<string>, dir: string)
    requires CleanAbs(dir) && forall q :: q in marked ==> CleanAbs(q)
    ensures var root := RootAbove(marked, dir);
      if root == "" then forall q :: q in marked ==> !Under(dir, q)
      else root in marked && Under(dir, root) && forall q :: q in marked && Under(dir, q) ==> Under(root, q)
    decreases |dir|
  {
    if dir !in marked {
      forall q | q in marked
        ensures Under(dir, q) <==> dir != "/" && Under(Dir(dir), q)
      {
        UnderDir(dir, q);
      }
      if Dir(dir) != dir {
        RootAboveIsNearest(marked, Dir(dir));
      }
    }
  }

  const CACHED_REPOSITORIES := 8

  /** The last n elements. */
  function Latest<T>(s: seq<T>, n: nat): seq<T> {
    if |s| <= n then s else s[|s| - n..]
  }

  predicate Distinct(s: seq<string>) {
    forall i, j :: 0 <= i < j < |s| ==> s[i] != s[j]
  }

  /** The order lists the cached repositories, each once. */
  ghost predicate Listed(order: seq<string>, cache: map<string, seq<string>>) {
    Distinct(order) && forall r :: r in order <==> r in cache
  }

  lemma DropFirst(order: seq<string>, cache: map<string, seq<string>>)
    requires Listed(order, cache) && order != []
    ensures Listed(order[1..], cache - {order[0]})
  {
    assert order == [order[0]] + order[1..];
  }

  lemma AddLast(order: seq<string>, cache: map<string, seq<string>>, root: string, files: seq<string>)
    requires Listed(order, cache)
    ensures root in cache ==> Listed(order, cache[root := files])
    ensures root !in cache ==> Listed(order + [root], cache[root := files])
  {
  }

  class Tracker {
    const marked: set<string>
    var repoRootByDir: map<string, string>
    var trackedFilesByRoot: map<string, seq<string>>
    var trackedOrder: seq<string>

    /** The memo agrees with the plain walk; the order lists exactly the cached
        repositories, each once, and no more than eight. */
    ghost predicate Valid()
      reads this
    {
      && (forall q :: q in marked ==> CleanAbs(q))
      && (forall d :: d in repoRootByDir ==> CleanAbs(d) && repoRootByDir[d] == RootAbove(marked, d))
      && CacheValid()
    }

    ghost predicate CacheValid()
      reads this
    {
      && |trackedOrder| <= CACHED_REPOSITORIES && Listed(trackedOrder, trackedFilesByRoot)
      && (forall r :: r in trackedFilesByRoot ==> Sorted(trackedFilesByRoot[r]))
    }

    constructor (marked: set<string>)
      requires forall q :: q in marked ==> CleanAbs(q)
      ensures Valid() && this.marked == marked && trackedOrder == []
    {
      this.marked, repoRootByDir, trackedFilesByRoot, trackedOrder := marked, map[], map[], [];
    }

    method Note(visited: seq<string>, root: string)
      requires Valid()
      requires forall d :: d in visited ==> CleanAbs(d) && RootAbove(marked, d) == root
      modifies this`repoRootByDir
      ensures Valid()
    {
      for i := 0 to |visited|
        invariant Valid()
      {
        repoRootByDir := repoRootByDir[visited[i] := root];
      }
    }

    /** On an unchanging tree the memo never changes the answer. */
    method RepoRootForPath(path: string, isFile: bool) returns (root: string)
      requires Valid() && CleanAbs(path)
      modifies this`repoRootByDir
      ensures Valid()
      ensures root == RootAbove(marked, if isFile then Dir(path) else path)
    {
      var dir := if isFile then Dir(path) else path;
      ghost var start := dir;
      var visited := [];
      while true
        invariant Valid() && CleanAbs(dir)
        invariant RootAbove(marked, dir) == RootAbove(marked, start)
        invariant forall d :: d in visited ==> CleanAbs(d) && RootAbove(marked, d) == RootAbove(marked, start)
        decreases |dir|
      {
        if dir in repoRootByDir {
          root := repoRootByDir[dir];
          Note(visited, root);
          return;
        }
        visited := visited + [dir];
        if dir in marked {
          Note(visited, dir);
          return dir;
        }
        var parent := Dir(dir);
        if parent == dir {
          Note(visited, "");
          return "";
        }
        dir := parent;
      }
    }

    method Trim()
      requires Listed(trackedOrder, trackedFilesByRoot)
      modifies this`trackedFilesByRoot, this`trackedOrder
      ensures Listed(trackedOrder, trackedFilesByRoot)
      ensures trackedOrder == Latest(old(trackedOrder), CACHED_REPOSITORIES)
      ensures forall r :: r in trackedFilesByRoot ==>
                            r in old(trackedFilesByRoot) && trackedFilesByRoot[r] == old(trackedFilesByRoot)[r]
    {
      while |trackedOrder| > CACHED_REPOSITORIES
        invariant Latest(trackedOrder, CACHED_REPOSITORIES) == Latest(old(trackedOrder), CACHED_REPOSITORIES)
        invariant Listed(trackedOrder, trackedFilesByRoot)
        invariant forall r :: r in trackedFilesByRoot ==>
                                r in old(trackedFilesByRoot) && trackedFilesByRoot[r] == old(trackedFilesByRoot)[r]
      {
        DropFirst(trackedOrder, trackedFilesByRoot);
        trackedFilesByRoot := trackedFilesByRoot - {trackedOrder[0]};
        trackedOrder := trackedOrder[1..];
      }
    }

    /** Keeps the lists of the eight repositories last read. */
    method Remember(root: string, files: seq<string>)
      requires CacheValid() && Sorted(files)
      modifies this`trackedFilesByRoot, this`trackedOrder
      ensures CacheValid()
      ensures trackedOrder
           == Latest(if root in old(trackedFilesByRoot) then old(trackedOrder) else old(trackedOrder) + [root],
                     CACHED_REPOSITORIES)
      ensures root in trackedFilesByRoot
      ensures forall r :: r in trackedFilesByRoot ==>
                            if r == root then trackedFilesByRoot[r] == files
                            else r in old(trackedFilesByRoot) && trackedFilesByRoot[r] == old(trackedFilesByRoot)[r]
    {
      AddLast(trackedOrder, trackedFilesByRoot, root, files);
      if root !in trackedFilesByRoot {
        trackedOrder := trackedOrder + [root];
      }
      trackedFilesByRoot := trackedFilesByRoot[root := files];
      ghost var all := trackedOrder;
      Trim();
      assert |all| > CACHED_REPOSITORIES ==> trackedOrder[|trackedOrder| - 1] == root;
    }

    /** listing is what git ls-files answers now, sorted; None when it fails. */
    method TrackedFilesOf(root: string, listing: Option<seq<string>>) returns (files: seq<string>)
      requires CacheValid() && (listing.Some? ==> Sorted(listing.value))
      modifies this`trackedFilesByRoot, this`trackedOrder
      ensures CacheValid() && Sorted(files)
      ensures files == Known(old(trackedFilesByRoot), root, listing)
      ensures root in trackedFilesByRoot && trackedFilesByRoot[root] == files
    {
      if root in trackedFilesByRoot {
        return trackedFilesByRoot[root];
      }
      if listing.None? {
        Remember(root, []);
        return [];
      }
      Remember(root, listing.value);
      return listing.value;
    }
  }

  // --------------------------------------------------------------------- the question

  function Join(root: string, rel: string): string {
    if root == "/" then "/" + rel else root + "/" + rel
  }

  /** filepath.Rel for a path at or below root. */
  function RelBelow(root: string, path: string): (rel: string)
    requires CleanAbs(root) && CleanAbs(path) && Under(path, root)
    ensures path != root ==> Join(root, rel) == path
  {
    if path == root then "." else if root == "/" then path[1..] else path[|root| + 1..]
  }

  /** filepath.Abs leaves no "." at the end of a path. */
  predicate Named(path: string) {
    CleanAbs(path) && (|path| >= 2 ==> path[|path| - 2..] != "/.")
  }

  lemma DotIsLast(root: string, path: string)
    requires CleanAbs(root) && CleanAbs(path) && Under(path, root) && path != root && RelBelow(root, path) == "."
    ensures !Named(path)
  {
    assert path[|path| - 2..] == "/.";
  }

  /** The test on relative names asks whether the file lies at or below the path. */
  lemma CoversIsUnder(root: string, path: string, file: string)
    requires CleanAbs(root) && Named(path) && Under(path, root)
    ensures Covers(RelBelow(root, path), file) <==> Under(Join(root, file), path)
  {
    var rel := RelBelow(root, path);
    if path != root {
      if rel == "." { DotIsLast(root, path); }
      var base := if root == "/" then "/" else root + "/";
      assert path == base + rel && Join(root, file) == base + file;
      assert file == rel <==> base + file == base + rel by {
        assert (base + file)[|base|..] == file && (base + rel)[|base|..] == rel;
      }
      assert rel + "/" <= file <==> path + "/" <= base + file by {
        PrefixShift(base, rel + "/", file);
        assert base + (rel + "/") == path + "/";
      }
      UnderIsPrefix(base + file, path);
    } else {
      assert root != "/" ==> root <= root + "/" + file;
    }
  }

  lemma PrefixShift(base: string, a: string, b: string)
    ensures a <= b <==> base + a <= base + b
  {
    assert (base + a)[|base|..] == a && (base + b)[|base|..] == b;
    if base + a <= base + b {
      assert forall k :: 0 <= k < |a| ==> a[k] == (base + a)[|base| + k] == (base + b)[|base| + k] == b[k];
    }
  }

  lemma UnderIsPrefix(path: string, root: string)
    ensures Under(path, root) <==> path == root || root == "/" || root + "/" <= path
  {
    if root <= path && |path| > |root| && path[|root|] == '/' {
      assert path[..|root| + 1] == root + "/";
    }
    if root + "/" <= path {
      assert path[|root|] == (root + "/")[|root|] && path[..|root|] == (root + "/")[..|root|];
    }
  }

  /** The list a question about this repository goes by: the one cached, else git's, else none. */
  function Known(cache: map<string, seq<string>>, root: string, listing: Option<seq<string>>): seq<string> {
    if root in cache then cache[root] else if listing.Some? then listing.value else []
  }

  /** ContainsTrackedFiles: true exactly when the nearest repository at or above the
      path has, in its list, a file at or below the path. */
  method ContainsTrackedFiles(tracker: Tracker, path: string, isFile: bool, listing: Option<seq<string>>)
    returns (found: bool)
    requires tracker.Valid() && Named(path) && (listing.Some? ==> Sorted(listing.value))
    modifies tracker
    ensures tracker.Valid()
    ensures var root := RootAbove(tracker.marked, if isFile then Dir(path) else path);
      found <==> && root != ""
                 && if root in old(tracker.trackedFilesByRoot) then
                      exists file :: file in old(tracker.trackedFilesByRoot)[root] && Under(Join(root, file), path)
                    else listing.Some? && exists file :: file in listing.value && Under(Join(root, file), path)
    ensures var root := RootAbove(tracker.marked, if isFile then Dir(path) else path);
      root != "" ==> && root in tracker.trackedFilesByRoot
                     && tracker.trackedFilesByRoot[root] == Known(old(tracker.trackedFilesByRoot), root, listing)
  {
    var start := if isFile then Dir(path) else path;
    var root := tracker.RepoRootForPath(path, isFile);
    if root == "" {
      return false;
    }
    var files := tracker.TrackedFilesOf(root, listing);
    if |files| == 0 {
      return false;
    }
    RootAboveIsNearest(tracker.marked, start);
    if path != "/" {
      UnderDir(path, Dir(path));
    }
    UnderTransitive(path, start, root);
    found := TrackedFilesContain(files, RelBelow(root, path));
    forall file
      ensures Covers(RelBelow(root, path), file) <==> Under(Join(root, file), path)
    {
      CoversIsUnder(root, path, file);
    }
    assert found <==> exists file :: file in files && Under(Join(root, file), path);
    assert root !in old(tracker.trackedFilesByRoot) ==> listing.Some? && files == listing.value;
  }
}
