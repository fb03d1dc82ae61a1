/** The agent-session deny set (plugins/agentsession.go): glob patterns looked up through
    an index at every ancestor, resolved stores, and the refusal to remove what contains one. */
module DenySet {
  import opened Paths

  // --------------------------------------------------------------------------- globs

  /** filepath.Match for patterns of literals, * and ?: neither crosses a separator. */
  predicate Match(pattern: string, name: string)
    decreases |pattern| + |name|
  {
    if pattern == "" then name == ""
    else if pattern[0] == '*' then
      Match(pattern[1..], name) || (name != "" && name[0] != '/' && Match(pattern, name[1..]))
    else if pattern[0] == '?' then name != "" && name[0] != '/' && Match(pattern[1..], name[1..])
    else name != "" && name[0] == pattern[0] && Match(pattern[1..], name[1..])
  }

  /** The patterns the model of Match covers: no character class, no escape. */
  predicate Plain(pattern: string) {
    CleanAbs(pattern) && '[' !in pattern && '\\' !in pattern
  }

  predicate HasGlob(s: string) {
    '*' in s || '?' in s || '[' in s
  }

  /** A pattern with a glob above its last element. */
  predicate Slow(pattern: string)
    requires CleanAbs(pattern)
  {
    HasGlob(Dir(pattern))
  }

  lemma {:induction false} MatchLiteralPrefix(literal: string, rest: string, name: string)
    requires '*' !in literal && '?' !in literal
    ensures Match(literal + rest, name) <==> literal <= name && Match(rest, name[|literal|..])
    decreases |literal|
  {
    if literal == "" {
      assert literal + rest == rest && name[0..] == name;
    } else {
      assert (literal + rest)[0] == literal[0] && (literal + rest)[1..] == literal[1..] + rest;
      assert literal[0] in literal;
      if name != "" {
        MatchLiteralPrefix(literal[1..], rest, name[1..]);
        assert literal <= name <==> literal[0] == name[0] && literal[1..] <= name[1..];
        if literal <= name {
          assert name[1..][|literal[1..]|..] == name[|literal|..];
        }
      }
    }
  }

  lemma {:induction false} MatchStaysInElement(pattern: string, name: string)
    requires '/' !in pattern && Match(pattern, name)
    ensures '/' !in name
    decreases |pattern| + |name|
  {
    if pattern != "" {
      assert pattern[0] in pattern;
      if pattern[0] == '*' && Match(pattern[1..], name) {
        MatchStaysInElement(pattern[1..], name);
      } else if pattern[0] == '*' {
        MatchStaysInElement(pattern, name[1..]);
        assert name == [name[0]] + name[1..];
      } else {
        MatchStaysInElement(pattern[1..], name[1..]);
        assert name == [name[0]] + name[1..];
      }
    }
  }

  /** A match of a pattern whose globs are in its last element repeats everything before it. */
  lemma MatchRepeatsDir(d: string, last: string, q: string)
    requires '*' !in d && '?' !in d && '/' !in last && Match(d + "/" + last, q)
    ensures |q| > |d| && q[..|d|] == d && q[|d|] == '/' && forall k :: |d| < k < |q| ==> q[k] != '/'
  {
    var literal := d + "/";
    MatchLiteralPrefix(literal, last, q);
    var rest := q[|literal|..];
    MatchStaysInElement(last, rest);
    assert q == literal + rest;
    assert forall k :: |d| < k < |q| ==> q[k] == rest[k - |literal|] && rest[k - |literal|] in rest;
  }

  lemma SplitAt(p: string, i: nat)
    requires i < |p| && p[i] == '/' && forall k :: i < k < |p| ==> p[k] != '/'
    ensures p == p[..i] + "/" + p[i + 1..] && '/' !in p[i + 1..]
  {
  }

  lemma NoGlobAbove(pattern: string)
    requires CleanAbs(pattern) && !Slow(pattern)
    ensures '*' !in pattern[..LastSlash(pattern)] && '?' !in pattern[..LastSlash(pattern)]
  {
    assert LastSlash(pattern) > 0 ==> Dir(pattern) == pattern[..LastSlash(pattern)];
  }

  /** A pattern whose only globs are in its last element matches only paths of its own directory. */
  lemma MatchKeepsDir(pattern: string, q: string)
    requires CleanAbs(pattern) && CleanAbs(q) && !Slow(pattern) && Match(pattern, q)
    ensures Dir(q) == Dir(pattern)
  {
    NoGlobAbove(pattern);
    var i := LastSlash(pattern);
    SplitAt(pattern, i);
    MatchRepeatsDir(pattern[..i], pattern[i + 1..], q);
    LastSlashIs(q, i);
  }

  // ----------------------------------------------------------------- what is denied

  /** Something makes q itself a denied tree: a pattern, a session directory name, a resolved store. */
  ghost predicate Hit(patterns: seq<string>, roots: seq<string>, session: string -> bool, q: string) {
    (exists pattern :: pattern in patterns && Match(pattern, q)) || session(q) || q in roots
  }

  /** The ancestor counts: any, or strictly below the boundary when there is one. */
  predicate Counts(q: string, boundary: string) {
    boundary == "" || (q != boundary && Under(q, boundary))
  }

  /** Plain matching: some ancestor of p (or p) that counts is a hit. */
  ghost predicate Denied(patterns: seq<string>, roots: seq<string>, session: string -> bool, p: string, boundary: string) {
    exists q :: CleanAbs(q) && Under(p, q) && Counts(q, boundary) && Hit(patterns, roots, session, q)
  }

  /** Denial with no boundary is closed under descendants. */
  lemma DenialIsInherited(patterns: seq<string>, roots: seq<string>, session: string -> bool, p: string, x: string)
    requires CleanAbs(p) && CleanAbs(x) && Under(x, p)
    requires Denied(patterns, roots, session, p, "")
    ensures Denied(patterns, roots, session, x, "")
  {
    var q :| CleanAbs(q) && Under(p, q) && Counts(q, "") && Hit(patterns, roots, session, q);
    UnderTransitive(x, p, q);
  }

  /** If a directory is neither denied nor contains a store, its whole subtree is disjoint
      from every store's: no path in it lies at or under a store, no store lies in it. */
  lemma PermittedIsDisjoint(patterns: seq<string>, roots: seq<string>, session: string -> bool, dir: string)
    requires CleanAbs(dir) && forall r :: r in roots ==> CleanAbs(r)
    requires !Denied(patterns, roots, session, dir, "")
    requires forall r :: r in roots ==> !Under(r, dir)
    ensures forall x, r :: Under(x, dir) && r in roots ==> !Under(x, r) && !Under(r, dir)
    ensures forall x, y, r :: Under(x, dir) && r in roots && Under(y, r) ==> x != y
  {
    forall x, r | Under(x, dir) && r in roots
      ensures !Under(x, r)
    {
      if Under(x, r) {
        UnderComparable(x, dir, r);
        assert Hit(patterns, roots, session, r);
        assert Counts(r, "");
      }
    }
  }

  // -------------------------------------------------------------------- the index

  datatype Index = Index(patternsByDir: map<string, seq<string>>, slowPatterns: seq<string>, rootSet: set<string>)

  /** Every pattern is filed once, by its directory or as slow; the root set is the roots. */
  ghost predicate Files(ix: Index, patterns: seq<string>, roots: seq<string>)
    requires forall p :: p in patterns ==> CleanAbs(p)
  {
    && (forall d, p :: d in ix.patternsByDir && p in ix.patternsByDir[d] ==> p in patterns && !Slow(p) && Dir(p) == d)
    && (forall p :: p in patterns && !Slow(p) ==> Dir(p) in ix.patternsByDir && p in ix.patternsByDir[Dir(p)])
    && (forall p :: p in ix.slowPatterns <==> p in patterns && Slow(p))
    && (forall r :: r in ix.rootSet <==> r in roots)
  }

  lemma FileSlow(ix: Index, patterns: seq<string>, pattern: string)
    requires (forall p :: p in patterns ==> CleanAbs(p)) && Files(ix, patterns, [])
    requires CleanAbs(pattern) && Slow(pattern)
    ensures Files(ix.(slowPatterns := ix.slowPatterns + [pattern]), patterns + [pattern], [])
  {
    assert forall p :: p in patterns + [pattern] <==> p in patterns || p == pattern;
  }

  lemma FileByDir(ix: Index, patterns: seq<string>, pattern: string, dir: string, filed: seq<string>)
    requires (forall p :: p in patterns ==> CleanAbs(p)) && Files(ix, patterns, [])
    requires CleanAbs(pattern) && !Slow(pattern) && dir == Dir(pattern)
    requires filed == if dir in ix.patternsByDir then ix.patternsByDir[dir] else []
    ensures Files(ix.(patternsByDir := ix.patternsByDir[dir := filed + [pattern]]), patterns + [pattern], [])
  {
    assert forall p :: p in patterns + [pattern] <==> p in patterns || p == pattern;
    assert forall p :: p in filed + [pattern] <==> p in filed || p == pattern;
  }

  /** What the walk looks at for one ancestor. */
  ghost predicate LookupHit(ix: Index, session: string -> bool, q: string)
    requires CleanAbs(q)
  {
    || (Dir(q) in ix.patternsByDir && exists p :: p in ix.patternsByDir[Dir(q)] && Match(p, q))
    || (exists p :: p in ix.slowPatterns && Match(p, q))
    || session(q)
    || q in ix.rootSet
  }

  /** Looking only under the parent directory, and among the slow patterns, misses nothing. */
  lemma LookupIsPlainMatching(ix: Index, patterns: seq<string>, roots: seq<string>, session: string -> bool, q: string)
    requires CleanAbs(q) && (forall p :: p in patterns ==> CleanAbs(p) && Plain(p)) && Files(ix, patterns, roots)
    ensures LookupHit(ix, session, q) <==> Hit(patterns, roots, session, q)
  {
    if p :| p in patterns && Match(p, q) {
      assert Plain(p);
      if !Slow(p) {
        MatchKeepsDir(p, q);
      }
    }
  }

  /** The deny set of one cycle. session stands for isAgentSessionDir, which reads the file system. */
  class DenyList {
    const patterns: seq<string>
    const roots: seq<string>
    var patternsByDir: map<string, seq<string>>
    var slowPatterns: seq<string>
    var rootSet: set<string>

    ghost predicate WellFormed() {
      (forall p :: p in patterns ==> Plain(p)) && (forall r :: r in roots ==> CleanAbs(r))
    }

    ghost predicate Indexed()
      reads this
    {
      WellFormed() && Files(Index(patternsByDir, slowPatterns, rootSet), patterns, roots)
    }

    constructor (patterns: seq<string>, roots: seq<string>)
      requires forall p :: p in patterns ==> Plain(p)
      requires forall r :: r in roots ==> CleanAbs(r)
      ensures Indexed() && this.patterns == patterns && this.roots == roots
    {
      this.patterns, this.roots := patterns, roots;
      patternsByDir, slowPatterns, rootSet := map[], [], {};
      new;
      FileAll();
    }

    method FilePatterns()
      requires WellFormed() && slowPatterns == []
      modifies this
      ensures Files(Index(patternsByDir, slowPatterns, {}), patterns, [])
    {
      patternsByDir := map[];
      for k := 0 to |patterns|
        invariant forall p :: p in patterns[..k] ==> CleanAbs(p)
        invariant Files(Index(patternsByDir, slowPatterns, {}), patterns[..k], [])
      {
        var pattern := patterns[k];
        assert Plain(pattern) && patterns[..k + 1] == patterns[..k] + [pattern];
        var dir := Dir(pattern);
        if HasGlob(dir) {
          FileSlow(Index(patternsByDir, slowPatterns, {}), patterns[..k], pattern);
          slowPatterns := slowPatterns + [pattern];
          continue;
        }
        var filed := if dir in patternsByDir then patternsByDir[dir] else [];
        FileByDir(Index(patternsByDir, slowPatterns, {}), patterns[..k], pattern, dir, filed);
        patternsByDir := patternsByDir[dir := filed + [pattern]];
      }
      assert patterns[..|patterns|] == patterns;
    }

    /** index. */
    method FileAll()
      requires WellFormed() && slowPatterns == []
      modifies this
      ensures Indexed()
    {
      FilePatterns();
      rootSet := {};
      ghost var filedByDir, filedSlow := patternsByDir, slowPatterns;
      for k := 0 to |roots|
        invariant patternsByDir == filedByDir && slowPatterns == filedSlow
        invariant forall r :: r in rootSet <==> r in roots[..k]
      {
        rootSet := rootSet + {roots[k]};
        assert roots[..k + 1] == roots[..k] + [roots[k]];
      }
      assert roots[..|roots|] == roots;
    }

    /** One ancestor of the walk. */
    method Looks(q: string, session: string -> bool) returns (hit: bool)
      requires Indexed() && CleanAbs(q)
      ensures hit <==> Hit(patterns, roots, session, q)
    {
      LookupIsPlainMatching(Index(patternsByDir, slowPatterns, rootSet), patterns, roots, session, q);
      if Dir(q) in patternsByDir {
        var filed := patternsByDir[Dir(q)];
        for k := 0 to |filed|
          invariant forall p :: p in filed[..k] ==> !Match(p, q)
        {
          if Match(filed[k], q) {
            return true;
          }
        }
        assert filed[..|filed|] == filed;
      }
      for k := 0 to |slowPatterns|
        invariant forall p :: p in slowPatterns[..k] ==> !Match(p, q)
      {
        if Match(slowPatterns[k], q) {
          return true;
        }
      }
      assert slowPatterns[..|slowPatterns|] == slowPatterns;
      return session(q) || q in rootSet;
    }

    /** deniedPath: the walk up from p, stopping at the boundary, answers plain matching. */
    method DeniedPath(path: string, boundary: string, session: string -> bool) returns (denied: bool)
      requires Indexed() && |path| > 0 && path[0] == '/' && (boundary == "" || CleanAbs(boundary))
      ensures denied <==> Denied(patterns, roots, session, Clean(path), boundary)
    {
      var p := Clean(path);
      var q := p;
      while true
        invariant CleanAbs(q) && Under(p, q)
        invariant forall t :: CleanAbs(t) && Under(p, t) && Counts(t, boundary) && Hit(patterns, roots, session, t) ==> Under(q, t)
        decreases |q|
      {
        if boundary != "" && (q == boundary || !Under(q, boundary)) {
          BoundaryReached(q, boundary);
          return false;
        }
        var hit := Looks(q, session);
        if hit {
          return true;
        }
        if q == "/" {
          return false;
        }
        forall t | CleanAbs(t) && Under(q, t) && t != q
          ensures Under(Dir(q), t)
        {
          UnderDir(q, t);
        }
        UnderDir(q, Dir(q));
        UnderTransitive(p, q, Dir(q));
        q := Dir(q);
      }
    }

    /** At or outside the boundary, no ancestor counts any more. */
    lemma BoundaryReached(q: string, boundary: string)
      requires CleanAbs(q) && CleanAbs(boundary) && (q == boundary || !Under(q, boundary))
      ensures forall t :: CleanAbs(t) && Under(q, t) ==> !Counts(t, boundary)
    {
      forall t | CleanAbs(t) && Under(q, t)
        ensures !Counts(t, boundary)
      {
        if Counts(t, boundary) {
          UnderTransitive(q, t, boundary);
          UnderAntisymmetric(t, boundary);
        }
      }
    }

    /** containsDenied, for the path as given and as the file system resolves it. */
    method ContainsDenied(path: string, physical: string) returns (contains: bool)
      requires CleanAbs(path) && CleanAbs(physical)
      ensures contains <==> exists r :: r in roots && (Under(r, path) || Under(r, physical))
    {
      for k := 0 to |roots|
        invariant forall r :: r in roots[..k] ==> !Under(r, path)
      {
        if Under(roots[k], path) {
          return true;
        }
      }
      if physical != path {
        for k := 0 to |roots|
          invariant forall r :: r in roots[..k] ==> !Under(r, physical)
        {
          if Under(roots[k], physical) {
            return true;
          }
        }
      }
      assert roots[..|roots|] == roots;
      return false;
    }

    /** denied and containsDenied together: when both let a directory go, the subtrees of the
        path and of its physical location are disjoint from every store. */
    method MayRemove(path0: string, physical0: string, session: string -> bool) returns (may: bool)
      requires Indexed() && |path0| > 0 && path0[0] == '/' && |physical0| > 0 && physical0[0] == '/'
      ensures var path, physical := Clean(path0), Clean(physical0);
        && (may ==> forall x, y, r :: (Under(x, path) || Under(x, physical)) && r in roots && Under(y, r) ==> x != y)
        && (may <==> !Denied(patterns, roots, session, path, "") && !Denied(patterns, roots, session, physical, "")
                     && forall r :: r in roots ==> !Under(r, path) && !Under(r, physical))
    {
      var path, physical := Clean(path0), Clean(physical0);
      CleanIsFinal(path0);
      CleanIsFinal(physical0);
      var denied := DeniedPath(path, "", session);
      if !denied && physical != path {
        denied := DeniedPath(physical, "", session);
      }
      if denied {
        return false;
      }
      var contains := ContainsDenied(path, physical);
      if contains {
        return false;
      }
      PermittedIsDisjoint(patterns, roots, session, path);
      PermittedIsDisjoint(patterns, roots, session, physical);
      return true;
    }
  }

  // ------------------------------------------------------------- what a glob accepts

  lemma {:induction false} LiteralMatchesItself(literal: string, name: string)
    requires '*' !in literal && '?' !in literal
    ensures Match(literal, name) <==> name == literal
  {
    MatchLiteralPrefix(literal, "", name);
    assert literal + "" == literal;
    if literal <= name && Match("", name[|literal|..]) {
      assert name == literal + name[|literal|..];
    }
  }

  /** A star accepts any run of characters within one element. */
  lemma {:induction false} StarMatchesWithinElement(name: string)
    ensures Match("*", name) <==> '/' !in name
    decreases |name|
  {
    assert "*"[1..] == "";
    if name != "" {
      StarMatchesWithinElement(name[1..]);
      assert name == [name[0]] + name[1..];
    }
  }

  /** A question mark accepts one character other than the separator. */
  lemma QuestionMatchesOne(name: string)
    ensures Match("?", name) <==> |name| == 1 && name[0] != '/'
  {
    assert "?"[1..] == "";
    if name != "" {
      assert name[1..] == "" <==> |name| == 1;
    }
  }

  /** The name splits in two, one part for each pattern. */
  predicate Splits(a: string, b: string, name: string, k: nat) {
    k <= |name| && Match(a, name[..k]) && Match(b, name[k..])
  }

  /** Two patterns in a row accept what can be split between them. */
  lemma {:induction false} MatchSplits(a: string, b: string, name: string)
    ensures Match(a + b, name) <==> exists k: nat :: Splits(a, b, name, k)
    decreases |a| + |name|
  {
    if a == "" {
      assert a + b == b && name[0..] == name && name[..0] == "";
      assert Match(b, name) ==> Splits(a, b, name, 0);
    } else {
      assert (a + b)[0] == a[0] && (a + b)[1..] == a[1..] + b;
      MatchSplits(a[1..], b, name);
      if name != "" {
        MatchSplits(a, b, name[1..]);
        MatchSplits(a[1..], b, name[1..]);
      }
      if Match(a + b, name) {
        SplitsFound(a, b, name);
      }
      if k: nat :| Splits(a, b, name, k) {
        SplitsMatch(a, b, name, k);
      }
    }
  }

  lemma SplitsFound(a: string, b: string, name: string)
    requires a != "" && Match(a + b, name) && (a + b)[0] == a[0] && (a + b)[1..] == a[1..] + b
    requires Match(a[1..] + b, name) ==> exists k: nat :: Splits(a[1..], b, name, k)
    requires name != "" && Match(a + b, name[1..]) ==> exists k: nat :: Splits(a, b, name[1..], k)
    requires name != "" && Match(a[1..] + b, name[1..]) ==> exists k: nat :: Splits(a[1..], b, name[1..], k)
    ensures exists k: nat :: Splits(a, b, name, k)
  {
    if a[0] == '*' && Match(a[1..] + b, name) {
      var k: nat :| Splits(a[1..], b, name, k);
      assert Splits(a, b, name, k);
    } else {
      var rest := if a[0] == '*' then a else a[1..];
      var k: nat :| Splits(rest, b, name[1..], k);
      SplitsShift(a, rest, b, name, k);
    }
  }

  /** Taking one more character into the first part. */
  lemma SplitsShift(a: string, rest: string, b: string, name: string, k: nat)
    requires a != "" && name != "" && Splits(rest, b, name[1..], k)
    requires rest == if a[0] == '*' then a else a[1..]
    requires if a[0] == '*' || a[0] == '?' then name[0] != '/' else name[0] == a[0]
    ensures Splits(a, b, name, k + 1)
  {
    assert name[..k + 1][0] == name[0] && name[..k + 1][1..] == name[1..][..k];
    assert name[k + 1..] == name[1..][k..];
  }

  lemma SplitsMatch(a: string, b: string, name: string, k: nat)
    requires a != "" && Splits(a, b, name, k) && (a + b)[0] == a[0] && (a + b)[1..] == a[1..] + b
    requires (exists j: nat :: Splits(a[1..], b, name, j)) ==> Match(a[1..] + b, name)
    requires name != "" && (exists j: nat :: Splits(a, b, name[1..], j)) ==> Match(a + b, name[1..])
    requires name != "" && (exists j: nat :: Splits(a[1..], b, name[1..], j)) ==> Match(a[1..] + b, name[1..])
    ensures Match(a + b, name)
  {
    if a[0] == '*' && Match(a[1..], name[..k]) {
      assert Splits(a[1..], b, name, k);
    } else {
      assert name[..k][1..] == name[1..][..k - 1] && name[k..] == name[1..][k - 1..];
      assert Splits(if a[0] == '*' then a else a[1..], b, name[1..], k - 1);
    }
  }
}
