/** Cleaned absolute slash-separated paths, as strings: the parent walk of
    filepath.Dir, the containment test bbUnder, and how both look on path components. */
module Paths {

  predicate CleanAbs(p: string) {
    && |p| > 0 && p[0] == '/'
    && (p == "/" || p[|p| - 1] != '/')
    && (forall k :: 0 <= k < |p| - 1 ==> !(p[k] == '/' && p[k + 1] == '/'))
  }

  /** The index of the last separator. */
  function LastSlash(p: string): (i: nat)
    requires |p| > 0 && p[0] == '/'
    ensures i < |p| && p[i] == '/'
    ensures forall k :: i < k < |p| ==> p[k] != '/'
  {
    if p[|p| - 1] == '/' then |p| - 1
    else LastSlash(p[..|p| - 1])
  }

  lemma LastSlashIs(p: string, i: nat)
    requires i < |p| && p[0] == '/' && p[i] == '/' && forall k :: i < k < |p| ==> p[k] != '/'
    ensures LastSlash(p) == i
  {
    var j := LastSlash(p);
    assert p[j] == '/';
  }

  /** filepath.Dir on a cleaned absolute path. */
  function Dir(p: string): (d: string)
    requires CleanAbs(p)
    ensures CleanAbs(d)
    ensures p != "/" ==> |d| < |p|
    ensures p == "/" ==> d == "/"
  {
    var i := LastSlash(p);
    if i == 0 then "/" else p[..i]
  }

  /** bbUnder: path is root or lies below it. */
  predicate Under(path: string, root: string) {
    path == root || root == "/" || (root <= path && |path| > |root| && path[|root|] == '/')
  }

  lemma UnderTransitive(a: string, b: string, c: string)
    requires Under(a, b) && Under(b, c) && CleanAbs(c)
    ensures Under(a, c)
  {
  }

  /** A path's place does not change when the walk takes one step up. */
  lemma UnderDir(p: string, q: string)
    requires CleanAbs(p) && CleanAbs(q) && p != q
    ensures Under(p, q) <==> p != "/" && Under(Dir(p), q)
  {
    var i := LastSlash(p);
    if q != "/" && q <= p && |p| > |q| && p[|q|] == '/' {
      assert |q| <= i;
      if |q| < i {
        assert p[..i][|q|] == '/' && q <= p[..i];
      } else {
        assert q == p[..i];
      }
    }
  }

  lemma UnderAntisymmetric(p: string, q: string)
    requires CleanAbs(p) && CleanAbs(q) && Under(p, q) && Under(q, p)
    ensures p == q
  {
  }

  /** Two places above one path are above one another. */
  lemma UnderComparable(x: string, a: string, b: string)
    requires Under(x, a) && Under(x, b)
    ensures Under(a, b) || Under(b, a)
  {
    if a != "/" && b != "/" && x != a && x != b {
      if |a| < |b| {
        assert b[..|a|] == x[..|a|] && b[|a|] == '/';
      } else if |b| < |a| {
        assert a[..|b|] == x[..|b|] && a[|b|] == '/';
      } else {
        assert a == x[..|a|] == b;
      }
    }
  }

  // --------------------------------------------------------------------- components

  predicate ValidComponent(c: string) {
    c != "" && c != "." && c != ".." && '/' !in c
  }

  predicate ValidComponents(cs: seq<string>) {
    forall c | c in cs :: ValidComponent(c)
  }

  function Joined(cs: seq<string>): string {
    if cs == [] then "" else Joined(cs[..|cs| - 1]) + "/" + cs[|cs| - 1]
  }

  /** The cleaned absolute path with these components. */
  function Render(cs: seq<string>): string {
    if cs == [] then "/" else Joined(cs)
  }

  lemma AppendIsClean(d: string, c: string)
    requires ValidComponent(c) && (d == "" || (CleanAbs(d) && d != "/"))
    ensures var p := d + "/" + c;
      CleanAbs(p) && p != "/" && LastSlash(p) == |d| && Dir(p) == if d == "" then "/" else d
  {
    var p := d + "/" + c;
    assert p[|d|] == '/' && p[|d| + 1..] == c;
    assert forall k :: |d| < k < |p| ==> p[k] == c[k - |d| - 1];
    assert forall k :: 0 <= k < |d| ==> p[k] == d[k];
    LastSlashIs(p, |d|);
    assert p[..|d|] == d;
  }

  lemma {:induction false} RenderIsClean(cs: seq<string>)
    requires ValidComponents(cs)
    ensures CleanAbs(Render(cs))
    ensures cs != [] ==> Render(cs) != "/" && Dir(Render(cs)) == Render(cs[..|cs| - 1])
    ensures cs != [] ==> LastSlash(Render(cs)) == |Joined(cs[..|cs| - 1])|
    decreases |cs|
  {
    if cs != [] {
      var n := |cs| - 1;
      assert ValidComponent(cs[n]);
      RenderIsClean(cs[..n]);
      AppendIsClean(Joined(cs[..n]), cs[n]);
    }
  }

  lemma RenderInjective(a: seq<string>, b: seq<string>)
    requires ValidComponents(a) && ValidComponents(b) && Render(a) == Render(b)
    ensures a == b
  {
    RenderIsClean(a);
    RenderIsClean(b);
    SplitJoined(a);
    SplitJoined(b);
    if a != [] && b != [] {
      assert ([""] + a)[1..] == a && ([""] + b)[1..] == b;
    }
  }

  /** The string test bbUnder is the prefix order on components. */
  lemma {:induction false} UnderIsComponentPrefix(a: seq<string>, b: seq<string>)
    requires ValidComponents(a) && ValidComponents(b)
    ensures Under(Render(a), Render(b)) <==> b <= a
    decreases |a|
  {
    RenderIsClean(a);
    RenderIsClean(b);
    if a != b {
      if Render(a) == Render(b) {
        RenderInjective(a, b);
      }
      UnderDir(Render(a), Render(b));
      if a != [] {
        UnderIsComponentPrefix(a[..|a| - 1], b);
      }
    }
  }

  /** filepath.Rel between cleaned absolute paths, on components. */
  function Rel(base: seq<string>, target: seq<string>): seq<string> {
    if base != [] && target != [] && base[0] == target[0] then Rel(base[1..], target[1..])
    else seq(|base|, _ => "..") + target
  }

  /** pathInsideRoot. */
  predicate InsideRoot(path: seq<string>, root: seq<string>) {
    var rel := Rel(root, path);
    rel == [] || rel[0] != ".."
  }

  /** pathInsideRoot asks the same question as bbUnder. */
  lemma {:induction false} InsideRootIsUnder(path: seq<string>, root: seq<string>)
    requires ValidComponents(path) && ValidComponents(root)
    ensures InsideRoot(path, root) <==> root <= path
    ensures InsideRoot(path, root) <==> Under(Render(path), Render(root))
    decreases |path|
  {
    UnderIsComponentPrefix(path, root);
    if root != [] && path != [] && root[0] == path[0] {
      InsideRootIsUnder(path[1..], root[1..]);
      assert root == [root[0]] + root[1..] && path == [path[0]] + path[1..];
    } else if root == [] && path != [] {
      assert path[0] in path;
    }
  }

  // ------------------------------------------------------------------------ cleaning

  /** The parts between separators. */
  function Split(s: string): (parts: seq<string>)
    ensures |parts| > 0
    ensures forall c :: c in parts ==> '/' !in c
  {
    if s == "" then [""]
    else
      var parts, c := Split(s[..|s| - 1]), s[|s| - 1];
      if c == '/' then parts + [""] else parts[..|parts| - 1] + [parts[|parts| - 1] + [c]]
  }

  /** Empty and "." parts vanish, ".." takes back the part before it. */
  function Resolve(parts: seq<string>): (cs: seq<string>)
    requires forall c :: c in parts ==> '/' !in c
    ensures ValidComponents(cs)
  {
    if parts == [] then []
    else
      var cs, c := Resolve(parts[..|parts| - 1]), parts[|parts| - 1];
      if c == "" || c == "." then cs
      else if c == ".." then (if cs == [] then [] else cs[..|cs| - 1])
      else cs + [c]
  }

  /** filepath.Clean on a rooted path. */
  function Clean(s: string): (p: string)
    requires |s| > 0 && s[0] == '/'
    ensures CleanAbs(p)
  {
    RenderIsClean(Resolve(Split(s)));
    Render(Resolve(Split(s)))
  }

  lemma {:induction false} SplitJoined(cs: seq<string>)
    requires ValidComponents(cs)
    ensures Split(Joined(cs)) == [""] + cs
    decreases |cs|
  {
    if cs != [] {
      var n := |cs| - 1;
      SplitJoined(cs[..n]);
      assert ValidComponent(cs[n]);
      SplitAppend(Joined(cs[..n]), cs[n]);
      assert Joined(cs) == Joined(cs[..n]) + "/" + cs[n];
      assert cs[..n] + [cs[n]] == cs;
    }
  }

  lemma {:induction false} SplitAppend(s: string, c: string)
    requires '/' !in c
    ensures Split(s + "/" + c) == Split(s) + [c]
    decreases |c|
  {
    var whole := s + "/" + c;
    if c == "" {
      assert whole[..|whole| - 1] == s;
    } else {
      var d := c[..|c| - 1];
      SplitAppend(s, d);
      assert whole[..|whole| - 1] == s + "/" + d;
      assert d + [c[|c| - 1]] == c;
    }
  }

  lemma {:induction false} ResolveValid(cs: seq<string>)
    requires ValidComponents(cs)
    ensures Resolve([""] + cs) == cs
    decreases |cs|
  {
    if cs != [] {
      var n := |cs| - 1;
      ResolveValid(cs[..n]);
      assert ([""] + cs)[..n + 1] == [""] + cs[..n];
      assert ValidComponent(cs[n]);
      assert cs[..n] + [cs[n]] == cs;
    } else {
      assert [""] + cs == [""] && [""][..0] == [];
    }
  }

  /** Cleaning a cleaned path changes nothing. */
  lemma CleanKeepsClean(cs: seq<string>)
    requires ValidComponents(cs)
    ensures CleanAbs(Render(cs)) && Clean(Render(cs)) == Render(cs)
  {
    RenderIsClean(cs);
    SplitJoined(cs);
    ResolveValid(cs);
    if cs == [] {
      assert Split("/") == ["", ""] by {
        assert "/"[..0] == "";
      }
      assert ["", ""][..1] == [""] && [""][..0] == [];
    }
  }

  lemma CleanIsFinal(s: string)
    requires |s| > 0 && s[0] == '/'
    ensures Clean(Clean(s)) == Clean(s)
  {
    CleanKeepsClean(Resolve(Split(s)));
  }
}
