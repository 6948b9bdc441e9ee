/** Lexical resolution of a configured hook path under the project root (hooks.rs), for Unix paths. */
module HookPath {
  import opened Basics

  datatype Component = RootDir | CurDir | ParentDir | Normal(name: string)

  /** What Path::components yields: a root can only stand first. */
  type Path = cs: seq<Component> | forall i :: 0 < i < |cs| ==> !cs[i].RootDir?

  predicate IsAbsolute(p: Path) {
    p != [] && p[0].RootDir?
  }

  /** Path::join; a dot in the middle of a path is no component. */
  function Join(a: Path, b: Path): Path {
    if IsAbsolute(b) then b
    else if a != [] && b != [] && b[0].CurDir? then a + b[1..]
    else a + b
  }

  /** PathBuf::pop: neither the root nor the empty path has a parent. */
  function Up(p: Path): Path {
    if p == [] || p[|p| - 1].RootDir? then p else p[..|p| - 1]
  }

  /** Where one component leads from a directory. */
  function Moved(at: Path, c: Component): Path {
    match c
    case RootDir => [RootDir]
    case CurDir => at
    case ParentDir => Up(at)
    case Normal(_) => at + [c]
  }

  /** Where a path leads from a directory when no name is a link. */
  function Walk(at: Path, cs: seq<Component>): Path
    decreases |cs|
  {
    if cs == [] then at else Walk(Moved(at, cs[0]), cs[1..])
  }

  function Normalized(p: Path): Path {
    Walk([], p)
  }

  /** Neither dots nor double dots. */
  predicate IsPlain(p: Path) {
    forall c <- p :: c.RootDir? || c.Normal?
  }

  /** How often a path steps above the directory it starts in, given how deep it already is below it. */
  function Climb(depth: nat, cs: seq<Component>): nat
    decreases |cs|
  {
    if cs == [] then 0
    else match cs[0]
      case Normal(_) => Climb(depth + 1, cs[1..])
      case ParentDir => if depth == 0 then 1 + Climb(0, cs[1..]) else Climb(depth - 1, cs[1..])
      case _ => Climb(depth, cs[1..])
  }

  function Depth(p: Path): nat {
    if IsAbsolute(p) then |p| - 1 else |p|
  }

  lemma {:induction false} WalkConcat(at: Path, a: seq<Component>, b: seq<Component>)
    ensures Walk(at, a + b) == Walk(Walk(at, a), b)
    decreases |a|
  {
    if a == [] {
      assert a + b == b;
    } else {
      WalkConcat(Moved(at, a[0]), a[1..], b);
      assert (a + b)[1..] == a[1..] + b;
    }
  }

  /** A dot does nothing, a name leads down, and double dots lead up where there is an up. */
  lemma LastStep(at: Path, cs: seq<Component>, name: string)
    requires IsPlain(at)
    ensures Walk(at, []) == at && Walk(at, cs + [RootDir]) == [RootDir]
    ensures Walk(at, cs + [CurDir]) == Walk(at, cs)
    ensures Walk(at, cs + [Normal(name)]) == Walk(at, cs) + [Normal(name)]
    ensures var end := Walk(at, cs);
      Walk(at, cs + [ParentDir]) == if end == [] || end == [RootDir] then end else end[..|end| - 1]
  {
    WalkIsPlain(at, cs);
    hide IsPlain, Walk;
    WalkLast(at, cs, CurDir);
    WalkLast(at, cs, RootDir);
    WalkLast(at, cs, Normal(name));
    WalkLast(at, cs, ParentDir);
    WalkNowhere(at);
  }

  lemma WalkNowhere(at: Path)
    ensures Walk(at, []) == at
  {
  }

  lemma WalkLast(at: Path, cs: seq<Component>, c: Component)
    ensures Walk(at, cs + [c]) == Moved(Walk(at, cs), c)
  {
    WalkConcat(at, cs, [c]);
    assert [c][1..] == [];
  }

  /** A walk from a plain place ends in a plain place, and stays absolute. */
  lemma {:induction false} WalkIsPlain(at: Path, cs: seq<Component>)
    requires IsPlain(at)
    ensures IsPlain(Walk(at, cs))
    ensures IsAbsolute(at) ==> IsAbsolute(Walk(at, cs))
    decreases |cs|
  {
    if cs != [] {
      WalkIsPlain(Moved(at, cs[0]), cs[1..]);
    }
  }

  /** A plain relative path is followed name by name. */
  lemma {:induction false} WalkPlain(at: Path, cs: Path)
    requires IsPlain(cs) && !IsAbsolute(cs)
    ensures Walk(at, cs) == at + cs
    decreases |cs|
  {
    if cs == [] {
      assert at + cs == at;
    } else {
      assert cs[0] in cs && forall c <- cs[1..] :: c in cs;
      WalkPlain(at + [cs[0]], cs[1..]);
      assert at + [cs[0]] + cs[1..] == at + cs;
    }
  }

  /** Normalising leaves exactly the plain paths alone; so it is idempotent and keeps a path absolute or relative. */
  lemma NormalizedIsPlain(p: Path)
    ensures Normalized(p) == p <==> IsPlain(p)
    ensures IsPlain(Normalized(p))
    ensures Normalized(Normalized(p)) == Normalized(p)
    ensures IsAbsolute(Normalized(p)) <==> IsAbsolute(p)
  {
    WalkIsPlain([], p);
    if IsAbsolute(p) {
      WalkIsPlain([RootDir], p[1..]);
    } else {
      RelativeStaysRelative([], p);
    }
    PlainIsNormal(Normalized(p));
    if IsPlain(p) {
      PlainIsNormal(p);
    }
  }

  lemma PlainIsNormal(p: Path)
    requires IsPlain(p)
    ensures Normalized(p) == p
  {
    if IsAbsolute(p) {
      assert forall c <- p[1..] :: c in p;
      WalkPlain([RootDir], p[1..]);
      assert [RootDir] + p[1..] == p;
    } else {
      WalkPlain([], p);
      assert [] + p == p;
    }
  }

  lemma {:induction false} RelativeStaysRelative(at: Path, cs: seq<Component>)
    requires !IsAbsolute(at) && RootDir !in cs
    ensures !IsAbsolute(Walk(at, cs))
    decreases |cs|
  {
    if cs != [] {
      RelativeStaysRelative(Moved(at, cs[0]), cs[1..]);
    }
  }

  /** The names reached from a directory after climbing c times, and no further than there are names. */
  function Under(base: Path, c: nat, tail: seq<Component>): seq<Component> {
    base[..|base| - Min(c, Depth(base))] + tail
  }

  /** Climbing once and then c times is climbing 1 + c times. */
  lemma KeptAbove(base: Path, c: nat)
    requires IsPlain(base)
    ensures IsPlain(Up(base))
    ensures forall tail :: Under(Up(base), c, tail) == Under(base, 1 + c, tail)
  {
    if Depth(base) > 0 {
      var kept := |base| - 1 - Min(c, Depth(base) - 1);
      assert base[..|base| - 1][..kept] == base[..kept];
    }
  }

  /** Below a directory a relative path undoes as many names as it climbs, and no more than there are. */
  lemma {:induction false} WalkBelow(base: Path, names: Path, cs: seq<Component>)
    requires IsPlain(base) && IsPlain(names) && !IsAbsolute(names) && RootDir !in cs
    ensures !IsAbsolute(Walk(names, cs))
    ensures Walk(base + names, cs) == Under(base, Climb(|names|, cs), Walk(names, cs))
    decreases |cs|, 1
  {
    if cs == [] {
      assert base[..|base|] == base;
    } else {
      hide Under, IsPlain;
      var next := Moved(names, cs[0]);
      if cs[0].ParentDir? && names == [] {
        assert base + names == base;
        ClimbBelow(base, cs);
      } else {
        MovedBelow(base, names, cs[0]);
        WalkBelow(base, next, cs[1..]);
      }
    }
  }

  lemma MovedBelow(base: Path, names: Path, c: Component)
    requires IsPlain(base) && IsPlain(names) && !IsAbsolute(names) && c != RootDir
    requires c.ParentDir? ==> names != []
    ensures Moved(base + names, c) == base + Moved(names, c)
    ensures IsPlain(Moved(names, c)) && !IsAbsolute(Moved(names, c))
    ensures |Moved(names, c)| == if c.Normal? then |names| + 1 else if c.ParentDir? then |names| - 1 else |names|
  {
    match c
    case Normal(_) => assert base + names + [c] == base + (names + [c]);
    case ParentDir => assert Up(base + names) == base + Up(names);
    case CurDir =>
  }

  lemma {:induction false} ClimbBelow(base: Path, cs: seq<Component>)
    requires IsPlain(base) && RootDir !in cs && cs != [] && cs[0].ParentDir?
    ensures !IsAbsolute(Walk([], cs))
    ensures Walk(base, cs) == Under(base, Climb(0, cs), Walk([], cs))
    decreases |cs|, 0
  {
    assert Up(base) + [] == Up(base);
    KeptAbove(base, Climb(0, cs[1..]));
    WalkBelow(Up(base), [], cs[1..]);
  }

  /**
   * Normalising keeps where a path leads, from every directory, exactly when the path is absolute or
   * never climbs above the directory it starts in: leading double dots are dropped.
   */
  lemma NormalizingKeepsMeaning(p: Path)
    ensures (forall at: Path :: IsPlain(at) ==> Walk(at, Normalized(p)) == Walk(at, p))
      <==> IsAbsolute(p) || Climb(0, p) == 0
  {
    var n := Normalized(p);
    NormalizedIsPlain(p);
    if IsAbsolute(p) {
      forall at: Path | IsPlain(at)
        ensures Walk(at, n) == Walk(at, p)
      {
        assert Walk(at, p) == Walk([RootDir], p[1..]) == n;
        assert Walk(at, n) == Walk([RootDir], n[1..]) == Normalized(n);
      }
    } else {
      forall at: Path | IsPlain(at)
        ensures Walk(at, p) == Under(at, Climb(0, p), n)
        ensures Walk(at, n) == at + n
      {
        WalkBelow(at, [], p);
        WalkPlain(at, n);
        assert at + [] == at;
      }
      if Climb(0, p) == 0 {
        forall at: Path | IsPlain(at)
          ensures Walk(at, n) == Walk(at, p)
        {
          assert at[..|at|] == at;
        }
      } else {
        ClimbShows(p);
      }
    }
  }

  /** A single directory to start from shows the difference. */
  lemma ClimbShows(p: Path)
    requires !IsAbsolute(p) && Climb(0, p) > 0
    ensures exists at: Path :: IsPlain(at) && Walk(at, Normalized(p)) != Walk(at, p)
  {
    var here: Path := [Normal("here")];
    assert IsPlain(here) && Depth(here) == 1;
    WalkBelow(here, [], p);
    assert here + [] == here && here[..0] == [];
    NormalizedIsPlain(p);
    WalkPlain(here, Normalized(p));
    assert Walk(here, p) == Normalized(p);
  }

  /** normalize_path: a stack of names, pushed and popped. */
  method NormalizePath(path: Path) returns (normalized: Path)
    ensures normalized == Normalized(path)
  {
    normalized := [];
    var i := 0;
    while i < |path|
      invariant 0 <= i <= |path|
      invariant Walk(normalized, path[i..]) == Normalized(path)
    {
      match path[i] {
        case CurDir =>
        case ParentDir =>
          normalized := Up(normalized);
        case RootDir =>
          normalized := [RootDir];
        case Normal(_) =>
          normalized := normalized + [path[i]];
      }
      i := i + 1;
    }
  }

  /** resolve_hook_path; None is the refusal of a path that escapes the project root. */
  method ResolveHookPath(projectRoot: Path, configured: Path) returns (resolved: Option<Path>)
    ensures IsAbsolute(configured) ==> resolved == Some(configured)
    ensures !IsAbsolute(configured) && !IsAbsolute(projectRoot) ==>
      var dotted := projectRoot != [] && configured != [] && configured[0] == CurDir;
      resolved == Some(projectRoot + if dotted then configured[1..] else configured)
    ensures !IsAbsolute(configured) && IsAbsolute(projectRoot) ==>
      var root, end := Walk([], projectRoot), Walk(Walk([], projectRoot), configured);
      resolved == Within(projectRoot, configured) == if root <= end then Some(end) else None
  {
    var joined := Join(projectRoot, configured);
    if !IsAbsolute(joined) {
      return Some(joined);
    }
    if !IsAbsolute(configured) {
      var normalizedRoot := NormalizePath(projectRoot);
      var normalizedResolved := NormalizePath(joined);
      JoinedWalk(projectRoot, configured);
      if !(normalizedRoot <= normalizedResolved) {
        return None;
      }
      return Some(normalizedResolved);
    }
    return Some(joined);
  }

  /** Where the configured path leads from the root, when that is at or below the root. */
  function Within(projectRoot: Path, configured: Path): Option<Path> {
    var end := Walk(Normalized(projectRoot), configured);
    if Normalized(projectRoot) <= end then Some(end) else None
  }

  /** Normalising a joined path is walking from the normalised root. */
  lemma JoinedWalk(root: Path, configured: Path)
    ensures Normalized(Join(root, configured)) == Walk(Normalized(root), configured)
  {
    if IsAbsolute(configured) {
      assert Walk(Normalized(root), configured) == Walk([RootDir], configured[1..]);
    } else if root != [] && configured != [] && configured[0].CurDir? {
      WalkConcat([], root, configured[1..]);
    } else {
      WalkConcat([], root, configured);
    }
  }

  /**
   * An accepted path is the normalised root followed by names only. It is accepted exactly when the
   * names it takes after climbing c levels begin with the root's own last c names, which is always so
   * when it does not climb.
   */
  lemma AcceptedIsInside(projectRoot: Path, configured: Path)
    requires IsAbsolute(projectRoot) && !IsAbsolute(configured)
    ensures var root, climbed := Normalized(projectRoot), Min(Climb(0, configured), Depth(Normalized(projectRoot)));
      && (Within(projectRoot, configured).Some? <==> root[|root| - climbed..] <= Normalized(configured))
      && (Within(projectRoot, configured).Some? ==>
        var end := Within(projectRoot, configured).value;
        IsAbsolute(end) && IsPlain(end) && end[..|root|] == root && Normalized(end) == end)
      && (Climb(0, configured) == 0 ==> Within(projectRoot, configured) == Some(root + Normalized(configured)))
  {
    var root := Normalized(projectRoot);
    NormalizedIsPlain(projectRoot);
    WalkIsPlain(root, configured);
    WalkBelow(root, [], configured);
    assert root + [] == root;
    var climbed := Min(Climb(0, configured), Depth(root));
    var end, tail := Walk(root, configured), Normalized(configured);
    PlainIsNormal(end);
    assert end == root[..|root| - climbed] + tail;
    assert root == root[..|root| - climbed] + root[|root| - climbed..];
    PrefixCancels(root[..|root| - climbed], root[|root| - climbed..], tail);
    assert climbed == 0 ==> root[..|root|] == root;
  }

  lemma PrefixCancels(a: seq<Component>, x: seq<Component>, y: seq<Component>)
    ensures a + x <= a + y <==> x <= y
  {
    if a + x <= a + y {
      forall i | 0 <= i < |x|
        ensures x[i] == y[i]
      {
        assert (a + x)[|a| + i] == (a + y)[|a| + i];
      }
    }
  }
}
