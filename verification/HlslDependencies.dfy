// The files that a shader depends on through its includes. Paths are normalized; what a file includes and
// which files exist is an arbitrary finite graph.
module HlslDependencies {

  type Path = nat

  datatype Dependency = Dependency(path: Path, present: bool)

  // `headers` are the C++ headers and `bare` the paths without an extension.
  datatype Files = Files(includes: map<Path, seq<Path>>, existing: set<Path>, headers: set<Path>, bare: set<Path>) {
    function Includes(f: Path): seq<Path> {
      if f in includes then includes[f] else []
    }

    predicate ShouldTrack(p: Path) {
      p !in headers && (p in existing || p !in bare)
    }

    // The include is a dependency of the file.
    predicate Tracks(f: Path, p: Path) {
      p in Includes(f) && p !in headers && (p in existing || p !in bare)
    }

    // The include is followed further.
    predicate Follows(f: Path, p: Path) {
      Tracks(f, p) && p in existing
    }

    function Describe(p: Path): Dependency {
      Dependency(p, p in existing)
    }
  }

  // A way from one file to another through includes that are followed.
  ghost predicate Chain(g: Files, c: seq<Path>, from: Path, to: Path) {
    && c != [] && c[0] == from && c[|c| - 1] == to
    && forall i :: 0 <= i < |c| - 1 ==> g.Follows(c[i], c[i + 1])
  }

  ghost predicate Reachable(g: Files, root: Path, f: Path) {
    exists c: seq<Path> :: Chain(g, c, root, f)
  }

  // A dependency of some reachable file.
  ghost predicate Needed(g: Files, root: Path, p: Path) {
    exists f: Path :: Reachable(g, root, f) && g.Tracks(f, p)
  }

  lemma RootReachable(g: Files, root: Path)
    ensures Reachable(g, root, root)
  {
    assert Chain(g, [root], root, root);
  }

  lemma FollowReachable(g: Files, root: Path, f: Path, p: Path)
    requires Reachable(g, root, f) && g.Follows(f, p)
    ensures Reachable(g, root, p)
  {
    var c: seq<Path> :| Chain(g, c, root, f);
    assert Chain(g, c + [p], root, p);
  }

  ghost predicate Closed(g: Files, visited: set<Path>) {
    forall f <- visited, p: Path :: g.Follows(f, p) ==> p in visited
  }

  // A closed set with the root has every reachable file.
  lemma {:induction false} ClosedHasReachable(g: Files, root: Path, visited: set<Path>, c: seq<Path>, f: Path)
    requires root in visited && Closed(g, visited) && Chain(g, c, root, f)
    ensures f in visited
    decreases |c|
  {
    if |c| > 1 {
      var front := c[..|c| - 1];
      assert Chain(g, front, root, front[|front| - 1]);
      ClosedHasReachable(g, root, visited, front, front[|front| - 1]);
      assert g.Follows(c[|c| - 2], c[|c| - 1]);
    }
  }

  // What the worklist holds: found files are reachable, includes of visited files are visited or pending,
  // and the dependencies are those of the visited files.
  ghost predicate Progress(g: Files, root: Path, visited: set<Path>, pending: seq<Path>, paths: set<Path>) {
    && (forall f <- visited :: Reachable(g, root, f))
    && (forall f <- pending :: Reachable(g, root, f))
    && (forall f <- visited, p: Path :: g.Follows(f, p) ==> p in visited || p in pending)
    && (forall p: Path :: p in paths <==> exists f :: f in visited && g.Tracks(f, p))
    && (root in visited || root in pending)
  }

  function PathsOf(ds: seq<Dependency>): set<Path> {
    set d <- ds :: d.path
  }

  // All dependencies found, with repetitions, in the order of discovery.
  method CollectIncludedDependencies(g: Files, root: Path, ghost nodes: set<Path>)
    returns (dependencies: seq<Dependency>)
    requires root in nodes && forall f <- nodes, p <- g.Includes(f) :: p in nodes
    ensures forall p: Path :: p in PathsOf(dependencies) <==> Needed(g, root, p)
    ensures forall d <- dependencies :: d == g.Describe(d.path)
  {
    hide Reachable, Progress, PathsOf;
    dependencies := [];
    var visited: set<Path> := {};
    var pending := [root];
    StartProgress(g, root);
    while pending != []
      invariant Progress(g, root, visited, pending, PathsOf(dependencies))
      invariant visited <= nodes && forall f <- pending :: f in nodes
      invariant forall d <- dependencies :: d == g.Describe(d.path)
      decreases |nodes - visited|, |pending|
    {
      var f := pending[|pending| - 1];
      ghost var before, paths := pending, PathsOf(dependencies);
      pending := pending[..|pending| - 1];
      if f in visited {
        SkipVisited(g, root, visited, before, paths);
      } else {
        dependencies, pending := AddIncludes(g, nodes, f, dependencies, pending);
        VisitNext(g, root, visited, before, paths, pending, PathsOf(dependencies));
        assert f in nodes - visited && f !in nodes - (visited + {f});
        visited := visited + {f};
      }
    }
    DoneIsNeeded(g, root, visited, PathsOf(dependencies));
  }

  // The includes of one file.
  method AddIncludes(g: Files, ghost nodes: set<Path>, f: Path, ds: seq<Dependency>, stack: seq<Path>)
    returns (dependencies: seq<Dependency>, pending: seq<Path>)
    requires forall p <- g.Includes(f) :: p in nodes
    requires forall p <- stack :: p in nodes
    requires forall d <- ds :: d == g.Describe(d.path)
    ensures forall p: Path :: p in PathsOf(dependencies) <==> p in PathsOf(ds) || g.Tracks(f, p)
    ensures forall p: Path :: p in pending <==> p in stack || g.Follows(f, p)
    ensures forall p <- pending :: p in nodes
    ensures forall d <- dependencies :: d == g.Describe(d.path)
  {
    dependencies, pending := ds, stack;
    var includes := g.Includes(f);
    var i := 0;
    while i < |includes|
      invariant i <= |includes|
      invariant forall p: Path :: p in PathsOf(dependencies) <==>
                p in PathsOf(ds) || (p in includes[..i] && g.ShouldTrack(p))
      invariant forall p: Path :: p in pending <==>
                p in stack || (p in includes[..i] && g.ShouldTrack(p) && p in g.existing)
      invariant forall d <- dependencies :: d == g.Describe(d.path)
    {
      var p := includes[i];
      assert includes[..i + 1] == includes[..i] + [p];
      if g.ShouldTrack(p) {
        dependencies := dependencies + [Dependency(p, p in g.existing)];
        if p in g.existing { pending := pending + [p]; }
      }
      i := i + 1;
    }
    assert includes[..i] == includes;
  }

  lemma StartProgress(g: Files, root: Path)
    ensures Progress(g, root, {}, [root], PathsOf([]))
  {
    RootReachable(g, root);
    hide Reachable;
  }

  lemma SkipVisited(g: Files, root: Path, visited: set<Path>, pending: seq<Path>, paths: set<Path>)
    requires pending != [] && pending[|pending| - 1] in visited && Progress(g, root, visited, pending, paths)
    ensures Progress(g, root, visited, pending[..|pending| - 1], paths)
  {
    hide Reachable;
    assert pending == pending[..|pending| - 1] + [pending[|pending| - 1]];
  }

  lemma VisitNext(g: Files, root: Path, visited: set<Path>, pending: seq<Path>, paths: set<Path>, pending': seq<Path>,
                  paths': set<Path>)
    requires pending != [] && Progress(g, root, visited, pending, paths)
    requires var f := pending[|pending| - 1];
             && (forall p: Path :: p in paths' <==> p in paths || g.Tracks(f, p))
             && (forall p: Path :: p in pending' <==> p in pending[..|pending| - 1] || g.Follows(f, p))
    ensures Progress(g, root, visited + {pending[|pending| - 1]}, pending', paths')
  {
    var f := pending[|pending| - 1];
    assert pending == pending[..|pending| - 1] + [f];
    forall p: Path | g.Follows(f, p) ensures Reachable(g, root, p) {
      FollowReachable(g, root, f, p);
    }
    hide Reachable;
  }

  lemma DoneIsNeeded(g: Files, root: Path, visited: set<Path>, paths: set<Path>)
    requires Progress(g, root, visited, [], paths)
    ensures forall p: Path :: p in paths <==> Needed(g, root, p)
  {
    forall p: Path | Needed(g, root, p) ensures p in paths {
      var f: Path :| Reachable(g, root, f) && g.Tracks(f, p);
      var c: seq<Path> :| Chain(g, c, root, f);
      ClosedHasReachable(g, root, visited, c, f);
    }
  }

  ghost predicate Distinct(ds: seq<Dependency>) {
    forall i, j :: 0 <= i < j < |ds| ==> ds[i].path != ds[j].path
  }

  // The root first, then every file that it needs, each once.
  method CollectDependencies(g: Files, root: Path, ghost nodes: set<Path>) returns (unique: seq<Dependency>)
    requires root in nodes && forall f <- nodes, p <- g.Includes(f) :: p in nodes
    ensures unique != [] && unique[0] == g.Describe(root) && Distinct(unique)
    ensures forall p: Path :: p in PathsOf(unique) <==> p == root || Needed(g, root, p)
    ensures forall d <- unique :: d == g.Describe(d.path)
  {
    hide Needed;
    var included := CollectIncludedDependencies(g, root, nodes);
    var dependencies := [Dependency(root, root in g.existing)] + included;
    unique := [];
    var seen: set<Path> := {};
    var i := 0;
    while i < |dependencies|
      invariant i <= |dependencies| && Distinct(unique) && seen == PathsOf(unique) == PathsOf(dependencies[..i])
      invariant if i == 0 then unique == [] else unique != [] && unique[0] == dependencies[0]
      invariant forall d <- unique :: d in dependencies
    {
      var d := dependencies[i];
      PathsLast(dependencies[..i], d);
      PathsLast(unique, d);
      assert dependencies[..i + 1] == dependencies[..i] + [d];
      if d.path !in seen {
        NewIsDistinct(unique, d);
        seen := seen + {d.path};
        unique := unique + [d];
      }
      i := i + 1;
    }
    assert dependencies[..i] == dependencies;
    PathsFirst(dependencies[0], included);
  }

  lemma PathsLast(ds: seq<Dependency>, d: Dependency)
    ensures PathsOf(ds + [d]) == PathsOf(ds) + {d.path}
  {
    assert forall e :: e in ds + [d] <==> e in ds || e == d;
  }

  lemma PathsFirst(d: Dependency, ds: seq<Dependency>)
    ensures PathsOf([d] + ds) == {d.path} + PathsOf(ds)
  {
    assert forall e :: e in [d] + ds <==> e in ds || e == d;
  }

  lemma NewIsDistinct(ds: seq<Dependency>, d: Dependency)
    requires Distinct(ds) && d.path !in PathsOf(ds)
    ensures Distinct(ds + [d])
  {
    assert forall i :: 0 <= i < |ds| ==> ds[i] in ds;
  }
}
