/**
 * The scope check of the IaC gate: every Terraform directory must be reachable, by module
 * references, from a directory that the scanner reported.
 *
 * `refs` is the source tree: the directories under infra/terraform, each with the module
 * directories its files name. A name outside `refs` is a reference that escapes the tree.
 */
module TerraformScope {
  import opened Wrappers
  import opened Text
  import opened Gates

  type Dir = string

  const REQUIRED_ROOTS: seq<Dir> := ["account", "environments/production", "environments/staging"]

  // Paths, as pathlib reads them.

  /** The parts between the slashes; empty ones and dots say nothing. */
  function PartsIn(pieces: seq<string>): seq<string> {
    if pieces == [] then []
    else (if pieces[0] == "" || pieces[0] == "." then [] else [pieces[0]]) + PartsIn(pieces[1..])
  }

  function PathParts(path: string): seq<string> {
    PartsIn(Split(path, '/'))
  }

  function Root(path: string): string {
    if StartsWith(path, "//") && !StartsWith(path, "///") then "//" else if StartsWith(path, "/") then "/" else ""
  }

  function PathText(root: string, parts: seq<string>): string {
    if root == "" && parts == [] then "." else root + Join(parts, '/')
  }

  /** `Path(path).as_posix()`: the directory that a spelling names. */
  function Normal(path: string): Dir {
    PathText(Root(path), PathParts(path))
  }

  /** `Path(path).parent.as_posix()`. */
  function Parent(path: string): Dir {
    var parts := PathParts(path);
    PathText(Root(path), if parts == [] then [] else parts[..|parts| - 1])
  }

  predicate Part(piece: string) {
    piece != "" && piece != "." && '/' !in piece
  }

  lemma {:induction false} PartsAreParts(pieces: seq<string>)
    requires forall i :: 0 <= i < |pieces| ==> '/' !in pieces[i]
    ensures forall i :: 0 <= i < |PartsIn(pieces)| ==> Part(PartsIn(pieces)[i])
  {
    if pieces != [] {
      PartsAreParts(pieces[1..]);
    }
  }

  lemma {:induction false} PartsStay(parts: seq<string>)
    requires forall i :: 0 <= i < |parts| ==> Part(parts[i])
    ensures PartsIn(parts) == parts
  {
    if parts != [] {
      assert Part(parts[0]);
      PartsStay(parts[1..]);
      assert [parts[0]] + parts[1..] == parts;
    }
  }

  lemma JoinHead(parts: seq<string>)
    requires parts != [] && parts[0] != ""
    ensures Join(parts, '/') != "" && Join(parts, '/')[0] == parts[0][0]
  {
  }

  lemma RelativeRoot(path: string)
    requires path != "" && path[0] != '/'
    ensures Root(path) == ""
  {
    assert "/"[0] == '/' && "//"[0] == '/';
  }

  lemma JoinedParts(parts: seq<string>)
    requires parts != [] && forall i :: 0 <= i < |parts| ==> Part(parts[i])
    ensures Root(Join(parts, '/')) == "" && PathParts(Join(parts, '/')) == parts
  {
    hide Join, Split, Root, PartsIn;
    forall i | 0 <= i < |parts|
      ensures '/' !in parts[i] && parts[i] != ""
    {
      assert Part(parts[i]);
    }
    hide Part;
    SplitJoin(parts, '/');
    PartsStay(parts);
    JoinHead(parts);
    RelativeRoot(Join(parts, '/'));
  }

  /** The normal form of a relative path is one, and says where the path lies. */
  lemma NormalIsNormal(path: string)
    requires Root(path) == ""
    ensures Normal(Normal(path)) == Normal(path)
    ensures PathParts(Normal(path)) == PathParts(path)
  {
    var parts := PathParts(path);
    PartsAreParts(Split(path, '/'));
    if parts == [] {
      SplitHead(".", "", '/');
      assert PartsIn(["."]) == [];
    } else {
      JoinedParts(parts);
      assert "" + Join(parts, '/') == Join(parts, '/');
    }
  }

  // Reachability.

  /** The module directories that a directory's files name. */
  function Named(refs: map<Dir, set<Dir>>, d: Dir): set<Dir> {
    if Normal(d) in refs then refs[Normal(d)] else {}
  }

  /** One directory after another, each named by the one before it. */
  ghost predicate Path(refs: map<Dir, set<Dir>>, p: seq<Dir>) {
    p != [] && forall i :: 0 <= i < |p| - 1 ==> p[i + 1] in Named(refs, p[i])
  }

  ghost predicate Reachable(refs: map<Dir, set<Dir>>, seeds: set<Dir>, d: Dir) {
    exists p :: Path(refs, p) && p[0] in seeds && p[|p| - 1] == d
  }

  /** The set holds whatever its members name. */
  ghost predicate Closed(refs: map<Dir, set<Dir>>, s: set<Dir>) {
    forall d :: d in s ==> Named(refs, d) <= s
  }

  /** The spelling names the root of the tree itself, or its directory names something outside the tree. */
  predicate Fails(refs: map<Dir, set<Dir>>, d: Dir) {
    Normal(d) == "." || !(Named(refs, d) <= refs.Keys)
  }

  /** `_module_dirs_from`: a missing directory names nothing, the root of the tree is no answer. */
  function ModuleDirsFrom(refs: map<Dir, set<Dir>>, d: Dir): Result<set<Dir>, GateError> {
    if Fails(refs, d) then Err(GateError) else Ok(Named(refs, d))
  }

  lemma RootIsDot(d: Dir)
    ensures Normal(d) == "." <==> Root(d) == "" && PathParts(d) == []
  {
    PartsAreParts(Split(d, '/'));
    var parts := PathParts(d);
    if Root(d) == "" && parts != [] {
      JoinedParts(parts);
      assert "" + Join(parts, '/') == Join(parts, '/');
      assert Normal(d) == Join(parts, '/');
      SplitHead(".", "", '/');
      assert PartsIn(["."]) == [];
    } else if Root(d) != "" {
      assert Normal(d)[0] == '/';
    }
  }

  /**
   * The files of a directory are read exactly when the spelling is not one of the root of the
   * tree and all modules that they name are in the tree; every spelling of a directory gives the
   * same answer, and a directory that does not exist names nothing.
   */
  lemma ModulesExactlyWhen(refs: map<Dir, set<Dir>>, d: Dir, d': Dir)
    ensures ModuleDirsFrom(refs, d).Ok? <==>
            && !(Root(d) == "" && PathParts(d) == [])
            && (Normal(d) in refs ==> refs[Normal(d)] <= refs.Keys)
    ensures ModuleDirsFrom(refs, d).Ok? ==>
              ModuleDirsFrom(refs, d).value == if Normal(d) in refs then refs[Normal(d)] else {}
    ensures Root(d) == Root(d') && PathParts(d) == PathParts(d') ==>
              ModuleDirsFrom(refs, d) == ModuleDirsFrom(refs, d')
  {
    hide PathParts, Root, PathText;
    RootIsDot(d);
    RootIsDot(d');
    SameText(d, d');
  }

  lemma SameText(d: Dir, d': Dir)
    ensures Root(d) == Root(d') && PathParts(d) == PathParts(d') ==> Normal(d) == Normal(d')
  {
    hide PathParts, Root;
  }

  lemma SeedReachable(refs: map<Dir, set<Dir>>, seeds: set<Dir>, d: Dir)
    requires d in seeds
    ensures Reachable(refs, seeds, d)
  {
    assert Path(refs, [d]);
  }

  lemma StepReachable(refs: map<Dir, set<Dir>>, seeds: set<Dir>, d: Dir, m: Dir)
    requires Reachable(refs, seeds, d) && m in Named(refs, d)
    ensures Reachable(refs, seeds, m)
  {
    hide Named;
    var p :| Path(refs, p) && p[0] in seeds && p[|p| - 1] == d;
    assert Path(refs, p + [m]);
    assert (p + [m])[|p + [m]| - 1] == m;
  }

  /** A closed set that holds the start of a path holds its end. */
  lemma {:induction false} ClosedHoldsPaths(refs: map<Dir, set<Dir>>, s: set<Dir>, p: seq<Dir>)
    requires Closed(refs, s) && Path(refs, p) && p[0] in s
    ensures p[|p| - 1] in s
    decreases |p|
  {
    if |p| > 1 {
      hide Named;
      assert p[0 + 1] in Named(refs, p[0]);
      ClosedHoldsPaths(refs, s, p[1..]);
    }
  }

  /** What is reachable lies in every closed set around the seeds. */
  lemma ReachableIsLeast(refs: map<Dir, set<Dir>>, seeds: set<Dir>, s: set<Dir>, d: Dir)
    requires Closed(refs, s) && seeds <= s && Reachable(refs, seeds, d)
    ensures d in s
  {
    var p :| Path(refs, p) && p[0] in seeds && p[|p| - 1] == d;
    ClosedHoldsPaths(refs, s, p);
  }

  /** The inner loop: what the popped directory names joins `reachable`, and `pending` if it is new. */
  method AddNew(reachable: set<Dir>, pending: set<Dir>, modules: set<Dir>)
    returns (reachable': set<Dir>, pending': set<Dir>)
    ensures reachable' == reachable + modules
    ensures pending' == pending + (modules - reachable)
  {
    reachable', pending' := reachable, pending;
    var todo := modules;
    while todo != {}
      invariant todo <= modules
      invariant reachable' == reachable + (modules - todo)
      invariant pending' == pending + (modules - todo - reachable)
      decreases todo
    {
      var m :| m in todo;
      todo := todo - {m};
      if m !in reachable' {
        reachable' := reachable' + {m};
        pending' := pending' + {m};
      }
    }
  }

  /** What the worklist loop keeps: all that was found is reachable, all that was popped is done. */
  ghost predicate Worklist(refs: map<Dir, set<Dir>>, seeds: set<Dir>, reachable: set<Dir>, pending: set<Dir>) {
    && seeds <= reachable <= seeds + refs.Keys
    && pending <= reachable
    && (forall d :: d in reachable ==> Reachable(refs, seeds, d))
    && (forall d :: d in reachable - pending ==> Named(refs, d) <= reachable && !Fails(refs, d))
  }

  lemma WorklistStarts(refs: map<Dir, set<Dir>>, seeds: set<Dir>)
    ensures Worklist(refs, seeds, seeds, seeds)
  {
    forall d | d in seeds
      ensures Reachable(refs, seeds, d)
    {
      SeedReachable(refs, seeds, d);
    }
  }

  lemma WorklistStep(refs: map<Dir, set<Dir>>, seeds: set<Dir>, reachable: set<Dir>, pending: set<Dir>, current: Dir)
    requires Worklist(refs, seeds, reachable, pending) && current in pending
    requires ModuleDirsFrom(refs, current).Ok?
    ensures var modules := ModuleDirsFrom(refs, current).value;
            && modules <= refs.Keys
            && Worklist(refs, seeds, reachable + modules, (pending - {current}) + (modules - reachable))
  {
    hide Normal;
    var modules := ModuleDirsFrom(refs, current).value;
    forall d | d in modules
      ensures Reachable(refs, seeds, d)
    {
      StepReachable(refs, seeds, current, d);
    }
  }

  /** An emptied worklist has found the least closed set, and no reachable directory fails. */
  lemma WorklistEnds(refs: map<Dir, set<Dir>>, seeds: set<Dir>, reachable: set<Dir>)
    requires Worklist(refs, seeds, reachable, {})
    ensures Closed(refs, reachable)
    ensures forall d :: d in reachable <==> Reachable(refs, seeds, d)
    ensures forall s :: seeds <= s && Closed(refs, s) ==> reachable <= s
    ensures !exists d :: Reachable(refs, seeds, d) && Fails(refs, d)
  {
    assert reachable - {} == reachable;
    forall d | Reachable(refs, seeds, d)
      ensures d in reachable
    {
      ReachableIsLeast(refs, seeds, reachable, d);
    }
    forall s, d | seeds <= s && Closed(refs, s) && d in reachable
      ensures d in s
    {
      ReachableIsLeast(refs, seeds, s, d);
    }
  }

  /**
   * `referenced_directories`. Whatever order `pop` takes: the call raises exactly when a
   * reachable directory is the root of the tree or names something outside the tree, and
   * otherwise returns the least closed set around the seeds, which is the set of reachable
   * directories.
   */
  method ReferencedDirectories(refs: map<Dir, set<Dir>>, seeds: set<Dir>) returns (r: Result<set<Dir>, GateError>)
    ensures r.Err? <==> exists d :: Reachable(refs, seeds, d) && Fails(refs, d)
    ensures r.Ok? ==> seeds <= r.value && Closed(refs, r.value)
    ensures r.Ok? ==> forall s :: seeds <= s && Closed(refs, s) ==> r.value <= s
    ensures r.Ok? ==> forall d :: d in r.value <==> Reachable(refs, seeds, d)
  {
    var reachable, pending := seeds, seeds;
    WorklistStarts(refs, seeds);
    while pending != {}
      invariant Worklist(refs, seeds, reachable, pending)
      decreases seeds + refs.Keys - reachable, pending
    {
      var current :| current in pending;
      var modules := ModuleDirsFrom(refs, current);
      if modules.Err? {
        return Err(GateError);
      }
      WorklistStep(refs, seeds, reachable, pending, current);
      ghost var before := reachable;
      reachable, pending := AddNew(reachable, pending - {current}, modules.value);
      if modules.value <= before {
        assert reachable == before;
      } else {
        var m :| m in modules.value && m !in before;
        assert m in seeds + refs.Keys - before && m !in seeds + refs.Keys - reachable;
      }
    }
    WorklistEnds(refs, seeds, reachable);
    r := Ok(reachable);
  }

  // The scope check.

  /** The directory that a reported target stands for, if any. */
  function DirectoryOf(target: string): Option<Dir> {
    if EndsWith(target, ".tf") then (if Parent(target) == "." then None else Some(Parent(target))) else Some(target)
  }

  /** The directories that the targets stand for. */
  function DirectoriesOf(targets: set<string>): set<Dir> {
    set t | t in targets && DirectoryOf(t).Some? :: DirectoryOf(t).value
  }

  lemma {:induction false} JoinEnds(parts: seq<string>, name: string)
    ensures EndsWith(Join(parts + [name], '/'), name)
    ensures |Join(parts + [name], '/')| >= |name|
  {
    if parts == [] {
      assert [] + [name] == [name];
    } else {
      JoinEnds(parts[1..], name);
      assert (parts + [name])[1..] == parts[1..] + [name];
      var rest := Join(parts[1..] + [name], '/');
      var whole := parts[0] + ['/'] + rest;
      assert whole[|whole| - |name|..] == rest[|rest| - |name|..];
    }
  }

  lemma EndsFurther(s: string, middle: string, end: string)
    requires EndsWith(s, middle) && EndsWith(middle, end)
    ensures EndsWith(s, end)
  {
    assert s[|s| - |end|..] == s[|s| - |middle|..][|middle| - |end|..];
  }

  /**
   * A scanned Terraform file stands for the directory that it lies in, and for none when that
   * is the root of the tree; any other target stands for itself.
   */
  lemma TargetStandsFor(parts: seq<string>, name: string, other: string)
    requires Part(name) && EndsWith(name, ".tf") && forall i :: 0 <= i < |parts| ==> Part(parts[i])
    ensures DirectoryOf(Join(parts + [name], '/')) == if parts == [] then None else Some(Join(parts, '/'))
    ensures !EndsWith(other, ".tf") ==> DirectoryOf(other) == Some(other)
  {
    hide Join, Part, EndsWith, PathParts, Root;
    var target := Join(parts + [name], '/');
    JoinEnds(parts, name);
    EndsFurther(target, name, ".tf");
    JoinedParts(parts + [name]);
    assert (parts + [name])[..|parts|] == parts;
    if parts != [] {
      JoinedParts(parts);
      PartsMakeText(parts);
      assert "" + Join(parts, '/') == Join(parts, '/');
    }
  }

  /** Joined parts are not the dot. */
  lemma PartsMakeText(parts: seq<string>)
    requires parts != [] && PathParts(Join(parts, '/')) == parts
    ensures Join(parts, '/') != "."
  {
    SplitHead(".", "", '/');
    assert PartsIn(["."]) == [];
  }

  /** `_result_directories`. */
  method ResultDirectories(targets: set<string>) returns (found: set<Dir>)
    ensures found == DirectoriesOf(targets)
  {
    hide EndsWith, Parent;
    found := {};
    var todo := targets;
    while todo != {}
      invariant todo <= targets
      invariant found == DirectoriesOf(targets - todo)
      decreases todo
    {
      var target :| target in todo;
      assert targets - (todo - {target}) == (targets - todo) + {target};
      todo := todo - {target};
      if EndsWith(target, ".tf") {
        var parent := Parent(target);
        if parent != "." {
          found := found + {parent};
        }
      } else {
        found := found + {target};
      }
    }
    assert targets - {} == targets;
  }

  /** The spelling of a target is one the gate accepts. */
  predicate CleanTarget(target: string) {
    && !StartsWith(target, "/") && ".." !in Split(target, '/') && !StartsWith(target, ".")
    && ".terraform" !in Split(target, '/') && !EndsWith(target, ".tfstate")
  }

  lemma {:induction false} PartsKeep(pieces: seq<string>, piece: string)
    requires piece != "" && piece != "."
    ensures piece in PartsIn(pieces) <==> piece in pieces
  {
    if pieces != [] {
      PartsKeep(pieces[1..], piece);
      assert pieces == [pieces[0]] + pieces[1..];
    }
  }

  /** A clean target lies inside the tree: no root, no way up, no hidden start, no provider cache, no state file. */
  lemma CleanExactlyWhen(target: string)
    ensures CleanTarget(target) <==>
            && Root(target) == "" && ".." !in PathParts(target) && ".terraform" !in PathParts(target)
            && !(target != "" && target[0] == '.') && !EndsWith(target, ".tfstate")
  {
    hide Split, EndsWith;
    PartsKeep(Split(target, '/'), "..");
    PartsKeep(Split(target, '/'), ".terraform");
    assert target != "" ==> target[..1] == [target[0]];
    assert |target| > 1 ==> target[..2][0] == target[0];
  }

  /** What `assert_scope` promises when it returns. */
  ghost predicate InScope(targets: set<string>, refs: map<Dir, set<Dir>>, sources: set<Dir>) {
    var found := DirectoriesOf(targets);
    && (forall name :: name in REQUIRED_ROOTS ==> name in targets)
    && (forall t :: t in targets ==> CleanTarget(t))
    && sources != {}
    && (forall d :: d in sources ==> Reachable(refs, found, d))
    && !(exists d :: Reachable(refs, found, d) && Fails(refs, d))
  }

  /** The loop over the reported targets. */
  method AllClean(targets: set<string>) returns (clean: bool)
    ensures clean <==> forall t :: t in targets ==> CleanTarget(t)
  {
    var todo := targets;
    while todo != {}
      invariant todo <= targets
      invariant forall t :: t in targets - todo ==> CleanTarget(t)
      decreases todo
    {
      var target :| target in todo;
      todo := todo - {target};
      if !CleanTarget(target) {
        return false;
      }
    }
    return true;
  }

  /**
   * `assert_scope` returns exactly when the required roots were scanned, every target is
   * clean, no reachable directory fails, and every directory with Terraform source is
   * reachable from a directory that some target stands for.
   */
  method AssertScope(targets: set<string>, refs: map<Dir, set<Dir>>, sources: set<Dir>)
    returns (r: Result<(), GateError>)
    ensures r.Ok? <==> InScope(targets, refs, sources)
  {
    hide CleanTarget, Reachable, Fails, Closed, DirectoriesOf;
    if !(forall name | name in REQUIRED_ROOTS :: name in targets) {
      return Err(GateError);
    }
    var clean := AllClean(targets);
    if !clean {
      return Err(GateError);
    }
    var found := ResultDirectories(targets);
    var reachable := ReferencedDirectories(refs, found);
    if reachable.Err? {
      return Err(GateError);
    }
    var missing := sources - reachable.value;
    if sources == {} || missing != {} {
      assert missing != {} ==> exists d :: d in sources && d !in reachable.value;
      return Err(GateError);
    }
    assert forall d :: d in sources ==> d in reachable.value || d in missing;
    return Ok(());
  }
}
