/** The workspace initialiser (internal/cli/dev/devinit.go): a dry run predicts a real run
    exactly. The file system is a tree of directories and files without links and without
    permissions; a path is the list of its components. */
module DevInit {

  type Path = seq<string>

  datatype Node = Dir | File(data: string)

  type Tree = map<Path, Node>

  // ---- What the operating system does -------------------------------------------------

  /** What os.Stat finds; NotDir is the error for a path through a file. */
  datatype Found = Present(node: Node) | Missing | NotDir

  predicate Above(p: Path, q: Path) {
    |p| <= |q| && q[..|p|] == p
  }

  /** Everything lies in directories. */
  ghost predicate WellFormed(t: Tree) {
    forall p, q :: p in t && Above(q, p) && q != p ==> q in t && t[q].Dir?
  }

  /** Some component on the way to p is a file. */
  predicate ThroughFile(t: Tree, p: Path) {
    exists q :: q in t && Above(q, p) && q != p && t[q].File?
  }

  function Stat(t: Tree, p: Path): Found {
    if p in t then Present(t[p])
    else if ThroughFile(t, p) then NotDir
    else Missing
  }

  /** os.MkdirAll where nothing is in the way: p and every missing directory above it. */
  function WithDirs(t: Tree, p: Path): Tree {
    map q | q in t.Keys + Prefixes(p) :: if q in t then t[q] else Dir
  }

  function Prefixes(p: Path): (r: set<Path>)
    ensures forall q :: q in r <==> Above(q, p)
  {
    var r := set n | 0 <= n <= |p| :: p[..n];
    assert forall q :: Above(q, p) ==> p[..|q|] in r;
    r
  }

  // ---- The workspace ------------------------------------------------------------------

  /** The directories below the workspace, parents first. */
  function DirNames(): seq<Path> {
    [["config"], ["config", "rbac"], ["data"], ["pki"], ["pki", "root"], ["pki", "intermediate"], ["certs"],
     ["logs"], ["tmp"]]
  }

  function FileNames(): seq<Path> {
    [["config", "config.yaml"], ["config", "rbac", "local-rbac.yaml"], [".gitignore"], ["README.txt"]]
  }

  function Dirs(ws: Path): seq<Path> {
    seq(9, i requires 0 <= i < 9 => ws + DirNames()[i])
  }

  datatype Generated = Generated(path: Path, data: string)

  /** The generated files with the texts they are given. */
  function Files(ws: Path, texts: seq<string>): seq<Generated>
    requires |texts| == 4
  {
    seq(4, i requires 0 <= i < 4 => Generated(ws + FileNames()[i], texts[i]))
  }

  datatype Report = Report(created: seq<Path>, existing: seq<Path>, written: seq<Path>, skipped: seq<Path>)

  const NOTHING := Report([], [], [], [])

  /** No path is followed by one above it or by itself. */
  ghost predicate ParentsFirst(dirs: seq<Path>) {
    forall i, j :: 0 <= i < j < |dirs| ==> !Above(dirs[j], dirs[i])
  }

  /** No file is, or lies below, another, none is above a directory to be made, and each
      lies in one of those directories or in one above them. */
  ghost predicate Separate(dirs: seq<Path>, files: seq<Generated>) {
    && (forall i, j :: 0 <= i < |files| && 0 <= j < |files| && i != j ==> !Above(files[i].path, files[j].path))
    && (forall i, j :: 0 <= i < |files| && 0 <= j < |dirs| ==> !Above(files[i].path, dirs[j]))
    && (forall i :: 0 <= i < |files| ==>
          files[i].path != [] && exists j :: 0 <= j < |dirs| && Above(Parent(files[i].path), dirs[j]))
  }

  function Parent(p: Path): Path
    requires p != []
  {
    p[..|p| - 1]
  }

  /** This path holds this text, unless something was there and the run was not forced. */
  ghost predicate Holds(before: Tree, after: Tree, p: Path, text: string, force: bool) {
    p in after && after[p] == if p in before && !force then before[p] else File(text)
  }

  /** The four named files and the nine named directories are there. */
  ghost predicate Generates(before: Tree, after: Tree, ws: Path, texts: seq<string>, force: bool)
    requires |texts| == 4
  {
    && HasFiles(before, after, ws, [["config", "config.yaml"], ["config", "rbac", "local-rbac.yaml"], [".gitignore"],
                                    ["README.txt"]], texts, force)
    && HasDirs(after, ws, [["config"], ["config", "rbac"], ["data"], ["pki"], ["pki", "root"], ["pki", "intermediate"],
                           ["certs"], ["logs"], ["tmp"]])
  }

  ghost predicate HasFiles(before: Tree, after: Tree, ws: Path, names: seq<Path>, texts: seq<string>, force: bool)
    requires |texts| == |names|
  {
    forall i :: 0 <= i < |names| ==> Holds(before, after, ws + names[i], texts[i], force)
  }

  ghost predicate HasDirs(t: Tree, ws: Path, names: seq<Path>) {
    forall i :: 0 <= i < |names| ==> ws + names[i] in t && t[ws + names[i]] == Dir
  }

  /** Nothing that was there has changed, but perhaps what is at these paths. */
  ghost predicate Keeps(before: Tree, after: Tree, changed: seq<Path>) {
    forall q :: q in before && q !in changed ==> q in after && after[q] == before[q]
  }

  // ---- The program --------------------------------------------------------------------

  class Initialiser {
    var tree: Tree
    var report: Report

    /** ensureDir, and the report line that RunDevInit makes of it. */
    method EnsureDir(p: Path, dryRun: bool) returns (ok: bool)
      modifies this
      ensures ok <==> DirFits(old(tree), p)
      ensures tree == if ok && p !in old(tree) && !dryRun then WithDirs(old(tree), p) else old(tree)
      ensures WellFormed(old(tree)) ==> WellFormed(tree)
      ensures Keeps(old(tree), tree, [])
      ensures report == if !ok then old(report)
                        else if p in old(tree) then old(report).(existing := old(report.existing) + [p])
                        else old(report).(created := old(report.created) + [p])
    {
      match Stat(tree, p) {
        case Present(node) =>
          if node.File? {
            return false;
          }
          report := report.(existing := report.existing + [p]);
        case NotDir =>
          return false;
        case Missing =>
          if !dryRun {
            DirsStayWellFormed(tree, p);
            tree := WithDirs(tree, p);
          }
          report := report.(created := report.created + [p]);
      }
      ok := true;
    }

    /** writeGeneratedFile. */
    method WriteGeneratedFile(f: Generated, force: bool, dryRun: bool) returns (ok: bool)
      requires f.path != [] && (dryRun || f.path in tree || (Parent(f.path) in tree && tree[Parent(f.path)].Dir?))
      modifies this
      ensures WellFormed(old(tree)) ==> WellFormed(tree)
      ensures Keeps(old(tree), tree, if force then [f.path] else [])
      ensures var writes := f.path !in old(tree) || force;
              && (ok <==> !writes || dryRun || !(f.path in old(tree) && old(tree)[f.path].Dir?))
              && tree == (if ok && writes && !dryRun then old(tree)[f.path := File(f.data)] else old(tree))
              && report == if !ok then old(report)
                           else if writes then old(report).(written := old(report.written) + [f.path])
                           else old(report).(skipped := old(report.skipped) + [f.path])
    {
      if f.path in tree && !force {
        report := report.(skipped := report.skipped + [f.path]);
        return true;
      }
      if !dryRun {
        if f.path in tree && tree[f.path].Dir? {
          return false;
        }
        FileStaysWellFormed(tree, f);
        tree := tree[f.path := File(f.data)];
      }
      report := report.(written := report.written + [f.path]);
      ok := true;
    }

    /** RunDevInit over given lists: what it reports, when it succeeds and what it leaves
        are functions of the tree at the start. */
    method Run(dirs: seq<Path>, files: seq<Generated>, force: bool, dryRun: bool) returns (ok: bool)
      requires WellFormed(tree) && ParentsFirst(dirs) && Separate(dirs, files)
      modifies this
      ensures ok <==> DirsFit(old(tree), dirs) && (dryRun || !force || FilesFit(old(tree), files))
      ensures ok ==> report == Predicted(old(tree), dirs, files, force)
      ensures dryRun ==> tree == old(tree)
      ensures ok && !dryRun ==> tree == WithFiles(WithAllDirs(old(tree), dirs), files, force)
      ensures Keeps(old(tree), tree, if force then Paths(files) else [])
      ensures WellFormed(tree)
    {
      ok := MakeDirs(dirs, dryRun);
      if ok {
        ok := WriteFiles(dirs, files, force, dryRun, old(tree));
      }
    }

    /** RunDevInit for a workspace and the four generated texts. A dry run changes nothing and
        reports what a real run from the same tree reports; a real run can fail where the dry
        run does not only if it is forced and a directory is where a file should go. */
    method RunDevInit(ws: Path, texts: seq<string>, force: bool, dryRun: bool) returns (ok: bool)
      requires WellFormed(tree) && |texts| == 4
      modifies this
      ensures ok <==> DirsFit(old(tree), Dirs(ws)) && (dryRun || !force || FilesFit(old(tree), Files(ws, texts)))
      ensures ok ==> report == Predicted(old(tree), Dirs(ws), Files(ws, texts), force)
      ensures dryRun ==> tree == old(tree)
      ensures ok && !dryRun ==> tree == WithFiles(WithAllDirs(old(tree), Dirs(ws)), Files(ws, texts), force)
      ensures ok && !dryRun ==> Generates(old(tree), tree, ws, texts, force)
      ensures Keeps(old(tree), tree, if force then Paths(Files(ws, texts)) else [])
      ensures WellFormed(tree)
    {
      WorkspaceDirsParentsFirst(ws);
      WorkspaceFilesSeparate(ws, texts);
      ok := Run(Dirs(ws), Files(ws, texts), force, dryRun);
      if ok && !dryRun {
        WorkspaceIsGenerated(old(tree), ws, texts, force, tree);
      }
    }

    /** RunDevInit twice, the second time unforced and perhaps with other texts: if the first
        run succeeds then so does the second, which creates and writes nothing and reports
        every directory as existing and every file as skipped. */
    method RunTwice(ws: Path, texts: seq<string>, others: seq<string>, force: bool)
      returns (first: bool, second: bool, between: Tree)
      requires WellFormed(tree) && |texts| == 4 && |others| == 4
      modifies this
      ensures first <==> DirsFit(old(tree), Dirs(ws)) && (!force || FilesFit(old(tree), Files(ws, texts)))
      ensures first ==> second && tree == between && report == Report([], Dirs(ws), [], Paths(Files(ws, texts)))
    {
      ghost var start := tree;
      first := RunDevInit(ws, texts, force, false);
      between := tree;
      second := RunDevInit(ws, others, false, false);
      if first {
        WorkspaceDirsParentsFirst(ws);
        WorkspaceFilesSeparate(ws, texts);
        SecondRunWritesNothing(start, Dirs(ws), Files(ws, texts), force, Files(ws, others));
      }
    }

    /** The loop over the directories. */
    method MakeDirs(dirs: seq<Path>, dryRun: bool) returns (ok: bool)
      requires WellFormed(tree) && ParentsFirst(dirs)
      modifies this
      ensures ok <==> DirsFit(old(tree), dirs)
      ensures dryRun ==> tree == old(tree)
      ensures ok && !dryRun ==> tree == WithAllDirs(old(tree), dirs)
      ensures ok ==> report == Report(Absent(old(tree), dirs), There(old(tree), dirs), [], [])
      ensures Keeps(old(tree), tree, [])
      ensures WellFormed(tree)
    {
      ghost var start := tree;
      report := NOTHING;
      var i := 0;
      while i < |dirs|
        invariant 0 <= i <= |dirs|
        invariant DirsDone(start, dirs[..i], dryRun, tree, report) && DirsFit(start, dirs[..i])
        invariant WellFormed(tree) && Keeps(start, tree, [])
      {
        DirFound(start, dirs, i, dryRun, tree, report);
        OneMoreFits(start, dirs, i);
        ghost var before, reported := tree, report;
        ok := EnsureDir(dirs[i], dryRun);
        if !ok {
          return;
        }
        DirDone(start, dirs, i, dryRun, before, reported, tree, report);
        i := i + 1;
      }
      assert dirs[..i] == dirs;
      ok := true;
    }

    /** The four generated files, once the directories are there. */
    method WriteFiles(dirs: seq<Path>, files: seq<Generated>, force: bool, dryRun: bool, ghost start: Tree)
      returns (ok: bool)
      requires WellFormed(start) && Separate(dirs, files) && DirsFit(start, dirs)
      requires tree == if dryRun then start else WithAllDirs(start, dirs)
      requires report == Report(Absent(start, dirs), There(start, dirs), [], []) && WellFormed(tree)
      modifies this
      ensures ok <==> dryRun || !force || FilesFit(start, files)
      ensures dryRun ==> tree == start
      ensures ok && !dryRun ==> tree == WithFiles(old(tree), files, force)
      ensures ok ==> report == Predicted(start, dirs, files, force)
      ensures Keeps(old(tree), tree, if force then Paths(files) else [])
      ensures WellFormed(tree)
    {
      ghost var ready := tree;
      NoneReached(start, ready, dirs, files, force, dryRun, report);
      var k := 0;
      while k < |files|
        invariant 0 <= k <= |files|
        invariant FilesReached(start, ready, dirs, files, k, force, dryRun, tree, report)
      {
        ok := WriteNext(dirs, files, k, force, dryRun, start, ready);
        if !ok {
          return;
        }
        k := k + 1;
      }
      AllReached(start, ready, dirs, files, force, dryRun, tree, report);
      ok := true;
    }

    /** One file, after those before it. */
    method WriteNext(
      dirs: seq<Path>, files: seq<Generated>, k: nat, force: bool, dryRun: bool, ghost start: Tree, ghost ready: Tree)
      returns (ok: bool)
      requires WellFormed(start) && Separate(dirs, files) && DirsFit(start, dirs) && k < |files|
      requires dryRun || ready == WithAllDirs(start, dirs)
      requires FilesReached(start, ready, dirs, files, k, force, dryRun, tree, report)
      modifies this
      ensures ok ==> FilesReached(start, ready, dirs, files, k + 1, force, dryRun, tree, report)
      ensures !ok ==> !dryRun && force && !FilesFit(start, files)
      ensures !ok ==> WellFormed(tree) && Keeps(ready, tree, if force then Paths(files) else [])
    {
      FileFound(start, ready, dirs, files, k, force, dryRun, tree, report);
      ghost var before, reported := tree, report;
      ok := WriteGeneratedFile(files[k], force, dryRun);
      OneMoreFileFits(start, files, k);
      KeptAlong(ready, before, tree, files, k, force);
      if ok {
        FileDone(start, ready, dirs, files, k, force, dryRun, before, reported, tree, report);
      }
    }
  }

  /** Where the loop over the files is before file k. */
  ghost predicate FilesReached(
    start: Tree, ready: Tree, dirs: seq<Path>, files: seq<Generated>, k: nat, force: bool, dryRun: bool, t: Tree,
    r: Report)
    requires k <= |files|
  {
    && FilesDone(start, ready, dirs, files[..k], force, dryRun, t, r)
    && (!dryRun && force ==> FilesFit(start, files[..k]))
    && WellFormed(t) && Keeps(ready, t, if force then Paths(files) else [])
  }

  lemma {:induction false} NoneReached(
    start: Tree, ready: Tree, dirs: seq<Path>, files: seq<Generated>, force: bool, dryRun: bool, r: Report)
    requires (dryRun ==> ready == start) && WellFormed(ready)
    requires r == Report(Absent(start, dirs), There(start, dirs), [], [])
    ensures FilesReached(start, ready, dirs, files, 0, force, dryRun, ready, r)
  {
  }

  lemma AllReached(
    start: Tree, ready: Tree, dirs: seq<Path>, files: seq<Generated>, force: bool, dryRun: bool, t: Tree, r: Report)
    requires FilesReached(start, ready, dirs, files, |files|, force, dryRun, t, r)
    ensures FilesDone(start, ready, dirs, files, force, dryRun, t, r)
    ensures !dryRun && force ==> FilesFit(start, files)
    ensures WellFormed(t) && Keeps(ready, t, if force then Paths(files) else [])
  {
    assert files[..|files|] == files;
  }

  // ---- What a run does, from the tree at its start --------------------------------------

  predicate DirFits(t: Tree, p: Path) {
    Stat(t, p) == Present(Dir) || Stat(t, p) == Missing
  }

  predicate DirsFit(t: Tree, dirs: seq<Path>) {
    forall i :: 0 <= i < |dirs| ==> DirFits(t, dirs[i])
  }

  predicate FileFits(t: Tree, f: Generated) {
    !(f.path in t && t[f.path].Dir?)
  }

  predicate FilesFit(t: Tree, files: seq<Generated>) {
    forall i :: 0 <= i < |files| ==> FileFits(t, files[i])
  }

  function Absent(t: Tree, dirs: seq<Path>): seq<Path> {
    if dirs == [] then []
    else
      var p := dirs[|dirs| - 1];
      Absent(t, dirs[..|dirs| - 1]) + (if p in t then [] else [p])
  }

  function There(t: Tree, dirs: seq<Path>): seq<Path> {
    if dirs == [] then []
    else
      var p := dirs[|dirs| - 1];
      There(t, dirs[..|dirs| - 1]) + (if p in t then [p] else [])
  }

  function ToWrite(t: Tree, files: seq<Generated>, force: bool): seq<Path> {
    if files == [] then []
    else
      var p := files[|files| - 1].path;
      ToWrite(t, files[..|files| - 1], force) + (if p !in t || force then [p] else [])
  }

  function ToSkip(t: Tree, files: seq<Generated>, force: bool): seq<Path> {
    if files == [] then []
    else
      var p := files[|files| - 1].path;
      ToSkip(t, files[..|files| - 1], force) + (if p !in t || force then [] else [p])
  }

  function Predicted(t: Tree, dirs: seq<Path>, files: seq<Generated>, force: bool): Report {
    Report(Absent(t, dirs), There(t, dirs), ToWrite(t, files, force), ToSkip(t, files, force))
  }

  function WithAllDirs(t: Tree, dirs: seq<Path>): Tree {
    if dirs == [] then t
    else
      var p, before := dirs[|dirs| - 1], WithAllDirs(t, dirs[..|dirs| - 1]);
      if p in t then before else WithDirs(before, p)
  }

  /** Files are written over what was there only when forced. */
  function WithFiles(t: Tree, files: seq<Generated>, force: bool): Tree {
    if files == [] then t
    else
      var f, before := files[|files| - 1], WithFiles(t, files[..|files| - 1], force);
      if f.path in t && !force then before else before[f.path := File(f.data)]
  }

  lemma DirsStayWellFormed(t: Tree, p: Path)
    requires Stat(t, p).Missing?
    ensures WellFormed(t) ==> WellFormed(WithDirs(t, p))
  {
    if WellFormed(t) {
      forall q, r | r in WithDirs(t, p) && Above(q, r) && q != r ensures q in WithDirs(t, p) && WithDirs(t, p)[q].Dir? {
        if r !in t {
          AboveIsTransitive(q, r, p);
        }
      }
    }
  }

  lemma AboveIsTransitive(q: Path, r: Path, p: Path)
    requires Above(q, r) && Above(r, p)
    ensures Above(q, p)
  {
    assert p[..|q|] == p[..|r|][..|q|];
  }

  /** Nothing lies below what is not a directory. */
  lemma FileStaysWellFormed(t: Tree, f: Generated)
    requires f.path != [] && !(f.path in t && t[f.path].Dir?)
    requires f.path in t || (Parent(f.path) in t && t[Parent(f.path)].Dir?)
    ensures WellFormed(t) ==> WellFormed(t[f.path := File(f.data)])
  {
    if WellFormed(t) {
      var after := t[f.path := File(f.data)];
      forall q, r | r in after && Above(q, r) && q != r ensures q in after && after[q].Dir? {
        if r == f.path && r !in t {
          AboveParent(q, r);
        }
      }
    }
  }

  lemma AboveParent(q: Path, r: Path)
    requires Above(q, r) && q != r
    ensures r != [] && Above(q, Parent(r))
  {
    assert |q| == |r| ==> q == r;
    assert Parent(r)[..|q|] == r[..|q|];
  }

  /** Above one of the directories. */
  predicate Covered(dirs: seq<Path>, q: Path) {
    exists i :: 0 <= i < |dirs| && Above(q, dirs[i])
  }

  lemma CoveredOneMore(dirs: seq<Path>, q: Path)
    requires dirs != []
    ensures Covered(dirs, q) <==> Covered(dirs[..|dirs| - 1], q) || Above(q, dirs[|dirs| - 1])
  {
  }

  lemma {:induction false} AllDirsAre(t: Tree, dirs: seq<Path>, q: Path)
    requires WellFormed(t)
    ensures q in WithAllDirs(t, dirs) <==> q in t || Covered(dirs, q)
    ensures q in WithAllDirs(t, dirs) ==> WithAllDirs(t, dirs)[q] == if q in t then t[q] else Dir
  {
    if dirs != [] {
      AllDirsAre(t, dirs[..|dirs| - 1], q);
      CoveredOneMore(dirs, q);
    }
  }

  lemma {:induction false} FilesAre(t: Tree, files: seq<Generated>, force: bool)
    ensures forall q :: q in WithFiles(t, files, force) <==>
              q in t || exists i :: 0 <= i < |files| && q == files[i].path
    ensures forall q :: q in t && (!force || forall i :: 0 <= i < |files| ==> files[i].path != q) ==>
              WithFiles(t, files, force)[q] == t[q]
  {
    if files != [] {
      FilesAre(t, files[..|files| - 1], force);
    }
  }

  /** Directories made before do not change what is found at a later one. */
  lemma {:induction false} EarlierDirsDoNotMatter(t: Tree, dirs: seq<Path>, i: nat)
    requires WellFormed(t) && ParentsFirst(dirs) && i < |dirs|
    ensures var now := WithAllDirs(t, dirs[..i]);
            (dirs[i] in now <==> dirs[i] in t) && (DirFits(now, dirs[i]) <==> DirFits(t, dirs[i]))
  {
    var now := WithAllDirs(t, dirs[..i]);
    forall q ensures q in now <==> q in t || Covered(dirs[..i], q)
             ensures q in now ==> now[q] == if q in t then t[q] else Dir
    {
      AllDirsAre(t, dirs[..i], q);
    }
  }

  /** Once the directories are there, a file to be written has one to go to. */
  lemma {:induction false} FilesHaveDirectories(t: Tree, dirs: seq<Path>, files: seq<Generated>, k: nat)
    requires WellFormed(t) && Separate(dirs, files) && DirsFit(t, dirs) && k < |files|
    ensures var ready, p := WithAllDirs(t, dirs), files[k].path;
            && (p in ready <==> p in t) && (p in t ==> ready[p] == t[p])
            && Parent(p) in ready && ready[Parent(p)].Dir?
            && forall i :: 0 <= i < |files| ==> files[i].path != Parent(p)
  {
    var parent := Parent(files[k].path);
    AllDirsAre(t, dirs, parent);
    AllDirsAre(t, dirs, files[k].path);
    var j :| 0 <= j < |dirs| && Above(parent, dirs[j]);
    assert DirFits(t, dirs[j]);
  }

  lemma {:induction false} OneMoreDir(t: Tree, dirs: seq<Path>, i: nat)
    requires i < |dirs|
    ensures Absent(t, dirs[..i + 1]) == Absent(t, dirs[..i]) + if dirs[i] in t then [] else [dirs[i]]
    ensures There(t, dirs[..i + 1]) == There(t, dirs[..i]) + if dirs[i] in t then [dirs[i]] else []
    ensures WithAllDirs(t, dirs[..i + 1]) ==
            var before := WithAllDirs(t, dirs[..i]); if dirs[i] in t then before else WithDirs(before, dirs[i])
  {
    assert dirs[..i + 1][..i] == dirs[..i];
  }

  /** The tree and the report after a loop over these directories. */
  ghost predicate DirsDone(start: Tree, dirs: seq<Path>, dryRun: bool, t: Tree, r: Report) {
    && t == (if dryRun then start else WithAllDirs(start, dirs))
    && r == Report(Absent(start, dirs), There(start, dirs), [], [])
  }

  lemma DirFound(start: Tree, dirs: seq<Path>, i: nat, dryRun: bool, t: Tree, r: Report)
    requires WellFormed(start) && ParentsFirst(dirs) && i < |dirs| && DirsDone(start, dirs[..i], dryRun, t, r)
    ensures (dirs[i] in t <==> dirs[i] in start) && (DirFits(t, dirs[i]) <==> DirFits(start, dirs[i]))
  {
    EarlierDirsDoNotMatter(start, dirs, i);
  }

  lemma DirDone(start: Tree, dirs: seq<Path>, i: nat, dryRun: bool, t: Tree, r: Report, t': Tree, r': Report)
    requires i < |dirs| && DirsDone(start, dirs[..i], dryRun, t, r)
    requires dirs[i] in t <==> dirs[i] in start
    requires t' == if dirs[i] !in t && !dryRun then WithDirs(t, dirs[i]) else t
    requires r' == if dirs[i] in t then r.(existing := r.existing + [dirs[i]]) else r.(created := r.created + [dirs[i]])
    ensures DirsDone(start, dirs[..i + 1], dryRun, t', r')
  {
    OneMoreDir(start, dirs, i);
  }

  lemma OneMoreFits(t: Tree, dirs: seq<Path>, i: nat)
    requires i < |dirs|
    ensures DirsFit(t, dirs[..i + 1]) <==> DirsFit(t, dirs[..i]) && DirFits(t, dirs[i])
    ensures DirsFit(t, dirs) ==> DirFits(t, dirs[i])
  {
  }

  lemma {:induction false} OneMoreFile(t: Tree, ready: Tree, files: seq<Generated>, k: nat, force: bool)
    requires k < |files|
    ensures var p := files[k].path;
            && ToWrite(t, files[..k + 1], force) ==
               ToWrite(t, files[..k], force) + (if p !in t || force then [p] else [])
            && ToSkip(t, files[..k + 1], force) ==
               ToSkip(t, files[..k], force) + (if p !in t || force then [] else [p])
            && WithFiles(ready, files[..k + 1], force) ==
               (var before := WithFiles(ready, files[..k], force);
                if p in ready && !force then before else before[p := File(files[k].data)])
  {
    assert files[..k + 1][..k] == files[..k];
  }

  lemma OneMoreFileFits(t: Tree, files: seq<Generated>, k: nat)
    requires k < |files|
    ensures FilesFit(t, files[..k + 1]) <==> FilesFit(t, files[..k]) && FileFits(t, files[k])
    ensures FilesFit(t, files) ==> FileFits(t, files[k])
  {
  }

  /** The tree and the report after a loop over these files. */
  ghost predicate FilesDone(
    start: Tree, ready: Tree, dirs: seq<Path>, files: seq<Generated>, force: bool, dryRun: bool, t: Tree, r: Report) {
    && t == (if dryRun then start else WithFiles(ready, files, force))
    && r == Predicted(start, dirs, files, force)
  }

  lemma {:induction false} FileFound(
    start: Tree, ready: Tree, dirs: seq<Path>, files: seq<Generated>, k: nat, force: bool, dryRun: bool, t: Tree,
    r: Report)
    requires WellFormed(start) && Separate(dirs, files) && DirsFit(start, dirs) && k < |files|
    requires dryRun || ready == WithAllDirs(start, dirs)
    requires FilesDone(start, ready, dirs, files[..k], force, dryRun, t, r)
    ensures var p := files[k].path;
            && p != [] && (p in t <==> p in start) && (p in start ==> t[p] == start[p])
            && (dryRun || (Parent(p) in t && t[Parent(p)].Dir?))
  {
    EarlierFilesDoNotMatter(start, dirs, files, k, force);
  }

  lemma {:induction false} FileDone(
    start: Tree, ready: Tree, dirs: seq<Path>, files: seq<Generated>, k: nat, force: bool, dryRun: bool, t: Tree,
    r: Report, t': Tree, r': Report)
    requires WellFormed(start) && Separate(dirs, files) && DirsFit(start, dirs) && k < |files|
    requires dryRun || ready == WithAllDirs(start, dirs)
    requires FilesDone(start, ready, dirs, files[..k], force, dryRun, t, r)
    requires files[k].path in t <==> files[k].path in start
    requires var writes := files[k].path !in t || force;
             && t' == (if writes && !dryRun then t[files[k].path := File(files[k].data)] else t)
             && r' == if writes then r.(written := r.written + [files[k].path])
                      else r.(skipped := r.skipped + [files[k].path])
    ensures FilesDone(start, ready, dirs, files[..k + 1], force, dryRun, t', r')
  {
    FilesHaveDirectories(start, dirs, files, k);
    OneMoreFile(start, ready, files, k, force);
  }

  lemma {:induction false} EarlierFilesDoNotMatter(t: Tree, dirs: seq<Path>, files: seq<Generated>, k: nat, force: bool)
    requires WellFormed(t) && Separate(dirs, files) && DirsFit(t, dirs) && k < |files|
    ensures var now, p := WithFiles(WithAllDirs(t, dirs), files[..k], force), files[k].path;
            && (p in now <==> p in t) && (p in t ==> now[p] == t[p])
            && Parent(p) in now && now[Parent(p)].Dir?
  {
    FilesHaveDirectories(t, dirs, files, k);
    FilesAre(WithAllDirs(t, dirs), files[..k], force);
    forall i | 0 <= i < k ensures files[i].path != files[k].path {
      assert !Above(files[i].path, files[k].path);
    }
  }

  lemma KeptAlong(ready: Tree, before: Tree, after: Tree, files: seq<Generated>, k: nat, force: bool)
    requires k < |files| && Keeps(ready, before, if force then Paths(files) else [])
    requires Keeps(before, after, if force then [files[k].path] else [])
    ensures Keeps(ready, after, if force then Paths(files) else [])
  {
    assert Paths(files)[k] == files[k].path;
  }

  // ---- The workspace's own lists --------------------------------------------------------

  lemma AboveBelowWorkspace(ws: Path, p: Path, q: Path)
    ensures Above(ws + p, ws + q) <==> Above(p, q)
  {
    if |p| <= |q| {
      assert (ws + q)[..|ws| + |p|] == ws + q[..|p|];
      assert (ws + p)[|ws|..] == p && (ws + q[..|p|])[|ws|..] == q[..|p|];
    }
  }

  lemma WorkspaceDirsParentsFirst(ws: Path)
    ensures ParentsFirst(Dirs(ws))
  {
    forall i, j | 0 <= i < j < 9 ensures !Above(Dirs(ws)[j], Dirs(ws)[i]) {
      AboveBelowWorkspace(ws, DirNames()[j], DirNames()[i]);
      DirNamesParentsFirst(i, j);
    }
  }

  lemma AboveAgrees(p: Path, q: Path, k: nat)
    requires Above(p, q) && k < |p|
    ensures k < |q| && p[k] == q[k]
  {
    assert q[..|p|][k] == q[k];
  }

  lemma DirNamesParentsFirst(i: nat, j: nat)
    requires i < j < 9
    ensures !Above(DirNames()[j], DirNames()[i])
  {
    var p, q := DirNames()[j], DirNames()[i];
    if Above(p, q) {
      AboveAgrees(p, q, 0);
      assert p[0] == q[0];
      assert j == 4 ==> i == 3;
      assert j == 5 ==> i == 3 || i == 4;
      AboveAgrees(p, q, |p| - 1);
    }
  }

  lemma FileNamesSeparate(i: nat, j: nat)
    requires i < 4 && j < 4 && i != j
    ensures !Above(FileNames()[i], FileNames()[j])
  {
    var p, q := FileNames()[i], FileNames()[j];
    if Above(p, q) {
      AboveAgrees(p, q, 0);
      AboveAgrees(p, q, |p| - 1);
    }
  }

  lemma FileNamesBesideDirs(i: nat, j: nat)
    requires i < 4 && j < 9
    ensures !Above(FileNames()[i], DirNames()[j])
  {
    var p, q := FileNames()[i], DirNames()[j];
    if Above(p, q) {
      AboveAgrees(p, q, 0);
      AboveAgrees(p, q, |p| - 1);
    }
  }

  lemma FileParents(i: nat)
    requires i < 4
    ensures Above(Parent(FileNames()[i]), DirNames()[if i == 1 then 1 else 0])
  {
    var p := Parent(FileNames()[i]);
    assert i == 0 ==> p == ["config"];
    assert i == 1 ==> p == ["config", "rbac"];
    assert i >= 2 ==> p == [];
  }

  lemma WorkspaceFilesSeparate(ws: Path, texts: seq<string>)
    requires |texts| == 4
    ensures Separate(Dirs(ws), Files(ws, texts))
  {
    var dirs, files, names := Dirs(ws), Files(ws, texts), FileNames();
    forall i, j | 0 <= i < 4 && 0 <= j < 4 && i != j ensures !Above(files[i].path, files[j].path) {
      AboveBelowWorkspace(ws, names[i], names[j]);
      FileNamesSeparate(i, j);
    }
    forall i, j | 0 <= i < 4 && 0 <= j < 9 ensures !Above(files[i].path, dirs[j]) {
      AboveBelowWorkspace(ws, names[i], DirNames()[j]);
      FileNamesBesideDirs(i, j);
    }
    forall i | 0 <= i < 4
      ensures files[i].path != [] && exists j :: 0 <= j < 9 && Above(Parent(files[i].path), dirs[j])
    {
      assert Parent(files[i].path) == ws + Parent(names[i]);
      var j := if i == 1 then 1 else 0;
      FileParents(i);
      AboveBelowWorkspace(ws, Parent(names[i]), DirNames()[j]);
      assert Above(Parent(files[i].path), dirs[j]);
    }
  }

  /** Each file holds its own text: no later one is written over it. */
  lemma {:induction false} FileHolds(t: Tree, files: seq<Generated>, force: bool, k: nat)
    requires k < |files|
    requires forall i, j :: 0 <= i < |files| && 0 <= j < |files| && i != j ==> files[i].path != files[j].path
    ensures Holds(t, WithFiles(t, files, force), files[k].path, files[k].data, force)
  {
    var init := files[..|files| - 1];
    if k < |init| {
      FileHolds(t, init, force, k);
    } else {
      FilesAre(t, init, force);
    }
  }

  lemma {:induction false} FileIsGenerated(
    t: Tree, dirs: seq<Path>, files: seq<Generated>, force: bool, after: Tree, k: nat)
    requires WellFormed(t) && Separate(dirs, files) && DirsFit(t, dirs) && k < |files|
    requires after == WithFiles(WithAllDirs(t, dirs), files, force)
    ensures Holds(t, after, files[k].path, files[k].data, force)
  {
    FilesHaveDirectories(t, dirs, files, k);
    forall i, j | 0 <= i < |files| && 0 <= j < |files| && i != j ensures files[i].path != files[j].path {
      assert !Above(files[i].path, files[j].path);
    }
    FileHolds(WithAllDirs(t, dirs), files, force, k);
  }

  lemma {:induction false} WorkspaceIsGenerated(t: Tree, ws: Path, texts: seq<string>, force: bool, after: Tree)
    requires WellFormed(t) && |texts| == 4 && DirsFit(t, Dirs(ws))
    requires after == WithFiles(WithAllDirs(t, Dirs(ws)), Files(ws, texts), force)
    ensures Generates(t, after, ws, texts, force)
  {
    WorkspaceFilesSeparate(ws, texts);
    var dirs, files := Dirs(ws), Files(ws, texts);
    forall i: nat | i < 4 ensures Holds(t, after, ws + FileNames()[i], texts[i], force) {
      FileIsGenerated(t, dirs, files, force, after, i);
    }
    forall i: nat | i < 9 ensures ws + DirNames()[i] in after && after[ws + DirNames()[i]] == Dir {
      DirStays(t, dirs, files, force, after, i);
    }
    assert HasFiles(t, after, ws, FileNames(), texts, force);
    assert HasDirs(after, ws, DirNames());
  }

  // ---- Running again --------------------------------------------------------------------

  lemma {:induction false} AllThere(t: Tree, dirs: seq<Path>)
    requires forall i :: 0 <= i < |dirs| ==> dirs[i] in t
    ensures Absent(t, dirs) == [] && There(t, dirs) == dirs && WithAllDirs(t, dirs) == t
  {
    if dirs != [] {
      AllThere(t, dirs[..|dirs| - 1]);
      assert dirs == dirs[..|dirs| - 1] + [dirs[|dirs| - 1]];
    }
  }

  function Paths(files: seq<Generated>): seq<Path> {
    seq(|files|, i requires 0 <= i < |files| => files[i].path)
  }

  lemma {:induction false} AllSkipped(t: Tree, files: seq<Generated>)
    requires forall i :: 0 <= i < |files| ==> files[i].path in t
    ensures ToWrite(t, files, false) == [] && ToSkip(t, files, false) == Paths(files) && WithFiles(t, files, false) == t
  {
    if files != [] {
      AllSkipped(t, files[..|files| - 1]);
      assert Paths(files) == Paths(files[..|files| - 1]) + [files[|files| - 1].path];
    }
  }

  /** After a successful run, forced or not, an unforced one over the same paths succeeds,
      creates and writes nothing, and reports everything as existing or skipped. */
  lemma {:induction false} SecondRunWritesNothing(
    t: Tree, dirs: seq<Path>, files: seq<Generated>, force: bool, others: seq<Generated>)
    requires WellFormed(t) && ParentsFirst(dirs) && Separate(dirs, files) && DirsFit(t, dirs)
    requires Paths(others) == Paths(files)
    ensures var after := WithFiles(WithAllDirs(t, dirs), files, force);
            && DirsFit(after, dirs)
            && Predicted(after, dirs, others, false) == Report([], dirs, [], Paths(files))
            && WithFiles(WithAllDirs(after, dirs), others, false) == after
  {
    SecondRunOn(t, dirs, files, force, others, WithFiles(WithAllDirs(t, dirs), files, force));
  }

  lemma {:induction false} SecondRunOn(
    t: Tree, dirs: seq<Path>, files: seq<Generated>, force: bool, others: seq<Generated>, after: Tree)
    requires WellFormed(t) && ParentsFirst(dirs) && Separate(dirs, files) && DirsFit(t, dirs)
    requires Paths(others) == Paths(files)
    requires after == WithFiles(WithAllDirs(t, dirs), files, force)
    ensures DirsFit(after, dirs)
    ensures Predicted(after, dirs, others, false) == Report([], dirs, [], Paths(files))
    ensures WithFiles(WithAllDirs(after, dirs), others, false) == after
  {
    forall i | 0 <= i < |dirs| ensures dirs[i] in after && after[dirs[i]] == Dir {
      DirStays(t, dirs, files, force, after, i);
    }
    forall k | 0 <= k < |others| ensures others[k].path in after {
      FileStays(WithAllDirs(t, dirs), files, force, after, k);
      assert others[k].path == Paths(others)[k] == Paths(files)[k] == files[k].path;
    }
    SettledTree(after, dirs, others);
  }

  lemma {:induction false} DirStays(t: Tree, dirs: seq<Path>, files: seq<Generated>, force: bool, after: Tree, i: nat)
    requires WellFormed(t) && Separate(dirs, files) && DirsFit(t, dirs) && i < |dirs|
    requires after == WithFiles(WithAllDirs(t, dirs), files, force)
    ensures dirs[i] in after && after[dirs[i]] == Dir
  {
    DirReady(t, dirs, i);
    forall k | 0 <= k < |files| ensures files[k].path != dirs[i] {
      assert !Above(files[k].path, dirs[i]);
    }
    FilesAre(WithAllDirs(t, dirs), files, force);
  }

  lemma {:induction false} FileStays(ready: Tree, files: seq<Generated>, force: bool, after: Tree, k: nat)
    requires after == WithFiles(ready, files, force) && k < |files|
    ensures files[k].path in after
  {
    FilesAre(ready, files, force);
  }

  /** Where everything is there already, an unforced run has nothing to do. */
  lemma {:induction false} SettledTree(t: Tree, dirs: seq<Path>, files: seq<Generated>)
    requires forall i :: 0 <= i < |dirs| ==> dirs[i] in t && t[dirs[i]] == Dir
    requires forall k :: 0 <= k < |files| ==> files[k].path in t
    ensures DirsFit(t, dirs)
    ensures Predicted(t, dirs, files, false) == Report([], dirs, [], Paths(files))
    ensures WithFiles(WithAllDirs(t, dirs), files, false) == t
  {
    AllThere(t, dirs);
    AllSkipped(t, files);
  }

  lemma {:induction false} DirReady(t: Tree, dirs: seq<Path>, i: nat)
    requires WellFormed(t) && DirsFit(t, dirs) && i < |dirs|
    ensures dirs[i] in WithAllDirs(t, dirs) && WithAllDirs(t, dirs)[dirs[i]] == Dir
  {
    assert DirFits(t, dirs[i]) && Above(dirs[i], dirs[i]);
    AllDirsAre(t, dirs, dirs[i]);
  }
}
