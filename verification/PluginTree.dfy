/** Wrapping one skill as a plugin: the order of directories and exclusive creation below a fresh root. */
module PluginTree {
  import opened Common
  import opened Paths

  // ---- Directories ----

  datatype Captured = Captured(path: Path, digest: Digest<Bytes>, size: nat, mode: nat)

  /** The admitted skill: its name, the manifest made for it, and the capture of its source. */
  datatype Source = Source(
    skill: string, manifest: Bytes, files: seq<Captured>, payloads: map<Path, Bytes>, directories: seq<Path>)

  function Base(skill: string): Path {
    ["skills", skill]
  }

  function Wrap(skill: string, path: Path): Path {
    Base(skill) + path
  }

  /** A directory the candidate needs: above the skill, at or above a captured directory, or above a
      captured file. */
  ghost predicate Needed(p: Path, src: Source) {
    && p != []
    && (p <= Base(src.skill)
        || (exists d | d in src.directories :: p <= Wrap(src.skill, d))
        || (exists f | f in src.files :: p < Wrap(src.skill, f.path)))
  }

  function Parent(path: Path): Path {
    if path == [] then [] else path[..|path| - 1]
  }

  /** The items `_directory_paths` walks: the captured directories, then each file's directory. */
  function Items(src: Source): seq<Path> {
    src.directories + seq(|src.files|, i requires 0 <= i < |src.files| => Parent(src.files[i].path))
  }

  ghost predicate Added(p: Path, skill: string, items: seq<Path>) {
    exists i, k | 0 <= i < |items| && 1 <= k <= |items[i]| :: p == Wrap(skill, items[i][..k])
  }

  lemma AddedIsNeeded(p: Path, src: Source)
    requires p == ["skills"] || p == Base(src.skill) || Added(p, src.skill, Items(src))
    ensures Needed(p, src)
  {
    if p == ["skills"] {
      assert p <= Base(src.skill);
    } else if p != Base(src.skill) {
      var items := Items(src);
      var i, k :| 0 <= i < |items| && 1 <= k <= |items[i]| && p == Wrap(src.skill, items[i][..k]);
      assert p <= Wrap(src.skill, items[i]);
      if i < |src.directories| {
        assert items[i] == src.directories[i] && src.directories[i] in src.directories;
      } else {
        var f := src.files[i - |src.directories|];
        assert f in src.files && items[i] == Parent(f.path);
        assert p < Wrap(src.skill, f.path);
      }
    }
  }

  lemma PrefixIsAdded(p: Path, src: Source, items: seq<Path>, j: nat, path: Path)
    requires j < |items| && p != [] && p <= Wrap(src.skill, path)
    requires |p| >= 3 ==> |p| - 2 <= |items[j]| && path[..|p| - 2] == items[j][..|p| - 2]
    ensures p == ["skills"] || p == Base(src.skill) || Added(p, src.skill, items)
  {
    if |p| >= 3 { assert p == Wrap(src.skill, items[j][..|p| - 2]); }
  }

  lemma DirectoryIsAdded(p: Path, src: Source, i: nat)
    requires i < |src.directories| && p != [] && p <= Wrap(src.skill, src.directories[i])
    ensures p == ["skills"] || p == Base(src.skill) || Added(p, src.skill, Items(src))
  {
    assert Items(src)[i] == src.directories[i];
    PrefixIsAdded(p, src, Items(src), i, src.directories[i]);
  }

  lemma FileParentIsAdded(p: Path, src: Source, i: nat)
    requires i < |src.files| && src.files[i].path != [] && p != [] && p < Wrap(src.skill, src.files[i].path)
    ensures p == ["skills"] || p == Base(src.skill) || Added(p, src.skill, Items(src))
  {
    var j := |src.directories| + i;
    assert Items(src)[j] == Parent(src.files[i].path);
    PrefixIsAdded(p, src, Items(src), j, src.files[i].path);
  }

  lemma NeededIsAdded(p: Path, src: Source)
    requires Needed(p, src) && forall f | f in src.files :: Proper(f.path)
    ensures p == ["skills"] || p == Base(src.skill) || Added(p, src.skill, Items(src))
  {
    if p <= Base(src.skill) {
    } else if d :| d in src.directories && p <= Wrap(src.skill, d) {
      var i :| 0 <= i < |src.directories| && src.directories[i] == d;
      DirectoryIsAdded(p, src, i);
    } else {
      var f :| f in src.files && p < Wrap(src.skill, f.path);
      var i :| 0 <= i < |src.files| && src.files[i] == f;
      FileParentIsAdded(p, src, i);
    }
  }

  /** What the capture of a real directory tree guarantees of its listing. */
  ghost predicate Listing(src: Source) {
    && Proper([src.skill])
    && (forall f | f in src.files :: f.path in src.payloads)
    && (forall d | d in src.directories :: Proper(d))
    && (forall f | f in src.files :: Proper(f.path) && f.mode < 0x200)
    && (forall i, j | 0 <= i < j < |src.files| :: src.files[i].path != src.files[j].path)
    && (forall f, d | f in src.files && d in src.directories :: !(f.path <= d))
    && (forall f, g | f in src.files && g in src.files :: !(f.path < g.path))
  }

  /** `_directory_paths`: the needed directories, each once, by depth and then by text. */
  method DirectoryPaths(src: Source) returns (paths: seq<Path>)
    requires Listing(src)
    ensures Sorted(paths, Before) && |paths| > 0
    ensures forall p :: p in paths <==> Needed(p, src)
    ensures forall p | p in paths :: Proper(p)
  {
    var items := Items(src);
    var found: set<Path> := {["skills"], Base(src.skill)};
    for i := 0 to |items|
      invariant forall p :: p in found <==> p == ["skills"] || p == Base(src.skill) || Added(p, src.skill, items[..i])
    {
      var item := items[i];
      ghost var before := found;
      if item != [] {
        for index := 1 to |item| + 1
          invariant forall p :: p in found <==> p in before || exists k | 1 <= k < index :: p == Wrap(src.skill, item[..k])
        {
          found := found + {Wrap(src.skill, item[..index])};
        }
      }
      forall p ensures Added(p, src.skill, items[..i + 1])
        <==> Added(p, src.skill, items[..i]) || exists k | 1 <= k <= |item| :: p == Wrap(src.skill, item[..k])
      {
      }
    }
    assert items[..|items|] == items;
    ghost var needed := found;
    forall p ensures p in needed <==> Needed(p, src) {
      if p in needed { AddedIsNeeded(p, src); }
      if Needed(p, src) { NeededIsAdded(p, src); }
    }
    forall p | p in needed ensures Proper(p) { NeededIsProper(p, src); }
    paths := SortPaths(found);
    assert Base(src.skill) in paths;
  }

  lemma NeededIsProper(p: Path, src: Source)
    requires Listing(src) && Needed(p, src)
    ensures Proper(p)
  {
    assert src.skill in [src.skill];
    var whole: Path :| p <= whole && forall name | name in whole :: name != "" && '/' !in name by {
      if p <= Base(src.skill) {
        assert forall name | name in Base(src.skill) :: name != "" && '/' !in name;
      } else if exists d | d in src.directories :: p <= Wrap(src.skill, d) {
        var d :| d in src.directories && p <= Wrap(src.skill, d);
        assert forall name | name in Wrap(src.skill, d) :: name in Base(src.skill) || name in d;
      } else {
        var f :| f in src.files && p < Wrap(src.skill, f.path);
        assert forall name | name in Wrap(src.skill, f.path) :: name in Base(src.skill) || name in f.path;
      }
    }
    assert forall name | name in p :: name in whole;
  }

  method SortPaths(paths: set<Path>) returns (sorted: seq<Path>)
    requires forall p | p in paths :: Proper(p)
    ensures Sorted(sorted, Before)
    ensures forall p :: p in sorted <==> p in paths
  {
    sorted := [];
    var rest := paths;
    while rest != {}
      invariant rest <= paths && Sorted(sorted, Before)
      invariant forall p :: p in sorted <==> p in paths && p !in rest
      decreases |rest|
    {
      var path :| path in rest;
      DepthOrder();
      forall p | p in sorted ensures Before(p, path) || Before(path, p) { DistinctPathsCompare(p, path); }
      InsertSorted(sorted, path, Before);
      forall p ensures p in Insert(sorted, path, Before) <==> p in sorted || p == path {
        InsertMembers(sorted, path, Before, p);
      }
      sorted := Insert(sorted, path, Before);
      rest := rest - {path};
    }
  }

  /** Every directory comes after all the directories above it. */
  predicate ParentFirst(paths: seq<Path>) {
    forall i, k | 0 <= i < |paths| && 1 <= k < |paths[i]| :: paths[i][..k] in paths[..i]
  }

  lemma SortedIsParentFirst(paths: seq<Path>, src: Source)
    requires Sorted(paths, Before) && forall p :: p in paths <==> Needed(p, src)
    ensures Distinct(paths) && ParentFirst(paths)
  {
    forall i, j | 0 <= i < j < |paths| ensures paths[i] != paths[j] { LessIrreflexive(Join(paths[i])); }
    forall i, k | 0 <= i < |paths| && 1 <= k < |paths[i]| ensures paths[i][..k] in paths[..i] {
      var p := paths[i][..k];
      assert paths[i] in paths;
      NeededAbove(paths[i], k, src);
      var j :| 0 <= j < |paths| && paths[j] == p;
      assert j < i by {
        assert |paths[j]| < |paths[i]|;
        assert i < j ==> Before(paths[i], paths[j]);
      }
      assert paths[..i][j] == p;
    }
  }

  lemma NeededAbove(p: Path, k: nat, src: Source)
    requires Needed(p, src) && 1 <= k <= |p|
    ensures Needed(p[..k], src)
  {
    assert p[..k] <= p;
    if p <= Base(src.skill) {
      assert p[..k] <= Base(src.skill);
    } else if exists d | d in src.directories :: p <= Wrap(src.skill, d) {
      var d :| d in src.directories && p <= Wrap(src.skill, d);
      assert p[..k] <= Wrap(src.skill, d);
    } else {
      var f :| f in src.files && p < Wrap(src.skill, f.path);
      assert p[..k] < Wrap(src.skill, f.path);
    }
  }

  // ---- The tree that is written ----

  datatype Node = Directory | Regular(bytes: Bytes, mode: nat)

  type Nodes = map<Path, Node>

  /** What a name in the destination's parent directory holds. */
  datatype Entry = Tree(nodes: Nodes) | Other

  /** A system call finds what it needs and works, finds no parent, finds the name taken, or fails for
      a reason of the host's own. */
  datatype Step = Done | Missing | Exists | Fault

  predicate ParentsPresent(nodes: Nodes, path: Path) {
    forall k | 1 <= k < |path| :: path[..k] in nodes && nodes[path[..k]].Directory?
  }

  /** The caller-controlled directory in which the candidate is created; no one else writes there. */
  class OutputParent {
    var entries: map<string, Entry>
    var failed: bool   // some call has failed for a reason of the host's own

    constructor (entries: map<string, Entry>)
      ensures this.entries == entries && !failed
    {
      this.entries, failed := entries, false;
    }

    /** A call may fail for a reason of the host's own. */
    method Works() returns (works: bool)
      modifies this`failed
      ensures failed == (old(failed) || !works)
    {
      works := *;
      failed := failed || !works;
    }

    /** Opens the parent of `path` one component at a time. */
    method OpenParent(root: string, path: Path) returns (step: Step)
      requires root in entries && entries[root].Tree? && path != [] && !failed
      modifies this`failed
      ensures step.Done? ==> ParentsPresent(entries[root].nodes, path)
      ensures step.Missing? ==> !ParentsPresent(entries[root].nodes, path)
      ensures !step.Exists? && (step.Fault? <==> failed)
    {
      var nodes := entries[root].nodes;
      for k := 1 to |path|
        invariant !failed && forall j | 1 <= j < k :: path[..j] in nodes && nodes[path[..j]].Directory?
      {
        if path[..k] !in nodes || !nodes[path[..k]].Directory? { return Missing; }
        var reached := Works();
        if !reached { return Fault; }
      }
      step := Done;
    }

    /** Exclusive `mkdir`; a later fault on the new directory leaves it in place. */
    method MakeDirectory(root: string, path: Path) returns (step: Step)
      requires root in entries && entries[root].Tree? && path != [] && !failed
      modifies this
      ensures step.Fault? <==> failed
      ensures step.Missing? ==> !ParentsPresent(old(entries)[root].nodes, path)
      ensures step.Exists? ==> path in old(entries)[root].nodes
      ensures step.Done? ==> entries == old(entries)[root := Tree(old(entries)[root].nodes[path := Directory])]
      ensures step.Done? ==> path !in old(entries)[root].nodes
      ensures !step.Done? ==>
        || entries == old(entries)
        || (step.Fault? && path !in old(entries)[root].nodes
            && entries == old(entries)[root := Tree(old(entries)[root].nodes[path := Directory])])
    {
      step := OpenParent(root, path);
      if !step.Done? { return; }
      var nodes := entries[root].nodes;
      if path in nodes { return Exists; }
      var made := Works();
      if made { entries := entries[root := Tree(nodes[path := Directory])]; }
      var checked := Works();
      step := if made && checked then Done else Fault;
    }

    /** `_write_file`: exclusive creation, the bytes, then the permission bits. */
    method WriteFile(root: string, path: Path, payload: Bytes, mode: nat) returns (step: Step)
      requires root in entries && entries[root].Tree? && path != [] && !failed
      modifies this
      ensures step.Fault? <==> failed
      ensures step.Missing? ==> !ParentsPresent(old(entries)[root].nodes, path)
      ensures step.Exists? ==> path in old(entries)[root].nodes
      ensures step.Done? ==>
        && path !in old(entries)[root].nodes
        && entries == old(entries)[root := Tree(old(entries)[root].nodes[path := Regular(payload, mode % 0x200)])]
      ensures !step.Done? ==>
        || entries == old(entries)
        || (step.Fault? && path !in old(entries)[root].nodes
            && exists bytes, m :: entries == old(entries)[root := Tree(old(entries)[root].nodes[path := Regular(bytes, m)])])
    {
      step := OpenParent(root, path);
      if !step.Done? { return; }
      var nodes := entries[root].nodes;
      if path in nodes { return Exists; }
      var made := Works();
      if !made { return Fault; }
      var written: int := *;
      var whole := Works();
      if !whole {
        var bytes := if 0 <= written < |payload| then payload[..written] else payload;
        entries := entries[root := Tree(nodes[path := Regular(bytes, 0x180)])];
        return Fault;
      }
      entries := entries[root := Tree(nodes[path := Regular(payload, mode % 0x200)])];
    }

    /** `_create_directories` below a fresh root: it can only stop for a fault of the host. */
    method CreateDirectories(root: string, paths: seq<Path>) returns (step: Step)
      requires root in entries && entries[root] == Tree(map[]) && !failed
      requires Distinct(paths) && ParentFirst(paths) && forall p | p in paths :: p != []
      modifies this
      ensures (step.Done? || step.Fault?) && (step.Fault? <==> failed)
      ensures root in entries && entries == old(entries)[root := entries[root]] && entries[root].Tree?
      ensures forall p | p in entries[root].nodes :: p in paths && entries[root].nodes[p].Directory?
      ensures step.Done? ==> forall p | p in paths :: p in entries[root].nodes
    {
      for i := 0 to |paths|
        invariant root in entries && entries == old(entries)[root := entries[root]] && entries[root].Tree? && !failed
        invariant forall p :: p in entries[root].nodes <==> p in paths[..i]
        invariant forall p | p in entries[root].nodes :: entries[root].nodes[p].Directory?
      {
        assert paths[i] in paths;
        assert forall j | 0 <= j < i :: paths[..i][j] != paths[i];
        assert forall p :: p in paths[..i + 1] <==> p in paths[..i] || p == paths[i];
        step := MakeDirectory(root, paths[i]);
        if !step.Done? { return; }
      }
      step := Done;
    }

    /** One captured file: its directory is there and its name is free, so only the host can stop it. */
    method WriteCaptured(root: string, path: Path, payload: Bytes, mode: nat) returns (step: Step)
      requires root in entries && entries[root].Tree? && path != [] && mode < 0x200 && !failed
      requires ParentsPresent(entries[root].nodes, path) && path !in entries[root].nodes
      modifies this
      ensures (step.Done? || step.Fault?) && (step.Fault? <==> failed)
      ensures root in entries && entries == old(entries)[root := entries[root]] && entries[root].Tree?
      ensures step.Done? ==> entries[root].nodes == old(entries)[root].nodes[path := Regular(payload, mode)]
      ensures SameButFor(old(entries)[root].nodes, entries[root].nodes, path)
    {
      step := WriteFile(root, path, payload, mode);
    }

    /** The captured file with index `i`. */
    method WriteNext(root: string, src: Source, i: nat) returns (step: Step)
      requires Listing(src) && i < |src.files|
      requires root in entries && entries[root].Tree? && IsCandidate(entries[root].nodes, src, i) && !failed
      requires Within(entries[root].nodes, src)
      modifies this
      ensures (step.Done? || step.Fault?) && (step.Fault? <==> failed)
      ensures root in entries && entries == old(entries)[root := entries[root]] && entries[root].Tree?
      ensures step.Done? ==> IsCandidate(entries[root].nodes, src, i + 1)
      ensures Within(entries[root].nodes, src)
    {
      ghost var nodes := entries[root].nodes;
      ReadyForFile(nodes, src, i);
      step := WriteCaptured(root, Place(src, i), src.payloads[src.files[i].path], src.files[i].mode);
      if step.Done? { OneMoreFile(nodes, src, i); }
    }

    /** The loop of `_write_candidate` over the captured files. */
    method WriteFiles(root: string, src: Source) returns (step: Step)
      requires Listing(src)
      requires root in entries && entries[root].Tree? && !failed
      requires IsCandidate(entries[root].nodes, src, 0)
      modifies this
      ensures (step.Done? || step.Fault?) && (step.Fault? <==> failed)
      ensures root in entries && entries == old(entries)[root := entries[root]] && entries[root].Tree?
      ensures step.Done? ==> IsCandidate(entries[root].nodes, src, |src.files|)
      ensures Within(entries[root].nodes, src)
    {
      for i := 0 to |src.files|
        invariant root in entries && entries[root].Tree? && entries == old(entries)[root := entries[root]] && !failed
        invariant IsCandidate(entries[root].nodes, src, i)
        invariant Within(entries[root].nodes, src)
      {
        step := WriteNext(root, src, i);
        if !step.Done? { return; }
      }
      step := Done;
    }

    /** The directories and the manifest. */
    method WriteFrame(root: string, src: Source) returns (step: Step)
      requires Listing(src)
      requires root in entries && entries[root] == Tree(map[]) && !failed
      modifies this
      ensures (step.Done? || step.Fault?) && (step.Fault? <==> failed)
      ensures root in entries && entries == old(entries)[root := entries[root]] && entries[root].Tree?
      ensures step.Done? ==> IsCandidate(entries[root].nodes, src, 0)
      ensures Within(entries[root].nodes, src)
    {
      var paths := DirectoryPaths(src);
      SortedIsParentFirst(paths, src);
      step := CreateDirectories(root, paths);
      if !step.Done? { return; }
      step := WriteManifest(root, src);
    }

    /** The manifest, once the directories are there. */
    method WriteManifest(root: string, src: Source) returns (step: Step)
      requires Listing(src)
      requires root in entries && entries[root].Tree? && AllDirectories(entries[root].nodes, src) && !failed
      modifies this
      ensures (step.Done? || step.Fault?) && (step.Fault? <==> failed)
      ensures root in entries && entries == old(entries)[root := entries[root]] && entries[root].Tree?
      ensures step.Done? ==> IsCandidate(entries[root].nodes, src, 0)
      ensures Within(entries[root].nodes, src)
    {
      ManifestIsFree(src);
      step := WriteFile(root, ["plugin.json"], src.manifest, 0x1A4);
    }

    /** Everything below the fresh root. */
    method Fill(root: string, src: Source) returns (step: Step)
      requires Listing(src)
      requires root in entries && entries[root] == Tree(map[]) && !failed
      modifies this
      ensures (step.Done? || step.Fault?) && (step.Fault? <==> failed)
      ensures root in entries && entries == old(entries)[root := entries[root]] && entries[root].Tree?
      ensures step.Done? ==> IsCandidate(entries[root].nodes, src, |src.files|)
      ensures Within(entries[root].nodes, src)
    {
      step := WriteFrame(root, src);
      if step.Done? { step := WriteFiles(root, src); }
    }

    /** `_write_candidate`. Below a fresh root no directory or file ever finds its parent missing or
        its name taken, so the run completes unless a call fails for a reason of the host's own; a finished
        run leaves exactly the candidate's tree and nothing else changed; an existing destination is left
        as it is. */
    method WriteCandidate(root: string, src: Source) returns (outcome: Written)
      requires Listing(src) && !failed
      modifies this
      ensures outcome.Complete? <==> root !in old(entries) && !failed
      ensures outcome.DestinationExists? <==> root in old(entries)
      ensures outcome.DestinationExists? ==> entries == old(entries)
      ensures outcome.Complete? ==>
        && root in entries && entries[root].Tree? && entries == old(entries)[root := entries[root]]
        && IsCandidate(entries[root].nodes, src, |src.files|)
      ensures outcome.Partial? ==> outcome.reason.Fault? && (outcome.created <==> root in entries)
      ensures outcome.Partial? ==>
        || entries == old(entries)
        || (root in entries && entries[root].Tree? && entries == old(entries)[root := entries[root]]
            && Within(entries[root].nodes, src))
    {
      if root in entries { return DestinationExists; }
      var made := Works();
      if !made { return Partial(false, Fault); }
      entries := entries[root := Tree(map[])];
      var checked := Works();
      if !checked { return Partial(true, Fault); }
      var step := Fill(root, src);
      outcome := if step.Done? then Complete else Partial(true, step);
    }
  }

  /** The tree holds the needed directories and nothing else. */
  ghost predicate AllDirectories(nodes: Nodes, src: Source) {
    forall p :: (p in nodes <==> Needed(p, src)) && (p in nodes ==> nodes[p].Directory?)
  }

  /** No name but `path` has appeared. */
  ghost predicate SameButFor(before: Nodes, after: Nodes, path: Path) {
    forall p | p in after :: p in before || p == path
  }

  lemma ReadyForFile(nodes: Nodes, src: Source, i: nat)
    requires Listing(src) && i < |src.files| && IsCandidate(nodes, src, i)
    ensures src.files[i] in src.files && src.files[i].mode < 0x200
    ensures ParentsPresent(nodes, Place(src, i)) && Place(src, i) !in nodes
  {
    var path := Place(src, i);
    assert src.files[i] in src.files;
    FileIsFree(src, i);
    assert !Name(path, src, i);
    forall k | 1 <= k < |path| ensures path[..k] in nodes && nodes[path[..k]].Directory? {
      assert Needed(path[..k], src);
    }
  }

  /** `Partial` is `_CandidateWriteError`; `created` is its `candidate_created`. */
  datatype Written = Complete | DestinationExists | Partial(created: bool, reason: Step)

  /** The tree holds exactly the needed directories, the manifest, and the first `done` captured files
      with their bytes and modes. */
  ghost predicate IsCandidate(nodes: Nodes, src: Source, done: nat)
    requires Listing(src) && done <= |src.files|
  {
    NamesAre(nodes, src, done) && HasContents(nodes, src, done)
  }

  ghost predicate NamesAre(nodes: Nodes, src: Source, done: nat)
    requires done <= |src.files|
  {
    forall p :: p in nodes <==> Name(p, src, done)
  }

  ghost predicate Name(p: Path, src: Source, done: nat)
    requires done <= |src.files|
  {
    || Needed(p, src) || p == ["plugin.json"]
    || exists i | 0 <= i < done :: p == Place(src, i)
  }

  ghost predicate HasContents(nodes: Nodes, src: Source, done: nat)
    requires Listing(src) && done <= |src.files|
  {
    && (forall p | Needed(p, src) :: p in nodes && nodes[p] == Directory)
    && ["plugin.json"] in nodes && nodes[["plugin.json"]] == Regular(src.manifest, 0x1A4)
    && (forall i | 0 <= i < done :: Place(src, i) in nodes && nodes[Place(src, i)] == FileNode(src, i))
  }

  /** Where the candidate keeps a captured file, and what it keeps there. */
  function Place(src: Source, i: nat): Path
    requires i < |src.files|
  {
    Wrap(src.skill, src.files[i].path)
  }

  function FileNode(src: Source, i: nat): Node
    requires Listing(src) && i < |src.files|
  {
    var f := src.files[i];
    assert f in src.files;
    Regular(src.payloads[f.path], f.mode)
  }

  /** Every name of a partial tree belongs to the candidate. */
  ghost predicate Within(nodes: Nodes, src: Source) {
    forall p | p in nodes ::
      Needed(p, src) || p == ["plugin.json"] || exists f | f in src.files :: p == Wrap(src.skill, f.path)
  }

  lemma ManifestIsFree(src: Source)
    ensures !Needed(["plugin.json"], src)
  {
    assert ["plugin.json"][0] == "plugin.json" != "skills";
  }

  lemma WrapPrefix(skill: string, a: Path, b: Path)
    ensures Wrap(skill, a) <= Wrap(skill, b) <==> a <= b
    ensures Wrap(skill, a) < Wrap(skill, b) <==> a < b
  {
    assert Wrap(skill, a)[2..] == a && Wrap(skill, b)[2..] == b;
    if a <= b { assert Wrap(skill, a) == Wrap(skill, b)[..|a| + 2]; }
    if Wrap(skill, a) <= Wrap(skill, b) { assert a == b[..|a|]; }
  }

  /** A captured file's name is no directory and no earlier file, and the directories above it are needed. */
  lemma FileIsFree(src: Source, i: nat)
    requires Listing(src) && i < |src.files|
    ensures var p := Place(src, i);
      && !Needed(p, src) && p != ["plugin.json"]
      && (forall j | 0 <= j < i :: p != Place(src, j))
      && (forall k | 1 <= k < |p| :: Needed(p[..k], src))
  {
    var f := src.files[i];
    var p := Wrap(src.skill, f.path);
    assert f in src.files && |p| >= 3;
    assert p[2..] == f.path;
    forall d | d in src.directories ensures !(p <= Wrap(src.skill, d)) { WrapPrefix(src.skill, f.path, d); }
    forall g | g in src.files ensures !(p < Wrap(src.skill, g.path)) { WrapPrefix(src.skill, f.path, g.path); }
    forall j | 0 <= j < i ensures p != Place(src, j) {
      assert Place(src, j)[2..] == src.files[j].path;
    }
    forall k | 1 <= k < |p| ensures Needed(p[..k], src) {
      assert p[..k] < Wrap(src.skill, f.path);
    }
  }

  lemma MoreContents(nodes: Nodes, src: Source, i: nat)
    requires Listing(src) && i < |src.files| && HasContents(nodes, src, i)
    ensures HasContents(nodes[Place(src, i) := FileNode(src, i)], src, i + 1)
  {
    FileIsFree(src, i);
  }

  lemma OneMoreFile(nodes: Nodes, src: Source, i: nat)
    requires Listing(src) && i < |src.files| && IsCandidate(nodes, src, i)
    ensures IsCandidate(nodes[Place(src, i) := FileNode(src, i)], src, i + 1)
  {
    MoreContents(nodes, src, i);
  }

  // ---- The destination is outside the source ----

  /** The directory `k` levels above; the root is its own parent. */
  function Above(up: nat -> nat, directory: nat, k: nat): nat
    decreases k
  {
    if k == 0 then directory else Above(up, up(directory), k - 1)
  }

  /** `_reject_source_ancestor`: walks physical parents up to the root. */
  method RejectSourceAncestor(up: nat -> nat, ghost height: nat -> nat, source: nat, parent: nat) returns (rejected: bool)
    requires forall d :: up(d) == d || height(up(d)) < height(d)
    ensures rejected <==> exists k: nat :: Above(up, parent, k) == source
  {
    var ancestor := parent;
    var previous := None;
    ghost var walked: nat := 0;
    while true
      invariant Above(up, parent, walked) == ancestor
      invariant forall k: nat | k < walked :: Above(up, parent, k) != source
      invariant previous.Some? ==> walked > 0 && Above(up, parent, walked - 1) == previous.value
      invariant previous.Some? ==> ancestor == up(previous.value)
      decreases height(ancestor), if previous == Some(ancestor) then 0 else 1
    {
      if ancestor == source { return true; }
      if previous == Some(ancestor) {
        AboveRoot(up, parent, walked);
        return false;
      }
      previous := Some(ancestor);
      OneLevelUp(up, parent, walked);
      ancestor := up(ancestor);
      walked := walked + 1;
    }
  }

  lemma {:induction false} OneLevelUp(up: nat -> nat, directory: nat, k: nat)
    ensures Above(up, directory, k + 1) == up(Above(up, directory, k))
    decreases k
  {
    if k == 0 {
    } else {
      OneLevelUp(up, up(directory), k - 1);
    }
  }

  lemma {:induction false} AboveRoot(up: nat -> nat, directory: nat, k: nat)
    requires up(Above(up, directory, k)) == Above(up, directory, k)
    ensures forall j: nat | j >= k :: Above(up, directory, j) == Above(up, directory, k)
  {
    forall j: nat | j >= k ensures Above(up, directory, j) == Above(up, directory, k) {
      StaysAtRoot(up, directory, k, j);
    }
  }

  lemma {:induction false} StaysAtRoot(up: nat -> nat, directory: nat, k: nat, j: nat)
    requires j >= k && up(Above(up, directory, k)) == Above(up, directory, k)
    ensures Above(up, directory, j) == Above(up, directory, k)
    decreases j
  {
    if j == k {
    } else {
      StaysAtRoot(up, directory, k, j - 1);
      OneLevelUp(up, directory, j - 1);
    }
  }
}
