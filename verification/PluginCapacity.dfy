/** The wrapped plugin as its validator will see it: the expected listing and the reserved capacity. */
module PluginCapacity {
  import opened Common
  import opened Paths
  import opened PluginTree

  // ---- The listing the validator expects ----

  /** The sort key of a captured file: its path as text. */
  predicate ByText(a: Captured, b: Captured) {
    Less(Join(a.path), Join(b.path))
  }

  lemma TextOrder()
    ensures Transitive(ByText) && forall f :: !ByText(f, f)
  {
    forall a, b, c | ByText(a, b) && ByText(b, c) ensures ByText(a, c) {
      LessTransitive(Join(a.path), Join(b.path), Join(c.path));
    }
    forall f ensures !ByText(f, f) { LessIrreflexive(Join(f.path)); }
  }

  function ManifestRecord(manifest: Bytes): Captured {
    Captured(["plugin.json"], Sha256(manifest), |manifest|, 0x1A4)
  }

  function Wrapped(src: Source, i: nat): Captured
    requires i < |src.files|
  {
    src.files[i].(path := Place(src, i))
  }

  /** The manifest's record and the first `done` captured records, moved below the skill. */
  ghost predicate Expected(r: Captured, src: Source, done: nat)
    requires done <= |src.files|
  {
    r == ManifestRecord(src.manifest) || exists i | 0 <= i < done :: r == Wrapped(src, i)
  }

  /** What the capture of the source guarantees of its payloads. */
  predicate Faithful(src: Source) {
    forall f | f in src.files ::
      f.path in src.payloads && f.digest == Sha256(src.payloads[f.path]) && f.size == |src.payloads[f.path]| <= MAX_FILE_BYTES
  }

  /** `_expected_plugin_files`. */
  method ExpectedPluginFiles(src: Source)
      returns (expected: seq<Captured>)
    requires Listing(src)
    ensures Sorted(expected, ByText)
    ensures forall r :: r in expected <==> Expected(r, src, |src.files|)
  {
    expected := [ManifestRecord(src.manifest)];
    for i := 0 to |src.files|
      invariant Sorted(expected, ByText)
      invariant forall r :: r in expected <==> Expected(r, src, i)
    {
      var record := Wrapped(src, i);
      TextOrder();
      forall r | r in expected ensures ByText(r, record) || ByText(record, r) {
        RecordsCompare(r, src, i);
      }
      InsertSorted(expected, record, ByText);
      forall r ensures r in Insert(expected, record, ByText) <==> r in expected || r == record {
        InsertMembers(expected, record, ByText, r);
      }
      expected := Insert(expected, record, ByText);
    }
  }

  lemma WrapProper(skill: string, path: Path)
    requires Proper([skill]) && Proper(path)
    ensures Proper(Wrap(skill, path))
  {
    assert skill in [skill];
    assert forall name | name in Wrap(skill, path) :: name in path || name == "skills" || name == skill;
  }

  lemma RecordsCompare(r: Captured, src: Source, i: nat)
    requires Listing(src) && i < |src.files|
    requires Expected(r, src, i)
    ensures var record := Wrapped(src, i); ByText(r, record) || ByText(record, r)
  {
    assert src.files[i] in src.files;
    WrapProper(src.skill, src.files[i].path);
    if r == ManifestRecord(src.manifest) {
      DistinctPathsCompare(r.path, Place(src, i));
    } else {
      var j :| 0 <= j < i && r == Wrapped(src, j);
      assert src.files[j] in src.files && src.files[j].path != src.files[i].path;
      WrapProper(src.skill, src.files[j].path);
      WrapPrefix(src.skill, src.files[i].path, src.files[j].path);
      DistinctPathsCompare(r.path, Place(src, i));
    }
  }

  /** The record a capture of the tree makes of a regular file. */
  ghost predicate RecordOf(r: Captured, nodes: Nodes) {
    && r.path in nodes && nodes[r.path].Regular?
    && r.digest == Sha256(nodes[r.path].bytes) && r.size == |nodes[r.path].bytes| && r.mode == nodes[r.path].mode
  }

  /** A capture of the finished candidate, in path order, is exactly the expected listing. */
  lemma CaptureIsExpected(nodes: Nodes, src: Source, expected: seq<Captured>, captured: seq<Captured>)
    requires Listing(src) && Faithful(src)
    requires IsCandidate(nodes, src, |src.files|)
    requires Sorted(expected, ByText) && forall r ::
      r in expected <==> Expected(r, src, |src.files|)
    requires Sorted(captured, ByText) && forall r :: r in captured <==> RecordOf(r, nodes)
    ensures captured == expected
  {
    forall r ensures r in captured <==> r in expected {
      RecordIsExpected(r, nodes, src);
    }
    TextOrder();
    SortedUnique(captured, expected, ByText);
  }

  lemma RecordIsExpected(r: Captured, nodes: Nodes, src: Source)
    requires Listing(src) && Faithful(src)
    requires IsCandidate(nodes, src, |src.files|)
    ensures RecordOf(r, nodes) <==> Expected(r, src, |src.files|)
  {
    if RecordOf(r, nodes) && r.path != ["plugin.json"] {
      assert Name(r.path, src, |src.files|) && !Needed(r.path, src);
      var i :| 0 <= i < |src.files| && r.path == Place(src, i);
      assert src.files[i] in src.files && nodes[r.path] == FileNode(src, i);
      assert r == Wrapped(src, i);
    }
    if exists i | 0 <= i < |src.files| :: r == Wrapped(src, i) {
      var i :| 0 <= i < |src.files| && r == Wrapped(src, i);
      assert src.files[i] in src.files && nodes[r.path] == FileNode(src, i);
    }
  }

  // ---- Capacity ----

  const MAX_FILE_BYTES: nat := 16 * 1024 * 1024
  const MAX_TOTAL_BYTES: nat := 64 * 1024 * 1024
  const MAX_FILES: nat := 1024
  const MAX_RESOURCES: nat := 2048
  const MAX_DEPTH: nat := 64

  ghost function Pick(nodes: Nodes): (p: Path)
    requires nodes != map[]
    ensures p in nodes
  {
    assert exists p :: p in nodes by {
      assert nodes.Keys != {};
    }
    var p :| p in nodes;
    p
  }

  /** The sum of a weight over all the nodes of a tree. */
  ghost function Total(nodes: Nodes, weight: Node -> nat): nat
    decreases |nodes|
  {
    if nodes == map[] then 0
    else
      var p := Pick(nodes);
      assert |nodes - {p}| < |nodes|;
      weight(nodes[p]) + Total(nodes - {p}, weight)
  }

  lemma {:induction false} TotalWithout(nodes: Nodes, weight: Node -> nat, p: Path)
    requires p in nodes
    ensures Total(nodes, weight) == weight(nodes[p]) + Total(nodes - {p}, weight)
    decreases |nodes|
  {
    var q := Pick(nodes);
    if q == p {
    } else {
      TotalWithout(nodes - {q}, weight, p);
      TotalWithout(nodes - {p}, weight, q);
      assert nodes - {q} - {p} == nodes - {p} - {q};
    }
  }

  function FileWeight(node: Node): nat { if node.Regular? then 1 else 0 }

  function ByteWeight(node: Node): nat { if node.Regular? then |node.bytes| else 0 }

  function Sizes(files: seq<Captured>, n: nat): nat
    requires n <= |files|
  {
    if n == 0 then 0 else Sizes(files, n - 1) + files[n - 1].size
  }

  // ---- The sum over a tree, by any list of its names ----

  ghost predicate Lists(names: seq<Path>, nodes: Nodes) {
    Distinct(names) && forall p :: p in names <==> p in nodes
  }

  ghost function Sum(nodes: Nodes, names: seq<Path>, weight: Node -> nat): nat
    requires forall p | p in names :: p in nodes
  {
    if names == [] then 0
    else
      var n := |names| - 1;
      Sum(nodes, names[..n], weight) + weight(nodes[names[n]])
  }

  lemma {:induction false} SumWithout(nodes: Nodes, names: seq<Path>, weight: Node -> nat, p: Path)
    requires (forall q | q in names :: q in nodes) && p !in names
    ensures (forall q | q in names :: q in nodes - {p}) && Sum(nodes - {p}, names, weight) == Sum(nodes, names, weight)
  {
    if names == [] {
    } else {
      SumWithout(nodes, names[..|names| - 1], weight, p);
    }
  }

  lemma {:induction false} TotalIsSum(nodes: Nodes, names: seq<Path>, weight: Node -> nat)
    requires Lists(names, nodes)
    ensures Total(nodes, weight) == Sum(nodes, names, weight)
    decreases |names|
  {
    if names == [] {
      assert nodes == map[];
    } else {
      var front, last := names[..|names| - 1], names[|names| - 1];
      TotalIsSum(nodes - {last}, front, weight);
      SumWithout(nodes, front, weight, last);
      TotalWithout(nodes, weight, last);
    }
  }

  lemma {:induction false} SumAppend(nodes: Nodes, a: seq<Path>, b: seq<Path>, weight: Node -> nat)
    requires forall p | p in a + b :: p in nodes
    ensures (forall p | p in a :: p in nodes) && (forall p | p in b :: p in nodes)
    ensures Sum(nodes, a + b, weight) == Sum(nodes, a, weight) + Sum(nodes, b, weight)
    decreases |b|
  {
    assert (forall p | p in a :: p in a + b) && forall p | p in b :: p in a + b;
    if b == [] {
      assert a + b == a;
    } else {
      var n := |b| - 1;
      assert a + b == a + b[..n] + [b[n]] && (a + b)[..|a| + n] == a + b[..n];
      SumAppend(nodes, a, b[..n], weight);
    }
  }

  lemma {:induction false} DirectoriesWeighNothing(nodes: Nodes, names: seq<Path>)
    requires forall p | p in names :: p in nodes && nodes[p].Directory?
    ensures Sum(nodes, names, FileWeight) == 0 && Sum(nodes, names, ByteWeight) == 0
  {
    if names == [] {
    } else {
      DirectoriesWeighNothing(nodes, names[..|names| - 1]);
    }
  }

  /** These names are files of these sizes. */
  ghost predicate HoldsFiles(nodes: Nodes, names: seq<Path>, files: seq<Captured>) {
    && |names| == |files|
    && forall i | 0 <= i < |names| ::
         names[i] in nodes && nodes[names[i]].Regular? && |nodes[names[i]].bytes| == files[i].size
  }

  lemma {:induction false} FilesWeigh(nodes: Nodes, names: seq<Path>, files: seq<Captured>)
    requires HoldsFiles(nodes, names, files)
    ensures forall p | p in names :: p in nodes
    ensures Sum(nodes, names, FileWeight) == |files| && Sum(nodes, names, ByteWeight) == Sizes(files, |files|)
  {
    if names == [] {
    } else {
      var n := |names| - 1;
      FilesWeigh(nodes, names[..n], files[..n]);
      SizesOfFront(files, n);
    }
  }

  lemma {:induction false} SizesOfFront(files: seq<Captured>, n: nat)
    requires n < |files|
    ensures Sizes(files[..n], n) == Sizes(files, n)
  {
    SizesAgree(files[..n], files, n);
  }

  lemma {:induction false} SizesAgree(a: seq<Captured>, b: seq<Captured>, n: nat)
    requires n <= |a| && n <= |b| && forall i | 0 <= i < n :: a[i] == b[i]
    ensures Sizes(a, n) == Sizes(b, n)
  {
    if n == 0 {
    } else {
      SizesAgree(a, b, n - 1);
    }
  }

  // ---- The names of a candidate ----

  function Places(src: Source): seq<Path> {
    seq(|src.files|, i requires 0 <= i < |src.files| => Place(src, i))
  }

  function NamesOf(src: Source, paths: seq<Path>): seq<Path> {
    paths + ([["plugin.json"]] + Places(src))
  }

  lemma PlacesAreFree(src: Source)
    requires Listing(src)
    ensures Distinct(Places(src))
    ensures forall p | p in Places(src) :: !Needed(p, src) && p != ["plugin.json"]
  {
    forall i, j | 0 <= i < j < |src.files| ensures Places(src)[i] != Places(src)[j] { FileIsFree(src, j); }
    forall p | p in Places(src) ensures !Needed(p, src) && p != ["plugin.json"] {
      var i :| 0 <= i < |src.files| && p == Place(src, i);
      FileIsFree(src, i);
    }
  }

  lemma NamesAreDistinct(src: Source, paths: seq<Path>)
    requires Listing(src) && Distinct(paths) && forall p :: p in paths <==> Needed(p, src)
    ensures Distinct(NamesOf(src, paths))
  {
    PlacesAreFree(src);
    ManifestIsFree(src);
    DistinctAppend([["plugin.json"]], Places(src));
    DistinctAppend(paths, [["plugin.json"]] + Places(src));
  }

  lemma CandidateIsListed(nodes: Nodes, src: Source, paths: seq<Path>)
    requires Listing(src) && NamesAre(nodes, src, |src.files|)
    requires Distinct(paths) && forall p :: p in paths <==> Needed(p, src)
    ensures Lists(NamesOf(src, paths), nodes)
  {
    NamesAreDistinct(src, paths);
    forall p ensures p in NamesOf(src, paths) <==> p in nodes {
      if i :| 0 <= i < |src.files| && p == Place(src, i) { assert Places(src)[i] == p; }
      assert p in nodes <==> Name(p, src, |src.files|);
    }
  }

  lemma SumOfCandidate(nodes: Nodes, src: Source, paths: seq<Path>, weight: Node -> nat)
    requires Lists(NamesOf(src, paths), nodes)
    ensures (forall p | p in paths :: p in nodes) && (forall p | p in Places(src) :: p in nodes) && ["plugin.json"] in nodes
    ensures Total(nodes, weight) == Sum(nodes, paths, weight) + weight(nodes[["plugin.json"]]) + Sum(nodes, Places(src), weight)
  {
    TotalIsSum(nodes, NamesOf(src, paths), weight);
    SumAppend(nodes, paths, [["plugin.json"]] + Places(src), weight);
    SumAppend(nodes, [["plugin.json"]], Places(src), weight);
    assert ["plugin.json"] in NamesOf(src, paths);
    assert [["plugin.json"]][..0] == [];
  }

  /** A candidate holds its directories, its manifest and its files: nothing is counted twice. */
  lemma CandidateMeasures(nodes: Nodes, src: Source, paths: seq<Path>)
    requires Listing(src) && Faithful(src) && IsCandidate(nodes, src, |src.files|)
    requires Distinct(paths) && forall p :: p in paths <==> Needed(p, src)
    ensures Total(nodes, FileWeight) == |src.files| + 1
    ensures Total(nodes, ByteWeight) == Sizes(src.files, |src.files|) + |src.manifest|
    ensures |nodes| == |paths| + |src.files| + 1
  {
    CandidateIsListed(nodes, src, paths);
    SetOfPaths(NamesOf(src, paths), nodes.Keys);
    SumOfCandidate(nodes, src, paths, FileWeight);
    SumOfCandidate(nodes, src, paths, ByteWeight);
    DirectoriesWeighNothing(nodes, paths);
    FilesWeigh(nodes, Places(src), src.files);
  }

  lemma {:induction false} SetOfPaths(paths: seq<Path>, members: set<Path>)
    requires Distinct(paths) && forall p :: p in members <==> p in paths
    ensures |members| == |paths|
  {
    if paths == [] {
      assert members == {};
    } else {
      var rest := paths[1..];
      assert paths[0] in paths && forall i | 0 <= i < |rest| :: rest[i] == paths[i + 1];
      SetOfPaths(rest, members - {paths[0]});
    }
  }

  /** What `plugin_capture` admits of a tree. */
  ghost predicate WithinCapture(nodes: Nodes) {
    && (forall p | p in nodes && nodes[p].Regular? :: |nodes[p].bytes| <= MAX_FILE_BYTES)
    && Total(nodes, FileWeight) <= MAX_FILES
    && Total(nodes, ByteWeight) <= MAX_TOTAL_BYTES
    && |nodes| <= MAX_RESOURCES
    && (forall p | p in nodes && nodes[p].Directory? :: |p| <= MAX_DEPTH)
  }

  /** `_fits_wrapped_capture` answers, before anything is written, whether the finished tree is within
      the capture's own bounds. */
  method FitsWrappedCapture(src: Source) returns (fits: bool)
    requires Listing(src) && Faithful(src)
    ensures forall nodes | IsCandidate(nodes, src, |src.files|) ::
      fits <==> WithinCapture(nodes)
  {
    var paths := DirectoryPaths(src);
    SortedIsParentFirst(paths, src);
    var deepest := 0;
    for i := 0 to |paths|
      invariant forall j | 0 <= j < i :: |paths[j]| <= deepest
      invariant deepest == 0 || exists j | 0 <= j < i :: |paths[j]| == deepest
    {
      if |paths[i]| > deepest { deepest := |paths[i]|; }
    }
    var total := 0;
    for i := 0 to |src.files|
      invariant total == Sizes(src.files, i)
    {
      total := total + src.files[i].size;
    }
    fits := |src.manifest| <= MAX_FILE_BYTES && |src.files| + 1 <= MAX_FILES && total + |src.manifest| <= MAX_TOTAL_BYTES
      && |src.files| + 1 + |paths| <= MAX_RESOURCES && deepest <= MAX_DEPTH;
    forall nodes | IsCandidate(nodes, src, |src.files|) ensures fits <==> WithinCapture(nodes) {
      CaptureBounds(nodes, src, paths, deepest);
    }
  }

  /** The captured files are small already, so only the manifest can be too large. */
  lemma FilesAreSmall(nodes: Nodes, src: Source)
    requires Listing(src) && Faithful(src) && IsCandidate(nodes, src, |src.files|)
    ensures (forall p | p in nodes && nodes[p].Regular? :: |nodes[p].bytes| <= MAX_FILE_BYTES)
      <==> |src.manifest| <= MAX_FILE_BYTES
  {
    assert nodes[["plugin.json"]].bytes == src.manifest;
    forall p | p in nodes && nodes[p].Regular? && p != ["plugin.json"] ensures |nodes[p].bytes| <= MAX_FILE_BYTES {
      assert Name(p, src, |src.files|);
      var i :| 0 <= i < |src.files| && p == Place(src, i);
      assert nodes[Place(src, i)] == FileNode(src, i) && src.files[i] in src.files;
    }
  }

  lemma CaptureBounds(nodes: Nodes, src: Source, paths: seq<Path>, deepest: nat)
    requires Listing(src) && Faithful(src) && IsCandidate(nodes, src, |src.files|)
    requires Distinct(paths) && forall p :: p in paths <==> Needed(p, src)
    requires forall j | 0 <= j < |paths| :: |paths[j]| <= deepest
    requires deepest == 0 || exists j | 0 <= j < |paths| :: |paths[j]| == deepest
    ensures WithinCapture(nodes) <==>
      && |src.manifest| <= MAX_FILE_BYTES && |src.files| + 1 <= MAX_FILES
      && Sizes(src.files, |src.files|) + |src.manifest| <= MAX_TOTAL_BYTES
      && |src.files| + 1 + |paths| <= MAX_RESOURCES && deepest <= MAX_DEPTH
  {
    CandidateMeasures(nodes, src, paths);
    DepthWithin(nodes, src, paths, deepest);
    FilesAreSmall(nodes, src);
  }

  lemma DepthWithin(nodes: Nodes, src: Source, paths: seq<Path>, deepest: nat)
    requires Listing(src) && Faithful(src)
    requires IsCandidate(nodes, src, |src.files|)
    requires forall p :: p in paths <==> Needed(p, src)
    requires forall j | 0 <= j < |paths| :: |paths[j]| <= deepest
    requires deepest == 0 || exists j | 0 <= j < |paths| :: |paths[j]| == deepest
    ensures (forall p | p in nodes && nodes[p].Directory? :: |p| <= MAX_DEPTH) <==> deepest <= MAX_DEPTH
  {
    forall p | p in nodes && nodes[p].Directory? ensures |p| <= deepest {
      assert Name(p, src, |src.files|);
      assert p in paths;
    }
    if deepest > MAX_DEPTH {
      var j :| 0 <= j < |paths| && |paths[j]| == deepest;
      var p := paths[j];
      assert p in paths && Name(p, src, |src.files|);
      assert nodes[p].Directory? && |p| > MAX_DEPTH;
    }
  }
}
