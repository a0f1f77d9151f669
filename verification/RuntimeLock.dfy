/** The runtime lock: a list of entries that must behave as a finite map. */
module RuntimeLock {
  import opened Common
  import opened Text

  const NUL := '\0'

  datatype FileDigest = FileDigest(path: string, sha256: string)

  /** The byte stream that a candidate's content digest covers, file by file. */
  function Encode(files: seq<FileDigest>): string {
    if files == [] then []
    else files[0].path + [NUL] + (files[0].sha256 + [NUL] + Encode(files[1..]))
  }

  lemma FedOneMore(fed: string, path: string, sha256: string, rest: string)
    ensures fed + (path + [NUL] + (sha256 + [NUL] + rest)) == fed + path + [NUL] + sha256 + [NUL] + rest
  {
  }

  /** `candidate_content_sha256`: a digest updated in a loop. */
  method CandidateContent(files: seq<FileDigest>) returns (digest: Digest<string>)
    ensures digest == Sha256(Encode(files))
  {
    var fed := "";
    for i := 0 to |files|
      invariant fed + Encode(files[i..]) == Encode(files)
    {
      assert files[i..][0] == files[i] && files[i..][1..] == files[i + 1..];
      FedOneMore(fed, files[i].path, files[i].sha256, Encode(files[i + 1..]));
      fed := fed + files[i].path;
      fed := fed + [NUL];
      fed := fed + files[i].sha256;
      fed := fed + [NUL];
    }
    assert files[|files|..] == [] && fed + [] == fed;
    digest := Sha256(fed);
  }

  predicate NulFree(files: seq<FileDigest>) {
    forall f | f in files :: NUL !in f.path && NUL !in f.sha256
  }

  /** Equal content digests force equal file lists. */
  lemma {:induction false} EncodeInjective(a: seq<FileDigest>, b: seq<FileDigest>)
    requires NulFree(a) && NulFree(b) && Encode(a) == Encode(b)
    ensures a == b
  {
    if a != [] && b != [] {
      var x, y := a[0], b[0];
      SplitUnique(x.path, x.sha256 + [NUL] + Encode(a[1..]), y.path, y.sha256 + [NUL] + Encode(b[1..]), NUL);
      SplitUnique(x.sha256, Encode(a[1..]), y.sha256, Encode(b[1..]), NUL);
      EncodeInjective(a[1..], b[1..]);
    }
  }

  function Merge(path: string, sha256: string, rest: string): string {
    path + [NUL] + (sha256 + [NUL] + rest)
  }

  lemma MergeAssociates(p: string, h: string, m: string, k: string, q: string)
    ensures Merge(Merge(p, h, m), k, q) == Merge(p, h, Merge(m, k, q))
  {
    assert h + [NUL] + m + ([NUL] + (k + [NUL] + q)) == h + [NUL] + (m + [NUL] + (k + [NUL] + q));
    assert p + [NUL] + (h + [NUL] + m) + [NUL] + (k + [NUL] + q) == p + [NUL] + (h + [NUL] + m + ([NUL] + (k + [NUL] + q)));
  }

  /** Nothing in the path rule keeps NUL out of a path, and with a NUL two different lists can have
      the same encoding: every two-file list collides with a one-file list. */
  lemma NulPathsCollide(path: string, sha256: string, last: FileDigest)
    ensures Encode([FileDigest(path, sha256), last]) == Encode([FileDigest(Merge(path, sha256, last.path), last.sha256)])
  {
    var two := [FileDigest(path, sha256), last];
    var one := FileDigest(Merge(path, sha256, last.path), last.sha256);
    assert two[1..] == [last] && [last][1..] == [] && [one][1..] == [];
    assert Encode([last]) == last.path + [NUL] + (last.sha256 + [NUL] + []);
    assert Encode([one]) == one.path + [NUL] + (last.sha256 + [NUL] + []);
    assert Encode(two) == path + [NUL] + (sha256 + [NUL] + Encode([last]));
  }

  /** All files but the last digest, run together as one path. */
  function Merged(files: seq<FileDigest>): string
    requires files != []
  {
    if |files| == 1 then files[0].path else Merge(files[0].path, files[0].sha256, Merged(files[1..]))
  }

  lemma EncodeOne(file: FileDigest)
    ensures Encode([file]) == Merge(file.path, file.sha256, [])
  {
    assert [file][1..] == [];
  }

  /** A non-empty list has the encoding of the one file it merges to. */
  lemma {:induction false} MergedEncodes(files: seq<FileDigest>)
    requires files != []
    ensures Encode(files) == Merge(Merged(files), files[|files| - 1].sha256, [])
  {
    if |files| == 1 {
      assert files == [files[0]];
      EncodeOne(files[0]);
    } else {
      MergedEncodes(files[1..]);
      MergeAssociates(files[0].path, files[0].sha256, Merged(files[1..]), files[|files| - 1].sha256, []);
    }
  }

  /** A separator is the last one when only separator-free text and a final separator follow it. */
  lemma LastSplit(a: string, x: string, b: string, y: string)
    requires NUL !in x && NUL !in y && Merge(a, x, []) == Merge(b, y, [])
    ensures a == b && x == y
  {
    var s := Merge(a, x, []);
    assert s[|a|] == NUL && s[|b|] == NUL && |s| == |a| + |x| + 2 == |b| + |y| + 2;
    assert (forall i | |a| < i < |s| - 1 :: s[i] in x) && forall i | |b| < i < |s| - 1 :: s[i] in y;
    assert a == s[..|a|] && b == s[..|b|];
    assert x == s[|a| + 1..|s| - 1] && y == s[|b| + 1..|s| - 1];
  }

  ghost predicate Digests(files: seq<FileDigest>, isDigest: string -> bool) {
    forall f | f in files :: isDigest(f.sha256)
  }

  /** Another list, with digests of the same form, has the encoding of this one. */
  ghost predicate Collides(a: seq<FileDigest>, b: seq<FileDigest>, isDigest: string -> bool) {
    b != a && Digests(b, isDigest) && Encode(b) == Encode(a)
  }

  /** The path has a digest between separators. */
  ghost predicate Splits(path: string, p: string, h: string, q: string, isDigest: string -> bool) {
    isDigest(h) && path == Merge(p, h, q)
  }

  /** A one-file list has a colliding partner only when its path splits. */
  lemma CollisionSplits(x: FileDigest, b: seq<FileDigest>, isDigest: string -> bool)
    requires NUL !in x.sha256 && forall h: string | isDigest(h) :: NUL !in h
    requires Collides([x], b, isDigest)
    ensures |b| >= 2 && x.path == Merged(b) && Splits(x.path, b[0].path, b[0].sha256, Merged(b[1..]), isDigest)
  {
    EncodeOne(x);
    if b == [] {
    } else {
      var last := b[|b| - 1];
      assert last in b && b[0] in b && (|b| == 1 ==> b == [b[0]]);
      MergedEncodes(b);
      LastSplit(x.path, x.sha256, Merged(b), last.sha256);
    }
  }

  /** Exactly when a file list shares its encoding with another one: when it has two files or more, or
      its only path has a digest between separators. Digests are any texts without NUL. */
  lemma CollidesIff(a: seq<FileDigest>, isDigest: string -> bool)
    requires Digests(a, isDigest) && forall h: string | isDigest(h) :: NUL !in h
    ensures (exists b :: Collides(a, b, isDigest)) <==>
      |a| >= 2 || (|a| == 1 && exists p, h, q :: Splits(a[0].path, p, h, q, isDigest))
  {
    if |a| >= 2 {
      assert a[|a| - 1] in a;
      MergedEncodes(a);
      EncodeOne(FileDigest(Merged(a), a[|a| - 1].sha256));
      assert Collides(a, [FileDigest(Merged(a), a[|a| - 1].sha256)], isDigest);
    } else if |a| == 1 {
      assert a == [a[0]];
      if p, h, q :| Splits(a[0].path, p, h, q, isDigest) {
        NulPathsCollide(p, h, FileDigest(q, a[0].sha256));
        assert Collides(a, [FileDigest(p, h), FileDigest(q, a[0].sha256)], isDigest);
      }
      if b :| Collides(a, b, isDigest) { CollisionSplits(a[0], b, isDigest); }
    }
  }

  /** The same when the partner must be a valid list, without a repeated path: the two halves of a
      splitting path must differ. */
  lemma ValidCollidesIff(a: seq<FileDigest>, isDigest: string -> bool)
    requires Digests(a, isDigest) && forall h: string | isDigest(h) :: NUL !in h
    ensures (exists b :: Collides(a, b, isDigest) && UniquePaths(b)) <==>
      |a| >= 2 || (|a| == 1 && exists p, h, q :: Splits(a[0].path, p, h, q, isDigest) && p != q)
  {
    if |a| >= 2 {
      var b := [FileDigest(Merged(a), a[|a| - 1].sha256)];
      assert a[|a| - 1] in a;
      MergedEncodes(a);
      EncodeOne(b[0]);
      assert Collides(a, b, isDigest) && UniquePaths(b);
    } else if |a| == 1 {
      assert a == [a[0]];
      if p, h, q :| Splits(a[0].path, p, h, q, isDigest) && p != q {
        var b := [FileDigest(p, h), FileDigest(q, a[0].sha256)];
        NulPathsCollide(p, h, FileDigest(q, a[0].sha256));
        assert Collides(a, b, isDigest) && UniquePaths(b);
      }
      if b :| Collides(a, b, isDigest) && UniquePaths(b) {
        CollisionSplits(a[0], b, isDigest);
        SomeSplitDiffers(a[0].path, b, isDigest);
      }
    }
  }

  /** Two equal halves of three files or more can be split elsewhere. */
  lemma SomeSplitDiffers(path: string, b: seq<FileDigest>, isDigest: string -> bool)
    requires |b| >= 2 && path == Merged(b) && Digests(b, isDigest) && UniquePaths(b)
    ensures exists p, h, q :: Splits(path, p, h, q, isDigest) && p != q
  {
    var first, next, q := b[0], b[1], Merged(b[1..]);
    assert first in b && next in b;
    assert Splits(path, first.path, first.sha256, q, isDigest);
    if first.path == q && |b| > 2 {
      var tail := Merged(b[2..]);
      assert b[1..][1..] == b[2..] && q == Merge(next.path, next.sha256, tail);
      var after := Merge(tail, first.sha256, q);
      MergeAssociates(next.path, next.sha256, tail, first.sha256, q);
      assert Splits(path, next.path, next.sha256, after, isDigest) && next.path != after;
    }
  }

  datatype Candidate = Candidate(packageId: string, sourceRevision: string, content: Digest<string>)

  datatype Target = Target(scope: string, targetId: string)

  datatype Registry = Registry(registryId: string, namespace: string)

  datatype LockEntry = LockEntry(
    packageName: string, version: string, candidate: Candidate, packageDigest: string, registry: Registry,
    packageReceiptId: string, preparationReceiptId: string, target: Target, files: seq<FileDigest>)

  datatype Key = Key(scope: string, targetId: string, packageName: string)

  function KeyOf(entry: LockEntry): Key {
    Key(entry.target.scope, entry.target.targetId, entry.packageName)
  }

  predicate UniquePaths(files: seq<FileDigest>) {
    forall i, j | 0 <= i < j < |files| :: files[i].path != files[j].path
  }

  /** `RuntimeLockEntry.identity_and_files_are_consistent`. */
  predicate ConsistentEntry(entry: LockEntry) {
    && entry.packageName == entry.candidate.packageId && entry.files != []
    && UniquePaths(entry.files) && entry.candidate.content == Sha256(Encode(entry.files))
  }

  /** `RuntimeLock.entries_are_unique`. */
  predicate UniqueKeys(entries: seq<LockEntry>) {
    forall i, j | 0 <= i < j < |entries| :: KeyOf(entries[i]) != KeyOf(entries[j])
  }

  predicate ValidLock(entries: seq<LockEntry>) {
    UniqueKeys(entries) && forall e | e in entries :: ConsistentEntry(e)
  }

  predicate Has(entries: seq<LockEntry>, key: Key) {
    exists i | 0 <= i < |entries| :: KeyOf(entries[i]) == key
  }

  function Matching(entries: seq<LockEntry>, key: Key): seq<LockEntry> {
    if entries == [] then []
    else (if KeyOf(entries[0]) == key then [entries[0]] else []) + Matching(entries[1..], key)
  }

  /** The entries the planner proposes: replaced in place, or appended. */
  function Propose(entries: seq<LockEntry>, entry: LockEntry): seq<LockEntry> {
    var replaced := seq(|entries|, i requires 0 <= i < |entries| =>
      if KeyOf(entries[i]) == KeyOf(entry) then entry else entries[i]);
    if Matching(entries, KeyOf(entry)) == [] then replaced + [entry] else replaced
  }

  datatype Operation = Install | Update | NoChange

  function OperationOf(entries: seq<LockEntry>, entry: LockEntry): Operation {
    var matching := Matching(entries, KeyOf(entry));
    if matching == [entry] then NoChange else if matching != [] then Update else Install
  }

  // ---- The lock as a map ----

  ghost function AsMap(entries: seq<LockEntry>): map<Key, LockEntry>
    requires UniqueKeys(entries)
  {
    map i | 0 <= i < |entries| :: KeyOf(entries[i]) := entries[i]
  }

  lemma {:induction false} MatchingEmpty(entries: seq<LockEntry>, key: Key)
    ensures Matching(entries, key) == [] <==> !Has(entries, key)
  {
    if entries != [] {
      MatchingEmpty(entries[1..], key);
      if Has(entries[1..], key) {
        var i :| 0 <= i < |entries| - 1 && KeyOf(entries[1..][i]) == key;
        assert KeyOf(entries[i + 1]) == key;
      } else if KeyOf(entries[0]) != key {
        forall i | 0 <= i < |entries| ensures KeyOf(entries[i]) != key {
          if i > 0 { assert entries[i] == entries[1..][i - 1]; }
        }
      }
    }
  }

  lemma {:induction false} MatchingUnique(entries: seq<LockEntry>, i: nat)
    requires UniqueKeys(entries) && i < |entries|
    ensures Matching(entries, KeyOf(entries[i])) == [entries[i]]
  {
    var key := KeyOf(entries[i]);
    if i == 0 {
      MatchingEmpty(entries[1..], key);
    } else {
      MatchingUnique(entries[1..], i - 1);
      assert KeyOf(entries[0]) != key;
    }
  }

  /** Where each entry of the proposed lock comes from. */
  lemma ProposeShape(entries: seq<LockEntry>, entry: LockEntry)
    ensures var proposed := Propose(entries, entry);
      && |proposed| == |entries| + (if Has(entries, KeyOf(entry)) then 0 else 1)
      && (forall i | 0 <= i < |entries| ::
            && KeyOf(proposed[i]) == KeyOf(entries[i])
            && proposed[i] == if KeyOf(entries[i]) == KeyOf(entry) then entry else entries[i])
      && (!Has(entries, KeyOf(entry)) ==> proposed == entries + [entry])
      && Has(proposed, KeyOf(entry))
  {
    MatchingEmpty(entries, KeyOf(entry));
    var proposed := Propose(entries, entry);
    if Has(entries, KeyOf(entry)) {
      var i :| 0 <= i < |entries| && KeyOf(entries[i]) == KeyOf(entry);
      assert KeyOf(proposed[i]) == KeyOf(entry);
    } else {
      assert proposed[|entries|] == entry;
    }
  }

  lemma ProposeKeepsUnique(entries: seq<LockEntry>, entry: LockEntry)
    requires UniqueKeys(entries)
    ensures UniqueKeys(Propose(entries, entry))
  {
    ProposeShape(entries, entry);
  }

  lemma ProposeKeepsValid(entries: seq<LockEntry>, entry: LockEntry)
    requires ValidLock(entries) && ConsistentEntry(entry)
    ensures ValidLock(Propose(entries, entry))
  {
    ProposeKeepsUnique(entries, entry);
    ProposeShape(entries, entry);
    var proposed := Propose(entries, entry);
    forall e | e in proposed ensures ConsistentEntry(e) {
      var i :| 0 <= i < |proposed| && proposed[i] == e;
    }
  }

  lemma ProposedLookup(entries: seq<LockEntry>, entry: LockEntry, key: Key)
    requires UniqueKeys(entries) && UniqueKeys(Propose(entries, entry))
    requires key != KeyOf(entry) && key in AsMap(entries)
    ensures key in AsMap(Propose(entries, entry))
    ensures AsMap(Propose(entries, entry))[key] == AsMap(entries)[key]
  {
    var i :| 0 <= i < |entries| && KeyOf(entries[i]) == key;
    ProposeShape(entries, entry);
  }

  lemma ProposedEntry(entries: seq<LockEntry>, entry: LockEntry)
    requires UniqueKeys(entries) && UniqueKeys(Propose(entries, entry))
    ensures KeyOf(entry) in AsMap(Propose(entries, entry))
    ensures AsMap(Propose(entries, entry))[KeyOf(entry)] == entry
  {
    ProposeShape(entries, entry);
    var proposed := Propose(entries, entry);
    var i :| 0 <= i < |proposed| && KeyOf(proposed[i]) == KeyOf(entry);
  }

  ghost predicate SameExcept(left: map<Key, LockEntry>, right: map<Key, LockEntry>, key: Key) {
    && (forall k | k != key :: k in left <==> k in right)
    && (forall k | k != key && k in right && k in left :: left[k] == right[k])
  }

  lemma UpdatedMap(left: map<Key, LockEntry>, right: map<Key, LockEntry>, key: Key)
    requires SameExcept(left, right, key) && key in left
    ensures left == right[key := left[key]]
  {
  }

  lemma ProposedElsewhere(entries: seq<LockEntry>, entry: LockEntry)
    requires UniqueKeys(entries) && UniqueKeys(Propose(entries, entry))
    ensures SameExcept(AsMap(Propose(entries, entry)), AsMap(entries), KeyOf(entry))
  {
    var left, right := AsMap(Propose(entries, entry)), AsMap(entries);
    forall k | k != KeyOf(entry) ensures k in left <==> k in right {
      HasAfter(entries, entry, k);
    }
    forall k | k != KeyOf(entry) && k in right && k in left ensures left[k] == right[k] {
      ProposedLookup(entries, entry, k);
    }
  }

  /** One planned install is one update of the map. */
  lemma ProposeRefinesUpdate(entries: seq<LockEntry>, entry: LockEntry)
    requires UniqueKeys(entries)
    ensures UniqueKeys(Propose(entries, entry))
    ensures AsMap(Propose(entries, entry)) == AsMap(entries)[KeyOf(entry) := entry]
  {
    ProposeKeepsUnique(entries, entry);
    ProposedEntry(entries, entry);
    ProposedElsewhere(entries, entry);
    UpdatedMap(AsMap(Propose(entries, entry)), AsMap(entries), KeyOf(entry));
  }

  /** The operation says `NoChange` exactly when the proposed lock is the current one. */
  lemma NoChangeIffUnchanged(entries: seq<LockEntry>, entry: LockEntry)
    requires UniqueKeys(entries)
    ensures OperationOf(entries, entry).NoChange? <==> Propose(entries, entry) == entries
    ensures OperationOf(entries, entry).Install? <==> !Has(entries, KeyOf(entry))
  {
    ProposeShape(entries, entry);
    MatchingEmpty(entries, KeyOf(entry));
    if Has(entries, KeyOf(entry)) {
      var i :| 0 <= i < |entries| && KeyOf(entries[i]) == KeyOf(entry);
      MatchingUnique(entries, i);
      if entries[i] != entry { assert Propose(entries, entry)[i] != entries[i]; }
    }
  }

  /** The operation, read off the lock's map: a new key, another entry under it, or the same one. */
  lemma OperationMeans(entries: seq<LockEntry>, entry: LockEntry)
    requires UniqueKeys(entries)
    ensures OperationOf(entries, entry)
      == if KeyOf(entry) !in AsMap(entries) then Install
         else if AsMap(entries)[KeyOf(entry)] == entry then NoChange
         else Update
  {
    NoChangeIffUnchanged(entries, entry);
    ProposeRefinesUpdate(entries, entry);
    if Has(entries, KeyOf(entry)) {
      var i :| 0 <= i < |entries| && KeyOf(entries[i]) == KeyOf(entry);
      MatchingUnique(entries, i);
    }
  }

  /** Planning the same install again changes nothing. */
  lemma ReplanIsNoChange(entries: seq<LockEntry>, entry: LockEntry)
    requires UniqueKeys(entries)
    ensures OperationOf(Propose(entries, entry), entry).NoChange?
    ensures Propose(Propose(entries, entry), entry) == Propose(entries, entry)
  {
    ProposeShape(entries, entry);
    ProposeRefinesUpdate(entries, entry);
    var once := Propose(entries, entry);
    ProposeShape(once, entry);
    assert Propose(once, entry) == once;
    NoChangeIffUnchanged(once, entry);
  }

  function ProposeAll(entries: seq<LockEntry>, plans: seq<LockEntry>): seq<LockEntry>
    decreases |plans|
  {
    if plans == [] then entries else Propose(ProposeAll(entries, plans[..|plans| - 1]), plans[|plans| - 1])
  }

  function UpdateAll(m: map<Key, LockEntry>, plans: seq<LockEntry>): map<Key, LockEntry>
    decreases |plans|
  {
    if plans == [] then m
    else UpdateAll(m, plans[..|plans| - 1])[KeyOf(plans[|plans| - 1]) := plans[|plans| - 1]]
  }

  /** Over any run of planned installs the list is a valid lock and refines the map with the same
      updates, so the last planned entry of a key wins and no other key changes. */
  lemma {:induction false} RunRefinesMap(entries: seq<LockEntry>, plans: seq<LockEntry>)
    requires UniqueKeys(entries)
    ensures UniqueKeys(ProposeAll(entries, plans))
    ensures AsMap(ProposeAll(entries, plans)) == UpdateAll(AsMap(entries), plans)
    ensures ValidLock(entries) && (forall e | e in plans :: ConsistentEntry(e)) ==> ValidLock(ProposeAll(entries, plans))
    decreases |plans|
  {
    if plans == [] {
    } else {
      var front, last := plans[..|plans| - 1], plans[|plans| - 1];
      assert last in plans && forall e | e in front :: e in plans;
      RunRefinesMap(entries, front);
      ProposeRefinesUpdate(ProposeAll(entries, front), last);
      if ValidLock(ProposeAll(entries, front)) && ConsistentEntry(last) {
        ProposeKeepsValid(ProposeAll(entries, front), last);
      }
    }
  }

  /** Over any run, entries whose key is never planned keep their value and their relative order: the
      first `|entries|` places hold the same keys as at the start, and new keys come after them. */
  lemma {:induction false} RunKeepsPlaces(entries: seq<LockEntry>, plans: seq<LockEntry>)
    requires UniqueKeys(entries)
    ensures var final := ProposeAll(entries, plans);
      && |entries| <= |final|
      && (forall i | 0 <= i < |entries| :: KeyOf(final[i]) == KeyOf(entries[i]))
      && (forall i | 0 <= i < |entries| ::
            (forall p | p in plans :: KeyOf(p) != KeyOf(entries[i])) ==> final[i] == entries[i])
    decreases |plans|
  {
    if plans == [] {
    } else {
      var front, last := plans[..|plans| - 1], plans[|plans| - 1];
      assert last in plans && forall e | e in front :: e in plans;
      RunKeepsPlaces(entries, front);
      ProposeShape(ProposeAll(entries, front), last);
    }
  }

  /** Plans for different keys commute as maps; as lists they commute exactly when at least one of
      the two keys is already in the lock. */
  lemma PlansCommute(entries: seq<LockEntry>, a: LockEntry, b: LockEntry)
    requires UniqueKeys(entries) && KeyOf(a) != KeyOf(b)
    ensures UniqueKeys(Propose(Propose(entries, a), b)) && UniqueKeys(Propose(Propose(entries, b), a))
    ensures AsMap(Propose(Propose(entries, a), b)) == AsMap(Propose(Propose(entries, b), a))
    ensures Propose(Propose(entries, a), b) == Propose(Propose(entries, b), a)
      <==> Has(entries, KeyOf(a)) || Has(entries, KeyOf(b))
  {
    TwoUpdates(entries, a, b);
    TwoUpdates(entries, b, a);
    UpdatesCommute(AsMap(entries), KeyOf(a), a, KeyOf(b), b);
    PlacesCommute(entries, a, b);
  }

  lemma TwoUpdates(entries: seq<LockEntry>, a: LockEntry, b: LockEntry)
    requires UniqueKeys(entries)
    ensures UniqueKeys(Propose(Propose(entries, a), b))
    ensures AsMap(Propose(Propose(entries, a), b)) == AsMap(entries)[KeyOf(a) := a][KeyOf(b) := b]
  {
    ProposeRefinesUpdate(entries, a);
    ProposeRefinesUpdate(Propose(entries, a), b);
  }

  lemma UpdatesCommute<K, V>(m: map<K, V>, j: K, v: V, k: K, w: V)
    requires j != k
    ensures m[j := v][k := w] == m[k := w][j := v]
  {
  }

  lemma PlacesCommute(entries: seq<LockEntry>, a: LockEntry, b: LockEntry)
    requires KeyOf(a) != KeyOf(b)
    ensures Propose(Propose(entries, a), b) == Propose(Propose(entries, b), a)
      <==> Has(entries, KeyOf(a)) || Has(entries, KeyOf(b))
  {
    if Has(entries, KeyOf(a)) {
      PlacesCommuteWhenPresent(entries, a, b);
    } else if Has(entries, KeyOf(b)) {
      PlacesCommuteWhenPresent(entries, b, a);
    } else {
      TwoAppends(entries, a, b);
      TwoAppends(entries, b, a);
      assert (entries + [a, b])[|entries|] != (entries + [b, a])[|entries|];
    }
  }

  lemma TwoAppends(entries: seq<LockEntry>, a: LockEntry, b: LockEntry)
    requires KeyOf(a) != KeyOf(b) && !Has(entries, KeyOf(a)) && !Has(entries, KeyOf(b))
    ensures Propose(Propose(entries, a), b) == entries + [a, b]
  {
    ProposeShape(entries, a);
    HasAfter(entries, a, KeyOf(b));
    ProposeShape(Propose(entries, a), b);
    assert entries + [a] + [b] == entries + [a, b];
  }

  lemma PlaceAfterTwo(entries: seq<LockEntry>, a: LockEntry, b: LockEntry, i: nat)
    requires KeyOf(a) != KeyOf(b) && i < |entries|
    ensures i < |Propose(Propose(entries, a), b)|
    ensures Propose(Propose(entries, a), b)[i]
      == if KeyOf(entries[i]) == KeyOf(a) then a else if KeyOf(entries[i]) == KeyOf(b) then b else entries[i]
  {
    ProposeShape(entries, a);
    ProposeShape(Propose(entries, a), b);
  }

  lemma SizeAfterTwo(entries: seq<LockEntry>, a: LockEntry, b: LockEntry)
    requires KeyOf(a) != KeyOf(b) && Has(entries, KeyOf(a))
    ensures |Propose(Propose(entries, a), b)| == |Propose(Propose(entries, b), a)|
    ensures |Propose(Propose(entries, a), b)| == |entries| + if Has(entries, KeyOf(b)) then 0 else 1
    ensures !Has(entries, KeyOf(b)) ==>
      Propose(Propose(entries, a), b)[|entries|] == b == Propose(Propose(entries, b), a)[|entries|]
  {
    ProposeShape(entries, a);
    ProposeShape(entries, b);
    HasAfter(entries, a, KeyOf(b));
    HasAfter(entries, b, KeyOf(a));
    ProposeShape(Propose(entries, a), b);
    ProposeShape(Propose(entries, b), a);
  }

  lemma PlacesCommuteWhenPresent(entries: seq<LockEntry>, a: LockEntry, b: LockEntry)
    requires KeyOf(a) != KeyOf(b) && Has(entries, KeyOf(a))
    ensures Propose(Propose(entries, a), b) == Propose(Propose(entries, b), a)
  {
    var ab, ba := Propose(Propose(entries, a), b), Propose(Propose(entries, b), a);
    SizeAfterTwo(entries, a, b);
    forall i | 0 <= i < |ab| ensures ab[i] == ba[i] {
      if i < |entries| {
        PlaceAfterTwo(entries, a, b, i);
        PlaceAfterTwo(entries, b, a, i);
      }
    }
  }

  lemma HasAfter(entries: seq<LockEntry>, entry: LockEntry, key: Key)
    requires key != KeyOf(entry)
    ensures Has(Propose(entries, entry), key) <==> Has(entries, key)
  {
    ProposeShape(entries, entry);
    var proposed := Propose(entries, entry);
    if Has(entries, key) {
      var i :| 0 <= i < |entries| && KeyOf(entries[i]) == key;
      assert KeyOf(proposed[i]) == key;
    }
    if Has(proposed, key) {
      var i :| 0 <= i < |proposed| && KeyOf(proposed[i]) == key;
      assert i < |entries|;
    }
  }
}
