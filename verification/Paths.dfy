/** Relative paths, Python's order on strings, and sorting. */
module Paths {
  import opened Text

  /** A relative path is its list of names. */
  type Path = seq<string>

  predicate Proper(path: Path) {
    path != [] && forall name | name in path :: name != "" && '/' !in name
  }

  function Join(path: Path): string {
    if path == [] then "" else if |path| == 1 then path[0] else path[0] + ['/'] + Join(path[1..])
  }

  /** Names hold no slash, so a joined path can be taken apart in one way only. */
  lemma {:induction false} JoinInjective(a: Path, b: Path)
    requires Proper(a) && Proper(b) && Join(a) == Join(b)
    ensures a == b
  {
    SlashMeansNested(a);
    SlashMeansNested(b);
    if |a| == 1 {
    } else {
      assert a[0] in a && b[0] in b;
      SplitUnique(a[0], Join(a[1..]), b[0], Join(b[1..]), '/');
      assert (forall name | name in a[1..] :: name in a) && (forall name | name in b[1..] :: name in b);
      JoinInjective(a[1..], b[1..]);
    }
  }

  lemma SlashMeansNested(path: Path)
    requires Proper(path)
    ensures '/' in Join(path) <==> |path| > 1
  {
    assert path[0] in path;
    if |path| > 1 { assert Join(path)[|path[0]|] == '/'; }
  }

  // ---- Sorting ----

  /** Python's order on strings: by code point, a proper prefix first. */
  predicate Less(a: string, b: string) {
    b != "" && (a == "" || a[0] < b[0] || (a[0] == b[0] && Less(a[1..], b[1..])))
  }

  lemma {:induction false} LessTrichotomy(a: string, b: string)
    ensures Less(a, b) || a == b || Less(b, a)
  {
    if a != "" && b != "" && a[0] == b[0] { LessTrichotomy(a[1..], b[1..]); }
  }

  lemma {:induction false} LessTransitive(a: string, b: string, c: string)
    requires Less(a, b) && Less(b, c)
    ensures Less(a, c)
  {
    if a != "" && a[0] == b[0] == c[0] { LessTransitive(a[1..], b[1..], c[1..]); }
  }

  lemma {:induction false} LessIrreflexive(a: string)
    ensures !Less(a, a)
  {
    if a == "" {
    } else {
      LessIrreflexive(a[1..]);
    }
  }

  /** The sort key of a directory: its depth, then its text. */
  predicate Before(a: Path, b: Path) {
    |a| < |b| || (|a| == |b| && Less(Join(a), Join(b)))
  }

  predicate Sorted<T>(items: seq<T>, less: (T, T) -> bool) {
    forall i, j | 0 <= i < j < |items| :: less(items[i], items[j])
  }

  ghost predicate Transitive<T(!new)>(less: (T, T) -> bool) {
    forall a, b, c :: less(a, b) && less(b, c) ==> less(a, c)
  }

  function Insert<T>(items: seq<T>, item: T, less: (T, T) -> bool): seq<T> {
    if items == [] || less(item, items[0]) then [item] + items else [items[0]] + Insert(items[1..], item, less)
  }

  lemma {:induction false} InsertMembers<T>(items: seq<T>, item: T, less: (T, T) -> bool, x: T)
    ensures x in Insert(items, item, less) <==> x in items || x == item
  {
    if items != [] && !less(item, items[0]) { InsertMembers(items[1..], item, less, x); }
  }

  lemma {:induction false} InsertSorted<T(!new)>(items: seq<T>, item: T, less: (T, T) -> bool)
    requires Sorted(items, less) && Transitive(less)
    requires forall x | x in items :: less(x, item) || less(item, x)
    ensures Sorted(Insert(items, item, less), less)
  {
    if items == [] {
    } else if less(item, items[0]) {
      assert forall j | 0 < j < |items| :: less(items[0], items[j]);
    } else {
      InsertSorted(items[1..], item, less);
      var rest := Insert(items[1..], item, less);
      forall j | 0 <= j < |rest| ensures less(items[0], rest[j]) {
        InsertMembers(items[1..], item, less, rest[j]);
        assert items[0] in items;
      }
    }
  }

  /** One set of members has only one strictly sorted listing. */
  lemma {:induction false} SortedUnique<T(!new)>(a: seq<T>, b: seq<T>, less: (T, T) -> bool)
    requires Sorted(a, less) && Sorted(b, less) && Transitive(less) && (forall x :: !less(x, x))
    requires forall x :: x in a <==> x in b
    ensures a == b
  {
    SameEmptiness(a, b);
    if a == [] {
    } else {
      HeadsAgree(a, b, less);
      forall x ensures x in a[1..] <==> x in b[1..] {
        SortedTail(a, less, x);
        SortedTail(b, less, x);
      }
      SortedUnique(a[1..], b[1..], less);
    }
  }

  lemma SameEmptiness<T(!new)>(a: seq<T>, b: seq<T>)
    requires forall x :: x in a <==> x in b
    ensures a == [] <==> b == []
  {
    if b != [] { assert b[0] in a; }
    if a != [] { assert a[0] in b; }
  }

  lemma HeadsAgree<T(!new)>(a: seq<T>, b: seq<T>, less: (T, T) -> bool)
    requires Sorted(a, less) && Sorted(b, less) && Transitive(less) && (forall x :: !less(x, x))
    requires a != [] && b != [] && forall x :: x in a <==> x in b
    ensures a[0] == b[0]
  {
    assert a[0] in b && b[0] in a;
    assert !less(a[0], a[0]);
  }

  lemma SortedTail<T(!new)>(items: seq<T>, less: (T, T) -> bool, x: T)
    requires items != [] && Sorted(items, less) && forall y :: !less(y, y)
    ensures x in items[1..] <==> x in items && x != items[0]
  {
    if x in items && x != items[0] {
      var i :| 0 <= i < |items| && items[i] == x;
      assert items[1..][i - 1] == x;
    }
    if x in items[1..] {
      var i :| 0 <= i < |items| - 1 && items[1..][i] == x;
      assert less(items[0], items[i + 1]);
    }
  }

  lemma DepthOrder()
    ensures Transitive(Before) && forall p :: !Before(p, p)
  {
    forall a, b, c | Before(a, b) && Before(b, c) ensures Before(a, c) {
      if |a| == |b| == |c| { LessTransitive(Join(a), Join(b), Join(c)); }
    }
    forall p ensures !Before(p, p) { LessIrreflexive(Join(p)); }
  }

  lemma DistinctPathsCompare(a: Path, b: Path)
    requires Proper(a) && Proper(b) && a != b
    ensures Before(a, b) || Before(b, a)
    ensures Less(Join(a), Join(b)) || Less(Join(b), Join(a))
  {
    LessTrichotomy(Join(a), Join(b));
    if Join(a) == Join(b) { JoinInjective(a, b); }
  }
}
