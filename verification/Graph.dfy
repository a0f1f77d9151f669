/** Normalising a heap graph of containers, shared or cyclic, into a bounded JSON tree. */
module Graph {
  import opened Common
  import opened Paths

  datatype Scalar = Null | Boolean(flag: bool) | Integer(number: int) | Float(value: real) | NonFinite | Str(text: string)

  /** A value is a scalar, an object of some other type, or a reference to a container. */
  datatype Ref = Leaf(scalar: Scalar) | Foreign | At(id: int)

  datatype Key = TextKey(text: string) | OtherKey

  datatype Item = Item(key: Key, value: Ref)

  /** `exact` tells `list` and `dict` (and their subclasses) from other sequences and mappings. */
  datatype Container = Sequence(exact: bool, items: seq<Ref>) | Mapping(exact: bool, entries: seq<Item>)

  type Heap = map<int, Container>

  predicate Closed(heap: Heap) {
    forall id | id in heap :: forall v | v in Values(heap[id]) :: v.At? ==> v.id in heap
  }

  predicate Present(heap: Heap, v: Ref) {
    v.At? ==> v.id in heap
  }

  function Values(c: Container): seq<Ref> {
    if c.Sequence? then c.items else seq(|c.entries|, i requires 0 <= i < |c.entries| => c.entries[i].value)
  }

  /** The normalised value. An object lists its keys beside its children. */
  datatype Tree = Atom(scalar: Scalar) | Node(keys: Option<seq<string>>, children: seq<Tree>)

  /** The children of a container in the order in which they are normalised. */
  datatype Shape = Shape(keys: Option<seq<string>>, refs: seq<Ref>)

  /** What a normaliser accepts: leaves, and containers with the order of their children. */
  datatype Rules = Rules(shape: Container -> Option<Shape>, leaf: Scalar -> bool)

  // ---- Trees ----

  function Nodes(t: Tree): nat {
    match t
    case Atom(_) => 1
    case Node(_, children) => 1 + NodesOf(children)
  }

  function NodesOf(ts: seq<Tree>): nat {
    if ts == [] then 0 else NodesOf(ts[..|ts| - 1]) + Nodes(ts[|ts| - 1])
  }

  /** The number of levels below the root. */
  function Height(t: Tree): nat {
    match t
    case Atom(_) => 0
    case Node(_, children) => HeightOf(children)
  }

  /** The height of a node with these children. */
  function HeightOf(ts: seq<Tree>): nat {
    if ts == [] then 0
    else
      var below, last := HeightOf(ts[..|ts| - 1]), 1 + Height(ts[|ts| - 1]);
      if below < last then last else below
  }

  lemma {:induction false} ChildMeasures(ts: seq<Tree>, k: nat)
    requires k < |ts|
    ensures NodesOf(ts[..k]) + Nodes(ts[k]) <= NodesOf(ts)
    ensures 1 + Height(ts[k]) <= HeightOf(ts)
  {
    var front := ts[..|ts| - 1];
    if k < |front| {
      ChildMeasures(front, k);
      assert front[..k] == ts[..k] && front[k] == ts[k];
    } else {
      assert front == ts[..k];
    }
  }

  // ---- The unfolding ----

  /** `t` is the finite unfolding of the graph from `v`. A cyclic graph has none. */
  ghost predicate Unfolds(heap: Heap, rules: Rules, v: Ref, t: Tree)
    decreases t
  {
    match v
    case Leaf(s) => t == Atom(s) && rules.leaf(s)
    case Foreign => false
    case At(id) =>
      && id in heap && t.Node?
      && var shape := rules.shape(heap[id]);
      && shape.Some? && t.keys == shape.value.keys && |t.children| == |shape.value.refs|
      && forall i | 0 <= i < |t.children| :: Unfolds(heap, rules, shape.value.refs[i], t.children[i])
  }

  lemma {:induction false} UnfoldingUnique(heap: Heap, rules: Rules, v: Ref, a: Tree, b: Tree)
    requires Unfolds(heap, rules, v, a) && Unfolds(heap, rules, v, b)
    ensures a == b
    decreases a
  {
    if !v.At? {
    } else {
      var shape := rules.shape(heap[v.id]).value;
      forall i | 0 <= i < |a.children| ensures a.children[i] == b.children[i] {
        UnfoldingUnique(heap, rules, shape.refs[i], a.children[i], b.children[i]);
      }
    }
  }

  /** The graph from `v` has an unfolding within the limits. */
  ghost predicate Fits(heap: Heap, rules: Rules, v: Ref, depth: int, budget: int) {
    exists t :: Unfolds(heap, rules, v, t) && Height(t) <= depth && Nodes(t) <= budget
  }

  ghost predicate Bounded(heap: Heap, rules: Rules, v: Ref, depth: int) {
    exists t :: Unfolds(heap, rules, v, t) && Height(t) <= depth
  }

  /** Whenever a container that is being normalised has an unfolding, `v` has a smaller one. */
  ghost predicate Inside(heap: Heap, rules: Rules, active: set<int>, v: Ref) {
    forall a, whole | a in active && Unfolds(heap, rules, At(a), whole) ::
      HasSmaller(heap, rules, v, Nodes(whole))
  }

  ghost predicate HasSmaller(heap: Heap, rules: Rules, v: Ref, n: nat) {
    exists t :: Unfolds(heap, rules, v, t) && Nodes(t) < n
  }

  lemma ActiveHasNoUnfolding(heap: Heap, rules: Rules, active: set<int>, id: int, t: Tree)
    requires id in active && Inside(heap, rules, active, At(id))
    ensures !Unfolds(heap, rules, At(id), t)
  {
    if Unfolds(heap, rules, At(id), t) {
      assert HasSmaller(heap, rules, At(id), Nodes(t));
      NotSmaller(heap, rules, At(id), t);
    }
  }

  lemma NotSmaller(heap: Heap, rules: Rules, v: Ref, t: Tree)
    requires Unfolds(heap, rules, v, t)
    ensures !HasSmaller(heap, rules, v, Nodes(t))
  {
    forall s | Unfolds(heap, rules, v, s) ensures Nodes(s) == Nodes(t) { UnfoldingUnique(heap, rules, v, s, t); }
  }

  lemma ChildIsSmaller(heap: Heap, rules: Rules, id: int, shape: Shape, k: nat, t: Tree)
    requires id in heap && rules.shape(heap[id]) == Some(shape) && k < |shape.refs|
    requires Unfolds(heap, rules, At(id), t)
    ensures HasSmaller(heap, rules, shape.refs[k], Nodes(t))
  {
    ChildMeasures(t.children, k);
    assert Unfolds(heap, rules, shape.refs[k], t.children[k]) && Nodes(t.children[k]) < Nodes(t);
  }

  lemma ChildIsInside(heap: Heap, rules: Rules, active: set<int>, id: int, shape: Shape, k: nat)
    requires id in heap && rules.shape(heap[id]) == Some(shape) && k < |shape.refs|
    requires Inside(heap, rules, active, At(id))
    ensures Inside(heap, rules, active + {id}, shape.refs[k])
  {
    var child := shape.refs[k];
    forall a, whole | a in active + {id} && Unfolds(heap, rules, At(a), whole)
      ensures HasSmaller(heap, rules, child, Nodes(whole))
    {
      if a in active {
        assert HasSmaller(heap, rules, At(id), Nodes(whole));
        ChildOfSmaller(heap, rules, id, shape, k, Nodes(whole));
      } else {
        ChildIsSmaller(heap, rules, id, shape, k, whole);
      }
    }
  }

  lemma ChildOfSmaller(heap: Heap, rules: Rules, id: int, shape: Shape, k: nat, n: nat)
    requires id in heap && rules.shape(heap[id]) == Some(shape) && k < |shape.refs|
    requires HasSmaller(heap, rules, At(id), n)
    ensures HasSmaller(heap, rules, shape.refs[k], n)
  {
    var t :| Unfolds(heap, rules, At(id), t) && Nodes(t) < n;
    ChildIsSmaller(heap, rules, id, shape, k, t);
    var s :| Unfolds(heap, rules, shape.refs[k], s) && Nodes(s) < Nodes(t);
  }

  datatype Refusal = TooLarge | TooDeep | Invalid

  /** The refusal says what is wrong with every unfolding from `v`: more nodes than the budget, more
      levels than the depth, or that there is none. */
  ghost predicate Refused(heap: Heap, rules: Rules, v: Ref, depth: int, budget: int, why: Refusal) {
    forall t | Unfolds(heap, rules, v, t) ::
      if why.TooLarge? then Nodes(t) > budget else if why.TooDeep? then Height(t) > depth else false
  }

  lemma AnyBudget(heap: Heap, rules: Rules, v: Ref, depth: int, a: int, b: int, why: Refusal)
    requires !why.TooLarge? && Refused(heap, rules, v, depth, a, why)
    ensures Refused(heap, rules, v, depth, b, why)
  {
  }

  lemma RefusedDoesNotFit(heap: Heap, rules: Rules, v: Ref, depth: int, budget: int, why: Refusal)
    requires Refused(heap, rules, v, depth, budget, why)
    ensures !Fits(heap, rules, v, depth, budget)
    ensures !why.TooLarge? ==> !Bounded(heap, rules, v, depth)
  {
  }

  /** A child is refused in what the earlier children have left over, and so is its parent. */
  lemma ChildRefused(
    heap: Heap, rules: Rules, id: int, shape: Shape, done: seq<Tree>, depth: int, budget: int, why: Refusal)
    requires id in heap && rules.shape(heap[id]) == Some(shape) && |done| < |shape.refs|
    requires forall i | 0 <= i < |done| :: Unfolds(heap, rules, shape.refs[i], done[i])
    requires Refused(heap, rules, shape.refs[|done|], depth - 1, budget - 1 - NodesOf(done), why)
    ensures Refused(heap, rules, At(id), depth, budget, why)
  {
    forall t | Unfolds(heap, rules, At(id), t)
      ensures if why.TooLarge? then Nodes(t) > budget else if why.TooDeep? then Height(t) > depth else false
    {
      forall i | 0 <= i < |done| ensures done[i] == t.children[i] {
        UnfoldingUnique(heap, rules, shape.refs[i], done[i], t.children[i]);
      }
      assert done == t.children[..|done|];
      ChildMeasures(t.children, |done|);
      assert Unfolds(heap, rules, shape.refs[|done|], t.children[|done|]);
    }
  }

  // ---- The two normalisers ----

  const INPUT_DEPTH: nat := 32
  const JSON_DEPTH: nat := 100

  predicate KeyLess(a: Item, b: Item) {
    a.key.TextKey? && b.key.TextKey? && Less(a.key.text, b.key.text)
  }

  predicate TextKeys(items: seq<Item>) {
    forall i | 0 <= i < |items| :: items[i].key.TextKey?
  }

  predicate DistinctKeys(items: seq<Item>) {
    forall i, j | 0 <= i < j < |items| :: items[i].key != items[j].key
  }

  /** `sorted(..., key=lambda pair: pair[0])`, by insertion. */
  function SortItems(items: seq<Item>): (sorted: seq<Item>)
    ensures |sorted| == |items| && (TextKeys(items) ==> TextKeys(sorted))
  {
    if items == [] then []
    else
      var front, last := SortItems(items[..|items| - 1]), items[|items| - 1];
      assert TextKeys(items) ==> TextKeys(items[..|items| - 1]);
      InsertText(front, last);
      Insert(front, last, KeyLess)
  }

  lemma {:induction false} InsertText(items: seq<Item>, item: Item)
    ensures |Insert(items, item, KeyLess)| == |items| + 1
    ensures TextKeys(items) && item.key.TextKey? ==> TextKeys(Insert(items, item, KeyLess))
  {
    if items != [] && !KeyLess(item, items[0]) { InsertText(items[1..], item); }
  }

  function KeysOf(items: seq<Item>): seq<string>
    requires TextKeys(items)
  {
    seq(|items|, i requires 0 <= i < |items| => items[i].key.text)
  }

  function RefsOf(items: seq<Item>): seq<Ref> {
    seq(|items|, i requires 0 <= i < |items| => items[i].value)
  }

  /** `_plain_input_containers`: lists in order, dictionaries by sorted text keys without duplicates. */
  function PlainShape(c: Container): Option<Shape> {
    if !c.exact then None
    else if c.Sequence? then Some(Shape(None, c.items))
    else if !TextKeys(c.entries) || !DistinctKeys(c.entries) then None
    else Some(Shape(Some(KeysOf(SortItems(c.entries))), RefsOf(SortItems(c.entries))))
  }

  const PLAIN := Rules(PlainShape, (s: Scalar) => true)

  /** `_require_json_value`: any sequence or mapping, in its own order. */
  function StrictShape(c: Container): Option<Shape> {
    if c.Sequence? then Some(Shape(None, c.items))
    else if !TextKeys(c.entries) then None
    else Some(Shape(Some(KeysOf(c.entries)), RefsOf(c.entries)))
  }

  const STRICT := Rules(StrictShape, (s: Scalar) => !s.NonFinite?)

  /** The mutable arguments of the recursion: the ids on the current path and the remaining budget. */
  class Walk {
    var active: set<int>
    var remaining: int

    constructor (budget: nat)
      ensures active == {} && remaining == budget
    {
      active, remaining := {}, budget;
    }

    /** `_plain_input_containers` returns an unfolding within the limits, or a refusal that is true of
        every unfolding; on every exit `active` is what it was. */
    method Plain(heap: Heap, v: Ref, depth: nat) returns (result: Result<Tree, Refusal>)
      requires Closed(heap) && Present(heap, v) && depth <= INPUT_DEPTH + 1 && remaining >= 0
      requires Inside(heap, PLAIN, active, v)
      modifies this
      ensures active == old(active)
      ensures result.Ok? ==> Fits(heap, PLAIN, v, INPUT_DEPTH - depth, old(remaining))
      ensures result.Err? ==> Refused(heap, PLAIN, v, INPUT_DEPTH - depth, old(remaining), result.error)
      ensures result.Ok? ==> Unfolds(heap, PLAIN, v, result.value) && Denotes(heap, v, result.value)
      ensures result.Ok? ==> remaining == old(remaining) - Nodes(result.value) >= 0
      ensures result.Ok? ==> depth + Height(result.value) <= INPUT_DEPTH
      decreases INPUT_DEPTH + 1 - depth
    {
      remaining := remaining - 1;
      if remaining < 0 { return Err(TooLarge); }
      if depth > INPUT_DEPTH { return Err(TooDeep); }
      if v.Foreign? { return Err(Invalid); }
      if v.Leaf? {
        assert Unfolds(heap, PLAIN, v, Atom(v.scalar));
        return Ok(Atom(v.scalar));
      }
      var container := heap[v.id];
      if !container.exact { return Err(Invalid); }
      if v.id in active {
        forall t ensures !Unfolds(heap, PLAIN, v, t) { ActiveHasNoUnfolding(heap, PLAIN, active, v.id, t); }
        return Err(Invalid);
      }
      active := active + {v.id};
      var shape := PlainShape(container);
      if shape.None? {
        result := Err(Invalid);
      } else {
        result := PlainChildren(heap, v.id, shape.value, depth);
        if result.Ok? { UnfoldingDenotes(heap, v, result.value); }
      }
      active := active - {v.id};
    }

    method PlainChildren(heap: Heap, id: int, shape: Shape, depth: nat) returns (result: Result<Tree, Refusal>)
      requires Closed(heap) && id in heap && PLAIN.shape(heap[id]) == Some(shape)
      requires depth <= INPUT_DEPTH && remaining >= 0
      requires id in active && Inside(heap, PLAIN, active - {id}, At(id))
      modifies this
      ensures active == old(active)
      ensures result.Ok? ==> Fits(heap, PLAIN, At(id), INPUT_DEPTH - depth, old(remaining) + 1)
      ensures result.Err? ==> Refused(heap, PLAIN, At(id), INPUT_DEPTH - depth, old(remaining) + 1, result.error)
      ensures result.Ok? ==> Unfolds(heap, PLAIN, At(id), result.value)
      ensures result.Ok? ==> remaining == old(remaining) + 1 - Nodes(result.value) >= 0
      ensures result.Ok? ==> depth + Height(result.value) <= INPUT_DEPTH
      decreases INPUT_DEPTH + 1 - depth, 0
    {
      var children: seq<Tree> := [];
      for i := 0 to |shape.refs|
        invariant |children| == i && active == old(active)
        invariant remaining == old(remaining) - NodesOf(children) >= 0
        invariant i > 0 ==> depth + HeightOf(children) <= INPUT_DEPTH
        invariant forall j | 0 <= j < i :: Unfolds(heap, PLAIN, shape.refs[j], children[j])
      {
        ChildIsInside(heap, PLAIN, active - {id}, id, shape, i);
        assert active - {id} + {id} == active;
        ShapeIsPresent(heap, id, shape, i);
        var child := Plain(heap, shape.refs[i], depth + 1);
        if child.Err? {
          ChildRefused(heap, PLAIN, id, shape, children, INPUT_DEPTH - depth, old(remaining) + 1, child.error);
          return Err(child.error);
        }
        ghost var longer := children + [child.value];
        assert longer[..i] == children;
        children := children + [child.value];
      }
      var whole := Node(shape.keys, children);
      assert Unfolds(heap, PLAIN, At(id), whole);
      result := Ok(whole);
    }

    /** `_require_json_value` returns exactly when the value unfolds, with finite numbers and text
        keys, to a tree of at most `JSON_DEPTH` levels. */
    method Strict(heap: Heap, v: Ref, depth: nat) returns (result: Result<Tree, Refusal>)
      requires Closed(heap) && Present(heap, v) && depth <= JSON_DEPTH + 1
      requires Inside(heap, STRICT, active, v)
      modifies `active
      ensures active == old(active)
      ensures result.Ok? ==> Bounded(heap, STRICT, v, JSON_DEPTH - depth)
      ensures result.Err? ==>
        !result.error.TooLarge? && Refused(heap, STRICT, v, JSON_DEPTH - depth, 0, result.error)
      ensures result.Ok? ==> Unfolds(heap, STRICT, v, result.value) && Mirrors(heap, v, result.value)
      ensures result.Ok? ==> depth + Height(result.value) <= JSON_DEPTH
      decreases JSON_DEPTH + 1 - depth
    {
      if depth > JSON_DEPTH { return Err(TooDeep); }
      if v.Leaf? {
        if v.scalar.NonFinite? { return Err(Invalid); }
        assert Unfolds(heap, STRICT, v, Atom(v.scalar));
        return Ok(Atom(v.scalar));
      }
      if v.Foreign? { return Err(Invalid); }
      if v.id in active {
        forall t ensures !Unfolds(heap, STRICT, v, t) { ActiveHasNoUnfolding(heap, STRICT, active, v.id, t); }
        return Err(Invalid);
      }
      active := active + {v.id};
      var shape := StrictShape(heap[v.id]);
      if shape.None? {
        result := Err(Invalid);
      } else {
        result := StrictChildren(heap, v.id, shape.value, depth);
        if result.Ok? { UnfoldingMirrors(heap, v, result.value); }
      }
      active := active - {v.id};
    }

    method StrictChildren(heap: Heap, id: int, shape: Shape, depth: nat) returns (result: Result<Tree, Refusal>)
      requires Closed(heap) && id in heap && STRICT.shape(heap[id]) == Some(shape) && depth <= JSON_DEPTH
      requires id in active && Inside(heap, STRICT, active - {id}, At(id))
      modifies `active
      ensures active == old(active)
      ensures result.Ok? ==> Bounded(heap, STRICT, At(id), JSON_DEPTH - depth)
      ensures result.Err? ==>
        !result.error.TooLarge? && Refused(heap, STRICT, At(id), JSON_DEPTH - depth, 0, result.error)
      ensures result.Ok? ==> Unfolds(heap, STRICT, At(id), result.value) && depth + Height(result.value) <= JSON_DEPTH
      decreases JSON_DEPTH + 1 - depth, 0
    {
      var children: seq<Tree> := [];
      for i := 0 to |shape.refs|
        invariant |children| == i && active == old(active)
        invariant i > 0 ==> depth + HeightOf(children) <= JSON_DEPTH
        invariant forall j | 0 <= j < i :: Unfolds(heap, STRICT, shape.refs[j], children[j])
      {
        ChildIsInside(heap, STRICT, active - {id}, id, shape, i);
        assert active - {id} + {id} == active;
        assert shape.refs[i] == Values(heap[id])[i];
        var child := Strict(heap, shape.refs[i], depth + 1);
        if child.Err? {
          AnyBudget(heap, STRICT, shape.refs[i], JSON_DEPTH - depth - 1, 0, -1 - NodesOf(children), child.error);
          ChildRefused(heap, STRICT, id, shape, children, JSON_DEPTH - depth, 0, child.error);
          return Err(child.error);
        }
        ghost var longer := children + [child.value];
        assert longer[..i] == children;
        children := children + [child.value];
      }
      var whole := Node(shape.keys, children);
      assert Unfolds(heap, STRICT, At(id), whole);
      result := Ok(whole);
    }
  }

  /** `_canonical_input_payload`'s use of the normaliser: a fresh path and the whole budget. */
  method PlainInput(heap: Heap, v: Ref, budget: nat) returns (result: Result<Tree, Refusal>)
    requires Closed(heap) && Present(heap, v)
    ensures result.Ok? <==> exists t :: Denotes(heap, v, t) && Height(t) <= INPUT_DEPTH && Nodes(t) <= budget
    ensures result.Ok? ==>
      Denotes(heap, v, result.value) && Height(result.value) <= INPUT_DEPTH && Nodes(result.value) <= budget
    ensures result.Err? ==> Refused(heap, PLAIN, v, INPUT_DEPTH, budget, result.error)
  {
    var walk := new Walk(budget);
    result := walk.Plain(heap, v, 0);
    if result.Ok? {
      UnfoldingDenotes(heap, v, result.value);
    } else {
      forall t | Denotes(heap, v, t) ensures Unfolds(heap, PLAIN, v, t) { DenotedUnfolds(heap, v, t); }
      RefusedDoesNotFit(heap, PLAIN, v, INPUT_DEPTH, budget, result.error);
    }
  }

  method RequireJsonValue(heap: Heap, v: Ref) returns (result: Result<Tree, Refusal>)
    requires Closed(heap) && Present(heap, v)
    ensures result.Ok? <==> exists t :: Mirrors(heap, v, t) && Height(t) <= JSON_DEPTH
    ensures result.Ok? ==> Mirrors(heap, v, result.value)
    ensures result.Err? ==>
      !result.error.TooLarge? && Refused(heap, STRICT, v, JSON_DEPTH, 0, result.error)
  {
    var walk := new Walk(0);
    result := walk.Strict(heap, v, 0);
    if result.Ok? {
      UnfoldingMirrors(heap, v, result.value);
    } else {
      forall t | Mirrors(heap, v, t) ensures Unfolds(heap, STRICT, v, t) { UnfoldingMirrors(heap, v, t); }
      RefusedDoesNotFit(heap, STRICT, v, JSON_DEPTH, 0, result.error);
    }
  }

  lemma ShapeIsPresent(heap: Heap, id: int, shape: Shape, k: nat)
    requires Closed(heap) && id in heap && PLAIN.shape(heap[id]) == Some(shape) && k < |shape.refs|
    ensures Present(heap, shape.refs[k])
  {
    var c := heap[id];
    if c.Mapping? {
      var item := SortItems(c.entries)[k];
      SortMembers(c.entries, item);
      var i :| 0 <= i < |c.entries| && c.entries[i] == item;
      assert Values(c)[i] == item.value;
    }
  }

  lemma {:induction false} SortMembers(items: seq<Item>, x: Item)
    ensures x in SortItems(items) <==> x in items
  {
    if items == [] {
    } else {
      SortMembers(items[..|items| - 1], x);
      InsertMembers(SortItems(items[..|items| - 1]), items[|items| - 1], KeyLess, x);
    }
  }

  // ---- The result is in sorted-key form, and normalising it again changes nothing ----

  predicate SortedTree(t: Tree) {
    match t
    case Atom(_) => true
    case Node(keys, children) =>
      && (keys.Some? ==> |keys.value| == |children| && Sorted(keys.value, Less))
      && forall i | 0 <= i < |children| :: SortedTree(children[i])
  }

  lemma KeyOrder()
    ensures Transitive(KeyLess) && Transitive(Less)
  {
    forall a, b, c | Less(a, b) && Less(b, c) ensures Less(a, c) { LessTransitive(a, b, c); }
    forall a, b, c | KeyLess(a, b) && KeyLess(b, c) ensures KeyLess(a, c) {
      LessTransitive(a.key.text, b.key.text, c.key.text);
    }
  }

  /** The sorted items are the items, each once, strictly by key. */
  lemma {:induction false} SortItemsSorts(items: seq<Item>)
    requires TextKeys(items) && DistinctKeys(items)
    ensures Sorted(SortItems(items), KeyLess)
    ensures forall x :: x in SortItems(items) <==> x in items
  {
    forall x ensures x in SortItems(items) <==> x in items { SortMembers(items, x); }
    if items == [] {
    } else {
      var front, last := items[..|items| - 1], items[|items| - 1];
      SortItemsSorts(front);
      KeyOrder();
      forall x | x in SortItems(front) ensures KeyLess(x, last) || KeyLess(last, x) {
        var i :| 0 <= i < |front| && items[i] == x;
        LessTrichotomy(x.key.text, last.key.text);
      }
      InsertSorted(SortItems(front), last, KeyLess);
    }
  }

  lemma {:induction false} UnfoldingIsSorted(heap: Heap, v: Ref, t: Tree)
    requires Unfolds(heap, PLAIN, v, t)
    ensures SortedTree(t)
    decreases t
  {
    if !v.At? {
    } else {
      var c := heap[v.id];
      var shape := PLAIN.shape(c).value;
      forall i | 0 <= i < |t.children| ensures SortedTree(t.children[i]) {
        UnfoldingIsSorted(heap, shape.refs[i], t.children[i]);
      }
      if c.Mapping? { SortItemsSorts(c.entries); }
    }
  }

  // ---- What a result must be, said of the containers themselves ----

  /** `t` stands for `v` as plain JSON: a list child by child, and a dictionary with distinct text keys
      as those keys in order, each beside what the value stored under it stands for. */
  ghost predicate Denotes(heap: Heap, v: Ref, t: Tree)
    decreases t, 1
  {
    match v
    case Leaf(s) => t == Atom(s)
    case Foreign => false
    case At(id) =>
      && id in heap && heap[id].exact && t.Node?
      && if heap[id].Sequence? then
           && t.keys.None? && |t.children| == |heap[id].items|
           && forall i | 0 <= i < |t.children| :: Denotes(heap, heap[id].items[i], t.children[i])
         else
           var entries := heap[id].entries;
           && TextKeys(entries) && DistinctKeys(entries)
           && t.keys.Some? && |t.keys.value| == |t.children| == |entries| && Sorted(t.keys.value, Less)
           && (forall i | 0 <= i < |t.children| :: HasEntry(heap, entries, t.keys.value[i], t.children[i]))
           && (forall e | e in entries :: HasPlace(heap, e, t))
  }

  ghost predicate EntryDenotes(heap: Heap, e: Item, key: string, child: Tree)
    decreases child, 2
  {
    e.key == TextKey(key) && Denotes(heap, e.value, child)
  }

  /** The key and the child are those of some entry. */
  ghost predicate HasEntry(heap: Heap, entries: seq<Item>, key: string, child: Tree)
    decreases child, 3
  {
    exists e | e in entries :: EntryDenotes(heap, e, key, child)
  }

  /** The entry appears with its own value. */
  ghost predicate HasPlace(heap: Heap, e: Item, t: Tree)
    requires t.Node? && t.keys.Some? && |t.keys.value| == |t.children|
    decreases t, 0
  {
    exists i | 0 <= i < |t.children| :: EntryDenotes(heap, e, t.keys.value[i], t.children[i])
  }

  /** `t` stands for `v` as JSON in the containers' own order, with finite numbers and text keys. */
  ghost predicate Mirrors(heap: Heap, v: Ref, t: Tree)
    decreases t
  {
    match v
    case Leaf(s) => t == Atom(s) && !s.NonFinite?
    case Foreign => false
    case At(id) =>
      && id in heap && t.Node?
      && if heap[id].Sequence? then
           && t.keys.None? && |t.children| == |heap[id].items|
           && forall i | 0 <= i < |t.children| :: Mirrors(heap, heap[id].items[i], t.children[i])
         else
           var entries := heap[id].entries;
           && t.keys.Some? && |t.keys.value| == |t.children| == |entries|
           && forall i | 0 <= i < |t.children| ::
                entries[i].key == TextKey(t.keys.value[i]) && Mirrors(heap, entries[i].value, t.children[i])
  }

  /** The order in which a dictionary is normalised: every place holds some entry's key with that
      entry's value, every entry has a place, and the keys are strictly sorted. */
  lemma ShapePairs(entries: seq<Item>) returns (keys: seq<string>, refs: seq<Ref>)
    requires TextKeys(entries) && DistinctKeys(entries)
    ensures PlainShape(Mapping(true, entries)) == Some(Shape(Some(keys), refs))
    ensures |keys| == |refs| == |entries| && Sorted(keys, Less)
    ensures forall i | 0 <= i < |keys| :: Item(TextKey(keys[i]), refs[i]) in entries
    ensures forall e | e in entries :: exists i :: 0 <= i < |keys| && e == Item(TextKey(keys[i]), refs[i])
  {
    var sorted := SortItems(entries);
    SortItemsSorts(entries);
    keys, refs := KeysOf(sorted), RefsOf(sorted);
    forall i | 0 <= i < |keys| ensures Item(TextKey(keys[i]), refs[i]) in entries { assert sorted[i] in entries; }
    forall e | e in entries ensures exists i :: 0 <= i < |keys| && e == Item(TextKey(keys[i]), refs[i]) {
      var i :| 0 <= i < |sorted| && sorted[i] == e;
      assert e == Item(TextKey(keys[i]), refs[i]);
    }
    forall i, j | 0 <= i < j < |keys| ensures Less(keys[i], keys[j]) { assert KeyLess(sorted[i], sorted[j]); }
  }

  /** The unfolding of an accepted graph stands for it. */
  lemma {:induction false} UnfoldingDenotes(heap: Heap, v: Ref, t: Tree)
    requires Unfolds(heap, PLAIN, v, t)
    ensures Denotes(heap, v, t)
    decreases t
  {
    if v.At? {
      var c := heap[v.id];
      var refs := PLAIN.shape(c).value.refs;
      forall i | 0 <= i < |t.children| ensures Denotes(heap, refs[i], t.children[i]) {
        UnfoldingDenotes(heap, refs[i], t.children[i]);
      }
      if c.Mapping? {
        var keys, same := ShapePairs(c.entries);
        PlacesDenote(heap, c.entries, keys, refs, t);
      }
    }
  }

  lemma PlacesDenote(heap: Heap, entries: seq<Item>, keys: seq<string>, refs: seq<Ref>, t: Tree)
    requires t.Node? && |t.children| == |keys| == |refs| && t.keys == Some(keys)
    requires forall i | 0 <= i < |keys| :: Item(TextKey(keys[i]), refs[i]) in entries
    requires forall e | e in entries :: exists i :: 0 <= i < |keys| && e == Item(TextKey(keys[i]), refs[i])
    requires forall i | 0 <= i < |keys| :: Denotes(heap, refs[i], t.children[i])
    ensures forall i | 0 <= i < |t.children| :: HasEntry(heap, entries, t.keys.value[i], t.children[i])
    ensures forall e | e in entries :: HasPlace(heap, e, t)
  {
    forall i | 0 <= i < |t.children| ensures HasEntry(heap, entries, t.keys.value[i], t.children[i]) {
      assert EntryDenotes(heap, Item(TextKey(keys[i]), refs[i]), t.keys.value[i], t.children[i]);
    }
    forall e | e in entries ensures HasPlace(heap, e, t) {
      var i :| 0 <= i < |keys| && e == Item(TextKey(keys[i]), refs[i]);
      assert EntryDenotes(heap, e, t.keys.value[i], t.children[i]);
    }
  }

  /** Nothing but the unfolding stands for a graph. */
  lemma {:induction false} DenotedUnfolds(heap: Heap, v: Ref, t: Tree)
    requires Denotes(heap, v, t)
    ensures Unfolds(heap, PLAIN, v, t)
    decreases t
  {
    if v.At? {
      var c := heap[v.id];
      if c.Sequence? {
        forall i | 0 <= i < |t.children| ensures Unfolds(heap, PLAIN, c.items[i], t.children[i]) {
          DenotedUnfolds(heap, c.items[i], t.children[i]);
        }
      } else {
        var keys, refs := ShapePairs(c.entries);
        DenotedKeys(heap, c.entries, keys, refs, t);
        forall i | 0 <= i < |t.children| ensures Unfolds(heap, PLAIN, refs[i], t.children[i]) {
          assert HasEntry(heap, c.entries, t.keys.value[i], t.children[i]);
          DenotedPlace(heap, c.entries, keys, refs, t, i);
          DenotedUnfolds(heap, refs[i], t.children[i]);
        }
      }
    }
  }

  /** A sorted list of the same keys is the same list. */
  lemma DenotedKeys(heap: Heap, entries: seq<Item>, keys: seq<string>, refs: seq<Ref>, t: Tree)
    requires Sorted(keys, Less) && |keys| == |refs|
    requires forall i | 0 <= i < |keys| :: Item(TextKey(keys[i]), refs[i]) in entries
    requires forall e | e in entries :: exists i :: 0 <= i < |keys| && e == Item(TextKey(keys[i]), refs[i])
    requires t.Node? && t.keys.Some? && |t.keys.value| == |t.children| && Sorted(t.keys.value, Less)
    requires forall i | 0 <= i < |t.children| :: HasEntry(heap, entries, t.keys.value[i], t.children[i])
    requires forall e | e in entries :: HasPlace(heap, e, t)
    ensures t.keys.value == keys
  {
    forall x ensures x in keys <==> x in t.keys.value {
      if x in keys {
        var i :| 0 <= i < |keys| && keys[i] == x;
        assert HasPlace(heap, Item(TextKey(keys[i]), refs[i]), t);
        var k :| 0 <= k < |t.children|
          && EntryDenotes(heap, Item(TextKey(keys[i]), refs[i]), t.keys.value[k], t.children[k]);
      }
      if x in t.keys.value {
        var k :| 0 <= k < |t.keys.value| && t.keys.value[k] == x;
        assert HasEntry(heap, entries, t.keys.value[k], t.children[k]);
        var e :| e in entries && EntryDenotes(heap, e, t.keys.value[k], t.children[k]);
      }
    }
    KeyOrder();
    forall x ensures !Less(x, x) { LessIrreflexive(x); }
    SortedUnique(keys, t.keys.value, Less);
  }

  /** One key has one entry, so its place holds that entry's value. */
  lemma DenotedPlace(heap: Heap, entries: seq<Item>, keys: seq<string>, refs: seq<Ref>, t: Tree, i: nat)
    requires DistinctKeys(entries) && i < |keys| == |refs| && t.Node? && |t.children| == |keys|
    requires Item(TextKey(keys[i]), refs[i]) in entries
    requires HasEntry(heap, entries, keys[i], t.children[i])
    ensures Denotes(heap, refs[i], t.children[i])
  {
    var e :| e in entries && EntryDenotes(heap, e, keys[i], t.children[i]);
    var j :| 0 <= j < |entries| && entries[j] == e;
    var k :| 0 <= k < |entries| && entries[k] == Item(TextKey(keys[i]), refs[i]);
    assert j == k;
  }

  /** The same for the strict rules. */
  lemma {:induction false} UnfoldingMirrors(heap: Heap, v: Ref, t: Tree)
    ensures Unfolds(heap, STRICT, v, t) <==> Mirrors(heap, v, t)
    decreases t
  {
    if v.At? && v.id in heap && t.Node? {
      forall r, i | 0 <= i < |t.children|
        ensures Unfolds(heap, STRICT, r, t.children[i]) <==> Mirrors(heap, r, t.children[i])
      {
        UnfoldingMirrors(heap, r, t.children[i]);
      }
      var c := heap[v.id];
      if c.Mapping? && t.keys.Some? && |t.keys.value| == |t.children| == |c.entries| {
        MirroredKeys(c.entries, t.keys.value);
      }
    }
  }

  lemma MirroredKeys(entries: seq<Item>, keys: seq<string>)
    requires |keys| == |entries|
    ensures (TextKeys(entries) && KeysOf(entries) == keys) <==> forall i | 0 <= i < |keys| :: entries[i].key == TextKey(keys[i])
  {
    if TextKeys(entries) && KeysOf(entries) == keys {
      forall i | 0 <= i < |keys| ensures entries[i].key == TextKey(keys[i]) { assert KeysOf(entries)[i] == keys[i]; }
    }
    if forall i | 0 <= i < |keys| :: entries[i].key == TextKey(keys[i]) {
      assert TextKeys(entries);
      assert KeysOf(entries) == keys;
    }
  }

  /** The heap holds the tree as plain lists and dictionaries, in the tree's own order. */
  ghost predicate Stores(heap: Heap, v: Ref, t: Tree)
    decreases t
  {
    match t
    case Atom(s) => v == Leaf(s)
    case Node(keys, children) =>
      && v.At? && v.id in heap && heap[v.id].exact
      && var c := heap[v.id];
      && (if keys.None? then c.Sequence? else c.Mapping? && TextKeys(c.entries) && KeysOf(c.entries) == keys.value)
      && |Values(c)| == |children|
      && forall i | 0 <= i < |children| :: Stores(heap, Values(c)[i], children[i])
  }

  lemma {:induction false} InsertLast(items: seq<Item>, item: Item)
    requires forall i | 0 <= i < |items| :: !KeyLess(item, items[i])
    ensures Insert(items, item, KeyLess) == items + [item]
  {
    if items == [] {
    } else {
      InsertLast(items[1..], item);
    }
  }

  lemma {:induction false} SortedItemsStay(items: seq<Item>)
    requires Sorted(items, KeyLess)
    ensures SortItems(items) == items
  {
    if items == [] {
    } else {
      var front, last := items[..|items| - 1], items[|items| - 1];
      SortedItemsStay(front);
      forall i | 0 <= i < |front| ensures !KeyLess(last, front[i]) {
        assert KeyLess(items[i], last);
        LessAsymmetric(items[i].key.text, last.key.text);
      }
      InsertLast(front, last);
    }
  }

  lemma LessAsymmetric(a: string, b: string)
    requires Less(a, b)
    ensures !Less(b, a)
  {
    LessIrreflexive(a);
    if Less(b, a) { LessTransitive(a, b, a); }
  }

  lemma StoredShape(c: Container, keys: Option<seq<string>>)
    requires c.exact
    requires if keys.None? then c.Sequence? else c.Mapping? && TextKeys(c.entries) && KeysOf(c.entries) == keys.value
    requires keys.Some? ==> Sorted(keys.value, Less)
    ensures PLAIN.shape(c) == Some(Shape(keys, Values(c)))
  {
    if c.Mapping? {
      forall i, j | 0 <= i < j < |c.entries| ensures KeyLess(c.entries[i], c.entries[j]) {
        assert Less(keys.value[i], keys.value[j]);
      }
      forall i, j | 0 <= i < j < |c.entries| ensures c.entries[i].key != c.entries[j].key {
        LessIrreflexive(c.entries[i].key.text);
      }
      SortedItemsStay(c.entries);
    }
  }

  /** Wherever the normalised tree is stored, that is again its unfolding: a second run returns it
      unchanged and spends the same budget. */
  lemma {:induction false} NormalisedIsStable(heap: Heap, v: Ref, t: Tree)
    requires Stores(heap, v, t) && SortedTree(t)
    ensures Unfolds(heap, PLAIN, v, t)
    decreases t
  {
    if !t.Node? {
    } else {
      StoredShape(heap[v.id], t.keys);
      forall i | 0 <= i < |t.children| ensures Unfolds(heap, PLAIN, Values(heap[v.id])[i], t.children[i]) {
        NormalisedIsStable(heap, Values(heap[v.id])[i], t.children[i]);
      }
    }
  }

  lemma DenotedIsStable(heap: Heap, v: Ref, copy: Heap, w: Ref, t: Tree)
    requires Denotes(heap, v, t) && Stores(copy, w, t)
    ensures Unfolds(copy, PLAIN, w, t)
  {
    DenotedUnfolds(heap, v, t);
    UnfoldingIsSorted(heap, v, t);
    NormalisedIsStable(copy, w, t);
  }

  /** Two runs of the normaliser: the second, on any plain copy of the first result, returns it again. */
  method NormaliseTwice(heap: Heap, v: Ref, budget: nat, copy: Heap, w: Ref)
    returns (once: Result<Tree, Refusal>, twice: Result<Tree, Refusal>)
    requires Closed(heap) && Present(heap, v) && Closed(copy) && Present(copy, w)
    requires forall t | Denotes(heap, v, t) :: Stores(copy, w, t)
    ensures once.Ok? ==> twice == once
  {
    once := PlainInput(heap, v, budget);
    twice := PlainInput(copy, w, budget);
    if once.Ok? {
      DenotedIsStable(heap, v, copy, w, once.value);
      UnfoldingDenotes(copy, w, once.value);
      DenotedUnfolds(copy, w, twice.value);
      UnfoldingUnique(copy, PLAIN, w, once.value, twice.value);
    }
  }

  // ---- When does a graph have an unfolding? ----

  predicate Edge(heap: Heap, rules: Rules, a: int, b: int) {
    && a in heap && b in heap
    && var shape := rules.shape(heap[a]);
    && shape.Some? && At(b) in shape.value.refs
  }

  predicate Walkable(heap: Heap, rules: Rules, path: seq<int>) {
    |path| > 1 && forall i | 0 <= i < |path| - 1 :: Edge(heap, rules, path[i], path[i + 1])
  }

  lemma {:induction false} PathShrinks(heap: Heap, rules: Rules, path: seq<int>, t: Tree)
    requires Walkable(heap, rules, path) && Unfolds(heap, rules, At(path[0]), t)
    ensures HasSmaller(heap, rules, At(path[|path| - 1]), Nodes(t))
    decreases |path|
  {
    var shape := rules.shape(heap[path[0]]).value;
    assert Edge(heap, rules, path[0], path[1]);
    var k :| 0 <= k < |shape.refs| && shape.refs[k] == At(path[1]);
    ChildIsSmaller(heap, rules, path[0], shape, k, t);
    if |path| > 2 {
      var s :| Unfolds(heap, rules, At(path[1]), s) && Nodes(s) < Nodes(t);
      assert forall i | 0 <= i < |path| - 2 :: Edge(heap, rules, path[1..][i], path[1..][i + 1]) by {
        assert forall i | 0 <= i < |path| - 1 :: path[1..][i] == path[i + 1];
      }
      PathShrinks(heap, rules, path[1..], s);
    }
  }

  /** A cycle anywhere below the root leaves no unfolding, so both normalisers refuse the graph. */
  lemma CyclicHasNone(heap: Heap, rules: Rules, lead: seq<int>, cycle: seq<int>, t: Tree)
    requires Walkable(heap, rules, lead) && Walkable(heap, rules, cycle)
    requires lead[|lead| - 1] == cycle[0] == cycle[|cycle| - 1]
    ensures !Unfolds(heap, rules, At(lead[0]), t)
  {
    if Unfolds(heap, rules, At(lead[0]), t) {
      PathShrinks(heap, rules, lead, t);
      var s :| Unfolds(heap, rules, At(cycle[0]), s) && Nodes(s) < Nodes(t);
      PathShrinks(heap, rules, cycle, s);
      NotSmaller(heap, rules, At(cycle[0]), s);
    }
  }

  /** Every container reachable from the root is of an accepted kind, with accepted keys and leaves,
      and lies above the containers it holds. */
  ghost predicate Acyclic(heap: Heap, rules: Rules, region: set<int>, rank: int -> nat) {
    forall id | id in region ::
      && id in heap && rules.shape(heap[id]).Some?
      && forall r | r in rules.shape(heap[id]).value.refs :: Below(rules, region, rank, id, r)
  }

  predicate Below(rules: Rules, region: set<int>, rank: int -> nat, id: int, r: Ref) {
    if r.Leaf? then rules.leaf(r.scalar) else r.At? && r.id in region && rank(r.id) < rank(id)
  }

  /** Shared containers are no obstacle: an acyclic graph of accepted containers does unfold. */
  lemma {:induction false} AcyclicUnfolds(heap: Heap, rules: Rules, region: set<int>, rank: int -> nat, id: int)
      returns (t: Tree)
    requires Acyclic(heap, rules, region, rank) && id in region
    ensures Unfolds(heap, rules, At(id), t)
    decreases rank(id), 0
  {
    var shape := rules.shape(heap[id]).value;
    var children := UnfoldAll(heap, rules, region, rank, id, |shape.refs|);
    t := Node(shape.keys, children);
  }

  lemma {:induction false} UnfoldAll(heap: Heap, rules: Rules, region: set<int>, rank: int -> nat, id: int, n: nat)
      returns (children: seq<Tree>)
    requires Acyclic(heap, rules, region, rank) && id in region
    requires n <= |rules.shape(heap[id]).value.refs|
    ensures |children| == n
    ensures forall i | 0 <= i < n :: Unfolds(heap, rules, rules.shape(heap[id]).value.refs[i], children[i])
    decreases rank(id), 0, n
  {
    children := [];
    if n > 0 {
      var front := UnfoldAll(heap, rules, region, rank, id, n - 1);
      var r := rules.shape(heap[id]).value.refs[n - 1];
      assert Below(rules, region, rank, id, r);
      var last: Tree;
      if r.Leaf? {
        last := Atom(r.scalar);
      } else {
        last := AcyclicUnfolds(heap, rules, region, rank, r.id);
      }
      children := front + [last];
    }
  }
}
