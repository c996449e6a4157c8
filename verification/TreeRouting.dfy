/** Dispatch by address bounds: each node gets its children's lower ids and its own upper id plus one, and
    a request goes to the child whose interval holds its id. */
module TreeRouting {
  import opened Wrappers
  import opened Arith
  import opened Trees
  import opened TreeBuilder

  /** addressBounds of a node with these children. */
  function AddressBounds(children: seq<Tree>): (bounds: seq<int>)
    ensures |bounds| == |children| + 1
  {
    seq(|children|, j requires 0 <= j < |children| => IdRange(children[j]).0) + [RangeOf(children).1 + 1]
  }

  predicate Selects(bounds: seq<int>, j: nat, id: int) {
    j + 1 < |bounds| && bounds[j] <= id < bounds[j + 1]
  }

  /** The first child at or after j whose interval holds the id. */
  function Select(bounds: seq<int>, j: nat, id: int): (r: Option<nat>)
    ensures r.Some? ==> j <= r.value && Selects(bounds, r.value, id)
    ensures r.None? ==> forall i :: j <= i ==> !Selects(bounds, i, id)
    decreases |bounds| - j
  {
    if j + 1 >= |bounds| then None
    else if Selects(bounds, j, id) then Some(j)
    else Select(bounds, j + 1, id)
  }

  /** The leaf that a request for this id reaches. */
  function Route(t: Tree, id: int): Option<Tree>
    decreases t
  {
    match t
    case Leaf(_, _, _) => Some(t)
    case Node(children) =>
      match Select(AddressBounds(children), 0, id)
      case None => None
      case Some(j) => Route(children[j], id)
  }

  /** A forest of numbered clients r, r + 1, ..., r + n - 1 in order, without childless nodes. */
  ghost predicate Ordered(f: seq<Tree>, r: nat, n: nat, first: int, k: nat) {
    Clients(f) == Range(r, n) && Labelled(f, first) && Arity(f, 1, k)
  }

  /** Where the clients of tree i start. */
  ghost function Offset(f: seq<Tree>, i: nat): nat
    requires i <= |f|
  {
    |Clients(f[..i])|
  }

  lemma {:induction false} OffsetStep(f: seq<Tree>, i: nat)
    requires i < |f|
    ensures Offset(f, i + 1) == Offset(f, i) + |Clients([f[i]])|
    ensures Clients(f) == Clients(f[..i]) + Clients([f[i]]) + Clients(f[i + 1..])
  {
    ClientsConcat(f[..i], [f[i]]);
    assert f[..i + 1] == f[..i] + [f[i]];
    ClientsConcat(f[..i + 1], f[i + 1..]);
    assert f == f[..i + 1] + f[i + 1..];
  }

  lemma {:induction false} RangeSlice(r: nat, n: nat, o: nat, m: nat)
    requires o + m <= n
    ensures Range(r, n)[o..o + m] == Range(r + o, m)
  {
  }

  /** Each tree of an ordered forest is ordered and starts where the one before it ends. */
  lemma {:induction false} TreeOrdered(f: seq<Tree>, r: nat, n: nat, first: int, k: nat, i: nat)
    requires Ordered(f, r, n, first, k) && i < |f|
    ensures Offset(f, i + 1) <= n
    ensures Ordered([f[i]], r + Offset(f, i), |Clients([f[i]])|, first, k)
  {
    hide Clients, Range;
    OffsetStep(f, i);
    var o, m := Offset(f, i), |Clients([f[i]])|;
    assert f[i] in f;
    assert Clients([f[i]]) == Range(r, n)[o..o + m];
    RangeSlice(r, n, o, m);
  }

  lemma {:induction false} ChildrenOrdered(t: Tree, r: nat, n: nat, first: int, k: nat)
    requires t.Node? && Ordered([t], r, n, first, k)
    ensures t.children != [] && Ordered(t.children, r, n, first, k)
  {
    SingleNode([], t.children, 0);
    assert t in [t];
  }

  /** idRange covers exactly the interval of an ordered tree, and no tree is empty. */
  lemma {:induction false} TreeInterval(t: Tree, r: nat, n: nat, first: int, k: nat)
    requires Ordered([t], r, n, first, k)
    ensures n >= 1 && IdRange(t) == (first + r, first + r + n - 1)
    decreases t
  {
    match t
    case Leaf(c, id, _) =>
      assert [t][1..] == [] && t in [t];
      assert Clients([t]) == [c];
      assert Range(r, n)[0] == r;
    case Node(cs) =>
      ChildrenOrdered(t, r, n, first, k);
      ForestInterval(cs, r, n, first, k);
  }

  lemma {:induction false} ForestInterval(f: seq<Tree>, r: nat, n: nat, first: int, k: nat)
    requires Ordered(f, r, n, first, k) && f != []
    ensures n >= 1 && RangeOf(f) == (first + r, first + r + n - 1)
    decreases f
  {
    hide Ordered, Clients, Range;
    var m := |f| - 1;
    TreeOrdered(f, r, n, first, k, m);
    TreeInterval(f[m], r + Offset(f, m), |Clients([f[m]])|, first, k);
    OffsetEnds(f, r, n, first, k);
    OffsetStep(f, m);
    if m > 0 {
      PrefixOrdered(f, r, n, first, k, m);
      ForestInterval(f[..m], r, Offset(f, m), first, k);
    } else {
      assert f == [f[0]];
    }
  }

  lemma {:induction false} OffsetEnds(f: seq<Tree>, r: nat, n: nat, first: int, k: nat)
    requires Ordered(f, r, n, first, k)
    ensures Offset(f, 0) == 0 && Offset(f, |f|) == n
  {
    assert f[..|f|] == f;
  }

  lemma {:induction false} PrefixOrdered(f: seq<Tree>, r: nat, n: nat, first: int, k: nat, m: nat)
    requires Ordered(f, r, n, first, k) && m <= |f|
    ensures Ordered(f[..m], r, Offset(f, m), first, k)
  {
    hide Clients, Range;
    ClientsConcat(f[..m], f[m..]);
    assert f == f[..m] + f[m..];
    assert Clients(f[..m]) == Range(r, n)[0..Offset(f, m)];
    RangeSlice(r, n, 0, Offset(f, m));
    forall t | t in f[..m]
      ensures t in f
    {
    }
  }

  /** The bounds of a node are its children's starting ids, closed by the end of the whole interval. */
  lemma {:induction false} BoundsAreOffsets(f: seq<Tree>, r: nat, n: nat, first: int, k: nat, j: nat)
    requires Ordered(f, r, n, first, k) && f != [] && j <= |f|
    ensures AddressBounds(f)[j] == first + r + Offset(f, j)
    ensures j < |f| ==> AddressBounds(f)[j] < AddressBounds(f)[j + 1]
  {
    hide Ordered, Clients, Range;
    BoundAt(f, r, n, first, k, j);
    if j < |f| {
      BoundAt(f, r, n, first, k, j + 1);
      TreeOrdered(f, r, n, first, k, j);
      TreeInterval(f[j], r + Offset(f, j), |Clients([f[j]])|, first, k);
      OffsetStep(f, j);
    }
  }

  lemma {:induction false} BoundAt(f: seq<Tree>, r: nat, n: nat, first: int, k: nat, j: nat)
    requires Ordered(f, r, n, first, k) && f != [] && j <= |f|
    ensures AddressBounds(f)[j] == first + r + Offset(f, j)
  {
    hide Ordered, Clients, Range;
    if j < |f| {
      TreeOrdered(f, r, n, first, k, j);
      TreeInterval(f[j], r + Offset(f, j), |Clients([f[j]])|, first, k);
    } else {
      ForestInterval(f, r, n, first, k);
      OffsetEnds(f, r, n, first, k);
    }
  }

  /** Sibling intervals are consecutive and cover everything: the id of client c selects exactly one child,
      the one that holds c. */
  lemma {:induction false} OneChild(f: seq<Tree>, r: nat, n: nat, first: int, k: nat, id: int)
    requires Ordered(f, r, n, first, k) && f != [] && first + r <= id < first + r + n
    ensures exists j: nat :: Selects(AddressBounds(f), j, id)
    ensures forall j: nat :: Selects(AddressBounds(f), j, id) ==>
                               j < |f| && first + r + Offset(f, j) <= id < first + r + Offset(f, j + 1)
  {
    hide Ordered, Clients, Range, AddressBounds;
    OffsetEnds(f, r, n, first, k);
    var j := 0;
    while first + r + Offset(f, j + 1) <= id
      invariant j < |f| && first + r + Offset(f, j) <= id
      decreases |f| - j
    {
      j := j + 1;
    }
    BoundAt(f, r, n, first, k, j);
    BoundAt(f, r, n, first, k, j + 1);
    assert Selects(AddressBounds(f), j, id);
    forall i: nat | Selects(AddressBounds(f), i, id)
      ensures i < |f| && first + r + Offset(f, i) <= id < first + r + Offset(f, i + 1)
    {
      BoundAt(f, r, n, first, k, i);
      BoundAt(f, r, n, first, k, i + 1);
    }
  }

  /** A request with this id ends at the leaf that has it, which belongs to the client so numbered. */
  predicate RoutesTo(t: Tree, id: int, first: int) {
    var leaf := Route(t, id);
    leaf.Some? && leaf.value.Leaf? && leaf.value.client == id - first && leaf.value.id == id
  }

  lemma {:induction false} LeafFinds(t: Tree, r: nat, n: nat, first: int, k: nat, c: nat)
    requires t.Leaf? && Ordered([t], r, n, first, k) && r <= c < r + n
    ensures RoutesTo(t, first + c, first)
  {
    assert [t][1..] == [] && t in [t];
    assert Clients([t]) == [t.client];
    assert Range(r, n)[0] == r && Range(r, n)[c - r] == c;
  }

  /** The search-tree theorem: in an ordered tree every id reaches exactly its own leaf. */
  lemma {:induction false} RouteFinds(t: Tree, r: nat, n: nat, first: int, k: nat, c: nat)
    requires Ordered([t], r, n, first, k) && r <= c < r + n
    ensures RoutesTo(t, first + c, first)
    decreases t
  {
    hide Ordered, Clients, Range, AddressBounds;
    if t.Leaf? {
      LeafFinds(t, r, n, first, k, c);
    } else {
      var cs := t.children;
      ChildrenOrdered(t, r, n, first, k);
      OneChild(cs, r, n, first, k, first + c);
      var j := Select(AddressBounds(cs), 0, first + c).value;
      TreeOrdered(cs, r, n, first, k, j);
      OffsetStep(cs, j);
      RouteFinds(cs[j], r + Offset(cs, j), |Clients([cs[j]])|, first, k, c);
    }
  }

  /** An id outside the tree's interval is dropped at its root. */
  lemma {:induction false} RouteRejects(t: Tree, r: nat, n: nat, first: int, k: nat, id: int)
    requires t.Node? && Ordered([t], r, n, first, k) && !(first + r <= id < first + r + n)
    ensures Route(t, id) == None
  {
    var cs := t.children;
    ChildrenOrdered(t, r, n, first, k);
    OffsetEnds(cs, r, n, first, k);
    forall j | 0 <= j < |cs|
      ensures !Selects(AddressBounds(cs), j, id)
    {
      BoundAt(cs, r, n, first, k, j);
      BoundAt(cs, r, n, first, k, j + 1);
      TreeOrdered(cs, r, n, first, k, j);
    }
  }
}
