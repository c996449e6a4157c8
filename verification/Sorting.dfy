/** Python's stable sort by key, as an insertion sort. `SortBy` orders ascending; a descending
    order by k is an ascending order by -k (Python's reverse=True is stable as well). */
module Sorting {

  ghost predicate SortedBy<T>(key: T -> int, s: seq<T>) {
    forall i, j :: 0 <= i < j < |s| ==> key(s[i]) <= key(s[j])
  }

  function Insert<T>(key: T -> int, x: T, s: seq<T>): (r: seq<T>)
    ensures |r| == |s| + 1
  {
    if s == [] then [x]
    else if key(x) <= key(s[0]) then [x] + s
    else [s[0]] + Insert(key, x, s[1..])
  }

  /** The first element is inserted last, before its equals, so equal keys keep their order. */
  function SortBy<T>(key: T -> int, s: seq<T>): (r: seq<T>)
    ensures |r| == |s|
  {
    if s == [] then [] else Insert(key, s[0], SortBy(key, s[1..]))
  }

  lemma {:induction false} InsertAdds<T>(key: T -> int, x: T, s: seq<T>)
    ensures multiset(Insert(key, x, s)) == multiset{x} + multiset(s)
  {
    if s != [] && key(x) > key(s[0]) {
      InsertAdds(key, x, s[1..]);
      assert s == [s[0]] + s[1..];
    }
  }

  lemma {:induction false} InsertKeeps<T>(key: T -> int, x: T, s: seq<T>)
    requires SortedBy(key, s)
    ensures SortedBy(key, Insert(key, x, s))
  {
    if s != [] && key(x) > key(s[0]) {
      InsertKeeps(key, x, s[1..]);
      InsertAbove(key, x, s[1..], key(s[0]));
      PrependSorted(key, s[0], Insert(key, x, s[1..]));
    } else if s != [] {
      PrependSorted(key, x, s);
    }
  }

  lemma {:induction false} PrependSorted<T>(key: T -> int, y: T, t: seq<T>)
    requires SortedBy(key, t) && forall j :: 0 <= j < |t| ==> key(y) <= key(t[j])
    ensures SortedBy(key, [y] + t)
  {
    var r := [y] + t;
    forall i, j | 0 <= i < j < |r|
      ensures key(r[i]) <= key(r[j])
    {
      assert r[j] == t[j - 1] && r[i] == if i == 0 then y else t[i - 1];
    }
  }

  /** Nothing below the least of the elements comes in. */
  lemma {:induction false} InsertAbove<T>(key: T -> int, x: T, s: seq<T>, low: int)
    requires low <= key(x) && forall i :: 0 <= i < |s| ==> low <= key(s[i])
    ensures forall j :: 0 <= j < |Insert(key, x, s)| ==> low <= key(Insert(key, x, s)[j])
  {
    var r := Insert(key, x, s);
    if s != [] && key(x) > key(s[0]) {
      InsertAbove(key, x, s[1..], low);
      var t := Insert(key, x, s[1..]);
      forall j | 0 <= j < |r|
        ensures low <= key(r[j])
      {
        assert r[j] == if j == 0 then s[0] else t[j - 1];
      }
    } else {
      forall j | 0 <= j < |r|
        ensures low <= key(r[j])
      {
        assert r[j] == if j == 0 then x else s[j - 1];
      }
    }
  }

  /** Sorting orders the elements and neither loses nor invents one. */
  lemma {:induction false} SortBySorts<T>(key: T -> int, s: seq<T>)
    ensures SortedBy(key, SortBy(key, s))
    ensures multiset(SortBy(key, s)) == multiset(s)
  {
    if s != [] {
      SortBySorts(key, s[1..]);
      InsertKeeps(key, s[0], SortBy(key, s[1..]));
      InsertAdds(key, s[0], SortBy(key, s[1..]));
      assert s == [s[0]] + s[1..];
    }
  }

  // ----- where the elements come from -----

  /** Every number below n once */
  ghost predicate Permutation(perm: seq<nat>, n: nat) {
    && |perm| == n && (forall i :: 0 <= i < n ==> perm[i] < n)
    && (forall i, j :: 0 <= i < j < n ==> perm[i] != perm[j])
    && forall t: nat :: t < n ==> t in perm
  }

  /** Ascending in the key, and in the given order among equals. */
  ghost predicate StableOrder<T>(key: T -> int, s: seq<T>, perm: seq<nat>)
    requires forall i :: 0 <= i < |perm| ==> perm[i] < |s|
  {
    forall i, j :: 0 <= i < j < |perm| ==>
                     key(s[perm[i]]) < key(s[perm[j]]) || (key(s[perm[i]]) == key(s[perm[j]]) && perm[i] < perm[j])
  }

  ghost predicate Rearranges<T>(r: seq<T>, s: seq<T>, perm: seq<nat>) {
    Permutation(perm, |s|) && |r| == |s| && forall i :: 0 <= i < |s| ==> r[i] == s[perm[i]]
  }

  /** Where the element goes in. */
  function InsertAt<T>(key: T -> int, x: T, s: seq<T>): (k: nat)
    ensures k <= |s|
  {
    if s == [] || key(x) <= key(s[0]) then 0 else 1 + InsertAt(key, x, s[1..])
  }

  lemma {:induction false} InsertedAt<T>(key: T -> int, x: T, s: seq<T>, i: nat)
    requires i <= |s|
    ensures var k := InsertAt(key, x, s);
            Insert(key, x, s)[i] == if i < k then s[i] else if i == k then x else s[i - 1]
  {
    if s != [] && key(x) > key(s[0]) && i > 0 {
      InsertedAt(key, x, s[1..], i - 1);
    }
  }

  lemma {:induction false} InsertAtFirst<T>(key: T -> int, x: T, s: seq<T>, i: nat)
    requires i < |s|
    ensures var k := InsertAt(key, x, s);
            (i == k ==> key(x) <= key(s[i])) && (i < k ==> key(s[i]) < key(x))
  {
    if key(x) > key(s[0]) && i > 0 {
      InsertAtFirst(key, x, s[1..], i - 1);
    }
  }

  /** The sorted list is a rearrangement of the given one in stable order, which determines it. */
  lemma {:induction false} SortPositions<T>(key: T -> int, s: seq<T>) returns (perm: seq<nat>)
    ensures Rearranges(SortBy(key, s), s, perm) && StableOrder(key, s, perm)
  {
    perm := [];
    if s != [] {
      var before := SortPositions(key, s[1..]);
      SortBySorts(key, s[1..]);
      perm := SortedOneMore(key, s, SortBy(key, s[1..]), before);
    }
  }

  /** The positions in s, when its first element goes in at k and the others have these positions among them. */
  function Position(before: seq<nat>, k: nat, i: nat): nat
    requires k <= |before| && i <= |before|
  {
    if i < k then before[i] + 1 else if i == k then 0 else before[i - 1] + 1
  }

  lemma {:induction false} PositionHit(before: seq<nat>, n: nat, k: nat, t: nat) returns (i: nat)
    requires Permutation(before, n) && k <= n && t <= n
    ensures i <= n && Position(before, k, i) == t
  {
    if t == 0 {
      i := k;
    } else {
      assert t - 1 in before;
      var j :| 0 <= j < n && before[j] == t - 1;
      i := if j < k then j else j + 1;
    }
  }

  lemma {:induction false} SortedOneMore<T>(key: T -> int, s: seq<T>, r: seq<T>, before: seq<nat>)
    returns (perm: seq<nat>)
    requires s != [] && Rearranges(r, s[1..], before) && StableOrder(key, s[1..], before) && SortedBy(key, r)
    ensures Rearranges(Insert(key, s[0], r), s, perm) && StableOrder(key, s, perm)
  {
    var k := InsertAt(key, s[0], r);
    perm := seq(|s|, i requires 0 <= i < |s| => Position(before, k, i));
    hide SortedBy, Position, Insert, InsertAt;
    forall i | 0 <= i < |s|
      ensures perm[i] < |s| && Insert(key, s[0], r)[i] == s[perm[i]]
    {
      PositionHolds(key, s, r, before, i);
    }
    forall t: nat | t < |s|
      ensures t in perm
    {
      var i := PositionHit(before, |s| - 1, k, t);
      assert perm[i] == t;
    }
    hide Rearranges, StableOrder;
    forall i, j | 0 <= i < j < |s|
      ensures perm[i] < |s| && perm[j] < |s| && perm[i] != perm[j]
      ensures key(s[perm[i]]) < key(s[perm[j]]) || (key(s[perm[i]]) == key(s[perm[j]]) && perm[i] < perm[j])
    {
      InsertedInOrder(key, s, r, before, i, j);
    }
    PermutationOf(perm, |s|);
    RearrangesBy(Insert(key, s[0], r), s, perm);
    StablyBy(key, s, perm);
  }

  lemma {:induction false} PermutationOf(perm: seq<nat>, n: nat)
    requires |perm| == n && forall i :: 0 <= i < n ==> perm[i] < n
    requires forall i, j :: 0 <= i < j < n ==> perm[i] != perm[j]
    requires forall t: nat :: t < n ==> t in perm
    ensures Permutation(perm, n)
  {
  }

  lemma {:induction false} RearrangesBy<T>(r: seq<T>, s: seq<T>, perm: seq<nat>)
    requires Permutation(perm, |s|) && |r| == |s| && forall i :: 0 <= i < |s| ==> perm[i] < |s| && r[i] == s[perm[i]]
    ensures Rearranges(r, s, perm)
  {
  }

  lemma {:induction false} StablyBy<T>(key: T -> int, s: seq<T>, perm: seq<nat>)
    requires forall i :: 0 <= i < |perm| ==> perm[i] < |s|
    requires forall i, j :: 0 <= i < j < |perm| ==>
               key(s[perm[i]]) < key(s[perm[j]]) || (key(s[perm[i]]) == key(s[perm[j]]) && perm[i] < perm[j])
    ensures StableOrder(key, s, perm)
  {
  }

  lemma {:induction false} PositionHolds<T>(key: T -> int, s: seq<T>, r: seq<T>, before: seq<nat>, i: nat)
    requires s != [] && Rearranges(r, s[1..], before) && i < |s|
    ensures var p := Position(before, InsertAt(key, s[0], r), i);
            p < |s| && Insert(key, s[0], r)[i] == s[p]
  {
    InsertedAt(key, s[0], r, i);
    hide Insert, InsertAt;
    var k, t := InsertAt(key, s[0], r), s[1..];
    if i < k {
      assert r[i] == t[before[i]] == s[before[i] + 1];
    } else if i > k {
      assert r[i - 1] == t[before[i - 1]] == s[before[i - 1] + 1];
    }
  }

  lemma {:induction false} InsertedInOrder<T>(key: T -> int, s: seq<T>, r: seq<T>, before: seq<nat>, i: nat, j: nat)
    requires s != [] && Rearranges(r, s[1..], before) && StableOrder(key, s[1..], before) && SortedBy(key, r)
    requires i < j < |s|
    ensures var k := InsertAt(key, s[0], r);
            var a, b := Position(before, k, i), Position(before, k, j);
            && a != b && a < |s| && b < |s|
            && (key(s[a]) < key(s[b]) || (key(s[a]) == key(s[b]) && a < b))
  {
    hide InsertAt;
    var k, t := InsertAt(key, s[0], r), s[1..];
    if i == k {
      InsertAtFirst(key, s[0], r, k);
      assert r[j - 1] == t[before[j - 1]] == s[before[j - 1] + 1];
      assert key(r[k]) <= key(r[j - 1]);
    } else if j == k {
      InsertAtFirst(key, s[0], r, i);
      assert r[i] == t[before[i]] == s[before[i] + 1];
    } else {
      var x, y := if i < k then i else i - 1, if j < k then j else j - 1;
      assert t[before[x]] == s[before[x] + 1] && t[before[y]] == s[before[y] + 1];
    }
  }

  /** Lists with the same elements are rearrangements of each other. */
  lemma {:induction false} SameElements<T>(r: seq<T>, s: seq<T>) returns (perm: seq<nat>)
    requires multiset(r) == multiset(s)
    ensures Rearranges(r, s, perm)
    decreases |r|
  {
    perm := [];
    if r == [] {
      assert |multiset(s)| == 0;
    } else {
      var k := FirstFound(r, s);
      var before := SameElements(r[1..], s[..k] + s[k + 1..]);
      perm := PutBack(r, s, k, before);
    }
  }

  lemma {:induction false} FirstFound<T>(r: seq<T>, s: seq<T>) returns (k: nat)
    requires r != [] && multiset(r) == multiset(s)
    ensures k < |s| && s[k] == r[0] && multiset(r[1..]) == multiset(s[..k] + s[k + 1..])
  {
    HeadIn(r, s);
    k := FindIn(s, r[0]);
    TakeOut(s, k);
    TakeHead(r);
  }

  lemma {:induction false} HeadIn<T>(r: seq<T>, s: seq<T>)
    requires r != [] && multiset(r) == multiset(s)
    ensures r[0] in s
  {
    assert r[0] in multiset(r);
  }

  lemma {:induction false} FindIn<T>(s: seq<T>, x: T) returns (k: nat)
    requires x in s
    ensures k < |s| && s[k] == x
  {
    k := 0;
    if s[0] != x {
      var rest := FindIn(s[1..], x);
      k := 1 + rest;
    }
  }

  lemma {:induction false} TakeHead<T>(r: seq<T>)
    requires r != []
    ensures multiset(r[1..]) == multiset(r) - multiset{r[0]}
  {
    assert r == [r[0]] + r[1..];
  }

  lemma {:induction false} TakeOut<T>(s: seq<T>, k: nat)
    requires k < |s|
    ensures multiset(s[..k] + s[k + 1..]) == multiset(s) - multiset{s[k]}
  {
    assert s == s[..k] + [s[k]] + s[k + 1..];
  }

  /** The positions in s, when its element k comes first and the others have these positions among them. */
  function PositionBack(before: seq<nat>, k: nat, i: nat): nat
    requires i <= |before|
  {
    if i == 0 then k else if before[i - 1] < k then before[i - 1] else before[i - 1] + 1
  }

  lemma {:induction false} PutBack<T>(r: seq<T>, s: seq<T>, k: nat, before: seq<nat>) returns (perm: seq<nat>)
    requires r != [] && k < |s| && s[k] == r[0] && Rearranges(r[1..], s[..k] + s[k + 1..], before)
    ensures Rearranges(r, s, perm)
  {
    PermutationOfRest(r, s, k, before);
    perm := seq(|s|, i requires 0 <= i < |s| => PositionBack(before, k, i));
    hide Rearranges, PositionBack;
    forall i | 0 <= i < |s|
      ensures perm[i] < |s| && r[i] == s[perm[i]]
    {
      BackHolds(r, s, k, before, i);
    }
    forall i, j | 0 <= i < j < |s|
      ensures perm[i] != perm[j]
    {
      BackDistinct(before, |before|, k, i, j);
    }
    forall t: nat | t < |s|
      ensures t in perm
    {
      var i := BackHit(before, |before|, k, t);
      assert perm[i] == t;
    }
    PermutationOf(perm, |s|);
    RearrangesBy(r, s, perm);
  }

  lemma {:induction false} PermutationOfRest<T>(r: seq<T>, s: seq<T>, k: nat, before: seq<nat>)
    requires r != [] && k < |s| && Rearranges(r[1..], s[..k] + s[k + 1..], before)
    ensures |before| == |s| - 1 == |r| - 1 && Permutation(before, |s| - 1)
  {
  }

  lemma {:induction false} BackHolds<T>(r: seq<T>, s: seq<T>, k: nat, before: seq<nat>, i: nat)
    requires r != [] && k < |s| && s[k] == r[0] && Rearranges(r[1..], s[..k] + s[k + 1..], before)
    requires |before| == |s| - 1 && i < |s|
    ensures PositionBack(before, k, i) < |s| && i < |r| && r[i] == s[PositionBack(before, k, i)]
  {
    if i > 0 {
      var rest := s[..k] + s[k + 1..];
      assert r[i] == r[1..][i - 1] == rest[before[i - 1]];
    }
  }

  lemma {:induction false} BackDistinct(before: seq<nat>, n: nat, k: nat, i: nat, j: nat)
    requires Permutation(before, n) && i < j <= n
    ensures PositionBack(before, k, i) != PositionBack(before, k, j)
  {
  }

  lemma {:induction false} BackHit(before: seq<nat>, n: nat, k: nat, t: nat) returns (i: nat)
    requires Permutation(before, n) && k <= n && t <= n
    ensures i <= n && PositionBack(before, k, i) == t
  {
    i := 0;
    if t != k {
      var u := if t < k then t else t - 1;
      assert u in before;
      var j :| 0 <= j < |before| && before[j] == u;
      i := j + 1;
    }
  }
}
