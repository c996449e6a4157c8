/** The rearrangement argument: any m distinct clients of a list in descending order weigh at least
    as much as its last m clients. */
module LeastLatency {
  import opened Arith
  import opened Sums
  import opened Trees

  ghost predicate Descending(a: seq<nat>) {
    forall i, j :: 0 <= i < j < |a| ==> a[i] >= a[j]
  }

  /** The latencies of the clients in m, each taken as often as it occurs; only clients below c count. */
  ghost function Weight(a: seq<nat>, m: multiset<nat>, c: nat): nat
    requires c <= |a|
  {
    if c == 0 then 0 else Weight(a, m, c - 1) + m[c - 1] * a[c - 1]
  }

  lemma {:induction false} WeightAdd(a: seq<nat>, m: multiset<nat>, m': multiset<nat>, c: nat)
    requires c <= |a|
    ensures Weight(a, m + m', c) == Weight(a, m, c) + Weight(a, m', c)
  {
    if c > 0 {
      WeightAdd(a, m, m', c - 1);
      Distribute(m[c - 1], m'[c - 1], a[c - 1]);
    }
  }

  lemma {:induction false} WeightSingle(a: seq<nat>, x: nat, c: nat)
    requires c <= |a|
    ensures Weight(a, multiset{x}, c) == if x < c then a[x] else 0
  {
    if c > 0 {
      WeightSingle(a, x, c - 1);
    }
  }

  lemma {:induction false} WeightEmpty(a: seq<nat>, c: nat)
    requires c <= |a|
    ensures Weight(a, multiset{}, c) == 0
  {
    if c > 0 {
      WeightEmpty(a, c - 1);
    }
  }

  lemma {:induction false} TotalLatencyIsWeight(a: seq<nat>, f: seq<Tree>)
    ensures TotalLatency(a, f) == Weight(a, multiset(Clients(f)), |a|)
    decreases f
  {
    if f == [] {
      WeightEmpty(a, |a|);
    } else {
      TotalLatencyIsWeight(a, f[1..]);
      var head := match f[0] case Leaf(c, _, _) => [c] case Node(cs) => Clients(cs);
      assert Clients(f) == head + Clients(f[1..]);
      WeightAdd(a, multiset(head), multiset(Clients(f[1..])), |a|);
      if f[0].Leaf? {
        WeightSingle(a, f[0].client, |a|);
        assert multiset(head) == multiset{f[0].client};
      } else {
        TotalLatencyIsWeight(a, f[0].children);
      }
    }
  }

  /** m distinct clients below c weigh at least as much as the m last of the first c clients. */
  lemma {:induction false} LastAreLeast(a: seq<nat>, m: multiset<nat>, c: nat)
    requires c <= |a| && Descending(a)
    requires forall x :: x in m ==> x < c && m[x] == 1
    ensures |m| <= c
    ensures Sum(a[c - |m|..c]) <= Weight(a, m, c)
    decreases c, 1
  {
    if c == 0 {
      assert m == multiset{};
    } else {
      var last := c - 1;
      if last in m {
        LastTaken(a, m, last);
      } else {
        LastAreLeast(a, m, last);
        LastSkipped(a, m, last);
      }
    }
  }

  /** The last client is in m. */
  lemma {:induction false} LastTaken(a: seq<nat>, m: multiset<nat>, last: nat)
    requires last < |a| && Descending(a) && last in m
    requires forall x :: x in m ==> x <= last && m[x] == 1
    ensures |m| <= last + 1 && Sum(a[last + 1 - |m|..last + 1]) <= Weight(a, m, last + 1)
    decreases last + 1, 0
  {
    hide Sum, Weight;
    var rest := WithoutLast(m, last);
    LastAreLeast(a, rest, last);
    WeightSame(a, m, rest, last);
    SliceGrows(a, last - |rest|, last);
    WeightOnce(a, m, last);
  }

  lemma {:induction false} WithoutLast(m: multiset<nat>, last: nat) returns (rest: multiset<nat>)
    requires last in m && forall x :: x in m ==> x <= last && m[x] == 1
    ensures |m| == |rest| + 1
    ensures forall x :: x in rest ==> x < last && rest[x] == 1
    ensures forall x :: 0 <= x < last ==> m[x] == rest[x]
  {
    rest := m - multiset{last};
    assert m == rest + multiset{last};
  }

  /** It is not. */
  lemma {:induction false} LastSkipped(a: seq<nat>, m: multiset<nat>, last: nat)
    requires last < |a| && Descending(a) && last !in m && |m| <= last
    requires Sum(a[last - |m|..last]) <= Weight(a, m, last)
    ensures Sum(a[last + 1 - |m|..last + 1]) <= Weight(a, m, last + 1)
  {
    hide Sum, Weight;
    SliceMoves(a, last - |m|, last);
    WeightOnce(a, m, last);
  }

  lemma {:induction false} WeightOnce(a: seq<nat>, m: multiset<nat>, last: nat)
    requires last < |a| && m[last] <= 1
    ensures Weight(a, m, last + 1) == Weight(a, m, last) + if last in m then a[last] else 0
  {
    hide Weight;
    WeightStep(a, m, last);
    if last in m {
      assert m[last] == 1;
    }
  }

  lemma {:induction false} WeightStep(a: seq<nat>, m: multiset<nat>, last: nat)
    requires last < |a|
    ensures Weight(a, m, last + 1) == Weight(a, m, last) + m[last] * a[last]
  {
  }

  lemma {:induction false} SliceGrows(a: seq<nat>, low: nat, last: nat)
    requires low <= last < |a|
    ensures Sum(a[low..last + 1]) == Sum(a[low..last]) + a[last]
  {
    hide Sum;
    assert a[low..last + 1] == a[low..last] + [a[last]];
    SumAppend(a[low..last], a[last]);
  }

  /** A slice of a descending list gets no heavier when it moves on by one. */
  lemma {:induction false} SliceMoves(a: seq<nat>, low: nat, last: nat)
    requires low <= last < |a| && Descending(a)
    ensures Sum(a[low + 1..last + 1]) <= Sum(a[low..last])
  {
    hide Sum;
    var s, t := a[low + 1..last + 1], a[low..last];
    forall i | 0 <= i < |s|
      ensures s[i] <= t[i]
    {
      assert s[i] == a[low + 1 + i] && t[i] == a[low + i];
    }
    SumPointwise(s, t);
  }

  lemma {:induction false} WeightSame(a: seq<nat>, m: multiset<nat>, m': multiset<nat>, c: nat)
    requires c <= |a|
    requires forall x :: 0 <= x < c ==> m[x] == m'[x]
    ensures Weight(a, m, c) == Weight(a, m', c)
  {
    if c > 0 {
      WeightSame(a, m, m', c - 1);
    }
  }
}
