/** Sums of sequences of natural numbers, as Python's sum() computes them, and how they split and change. */
module Sums {

  function Sum(s: seq<nat>): nat {
    if s == [] then 0 else s[0] + Sum(s[1..])
  }

  lemma {:induction false} SumConcat(s: seq<nat>, t: seq<nat>)
    ensures Sum(s + t) == Sum(s) + Sum(t)
  {
    if s == [] {
      assert s + t == t;
    } else {
      assert (s + t)[1..] == s[1..] + t;
      SumConcat(s[1..], t);
    }
  }

  lemma {:induction false} SumSplit(s: seq<nat>, i: nat, j: nat)
    requires i <= j <= |s|
    ensures Sum(s[i..]) == Sum(s[i..j]) + Sum(s[j..])
  {
    assert s[i..] == s[i..j] + s[j..];
    SumConcat(s[i..j], s[j..]);
  }

  lemma {:induction false} SumAppend(s: seq<nat>, x: nat)
    ensures Sum(s + [x]) == Sum(s) + x
  {
    SumConcat(s, [x]);
    assert [x][1..] == [];
  }

  lemma {:induction false} SumPrefix(s: seq<nat>, i: nat)
    requires i < |s|
    ensures Sum(s[..i + 1]) == Sum(s[..i]) + s[i]
  {
    assert s[..i + 1] == s[..i] + [s[i]];
    SumAppend(s[..i], s[i]);
  }

  lemma {:induction false} SumUpdate(s: seq<nat>, i: nat, x: nat)
    requires i < |s|
    ensures Sum(s[i := x]) == Sum(s) - s[i] + x
  {
    if i == 0 {
      assert s[0 := x][1..] == s[1..];
    } else {
      assert s[i := x][1..] == s[1..][i - 1 := x];
      SumUpdate(s[1..], i - 1, x);
    }
  }

  lemma {:induction false} SumElement(s: seq<nat>, i: nat)
    requires i < |s|
    ensures s[i] <= Sum(s)
  {
    if i > 0 {
      SumElement(s[1..], i - 1);
    }
  }

  lemma {:induction false} SumPointwise(s: seq<nat>, t: seq<nat>)
    requires |s| == |t|
    requires forall i :: 0 <= i < |s| ==> s[i] <= t[i]
    ensures Sum(s) <= Sum(t)
  {
    if s != [] {
      SumPointwise(s[1..], t[1..]);
    }
  }

  lemma {:induction false} SumStrict(s: seq<nat>, t: seq<nat>, k: nat)
    requires |s| == |t| && k < |s| && s[k] < t[k]
    requires forall i :: 0 <= i < |s| ==> s[i] <= t[i]
    ensures Sum(s) < Sum(t)
  {
    if k == 0 {
      SumPointwise(s[1..], t[1..]);
    } else {
      SumStrict(s[1..], t[1..], k - 1);
    }
  }

  /** A sum is at most its length times any bound on its elements. */
  lemma {:induction false} SumBound(s: seq<nat>, bound: nat)
    requires forall i :: 0 <= i < |s| ==> s[i] <= bound
    ensures Sum(s) <= |s| * bound
  {
    if s != [] {
      SumBound(s[1..], bound);
    }
  }

  lemma {:induction false} SumZeros(s: seq<nat>)
    requires forall i :: 0 <= i < |s| ==> s[i] == 0
    ensures Sum(s) == 0
  {
    if s != [] {
      SumZeros(s[1..]);
    }
  }
}
