/** The dynamic program of constructTreeTopologyUsingDP: its recurrence as functions, and the
    table-filling loops proved against them. */
module TopologyDP {
  import opened Arith
  import opened Sums
  import opened LeastLatency

  /** Python's float('inf') beside the exact costs. */
  datatype Price = Inf | Fin(value: nat) {
    predicate LessEqual(other: Price) {
      other.Inf? || (Fin? && value <= other.value)
    }

    function Plus(x: nat): Price {
      if Inf? then Inf else Fin(value + x)
    }
  }

  /** k: the arity; d: the greatest depth; a: the latencies of the padded leaves, in descending order. */
  datatype Instance = Instance(k: nat, d: nat, a: seq<nat>) {
    ghost predicate Valid() {
      && k >= 2 && d >= 1
      && |a| == d * (k - 1) + 1
      && Descending(a)
    }

    function N(): nat {
      |a|
    }
  }

  /** The child slots that i nodes have. */
  function Slots(k: nat, i: nat): nat {
    i * k
  }

  /** The position of the smallest price, the last one if there are several. */
  function LastMin(c: seq<Price>): (r: nat)
    requires c != []
    ensures r < |c|
    ensures forall j :: 0 <= j < |c| ==> c[r].LessEqual(c[j])
    ensures forall j :: r < j < |c| ==> !c[j].LessEqual(c[r])
  {
    if |c| == 1 then 0
    else
      var r := LastMin(c[..|c| - 1]);
      if c[|c| - 1].LessEqual(c[r]) then |c| - 1 else r
  }

  /** The cost of placing the last n leaves at depth d. */
  function AllAt(p: Instance, d: nat, n: nat): nat
    requires n <= p.N()
  {
    Sum(p.a[p.N() - n..]) * d
  }

  /** The cost of placing the x heaviest of the last n leaves at depth d. */
  function HeadAt(p: Instance, d: nat, n: nat, x: nat): nat
    requires x <= n <= p.N()
  {
    Sum(p.a[p.N() - n..p.N() - n + x]) * d
  }

  /** The least cost of placing the last n leaves when i nodes at depth d - 1 may have children:
      v[d - 1][i - 1][n - 1] of the table. */
  function Best(p: Instance, d: nat, i: nat, n: nat): Price
    requires n <= p.N() && d <= p.d
    decreases p.d - d, 2
  {
    if Slots(p.k, i) >= n then Fin(AllAt(p, d, n))
    else if d == p.d || Slots(p.k, i) == 0 then Inf
    else
      var c := Candidates(p, d, i, n);
      c[LastMin(c)]
  }

  /** The cost when x leaves stay at depth d and the other i * k - x nodes there have children. */
  function Candidate(p: Instance, d: nat, i: nat, n: nat, x: nat): Price
    requires n <= p.N() && d < p.d && x < Slots(p.k, i) < n
    decreases p.d - d, 0
  {
    if Slots(p.k, Slots(p.k, i) - x) >= n - x then Fin(HeadAt(p, d, n, x) + AllAt(p, d + 1, n - x))
    else Best(p, d + 1, Slots(p.k, i) - x, n - x).Plus(HeadAt(p, d, n, x))
  }

  function Candidates(p: Instance, d: nat, i: nat, n: nat): (c: seq<Price>)
    requires n <= p.N() && d < p.d && 0 < Slots(p.k, i) < n
    ensures |c| == Slots(p.k, i)
    ensures forall x :: 0 <= x < |c| ==> c[x] == Candidate(p, d, i, n, x)
    decreases p.d - d, 1
  {
    seq(Slots(p.k, i), x requires 0 <= x < Slots(p.k, i) => Candidate(p, d, i, n, x))
  }

  /** The number of leaves that stay at depth d on the chosen path. */
  function Choice(p: Instance, d: nat, i: nat, n: nat): (x: nat)
    requires n <= p.N() && d < p.d && 0 < Slots(p.k, i) < n
    ensures x < Slots(p.k, i)
  {
    LastMin(Candidates(p, d, i, n))
  }

  /** The leaf counts per depth on the chosen path, from depth d on. */
  function Profile(p: Instance, d: nat, i: nat, n: nat): seq<nat>
    requires n <= p.N() && d <= p.d
    decreases p.d - d
  {
    if Slots(p.k, i) >= n then [n]
    else if d == p.d || Slots(p.k, i) == 0 then seq(p.d, _ => 0)
    else
      var x := Choice(p, d, i, n);
      if Slots(p.k, Slots(p.k, i) - x) >= n - x then [x, n - x]
      else [x] + Profile(p, d + 1, Slots(p.k, i) - x, n - x)
  }

  /** The width of the table at depth index d: no more nodes than ceil(N / K), nor than K^d. */
  function Width(p: Instance, d: nat): nat
    requires p.k > 0
  {
    Min(CeilDiv(p.N(), p.k), Pow(p.k, d))
  }

  /** The cell that a candidate looks up lies inside the narrower of the two bounds. */
  lemma {:induction false} LookupInRange(p: Instance, d: nat, i: nat, n: nat, x: nat)
    requires p.k > 0 && n <= p.N() && 1 <= d < p.d && 1 <= i <= Width(p, d - 1) && x < Slots(p.k, i) < n
    requires Slots(p.k, Slots(p.k, i) - x) < n - x
    ensures 1 <= Slots(p.k, i) - x <= Width(p, d)
  {
    MulMonotone(i, Pow(p.k, d - 1), p.k);
    CeilDivBounds(p.N(), p.k);
    if Slots(p.k, i) - x > CeilDiv(p.N(), p.k) {
      MulMonotone(CeilDiv(p.N(), p.k), Slots(p.k, i) - x, p.k);
    }
  }

  /** min() and the largest index at which it occurs. */
  method MinimumLastIndex(c: seq<Price>) returns (best: Price, at: nat)
    requires c != []
    ensures at == LastMin(c) && best == c[at]
  {
    best, at := c[0], 0;
    for j := 1 to |c|
      invariant at == LastMin(c[..j]) && best == c[at]
    {
      assert c[..j + 1][..j] == c[..j];
      if c[j].LessEqual(best) {
        best, at := c[j], j;
      }
    }
    assert c[..|c|] == c;
  }

  /** Line i of row d: the prices for every number of leaves. */
  function PriceLine(p: Instance, d: nat, i: nat): (line: seq<Price>)
    requires d <= p.d
    ensures |line| == p.N()
  {
    seq(p.N(), n requires 0 <= n < p.N() => Best(p, d, i, n + 1))
  }

  function ProfileLine(p: Instance, d: nat, i: nat): (line: seq<seq<nat>>)
    requires d <= p.d
    ensures |line| == p.N()
  {
    seq(p.N(), n requires 0 <= n < p.N() => Profile(p, d, i, n + 1))
  }

  /** Row d of the table holds the prices of all its cells. */
  ghost predicate Filled(p: Instance, d: nat, row: array<seq<Price>>)
    requires p.k > 0 && 1 <= d <= p.d
    reads row
  {
    && row.Length == Width(p, d - 1)
    && forall i :: 0 <= i < row.Length ==> row[i] == PriceLine(p, d, i + 1)
  }

  /** The leaf counts of row d; the array is as long as the longest row. */
  ghost predicate Profiled(p: Instance, d: nat, leaves: array<seq<seq<nat>>>)
    requires p.k > 0 && 1 <= d <= p.d
    reads leaves
  {
    && leaves.Length == Width(p, p.d - 1)
    && forall i :: 0 <= i < Width(p, d - 1) && i < leaves.Length ==> leaves[i] == ProfileLine(p, d, i + 1)
  }

  /** One candidate: x leaves at depth d, the rest either all at depth d + 1 or priced by the row below. */
  method PriceSplit(p: Instance, d: nat, i: nat, n: nat, x: nat, below: array<seq<Price>>) returns (price: Price)
    requires p.k > 0 && n <= p.N() && 1 <= d < p.d && 1 <= i <= Width(p, d - 1) && x < Slots(p.k, i) < n
    requires Filled(p, d + 1, below)
    ensures price == Candidate(p, d, i, n, x)
  {
    hide Width, Slots, Best;
    var start, internals := p.N() - n, Slots(p.k, i) - x;
    var here := Sum(p.a[start..start + x]) * d;
    if Slots(p.k, internals) >= n - x {
      assert start + x == p.N() - (n - x);
      price := Fin(here + Sum(p.a[start + x..]) * (d + 1));
    } else {
      LookupInRange(p, d, i, n, x);
      price := below[internals - 1][n - x - 1].Plus(here);
      assert below[internals - 1][n - x - 1] == Best(p, d + 1, internals, n - x);
    }
  }

  /** The loop over all splits of one cell. */
  method PriceCandidates(p: Instance, d: nat, i: nat, n: nat, below: array<seq<Price>>)
    returns (c: seq<Price>)
    requires p.k > 0 && n <= p.N() && 1 <= d < p.d && 1 <= i <= Width(p, d - 1) && 0 < Slots(p.k, i) < n
    requires Filled(p, d + 1, below)
    ensures c == Candidates(p, d, i, n)
  {
    hide Filled, Slots;
    c := [];
    for x := 0 to Slots(p.k, i)
      invariant |c| == x
      invariant forall y :: 0 <= y < x ==> c[y] == Candidate(p, d, i, n, y)
    {
      var price := PriceSplit(p, d, i, n, x, below);
      c := c + [price];
    }
  }

  lemma {:induction false} WidthMonotone(p: Instance, d: nat, e: nat)
    requires p.k > 0 && d <= e
    ensures Width(p, d) <= Width(p, e)
  {
    PowMonotone(p.k, d, e);
  }

  /** The leaf counts of one cell, once its best split is known. */
  method ChooseProfile(p: Instance, d: nat, i: nat, n: nat, x: nat, leavesBelow: array<seq<seq<nat>>>)
    returns (profile: seq<nat>)
    requires p.k > 0 && 1 <= d < p.d && 1 <= i <= Width(p, d - 1) && 0 < Slots(p.k, i) < n <= p.N()
    requires x == Choice(p, d, i, n) && Profiled(p, d + 1, leavesBelow)
    ensures profile == Profile(p, d, i, n)
  {
    hide Best, Choice, Width, Slots;
    var internals := Slots(p.k, i) - x;
    if Slots(p.k, internals) >= n - x {
      profile := [x, n - x];
    } else {
      LookupInRange(p, d, i, n, x);
      WidthMonotone(p, d, p.d - 1);
      profile := [x] + leavesBelow[internals - 1][n - x - 1];
      assert leavesBelow[internals - 1][n - x - 1] == Profile(p, d + 1, internals, n - x);
    }
  }

  /** One cell of an inner row. */
  method FillCell(p: Instance, d: nat, i: nat, n: nat, below: array<seq<Price>>, leavesBelow: array<seq<seq<nat>>>)
    returns (price: Price, profile: seq<nat>)
    requires p.k > 0 && 1 <= d < p.d && 1 <= i <= Width(p, d - 1) && 1 <= n <= p.N()
    requires Filled(p, d + 1, below) && Profiled(p, d + 1, leavesBelow)
    ensures price == Best(p, d, i, n) && profile == Profile(p, d, i, n)
  {
    hide Filled, Profiled;
    if Slots(p.k, i) >= n {
      price, profile := Fin(Sum(p.a[p.N() - n..]) * d), [n];
    } else {
      MulMonotone(1, i, p.k);
      var candidates := PriceCandidates(p, d, i, n, below);
      var x;
      price, x := MinimumLastIndex(candidates);
      profile := ChooseProfile(p, d, i, n, x, leavesBelow);
    }
  }

  /** One line of an inner row. */
  method FillLine(p: Instance, d: nat, i: nat, below: array<seq<Price>>, leavesBelow: array<seq<seq<nat>>>)
    returns (prices: seq<Price>, profiles: seq<seq<nat>>)
    requires p.k > 0 && 1 <= d < p.d && 1 <= i <= Width(p, d - 1)
    requires Filled(p, d + 1, below) && Profiled(p, d + 1, leavesBelow)
    ensures prices == PriceLine(p, d, i) && profiles == ProfileLine(p, d, i)
  {
    hide Best, Profile, Filled, Profiled, Width;
    prices, profiles := seq(p.N(), _ => Inf), seq(p.N(), _ => seq(p.d, _ => 0));
    for n := 0 to p.N()
      invariant |prices| == |profiles| == p.N()
      invariant forall m :: 0 <= m < n ==> prices[m] == Best(p, d, i, m + 1)
      invariant forall m :: 0 <= m < n ==> profiles[m] == Profile(p, d, i, m + 1)
    {
      var price, profile := FillCell(p, d, i, n + 1, below, leavesBelow);
      prices, profiles := prices[n := price], profiles[n := profile];
    }
  }

  /** An inner row, from the one below it. */
  method FillRow(p: Instance, d: nat, below: array<seq<Price>>, leavesBelow: array<seq<seq<nat>>>)
    returns (row: array<seq<Price>>, leaves: array<seq<seq<nat>>>)
    requires p.k > 0 && 1 <= d < p.d
    requires Filled(p, d + 1, below) && Profiled(p, d + 1, leavesBelow)
    ensures fresh(row) && fresh(leaves)
    ensures Filled(p, d, row) && Profiled(p, d, leaves)
  {
    hide PriceLine, ProfileLine, Best, Profile, Width;
    var width := Width(p, d - 1);
    WidthMonotone(p, d - 1, p.d - 1);
    row := new seq<Price>[width];
    leaves := new seq<seq<nat>>[Width(p, p.d - 1)];
    for i := 0 to width
      invariant forall j :: 0 <= j < i ==> row[j] == PriceLine(p, d, j + 1)
      invariant forall j :: 0 <= j < i ==> leaves[j] == ProfileLine(p, d, j + 1)
    {
      var prices, profiles := FillLine(p, d, i + 1, below, leavesBelow);
      row[i] := prices;
      leaves[i] := profiles;
    }
  }

  lemma {:induction false} LastRowCell(p: Instance, i: nat, n: nat)
    requires n <= p.N()
    ensures Best(p, p.d, i, n) == if Slots(p.k, i) >= n then Fin(Sum(p.a[p.N() - n..]) * p.d) else Inf
    ensures Profile(p, p.d, i, n) == if Slots(p.k, i) >= n then [n] else seq(p.d, _ => 0)
  {
  }

  /** A line of the base case: at the greatest depth everything must fit, or the cell stays infinite. */
  method FillLastLine(p: Instance, i: nat) returns (prices: seq<Price>, profiles: seq<seq<nat>>)
    requires p.k > 0 && 1 <= p.d
    ensures prices == PriceLine(p, p.d, i) && profiles == ProfileLine(p, p.d, i)
  {
    hide Best, Profile, Slots, Sum;
    prices, profiles := seq(p.N(), _ => Inf), seq(p.N(), _ => seq(p.d, _ => 0));
    for n := 0 to p.N()
      invariant |prices| == |profiles| == p.N()
      invariant forall m :: 0 <= m < n ==> prices[m] == Best(p, p.d, i, m + 1)
      invariant forall m :: 0 <= m < n ==> profiles[m] == Profile(p, p.d, i, m + 1)
      invariant forall m :: n <= m < p.N() ==> prices[m] == Inf && profiles[m] == seq(p.d, _ => 0)
    {
      LastRowCell(p, i, n + 1);
      if Slots(p.k, i) >= n + 1 {
        prices := prices[n := Fin(Sum(p.a[p.N() - (n + 1)..]) * p.d)];
        profiles := profiles[n := [n + 1]];
      }
    }
  }

  /** The base case. */
  method FillLastRow(p: Instance) returns (row: array<seq<Price>>, leaves: array<seq<seq<nat>>>)
    requires p.k > 0 && 1 <= p.d
    ensures fresh(row) && fresh(leaves)
    ensures Filled(p, p.d, row) && Profiled(p, p.d, leaves)
  {
    hide PriceLine, ProfileLine, Width;
    var width := Width(p, p.d - 1);
    row := new seq<Price>[width];
    leaves := new seq<seq<nat>>[width];
    for i := 0 to width
      invariant forall j :: 0 <= j < i ==> row[j] == PriceLine(p, p.d, j + 1)
      invariant forall j :: 0 <= j < i ==> leaves[j] == ProfileLine(p, p.d, j + 1)
    {
      var prices, profiles := FillLastLine(p, i + 1);
      row[i] := prices;
      leaves[i] := profiles;
    }
  }

  /** The whole table, bottom row first; the answer is the profile of the root cell. */
  method SolveTable(p: Instance) returns (best: Price, profile: seq<nat>)
    requires p.k > 0 && 1 <= p.d && p.N() > 0
    ensures best == Best(p, 1, 1, p.N()) && profile == Profile(p, 1, 1, p.N())
  {
    var row, leaves := FillLastRow(p);
    var d := p.d;
    while d > 1
      invariant 1 <= d <= p.d
      invariant Filled(p, d, row) && Profiled(p, d, leaves)
    {
      row, leaves := FillRow(p, d - 1, row, leaves);
      d := d - 1;
    }
    RootInTable(p);
    best, profile := row[0][p.N() - 1], leaves[0][p.N() - 1];
  }

  lemma {:induction false} RootInTable(p: Instance)
    requires p.k > 0 && p.N() > 0 && 1 <= p.d
    ensures Width(p, 0) == 1 && Width(p, p.d - 1) >= 1
  {
    CeilDivBounds(p.N(), p.k);
    PowPositive(p.k, p.d - 1);
    WidthMonotone(p, 0, p.d - 1);
  }
}
