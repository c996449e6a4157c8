/** How a tagged union's payload is cut into lanes: the members are sorted by width, every new width cuts a
    lane off, and a member uses the lanes up to its own width. */
module UnionSplits {
  import opened Arith
  import opened Sums
  import opened Sorting

  datatype Member = Member(index: nat, width: nat)

  /** The lane widths, and for each tag how many of the lowest lanes it uses. */
  datatype Layout = Layout(splits: seq<nat>, lanes: map<nat, nat>)

  ghost predicate Distinct(members: seq<Member>) {
    forall i, j :: 0 <= i < j < |members| ==> members[i].index != members[j].index
  }

  ghost predicate Ascending(members: seq<Member>) {
    forall i, j :: 0 <= i < j < |members| ==> members[i].width <= members[j].width
  }

  function ByWidth(members: seq<Member>): (r: seq<Member>)
    ensures |r| == |members|
  {
    SortBy((m: Member) => m.width as int, members)
  }

  /** bitsThusFar after the first n members */
  function Bits(sorted: seq<Member>, n: nat): nat
    requires n <= |sorted|
  {
    if n == 0 then 0 else sorted[n - 1].width
  }

  /** The layout after the first n members in order of width. */
  function Cut(sorted: seq<Member>, n: nat): Layout
    requires n <= |sorted| && Ascending(sorted)
  {
    if n == 0 then Layout([], map[])
    else
      var before := Cut(sorted, n - 1);
      var m := sorted[n - 1];
      var splits := if m.width != Bits(sorted, n - 1) then before.splits + [m.width - Bits(sorted, n - 1)]
                    else before.splits;
      Layout(splits, before.lanes[m.index := |splits|])
  }

  lemma {:induction false} ByWidthSorts(members: seq<Member>)
    ensures Ascending(ByWidth(members)) && multiset(ByWidth(members)) == multiset(members)
  {
    var key := (m: Member) => m.width as int;
    SortBySorts(key, members);
    var s := ByWidth(members);
    forall i, j | 0 <= i < j < |s|
      ensures s[i].width <= s[j].width
    {
      assert key(s[i]) <= key(s[j]);
    }
  }

  function LayoutOf(members: seq<Member>): Layout {
    ByWidthSorts(members);
    Cut(ByWidth(members), |members|)
  }

  /** One bit per member; the first `lanes` are set. */
  function Enables(n: nat, lanes: nat): (r: seq<nat>)
    ensures |r| == n
  {
    seq(n, k => if k < lanes then 1 else 0)
  }

  lemma {:induction false} EnableNext(after: seq<nat>, n: nat, lanes: nat)
    requires lanes < n && after == Enables(n, lanes)[lanes := 1]
    ensures after == Enables(n, lanes + 1)
  {
  }

  lemma {:induction false} EnablesNone(zeros: seq<nat>)
    requires forall k :: 0 <= k < |zeros| ==> zeros[k] == 0
    ensures zeros == Enables(|zeros|, 0)
  {
  }

  lemma {:induction false} CutNone(sorted: seq<Member>)
    requires Ascending(sorted)
    ensures Cut(sorted, 0) == Layout([], map[]) && Bits(sorted, 0) == 0
  {
  }

  /** What member n adds to the layout. */
  lemma {:induction false} CutStepOf(sorted: seq<Member>, n: nat)
    requires Ascending(sorted) && n < |sorted|
    ensures var before, m := Cut(sorted, n), sorted[n];
            var splits := if m.width != Bits(sorted, n) then before.splits + [m.width - Bits(sorted, n)]
                          else before.splits;
            Cut(sorted, n + 1) == Layout(splits, before.lanes[m.index := |splits|])
    ensures Bits(sorted, n) <= sorted[n].width == Bits(sorted, n + 1)
  {
  }

  // ----- what the cuts mean -----

  /** Bits below lane k */
  function Offset(splits: seq<nat>, k: nat): nat
    requires k <= |splits|
  {
    Sum(splits[..k])
  }

  /** Every lane has at least one bit, every member's lanes add up to its width, and every cut is at the
      width of some member. */
  ghost predicate Exact(l: Layout, members: seq<Member>, n: nat) {
    && n <= |members|
    && (forall k :: 0 <= k < |l.splits| ==> l.splits[k] > 0)
    && (forall i :: 0 <= i < n ==> Fitted(l, members[i]))
    && (forall k :: 0 < k <= |l.splits| ==> IsWidth(members, n, Offset(l.splits, k)))
  }

  ghost predicate Fitted(l: Layout, m: Member) {
    m.index in l.lanes && l.lanes[m.index] <= |l.splits| && Offset(l.splits, l.lanes[m.index]) == m.width
  }

  ghost predicate IsWidth(members: seq<Member>, n: nat, w: nat) {
    exists i :: 0 <= i < n <= |members| && members[i].width == w
  }

  lemma {:induction false} CutExact(sorted: seq<Member>, n: nat)
    requires Ascending(sorted) && Distinct(sorted) && n <= |sorted|
    ensures var l := Cut(sorted, n);
            Exact(l, sorted, n) && Sum(l.splits) == Bits(sorted, n)
  {
    if n > 0 {
      CutExact(sorted, n - 1);
      CutStep(sorted, n);
    }
  }

  lemma {:induction false} OffsetPrefix(splits: seq<nat>, more: seq<nat>, k: nat)
    requires k <= |splits|
    ensures Offset(splits + more, k) == Offset(splits, k)
  {
    assert (splits + more)[..k] == splits[..k];
  }

  lemma {:induction false} OffsetAll(splits: seq<nat>)
    ensures Offset(splits, |splits|) == Sum(splits)
  {
    assert splits[..|splits|] == splits;
  }

  /** What one more member adds. */
  lemma {:induction false} CutNext(sorted: seq<Member>, n: nat) returns (more: seq<nat>)
    requires Ascending(sorted) && 0 < n <= |sorted|
    requires Sum(Cut(sorted, n - 1).splits) == Bits(sorted, n - 1)
    ensures var before, after := Cut(sorted, n - 1), Cut(sorted, n);
            && after.splits == before.splits + more && |more| <= 1
            && (forall k :: 0 <= k < |more| ==> more[k] > 0)
            && Sum(after.splits) == sorted[n - 1].width
            && after.lanes == before.lanes[sorted[n - 1].index := |after.splits|]
  {
    var before, w := Cut(sorted, n - 1), sorted[n - 1].width;
    more := if w != Bits(sorted, n - 1) then [w - Bits(sorted, n - 1)] else [];
    if more != [] {
      SumAppend(before.splits, more[0]);
    } else {
      assert before.splits + more == before.splits;
    }
  }

  lemma {:induction false} FittedStays(before: Layout, after: Layout, more: seq<nat>, m: Member)
    requires Fitted(before, m) && after.splits == before.splits + more
    requires m.index in after.lanes && after.lanes[m.index] == before.lanes[m.index]
    ensures Fitted(after, m)
  {
    OffsetPrefix(before.splits, more, before.lanes[m.index]);
  }

  lemma {:induction false} CutFits(sorted: seq<Member>, n: nat, i: nat)
    requires Ascending(sorted) && Distinct(sorted) && i < n <= |sorted|
    requires var l := Cut(sorted, n - 1); Exact(l, sorted, n - 1) && Sum(l.splits) == Bits(sorted, n - 1)
    ensures Fitted(Cut(sorted, n), sorted[i])
  {
    var more := CutNext(sorted, n);
    var before, after := Cut(sorted, n - 1), Cut(sorted, n);
    hide Cut;
    if i < n - 1 {
      assert Fitted(before, sorted[i]);
      FittedStays(before, after, more, sorted[i]);
    } else {
      OffsetAll(after.splits);
    }
  }

  lemma {:induction false} CutAtWidth(sorted: seq<Member>, n: nat, k: nat)
    requires Ascending(sorted) && 0 < n <= |sorted|
    requires var l := Cut(sorted, n - 1); Exact(l, sorted, n - 1) && Sum(l.splits) == Bits(sorted, n - 1)
    requires 0 < k <= |Cut(sorted, n).splits|
    ensures IsWidth(sorted, n, Offset(Cut(sorted, n).splits, k))
  {
    var more := CutNext(sorted, n);
    var before, after := Cut(sorted, n - 1), Cut(sorted, n);
    hide Cut, Fitted, Offset;
    if k <= |before.splits| {
      OffsetPrefix(before.splits, more, k);
      assert IsWidth(sorted, n - 1, Offset(before.splits, k));
      var i :| 0 <= i < n - 1 && sorted[i].width == Offset(before.splits, k);
    } else {
      OffsetAll(after.splits);
      assert sorted[n - 1].width == Offset(after.splits, k);
    }
  }

  lemma {:induction false} CutStep(sorted: seq<Member>, n: nat)
    requires Ascending(sorted) && Distinct(sorted) && 0 < n <= |sorted|
    requires var l := Cut(sorted, n - 1); Exact(l, sorted, n - 1) && Sum(l.splits) == Bits(sorted, n - 1)
    ensures var l := Cut(sorted, n); Exact(l, sorted, n) && Sum(l.splits) == Bits(sorted, n)
  {
    var more := CutNext(sorted, n);
    var after := Cut(sorted, n);
    hide Cut, Fitted, Offset, IsWidth;
    forall i | 0 <= i < n
      ensures Fitted(after, sorted[i])
    {
      CutFits(sorted, n, i);
    }
    forall k | 0 < k <= |after.splits|
      ensures IsWidth(sorted, n, Offset(after.splits, k))
    {
      CutAtWidth(sorted, n, k);
    }
  }

  lemma {:induction false} LayoutExact(members: seq<Member>)
    requires Distinct(members)
    ensures Exact(LayoutOf(members), ByWidth(members), |members|)
    ensures multiset(ByWidth(members)) == multiset(members)
  {
    ByWidthSorts(members);
    SortedDistinct(members, ByWidth(members));
    CutExact(ByWidth(members), |members|);
  }

  /** A member's lanes add up to its width. */
  lemma {:induction false} MemberFits(members: seq<Member>, m: Member)
    requires Distinct(members) && m in members
    ensures Fitted(LayoutOf(members), m)
  {
    LayoutExact(members);
    hide ByWidth, LayoutOf, Fitted, IsWidth, Distinct;
    assert m in multiset(ByWidth(members));
  }

  /** Every cut is at the width of a member. */
  lemma {:induction false} CutIsWidth(members: seq<Member>, k: nat) returns (m: Member)
    requires Distinct(members) && 0 < k <= |LayoutOf(members).splits|
    ensures m in members && m.width == Offset(LayoutOf(members).splits, k)
  {
    LayoutExact(members);
    hide ByWidth, LayoutOf, Fitted, Distinct;
    var sorted := ByWidth(members);
    assert IsWidth(sorted, |sorted|, Offset(LayoutOf(members).splits, k));
    var i :| 0 <= i < |sorted| && sorted[i].width == Offset(LayoutOf(members).splits, k);
    m := sorted[i];
    assert m in multiset(members);
  }

  /** The sums of the lanes' widths are exactly the distinct positive widths of the members, in ascending
      order. */
  lemma {:induction false} SplitsAreWidths(members: seq<Member>, w: nat)
    requires Distinct(members)
    ensures var splits := LayoutOf(members).splits;
            && (forall j, k :: 0 <= j < k <= |splits| ==> Offset(splits, j) < Offset(splits, k))
            && ((exists k :: 0 < k <= |splits| && Offset(splits, k) == w)
                <==> w > 0 && exists m :: m in members && m.width == w)
  {
    var l := LayoutOf(members);
    LayoutExact(members);
    hide LayoutOf, ByWidth, IsWidth;
    forall j, k | 0 <= j < k <= |l.splits|
      ensures Offset(l.splits, j) < Offset(l.splits, k)
    {
      OffsetsAscend(l.splits, j, k);
    }
    assert Offset(l.splits, 0) == 0;
    hide Offset;
    if k :| 0 < k <= |l.splits| && Offset(l.splits, k) == w {
      var m := CutIsWidth(members, k);
    }
    if m :| m in members && m.width == w && w > 0 {
      MemberFits(members, m);
      assert Offset(l.splits, l.lanes[m.index]) == w;
    }
  }

  lemma {:induction false} OffsetsAscend(splits: seq<nat>, j: nat, k: nat)
    requires j < k <= |splits| && forall i :: 0 <= i < |splits| ==> splits[i] > 0
    ensures Offset(splits, j) < Offset(splits, k)
  {
    SumPrefix(splits, k - 1);
    if j < k - 1 {
      OffsetsAscend(splits, j, k - 1);
    }
  }

  /** Sorting keeps the indices distinct. */
  lemma {:induction false} SortedDistinct(members: seq<Member>, sorted: seq<Member>)
    requires Distinct(members) && multiset(members) == multiset(sorted)
    ensures Distinct(sorted)
  {
    forall i, j | 0 <= i < j < |sorted|
      ensures sorted[i].index != sorted[j].index
    {
      if sorted[i].index == sorted[j].index {
        var a, b := sorted[i], sorted[j];
        assert a in multiset(members) && b in multiset(members);
        var p :| 0 <= p < |members| && members[p] == a;
        var q :| 0 <= q < |members| && members[q] == b;
        assert p == q && a == b;
        TwiceIn(sorted, i, j);
        OnceIn(members, p);
      }
    }
  }

  lemma {:induction false} TwiceIn<T>(s: seq<T>, i: nat, j: nat)
    requires i < j < |s| && s[i] == s[j]
    ensures multiset(s)[s[i]] >= 2
  {
    assert s == s[..j] + s[j..];
    assert s[..j][i] == s[i] && s[j..][0] == s[i];
    assert s[i] in multiset(s[..j]) && s[i] in multiset(s[j..]);
  }

  lemma {:induction false} OnceIn(members: seq<Member>, p: nat)
    requires Distinct(members) && p < |members|
    ensures multiset(members)[members[p]] == 1
  {
    assert members == members[..p] + [members[p]] + members[p + 1..];
    assert members[p] !in members[..p] && members[p] !in members[p + 1..];
  }

  // ----- the constructor -----

  /** Exactly the lowest lanes that add up to this width have their bit set. */
  ghost predicate Selects(splits: seq<nat>, bits: seq<nat>, width: nat) {
    exists lanes: nat ::
      && lanes <= |splits| && Offset(splits, lanes) == width
      && forall k :: 0 <= k < |bits| ==> bits[k] == if k < lanes then 1 else 0
  }

  lemma {:induction false} MemberSelects(members: seq<Member>, m: Member)
    requires Distinct(members) && m in members
    ensures m.index in LayoutOf(members).lanes
    ensures Selects(LayoutOf(members).splits, Enables(|members|, LayoutOf(members).lanes[m.index]), m.width)
  {
    hide LayoutOf, Distinct, Offset;
    MemberFits(members, m);
    assert Offset(LayoutOf(members).splits, LayoutOf(members).lanes[m.index]) == m.width;
  }

  /** The constructor's loop. table maps a tag to its vector of enables, bit 0 first. */
  method IndexFunction(members: seq<Member>) returns (splits: seq<nat>, table: map<nat, seq<nat>>)
    requires Distinct(members)
    ensures splits == LayoutOf(members).splits && |splits| <= |members|
    ensures table.Keys == LayoutOf(members).lanes.Keys
    ensures forall tag :: tag in table ==> table[tag] == Enables(|members|, LayoutOf(members).lanes[tag])
    ensures forall m :: m in members ==>
              m.index in table && |table[m.index]| == |members| && Selects(splits, table[m.index], m.width)
  {
    hide ByWidth, Cut, Bits, Enables;
    var sorted := ByWidth(members);
    ByWidthSorts(members);
    CutNone(sorted);
    var enables := new nat[|sorted|](_ => 0);
    splits, table := [], map[];
    var bitsThusFar, enableIdx := 0, 0;
    EnablesNone(enables[..]);
    for idx := 0 to |sorted|
      invariant splits == Cut(sorted, idx).splits && bitsThusFar == Bits(sorted, idx)
      invariant enableIdx == |splits| <= idx && enables[..] == Enables(|sorted|, enableIdx)
      invariant table.Keys == Cut(sorted, idx).lanes.Keys
      invariant forall tag :: tag in table ==> table[tag] == Enables(|sorted|, Cut(sorted, idx).lanes[tag])
    {
      CutStepOf(sorted, idx);
      if sorted[idx].width != bitsThusFar {
        splits := splits + [sorted[idx].width - bitsThusFar];
        enables[enableIdx] := 1;
        EnableNext(enables[..], |sorted|, enableIdx);
        enableIdx := enableIdx + 1;
      }
      table := table[sorted[idx].index := enables[..]];
      bitsThusFar := sorted[idx].width;
    }
    hide Selects, LayoutOf, Distinct;
    forall m | m in members
      ensures m.index in LayoutOf(members).lanes
      ensures Selects(splits, Enables(|members|, LayoutOf(members).lanes[m.index]), m.width)
    {
      MemberSelects(members, m);
    }
  }
}
