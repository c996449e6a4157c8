/** Exactly when a feedback message is safe, which totals are reachable, and for which message lengths the
    32-bit admission rule is the intended one. */
module RegionalExtremes {
  import opened Arith
  import opened Sums
  import opened CreditWord
  import opened RegionalFlowcontrol
  import opened RegionalProgress

  // ----- reserves, outstanding words and what is missing to the reserves -----

  /** What a channel may still send within its own reserve. */
  function Gap(m: nat, c: Channel): nat {
    if c.local < m then m - c.local else 0
  }

  function Gaps(m: nat, ch: seq<Channel>): (r: seq<nat>)
    ensures |r| == |ch|
  {
    seq(|ch|, i requires 0 <= i < |ch| => Gap(m, ch[i]))
  }

  lemma {:induction false} ReservedIsLocalsAndGaps(m: nat, ch: seq<Channel>)
    ensures Sum(Reserved(m, ch)) == Sum(Locals(ch)) + Sum(Gaps(m, ch))
  {
    if ch != [] {
      ReservedIsLocalsAndGaps(m, ch[1..]);
      assert Reserved(m, ch)[1..] == Reserved(m, ch[1..]);
      assert Locals(ch)[1..] == Locals(ch[1..]);
      assert Gaps(m, ch)[1..] == Gaps(m, ch[1..]);
    }
  }

  lemma {:induction false} GapUpdated(m: nat, ch: seq<Channel>, i: nat, c: Channel)
    requires i < |ch|
    ensures Sum(Gaps(m, ch[i := c])) == Sum(Gaps(m, ch)) - Gap(m, ch[i]) + Gap(m, c)
  {
    hide Sum;
    SumUpdate(Gaps(m, ch), i, Gap(m, c));
    assert Gaps(m, ch[i := c]) == Gaps(m, ch)[i := Gap(m, c)];
  }

  /** A positive sum has a positive element. */
  lemma {:induction false} PositiveGap(m: nat, ch: seq<Channel>) returns (i: nat)
    requires Sum(Gaps(m, ch)) > 0
    ensures i < |ch| && 0 < Gap(m, ch[i]) <= Sum(Gaps(m, ch))
  {
    assert ch != [];
    if Gap(m, ch[0]) > 0 {
      i := 0;
    } else {
      assert Gaps(m, ch)[1..] == Gaps(m, ch[1..]);
      var k := PositiveGap(m, ch[1..]);
      i := k + 1;
    }
  }

  // ----- a feedback message without room -----

  /** The state after the channels from k on have sent what their reserves still allow. */
  lemma {:induction false} TopUp(p: Link, s: State, k: nat) returns (steps: seq<Step>, t: State)
    requires p.Valid() && |s.ch| == p.n && k <= p.n && p.m <= p.f
    requires s.total == Sum(Locals(s.ch)) && Sum(Reserved(p.m, s.ch)) < WORD
    requires forall j :: 0 <= j < k ==> s.ch[j].local >= p.m
    ensures DisciplinedRun(p, s, steps) && Exec(p, s, steps) == At(t)
    ensures t.total == Sum(Reserved(p.m, s.ch)) && forall step :: step in steps ==> step.Send?
    decreases p.n - k
  {
    if k == p.n {
      steps, t := [], s;
      assert Locals(s.ch) == Reserved(p.m, s.ch);
    } else if s.ch[k].local >= p.m {
      steps, t := TopUp(p, s, k + 1);
    } else {
      var u := TopUpOne(p, s, k);
      var more;
      more, t := TopUp(p, u, k + 1);
      steps := [Send(k, p.m - s.ch[k].local)] + more;
      hide Exec, DisciplinedRun, Sum, Locals, Reserved;
      ExecJoins(p, s, [Send(k, p.m - s.ch[k].local)], u, more);
    }
  }

  lemma {:induction false} TopUpOne(p: Link, s: State, k: nat) returns (u: State)
    requires p.Valid() && |s.ch| == p.n && k < p.n && p.m <= p.f
    requires s.total == Sum(Locals(s.ch)) && Sum(Reserved(p.m, s.ch)) < WORD
    requires s.ch[k].local < p.m
    ensures var run := [Send(k, p.m - s.ch[k].local)];
            DisciplinedRun(p, s, run) && Exec(p, s, run) == At(u)
    ensures |u.ch| == p.n && u.ch[k].local == p.m && forall j :: 0 <= j < p.n && j != k ==> u.ch[j] == s.ch[j]
    ensures u.total == Sum(Locals(u.ch)) && Sum(Reserved(p.m, u.ch)) == Sum(Reserved(p.m, s.ch))
  {
    hide Sum, Locals, Reserved, Gaps, Exec, DisciplinedRun;
    SmallWord(p);
    var c := s.ch[k].(local := p.m);
    TopUpSums(p, s, k, c);
    ReservedIsLocalsAndGaps(p.m, s.ch[k := c]);
    u := TopUpSend(p, s, k);
    TopUpSums(p, s, k, u.ch[k]);
    RunThrough(p, [s, u], [Send(k, p.m - s.ch[k].local)]);
  }

  /** The step alone: the reserve admits it, and no counter wraps. */
  lemma {:induction false} TopUpSend(p: Link, s: State, k: nat) returns (u: State)
    requires p.Fits() && |s.ch| == p.n && k < p.n && s.ch[k].local < p.m && p.m < WORD
    requires s.total + p.m - s.ch[k].local < WORD
    ensures Leads(p, s, Send(k, p.m - s.ch[k].local), u) && u.total == s.total + p.m - s.ch[k].local
    ensures |u.ch| == p.n && u.ch == s.ch[k := u.ch[k]] && u.ch[k].local == p.m
  {
    hide Link.Fits;
    u := Emit(s, k, p.m - s.ch[k].local);
  }

  lemma {:induction false} TopUpSums(p: Link, s: State, k: nat, c: Channel)
    requires k < |s.ch| && s.ch[k].local <= c.local == p.m
    ensures var ch := s.ch[k := c];
            && Sum(Locals(ch)) == Sum(Locals(s.ch)) + p.m - s.ch[k].local
            && Sum(Reserved(p.m, ch)) == Sum(Reserved(p.m, s.ch))
  {
    hide Sum, Locals, Reserved, RegionParts, KeptParts;
    ChannelUpdated(p.m, s.ch, k, c);
  }

  lemma {:induction false} ReserveFits(p: Link)
    requires p.Fits() && p.n > 0
    ensures p.m <= p.f
  {
    MulMonotone(1, p.n, p.m);
  }

  /** The sums after a feedback message: no counter wraps, and the reserves tell whether there was room. */
  lemma {:induction false} FeedbackSums(p: Link, s: State, i: nat)
    requires p.Valid() && Inv(p, s) && i < p.n && i < |s.ch|
    ensures var t := Emit(s, i, 2);
            && |t.ch| == p.n && t.total == Sum(Locals(t.ch)) && Sum(Reserved(p.m, t.ch)) < WORD
            && (RoomFor(p, s, i, 2) <==> Sum(Reserved(p.m, t.ch)) <= p.f)
  {
    hide Inv, Sum, Locals, Reserved, KeptParts, RegionPart, InHand, Link.Valid, Link.Threshold, Link.Fits;
    RegionCounts(p, s, i);
    SmallWord(p);
    var c := s.ch[i];
    ChannelUpdated(p.m, s.ch, i, c.(local := c.local + 2, flight := c.flight + [2]));
  }

  /** If there is no room for a feedback message, the other channels can go on within their own reserves until
      the buffer is overrun. */
  lemma {:induction false} NoRoomOverruns(p: Link, s: State, i: nat) returns (steps: seq<Step>, t: State)
    requires p.Valid() && Inv(p, s) && i < p.n && i < |s.ch| && !RoomFor(p, s, i, 2)
    ensures DisciplinedRun(p, Emit(s, i, 2), steps) && Exec(p, Emit(s, i, 2), steps) == At(t) && t.total > p.f
  {
    hide Inv, Sum, Locals, Reserved, RoomFor, Emit, Exec, DisciplinedRun;
    ReserveFits(p);
    FeedbackSums(p, s, i);
    steps, t := TopUp(p, Emit(s, i, 2), 0);
  }

  /** A feedback message keeps the invariant exactly if there is room for it. */
  lemma {:induction false} FeedbackKeepsExactly(p: Link, s: State, i: nat)
    requires p.Valid() && Inv(p, s) && i < p.n && i < |s.ch|
    ensures Inv(p, Emit(s, i, 2)) <==> RoomFor(p, s, i, 2)
  {
    hide Inv, Sum, Locals, Reserved, RoomFor, Emit, KeptParts, Link.Threshold;
    FeedbackSums(p, s, i);
    if RoomFor(p, s, i, 2) {
      FeedbackKeeps(p, s, i);
    } else if Inv(p, Emit(s, i, 2)) {
      RegionCounts(p, Emit(s, i, 2), i);
    }
  }

  /** The exact condition for a feedback message: every disciplined continuation keeps the sender's total within
      the buffer exactly if there is room for the message. */
  lemma {:induction false} FeedbackSafeExactly(p: Link, s: State, i: nat)
    requires p.Valid() && Inv(p, s) && i < p.n && i < |s.ch|
    ensures RoomFor(p, s, i, 2) <==>
            forall steps, t :: DisciplinedRun(p, Emit(s, i, 2), steps) && Exec(p, Emit(s, i, 2), steps) == At(t) ==>
                                 t.total <= p.f
  {
    hide Inv, RoomFor, Exec, DisciplinedRun;
    if RoomFor(p, s, i, 2) {
      FeedbackKeeps(p, s, i);
      forall steps, t | DisciplinedRun(p, Emit(s, i, 2), steps) && Exec(p, Emit(s, i, 2), steps) == At(t)
        ensures t.total <= p.f
      {
        RunKeeps(p, Emit(s, i, 2), steps);
        Bounds(p, t);
      }
    } else {
      var steps, t := NoRoomOverruns(p, s, i);
    }
  }

  // ----- every total up to the buffer size is reachable -----

  lemma {:induction false} ReachThen(p: Link, s: State, step: Step)
    requires p.Fits() && Reachable(p, s) && Enabled(p, s, step) && Disciplined(p, s, step)
    ensures Reachable(p, Apply(p, s, step))
  {
    var steps :| DisciplinedRun(p, Init(p), steps) && Exec(p, Init(p), steps) == At(s);
    var t := Apply(p, s, step);
    assert Leads(p, s, step, t);
    RunThrough(p, [s, t], [step]);
    hide Exec, DisciplinedRun, Apply, Enabled, Disciplined, Link.Fits;
    ExecJoins(p, Init(p), steps, s, [step]);
  }

  lemma {:induction false} ReachableKeeps(p: Link, s: State)
    requires p.Valid() && Reachable(p, s)
    ensures Inv(p, s)
  {
    var steps :| DisciplinedRun(p, Init(p), steps) && Exec(p, Init(p), steps) == At(s);
    InitInv(p);
    hide Exec, Inv, DisciplinedRun;
    RunKeeps(p, Init(p), steps);
  }

  /** Everything that is outstanding adds up to k, and the reserves miss only what k leaves of them. */
  ghost predicate Fills(p: Link, s: State, k: nat)
    requires p.Fits()
  {
    && Reachable(p, s) && |s.ch| == p.n && s.total == k
    && Sum(Gaps(p.m, s.ch)) == if k < p.n * p.m then p.n * p.m - k else 0
  }

  /** An emission on channel i, and what it does to the two sums. */
  lemma {:induction false} Emitted(p: Link, s: State, i: nat, step: Step, len: nat) returns (t: State)
    requires p.Valid() && Reachable(p, s) && i < p.n && i < |s.ch| && s.total + len <= p.f
    requires step == Send(i, len) || (step == Feedback(i) && len == 2)
    requires Enabled(p, s, step) && Disciplined(p, s, step)
    ensures Reachable(p, t) && |t.ch| == p.n && t.total == s.total + len
    ensures Sum(Gaps(p.m, t.ch)) == Sum(Gaps(p.m, s.ch)) - Gap(p.m, s.ch[i])
                                    + if s.ch[i].local + len < p.m then p.m - s.ch[i].local - len else 0
  {
    hide Inv, Sum, Reachable, Gaps, Disciplined, Enabled, Apply;
    ReachableKeeps(p, s);
    t := Apply(p, s, step);
    ReachThen(p, s, step);
    EmittedState(p, s, i, step, len);
    EmittedGaps(p, s, i, len);
  }

  lemma {:induction false} EmittedState(p: Link, s: State, i: nat, step: Step, len: nat)
    requires p.Fits() && Enabled(p, s, step) && i < |s.ch|
    requires step == Send(i, len) || (step == Feedback(i) && len == 2)
    ensures Apply(p, s, step) == Emit(s, i, len)
  {
    hide Admits, Emit;
  }

  lemma {:induction false} EmittedGaps(p: Link, s: State, i: nat, len: nat)
    requires p.Valid() && Inv(p, s) && i < p.n && i < |s.ch| && s.total + len <= p.f
    ensures var t := Emit(s, i, len);
            && |t.ch| == p.n && t.total == s.total + len
            && Sum(Gaps(p.m, t.ch)) == Sum(Gaps(p.m, s.ch)) - Gap(p.m, s.ch[i])
                                       + if s.ch[i].local + len < p.m then p.m - s.ch[i].local - len else 0
  {
    hide Inv, Sum, Gaps, KeptParts, Locals, Reserved, RegionPart, InHand, Link.Valid, Link.Fits, Link.Threshold;
    RegionCounts(p, s, i);
    var c := s.ch[i];
    GapUpdated(p.m, s.ch, i, c.(local := c.local + len, flight := c.flight + [len]));
  }

  /** Below the reserves' sum: one more word on a channel whose reserve has room. */
  lemma {:induction false} OneMoreWord(p: Link, s: State, k: nat) returns (t: State)
    requires p.Valid() && p.n > 0 && k < p.n * p.m && Fills(p, s, k)
    ensures Fills(p, t, k + 1)
  {
    SmallWord(p);
    ReserveFits(p);
    hide Reachable, Sum, Gaps, Link.Valid, Link.Fits;
    var i := PositiveGap(p.m, s.ch);
    LinkFits(p);
    t := Emitted(p, s, i, Send(i, 1), 1);
  }

  lemma {:induction false} LinkFits(p: Link)
    requires p.Fits()
    ensures p.n * p.m <= p.f
  {
  }

  /** There is room for a feedback message that leaves no reserve unused beyond what k leaves. */
  lemma {:induction false} FeedbackRoom(p: Link, s: State, i: nat)
    requires p.Valid() && Reachable(p, s) && i < p.n && i < |s.ch|
    requires s.total + 2 + Sum(Gaps(p.m, s.ch)) - Gap(p.m, s.ch[i]) <= p.f && Gap(p.m, s.ch[i]) <= 2
    ensures RoomFor(p, s, i, 2)
  {
    ReachableKeeps(p, s);
    ReservedIsLocalsAndGaps(p.m, s.ch);
    hide Sum, Gaps, Reserved, Locals, Reachable, Link.Valid, Link.Fits, Consistent, KeptParts, RegionParts;
  }

  /** Above the reserves' sum: two more words by a feedback message, once no more than one word is missing. */
  lemma {:induction false} TwoMoreWords(p: Link, s: State, k: nat) returns (t: State)
    requires p.Valid() && p.n > 0 && p.m > 0 && k + 2 <= p.f && p.n * p.m <= k + 1 && Fills(p, s, k)
    ensures Fills(p, t, k + 2)
  {
    hide Reachable, Sum, Gaps, Link.Valid, Link.Fits, RoomFor;
    var i := 0;
    if k + 1 == p.n * p.m {
      i := PositiveGap(p.m, s.ch);
    } else {
      NoGap(p.m, s.ch, 0);
    }
    FeedbackRoom(p, s, i);
    t := Emitted(p, s, i, Feedback(i), 2);
  }

  lemma {:induction false} NoGap(m: nat, ch: seq<Channel>, i: nat)
    requires Sum(Gaps(m, ch)) == 0 && i < |ch|
    ensures Gap(m, ch[i]) == 0
  {
    SumElement(Gaps(m, ch), i);
  }

  lemma {:induction false} StartFills(p: Link)
    requires p.Valid()
    ensures Fills(p, Init(p), 0)
  {
    var ch := Init(p).ch;
    assert Exec(p, Init(p), []) == At(Init(p)) && DisciplinedRun(p, Init(p), []);
    AllGaps(p.m, ch);
  }

  lemma {:induction false} AllGaps(m: nat, ch: seq<Channel>)
    requires forall i :: 0 <= i < |ch| ==> ch[i].local == 0
    ensures Sum(Gaps(m, ch)) == |ch| * m
  {
    if ch != [] {
      AllGaps(m, ch[1..]);
      assert Gaps(m, ch)[1..] == Gaps(m, ch[1..]);
      Distribute(|ch| - 1, 1, m);
    }
  }

  /** Without reserves the first message takes all the words at once. */
  lemma {:induction false} AllShared(p: Link, k: nat) returns (t: State)
    requires p.Valid() && p.n > 0 && p.m == 0 && k <= p.f
    ensures Fills(p, t, k)
  {
    StartFills(p);
    SmallWord(p);
    var s := Init(p);
    NoGap(p.m, s.ch, 0);
    hide Reachable, Sum, Gaps;
    t := Emitted(p, s, 0, Send(0, k), k);
  }

  /** Every number of outstanding words up to the buffer size is reached, so the bound of Safety is sharp. */
  lemma {:induction false} TotalReached(p: Link, k: nat) returns (s: State)
    requires p.Valid() && p.n > 0 && k <= p.f
    ensures Fills(p, s, k)
    decreases k
  {
    if p.m == 0 {
      s := AllShared(p, k);
    } else if k == 0 {
      StartFills(p);
      s := Init(p);
    } else if k <= p.n * p.m {
      var before := TotalReached(p, k - 1);
      s := OneMoreWord(p, before, k - 1);
    } else {
      MulMonotone(1, p.n, p.m);
      var before := TotalReached(p, k - 2);
      s := TwoMoreWords(p, before, k - 2);
    }
  }

  // ----- the 32-bit admission rule -----

  /** The admission rule in unbounded arithmetic. */
  predicate Intended(p: Link, total: nat, local: nat, len: nat)
    requires p.Fits()
  {
    total + len <= p.Shared() || local + len <= p.m
  }

  /** A message whose length wraps the 32-bit sum is admitted in a reachable state, although the buffer has no
      room for it. */
  lemma {:induction false} LongMessageWraps(p: Link, len: nat) returns (s: State)
    requires p.Valid() && p.n > 0 && len < WORD <= p.f + len
    ensures Reachable(p, s) && |s.ch| == p.n && s.total + len > p.f
    ensures Admits(p, s.total, s.ch[0].local, len) && !Intended(p, s.total, s.ch[0].local, len)
  {
    hide Reachable, Sum, Gaps, Admits, Intended, Link.Shared;
    SmallWord(p);
    ReserveFits(p);
    s := TotalReached(p, WORD - len);
    WrapsToZero(p, s.total, s.ch[0].local, len);
  }

  lemma {:induction false} WrapsToZero(p: Link, total: nat, local: nat, len: nat)
    requires p.Fits() && p.m <= p.f && p.f < WORD - p.f && len < WORD <= p.f + len && total + len == WORD
    ensures Admits(p, total, local, len) && !Intended(p, total, local, len)
  {
    hide Link.Shared, Link.Fits;
    SharedAtMost(p);
    assert Add32(total, len) == 0;
  }

  lemma {:induction false} SharedAtMost(p: Link)
    requires p.Fits()
    ensures 0 <= p.Shared() <= p.f
  {
  }

  /** Exactly the lengths for which the sender admits what it is meant to admit in every reachable state. */
  lemma {:induction false} AdmitsIntendedExactly(p: Link, len: nat)
    requires p.Valid() && p.n > 0 && len < WORD
    ensures p.f + len < WORD <==>
            forall s, i: nat :: Reachable(p, s) && i < p.n && i < |s.ch| ==>
                                  (Admits(p, s.total, s.ch[i].local, len) <==> Intended(p, s.total, s.ch[i].local, len))
  {
    if p.f + len < WORD {
      forall s, i: nat | Reachable(p, s) && i < p.n && i < |s.ch|
        ensures Admits(p, s.total, s.ch[i].local, len) <==> Intended(p, s.total, s.ch[i].local, len)
      {
        ReachableKeeps(p, s);
        Bounds(p, s);
      }
    } else {
      var s := LongMessageWraps(p, len);
    }
  }
}
