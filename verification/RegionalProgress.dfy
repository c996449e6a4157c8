/** When a drained regional link can still refuse a message, and where the source's own assertions fail. */
module RegionalProgress {
  import opened Arith
  import opened Sums
  import opened CreditWord
  import opened RegionalFlowcontrol

  // ----- runs can be joined -----

  lemma {:induction false} ExecJoins(p: Link, s: State, first: seq<Step>, t: State, rest: seq<Step>)
    requires p.Fits() && Exec(p, s, first) == At(t)
    ensures Exec(p, s, first + rest) == Exec(p, t, rest)
    ensures DisciplinedRun(p, s, first) && DisciplinedRun(p, t, rest) ==> DisciplinedRun(p, s, first + rest)
    decreases |first|
  {
    if first == [] {
      assert first + rest == rest;
    } else {
      hide Enabled, Apply, Disciplined;
      assert (first + rest)[1..] == first[1..] + rest;
      ExecJoins(p, Apply(p, s, first[0]), first[1..], t, rest);
    }
  }

  lemma {:induction false} FourJoin(p: Link, s: State, a: seq<Step>, t: State, b: seq<Step>, u: State,
                                    c: seq<Step>, v: State,
                 d: seq<Step>, w: Outcome)
    requires p.Fits() && Exec(p, s, a) == At(t) && Exec(p, t, b) == At(u) && Exec(p, u, c) == At(v)
    requires Exec(p, v, d) == w
    ensures Exec(p, s, a + b + c + d) == w
  {
    hide Exec, DisciplinedRun, Link.Fits;
    ExecJoins(p, s, a, t, b);
    ExecJoins(p, s, a + b, u, c);
    ExecJoins(p, s, a + b + c, v, d);
  }

  // ----- filling every channel up to what it may keep -----

  /** What channel j keeps when the channels are filled in order. */
  function Share(p: Link, j: nat): nat
    requires p.Fits()
  {
    if Level(p, j) <= Level(p, j + 1) then Level(p, j + 1) - Level(p, j) else 0
  }

  function FilledChannel(p: Link, k: nat, j: nat): Channel
    requires p.Fits()
  {
    if j < k then Channel(Share(p, j), [], Share(p, j), Idle) else Channel(0, [], 0, Idle)
  }

  /** The link after the first k channels have each received their share and kept it. */
  function Filled(p: Link, k: nat): State
    requires p.Fits()
  {
    State(Level(p, k), seq(p.n, j requires 0 <= j < p.n => FilledChannel(p, k, j)), Level(p, k), [])
  }

  lemma {:induction false} ShareBounds(p: Link, j: nat)
    requires p.Fits()
    ensures Level(p, j + 1) == Level(p, j) + Share(p, j) <= p.Threshold()
    ensures Share(p, j) <= p.Threshold() / 2
  {
    Distribute(j, 1, p.Threshold() / 2);
  }

  /** One message goes out, arrives, is counted, and is kept. */
  function Deliver(i: nat, emit: Step): seq<Step> {
    [emit, Arrive(i), CountRegional(i), Test(i)]
  }

  /** Channel i becomes c and both regional counters grow by len. */
  function With(s: State, i: nat, c: Channel, len: nat): State
    requires i < |s.ch|
  {
    s.(total := s.total + len, ch := s.ch[i := c], received := s.received + len)
  }

  /** A message that leaves the channel and the region below their thresholds is kept. */
  lemma {:induction false} Delivered(p: Link, s: State, i: nat, emit: Step, len: nat)
    requires p.Fits() && i < |s.ch| && Enabled(p, s, emit)
    requires emit == Send(i, len) || (emit == Feedback(i) && len == 2)
    requires s.ch[i].flight == [] && s.ch[i].pc == Idle
    requires s.total + len < WORD && s.ch[i].local + len < WORD && p.f < WORD
    requires s.received + len <= p.Threshold() <= p.f && s.ch[i].held + len <= p.Threshold() / 2
    ensures var c := s.ch[i].(local := s.ch[i].local + len, held := s.ch[i].held + len);
            Exec(p, s, Deliver(i, emit)) == At(With(s, i, c, len))
    ensures Disciplined(p, s, emit) ==> DisciplinedRun(p, s, Deliver(i, emit))
  {
    var s1 := Emit(s, i, len);
    var s2 := CountChannel(s1, i);
    var s3 := CountRegion(s2, i);
    var s4 := Decide(p, s3, i);
    DeliverParts(p, s, i, len);
    hide Link.Fits, Link.Threshold, Emit, CountChannel, CountRegion, Decide, Admits, Decode, MustReturn, With;
    assert Leads(p, s, emit, s1);
    assert Leads(p, s1, Arrive(i), s2);
    assert Leads(p, s2, CountRegional(i), s3);
    assert Leads(p, s3, Test(i), s4);
    hide Leads, Exec, DisciplinedRun, Enabled, Apply;
    RunThrough(p, [s, s1, s2, s3, s4], Deliver(i, emit));
  }

  /** What the four steps of a delivery leave behind. */
  lemma {:induction false} DeliverParts(p: Link, s: State, i: nat, len: nat)
    requires p.Fits() && i < |s.ch| && s.ch[i].flight == [] && s.ch[i].pc == Idle
    requires s.total + len < WORD && s.ch[i].local + len < WORD && p.f < WORD
    requires s.received + len <= p.Threshold() <= p.f && s.ch[i].held + len <= p.Threshold() / 2
    ensures var c := s.ch[i].(local := s.ch[i].local + len, held := s.ch[i].held + len);
            var s1 := Emit(s, i, len);
            && |s1.ch| == |s.ch| && s1.ch[i].flight != [] && s1.ch[i].pc == Idle
            && var s2 := CountChannel(s1, i);
            && |s2.ch| == |s.ch| && s2.ch[i].pc.Counted?
            && var s3 := CountRegion(s2, i);
            && |s3.ch| == |s.ch| && s3.ch[i].pc == Received
            && Decide(p, s3, i) == With(s, i, c, len)
  {
    hide Link.Fits, Link.Threshold;
    assert [] + [len] == [len] && [len][1..] == [];
  }

  /** The step is possible and leads from s to t. */
  predicate Leads(p: Link, s: State, step: Step, t: State)
    requires p.Fits()
  {
    Enabled(p, s, step) && Apply(p, s, step) == t
  }

  /** A run given by the states it passes through. */
  lemma {:induction false} RunThrough(p: Link, states: seq<State>, steps: seq<Step>)
    requires p.Fits() && |states| == |steps| + 1
    requires forall k :: 0 <= k < |steps| ==> Leads(p, states[k], steps[k], states[k + 1])
    ensures Exec(p, states[0], steps) == At(states[|steps|])
    ensures (forall k :: 0 <= k < |steps| ==> Disciplined(p, states[k], steps[k])) ==>
              DisciplinedRun(p, states[0], steps)
    decreases |steps|
  {
    hide Enabled, Apply, Disciplined, Link.Fits;
    if steps != [] {
      RunThrough(p, states[1..], steps[1..]);
    }
  }

  lemma {:induction false} FilledNone(p: Link)
    requires p.Fits()
    ensures Filled(p, 0) == Init(p)
  {
    assert Init(p).ch == Filled(p, 0).ch;
  }

  lemma {:induction false} FilledNext(p: Link, k: nat)
    requires p.Fits() && k < p.n
    ensures var x := Share(p, k);
            Filled(p, k + 1) == With(Filled(p, k), k, Channel(x, [], x, Idle), x)
  {
    ShareBounds(p, k);
    hide Level, Share, Link.Fits;
  }

  lemma {:induction false} ThresholdBounds(p: Link)
    requires p.Fits()
    ensures p.Threshold() <= p.Shared() && p.Threshold() <= p.f
  {
  }

  lemma {:induction false} FilledStep(p: Link, k: nat)
    requires p.Valid() && k < p.n
    ensures var run := Deliver(k, Send(k, Share(p, k)));
            DisciplinedRun(p, Filled(p, k), run) && Exec(p, Filled(p, k), run) == At(Filled(p, k + 1))
  {
    ShareBounds(p, k);
    ThresholdBounds(p);
    FilledNext(p, k);
    hide Level, Share, Link.Fits, Link.Threshold, With, Exec, DisciplinedRun;
    Delivered(p, Filled(p, k), k, Send(k, Share(p, k)), Share(p, k));
  }

  lemma {:induction false} FilledReachable(p: Link, k: nat) returns (steps: seq<Step>)
    requires p.Valid() && k <= p.n
    ensures DisciplinedRun(p, Init(p), steps) && Exec(p, Init(p), steps) == At(Filled(p, k))
  {
    if k == 0 {
      steps := [];
      FilledNone(p);
    } else {
      var before := FilledReachable(p, k - 1);
      var next := Deliver(k - 1, Send(k - 1, Share(p, k - 1)));
      FilledStep(p, k - 1);
      ExecJoins(p, Init(p), before, Filled(p, k - 1), next);
      steps := before + next;
    }
  }

  /** A message that is not always admitted is refused on channel 0 in a reachable drained state. */
  lemma {:induction false} DrainedRefuses(p: Link, len: nat) returns (s: State)
    requires p.Valid() && p.n > 0 && p.f + len < WORD && !AlwaysAdmitted(p, len)
    ensures Reachable(p, s) && Drained(s) && |s.ch| == p.n && !Admits(p, s.total, s.ch[0].local, len)
  {
    s := Filled(p, p.n);
    var steps := FilledReachable(p, p.n);
    ShareBounds(p, 0);
    ThresholdBounds(p);
  }

  /** Exactly the lengths for which a drained link never leaves a sender waiting. */
  lemma {:induction false} DrainedAdmitsExactly(p: Link, len: nat)
    requires p.Valid() && p.n > 0 && p.f + len < WORD
    ensures AlwaysAdmitted(p, len) <==>
            forall s, i: nat :: Reachable(p, s) && Drained(s) && i < p.n && i < |s.ch| ==>
                                  Admits(p, s.total, s.ch[i].local, len)
  {
    hide Reachable, Drained, Admits;
    if AlwaysAdmitted(p, len) {
      forall s, i: nat | Reachable(p, s) && Drained(s) && i < p.n && i < |s.ch|
        ensures Admits(p, s.total, s.ch[i].local, len)
      {
        DrainedAdmits(p, s, i, len);
      }
    } else {
      var s := DrainedRefuses(p, len);
    }
  }

  // ----- where the source's assertions fail -----

  /** After a credit message the sender's total is positive exactly if that message did not return everything
      outstanding: some channel still has words in flight, held, in hand or on their way back. */
  lemma {:induction false} AssertionHoldsExactly(p: Link, s: State)
    requires p.Valid() && Reachable(p, s) && Enabled(p, s, Credit)
    ensures var x := Decode(p.e, s.credits[0]).1;
            x <= s.total && (AcceptWord(p, s).total > 0 <==> x < s.total)
    ensures AcceptWord(p, s).total > 0 <==> !NothingOut(p, AcceptWord(p, s))
  {
    var steps :| DisciplinedRun(p, Init(p), steps) && Exec(p, Init(p), steps) == At(s);
    InitInv(p);
    RunKeeps(p, Init(p), steps);
    hide Inv, Decode, NothingOut, AcceptWord, Exec, DisciplinedRun;
    AcceptedTotal(p, s);
    CreditKeeps(p, s);
    TotalZero(p, AcceptWord(p, s));
  }

  lemma {:induction false} AcceptedTotal(p: Link, s: State)
    requires p.Valid() && Inv(p, s) && s.credits != [] && Decode(p.e, s.credits[0]).0 < |s.ch|
    ensures var x := Decode(p.e, s.credits[0]).1;
            x <= s.total && (AcceptWord(p, s).total > 0 <==> x < s.total)
  {
    hide Inv, Decode;
    SameChannels(p, s);
    CreditCovered(p, s);
    RegionCounts(p, s, Decode(p.e, s.credits[0]).0);
  }

  /** No channel has a word in flight, held, in hand or on its way back. */
  ghost predicate NothingOut(p: Link, s: State) {
    forall i :: 0 <= i < |s.ch| ==>
                  Sum(s.ch[i].flight) + s.ch[i].held + InHand(s.ch[i].pc) + Returned(p.e, s.credits, i) == 0
  }

  /** The sender's total is 0 exactly if nothing is outstanding anywhere. */
  lemma {:induction false} TotalZero(p: Link, s: State)
    requires p.Valid() && Inv(p, s)
    ensures s.total == 0 <==> NothingOut(p, s)
  {
    hide Inv, Sum, Returned, Decode;
    SameChannels(p, s);
    forall i | 0 <= i < p.n
      ensures s.ch[i].local == Sum(s.ch[i].flight) + s.ch[i].held + InHand(s.ch[i].pc) + Returned(p.e, s.credits, i)
      ensures s.ch[i].local <= s.total && s.total == Sum(Locals(s.ch))
    {
      RegionCounts(p, s, i);
      LocalIs(p, s, i);
    }
    if NothingOut(p, s) {
      TotalOfNone(p, s);
    }
  }

  lemma {:induction false} LocalIs(p: Link, s: State, i: nat)
    requires p.Valid() && Inv(p, s) && i < p.n
    ensures |s.ch| == p.n
    ensures s.ch[i].local == Sum(s.ch[i].flight) + s.ch[i].held + InHand(s.ch[i].pc) + Returned(p.e, s.credits, i)
  {
    hide Sum, Returned, Decode, Reserved, KeptParts, RegionParts, Locals;
    ReserveCovers(p, s, i);
  }

  lemma {:induction false} TotalOfNone(p: Link, s: State)
    requires p.Valid() && Inv(p, s) && forall i :: 0 <= i < |s.ch| ==> s.ch[i].local == 0
    ensures s.total == 0
  {
    hide Sum, Returned, Decode;
    SumZeros(Locals(s.ch));
  }

  function Pair(total: nat, zero: Channel, one: Channel, received: nat): State {
    State(total, [zero, one], received, [])
  }

  /** Two channels with a reserve of two in a buffer of 16: channel 0 takes all twelve shared words, and
      feedback on channel 1 goes on past its reserve. */
  function Overrun(): seq<Step> {
    [Send(0, 12)] + Deliver(1, Feedback(1)) + Deliver(1, Feedback(1))
    + OverrunTail()
  }

  function OverrunTail(): seq<Step> {
    [Feedback(1), Arrive(1), CountRegional(1), Arrive(0), CountRegional(0)]
  }

  function OverrunEnd(): State {
    Pair(18, Channel(12, [], 12, Received), Channel(6, [], 6, Received), 18)
  }

  /** With twelve words under way on channel 0, channel 1 has kept x words of feedback. */
  function Midway(x: nat): State {
    Pair(12 + x, Channel(12, [12], 0, Idle), Channel(x, [], x, Idle), x)
  }

  /** Channel 1's third feedback message is out, counted in its channel, and counted in the region; then
      channel 0's message is counted in its channel. */
  function Late(k: nat): State {
    var sent := Channel(12, [12], 0, Idle);
    if k == 1 then Pair(18, sent, Channel(6, [2], 4, Idle), 4)
    else if k == 2 then Pair(18, sent, Channel(6, [], 6, Counted(2)), 4)
    else if k == 3 then Pair(18, sent, Channel(6, [], 6, Received), 6)
    else Pair(18, Channel(12, [], 12, Counted(12)), Channel(6, [], 6, Received), 6)
  }

  lemma {:induction false} LateOnOne(p: Link)
    requires p == Link(2, 16, 2, 5)
    ensures p.Fits() && Leads(p, Midway(4), Feedback(1), Late(1))
    ensures Leads(p, Late(1), Arrive(1), Late(2)) && Leads(p, Late(2), CountRegional(1), Late(3))
  {
    hide Decode, AcceptWord, PushWord, SubtractRegion, TakeAll, Decide, Admits;
    assert [2][1..] == [] && [] + [2] == [2];
  }

  lemma {:induction false} LateOnZero(p: Link)
    requires p == Link(2, 16, 2, 5)
    ensures p.Fits()
    ensures Leads(p, Late(3), Arrive(0), Late(4)) && Leads(p, Late(4), CountRegional(0), OverrunEnd())
  {
    hide Decode, AcceptWord, PushWord, SubtractRegion, TakeAll, Decide, Admits;
    assert [12][1..] == [];
  }

  lemma {:induction false} OverrunEnds(p: Link)
    requires p == Link(2, 16, 2, 5)
    ensures p.Fits() && Exec(p, Midway(4), OverrunTail()) == At(OverrunEnd())
  {
    hide Leads, Exec, DisciplinedRun, Midway, Late, OverrunEnd;
    LateOnOne(p);
    LateOnZero(p);
    RunThrough(p, [Midway(4), Late(1), Late(2), Late(3), Late(4), OverrunEnd()], OverrunTail());
  }

  lemma {:induction false} OverrunBegins(p: Link)
    requires p == Link(2, 16, 2, 5)
    ensures p.Fits() && Exec(p, Init(p), [Send(0, 12)]) == At(Midway(0))
  {
    var idle := Channel(0, [], 0, Idle);
    assert Init(p) == Pair(0, idle, idle, 0) && [] + [12] == [12];
    assert Leads(p, Init(p), Send(0, 12), Midway(0));
    RunThrough(p, [Init(p), Midway(0)], [Send(0, 12)]);
  }

  lemma {:induction false} FeedbackKept(p: Link, x: nat)
    requires p == Link(2, 16, 2, 5) && x <= 2
    ensures p.Fits() && Exec(p, Midway(x), Deliver(1, Feedback(1))) == At(Midway(x + 2))
  {
    hide Exec, DisciplinedRun, Deliver, Disciplined, RoomFor, Admits, Decode, Link.Threshold;
    OverrunThreshold(p);
    Delivered(p, Midway(x), 1, Feedback(1), 2);
    assert With(Midway(x), 1, Channel(x + 2, [], x + 2, Idle), 2).ch == Midway(x + 2).ch;
  }

  lemma {:induction false} OverrunThreshold(p: Link)
    requires p == Link(2, 16, 2, 5)
    ensures p.Fits() && p.Threshold() == 8
  {
  }

  lemma {:induction false} OverrunRun(p: Link)
    requires p == Link(2, 16, 2, 5)
    ensures p.Fits() && Exec(p, Init(p), Overrun()) == At(OverrunEnd())
  {
    hide Exec, Deliver, Init, Midway, OverrunTail, OverrunEnd, DisciplinedRun;
    OverrunBegins(p);
    FeedbackKept(p, 0);
    FeedbackKept(p, 2);
    OverrunEnds(p);
    FourJoin(p, Init(p), [Send(0, 12)], Midway(0), Deliver(1, Feedback(1)), Midway(2),
             Deliver(1, Feedback(1)), Midway(4), OverrunTail(), At(OverrunEnd()));
  }

  /** Feedback messages that ignore the reserve break the receiver's assertion: they are sent without
      looking at any counter, so the run is possible. */
  lemma {:induction false} FeedbackOverruns() returns (p: Link, s: State)
    ensures p.Valid() && Exec(p, Init(p), Overrun()) == At(s) && s.received > p.f
  {
    p, s := Link(2, 16, 2, 5), OverrunEnd();
    assert Pow(2, 5) == 32;
    hide Exec, Overrun;
    OverrunRun(p);
  }

  /** Channel 0 alone has sent anything, one message of x words. */
  function Alone(p: Link, total: nat, c: Channel, received: nat, credits: seq<nat>): State
    requires p.n > 0
  {
    State(total, Init(p).ch[0 := c], received, credits)
  }

  /** The length that a receiving channel returns at once. */
  function Returnable(p: Link): nat
    requires p.Fits()
  {
    p.Threshold() / 2 + 1
  }

  lemma {:induction false} ReturnableAdmitted(p: Link)
    requires p.Valid() && p.n > 0
    ensures var x := Returnable(p);
            && x <= p.f && p.f + x < WORD && p.Threshold() / 2 < x < Pow(2, p.e)
            && (x <= p.Shared() || x <= p.m)
  {
    SmallWord(p);
    hide Pow;
  }

  /** The message goes out and is counted. */
  lemma {:induction false} AloneArrives(p: Link, x: nat)
    requires p.Fits() && p.n > 0 && 0 < x < WORD && (x <= p.Shared() || x <= p.m)
    ensures Leads(p, Init(p), Send(0, x), Alone(p, x, Channel(x, [x], 0, Idle), 0, []))
    ensures Leads(p, Alone(p, x, Channel(x, [x], 0, Idle), 0, []), Arrive(0),
                  Alone(p, x, Channel(x, [], x, Counted(x)), 0, []))
    ensures Leads(p, Alone(p, x, Channel(x, [], x, Counted(x)), 0, []), CountRegional(0),
                  Alone(p, x, Channel(x, [], x, Received), x, []))
  {
    hide Decode, Encode, Link.Fits, Link.Shared, Link.Threshold;
    assert [] + [x] == [x] && [x][1..] == [];
  }

  /** All of it goes back in one credit message. */
  lemma {:induction false} AloneReturns(p: Link, x: nat)
    requires p.Fits() && p.n > 0 && p.Threshold() / 2 < x < WORD
    ensures Leads(p, Alone(p, x, Channel(x, [], x, Received), x, []), Test(0),
                  Alone(p, x, Channel(x, [], x, Returning), x, []))
    ensures Leads(p, Alone(p, x, Channel(x, [], x, Returning), x, []), Swap(0),
                  Alone(p, x, Channel(x, [], 0, Taken(x)), x, []))
    ensures Leads(p, Alone(p, x, Channel(x, [], 0, Taken(x)), x, []), Subtract(0),
                  Alone(p, x, Channel(x, [], 0, Subtracted(x)), 0, []))
    ensures Leads(p, Alone(p, x, Channel(x, [], 0, Subtracted(x)), 0, []), Push(0),
                  Alone(p, x, Channel(x, [], 0, Idle), 0, [Encode(p.e, 0, x)]))
  {
    hide Decode, Encode, Link.Fits, Link.Shared, Link.Threshold;
  }

  lemma {:induction false} AloneRun(p: Link, x: nat)
    requires p.Fits() && p.n > 0 && p.Threshold() / 2 < x && p.f + x < WORD && (x <= p.Shared() || x <= p.m)
    ensures var run := [Send(0, x), Arrive(0), CountRegional(0), Test(0), Swap(0), Subtract(0), Push(0)];
            && DisciplinedRun(p, Init(p), run)
            && Exec(p, Init(p), run) == At(Alone(p, x, Channel(x, [], 0, Idle), 0, [Encode(p.e, 0, x)]))
  {
    hide Exec, DisciplinedRun, Init, Leads, Encode, Alone, Link.Fits, Link.Shared, Link.Threshold;
    AloneArrives(p, x);
    AloneReturns(p, x);
    RunThrough(p, [Init(p), Alone(p, x, Channel(x, [x], 0, Idle), 0, []),
                   Alone(p, x, Channel(x, [], x, Counted(x)), 0, []), Alone(p, x, Channel(x, [], x, Received), x, []),
                   Alone(p, x, Channel(x, [], x, Returning), x, []), Alone(p, x, Channel(x, [], 0, Taken(x)), x, []),
                   Alone(p, x, Channel(x, [], 0, Subtracted(x)), 0, []),
                   Alone(p, x, Channel(x, [], 0, Idle), 0, [Encode(p.e, 0, x)])],
               [Send(0, x), Arrive(0), CountRegional(0), Test(0), Swap(0), Subtract(0), Push(0)]);
  }

  lemma {:induction false} AloneAccepted(p: Link, x: nat)
    requires p.Fits() && p.n > 0 && 0 < x < WORD && x < Pow(2, p.e)
    ensures var s := Alone(p, x, Channel(x, [], 0, Idle), 0, [Encode(p.e, 0, x)]);
            Enabled(p, s, Credit) && AcceptWord(p, s).total == 0
  {
    hide Decode, Encode, Pow, Link.Fits;
    RoundTrip(p.e, 0, x);
  }

  /** On every link with a channel: one message goes out, and all its credits come back. The sender's total is
      then 0, and its assertion that the total is positive fails. */
  lemma {:induction false} AssertionFails(p: Link) returns (s: State)
    requires p.Valid() && p.n > 0
    ensures Reachable(p, s) && Enabled(p, s, Credit) && AcceptWord(p, s).total == 0
  {
    hide Exec, DisciplinedRun, Enabled, AcceptWord, Encode, Decode, Pow, Init, Alone, Returnable;
    var x := Returnable(p);
    ReturnableAdmitted(p);
    s := Alone(p, x, Channel(x, [], 0, Idle), 0, [Encode(p.e, 0, x)]);
    AloneRun(p, x);
    AloneAccepted(p, x);
  }
}
