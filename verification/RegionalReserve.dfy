/** The sharper bound for runs in which every feedback message stays within its own channel's reserve. */
module RegionalReserve {
  import opened Arith
  import opened Sums
  import opened CreditWord
  import opened RegionalFlowcontrol
  import opened RegionalProgress
  import opened RegionalExtremes

  predicate WithinReserve(p: Link, s: State, step: Step) {
    step.Feedback? ==> step.i < |s.ch| && s.ch[step.i].local + 2 <= p.m
  }

  /** A disciplined run whose feedback messages use reserves only */
  predicate ReserveRun(p: Link, s: State, steps: seq<Step>)
    requires p.Fits()
    decreases |steps|
  {
    steps != [] ==>
      && Disciplined(p, s, steps[0]) && WithinReserve(p, s, steps[0])
      && (Enabled(p, s, steps[0]) ==> ReserveRun(p, Apply(p, s, steps[0]), steps[1..]))
  }

  /** What a channel has outstanding if that is more than its reserve */
  function Excess(m: nat, c: Channel): nat {
    if c.local > m then c.local else 0
  }

  function Excesses(m: nat, ch: seq<Channel>): (r: seq<nat>)
    ensures |r| == |ch|
  {
    seq(|ch|, i requires 0 <= i < |ch| => Excess(m, ch[i]))
  }

  lemma {:induction false} ExcessUpdated(m: nat, ch: seq<Channel>, i: nat, c: Channel)
    requires i < |ch|
    ensures Sum(Excesses(m, ch[i := c])) == Sum(Excesses(m, ch)) - Excess(m, ch[i]) + Excess(m, c)
  {
    hide Sum;
    SumUpdate(Excesses(m, ch), i, Excess(m, c));
    assert Excesses(m, ch[i := c]) == Excesses(m, ch)[i := Excess(m, c)];
  }

  lemma {:induction false} ExcessAtMost(m: nat, ch: seq<Channel>)
    ensures Sum(Excesses(m, ch)) <= Sum(Locals(ch))
  {
    SumPointwise(Excesses(m, ch), Locals(ch));
  }

  /** All channels above their reserves together stay within the shared words. */
  ghost predicate ExcessShared(p: Link, s: State)
    requires p.Fits()
  {
    Sum(Excesses(p.m, s.ch)) <= p.Shared()
  }

  lemma {:induction false} EmitExcess(p: Link, s: State, i: nat, len: nat)
    requires p.Valid() && Inv(p, s) && i < p.n && i < |s.ch| && ExcessShared(p, s) && p.f + len < WORD
    requires s.total + len <= p.Shared() || s.ch[i].local + len <= p.m
    ensures ExcessShared(p, Emit(s, i, len))
  {
    Bounds(p, s);
    EmitKeeps(p, s, i, len);
    var t := Emit(s, i, len);
    ExcessUpdated(p.m, s.ch, i, t.ch[i]);
    ExcessAtMost(p.m, t.ch);
    hide Sum, Excesses, Locals, Reserved, RegionParts, KeptParts, Consistent, Link.Valid;
  }

  lemma {:induction false} CreditExcess(p: Link, s: State)
    requires p.Valid() && Inv(p, s) && ExcessShared(p, s) && Enabled(p, s, Credit)
    ensures ExcessShared(p, AcceptWord(p, s))
  {
    var (i, x) := Decode(p.e, s.credits[0]);
    CreditCovered(p, s);
    RegionCounts(p, s, i);
    ExcessUpdated(p.m, s.ch, i, AcceptWord(p, s).ch[i]);
    hide Inv, Sum, Excesses, Locals, Decode, Returned, Link.Valid, Link.Fits;
  }

  /** The receiver's steps leave the sender's counts alone. */
  lemma {:induction false} OtherExcess(p: Link, s: State, step: Step)
    requires p.Fits() && ExcessShared(p, s) && Enabled(p, s, step)
    requires !step.Send? && !step.Feedback? && !step.Credit?
    ensures ExcessShared(p, Apply(p, s, step))
  {
    hide Sum, Decode, MustReturn;
    assert Excesses(p.m, Apply(p, s, step).ch) == Excesses(p.m, s.ch);
  }

  lemma {:induction false} StepExcess(p: Link, s: State, step: Step)
    requires p.Valid() && Inv(p, s) && ExcessShared(p, s) && Enabled(p, s, step)
    requires Disciplined(p, s, step) && WithinReserve(p, s, step)
    ensures ExcessShared(p, Apply(p, s, step))
  {
    Bounds(p, s);
    SameChannels(p, s);
    SmallWord(p);
    hide Inv, ExcessShared, Emit, AcceptWord, Decode, RoomFor, Sum;
    match step {
      case Send(i, len) => EmitExcess(p, s, i, len);
      case Feedback(i) => EmitExcess(p, s, i, 2);
      case Credit => CreditExcess(p, s);
      case _ => OtherExcess(p, s, step);
    }
  }

  lemma {:induction false} ReserveRunKeeps(p: Link, s: State, steps: seq<Step>)
    requires p.Valid() && Inv(p, s) && ExcessShared(p, s) && ReserveRun(p, s, steps)
    ensures var o := Exec(p, s, steps); o.At? ==> Inv(p, o.state) && ExcessShared(p, o.state)
    decreases |steps|
  {
    if steps != [] && Enabled(p, s, steps[0]) {
      hide Inv, ExcessShared, Apply, Enabled, Disciplined, WithinReserve, Link.Valid;
      StepKeeps(p, s, steps[0]);
      StepExcess(p, s, steps[0]);
      ReserveRunKeeps(p, Apply(p, s, steps[0]), steps[1..]);
    }
  }

  /** With k channels, each within its reserve or in excess. */
  lemma {:induction false} LocalsAtMost(m: nat, ch: seq<Channel>)
    ensures Sum(Locals(ch)) <= Sum(Excesses(m, ch)) + |ch| * m
    ensures Sum(Excesses(m, ch)) > 0 ==> Sum(Locals(ch)) + m <= Sum(Excesses(m, ch)) + |ch| * m
  {
    if ch != [] {
      LocalsAtMost(m, ch[1..]);
      assert Excesses(m, ch)[1..] == Excesses(m, ch[1..]);
      assert Locals(ch)[1..] == Locals(ch[1..]);
      Distribute(|ch| - 1, 1, m);
    }
  }

  /** The most words that reserve-only runs have outstanding. */
  function MostWithinReserve(p: Link): nat
    requires p.Fits() && p.n > 0
  {
    ReserveFits(p);
    p.f - Min(p.m, p.Shared())
  }

  lemma {:induction false} ReserveBound(p: Link, steps: seq<Step>, s: State)
    requires p.Valid() && p.n > 0 && ReserveRun(p, Init(p), steps) && Exec(p, Init(p), steps) == At(s)
    ensures s.total <= MostWithinReserve(p)
  {
    InitInv(p);
    InitExcess(p);
    ReserveRunKeeps(p, Init(p), steps);
    hide Exec, ReserveRun, Excesses, Locals, Reserved, RegionParts, KeptParts, Consistent, Link.Valid;
    LocalsAtMost(p.m, s.ch);
  }

  lemma {:induction false} InitExcess(p: Link)
    requires p.Fits()
    ensures ExcessShared(p, Init(p))
  {
    SumZeros(Excesses(p.m, Init(p).ch));
  }

  lemma {:induction false} SendsWithinReserve(p: Link, s: State, steps: seq<Step>)
    requires p.Fits() && DisciplinedRun(p, s, steps) && forall step :: step in steps ==> step.Send?
    ensures ReserveRun(p, s, steps)
    decreases |steps|
  {
    if steps != [] {
      hide Enabled, Apply, Disciplined, Link.Fits;
      assert steps[0].Send?;
      if Enabled(p, s, steps[0]) {
        SendsWithinReserve(p, Apply(p, s, steps[0]), steps[1..]);
      }
    }
  }

  /** Channel 0 takes all shared words, or nothing if that is less than its reserve. */
  lemma {:induction false} FirstTakes(p: Link) returns (steps: seq<Step>, s: State)
    requires p.Valid() && p.n > 0
    ensures DisciplinedRun(p, Init(p), steps) && Exec(p, Init(p), steps) == At(s)
    ensures forall step :: step in steps ==> step.Send?
    ensures |s.ch| == p.n && s.total == Sum(Locals(s.ch)) && Sum(Reserved(p.m, s.ch)) == MostWithinReserve(p)
  {
    InitInv(p);
    ReservedIsLocalsAndGaps(p.m, Init(p).ch);
    AllGaps(p.m, Init(p).ch);
    SumZeros(Locals(Init(p).ch));
    ReserveFits(p);
    if p.Shared() <= p.m {
      steps, s := [], Init(p);
    } else {
      steps, s := FirstTakesShared(p);
    }
  }

  lemma {:induction false} FirstTakesShared(p: Link) returns (steps: seq<Step>, s: State)
    requires p.Valid() && p.n > 0 && p.Shared() > p.m && Sum(Locals(Init(p).ch)) == 0
    requires Sum(Reserved(p.m, Init(p).ch)) == p.n * p.m
    ensures DisciplinedRun(p, Init(p), steps) && Exec(p, Init(p), steps) == At(s)
    ensures forall step :: step in steps ==> step.Send?
    ensures |s.ch| == p.n && s.total == Sum(Locals(s.ch))
    ensures Sum(Reserved(p.m, s.ch)) == p.n * p.m - p.m + p.Shared()
  {
    var len := p.Shared();
    var c := Channel(len, [len], 0, Idle);
    s := Init(p).(total := len, ch := Init(p).ch[0 := c]);
    ChannelUpdated(p.m, Init(p).ch, 0, c);
    SmallWord(p);
    hide Sum, Locals, Reserved, RegionParts, KeptParts, Link.Valid;
    assert [] + [len] == [len];
    assert Leads(p, Init(p), Send(0, len), s);
    steps := [Send(0, len)];
    RunThrough(p, [Init(p), s], steps);
  }

  /** The bound is attained: channel 0 takes the shared words, and the others fill their reserves. */
  lemma {:induction false} ReserveBoundReached(p: Link) returns (steps: seq<Step>, s: State)
    requires p.Valid() && p.n > 0
    ensures ReserveRun(p, Init(p), steps) && Exec(p, Init(p), steps) == At(s) && s.total == MostWithinReserve(p)
  {
    ReserveFits(p);
    SmallWord(p);
    var first, t := FirstTakes(p);
    hide Exec, DisciplinedRun, Sum, Locals, Reserved, Init;
    var more;
    more, s := TopUp(p, t, 0);
    ExecJoins(p, Init(p), first, t, more);
    steps := first + more;
    SendsWithinReserve(p, Init(p), steps);
  }
}
