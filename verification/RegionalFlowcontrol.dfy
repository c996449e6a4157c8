/** Regional ("pointer") flow control as a state machine over its atomic steps: n channels share one
    receive buffer of f words, of which m are reserved for each channel.

    The sender's critical sections run under one mutex, so each is one step. The receiver's counters are
    separate atomics: each channel's thread runs acquireCredits and then freeCredits for every message,
    and its program counter says between which two atomic operations it stands. */
module RegionalFlowcontrol {
  import opened Arith
  import opened Sums
  import opened CreditWord

  /** e is the logarithm of 2 * f, the unit of the credit word. */
  datatype Link = Link(n: nat, f: nat, m: nat, e: nat) {
    /** The reserves fit the buffer. */
    predicate Fits() {
      n * m <= f
    }

    ghost predicate Valid() {
      && Fits() && 2 * f == Pow(2, e) && n * Pow(2, e) < WORD
      && 2 * f < WORD
    }

    /** regionalReturnThreshold on the sending side: the words that are not reserved */
    function Shared(): (r: nat)
      requires Fits()
      ensures r + n * m == f
    {
      f - n * m
    }

    /** regionalReturnThreshold on the receiving side: half the buffer, but no more than what is not reserved */
    function Threshold(): (r: nat)
      requires Fits()
      ensures 2 * r <= f && r + n * m <= f
      ensures f < 2 * (r + 1) || f < r + 1 + n * m
    {
      if f / 2 < Shared() then f / 2 else Shared()
    }
  }

  /** Where a receiving channel's thread stands. */
  datatype Pc =
    | Idle
    | Counted(c: nat)     // counted in the channel, not yet in the region
    | Received            // acquireCredits is done, freeCredits begins
    | Returning           // freeCredits has decided to return
    | Taken(c: nat)       // the channel's counter is swapped out
    | Subtracted(c: nat)  // the region's counter is reduced, the message not yet pushed

  /** local: the sender's count for the channel; flight: the messages under way; held: the receiver's count. */
  datatype Channel = Channel(local: nat, flight: seq<nat>, held: nat, pc: Pc)

  /** total and received are the two regional counters; credits holds the credit words under way. */
  datatype State = State(total: nat, ch: seq<Channel>, received: nat, credits: seq<nat>)

  datatype Step =
    | Send(i: nat, len: nat)
    | Feedback(i: nat)
    | Arrive(i: nat)
    | CountRegional(i: nat)
    | Test(i: nat)
    | Swap(i: nat)
    | Subtract(i: nat)
    | Push(i: nat)
    | Credit

  function Init(p: Link): State {
    State(0, seq(p.n, _ => Channel(0, [], 0, Idle)), 0, [])
  }

  // ----- the steps -----

  /** The waiting loop's exit condition, in the counters' own arithmetic. */
  predicate Admits(p: Link, total: nat, local: nat, len: nat)
    requires p.Fits()
  {
    Add32(total, len) <= p.Shared() || Add32(local, len) <= p.m
  }

  /** freeCredits returns what the channel holds if the region is nearly full, or the channel itself. */
  predicate MustReturn(p: Link, received: nat, held: nat)
    requires p.Fits()
  {
    (held > 0 && received > p.Threshold()) || held > p.Threshold() / 2
  }

  predicate Enabled(p: Link, s: State, step: Step)
    requires p.Fits()
  {
    match step
    case Send(i, len) => i < |s.ch| && len < WORD && Admits(p, s.total, s.ch[i].local, len)
    case Feedback(i) => i < |s.ch|
    case Arrive(i) => i < |s.ch| && s.ch[i].pc == Idle && s.ch[i].flight != []
    case CountRegional(i) => i < |s.ch| && s.ch[i].pc.Counted?
    case Test(i) => i < |s.ch| && s.ch[i].pc == Received
    case Swap(i) => i < |s.ch| && s.ch[i].pc == Returning
    case Subtract(i) => i < |s.ch| && s.ch[i].pc.Taken?
    case Push(i) => i < |s.ch| && s.ch[i].pc.Subtracted?
    case Credit => s.credits != [] && Decode(p.e, s.credits[0]).0 < |s.ch|
  }

  function Emit(s: State, i: nat, len: nat): State
    requires i < |s.ch|
  {
    var c := s.ch[i];
    s.(total := Add32(s.total, len),
       ch := s.ch[i := c.(local := Add32(c.local, len), flight := c.flight + [len])])
  }

  /** acquireCredits, first atomic: the channel's counter */
  function CountChannel(s: State, i: nat): State
    requires i < |s.ch| && s.ch[i].flight != []
  {
    var c := s.ch[i];
    var len := c.flight[0];
    s.(ch := s.ch[i := c.(flight := c.flight[1..], held := Add32(c.held, len), pc := Counted(len))])
  }

  /** acquireCredits, second atomic: the regional counter */
  function CountRegion(s: State, i: nat): State
    requires i < |s.ch| && s.ch[i].pc.Counted?
  {
    var c := s.ch[i];
    s.(received := Add32(s.received, c.pc.c), ch := s.ch[i := c.(pc := Received)])
  }

  /** freeCredits: the test */
  function Decide(p: Link, s: State, i: nat): State
    requires p.Fits() && i < |s.ch|
  {
    var c := s.ch[i];
    s.(ch := s.ch[i := c.(pc := if MustReturn(p, s.received, c.held) then Returning else Idle)])
  }

  /** freeCredits: fetch_and_store(0) */
  function TakeAll(s: State, i: nat): State
    requires i < |s.ch|
  {
    var c := s.ch[i];
    s.(ch := s.ch[i := c.(held := 0, pc := Taken(c.held))])
  }

  /** FreeRegionalCredits */
  function SubtractRegion(s: State, i: nat): State
    requires i < |s.ch| && s.ch[i].pc.Taken?
  {
    var c := s.ch[i];
    s.(received := Sub32(s.received, c.pc.c), ch := s.ch[i := c.(pc := Subtracted(c.pc.c))])
  }

  /** The credit message goes out. */
  function PushWord(p: Link, s: State, i: nat): State
    requires i < |s.ch| && s.ch[i].pc.Subtracted?
  {
    var c := s.ch[i];
    s.(credits := s.credits + [Encode(p.e, i, c.pc.c)], ch := s.ch[i := c.(pc := Idle)])
  }

  /** The sender's pushUMF and freeCredits. */
  function AcceptWord(p: Link, s: State): State
    requires s.credits != [] && Decode(p.e, s.credits[0]).0 < |s.ch|
  {
    var (i, x) := Decode(p.e, s.credits[0]);
    var c := s.ch[i];
    s.(total := Sub32(s.total, x), ch := s.ch[i := c.(local := Sub32(c.local, x))], credits := s.credits[1..])
  }

  function Apply(p: Link, s: State, step: Step): State
    requires p.Fits() && Enabled(p, s, step)
  {
    match step
    case Send(i, len) => Emit(s, i, len)
    case Feedback(i) => Emit(s, i, 2)
    case Arrive(i) => CountChannel(s, i)
    case CountRegional(i) => CountRegion(s, i)
    case Test(i) => Decide(p, s, i)
    case Swap(i) => TakeAll(s, i)
    case Subtract(i) => SubtractRegion(s, i)
    case Push(i) => PushWord(p, s, i)
    case Credit => AcceptWord(p, s)
  }

  /** The state a run ends in; None if some step was not possible. */
  datatype Outcome = Stuck | At(state: State)

  function Exec(p: Link, s: State, steps: seq<Step>): Outcome
    requires p.Fits()
    decreases |steps|
  {
    if steps == [] then At(s)
    else if !Enabled(p, s, steps[0]) then Stuck
    else Exec(p, Apply(p, s, steps[0]), steps[1..])
  }

  function Locals(ch: seq<Channel>): (r: seq<nat>)
    ensures |r| == |ch|
  {
    seq(|ch|, i requires 0 <= i < |ch| => ch[i].local)
  }

  /** Each channel weighs at least its reserve. */
  function Reserved(m: nat, ch: seq<Channel>): (r: seq<nat>)
    ensures |r| == |ch|
  {
    seq(|ch|, i requires 0 <= i < |ch| => if ch[i].local > m then ch[i].local else m)
  }

  /** With len more words on channel i, the outstanding words and the unused reserves still fit the buffer. */
  predicate RoomFor(p: Link, s: State, i: nat, len: nat)
    requires i < |s.ch|
  {
    Sum(Reserved(p.m, s.ch)) - Max(s.ch[i].local, p.m) + Max(s.ch[i].local + len, p.m) <= p.f
  }

  /** What the environment keeps to: message lengths that leave the counters below 2^32, and feedback
      messages only while there is room for them (acquireCreditsFC itself does not look). */
  predicate Disciplined(p: Link, s: State, step: Step) {
    match step
    case Send(i, len) => p.f + len < WORD
    case Feedback(i) => i < |s.ch| && RoomFor(p, s, i, 2)
    case _ => true
  }

  predicate DisciplinedRun(p: Link, s: State, steps: seq<Step>)
    requires p.Fits()
    decreases |steps|
  {
    steps != [] ==>
      && Disciplined(p, s, steps[0])
      && (Enabled(p, s, steps[0]) ==> DisciplinedRun(p, Apply(p, s, steps[0]), steps[1..]))
  }

  // ----- the invariant -----

  /** The part of the receiver's regional counter that is channel c's. */
  function RegionPart(c: Channel): nat {
    match c.pc
    case Counted(x) => if x <= c.held then c.held - x else 0
    case Taken(x) => x
    case Subtracted(_) => 0
    case _ => c.held
  }

  function RegionParts(ch: seq<Channel>): (r: seq<nat>)
    ensures |r| == |ch|
  {
    seq(|ch|, i requires 0 <= i < |ch| => RegionPart(ch[i]))
  }

  /** What a thread has taken out of its channel's counter but not yet pushed. */
  function InHand(pc: Pc): nat {
    match pc
    case Taken(x) => x
    case Subtracted(x) => x
    case _ => 0
  }

  /** What an idle channel keeps. */
  function Kept(c: Channel): nat {
    if c.pc == Idle then c.held else 0
  }

  function KeptParts(ch: seq<Channel>): (r: seq<nat>)
    ensures |r| == |ch|
  {
    seq(|ch|, i requires 0 <= i < |ch| => Kept(ch[i]))
  }

  /** The credits on their way back to channel i. */
  function Returned(e: nat, words: seq<nat>, i: nat): nat {
    if words == [] then 0
    else (if Decode(e, words[0]).0 == i then Decode(e, words[0]).1 else 0) + Returned(e, words[1..], i)
  }

  /** Conservation for one channel: what the sender counts is under way, held, in hand or on its way back. */
  ghost predicate Consistent(p: Link, c: Channel, returned: nat)
    requires p.Fits()
  {
    && c.local == Sum(c.flight) + c.held + InHand(c.pc) + returned
    && (c.pc.Counted? ==> c.pc.c <= c.held)
    && (c.pc.Taken? || c.pc.Subtracted? ==> c.held == 0)
    && (c.pc == Idle ==> c.held <= p.Threshold() / 2)
  }

  ghost predicate Inv(p: Link, s: State)
    requires p.Fits()
  {
    && |s.ch| == p.n
    && s.total == Sum(Locals(s.ch))
    && Sum(Reserved(p.m, s.ch)) <= p.f
    && s.received == Sum(RegionParts(s.ch))
    && Sum(KeptParts(s.ch)) <= p.Threshold()
    && (forall i :: 0 <= i < p.n ==> Consistent(p, s.ch[i], Returned(p.e, s.credits, i)))
    && (forall k :: 0 <= k < |s.credits| ==> Decode(p.e, s.credits[k]).0 < p.n)
  }

  // ----- sums over the channels -----

  /** How the four sums change with one channel. */
  lemma {:induction false} ChannelUpdated(m: nat, ch: seq<Channel>, i: nat, c: Channel)
    requires i < |ch|
    ensures Sum(Locals(ch[i := c])) == Sum(Locals(ch)) - ch[i].local + c.local
    ensures Sum(Reserved(m, ch[i := c])) == Sum(Reserved(m, ch)) - Max(ch[i].local, m) + Max(c.local, m)
    ensures Sum(RegionParts(ch[i := c])) == Sum(RegionParts(ch)) - RegionPart(ch[i]) + RegionPart(c)
    ensures Sum(KeptParts(ch[i := c])) == Sum(KeptParts(ch)) - Kept(ch[i]) + Kept(c)
  {
    hide Sum;
    SumUpdate(Locals(ch), i, c.local);
    assert Locals(ch[i := c]) == Locals(ch)[i := c.local];
    SumUpdate(Reserved(m, ch), i, Max(c.local, m));
    assert Reserved(m, ch[i := c]) == Reserved(m, ch)[i := Max(c.local, m)];
    SumUpdate(RegionParts(ch), i, RegionPart(c));
    assert RegionParts(ch[i := c]) == RegionParts(ch)[i := RegionPart(c)];
    SumUpdate(KeptParts(ch), i, Kept(c));
    assert KeptParts(ch[i := c]) == KeptParts(ch)[i := Kept(c)];
  }

  lemma {:induction false} ReservedAtMost(m: nat, ch: seq<Channel>)
    ensures Sum(Reserved(m, ch)) <= Sum(Locals(ch)) + |ch| * m
  {
    if ch != [] {
      ReservedAtMost(m, ch[1..]);
      assert Reserved(m, ch)[1..] == Reserved(m, ch[1..]);
      assert Locals(ch)[1..] == Locals(ch[1..]);
      Distribute(|ch| - 1, 1, m);
    }
  }

  /** The chain behind every bound: kept by idle channels <= counted by the receiver's region
      <= outstanding at the sender <= reserved <= the buffer. */
  lemma {:induction false} Bounds(p: Link, s: State)
    requires p.Valid() && Inv(p, s)
    ensures Sum(KeptParts(s.ch)) <= s.received <= s.total <= p.f
    ensures forall i :: 0 <= i < p.n ==> s.ch[i].local <= s.total && RegionPart(s.ch[i]) <= s.received
  {
    hide Sum, Link.Valid;
    forall i | 0 <= i < p.n
      ensures s.ch[i].local <= s.total && RegionPart(s.ch[i]) <= s.received
      ensures KeptParts(s.ch)[i] <= RegionParts(s.ch)[i] <= Locals(s.ch)[i]
    {
      assert Consistent(p, s.ch[i], Returned(p.e, s.credits, i));
      SumElement(Locals(s.ch), i);
      SumElement(RegionParts(s.ch), i);
    }
    SumPointwise(KeptParts(s.ch), RegionParts(s.ch));
    SumPointwise(RegionParts(s.ch), Locals(s.ch));
    SumPointwise(Locals(s.ch), Reserved(p.m, s.ch));
  }

  lemma {:induction false} ReturnedAppend(e: nat, words: seq<nat>, w: nat, i: nat)
    ensures Returned(e, words + [w], i) == Returned(e, words, i) + if Decode(e, w).0 == i then Decode(e, w).1 else 0
  {
    if words == [] {
      assert [w][1..] == [];
    } else {
      assert (words + [w])[1..] == words[1..] + [w];
      ReturnedAppend(e, words[1..], w, i);
    }
  }

  // ----- every step keeps the invariant -----

  /** A step that changes one channel and the counters by the same amounts. */
  lemma {:induction false} OneChannel(p: Link, s: State, s': State, i: nat, c: Channel)
    requires p.Fits() && Inv(p, s) && i < p.n
    requires s'.ch == s.ch[i := c] && s'.credits == s.credits
    requires Consistent(p, c, Returned(p.e, s.credits, i))
    requires s'.total == s.total - s.ch[i].local + c.local
    requires s'.received == s.received - RegionPart(s.ch[i]) + RegionPart(c)
    requires Sum(Reserved(p.m, s.ch)) - Max(s.ch[i].local, p.m) + Max(c.local, p.m) <= p.f
    requires Sum(KeptParts(s.ch)) - Kept(s.ch[i]) + Kept(c) <= p.Threshold()
    ensures Inv(p, s')
  {
    ChannelUpdated(p.m, s.ch, i, c);
    hide Sum, Locals, Reserved, RegionParts, KeptParts, Link.Threshold, Consistent, Returned, RegionPart, Kept;
  }

  /** The shared words and all reserves together are the buffer. */
  lemma {:induction false} SharedFits(p: Link, s: State, i: nat, c: Channel)
    requires p.Fits() && Inv(p, s) && i < p.n
    requires s.total - s.ch[i].local + c.local <= p.Shared()
    ensures Sum(Reserved(p.m, s.ch)) - Max(s.ch[i].local, p.m) + Max(c.local, p.m) <= p.f
  {
    ChannelUpdated(p.m, s.ch, i, c);
    hide Sum, Locals, Reserved, RegionParts, KeptParts, Consistent;
    ReservedAtMost(p.m, s.ch[i := c]);
  }

  lemma {:induction false} ReserveCovers(p: Link, s: State, i: nat)
    requires p.Fits() && Inv(p, s) && i < p.n
    ensures Consistent(p, s.ch[i], Returned(p.e, s.credits, i))
  {
  }

  /** An emission for which there is room keeps the invariant. */
  lemma {:induction false} RoomKeeps(p: Link, s: State, i: nat, len: nat)
    requires p.Valid() && Inv(p, s) && i < p.n && p.f + len < WORD
    requires |s.ch| == p.n && RoomFor(p, s, i, len)
    ensures Inv(p, Emit(s, i, len))
  {
    Bounds(p, s);
    ReserveCovers(p, s, i);
    var c := s.ch[i];
    var c' := c.(local := c.local + len, flight := c.flight + [len]);
    SumAppend(c.flight, len);
    hide Sum, Locals, Reserved, RegionParts, KeptParts, Link.Threshold;
    OneChannel(p, s, Emit(s, i, len), i, c');
  }

  /** An admitted message has room: either everything outstanding still fits the shared words, or the channel
      stays within its own reserve. */
  lemma {:induction false} AdmittedRoom(p: Link, s: State, i: nat, len: nat)
    requires p.Valid() && Inv(p, s) && i < p.n
    requires s.total + len <= p.Shared() || s.ch[i].local + len <= p.m
    ensures |s.ch| == p.n && RoomFor(p, s, i, len)
  {
    if s.total + len <= p.Shared() {
      var c := s.ch[i];
      SharedFits(p, s, i, c.(local := c.local + len));
    }
    hide Sum, Locals, Reserved, RegionParts, KeptParts, Link.Threshold;
  }

  lemma {:induction false} EmitKeeps(p: Link, s: State, i: nat, len: nat)
    requires p.Valid() && Inv(p, s) && i < p.n && p.f + len < WORD
    requires s.total + len <= p.Shared() || s.ch[i].local + len <= p.m
    ensures Inv(p, Emit(s, i, len))
  {
    hide Inv, RoomFor;
    AdmittedRoom(p, s, i, len);
    RoomKeeps(p, s, i, len);
  }

  lemma {:induction false} SendKeeps(p: Link, s: State, i: nat, len: nat)
    requires p.Valid() && Inv(p, s) && i < p.n && p.f + len < WORD && Admits(p, s.total, s.ch[i].local, len)
    ensures Inv(p, Emit(s, i, len))
  {
    Bounds(p, s);
    hide Inv;
    EmitKeeps(p, s, i, len);
  }

  lemma {:induction false} FeedbackKeeps(p: Link, s: State, i: nat)
    requires p.Valid() && Inv(p, s) && i < p.n && i < |s.ch| && RoomFor(p, s, i, 2)
    ensures Inv(p, Emit(s, i, 2))
  {
    hide Inv, RoomFor;
    SameChannels(p, s);
    SmallWord(p);
    RoomKeeps(p, s, i, 2);
  }

  /** The buffer size is half a power of two, so it is at least one, and it is below half the word's range. */
  lemma {:induction false} SmallWord(p: Link)
    requires p.Valid()
    ensures p.f >= 1 && p.f + 2 < WORD
  {
    PowPositive(2, p.e);
  }

  /** The receiver's counters, read off the invariant. */
  lemma {:induction false} RegionCounts(p: Link, s: State, i: nat)
    requires p.Valid() && Inv(p, s) && i < p.n
    ensures |s.ch| == p.n && s.total == Sum(Locals(s.ch))
    ensures Sum(KeptParts(s.ch)) <= p.Threshold() && Sum(Reserved(p.m, s.ch)) <= p.f < WORD
    ensures RegionPart(s.ch[i]) <= s.received && s.ch[i].local <= s.total <= p.f && s.received <= s.total
    ensures s.received - RegionPart(s.ch[i]) + s.ch[i].held + InHand(s.ch[i].pc) <= p.f
  {
    Bounds(p, s);
    ReserveCovers(p, s, i);
    hide Sum, Locals, Reserved, KeptParts, Link.Threshold;
    OthersBelow(p, s, i);
  }

  /** The other channels' share of the receiver's region is at most their share at the sender. */
  lemma {:induction false} OthersBelow(p: Link, s: State, i: nat)
    requires p.Valid() && Inv(p, s) && i < p.n
    ensures s.received - RegionPart(s.ch[i]) <= s.total - s.ch[i].local
  {
    ReserveCovers(p, s, i);
    var c := Channel(0, [], 0, Idle);
    ChannelUpdated(p.m, s.ch, i, c);
    hide Sum, Link.Valid;
    var parts, locals := RegionParts(s.ch[i := c]), Locals(s.ch[i := c]);
    forall j | 0 <= j < p.n
      ensures parts[j] <= locals[j]
    {
      ReserveCovers(p, s, j);
    }
    SumPointwise(parts, locals);
  }

  /** A channel that goes idle leaves the region at most at its threshold. */
  lemma {:induction false} TestKeeps(p: Link, s: State, i: nat)
    requires p.Valid() && Inv(p, s) && i < p.n && s.ch[i].pc == Received
    requires !MustReturn(p, s.received, s.ch[i].held)
    ensures Sum(KeptParts(s.ch)) + s.ch[i].held <= p.Threshold()
  {
    var c := s.ch[i].(pc := Idle);
    ChannelUpdated(p.m, s.ch, i, c);
    hide Sum, Link.Fits, Link.Valid;
    SumPointwise(KeptParts(s.ch[i := c]), RegionParts(s.ch));
  }

  /** A step of the receiving thread that only moves credits between its counters. */
  lemma {:induction false} MoveKeeps(p: Link, s: State, i: nat, c: Channel, received: nat)
    requires p.Valid() && Inv(p, s) && i < p.n && Consistent(p, c, Returned(p.e, s.credits, i))
    requires c.local == s.ch[i].local && received == s.received - RegionPart(s.ch[i]) + RegionPart(c)
    requires Kept(c) <= Kept(s.ch[i]) || Sum(KeptParts(s.ch)) - Kept(s.ch[i]) + Kept(c) <= p.Threshold()
    ensures Inv(p, s.(received := received, ch := s.ch[i := c]))
  {
    RegionCounts(p, s, i);
    hide Inv, Sum, Locals, Reserved, RegionParts, KeptParts, Consistent, Returned, RegionPart, Kept,
        Link.Threshold, Link.Fits;
    OneChannel(p, s, s.(received := received, ch := s.ch[i := c]), i, c);
  }

  lemma {:induction false} CountChannelKeeps(p: Link, s: State, i: nat)
    requires p.Valid() && Inv(p, s) && i < p.n && s.ch[i].pc == Idle && s.ch[i].flight != []
    ensures Inv(p, CountChannel(s, i))
  {
    ReserveCovers(p, s, i);
    RegionCounts(p, s, i);
    SumElement(s.ch[i].flight, 0);
    hide Inv, Locals, Reserved, RegionParts, KeptParts, Returned, Link.Fits, Link.Threshold, Add32;
    var s' := CountChannel(s, i);
    MoveKeeps(p, s, i, s'.ch[i], s.received);
  }

  lemma {:induction false} CountRegionKeeps(p: Link, s: State, i: nat)
    requires p.Valid() && Inv(p, s) && i < p.n && s.ch[i].pc.Counted?
    ensures Inv(p, CountRegion(s, i))
  {
    ReserveCovers(p, s, i);
    RegionCounts(p, s, i);
    hide Inv, Sum, Locals, Reserved, RegionParts, KeptParts, Returned, Link.Fits, Link.Threshold, Add32;
    var s' := CountRegion(s, i);
    MoveKeeps(p, s, i, s'.ch[i], s'.received);
  }

  lemma {:induction false} DecideKeeps(p: Link, s: State, i: nat)
    requires p.Valid() && Inv(p, s) && i < p.n && s.ch[i].pc == Received
    ensures Inv(p, Decide(p, s, i))
  {
    ReserveCovers(p, s, i);
    if !MustReturn(p, s.received, s.ch[i].held) {
      TestKeeps(p, s, i);
    }
    hide Inv, Sum, Locals, Reserved, RegionParts, KeptParts, Returned, Link.Fits, Link.Threshold;
    var s' := Decide(p, s, i);
    MoveKeeps(p, s, i, s'.ch[i], s'.received);
  }

  lemma {:induction false} TakeAllKeeps(p: Link, s: State, i: nat)
    requires p.Valid() && Inv(p, s) && i < p.n && s.ch[i].pc == Returning
    ensures Inv(p, TakeAll(s, i))
  {
    ReserveCovers(p, s, i);
    hide Inv, Sum, Locals, Reserved, RegionParts, KeptParts, Returned, Link.Fits, Link.Threshold;
    var s' := TakeAll(s, i);
    MoveKeeps(p, s, i, s'.ch[i], s'.received);
  }

  lemma {:induction false} SubtractRegionKeeps(p: Link, s: State, i: nat)
    requires p.Valid() && Inv(p, s) && i < p.n && s.ch[i].pc.Taken?
    ensures Inv(p, SubtractRegion(s, i))
  {
    ReserveCovers(p, s, i);
    RegionCounts(p, s, i);
    hide Inv, Sum, Locals, Reserved, RegionParts, KeptParts, Returned, Link.Fits, Link.Threshold, Sub32;
    var s' := SubtractRegion(s, i);
    MoveKeeps(p, s, i, s'.ch[i], s'.received);
  }

  /** What a thread has in hand fits the credit word, so its message is read back unchanged. */
  lemma {:induction false} PushedWord(p: Link, s: State, i: nat)
    requires p.Valid() && Inv(p, s) && i < p.n
    ensures Decode(p.e, Encode(p.e, i, InHand(s.ch[i].pc))) == (i, InHand(s.ch[i].pc))
  {
    Bounds(p, s);
    ReserveCovers(p, s, i);
    hide Sum, Inv, Encode, Decode;
    PowPositive(2, p.e);
    MulMonotone(i, p.n, Pow(2, p.e));
    RoundTrip(p.e, i, InHand(s.ch[i].pc));
  }

  /** A step that moves one channel's credits into or out of the words under way. */
  lemma {:induction false} WordKeeps(p: Link, s: State, s': State, i: nat, c: Channel)
    requires p.Fits() && Inv(p, s) && i < p.n
    requires s'.ch == s.ch[i := c] && s'.received == s.received
    requires s'.total == s.total - s.ch[i].local + c.local && c.local <= s.ch[i].local
    requires RegionPart(c) == RegionPart(s.ch[i]) && Kept(c) <= Kept(s.ch[i])
    requires Consistent(p, c, Returned(p.e, s'.credits, i))
    requires forall j :: 0 <= j < p.n && j != i ==> Returned(p.e, s'.credits, j) == Returned(p.e, s.credits, j)
    requires forall k :: 0 <= k < |s'.credits| ==> Decode(p.e, s'.credits[k]).0 < p.n
    ensures Inv(p, s')
  {
    ChannelUpdated(p.m, s.ch, i, c);
    hide Sum, Locals, Reserved, RegionParts, KeptParts, RegionPart, Kept, Decode, Returned, Link.Threshold, Link.Fits;
  }

  lemma {:induction false} PushKeeps(p: Link, s: State, i: nat)
    requires p.Valid() && Inv(p, s) && i < p.n && s.ch[i].pc.Subtracted?
    ensures Inv(p, PushWord(p, s, i))
  {
    var c := s.ch[i];
    var s' := PushWord(p, s, i);
    var w := Encode(p.e, i, c.pc.c);
    PushedWord(p, s, i);
    ReserveCovers(p, s, i);
    WordsNamed(p, s);
    hide Inv, Sum, Locals, Reserved, RegionParts, KeptParts, Encode, Decode, Link.Threshold, Link.Fits;
    forall j: nat
      ensures Returned(p.e, s'.credits, j) == Returned(p.e, s.credits, j) + if j == i then c.pc.c else 0
    {
      ReturnedAppend(p.e, s.credits, w, j);
    }
    WordKeeps(p, s, s', i, c.(pc := Idle));
  }

  lemma {:induction false} WordsNamed(p: Link, s: State)
    requires p.Fits() && Inv(p, s)
    ensures |s.ch| == p.n && forall k :: 0 <= k < |s.credits| ==> Decode(p.e, s.credits[k]).0 < p.n
  {
  }

  /** The first credit message never returns more than its channel has outstanding. */
  lemma {:induction false} CreditCovered(p: Link, s: State)
    requires p.Valid() && Inv(p, s) && s.credits != [] && Decode(p.e, s.credits[0]).0 < |s.ch|
    ensures var (i, x) := Decode(p.e, s.credits[0]);
            x <= s.ch[i].local && Returned(p.e, s.credits, i) == x + Returned(p.e, s.credits[1..], i)
    ensures forall j: nat :: j != Decode(p.e, s.credits[0]).0 ==>
                               Returned(p.e, s.credits, j) == Returned(p.e, s.credits[1..], j)
  {
    var (i, x) := Decode(p.e, s.credits[0]);
    ReserveCovers(p, s, i);
  }

  lemma {:induction false} CreditKeeps(p: Link, s: State)
    requires p.Valid() && Inv(p, s) && s.credits != [] && Decode(p.e, s.credits[0]).0 < |s.ch|
    ensures Inv(p, AcceptWord(p, s))
  {
    var (i, x) := Decode(p.e, s.credits[0]);
    CreditCovered(p, s);
    ReserveCovers(p, s, i);
    RegionCounts(p, s, i);
    WordsNamed(p, s);
    hide Inv, Sum, Locals, Reserved, RegionParts, KeptParts, Encode, Decode, Returned, Link.Threshold, Link.Fits, Sub32;
    WordKeeps(p, s, AcceptWord(p, s), i, s.ch[i].(local := s.ch[i].local - x));
  }

  lemma {:induction false} StepKeeps(p: Link, s: State, step: Step)
    requires p.Valid() && Inv(p, s) && Enabled(p, s, step) && Disciplined(p, s, step)
    ensures Inv(p, Apply(p, s, step))
  {
    SameChannels(p, s);
    hide Inv, Emit, CountChannel, CountRegion, Decide, TakeAll, SubtractRegion, PushWord, AcceptWord, Decode, Admits;
    match step
    case Send(i, len) => SendKeeps(p, s, i, len);
    case Feedback(i) => FeedbackKeeps(p, s, i);
    case Arrive(i) => CountChannelKeeps(p, s, i);
    case CountRegional(i) => CountRegionKeeps(p, s, i);
    case Test(i) => DecideKeeps(p, s, i);
    case Swap(i) => TakeAllKeeps(p, s, i);
    case Subtract(i) => SubtractRegionKeeps(p, s, i);
    case Push(i) => PushKeeps(p, s, i);
    case Credit => CreditKeeps(p, s);
  }

  lemma {:induction false} SameChannels(p: Link, s: State)
    requires p.Fits() && Inv(p, s)
    ensures |s.ch| == p.n
  {
  }

  lemma {:induction false} InitInv(p: Link)
    requires p.Valid()
    ensures Inv(p, Init(p))
  {
    var ch := Init(p).ch;
    SumZeros(Locals(ch));
    SumZeros(RegionParts(ch));
    SumZeros(KeptParts(ch));
    ReservedAtMost(p.m, ch);
  }

  /** The safety theorem: the invariant holds at the end of every disciplined run of any length. */
  lemma {:induction false} RunKeeps(p: Link, s: State, steps: seq<Step>)
    requires p.Valid() && Inv(p, s) && DisciplinedRun(p, s, steps)
    ensures var o := Exec(p, s, steps); o.At? ==> Inv(p, o.state)
    decreases |steps|
  {
    if steps != [] && Enabled(p, s, steps[0]) {
      hide Inv, Apply, Enabled, Disciplined, Link.Valid;
      StepKeeps(p, s, steps[0]);
      RunKeeps(p, Apply(p, s, steps[0]), steps[1..]);
    }
  }

  ghost predicate Reachable(p: Link, s: State)
    requires p.Fits()
  {
    exists steps: seq<Step> :: DisciplinedRun(p, Init(p), steps) && Exec(p, Init(p), steps) == At(s)
  }

  /** In every reachable state: neither end's regional counter exceeds the buffer (the receiver's own
      assertion), the sender's is the sum of its channels', and no counter has wrapped around: each
      channel's count is exactly what is under way, held, in hand and on its way back. */
  lemma {:induction false} Safety(p: Link, s: State)
    requires p.Valid() && Reachable(p, s)
    ensures |s.ch| == p.n && s.total == Sum(Locals(s.ch))
    ensures s.received <= s.total <= p.f && Sum(Reserved(p.m, s.ch)) <= p.f
    ensures forall i :: 0 <= i < p.n ==>
                          && s.ch[i].local == Sum(s.ch[i].flight) + s.ch[i].held + InHand(s.ch[i].pc)
                                              + Returned(p.e, s.credits, i)
                          && s.ch[i].local <= s.total
  {
    var steps :| DisciplinedRun(p, Init(p), steps) && Exec(p, Init(p), steps) == At(s);
    InitInv(p);
    RunKeeps(p, Init(p), steps);
    Bounds(p, s);
    hide Sum, Locals, Reserved, Link.Valid;
    forall i | 0 <= i < p.n
      ensures Consistent(p, s.ch[i], Returned(p.e, s.credits, i))
    {
      ReserveCovers(p, s, i);
    }
  }

  // ----- progress -----

  /** Nothing is under way in either direction and every receiving thread is done. */
  ghost predicate Drained(s: State) {
    && s.credits == []
    && forall i :: 0 <= i < |s.ch| ==> s.ch[i].flight == [] && s.ch[i].pc == Idle
  }

  /** The most that k idle channels can keep together: half a threshold each, one threshold in all. */
  function Level(p: Link, k: nat): nat
    requires p.Fits()
  {
    Min(p.Threshold(), k * (p.Threshold() / 2))
  }

  /** A message of this length always finds credit once the link is drained: it fits beside the most that
      idle channels keep together, or its own channel's reserve beside the most that it keeps itself. */
  predicate AlwaysAdmitted(p: Link, len: nat)
    requires p.Fits()
  {
    len + Level(p, p.n) <= p.Shared() || len + p.Threshold() / 2 <= p.m
  }

  /** Idle channels keep no more than Level. */
  lemma {:induction false} KeptAtMost(p: Link, s: State)
    requires p.Fits() && Inv(p, s)
    ensures Sum(KeptParts(s.ch)) <= Level(p, p.n)
  {
    forall i | 0 <= i < p.n
      ensures KeptParts(s.ch)[i] <= p.Threshold() / 2
    {
      ReserveCovers(p, s, i);
    }
    SumBound(KeptParts(s.ch), p.Threshold() / 2);
  }

  lemma {:induction false} DrainedAdmits(p: Link, s: State, i: nat, len: nat)
    requires p.Valid() && Reachable(p, s) && Drained(s) && i < p.n && p.f + len < WORD
    requires AlwaysAdmitted(p, len)
    ensures i < |s.ch| && Admits(p, s.total, s.ch[i].local, len)
  {
    var steps :| DisciplinedRun(p, Init(p), steps) && Exec(p, Init(p), steps) == At(s);
    InitInv(p);
    RunKeeps(p, Init(p), steps);
    Bounds(p, s);
    KeptAtMost(p, s);
    assert Locals(s.ch) == KeptParts(s.ch) by {
      forall j | 0 <= j < p.n
        ensures Locals(s.ch)[j] == KeptParts(s.ch)[j]
      {
        ReserveCovers(p, s, j);
      }
    }
    ReserveCovers(p, s, i);
  }
}
