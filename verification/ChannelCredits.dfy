/** The credit protocol of one channel as a state machine over its atomic steps: an optimistic
    fetch-and-add with undo, a sleep on a condition variable, and credits returned in bulk.

    One thread acquires; any number of threads free, and any number of threads receive. */
module ChannelCredits {
  import opened Arith
  import opened Sums
  import opened CreditWord

  const RETRIES := 2500

  /** f is the buffer size and the initial credit; e is the logarithm of 2 * f. */
  datatype Link = Link(f: nat, service: nat, e: nat) {
    ghost predicate Valid() {
      2 * f == Pow(2, e) < WORD && service * Pow(2, e) < WORD
    }
  }

  /** Where the acquiring thread stands. */
  datatype Acquirer =
    | Idle
    | Spin(len: nat, retries: nat)  // about to subtract
    | Undo(len: nat, retries: nat)  // has subtracted too much, about to add it back
    | Locking(len: nat)             // waits for the mutex
    | Check(len: nat)               // holds the mutex, about to look
    | Unlucky(len: nat)             // holds the mutex, has seen too little
    | Sleep(len: nat)
    | Enough(len: nat)              // holds the mutex, has seen enough

  /** Who holds the mutex; a notifier is a freeing thread. */
  datatype Holder = Nobody | TheAcquirer | Notifier(done: bool)

  /** Sender: counter, pc, holder, and the threads that have added credits and still have to notify.
      Wires: messages under way and credit words under way. Receiver: its counter, the threads about to
      check it, the threads about to swap it out, and what others have swapped out. */
  datatype State = State(counter: nat, pc: Acquirer, holder: Holder, added: nat,
                         flight: seq<nat>, words: seq<nat>,
                         held: nat, checks: nat, swaps: nat, taken: seq<nat>)

  datatype Step =
    | Start(len: nat) | Try | GiveBack | TakeLock | Look | Wait | SpuriousWake | TakeCredits
    | FreeAdd | FreeLock | Notify | Unlock
    | Arrive | CheckHeld | SwapHeld | Push(k: nat)

  function Init(p: Link): State {
    State(p.f, Idle, Nobody, 0, [], [], 0, 0, 0, [])
  }

  predicate Enabled(p: Link, s: State, step: Step) {
    match step
    case Start(len) => s.pc == Idle && len < WORD
    case Try => s.pc.Spin?
    case GiveBack => s.pc.Undo?
    case TakeLock => s.pc.Locking? && s.holder == Nobody
    case Look => s.pc.Check?
    case Wait => s.pc.Unlucky?
    case SpuriousWake => s.pc.Sleep?
    case TakeCredits => s.pc.Enough?
    case FreeAdd => s.words != [] && Decode(p.e, s.words[0]).0 == p.service
    case FreeLock => s.added > 0 && s.holder == Nobody
    case Notify => s.holder == Notifier(false)
    case Unlock => s.holder == Notifier(true)
    case Arrive => s.flight != []
    case CheckHeld => s.checks > 0
    case SwapHeld => s.swaps > 0
    case Push(k) => k < |s.taken|
  }

  /** The spin loop's fetch_and_add(-1 * credits). */
  function TryOnce(s: State): State
    requires s.pc.Spin?
  {
    var len := s.pc.len;
    var t := s.(counter := Sub32(s.counter, len));
    if s.counter < len then t.(pc := Undo(len, s.pc.retries))
    else t.(pc := Idle, flight := s.flight + [len])
  }

  function Restore(s: State): State
    requires s.pc.Undo?
  {
    var (len, r) := (s.pc.len, s.pc.retries);
    s.(counter := Add32(s.counter, len), pc := if r + 1 < RETRIES then Spin(len, r + 1) else Locking(len))
  }

  /** freeCredits begins: the counter grows before the mutex is taken. */
  function AcceptWord(p: Link, s: State): State
    requires s.words != []
  {
    s.(counter := Add32(s.counter, Decode(p.e, s.words[0]).1), words := s.words[1..], added := s.added + 1)
  }

  /** The receiver's acquireCredits; its freeCredits is still to come. */
  function Receive(s: State): State
    requires s.flight != []
  {
    s.(held := Add32(s.held, s.flight[0]), flight := s.flight[1..], checks := s.checks + 1)
  }

  /** The message that carries what one thread has swapped out. */
  function PushWord(p: Link, s: State, k: nat): State
    requires k < |s.taken|
  {
    s.(words := s.words + [Encode(p.e, p.service, s.taken[k])], taken := s.taken[..k] + s.taken[k + 1..])
  }

  function Apply(p: Link, s: State, step: Step): State
    requires Enabled(p, s, step)
  {
    match step
    case Start(len) => s.(pc := Spin(len, 0))
    case Try => TryOnce(s)
    case GiveBack => Restore(s)
    case TakeLock => s.(pc := Check(s.pc.len), holder := TheAcquirer)
    case Look => s.(pc := if s.counter < s.pc.len then Unlucky(s.pc.len) else Enough(s.pc.len))
    case Wait => s.(pc := Sleep(s.pc.len), holder := Nobody)
    case SpuriousWake => s.(pc := Locking(s.pc.len))
    case TakeCredits =>
      s.(counter := Sub32(s.counter, s.pc.len), pc := Idle, holder := Nobody, flight := s.flight + [s.pc.len])
    case FreeAdd => AcceptWord(p, s)
    case FreeLock => s.(added := s.added - 1, holder := Notifier(false))
    case Notify => s.(pc := if s.pc.Sleep? then Locking(s.pc.len) else s.pc, holder := Notifier(true))
    case Unlock => s.(holder := Nobody)
    case Arrive => Receive(s)
    case CheckHeld => s.(checks := s.checks - 1, swaps := if s.held > p.f / 2 then s.swaps + 1 else s.swaps)
    case SwapHeld => s.(held := 0, swaps := s.swaps - 1, taken := s.taken + [s.held])
    case Push(k) => PushWord(p, s, k)
  }

  datatype Outcome = Stuck | At(state: State)

  function Exec(p: Link, s: State, steps: seq<Step>): Outcome
    decreases |steps|
  {
    if steps == [] then At(s)
    else if !Enabled(p, s, steps[0]) then Stuck
    else Exec(p, Apply(p, s, steps[0]), steps[1..])
  }

  // ----- the invariant -----

  function Returned(e: nat, words: seq<nat>): nat {
    if words == [] then 0 else Decode(e, words[0]).1 + Returned(e, words[1..])
  }

  /** Acquired and not yet back: under way, held, swapped out or on the way back. */
  function Outstanding(p: Link, s: State): nat {
    Sum(s.flight) + s.held + Sum(s.taken) + Returned(p.e, s.words)
  }

  /** What the acquirer has subtracted and will add back. */
  function Transient(pc: Acquirer): nat {
    if pc.Undo? then pc.len else 0
  }

  /** The mutex is the acquirer's exactly while it looks, is about to wait, or takes. */
  predicate MutexKept(s: State) {
    s.holder == TheAcquirer <==> s.pc.Check? || s.pc.Unlucky? || s.pc.Enough?
  }

  /** A sender that sleeps or is about to, although it has enough credit, has a notification to come. */
  predicate WakeupPending(p: Link, s: State, outstanding: nat) {
    && (s.pc.Unlucky? && outstanding + s.pc.len <= p.f ==> s.added > 0)
    && (s.pc.Sleep? && outstanding + s.pc.len <= p.f ==> s.added > 0 || s.holder == Notifier(false))
  }

  ghost predicate Inv(p: Link, s: State) {
    && InvWith(p, s, Outstanding(p, s))
    && (forall k :: 0 <= k < |s.words| ==> Decode(p.e, s.words[k]).0 == p.service)
  }

  /** The part that depends on the queues only through what is outstanding. */
  predicate InvWith(p: Link, s: State, outstanding: nat) {
    && s.counter == (p.f - outstanding - Transient(s.pc)) % WORD
    && outstanding <= p.f
    && (s.pc != Idle ==> s.pc.len < WORD)
    && (s.pc.Enough? ==> outstanding + s.pc.len <= p.f)
    && MutexKept(s)
    && WakeupPending(p, s, outstanding)
    && (s.held > p.f / 2 ==> s.checks > 0 || s.swaps > 0)
  }

  lemma {:induction false} WrapAdd(a: int, x: nat)
    ensures Add32(a % WORD, x) == (a + x) % WORD
  {
  }

  lemma {:induction false} WrapSub(a: int, x: nat)
    ensures Sub32(a % WORD, x) == (a - x) % WORD
  {
  }

  /** A step that leaves the receiver and the wires alone. */
  lemma {:induction false} SameOutstanding(p: Link, s: State, t: State)
    requires s.flight == t.flight && s.held == t.held && s.taken == t.taken && s.words == t.words
    ensures Outstanding(p, t) == Outstanding(p, s)
  {
  }

  lemma {:induction false} SpinKeeps(p: Link, s: State, step: Step)
    requires p.Valid() && Inv(p, s) && Enabled(p, s, step) && (step.Start? || step.Try? || step.GiveBack?)
    ensures Inv(p, Apply(p, s, step))
  {
    hide Outstanding, Decode, Add32, Sub32, AcceptWord, Receive, PushWord;
    var t := Apply(p, s, step);
    if t.flight == s.flight {
      SameOutstanding(p, s, t);
    } else {
      SentOutstanding(p, s, t, s.pc.len);
    }
    CounterMoves(p, s, Outstanding(p, s));
  }

  /** The counter after an undo, and after credits were taken. */
  lemma {:induction false} CounterMoves(p: Link, s: State, outstanding: nat)
    requires p.Valid() && InvWith(p, s, outstanding)
    ensures s.pc.Undo? ==> Add32(s.counter, s.pc.len) == (p.f - outstanding) % WORD
    ensures s.pc.Spin? || s.pc.Enough? ==>
              && s.counter == p.f - outstanding
              && Sub32(s.counter, s.pc.len) == (p.f - outstanding - s.pc.len) % WORD
  {
    if s.pc.Undo? {
      WrapAdd(p.f - outstanding - s.pc.len, s.pc.len);
    } else if s.pc.Spin? || s.pc.Enough? {
      WrapSub(p.f - outstanding, s.pc.len);
    }
    hide Add32, Sub32;
  }

  /** One more message under way. */
  lemma {:induction false} SentOutstanding(p: Link, s: State, t: State, len: nat)
    requires t.flight == s.flight + [len] && s.held == t.held && s.taken == t.taken && s.words == t.words
    ensures Outstanding(p, t) == Outstanding(p, s) + len
  {
    hide Sum, Returned;
    SumAppend(s.flight, len);
  }

  lemma {:induction false} LockedKeeps(p: Link, s: State, step: Step)
    requires p.Valid() && Inv(p, s) && Enabled(p, s, step)
    requires step.TakeLock? || step.Look? || step.Wait? || step.SpuriousWake?
    ensures Inv(p, Apply(p, s, step))
  {
    hide Outstanding, Decode, TryOnce, Restore, AcceptWord, Receive, PushWord, Pow;
    SameOutstanding(p, s, Apply(p, s, step));
  }

  lemma {:induction false} TakeKeeps(p: Link, s: State)
    requires p.Valid() && Inv(p, s) && s.pc.Enough?
    ensures Inv(p, Apply(p, s, TakeCredits))
  {
    hide Outstanding, Decode, Sub32, AcceptWord, Receive, PushWord;
    SentOutstanding(p, s, Apply(p, s, TakeCredits), s.pc.len);
    CounterMoves(p, s, Outstanding(p, s));
  }

  lemma {:induction false} FreeKeeps(p: Link, s: State, step: Step)
    requires p.Valid() && Inv(p, s) && Enabled(p, s, step)
    requires step.FreeAdd? || step.FreeLock? || step.Notify? || step.Unlock?
    ensures Inv(p, Apply(p, s, step))
  {
    hide Outstanding, Decode, Add32, Receive, PushWord;
    var t := Apply(p, s, step);
    if step.FreeAdd? {
      var x := AcceptedOutstanding(p, s);
      WrapAdd(p.f - Outstanding(p, s) - Transient(s.pc), x);
    } else {
      SameOutstanding(p, s, t);
    }
  }

  /** An accepted word is no longer outstanding. */
  lemma {:induction false} AcceptedOutstanding(p: Link, s: State) returns (x: nat)
    requires s.words != []
    ensures x == Decode(p.e, s.words[0]).1 <= Outstanding(p, s)
    ensures Outstanding(p, AcceptWord(p, s)) == Outstanding(p, s) - x
  {
    hide Sum, Decode, Add32;
    x := Decode(p.e, s.words[0]).1;
  }

  lemma {:induction false} SumRemove(s: seq<nat>, k: nat)
    requires k < |s|
    ensures Sum(s[..k] + s[k + 1..]) == Sum(s) - s[k]
  {
    assert s == s[..k] + s[k..];
    SumConcat(s[..k], s[k..]);
    SumConcat(s[..k], s[k + 1..]);
  }

  lemma {:induction false} ReturnedAppend(e: nat, words: seq<nat>, w: nat)
    ensures Returned(e, words + [w]) == Returned(e, words) + Decode(e, w).1
  {
    if words == [] {
      assert [w][1..] == [];
    } else {
      assert (words + [w])[1..] == words[1..] + [w];
      ReturnedAppend(e, words[1..], w);
    }
  }

  /** What a thread swaps out fits the credit word, so its message is read back unchanged. */
  lemma {:induction false} WordIsReadBack(p: Link, s: State, k: nat)
    requires p.Valid() && Inv(p, s) && k < |s.taken|
    ensures s.taken[k] <= p.f && Decode(p.e, Encode(p.e, p.service, s.taken[k])) == (p.service, s.taken[k])
  {
    hide Sum, Encode, Decode, Pow, Returned;
    SumElement(s.taken, k);
    PowPositive(2, p.e);
    RoundTrip(p.e, p.service, s.taken[k]);
  }

  lemma {:induction false} ReceiveKeeps(p: Link, s: State, step: Step)
    requires p.Valid() && Inv(p, s) && Enabled(p, s, step) && (step.Arrive? || step.CheckHeld? || step.SwapHeld?)
    ensures Inv(p, Apply(p, s, step))
  {
    hide Outstanding, Decode, Encode, TryOnce, Restore, AcceptWord;
    var t := Apply(p, s, step);
    match step {
      case Arrive => ReceivedOutstanding(p, s);
      case CheckHeld => SameOutstanding(p, s, t);
      case SwapHeld => SwappedOutstanding(p, s, t);
    }
  }

  /** A message is held instead of under way. */
  lemma {:induction false} ReceivedOutstanding(p: Link, s: State)
    requires p.f < WORD && Outstanding(p, s) <= p.f && s.flight != []
    ensures Outstanding(p, Receive(s)) == Outstanding(p, s)
  {
    hide Returned;
    assert s.held + s.flight[0] < WORD;
  }

  /** What was held is swapped out. */
  lemma {:induction false} SwappedOutstanding(p: Link, s: State, t: State)
    requires s.flight == t.flight && t.held == 0 && t.taken == s.taken + [s.held] && s.words == t.words
    ensures Outstanding(p, t) == Outstanding(p, s)
  {
    hide Sum, Returned;
    SumAppend(s.taken, s.held);
  }

  lemma {:induction false} PushKeeps(p: Link, s: State, k: nat)
    requires p.Valid() && Inv(p, s) && k < |s.taken|
    ensures Inv(p, PushWord(p, s, k))
  {
    hide Outstanding, Encode, Decode;
    WordIsReadBack(p, s, k);
    PushedOutstanding(p, s, k);
  }

  /** What was swapped out is on its way back. */
  lemma {:induction false} PushedOutstanding(p: Link, s: State, k: nat)
    requires k < |s.taken| && Decode(p.e, Encode(p.e, p.service, s.taken[k])).1 == s.taken[k]
    ensures Outstanding(p, PushWord(p, s, k)) == Outstanding(p, s)
  {
    hide Sum, Returned, Encode, Decode;
    SumRemove(s.taken, k);
    ReturnedAppend(p.e, s.words, Encode(p.e, p.service, s.taken[k]));
  }

  lemma {:induction false} StepKeeps(p: Link, s: State, step: Step)
    requires p.Valid() && Inv(p, s) && Enabled(p, s, step)
    ensures Inv(p, Apply(p, s, step))
  {
    match step
    case Start(_) => SpinKeeps(p, s, step);
    case Try => SpinKeeps(p, s, step);
    case GiveBack => SpinKeeps(p, s, step);
    case FreeAdd => FreeKeeps(p, s, step);
    case FreeLock => FreeKeeps(p, s, step);
    case Notify => FreeKeeps(p, s, step);
    case Unlock => FreeKeeps(p, s, step);
    case Arrive => ReceiveKeeps(p, s, step);
    case CheckHeld => ReceiveKeeps(p, s, step);
    case SwapHeld => ReceiveKeeps(p, s, step);
    case Push(k) => PushKeeps(p, s, k);
    case TakeCredits => TakeKeeps(p, s);
    case _ => LockedKeeps(p, s, step);
  }

  ghost predicate Reachable(p: Link, s: State) {
    exists steps: seq<Step> :: Exec(p, Init(p), steps) == At(s)
  }

  lemma {:induction false} RunKeeps(p: Link, s: State, steps: seq<Step>)
    requires p.Valid() && Inv(p, s)
    ensures var o := Exec(p, s, steps); o.At? ==> Inv(p, o.state)
    decreases |steps|
  {
    if steps != [] && Enabled(p, s, steps[0]) {
      hide Inv, Apply, Enabled, Link.Valid;
      StepKeeps(p, s, steps[0]);
      RunKeeps(p, Apply(p, s, steps[0]), steps[1..]);
    }
  }

  lemma {:induction false} ReachableInv(p: Link, s: State)
    requires p.Valid() && Reachable(p, s)
    ensures Inv(p, s)
  {
    var steps :| Exec(p, Init(p), steps) == At(s);
    hide Exec, Inv;
    InitInv(p);
    RunKeeps(p, Init(p), steps);
  }

  lemma {:induction false} InitInv(p: Link)
    requires p.Valid()
    ensures Inv(p, Init(p))
  {
  }

  // ----- what every reachable state satisfies -----

  /** The counter is the free credit, less what an undo will still add back, modulo 2^32. */
  lemma {:induction false} CounterExact(p: Link, s: State)
    requires p.Valid() && Reachable(p, s)
    ensures s.counter == (p.f - Outstanding(p, s) - Transient(s.pc)) % WORD
    ensures Outstanding(p, s) <= p.f
    ensures !s.pc.Undo? ==> s.counter == p.f - Outstanding(p, s)
  {
    hide Outstanding, Reachable, Decode, Pow;
    ReachableInv(p, s);
  }

  /** Every credit word under way names the channel and returns less than 2 * f. */
  lemma {:induction false} WordsExact(p: Link, s: State)
    requires p.Valid() && Reachable(p, s)
    ensures forall k :: 0 <= k < |s.words| ==> Decode(p.e, s.words[k]).0 == p.service
    ensures forall k :: 0 <= k < |s.taken| ==>
                          && s.taken[k] < 2 * p.f
                          && Decode(p.e, Encode(p.e, p.service, s.taken[k])) == (p.service, s.taken[k])
  {
    ReachableInv(p, s);
    PowPositive(2, p.e);
    forall k | 0 <= k < |s.taken|
      ensures s.taken[k] <= p.f && Decode(p.e, Encode(p.e, p.service, s.taken[k])) == (p.service, s.taken[k])
    {
      WordIsReadBack(p, s, k);
    }
  }

  /** No wakeup is lost: a sleeping sender that has enough credit has a notification to come. */
  lemma {:induction false} NoLostWakeup(p: Link, s: State)
    requires p.Valid() && Reachable(p, s) && s.pc.Sleep? && s.counter >= s.pc.len
    ensures s.added > 0 || s.holder == Notifier(false)
  {
    hide Outstanding, Reachable, Decode, Pow;
    ReachableInv(p, s);
  }

  /** Nothing is under way and no thread but the acquirer has anything left to do. */
  predicate Drained(s: State) {
    && s.flight == [] && s.words == [] && s.taken == []
    && s.checks == 0 && s.swaps == 0 && s.added == 0 && !s.holder.Notifier?
  }

  lemma {:induction false} DrainedHasCredit(p: Link, s: State)
    requires p.Valid() && Reachable(p, s) && Drained(s)
    ensures Outstanding(p, s) == s.held <= p.f / 2
    ensures s.pc.Sleep? ==> s.pc.len > p.f - p.f / 2
  {
    ReachableInv(p, s);
  }
}
