/** When a drained channel can leave its sender asleep. */
module ChannelProgress {
  import opened Arith
  import opened Sums
  import opened CreditWord
  import opened ChannelCredits

  lemma {:induction false} ExecJoins(p: Link, s: State, first: seq<Step>, t: State, rest: seq<Step>)
    requires Exec(p, s, first) == At(t)
    ensures Exec(p, s, first + rest) == Exec(p, t, rest)
    decreases |first|
  {
    if first == [] {
      assert first + rest == rest;
    } else {
      hide Enabled, Apply;
      assert (first + rest)[1..] == first[1..] + rest;
      ExecJoins(p, Apply(p, s, first[0]), first[1..], t, rest);
    }
  }

  /** One more step at the end of a run. */
  lemma {:induction false} ExecThen(p: Link, s: State, steps: seq<Step>, t: State, step: Step)
    requires Exec(p, s, steps) == At(t) && Enabled(p, t, step)
    ensures Exec(p, s, steps + [step]) == At(Apply(p, t, step))
  {
    ExecJoins(p, s, steps, t, [step]);
    hide Enabled, Apply;
    assert [step][1..] == [];
  }

  lemma {:induction false} ReachThen(p: Link, s: State, step: Step)
    requires Reachable(p, s) && Enabled(p, s, step)
    ensures Reachable(p, Apply(p, s, step))
  {
    var steps :| Exec(p, Init(p), steps) == At(s);
    hide Exec, Enabled, Apply;
    ExecThen(p, Init(p), steps, s, step);
  }

  /** The receiver keeps half a buffer and the sender tries for more than the rest. */
  function Keeping(p: Link, pc: Acquirer, holder: Holder): State {
    State(p.f - p.f / 2, pc, holder, 0, [], [], p.f / 2, 0, 0, [])
  }

  lemma {:induction false} InitReachable(p: Link)
    ensures Reachable(p, Init(p))
  {
    assert Exec(p, Init(p), []) == At(Init(p));
  }

  /** A message of half a buffer is on its way. */
  lemma {:induction false} HalfIsSent(p: Link)
    requires p.Valid()
    ensures Reachable(p, Init(p).(counter := p.f - p.f / 2, flight := [p.f / 2]))
  {
    hide Reachable, Decode, Encode, PushWord, AcceptWord;
    var h := p.f / 2;
    InitReachable(p);
    ReachThen(p, Init(p), Start(h));
    assert [] + [h] == [h];
    ReachThen(p, Init(p).(pc := Spin(h, 0)), Try);
  }

  /** It is received and kept. */
  lemma {:induction false} HalfIsKept(p: Link)
    requires p.Valid()
    ensures Reachable(p, Keeping(p, Idle, Nobody))
  {
    hide Reachable, Decode, Encode, PushWord, AcceptWord;
    var h := p.f / 2;
    HalfIsSent(p);
    assert [h][1..] == [];
    ReachThen(p, Init(p).(counter := p.f - h, flight := [h]), Arrive);
    ReachThen(p, Init(p).(counter := p.f - h, held := h, checks := 1), CheckHeld);
  }

  /** One failed attempt leaves everything as it was, but for the number of attempts. */
  lemma {:induction false} AttemptFails(p: Link, len: nat, r: nat)
    requires p.Valid() && p.f - p.f / 2 < len < WORD && r < RETRIES
    requires Reachable(p, Keeping(p, Spin(len, r), Nobody))
    ensures Reachable(p, Keeping(p, if r + 1 < RETRIES then Spin(len, r + 1) else Locking(len), Nobody))
  {
    hide Reachable, Keeping, Apply, Enabled;
    var t := AttemptSteps(p, len, r);
    ReachThen(p, Keeping(p, Spin(len, r), Nobody), Try);
    ReachThen(p, t, GiveBack);
  }

  lemma {:induction false} AttemptSteps(p: Link, len: nat, r: nat) returns (t: State)
    requires p.Valid() && p.f - p.f / 2 < len < WORD && r < RETRIES
    ensures var s := Keeping(p, Spin(len, r), Nobody); Enabled(p, s, Try) && Apply(p, s, Try) == t
    ensures Enabled(p, t, GiveBack)
    ensures Apply(p, t, GiveBack) == Keeping(p, if r + 1 < RETRIES then Spin(len, r + 1) else Locking(len), Nobody)
  {
    hide Sub32, Add32, Decode, PushWord, AcceptWord, Receive, Link.Valid;
    var s := Keeping(p, Spin(len, r), Nobody);
    t := TryOnce(s);
    SubAddBack(p, s.counter, len);
  }

  lemma {:induction false} SubAddBack(p: Link, counter: nat, len: nat)
    requires p.Valid() && counter <= p.f
    ensures Add32(Sub32(counter, len), len) == counter
  {
    assert counter % WORD == counter;
    hide Add32, Sub32;
    WrapSub(counter, len);
    WrapAdd(counter - len, len);
  }

  lemma {:induction false} SpinFails(p: Link, len: nat, r: nat)
    requires p.Valid() && p.f - p.f / 2 < len < WORD && r < RETRIES
    requires Reachable(p, Keeping(p, Spin(len, r), Nobody))
    ensures Reachable(p, Keeping(p, Locking(len), Nobody))
    decreases RETRIES - r
  {
    hide Reachable, Keeping;
    AttemptFails(p, len, r);
    if r + 1 < RETRIES {
      SpinFails(p, len, r + 1);
    }
  }

  /** How many times the acquiring thread tries in these steps. */
  function Tries(steps: seq<Step>): nat {
    if steps == [] then 0 else Tries(steps[1..]) + if steps[0].Try? then 1 else 0
  }

  /** The attempts that the thread has behind it */
  function Behind(pc: Acquirer): nat {
    match pc
    case Spin(_, r) => r
    case Undo(_, r) => r + 1
    case _ => 2500
  }

  /** Whatever the other threads do meanwhile: as long as the thread neither goes for the mutex nor begins another
      message, it goes to the mutex after exactly 2500 attempts in vain, and has its credits after no more. */
  lemma {:induction false} AttemptsCounted(p: Link, s: State, steps: seq<Step>)
    requires Behind(s.pc) <= 2500 && (s.pc.Spin? ==> s.pc.retries < 2500)
    requires s.pc.Spin? || s.pc.Undo? || s.pc.Locking? || s.pc.Idle?
    requires forall k :: 0 <= k < |steps| ==> !steps[k].Start? && !steps[k].TakeLock?
    ensures var o := Exec(p, s, steps);
            o.At? ==>
              && (o.state.pc.Spin? ==> o.state.pc.retries < 2500)
              && (s.pc.Idle? ==> o.state.pc.Idle? && Tries(steps) == 0)
              && (o.state.pc.Spin? || o.state.pc.Undo? || o.state.pc.Locking? ==>
                    Behind(o.state.pc) == Behind(s.pc) + Tries(steps))
              && (o.state.pc.Idle? && !s.pc.Idle? ==> Behind(s.pc) + Tries(steps) <= 2500)
              && (o.state.pc.Spin? || o.state.pc.Undo? || o.state.pc.Locking? || o.state.pc.Idle?)
    decreases |steps|
  {
    if steps != [] && Enabled(p, s, steps[0]) {
      AttemptStep(p, s, steps[0]);
      hide Apply, Enabled, Behind;
      AttemptsCounted(p, Apply(p, s, steps[0]), steps[1..]);
    }
  }

  lemma {:induction false} AttemptStep(p: Link, s: State, step: Step)
    requires Behind(s.pc) <= 2500 && (s.pc.Spin? ==> s.pc.retries < 2500)
    requires s.pc.Spin? || s.pc.Undo? || s.pc.Locking? || s.pc.Idle?
    requires Enabled(p, s, step) && !step.Start? && !step.TakeLock?
    ensures var t := Apply(p, s, step);
            && Behind(t.pc) <= 2500 && (t.pc.Spin? ==> t.pc.retries < 2500)
            && (t.pc.Spin? || t.pc.Undo? || t.pc.Locking? || t.pc.Idle?)
            && (s.pc.Idle? ==> t.pc.Idle? && !step.Try?)
            && (t.pc.Idle? && !s.pc.Idle? ==> Behind(s.pc) + (if step.Try? then 1 else 0) <= 2500)
            && (!t.pc.Idle? ==> Behind(t.pc) == Behind(s.pc) + if step.Try? then 1 else 0)
  {
    hide Sub32, Add32, Decode, Encode;
  }

  /** A message longer than what half a buffer leaves can sleep with nothing under way to wake it. */
  lemma {:induction false} DrainedSleeps(p: Link, len: nat)
    requires p.Valid() && p.f - p.f / 2 < len < WORD
    ensures var s := Keeping(p, Sleep(len), Nobody); Reachable(p, s) && Drained(s)
  {
    HalfIsKept(p);
    hide Reachable;
    ReachThen(p, Keeping(p, Idle, Nobody), Start(len));
    SpinFails(p, len, 0);
    ReachThen(p, Keeping(p, Locking(len), Nobody), TakeLock);
    ReachThen(p, Keeping(p, Check(len), TheAcquirer), Look);
    ReachThen(p, Keeping(p, Unlucky(len), TheAcquirer), Wait);
  }

  /** Exactly the lengths for which no drained channel leaves its sender asleep. */
  lemma {:induction false} DrainedNeverSleepsExactly(p: Link, len: nat)
    requires p.Valid() && len < WORD
    ensures len <= p.f - p.f / 2 <==> forall s :: Reachable(p, s) && Drained(s) ==> s.pc != Sleep(len)
  {
    if len > p.f - p.f / 2 {
      DrainedSleeps(p, len);
    } else {
      forall s | Reachable(p, s) && Drained(s)
        ensures s.pc != Sleep(len)
      {
        DrainedHasCredit(p, s);
      }
    }
  }
}
