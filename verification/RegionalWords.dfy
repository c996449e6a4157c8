/** Credit messages of the regional protocol are never empty. */
module RegionalWords {
  import opened Arith
  import opened CreditWord
  import opened RegionalFlowcontrol

  /** What a thread is about to return, has taken, or has sent is at least one word. */
  predicate Full(c: Channel) {
    match c.pc
    case Returning => c.held > 0
    case Taken(x) => x > 0
    case Subtracted(x) => x > 0
    case _ => true
  }

  ghost predicate NoEmptyWords(p: Link, s: State) {
    && (forall k :: 0 <= k < |s.credits| ==> Decode(p.e, s.credits[k]).1 > 0)
    && forall i :: 0 <= i < |s.ch| ==> Full(s.ch[i])
  }

  /** The channel that the step is about, and what it becomes; the others stay. */
  lemma {:induction false} ChannelStays(p: Link, s: State, t: State, i: nat)
    requires NoEmptyWords(p, s) && i < |s.ch| && |t.ch| == |s.ch| && t.ch == s.ch[i := t.ch[i]] && Full(t.ch[i])
    requires forall k :: 0 <= k < |t.credits| ==> Decode(p.e, t.credits[k]).1 > 0
    ensures NoEmptyWords(p, t)
  {
    hide Full, Decode;
  }

  lemma {:induction false} PushFull(p: Link, s: State, i: nat)
    requires p.Valid() && Inv(p, s) && NoEmptyWords(p, s) && i < p.n && i < |s.ch| && s.ch[i].pc.Subtracted?
    ensures NoEmptyWords(p, PushWord(p, s, i))
  {
    PushedWord(p, s, i);
    hide Inv, Encode, Decode;
    var t := PushWord(p, s, i);
    assert Full(s.ch[i]);
    forall k | 0 <= k < |t.credits|
      ensures Decode(p.e, t.credits[k]).1 > 0
    {
      if k < |s.credits| {
        assert t.credits[k] == s.credits[k];
      }
    }
    ChannelStays(p, s, t, i);
  }

  lemma {:induction false} SenderFull(p: Link, s: State, step: Step)
    requires p.Valid() && Inv(p, s) && NoEmptyWords(p, s) && Enabled(p, s, step)
    requires step.Send? || step.Feedback? || step.Credit?
    ensures NoEmptyWords(p, Apply(p, s, step))
  {
    hide Inv, Encode, Decode, Admits, Pow;
    var t := Apply(p, s, step);
    var i := if step.Credit? then Decode(p.e, s.credits[0]).0 else step.i;
    assert Full(s.ch[i]);
    ChannelStays(p, s, t, i);
  }

  lemma {:induction false} ReceiverFull(p: Link, s: State, step: Step)
    requires p.Valid() && Inv(p, s) && NoEmptyWords(p, s) && Enabled(p, s, step)
    requires step.Arrive? || step.CountRegional? || step.Test? || step.Swap? || step.Subtract?
    ensures NoEmptyWords(p, Apply(p, s, step))
  {
    hide Inv, Encode, Decode, Admits, Pow, Link.Threshold, Add32, Sub32;
    assert Full(s.ch[step.i]);
    ChannelStays(p, s, Apply(p, s, step), step.i);
  }

  lemma {:induction false} StepFull(p: Link, s: State, step: Step)
    requires p.Valid() && Inv(p, s) && NoEmptyWords(p, s) && Enabled(p, s, step)
    ensures NoEmptyWords(p, Apply(p, s, step))
  {
    SameChannels(p, s);
    hide Inv, NoEmptyWords, PushWord, Decode;
    match step {
      case Push(i) => PushFull(p, s, i);
      case Send(_, _) => SenderFull(p, s, step);
      case Feedback(_) => SenderFull(p, s, step);
      case Credit => SenderFull(p, s, step);
      case _ => ReceiverFull(p, s, step);
    }
  }

  lemma {:induction false} RunFull(p: Link, s: State, steps: seq<Step>)
    requires p.Valid() && Inv(p, s) && NoEmptyWords(p, s) && DisciplinedRun(p, s, steps)
    ensures var o := Exec(p, s, steps); o.At? ==> NoEmptyWords(p, o.state)
    decreases |steps|
  {
    if steps != [] && Enabled(p, s, steps[0]) {
      hide Inv, NoEmptyWords, Apply, Enabled, Disciplined, Link.Valid;
      StepKeeps(p, s, steps[0]);
      StepFull(p, s, steps[0]);
      RunFull(p, Apply(p, s, steps[0]), steps[1..]);
    }
  }

  /** In every reachable state each credit message under way returns at least one word. */
  lemma {:induction false} WordsNotEmpty(p: Link, s: State)
    requires p.Valid() && Reachable(p, s)
    ensures forall k :: 0 <= k < |s.credits| ==> Decode(p.e, s.credits[k]).1 > 0
  {
    var steps :| DisciplinedRun(p, Init(p), steps) && Exec(p, Init(p), steps) == At(s);
    InitInv(p);
    hide Exec, DisciplinedRun, Inv, Decode;
    RunFull(p, Init(p), steps);
  }
}
