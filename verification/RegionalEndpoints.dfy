/** The objects at the two ends of a regional link. Each method is one uninterrupted call of the source's;
    its contract says which steps of RegionalFlowcontrol it takes. */
module RegionalEndpoints {
  import opened Wrappers
  import opened CreditWord
  import opened RegionalFlowcontrol

  // ----- the sender -----

  /** The outbound channels of one link, their common count and the threshold. */
  class SenderRegion {
    var outChannels: seq<SenderChannel>
    var totalCredits: nat
    var totalSent: nat
    var regionalReturnThreshold: nat

    constructor (channels: seq<SenderChannel>)
      ensures outChannels == channels && totalCredits == 0 && totalSent == 0
    {
      outChannels := channels;
      totalCredits, totalSent, regionalReturnThreshold := 0, 0, 0;
    }

    /** The counters of this end are those of the state. */
    ghost predicate Matches(p: Link, s: State)
      requires p.Fits()
      reads this, outChannels
    {
      && |outChannels| == |s.ch| == p.n
      && (forall i, j :: 0 <= i < j < |outChannels| ==> outChannels[i] != outChannels[j])
      && totalCredits == s.total
      && regionalReturnThreshold == p.Shared()
      && forall i :: 0 <= i < p.n ==> outChannels[i].flowcontrolCredits == s.ch[i].local
    }

    lemma {:induction false} MatchSizes(p: Link, s: State)
      requires p.Fits() && Matches(p, s)
      ensures |outChannels| == |s.ch| == p.n
    {
    }

    method Init(p: Link)
      requires p.Fits() && p.n == |outChannels| && totalCredits == 0
      requires forall i, j :: 0 <= i < j < p.n ==> outChannels[i] != outChannels[j]
      requires forall c :: c in outChannels ==> c.flowcontrolCredits == 0
      modifies this`regionalReturnThreshold
      ensures Matches(p, RegionalFlowcontrol.Init(p))
    {
      regionalReturnThreshold := p.f - |outChannels| * p.m;
    }

    /** The word of a credit message names the channel and the credits. */
    method AcceptCredits(p: Link, ghost s: State, phyPvt: nat) returns (positive: bool)
      requires p.Fits() && Matches(p, s) && s.credits != [] && phyPvt == s.credits[0] && Enabled(p, s, Credit)
      modifies this`totalCredits, outChannels
      ensures outChannels == old(outChannels) && Matches(p, AcceptWord(p, s))
      ensures positive <==> AcceptWord(p, s).total > 0
    {
      hide Decode;
      var (channel, credits) := Decode(p.e, phyPvt);
      positive := outChannels[channel].FreeCredits(this, credits);
    }

    /** A credit message arrives on channel serviceID of the reverse link q. It is counted there as a message of
        two words, its word frees credits of this link p, and the reverse link's own credits are returned if they
        have to be, by a feedback message on channel k of this link. `positive` is the source's assertion. */
    method PushUMF(p: Link, ghost s: State, k: nat, phyPvt: nat,
                   q: Link, ghost t: State, serviceID: nat, inRegion: ReceiverRegion)
      returns (positive: bool, message: Option<nat>)
      requires p.Fits() && Matches(p, s) && s.credits != [] && phyPvt == s.credits[0] && k < p.n
      requires Enabled(p, s, Credit)
      requires q.Valid() && Inv(q, t) && inRegion.Matches(q, t) && serviceID < q.n
      requires Enabled(q, t, Arrive(serviceID)) && t.ch[serviceID].flight[0] == 2
      modifies this`totalCredits, this`totalSent, outChannels
      modifies inRegion`totalCredits, inRegion`totalReceived, inRegion.inChannels
      ensures outChannels == old(outChannels) && inRegion.inChannels == old(inRegion.inChannels)
      ensures positive <==> AcceptWord(p, s).total > 0
      ensures var s', t' := Apply(p, s, Credit), Accounted(q, t, serviceID);
              && (message.Some? <==> t'.ch[serviceID].pc == Returning)
              && Matches(p, if message.Some? then Apply(p, s', Feedback(k)) else s')
              && inRegion.Matches(q, if message.Some? then Return(q, t', serviceID) else t')
              && (message.Some? ==> Return(q, t', serviceID).credits == t'.credits + [message.value])
      ensures inRegion.totalReceived == Add32(old(inRegion.totalReceived), 2)
      ensures totalSent == if message.Some? then Add32(old(totalSent), 2) else old(totalSent)
    {
      hide SenderRegion.Matches, ReceiverRegion.Matches, Inv, Decode, Decide, AcceptWord;
      MatchSizes(p, s);
      inRegion.MatchSizes(q, t);
      var flowcontrolChannel := inRegion.inChannels[serviceID];
      flowcontrolChannel.AcquireCredits(q, t, serviceID, inRegion, 2);
      positive := AcceptCredits(p, s, phyPvt);
      ghost var t' := CountRegion(CountChannel(t, serviceID), serviceID);
      message := flowcontrolChannel.FreeCredits(q, t', serviceID, inRegion, p, AcceptWord(p, s), k, this);
    }
  }

  class SenderChannel {
    var flowcontrolCredits: nat

    constructor ()
      ensures flowcontrolCredits == 0
    {
      flowcontrolCredits := 0;
    }

    /** `positive` is the source's assertion on the region; the one on the channel, that an unsigned number is
        not negative, always holds. */
    method FreeCredits(regional: SenderRegion, credits: nat) returns (positive: bool)
      modifies this, regional`totalCredits
      ensures flowcontrolCredits == Sub32(old(flowcontrolCredits), credits)
      ensures regional.totalCredits == Sub32(old(regional.totalCredits), credits)
      ensures positive <==> regional.totalCredits > 0
    {
      flowcontrolCredits := Sub32(flowcontrolCredits, credits);
      regional.totalCredits := Sub32(regional.totalCredits, credits);
      positive := regional.totalCredits > 0;
    }

    /** One evaluation of the waiting loop's condition under the mutex: the credits are taken exactly if
        the message is admitted, and otherwise nothing changes. */
    method TryAcquireCredits(p: Link, ghost s: State, ghost i: nat, regional: SenderRegion, messageLength: nat)
      returns (acquired: bool)
      requires p.Fits() && regional.Matches(p, s) && i < p.n && regional.outChannels[i] == this
      requires messageLength < WORD
      modifies this, regional`totalCredits, regional`totalSent
      ensures acquired <==> Enabled(p, s, Send(i, messageLength))
      ensures regional.totalSent == if acquired then Add32(old(regional.totalSent), messageLength)
                                    else old(regional.totalSent)
      ensures regional.Matches(p, if acquired then Apply(p, s, Send(i, messageLength)) else s)
    {
      acquired := !(Add32(regional.totalCredits, messageLength) > regional.regionalReturnThreshold
                    && Add32(flowcontrolCredits, messageLength) > p.m);
      if acquired {
        flowcontrolCredits := Add32(flowcontrolCredits, messageLength);
        regional.totalCredits := Add32(regional.totalCredits, messageLength);
        regional.totalSent := Add32(regional.totalSent, messageLength);
      }
    }

    /** Credit messages of the other direction are sent without looking. */
    method AcquireCreditsFC(p: Link, ghost s: State, ghost i: nat, regional: SenderRegion)
      requires p.Fits() && regional.Matches(p, s) && i < p.n && regional.outChannels[i] == this
      modifies this, regional`totalCredits, regional`totalSent
      ensures regional.Matches(p, Apply(p, s, Feedback(i))) && regional.totalSent == Add32(old(regional.totalSent), 2)
    {
      flowcontrolCredits := Add32(flowcontrolCredits, 2);
      regional.totalCredits := Add32(regional.totalCredits, 2);
      regional.totalSent := Add32(regional.totalSent, 2);
    }
  }

  // ----- the receiver -----

  class ReceiverRegion {
    var inChannels: seq<ReceiverChannel>
    var totalCredits: nat
    var totalReceived: nat
    var regionalReturnThreshold: nat

    /** Half the buffer or what is not reserved, whichever is less. */
    constructor (p: Link, channels: seq<ReceiverChannel>)
      requires p.Fits() && p.n == |channels|
      requires forall i, j :: 0 <= i < j < p.n ==> channels[i] != channels[j]
      requires forall c :: c in channels ==> c.flowcontrolCredits == 0
      ensures Matches(p, RegionalFlowcontrol.Init(p)) && inChannels == channels
    {
      inChannels := channels;
      totalCredits, totalReceived := 0, 0;
      if p.f / 2 < p.f - |channels| * p.m {
        regionalReturnThreshold := p.f / 2;
      } else {
        regionalReturnThreshold := p.f - |channels| * p.m;
      }
    }

    ghost predicate Matches(p: Link, s: State)
      requires p.Fits()
      reads this, inChannels
    {
      && |inChannels| == |s.ch| == p.n
      && (forall i, j :: 0 <= i < j < |inChannels| ==> inChannels[i] != inChannels[j])
      && totalCredits == s.received
      && regionalReturnThreshold == p.Threshold()
      && forall i :: 0 <= i < p.n ==> inChannels[i].flowcontrolCredits == s.ch[i].held
    }

    lemma {:induction false} MatchSizes(p: Link, s: State)
      requires p.Fits() && Matches(p, s)
      ensures |inChannels| == |s.ch| == p.n
    {
    }

    method AcquireRegionalCredits(credits: nat) returns (before: nat)
      modifies this`totalCredits
      ensures before == old(totalCredits) && totalCredits == Add32(before, credits)
    {
      before, totalCredits := totalCredits, Add32(totalCredits, credits);
    }

    /** A credit message is about to go out on channel k of the reverse link, where it counts as a feedback
        message. */
    method FreeRegionalCredits(credits: nat, q: Link, ghost t: State, k: nat, reverse: SenderRegion)
      returns (before: nat)
      requires q.Fits() && reverse.Matches(q, t) && k < q.n
      modifies this`totalCredits, reverse.outChannels[k], reverse`totalCredits, reverse`totalSent
      ensures before == old(totalCredits) && totalCredits == Sub32(before, credits)
      ensures reverse.Matches(q, Apply(q, t, Feedback(k))) && reverse.totalSent == Add32(old(reverse.totalSent), 2)
    {
      reverse.outChannels[k].AcquireCreditsFC(q, t, k, reverse);
      before, totalCredits := totalCredits, Sub32(totalCredits, credits);
    }
  }

  /** freeCredits once it has decided to return, without interruption. */
  function Return(p: Link, s: State, i: nat): State
    requires p.Fits() && i < |s.ch|
  {
    PushWord(p, SubtractRegion(TakeAll(s, i), i), i)
  }

  /** The next message is counted at channel i, and its thread has decided whether to return. */
  function Accounted(p: Link, s: State, i: nat): State
    requires p.Fits() && i < |s.ch| && s.ch[i].flight != []
  {
    Decide(p, CountRegion(CountChannel(s, i), i), i)
  }

  class ReceiverChannel {
    var flowcontrolCredits: nat

    constructor ()
      ensures flowcontrolCredits == 0
    {
      flowcontrolCredits := 0;
    }

    /** A message is counted in its channel and in the region; the source's assertion then holds. */
    method AcquireCredits(p: Link, ghost s: State, ghost i: nat, regional: ReceiverRegion, credits: nat)
      requires p.Valid() && Inv(p, s) && regional.Matches(p, s) && i < p.n && regional.inChannels[i] == this
      requires Enabled(p, s, Arrive(i)) && s.ch[i].flight[0] == credits
      modifies this, regional`totalCredits, regional`totalReceived
      ensures regional.Matches(p, CountRegion(CountChannel(s, i), i))
      ensures regional.totalCredits <= p.f
      ensures regional.totalReceived == Add32(old(regional.totalReceived), credits)
    {
      StepKeeps(p, s, Arrive(i));
      StepKeeps(p, CountChannel(s, i), CountRegional(i));
      Bounds(p, CountRegion(CountChannel(s, i), i));
      flowcontrolCredits := Add32(flowcontrolCredits, credits);
      var _ := regional.AcquireRegionalCredits(credits);
      regional.totalReceived := Add32(regional.totalReceived, credits);
      assert regional.totalCredits <= p.f;
    }

    /** Returns the word of a credit message exactly if the link's state asks for one; then, and only then, the
        reverse link q counts a feedback message on channel k. */
    method FreeCredits(p: Link, ghost s: State, serviceID: nat, regional: ReceiverRegion,
                       q: Link, ghost t: State, k: nat, reverse: SenderRegion) returns (message: Option<nat>)
      requires p.Fits() && regional.Matches(p, s) && serviceID < p.n && regional.inChannels[serviceID] == this
      requires Enabled(p, s, Test(serviceID))
      requires q.Fits() && reverse.Matches(q, t) && k < q.n
      modifies this, regional`totalCredits, reverse.outChannels[k], reverse`totalCredits, reverse`totalSent
      ensures message.Some? <==> Decide(p, s, serviceID).ch[serviceID].pc == Returning
      ensures message.None? ==> regional.Matches(p, Decide(p, s, serviceID)) && reverse.Matches(q, t)
      ensures message.Some? ==> var s' := Return(p, Decide(p, s, serviceID), serviceID);
                                regional.Matches(p, s') && s'.credits == s.credits + [message.value]
      ensures message.Some? ==> reverse.Matches(q, Apply(q, t, Feedback(k)))
      ensures reverse.totalSent == if message.Some? then Add32(old(reverse.totalSent), 2) else old(reverse.totalSent)
    {
      message := None;
      if (flowcontrolCredits > 0 && regional.totalCredits > regional.regionalReturnThreshold)
         || flowcontrolCredits > regional.regionalReturnThreshold / 2 {
        var creditsToReturn := flowcontrolCredits;
        flowcontrolCredits := 0;
        var phyPvt := Encode(p.e, serviceID, creditsToReturn);
        var _ := regional.FreeRegionalCredits(creditsToReturn, q, t, k, reverse);
        message := Some(phyPvt);
      }
    }
  }
}
