/** The objects at the two ends of one channel. Each method is one uninterrupted call of the source's; its
    contract says which steps of ChannelCredits it takes. */
module ChannelEndpoints {
  import opened Wrappers
  import opened CreditWord
  import opened ChannelCredits

  class OutChannel {
    var flowcontrolCredits: nat
    const hasOutput: bool  // a dummy channel has no output queue

    constructor (p: Link, hasOutput: bool)
      requires p.Valid()
      ensures this.hasOutput == hasOutput && flowcontrolCredits == Init(p).counter
    {
      this.hasOutput := hasOutput;
      flowcontrolCredits := Add32(0, p.f);
    }

    /** The atomic part of freeCredits. */
    method FreeCredits(credits: nat)
      modifies this
      ensures flowcontrolCredits
              == if hasOutput then Add32(old(flowcontrolCredits), credits) else old(flowcontrolCredits)
    {
      if hasOutput {
        flowcontrolCredits := Add32(flowcontrolCredits, credits);
      }
    }

    /** acquireCredits up to the mutex, without interruption: either the first attempt takes the credits,
        or all 2500 attempts are undone and the counter is as before. */
    method SpinForCredits(p: Link, ghost s: State, credits: nat) returns (acquired: bool)
      requires s.pc == Idle && credits < WORD && flowcontrolCredits == s.counter < WORD
      modifies this
      ensures acquired <==> old(flowcontrolCredits) >= credits
      ensures var t := Apply(p, Apply(p, s, Start(credits)), Try);
              if acquired then t.pc == Idle && flowcontrolCredits == t.counter && t.flight == s.flight + [credits]
              else t.pc == Undo(credits, 0) && flowcontrolCredits == old(flowcontrolCredits)
    {
      for retries := 0 to RETRIES
        invariant flowcontrolCredits == old(flowcontrolCredits)
        invariant retries > 0 ==> old(flowcontrolCredits) < credits
      {
        var originalCredits := flowcontrolCredits;
        flowcontrolCredits := Sub32(flowcontrolCredits, credits);
        if originalCredits < credits {
          flowcontrolCredits := Add32(flowcontrolCredits, credits);
        } else {
          return true;
        }
      }
      acquired := false;
    }
  }

  /** pushUMF: the word names the channel that gets its credits. */
  method PushUMF(p: Link, ghost s: State, outChannels: seq<OutChannel>, phyPvt: nat)
    requires Enabled(p, s, FreeAdd) && phyPvt == s.words[0]
    requires p.service < |outChannels| && outChannels[p.service].hasOutput
    requires outChannels[p.service].flowcontrolCredits == s.counter
    modifies outChannels[p.service]
    ensures outChannels[p.service].flowcontrolCredits == Apply(p, s, FreeAdd).counter
  {
    var (channel, credits) := Decode(p.e, phyPvt);
    outChannels[channel].FreeCredits(credits);
  }

  class InChannel {
    var flowcontrolCredits: nat

    constructor ()
      ensures flowcontrolCredits == 0
    {
      flowcontrolCredits := 0;
    }

    method AcquireCredits(p: Link, ghost s: State, creditsAcquired: nat)
      requires flowcontrolCredits == s.held && Enabled(p, s, Arrive) && s.flight[0] == creditsAcquired
      modifies this
      ensures flowcontrolCredits == Apply(p, s, Arrive).held
    {
      flowcontrolCredits := Add32(flowcontrolCredits, creditsAcquired);
    }

    /** Returns a credit word exactly if the check decides to swap, and then the word of the whole count. */
    method FreeCredits(p: Link, ghost s: State, serviceID: nat) returns (message: Option<nat>)
      requires flowcontrolCredits == s.held && Enabled(p, s, CheckHeld) && serviceID == p.service
      requires s.swaps == 0 && s.taken == []
      modifies this
      ensures var t := Apply(p, s, CheckHeld);
              match message
              case None => t.swaps == 0 && flowcontrolCredits == t.held
              case Some(word) =>
                && t.swaps == 1
                && var u := PushWord(p, Apply(p, t, SwapHeld), 0);
                u.words == s.words + [word] && flowcontrolCredits == u.held
    {
      message := None;
      if flowcontrolCredits > p.f / 2 {
        var creditsToReturn := flowcontrolCredits;
        flowcontrolCredits := 0;
        message := Some(Encode(p.e, serviceID, creditsToReturn));
      }
    }
  }
}
