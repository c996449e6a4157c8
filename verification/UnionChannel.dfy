/** The compressor and the decompressor of a tagged union and the channels between them: one for the tags and
    one for each lane. Each channel is a queue on the sending side and a queue on the receiving side, and
    moves one word at a time on its own. The receiver of the messages takes them when it likes. */
module UnionChannel {
  import opened Arith
  import opened Sums
  import opened UnionSplits

  datatype Msg = Msg(tag: nat, payload: nat)

  /** queued at the sender, arrived at the receiver; oldest first */
  datatype Wire = Wire(queued: seq<nat>, arrived: seq<nat>)

  /** output is everything that has come out, of which the receiver has taken the first `taken`. */
  datatype State = State(input: seq<Msg>, tags: Wire, lanes: seq<Wire>, output: seq<Msg>, taken: nat)

  datatype Step = Compress | MoveTag | MoveLane(k: nat) | Decompress | Consume

  /** capacity is the depth of every queue. `strict` says that the rule language guards a rule by all channels
      that it could send on, also those on which it then does not send. */
  datatype Link = Link(layout: Layout, capacity: nat, strict: bool) {
    function Width(): nat {
      |layout.splits|
    }

    function Used(tag: nat): nat {
      if tag in layout.lanes then layout.lanes[tag] else 0
    }
  }

  /** Bits [offset, offset + width) of a payload */
  function Slice(payload: nat, offset: nat, width: nat): nat {
    PowPositive(2, offset);
    PowPositive(2, width);
    payload / Pow(2, offset) % Pow(2, width)
  }

  function LaneOf(p: Link, payload: nat, k: nat): nat
    requires k < p.Width()
  {
    Slice(payload, Offset(p.layout.splits, k), p.layout.splits[k])
  }

  /** Lanes 0..n-1 side by side, lane 0 lowest */
  function Mix(p: Link, words: seq<nat>, n: nat): nat
    requires n <= |words| == p.Width()
  {
    if n == 0 then 0 else Mix(p, words, n - 1) + words[n - 1] * Pow(2, Offset(p.layout.splits, n - 1))
  }

  function Init(p: Link, msgs: seq<Msg>): State {
    State(msgs, Wire([], []), seq(p.Width(), _ => Wire([], [])), [], 0)
  }

  // ----- the rules -----

  /** The rule fires when every channel it sends on has room. */
  predicate CanCompress(p: Link, s: State)
    requires |s.lanes| == p.Width()
  {
    && s.input != [] && |s.tags.queued| < p.capacity
    && forall k :: 0 <= k < p.Width() && (p.strict || k < p.Used(s.input[0].tag)) ==> |s.lanes[k].queued| < p.capacity
  }

  /** The rule fires when a tag is there, every lane that it uses has a word, and the output has room. */
  predicate CanDecompress(p: Link, s: State)
    requires |s.lanes| == p.Width()
  {
    && s.tags.arrived != [] && |s.output| - s.taken < p.capacity
    && forall k :: 0 <= k < p.Width() && k < p.Used(s.tags.arrived[0]) ==> s.lanes[k].arrived != []
  }

  predicate Enabled(p: Link, s: State, step: Step)
    requires |s.lanes| == p.Width()
  {
    match step
    case Compress => CanCompress(p, s)
    case MoveTag => s.tags.queued != [] && |s.tags.arrived| < p.capacity
    case MoveLane(k) => k < p.Width() && s.lanes[k].queued != [] && |s.lanes[k].arrived| < p.capacity
    case Decompress => CanDecompress(p, s)
    case Consume => s.taken < |s.output|
  }

  function Move(w: Wire): Wire
    requires w.queued != []
  {
    Wire(w.queued[1..], w.arrived + [w.queued[0]])
  }

  function SendLane(p: Link, w: Wire, m: Msg, k: nat): Wire
    requires k < p.Width()
  {
    if k < p.Used(m.tag) then w.(queued := w.queued + [LaneOf(p, m.payload, k)]) else w
  }

  function TakeLane(p: Link, w: Wire, tag: nat, k: nat): Wire
    requires k < p.Used(tag) ==> w.arrived != []
  {
    if k < p.Used(tag) then w.(arrived := w.arrived[1..]) else w
  }

  /** inputConnectionWire k: the lane's word, or the default 0 if the tag does not use the lane */
  function WireValue(p: Link, s: State, k: nat): nat
    requires |s.lanes| == p.Width() && CanDecompress(p, s) && k < p.Width()
  {
    if k < p.Used(s.tags.arrived[0]) then s.lanes[k].arrived[0] else 0
  }

  function DoCompress(p: Link, s: State): (r: State)
    requires |s.lanes| == p.Width() && CanCompress(p, s)
    ensures |r.lanes| == p.Width()
  {
    var m := s.input[0];
    s.(input := s.input[1..], tags := s.tags.(queued := s.tags.queued + [m.tag]),
       lanes := seq(p.Width(), k requires 0 <= k < p.Width() => SendLane(p, s.lanes[k], m, k)))
  }

  function DoDecompress(p: Link, s: State): (r: State)
    requires |s.lanes| == p.Width() && CanDecompress(p, s)
    ensures |r.lanes| == p.Width()
  {
    var tag := s.tags.arrived[0];
    var words := seq(p.Width(), k requires 0 <= k < p.Width() => WireValue(p, s, k));
    s.(tags := s.tags.(arrived := s.tags.arrived[1..]),
       lanes := seq(p.Width(), k requires 0 <= k < p.Width() => TakeLane(p, s.lanes[k], tag, k)),
       output := s.output + [Msg(tag, Mix(p, words, p.Width()))])
  }

  function Apply(p: Link, s: State, step: Step): (r: State)
    requires |s.lanes| == p.Width() && Enabled(p, s, step)
    ensures |r.lanes| == p.Width()
  {
    match step
    case Compress => DoCompress(p, s)
    case MoveTag => s.(tags := Move(s.tags))
    case MoveLane(k) => s.(lanes := s.lanes[k := Move(s.lanes[k])])
    case Decompress => DoDecompress(p, s)
    case Consume => s.(taken := s.taken + 1)
  }

  datatype Outcome = Stuck | At(state: State)

  function Exec(p: Link, s: State, steps: seq<Step>): (o: Outcome)
    requires |s.lanes| == p.Width()
    ensures o.At? ==> |o.state.lanes| == p.Width()
    decreases |steps|
  {
    if steps == [] then At(s)
    else if !Enabled(p, s, steps[0]) then Stuck
    else Exec(p, Apply(p, s, steps[0]), steps[1..])
  }

  // ----- what should come out -----

  /** The low bits that the tag's member has; the rest is zero. */
  function Kept(p: Link, m: Msg): Msg
    requires p.Used(m.tag) <= p.Width()
  {
    PowPositive(2, Offset(p.layout.splits, p.Used(m.tag)));
    Msg(m.tag, m.payload % Pow(2, Offset(p.layout.splits, p.Used(m.tag))))
  }

  predicate Usable(p: Link) {
    forall tag :: tag in p.layout.lanes ==> p.layout.lanes[tag] <= p.Width()
  }

  function KeptAll(p: Link, msgs: seq<Msg>): (r: seq<Msg>)
    requires Usable(p)
    ensures |r| == |msgs|
  {
    seq(|msgs|, i requires 0 <= i < |msgs| => Kept(p, msgs[i]))
  }

  function Tags(msgs: seq<Msg>): (r: seq<nat>)
    ensures |r| == |msgs|
  {
    seq(|msgs|, i requires 0 <= i < |msgs| => msgs[i].tag)
  }

  /** The words that these messages put on lane k. */
  function LaneWords(p: Link, msgs: seq<Msg>, k: nat): seq<nat>
    requires k < p.Width()
  {
    if msgs == [] then []
    else (if k < p.Used(msgs[0].tag) then [LaneOf(p, msgs[0].payload, k)] else []) + LaneWords(p, msgs[1..], k)
  }

  lemma {:induction false} LaneWordsAppend(p: Link, msgs: seq<Msg>, m: Msg, k: nat)
    requires k < p.Width()
    ensures LaneWords(p, msgs + [m], k)
            == LaneWords(p, msgs, k) + if k < p.Used(m.tag) then [LaneOf(p, m.payload, k)] else []
  {
    if msgs == [] {
      assert [m][1..] == [] && msgs + [m] == [m];
    } else {
      assert (msgs + [m])[1..] == msgs[1..] + [m];
      LaneWordsAppend(p, msgs[1..], m, k);
    }
  }

  /** b messages are out, a are in: the channels hold exactly the tags and words of the messages between. */
  ghost predicate Inv(p: Link, msgs: seq<Msg>, s: State)
    requires Usable(p)
  {
    var a, b := |msgs| - |s.input|, |s.output|;
    && |s.lanes| == p.Width()
    && 0 <= b <= a && s.taken <= b && s.input == msgs[a..]
    && s.output == KeptAll(p, msgs[..b])
    && s.tags.arrived + s.tags.queued == Tags(msgs[b..a])
    && forall k :: 0 <= k < p.Width() ==> s.lanes[k].arrived + s.lanes[k].queued == LaneWords(p, msgs[b..a], k)
  }

  // ----- bits -----

  /** The low a + b bits are the low a bits and the next b bits above them. */
  lemma {:induction false} LowBits(x: nat, a: nat, b: nat)
    ensures Pow(2, a) > 0 && Pow(2, b) > 0 && Pow(2, a + b) > 0
    ensures x % Pow(2, a + b) == x % Pow(2, a) + x / Pow(2, a) % Pow(2, b) * Pow(2, a)
  {
    PowPositive(2, a);
    PowPositive(2, b);
    PowPositive(2, a + b);
    PowAdd(2, a, b);
    var y, z := Pow(2, a), Pow(2, b);
    hide Pow;
    MixedRadix(x, y, z);
  }

  lemma {:induction false} Quotient(x: nat, y: nat) returns (q: nat, r: nat)
    requires y > 0
    ensures q == x / y && r == x % y && x == q * y + r && r < y
  {
    q, r := x / y, x % y;
  }

  lemma {:induction false} MixedRadix(x: nat, y: nat, z: nat)
    requires y > 0 && z > 0 && y * z > 0
    ensures x % (y * z) == x % y + x / y % z * y
  {
    var q, low := Quotient(x, y);
    var high, mid := Quotient(q, z);
    Distribute(high * z, mid, y);
    MulAssociates(high, z, y);
    MulMonotone(mid + 1, z, y);
    Distribute(mid, 1, y);
    RadixUnique(x, high, mid * y + low, z * y, y * z);
  }

  lemma {:induction false} RadixUnique(x: nat, high: nat, rest: nat, zy: nat, yz: nat)
    requires 0 < yz == zy && x == high * zy + rest && rest < zy
    ensures x % yz == rest
  {
    DivModUnique(x, high, rest, yz);
  }

  /** Mixing the first n lanes of a payload gives its low bits; lanes that are not used are zero. */
  lemma {:induction false} MixIsLow(p: Link, payload: nat, words: seq<nat>, used: nat, n: nat)
    requires n <= |words| == p.Width() && used <= p.Width()
    requires forall k :: 0 <= k < p.Width() ==> words[k] == if k < used then LaneOf(p, payload, k) else 0
    ensures var bits := Offset(p.layout.splits, if n <= used then n else used);
            Pow(2, bits) > 0 && Mix(p, words, n) == payload % Pow(2, bits)
  {
    PowPositive(2, Offset(p.layout.splits, if n <= used then n else used));
    if n == 0 {
      assert p.layout.splits[..0] == [];
    } else {
      MixIsLow(p, payload, words, used, n - 1);
      if n <= used {
        SumPrefix(p.layout.splits, n - 1);
        LowBits(payload, Offset(p.layout.splits, n - 1), p.layout.splits[n - 1]);
      }
    }
  }

  /** The words of lane k fit its width. */
  lemma {:induction false} WordFits(p: Link, payload: nat, k: nat)
    requires k < p.Width()
    ensures LaneOf(p, payload, k) < Pow(2, p.layout.splits[k])
  {
    PowPositive(2, p.layout.splits[k]);
    hide Pow;
  }

  // ----- every step keeps the invariant -----

  lemma {:induction false} CompressKeeps(p: Link, msgs: seq<Msg>, s: State)
    requires Usable(p) && Inv(p, msgs, s) && CanCompress(p, s)
    ensures Inv(p, msgs, DoCompress(p, s))
  {
    var a, b, m, t := |msgs| - |s.input|, |s.output|, s.input[0], DoCompress(p, s);
    assert msgs[a..][0] == m && msgs[b..a + 1] == msgs[b..a] + [m] && t.input == msgs[a + 1..];
    assert t.tags.arrived + t.tags.queued == Tags(msgs[b..a]) + [m.tag] == Tags(msgs[b..a + 1]);
    hide LaneOf, LaneWords, KeptAll, Tags, Link.Used;
    forall k | 0 <= k < p.Width()
      ensures t.lanes[k].arrived + t.lanes[k].queued == LaneWords(p, msgs[b..a + 1], k)
    {
      LaneWordsAppend(p, msgs[b..a], m, k);
      assert s.lanes[k].arrived + s.lanes[k].queued == LaneWords(p, msgs[b..a], k);
    }
  }

  lemma {:induction false} MoveSame(w: Wire)
    requires w.queued != []
    ensures Move(w).arrived + Move(w).queued == w.arrived + w.queued
  {
  }

  lemma {:induction false} MoveKeeps(p: Link, msgs: seq<Msg>, s: State, step: Step)
    requires Usable(p) && Inv(p, msgs, s) && Enabled(p, s, step) && (step.MoveTag? || step.MoveLane? || step.Consume?)
    ensures Inv(p, msgs, Apply(p, s, step))
  {
    if !step.Consume? {
      MoveSame(if step.MoveTag? then s.tags else s.lanes[step.k]);
    }
    hide LaneWords, KeptAll, Tags, Move;
  }

  /** The message that the decompressor sends is the oldest one under way, truncated to its member. */
  lemma {:induction false} OldestOut(p: Link, msgs: seq<Msg>, s: State)
    requires Usable(p) && Inv(p, msgs, s) && CanDecompress(p, s)
    ensures |s.output| < |msgs| - |s.input| && s.tags.arrived[0] == msgs[|s.output|].tag
    ensures DoDecompress(p, s).output == s.output + [Kept(p, msgs[|s.output|])]
  {
    var a, b := |msgs| - |s.input|, |s.output|;
    var under := msgs[b..a];
    assert (s.tags.arrived + s.tags.queued)[0] == s.tags.arrived[0];
    var m := under[0];
    var words := seq(p.Width(), k requires 0 <= k < p.Width() => WireValue(p, s, k));
    hide LaneOf, Mix, KeptAll;
    forall k | 0 <= k < p.Width() && k < p.Used(m.tag)
      ensures s.lanes[k].arrived[0] == LaneOf(p, m.payload, k)
    {
      assert (s.lanes[k].arrived + s.lanes[k].queued)[0] == s.lanes[k].arrived[0];
    }
    MixIsLow(p, m.payload, words, p.Used(m.tag), p.Width());
  }

  lemma {:induction false} LaneTaken(p: Link, msgs: seq<Msg>, s: State, k: nat)
    requires Usable(p) && Inv(p, msgs, s) && CanDecompress(p, s) && k < p.Width()
    requires |s.output| < |msgs| - |s.input| && s.tags.arrived[0] == msgs[|s.output|].tag
    ensures var w := DoDecompress(p, s).lanes[k];
            w.arrived + w.queued == LaneWords(p, msgs[|s.output| + 1..|msgs| - |s.input|], k)
  {
    var a, b := |msgs| - |s.input|, |s.output|;
    var under := msgs[b..a];
    assert under[1..] == msgs[b + 1..a];
    hide LaneOf, Mix, KeptAll;
    var w := s.lanes[k];
    assert w.arrived + w.queued == LaneWords(p, under, k);
    if k < p.Used(under[0].tag) {
      assert w.arrived[1..] + w.queued == (w.arrived + w.queued)[1..];
    }
  }

  lemma {:induction false} DecompressKeeps(p: Link, msgs: seq<Msg>, s: State)
    requires Usable(p) && Inv(p, msgs, s) && CanDecompress(p, s)
    ensures Inv(p, msgs, DoDecompress(p, s))
  {
    OldestOut(p, msgs, s);
    var a, b, t := |msgs| - |s.input|, |s.output|, DoDecompress(p, s);
    hide Kept, Mix, LaneWords;
    assert msgs[..b + 1] == msgs[..b] + [msgs[b]];
    assert t.output == KeptAll(p, msgs[..b + 1]);
    assert t.tags.arrived + t.tags.queued == (s.tags.arrived + s.tags.queued)[1..];
    assert msgs[b..a][1..] == msgs[b + 1..a];
    forall k | 0 <= k < p.Width()
      ensures t.lanes[k].arrived + t.lanes[k].queued == LaneWords(p, msgs[b + 1..a], k)
    {
      LaneTaken(p, msgs, s, k);
    }
  }

  lemma {:induction false} RunKeeps(p: Link, msgs: seq<Msg>, s: State, steps: seq<Step>)
    requires Usable(p) && Inv(p, msgs, s)
    ensures var o := Exec(p, s, steps); o.At? ==> Inv(p, msgs, o.state)
    decreases |steps|
  {
    if steps != [] && Enabled(p, s, steps[0]) {
      match steps[0] {
        case Compress => CompressKeeps(p, msgs, s);
        case Decompress => DecompressKeeps(p, msgs, s);
        case _ => MoveKeeps(p, msgs, s, steps[0]);
      }
      hide Inv, Enabled, Apply;
      RunKeeps(p, msgs, Apply(p, s, steps[0]), steps[1..]);
    }
  }

  lemma {:induction false} InitInv(p: Link, msgs: seq<Msg>)
    requires Usable(p)
    ensures Inv(p, msgs, Init(p, msgs))
  {
    assert msgs[0..] == msgs && msgs[..0] == [] && msgs[0..0] == [];
  }

  // ----- no queue overflows -----

  ghost predicate WithinCapacity(p: Link, s: State) {
    && |s.tags.queued| <= p.capacity && |s.tags.arrived| <= p.capacity && |s.output| - s.taken <= p.capacity
    && forall k :: 0 <= k < |s.lanes| ==> |s.lanes[k].queued| <= p.capacity && |s.lanes[k].arrived| <= p.capacity
  }

  lemma {:induction false} StepWithinCapacity(p: Link, s: State, step: Step)
    requires |s.lanes| == p.Width() && WithinCapacity(p, s) && Enabled(p, s, step)
    ensures WithinCapacity(p, Apply(p, s, step))
  {
    hide LaneOf, Mix, Link.Used;
    var t := Apply(p, s, step);
    forall k | 0 <= k < p.Width()
      ensures |t.lanes[k].queued| <= p.capacity && |t.lanes[k].arrived| <= p.capacity
    {
    }
  }

  /** In every run no queue holds more than its depth: the guards see to it. */
  lemma {:induction false} QueuesBounded(p: Link, s: State, steps: seq<Step>)
    requires |s.lanes| == p.Width() && WithinCapacity(p, s)
    ensures var o := Exec(p, s, steps); o.At? ==> WithinCapacity(p, o.state)
    decreases |steps|
  {
    if steps != [] && Enabled(p, s, steps[0]) {
      hide WithinCapacity, Enabled, Apply;
      StepWithinCapacity(p, s, steps[0]);
      QueuesBounded(p, Apply(p, s, steps[0]), steps[1..]);
    }
  }

  // ----- the theorems -----

  /** Whatever the order in which the channels move their words: what has come out is the oldest messages in
      their order, each with its own member's bits intact and all other bits zero. */
  lemma {:induction false} OutputIsPrefix(p: Link, msgs: seq<Msg>, steps: seq<Step>)
    requires Usable(p)
    ensures var o := Exec(p, Init(p, msgs), steps);
            o.At? ==> |o.state.output| <= |msgs| && o.state.output == KeptAll(p, msgs[..|o.state.output|])
  {
    InitInv(p, msgs);
    RunKeeps(p, msgs, Init(p, msgs), steps);
  }

  /** With no tag under way there is no word under way, and the next message can go in. */
  lemma {:induction false} IdleCompresses(p: Link, msgs: seq<Msg>, s: State)
    requires Usable(p) && p.capacity > 0 && Inv(p, msgs, s) && |s.output| < |msgs|
    requires s.tags.arrived == [] && s.tags.queued == []
    ensures CanCompress(p, s)
  {
    hide LaneOf, KeptAll, Link.Used;
    assert |Tags(msgs[|s.output|..|msgs| - |s.input|])| == 0;
    forall k | 0 <= k < p.Width()
      ensures s.lanes[k].queued == []
    {
      assert s.lanes[k].arrived + s.lanes[k].queued == LaneWords(p, [], k);
    }
  }

  /** A lane that the oldest tag waits for has its word under way. */
  lemma {:induction false} WordUnderWay(p: Link, msgs: seq<Msg>, s: State, k: nat)
    requires Usable(p) && Inv(p, msgs, s) && s.tags.arrived != [] && k < p.Width()
    requires k < p.Used(s.tags.arrived[0]) && s.lanes[k].arrived == []
    ensures s.lanes[k].queued != []
  {
    hide LaneOf, KeptAll;
    OldestTag(p, msgs, s);
    assert s.lanes[k].arrived + s.lanes[k].queued == LaneWords(p, msgs[|s.output|..|msgs| - |s.input|], k);
  }

  /** No deadlock: until every message is out and taken, some rule or some channel can move, or the receiver
      can take a message. */
  lemma {:induction false} NeverStuck(p: Link, msgs: seq<Msg>, s: State)
    requires Usable(p) && p.capacity > 0 && Inv(p, msgs, s) && s.taken < |msgs|
    ensures exists step :: Enabled(p, s, step)
  {
    assert |s.lanes| == p.Width();
    if s.taken < |s.output| {
      assert Enabled(p, s, Consume);
    } else {
      SomethingMoves(p, msgs, s);
    }
  }

  /** The same without the receiver, if there is room for what comes out. */
  lemma {:induction false} SomethingMoves(p: Link, msgs: seq<Msg>, s: State)
    requires Usable(p) && p.capacity > 0 && Inv(p, msgs, s) && |s.output| < |msgs|
    requires |s.output| - s.taken < p.capacity
    ensures exists step :: step != Consume && Enabled(p, s, step)
  {
    assert |s.lanes| == p.Width();
    if s.tags.arrived == [] {
      if s.tags.queued != [] {
        assert Enabled(p, s, MoveTag);
      } else {
        IdleCompresses(p, msgs, s);
        assert Enabled(p, s, Compress);
      }
    } else if CanDecompress(p, s) {
      assert Enabled(p, s, Decompress);
    } else {
      hide Inv;
      var k :| 0 <= k < p.Width() && k < p.Used(s.tags.arrived[0]) && s.lanes[k].arrived == [];
      WordUnderWay(p, msgs, s, k);
      assert Enabled(p, s, MoveLane(k));
    }
  }

  lemma {:induction false} OldestTag(p: Link, msgs: seq<Msg>, s: State)
    requires Usable(p) && Inv(p, msgs, s) && s.tags.arrived != []
    ensures |s.output| < |msgs| - |s.input| && s.tags.arrived[0] == msgs[|s.output|].tag
  {
    assert (s.tags.arrived + s.tags.queued)[0] == s.tags.arrived[0];
  }

  function QueuedLengths(lanes: seq<Wire>): (r: seq<nat>)
    ensures |r| == |lanes|
  {
    seq(|lanes|, k requires 0 <= k < |lanes| => |lanes[k].queued|)
  }

  function ArrivedLengths(lanes: seq<Wire>): (r: seq<nat>)
    ensures |r| == |lanes|
  {
    seq(|lanes|, k requires 0 <= k < |lanes| => |lanes[k].arrived|)
  }

  /** How much there is still to do. */
  function Remaining(p: Link, s: State): nat
    requires |s.lanes| == p.Width()
  {
    Pending(p, |s.input|) + 3 * |s.tags.queued| + 2 * |s.tags.arrived| + Untaken(s)
    + 2 * Sum(QueuedLengths(s.lanes)) + Sum(ArrivedLengths(s.lanes))
  }

  function Untaken(s: State): nat {
    if s.taken < |s.output| then |s.output| - s.taken else 0
  }

  function Pending(p: Link, inputs: nat): nat {
    2 * (p.Width() + 2) * inputs
  }

  lemma {:induction false} PendingNext(p: Link, inputs: nat)
    ensures Pending(p, inputs + 1) == Pending(p, inputs) + 2 * p.Width() + 4
  {
  }

  lemma {:induction false} SumAtMostPlus(s: seq<nat>, t: seq<nat>)
    requires |s| == |t| && forall i :: 0 <= i < |s| ==> s[i] <= t[i] + 1
    ensures Sum(s) <= Sum(t) + |s|
  {
    if s != [] {
      SumAtMostPlus(s[1..], t[1..]);
    }
  }

  /** Every step leaves less to do, so no run is longer than what there is to do at its start. */
  lemma {:induction false} StepUses(p: Link, s: State, step: Step)
    requires |s.lanes| == p.Width() && Enabled(p, s, step)
    ensures Remaining(p, Apply(p, s, step)) < Remaining(p, s)
  {
    var t := Apply(p, s, step);
    match step {
      case Compress =>
        PendingNext(p, |t.input|);
        SumAtMostPlus(QueuedLengths(t.lanes), QueuedLengths(s.lanes));
        assert ArrivedLengths(t.lanes) == ArrivedLengths(s.lanes);
      case MoveTag =>
      case MoveLane(k) =>
        SumUpdate(QueuedLengths(s.lanes), k, |t.lanes[k].queued|);
        SumUpdate(ArrivedLengths(s.lanes), k, |t.lanes[k].arrived|);
        assert QueuedLengths(t.lanes) == QueuedLengths(s.lanes)[k := |t.lanes[k].queued|];
        assert ArrivedLengths(t.lanes) == ArrivedLengths(s.lanes)[k := |t.lanes[k].arrived|];
      case Decompress =>
        SumPointwise(ArrivedLengths(t.lanes), ArrivedLengths(s.lanes));
        assert QueuedLengths(t.lanes) == QueuedLengths(s.lanes);
      case Consume =>
    }
  }

  lemma {:induction false} RunBounded(p: Link, s: State, steps: seq<Step>)
    requires |s.lanes| == p.Width() && Exec(p, s, steps).At?
    ensures |steps| <= Remaining(p, s)
    decreases |steps|
  {
    if steps != [] {
      hide Remaining, Enabled, Apply;
      StepUses(p, s, steps[0]);
      RunBounded(p, Apply(p, s, steps[0]), steps[1..]);
    }
  }

  lemma {:induction false} AllOut(p: Link, msgs: seq<Msg>, s: State)
    requires Usable(p) && Inv(p, msgs, s) && s.taken >= |msgs|
    ensures s.output == KeptAll(p, msgs) && s.taken == |msgs|
  {
    hide Kept, KeptAll, LaneWords;
    assert msgs[..|msgs|] == msgs;
  }

  /** A run that cannot go on has delivered everything, and the receiver has taken it. */
  lemma {:induction false} MaximalRunDelivers(p: Link, msgs: seq<Msg>, steps: seq<Step>, s: State)
    requires Usable(p) && p.capacity > 0 && Exec(p, Init(p, msgs), steps) == At(s)
    requires forall step :: !Enabled(p, s, step)
    ensures s.output == KeptAll(p, msgs) && s.taken == |msgs|
  {
    hide Exec, Init, Inv, Enabled, KeptAll, Usable;
    InitInv(p, msgs);
    RunKeeps(p, msgs, Init(p, msgs), steps);
    if s.taken < |msgs| {
      NeverStuck(p, msgs, s);
    } else {
      AllOut(p, msgs, s);
    }
  }

  /** For the members of a real union: a message whose tag is a member's comes out with exactly that member's
      width of its payload. */
  lemma {:induction false} MemberKept(members: seq<Member>, capacity: nat, strict: bool, m: Member,
                                      payload: nat)
    requires Distinct(members) && m in members
    ensures var p := Link(LayoutOf(members), capacity, strict);
            && Pow(2, m.width) > 0 && p.Used(m.index) <= p.Width()
            && Kept(p, Msg(m.index, payload)) == Msg(m.index, payload % Pow(2, m.width))
  {
    PowPositive(2, m.width);
    MemberFits(members, m);
  }

  lemma {:induction false} LayoutUsable(members: seq<Member>, capacity: nat, strict: bool)
    requires Distinct(members)
    ensures Usable(Link(LayoutOf(members), capacity, strict))
  {
    ByWidthSorts(members);
    forall tag | tag in LayoutOf(members).lanes
      ensures LayoutOf(members).lanes[tag] <= |LayoutOf(members).splits|
    {
      CutUsable(ByWidth(members), |members|, tag);
    }
  }

  lemma {:induction false} CutUsable(sorted: seq<Member>, n: nat, tag: nat)
    requires Ascending(sorted) && n <= |sorted| && tag in Cut(sorted, n).lanes
    ensures Cut(sorted, n).lanes[tag] <= |Cut(sorted, n).splits|
  {
    if n > 0 && tag != sorted[n - 1].index {
      CutUsable(sorted, n - 1, tag);
    }
  }

  /** The whole path for the members of a real union: message i comes out as number i, with its tag and exactly
      the bits of its own member. */
  lemma {:induction false} UnionPassesMessages(members: seq<Member>, capacity: nat, strict: bool, msgs: seq<Msg>,
                                               steps: seq<Step>, s: State, i: nat, m: Member)
    requires Distinct(members) && m in members
    requires var p := Link(LayoutOf(members), capacity, strict); Exec(p, Init(p, msgs), steps) == At(s)
    requires i < |s.output|
    ensures i < |msgs| && s.output[i].tag == msgs[i].tag
    ensures msgs[i].tag == m.index ==> Pow(2, m.width) > 0 && s.output[i].payload == msgs[i].payload % Pow(2, m.width)
  {
    hide Exec, Init, LayoutOf, Distinct;
    var p := Link(LayoutOf(members), capacity, strict);
    LayoutUsable(members, capacity, strict);
    OutputIsPrefix(p, msgs, steps);
    MemberKept(members, capacity, strict, m, msgs[i].payload);
    assert s.output[i] == Kept(p, msgs[..|s.output|][i]);
  }
}
