// A chain of filters. A packet is handed from filter to filter as far as it gets at
// once; the timer of any filter may later hand on what it holds.

module Chain {
  import opened Frames
  import N = NatSpec
  import Packets
  import Tb = TokenBucketSpec

  type Losses = s: seq<real> | s != [] witness [0.0]

  /** A filter and what it holds, oldest first. The token bucket filter holds each
      direction in a bucket of its own; the loss rate of a dynamic loss filter changes. */
  datatype Stage =
    | Loss(loss: real)
    | DynamicLoss(losses: Losses, index: nat, current: real)
    | Burst(sleeping: bool, held: seq<Frame>)
    | Delay(held: seq<Frame>)
    | Buckets(inLimits: Tb.Limits, inTb: Tb.Bucket, outLimits: Tb.Limits, outTb: Tb.Bucket)
    | Nat(cfg: N.Config, state: N.State)

  /** What a packet meets at a filter: the number drawn for it, the time, and the tuple
      it then carries, which a NAT may have rewritten. */
  datatype Draw = Draw(r: real, now: nat, tup: Packets.Tuple)

  /** What a packet meets at the filter with so many filters behind it. */
  type Luck = (nat, Frame) -> Draw

  // ---------- One filter ----------

  function NatOutcome(cfg: N.Config, state: N.State, f: Frame, d: Draw): (N.State, N.Outcome) {
    N.Step(cfg, state, N.Event(d.now, Packets.Pkt(f.ingoing, d.tup)))
  }

  /** What a filter makes of an arriving packet: the filter after it, and what it hands on. */
  function Offer(s: Stage, f: Frame, d: Draw): (Stage, seq<Frame>) {
    match s
    case Loss(loss) => (s, if d.r < loss then [] else [f])
    case DynamicLoss(_, _, current) => (s, if d.r < current then [] else [f])
    case Burst(sleeping, held) => if sleeping then (s, [f]) else (s.(held := held + [f]), [])
    case Delay(held) => (s.(held := held + [f]), [])
    case Buckets(inLimits, inTb, outLimits, outTb) =>
      if f.ingoing then
        var (b, sent) := Tb.Step(inLimits, inTb, Tb.Arrive(f, d.r)); (s.(inTb := b), sent)
      else
        var (b, sent) := Tb.Step(outLimits, outTb, Tb.Arrive(f, d.r)); (s.(outTb := b), sent)
    case Nat(cfg, state) =>
      var (state', out) := NatOutcome(cfg, state, f, d);
      (Nat(cfg, state'), if out.Forward? then [f] else [])
  }

  /** Whether the filter keeps or hands on the packet rather than dropping it. A packet
      that hangs in a NAT never comes out and counts as dropped. */
  predicate Takes(s: Stage, f: Frame, d: Draw) {
    match s
    case Loss(loss) => d.r >= loss
    case DynamicLoss(_, _, current) => d.r >= current
    case Buckets(inLimits, inTb, outLimits, outTb) =>
      if f.ingoing then Tb.Accepts(inLimits, inTb.queue, d.r) else Tb.Accepts(outLimits, outTb.queue, d.r)
    case Nat(cfg, state) => NatOutcome(cfg, state, f, d).1.Forward?
    case _ => true
  }

  /** A timer of a filter: the next loss rate, a change of phase, the release of the
      oldest packet, a run of the bucket of one direction. Those of a NAT fire before
      the next packet. */
  function Wake(s: Stage, ingoing: bool, now: Tb.U64, again: Tb.U64): (Stage, seq<Frame>) {
    match s
    case Loss(_) => (s, [])
    case DynamicLoss(losses, index, _) =>
      var next := if index + 1 >= |losses| then 0 else index + 1;
      (DynamicLoss(losses, next, losses[next]), [])
    case Burst(sleeping, held) => if sleeping then (Burst(false, held), []) else (Burst(true, []), held)
    case Delay(held) => if held == [] then (s, []) else (Delay(held[1..]), [held[0]])
    case Buckets(inLimits, inTb, outLimits, outTb) =>
      if ingoing then
        var (b, sent) := Tb.Step(inLimits, inTb, Tb.Run(now, again)); (s.(inTb := b), sent)
      else
        var (b, sent) := Tb.Step(outLimits, outTb, Tb.Run(now, again)); (s.(outTb := b), sent)
    case Nat(_, _) => (s, [])
  }

  // ---------- The chain ----------

  /** Hands packets to a chain one by one: the chain after them, what comes out at
      its end, and what is dropped under way. */
  function Feed(chain: seq<Stage>, frames: seq<Frame>, luck: Luck): (r: (seq<Stage>, seq<Frame>, seq<Frame>))
    ensures |r.0| == |chain|
    decreases |chain|, |frames|
  {
    if chain == [] then ([], frames, [])
    else if frames == [] then (chain, [], [])
    else
      var f, s, draw := frames[0], chain[0], luck(|chain| - 1, frames[0]);
      var (s1, passed) := Offer(s, f, draw);
      var (rest, out1, lost1) := Feed(chain[1..], passed, luck);
      var (chain2, out2, lost2) := Feed([s1] + rest, frames[1..], luck);
      (chain2, out1 + out2, (if Takes(s, f, draw) then [] else [f]) + lost1 + lost2)
  }

  datatype Event =
    | Enter(frame: Frame, luck: Luck)
    | Timer(stage: nat, ingoing: bool, now: Tb.U64, again: Tb.U64, luck: Luck)

  /** The chain and its history. */
  datatype System = System(chain: seq<Stage>, input: seq<Frame>, output: seq<Frame>, dropped: seq<Frame>)

  function Step(s: System, e: Event): System {
    match e
    case Enter(f, luck) =>
      var (chain, out, lost) := Feed(s.chain, [f], luck);
      System(chain, s.input + [f], s.output + out, s.dropped + lost)
    case Timer(i, ingoing, now, again, luck) =>
      if i >= |s.chain| then s
      else
        var (stage, passed) := Wake(s.chain[i], ingoing, now, again);
        var (rest, out, lost) := Feed(s.chain[i + 1..], passed, luck);
        System(s.chain[..i] + [stage] + rest, s.input, s.output + out, s.dropped + lost)
  }

  function Run(s: System, events: seq<Event>): System
    decreases |events|
  {
    if events == [] then s else Run(Step(s, events[0]), events[1..])
  }

  // ---------- Packets of one direction ----------

  function Of(ingoing: bool, frames: seq<Frame>): seq<Frame> {
    if frames == [] then []
    else (if frames[0].ingoing == ingoing then [frames[0]] else []) + Of(ingoing, frames[1..])
  }

  lemma OfOneMore(ingoing: bool, f: Frame, rest: seq<Frame>)
    ensures Of(ingoing, [f] + rest) == (if f.ingoing == ingoing then [f] else []) + Of(ingoing, rest)
  {
    assert ([f] + rest)[1..] == rest;
  }

  lemma {:induction false} OfConcat(ingoing: bool, a: seq<Frame>, b: seq<Frame>)
    ensures Of(ingoing, a + b) == Of(ingoing, a) + Of(ingoing, b)
  {
    hide Of;
    if a == [] {
      OfNone(ingoing);
      assert a + b == b;
    } else {
      var f, rest := a[0], a[1..];
      assert a == [f] + rest;
      Associative([f], rest, b);
      OfOneMore(ingoing, f, rest);
      OfOneMore(ingoing, f, rest + b);
      OfConcat(ingoing, rest, b);
      Associative(if f.ingoing == ingoing then [f] else [], Of(ingoing, rest), Of(ingoing, b));
    }
  }

  lemma OfNone(ingoing: bool)
    ensures Of(ingoing, []) == []
  {
  }

  function Held(s: Stage, ingoing: bool): seq<Frame> {
    match s
    case Burst(_, held) => Of(ingoing, held)
    case Delay(held) => Of(ingoing, held)
    case Buckets(_, inTb, _, outTb) => if ingoing then inTb.queue else outTb.queue
    case _ => []
  }

  /** All the chain holds, what is nearest to its end first. */
  function Contents(chain: seq<Stage>, ingoing: bool): seq<Frame> {
    if chain == [] then [] else Contents(chain[1..], ingoing) + Held(chain[0], ingoing)
  }

  /** A burst filter that passes packets straight on holds none, and each bucket
      holds packets of its own direction only. */
  ghost predicate Tidy(s: Stage) {
    match s
    case Burst(sleeping, held) => sleeping ==> held == []
    case Buckets(_, inTb, _, outTb) => Of(true, inTb.queue) == inTb.queue && Of(false, outTb.queue) == outTb.queue
    case _ => true
  }

  ghost predicate AllTidy(chain: seq<Stage>) {
    forall i :: 0 <= i < |chain| ==> Tidy(chain[i])
  }

  // ---------- One filter keeps the order ----------

  lemma {:induction false} OfAgain(ingoing: bool, other: bool, frames: seq<Frame>)
    ensures Of(ingoing, Of(other, frames)) == if ingoing == other then Of(other, frames) else []
  {
    if frames != [] {
      OfAgain(ingoing, other, frames[1..]);
      OfConcat(ingoing, if frames[0].ingoing == other then [frames[0]] else [], Of(other, frames[1..]));
    }
  }

  /** Parts of a sequence all of one direction are of that direction. */
  lemma {:induction false} OfPart(ingoing: bool, a: seq<Frame>, b: seq<Frame>)
    requires Of(ingoing, a + b) == a + b
    ensures Of(ingoing, a) == a && Of(ingoing, b) == b && Of(!ingoing, a) == []
  {
    OfConcat(ingoing, a, b);
    OfLength(ingoing, a);
    OfLength(ingoing, b);
    assert Of(ingoing, a) == (a + b)[..|a|] && Of(ingoing, b) == (a + b)[|a|..];
    OfAgain(!ingoing, ingoing, a);
  }

  lemma {:induction false} OfLength(ingoing: bool, a: seq<Frame>)
    ensures |Of(ingoing, a)| <= |a|
  {
    if a != [] {
      OfLength(ingoing, a[1..]);
    }
  }

  lemma BucketKeeps(limits: Tb.Limits, b: Tb.Bucket, e: Tb.Event, ingoing: bool)
    requires Of(ingoing, b.queue) == b.queue && (e.Arrive? ==> e.frame.ingoing == ingoing)
    ensures var (b', sent) := Tb.Step(limits, b, e);
      && Of(ingoing, b'.queue) == b'.queue && Of(!ingoing, sent) == []
      && Of(ingoing, sent) + b'.queue == b.queue + Tb.Admitted(limits, b, e)
  {
    hide Tb.Step;
    var (b', sent) := Tb.Step(limits, b, e);
    Tb.StepInOrder(limits, b, e);
    OfConcat(ingoing, b.queue, Tb.Admitted(limits, b, e));
    OfPart(ingoing, sent, b'.queue);
  }

  lemma BucketsOffer(s: Stage, f: Frame, d: Draw, ingoing: bool)
    requires Tidy(s) && s.Buckets?
    ensures var (s', passed) := Offer(s, f, d);
      && Tidy(s')
      && Of(ingoing, passed) + Held(s', ingoing) == Held(s, ingoing) + Of(ingoing, if Takes(s, f, d) then [f] else [])
  {
    hide Tb.Step, Tb.Accepts, Of;
    OfOneMore(ingoing, f, []);
    OfNone(ingoing);
    assert [f] + [] == [f];
    if f.ingoing {
      BucketKeeps(s.inLimits, s.inTb, Tb.Arrive(f, d.r), true);
    } else {
      BucketKeeps(s.outLimits, s.outTb, Tb.Arrive(f, d.r), false);
    }
  }

  /** A filter that is not a bucket holds the packet last or hands it on or drops it. */
  lemma PlainOffer(s: Stage, f: Frame, d: Draw, ingoing: bool)
    requires Tidy(s) && !s.Buckets?
    ensures var (s', passed) := Offer(s, f, d);
      && Tidy(s')
      && Of(ingoing, passed) + Held(s', ingoing) == Held(s, ingoing) + Of(ingoing, if Takes(s, f, d) then [f] else [])
  {
    hide Of, NatOutcome;
    var one := Of(ingoing, [f]);
    OfNone(ingoing);
    assert one + [] == one == [] + one;
    if s.Burst? || s.Delay? {
      OfConcat(ingoing, s.held, [f]);
      assert [] + (Of(ingoing, s.held) + one) == Of(ingoing, s.held) + one;
    }
  }

  /** What a filter hands on, followed by what it then holds, is what it held followed
      by the packet, unless it drops the packet. */
  lemma OfferKeeps(s: Stage, f: Frame, d: Draw, ingoing: bool)
    requires Tidy(s)
    ensures var (s', passed) := Offer(s, f, d);
      && Tidy(s')
      && Of(ingoing, passed) + Held(s', ingoing) == Held(s, ingoing) + Of(ingoing, if Takes(s, f, d) then [f] else [])
  {
    hide *;
    if s.Buckets? {
      BucketsOffer(s, f, d, ingoing);
    } else {
      PlainOffer(s, f, d, ingoing);
    }
  }

  lemma BucketsWake(s: Stage, timed: bool, now: Tb.U64, again: Tb.U64, ingoing: bool)
    requires Tidy(s) && s.Buckets?
    ensures var (s', passed) := Wake(s, timed, now, again);
      Tidy(s') && Of(ingoing, passed) + Held(s', ingoing) == Held(s, ingoing)
  {
    hide Tb.Step;
    if timed {
      BucketKeeps(s.inLimits, s.inTb, Tb.Run(now, again), true);
    } else {
      BucketKeeps(s.outLimits, s.outTb, Tb.Run(now, again), false);
    }
  }

  lemma WakeKeeps(s: Stage, timed: bool, now: Tb.U64, again: Tb.U64, ingoing: bool)
    requires Tidy(s)
    ensures var (s', passed) := Wake(s, timed, now, again);
      Tidy(s') && Of(ingoing, passed) + Held(s', ingoing) == Held(s, ingoing)
  {
    hide Tb.Step;
    match s
    case Buckets(_, _, _, _) =>
      hide *;
      BucketsWake(s, timed, now, again, ingoing);
    case Delay(held) =>
      if held != [] {
        OfConcat(ingoing, held[..1], held[1..]);
        assert held == held[..1] + held[1..];
      }
    case _ =>
  }

  // ---------- The chain keeps the order ----------

  /** A filter hands on passed and holds held1 in place of held; the filters behind it,
      which hold rest, let out some and hold rest1. */
  lemma SiftOne(
    rest: seq<Frame>, held: seq<Frame>, passed: seq<Frame>, held1: seq<Frame>,
    out: seq<Frame>, rest1: seq<Frame>, lost: multiset<Frame>)
    requires passed + held1 == held && Sifted(out + rest1, lost, rest + passed)
    ensures Sifted(out + (rest1 + held1), lost, rest + held)
  {
    hide Sifted;
    SiftedBefore(out + rest1, lost, rest + passed, held1);
    Associative(rest, passed, held1);
    Associative(out, rest1, held1);
  }

  /** The same when the filter first gets packet f, which it may drop. */
  lemma SiftOffered(
    rest: seq<Frame>, held: seq<Frame>, f: seq<Frame>, taken: seq<Frame>, lost0: seq<Frame>,
    passed: seq<Frame>, held1: seq<Frame>, out: seq<Frame>, rest1: seq<Frame>, lost: multiset<Frame>)
    requires (taken == f && lost0 == []) || (taken == [] && lost0 == f)
    requires passed + held1 == held + taken && Sifted(out + rest1, lost, rest + passed)
    ensures Sifted(out + (rest1 + held1), lost + multiset(lost0), (rest + held) + f)
  {
    hide Sifted;
    SiftOne(rest, held + taken, passed, held1, out, rest1, lost);
    Associative(rest, held, taken);
    SiftedOut(rest + held, lost0, taken);
    assert ((rest + held) + lost0) + taken == (rest + held) + f;
    SiftedTwice(out + (rest1 + held1), lost, (rest + held) + taken, multiset(lost0), (rest + held) + f);
  }

  lemma OfLost(ingoing: bool, a: seq<Frame>, b: seq<Frame>, c: seq<Frame>)
    ensures multiset(Of(ingoing, a + b + c)) ==
      multiset(Of(ingoing, b)) + multiset(Of(ingoing, a)) + multiset(Of(ingoing, c))
  {
    OfConcat(ingoing, a + b, c);
    OfConcat(ingoing, a, b);
  }

  /** What comes out, followed by what the chain then holds, is what it held followed
      by what went in, less exactly what was dropped. */
  lemma {:induction false} FeedKeeps(chain: seq<Stage>, frames: seq<Frame>, luck: Luck, ingoing: bool)
    requires AllTidy(chain)
    ensures var (chain', out, lost) := Feed(chain, frames, luck);
      && AllTidy(chain')
      && Sifted(Of(ingoing, out) + Contents(chain', ingoing), multiset(Of(ingoing, lost)),
                Contents(chain, ingoing) + Of(ingoing, frames))
    decreases |chain|, |frames|
  {
    hide Offer, Takes, Sifted, Held, Tidy, Of;
    if chain == [] || frames == [] {
      NothingFed(chain, frames, luck, ingoing);
    } else {
      var f, s, draw, more := frames[0], chain[0], luck(|chain| - 1, frames[0]), frames[1..];
      var (s1, passed) := Offer(s, f, draw);
      var (rest, out1, lost1) := Feed(chain[1..], passed, luck);
      var chain1 := [s1] + rest;
      var (chain2, out2, lost2) := Feed(chain1, more, luck);
      var d, taken, lost0 := ingoing, if Takes(s, f, draw) then [f] else [], if Takes(s, f, draw) then [] else [f];
      assert Feed(chain, frames, luck) == (chain2, out1 + out2, lost0 + lost1 + lost2);
      assert chain1[1..] == rest && chain1[0] == s1;
      OfNone(d);
      OfferKeeps(s, f, draw, d);
      FeedKeeps(chain[1..], passed, luck, d);
      FeedKeeps(chain1, more, luck, d);
      SiftOffered(Contents(chain[1..], d), Held(s, d), Of(d, [f]), Of(d, taken),
                  Of(d, lost0), Of(d, passed), Held(s1, d), Of(d, out1), Contents(rest, d), multiset(Of(d, lost1)));
      SiftedOnward(Of(d, out1), Contents(chain1, d), multiset(Of(d, lost1)) + multiset(Of(d, lost0)),
                   Contents(chain, d) + Of(d, [f]), Of(d, more),
                   Of(d, out2), Contents(chain2, d), multiset(Of(d, lost2)));
      Associative(Contents(chain, d), Of(d, [f]), Of(d, more));
      OfConcat(d, out1, out2);
      OfLost(d, lost0, lost1, lost2);
      assert [f] + more == frames;
      OfConcat(d, [f], more);
    }
  }

  lemma NothingFed(chain: seq<Stage>, frames: seq<Frame>, luck: Luck, ingoing: bool)
    requires chain == [] || frames == []
    ensures var (chain', out, lost) := Feed(chain, frames, luck);
      && chain' == chain
      && Sifted(Of(ingoing, out) + Contents(chain', ingoing), multiset(Of(ingoing, lost)),
                Contents(chain, ingoing) + Of(ingoing, frames))
  {
    hide Of, Contents, Sifted;
    var all := Contents(chain, ingoing) + Of(ingoing, frames);
    OfNone(ingoing);
    SiftedWhole(all);
    NothingHeld(ingoing);
    var held, fed := Contents(chain, ingoing), Of(ingoing, frames);
    assert [] + fed == fed == fed + [] && [] + held == held == held + [];
  }

  lemma NothingHeld(ingoing: bool)
    ensures Contents([], ingoing) == []
  {
  }

  lemma SiftedWhole(all: seq<Frame>)
    ensures Sifted(all, multiset([]), all)
  {
    SubsequenceReflexive(all);
  }

  // ---------- Runs ----------

  /** In each direction, what came out followed by what is held is what went in less
      exactly what was dropped. */
  ghost predicate Conserves(s: System, ingoing: bool) {
    AllTidy(s.chain)
    && Sifted(Of(ingoing, s.output) + Contents(s.chain, ingoing),
              multiset(Of(ingoing, s.dropped)), Of(ingoing, s.input))
  }

  lemma SplitFurther(chain: seq<Stage>, i: nat)
    requires 0 < i <= |chain|
    ensures chain[1..][i - 1..] == chain[i..] && chain[1..][..i - 1] == chain[..i][1..] && chain[..i][0] == chain[0]
  {
  }

  lemma {:induction false} ContentsSplit(chain: seq<Stage>, i: nat, ingoing: bool)
    requires i <= |chain|
    ensures Contents(chain, ingoing) == Contents(chain[i..], ingoing) + Contents(chain[..i], ingoing)
  {
    hide Held;
    if i == 0 {
      assert chain[0..] == chain;
    } else {
      SplitFurther(chain, i);
      ContentsSplit(chain[1..], i - 1, ingoing);
      Associative(Contents(chain[i..], ingoing), Contents(chain[..i][1..], ingoing), Held(chain[0], ingoing));
    }
  }

  lemma ContentsAt(chain: seq<Stage>, i: nat, ingoing: bool)
    requires i < |chain|
    ensures Contents(chain, ingoing) ==
      (Contents(chain[i + 1..], ingoing) + Held(chain[i], ingoing)) + Contents(chain[..i], ingoing)
  {
    hide Held;
    ContentsSplit(chain, i, ingoing);
    assert chain[i..][1..] == chain[i + 1..] && chain[i..][0] == chain[i];
  }

  lemma EnterConserves(s: System, f: Frame, luck: Luck, ingoing: bool)
    requires Conserves(s, ingoing)
    ensures Conserves(Step(s, Enter(f, luck)), ingoing)
  {
    hide Sifted;
    var (chain, out, lost) := Feed(s.chain, [f], luck);
    var d, held := ingoing, Contents(s.chain, ingoing);
    FeedKeeps(s.chain, [f], luck, d);
    OfConcat(d, s.input, [f]);
    OfConcat(d, s.output, out);
    OfConcat(d, s.dropped, lost);
    SiftedOnward(Of(d, s.output), held, multiset(Of(d, s.dropped)), Of(d, s.input), Of(d, [f]),
                 Of(d, out), Contents(chain, d), multiset(Of(d, lost)));
  }

  /** What filter i hands on goes through the filters behind it. */
  lemma WakeFeedKeeps(chain: seq<Stage>, i: nat, timed: bool, now: Tb.U64, again: Tb.U64, luck: Luck, ingoing: bool)
    requires AllTidy(chain) && i < |chain|
    ensures var (stage, passed) := Wake(chain[i], timed, now, again);
      var (rest, out, lost) := Feed(chain[i + 1..], passed, luck);
      var chain' := chain[..i] + [stage] + rest;
      && AllTidy(chain')
      && Sifted(Of(ingoing, out) + Contents(chain', ingoing), multiset(Of(ingoing, lost)), Contents(chain, ingoing))
  {
    hide Sifted, Held, Wake, Tidy, Feed, Of, Contents;
    var d := ingoing;
    var (stage, passed) := Wake(chain[i], timed, now, again);
    var (rest, out, lost) := Feed(chain[i + 1..], passed, luck);
    var chain' := chain[..i] + [stage] + rest;
    WakeKeeps(chain[i], timed, now, again, d);
    FeedKeeps(chain[i + 1..], passed, luck, d);
    ContentsAt(chain, i, d);
    ContentsAt(chain', i, d);
    assert chain'[i + 1..] == rest && chain'[..i] == chain[..i] && chain'[i] == stage;
    var behind, front, r := Contents(chain[i + 1..], d), Contents(chain[..i], d), Contents(rest, d);
    var (h, h', p, o) := (Held(chain[i], d), Held(stage, d), Of(d, passed), Of(d, out));
    Associative(p, h', front);
    SiftOne(behind, h + front, p, h' + front, o, r, multiset(Of(d, lost)));
    Associative(behind, h, front);
    Associative(r, h', front);
  }

  lemma TimerConserves(s: System, i: nat, timed: bool, now: Tb.U64, again: Tb.U64, luck: Luck, ingoing: bool)
    requires Conserves(s, ingoing)
    ensures Conserves(Step(s, Timer(i, timed, now, again, luck)), ingoing)
  {
    hide Sifted, Wake, Feed, Of, Contents;
    if i < |s.chain| {
      var d := ingoing;
      var (stage, passed) := Wake(s.chain[i], timed, now, again);
      var (rest, out, lost) := Feed(s.chain[i + 1..], passed, luck);
      var held, held', input := Contents(s.chain, d), Contents(s.chain[..i] + [stage] + rest, d), Of(d, s.input);
      WakeFeedKeeps(s.chain, i, timed, now, again, luck, d);
      OfConcat(d, s.output, out);
      OfConcat(d, s.dropped, lost);
      assert held + [] == held && input + [] == input;
      SiftedOnward(Of(d, s.output), held, multiset(Of(d, s.dropped)), input, [],
                   Of(d, out), held', multiset(Of(d, lost)));
    }
  }

  /** However packets come and timers fire, in each direction the packets that came out
      and those still held are in the order they went in, and each packet that went in
      is in exactly one of output, chain and dropped. */
  lemma {:induction false} RunConserves(s: System, events: seq<Event>, ingoing: bool)
    requires Conserves(s, ingoing)
    ensures Conserves(Run(s, events), ingoing)
    decreases |events|
  {
    hide Conserves, Step;
    if events != [] {
      match events[0] {
        case Enter(f, luck) => EnterConserves(s, f, luck, ingoing);
        case Timer(i, timed, now, again, luck) => TimerConserves(s, i, timed, now, again, luck, ingoing);
      }
      RunConserves(Step(s, events[0]), events[1..], ingoing);
    }
  }

  /** A chain that starts empty lets each direction out in the order it came in. */
  lemma ChainKeepsOrder(chain: seq<Stage>, events: seq<Event>, ingoing: bool)
    requires AllTidy(chain) && Contents(chain, ingoing) == []
    ensures var s := Run(System(chain, [], [], []), events);
      Conserves(s, ingoing) && Subsequence(Of(ingoing, s.output), Of(ingoing, s.input))
  {
    var s := Run(System(chain, [], [], []), events);
    RunConserves(System(chain, [], [], []), events, ingoing);
    var out, held := Of(ingoing, s.output), Contents(s.chain, ingoing);
    SubsequenceReflexive(out);
    NothingIsSubsequence(held);
    SubsequenceOfConcat(out, out, [], held);
    assert out + [] == out;
    SubsequenceTransitive(out, out + held, Of(ingoing, s.input));
  }
}
