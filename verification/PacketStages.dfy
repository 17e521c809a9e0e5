// The burst and loss filters as objects, proved to be stages of a chain, and the
// delay line, which is a stage too.

module PacketStages {
  import opened Frames
  import Chain
  import D = DelaySpec

  /** Collects packets, lets them go together, passes packets straight on for a
      while, and starts again. */
  class Burst {
    var queue: seq<Frame>
    var sleeping: bool

    /** The packets handed to the next filter. */
    ghost var forwarded: seq<Frame>

    constructor ()
      ensures View() == Chain.Burst(false, []) && Chain.Tidy(View()) && forwarded == []
    {
      queue, sleeping, forwarded := [], false, [];
    }

    ghost function View(): Chain.Stage
      reads this
    {
      Chain.Burst(sleeping, queue)
    }

    /** The timer of the current phase has run out. */
    method Init()
      modifies this
      ensures var (s, passed) := Chain.Wake(old(View()), false, 0, 0);
        View() == s && forwarded == old(forwarded) + passed
      ensures sleeping == !old(sleeping)
      ensures old(sleeping) ==> queue == old(queue) && forwarded == old(forwarded)
      ensures !old(sleeping) ==> queue == [] && forwarded == old(forwarded) + old(queue)
    {
      if sleeping {
        sleeping := false;
      } else {
        var i := 0;
        while i < |queue|
          invariant 0 <= i <= |queue| && queue == old(queue) && !sleeping
          invariant forwarded == old(forwarded) + queue[..i]
        {
          assert queue[..i + 1] == queue[..i] + [queue[i]];
          forwarded := forwarded + [queue[i]];
          i := i + 1;
        }
        assert queue[..i] == queue;
        queue := [];
        sleeping := true;
      }
    }

    method HandlePacket(frame: Frame)
      modifies this`queue, this`forwarded
      ensures forall d :: var (s, passed) := Chain.Offer(old(View()), frame, d);
        View() == s && forwarded == old(forwarded) + passed
      ensures sleeping ==> queue == old(queue) && forwarded == old(forwarded) + [frame]
      ensures !sleeping ==> queue == old(queue) + [frame] && forwarded == old(forwarded)
    {
      if sleeping {
        forwarded := forwarded + [frame];
      } else {
        queue := queue + [frame];
      }
    }
  }

  /** Drops a packet when the number drawn for it is below the loss rate. */
  class Loss {
    var loss: real
    ghost var forwarded: seq<Frame>

    constructor ()
      ensures loss == 0.0 && forwarded == []
    {
      loss, forwarded := 0.0, [];
    }

    method HandlePacket(frame: Frame, r: real)
      modifies this`forwarded
      ensures forall d: Chain.Draw :: d.r == r ==>
        forwarded == old(forwarded) + Chain.Offer(Chain.Loss(loss), frame, d).1
      ensures forwarded == if r < loss then old(forwarded) else old(forwarded) + [frame]
    {
      if r < loss {
        return;
      }
      forwarded := forwarded + [frame];
    }
  }

  /** Drops packets at a rate that goes through a list, round and round. */
  class DynamicLoss {
    const losses: Chain.Losses
    var currentIndex: nat
    var currentLoss: real
    ghost var forwarded: seq<Frame>

    constructor (losses: Chain.Losses)
      ensures View() == Chain.DynamicLoss(losses, 0, losses[0]) && forwarded == []
    {
      this.losses, currentIndex, currentLoss, forwarded := losses, 0, losses[0], [];
    }

    ghost function View(): Chain.Stage
      reads this
    {
      Chain.DynamicLoss(losses, currentIndex, currentLoss)
    }

    method HandleTimeout()
      modifies this`currentIndex, this`currentLoss
      ensures View() == Chain.Wake(old(View()), false, 0, 0).0
      ensures currentIndex == if old(currentIndex) + 1 < |losses| then old(currentIndex) + 1 else 0
      ensures currentLoss == losses[currentIndex]
    {
      currentIndex := currentIndex + 1;
      if currentIndex >= |losses| {
        currentIndex := 0;
      }
      currentLoss := losses[currentIndex];
    }

    method HandlePacket(frame: Frame, r: real)
      modifies this`forwarded
      ensures forall d: Chain.Draw :: d.r == r ==>
        forwarded == old(forwarded) + Chain.Offer(View(), frame, d).1
      ensures forwarded == if r < currentLoss then old(forwarded) else old(forwarded) + [frame]
    {
      if r < currentLoss {
        return;
      }
      forwarded := forwarded + [frame];
    }
  }

  // ---------- Phases of a burst filter ----------

  /** A packet comes to a burst filter, or the timer of its phase runs out. */
  datatype Moment = Comes(frame: Frame, draw: Chain.Draw) | PhaseEnds

  function Pass(s: Chain.Stage, m: Moment): (Chain.Stage, seq<Frame>) {
    match m
    case Comes(f, d) => Chain.Offer(s, f, d)
    case PhaseEnds => Chain.Wake(s, false, 0, 0)
  }

  /** A burst filter after some moments; it starts with an empty collection. */
  function BurstAfter(moments: seq<Moment>): Chain.Stage {
    if moments == [] then Chain.Burst(false, [])
    else Pass(BurstAfter(moments[..|moments| - 1]), moments[|moments| - 1]).0
  }

  /** How many phases have ended. */
  function Ended(moments: seq<Moment>): nat {
    if moments == [] then 0
    else Ended(moments[..|moments| - 1]) + if moments[|moments| - 1].PhaseEnds? then 1 else 0
  }

  /** The packets that came since the last phase ended, in order. */
  function SinceEnd(moments: seq<Moment>): seq<Frame> {
    if moments == [] || moments[|moments| - 1].PhaseEnds? then []
    else SinceEnd(moments[..|moments| - 1]) + [moments[|moments| - 1].frame]
  }

  /** Every other phase the filter sleeps and holds nothing; in the others it holds just
      the packets of the phase. */
  lemma {:induction false} BurstIsPhased(moments: seq<Moment>)
    ensures BurstAfter(moments) ==
      if Ended(moments) % 2 == 1 then Chain.Burst(true, []) else Chain.Burst(false, SinceEnd(moments))
  {
    if moments != [] {
      BurstIsPhased(moments[..|moments| - 1]);
    }
  }

  /** The packets of a collecting phase leave together, in order, when it ends, and not
      before; those that come in a sleeping phase leave at once. */
  lemma CollectedLeaveTogether(moments: seq<Moment>, m: Moment)
    ensures Pass(BurstAfter(moments), m).1 ==
      match m
      case Comes(f, _) => if Ended(moments) % 2 == 1 then [f] else []
      case PhaseEnds => if Ended(moments) % 2 == 1 then [] else SinceEnd(moments)
  {
    BurstIsPhased(moments);
  }

  // ---------- Rates of a dynamic loss filter ----------

  function LossAfter(losses: Chain.Losses, k: nat): Chain.Stage {
    if k == 0 then Chain.DynamicLoss(losses, 0, losses[0])
    else Chain.Wake(LossAfter(losses, k - 1), false, 0, 0).0
  }

  /** After k changes rate k of the list is in force, taken round and round. */
  lemma {:induction false} RatesGoRound(losses: Chain.Losses, k: nat)
    ensures LossAfter(losses, k) == Chain.DynamicLoss(losses, k % |losses|, losses[k % |losses|])
  {
    if k > 0 {
      RatesGoRound(losses, k - 1);
      D.NextInRing(k - 1, |losses|);
    }
  }

  // ---------- Delay lines ----------

  function FramesOf(items: seq<D.Item>): seq<Frame> {
    seq(|items|, i requires 0 <= i < |items| => items[i].frame)
  }

  /** A delay line as a stage: the packet whose timer runs, then those that wait. */
  function StageOf(s: D.Line): Chain.Stage {
    Chain.Delay(FramesOf(D.InTimer(s.timer) + s.queue))
  }

  /** A packet that comes is offered to the stage, the timer of a packet wakes it, and
      the other steps of the line change nothing in it. */
  lemma DelayIsStage(s: D.Line, step: D.Step, draw: Chain.Draw, ingoing: bool, now: Chain.Tb.U64, again: Chain.Tb.U64)
    requires D.Enabled(s, step)
    ensures var s' := StageOf(D.Take(s, step));
      match step
      case Arrive(_, f, _) => Chain.Offer(StageOf(s), f, draw) == (s', [])
      case Fire(_) => Chain.Wake(StageOf(s), ingoing, now, again) == (s', [s.timer.value.item.frame])
      case _ => s' == StageOf(s)
  {
    var items := D.InTimer(s.timer) + s.queue;
    match step
    case Arrive(at, f, stamp) =>
      assert D.InTimer(s.timer) + (s.queue + [D.Item(f, stamp, at)]) == items + [D.Item(f, stamp, at)];
      assert FramesOf(items + [D.Item(f, stamp, at)]) == FramesOf(items) + [f];
    case Fire(_) =>
      assert items[1..] == s.queue && items[0] == s.timer.value.item;
      assert FramesOf(items)[1..] == FramesOf(items[1..]);
      assert D.InTimer(D.Take(s, step).timer) + s.queue == s.queue;
    case Pop(_) =>
      assert D.InTimer(D.Take(s, step).timer) + s.queue[1..] == items;
    case _ =>
  }
}
