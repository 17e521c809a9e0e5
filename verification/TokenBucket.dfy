// The token bucket as an object, one for each direction of the filter.

module TokenBucket {
  import opened Frames
  import Chain
  import Spec = TokenBucketSpec

  class TokenBucket {
    var queue: seq<Frame>
    var tokens: Spec.U32
    var maxTokens: Spec.U32
    var maxPackets: Spec.U32
    var dataRate: Spec.U32
    var redStart: Spec.U32
    var timerStart: Spec.U64

    /** The packets handed to the next filter. */
    ghost var forwarded: seq<Frame>

    constructor (now: Spec.U64)
      ensures View() == Spec.Bucket(0, [], now) && forwarded == []
      ensures Limits() == Spec.Limits(8000, 30, 20480, 30)
    {
      queue, forwarded := [], [];
      tokens, maxTokens, maxPackets, dataRate, redStart := 0, 8000, 30, 20480, 30;
      timerStart := now;
    }

    ghost function Limits(): Spec.Limits
      reads this
    {
      Spec.Limits(maxTokens, maxPackets, dataRate, redStart)
    }

    ghost function View(): Spec.Bucket
      reads this
    {
      Spec.Bucket(tokens, queue, timerStart)
    }

    /** One run of the timer; the clock is read twice. */
    method Run(now: Spec.U64, again: Spec.U64)
      modifies this`tokens, this`timerStart, this`queue, this`forwarded
      ensures var (b, sent) := Spec.Step(Limits(), old(View()), Spec.Run(now, again));
        View() == b && forwarded == old(forwarded) + sent
      ensures
        var micros := now - old(timerStart) + if old(timerStart) <= now then 0 else 0x1_0000_0000_0000_0000;
        var sum := (old(tokens) + dataRate * micros % 0x1_0000_0000_0000_0000 / 8000) % 0x1_0000_0000;
        var full := if old(tokens) >= maxTokens then old(tokens) else if sum > maxTokens then maxTokens else sum;
        && timerStart == again && forwarded + queue == old(forwarded) + old(queue)
        && |old(forwarded)| <= |forwarded| && tokens + Bytes(forwarded[|old(forwarded)|..]) == full
    {
      hide Spec.AddTokens, Spec.TrySend, Spec.Step;
      ghost var before := View();
      RunUnderLock(now, again);
      Spec.RunInNumbers(Limits(), before, now, again);
      ghost var sent := Spec.Step(Limits(), before, Spec.Run(now, again)).1;
      assert forwarded[|old(forwarded)|..] == sent;
      assert (old(forwarded) + sent) + queue == old(forwarded) + (sent + queue);
    }

    method RunUnderLock(now: Spec.U64, again: Spec.U64)
      modifies this`tokens, this`timerStart, this`queue, this`forwarded
      ensures var (b, sent) := Spec.Step(Limits(), old(View()), Spec.Run(now, again));
        View() == b && forwarded == old(forwarded) + sent
    {
      hide Spec.AddTokens, Spec.TrySend;
      var diff := (now - timerStart) % Spec.TWO64;
      timerStart := again;
      Earn(diff);
      TrySend();
    }

    /** The part of a run under the lock. */
    method Earn(diff: Spec.U64)
      modifies this`tokens
      ensures tokens == Spec.AddTokens(Limits(), old(tokens), diff)
    {
      if tokens < maxTokens {
        tokens := (tokens + (dataRate * diff) % Spec.TWO64 / 1000 / 8) % Spec.TWO32;
        if tokens > maxTokens {
          tokens := maxTokens;
        }
      }
    }

    /** A packet arrives; r is the number drawn for it. */
    method HandlePacket(frame: Frame, r: real)
      modifies this`tokens, this`queue, this`forwarded
      ensures var (b, sent) := Spec.Step(Limits(), old(View()), Spec.Arrive(frame, r));
        View() == b && forwarded == old(forwarded) + sent
      ensures forwarded + queue == old(forwarded) + old(queue) +
        if |old(queue)| < maxPackets && (|old(queue)| < redStart || r > 0.0) then [frame] else []
    {
      hide Spec.TrySend, Spec.Receive, Spec.Accepts;
      ghost var before := View();
      Receive(frame, r);
      TrySend();
      Spec.StepInOrder(Limits(), before, Spec.Arrive(frame, r));
      Spec.EarlyDropNeedsZero(Limits(), before.queue, r);
      ghost var sent := Spec.Step(Limits(), before, Spec.Arrive(frame, r)).1;
      assert (old(forwarded) + sent) + queue == old(forwarded) + (sent + queue);
      ghost var admitted := Spec.Admitted(Limits(), before, Spec.Arrive(frame, r));
      assert forwarded + queue == old(forwarded) + (old(queue) + admitted);
    }

    /** The part of an arrival under the lock. */
    method Receive(frame: Frame, r: real)
      modifies this`queue
      ensures View() == Spec.Receive(Limits(), old(View()), Spec.Arrive(frame, r))
    {
      if |queue| < maxPackets {
        if |queue| < redStart {
          queue := queue + [frame];
        } else if r > ((|queue| - redStart) / (maxPackets - redStart)) as real {
          queue := queue + [frame];
        }
      }
    }

    method TrySend()
      modifies this`tokens, this`queue, this`forwarded
      ensures var (b, sent) := Spec.TrySend(old(View()));
        View() == b && forwarded == old(forwarded) + sent
    {
      hide Bytes, Spec.Affordable;
      ghost var n := 0;
      BytesOfConcat([], []);
      assert [] + [] == queue[..0];
      while |queue| > 0 && queue[0].len <= tokens
        invariant n <= |old(queue)| && queue == old(queue)[n..]
        invariant forwarded == old(forwarded) + old(queue)[..n]
        invariant tokens == old(tokens) - Bytes(old(queue)[..n])
        invariant Spec.Affordable(old(tokens), old(queue)) == n + Spec.Affordable(tokens, queue)
        decreases |queue|
      {
        assert old(queue)[..n + 1] == old(queue)[..n] + [queue[0]];
        BytesOfPrefix(old(queue), n);
        Spec.AffordableUnfolds(tokens, queue);
        tokens := tokens - queue[0].len;
        forwarded := forwarded + [queue[0]];
        queue := queue[1..];
        n := n + 1;
      }
      Spec.AffordableUnfolds(tokens, queue);
    }
  }

  /** One bucket for each direction. */
  class TokenBucketFilter {
    const inTb: TokenBucket
    const outTb: TokenBucket

    constructor (now: Spec.U64)
      ensures fresh(inTb) && fresh(outTb) && inTb != outTb
      ensures inTb.View() == outTb.View() == Spec.Bucket(0, [], now)
    {
      inTb := new TokenBucket(now);
      outTb := new TokenBucket(now);
    }

    /** The filter as a stage of a chain. */
    ghost function Stage(): Chain.Stage
      reads inTb, outTb
    {
      Chain.Buckets(inTb.Limits(), inTb.View(), outTb.Limits(), outTb.View())
    }

    /** A packet concerns the bucket of its direction only. */
    method HandlePacket(frame: Frame, r: real)
      requires inTb != outTb
      modifies inTb, outTb
      ensures var (used, other) := if frame.ingoing then (inTb, outTb) else (outTb, inTb);
        var (b, sent) := Spec.Step(used.Limits(), old(used.View()), Spec.Arrive(frame, r));
        && used.View() == b && used.forwarded == old(used.forwarded) + sent && used.Limits() == old(used.Limits())
        && unchanged(other)
      ensures forall d: Chain.Draw :: d.r == r ==>
        var (s, sent) := Chain.Offer(old(Stage()), frame, d);
        && Stage() == s
        && inTb.forwarded == (if frame.ingoing then old(inTb.forwarded) + sent else old(inTb.forwarded))
        && outTb.forwarded == (if frame.ingoing then old(outTb.forwarded) else old(outTb.forwarded) + sent)
    {
      hide Spec.Step;
      if frame.ingoing {
        inTb.HandlePacket(frame, r);
      } else {
        outTb.HandlePacket(frame, r);
      }
    }

    /** The timer of one of the buckets. */
    method Run(ingoing: bool, now: Spec.U64, again: Spec.U64)
      requires inTb != outTb
      modifies inTb, outTb
      ensures var (used, other) := if ingoing then (inTb, outTb) else (outTb, inTb);
        var (b, sent) := Spec.Step(used.Limits(), old(used.View()), Spec.Run(now, again));
        && used.View() == b && used.forwarded == old(used.forwarded) + sent && used.Limits() == old(used.Limits())
        && unchanged(other)
      ensures var (s, sent) := Chain.Wake(old(Stage()), ingoing, now, again);
        && Stage() == s
        && inTb.forwarded == (if ingoing then old(inTb.forwarded) + sent else old(inTb.forwarded))
        && outTb.forwarded == (if ingoing then old(outTb.forwarded) else old(outTb.forwarded) + sent)
    {
      hide Spec.Step;
      if ingoing {
        inTb.Run(now, again);
      } else {
        outTb.Run(now, again);
      }
    }
  }
}
