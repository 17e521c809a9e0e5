// The delay filters as objects built on asynchronous queues. The ghost field line
// is the state of DelaySpec; each method makes one of its steps.

module Delays {
  import opened Packets
  import opened Frames
  import opened AsyncQueue
  import opened DelaySpec
  import Q = AsyncQueueSpec
  import DelayCurve

  /** A queue with one consumer. The consumer has run so many of the handlers posted
      to it; while it is busy, or a handler is still to run, it does not ask. */
  ghost predicate OneConsumer<D>(q: AsyncQueue<D>, handled: nat, asked: bool, busy: bool)
    reads q
  {
    && !q.stopped && !q.niceStopped
    && handled <= |q.posted| <= handled + 1
    && (handled < |q.posted| ==> q.posted[handled].1.Ok? && asked && !busy)
    && (busy ==> asked && handled == |q.posted|)
    && (q.callback.Some? <==> asked && !busy && handled == |q.posted|)
    && (q.callback.Some? ==> q.theQueue == [])
  }

  /** What the consumer is still to see, the item of a posted handler first. */
  ghost function Unseen<D>(q: AsyncQueue<D>, handled: nat): seq<D>
    reads q
  {
    (if handled < |q.posted| && q.posted[handled].1.Ok? then [q.posted[handled].1.data] else []) + q.theQueue
  }

  method Offer<D>(q: AsyncQueue<D>, d: D, ghost handled: nat, ghost asked: bool, ghost busy: bool)
    requires OneConsumer(q, handled, asked, busy)
    modifies q
    ensures OneConsumer(q, handled, asked, busy) && Unseen(q, handled) == old(Unseen(q, handled)) + [d]
  {
    q.Push(d);
  }

  /** The consumer, free again, asks for the next item. */
  method Ask<D>(q: AsyncQueue<D>, ghost handled: nat)
    requires !q.stopped && !q.niceStopped && q.callback.None? && handled == |q.posted|
    modifies q
    ensures OneConsumer(q, handled, true, false) && Unseen(q, handled) == old(Unseen(q, handled))
  {
    q.AsyncPop(0);
  }

  /** The packet whose timer runs and when it is due. */
  datatype Running = Running(item: Item, due: nat)

  function ToRunning(timer: Option<Timed>): Option<Running> {
    match timer case None => None case Some(t) => Some(Running(t.item, t.due))
  }

  // ---------- Static delay ----------

  class StaticDelay {
    const queue: AsyncQueue<Item>
    var delay: int
    var timer: Option<Running>
    ghost var started: bool
    ghost var handled: nat
    ghost var line: Line

    constructor (delay: int, now: nat)
      ensures Valid() && fresh(queue) && !started && line == Start(delay, [], now)
    {
      queue := new AsyncQueue<Item>();
      this.delay, timer, started, handled := delay, None, false, 0;
      line := Start(delay, [], now);
    }

    ghost predicate Valid()
      reads this, queue
    {
      && OneConsumer(queue, handled, started, timer.Some?)
      && line.queue == Unseen(queue, handled)
      && ToRunning(line.timer) == timer && line.delay == delay && line.ring == []
    }

    method Init()
      requires Valid() && !started && timer.None?
      modifies this`started, queue
      ensures Valid() && started && line == old(line)
    {
      started := true;
      Ask(queue, handled);
    }

    method HandlePacket(frame: Frame, stamp: nat, now: nat)
      requires Valid() && line.clock <= now
      modifies this`line, queue
      ensures Valid() && line == Take(old(line), Arrive(now, frame, stamp))
    {
      Offer(queue, Item(frame, stamp, now), handled, started, timer.Some?);
      line := Take(line, Arrive(now, frame, stamp));
    }

    /** The handler the queue posted runs: a packet gets a timer for what is left of
        its delay. */
    method PopHandler(result: Q.Result<Item>, now: nat)
      requires Valid() && line.clock <= now
      requires handled < |queue.posted| && result == queue.posted[handled].1
      modifies this`timer, this`handled, this`line
      ensures Valid() && Enabled(old(line), Pop(now)) && line == Take(old(line), Pop(now))
    {
      if result.Stopped? {
        return;
      }
      var item := result.data;
      var left := 1000 * delay - (now - item.stamp);
      if left < 0 {
        left := 0;
      }
      timer := Some(Running(item, now + left));
      handled := handled + 1;
      line := Take(line, Pop(now));
    }

    /** The packet goes on with a new stamp, and the next one is asked for. */
    method TimerFires(now: nat) returns (passed: Item)
      requires Valid() && Enabled(line, Fire(now))
      modifies this`timer, this`line, queue
      ensures Valid() && line == Take(old(line), Fire(now))
      ensures passed.frame == old(timer).value.item.frame && passed.stamp == now
    {
      passed := timer.value.item.(stamp := now);
      timer := None;
      line := Take(line, Fire(now));
      Ask(queue, handled);
    }
  }

  // ---------- Dynamic delay ----------

  class DynamicDelay {
    const queue: AsyncQueue<Item>
    const delayQ: AsyncQueue<int>
    var delay: int
    var timer: Option<Running>
    var delayTimer: Option<nat>
    ghost var started: bool
    ghost var handled: nat
    ghost var delaysHandled: nat
    ghost var line: Line

    constructor (now: nat)
      ensures Valid() && fresh(queue) && fresh(delayQ) && !started && line == Start(0, [], now)
    {
      queue := new AsyncQueue<Item>();
      delayQ := new AsyncQueue<int>();
      delay, timer, delayTimer := 0, None, None;
      started, handled, delaysHandled := false, 0, 0;
      line := Start(0, [], now);
    }

    ghost predicate Valid()
      reads this, queue, delayQ
    {
      && queue as object != delayQ as object
      && OneConsumer(queue, handled, started, timer.Some?)
      && OneConsumer(delayQ, delaysHandled, started, delayTimer.Some?)
      && (match delayTimer case Some(due) => due == line.nextTick case None => line.nextTick <= line.clock)
      && line.queue == Unseen(queue, handled)
      && line.ring == Unseen(delayQ, delaysHandled)
      && ToRunning(line.timer) == timer && line.delay == delay
    }

    /** Appends the interpolated curve to the delays to come. */
    method SetDelays(delays: seq<int>, resolution: int) returns (curve: seq<int>)
      requires Valid() && delays != []
      modifies this`line, delayQ
      ensures Valid()
      ensures curve == DelayCurve.Curve(delays, if resolution < 0 then 0 else resolution)
      ensures line == old(line).(ring := old(line).ring + curve)
    {
      curve := Interpolate(delays, resolution);
      var i := 0;
      while i < |curve|
        invariant 0 <= i <= |curve|
        invariant Valid() && line == old(line).(ring := old(line).ring + curve[..i])
      {
        assert curve[..i + 1] == curve[..i] + [curve[i]];
        Offer(delayQ, curve[i], delaysHandled, started, delayTimer.Some?);
        line := line.(ring := line.ring + [curve[i]]);
        i := i + 1;
      }
      assert curve[..i] == curve;
    }

    method Init()
      requires Valid() && !started
      modifies this`started, queue, delayQ
      ensures Valid() && started && line == old(line)
    {
      started := true;
      Ask(queue, handled);
      Ask(delayQ, delaysHandled);
    }

    method HandlePacket(frame: Frame, stamp: nat, now: nat)
      requires Valid() && line.clock <= now
      modifies this`line, queue
      ensures Valid() && line == Take(old(line), Arrive(now, frame, stamp))
    {
      Offer(queue, Item(frame, stamp, now), handled, started, timer.Some?);
      line := Take(line, Arrive(now, frame, stamp));
    }

    /** The handler of the delay queue runs: the value goes back to the end and becomes
        the delay in force, and a timer of one second is set. */
    method DelayPopHandler(d: int, now: nat)
      requires Valid() && line.clock <= now
      requires delaysHandled < |delayQ.posted| && delayQ.posted[delaysHandled].1 == Q.Ok(d)
      modifies this`delay, this`delayTimer, this`delaysHandled, this`line, delayQ
      ensures Valid() && Enabled(old(line), Tick(now)) && line == Take(old(line), Tick(now))
      ensures delayTimer == Some(now + 1_000_000)
    {
      delayQ.Push(d);
      delay := d;
      delayTimer := Some(now + SECOND);
      delaysHandled := delaysHandled + 1;
      line := Take(line, Tick(now));
    }

    /** The timer has run out and the next delay is asked for. */
    method DelayTimerFires(now: nat)
      requires Valid() && line.clock <= now && delayTimer.Some? && delayTimer.value <= now
      modifies this`delayTimer, this`line, delayQ
      ensures Valid() && delayTimer.None? && line == Take(old(line), Wait(now))
    {
      delayTimer := None;
      line := Take(line, Wait(now));
      Ask(delayQ, delaysHandled);
    }

    /** The handler of the packet queue runs: a packet gets a timer for what is left
        of the delay in force. */
    method PopHandler(result: Q.Result<Item>, now: nat)
      requires Valid() && line.clock <= now
      requires handled < |queue.posted| && result == queue.posted[handled].1
      modifies this`timer, this`handled, this`line
      ensures Valid() && Enabled(old(line), Pop(now)) && line == Take(old(line), Pop(now))
    {
      if result.Stopped? {
        return;
      }
      var item := result.data;
      var left := 1000 * delay - (now - item.stamp);
      if left < 0 {
        left := 0;
      }
      timer := Some(Running(item, now + left));
      handled := handled + 1;
      line := Take(line, Pop(now));
    }

    /** The packet goes on with a new stamp, and the next one is asked for. */
    method TimerFires(now: nat) returns (passed: Item)
      requires Valid() && Enabled(line, Fire(now))
      modifies this`timer, this`line, queue
      ensures Valid() && line == Take(old(line), Fire(now))
      ensures passed.frame == old(timer).value.item.frame && passed.stamp == now
    {
      passed := timer.value.item.(stamp := now);
      timer := None;
      line := Take(line, Fire(now));
      Ask(queue, handled);
    }
  }

  /** The nested loops over fix points and the steps between them. */
  method Interpolate(delays: seq<int>, resolution: int) returns (curve: seq<int>)
    requires delays != []
    ensures curve == DelayCurve.Curve(delays, if resolution < 0 then 0 else resolution)
  {
    hide DelayCurve.Value, DelayCurve.Extrapolated, DelayCurve.Steps;
    ghost var r: nat := if resolution < 0 then 0 else resolution;
    var ds := delays + [delays[0]];
    curve := [ds[0]];
    var i := 1;
    while i < |ds|
      invariant 1 <= i <= |ds|
      invariant curve == DelayCurve.Segments(ds, r, i - 1) + [if r == 0 then ds[0] else ds[i - 1]]
    {
      ghost var done, d0, d1 := DelayCurve.Segments(ds, r, i - 1), ds[i - 1], ds[i];
      var first := curve[|curve| - 1];
      if r > 0 {
        DelayCurve.StepsMeetFixPoints(d0, d1, r);
      }
      var a := 1;
      while a <= resolution
        invariant 1 <= a <= r + 1
        invariant curve == done + if r == 0 then [ds[0]] else DelayCurve.Steps(d0, d1, r, a)
      {
        var next := DelayCurve.Extrapolated(ds[i - 1], ds[i], first, resolution, a);
        DelayCurve.ExtrapolatesExactly(d0, d1, r, a);
        DelayCurve.OneStepMore(d0, d1, r, a);
        curve := curve + [next];
        a := a + 1;
      }
      if r > 0 {
        assert DelayCurve.Segments(ds, r, i) == done + DelayCurve.Steps(d0, d1, r, r);
      }
      i := i + 1;
    }
    curve := curve[..|curve| - 1];
  }
}
