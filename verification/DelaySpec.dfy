// A delay filter on values: packets wait in a queue, one at a time is timed, and
// the delay in force may change under way. Times are microseconds; delays are
// milliseconds.

module DelaySpec {
  import opened Packets
  import opened Frames

  /** A packet with its time stamp and the time it came to the filter. */
  datatype Item = Item(frame: Frame, stamp: nat, arrived: nat)

  /** The packet whose timer runs: when it was taken, the delay then in force, how
      often the delay had changed, and when the timer is due. */
  datatype Timed = Timed(item: Item, popped: nat, delay: int, ticks: nat, due: nat)

  /** A packet let go and when. */
  datatype Release = Release(timed: Timed, at: nat)

  /** ring holds the delays to come, the next one first; a static delay has none. */
  datatype Line = Line(
    queue: seq<Item>, timer: Option<Timed>, delay: int, ring: seq<int>, ticks: nat, nextTick: nat,
    clock: nat, arrivals: seq<Item>, released: seq<Release>)

  datatype Step =
    | Arrive(now: nat, frame: Frame, stamp: nat)
    | Pop(now: nat)
    | Fire(now: nat)
    | Tick(now: nat)
    | Wait(now: nat)

  const SECOND: nat := 1_000_000

  /** When a packet taken at some time is to be let go: what is left of the delay is
      counted from its stamp and is never negative. */
  function Due(stamp: nat, delay: int, now: nat): nat {
    var left := 1000 * delay - (now - stamp);
    now + if left < 0 then 0 else left
  }

  function Start(delay: int, curve: seq<int>, now: nat): Line {
    Line([], None, delay, curve, 0, now, now, [], [])
  }

  predicate Enabled(s: Line, step: Step) {
    && s.clock <= step.now
    && match step
       case Arrive(_, _, _) => true
       case Pop(_) => s.timer.None? && s.queue != []
       case Fire(now) => s.timer.Some? && s.timer.value.due <= now
       case Tick(now) => s.ring != [] && s.nextTick <= now
       case Wait(_) => true
  }

  function Take(s: Line, step: Step): Line
    requires Enabled(s, step)
  {
    match step
    case Arrive(now, frame, stamp) =>
      var item := Item(frame, stamp, now);
      s.(queue := s.queue + [item], arrivals := s.arrivals + [item], clock := now)
    case Pop(now) =>
      var item := s.queue[0];
      var timed := Timed(item, now, s.delay, s.ticks, Due(item.stamp, s.delay, now));
      s.(queue := s.queue[1..], timer := Some(timed), clock := now)
    case Fire(now) =>
      s.(timer := None, released := s.released + [Release(s.timer.value, now)], clock := now)
    case Tick(now) =>
      var next := s.ring[0];
      s.(delay := next, ring := s.ring[1..] + [next], ticks := s.ticks + 1, nextTick := now + SECOND, clock := now)
    case Wait(now) => s.(clock := now)
  }

  ghost predicate Possible(s: Line, steps: seq<Step>)
    decreases |steps|
  {
    steps != [] ==> Enabled(s, steps[0]) && Possible(Take(s, steps[0]), steps[1..])
  }

  function TakeAll(s: Line, steps: seq<Step>): Line
    requires Possible(s, steps)
    decreases |steps|
  {
    if steps == [] then s else TakeAll(Take(s, steps[0]), steps[1..])
  }

  // ---------- The invariant ----------

  function Rotated(curve: seq<int>, k: nat): seq<int>
    requires k <= |curve|
  {
    curve[k..] + curve[..k]
  }

  /** The delay after so many changes: the curve, over and over. */
  function InForce(initial: int, curve: seq<int>, ticks: nat): int {
    if ticks == 0 || curve == [] then initial else curve[(ticks - 1) % |curve|]
  }

  function Items(released: seq<Release>): seq<Item> {
    seq(|released|, i requires 0 <= i < |released| => released[i].timed.item)
  }

  function InTimer(timer: Option<Timed>): seq<Item> {
    match timer case None => [] case Some(t) => [t.item]
  }

  /** Nothing is taken before it came or timed with anything but the delay in force. */
  ghost predicate TimedWell(initial: int, curve: seq<int>, t: Timed) {
    && t.item.arrived <= t.popped
    && t.delay == InForce(initial, curve, t.ticks)
    && t.due == Due(t.item.stamp, t.delay, t.popped)
  }

  /** The delay and the ring are the curve turned by the number of changes. */
  ghost predicate Turned(initial: int, curve: seq<int>, ticks: nat, delay: int, ring: seq<int>) {
    && delay == InForce(initial, curve, ticks)
    && ring == if curve == [] then [] else Rotated(curve, ticks % |curve|)
  }

  ghost predicate Releases(initial: int, curve: seq<int>, released: seq<Release>) {
    && (forall i :: 0 <= i < |released| ==>
      TimedWell(initial, curve, released[i].timed) && released[i].timed.due <= released[i].at)
    && (forall i :: 0 < i < |released| ==> released[i - 1].at <= released[i].timed.popped)
  }

  ghost predicate Lawful(initial: int, curve: seq<int>, start: nat, s: Line) {
    && Items(s.released) + InTimer(s.timer) + s.queue == s.arrivals
    && Turned(initial, curve, s.ticks, s.delay, s.ring)
    && start + SECOND * s.ticks <= s.nextTick
    && Releases(initial, curve, s.released)
    && (s.released != [] ==> s.released[|s.released| - 1].at <= s.clock)
    && (forall i :: 0 <= i < |s.queue| ==> s.queue[i].arrived <= s.clock)
    && (s.timer.Some? ==>
      var t := s.timer.value;
      && TimedWell(initial, curve, t) && t.popped <= s.clock
      && (s.released != [] ==> s.released[|s.released| - 1].at <= t.popped))
  }

  /** Counting on in a ring of n. */
  lemma NextInRing(k: nat, n: nat)
    requires n > 0
    ensures (k + 1) % n == if k % n + 1 == n then 0 else k % n + 1
  {
    var j := k % n;
    assert k + 1 == n * (k / n) + j + 1;
    if j + 1 == n {
      assert k + 1 == n * (k / n + 1);
      ModUnique(k + 1, k / n + 1, 0, n);
    } else {
      ModUnique(k + 1, k / n, j + 1, n);
    }
  }

  lemma TurnOnce(curve: seq<int>, k: nat)
    requires curve != []
    ensures var n := |curve|;
      var r := Rotated(curve, k % n);
      r[0] == curve[k % n] && r[1..] + [r[0]] == Rotated(curve, (k + 1) % n)
  {
    NextInRing(k, |curve|);
  }

  lemma ModUnique(x: nat, q: nat, m: nat, n: nat)
    requires n > 0 && m < n && x == n * q + m
    ensures x % n == m
  {
    var d := x / n - q;
    assert x == n * (x / n) + x % n;
    assert n * d == m - x % n;
    assert d >= 1 ==> n * (d - 1) >= 0;
    assert d <= -1 ==> n * (-d - 1) >= 0;
  }

  lemma ArriveIsLawful(initial: int, curve: seq<int>, start: nat, s: Line, step: Step)
    requires Lawful(initial, curve, start, s) && Enabled(s, step) && step.Arrive?
    ensures Lawful(initial, curve, start, Take(s, step))
  {
    hide Turned, Releases, TimedWell;
    var s' := Take(s, step);
    assert Items(s'.released) + InTimer(s'.timer) + s'.queue == s'.arrivals;
  }

  lemma WaitIsLawful(initial: int, curve: seq<int>, start: nat, s: Line, step: Step)
    requires Lawful(initial, curve, start, s) && Enabled(s, step) && step.Wait?
    ensures Lawful(initial, curve, start, Take(s, step))
  {
    hide Turned, Releases, TimedWell;
  }

  lemma PopIsLawful(initial: int, curve: seq<int>, start: nat, s: Line, step: Step)
    requires Lawful(initial, curve, start, s) && Enabled(s, step) && step.Pop?
    ensures Lawful(initial, curve, start, Take(s, step))
  {
    hide Releases, Rotated;
    assert s.queue == [s.queue[0]] + s.queue[1..];
  }

  lemma FireIsLawful(initial: int, curve: seq<int>, start: nat, s: Line, step: Step)
    requires Lawful(initial, curve, start, s) && Enabled(s, step) && step.Fire?
    ensures Lawful(initial, curve, start, Take(s, step))
  {
    hide Turned, TimedWell;
    assert Items(Take(s, step).released) == Items(s.released) + [s.timer.value.item];
  }

  lemma TickIsLawful(initial: int, curve: seq<int>, start: nat, s: Line, step: Step)
    requires Lawful(initial, curve, start, s) && Enabled(s, step) && step.Tick?
    ensures Lawful(initial, curve, start, Take(s, step))
  {
    hide Releases, TimedWell, Rotated;
    TurnOnce(curve, s.ticks);
  }

  lemma StepIsLawful(initial: int, curve: seq<int>, start: nat, s: Line, step: Step)
    requires Lawful(initial, curve, start, s) && Enabled(s, step)
    ensures Lawful(initial, curve, start, Take(s, step))
  {
    hide Lawful, Take, Enabled;
    match step
    case Arrive(_, _, _) => ArriveIsLawful(initial, curve, start, s, step);
    case Pop(_) => PopIsLawful(initial, curve, start, s, step);
    case Fire(_) => FireIsLawful(initial, curve, start, s, step);
    case Tick(_) => TickIsLawful(initial, curve, start, s, step);
    case Wait(_) => WaitIsLawful(initial, curve, start, s, step);
  }

  lemma {:induction false} RunIsLawful(initial: int, curve: seq<int>, start: nat, s: Line, steps: seq<Step>)
    requires Lawful(initial, curve, start, s) && Possible(s, steps)
    ensures Lawful(initial, curve, start, TakeAll(s, steps))
    decreases |steps|
  {
    if steps != [] {
      StepIsLawful(initial, curve, start, s, steps[0]);
      RunIsLawful(initial, curve, start, Take(s, steps[0]), steps[1..]);
    }
  }

  lemma StartIsLawful(initial: int, curve: seq<int>, start: nat)
    ensures Lawful(initial, curve, start, Start(initial, curve, start))
  {
  }

  lemma StartedRunIsLawful(initial: int, curve: seq<int>, start: nat, steps: seq<Step>)
    requires Possible(Start(initial, curve, start), steps)
    ensures Lawful(initial, curve, start, TakeAll(Start(initial, curve, start), steps))
  {
    hide Lawful;
    StartIsLawful(initial, curve, start);
    RunIsLawful(initial, curve, start, Start(initial, curve, start), steps);
  }

  // ---------- The theorems ----------

  /** Packets leave in the order they came, none lost, and at times that never fall,
      however the delay changes. */
  lemma NeverReorders(initial: int, curve: seq<int>, start: nat, steps: seq<Step>)
    requires Possible(Start(initial, curve, start), steps)
    ensures var s := TakeAll(Start(initial, curve, start), steps);
      && Items(s.released) + InTimer(s.timer) + s.queue == s.arrivals
      && forall i, j :: 0 <= i < j < |s.released| ==> s.released[i].at <= s.released[j].at
  {
    var s := TakeAll(Start(initial, curve, start), steps);
    StartedRunIsLawful(initial, curve, start, steps);
    forall i, j | 0 <= i < j < |s.released|
      ensures s.released[i].at <= s.released[j].at
    {
      TimesNeverFall(initial, curve, s.released, i, j);
    }
  }

  lemma {:induction false} TimesNeverFall(initial: int, curve: seq<int>, released: seq<Release>, i: nat, j: nat)
    requires Releases(initial, curve, released) && i < j < |released|
    ensures released[i].at <= released[j].at
    decreases j
  {
    assert released[j - 1].at <= released[j].timed.popped <= released[j].timed.due <= released[j].at;
    if i < j - 1 {
      TimesNeverFall(initial, curve, released, i, j - 1);
    }
  }

  /** The timer of a packet is due at the later of the time it was taken and its stamp
      plus the delay the curve had in force then, and the packet does not leave before. */
  lemma NeverEarly(initial: int, curve: seq<int>, start: nat, steps: seq<Step>, i: nat)
    requires Possible(Start(initial, curve, start), steps)
    requires i < |TakeAll(Start(initial, curve, start), steps).released|
    ensures var r := TakeAll(Start(initial, curve, start), steps).released[i];
      var ready := r.timed.item.stamp + 1000 * InForce(initial, curve, r.timed.ticks);
      && r.timed.due == (if r.timed.popped < ready then ready else r.timed.popped)
      && r.timed.due <= r.at
  {
    hide TakeAll, Possible, InForce, Turned;
    StartedRunIsLawful(initial, curve, start, steps);
    var r := TakeAll(Start(initial, curve, start), steps).released[i];
    assert TimedWell(initial, curve, r.timed) && r.timed.due <= r.at;
  }

  /** After k changes the delay is value (k - 1) of the curve taken round and round,
      the ring is the curve turned k times, and k seconds have passed to the next. */
  lemma DelayFollowsCurve(initial: int, curve: seq<int>, start: nat, steps: seq<Step>)
    requires Possible(Start(initial, curve, start), steps) && curve != []
    ensures var s := TakeAll(Start(initial, curve, start), steps);
      && (s.ticks > 0 ==> s.delay == curve[(s.ticks - 1) % |curve|])
      && s.ring == Rotated(curve, s.ticks % |curve|)
      && start + 1_000_000 * s.ticks <= s.nextTick
  {
    hide TakeAll, Possible, Releases, TimedWell, Rotated;
    StartedRunIsLawful(initial, curve, start, steps);
  }

  // ---------- The steps as history ----------

  /** The packets that come, as they come. */
  function Arrivals(steps: seq<Step>): seq<Item> {
    if steps == [] then []
    else
      (match steps[0] case Arrive(now, frame, stamp) => [Item(frame, stamp, now)] case _ => [])
      + Arrivals(steps[1..])
  }

  /** When packets are taken, and how often the delay has changed by then. */
  function Pops(steps: seq<Step>, ticks: nat): seq<(nat, nat)> {
    if steps == [] then []
    else
      (if steps[0].Pop? then [(steps[0].now, ticks)] else [])
      + Pops(steps[1..], if steps[0].Tick? then ticks + 1 else ticks)
  }

  /** When timers fire. */
  function Fires(steps: seq<Step>): seq<nat> {
    if steps == [] then [] else (if steps[0].Fire? then [steps[0].now] else []) + Fires(steps[1..])
  }

  /** When the packets taken so far were taken, as above. */
  function Popped(s: Line): seq<(nat, nat)> {
    seq(|s.released|, i requires 0 <= i < |s.released| => (s.released[i].timed.popped, s.released[i].timed.ticks))
    + match s.timer case None => [] case Some(t) => [(t.popped, t.ticks)]
  }

  function ReleasedAt(released: seq<Release>): seq<nat> {
    seq(|released|, i requires 0 <= i < |released| => released[i].at)
  }

  lemma StepIsHistory(s: Line, step: Step)
    requires Enabled(s, step)
    ensures var s' := Take(s, step);
      && s'.arrivals == s.arrivals + Arrivals([step])
      && Popped(s') == Popped(s) + Pops([step], s.ticks)
      && ReleasedAt(s'.released) == ReleasedAt(s.released) + Fires([step])
      && s'.ticks == s.ticks + if step.Tick? then 1 else 0
  {
    assert [step][1..] == [];
    var s' := Take(s, step);
    if step.Fire? {
      assert Popped(s') == Popped(s);
    }
  }

  lemma HistoryUnfolds(steps: seq<Step>, ticks: nat)
    requires steps != []
    ensures Arrivals(steps) == Arrivals([steps[0]]) + Arrivals(steps[1..])
    ensures Pops(steps, ticks) ==
      Pops([steps[0]], ticks) + Pops(steps[1..], ticks + if steps[0].Tick? then 1 else 0)
    ensures Fires(steps) == Fires([steps[0]]) + Fires(steps[1..])
  {
    assert [steps[0]][1..] == [];
  }

  lemma {:induction false} RunIsHistory(s: Line, steps: seq<Step>)
    requires Possible(s, steps)
    ensures var s' := TakeAll(s, steps);
      && s'.arrivals == s.arrivals + Arrivals(steps)
      && Popped(s') == Popped(s) + Pops(steps, s.ticks)
      && ReleasedAt(s'.released) == ReleasedAt(s.released) + Fires(steps)
    decreases |steps|
  {
    if steps == [] {
      assert s.arrivals + [] == s.arrivals && Popped(s) + [] == Popped(s);
      assert ReleasedAt(s.released) + [] == ReleasedAt(s.released);
    } else {
      hide Take, Enabled, Popped, ReleasedAt, Arrivals, Pops, Fires;
      var s1 := Take(s, steps[0]);
      StepIsHistory(s, steps[0]);
      HistoryUnfolds(steps, s.ticks);
      RunIsHistory(s1, steps[1..]);
      InARow(s.arrivals, Arrivals([steps[0]]), Arrivals(steps[1..]));
      InARow(Popped(s), Pops([steps[0]], s.ticks), Pops(steps[1..], s1.ticks));
      InARow(ReleasedAt(s.released), Fires([steps[0]]), Fires(steps[1..]));
    }
  }

  lemma InARow<T>(a: seq<T>, b: seq<T>, c: seq<T>)
    ensures (a + b) + c == a + (b + c)
  {
  }

  /** The packet of release i is the i-th that came, with the stamp it came with; it was
      taken at the i-th Pop, was due then or when its stamp and the delay in force were
      over, and left at the i-th Fire, not before. */
  lemma ReleaseFollowsSteps(initial: int, curve: seq<int>, start: nat, steps: seq<Step>, i: nat)
    requires Possible(Start(initial, curve, start), steps)
    requires i < |TakeAll(Start(initial, curve, start), steps).released|
    ensures i < |Arrivals(steps)| && i < |Pops(steps, 0)| && i < |Fires(steps)|
    ensures var r := TakeAll(Start(initial, curve, start), steps).released[i];
      var (popped, ticks) := Pops(steps, 0)[i];
      var ready := Arrivals(steps)[i].stamp + 1000 * InForce(initial, curve, ticks);
      && r.timed.item == Arrivals(steps)[i]
      && r.timed.due == (if popped < ready then ready else popped)
      && r.at == Fires(steps)[i] >= r.timed.due
  {
    hide TakeAll, Possible, InForce, Pops, Arrivals, Fires, Turned;
    var s0 := Start(initial, curve, start);
    var s := TakeAll(s0, steps);
    RunIsHistory(s0, steps);
    NeverEarly(initial, curve, start, steps, i);
    StartedRunIsLawful(initial, curve, start, steps);
    assert Popped(s0) == [] && ReleasedAt(s0.released) == [];
    assert s.arrivals == Arrivals(steps) && Popped(s) == Pops(steps, 0) && ReleasedAt(s.released) == Fires(steps);
    assert Popped(s)[i] == (s.released[i].timed.popped, s.released[i].timed.ticks);
    assert s.arrivals[i] == Items(s.released)[i];
  }

  /** A delay of 10 milliseconds counts from the stamp of a packet, not from its coming. */
  lemma DelayCountsFromStamp(f: Frame)
    ensures var s1 := Take(Start(10, [], 0), Arrive(5000, f, 0));
      Take(s1, Pop(5000)).timer == Some(Timed(Item(f, 0, 5000), 5000, 10, 0, 10000))
  {
  }

  // ---------- Ideal time ----------

  /** The delay changes as soon as it is due, the first time at the start. */
  ghost predicate PromptTicks(s: Line, steps: seq<Step>)
    requires Possible(s, steps)
    decreases |steps|
  {
    steps != [] ==>
      && (if steps[0].Tick? then steps[0].now == s.nextTick else steps[0].now < s.nextTick)
      && PromptTicks(Take(s, steps[0]), steps[1..])
  }

  /** So many seconds have begun as there were changes. */
  ghost predicate OnSchedule(start: nat, s: Line) {
    && s.nextTick == start + SECOND * s.ticks
    && if s.ticks == 0 then s.clock == start else start + SECOND * (s.ticks - 1) <= s.clock < s.nextTick
  }

  lemma {:induction false} StaysOnSchedule(start: nat, s: Line, steps: seq<Step>)
    requires Possible(s, steps) && PromptTicks(s, steps) && OnSchedule(start, s)
    ensures OnSchedule(start, TakeAll(s, steps)) && s.ticks <= TakeAll(s, steps).ticks
    ensures steps != [] ==> TakeAll(s, steps).ticks > 0
    decreases |steps|
  {
    if steps != [] {
      StaysOnSchedule(start, Take(s, steps[0]), steps[1..]);
    }
  }

  lemma WholeSeconds(elapsed: nat, k: nat)
    requires SECOND * k <= elapsed < SECOND * (k + 1)
    ensures elapsed / SECOND == k
  {
  }

  /** In ideal time the delay s seconds after the start is value s of the curve taken
      round and round. */
  lemma DelayKeepsSchedule(initial: int, curve: seq<int>, start: nat, steps: seq<Step>)
    requires Possible(Start(initial, curve, start), steps) && curve != [] && steps != []
    requires PromptTicks(Start(initial, curve, start), steps)
    ensures var s := TakeAll(Start(initial, curve, start), steps);
      start <= s.clock && s.delay == curve[((s.clock - start) / 1_000_000) % |curve|]
  {
    hide TakeAll, Possible, PromptTicks;
    var s := TakeAll(Start(initial, curve, start), steps);
    StaysOnSchedule(start, Start(initial, curve, start), steps);
    DelayFollowsCurve(initial, curve, start, steps);
    WholeSeconds(s.clock - start, s.ticks - 1);
  }

  /** The packet was taken as soon as it was there and the one before had left, and
      left when due. */
  ghost predicate PromptAt(released: seq<Release>, i: nat)
    requires i < |released|
  {
    var r := released[i];
    && r.at == r.timed.due
    && r.timed.popped ==
      if i > 0 && r.timed.item.arrived < released[i - 1].at then released[i - 1].at else r.timed.item.arrived
  }

  ghost predicate Prompt(released: seq<Release>) {
    forall i :: 0 <= i < |released| ==> PromptAt(released, i)
  }

  /** The packet came to the filter before its delay was over. */
  predicate CameInTime(delay: int, item: Item) {
    item.arrived <= item.stamp + 1000 * delay
  }

  /** In ideal time, when stamps are in order, a static delay lets every packet go at
      exactly its stamp plus the delay if and only if every packet came by then. */
  lemma StaticDelayIsExact(delay: int, start: nat, steps: seq<Step>)
    requires Possible(Start(delay, [], start), steps)
    requires var released := TakeAll(Start(delay, [], start), steps).released;
      && Prompt(released)
      && forall i, j :: 0 <= i < j < |released| ==> released[i].timed.item.stamp <= released[j].timed.item.stamp
    ensures var released := TakeAll(Start(delay, [], start), steps).released;
      (forall i :: 0 <= i < |released| ==> released[i].at == released[i].timed.item.stamp + 1000 * delay) <==>
      (forall i :: 0 <= i < |released| ==> CameInTime(delay, released[i].timed.item))
  {
    hide Releases, Prompt;
    var released := TakeAll(Start(delay, [], start), steps).released;
    StartedRunIsLawful(delay, [], start, steps);
    if forall i :: 0 <= i < |released| ==> CameInTime(delay, released[i].timed.item) {
      forall i | 0 <= i < |released|
        ensures released[i].at == released[i].timed.item.stamp + 1000 * delay
      {
        LeavesOnTime(delay, released, i);
      }
    } else {
      var i :| 0 <= i < |released| && !CameInTime(delay, released[i].timed.item);
      NotBeforeArrival(delay, released, i);
    }
  }

  lemma NotBeforeArrival(initial: int, released: seq<Release>, i: nat)
    requires Releases(initial, [], released) && i < |released|
    ensures released[i].timed.item.arrived <= released[i].at
  {
    assert TimedWell(initial, [], released[i].timed);
  }

  lemma {:induction false} LeavesOnTime(delay: int, released: seq<Release>, i: nat)
    requires Releases(delay, [], released) && Prompt(released) && i < |released|
    requires forall i, j :: 0 <= i < j < |released| ==> released[i].timed.item.stamp <= released[j].timed.item.stamp
    requires forall i :: 0 <= i < |released| ==> CameInTime(delay, released[i].timed.item)
    ensures released[i].at == released[i].timed.item.stamp + 1000 * delay
  {
    var r := released[i];
    assert TimedWell(delay, [], r.timed) && PromptAt(released, i) && CameInTime(delay, r.timed.item);
    if i > 0 {
      LeavesOnTime(delay, released, i - 1);
      assert released[i - 1].timed.item.stamp <= r.timed.item.stamp;
    }
    assert r.timed.popped <= r.timed.item.stamp + 1000 * delay;
  }
}
