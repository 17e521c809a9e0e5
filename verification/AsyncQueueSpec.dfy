// The asynchronous queue as interleaved critical sections: no wakeup is lost, and
// a consumer that asks again only after its handler ran gets everything in order.

module AsyncQueueSpec {
  import opened Packets

  /** What the mutex protects. A callback is the id of who registered it. */
  datatype Queue<D> = Queue(items: seq<D>, callback: Option<nat>, stopped: bool, niceStopped: bool)

  /** What a callback is posted with. */
  datatype Result<D> = Ok(data: D) | Stopped

  // ---------- Critical sections ----------

  predicate Open<D>(q: Queue<D>) {
    !q.stopped && !q.niceStopped
  }

  function Push<D>(q: Queue<D>, d: D): Queue<D> {
    if Open(q) then q.(items := q.items + [d]) else q
  }

  function Register<D>(q: Queue<D>, id: nat): Queue<D> {
    if q.stopped then q else q.(callback := Some(id))
  }

  function NiceClose<D>(q: Queue<D>): Queue<D> {
    q.(niceStopped := true)
  }

  /** The first section of tryPop takes an item and a callback if there are both. */
  predicate Pops<D>(q: Queue<D>) {
    q.items != [] && q.callback.Some?
  }

  function Pop<D>(q: Queue<D>): Queue<D> {
    if Pops(q) then q.(items := q.items[1..], callback := None) else q
  }

  /** The second section of tryPop, entered when the first took nothing. */
  predicate Stops<D>(q: Queue<D>) {
    q.items == [] && q.niceStopped && q.callback.Some?
  }

  function Stop<D>(q: Queue<D>): Queue<D> {
    if Stops(q) then q.(callback := None) else q
  }

  function Close<D>(q: Queue<D>): Queue<D> {
    if q.stopped then q else Queue([], None, true, q.niceStopped)
  }

  // ---------- Any callers ----------

  /** The queue and how many callers are about to enter each section of tryPop. */
  datatype Callers<D> = Callers(q: Queue<D>, first: nat, second: nat)

  datatype Section<D> = PushS(d: D) | RegisterS(id: nat) | NiceCloseS | CloseS | FirstS | SecondS

  function Enter<D>(s: Callers<D>, step: Section<D>): Callers<D> {
    match step
    case PushS(d) => Callers(Push(s.q, d), s.first + (if Open(s.q) then 1 else 0), s.second)
    case RegisterS(id) => Callers(Register(s.q, id), s.first + (if s.q.stopped then 0 else 1), s.second)
    case NiceCloseS => Callers(NiceClose(s.q), s.first + 1, s.second)
    case CloseS => s.(q := Close(s.q))
    case FirstS =>
      if s.first == 0 then s
      else Callers(Pop(s.q), s.first - 1, s.second + (if Pops(s.q) then 0 else 1))
    case SecondS => if s.second == 0 then s else Callers(Stop(s.q), s.first, s.second - 1)
  }

  function EnterAll<D>(s: Callers<D>, steps: seq<Section<D>>): Callers<D>
    decreases |steps|
  {
    if steps == [] then s else EnterAll(Enter(s, steps[0]), steps[1..])
  }

  /** Whoever could be served has a caller on the way to serve him. */
  ghost predicate Served<D>(s: Callers<D>) {
    && (s.q.items != [] && s.q.callback.Some? ==> s.first > 0)
    && (s.q.items == [] && s.q.niceStopped && s.q.callback.Some? ==> s.first + s.second > 0)
  }

  /** Under any interleaving, a queue with items never has a callback waiting unless
      some caller has its tryPop still to run, and neither has a queue that is
      stopping and empty. */
  lemma {:induction false} NoLostWakeup<D>(s: Callers<D>, steps: seq<Section<D>>)
    requires Served(s)
    ensures Served(EnterAll(s, steps))
    decreases |steps|
  {
    if steps != [] {
      NoLostWakeup(Enter(s, steps[0]), steps[1..]);
    }
  }

  // ---------- One consumer ----------

  /** About to ask, waiting for an item, item taken but not yet posted, handler
      posted with an item, handler posted with stopped, told that it stopped. */
  datatype Consumer<D> = Ready | Waiting | Taken(d: D) | Posted(d: D) | PostedStop | Told

  /** Accepted and delivered items, and those a close threw away. */
  datatype System<D> = System(
    c: Callers<D>, consumer: Consumer<D>, accepted: seq<D>, delivered: seq<D>, discarded: seq<D>)

  datatype Step<D> = Offer(d: D) | Ask | CloseNicely | CloseNow | TryFirst | TrySecond | Post | RunHandler

  predicate Enabled<D>(s: System<D>, step: Step<D>) {
    match step
    case Ask => s.consumer.Ready?
    case TryFirst => s.c.first > 0
    case TrySecond => s.c.second > 0
    case Post => s.consumer.Taken?
    case RunHandler => s.consumer.Posted? || s.consumer.PostedStop?
    case _ => true
  }

  function Take<D>(s: System<D>, step: Step<D>): System<D>
    requires Enabled(s, step)
  {
    var q := s.c.q;
    match step
    case Offer(d) => s.(c := Enter(s.c, PushS(d)), accepted := s.accepted + if Open(q) then [d] else [])
    case Ask => s.(c := Enter(s.c, RegisterS(0)), consumer := if q.stopped then PostedStop else Waiting)
    case CloseNicely => s.(c := Enter(s.c, NiceCloseS))
    case CloseNow =>
      s.(c := Enter(s.c, CloseS),
         consumer := if !q.stopped && q.callback.Some? then PostedStop else s.consumer,
         discarded := if q.stopped then s.discarded else q.items)
    case TryFirst => s.(c := Enter(s.c, FirstS), consumer := if Pops(q) then Taken(q.items[0]) else s.consumer)
    case TrySecond => s.(c := Enter(s.c, SecondS), consumer := if Stops(q) then PostedStop else s.consumer)
    case Post => s.(consumer := Posted(s.consumer.d))
    case RunHandler =>
      if s.consumer.Posted? then s.(consumer := Ready, delivered := s.delivered + [s.consumer.d])
      else s.(consumer := Told)
  }

  /** Every step of a run is enabled when it is taken. */
  ghost predicate Possible<D>(s: System<D>, steps: seq<Step<D>>)
    decreases |steps|
  {
    steps != [] ==> Enabled(s, steps[0]) && Possible(Take(s, steps[0]), steps[1..])
  }

  function TakeAll<D>(s: System<D>, steps: seq<Step<D>>): System<D>
    requires Possible(s, steps)
    decreases |steps|
  {
    if steps == [] then s else TakeAll(Take(s, steps[0]), steps[1..])
  }

  function Start<D>(): System<D> {
    System(Callers(Queue([], None, false, false), 0, 0), Ready, [], [], [])
  }

  /** The item on its way to the consumer. */
  function InHand<D>(c: Consumer<D>): seq<D> {
    match c
    case Taken(d) => [d]
    case Posted(d) => [d]
    case _ => []
  }

  ghost predicate Sound<D>(s: System<D>) {
    && Served(s.c)
    && (s.c.q.callback.Some? <==> s.consumer.Waiting?)
    && s.delivered + InHand(s.consumer) + s.c.q.items + s.discarded == s.accepted
    && (s.c.q.stopped ==> s.c.q.items == [])
    && (!s.c.q.stopped ==> s.discarded == [])
    && (s.consumer.PostedStop? || s.consumer.Told? ==> s.c.q.items == [] && !Open(s.c.q))
  }

  lemma OfferIsSound<D>(s: System<D>, d: D)
    requires Sound(s)
    ensures Sound(Take(s, Offer(d)))
  {
    var s' := Take(s, Offer(d));
    if Open(s.c.q) {
      assert s.discarded == [];
      assert s'.accepted == (s.delivered + InHand(s.consumer) + s.c.q.items) + [d];
    }
  }

  lemma CallIsSound<D>(s: System<D>, step: Step<D>)
    requires Sound(s) && Enabled(s, step) && (step.Ask? || step.CloseNicely?)
    ensures Sound(Take(s, step))
  {
  }

  lemma CloseNowIsSound<D>(s: System<D>)
    requires Sound(s)
    ensures Sound(Take(s, CloseNow))
  {
  }

  lemma TryFirstIsSound<D>(s: System<D>)
    requires Sound(s) && Enabled(s, TryFirst)
    ensures Sound(Take(s, TryFirst))
  {
    var s' := Take(s, TryFirst);
    if Pops(s.c.q) {
      assert s.c.q.items == [s.c.q.items[0]] + s'.c.q.items;
    }
  }

  lemma HandingIsSound<D>(s: System<D>, step: Step<D>)
    requires Sound(s) && Enabled(s, step) && (step.TrySecond? || step.Post? || step.RunHandler?)
    ensures Sound(Take(s, step))
  {
  }

  lemma StepIsSound<D>(s: System<D>, step: Step<D>)
    requires Sound(s) && Enabled(s, step)
    ensures Sound(Take(s, step))
  {
    hide Sound, Take;
    match step
    case Offer(d) => OfferIsSound(s, d);
    case Ask => CallIsSound(s, step);
    case CloseNicely => CallIsSound(s, step);
    case CloseNow => CloseNowIsSound(s);
    case TryFirst => TryFirstIsSound(s);
    case _ => HandingIsSound(s, step);
  }

  lemma {:induction false} RunIsSound<D>(s: System<D>, steps: seq<Step<D>>)
    requires Sound(s) && Possible(s, steps)
    ensures Sound(TakeAll(s, steps))
    decreases |steps|
  {
    if steps != [] {
      StepIsSound(s, steps[0]);
      RunIsSound(Take(s, steps[0]), steps[1..]);
    }
  }

  /** At every moment the items delivered are a prefix of the items accepted: each
      once, in the order they were pushed. Without a close nothing is lost. */
  lemma DeliversInOrder<D>(steps: seq<Step<D>>)
    requires Possible(Start<D>(), steps)
    ensures var s := TakeAll(Start<D>(), steps);
      && s.delivered <= s.accepted
      && (!s.c.q.stopped ==> s.delivered + InHand(s.consumer) + s.c.q.items == s.accepted)
  {
    RunIsSound(Start<D>(), steps);
    var s := TakeAll(Start<D>(), steps);
    var rest := InHand(s.consumer) + s.c.q.items + s.discarded;
    assert s.delivered + rest == s.accepted;
  }

  // ---------- A nice close ends ----------

  /** The steps of the queue, its callers and the consumer; the others are new calls. */
  predicate Internal<D>(step: Step<D>) {
    step.Ask? || step.TryFirst? || step.TrySecond? || step.Post? || step.RunHandler?
  }

  function Work<D>(s: System<D>): nat {
    8 * |s.c.q.items| + 2 * s.c.first + s.c.second +
    match s.consumer
    case Ready => 5
    case Waiting => 2
    case Taken(_) => 7
    case Posted(_) => 6
    case PostedStop => 1
    case Told => 0
  }

  lemma InternalStepIsWork<D>(s: System<D>, step: Step<D>)
    requires Sound(s) && Enabled(s, step) && Internal(step)
    ensures Work(Take(s, step)) < Work(s)
  {
  }

  /** Once no more calls come, the steps run out. */
  lemma {:induction false} InternalRunsEnd<D>(s: System<D>, steps: seq<Step<D>>)
    requires Sound(s) && Possible(s, steps) && forall step :: step in steps ==> Internal(step)
    ensures |steps| + Work(TakeAll(s, steps)) <= Work(s)
    decreases |steps|
  {
    if steps != [] {
      InternalStepIsWork(s, steps[0]);
      StepIsSound(s, steps[0]);
      InternalRunsEnd(Take(s, steps[0]), steps[1..]);
    }
  }

  /** A closing queue refuses pushes, and being closed again changes nothing. */
  lemma {:induction false} ClosingKeepsFlags<D>(s: System<D>, steps: seq<Step<D>>)
    requires Possible(s, steps) && CloseNow !in steps && s.c.q.niceStopped
    ensures var s' := TakeAll(s, steps);
      s'.c.q.niceStopped && s'.c.q.stopped == s.c.q.stopped && s'.accepted == s.accepted
    decreases |steps|
  {
    if steps != [] {
      assert steps[0] != CloseNow && CloseNow !in steps[1..];
      ClosingKeepsFlags(Take(s, steps[0]), steps[1..]);
    }
  }

  function CountInternal<D>(steps: seq<Step<D>>): nat {
    if steps == [] then 0 else (if Internal(steps[0]) then 1 else 0) + CountInternal(steps[1..])
  }

  function CountCloses<D>(steps: seq<Step<D>>): nat {
    if steps == [] then 0 else (if steps[0].CloseNicely? then 1 else 0) + CountCloses(steps[1..])
  }

  lemma ClosingStepIsWork<D>(s: System<D>, step: Step<D>)
    requires Sound(s) && Enabled(s, step) && s.c.q.niceStopped && !step.CloseNow?
    ensures Work(Take(s, step)) + (if Internal(step) then 1 else 0) <= Work(s) + if step.CloseNicely? then 2 else 0
  {
    if Internal(step) {
      InternalStepIsWork(s, step);
    }
  }

  /** After a nice close, however many pushes are refused and however often the queue
      is closed again, the steps of the queue and the consumer run out. */
  lemma {:induction false} ClosingRunsEnd<D>(s: System<D>, steps: seq<Step<D>>)
    requires Sound(s) && s.c.q.niceStopped && Possible(s, steps) && CloseNow !in steps
    ensures CountInternal(steps) + Work(TakeAll(s, steps)) <= Work(s) + 2 * CountCloses(steps)
    decreases |steps|
  {
    if steps != [] {
      assert steps[0] != CloseNow && CloseNow !in steps[1..];
      ClosingStepIsWork(s, steps[0]);
      StepIsSound(s, steps[0]);
      ClosingRunsEnd(Take(s, steps[0]), steps[1..]);
    }
  }

  /** After a nice close, when the steps have run out, the consumer has been given
      every item accepted and then been told that the queue stopped, whatever else is
      called meanwhile but close. */
  lemma NiceCloseDelivers<D>(s: System<D>, steps: seq<Step<D>>)
    requires Sound(s) && s.c.q.niceStopped && !s.c.q.stopped
    requires Possible(s, steps) && CloseNow !in steps
    requires forall step: Step<D> :: Internal(step) ==> !Enabled(TakeAll(s, steps), step)
    ensures TakeAll(s, steps).consumer == Told && TakeAll(s, steps).delivered == s.accepted
  {
    var s' := TakeAll(s, steps);
    RunIsSound(s, steps);
    ClosingKeepsFlags(s, steps);
    assert !Enabled(s', Ask) && !Enabled(s', TryFirst) && !Enabled(s', TrySecond);
    assert !Enabled(s', Post) && !Enabled(s', RunHandler);
  }

  /** The items offered before the first close of either kind. */
  function Offered<D>(steps: seq<Step<D>>): seq<D> {
    if steps == [] || steps[0].CloseNicely? || steps[0].CloseNow? then []
    else (if steps[0].Offer? then [steps[0].d] else []) + Offered(steps[1..])
  }

  /** Whether a run accepts more items depends on the closes in it; what it accepts is
      what was offered before the first. */
  lemma {:induction false} AcceptedAreOffered<D>(s: System<D>, steps: seq<Step<D>>)
    requires Possible(s, steps)
    ensures TakeAll(s, steps).accepted == s.accepted + if Open(s.c.q) then Offered(steps) else []
    decreases |steps|
  {
    hide Take, Enabled, Open;
    Nothing(s.accepted);
    if steps != [] {
      var s1, rest := Take(s, steps[0]), steps[1..];
      var own := if Open(s.c.q) && steps[0].Offer? then [steps[0].d] else [];
      StepAccepts(s, steps[0]);
      AcceptedAreOffered(s1, rest);
      if Open(s.c.q) && Open(s1.c.q) {
        OneThenRest(s.accepted, own, Offered(rest));
      } else {
        Nothing(s1.accepted);
      }
    }
  }

  lemma Nothing<D>(a: seq<D>)
    ensures a + [] == a
  {
  }

  lemma OneThenRest<D>(a: seq<D>, b: seq<D>, c: seq<D>)
    ensures (a + b) + c == a + (b + c)
  {
  }

  lemma {:induction false} ClosesAreSteps<D>(s: System<D>, steps: seq<Step<D>>)
    requires Possible(s, steps)
    ensures TakeAll(s, steps).c.q.niceStopped <==> s.c.q.niceStopped || CloseNicely in steps
    ensures TakeAll(s, steps).c.q.stopped <==> s.c.q.stopped || CloseNow in steps
    decreases |steps|
  {
    hide Take, Enabled;
    if steps != [] {
      StepAccepts(s, steps[0]);
      ClosesAreSteps(Take(s, steps[0]), steps[1..]);
      FirstOrLater(steps, CloseNicely);
      FirstOrLater(steps, CloseNow);
    }
  }

  lemma FirstOrLater<D>(steps: seq<Step<D>>, step: Step<D>)
    requires steps != []
    ensures step in steps <==> step == steps[0] || step in steps[1..]
  {
  }

  lemma StepAccepts<D>(s: System<D>, step: Step<D>)
    requires Enabled(s, step)
    ensures var s' := Take(s, step);
      && s'.accepted == s.accepted + (if Open(s.c.q) && step.Offer? then [step.d] else [])
      && (s'.c.q.niceStopped <==> s.c.q.niceStopped || step.CloseNicely?)
      && (s'.c.q.stopped <==> s.c.q.stopped || step.CloseNow?)
      && (Open(s'.c.q) <==> Open(s.c.q) && !step.CloseNicely? && !step.CloseNow?)
  {
  }

  /** From the start: when a run has closed the queue nicely and not otherwise, and its
      steps have run out, the consumer has been given exactly the items offered before
      the first close, in order, and then been told that the queue stopped. */
  lemma NicelyClosedRun<D>(steps: seq<Step<D>>)
    requires Possible(Start<D>(), steps) && CloseNicely in steps && CloseNow !in steps
    requires forall step: Step<D> :: Internal(step) ==> !Enabled(TakeAll(Start<D>(), steps), step)
    ensures TakeAll(Start<D>(), steps).consumer == Told && TakeAll(Start<D>(), steps).delivered == Offered(steps)
  {
    var s := TakeAll(Start<D>(), steps);
    RunIsSound(Start<D>(), steps);
    AcceptedAreOffered(Start<D>(), steps);
    ClosesAreSteps(Start<D>(), steps);
    assert [] + Offered(steps) == Offered(steps);
    NiceCloseDelivers(s, []);
  }
}
