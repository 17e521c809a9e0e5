// The token bucket on values: what a timer run and an arrival do, how many bytes
// any stretch of a run can let through, and why what is queued gets out.

module TokenBucketSpec {
  import opened Frames

  const TWO32 := 0x1_0000_0000
  const TWO64 := 0x1_0000_0000_0000_0000

  type U32 = x: int | 0 <= x < 0x1_0000_0000
  type U64 = x: int | 0 <= x < 0x1_0000_0000_0000_0000

  /** Bytes of credit, packets queued, kbit per second, and the queue length at which early drop sets in. */
  datatype Limits = Limits(maxTokens: U32, maxPackets: U32, dataRate: U32, redStart: U32)

  datatype Bucket = Bucket(tokens: U32, queue: seq<Frame>, timerStart: U64)

  /** A timer run reads the clock twice; an arrival draws a number from 0 to 1. */
  datatype Event = Run(now: U64, again: U64) | Arrive(frame: Frame, r: real)

  // ---------- One event ----------

  /** Bytes credited for a time in microseconds, in 64-bit arithmetic. */
  function Credit(limits: Limits, diff: U64): nat {
    (limits.dataRate * diff) % TWO64 / 1000 / 8
  }

  /** The sum is cut to 32 bits before it is capped. */
  function AddTokens(limits: Limits, tokens: U32, diff: U64): U32 {
    if tokens < limits.maxTokens then
      var t := (tokens + Credit(limits, diff)) % TWO32;
      if t > limits.maxTokens then limits.maxTokens else t
    else tokens
  }

  /** How many packets at the front the tokens pay for. */
  function Affordable(tokens: nat, queue: seq<Frame>): (n: nat)
    ensures n <= |queue| && Bytes(queue[..n]) <= tokens
    ensures n < |queue| ==> tokens < Bytes(queue[..n]) + queue[n].len
  {
    if queue == [] || queue[0].len > tokens then 0
    else
      var n := 1 + Affordable(tokens - queue[0].len, queue[1..]);
      assert queue[..n] == [queue[0]] + queue[1..][..n - 1];
      n
  }

  lemma AffordableUnfolds(tokens: nat, queue: seq<Frame>)
    ensures Affordable(tokens, queue) ==
      if queue != [] && queue[0].len <= tokens then 1 + Affordable(tokens - queue[0].len, queue[1..]) else 0
  {
  }

  /** Sends what the tokens pay for. */
  function TrySend(b: Bucket): (Bucket, seq<Frame>) {
    var n := Affordable(b.tokens, b.queue);
    (b.(tokens := b.tokens - Bytes(b.queue[..n]), queue := b.queue[n..]), b.queue[..n])
  }

  /** A packet as long as the tokens is sent. */
  lemma SendsOnEquality(f: Frame, start: U64)
    requires f.len < TWO32
    ensures TrySend(Bucket(f.len, [f], start)) == (Bucket(0, [], start), [f])
  {
    AffordableUnfolds(f.len, [f]);
    AffordableUnfolds(0, []);
    assert [f][1..] == [] && [f][..1] == [f] && Bytes([f]) == f.len;
  }

  /** Whether an arriving packet is queued, given the drawn number. */
  predicate Accepts(limits: Limits, queue: seq<Frame>, r: real) {
    && |queue| < limits.maxPackets
    && (|queue| < limits.redStart
      || r > ((|queue| - limits.redStart) / (limits.maxPackets - limits.redStart)) as real)
  }

  /** Time since the last run, in 64-bit arithmetic. */
  function Elapsed(b: Bucket, now: U64): U64 {
    (now - b.timerStart) % TWO64
  }

  function Receive(limits: Limits, b: Bucket, e: Event): Bucket {
    match e
    case Run(now, again) => b.(tokens := AddTokens(limits, b.tokens, Elapsed(b, now)), timerStart := again)
    case Arrive(f, r) => if Accepts(limits, b.queue, r) then b.(queue := b.queue + [f]) else b
  }

  function Step(limits: Limits, b: Bucket, e: Event): (Bucket, seq<Frame>) {
    TrySend(Receive(limits, b, e))
  }

  /** The bucket after some events, and what it sent meanwhile. */
  function After(limits: Limits, b: Bucket, evs: seq<Event>): (Bucket, seq<Frame>)
    decreases |evs|
  {
    if evs == [] then (b, [])
    else
      var (b1, sent1) := Step(limits, b, evs[0]);
      var (b2, sent2) := After(limits, b1, evs[1..]);
      (b2, sent1 + sent2)
  }

  /** Early drop drops only on the draw of exactly 0: below the full queue the
      quotient it compares with is 0. */
  lemma EarlyDropNeedsZero(limits: Limits, queue: seq<Frame>, r: real)
    ensures Accepts(limits, queue, r) <==> |queue| < limits.maxPackets && (|queue| < limits.redStart || r > 0.0)
  {
    if limits.redStart <= |queue| < limits.maxPackets {
      assert (|queue| - limits.redStart) / (limits.maxPackets - limits.redStart) == 0;
    }
  }

  /** A timer run in numbers: the time since the last run, or that time with 2^64 added
      when the clock went back, earns rate times time in 64 bits over 8000 bytes; a
      bucket that is not full gets the sum in 32 bits, up to its limit. */
  lemma RunInNumbers(limits: Limits, b: Bucket, now: U64, again: U64)
    ensures
      var micros := now - b.timerStart + if b.timerStart <= now then 0 else 0x1_0000_0000_0000_0000;
      var sum := (b.tokens + limits.dataRate * micros % 0x1_0000_0000_0000_0000 / 8000) % 0x1_0000_0000;
      var full :=
        if b.tokens >= limits.maxTokens then b.tokens else if sum > limits.maxTokens then limits.maxTokens else sum;
      var (b', sent) := Step(limits, b, Run(now, again));
      && b'.timerStart == again && sent + b'.queue == b.queue
      && b'.tokens + Bytes(sent) == full
      && (b'.queue != [] ==> b'.tokens < b'.queue[0].len)
  {
    hide Affordable, Credit, AddTokens;
    ElapsedInNumbers(b, now);
    TokensInNumbers(limits, b.tokens, Elapsed(b, now));
    StepInOrder(limits, b, Run(now, again));
  }

  lemma ElapsedInNumbers(b: Bucket, now: U64)
    ensures Elapsed(b, now) == now - b.timerStart + if b.timerStart <= now then 0 else 0x1_0000_0000_0000_0000
  {
  }

  lemma TokensInNumbers(limits: Limits, tokens: U32, diff: U64)
    ensures var sum := (tokens + limits.dataRate * diff % 0x1_0000_0000_0000_0000 / 8000) % 0x1_0000_0000;
      AddTokens(limits, tokens, diff) ==
        if tokens >= limits.maxTokens then tokens else if sum > limits.maxTokens then limits.maxTokens else sum
  {
    DivTwice(limits.dataRate * diff % TWO64);
  }

  /** The bucket as it is set up, with one packet waiting, after 4100 microseconds. */
  lemma DefaultBucketSends(id: nat, ingoing: bool)
    ensures var limits, f := Limits(8000, 30, 20480, 30), Frame(id, ingoing, 1500);
      Step(limits, Bucket(0, [f], 0), Run(4100, 4100)) == (Bucket(6500, [], 4100), [f])
  {
    var limits, f := Limits(8000, 30, 20480, 30), Frame(id, ingoing, 1500);
    RunInNumbers(limits, Bucket(0, [f], 0), 4100, 4100);
    var (b', sent) := Step(limits, Bucket(0, [f], 0), Run(4100, 4100));
    assert Bytes([f]) == 1500 && Bytes([]) == 0;
    assert |sent| + |b'.queue| == 1;
    if sent != [] {
      assert sent == [f];
    }
  }

  // ---------- State between events ----------

  /** Nothing is queued that the tokens pay for, and no limit is passed. */
  ghost predicate Settled(limits: Limits, b: Bucket) {
    && (b.queue != [] ==> b.tokens < b.queue[0].len)
    && b.tokens <= limits.maxTokens && |b.queue| <= limits.maxPackets
  }

  lemma {:induction false} StaysSettled(limits: Limits, b: Bucket, evs: seq<Event>)
    requires Settled(limits, b)
    ensures Settled(limits, After(limits, b, evs).0)
    decreases |evs|
  {
    if evs != [] {
      StaysSettled(limits, Step(limits, b, evs[0]).0, evs[1..]);
    }
  }

  /** The arrival an event queues, if any. */
  function Admitted(limits: Limits, b: Bucket, e: Event): seq<Frame> {
    if e.Arrive? && Accepts(limits, b.queue, e.r) then [e.frame] else []
  }

  /** The arrivals that are queued, in order. */
  function Accepted(limits: Limits, b: Bucket, evs: seq<Event>): seq<Frame>
    decreases |evs|
  {
    if evs == [] then []
    else Admitted(limits, b, evs[0]) + Accepted(limits, Step(limits, b, evs[0]).0, evs[1..])
  }

  lemma StepInOrder(limits: Limits, b: Bucket, e: Event)
    ensures var (b', sent) := Step(limits, b, e); sent + b'.queue == b.queue + Admitted(limits, b, e)
  {
  }

  /** What is sent, followed by what is queued, is what was queued and accepted, in order. */
  lemma {:induction false} FirstInFirstOut(limits: Limits, b: Bucket, evs: seq<Event>)
    ensures var (b', sent) := After(limits, b, evs);
      sent + b'.queue == b.queue + Accepted(limits, b, evs)
    decreases |evs|
  {
    hide Step, Admitted;
    if evs != [] {
      var (b1, sent1) := Step(limits, b, evs[0]);
      var (b2, sent2) := After(limits, b1, evs[1..]);
      var own, rest := Admitted(limits, b, evs[0]), Accepted(limits, b1, evs[1..]);
      StepInOrder(limits, b, evs[0]);
      FirstInFirstOut(limits, b1, evs[1..]);
      calc {
        (sent1 + sent2) + b2.queue;
        sent1 + (sent2 + b2.queue);
        sent1 + (b1.queue + rest);
        (sent1 + b1.queue) + rest;
        (b.queue + own) + rest;
        b.queue + (own + rest);
      }
    }
  }

  // ---------- The rate ----------

  /** The clock never goes back. */
  ghost predicate ClockRuns(b: Bucket, evs: seq<Event>)
    decreases |evs|
  {
    evs != [] ==>
      if evs[0].Run?
      then b.timerStart <= evs[0].now <= evs[0].again && ClockRuns(b.(timerStart := evs[0].again), evs[1..])
      else ClockRuns(b, evs[1..])
  }

  /** Bytes earned in some microseconds at the configured rate. */
  function Earned(limits: Limits, micros: nat): nat {
    limits.dataRate * micros / 8000
  }

  lemma CreditIsEarned(limits: Limits, diff: U64)
    ensures Credit(limits, diff) <= Earned(limits, diff)
  {
    var x := limits.dataRate * diff;
    assert x % TWO64 <= x;
    DivTwice(x % TWO64);
    DivMonotone(x % TWO64, x);
  }

  lemma DivTwice(x: nat)
    ensures x / 1000 / 8 == x / 8000
  {
  }

  lemma DivMonotone(x: nat, y: nat)
    requires x <= y
    ensures x / 8000 <= y / 8000
  {
  }

  /** Rounding down piece by piece never gives more than rounding down once. */
  lemma EarnedInPieces(limits: Limits, a: nat, b: nat)
    ensures Earned(limits, a) + Earned(limits, b) <= Earned(limits, a + b)
  {
    assert limits.dataRate * (a + b) == limits.dataRate * a + limits.dataRate * b;
  }

  lemma EarnedMonotone(limits: Limits, a: nat, b: nat)
    requires a <= b
    ensures Earned(limits, a) <= Earned(limits, b)
  {
    EarnedInPieces(limits, a, b - a);
  }

  /** Tokens after a timer run, before anything is sent. */
  lemma TokensAdded(limits: Limits, tokens: U32, diff: U64)
    ensures AddTokens(limits, tokens, diff) <= tokens + Credit(limits, diff)
    ensures tokens < limits.maxTokens && tokens + Credit(limits, diff) < TWO32 ==>
      AddTokens(limits, tokens, diff) ==
        if tokens + Credit(limits, diff) < limits.maxTokens then tokens + Credit(limits, diff) else limits.maxTokens
  {
    hide Credit;
    var t := tokens + Credit(limits, diff);
    assert t % TWO32 <= t;
    if t < TWO32 {
      assert t % TWO32 == t;
    }
  }

  lemma StepEarns(limits: Limits, b: Bucket, e: Event)
    requires e.Run? ==> b.timerStart <= e.now <= e.again
    ensures var (b', sent) := Step(limits, b, e);
      && b.timerStart <= b'.timerStart
      && b'.timerStart == (if e.Run? then e.again else b.timerStart)
      && b'.tokens + Bytes(sent) <= b.tokens + Earned(limits, b'.timerStart - b.timerStart)
  {
    hide Credit, Earned, AddTokens;
    if e.Run? {
      assert Elapsed(b, e.now) == e.now - b.timerStart;
      TokensAdded(limits, b.tokens, e.now - b.timerStart);
      CreditIsEarned(limits, e.now - b.timerStart);
      EarnedMonotone(limits, e.now - b.timerStart, e.again - b.timerStart);
    }
  }

  /** Over any stretch of any run the bytes sent and the tokens left come to no more
      than the tokens at its start and the bytes earned in the time between the
      timer runs it begins and ends with. Wrapped sums only make it less. */
  lemma {:induction false} RateBound(limits: Limits, b: Bucket, evs: seq<Event>)
    requires ClockRuns(b, evs)
    ensures var (b', sent) := After(limits, b, evs);
      && b.timerStart <= b'.timerStart
      && b'.tokens + Bytes(sent) <= b.tokens + Earned(limits, b'.timerStart - b.timerStart)
    decreases |evs|
  {
    hide Step, Earned;
    if evs == [] {
      StepEarns(limits, b, Arrive(Frame(0, false, 0), 0.0));
    } else {
      var (b1, sent1) := Step(limits, b, evs[0]);
      var (b2, sent2) := After(limits, b1, evs[1..]);
      StepEarns(limits, b, evs[0]);
      ClockIgnoresRest(b.(timerStart := b1.timerStart), b1, evs[1..]);
      RateBound(limits, b1, evs[1..]);
      BytesOfConcat(sent1, sent2);
      EarnedInPieces(limits, b1.timerStart - b.timerStart, b2.timerStart - b1.timerStart);
    }
  }

  lemma {:induction false} ClockIgnoresRest(b: Bucket, c: Bucket, evs: seq<Event>)
    requires b.timerStart == c.timerStart && ClockRuns(b, evs)
    ensures ClockRuns(c, evs)
    decreases |evs|
  {
    if evs != [] {
      if evs[0].Run? {
        ClockIgnoresRest(b.(timerStart := evs[0].again), c.(timerStart := evs[0].again), evs[1..]);
      } else {
        ClockIgnoresRest(b, c, evs[1..]);
      }
    }
  }

  /** A burst is at most the bucket; from an empty bucket there is none. */
  lemma BurstBound(limits: Limits, b: Bucket, evs: seq<Event>)
    requires ClockRuns(b, evs) && Settled(limits, b)
    ensures var (b', sent) := After(limits, b, evs);
      b.timerStart <= b'.timerStart
      && Bytes(sent) <= limits.maxTokens + Earned(limits, b'.timerStart - b.timerStart)
      && (b.tokens == 0 ==> Bytes(sent) <= Earned(limits, b'.timerStart - b.timerStart))
  {
    RateBound(limits, b, evs);
  }

  // ---------- Progress ----------

  /** The credit an event brings, capped or not. */
  function CreditOf(limits: Limits, b: Bucket, e: Event): nat {
    if e.Run? then Credit(limits, Elapsed(b, e.now)) else 0
  }

  function Credits(limits: Limits, b: Bucket, evs: seq<Event>): nat
    decreases |evs|
  {
    if evs == [] then 0
    else CreditOf(limits, b, evs[0]) + Credits(limits, Step(limits, b, evs[0]).0, evs[1..])
  }

  /** An event either brings the sum of tokens and credit, cut to 32 bits, up to the
      packet at the front, and sends that first, or leaves it there and keeps the sum. */
  lemma StepServesHead(limits: Limits, b: Bucket, e: Event)
    requires Settled(limits, b) && b.queue != [] && b.queue[0].len <= limits.maxTokens
    ensures var (b', sent) := Step(limits, b, e);
      var sum := (b.tokens + CreditOf(limits, b, e)) % TWO32;
      && Settled(limits, b')
      && if b.queue[0].len <= sum then sent != [] && sent[0] == b.queue[0]
         else sent == [] && b'.queue != [] && b'.queue[0] == b.queue[0] && b'.tokens == sum
  {
    hide Credit, AddTokens, Elapsed;
    var (b', sent) := Step(limits, b, e);
    StepInOrder(limits, b, e);
    StepStaysSettled(limits, b, e);
    SumIsCapped(limits, b, e);
    if sent == [] {
      assert b'.queue[0] == (sent + b'.queue)[0];
    }
  }

  /** A bucket that is not full holds the sum after an event, cut to 32 bits and capped. */
  lemma SumIsCapped(limits: Limits, b: Bucket, e: Event)
    requires b.tokens < limits.maxTokens
    ensures var sum := (b.tokens + CreditOf(limits, b, e)) % TWO32;
      Receive(limits, b, e).tokens == if sum > limits.maxTokens then limits.maxTokens else sum
  {
    hide Credit, Elapsed;
  }

  lemma StepStaysSettled(limits: Limits, b: Bucket, e: Event)
    requires Settled(limits, b)
    ensures Settled(limits, Step(limits, b, e).0)
  {
    hide Step, Settled;
    StaysSettled(limits, b, [e]);
    assert After(limits, b, [e]).0 == Step(limits, b, e).0;
  }

  /** The tokens and the credit of the first j events, cut to 32 bits, pay for the
      packet at the front. */
  ghost predicate Pays(limits: Limits, b: Bucket, evs: seq<Event>, j: int)
    requires b.queue != []
  {
    0 <= j <= |evs| && b.queue[0].len <= (b.tokens + Credits(limits, b, evs[..j])) % TWO32
  }

  lemma PaysOneStepOn(limits: Limits, b: Bucket, evs: seq<Event>, j: nat)
    requires Settled(limits, b) && b.queue != [] && b.queue[0].len <= limits.maxTokens
    requires evs != [] && Step(limits, b, evs[0]).1 == [] && j < |evs|
    ensures var b1 := Step(limits, b, evs[0]).0;
      b1.queue != [] && (Pays(limits, b, evs, j + 1) <==> Pays(limits, b1, evs[1..], j))
  {
    hide Step, CreditOf;
    StepServesHead(limits, b, evs[0]);
    var rest := Credits(limits, Step(limits, b, evs[0]).0, evs[1..][..j]);
    assert evs[..j + 1][1..] == evs[1..][..j];
    AddAfterCut(b.tokens + CreditOf(limits, b, evs[0]), rest);
  }

  lemma AddAfterCut(x: nat, y: nat)
    ensures (x % TWO32 + y) % TWO32 == (x + y) % TWO32
  {
  }

  /** The packet at the front leaves exactly when at some moment the tokens and the
      credit so far pay for it in 32-bit arithmetic, whatever arrives behind it; and
      it leaves first. */
  lemma {:induction false} HeadLeaves(limits: Limits, b: Bucket, evs: seq<Event>)
    requires Settled(limits, b) && b.queue != [] && b.queue[0].len <= limits.maxTokens
    ensures var sent := After(limits, b, evs).1;
      && (sent != [] <==> exists j :: Pays(limits, b, evs, j))
      && (sent != [] ==> sent[0] == b.queue[0])
    decreases |evs|
  {
    hide Step, CreditOf, Settled, Pays;
    if evs == [] {
      NothingPays(limits, b, evs);
    } else {
      var (b1, sent1) := Step(limits, b, evs[0]);
      StepServesHead(limits, b, evs[0]);
      if sent1 == [] {
        HeadLeaves(limits, b1, evs[1..]);
        if j :| Pays(limits, b, evs, j) {
          LaterPays(limits, b, evs, j);
        }
        if j :| Pays(limits, b1, evs[1..], j) {
          EarlierPays(limits, b, evs, j);
        }
      } else {
        OneEventPays(limits, b, evs);
      }
    }
  }

  lemma NothingPays(limits: Limits, b: Bucket, evs: seq<Event>)
    requires Settled(limits, b) && b.queue != []
    ensures !Pays(limits, b, evs, 0)
    ensures evs == [] ==> forall j :: !Pays(limits, b, evs, j)
  {
  }

  lemma LaterPays(limits: Limits, b: Bucket, evs: seq<Event>, j: int)
    requires Settled(limits, b) && b.queue != [] && b.queue[0].len <= limits.maxTokens
    requires evs != [] && Step(limits, b, evs[0]).1 == [] && Pays(limits, b, evs, j)
    ensures var b1 := Step(limits, b, evs[0]).0; b1.queue != [] && Pays(limits, b1, evs[1..], j - 1)
  {
    hide Step;
    NothingPays(limits, b, evs);
    PaysOneStepOn(limits, b, evs, j - 1);
  }

  lemma EarlierPays(limits: Limits, b: Bucket, evs: seq<Event>, j: int)
    requires Settled(limits, b) && b.queue != [] && b.queue[0].len <= limits.maxTokens
    requires evs != [] && Step(limits, b, evs[0]).1 == []
    requires var b1 := Step(limits, b, evs[0]).0; b1.queue != [] && Pays(limits, b1, evs[1..], j)
    ensures Pays(limits, b, evs, j + 1)
  {
    hide Step;
    PaysOneStepOn(limits, b, evs, j);
  }

  lemma OneEventPays(limits: Limits, b: Bucket, evs: seq<Event>)
    requires Settled(limits, b) && b.queue != [] && b.queue[0].len <= limits.maxTokens
    requires evs != [] && Step(limits, b, evs[0]).1 != []
    ensures Pays(limits, b, evs, 1)
  {
    hide Step, CreditOf;
    StepServesHead(limits, b, evs[0]);
    assert evs[..1][1..] == [] && evs[..1][0] == evs[0];
    assert Credits(limits, b, evs[..1]) == CreditOf(limits, b, evs[0]);
  }

  /** A timer run late enough for its credit to be a multiple of 2^32 brings nothing:
      here 2^32 microseconds at 8 Mbit/s. */
  lemma WrapHoldsHead(start: U64, maxPackets: U32, f: Frame)
    requires start + TWO32 < TWO64 && 0 < f.len <= 8000
    ensures
      var limits, b := Limits(8000, maxPackets, 8000, maxPackets), Bucket(0, [f], start);
      var evs := [Run(start + TWO32, start + TWO32)];
      Credits(limits, b, evs) == TWO32 && After(limits, b, evs).1 == []
  {
    var limits, b := Limits(8000, maxPackets, 8000, maxPackets), Bucket(0, [f], start);
    var e := Run(start + TWO32, start + TWO32);
    assert Credit(limits, TWO32) == TWO32;
    assert Receive(limits, b, e).tokens == 0;
    assert Credits(limits, b, [e]) == CreditOf(limits, b, e) + Credits(limits, Step(limits, b, e).0, []);
  }

  /** No sum of tokens and credit wraps. */
  ghost predicate NoWrap(limits: Limits, b: Bucket, evs: seq<Event>)
    decreases |evs|
  {
    evs != [] ==>
      && (b.tokens < limits.maxTokens ==> b.tokens + CreditOf(limits, b, evs[0]) < TWO32)
      && NoWrap(limits, Step(limits, b, evs[0]).0, evs[1..])
  }

  /** The packet at the front never leaves before the runs together bring the tokens it
      lacks, and when no sum wraps it leaves as soon as they do. */
  lemma {:induction false} HeadLeavesOnCredit(limits: Limits, b: Bucket, evs: seq<Event>)
    requires Settled(limits, b) && b.queue != [] && b.queue[0].len <= limits.maxTokens
    ensures var sent, lack := After(limits, b, evs).1, b.queue[0].len - b.tokens;
      && (sent != [] ==> lack <= Credits(limits, b, evs))
      && (NoWrap(limits, b, evs) ==> (sent != [] <==> lack <= Credits(limits, b, evs)))
    decreases |evs|
  {
    hide Step, CreditOf;
    if evs != [] {
      StepServesHead(limits, b, evs[0]);
      CutIsLess(b.tokens + CreditOf(limits, b, evs[0]));
      if Step(limits, b, evs[0]).1 == [] {
        HeadLeavesOnCredit(limits, Step(limits, b, evs[0]).0, evs[1..]);
      }
    }
  }

  lemma CutIsLess(x: nat)
    ensures x % TWO32 <= x && (x < TWO32 ==> x % TWO32 == x)
  {
  }

  /** Each run comes too soon after the one before to earn a token at this rate. */
  ghost predicate RunsTooOften(limits: Limits, b: Bucket, evs: seq<Event>)
    decreases |evs|
  {
    evs != [] ==>
      && (evs[0].Run? ==> limits.dataRate * Elapsed(b, evs[0].now) < 8000)
      && RunsTooOften(limits, Step(limits, b, evs[0]).0, evs[1..])
  }

  lemma SlowRunEarnsNothing(limits: Limits, b: Bucket, e: Event)
    ensures (e.Run? ==> limits.dataRate * Elapsed(b, e.now) < 8000) ==> CreditOf(limits, b, e) == 0
  {
    hide Elapsed;
  }

  lemma {:induction false} TooOftenEarnsNothing(limits: Limits, b: Bucket, evs: seq<Event>)
    requires RunsTooOften(limits, b, evs)
    ensures Credits(limits, b, evs) == 0
    decreases |evs|
  {
    hide Step, CreditOf, Elapsed;
    if evs != [] {
      SlowRunEarnsNothing(limits, b, evs[0]);
      TooOftenEarnsNothing(limits, Step(limits, b, evs[0]).0, evs[1..]);
    }
  }

  /** What a run does not earn is not kept for the next: runs a few milliseconds apart
      let nothing out at a low rate, however long they go on. */
  lemma LowRateStarves(limits: Limits, b: Bucket, evs: seq<Event>)
    requires Settled(limits, b) && RunsTooOften(limits, b, evs)
    requires b.queue != [] && b.queue[0].len <= limits.maxTokens
    ensures After(limits, b, evs).1 == []
  {
    TooOftenEarnsNothing(limits, b, evs);
    HeadLeavesOnCredit(limits, b, evs);
  }

  /** Timer runs 4 milliseconds apart. */
  function EveryFourMillis(start: U64, n: nat): seq<Event>
    requires start + 4000 * n < TWO64
    decreases n
  {
    if n == 0 then [] else [Run(start + 4000, start + 4000)] + EveryFourMillis(start + 4000, n - 1)
  }

  /** At 1 kbit/s such runs never send anything. */
  lemma OneKilobitStarves(b: Bucket, n: nat)
    requires b.tokens == 0 && 0 < |b.queue| <= 30 && 0 < b.queue[0].len <= 8000
    requires b.timerStart + 4000 * n < TWO64
    ensures After(Limits(8000, 30, 1, 30), b, EveryFourMillis(b.timerStart, n)).1 == []
  {
    FourMillisIsTooOften(Limits(8000, 30, 1, 30), b, n);
    LowRateStarves(Limits(8000, 30, 1, 30), b, EveryFourMillis(b.timerStart, n));
  }

  lemma {:induction false} FourMillisIsTooOften(limits: Limits, b: Bucket, n: nat)
    requires limits.dataRate <= 1 && b.timerStart + 4000 * n < TWO64
    ensures RunsTooOften(limits, b, EveryFourMillis(b.timerStart, n))
    decreases n
  {
    hide Step, Elapsed;
    if n > 0 {
      var now := b.timerStart + 4000;
      FourMillisPass(limits, b, now);
      FourMillisIsTooOften(limits, Step(limits, b, Run(now, now)).0, n - 1);
    }
  }

  lemma FourMillisPass(limits: Limits, b: Bucket, now: U64)
    requires now == b.timerStart + 4000
    ensures Elapsed(b, now) == 4000 && Step(limits, b, Run(now, now)).0.timerStart == now
  {
    hide AddTokens, Affordable;
  }

  /** While a packet waits, each timer run leaves the bucket with more tokens to send with. */
  ghost predicate Gains(limits: Limits, b: Bucket, evs: seq<Event>)
    decreases |evs|
  {
    evs != [] ==>
      && (evs[0].Run? && b.queue != [] && b.tokens < limits.maxTokens ==>
        b.tokens < Receive(limits, b, evs[0]).tokens)
      && Gains(limits, Step(limits, b, evs[0]).0, evs[1..])
  }

  function Runs(evs: seq<Event>): nat {
    if evs == [] then 0 else (if evs[0].Run? then 1 else 0) + Runs(evs[1..])
  }

  /** The packet at the front leaves within as many runs as it lacks tokens. */
  lemma {:induction false} HeadLeavesInTime(limits: Limits, b: Bucket, evs: seq<Event>)
    requires Settled(limits, b) && Gains(limits, b, evs)
    requires b.queue != [] && b.queue[0].len <= limits.maxTokens
    requires b.queue[0].len - b.tokens <= Runs(evs)
    ensures After(limits, b, evs).1 != [] && After(limits, b, evs).1[0] == b.queue[0]
    decreases |evs|
  {
    hide Step, CreditOf, Receive;
    assert b.tokens < b.queue[0].len;
    if evs != [] {
      StepServesHead(limits, b, evs[0]);
      SumIsCapped(limits, b, evs[0]);
      if Step(limits, b, evs[0]).1 == [] {
        if !evs[0].Run? {
          ArrivalBringsNothing(limits, b, evs[0]);
          CutIsLess(b.tokens);
        }
        HeadLeavesInTime(limits, Step(limits, b, evs[0]).0, evs[1..]);
      }
    }
  }

  /** When every packet fits the bucket and nothing more arrives, the queue is empty
      within as many runs as the whole queue lacks tokens. */
  lemma {:induction false} QueueDrains(limits: Limits, b: Bucket, evs: seq<Event>)
    requires Settled(limits, b) && Gains(limits, b, evs)
    requires forall e :: e in evs ==> e.Run?
    requires forall f :: f in b.queue ==> f.len <= limits.maxTokens
    requires Bytes(b.queue) - b.tokens <= |evs|
    ensures After(limits, b, evs).0.queue == [] && After(limits, b, evs).1 == b.queue
    decreases |evs|
  {
    hide Step, Settled;
    FirstInFirstOut(limits, b, evs);
    NothingAccepted(limits, b, evs);
    if b.queue == [] {
    } else if evs == [] {
      QueueLacksTokens(limits, b);
    } else {
      var (b1, sent1) := Step(limits, b, evs[0]);
      StepDrains(limits, b, evs[0]);
      assert forall f :: f in b1.queue ==> f in sent1 + b1.queue;
      QueueDrains(limits, b1, evs[1..]);
    }
  }

  lemma QueueLacksTokens(limits: Limits, b: Bucket)
    requires Settled(limits, b) && b.queue != []
    ensures b.tokens < Bytes(b.queue)
  {
  }

  /** A run that leaves packets queued brings their lack of tokens down. */
  lemma StepDrains(limits: Limits, b: Bucket, e: Event)
    requires Settled(limits, b) && Gains(limits, b, [e]) && e.Run? && b.queue != []
    requires forall f :: f in b.queue ==> f.len <= limits.maxTokens
    ensures var (b', sent) := Step(limits, b, e);
      && Settled(limits, b') && sent + b'.queue == b.queue
      && (b'.queue != [] ==> Bytes(b'.queue) - b'.tokens < Bytes(b.queue) - b.tokens)
  {
    hide Credit, AddTokens, Affordable;
    var (b', sent) := Step(limits, b, e);
    StepInOrder(limits, b, e);
    BytesOfConcat(sent, b'.queue);
    assert b.queue[0] in b.queue;
    StepStaysSettled(limits, b, e);
  }

  lemma {:induction false} NothingAccepted(limits: Limits, b: Bucket, evs: seq<Event>)
    requires forall e :: e in evs ==> e.Run?
    ensures Accepted(limits, b, evs) == []
    decreases |evs|
  {
    if evs != [] {
      NothingAccepted(limits, Step(limits, b, evs[0]).0, evs[1..]);
    }
  }

  // ---------- The ledger ----------

  /** The tokens of a sum that a bucket does not get: those cut off at 32 bits and those
      it has no room for. */
  function Lost(limits: Limits, b: Bucket, e: Event): nat {
    var sum := b.tokens + CreditOf(limits, b, e);
    var cut := sum % TWO32;
    if b.tokens >= limits.maxTokens then CreditOf(limits, b, e)
    else if cut > limits.maxTokens then sum - limits.maxTokens
    else sum - cut
  }

  function Losses(limits: Limits, b: Bucket, evs: seq<Event>): nat
    decreases |evs|
  {
    if evs == [] then 0
    else Lost(limits, b, evs[0]) + Losses(limits, Step(limits, b, evs[0]).0, evs[1..])
  }

  /** When the sum does not wrap, only what the bucket has no room for is lost. */
  lemma LostIsOverflow(limits: Limits, b: Bucket, e: Event)
    requires b.tokens <= limits.maxTokens
    requires b.tokens < limits.maxTokens ==> b.tokens + CreditOf(limits, b, e) < TWO32
    ensures var sum := b.tokens + CreditOf(limits, b, e);
      Lost(limits, b, e) == if sum > limits.maxTokens then sum - limits.maxTokens else 0
  {
    hide CreditOf;
    CutIsLess(b.tokens + CreditOf(limits, b, e));
  }

  lemma StepBalances(limits: Limits, b: Bucket, e: Event)
    ensures var (b', sent) := Step(limits, b, e);
      b'.tokens + Bytes(sent) + Lost(limits, b, e) == b.tokens + CreditOf(limits, b, e)
  {
    hide CreditOf, AddTokens, Elapsed;
    if b.tokens < limits.maxTokens {
      SumIsCapped(limits, b, e);
    } else {
      FullBucketStays(limits, b, e);
    }
  }

  lemma FullBucketStays(limits: Limits, b: Bucket, e: Event)
    requires b.tokens >= limits.maxTokens
    ensures Receive(limits, b, e).tokens == b.tokens
  {
  }

  /** Every token is accounted for: left, spent on a byte sent, or lost to the cut at 32
      bits or to a full bucket. */
  lemma {:induction false} Ledger(limits: Limits, b: Bucket, evs: seq<Event>)
    ensures var (b', sent) := After(limits, b, evs);
      b'.tokens + Bytes(sent) + Losses(limits, b, evs) == b.tokens + Credits(limits, b, evs)
    decreases |evs|
  {
    hide Step, CreditOf, Lost;
    if evs != [] {
      var (b1, sent1) := Step(limits, b, evs[0]);
      StepBalances(limits, b, evs[0]);
      Ledger(limits, b1, evs[1..]);
      BytesOfConcat(sent1, After(limits, b1, evs[1..]).1);
    }
  }

  // ---------- Draining ----------

  /** After the first j events the tokens and the credit, less what was lost, cover
      the whole queue. */
  ghost predicate Covers(limits: Limits, b: Bucket, evs: seq<Event>, j: int) {
    && 0 <= j <= |evs|
    && Bytes(b.queue) + Losses(limits, b, evs[..j]) <= b.tokens + Credits(limits, b, evs[..j])
  }

  lemma RunsSendTheQueue(limits: Limits, b: Bucket, evs: seq<Event>)
    requires forall e :: e in evs ==> e.Run?
    ensures var (b', sent) := After(limits, b, evs);
      sent + b'.queue == b.queue && Bytes(sent) + Bytes(b'.queue) == Bytes(b.queue)
  {
    var (b', sent) := After(limits, b, evs);
    FirstInFirstOut(limits, b, evs);
    NothingAccepted(limits, b, evs);
    BytesOfConcat(sent, b'.queue);
  }

  /** What the first events sent is sent first. */
  lemma {:induction false} SentFirst(limits: Limits, b: Bucket, evs: seq<Event>, j: nat)
    requires j <= |evs|
    ensures After(limits, b, evs[..j]).1 <= After(limits, b, evs).1
    decreases |evs|
  {
    hide Step;
    if j > 0 {
      assert evs[..j][1..] == evs[1..][..j - 1];
      SentFirst(limits, Step(limits, b, evs[0]).0, evs[1..], j - 1);
    }
  }

  /** When nothing more arrives, the queue is empty exactly when at some moment the
      tokens and the credit that was not lost covered it. */
  lemma DrainsWhenCovered(limits: Limits, b: Bucket, evs: seq<Event>)
    requires Settled(limits, b) && forall e :: e in evs ==> e.Run?
    ensures After(limits, b, evs).0.queue == [] <==> exists j :: Covers(limits, b, evs, j)
  {
    hide Credits, Losses, After, Settled;
    RunsSendTheQueue(limits, b, evs);
    if After(limits, b, evs).0.queue == [] {
      Ledger(limits, b, evs);
      assert evs[..|evs|] == evs;
      assert Covers(limits, b, evs, |evs|);
    }
    if j :| Covers(limits, b, evs, j) {
      assert forall e :: e in evs[..j] ==> e in evs;
      RunsSendTheQueue(limits, b, evs[..j]);
      Ledger(limits, b, evs[..j]);
      StaysSettled(limits, b, evs[..j]);
      var b1 := After(limits, b, evs[..j]).0;
      if b1.queue != [] {
        QueueLacksTokens(limits, b1);
      }
      SentFirst(limits, b, evs, j);
    }
  }

  // ---------- Reaching the rate ----------

  /** The products of rate and time that the runs work out, each cut to 64 bits. */
  function Work(limits: Limits, b: Bucket, evs: seq<Event>): nat
    decreases |evs|
  {
    if evs == [] then 0
    else
      (if evs[0].Run? then limits.dataRate * Elapsed(b, evs[0].now) % TWO64 else 0)
      + Work(limits, Step(limits, b, evs[0]).0, evs[1..])
  }

  /** The time the runs measure: each from the end of the one before to its own start. */
  function Measured(limits: Limits, b: Bucket, evs: seq<Event>): nat
    decreases |evs|
  {
    if evs == [] then 0
    else
      (if evs[0].Run? then Elapsed(b, evs[0].now) else 0) + Measured(limits, Step(limits, b, evs[0]).0, evs[1..])
  }

  /** No product of rate and time wraps. */
  ghost predicate ProductsFit(limits: Limits, b: Bucket, evs: seq<Event>)
    decreases |evs|
  {
    evs != [] ==>
      && (evs[0].Run? ==> limits.dataRate * Elapsed(b, evs[0].now) < TWO64)
      && ProductsFit(limits, Step(limits, b, evs[0]).0, evs[1..])
  }

  lemma CutTo64(x: nat)
    ensures x % TWO64 <= x && (x % TWO64 == x <==> x < TWO64)
  {
  }

  /** The products never come to more than rate times measured time, and to just that
      exactly when none wraps. */
  lemma {:induction false} WorkIsRateTimesTime(limits: Limits, b: Bucket, evs: seq<Event>)
    ensures var all := limits.dataRate * Measured(limits, b, evs);
      Work(limits, b, evs) <= all && (Work(limits, b, evs) == all <==> ProductsFit(limits, b, evs))
    decreases |evs|
  {
    hide Step, Elapsed;
    if evs != [] {
      var b1 := Step(limits, b, evs[0]).0;
      var d, rest := if evs[0].Run? then Elapsed(b, evs[0].now) else 0, Measured(limits, b1, evs[1..]);
      assert limits.dataRate * (d + rest) == limits.dataRate * d + limits.dataRate * rest;
      CutTo64(limits.dataRate * d);
      WorkIsRateTimesTime(limits, b1, evs[1..]);
    }
  }

  lemma DivPieces(x: nat, y: nat)
    ensures x / 8000 + y / 8000 <= (x + y) / 8000 <= x / 8000 + y / 8000 + 1
  {
  }

  /** Rounding costs less than a token a run: the credit is the work over 8000, less at
      most one token for each run. */
  lemma {:induction false} RoundingLosesLittle(limits: Limits, b: Bucket, evs: seq<Event>)
    ensures var earned := Work(limits, b, evs) / 8000;
      Credits(limits, b, evs) <= earned <= Credits(limits, b, evs) + Runs(evs)
    decreases |evs|
  {
    hide Step, Elapsed;
    if evs != [] {
      var b1 := Step(limits, b, evs[0]).0;
      RoundingLosesLittle(limits, b1, evs[1..]);
      if evs[0].Run? {
        var product := limits.dataRate * Elapsed(b, evs[0].now) % TWO64;
        DivTwice(product);
        DivPieces(product, Work(limits, b1, evs[1..]));
      }
    }
  }

  /** Whenever the timer runs, a packet waits and the bucket has room for the credit
      beside what that packet may still lack. */
  ghost predicate Backlogged(limits: Limits, b: Bucket, evs: seq<Event>)
    decreases |evs|
  {
    evs != [] ==>
      && (evs[0].Run? ==> b.queue != [] && b.queue[0].len + CreditOf(limits, b, evs[0]) <= limits.maxTokens)
      && Backlogged(limits, Step(limits, b, evs[0]).0, evs[1..])
  }

  /** A bucket with a backlog wastes nothing. */
  lemma {:induction false} BacklogWastesNothing(limits: Limits, b: Bucket, evs: seq<Event>)
    requires Settled(limits, b) && Backlogged(limits, b, evs)
    ensures Losses(limits, b, evs) == 0
    decreases |evs|
  {
    hide Step, CreditOf, Lost;
    if evs != [] {
      StepStaysSettled(limits, b, evs[0]);
      ArrivalBringsNothing(limits, b, evs[0]);
      LostIsOverflow(limits, b, evs[0]);
      BacklogWastesNothing(limits, Step(limits, b, evs[0]).0, evs[1..]);
    }
  }

  lemma ArrivalBringsNothing(limits: Limits, b: Bucket, e: Event)
    ensures !e.Run? ==> CreditOf(limits, b, e) == 0
  {
  }

  /** With a backlog the bucket reaches its rate: the bytes sent are at least what the
      measured time earns, less one for each run and the tokens left over. */
  lemma BacklogGetsRate(limits: Limits, b: Bucket, evs: seq<Event>)
    requires Settled(limits, b) && Backlogged(limits, b, evs)
    ensures var (b', sent) := After(limits, b, evs);
      && b.tokens + Work(limits, b, evs) / 8000 <= Bytes(sent) + b'.tokens + Runs(evs)
      && (ProductsFit(limits, b, evs) ==> Work(limits, b, evs) / 8000 == Earned(limits, Measured(limits, b, evs)))
  {
    BacklogWastesNothing(limits, b, evs);
    Ledger(limits, b, evs);
    RoundingLosesLittle(limits, b, evs);
    WorkIsRateTimesTime(limits, b, evs);
  }
}
