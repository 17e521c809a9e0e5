// What a chain does with packets, filter by filter. Packets are handed on one by one
// as deep as they get; here that is shown to be the same as passing all of them
// through the first filter, then what it hands on through the second, and so on.
// From there: which packets a chain drops, and which come out.

module ChainStages {
  import opened Frames
  import opened Chain

  /** Whether a filter refuses a packet: the number drawn is below its loss rate; its
      bucket of that direction is full, or is long enough for early drop and the number
      drawn is 0; its NAT does not forward it. */
  predicate Refuses(s: Stage, f: Frame, d: Draw) {
    match s
    case Loss(loss) => d.r < loss
    case DynamicLoss(_, _, current) => d.r < current
    case Burst(_, _) => false
    case Delay(_) => false
    case Buckets(inLimits, inTb, outLimits, outTb) =>
      var (limits, queued) := if f.ingoing then (inLimits, |inTb.queue|) else (outLimits, |outTb.queue|);
      queued >= limits.maxPackets || (queued >= limits.redStart && d.r <= 0.0)
    case Nat(cfg, state) => !N.Step(cfg, state, N.Event(d.now, Packets.Pkt(f.ingoing, d.tup))).1.Forward?
  }

  lemma TakesUnlessRefuses(s: Stage, f: Frame, d: Draw)
    ensures Takes(s, f, d) <==> !Refuses(s, f, d)
  {
    if s.Buckets? {
      hide Tb.Accepts;
      Tb.EarlyDropNeedsZero(s.inLimits, s.inTb.queue, d.r);
      Tb.EarlyDropNeedsZero(s.outLimits, s.outTb.queue, d.r);
    }
  }

  /** One filter with n filters behind it after some packets, what it handed on, and
      what it refused. */
  function OfferAll(s: Stage, frames: seq<Frame>, luck: Luck, n: nat): (Stage, seq<Frame>, seq<Frame>)
    decreases |frames|
  {
    if frames == [] then (s, [], [])
    else
      var f, draw := frames[0], luck(n, frames[0]);
      var (s1, passed) := Offer(s, f, draw);
      var (s2, more, lost) := OfferAll(s1, frames[1..], luck, n);
      (s2, passed + more, (if Refuses(s, f, draw) then [f] else []) + lost)
  }

  // ---------- Filter by filter ----------

  lemma FeedUnfolds(chain: seq<Stage>, frames: seq<Frame>, luck: Luck)
    requires chain != [] && frames != []
    ensures var f, draw := frames[0], luck(|chain| - 1, frames[0]);
      var (s1, passed) := Offer(chain[0], f, draw);
      var (rest, out1, lost1) := Feed(chain[1..], passed, luck);
      var (chain2, out2, lost2) := Feed([s1] + rest, frames[1..], luck);
      Feed(chain, frames, luck) ==
        (chain2, out1 + out2, (if Refuses(chain[0], f, draw) then [f] else []) + lost1 + lost2)
  {
    hide Offer, Takes, Refuses;
    TakesUnlessRefuses(chain[0], frames[0], luck(|chain| - 1, frames[0]));
  }

  lemma NoFilterFeeds(frames: seq<Frame>, luck: Luck)
    ensures Feed([], frames, luck) == ([], frames, [])
  {
  }

  /** Packets fed in two parts. */
  lemma {:induction false} FeedMore(chain: seq<Stage>, a: seq<Frame>, b: seq<Frame>, luck: Luck)
    ensures var (chain1, out1, lost1) := Feed(chain, a, luck);
      var (chain2, out2, lost2) := Feed(chain1, b, luck);
      Feed(chain, a + b, luck) == (chain2, out1 + out2, lost1 + lost2)
    decreases |a|
  {
    hide Offer, Refuses, Feed;
    var none: seq<Frame> := [];
    assert none + none == none;
    if chain == [] {
      NoFilterFeeds(a, luck);
      NoFilterFeeds(b, luck);
      NoFilterFeeds(a + b, luck);
    } else if a == [] {
      NothingFedOn(chain, luck);
      assert a + b == b;
      var (chain2, out2, lost2) := Feed(chain, b, luck);
      assert [] + out2 == out2 && [] + lost2 == lost2;
    } else {
      var f, draw := a[0], luck(|chain| - 1, a[0]);
      assert (a + b)[0] == f && (a + b)[1..] == a[1..] + b;
      var (s1, passed) := Offer(chain[0], f, draw);
      var (rest, out0, lost0) := Feed(chain[1..], passed, luck);
      FeedUnfolds(chain, a, luck);
      FeedUnfolds(chain, a + b, luck);
      FeedMore([s1] + rest, a[1..], b, luck);
      var (chain1, out1, lost1) := Feed([s1] + rest, a[1..], luck);
      var (chain2, out2, lost2) := Feed(chain1, b, luck);
      Associative(out0, out1, out2);
      Associative((if Refuses(chain[0], f, draw) then [f] else []) + lost0, lost1, lost2);
    }
  }

  /** Handing packets on one by one is passing them all through the first filter, and
      what that hands on through the others. */
  lemma {:induction false} FeedByStages(chain: seq<Stage>, frames: seq<Frame>, luck: Luck)
    requires chain != []
    ensures var (s, passed, refused) := OfferAll(chain[0], frames, luck, |chain| - 1);
      var (rest, out, lost) := Feed(chain[1..], passed, luck);
      var all := Feed(chain, frames, luck);
      all.0 == [s] + rest && all.1 == out && multiset(all.2) == multiset(refused) + multiset(lost)
    decreases |frames|
  {
    hide Offer, Refuses, Feed;
    var n: nat := |chain| - 1;
    if frames == [] {
      NothingFedOn(chain, luck);
      NothingFedOn(chain[1..], luck);
      assert [chain[0]] + chain[1..] == chain;
    } else {
      var f, more := frames[0], frames[1..];
      var (s1, passed) := Offer(chain[0], f, luck(n, f));
      var rest := Feed(chain[1..], passed, luck).0;
      FeedKeepsLength(chain[1..], passed, luck);
      assert ([s1] + rest)[1..] == rest && ([s1] + rest)[0] == s1;
      FeedUnfolds(chain, frames, luck);
      FeedByStages([s1] + rest, more, luck);
      FeedMore(chain[1..], passed, OfferAll(s1, more, luck, n).1, luck);
    }
  }

  lemma FeedKeepsLength(chain: seq<Stage>, frames: seq<Frame>, luck: Luck)
    ensures |Feed(chain, frames, luck).0| == |chain|
  {
  }

  lemma NothingFedOn(chain: seq<Stage>, luck: Luck)
    ensures Feed(chain, [], luck) == (chain, [], [])
  {
  }

  // ---------- What is dropped ----------

  /** The packets that reach filter i. */
  function Arriving(chain: seq<Stage>, frames: seq<Frame>, luck: Luck, i: nat): seq<Frame>
    requires i < |chain|
  {
    if i == 0 then frames
    else Arriving(chain[1..], OfferAll(chain[0], frames, luck, |chain| - 1).1, luck, i - 1)
  }

  /** Packet k of those that reach filter i is f, and the filter, as those before left
      it, refuses it. */
  ghost predicate MeetsRefusal(chain: seq<Stage>, frames: seq<Frame>, luck: Luck, i: int, k: int, f: Frame) {
    && 0 <= i < |chain|
    && var arriving, n := Arriving(chain, frames, luck, i), |chain| - 1 - i;
    && 0 <= k < |arriving| && arriving[k] == f
    && Refuses(OfferAll(chain[i], arriving[..k], luck, n).0, f, luck(n, f))
  }

  /** The same at a single filter. */
  ghost predicate RefusedAt(s: Stage, frames: seq<Frame>, luck: Luck, n: nat, k: int, f: Frame) {
    0 <= k < |frames| && frames[k] == f && Refuses(OfferAll(s, frames[..k], luck, n).0, f, luck(n, f))
  }

  lemma RefusedLater(s: Stage, frames: seq<Frame>, luck: Luck, n: nat, k: nat, f: Frame)
    requires frames != []
    ensures RefusedAt(s, frames, luck, n, k + 1, f) <==>
      RefusedAt(Offer(s, frames[0], luck(n, frames[0])).0, frames[1..], luck, n, k, f)
  {
    hide Offer, Refuses;
    if k < |frames| - 1 {
      assert frames[..k + 1][1..] == frames[1..][..k];
    }
  }

  lemma {:induction false} RefusedOnes(s: Stage, frames: seq<Frame>, luck: Luck, n: nat, f: Frame)
    ensures f in OfferAll(s, frames, luck, n).2 <==> exists k :: RefusedAt(s, frames, luck, n, k, f)
    decreases |frames|
  {
    hide Offer, Refuses;
    if frames != [] {
      var s1 := Offer(s, frames[0], luck(n, frames[0])).0;
      RefusedOnes(s1, frames[1..], luck, n, f);
      assert RefusedAt(s, frames, luck, n, 0, f) <==> frames[0] == f && Refuses(s, f, luck(n, f)) by {
        assert frames[..0] == [];
      }
      if k :| RefusedAt(s1, frames[1..], luck, n, k, f) {
        RefusedLater(s, frames, luck, n, k, f);
      }
      if k :| RefusedAt(s, frames, luck, n, k, f) && k > 0 {
        RefusedLater(s, frames, luck, n, k - 1, f);
      }
    }
  }

  lemma RefusalAtFirst(chain: seq<Stage>, frames: seq<Frame>, luck: Luck, k: int, f: Frame)
    requires chain != []
    ensures MeetsRefusal(chain, frames, luck, 0, k, f) <==>
      RefusedAt(chain[0], frames, luck, |chain| - 1, k, f)
  {
    hide OfferAll, Refuses;
  }

  lemma RefusalFurtherOn(chain: seq<Stage>, frames: seq<Frame>, luck: Luck, i: int, k: int, f: Frame)
    requires chain != [] && i >= 0
    ensures var passed := OfferAll(chain[0], frames, luck, |chain| - 1).1;
      MeetsRefusal(chain, frames, luck, i + 1, k, f) <==> MeetsRefusal(chain[1..], passed, luck, i, k, f)
  {
    hide OfferAll, Refuses;
  }

  /** A chain drops exactly the packets that meet a filter that refuses them. */
  lemma {:induction false} DropsExactlyTheRefused(chain: seq<Stage>, frames: seq<Frame>, luck: Luck, f: Frame)
    ensures f in Feed(chain, frames, luck).2 <==> exists i, k :: MeetsRefusal(chain, frames, luck, i, k, f)
    decreases |chain|
  {
    hide Feed, OfferAll, MeetsRefusal, RefusedAt;
    if chain == [] {
      NoFilterRefuses(frames, luck, f);
    } else {
      var n: nat := |chain| - 1;
      var (_, passed, refused) := OfferAll(chain[0], frames, luck, n);
      FeedByStages(chain, frames, luck);
      InSum(f, Feed(chain, frames, luck).2, refused, Feed(chain[1..], passed, luck).2);
      RefusedOnes(chain[0], frames, luck, n, f);
      DropsExactlyTheRefused(chain[1..], passed, luck, f);
      if k :| RefusedAt(chain[0], frames, luck, n, k, f) {
        RefusalAtFirst(chain, frames, luck, k, f);
      }
      if i, k :| MeetsRefusal(chain[1..], passed, luck, i, k, f) {
        RefusalHasPlace(chain[1..], passed, luck, i, k, f);
        RefusalFurtherOn(chain, frames, luck, i, k, f);
      }
      if i, k :| MeetsRefusal(chain, frames, luck, i, k, f) {
        RefusalHasPlace(chain, frames, luck, i, k, f);
        if i == 0 {
          RefusalAtFirst(chain, frames, luck, k, f);
        } else {
          RefusalFurtherOn(chain, frames, luck, i - 1, k, f);
        }
      }
    }
  }

  lemma RefusalHasPlace(chain: seq<Stage>, frames: seq<Frame>, luck: Luck, i: int, k: int, f: Frame)
    requires MeetsRefusal(chain, frames, luck, i, k, f)
    ensures 0 <= i < |chain|
  {
  }

  lemma NoFilterRefuses(frames: seq<Frame>, luck: Luck, f: Frame)
    ensures Feed([], frames, luck).2 == [] && forall i, k :: !MeetsRefusal([], frames, luck, i, k, f)
  {
  }

  lemma InSum(f: Frame, all: seq<Frame>, a: seq<Frame>, b: seq<Frame>)
    requires multiset(all) == multiset(a) + multiset(b)
    ensures f in all <==> f in a || f in b
  {
    assert f in all <==> f in multiset(all);
  }

  // ---------- Chains that keep everything ----------

  predicate Keeps(s: Stage) {
    s.Burst? || s.Delay?
  }

  ghost predicate AllKeep(chain: seq<Stage>) {
    forall i :: 0 <= i < |chain| ==> Keeps(chain[i])
  }

  lemma {:induction false} KeeperRefusesNothing(s: Stage, frames: seq<Frame>, luck: Luck, n: nat)
    requires Keeps(s)
    ensures Keeps(OfferAll(s, frames, luck, n).0) && OfferAll(s, frames, luck, n).2 == []
    decreases |frames|
  {
    if frames != [] {
      KeeperRefusesNothing(Offer(s, frames[0], luck(n, frames[0])).0, frames[1..], luck, n);
    }
  }

  /** A chain of burst and delay filters drops nothing. */
  lemma {:induction false} KeepersDropNothing(chain: seq<Stage>, frames: seq<Frame>, luck: Luck)
    requires AllKeep(chain)
    ensures Feed(chain, frames, luck).2 == [] && AllKeep(Feed(chain, frames, luck).0)
    decreases |chain|
  {
    hide Keeps, OfferAll, Offer;
    if chain != [] {
      var (s, passed, refused) := OfferAll(chain[0], frames, luck, |chain| - 1);
      FeedByStages(chain, frames, luck);
      KeeperRefusesNothing(chain[0], frames, luck, |chain| - 1);
      assert AllKeep(chain[1..]);
      KeepersDropNothing(chain[1..], passed, luck);
      NoneInNone(Feed(chain, frames, luck).2);
    }
  }

  lemma NoneInNone(frames: seq<Frame>)
    ensures multiset(frames) == multiset([]) + multiset([]) ==> frames == []
  {
    if frames != [] {
      assert frames[0] in multiset(frames);
    }
  }

  /** However packets come and timers fire, such a chain drops nothing: in each
      direction what came out and what it holds are all that came, in order. */
  lemma {:induction false} KeepersLoseNothing(s: System, events: seq<Event>)
    requires AllKeep(s.chain)
    ensures AllKeep(Run(s, events).chain) && Run(s, events).dropped == s.dropped
    decreases |events|
  {
    hide AllKeep, Chain.Step;
    if events != [] {
      StepKeeps(s, events[0]);
      KeepersLoseNothing(Chain.Step(s, events[0]), events[1..]);
    }
  }

  lemma StepKeeps(s: System, e: Event)
    requires AllKeep(s.chain)
    ensures AllKeep(Chain.Step(s, e).chain) && Chain.Step(s, e).dropped == s.dropped
  {
    hide Feed;
    match e
    case Enter(f, luck) =>
      KeepersDropNothing(s.chain, [f], luck);
    case Timer(i, ingoing, now, again, luck) =>
      if i < |s.chain| {
        var (stage, passed) := Wake(s.chain[i], ingoing, now, again);
        assert Keeps(s.chain[i]) && Keeps(stage);
        assert AllKeep(s.chain[i + 1..]);
        KeepersDropNothing(s.chain[i + 1..], passed, luck);
      }
  }

  /** A chain of sleeping burst filters hands on exactly what it is given. */
  lemma {:induction false} SleepersPassAll(chain: seq<Stage>, frames: seq<Frame>, luck: Luck)
    requires forall i :: 0 <= i < |chain| ==> chain[i] == Burst(true, [])
    ensures Feed(chain, frames, luck) == (chain, frames, [])
    decreases |chain|
  {
    hide OfferAll;
    if chain != [] {
      FeedByStages(chain, frames, luck);
      SleeperPassesAll(frames, luck, |chain| - 1);
      SleepersPassAll(chain[1..], frames, luck);
      assert [chain[0]] + chain[1..] == chain;
      NoneInNone(Feed(chain, frames, luck).2);
    }
  }

  lemma {:induction false} SleeperPassesAll(frames: seq<Frame>, luck: Luck, n: nat)
    ensures OfferAll(Burst(true, []), frames, luck, n) == (Burst(true, []), frames, [])
    decreases |frames|
  {
    if frames != [] {
      SleeperPassesAll(frames[1..], luck, n);
      assert [frames[0]] + frames[1..] == frames;
      assert OfferAll(Burst(true, []), frames, luck, n).2 == [];
    }
  }

  // ---------- Chains of loss filters ----------

  /** The loss rate in force. */
  function Rate(s: Stage): real
    requires s.Loss? || s.DynamicLoss?
  {
    if s.Loss? then s.loss else s.current
  }

  ghost predicate AllLossy(chain: seq<Stage>) {
    forall i :: 0 <= i < |chain| ==> chain[i].Loss? || chain[i].DynamicLoss?
  }

  /** The number drawn for the packet at every filter is at least its rate. */
  ghost predicate Survives(chain: seq<Stage>, f: Frame, luck: Luck)
    requires AllLossy(chain)
  {
    forall i :: 0 <= i < |chain| ==> luck(|chain| - 1 - i, f).r >= Rate(chain[i])
  }

  /** The packets that survive, or those that do not. */
  ghost function Those(chain: seq<Stage>, frames: seq<Frame>, luck: Luck, survive: bool): seq<Frame>
    requires AllLossy(chain)
  {
    if frames == [] then []
    else
      (if Survives(chain, frames[0], luck) == survive then [frames[0]] else [])
      + Those(chain, frames[1..], luck, survive)
  }

  lemma OneAtLoss(s: Stage, f: Frame, luck: Luck, n: nat)
    requires s.Loss? || s.DynamicLoss?
    ensures OfferAll(s, [f], luck, n) == if luck(n, f).r >= Rate(s) then (s, [f], []) else (s, [], [f])
  {
    var none: seq<Frame> := [];
    assert [f][1..] == none && [f] + none == [f] && none + none == none && none + [f] == [f];
    assert OfferAll(s, none, luck, n) == (s, none, none);
  }

  lemma OnlyOne(f: Frame, frames: seq<Frame>)
    requires multiset(frames) == multiset{f}
    ensures frames == [f]
  {
    assert |multiset(frames)| == 1 && frames[0] in multiset(frames);
  }

  lemma {:induction false} OneThroughLoss(chain: seq<Stage>, f: Frame, luck: Luck)
    requires AllLossy(chain)
    ensures Feed(chain, [f], luck) == if Survives(chain, f, luck) then (chain, [f], []) else (chain, [], [f])
    decreases |chain|
  {
    hide OfferAll, Survives, Feed;
    if chain == [] {
      NoFilterPassesAll(f, luck);
    } else {
      SurvivesByStages(chain, f, luck);
      FeedByStages(chain, [f], luck);
      OneAtLoss(chain[0], f, luck, |chain| - 1);
      NothingFedOn(chain[1..], luck);
      OneThroughLoss(chain[1..], f, luck);
      assert [chain[0]] + chain[1..] == chain;
      var lost := Feed(chain, [f], luck).2;
      if Survives(chain, f, luck) {
        NoneInNone(lost);
      } else {
        OnlyOne(f, lost);
      }
    }
  }

  lemma NoFilterPassesAll(f: Frame, luck: Luck)
    ensures Feed([], [f], luck) == ([], [f], []) && Survives([], f, luck)
  {
  }

  lemma SurvivesByStages(chain: seq<Stage>, f: Frame, luck: Luck)
    requires AllLossy(chain) && chain != []
    ensures AllLossy(chain[1..])
    ensures Survives(chain, f, luck) <==> luck(|chain| - 1, f).r >= Rate(chain[0]) && Survives(chain[1..], f, luck)
  {
    var rest := chain[1..];
    forall i | 0 < i < |chain|
      ensures chain[i] == rest[i - 1] && |chain| - 1 - i == |rest| - 1 - (i - 1)
    {
    }
    if luck(|chain| - 1, f).r >= Rate(chain[0]) && Survives(rest, f, luck) {
      forall i | 0 <= i < |chain|
        ensures luck(|chain| - 1 - i, f).r >= Rate(chain[i])
      {
        if i > 0 {
          assert luck(|rest| - 1 - (i - 1), f).r >= Rate(rest[i - 1]);
        }
      }
    }
    if Survives(chain, f, luck) {
      forall i | 0 <= i < |rest|
        ensures luck(|rest| - 1 - i, f).r >= Rate(rest[i])
      {
        assert luck(|chain| - 1 - (i + 1), f).r >= Rate(chain[i + 1]);
      }
    }
  }

  /** A chain of loss filters hands on exactly the packets whose draw at every filter
      is at least its rate, and drops exactly the others. */
  lemma {:induction false} LossyPassSurvivors(chain: seq<Stage>, frames: seq<Frame>, luck: Luck)
    requires AllLossy(chain)
    ensures Feed(chain, frames, luck) == (chain, Those(chain, frames, luck, true), Those(chain, frames, luck, false))
    decreases |frames|
  {
    hide Survives, AllLossy, Feed;
    if frames == [] {
      NothingFedOn(chain, luck);
    } else {
      assert frames == [frames[0]] + frames[1..];
      OneThroughLoss(chain, frames[0], luck);
      FeedMore(chain, [frames[0]], frames[1..], luck);
      LossyPassSurvivors(chain, frames[1..], luck);
    }
  }

  // ---------- A chain is its parts in a row ----------

  /** The draws for a chain with n more filters behind it. */
  function Ahead(luck: Luck, n: nat): Luck {
    (m: nat, f: Frame) => luck(m + n, f)
  }

  lemma {:induction false} OfferAllAhead(s: Stage, frames: seq<Frame>, luck: Luck, n: nat, k: nat)
    ensures OfferAll(s, frames, Ahead(luck, k), n) == OfferAll(s, frames, luck, n + k)
    decreases |frames|
  {
    hide Offer, Refuses;
    if frames != [] {
      OfferAllAhead(Offer(s, frames[0], luck(n + k, frames[0])).0, frames[1..], luck, n, k);
    }
  }

  /** What one chain hands on goes through the other. */
  lemma {:induction false} FeedThrough(a: seq<Stage>, b: seq<Stage>, frames: seq<Frame>, luck: Luck)
    ensures var (a', mid, lostA) := Feed(a, frames, Ahead(luck, |b|));
      var (b', out, lostB) := Feed(b, mid, luck);
      var all := Feed(a + b, frames, luck);
      all.0 == a' + b' && all.1 == out && multiset(all.2) == multiset(lostA) + multiset(lostB)
    decreases |a|
  {
    hide Feed, OfferAll;
    if a == [] {
      NoFilterFeeds(frames, Ahead(luck, |b|));
      assert a + b == b;
    } else {
      var mid := OfferAll(a[0], frames, luck, |a| + |b| - 1).1;
      assert (a + b)[0] == a[0] && (a + b)[1..] == a[1..] + b;
      OfferAllAhead(a[0], frames, luck, |a| - 1, |b|);
      FeedByStages(a, frames, Ahead(luck, |b|));
      FeedByStages(a + b, frames, luck);
      FeedThrough(a[1..], b, mid, luck);
    }
  }

  /** A chain with nothing behind it yet. */
  function Fresh(chain: seq<Stage>): System {
    System(chain, [], [], [])
  }

  /** The event as the first of two chains in a row sees it, with n filters behind. */
  function Before(e: Event, n: nat): Event {
    e.(luck := Ahead(e.luck, n))
  }

  lemma TimerStep(chain: seq<Stage>, e: Event)
    requires e.Timer? && e.stage < |chain|
    ensures var (stage, passed) := Wake(chain[e.stage], e.ingoing, e.now, e.again);
      var (rest, out, lost) := Feed(chain[e.stage + 1..], passed, e.luck);
      Chain.Step(Fresh(chain), e) == System(chain[..e.stage] + [stage] + rest, [], out, lost)
  {
    hide Feed, Wake;
    var (stage, passed) := Wake(chain[e.stage], e.ingoing, e.now, e.again);
    var (rest, out, lost) := Feed(chain[e.stage + 1..], passed, e.luck);
    assert [] + out == out && [] + lost == lost;
  }

  lemma StagesAssociate(a: seq<Stage>, b: seq<Stage>, c: seq<Stage>)
    ensures a + (b + c) == (a + b) + c
  {
  }

  lemma PartsOfRow(a: seq<Stage>, b: seq<Stage>, i: nat)
    requires i < |a|
    ensures (a + b)[i + 1..] == a[i + 1..] + b && (a + b)[..i] == a[..i] && (a + b)[i] == a[i]
  {
  }

  lemma FirstTimerThrough(a: seq<Stage>, b: seq<Stage>, e: Event)
    requires e.Timer? && e.stage < |a|
    ensures var all, sa := Chain.Step(Fresh(a + b), e), Chain.Step(Fresh(a), Before(e, |b|));
      var (b', out, lost) := Feed(b, sa.output, e.luck);
      all.chain == sa.chain + b' && all.output == out && multiset(all.dropped) == multiset(sa.dropped) + multiset(lost)
  {
    hide Feed, Wake, Chain.Step;
    var i := e.stage;
    var (stage, passed) := Wake(a[i], e.ingoing, e.now, e.again);
    PartsOfRow(a, b, i);
    TimerStep(a + b, e);
    TimerStep(a, Before(e, |b|));
    FeedThrough(a[i + 1..], b, passed, e.luck);
    var (rest, mid, _) := Feed(a[i + 1..], passed, Ahead(e.luck, |b|));
    var b' := Feed(b, mid, e.luck).0;
    StagesAssociate(a[..i] + [stage], rest, b');
  }

  lemma SecondTimerThrough(a: seq<Stage>, b: seq<Stage>, e: Event)
    requires e.Timer? && e.stage >= |a|
    ensures var all, sb := Chain.Step(Fresh(a + b), e), Chain.Step(Fresh(b), e.(stage := e.stage - |a|));
      all.chain == a + sb.chain && all.output == sb.output && all.dropped == sb.dropped
  {
    hide Feed, Wake;
    var j := e.stage - |a|;
    if j < |b| {
      assert (a + b)[e.stage + 1..] == b[j + 1..] && (a + b)[..e.stage] == a + b[..j] && (a + b)[e.stage] == b[j];
    }
  }

  /** An event of the first of two chains in a row is its event, and what it lets out
      goes through the second; an event of the second concerns the second only. */
  lemma StepThrough(a: seq<Stage>, b: seq<Stage>, e: Event)
    ensures var all := Chain.Step(Fresh(a + b), e);
      if e.Timer? && e.stage >= |a| then
        var sb := Chain.Step(Fresh(b), e.(stage := e.stage - |a|));
        all.chain == a + sb.chain && all.output == sb.output && all.dropped == sb.dropped
      else
        var sa := Chain.Step(Fresh(a), Before(e, |b|));
        var (b', out, lost) := Feed(b, sa.output, e.luck);
        && all.chain == sa.chain + b' && all.output == out
        && multiset(all.dropped) == multiset(sa.dropped) + multiset(lost)
  {
    if e.Enter? {
      EnterThrough(a, b, e);
    } else if e.stage >= |a| {
      SecondTimerThrough(a, b, e);
    } else {
      FirstTimerThrough(a, b, e);
    }
  }

  lemma EnterStep(chain: seq<Stage>, f: Frame, luck: Luck)
    ensures var (chain', out, lost) := Feed(chain, [f], luck);
      Chain.Step(Fresh(chain), Enter(f, luck)) == System(chain', [f], out, lost)
  {
    hide Feed;
    var (_, out, lost) := Feed(chain, [f], luck);
    assert [] + out == out && [] + lost == lost && [] + [f] == [f];
  }

  lemma EnterThrough(a: seq<Stage>, b: seq<Stage>, e: Event)
    requires e.Enter?
    ensures var all, sa := Chain.Step(Fresh(a + b), e), Chain.Step(Fresh(a), Before(e, |b|));
      var (b', out, lost) := Feed(b, sa.output, e.luck);
      all.chain == sa.chain + b' && all.output == out && multiset(all.dropped) == multiset(sa.dropped) + multiset(lost)
  {
    hide Feed, Chain.Step;
    EnterStep(a + b, e.frame, e.luck);
    EnterStep(a, e.frame, Ahead(e.luck, |b|));
    FeedThrough(a, b, [e.frame], e.luck);
  }

  /** A chain of one filter: a packet is offered to it, its timer wakes it, and all it
      hands on comes out. */
  lemma OneFilter(s: Stage, e: Event)
    ensures var all := Chain.Step(Fresh([s]), e);
      match e
      case Enter(f, luck) =>
        var (s', passed) := Offer(s, f, luck(0, f));
        all == System([s'], [f], passed, if Refuses(s, f, luck(0, f)) then [f] else [])
      case Timer(i, ingoing, now, again, _) =>
        if i > 0 then all == Fresh([s])
        else
          var (s', passed) := Wake(s, ingoing, now, again);
          all == System([s'], [], passed, [])
  {
    hide Offer, Wake, Refuses, Feed;
    match e
    case Enter(f, luck) =>
      var (s', passed) := Offer(s, f, luck(0, f));
      FeedUnfolds([s], [f], luck);
      assert [s][1..] == [] && [f][1..] == [];
      NoFilterFeeds(passed, luck);
      NothingFedOn([s'], luck);
      assert [s'] + [] == [s'] && passed + [] == passed && [] + passed == passed && [] + [f] == [f];
    case Timer(i, ingoing, now, again, luck) =>
      if i == 0 {
        var (s', passed) := Wake(s, ingoing, now, again);
        assert [s][1..] == [] && [s][..0] == [];
        NoFilterFeeds(passed, luck);
        assert [] + [s'] + [] == [s'] && [] + passed == passed;
      }
  }

  /** The past of a chain only grows, and what it does next does not depend on it. */
  lemma StepAppends(s: System, e: Event)
    ensures var (s', own) := (Chain.Step(s, e), Chain.Step(Fresh(s.chain), e));
      && s'.chain == own.chain && s'.output == s.output + own.output && s'.dropped == s.dropped + own.dropped
      && s'.input == s.input + if e.Enter? then [e.frame] else []
  {
    hide Feed, Wake;
    assert forall x: seq<Frame> :: [] + x == x && x + [] == x;
  }

  // ---------- Runs ----------

  /** The packets that enter, in order. */
  function Entered(events: seq<Event>): seq<Frame> {
    if events == [] then [] else (if events[0].Enter? then [events[0].frame] else []) + Entered(events[1..])
  }

  lemma {:induction false} InputIsEntered(s: System, events: seq<Event>)
    ensures Run(s, events).input == s.input + Entered(events)
    decreases |events|
  {
    hide Chain.Step;
    if events == [] {
      assert s.input + [] == s.input;
    } else {
      StepAppends(s, events[0]);
      InputIsEntered(Chain.Step(s, events[0]), events[1..]);
      Associative(s.input, if events[0].Enter? then [events[0].frame] else [], Entered(events[1..]));
    }
  }

  /** From an empty chain, what came out in a direction is a subsequence of the packets
      that entered, and without filters that drop, what came out and what is held are
      all of them, in order. */
  lemma RunKeepsOrder(chain: seq<Stage>, events: seq<Event>, ingoing: bool)
    requires AllTidy(chain) && Contents(chain, ingoing) == []
    ensures var s, entered := Run(Fresh(chain), events), Of(ingoing, Entered(events));
      && Subsequence(Of(ingoing, s.output), entered)
      && (AllKeep(chain) ==> Of(ingoing, s.output) + Contents(s.chain, ingoing) == entered)
  {
    hide Run, AllTidy, Subsequence, AllKeep;
    var s := Run(Fresh(chain), events);
    InputIsEntered(Fresh(chain), events);
    assert [] + Entered(events) == Entered(events);
    ChainKeepsOrder(chain, events, ingoing);
    if AllKeep(chain) {
      KeepersLoseNothing(Fresh(chain), events);
      AllThatCame(Of(ingoing, s.output) + Contents(s.chain, ingoing), Of(ingoing, Entered(events)));
    }
  }

  /** What is left when nothing is taken out is everything. */
  lemma {:induction false} AllThatCame(kept: seq<Frame>, all: seq<Frame>)
    requires Sifted(kept, multiset([]), all)
    ensures kept == all
  {
    assert |kept| == |multiset(kept)| == |multiset(all)| == |all|;
    FullSubsequence(kept, all);
  }

  lemma {:induction false} FullSubsequence(a: seq<Frame>, b: seq<Frame>)
    requires Subsequence(a, b)
    ensures |a| <= |b| && (|a| == |b| ==> a == b)
  {
    if b != [] {
      if Subsequence(a, b[1..]) {
        FullSubsequence(a, b[1..]);
      }
      if a != [] && a[0] == b[0] && Subsequence(a[1..], b[1..]) {
        FullSubsequence(a[1..], b[1..]);
      }
    }
  }

  // ---------- A NAT in a chain ----------

  /** The NAT of a chain is in the state its packets brought about, and passes on those
      it forwards. */
  lemma NatIsRun(cfg: N.Config, evs: seq<N.Event>, f: Frame, d: Draw)
    ensures var e := N.Event(d.now, Packets.Pkt(f.ingoing, d.tup));
      Offer(Nat(cfg, N.Run(cfg, evs)), f, d) ==
        (Nat(cfg, N.Run(cfg, evs + [e])), if N.OutcomeOf(cfg, evs, d.now, e.pkt).Forward? then [f] else [])
  {
    hide N.Step;
    var e := N.Event(d.now, Packets.Pkt(f.ingoing, d.tup));
    assert (evs + [e])[..|evs|] == evs && (evs + [e])[|evs|] == e;
  }

  /** The packets of a NAT as events. */
  function NatEvents(frames: seq<Frame>, luck: Luck, n: nat): seq<N.Event> {
    seq(|frames|, i requires 0 <= i < |frames| =>
      var d := luck(n, frames[i]); N.Event(d.now, Packets.Pkt(frames[i].ingoing, d.tup)))
  }

  lemma {:induction false} NatRunsOn(cfg: N.Config, evs: seq<N.Event>, frames: seq<Frame>, luck: Luck, n: nat)
    ensures OfferAll(Nat(cfg, N.Run(cfg, evs)), frames, luck, n).0 ==
      Nat(cfg, N.Run(cfg, evs + NatEvents(frames, luck, n)))
    decreases |frames|
  {
    hide Offer, Refuses, N.Run;
    if frames == [] {
      assert evs + NatEvents(frames, luck, n) == evs;
    } else {
      var d := luck(n, frames[0]);
      var e := N.Event(d.now, Packets.Pkt(frames[0].ingoing, d.tup));
      NatIsRun(cfg, evs, frames[0], d);
      NatRunsOn(cfg, evs + [e], frames[1..], luck, n);
      assert evs + [e] + NatEvents(frames[1..], luck, n) == evs + NatEvents(frames, luck, n);
    }
  }
}
