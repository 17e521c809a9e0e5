// Symmetric NAT: the tables of mapper and filter stay in step, and an incoming
// packet gets through exactly when it answers a recent outgoing one.

module SymNat {
  import opened Packets
  import opened TimedTable
  import opened NatSpec

  // ---------- The port search ----------

  function Probe(start: Port, n: nat): Port {
    (start + n) % 0x1_0000
  }

  /** The search finds the first free port in cyclic order, and fails only when
      every one of the 65536 ports is taken. */
  lemma {:induction false} FirstFreeIsFirst(taken: set<Port>, start: Port, tried: nat)
    requires tried <= 0x1_0000
    ensures match FirstFree(taken, start, tried)
      case Some(q) => exists n ::
        && tried <= n < 0x1_0000 && q == Probe(start, n) && q !in taken
        && forall m :: tried <= m < n ==> Probe(start, m) in taken
      case None => forall m :: tried <= m < 0x1_0000 ==> Probe(start, m) in taken
    decreases 0x1_0000 - tried
  {
    if tried < 0x1_0000 {
      if Probe(start, tried) !in taken {
        assert FirstFree(taken, start, tried) == Some(Probe(start, tried));
      } else {
        FirstFreeIsFirst(taken, start, tried + 1);
      }
    }
  }

  ghost function PortsBelow(n: nat): (ports: set<Port>)
    requires n <= 0x1_0000
    ensures |ports| == n && forall q: Port :: q in ports <==> q < n
  {
    if n == 0 then {} else PortsBelow(n - 1) + {n - 1}
  }

  lemma FullSetOfPorts(taken: set<Port>, n: nat)
    requires n == 0x1_0000
    ensures |taken| == n <==> forall q: Port :: q in taken
  {
    hide PortsBelow;
    var all := PortsBelow(n);
    assert all == taken + (all - taken);
    assert |all| == |taken| + |all - taken|;
  }

  /** The search takes its first port exactly when that is free. */
  lemma FreePortIsKept(taken: set<Port>, start: Port)
    ensures FirstFree(taken, start, 0) == Some(start) <==> start !in taken
  {
    hide FirstFree, Probe;
    FirstFreeIsFirst(taken, start, 0);
    FirstProbe(start);
  }

  lemma FirstProbe(start: Port)
    ensures Probe(start, 0) == start
  {
  }

  lemma NextPortIsFree(p: Port)
    ensures FirstFree({p}, p, 0) == Some(Probe(p, 1)) && Probe(p, 1) != p
  {
    hide FirstFree;
    FirstFreeIsFirst({p}, p, 0);
    FreePortIsKept({p}, p);
    assert Probe(p, 1) != p;
  }

  lemma EveryPortIsProbed(start: Port, q: Port)
    ensures exists n :: 0 <= n < 0x1_0000 && Probe(start, n) == q
  {
    var n: nat := if start <= q then q - start else q + 0x1_0000 - start;
    assert Probe(start, n) == q;
  }

  /** The search never ends exactly when 65536 external ports are taken. */
  lemma SearchFailsWhenFull(taken: set<Port>, start: Port)
    ensures FirstFree(taken, start, 0).None? <==> |taken| == 0x1_0000
    ensures FirstFree(taken, start, 0).Some? ==> FirstFree(taken, start, 0).value !in taken
  {
    hide Probe, FirstFree;
    FirstFreeIsFirst(taken, start, 0);
    FullSetOfPorts(taken, 0x1_0000);
    if FirstFree(taken, start, 0).None? {
      forall q: Port
        ensures q in taken
      {
        EveryPortIsProbed(start, q);
      }
    }
  }

  // ---------- The invariant ----------

  /** The two tables of the mapper are each other's inverse: the entry of a tuple
      is the entry of its external port, and conversely. */
  ghost predicate Inverse(m: Mapper) {
    && m.SymMapper?
    && (forall t :: t in m.byTuple ==>
      var e := m.byTuple[t]; e.inner == t && e.outer.dport in m.byPort && m.byPort[e.outer.dport] == e)
    && (forall q :: q in m.byPort ==>
      var e := m.byPort[q]; e.outer.dport == q && e.inner in m.byTuple && m.byTuple[e.inner] == e)
  }

  /** Every flow starts at a port that is not forwarded and awaits answers from where it goes. */
  ghost predicate Flows(cfg: Config, m: Mapper) {
    m.SymMapper? && forall t :: t in m.byTuple ==>
      t.sport !in cfg.dnat && m.byTuple[t].outer == ExtTuple(cfg, t, m.byTuple[t].outer.dport)
  }

  /** The filter holds key k exactly when k is the external tuple of a flow of the
      mapper, and with the deadline of that flow. */
  ghost predicate KeyInStep(m: Mapper, conn: map<Tuple, Entry>, k: Tuple)
    requires m.SymMapper?
  {
    && (k in conn <==> k.dport in m.byPort && m.byPort[k.dport].outer == k)
    && (k in conn ==> conn[k].deadline == m.byPort[k.dport].deadline)
  }

  ghost predicate InStep(cfg: Config, s: State) {
    && s.mapper.SymMapper? && s.filter.TupleFilter?
    && forall k: Tuple :: k.dport !in cfg.dnat ==> KeyInStep(s.mapper, s.filter.conn, k)
  }

  ghost predicate Consistent(cfg: Config, s: State) {
    Inverse(s.mapper) && Flows(cfg, s.mapper) && InStep(cfg, s)
  }

  lemma ExpiryKeepsConsistent(cfg: Config, s: State, now: nat)
    requires Consistent(cfg, s)
    ensures Consistent(cfg, ExpireAll(s, now))
  {
    var s' := ExpireAll(s, now);
    forall k: Tuple | k.dport !in cfg.dnat
      ensures KeyInStep(s'.mapper, s'.filter.conn, k)
    {
      assert KeyInStep(s.mapper, s.filter.conn, k);
    }
  }

  /** m' is m with the flow of t opened, or kept under its external port, until
      one timeout from now; no other flow is touched. */
  ghost predicate Arms(cfg: Config, m: Mapper, now: nat, t: Tuple, m': Mapper) {
    && Inverse(m) && Inverse(m') && Flows(cfg, m')
    && t.sport !in cfg.dnat && t in m'.byTuple
    && var e := m'.byTuple[t];
    && m'.byTuple == m.byTuple[t := e]
    && m'.byPort == m.byPort[e.outer.dport := e]
    && e.deadline == now + cfg.timeout
    && if t in m.byTuple then e.outer == m.byTuple[t].outer else e.outer.dport !in m.byPort
  }

  /** Mapping fails only when all external ports are taken. */
  lemma MappingArms(cfg: Config, m: Mapper, now: nat, t: Tuple)
    requires Inverse(m) && Flows(cfg, m) && t.sport !in cfg.dnat
    ensures match SymMapOut(cfg, m, now, t)
      case None => t !in m.byTuple && |m.byPort| == 0x1_0000
      case Some(m') => Arms(cfg, m, now, t, m')
  {
    SearchFailsWhenFull(m.byPort.Keys, t.sport);
    assert |m.byPort| == |m.byPort.Keys|;
  }

  /** An outgoing packet from a port that is not forwarded leaves with the external
      address and the port of its flow, and arms the filter for exactly the
      external tuple of the flow. */
  lemma OutgoingPacket(cfg: Config, s: State, now: nat, t: Tuple)
    requires Consistent(cfg, s) && t.sport !in cfg.dnat
    ensures var (s', out) := HandlePacket(cfg, s, now, Pkt(false, t));
      if out == Hang then
        s' == s.(mapper := Blocked) && t !in s.mapper.byTuple && |s.mapper.byPort| == 0x1_0000
      else
        && Arms(cfg, s.mapper, now, t, s'.mapper)
        && var r := s'.mapper.byTuple[t].outer;
        && s'.filter == TupleFilter(Touch(s.filter.conn, r, r, r.Reverse(), now + cfg.timeout))
        && out == Forward(r.Reverse())
        && r.Reverse() == t.(srcIp := cfg.extIp, sport := r.dport)
  {
    MappingArms(cfg, s.mapper, now, t);
    OutgoingUnfolds(cfg, s, now, t);
  }

  lemma OutgoingUnfolds(cfg: Config, s: State, now: nat, t: Tuple)
    requires s.mapper.SymMapper? && s.filter.TupleFilter? && t.sport !in cfg.dnat
    ensures HandlePacket(cfg, s, now, Pkt(false, t)) ==
      match SymMapOut(cfg, s.mapper, now, t)
      case None => (s.(mapper := Blocked), Hang)
      case Some(m) =>
        var x := MapOut(m.byTuple[t], t);
        var r := x.Reverse();
        (State(m, TupleFilter(Touch(s.filter.conn, r, r, x, now + cfg.timeout))), Forward(x))
  {
  }

  lemma IncomingPacket(cfg: Config, s: State, now: nat, t: Tuple)
    requires s.mapper.SymMapper? && s.filter.TupleFilter?
    ensures HandlePacket(cfg, s, now, Pkt(true, t)).0 == s
  {
  }

  lemma ForwardedPortPacket(cfg: Config, s: State, now: nat, t: Tuple)
    requires Consistent(cfg, s) && t.sport in cfg.dnat
    ensures Consistent(cfg, HandlePacket(cfg, s, now, Pkt(false, t)).0)
    ensures HandlePacket(cfg, s, now, Pkt(false, t)).0.mapper == s.mapper
    ensures HandlePacket(cfg, s, now, Pkt(false, t)).1 == Forward(t.(srcIp := cfg.extIp))
  {
    var s' := HandlePacket(cfg, s, now, Pkt(false, t)).0;
    forall k: Tuple | k.dport !in cfg.dnat
      ensures KeyInStep(s'.mapper, s'.filter.conn, k)
    {
      assert KeyInStep(s.mapper, s.filter.conn, k);
    }
  }

  lemma ArmingKeepsInStep(cfg: Config, m: Mapper, conn: map<Tuple, Entry>, now: nat, t: Tuple, m': Mapper, k: Tuple)
    requires Arms(cfg, m, now, t, m') && k.dport !in cfg.dnat
    requires KeyInStep(m, conn, k)
    ensures var r := m'.byTuple[t].outer;
      KeyInStep(m', Touch(conn, r, r, r.Reverse(), now + cfg.timeout), k)
  {
  }

  lemma OutgoingKeepsConsistent(cfg: Config, s: State, now: nat, t: Tuple)
    requires Consistent(cfg, s) && t.sport !in cfg.dnat
    ensures var (s', out) := HandlePacket(cfg, s, now, Pkt(false, t));
      if out == Hang then s'.mapper.Blocked? else Consistent(cfg, s')
  {
    OutgoingPacket(cfg, s, now, t);
    var (s', out) := HandlePacket(cfg, s, now, Pkt(false, t));
    if out != Hang {
      forall k: Tuple | k.dport !in cfg.dnat
        ensures KeyInStep(s'.mapper, s'.filter.conn, k)
      {
        assert KeyInStep(s.mapper, s.filter.conn, k);
        ArmingKeepsInStep(cfg, s.mapper, s.filter.conn, now, t, s'.mapper, k);
      }
    }
  }

  /** One event keeps the tables consistent, unless the packet hangs. */
  lemma StepKeepsConsistent(cfg: Config, s: State, e: Event)
    requires Consistent(cfg, s)
    ensures var (s', out) := Step(cfg, s, e);
      if out == Hang then s'.mapper.Blocked? else Consistent(cfg, s')
  {
    hide Consistent;
    var s0 := ExpireAll(s, e.now);
    ExpiryKeepsConsistent(cfg, s, e.now);
    assert s0.mapper.SymMapper? && s0.filter.TupleFilter? by {
      ConsistentTables(cfg, s0);
    }
    if e.pkt.ingoing {
      IncomingPacket(cfg, s0, e.now, e.pkt.tup);
    } else if e.pkt.tup.sport in cfg.dnat {
      ForwardedPortPacket(cfg, s0, e.now, e.pkt.tup);
    } else {
      OutgoingKeepsConsistent(cfg, s0, e.now, e.pkt.tup);
    }
  }

  lemma ConsistentTables(cfg: Config, s: State)
    requires Consistent(cfg, s)
    ensures s.mapper.SymMapper? && s.filter.TupleFilter?
  {
  }

  // ---------- The filter as history ----------

  /** A packet that goes out arms the external tuple it leaves with. */
  function FilterUse(out: Outcome, e: Event): Use<Tuple> {
    if !e.pkt.ingoing && out.Forward? then Arm(e.now, out.tup.Reverse(), out.tup.Reverse(), out.tup) else Idle(e.now)
  }

  function FilterUses(cfg: Config, evs: seq<Event>): seq<Use<Tuple>> {
    seq(|evs|, i requires 0 <= i < |evs| => FilterUse(OutcomeAt(cfg, evs, i), evs[i]))
  }

  /** Whatever the mapper does, one event is one use of the filter. */
  lemma FilterStep(cfg: Config, s: State, e: Event)
    requires s.filter.TupleFilter?
    ensures var (s', out) := Step(cfg, s, e);
      s'.filter == TupleFilter(Apply(cfg.timeout, s.filter.conn, FilterUse(out, e)))
  {
    hide CheckDnat, SymMapOut, ConeMapOut, Touch;
  }

  lemma {:induction false} FilterIsHistory(cfg: Config, evs: seq<Event>)
    requires cfg.kind.Symmetric?
    ensures Run(cfg, evs).filter == TupleFilter(After(cfg.timeout, FilterUses(cfg, evs)))
  {
    hide Step, Apply, FilterUse;
    if evs != [] {
      var n := |evs| - 1;
      FilterIsHistory(cfg, evs[..n]);
      FilterUsesOfPrefix(cfg, evs);
      FilterStep(cfg, Run(cfg, evs[..n]), evs[n]);
    }
  }

  lemma FilterUsesOfPrefix(cfg: Config, evs: seq<Event>)
    requires evs != []
    ensures FilterUses(cfg, evs)[..|evs| - 1] == FilterUses(cfg, evs[..|evs| - 1])
  {
    hide OutcomeAt, FilterUse;
    forall i | 0 <= i < |evs| - 1
      ensures OutcomeAt(cfg, evs[..|evs| - 1], i) == OutcomeAt(cfg, evs, i)
    {
      PrefixOutcome(cfg, evs, i);
    }
  }

  // ---------- Hanging ----------

  /** Some packet of the run hung. */
  ghost predicate Hung(cfg: Config, evs: seq<Event>) {
    exists i :: 0 <= i < |evs| && OutcomeAt(cfg, evs, i) == Hang
  }

  /** What became of an event does not depend on later ones. */
  lemma PrefixOutcome(cfg: Config, evs: seq<Event>, i: nat)
    requires i < |evs| - 1
    ensures OutcomeAt(cfg, evs[..|evs| - 1], i) == OutcomeAt(cfg, evs, i)
  {
    assert evs[..|evs| - 1][..i] == evs[..i];
  }

  lemma PrefixHung(cfg: Config, evs: seq<Event>)
    requires evs != []
    ensures var n := |evs| - 1;
      Hung(cfg, evs) <==> Hung(cfg, evs[..n]) || OutcomeAt(cfg, evs, n) == Hang
  {
    hide OutcomeAt;
    var n := |evs| - 1;
    forall i | 0 <= i < n
      ensures OutcomeAt(cfg, evs[..n], i) == OutcomeAt(cfg, evs, i)
    {
      PrefixOutcome(cfg, evs, i);
    }
  }

  /** A blocked mapper stays blocked. The filter has a lock and timers of its own:
      what it does not let in is dropped as before, what forwarding rules let pass
      passes, and everything else hangs. */
  lemma BlockedPacket(cfg: Config, s: State, e: Event)
    requires s.mapper.Blocked? && s.filter.TupleFilter?
    ensures var (s', out) := Step(cfg, s, e);
      && s'.mapper.Blocked? && s'.filter.TupleFilter?
      && out ==
        if e.pkt.ingoing then
          if e.pkt.tup.dport in cfg.dnat then
            var r := cfg.dnat[e.pkt.tup.dport];
            Forward(e.pkt.tup.(dstIp := r.ip, dport := r.port))
          else if e.pkt.tup in Expire(s.filter.conn, e.now) then Hang else Drop
        else if e.pkt.tup.sport in cfg.dnat then Forward(e.pkt.tup.(srcIp := cfg.extIp)) else Hang
  {
  }

  /** After every run mapper and filter are consistent, or a packet has hung and the
      mapper is blocked for ever. */
  lemma {:induction false} RunIsConsistent(cfg: Config, evs: seq<Event>)
    requires cfg.kind.Symmetric?
    ensures var s := Run(cfg, evs);
      if Hung(cfg, evs) then s.mapper.Blocked? && s.filter.TupleFilter? else Consistent(cfg, s)
  {
    hide Consistent, HandlePacket, ExpireAll, Hung;
    if evs == [] {
      InitIsConsistent(cfg);
    } else {
      var n := |evs| - 1;
      var s := Run(cfg, evs[..n]);
      RunIsConsistent(cfg, evs[..n]);
      PrefixHung(cfg, evs);
      if Hung(cfg, evs[..n]) {
        BlockedPacket(cfg, s, evs[n]);
      } else {
        StepKeepsConsistent(cfg, s, evs[n]);
        ConsistentTables(cfg, s);
        FilterStep(cfg, s, evs[n]);
      }
    }
  }

  lemma InitIsConsistent(cfg: Config)
    requires cfg.kind.Symmetric?
    ensures !Hung(cfg, []) && Consistent(cfg, Run(cfg, []))
  {
  }

  // ---------- Flows as history ----------

  /** Event i sent t out, translated to x. */
  ghost predicate Sent(cfg: Config, evs: seq<Event>, i: int, t: Tuple, x: Tuple) {
    0 <= i < |evs| && evs[i].pkt == Pkt(false, t) && OutcomeAt(cfg, evs, i) == Forward(x)
  }

  lemma PrefixSent(cfg: Config, evs: seq<Event>, i: nat, t: Tuple, x: Tuple)
    requires i < |evs| - 1
    ensures Sent(cfg, evs, i, t, x) == Sent(cfg, evs[..|evs| - 1], i, t, x)
  {
    assert evs[..|evs| - 1][..i] == evs[..i];
  }

  /** A flow that is live at an event keeps its external tuple through it and
      expires no earlier than before. */
  lemma LiveFlowStays(cfg: Config, s: State, e: Event, t: Tuple)
    requires Consistent(cfg, s) && t in s.mapper.byTuple && e.now < s.mapper.byTuple[t].deadline
    requires Step(cfg, s, e).1 != Hang
    ensures var m, m' := s.mapper, Step(cfg, s, e).0.mapper;
      m'.SymMapper? && t in m'.byTuple
      && m'.byTuple[t].outer == m.byTuple[t].outer
      && (m'.byTuple[t].deadline == m.byTuple[t].deadline
        || (e.pkt == Pkt(false, t) && m'.byTuple[t].deadline == e.now + cfg.timeout))
  {
    var s0 := ExpireAll(s, e.now);
    ExpiryKeepsConsistent(cfg, s, e.now);
    if e.pkt.ingoing {
      IncomingPacket(cfg, s0, e.now, e.pkt.tup);
    } else if e.pkt.tup.sport in cfg.dnat {
      ForwardedPortPacket(cfg, s0, e.now, e.pkt.tup);
    } else {
      OutgoingPacket(cfg, s0, e.now, e.pkt.tup);
    }
  }

  lemma SentFlowIsOpen(cfg: Config, s: State, e: Event, t: Tuple, x: Tuple)
    requires Consistent(cfg, s) && t.sport !in cfg.dnat
    requires e.pkt == Pkt(false, t) && Step(cfg, s, e).1 == Forward(x)
    ensures var m := Step(cfg, s, e).0.mapper;
      m.SymMapper? && t in m.byTuple
      && m.byTuple[t].outer == x.Reverse() && m.byTuple[t].deadline == e.now + cfg.timeout
  {
    ExpiryKeepsConsistent(cfg, s, e.now);
    OutgoingPacket(cfg, ExpireAll(s, e.now), e.now, t);
  }

  /** Unless the NAT has hung, the flow of a packet sent recently is still open, under
      the external tuple the packet left with. */
  lemma {:induction false} RecentFlowIsOpen(cfg: Config, evs: seq<Event>, i: nat, t: Tuple, x: Tuple, now: nat)
    requires cfg.kind.Symmetric? && InOrder(evs, now) && !Hung(cfg, evs)
    requires Sent(cfg, evs, i, t, x) && now < evs[i].now + cfg.timeout && t.sport !in cfg.dnat
    ensures var m := Run(cfg, evs).mapper;
      && m.SymMapper? && t in m.byTuple
      && m.byTuple[t].outer == x.Reverse() && evs[i].now + cfg.timeout <= m.byTuple[t].deadline
  {
    hide Consistent, HandlePacket, ExpireAll, Hung;
    var n := |evs| - 1;
    var s := Run(cfg, evs[..n]);
    PrefixHung(cfg, evs);
    RunIsConsistent(cfg, evs[..n]);
    if i == n {
      SentFlowIsOpen(cfg, s, evs[n], t, x);
    } else {
      PrefixSent(cfg, evs, i, t, x);
      RecentFlowIsOpen(cfg, evs[..n], i, t, x, evs[n].now);
      LiveFlowStays(cfg, s, evs[n], t);
    }
  }

  /** The last packet of an open flow set its deadline and left with its external tuple. */
  ghost predicate LastSent(cfg: Config, evs: seq<Event>, i: int, t: Tuple, e: Entry) {
    Sent(cfg, evs, i, t, e.outer.Reverse()) && e.deadline == evs[i].now + cfg.timeout
  }

  lemma {:induction false} OpenFlowWasSent(cfg: Config, evs: seq<Event>, t: Tuple)
    requires cfg.kind.Symmetric? && !Hung(cfg, evs)
    ensures var m := Run(cfg, evs).mapper;
      m.SymMapper? && (t in m.byTuple ==> exists i :: LastSent(cfg, evs, i, t, m.byTuple[t]))
  {
    hide Consistent, Step, Hung;
    RunHasTables(cfg, evs);
    if evs != [] && t in Run(cfg, evs).mapper.byTuple {
      var n := |evs| - 1;
      var s, e := Run(cfg, evs[..n]), Run(cfg, evs).mapper.byTuple[t];
      PrefixHung(cfg, evs);
      RunIsConsistent(cfg, evs[..n]);
      if evs[n].pkt == Pkt(false, t) && t.sport !in cfg.dnat {
        NotDropped(cfg, s, evs[n]);
        SentFlowIsOpen(cfg, s, evs[n], t, OutcomeAt(cfg, evs, n).tup);
        assert LastSent(cfg, evs, n, t, e);
      } else {
        UnsentFlowIsOld(cfg, s, evs[n], t);
        OpenFlowWasSent(cfg, evs[..n], t);
        var i :| LastSent(cfg, evs[..n], i, t, e);
        LastSentCarriesOver(cfg, evs, i, t, e);
      }
    }
  }

  lemma RunHasTables(cfg: Config, evs: seq<Event>)
    requires cfg.kind.Symmetric? && !Hung(cfg, evs)
    ensures Run(cfg, evs).mapper.SymMapper? && Run(cfg, evs).filter.TupleFilter?
  {
    RunIsConsistent(cfg, evs);
  }

  lemma NotDropped(cfg: Config, s: State, e: Event)
    requires Consistent(cfg, s) && !e.pkt.ingoing
    ensures Step(cfg, s, e).1 != Drop
  {
    ExpiryKeepsConsistent(cfg, s, e.now);
    if e.pkt.tup.sport in cfg.dnat {
      ForwardedPortPacket(cfg, ExpireAll(s, e.now), e.now, e.pkt.tup);
    } else {
      OutgoingPacket(cfg, ExpireAll(s, e.now), e.now, e.pkt.tup);
    }
  }

  lemma LastSentCarriesOver(cfg: Config, evs: seq<Event>, i: int, t: Tuple, e: Entry)
    requires evs != [] && LastSent(cfg, evs[..|evs| - 1], i, t, e)
    ensures LastSent(cfg, evs, i, t, e)
  {
    hide OutcomeAt;
    PrefixSent(cfg, evs, i, t, e.outer.Reverse());
  }

  /** An event that does not send t leaves at most the entry t had. */
  lemma UnsentFlowIsOld(cfg: Config, s: State, e: Event, t: Tuple)
    requires Consistent(cfg, s)
    requires e.pkt != Pkt(false, t) || t.sport in cfg.dnat
    ensures var m, m' := s.mapper, Step(cfg, s, e).0.mapper;
      m'.SymMapper? ==> (t in m'.byTuple ==> t in m.byTuple && m'.byTuple[t] == m.byTuple[t])
  {
    var s0 := ExpireAll(s, e.now);
    ExpiryKeepsConsistent(cfg, s, e.now);
    if e.pkt.ingoing {
      IncomingPacket(cfg, s0, e.now, e.pkt.tup);
    } else if e.pkt.tup.sport in cfg.dnat {
      ForwardedPortPacket(cfg, s0, e.now, e.pkt.tup);
    } else {
      OutgoingPacket(cfg, s0, e.now, e.pkt.tup);
    }
  }

  // ---------- The theorems ----------

  /** Event i recently sent t out as x. */
  ghost predicate SentAs(cfg: Config, evs: seq<Event>, i: int, now: nat, t: Tuple, x: Tuple) {
    Sent(cfg, evs, i, t, x) && now < evs[i].now + cfg.timeout
  }

  /** The live keys of the filter are the reverses of the translated packets sent
      within the last timeout, hung or not. */
  lemma FilterHoldsSent(cfg: Config, evs: seq<Event>, now: nat, q: Tuple)
    requires cfg.kind.Symmetric? && InOrder(evs, now)
    ensures Run(cfg, evs).filter.TupleFilter?
    ensures q in Expire(Run(cfg, evs).filter.conn, now) <==> exists i, t :: SentAs(cfg, evs, i, now, t, q.Reverse())
  {
    hide Expire, After, Step;
    var uses := FilterUses(cfg, evs);
    FilterIsHistory(cfg, evs);
    HoldsRecentKeys(cfg.timeout, uses, q, now);
    if i, t :| SentAs(cfg, evs, i, now, t, q.Reverse()) {
      assert uses[i] == FilterUse(OutcomeAt(cfg, evs, i), evs[i]);
      assert Recent(cfg.timeout, uses, i, q, now);
    }
    if i :| Recent(cfg.timeout, uses, i, q, now) {
      assert uses[i] == FilterUse(OutcomeAt(cfg, evs, i), evs[i]);
      assert SentAs(cfg, evs, i, now, evs[i].pkt.tup, q.Reverse());
    }
  }

  /** On a port that is not forwarded, an incoming packet gets through exactly when
      nothing has hung and it is the reverse of a translated packet sent recently, and
      it becomes the exact reverse of the packet that was translated. Once the NAT has
      hung the same packets hang. All others are dropped. */
  lemma IncomingAnswersOutgoing(cfg: Config, evs: seq<Event>, now: nat, q: Tuple, r: Tuple)
    requires cfg.kind.Symmetric? && InOrder(evs, now) && q.dport !in cfg.dnat
    ensures var out := OutcomeOf(cfg, evs, now, Pkt(true, q));
      && (out == Forward(r) <==> !Hung(cfg, evs) && exists i :: SentAs(cfg, evs, i, now, r.Reverse(), q.Reverse()))
      && (out == Hang <==> Hung(cfg, evs) && exists i, t :: SentAs(cfg, evs, i, now, t, q.Reverse()))
  {
    hide Hung, Consistent, SentAs;
    var s := Run(cfg, evs);
    RunIsConsistent(cfg, evs);
    FilterHoldsSent(cfg, evs, now, q);
    if Hung(cfg, evs) {
      BlockedPacket(cfg, s, Event(now, Pkt(true, q)));
    } else {
      AnswerMeetsFlow(cfg, s, now, q);
      if i :| SentAs(cfg, evs, i, now, r.Reverse(), q.Reverse()) {
        AnswerIsForwarded(cfg, evs, i, now, q, r);
      }
      if OutcomeOf(cfg, evs, now, Pkt(true, q)) == Forward(r) {
        ForwardedIsAnswer(cfg, evs, now, q, r);
      }
    }
  }

  /** The flow an incoming packet belongs to. */
  ghost predicate FlowOf(cfg: Config, s: State, now: nat, q: Tuple, t: Tuple) {
    && s.mapper.SymMapper? && t in s.mapper.byTuple
    && s.mapper.byTuple[t].outer == q && now < s.mapper.byTuple[t].deadline
  }

  /** With consistent tables an incoming packet is forwarded to the flow whose external
      tuple it carries, if there is one, and dropped otherwise. */
  lemma AnswerMeetsFlow(cfg: Config, s: State, now: nat, q: Tuple)
    requires Consistent(cfg, s) && q.dport !in cfg.dnat
    ensures var out := Step(cfg, s, Event(now, Pkt(true, q))).1;
      && (out == Drop || (out.Forward? && FlowOf(cfg, s, now, q, out.tup.Reverse())))
      && forall t :: FlowOf(cfg, s, now, q, t) ==> out == Forward(t.Reverse())
  {
    var s0 := ExpireAll(s, now);
    ExpiryKeepsConsistent(cfg, s, now);
    assert KeyInStep(s0.mapper, s0.filter.conn, q);
  }

  lemma AnswerIsForwarded(cfg: Config, evs: seq<Event>, i: int, now: nat, q: Tuple, r: Tuple)
    requires cfg.kind.Symmetric? && InOrder(evs, now) && q.dport !in cfg.dnat && !Hung(cfg, evs)
    requires SentAs(cfg, evs, i, now, r.Reverse(), q.Reverse())
    ensures OutcomeOf(cfg, evs, now, Pkt(true, q)) == Forward(r)
  {
    hide Hung, Consistent, Step;
    SentFromUnforwardedPort(cfg, evs, i, r.Reverse(), q.Reverse());
    RecentFlowIsOpen(cfg, evs, i, r.Reverse(), q.Reverse(), now);
    RunIsConsistent(cfg, evs);
    AnswerMeetsFlow(cfg, Run(cfg, evs), now, q);
    assert FlowOf(cfg, Run(cfg, evs), now, q, r.Reverse());
  }

  lemma ForwardedIsAnswer(cfg: Config, evs: seq<Event>, now: nat, q: Tuple, r: Tuple)
    requires cfg.kind.Symmetric? && q.dport !in cfg.dnat && !Hung(cfg, evs)
    requires OutcomeOf(cfg, evs, now, Pkt(true, q)) == Forward(r)
    ensures exists i :: SentAs(cfg, evs, i, now, r.Reverse(), q.Reverse())
  {
    hide Hung, Consistent, Step;
    RunIsConsistent(cfg, evs);
    AnswerMeetsFlow(cfg, Run(cfg, evs), now, q);
    OpenFlowWasSent(cfg, evs, r.Reverse());
    var e := Run(cfg, evs).mapper.byTuple[r.Reverse()];
    var i :| LastSent(cfg, evs, i, r.Reverse(), e);
    assert SentAs(cfg, evs, i, now, r.Reverse(), q.Reverse());
  }

  /** Packets sent from forwarded ports leave by forwarded ports. */
  lemma SentFromUnforwardedPort(cfg: Config, evs: seq<Event>, i: nat, t: Tuple, x: Tuple)
    requires cfg.kind.Symmetric? && Sent(cfg, evs, i, t, x) && x.sport !in cfg.dnat
    ensures t.sport !in cfg.dnat
  {
    if t.sport in cfg.dnat {
      ForwardedPortLeavesAsIs(cfg, evs[..i], evs[i].now, t);
    }
  }

  lemma ForwardedPortLeavesAsIs(cfg: Config, evs: seq<Event>, now: nat, t: Tuple)
    requires cfg.kind.Symmetric? && t.sport in cfg.dnat
    ensures OutcomeOf(cfg, evs, now, Pkt(false, t)) == Forward(t.(srcIp := cfg.extIp))
  {
    hide Hung, Consistent;
    var s := Run(cfg, evs);
    RunIsConsistent(cfg, evs);
    if Hung(cfg, evs) {
      BlockedPacket(cfg, s, Event(now, Pkt(false, t)));
    } else {
      ExpiryKeepsConsistent(cfg, s, now);
      ForwardedPortPacket(cfg, ExpireAll(s, now), now, t);
    }
  }

  /** Once the NAT has hung, nothing goes out from a port that is not forwarded. */
  lemma HungSendsNothing(cfg: Config, evs: seq<Event>, now: nat, t: Tuple)
    requires cfg.kind.Symmetric? && Hung(cfg, evs) && t.sport !in cfg.dnat
    ensures OutcomeOf(cfg, evs, now, Pkt(false, t)) == Hang
  {
    hide Hung;
    RunIsConsistent(cfg, evs);
    BlockedPacket(cfg, Run(cfg, evs), Event(now, Pkt(false, t)));
  }

  lemma {:induction false} OpenFlowsHaveTheirOwnPorts(
    cfg: Config, evs: seq<Event>, now: nat, i: nat, j: nat, t: Tuple, x: Tuple, u: Tuple, y: Tuple)
    requires cfg.kind.Symmetric? && InOrder(evs, now)
    requires SentAs(cfg, evs, i, now, t, x) && SentAs(cfg, evs, j, now, u, y)
    requires t.sport !in cfg.dnat && u.sport !in cfg.dnat
    ensures x.sport == y.sport <==> t == u
    decreases |evs|
  {
    hide Hung, Step;
    if !Hung(cfg, evs) {
      RecentFlowIsOpen(cfg, evs, i, t, x, now);
      RecentFlowIsOpen(cfg, evs, j, u, y, now);
      RunIsConsistent(cfg, evs);
    } else {
      SentBeforeHang(cfg, evs, i, t, x);
      SentBeforeHang(cfg, evs, j, u, y);
      OpenFlowsHaveTheirOwnPorts(cfg, evs[..|evs| - 1], evs[|evs| - 1].now, i, j, t, x, u, y);
    }
  }

  /** A packet sent recently that left by a port that is not forwarded shares that port
      with another exactly when the two belong to the same flow. */
  lemma FlowsHaveTheirOwnPorts(
    cfg: Config, evs: seq<Event>, now: nat, i: nat, j: nat, t: Tuple, x: Tuple, u: Tuple, y: Tuple)
    requires cfg.kind.Symmetric? && InOrder(evs, now)
    requires SentAs(cfg, evs, i, now, t, x) && SentAs(cfg, evs, j, now, u, y)
    requires x.sport !in cfg.dnat
    ensures x.sport == y.sport <==> t == u
  {
    hide OutcomeAt;
    SentFromUnforwardedPort(cfg, evs, i, t, x);
    if u.sport in cfg.dnat {
      SentFromForwardedPort(cfg, evs, j, u, y);
    } else {
      OpenFlowsHaveTheirOwnPorts(cfg, evs, now, i, j, t, x, u, y);
    }
  }

  lemma SentFromForwardedPort(cfg: Config, evs: seq<Event>, i: nat, t: Tuple, x: Tuple)
    requires cfg.kind.Symmetric? && Sent(cfg, evs, i, t, x) && t.sport in cfg.dnat
    ensures x == t.(srcIp := cfg.extIp)
  {
    ForwardedPortLeavesAsIs(cfg, evs[..i], evs[i].now, t);
  }

  /** All flows from a forwarded port leave by it. */
  lemma ForwardedFlowsShareTheirPort(cfg: Config, now: nat, t: Tuple, u: Tuple)
    requires cfg.kind.Symmetric? && cfg.timeout > 0 && t.sport == u.sport && t.sport in cfg.dnat
    ensures var evs := [Event(now, Pkt(false, t)), Event(now, Pkt(false, u))];
      && SentAs(cfg, evs, 0, now, t, t.(srcIp := cfg.extIp))
      && SentAs(cfg, evs, 1, now, u, u.(srcIp := cfg.extIp))
  {
    hide Step;
    var evs := [Event(now, Pkt(false, t)), Event(now, Pkt(false, u))];
    ForwardedPortLeavesAsIs(cfg, evs[..0], now, t);
    ForwardedPortLeavesAsIs(cfg, evs[..1], now, u);
  }

  /** In a run that hung, a packet sent from a port that is not forwarded is not the last. */
  lemma SentBeforeHang(cfg: Config, evs: seq<Event>, i: nat, t: Tuple, x: Tuple)
    requires cfg.kind.Symmetric? && Hung(cfg, evs) && Sent(cfg, evs, i, t, x) && t.sport !in cfg.dnat
    ensures i < |evs| - 1 && Sent(cfg, evs[..|evs| - 1], i, t, x)
  {
    hide Hung;
    PrefixHung(cfg, evs);
    if i == |evs| - 1 {
      HungSendsNothing(cfg, evs[..i], evs[i].now, t);
    } else {
      PrefixSent(cfg, evs, i, t, x);
    }
  }

  /** While a packet of a flow is recent, the next one leaves the same way, unless the
      NAT has hung and the port is not forwarded. */
  lemma FlowKeepsItsPort(cfg: Config, evs: seq<Event>, now: nat, i: nat, t: Tuple, x: Tuple)
    requires cfg.kind.Symmetric? && InOrder(evs, now) && SentAs(cfg, evs, i, now, t, x)
    ensures OutcomeOf(cfg, evs, now, Pkt(false, t)) ==
      if Hung(cfg, evs) && t.sport !in cfg.dnat then Hang else Forward(x)
  {
    hide Hung;
    if t.sport in cfg.dnat {
      ForwardedPortLeavesAsIs(cfg, evs[..i], evs[i].now, t);
      ForwardedPortLeavesAsIs(cfg, evs, now, t);
    } else if Hung(cfg, evs) {
      HungSendsNothing(cfg, evs, now, t);
    } else {
      RunIsConsistent(cfg, evs);
      ExpiryKeepsConsistent(cfg, Run(cfg, evs), now);
      RecentFlowIsOpen(cfg, evs, i, t, x, now);
      OutgoingPacket(cfg, ExpireAll(Run(cfg, evs), now), now, t);
    }
  }

  /** A new flow leaves by the first external port at or after its source port, in
      cyclic order, that no open flow has; it keeps its port exactly when that port is
      free. */
  lemma NewFlowTakesFirstFreePort(cfg: Config, evs: seq<Event>, now: nat, t: Tuple, x: Tuple)
    requires cfg.kind.Symmetric? && t.sport !in cfg.dnat
    requires OutcomeOf(cfg, evs, now, Pkt(false, t)) == Forward(x)
    ensures Run(cfg, evs).mapper.SymMapper?
    ensures var m := ExpireAll(Run(cfg, evs), now).mapper;
      t !in m.byTuple ==>
        && (x.sport == t.sport <==> t.sport !in m.byPort)
        && exists n ::
          && 0 <= n < 0x1_0000
          && x == t.(srcIp := cfg.extIp, sport := Probe(t.sport, n)) && x.sport !in m.byPort
          && forall k :: 0 <= k < n ==> Probe(t.sport, k) in m.byPort
  {
    hide Hung;
    if Hung(cfg, evs) {
      HungSendsNothing(cfg, evs, now, t);
    }
    RunHasTables(cfg, evs);
    var s0 := ExpireAll(Run(cfg, evs), now);
    OutgoingUnfolds(cfg, s0, now, t);
    if t !in s0.mapper.byTuple {
      FirstFreeIsFirst(s0.mapper.byPort.Keys, t.sport, 0);
      FreePortIsKept(s0.mapper.byPort.Keys, t.sport);
    }
  }

  lemma OneKeyLess<K, V>(m: map<K, V>, k: K)
    requires k in m
    ensures |m - {k}| == |m| - 1
  {
    assert m.Keys == (m - {k}).Keys + {k};
  }

  lemma InverseWithout(m: Mapper, t: Tuple)
    requires Inverse(m) && t in m.byTuple
    ensures Inverse(SymMapper(m.byTuple - {t}, m.byPort - {m.byTuple[t].outer.dport}))
  {
  }

  /** There are as many flows as external ports in use. */
  lemma {:induction false} OneFlowPerPort(m: Mapper)
    requires Inverse(m)
    ensures |m.byTuple| == |m.byPort|
    decreases |m.byTuple|
  {
    if t :| t in m.byTuple {
      var q := m.byTuple[t].outer.dport;
      InverseWithout(m, t);
      OneKeyLess(m.byTuple, t);
      OneKeyLess(m.byPort, q);
      OneFlowPerPort(SymMapper(m.byTuple - {t}, m.byPort - {q}));
    } else if q :| q in m.byPort {
      assert false;
    }
  }

  /** The NAT hangs on an outgoing packet exactly when its port is not forwarded and
      the NAT has hung before, or the packet would open a new flow and 65536 flows
      are open. */
  lemma HangsWhenFull(cfg: Config, evs: seq<Event>, now: nat, t: Tuple)
    requires cfg.kind.Symmetric?
    ensures Hung(cfg, evs) || Run(cfg, evs).mapper.SymMapper?
    ensures OutcomeOf(cfg, evs, now, Pkt(false, t)) == Hang <==>
      t.sport !in cfg.dnat && (Hung(cfg, evs) ||
        var flows := Expire(Run(cfg, evs).mapper.byTuple, now);
        t !in flows && |flows| == 0x1_0000)
  {
    hide Hung;
    var s := Run(cfg, evs);
    RunIsConsistent(cfg, evs);
    if t.sport in cfg.dnat {
      ForwardedPortLeavesAsIs(cfg, evs, now, t);
    } else if Hung(cfg, evs) {
      HungSendsNothing(cfg, evs, now, t);
    } else {
      var s0 := ExpireAll(s, now);
      ExpiryKeepsConsistent(cfg, s, now);
      OneFlowPerPort(s0.mapper);
      SearchFailsWhenFull(s0.mapper.byPort.Keys, t.sport);
      assert |s0.mapper.byPort| == |s0.mapper.byPort.Keys|;
      OutgoingUnfolds(cfg, s0, now, t);
    }
  }
}
