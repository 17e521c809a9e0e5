// Full cone, address restricted and port restricted NAT: what an incoming packet
// meets is decided by the packets sent out within the last timeout.

module ConeNat {
  import opened Packets
  import opened TimedTable
  import opened NatSpec

  predicate IsCone(cfg: Config) {
    !cfg.kind.Symmetric?
  }

  // ---------- The tables as histories of uses ----------

  function PortUse(cfg: Config, e: Event): Use<Port> {
    var t := e.pkt.tup;
    if e.pkt.ingoing || t.sport in cfg.dnat then Idle(e.now)
    else Arm(e.now, t.sport, ExtTuple(cfg, t, t.sport), t)
  }

  function TupleUse(cfg: Config, e: Event): Use<Tuple> {
    var t := e.pkt.tup.(srcIp := cfg.extIp);
    if e.pkt.ingoing then Idle(e.now) else Arm(e.now, t.Reverse(), t.Reverse(), t)
  }

  function AddrUse(cfg: Config, e: Event): Use<AddrKey> {
    var t := e.pkt.tup.(srcIp := cfg.extIp);
    if e.pkt.ingoing then Idle(e.now) else Arm(e.now, t.Reverse().ToAddrKey(), t.Reverse(), t)
  }

  function PortUses(cfg: Config, evs: seq<Event>): seq<Use<Port>> {
    seq(|evs|, i requires 0 <= i < |evs| => PortUse(cfg, evs[i]))
  }

  function TupleUses(cfg: Config, evs: seq<Event>): seq<Use<Tuple>> {
    seq(|evs|, i requires 0 <= i < |evs| => TupleUse(cfg, evs[i]))
  }

  function AddrUses(cfg: Config, evs: seq<Event>): seq<Use<AddrKey>> {
    seq(|evs|, i requires 0 <= i < |evs| => AddrUse(cfg, evs[i]))
  }

  function FilterAfter(cfg: Config, evs: seq<Event>): Filter
    requires IsCone(cfg)
  {
    match cfg.kind
    case PortRestricted => TupleFilter(After(cfg.timeout, TupleUses(cfg, evs)))
    case AddrRestricted => AddrFilter(After(cfg.timeout, AddrUses(cfg, evs)))
    case FullCone => OpenFilter
  }

  /** A cone mapper never translates a port. */
  ghost predicate KeepsPorts(cfg: Config, ports: map<Port, Entry>) {
    forall q :: q in ports ==>
      ports[q].outer.dstIp == cfg.extIp && ports[q].outer.dport == q && ports[q].inner.sport == q
  }

  function ApplyFilter(cfg: Config, f: Filter, e: Event): Filter {
    match f
    case TupleFilter(conn) => TupleFilter(Apply(cfg.timeout, conn, TupleUse(cfg, e)))
    case AddrFilter(addrs) => AddrFilter(Apply(cfg.timeout, addrs, AddrUse(cfg, e)))
    case OpenFilter => f
  }

  /** One event, whatever its outcome, is one use of each table. */
  lemma StepIsUse(cfg: Config, ports: map<Port, Entry>, f: Filter, e: Event)
    requires KeepsPorts(cfg, ports)
    ensures var (s, out) := Step(cfg, State(ConeMapper(ports), f), e);
      && s == State(ConeMapper(Apply(cfg.timeout, ports, PortUse(cfg, e))), ApplyFilter(cfg, f, e))
      && (!e.pkt.ingoing ==> out == Forward(e.pkt.tup.(srcIp := cfg.extIp)))
    ensures KeepsPorts(cfg, Apply(cfg.timeout, ports, PortUse(cfg, e)))
  {
  }

  /** The state after any run is the pair of tables its uses call for. */
  lemma {:induction false} RunIsHistory(cfg: Config, evs: seq<Event>)
    requires IsCone(cfg)
    ensures Run(cfg, evs) == State(ConeMapper(After(cfg.timeout, PortUses(cfg, evs))), FilterAfter(cfg, evs))
    ensures KeepsPorts(cfg, After(cfg.timeout, PortUses(cfg, evs)))
  {
    if evs != [] {
      var n := |evs| - 1;
      RunIsHistory(cfg, evs[..n]);
      assert PortUses(cfg, evs)[..n] == PortUses(cfg, evs[..n]);
      assert TupleUses(cfg, evs)[..n] == TupleUses(cfg, evs[..n]);
      assert AddrUses(cfg, evs)[..n] == AddrUses(cfg, evs[..n]);
      var s := Run(cfg, evs[..n]);
      StepIsUse(cfg, s.mapper.ports, s.filter, evs[n]);
    }
  }

  // ---------- Outgoing packets ----------

  /** Every outgoing packet is forwarded with the external address in place of its
      source address and nothing else changed, whatever went before. */
  lemma OutgoingKeepsPort(cfg: Config, evs: seq<Event>, now: nat, t: Tuple)
    requires IsCone(cfg)
    ensures OutcomeOf(cfg, evs, now, Pkt(false, t)) == Forward(t.(srcIp := cfg.extIp))
  {
    RunIsHistory(cfg, evs);
    var s := Run(cfg, evs);
    StepIsUse(cfg, s.mapper.ports, s.filter, Event(now, Pkt(false, t)));
  }

  // ---------- Incoming packets ----------

  /** Event o opened the mapping that port q last had. */
  ghost predicate OpenedBy(cfg: Config, evs: seq<Event>, o: int, q: Port) {
    0 <= o < |evs| && Opener(cfg.timeout, PortUses(cfg, evs), o, q)
  }

  /** Port q was used from inside within the timeout before now. */
  ghost predicate PortInUse(cfg: Config, evs: seq<Event>, now: nat, q: Port) {
    exists i :: RecentlySent(cfg, evs, i, now) && evs[i].pkt.tup.sport == q
  }

  /** Someone inside recently wrote through the port t is for to the address t is from. */
  ghost predicate AddrSolicited(cfg: Config, evs: seq<Event>, now: nat, t: Tuple) {
    exists i :: RecentlySent(cfg, evs, i, now)
      && evs[i].pkt.tup.sport == t.dport && evs[i].pkt.tup.dstIp == t.srcIp && evs[i].pkt.tup.proto == t.proto
  }

  /** Someone inside recently wrote through the port t is for to the address and port t is from. */
  ghost predicate PortSolicited(cfg: Config, evs: seq<Event>, now: nat, t: Tuple) {
    exists i :: RecentlySent(cfg, evs, i, now)
      && evs[i].pkt.tup.sport == t.dport && evs[i].pkt.tup.dstIp == t.srcIp
      && evs[i].pkt.tup.dport == t.sport && evs[i].pkt.tup.proto == t.proto
  }

  /** The packets a cone NAT lets in, by its kind. */
  ghost predicate Admitted(cfg: Config, evs: seq<Event>, now: nat, t: Tuple) {
    match cfg.kind
    case FullCone => PortInUse(cfg, evs, now, t.dport)
    case AddrRestricted => AddrSolicited(cfg, evs, now, t) && t.dstIp == cfg.extIp
    case PortRestricted => PortSolicited(cfg, evs, now, t) && t.dstIp == cfg.extIp
    case Symmetric => false
  }

  lemma PortTable(cfg: Config, evs: seq<Event>, now: nat, q: Port)
    requires InOrder(evs, now) && q !in cfg.dnat
    ensures q in Expire(After(cfg.timeout, PortUses(cfg, evs)), now) <==> PortInUse(cfg, evs, now, q)
  {
    hide After, Expire;
    var uses := PortUses(cfg, evs);
    HoldsRecentKeys(cfg.timeout, uses, q, now);
    if PortInUse(cfg, evs, now, q) {
      var i :| RecentlySent(cfg, evs, i, now) && evs[i].pkt.tup.sport == q;
      assert uses[i].key == q;
      assert Recent(cfg.timeout, uses, i, q, now);
    }
    if i :| Recent(cfg.timeout, uses, i, q, now) {
      assert RecentlySent(cfg, evs, i, now);
    }
  }

  lemma PortOwner(cfg: Config, evs: seq<Event>, now: nat, q: Port)
    requires InOrder(evs, now) && q in After(cfg.timeout, PortUses(cfg, evs))
    ensures exists o :: OpenedBy(cfg, evs, o, q) && After(cfg.timeout, PortUses(cfg, evs))[q].inner == evs[o].pkt.tup
  {
    hide After;
    var uses := PortUses(cfg, evs);
    EntryIsExplained(cfg.timeout, uses, q, now);
    var o :| Opener(cfg.timeout, uses, o, q) && After(cfg.timeout, uses)[q].inner == uses[o].inner;
    assert uses[o] == PortUse(cfg, evs[o]);
    assert OpenedBy(cfg, evs, o, q);
  }

  lemma TupleTable(cfg: Config, evs: seq<Event>, now: nat, t: Tuple)
    requires InOrder(evs, now)
    ensures t in Expire(After(cfg.timeout, TupleUses(cfg, evs)), now)
      <==> PortSolicited(cfg, evs, now, t) && t.dstIp == cfg.extIp
  {
    var uses := TupleUses(cfg, evs);
    HoldsRecentKeys(cfg.timeout, uses, t, now);
    if PortSolicited(cfg, evs, now, t) && t.dstIp == cfg.extIp {
      var i :| RecentlySent(cfg, evs, i, now)
        && evs[i].pkt.tup.sport == t.dport && evs[i].pkt.tup.dstIp == t.srcIp
        && evs[i].pkt.tup.dport == t.sport && evs[i].pkt.tup.proto == t.proto;
      assert uses[i].key == t;
      assert Recent(cfg.timeout, uses, i, t, now);
    }
    if i :| Recent(cfg.timeout, uses, i, t, now) {
      assert RecentlySent(cfg, evs, i, now);
    }
  }

  lemma AddrTable(cfg: Config, evs: seq<Event>, now: nat, t: Tuple)
    requires InOrder(evs, now)
    ensures t.ToAddrKey() in Expire(After(cfg.timeout, AddrUses(cfg, evs)), now)
      <==> AddrSolicited(cfg, evs, now, t) && t.dstIp == cfg.extIp
  {
    var uses, key := AddrUses(cfg, evs), t.ToAddrKey();
    HoldsRecentKeys(cfg.timeout, uses, key, now);
    if AddrSolicited(cfg, evs, now, t) && t.dstIp == cfg.extIp {
      var i :| RecentlySent(cfg, evs, i, now)
        && evs[i].pkt.tup.sport == t.dport && evs[i].pkt.tup.dstIp == t.srcIp && evs[i].pkt.tup.proto == t.proto;
      assert uses[i].key == key;
      assert Recent(cfg.timeout, uses, i, key, now);
    }
    if i :| Recent(cfg.timeout, uses, i, key, now) {
      assert RecentlySent(cfg, evs, i, now);
    }
  }

  /** On a port that is not forwarded, an incoming packet gets through exactly when
      its kind of NAT admits it, and then to the host that opened the port. */
  lemma IncomingRefinesHistory(cfg: Config, evs: seq<Event>, now: nat, t: Tuple)
    requires IsCone(cfg) && InOrder(evs, now) && t.dport !in cfg.dnat
    ensures var out := OutcomeOf(cfg, evs, now, Pkt(true, t));
      if Admitted(cfg, evs, now, t)
      then exists o :: OpenedBy(cfg, evs, o, t.dport) && out == Forward(t.(dstIp := evs[o].pkt.tup.srcIp))
      else out == Drop
  {
    RunIsHistory(cfg, evs);
    PortTable(cfg, evs, now, t.dport);
    if t.dport in After(cfg.timeout, PortUses(cfg, evs)) {
      PortOwner(cfg, evs, now, t.dport);
    }
    TupleTable(cfg, evs, now, t);
    AddrTable(cfg, evs, now, t);
    AdmittedPortIsInUse(cfg, evs, now, t);
  }

  /** What asks for an answer also holds the port the answer comes in by. */
  lemma AdmittedPortIsInUse(cfg: Config, evs: seq<Event>, now: nat, t: Tuple)
    ensures PortSolicited(cfg, evs, now, t) ==> AddrSolicited(cfg, evs, now, t)
    ensures AddrSolicited(cfg, evs, now, t) ==> PortInUse(cfg, evs, now, t.dport)
  {
  }

  /** When a single host sends, every packet that gets through goes to that host. */
  lemma SingleHost(cfg: Config, evs: seq<Event>, now: nat, t: Tuple, host: Ip)
    requires IsCone(cfg) && InOrder(evs, now) && t.dport !in cfg.dnat
    requires forall i :: 0 <= i < |evs| && !evs[i].pkt.ingoing ==> evs[i].pkt.tup.srcIp == host
    ensures OutcomeOf(cfg, evs, now, Pkt(true, t)) ==
      if Admitted(cfg, evs, now, t) then Forward(t.(dstIp := host)) else Drop
  {
    IncomingRefinesHistory(cfg, evs, now, t);
    if Admitted(cfg, evs, now, t) {
      var o :| OpenedBy(cfg, evs, o, t.dport)
        && OutcomeOf(cfg, evs, now, Pkt(true, t)) == Forward(t.(dstIp := evs[o].pkt.tup.srcIp));
      assert PortUses(cfg, evs)[o] == PortUse(cfg, evs[o]);
    }
  }

  /** The host that opened the port of t, or took it over when it had run out, is the
      sender of t. */
  ghost predicate OwnsPort(cfg: Config, evs: seq<Event>, t: Tuple) {
    exists o :: OpenedBy(cfg, evs, o, t.sport) && evs[o].pkt.tup.srcIp == t.srcIp
  }

  /** The answer to a packet that went out reaches its sender within the timeout exactly
      when the sender has opened the port, or the port is forwarded to him. */
  lemma AnswerReachesSender(cfg: Config, evs: seq<Event>, now: nat, t: Tuple, later: nat)
    requires IsCone(cfg) && InOrder(evs, now) && now <= later < now + cfg.timeout
    ensures var evs' := evs + [Event(now, Pkt(false, t))];
      OutcomeOf(cfg, evs', later, Pkt(true, t.(srcIp := cfg.extIp).Reverse())) == Forward(t.Reverse()) <==>
        if t.sport in cfg.dnat then cfg.dnat[t.sport] == Rule(t.srcIp, t.sport) else OwnsPort(cfg, evs', t)
  {
    hide Step, Opener, Admitted;
    var evs', q := evs + [Event(now, Pkt(false, t))], t.(srcIp := cfg.extIp).Reverse();
    if t.sport in cfg.dnat {
      ForwardedAnswer(cfg, Run(cfg, evs'), later, t, t.sport);
    } else {
      JustSentIsAdmitted(cfg, evs, now, t, later);
      IncomingRefinesHistory(cfg, evs', later, q);
      var o :| OpenedBy(cfg, evs', o, t.sport)
        && OutcomeOf(cfg, evs', later, Pkt(true, q)) == Forward(q.(dstIp := evs'[o].pkt.tup.srcIp));
      if o' :| OpenedBy(cfg, evs', o', t.sport) && evs'[o'].pkt.tup.srcIp == t.srcIp {
        OneOpener(cfg, evs', o, o', t.sport);
      }
    }
  }

  lemma JustSentIsAdmitted(cfg: Config, evs: seq<Event>, now: nat, t: Tuple, later: nat)
    requires IsCone(cfg) && now <= later < now + cfg.timeout
    ensures Admitted(cfg, evs + [Event(now, Pkt(false, t))], later, t.(srcIp := cfg.extIp).Reverse())
  {
    var evs' := evs + [Event(now, Pkt(false, t))];
    assert RecentlySent(cfg, evs', |evs|, later) && evs'[|evs|].pkt.tup == t;
  }

  lemma OneOpener(cfg: Config, evs: seq<Event>, o: int, o': int, q: Port)
    requires OpenedBy(cfg, evs, o, q) && OpenedBy(cfg, evs, o', q)
    ensures o == o'
  {
    hide Starts;
  }

  /** Of two hosts that send from one port the second does not get its answers. */
  lemma SecondHostLosesAnswers(cfg: Config, now: nat, t: Tuple, u: Tuple)
    requires IsCone(cfg) && cfg.timeout > 0
    requires t.sport == u.sport && t.sport !in cfg.dnat && t.srcIp != u.srcIp
    ensures var evs := [Event(now, Pkt(false, t)), Event(now, Pkt(false, u))];
      OutcomeOf(cfg, evs, now, Pkt(true, u.(srcIp := cfg.extIp).Reverse())) != Forward(u.Reverse())
  {
    hide OutcomeOf;
    var evs := [Event(now, Pkt(false, t)), Event(now, Pkt(false, u))];
    var uses := PortUses(cfg, evs);
    assert evs == [Event(now, Pkt(false, t))] + [Event(now, Pkt(false, u))];
    assert uses[0] == PortUse(cfg, evs[0]) && uses[1] == PortUse(cfg, evs[1]);
    AnswerReachesSender(cfg, [Event(now, Pkt(false, t))], now, u, now);
    assert Arms(uses, 0, t.sport);
    assert !Starts(cfg.timeout, uses, 1, t.sport);
    assert Starts(cfg.timeout, uses, 0, t.sport);
    assert OpenedBy(cfg, evs, 0, t.sport);
    forall o | OpenedBy(cfg, evs, o, u.sport)
      ensures o == 0
    {
      OneOpener(cfg, evs, o, 0, t.sport);
    }
  }

  // ---------- Filter and mapper agree ----------

  /** The mapper keeps the port of use i at least as long as that use asks for. */
  lemma PortOutlivesUse(cfg: Config, evs: seq<Event>, i: int, now: nat)
    requires InOrder(evs, now) && RecentlySent(cfg, evs, i, now) && evs[i].pkt.tup.sport !in cfg.dnat
    ensures var ports, q := Expire(After(cfg.timeout, PortUses(cfg, evs)), now), evs[i].pkt.tup.sport;
      q in ports && evs[i].now + cfg.timeout <= ports[q].deadline
  {
    var uses, q := PortUses(cfg, evs), evs[i].pkt.tup.sport;
    assert uses[i] == PortUse(cfg, evs[i]);
    assert Recent(cfg.timeout, uses, i, q, now);
    RecentUseIsHeld(cfg.timeout, uses, q, now);
  }

  /** Every live entry of a port restricted filter on a port that is not forwarded
      is backed by a live entry of the mapper that expires no earlier. */
  lemma TupleFilterIsBacked(cfg: Config, evs: seq<Event>, now: nat, t: Tuple)
    requires cfg.kind.PortRestricted? && InOrder(evs, now) && t.dport !in cfg.dnat
    ensures var s := ExpireAll(Run(cfg, evs), now);
      && s.mapper.ConeMapper? && s.filter.TupleFilter?
      && (t in s.filter.conn ==>
        t.dport in s.mapper.ports && s.filter.conn[t].deadline <= s.mapper.ports[t.dport].deadline)
  {
    RunIsHistory(cfg, evs);
    var uses := TupleUses(cfg, evs);
    if t in Expire(After(cfg.timeout, uses), now) {
      EntryIsExplained(cfg.timeout, uses, t, now);
      var i :| LastUse(uses, i, t) && After(cfg.timeout, uses)[t].deadline == uses[i].now + cfg.timeout;
      assert uses[i] == TupleUse(cfg, evs[i]);
      PortOutlivesUse(cfg, evs, i, now);
    }
  }

  /** The same for an address restricted filter. */
  lemma AddrFilterIsBacked(cfg: Config, evs: seq<Event>, now: nat, key: AddrKey)
    requires cfg.kind.AddrRestricted? && InOrder(evs, now) && key.dport !in cfg.dnat
    ensures var s := ExpireAll(Run(cfg, evs), now);
      && s.mapper.ConeMapper? && s.filter.AddrFilter?
      && (key in s.filter.addrs ==>
        key.dport in s.mapper.ports && s.filter.addrs[key].deadline <= s.mapper.ports[key.dport].deadline)
  {
    RunIsHistory(cfg, evs);
    var uses := AddrUses(cfg, evs);
    if key in Expire(After(cfg.timeout, uses), now) {
      EntryIsExplained(cfg.timeout, uses, key, now);
      var i :| LastUse(uses, i, key) && After(cfg.timeout, uses)[key].deadline == uses[i].now + cfg.timeout;
      assert uses[i] == AddrUse(cfg, evs[i]);
      PortOutlivesUse(cfg, evs, i, now);
    }
  }
}
