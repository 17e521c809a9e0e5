// What one packet does to the NAT, as functions on table values. The classes in
// NatMappers.dfy, NatFilters.dfy and Nat.dfy are proved to compute these functions; ConeNat.dfy
// and SymNat.dfy prove what they mean over whole runs.

module NatSpec {
  import opened Packets
  import opened TimedTable

  datatype Kind = PortRestricted | AddrRestricted | Symmetric | FullCone

  /** Where a forwarded port leads. */
  datatype Rule = Rule(ip: Ip, port: Port)

  datatype Config = Config(kind: Kind, extIp: Ip, timeout: nat, dnat: map<Port, Rule>)

  /** A cone mapper has one entry for each internal port, and the external port
      is the same. A symmetric mapper finds its entries by internal tuple and by
      external port. A port search that never ends holds the lock of the mapper:
      from then on nobody reads the tables, and no timer takes an entry out. */
  datatype Mapper =
    | ConeMapper(ports: map<Port, Entry>)
    | SymMapper(byTuple: map<Tuple, Entry>, byPort: map<Port, Entry>)
    | Blocked

  datatype Filter =
    | TupleFilter(conn: map<Tuple, Entry>)
    | AddrFilter(addrs: map<AddrKey, Entry>)
    | OpenFilter

  datatype State = State(mapper: Mapper, filter: Filter)

  /** The result of mapping: the rewritten tuple, no mapping, or none ever, from a
      port search that never ends or a lock that never comes free. */
  datatype Mapped = To(tup: Tuple) | NoMapping | Stuck

  datatype Outcome = Forward(tup: Tuple) | Drop | Hang

  /** Which mapper goes with which filter. */
  function Init(kind: Kind): State {
    match kind
    case PortRestricted => State(ConeMapper(map[]), TupleFilter(map[]))
    case AddrRestricted => State(ConeMapper(map[]), AddrFilter(map[]))
    case Symmetric => State(SymMapper(map[], map[]), TupleFilter(map[]))
    case FullCone => State(ConeMapper(map[]), OpenFilter)
  }

  // ---------- Mapping ----------

  /** Port forwarding bypasses the tables in both directions. */
  function CheckDnat(cfg: Config, p: Pkt): Option<Tuple> {
    if p.ingoing then
      if p.tup.dport in cfg.dnat then
        var r := cfg.dnat[p.tup.dport];
        Some(p.tup.(dstIp := r.ip, dport := r.port))
      else None
    else
      if p.tup.sport in cfg.dnat then Some(p.tup.(srcIp := cfg.extIp)) else None
  }

  /** The tuple awaited from outside once t leaves through external port q. */
  function ExtTuple(cfg: Config, t: Tuple, q: Port): Tuple {
    Tuple(t.dstIp, cfg.extIp, t.dport, q, t.proto)
  }

  /** Incoming packets go where the entry under their destination port came from. */
  function MapIn(ports: map<Port, Entry>, t: Tuple): Mapped {
    if t.dport in ports then
      var e := ports[t.dport];
      To(t.(dstIp := e.inner.srcIp, dport := e.inner.sport))
    else NoMapping
  }

  function MapOut(e: Entry, t: Tuple): Tuple {
    t.(srcIp := e.outer.dstIp, sport := e.outer.dport)
  }

  function ConeMapOut(cfg: Config, ports: map<Port, Entry>, now: nat, t: Tuple): map<Port, Entry> {
    Touch(ports, t.sport, ExtTuple(cfg, t, t.sport), t, now + cfg.timeout)
  }

  /** The first port at or after start, counting past 65535 to 0, that is not taken. */
  function FirstFree(taken: set<Port>, start: Port, tried: nat): Option<Port>
    requires tried <= 0x1_0000
    decreases 0x1_0000 - tried
  {
    if tried == 0x1_0000 then None
    else if (start + tried) % 0x1_0000 !in taken then Some((start + tried) % 0x1_0000)
    else FirstFree(taken, start, tried + 1)
  }

  /** Outgoing packets use the entry of their tuple, which both tables share, or
      open one under a free port. */
  function SymMapOut(cfg: Config, m: Mapper, now: nat, t: Tuple): Option<Mapper>
    requires m.SymMapper?
  {
    if t in m.byTuple then
      var e := m.byTuple[t].(deadline := now + cfg.timeout);
      Some(SymMapper(m.byTuple[t := e], m.byPort[e.outer.dport := e]))
    else
      match FirstFree(m.byPort.Keys, t.sport, 0)
      case None => None
      case Some(q) =>
        var e := Entry(ExtTuple(cfg, t, q), t, now + cfg.timeout);
        Some(SymMapper(m.byTuple[t := e], m.byPort[q := e]))
  }

  function MapPacket(cfg: Config, m: Mapper, now: nat, p: Pkt): (Mapper, Mapped) {
    match CheckDnat(cfg, p)
    case Some(t) => (m, To(t))
    case None =>
      match m
      case ConeMapper(ports) =>
        if p.ingoing then (m, MapIn(ports, p.tup))
        else
          var ports' := ConeMapOut(cfg, ports, now, p.tup);
          (ConeMapper(ports'), To(MapOut(ports'[p.tup.sport], p.tup)))
      case Blocked => (m, Stuck)
      case SymMapper(_, byPort) =>
        if p.ingoing then (m, MapIn(byPort, p.tup))
        else
          match SymMapOut(cfg, m, now, p.tup)
          case None => (Blocked, Stuck)
          case Some(m') => (m', To(MapOut(m'.byTuple[p.tup], p.tup)))
  }

  // ---------- Filtering ----------

  /** Incoming packets pass when their key is in the table or their port is
      forwarded; outgoing packets arm the key of the answer and always pass. */
  function FilterPacket(cfg: Config, f: Filter, now: nat, p: Pkt): (Filter, bool) {
    var t, r := p.tup, p.tup.Reverse();
    match f
    case TupleFilter(conn) =>
      if p.ingoing then (f, t in conn || t.dport in cfg.dnat)
      else (TupleFilter(Touch(conn, r, r, t, now + cfg.timeout)), true)
    case AddrFilter(addrs) =>
      if p.ingoing then (f, t.ToAddrKey() in addrs || t.dport in cfg.dnat)
      else (AddrFilter(Touch(addrs, r.ToAddrKey(), r, t, now + cfg.timeout)), true)
    case OpenFilter => (f, true)
  }

  // ---------- The NAT ----------

  /** Incoming packets are filtered, then mapped; outgoing ones mapped, then filtered. */
  function HandlePacket(cfg: Config, s: State, now: nat, p: Pkt): (State, Outcome) {
    if p.ingoing then
      var (f, pass) := FilterPacket(cfg, s.filter, now, p);
      if !pass then (s.(filter := f), Drop)
      else
        var (m, to) := MapPacket(cfg, s.mapper, now, p);
        (State(m, f), match to case To(t) => Forward(t) case NoMapping => Drop case Stuck => Hang)
    else
      var (m, to) := MapPacket(cfg, s.mapper, now, p);
      match to
      case NoMapping => (s.(mapper := m), Drop)
      case Stuck => (s.(mapper := m), Hang)
      case To(t) =>
        var (f, pass) := FilterPacket(cfg, s.filter, now, Pkt(false, t));
        (State(m, f), if pass then Forward(t) else Drop)
  }

  function ExpireMapper(m: Mapper, now: nat): Mapper {
    match m
    case ConeMapper(ports) => ConeMapper(Expire(ports, now))
    case SymMapper(byTuple, byPort) => SymMapper(Expire(byTuple, now), Expire(byPort, now))
    case Blocked => m
  }

  function ExpireFilter(f: Filter, now: nat): Filter {
    match f
    case TupleFilter(conn) => TupleFilter(Expire(conn, now))
    case AddrFilter(addrs) => AddrFilter(Expire(addrs, now))
    case OpenFilter => f
  }

  function ExpireAll(s: State, now: nat): State {
    State(ExpireMapper(s.mapper, now), ExpireFilter(s.filter, now))
  }

  // ---------- Runs ----------

  /** A packet and the time it is handled. */
  datatype Event = Event(now: nat, pkt: Pkt)

  /** The timers that have run out by then fire before the packet is handled. */
  function Step(cfg: Config, s: State, e: Event): (State, Outcome) {
    HandlePacket(cfg, ExpireAll(s, e.now), e.now, e.pkt)
  }

  function Run(cfg: Config, evs: seq<Event>): State {
    if evs == [] then Init(cfg.kind) else Step(cfg, Run(cfg, evs[..|evs| - 1]), evs[|evs| - 1]).0
  }

  /** What became of event i of a run. */
  function OutcomeAt(cfg: Config, evs: seq<Event>, i: nat): Outcome
    requires i < |evs|
  {
    Step(cfg, Run(cfg, evs[..i]), evs[i]).1
  }

  /** What becomes of p when it follows a run. */
  function OutcomeOf(cfg: Config, evs: seq<Event>, now: nat, p: Pkt): Outcome {
    Step(cfg, Run(cfg, evs), Event(now, p)).1
  }

  /** Times never fall, and none lies past now. */
  ghost predicate InOrder(evs: seq<Event>, now: nat) {
    && (forall i, j :: 0 <= i < j < |evs| ==> evs[i].now <= evs[j].now)
    && (forall i :: 0 <= i < |evs| ==> evs[i].now <= now)
  }

  /** Event i sent a packet out within the timeout before now. */
  ghost predicate RecentlySent(cfg: Config, evs: seq<Event>, i: int, now: nat) {
    0 <= i < |evs| && !evs[i].pkt.ingoing && now < evs[i].now + cfg.timeout
  }

  // ---------- Forwarded ports ----------

  /** In every state of every kind of NAT a packet to a forwarded port is let in and
      goes to the address and port of its rule. */
  lemma ForwardedPortIsOpen(cfg: Config, s: State, now: nat, q: Tuple)
    requires q.dport in cfg.dnat
    ensures var r := cfg.dnat[q.dport];
      Step(cfg, s, Event(now, Pkt(true, q))).1 == Forward(q.(dstIp := r.ip, dport := r.port))
  {
  }

  /** Whatever reaches the sender of t by a forwarded port does so by a rule that leads to him. */
  lemma ForwardedAnswer(cfg: Config, s: State, now: nat, t: Tuple, q: Port)
    requires q in cfg.dnat
    ensures var answer := t.(srcIp := cfg.extIp, sport := q).Reverse();
      Step(cfg, s, Event(now, Pkt(true, answer))).1 == Forward(t.Reverse()) <==> cfg.dnat[q] == Rule(t.srcIp, t.sport)
  {
    hide Step;
    ForwardedPortIsOpen(cfg, s, now, t.(srcIp := cfg.extIp, sport := q).Reverse());
  }
}
