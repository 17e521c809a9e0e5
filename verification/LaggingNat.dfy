// A whole symmetric NAT whose mapper and filter each take out their entries some
// time after the timers ran out. The filter looks only at the keys of its table, so
// until an entry is taken out it goes on letting packets in.

module LaggingNat {
  import opened Packets
  import opened TimedTable
  import opened NatSpec
  import opened NatLag
  import SymNat

  /** The entries of the filter not yet taken out, those of them whose timer has run
      out, the table, and the next id. */
  datatype FilterLag = FilterLag(entries: map<Id, Entry>, dead: set<Id>, conn: map<Tuple, Id>, next: Id)
  {
    predicate Live(id: Id) {
      id in entries && id !in dead
    }

    predicate Finds(k: Tuple) {
      k in conn && Live(conn[k])
    }

    predicate CanTakeOut(id: Id) {
      id in entries && id in dead
    }
  }

  /** hung says that a port search never ended and holds the lock of the mapper. */
  datatype LagNat = LagNat(mapper: SymLag, filter: FilterLag, clock: nat, hung: bool)

  /** A packet sent after so long, a timer of either table, an entry taken out of either. */
  datatype LagEvent =
    | SendAfter(after: nat, t: Tuple)
    | MapperRunOut(after: nat, id: Id)
    | MapperTakeOut(id: Id)
    | FilterRunOut(after: nat, id: Id)
    | FilterTakeOut(id: Id)

  /** The filter keeps an entry it finds alive and opens another otherwise, even over
      the key of one that is not yet taken out. */
  function Arm(cfg: Config, f: FilterLag, now: nat, x: Tuple): FilterLag {
    var k := x.Reverse();
    if f.Finds(k) then
      f.(entries := f.entries[f.conn[k] := f.entries[f.conn[k]].(deadline := now + cfg.timeout)])
    else
      FilterLag(f.entries[f.next := Entry(k, x, now + cfg.timeout)], f.dead, f.conn[k := f.next], f.next + 1)
  }

  function RunOutFilter(f: FilterLag, now: nat, id: Id): FilterLag {
    if f.Live(id) && f.entries[id].deadline <= now then f.(dead := f.dead + {id}) else f
  }

  function TakeOutFilter(f: FilterLag, id: Id): FilterLag {
    if f.CanTakeOut(id)
    then FilterLag(f.entries - {id}, f.dead - {id}, f.conn - {f.entries[id].outer}, f.next)
    else f
  }

  function SendLag(cfg: Config, s: LagNat, now: nat, t: Tuple): LagNat {
    if t.sport in cfg.dnat then s.(filter := Arm(cfg, s.filter, now, t.(srcIp := cfg.extIp)), clock := now)
    else if s.hung then s.(clock := now)
    else
      var m := SendSym(cfg, s.mapper, now, t);
      if m.Finds(t) then LagNat(m, Arm(cfg, s.filter, now, MapOut(m.entries[m.byTuple[t]], t)), now, false)
      else s.(clock := now, hung := true)
  }

  function StepLag(cfg: Config, s: LagNat, e: LagEvent): LagNat {
    match e
    case SendAfter(after, t) => SendLag(cfg, s, s.clock + after, t)
    case MapperRunOut(after, id) =>
      s.(mapper := StepSym(cfg, s.mapper, RunOut(s.clock + after, id)), clock := s.clock + after)
    case MapperTakeOut(id) => if s.hung then s else s.(mapper := StepSym(cfg, s.mapper, TakeOut(id)))
    case FilterRunOut(after, id) =>
      s.(filter := RunOutFilter(s.filter, s.clock + after, id), clock := s.clock + after)
    case FilterTakeOut(id) => s.(filter := TakeOutFilter(s.filter, id))
  }

  function RunLag(cfg: Config, s: LagNat, events: seq<LagEvent>): LagNat
    decreases |events|
  {
    if events == [] then s else RunLag(cfg, StepLag(cfg, s, events[0]), events[1..])
  }

  const NO_ENTRIES := LagNat(NO_FLOWS, FilterLag(map[], {}, map[], 0), 0, false)

  /** The live flow whose external port an incoming packet carries. */
  function Receiver(s: LagNat, q: Tuple): Option<Entry> {
    var m := s.mapper;
    if q.dport in m.byPort && m.Live(m.byPort[q.dport]) then Some(m.entries[m.byPort[q.dport]]) else None
  }

  /** What becomes of an incoming packet to a port that is not forwarded. */
  function Incoming(s: LagNat, q: Tuple): Outcome {
    if q !in s.filter.conn then Drop
    else if s.hung then Hang
    else
      match Receiver(s, q)
      case None => Drop
      case Some(e) => Forward(q.(dstIp := e.inner.srcIp, dport := e.inner.sport))
  }

  // ---------- The invariant ----------

  /** Each key of the filter leads to an entry with that key. */
  ghost predicate KeysLead(f: FilterLag) {
    && f.dead <= f.entries.Keys
    && (forall id :: id in f.entries ==> id < f.next)
    && (forall k :: k in f.conn ==> f.conn[k] in f.entries && f.entries[f.conn[k]].outer == k)
  }

  /** Every flow awaits answers from where it goes, none lasts longer than one timeout,
      and only a flow past its deadline is dead. */
  ghost predicate FlowsLead(cfg: Config, m: SymLag, clock: nat) {
    && PortsOwned(m)
    && (forall id :: id in m.entries ==>
      var e := m.entries[id];
      e.outer == ExtTuple(cfg, e.inner, e.outer.dport) && e.deadline <= clock + cfg.timeout)
    && (forall id :: id in m.dead ==> m.entries[id].deadline <= clock)
  }

  /** The mapper has the flow a filter entry was opened for, and for as long. */
  ghost predicate HasFlow(m: SymLag, f: Entry) {
    && f.outer.dport in m.byPort && m.byPort[f.outer.dport] in m.entries
    && m.entries[m.byPort[f.outer.dport]].outer == f.outer
    && f.deadline <= m.entries[m.byPort[f.outer.dport]].deadline
  }

  /** A filter entry before its deadline, on a port that is not forwarded, has its flow. */
  ghost predicate EntryBacked(cfg: Config, m: SymLag, f: Entry, clock: nat) {
    f.outer.dport !in cfg.dnat && clock < f.deadline ==> HasFlow(m, f)
  }

  ghost predicate AllBacked(cfg: Config, s: LagNat) {
    forall id :: id in s.filter.entries ==> EntryBacked(cfg, s.mapper, s.filter.entries[id], s.clock)
  }

  ghost predicate Backed(cfg: Config, s: LagNat) {
    KeysLead(s.filter) && FlowsLead(cfg, s.mapper, s.clock) && AllBacked(cfg, s)
  }

  lemma ArmKeepsKeys(cfg: Config, f: FilterLag, now: nat, x: Tuple)
    requires KeysLead(f)
    ensures var f' := Arm(cfg, f, now, x);
      && KeysLead(f')
      && forall id :: id in f'.entries ==>
        (id in f.entries && f'.entries[id] == f.entries[id])
        || (f'.entries[id].outer == x.Reverse() && f'.entries[id].deadline == now + cfg.timeout)
  {
  }

  lemma SendKeepsFlowsLead(cfg: Config, m: SymLag, clock: nat, now: nat, t: Tuple)
    requires FlowsLead(cfg, m, clock) && clock <= now
    ensures FlowsLead(cfg, SendSym(cfg, m, now, t), now)
  {
    hide FirstFree, PortsOwned;
    StepKeepsPortsOwned(cfg, m, Send(now, t));
    assert m.dead <= m.entries.Keys && forall t :: t in m.byTuple ==> m.byTuple[t] in m.entries by {
      OwnedTables(m);
    }
    assert m.next !in m.dead by {
      OwnedTables(m);
    }
  }

  lemma OwnedTables(m: SymLag)
    requires PortsOwned(m)
    ensures m.dead <= m.entries.Keys && m.next !in m.entries
    ensures forall t :: t in m.byTuple ==> m.byTuple[t] in m.entries && m.entries[m.byTuple[t]].inner == t
  {
  }

  /** Sending a packet keeps every flow, and none for a shorter time. */
  lemma SendKeepsFlow(cfg: Config, m: SymLag, clock: nat, now: nat, t: Tuple, f: Entry)
    requires FlowsLead(cfg, m, clock) && clock <= now && HasFlow(m, f)
    ensures HasFlow(SendSym(cfg, m, now, t), f)
  {
    hide FirstFree;
    SymNat.SearchFailsWhenFull(m.byPort.Keys, t.sport);
  }

  /** A packet sent leaves with the external tuple of its flow, which lasts a timeout. */
  lemma SentPacketHasFlow(cfg: Config, m: SymLag, clock: nat, now: nat, t: Tuple)
    requires FlowsLead(cfg, m, clock) && clock <= now
    ensures var m' := SendSym(cfg, m, now, t);
      m'.Finds(t) ==>
        var e := m'.entries[m'.byTuple[t]];
        MapOut(e, t).Reverse() == e.outer && HasFlow(m', Entry(e.outer, MapOut(e, t), now + cfg.timeout))
  {
    hide FirstFree;
    SendKeepsFlowsLead(cfg, m, clock, now, t);
  }

  lemma SendIsBacked(cfg: Config, s: LagNat, now: nat, t: Tuple)
    requires Backed(cfg, s) && s.clock <= now
    ensures Backed(cfg, SendLag(cfg, s, now, t))
  {
    hide SendSym, Arm, KeysLead, FlowsLead, HasFlow;
    var s' := SendLag(cfg, s, now, t);
    if t.sport in cfg.dnat {
      ArmKeepsKeys(cfg, s.filter, now, t.(srcIp := cfg.extIp));
      LaterFlowsLead(cfg, s.mapper, s.clock, now);
    } else if s.hung {
      LaterFlowsLead(cfg, s.mapper, s.clock, now);
    } else {
      var m := SendSym(cfg, s.mapper, now, t);
      SendKeepsFlowsLead(cfg, s.mapper, s.clock, now, t);
      SentPacketHasFlow(cfg, s.mapper, s.clock, now, t);
      LaterFlowsLead(cfg, s.mapper, s.clock, now);
      if m.Finds(t) {
        ArmKeepsKeys(cfg, s.filter, now, MapOut(m.entries[m.byTuple[t]], t));
        forall id | id in s'.filter.entries
          ensures EntryBacked(cfg, m, s'.filter.entries[id], now)
        {
          ArmedEntryIsBacked(cfg, s, now, t, id);
        }
      }
    }
  }

  lemma LaterFlowsLead(cfg: Config, m: SymLag, clock: nat, now: nat)
    requires FlowsLead(cfg, m, clock) && clock <= now
    ensures FlowsLead(cfg, m, now)
  {
  }

  lemma ArmedEntryIsBacked(cfg: Config, s: LagNat, now: nat, t: Tuple, id: Id)
    requires Backed(cfg, s) && s.clock <= now && t.sport !in cfg.dnat && !s.hung
    requires SendSym(cfg, s.mapper, now, t).Finds(t) && id in SendLag(cfg, s, now, t).filter.entries
    ensures var m := SendSym(cfg, s.mapper, now, t);
      EntryBacked(cfg, m, SendLag(cfg, s, now, t).filter.entries[id], now)
  {
    hide SendSym, Arm, KeysLead, FlowsLead;
    var m, f := SendSym(cfg, s.mapper, now, t), SendLag(cfg, s, now, t).filter.entries[id];
    var e := m.entries[m.byTuple[t]];
    ArmKeepsKeys(cfg, s.filter, now, MapOut(e, t));
    SentPacketHasFlow(cfg, s.mapper, s.clock, now, t);
    if id in s.filter.entries && f == s.filter.entries[id] && f.outer.dport !in cfg.dnat && now < f.deadline {
      assert EntryBacked(cfg, s.mapper, f, s.clock);
      SendKeepsFlow(cfg, s.mapper, s.clock, now, t, f);
    }
  }

  /** The step of the mapper behind a timer of the mapper. */
  function MapperStep(clock: nat, e: LagEvent): LagStep
    requires e.MapperRunOut? || e.MapperTakeOut?
  {
    if e.MapperRunOut? then RunOut(clock + e.after, e.id) else TakeOut(e.id)
  }

  lemma MapperTimerKeepsFlowsLead(cfg: Config, m: SymLag, clock: nat, e: LagEvent)
    requires FlowsLead(cfg, m, clock) && (e.MapperRunOut? || e.MapperTakeOut?)
    ensures FlowsLead(cfg, StepSym(cfg, m, MapperStep(clock, e)), clock + if e.MapperRunOut? then e.after else 0)
  {
    hide PortsOwned;
    StepKeepsPortsOwned(cfg, m, MapperStep(clock, e));
    OwnedTables(m);
  }

  /** Only a flow past its deadline is taken out. */
  lemma MapperTimerKeepsEntry(cfg: Config, m: SymLag, clock: nat, e: LagEvent, f: Entry)
    requires FlowsLead(cfg, m, clock) && EntryBacked(cfg, m, f, clock) && (e.MapperRunOut? || e.MapperTakeOut?)
    ensures EntryBacked(cfg, StepSym(cfg, m, MapperStep(clock, e)), f, clock + if e.MapperRunOut? then e.after else 0)
  {
  }

  lemma MapperTimerIsBacked(cfg: Config, s: LagNat, e: LagEvent)
    requires Backed(cfg, s) && (e.MapperRunOut? || e.MapperTakeOut?)
    ensures Backed(cfg, StepLag(cfg, s, e))
  {
    hide FlowsLead, EntryBacked, StepSym;
    var s' := StepLag(cfg, s, e);
    if s.hung && e.MapperTakeOut? {
      return;
    }
    assert s'.mapper == StepSym(cfg, s.mapper, MapperStep(s.clock, e));
    MapperTimerKeepsFlowsLead(cfg, s.mapper, s.clock, e);
    forall id | id in s'.filter.entries
      ensures EntryBacked(cfg, s'.mapper, s'.filter.entries[id], s'.clock)
    {
      MapperTimerKeepsEntry(cfg, s.mapper, s.clock, e, s.filter.entries[id]);
    }
  }

  lemma FilterTimerIsBacked(cfg: Config, s: LagNat, e: LagEvent)
    requires Backed(cfg, s) && (e.FilterRunOut? || e.FilterTakeOut?)
    ensures Backed(cfg, StepLag(cfg, s, e))
  {
    hide FlowsLead, HasFlow;
    var s' := StepLag(cfg, s, e);
    LaterFlowsLead(cfg, s.mapper, s.clock, s'.clock);
    forall id | id in s'.filter.entries
      ensures EntryBacked(cfg, s'.mapper, s'.filter.entries[id], s'.clock)
    {
      assert EntryBacked(cfg, s.mapper, s.filter.entries[id], s.clock);
    }
  }

  lemma {:induction false} RunIsBacked(cfg: Config, s: LagNat, events: seq<LagEvent>)
    requires Backed(cfg, s)
    ensures Backed(cfg, RunLag(cfg, s, events))
    decreases |events|
  {
    hide Backed;
    if events != [] {
      var e := events[0];
      match e {
        case SendAfter(after, t) => SendIsBacked(cfg, s, s.clock + after, t);
        case MapperRunOut(_, _) => MapperTimerIsBacked(cfg, s, e);
        case MapperTakeOut(_) => MapperTimerIsBacked(cfg, s, e);
        case FilterRunOut(_, _) => FilterTimerIsBacked(cfg, s, e);
        case FilterTakeOut(_) => FilterTimerIsBacked(cfg, s, e);
      }
      RunIsBacked(cfg, StepLag(cfg, s, e), events[1..]);
    }
  }

  // ---------- The theorems ----------

  /** However late entries are taken out: before the deadline of its filter entry, a
      packet goes to its own flow, or hangs if the NAT has hung. So only a packet let in
      by an entry past its deadline can meet the flow of another. */
  lemma OwnFlowUntilDeadline(cfg: Config, events: seq<LagEvent>, q: Tuple)
    requires q.dport !in cfg.dnat
    ensures var s := RunLag(cfg, NO_ENTRIES, events);
      && (q in s.filter.conn ==> s.filter.conn[q] in s.filter.entries)
      && (q in s.filter.conn && s.clock < s.filter.entries[s.filter.conn[q]].deadline ==>
        Receiver(s, q).Some? && Receiver(s, q).value.outer == q
        && Incoming(s, q) == if s.hung then Hang else Forward(Receiver(s, q).value.inner.Reverse()))
  {
    hide RunLag;
    var s := RunLag(cfg, NO_ENTRIES, events);
    RunIsBacked(cfg, NO_ENTRIES, events);
    if q in s.filter.conn && s.clock < s.filter.entries[s.filter.conn[q]].deadline {
      assert EntryBacked(cfg, s.mapper, s.filter.entries[s.filter.conn[q]], s.clock);
      var id := s.mapper.byPort[q.dport];
      assert id !in s.mapper.dead;
    }
  }

  /** The packet is let in and the flow that gets it has another remote. */
  ghost predicate Misled(s: LagNat, q: Tuple) {
    && Incoming(s, q).Forward? && Receiver(s, q).Some?
    && Incoming(s, q).tup.Reverse() != Receiver(s, q).value.inner
  }

  /** The flow on the port of q sends to where q is from. */
  predicate SameRemote(e: Entry, q: Tuple) {
    e.inner.dstIp == q.srcIp && e.inner.dport == q.sport && e.inner.proto == q.proto
  }

  /** A packet reaches the flow of another exactly when the filter still has its key,
      nothing has hung, and the live flow on its port has another remote; and then the
      deadline of its filter entry has passed. */
  lemma MisledExactly(cfg: Config, events: seq<LagEvent>, q: Tuple)
    requires q.dport !in cfg.dnat
    ensures var s := RunLag(cfg, NO_ENTRIES, events);
      && (Misled(s, q) <==>
        && q in s.filter.conn && !s.hung
        && Receiver(s, q).Some? && !SameRemote(Receiver(s, q).value, q))
      && (Misled(s, q) ==>
        s.filter.conn[q] in s.filter.entries && s.filter.entries[s.filter.conn[q]].deadline <= s.clock)
  {
    hide RunLag;
    var s := RunLag(cfg, NO_ENTRIES, events);
    RunIsBacked(cfg, NO_ENTRIES, events);
    OwnFlowUntilDeadline(cfg, events, q);
    if q in s.filter.conn && !s.hung && Receiver(s, q).Some? {
      var e := Receiver(s, q).value;
      assert Incoming(s, q).tup.Reverse() == Tuple(e.inner.srcIp, q.srcIp, e.inner.sport, q.sport, q.proto);
      assert !SameRemote(e, q) ==> e.outer != q;
    }
  }

  lemma FirstSend(cfg: Config, now: nat, t: Tuple)
    ensures SendSym(cfg, NO_FLOWS, now, t) ==
      SymLag(map[0 := Entry(ExtTuple(cfg, t, t.sport), t, now + cfg.timeout)], {}, map[t := 0], map[t.sport := 0], 1)
  {
    SendFrom(cfg, NO_FLOWS, now, t);
  }

  /** A new flow keeps its port in an empty table. */
  lemma SendFrom(cfg: Config, m: SymLag, now: nat, t: Tuple)
    requires m.byPort == map[] && m.byTuple == map[]
    ensures SendSym(cfg, m, now, t) == SymLag(
      m.entries[m.next := Entry(ExtTuple(cfg, t, t.sport), t, now + cfg.timeout)], m.dead,
      map[t := m.next], map[t.sport := m.next], m.next + 1)
  {
    hide FirstFree;
    assert m.byPort.Keys == {};
    SymNat.FreePortIsKept({}, t.sport);
  }

  /** A packet from a remote whose flow is over goes to the flow that now has its port. */
  lemma StaleEntryMisleads(cfg: Config, t: Tuple, u: Tuple)
    requires t.sport == u.sport && t.dstIp != u.dstIp && t.sport !in cfg.dnat
    ensures var s := RunLag(cfg, NO_ENTRIES,
        [SendAfter(0, t), MapperRunOut(cfg.timeout, 0), MapperTakeOut(0), SendAfter(0, u)]);
      var q := ExtTuple(cfg, t, t.sport);
      Incoming(s, q) == Forward(q.(dstIp := u.srcIp, dport := u.sport)) && u.dstIp != q.srcIp
  {
    hide SendSym;
    var p, now := t.sport, cfg.timeout;
    var e0, e1 := Entry(ExtTuple(cfg, t, p), t, now), Entry(ExtTuple(cfg, u, p), u, now + now);
    var k0, k1 := e0.outer, e1.outer;
    var f1 := FilterLag(map[0 := Entry(k0, k0.Reverse(), now)], {}, map[k0 := 0], 1);
    var f2 := FilterLag(f1.entries[1 := Entry(k1, k1.Reverse(), now + now)], {}, map[k0 := 0, k1 := 1], 2);
    var m1, none := SymLag(map[0 := e0], {}, map[t := 0], map[p := 0], 1), SymLag(map[], {}, map[], map[], 1);
    FirstSend(cfg, 0, t);
    SendFrom(cfg, none, now, u);
    var m4 := SymLag(map[1 := e1], {}, map[u := 1], map[p := 1], 2);
    var s1, s2 := LagNat(m1, f1, 0, false), LagNat(m1.(dead := {0}), f1, now, false);
    var s3, s4 := LagNat(none, f1, now, false), LagNat(m4, f2, now, false);
    assert StepLag(cfg, NO_ENTRIES, SendAfter(0, t)) == s1;
    assert StepLag(cfg, s1, MapperRunOut(now, 0)) == s2;
    assert StepLag(cfg, s2, MapperTakeOut(0)) == s3;
    assert StepLag(cfg, s3, SendAfter(0, u)) == s4;
    RunFour(cfg, NO_ENTRIES, SendAfter(0, t), MapperRunOut(now, 0), MapperTakeOut(0), SendAfter(0, u));
  }

  lemma RunFour(cfg: Config, s: LagNat, a: LagEvent, b: LagEvent, c: LagEvent, d: LagEvent)
    ensures RunLag(cfg, s, [a, b, c, d]) ==
      StepLag(cfg, StepLag(cfg, StepLag(cfg, StepLag(cfg, s, a), b), c), d)
  {
    hide StepLag;
    var s1, s3 := StepLag(cfg, s, a), StepLag(cfg, StepLag(cfg, StepLag(cfg, s, a), b), c);
    assert [a, b, c, d][1..] == [b, c, d] && [b, c, d][1..] == [c, d] && [c, d][1..] == [d] && [d][1..] == [];
    assert RunLag(cfg, s3, [d]) == StepLag(cfg, s3, d);
    assert RunLag(cfg, StepLag(cfg, s1, b), [c, d]) == RunLag(cfg, s3, [d]);
    assert RunLag(cfg, s1, [b, c, d]) == RunLag(cfg, StepLag(cfg, s1, b), [c, d]);
  }

  /** Every live entry of the filter is the one its key leads to. */
  ghost predicate KeysFindable(f: FilterLag) {
    forall id :: f.Live(id) ==> f.entries[id].outer in f.conn && f.conn[f.entries[id].outer] == id
  }

  /** Taking out an entry, the filter too loses a live key exactly when the key of the
      entry already leads to a live one. */
  lemma KeysFindableUnlessReused(f: FilterLag, id: Id)
    requires KeysLead(f) && KeysFindable(f)
    ensures KeysFindable(TakeOutFilter(f, id)) <==> !(f.CanTakeOut(id) && f.Finds(f.entries[id].outer))
  {
    var f' := TakeOutFilter(f, id);
    if f.CanTakeOut(id) && f.Finds(f.entries[id].outer) {
      assert f'.Live(f.conn[f.entries[id].outer]);
    }
  }

  lemma ArmKeepsKeysFindable(cfg: Config, f: FilterLag, now: nat, x: Tuple)
    requires KeysLead(f) && KeysFindable(f)
    ensures KeysFindable(Arm(cfg, f, now, x))
  {
    var f' := Arm(cfg, f, now, x);
    forall id | f'.Live(id)
      ensures f'.entries[id].outer in f'.conn && f'.conn[f'.entries[id].outer] == id
    {
      assert f.Live(id) || id == f.next;
    }
  }

  /** A step of the NAT keeps the live keys of the filter findable unless it is exactly
      such a taking out. */
  lemma StepKeepsKeysFindable(cfg: Config, s: LagNat, e: LagEvent)
    requires KeysLead(s.filter) && KeysFindable(s.filter)
    ensures KeysFindable(StepLag(cfg, s, e).filter) <==>
      !(e.FilterTakeOut? && s.filter.CanTakeOut(e.id) && s.filter.Finds(s.filter.entries[e.id].outer))
  {
    hide SendSym, Arm, TakeOutFilter;
    match e
    case SendAfter(after, t) =>
      var now := s.clock + after;
      var m := SendSym(cfg, s.mapper, now, t);
      ArmKeepsKeysFindable(cfg, s.filter, now, t.(srcIp := cfg.extIp));
      if m.Finds(t) {
        ArmKeepsKeysFindable(cfg, s.filter, now, MapOut(m.entries[m.byTuple[t]], t));
      }
    case FilterTakeOut(id) => KeysFindableUnlessReused(s.filter, id);
    case _ =>
  }

  /** A key used a moment ago that the filter no longer has. */
  lemma KeyIsLost(cfg: Config, t: Tuple)
    requires cfg.timeout > 0
    ensures var s := RunLag(cfg, NO_ENTRIES,
        [SendAfter(0, t), FilterRunOut(cfg.timeout, 0), SendAfter(0, t), FilterTakeOut(0)]);
      s.filter.Live(1) && s.clock < s.filter.entries[1].deadline && s.filter.entries[1].outer !in s.filter.conn
  {
    hide FirstFree, RunLag;
    if t.sport !in cfg.dnat {
      FirstSend(cfg, 0, t);
    }
    RunFour(cfg, NO_ENTRIES, SendAfter(0, t), FilterRunOut(cfg.timeout, 0), SendAfter(0, t), FilterTakeOut(0));
  }
}
