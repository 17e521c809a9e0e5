// A whole port restricted NAT whose mapper and filter each take out their entries
// some time after the timers ran out. The mapper can lose a port in use, and then
// rejects answers that the filter lets in.

module LaggingCone {
  import opened Packets
  import opened TimedTable
  import opened NatSpec
  import opened NatLag
  import Lag = LaggingNat

  datatype LagCone = LagCone(mapper: ConeLag, filter: Lag.FilterLag, clock: nat)

  function SendLag(cfg: Config, s: LagCone, now: nat, t: Tuple): LagCone {
    if t.sport in cfg.dnat then LagCone(s.mapper, Lag.Arm(cfg, s.filter, now, t.(srcIp := cfg.extIp)), now)
    else
      var m := StepCone(cfg, s.mapper, Send(now, t));
      LagCone(m, Lag.Arm(cfg, s.filter, now, MapOut(m.entries[m.ports[t.sport]], t)), now)
  }

  function StepLag(cfg: Config, s: LagCone, e: Lag.LagEvent): LagCone {
    match e
    case SendAfter(after, t) => SendLag(cfg, s, s.clock + after, t)
    case MapperRunOut(after, id) =>
      s.(mapper := StepCone(cfg, s.mapper, RunOut(s.clock + after, id)), clock := s.clock + after)
    case MapperTakeOut(id) => s.(mapper := StepCone(cfg, s.mapper, TakeOut(id)))
    case FilterRunOut(after, id) =>
      s.(filter := Lag.RunOutFilter(s.filter, s.clock + after, id), clock := s.clock + after)
    case FilterTakeOut(id) => s.(filter := Lag.TakeOutFilter(s.filter, id))
  }

  function RunLag(cfg: Config, s: LagCone, events: seq<Lag.LagEvent>): LagCone
    decreases |events|
  {
    if events == [] then s else RunLag(cfg, StepLag(cfg, s, events[0]), events[1..])
  }

  const NO_ENTRIES := LagCone(ConeLag(map[], {}, map[], 0), Lag.NO_ENTRIES.filter, 0)

  /** What becomes of an incoming packet to a port that is not forwarded. */
  function Incoming(s: LagCone, q: Tuple): Outcome {
    if q in s.filter.conn && s.mapper.Finds(q.dport) then
      var e := s.mapper.entries[s.mapper.ports[q.dport]];
      Forward(q.(dstIp := e.inner.srcIp, dport := e.inner.sport))
    else Drop
  }

  // ---------- The invariant ----------

  /** Every mapping keeps its port under the external address, none lasts longer than
      one timeout, and only one past its deadline is dead. */
  ghost predicate MappingsLast(cfg: Config, m: ConeLag, clock: nat) {
    && PortsLead(m)
    && (forall id :: id in m.entries ==>
      m.entries[id].outer.dstIp == cfg.extIp && m.entries[id].deadline <= clock + cfg.timeout)
    && (forall id :: id in m.dead ==> m.entries[id].deadline <= clock)
  }

  /** A mapping of the port of a filter entry that lasts as long. */
  ghost predicate MappingFor(m: ConeLag, id: Id, f: Entry) {
    id in m.entries && m.entries[id].outer.dport == f.outer.dport && f.deadline <= m.entries[id].deadline
  }

  /** The mapper has the port of a filter entry for as long, though its table need not
      lead there; if the table leads anywhere, then to such a mapping. */
  ghost predicate HasPort(m: ConeLag, f: Entry) {
    && (exists id :: MappingFor(m, id, f))
    && (f.outer.dport in m.ports ==> MappingFor(m, m.ports[f.outer.dport], f))
  }

  /** A filter entry before its deadline, on a port that is not forwarded, has its port. */
  ghost predicate EntryHeld(cfg: Config, m: ConeLag, f: Entry, clock: nat) {
    f.outer.dport !in cfg.dnat && clock < f.deadline ==> HasPort(m, f)
  }

  ghost predicate Held(cfg: Config, s: LagCone) {
    && Lag.KeysLead(s.filter) && MappingsLast(cfg, s.mapper, s.clock)
    && forall id :: id in s.filter.entries ==> EntryHeld(cfg, s.mapper, s.filter.entries[id], s.clock)
  }

  lemma SendKeepsMappings(cfg: Config, m: ConeLag, clock: nat, now: nat, t: Tuple)
    requires MappingsLast(cfg, m, clock) && clock <= now
    ensures var m' := StepCone(cfg, m, Send(now, t));
      && MappingsLast(cfg, m', now) && m'.Finds(t.sport)
      && MapOut(m'.entries[m'.ports[t.sport]], t) == t.(srcIp := cfg.extIp)
      && m'.entries[m'.ports[t.sport]].deadline == now + cfg.timeout
  {
  }

  lemma SendKeepsPort(cfg: Config, m: ConeLag, clock: nat, now: nat, t: Tuple, f: Entry)
    requires MappingsLast(cfg, m, clock) && clock <= now && HasPort(m, f)
    ensures HasPort(StepCone(cfg, m, Send(now, t)), f)
  {
    var m' := StepCone(cfg, m, Send(now, t));
    var id :| MappingFor(m, id, f);
    assert MappingFor(m', id, f);
  }

  /** A packet sent has its port for a timeout. */
  lemma SentPacketHasPort(cfg: Config, m: ConeLag, clock: nat, now: nat, t: Tuple, f: Entry)
    requires MappingsLast(cfg, m, clock) && clock <= now
    requires f.outer == t.(srcIp := cfg.extIp).Reverse() && f.deadline == now + cfg.timeout
    ensures HasPort(StepCone(cfg, m, Send(now, t)), f)
  {
    hide StepCone;
    SendKeepsMappings(cfg, m, clock, now, t);
  }

  lemma LaterMappingsLast(cfg: Config, m: ConeLag, clock: nat, now: nat)
    requires MappingsLast(cfg, m, clock) && clock <= now
    ensures MappingsLast(cfg, m, now)
  {
  }

  lemma SendIsHeld(cfg: Config, s: LagCone, now: nat, t: Tuple)
    requires Held(cfg, s) && s.clock <= now
    ensures Held(cfg, SendLag(cfg, s, now, t))
  {
    hide StepCone, Lag.Arm, Lag.KeysLead, MappingsLast, HasPort;
    var s', x := SendLag(cfg, s, now, t), t.(srcIp := cfg.extIp);
    Lag.ArmKeepsKeys(cfg, s.filter, now, x);
    LaterMappingsLast(cfg, s.mapper, s.clock, now);
    if t.sport !in cfg.dnat {
      SendKeepsMappings(cfg, s.mapper, s.clock, now, t);
    }
    forall id | id in s'.filter.entries
      ensures EntryHeld(cfg, s'.mapper, s'.filter.entries[id], now)
    {
      var f := s'.filter.entries[id];
      if t.sport !in cfg.dnat && f.outer.dport !in cfg.dnat && now < f.deadline {
        if id in s.filter.entries && f == s.filter.entries[id] {
          assert EntryHeld(cfg, s.mapper, f, s.clock);
          SendKeepsPort(cfg, s.mapper, s.clock, now, t, f);
        } else {
          SentPacketHasPort(cfg, s.mapper, s.clock, now, t, f);
        }
      }
    }
  }

  /** Only a mapping past its deadline is taken out, though the port of another may go
      with it. */
  lemma MapperTimerKeepsEntry(cfg: Config, m: ConeLag, clock: nat, e: Lag.LagEvent, f: Entry)
    requires MappingsLast(cfg, m, clock) && EntryHeld(cfg, m, f, clock) && (e.MapperRunOut? || e.MapperTakeOut?)
    ensures var clock' := clock + if e.MapperRunOut? then e.after else 0;
      EntryHeld(cfg, StepCone(cfg, m, Lag.MapperStep(clock, e)), f, clock')
  {
    var m' := StepCone(cfg, m, Lag.MapperStep(clock, e));
    if f.outer.dport !in cfg.dnat && clock < f.deadline {
      var id :| MappingFor(m, id, f);
      assert MappingFor(m', id, f);
    }
  }

  lemma MapperTimerIsHeld(cfg: Config, s: LagCone, e: Lag.LagEvent)
    requires Held(cfg, s) && (e.MapperRunOut? || e.MapperTakeOut?)
    ensures Held(cfg, StepLag(cfg, s, e))
  {
    hide MappingsLast, EntryHeld, StepCone;
    var s' := StepLag(cfg, s, e);
    MapperTimerKeepsMappings(cfg, s.mapper, s.clock, e);
    forall id | id in s'.filter.entries
      ensures EntryHeld(cfg, s'.mapper, s'.filter.entries[id], s'.clock)
    {
      MapperTimerKeepsEntry(cfg, s.mapper, s.clock, e, s.filter.entries[id]);
    }
  }

  lemma MapperTimerKeepsMappings(cfg: Config, m: ConeLag, clock: nat, e: Lag.LagEvent)
    requires MappingsLast(cfg, m, clock) && (e.MapperRunOut? || e.MapperTakeOut?)
    ensures var clock' := clock + if e.MapperRunOut? then e.after else 0;
      MappingsLast(cfg, StepCone(cfg, m, Lag.MapperStep(clock, e)), clock')
  {
  }

  lemma FilterTimerIsHeld(cfg: Config, s: LagCone, e: Lag.LagEvent)
    requires Held(cfg, s) && (e.FilterRunOut? || e.FilterTakeOut?)
    ensures Held(cfg, StepLag(cfg, s, e))
  {
    hide MappingsLast, HasPort;
    var s' := StepLag(cfg, s, e);
    LaterMappingsLast(cfg, s.mapper, s.clock, s'.clock);
    forall id | id in s'.filter.entries
      ensures EntryHeld(cfg, s'.mapper, s'.filter.entries[id], s'.clock)
    {
      assert EntryHeld(cfg, s.mapper, s.filter.entries[id], s.clock);
    }
  }

  lemma {:induction false} RunIsHeld(cfg: Config, s: LagCone, events: seq<Lag.LagEvent>)
    requires Held(cfg, s)
    ensures Held(cfg, RunLag(cfg, s, events))
    decreases |events|
  {
    hide Held;
    if events != [] {
      var e := events[0];
      match e {
        case SendAfter(after, t) => SendIsHeld(cfg, s, s.clock + after, t);
        case MapperRunOut(_, _) => MapperTimerIsHeld(cfg, s, e);
        case MapperTakeOut(_) => MapperTimerIsHeld(cfg, s, e);
        case FilterRunOut(_, _) => FilterTimerIsHeld(cfg, s, e);
        case FilterTakeOut(_) => FilterTimerIsHeld(cfg, s, e);
      }
      RunIsHeld(cfg, StepLag(cfg, s, e), events[1..]);
    }
  }

  // ---------- The theorems ----------

  /** Before the deadline of its filter entry an answer is rejected exactly when the
      mapper has lost the port, though it always has a live mapping for it. After the
      deadline it is rejected exactly when the port leads to no live mapping. What is
      not rejected goes to the host of the mapping the port leads to. */
  lemma RejectedExactly(cfg: Config, events: seq<Lag.LagEvent>, q: Tuple)
    requires q.dport !in cfg.dnat
    ensures var s := RunLag(cfg, NO_ENTRIES, events);
      q in s.filter.conn ==>
        && s.filter.conn[q] in s.filter.entries
        && (s.mapper.Finds(q.dport) ==>
          var e := s.mapper.entries[s.mapper.ports[q.dport]];
          e.outer.dport == q.dport && Incoming(s, q) == Forward(q.(dstIp := e.inner.srcIp)))
        && var f := s.filter.entries[s.filter.conn[q]];
        if s.clock < f.deadline then
          && (Incoming(s, q) == Drop <==> q.dport !in s.mapper.ports)
          && exists id :: s.mapper.Live(id) && MappingFor(s.mapper, id, f)
        else Incoming(s, q) == Drop <==> !s.mapper.Finds(q.dport)
  {
    hide RunLag;
    var s := RunLag(cfg, NO_ENTRIES, events);
    RunIsHeld(cfg, NO_ENTRIES, events);
    if q in s.filter.conn && s.clock < s.filter.entries[s.filter.conn[q]].deadline {
      var m, f := s.mapper, s.filter.entries[s.filter.conn[q]];
      assert EntryHeld(cfg, m, f, s.clock);
      var id :| MappingFor(m, id, f);
      assert m.Live(id) && MappingFor(m, id, f);
    }
  }

  /** An answer the filter lets in, long before the deadline of its entry, that the
      mapper rejects. */
  lemma AnswerIsRejected(cfg: Config, t: Tuple)
    requires cfg.timeout > 0 && t.sport !in cfg.dnat
    ensures var s1 := StepLag(cfg, NO_ENTRIES, Lag.SendAfter(0, t));
      var s2 := StepLag(cfg, s1, Lag.MapperRunOut(cfg.timeout, 0));
      var s3 := StepLag(cfg, s2, Lag.SendAfter(0, t));
      var s4 := StepLag(cfg, s3, Lag.MapperTakeOut(0));
      var q := t.(srcIp := cfg.extIp).Reverse();
      && q in s4.filter.conn && s4.filter.Live(s4.filter.conn[q])
      && s4.clock + cfg.timeout == s4.filter.entries[s4.filter.conn[q]].deadline
      && Incoming(s4, q) == Drop
  {
  }
}
