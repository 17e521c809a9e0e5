// A timer runs out before its entry is taken out of the tables. In between, the
// entry can no longer be looked up but its keys are still there, and taking it
// out erases by key. Here any number of steps may come in between the two.

module NatLag {
  import opened Packets
  import opened TimedTable
  import opened NatSpec
  import opened SymNat

  type Id = nat

  /** A packet sent, a timer running out, an entry taken out. */
  datatype LagStep = Send(now: nat, t: Tuple) | RunOut(now: nat, id: Id) | TakeOut(id: Id)

  // ---------- Symmetric NAT ----------

  /** The entries not yet taken out, those of them whose timer has run out, the two
      tables, and the next id. */
  datatype SymLag = SymLag(
    entries: map<Id, Entry>, dead: set<Id>, byTuple: map<Tuple, Id>, byPort: map<Port, Id>, next: Id)
  {
    predicate Live(id: Id) {
      id in entries && id !in dead
    }

    /** The table leads t to a live entry. */
    predicate Finds(t: Tuple) {
      t in byTuple && Live(byTuple[t])
    }
  }

  /** With every port taken the packet hangs. What is proved here of every step still
      holds of the fewer steps that a blocked mapper can take. */
  function SendSym(cfg: Config, s: SymLag, now: nat, t: Tuple): SymLag {
    if s.Finds(t) then
      var id := s.byTuple[t];
      s.(entries := s.entries[id := s.entries[id].(deadline := now + cfg.timeout)])
    else
      match FirstFree(s.byPort.Keys, t.sport, 0)
      case None => s
      case Some(q) =>
        var e := Entry(ExtTuple(cfg, t, q), t, now + cfg.timeout);
        SymLag(s.entries[s.next := e], s.dead, s.byTuple[t := s.next], s.byPort[q := s.next], s.next + 1)
  }

  function TakeOutSym(s: SymLag, id: Id): SymLag
    requires id in s.entries
  {
    var e := s.entries[id];
    SymLag(s.entries - {id}, s.dead - {id}, s.byTuple - {e.inner}, s.byPort - {e.outer.dport}, s.next)
  }

  function StepSym(cfg: Config, s: SymLag, step: LagStep): SymLag {
    match step
    case Send(now, t) => SendSym(cfg, s, now, t)
    case RunOut(now, id) => if s.Live(id) && s.entries[id].deadline <= now then s.(dead := s.dead + {id}) else s
    case TakeOut(id) => if id in s.entries && id in s.dead then TakeOutSym(s, id) else s
  }

  function RunSym(cfg: Config, s: SymLag, steps: seq<LagStep>): SymLag
    decreases |steps|
  {
    if steps == [] then s else RunSym(cfg, StepSym(cfg, s, steps[0]), steps[1..])
  }

  const NO_FLOWS := SymLag(map[], {}, map[], map[], 0)

  /** Each entry not yet taken out is the one its external port leads to, and each
      key of either table leads to an entry with that key. */
  ghost predicate PortsOwned(s: SymLag) {
    && s.dead <= s.entries.Keys
    && (forall id :: id in s.entries ==>
      id < s.next && s.entries[id].outer.dport in s.byPort && s.byPort[s.entries[id].outer.dport] == id)
    && (forall q :: q in s.byPort ==> s.byPort[q] in s.entries && s.entries[s.byPort[q]].outer.dport == q)
    && (forall t :: t in s.byTuple ==> s.byTuple[t] in s.entries && s.entries[s.byTuple[t]].inner == t)
  }

  lemma StepKeepsPortsOwned(cfg: Config, s: SymLag, step: LagStep)
    requires PortsOwned(s)
    ensures PortsOwned(StepSym(cfg, s, step))
  {
    if step.Send? {
      SearchFailsWhenFull(s.byPort.Keys, step.t.sport);
    }
  }

  /** However late entries are taken out, no two entries not yet taken out share an
      external port, and each is still the one its port leads to. */
  lemma {:induction false} PortsStayOwned(cfg: Config, s: SymLag, steps: seq<LagStep>)
    requires PortsOwned(s)
    ensures PortsOwned(RunSym(cfg, s, steps))
    ensures var entries := RunSym(cfg, s, steps).entries;
      forall i, j :: i in entries && j in entries && i != j ==> entries[i].outer.dport != entries[j].outer.dport
    decreases |steps|
  {
    if steps != [] {
      StepKeepsPortsOwned(cfg, s, steps[0]);
      PortsStayOwned(cfg, StepSym(cfg, s, steps[0]), steps[1..]);
    }
  }

  /** Every live entry is the one its tuple leads to. */
  ghost predicate Findable(s: SymLag) {
    forall id :: s.Live(id) ==> s.entries[id].inner in s.byTuple && s.byTuple[s.entries[id].inner] == id
  }

  /** The table by tuple has no such guarantee: a step keeps live entries findable
      unless it takes out an entry whose tuple already leads to a live one. */
  lemma FindableUnlessTupleReused(cfg: Config, s: SymLag, step: LagStep)
    requires PortsOwned(s) && Findable(s)
    ensures Findable(StepSym(cfg, s, step)) <==>
      !(step.TakeOut? && step.id in s.entries && step.id in s.dead && s.Finds(s.entries[step.id].inner))
  {
    var s' := StepSym(cfg, s, step);
    if step.TakeOut? && step.id in s.entries && step.id in s.dead && s.Finds(s.entries[step.id].inner) {
      assert s'.Live(s.byTuple[s.entries[step.id].inner]);
    } else {
      forall id | s'.Live(id)
        ensures s'.entries[id].inner in s'.byTuple && s'.byTuple[s'.entries[id].inner] == id
      {
        assert s.Live(id) || id == s.next;
      }
    }
  }

  /** A flow that ends up with two live entries and two external ports: its entry
      runs out, the next packet opens another under the next port, and only then
      is the first taken out. */
  lemma FlowSplits(cfg: Config, t: Tuple)
    ensures var s2 := StepSym(cfg, StepSym(cfg, NO_FLOWS, Send(0, t)), RunOut(cfg.timeout, 0));
      var s4 := StepSym(cfg, StepSym(cfg, s2, Send(cfg.timeout, t)), TakeOut(0));
      var s5 := StepSym(cfg, s4, Send(cfg.timeout, t));
      && s5.Live(1) && s5.Live(2) && s5.entries[1].inner == s5.entries[2].inner == t
      && s5.entries[1].outer.dport == Probe(t.sport, 1) && s5.entries[2].outer.dport == t.sport
  {
    hide FirstFree, Probe;
    var now, q := cfg.timeout, Probe(t.sport, 1);
    var e0, e1 := Entry(ExtTuple(cfg, t, t.sport), t, now), Entry(ExtTuple(cfg, t, q), t, now + now);
    var s2 := SymLag(map[0 := e0], {0}, map[t := 0], map[t.sport := 0], 1);
    var s3 := SymLag(map[0 := e0, 1 := e1], {0}, map[t := 1], map[t.sport := 0, q := 1], 2);
    var s4 := SymLag(map[1 := e1], {}, map[], map[q := 1], 2);
    assert NO_FLOWS.byPort.Keys == {} && s2.byPort.Keys == {t.sport} && s4.byPort.Keys == {q};
    NextPortIsFree(t.sport);
    FreePortIsKept({}, t.sport);
    FreePortIsKept({q}, t.sport);
    assert StepSym(cfg, StepSym(cfg, NO_FLOWS, Send(0, t)), RunOut(now, 0)) == s2;
    assert StepSym(cfg, s2, Send(now, t)) == s3;
    assert StepSym(cfg, s3, TakeOut(0)) == s4;
  }

  // ---------- Cone NAT ----------

  /** A cone mapper writes and erases both its tables under the same port, so one
      table stands for the two. */
  datatype ConeLag = ConeLag(entries: map<Id, Entry>, dead: set<Id>, ports: map<Port, Id>, next: Id)
  {
    predicate Live(id: Id) {
      id in entries && id !in dead
    }

    predicate Finds(q: Port) {
      q in ports && Live(ports[q])
    }
  }

  function StepCone(cfg: Config, s: ConeLag, step: LagStep): ConeLag {
    match step
    case Send(now, t) =>
      if s.Finds(t.sport) then
        var id := s.ports[t.sport];
        s.(entries := s.entries[id := s.entries[id].(deadline := now + cfg.timeout)])
      else
        var e := Entry(ExtTuple(cfg, t, t.sport), t, now + cfg.timeout);
        ConeLag(s.entries[s.next := e], s.dead, s.ports[t.sport := s.next], s.next + 1)
    case RunOut(now, id) => if s.Live(id) && s.entries[id].deadline <= now then s.(dead := s.dead + {id}) else s
    case TakeOut(id) =>
      if id in s.entries && id in s.dead
      then ConeLag(s.entries - {id}, s.dead - {id}, s.ports - {s.entries[id].outer.dport}, s.next)
      else s
  }

  ghost predicate PortsLead(s: ConeLag) {
    && (forall id :: id in s.entries ==> id < s.next && s.entries[id].outer.dport == s.entries[id].inner.sport)
    && (forall q :: q in s.ports ==> s.ports[q] in s.entries && s.entries[s.ports[q]].outer.dport == q)
    && s.dead <= s.entries.Keys
  }

  /** Every live entry is the one its port leads to. */
  ghost predicate ConeFindable(s: ConeLag) {
    forall id :: s.Live(id) ==> s.entries[id].outer.dport in s.ports && s.ports[s.entries[id].outer.dport] == id
  }

  /** In a cone mapper both tables lose a live entry, and its answers are rejected,
      exactly when a step takes out an entry whose port already leads to a live one. */
  lemma ConeFindableUnlessPortReused(cfg: Config, s: ConeLag, step: LagStep)
    requires PortsLead(s) && ConeFindable(s)
    ensures PortsLead(StepCone(cfg, s, step))
    ensures ConeFindable(StepCone(cfg, s, step)) <==>
      !(step.TakeOut? && step.id in s.entries && step.id in s.dead && s.Finds(s.entries[step.id].outer.dport))
  {
    var s' := StepCone(cfg, s, step);
    if step.TakeOut? && step.id in s.entries && step.id in s.dead && s.Finds(s.entries[step.id].outer.dport) {
      assert s'.Live(s.ports[s.entries[step.id].outer.dport]);
    } else {
      forall id | s'.Live(id)
        ensures s'.entries[id].outer.dport in s'.ports && s'.ports[s'.entries[id].outer.dport] == id
      {
        assert s.Live(id) || id == s.next;
      }
    }
  }

  /** A port used a moment ago that leads nowhere. */
  lemma PortIsLost(cfg: Config, t: Tuple)
    requires cfg.timeout > 0
    ensures var s1 := StepCone(cfg, ConeLag(map[], {}, map[], 0), Send(0, t));
      var s2 := StepCone(cfg, s1, RunOut(cfg.timeout, 0));
      var s3 := StepCone(cfg, s2, Send(cfg.timeout, t));
      var s4 := StepCone(cfg, s3, TakeOut(0));
      s4.Live(1) && s4.entries[1].inner == t && cfg.timeout < s4.entries[1].deadline && !s4.Finds(t.sport)
  {
  }
}
