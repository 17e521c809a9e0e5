// How the flows of a symmetric NAT share its external ports: when a flow is moved
// to another port, when its answers miss it, and how the ports run out.

module SymNatPorts {
  import opened Packets
  import opened TimedTable
  import opened NatSpec
  import opened SymNat

  // ---------- Answers ----------

  /** The answer to a packet that went out reaches its sender within the timeout, unless
      the packet left by a forwarded port: the port search does not avoid those, and
      the answer then goes where the rule says. */
  lemma AnswerReachesSender(cfg: Config, evs: seq<Event>, now: nat, t: Tuple, x: Tuple, later: nat)
    requires cfg.kind.Symmetric? && InOrder(evs, now) && now <= later < now + cfg.timeout
    requires OutcomeOf(cfg, evs, now, Pkt(false, t)) == Forward(x)
    ensures var evs' := evs + [Event(now, Pkt(false, t))];
      OutcomeOf(cfg, evs', later, Pkt(true, x.Reverse())) == Forward(t.Reverse()) <==>
        x.sport !in cfg.dnat || cfg.dnat[x.sport] == Rule(t.srcIp, t.sport)
  {
    hide Hung, Step;
    var n, evs' := |evs|, evs + [Event(now, Pkt(false, t))];
    assert evs'[..n] == evs;
    assert OutcomeAt(cfg, evs', n) == Forward(x);
    if x.sport in cfg.dnat {
      ForwardedPortGetsAnswer(cfg, evs, now, t, x, later);
    } else {
      SentFromUnforwardedPort(cfg, evs', n, t, x);
      if Hung(cfg, evs) {
        HungSendsNothing(cfg, evs, now, t);
      }
      PrefixHung(cfg, evs');
      assert x.Reverse().Reverse() == x && t.Reverse().Reverse() == t;
      assert SentAs(cfg, evs', n, later, t, x);
      IncomingAnswersOutgoing(cfg, evs', later, x.Reverse(), t.Reverse());
    }
  }

  lemma ForwardedPortGetsAnswer(cfg: Config, evs: seq<Event>, now: nat, t: Tuple, x: Tuple, later: nat)
    requires cfg.kind.Symmetric? && x.sport in cfg.dnat
    requires OutcomeOf(cfg, evs, now, Pkt(false, t)) == Forward(x)
    ensures var evs' := evs + [Event(now, Pkt(false, t))];
      OutcomeOf(cfg, evs', later, Pkt(true, x.Reverse())) == Forward(t.Reverse()) <==>
        cfg.dnat[x.sport] == Rule(t.srcIp, t.sport)
  {
    hide Step;
    LeavesForSameRemote(cfg, evs, now, t, x);
    ForwardedAnswer(cfg, Run(cfg, evs + [Event(now, Pkt(false, t))]), later, t, x.sport);
  }

  /** Translation changes the source address and port and nothing else. */
  lemma LeavesForSameRemote(cfg: Config, evs: seq<Event>, now: nat, t: Tuple, x: Tuple)
    requires cfg.kind.Symmetric? && OutcomeOf(cfg, evs, now, Pkt(false, t)) == Forward(x)
    ensures x == t.(srcIp := cfg.extIp, sport := x.sport)
  {
    hide Hung;
    if t.sport in cfg.dnat {
      ForwardedPortLeavesAsIs(cfg, evs, now, t);
    } else {
      if Hung(cfg, evs) {
        HungSendsNothing(cfg, evs, now, t);
      }
      RunIsConsistent(cfg, evs);
      ExpiryKeepsConsistent(cfg, Run(cfg, evs), now);
      OutgoingPacket(cfg, ExpireAll(Run(cfg, evs), now), now, t);
    }
  }

  // ---------- Moved flows ----------

  lemma FirstFlowKeepsPort(cfg: Config, now: nat, t: Tuple)
    requires cfg.kind.Symmetric? && t.sport !in cfg.dnat
    ensures var e := Entry(ExtTuple(cfg, t, t.sport), t, now + cfg.timeout);
      Run(cfg, [Event(now, Pkt(false, t))]).mapper == SymMapper(map[t := e], map[t.sport := e])
  {
    hide FirstFree;
    var none := SymMapper(map[], map[]);
    var s0 := ExpireAll(Init(Symmetric), now);
    assert s0.mapper == none;
    assert none.byPort.Keys == {};
    FreePortIsKept({}, t.sport);
    OutgoingUnfolds(cfg, s0, now, t);
    var evs := [Event(now, Pkt(false, t))];
    assert evs[..0] == [];
    assert Run(cfg, evs) == Step(cfg, Init(Symmetric), evs[0]).0;
  }

  /** The second of two flows from one port is moved to the next one. */
  lemma SecondFlowMoves(cfg: Config, now: nat, t: Tuple, u: Tuple)
    requires cfg.kind.Symmetric? && cfg.timeout > 0 && t != u && t.sport == u.sport && t.sport !in cfg.dnat
    ensures OutcomeOf(cfg, [Event(now, Pkt(false, t))], now, Pkt(false, u)) ==
      Forward(u.(srcIp := cfg.extIp, sport := Probe(u.sport, 1)))
  {
    hide FirstFree, Run, Probe;
    var evs := [Event(now, Pkt(false, t))];
    FirstFlowKeepsPort(cfg, now, t);
    FilterIsHistory(cfg, evs);
    var s, s0 := Run(cfg, evs), ExpireAll(Run(cfg, evs), now);
    assert s0.mapper == s.mapper;
    assert s0.mapper.byPort.Keys == {t.sport};
    NextPortIsFree(t.sport);
    OutgoingUnfolds(cfg, s0, now, u);
  }

  /** When the next port is forwarded elsewhere, the answers to the moved flow go there. */
  lemma AnswerGoesAstray(host: Ip, extIp: Ip, now: nat, t: Tuple, u: Tuple)
    requires t != u && t.sport == u.sport == 79 && host != u.srcIp
    ensures
      var cfg := Config(Symmetric, extIp, 600, map[80 := Rule(host, 80)]);
      var evs := [Event(now, Pkt(false, t)), Event(now, Pkt(false, u))];
      OutcomeOf(cfg, evs, now, Pkt(true, u.(srcIp := extIp, sport := 80).Reverse())) != Forward(u.Reverse())
  {
    hide OutcomeOf;
    var cfg := Config(Symmetric, extIp, 600, map[80 := Rule(host, 80)]);
    var evs := [Event(now, Pkt(false, t))];
    SecondFlowMoves(cfg, now, t, u);
    AnswerReachesSender(cfg, evs, now, u, u.(srcIp := extIp, sport := 80), now);
    assert evs + [Event(now, Pkt(false, u))] == [Event(now, Pkt(false, t)), Event(now, Pkt(false, u))];
  }

  // ---------- Running out of ports ----------

  /** One packet for each of these tuples, all at one time. */
  function SendAll(now: nat, ts: seq<Tuple>): seq<Event> {
    seq(|ts|, i requires 0 <= i < |ts| => Event(now, Pkt(false, ts[i])))
  }

  ghost predicate Distinct(ts: seq<Tuple>) {
    forall i, j :: 0 <= i < j < |ts| ==> ts[i] != ts[j]
  }

  ghost predicate Unforwarded(cfg: Config, ts: seq<Tuple>) {
    forall i :: 0 <= i < |ts| ==> ts[i].sport !in cfg.dnat
  }

  /** The mapper holds the flows of ts and no other, all just used. */
  ghost predicate HoldsFlows(cfg: Config, m: Mapper, now: nat, ts: seq<Tuple>) {
    && m.SymMapper? && |m.byTuple| == |ts|
    && (forall t :: t in m.byTuple <==> t in ts)
    && (forall t :: t in m.byTuple ==> m.byTuple[t].deadline == now + cfg.timeout)
  }

  /** Up to 65536 flows can be open at a time. */
  lemma {:induction false} FlowsOpen(cfg: Config, now: nat, ts: seq<Tuple>)
    requires cfg.kind.Symmetric? && cfg.timeout > 0 && |ts| <= 0x1_0000
    requires Distinct(ts) && Unforwarded(cfg, ts)
    ensures !Hung(cfg, SendAll(now, ts)) && HoldsFlows(cfg, Run(cfg, SendAll(now, ts)).mapper, now, ts)
  {
    hide Hung, Step, Consistent;
    if ts == [] {
      NoFlowsOpen(cfg, now);
    } else {
      hide SendAll, HoldsFlows, Distinct, Unforwarded;
      var n := |ts| - 1;
      var evs, before := SendAll(now, ts), SendAll(now, ts[..n]);
      SendAllButLast(now, ts);
      DistinctButLast(cfg, ts);
      FlowsOpen(cfg, now, ts[..n]);
      PrefixHung(cfg, evs);
      NewFlowOpens(cfg, before, now, ts[..n], ts[n]);
      assert ts == ts[..n] + [ts[n]];
    }
  }

  lemma NoFlowsOpen(cfg: Config, now: nat)
    requires cfg.kind.Symmetric?
    ensures !Hung(cfg, SendAll(now, [])) && HoldsFlows(cfg, Run(cfg, SendAll(now, [])).mapper, now, [])
  {
    assert SendAll(now, []) == [];
  }

  lemma DistinctButLast(cfg: Config, ts: seq<Tuple>)
    requires ts != [] && Distinct(ts) && Unforwarded(cfg, ts)
    ensures var n := |ts| - 1;
      && Distinct(ts[..n]) && Unforwarded(cfg, ts[..n])
      && ts[n] !in ts[..n] && ts[n].sport !in cfg.dnat
  {
  }

  lemma SendAllButLast(now: nat, ts: seq<Tuple>)
    requires ts != []
    ensures var n := |ts| - 1;
      |SendAll(now, ts)| == n + 1 && SendAll(now, ts)[..n] == SendAll(now, ts[..n])
      && SendAll(now, ts)[n] == Event(now, Pkt(false, ts[n]))
  {
  }

  lemma NewFlowOpens(cfg: Config, evs: seq<Event>, now: nat, ts: seq<Tuple>, t: Tuple)
    requires cfg.kind.Symmetric? && cfg.timeout > 0 && !Hung(cfg, evs)
    requires HoldsFlows(cfg, Run(cfg, evs).mapper, now, ts) && |ts| < 0x1_0000 && t !in ts && t.sport !in cfg.dnat
    ensures var (s, out) := Step(cfg, Run(cfg, evs), Event(now, Pkt(false, t)));
      out != Hang && HoldsFlows(cfg, s.mapper, now, ts + [t])
  {
    hide Hung, Consistent, HandlePacket, Run, SymNat.Arms;
    var s := Run(cfg, evs);
    NothingExpires(cfg, s.mapper, now, ts);
    HangsWhenFull(cfg, evs, now, t);
    RunIsConsistent(cfg, evs);
    ExpiryKeepsConsistent(cfg, s, now);
    OutgoingPacket(cfg, ExpireAll(s, now), now, t);
    ArmedFlowIsHeld(cfg, ExpireAll(s, now).mapper, now, ts, t, Step(cfg, s, Event(now, Pkt(false, t))).0.mapper);
  }

  lemma NothingExpires(cfg: Config, m: Mapper, now: nat, ts: seq<Tuple>)
    requires cfg.timeout > 0 && HoldsFlows(cfg, m, now, ts)
    ensures Expire(m.byTuple, now) == m.byTuple
  {
  }

  lemma ArmedFlowIsHeld(cfg: Config, m: Mapper, now: nat, ts: seq<Tuple>, t: Tuple, m': Mapper)
    requires HoldsFlows(cfg, m, now, ts) && t !in ts && SymNat.Arms(cfg, m, now, t, m')
    ensures HoldsFlows(cfg, m', now, ts + [t])
  {
    var e := m'.byTuple[t];
    assert m'.byTuple == m.byTuple[t := e] && e.deadline == now + cfg.timeout;
    OneFlowMore(cfg, m, now, ts, t, e, m');
  }

  lemma OneFlowMore(cfg: Config, m: Mapper, now: nat, ts: seq<Tuple>, t: Tuple, e: Entry, m': Mapper)
    requires HoldsFlows(cfg, m, now, ts) && t !in ts && m'.SymMapper?
    requires m'.byTuple == m.byTuple[t := e] && e.deadline == now + cfg.timeout
    ensures HoldsFlows(cfg, m', now, ts + [t])
  {
    assert m'.byTuple.Keys == m.byTuple.Keys + {t};
  }

  /** With 65536 flows open, a packet of any other flow hangs, and so does for ever
      after every packet from a port that is not forwarded. */
  lemma FullNatHangs(cfg: Config, now: nat, ts: seq<Tuple>, u: Tuple, later: nat, v: Tuple)
    requires cfg.kind.Symmetric? && cfg.timeout > 0 && |ts| == 0x1_0000
    requires Distinct(ts) && Unforwarded(cfg, ts)
    requires u !in ts && u.sport !in cfg.dnat && v.sport !in cfg.dnat
    ensures OutcomeOf(cfg, SendAll(now, ts), now, Pkt(false, u)) == Hang
    ensures OutcomeOf(cfg, SendAll(now, ts) + [Event(now, Pkt(false, u))], later, Pkt(false, v)) == Hang
  {
    hide Hung, Step;
    var evs := SendAll(now, ts);
    var evs' := evs + [Event(now, Pkt(false, u))];
    FlowsOpen(cfg, now, ts);
    var m := Run(cfg, evs).mapper;
    assert Expire(m.byTuple, now) == m.byTuple;
    HangsWhenFull(cfg, evs, now, u);
    assert evs'[..|evs|] == evs;
    PrefixHung(cfg, evs');
    HungSendsNothing(cfg, evs', later, v);
  }

  /** As many hosts, each sending from the same port to the same server. */
  function Crowd(dstIp: Ip, sport: Port, dport: Port, n: nat): seq<Tuple>
    requires n <= 0x1_0000
  {
    seq(n, i requires 0 <= i < n => Tuple(i, dstIp, sport, dport, 6))
  }

  /** There are runs that fill the ports and hang. */
  lemma CrowdHangs(cfg: Config, now: nat, dstIp: Ip, sport: Port, dport: Port, n: nat)
    requires cfg.kind.Symmetric? && cfg.timeout > 0 && sport !in cfg.dnat && n == 0x1_0000
    ensures var evs, t := SendAll(now, Crowd(dstIp, sport, dport, n)), Tuple(n, dstIp, sport, dport, 6);
      OutcomeOf(cfg, evs, now, Pkt(false, t)) == Hang
  {
    hide OutcomeOf;
    var ts, u := Crowd(dstIp, sport, dport, n), Tuple(n, dstIp, sport, dport, 6);
    FullNatHangs(cfg, now, ts, u, now, u);
  }
}
