// Forwarded ports bypass the tables. What that gives, and what it does not.

module PortForwarding {
  import opened Packets
  import opened TimedTable
  import opened NatSpec
  import opened ConeNat
  import Ports = SymNatPorts
  import Sym = SymNat

  /** The answer a host gives to a packet that was forwarded to it. */
  function Answer(cfg: Config, t: Tuple): Tuple
    requires t.dport in cfg.dnat
  {
    var r := cfg.dnat[t.dport];
    t.(dstIp := r.ip, dport := r.port).Reverse()
  }

  /** The symmetric mapper has q for packets of a: as the port of their flow, or as
      the first free port from theirs on. */
  predicate Offers(m: Mapper, a: Tuple, q: Port) {
    && m.SymMapper?
    && if a in m.byTuple then m.byTuple[a].outer.dport == q else FirstFree(m.byPort.Keys, a.sport, 0) == Some(q)
  }

  /** The answer leaves as an answer to the packet that came exactly when the packet was
      addressed to the NAT and the rule keeps the port, or a symmetric mapper happens
      to translate the port of the rule back: outgoing packets are matched to rules by
      external port, and otherwise are mapped like any other. */
  lemma AnswerReturns(cfg: Config, evs: seq<Event>, now: nat, t: Tuple)
    requires t.dport in cfg.dnat
    ensures var rule := cfg.dnat[t.dport];
      OutcomeOf(cfg, evs, now, Pkt(false, Answer(cfg, t))) == Forward(t.Reverse()) <==>
        && t.dstIp == cfg.extIp
        && (rule.port == t.dport
          || (cfg.kind.Symmetric? && rule.port !in cfg.dnat
            && Offers(ExpireAll(Run(cfg, evs), now).mapper, Answer(cfg, t), t.dport)))
  {
    var a := Answer(cfg, t);
    if IsCone(cfg) {
      OutgoingKeepsPort(cfg, evs, now, a);
    } else if a.sport in cfg.dnat {
      Sym.ForwardedPortLeavesAsIs(cfg, evs, now, a);
    } else {
      UnforwardedLeavesByOffer(cfg, evs, now, a, t.dport);
    }
  }

  lemma UnforwardedLeavesByOffer(cfg: Config, evs: seq<Event>, now: nat, a: Tuple, q: Port)
    requires cfg.kind.Symmetric? && a.sport !in cfg.dnat
    ensures forall x :: OutcomeOf(cfg, evs, now, Pkt(false, a)) == Forward(x) && x.sport == q <==>
      x == a.(srcIp := cfg.extIp, sport := q) && Offers(ExpireAll(Run(cfg, evs), now).mapper, a, q)
  {
    hide Sym.Hung, FirstFree;
    var s0 := ExpireAll(Run(cfg, evs), now);
    Sym.RunIsConsistent(cfg, evs);
    if Sym.Hung(cfg, evs) {
      Sym.HungSendsNothing(cfg, evs, now, a);
    } else {
      Sym.ExpiryKeepsConsistent(cfg, Run(cfg, evs), now);
      Sym.OutgoingUnfolds(cfg, s0, now, a);
    }
  }

  /** A rule from port 80 to port 8080 gives answers that come from port 8080. */
  lemma TranslatedPortLosesAnswer(remote: Ip, host: Ip, extIp: Ip, sport: Port, now: nat)
    ensures
      var cfg := Config(PortRestricted, extIp, 600, map[80 := Rule(host, 8080)]);
      var t := Tuple(remote, extIp, sport, 80, 6);
      && OutcomeOf(cfg, [], now, Pkt(true, t)) == Forward(Tuple(remote, host, sport, 8080, 6))
      && OutcomeOf(cfg, [], now, Pkt(false, Answer(cfg, t))) == Forward(Tuple(extIp, remote, 8080, sport, 6))
  {
  }

  /** A rule from port 80 to port 79 in a symmetric NAT where another flow has port 79:
      the answer is moved to port 80 and so returns. */
  lemma TranslatedPortReturnsByChance(remote: Ip, host: Ip, extIp: Ip, sport: Port, other: Tuple, now: nat)
    requires other.sport == 79 && other != Tuple(host, remote, 79, sport, 6)
    ensures
      var cfg := Config(Symmetric, extIp, 600, map[80 := Rule(host, 79)]);
      var t := Tuple(remote, extIp, sport, 80, 6);
      OutcomeOf(cfg, [Event(now, Pkt(false, other))], now, Pkt(false, Answer(cfg, t))) == Forward(t.Reverse())
  {
    hide OutcomeOf;
    var cfg := Config(Symmetric, extIp, 600, map[80 := Rule(host, 79)]);
    Ports.SecondFlowMoves(cfg, now, other, Answer(cfg, Tuple(remote, extIp, sport, 80, 6)));
  }
}
