// The mappers of the NAT and their tables of shared connection entries. Each
// method is proved to compute a function of NatSpec.

module NatMappers {
  import opened Packets
  import opened TimedTable
  import opened Connections
  import NatSpec

  /** Looks a packet up in the forwarding rules and rewrites it if one applies. */
  method CheckDnat(ghost cfg: NatSpec.Config, rules: map<Port, NatSpec.Rule>, extIp: Ip, pkt: Packet)
    returns (found: bool)
    requires rules == cfg.dnat && extIp == cfg.extIp
    modifies pkt
    ensures match NatSpec.CheckDnat(cfg, old(pkt.View()))
      case Some(t) => found && pkt.Tup() == t
      case None => !found && pkt.Tup() == old(pkt.Tup())
  {
    if pkt.ingoing {
      if pkt.dport in rules {
        pkt.dstIp, pkt.dport := rules[pkt.dport].ip, rules[pkt.dport].port;
        return true;
      }
    } else if pkt.sport in rules {
      pkt.srcIp := extIp;
      return true;
    }
    return false;
  }

  // ---------- Cone mapper ----------

  class NatMapper {
    const extIp: Ip
    const timeout: nat
    var dnatRules: map<Port, NatSpec.Rule>
    var intPortMap: map<Port, ConnectionEntry>
    var extPortMap: map<Port, ConnectionEntry>
    ghost var entries: set<ConnectionEntry>

    constructor (extIp: Ip, timeout: nat, rules: map<Port, NatSpec.Rule>)
      ensures Valid() && this.extIp == extIp && this.timeout == timeout && dnatRules == rules
      ensures entries == {} && View() == NatSpec.ConeMapper(map[])
    {
      this.extIp, this.timeout := extIp, timeout;
      dnatRules, intPortMap, extPortMap := rules, map[], map[];
      entries := {};
    }

    /** Both tables hold the same entries under the same ports. */
    ghost predicate Valid()
      reads this
    {
      && intPortMap == extPortMap
      && forall q :: q in intPortMap ==>
        var e := intPortMap[q]; e in entries && e.inner.sport == q && e.outer.dport == q && e.timeout == timeout
    }

    ghost predicate Serves(cfg: NatSpec.Config)
      reads this
    {
      extIp == cfg.extIp && timeout == cfg.timeout && dnatRules == cfg.dnat
    }

    ghost function View(): NatSpec.Mapper
      requires Valid()
      reads this, entries
    {
      NatSpec.ConeMapper(ViewOf(intPortMap, entries))
    }

    method MapPacket(ghost cfg: NatSpec.Config, pkt: Packet, now: nat) returns (mapped: bool)
      requires Valid() && Serves(cfg)
      modifies this`intPortMap, this`extPortMap, this`entries, entries, pkt
      ensures Valid() && fresh(entries - old(entries))
      ensures var (m, to) := NatSpec.MapPacket(cfg, old(View()), now, old(pkt.View()));
        && View() == m
        && mapped == to.To?
        && pkt.Tup() == if to.To? then to.tup else old(pkt.Tup())
    {
      var found := CheckDnat(cfg, dnatRules, extIp, pkt);
      if found {
        return true;
      }
      if pkt.ingoing {
        if pkt.dport in extPortMap {
          var ent := extPortMap[pkt.dport];
          pkt.dstIp, pkt.dport := ent.inner.srcIp, ent.inner.sport;
          return true;
        }
        return false;
      }
      MapOutgoing(cfg, pkt, now);
      return true;
    }

    method MapOutgoing(ghost cfg: NatSpec.Config, pkt: Packet, now: nat)
      requires Valid() && Serves(cfg)
      modifies this`intPortMap, this`extPortMap, this`entries, entries, pkt
      ensures Valid() && fresh(entries - old(entries))
      ensures var t := old(pkt.Tup());
        && View().ports == NatSpec.ConeMapOut(cfg, old(View()).ports, now, t)
        && pkt.Tup() == NatSpec.MapOut(View().ports[t.sport], t)
    {
      var tuple := pkt.Tup();
      if pkt.sport in intPortMap {
        var ent := Rearm(pkt.sport, now);
        pkt.srcIp, pkt.sport := ent.outer.dstIp, ent.outer.dport;
      } else {
        var outer := Tuple(pkt.dstIp, extIp, pkt.dport, tuple.sport, pkt.proto);
        MakeNewConn(outer, tuple, now);
        pkt.srcIp, pkt.sport := outer.dstIp, outer.dport;
      }
    }

    method Rearm(port: Port, now: nat) returns (ent: ConnectionEntry)
      requires Valid() && port in intPortMap
      modifies entries
      ensures Valid() && ent == intPortMap[port] && port in old(View()).ports
      ensures View().ports == old(View()).ports[port := old(View()).ports[port].(deadline := now + timeout)]
    {
      ent := intPortMap[port];
      ent.Rearm(now);
      ViewOfChanged(intPortMap, entries, port, old(View()).ports);
    }

    method MakeNewConn(outer: Tuple, inner: Tuple, now: nat)
      requires Valid() && inner.sport == outer.dport
      modifies this`intPortMap, this`extPortMap, this`entries
      ensures Valid() && fresh(entries - old(entries))
      ensures View().ports == old(View()).ports[inner.sport := Entry(outer, inner, now + timeout)]
    {
      hide ViewOf;
      var entry := new ConnectionEntry(timeout, outer, inner);
      intPortMap := intPortMap[inner.sport := entry];
      extPortMap := extPortMap[outer.dport := entry];
      entries := entries + {entry};
      entry.Start(now);
      ViewOfAdded(old(intPortMap), old(entries), inner.sport, entry);
    }

    method RemoveFromMaps(inner: Tuple, outer: Tuple)
      modifies this`intPortMap, this`extPortMap
      ensures intPortMap == old(intPortMap) - {inner.sport} && extPortMap == old(extPortMap) - {outer.dport}
    {
      intPortMap := intPortMap - {inner.sport};
      extPortMap := extPortMap - {outer.dport};
    }

    /** The timers that have run out by now take their entries out of the tables. */
    method FireTimers(now: nat)
      requires Valid()
      modifies this`intPortMap, this`extPortMap
      ensures Valid() && View() == NatSpec.ExpireMapper(old(View()), now)
    {
      hide ViewOf, Expire;
      var due := set q | q in intPortMap && intPortMap[q].expires <= now;
      while due != {}
        invariant Valid()
        invariant forall q :: q in intPortMap ==> q in old(intPortMap) && intPortMap[q] == old(intPortMap)[q]
        invariant forall q :: q in old(intPortMap) ==>
          (q in intPortMap <==> now < old(intPortMap)[q].expires || q in due)
        invariant forall q :: q in due ==> q in old(intPortMap) && old(intPortMap)[q].expires <= now
        decreases due
      {
        var q :| q in due;
        var e := intPortMap[q];
        RemoveFromMaps(e.inner, e.outer);
        due := due - {q};
      }
      ViewOfKept(old(intPortMap), entries, intPortMap, now);
    }
  }

  // ---------- Symmetric mapper ----------

  /** The tables share their entries and are each other's inverse. */
  ghost predicate Linked(
    intMap: map<Tuple, ConnectionEntry>, extMap: map<Port, ConnectionEntry>,
    entries: set<ConnectionEntry>, timeout: nat)
  {
    && (forall t :: t in intMap ==>
      var e := intMap[t];
      e in entries && e.inner == t && e.timeout == timeout && e.outer.dport in extMap && extMap[e.outer.dport] == e)
    && (forall q :: q in extMap ==>
      var e := extMap[q]; e in entries && e.outer.dport == q && e.inner in intMap && intMap[e.inner] == e)
  }

  lemma LinkedAdd(
    intMap: map<Tuple, ConnectionEntry>, extMap: map<Port, ConnectionEntry>,
    entries: set<ConnectionEntry>, timeout: nat,
    e: ConnectionEntry)
    requires Linked(intMap, extMap, entries, timeout) && e.timeout == timeout
    requires e.inner !in intMap && e.outer.dport !in extMap
    ensures Linked(intMap[e.inner := e], extMap[e.outer.dport := e], entries + {e}, timeout)
  {
  }

  lemma LinkedRemove(
    intMap: map<Tuple, ConnectionEntry>, extMap: map<Port, ConnectionEntry>,
    entries: set<ConnectionEntry>, timeout: nat,
    e: ConnectionEntry)
    requires Linked(intMap, extMap, entries, timeout) && e.inner in intMap && intMap[e.inner] == e
    ensures Linked(intMap - {e.inner}, extMap - {e.outer.dport}, entries, timeout)
  {
  }

  /** The table by port loses the entries the table by tuple loses. */
  lemma LinkedKept(
    intMap: map<Tuple, ConnectionEntry>, extMap: map<Port, ConnectionEntry>,
    intKept: map<Tuple, ConnectionEntry>, extKept: map<Port, ConnectionEntry>,
    entries: set<ConnectionEntry>, timeout: nat, now: nat)
    requires Linked(intMap, extMap, entries, timeout) && Linked(intKept, extKept, entries, timeout)
    requires forall t :: t in intKept ==> t in intMap && intKept[t] == intMap[t]
    requires forall t :: t in intMap ==> (t in intKept <==> now < intMap[t].expires)
    ensures ViewOf(intKept, entries) == Expire(ViewOf(intMap, entries), now)
    ensures ViewOf(extKept, entries) == Expire(ViewOf(extMap, entries), now)
  {
    assert forall q :: q in extKept ==> q in extMap && extKept[q] == extMap[q];
    assert forall q :: q in extMap ==> (q in extKept <==> now < extMap[q].expires);
    ViewOfKept(intMap, entries, intKept, now);
    ViewOfKept(extMap, entries, extKept, now);
  }

  /** One turn of the port search. */
  lemma SearchUnfolds(taken: set<Port>, start: Port, n: nat)
    requires n <= 0x1_0000
    ensures NatSpec.FirstFree(taken, start, n) ==
      if n == 0x1_0000 then None
      else if (start + n) % 0x1_0000 !in taken then Some((start + n) % 0x1_0000)
      else NatSpec.FirstFree(taken, start, n + 1)
  {
  }

  class SymNatMapper {
    const extIp: Ip
    const timeout: nat
    var dnatRules: map<Port, NatSpec.Rule>
    var intPortMap: map<Tuple, ConnectionEntry>
    var extPortMap: map<Port, ConnectionEntry>
    ghost var entries: set<ConnectionEntry>

    constructor (extIp: Ip, timeout: nat, rules: map<Port, NatSpec.Rule>)
      ensures Valid() && this.extIp == extIp && this.timeout == timeout && dnatRules == rules
      ensures entries == {} && View() == NatSpec.SymMapper(map[], map[])
    {
      this.extIp, this.timeout := extIp, timeout;
      dnatRules, intPortMap, extPortMap := rules, map[], map[];
      entries := {};
    }

    ghost predicate Valid()
      reads this
    {
      Linked(intPortMap, extPortMap, entries, timeout)
    }

    ghost predicate Serves(cfg: NatSpec.Config)
      reads this
    {
      extIp == cfg.extIp && timeout == cfg.timeout && dnatRules == cfg.dnat
    }

    ghost function View(): NatSpec.Mapper
      requires Valid()
      reads this, entries
    {
      NatSpec.SymMapper(ViewOf(intPortMap, entries), ViewOf(extPortMap, entries))
    }

    method MapPacket(ghost cfg: NatSpec.Config, pkt: Packet, now: nat) returns (mapped: bool)
      requires Valid() && Serves(cfg)
      requires !NatSpec.MapPacket(cfg, View(), now, pkt.View()).1.Stuck?
      modifies this`intPortMap, this`extPortMap, this`entries, entries, pkt
      ensures Valid() && fresh(entries - old(entries))
      ensures var (m, to) := NatSpec.MapPacket(cfg, old(View()), now, old(pkt.View()));
        && View() == m
        && mapped == to.To?
        && pkt.Tup() == if to.To? then to.tup else old(pkt.Tup())
    {
      hide NatSpec.SymMapOut;
      var found := CheckDnat(cfg, dnatRules, extIp, pkt);
      if found {
        return true;
      }
      if pkt.ingoing {
        if pkt.dport in extPortMap {
          var ent := extPortMap[pkt.dport];
          pkt.dstIp, pkt.dport := ent.inner.srcIp, ent.inner.sport;
          return true;
        }
        return false;
      }
      MapOutgoing(cfg, pkt, now);
      return true;
    }

    method MapOutgoing(ghost cfg: NatSpec.Config, pkt: Packet, now: nat)
      requires Valid() && Serves(cfg)
      requires NatSpec.SymMapOut(cfg, View(), now, pkt.Tup()).Some?
      modifies this`intPortMap, this`extPortMap, this`entries, entries, pkt
      ensures Valid() && fresh(entries - old(entries))
      ensures var t := old(pkt.Tup());
        && NatSpec.SymMapOut(cfg, old(View()), now, t) == Some(View())
        && pkt.Tup() == NatSpec.MapOut(View().byTuple[t], t)
    {
      hide Linked, ViewOf;
      var tuple := pkt.Tup();
      var outer;
      if tuple in intPortMap {
        outer := Rearm(cfg, tuple, now);
      } else {
        outer := Open(cfg, tuple, now);
      }
      ghost var v := View();
      pkt.srcIp, pkt.sport := outer.dstIp, outer.dport;
      assert View() == v;
    }

    /** The tables share the entry, so rearming it shows in both. */
    method Rearm(ghost cfg: NatSpec.Config, tuple: Tuple, now: nat) returns (outer: Tuple)
      requires Valid() && Serves(cfg) && tuple in intPortMap
      modifies entries
      ensures Valid()
      ensures NatSpec.SymMapOut(cfg, old(View()), now, tuple) == Some(View()) && outer == View().byTuple[tuple].outer
    {
      var ent := intPortMap[tuple];
      ent.Rearm(now);
      ViewOfChanged(intPortMap, entries, tuple, old(View()).byTuple);
      ViewOfChanged(extPortMap, entries, ent.outer.dport, old(View()).byPort);
      outer := ent.outer;
    }

    method Open(ghost cfg: NatSpec.Config, tuple: Tuple, now: nat) returns (outer: Tuple)
      requires Valid() && Serves(cfg) && tuple !in intPortMap
      requires NatSpec.SymMapOut(cfg, View(), now, tuple).Some?
      modifies this`intPortMap, this`extPortMap, this`entries
      ensures Valid() && fresh(entries - old(entries))
      ensures NatSpec.SymMapOut(cfg, old(View()), now, tuple) == Some(View()) && outer == View().byTuple[tuple].outer
    {
      assert View().byPort.Keys == extPortMap.Keys;
      var port := MapPort(tuple);
      outer := Tuple(tuple.dstIp, extIp, tuple.dport, port, tuple.proto);
      MakeNewConn(outer, tuple, now);
    }

    /** The loop ends because the search meets a free port; with every port taken it
        would go round for ever. */
    method MapPort(tup: Tuple) returns (port: Port)
      requires NatSpec.FirstFree(extPortMap.Keys, tup.sport, 0).Some?
      ensures NatSpec.FirstFree(extPortMap.Keys, tup.sport, 0) == Some(port) && port !in extPortMap
    {
      hide NatSpec.FirstFree;
      port := tup.sport;
      ghost var n := 0;
      while port in extPortMap
        invariant n <= 0x1_0000 && port == (tup.sport + n) % 0x1_0000
        invariant NatSpec.FirstFree(extPortMap.Keys, tup.sport, n) == NatSpec.FirstFree(extPortMap.Keys, tup.sport, 0)
        decreases 0x1_0000 - n
      {
        SearchUnfolds(extPortMap.Keys, tup.sport, n);
        port := (port + 1) % 0x1_0000;
        n := n + 1;
      }
      SearchUnfolds(extPortMap.Keys, tup.sport, n);
    }

    method MakeNewConn(outer: Tuple, inner: Tuple, now: nat)
      requires Valid() && inner !in intPortMap && outer.dport !in extPortMap
      modifies this`intPortMap, this`extPortMap, this`entries
      ensures Valid() && fresh(entries - old(entries))
      ensures var e := Entry(outer, inner, now + timeout);
        View() == NatSpec.SymMapper(old(View()).byTuple[inner := e], old(View()).byPort[outer.dport := e])
    {
      hide ViewOf;
      var entry := new ConnectionEntry(timeout, outer, inner);
      intPortMap := intPortMap[inner := entry];
      extPortMap := extPortMap[outer.dport := entry];
      entries := entries + {entry};
      entry.Start(now);
      LinkedAdd(old(intPortMap), old(extPortMap), old(entries), timeout, entry);
      ViewOfAdded(old(intPortMap), old(entries), inner, entry);
      ViewOfAdded(old(extPortMap), old(entries), outer.dport, entry);
    }

    method RemoveFromMaps(inner: Tuple, outer: Tuple)
      modifies this`intPortMap, this`extPortMap
      ensures intPortMap == old(intPortMap) - {inner} && extPortMap == old(extPortMap) - {outer.dport}
    {
      intPortMap := intPortMap - {inner};
      extPortMap := extPortMap - {outer.dport};
    }

    /** An entry that dies takes itself out of both tables. */
    method TakeOut(t: Tuple)
      requires Valid() && t in intPortMap
      modifies this`intPortMap, this`extPortMap
      ensures Valid() && intPortMap == old(intPortMap) - {t}
    {
      var e := intPortMap[t];
      LinkedRemove(intPortMap, extPortMap, entries, timeout, e);
      RemoveFromMaps(e.inner, e.outer);
    }

    /** The timers that have run out by now take their entries out of the tables. */
    method FireTimers(now: nat)
      requires Valid()
      modifies this`intPortMap, this`extPortMap
      ensures Valid() && View() == NatSpec.ExpireMapper(old(View()), now)
    {
      hide Linked, ViewOf, Expire;
      ghost var before := intPortMap;
      var due := set t | t in intPortMap && intPortMap[t].expires <= now;
      while due != {}
        invariant Valid()
        invariant forall t :: t in intPortMap ==> t in before && intPortMap[t] == before[t]
        invariant forall t :: t in before ==> (t in intPortMap <==> now < before[t].expires || t in due)
        invariant forall t :: t in due ==> t in before && before[t].expires <= now
        decreases due
      {
        var t :| t in due;
        TakeOut(t);
        due := due - {t};
      }
      LinkedKept(before, old(extPortMap), intPortMap, extPortMap, entries, timeout, now);
    }
  }
}
