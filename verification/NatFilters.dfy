// The filters of the NAT and their tables of connection entries. Each method is
// proved to compute a function of NatSpec.

module NatFilters {
  import opened Packets
  import opened TimedTable
  import opened Connections
  import NatSpec

  // ---------- Port restricted and symmetric ----------

  class PortrSymNatFilter {
    const timeout: nat
    var dnatRules: map<Port, NatSpec.Rule>
    var connMap: map<Tuple, ConnectionEntry>
    ghost var entries: set<ConnectionEntry>

    constructor (timeout: nat, rules: map<Port, NatSpec.Rule>)
      ensures Valid() && this.timeout == timeout && dnatRules == rules
      ensures entries == {} && View() == NatSpec.TupleFilter(map[])
    {
      this.timeout := timeout;
      dnatRules, connMap, entries := rules, map[], {};
    }

    ghost predicate Valid()
      reads this
    {
      forall k :: k in connMap ==> var e := connMap[k]; e in entries && e.outer == k && e.timeout == timeout
    }

    ghost predicate Serves(cfg: NatSpec.Config)
      reads this
    {
      timeout == cfg.timeout && dnatRules == cfg.dnat
    }

    ghost function View(): NatSpec.Filter
      requires Valid()
      reads this, entries
    {
      NatSpec.TupleFilter(ViewOf(connMap, entries))
    }

    method FilterPacket(ghost cfg: NatSpec.Config, pkt: Packet, now: nat) returns (pass: bool)
      requires Valid() && Serves(cfg)
      modifies this`connMap, this`entries, entries
      ensures Valid() && fresh(entries - old(entries))
      ensures (View(), pass) == NatSpec.FilterPacket(cfg, old(View()), now, pkt.View())
    {
      var tuple := pkt.Tup();
      if pkt.ingoing {
        return tuple in connMap || pkt.dport in dnatRules;
      }
      var outer := Tuple(pkt.dstIp, pkt.srcIp, pkt.dport, pkt.sport, pkt.proto);
      if outer in connMap {
        Rearm(outer, now);
      } else {
        Open(outer, tuple, now);
      }
      return true;
    }

    method Rearm(outer: Tuple, now: nat)
      requires Valid() && outer in connMap
      modifies entries
      ensures Valid() && outer in old(View()).conn
      ensures View().conn == old(View()).conn[outer := old(View()).conn[outer].(deadline := now + timeout)]
    {
      var ent := connMap[outer];
      ent.Rearm(now);
      ViewOfChanged(connMap, entries, outer, old(View()).conn);
    }

    method Open(outer: Tuple, inner: Tuple, now: nat)
      requires Valid()
      modifies this`connMap, this`entries
      ensures Valid() && fresh(entries - old(entries))
      ensures View().conn == old(View()).conn[outer := Entry(outer, inner, now + timeout)]
    {
      hide ViewOf;
      var entry := new ConnectionEntry(timeout, outer, inner);
      connMap := connMap[outer := entry];
      entries := entries + {entry};
      entry.Start(now);
      ViewOfAdded(old(connMap), old(entries), outer, entry);
    }

    method RemoveFromMaps(tup: Tuple)
      modifies this`connMap
      ensures connMap == old(connMap) - {tup}
    {
      if tup in connMap {
        connMap := connMap - {tup};
      }
    }

    /** The timers that have run out by now take their entries out of the table. */
    method FireTimers(now: nat)
      requires Valid()
      modifies this`connMap
      ensures Valid() && View() == NatSpec.ExpireFilter(old(View()), now)
    {
      ghost var before := connMap;
      var due := set k | k in connMap && connMap[k].expires <= now;
      while due != {}
        invariant forall k :: k in connMap ==> k in before && connMap[k] == before[k]
        invariant forall k :: k in before ==> (k in connMap <==> now < before[k].expires || k in due)
        invariant forall k :: k in due ==> k in before && before[k].expires <= now
        decreases due
      {
        var k :| k in due;
        RemoveFromMaps(connMap[k].outer);
        due := due - {k};
      }
      ViewOfKept(before, entries, connMap, now);
    }
  }

  // ---------- Address restricted ----------

  class AddrrNatFilter {
    const timeout: nat
    var dnatRules: map<Port, NatSpec.Rule>
    var connMap: map<AddrKey, ConnectionEntry>
    ghost var entries: set<ConnectionEntry>

    constructor (timeout: nat, rules: map<Port, NatSpec.Rule>)
      ensures Valid() && this.timeout == timeout && dnatRules == rules
      ensures entries == {} && View() == NatSpec.AddrFilter(map[])
    {
      this.timeout := timeout;
      dnatRules, connMap, entries := rules, map[], {};
    }

    ghost predicate Valid()
      reads this
    {
      forall k :: k in connMap ==>
        var e := connMap[k]; e in entries && e.outer.ToAddrKey() == k && e.timeout == timeout
    }

    ghost predicate Serves(cfg: NatSpec.Config)
      reads this
    {
      timeout == cfg.timeout && dnatRules == cfg.dnat
    }

    ghost function View(): NatSpec.Filter
      requires Valid()
      reads this, entries
    {
      NatSpec.AddrFilter(ViewOf(connMap, entries))
    }

    method FilterPacket(ghost cfg: NatSpec.Config, pkt: Packet, now: nat) returns (pass: bool)
      requires Valid() && Serves(cfg)
      modifies this`connMap, this`entries, entries
      ensures Valid() && fresh(entries - old(entries))
      ensures (View(), pass) == NatSpec.FilterPacket(cfg, old(View()), now, pkt.View())
    {
      var tuple := pkt.Tup();
      if pkt.ingoing {
        return tuple.ToAddrKey() in connMap || pkt.dport in dnatRules;
      }
      var outer := Tuple(pkt.dstIp, pkt.srcIp, pkt.dport, pkt.sport, pkt.proto);
      var key := outer.ToAddrKey();
      if key in connMap {
        Rearm(key, now);
      } else {
        Open(outer, tuple, now);
      }
      return true;
    }

    method Rearm(key: AddrKey, now: nat)
      requires Valid() && key in connMap
      modifies entries
      ensures Valid() && key in old(View()).addrs
      ensures View().addrs == old(View()).addrs[key := old(View()).addrs[key].(deadline := now + timeout)]
    {
      var ent := connMap[key];
      ent.Rearm(now);
      ViewOfChanged(connMap, entries, key, old(View()).addrs);
    }

    method Open(outer: Tuple, inner: Tuple, now: nat)
      requires Valid()
      modifies this`connMap, this`entries
      ensures Valid() && fresh(entries - old(entries))
      ensures View().addrs == old(View()).addrs[outer.ToAddrKey() := Entry(outer, inner, now + timeout)]
    {
      hide ViewOf;
      var entry := new ConnectionEntry(timeout, outer, inner);
      connMap := connMap[outer.ToAddrKey() := entry];
      entries := entries + {entry};
      entry.Start(now);
      ViewOfAdded(old(connMap), old(entries), outer.ToAddrKey(), entry);
    }

    method RemoveFromMaps(tup: Tuple)
      modifies this`connMap
      ensures connMap == old(connMap) - {tup.ToAddrKey()}
    {
      if tup.ToAddrKey() in connMap {
        connMap := connMap - {tup.ToAddrKey()};
      }
    }

    /** The timers that have run out by now take their entries out of the table. */
    method FireTimers(now: nat)
      requires Valid()
      modifies this`connMap
      ensures Valid() && View() == NatSpec.ExpireFilter(old(View()), now)
    {
      ghost var before := connMap;
      var due := set k | k in connMap && connMap[k].expires <= now;
      while due != {}
        invariant forall k :: k in connMap ==> k in before && connMap[k] == before[k]
        invariant forall k :: k in before ==> (k in connMap <==> now < before[k].expires || k in due)
        invariant forall k :: k in due ==> k in before && before[k].expires <= now
        decreases due
      {
        var k :| k in due;
        RemoveFromMaps(connMap[k].outer);
        due := due - {k};
      }
      ViewOfKept(before, entries, connMap, now);
    }
  }
}
