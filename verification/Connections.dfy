// Packets and connection entries as the objects they are, and tables of entries
// seen as values.

module Connections {
  import opened Packets
  import opened TimedTable

  class Packet {
    const ingoing: bool
    const proto: Proto
    var srcIp: Ip
    var dstIp: Ip
    var sport: Port
    var dport: Port

    constructor (ingoing: bool, t: Tuple)
      ensures View() == Pkt(ingoing, t)
    {
      this.ingoing := ingoing;
      proto, srcIp, dstIp, sport, dport := t.proto, t.srcIp, t.dstIp, t.sport, t.dport;
    }

    function Tup(): Tuple
      reads this
    {
      Tuple(srcIp, dstIp, sport, dport, proto)
    }

    function View(): Pkt
      reads this
    {
      Pkt(ingoing, Tup())
    }
  }

  /** A connection and the timer that ends it. */
  class ConnectionEntry {
    const timeout: nat
    const outer: Tuple
    const inner: Tuple
    var expires: nat

    constructor (timeout: nat, outer: Tuple, inner: Tuple)
      ensures this.timeout == timeout && this.outer == outer && this.inner == inner
    {
      this.timeout, this.outer, this.inner := timeout, outer, inner;
    }

    method Start(now: nat)
      modifies this
      ensures View() == Entry(outer, inner, now + timeout)
    {
      expires := now + timeout;
    }

    method Rearm(now: nat)
      modifies this
      ensures View() == old(View()).(deadline := now + timeout)
    {
      expires := now + timeout;
    }

    ghost function View(): Entry
      reads this
    {
      Entry(outer, inner, expires)
    }
  }

  /** A table, as values; its entries are among the given ones. */
  ghost function ViewOf<K(!new)>(table: map<K, ConnectionEntry>, entries: set<ConnectionEntry>): map<K, Entry>
    requires forall k :: k in table ==> table[k] in entries
    reads entries
  {
    map k | k in table :: table[k].View()
  }

  lemma ViewOfAdded<K(!new)>(table: map<K, ConnectionEntry>, entries: set<ConnectionEntry>, key: K, e: ConnectionEntry)
    requires forall k :: k in table ==> table[k] in entries
    ensures ViewOf(table[key := e], entries + {e}) == ViewOf(table, entries)[key := e.View()]
  {
  }

  lemma ViewOfChanged<K(!new)>(
    table: map<K, ConnectionEntry>, entries: set<ConnectionEntry>, key: K, before: map<K, Entry>)
    requires forall k :: k in table ==> table[k] in entries
    requires before.Keys == table.Keys && key in table
    requires forall k :: k in table && k != key ==> table[k].View() == before[k]
    ensures ViewOf(table, entries) == before[key := table[key].View()]
  {
  }

  lemma ViewOfKept<K(!new)>(
    table: map<K, ConnectionEntry>, entries: set<ConnectionEntry>, kept: map<K, ConnectionEntry>, now: nat)
    requires forall k :: k in table ==> table[k] in entries
    requires forall k :: k in kept ==> k in table && kept[k] == table[k]
    requires forall k :: k in table ==> (k in kept <==> now < table[k].expires)
    ensures forall k :: k in kept ==> kept[k] in entries
    ensures ViewOf(kept, entries) == Expire(ViewOf(table, entries), now)
  {
  }
}
