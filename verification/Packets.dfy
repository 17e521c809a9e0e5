// Packets as the filters see them: the five-tuple the NAT rewrites and the
// two kinds of table key built from it.

module Packets {

  datatype Option<+T> = None | Some(value: T)

  type Ip = x: int | 0 <= x < 0x1_0000_0000
  type Port = x: int | 0 <= x < 0x1_0000
  type Proto = x: int | 0 <= x < 0x100

  /** The key of an address restricted table: a tuple without its source port. */
  datatype AddrKey = AddrKey(srcIp: Ip, dstIp: Ip, dport: Port, proto: Proto)

  datatype Tuple = Tuple(srcIp: Ip, dstIp: Ip, sport: Port, dport: Port, proto: Proto) {

    /** The tuple of a packet answering one that carries this tuple. */
    function Reverse(): Tuple {
      Tuple(dstIp, srcIp, dport, sport, proto)
    }

    function ToAddrKey(): AddrKey {
      AddrKey(srcIp, dstIp, dport, proto)
    }
  }

  /** A packet value: its direction and its tuple. */
  datatype Pkt = Pkt(ingoing: bool, tup: Tuple)

  // The orders the tables sort their keys by. A table takes two keys for the
  // same one when neither is below the other.

  predicate Less(a: Tuple, b: Tuple) {
    a.srcIp < b.srcIp || (a.srcIp == b.srcIp && (
    a.dstIp < b.dstIp || (a.dstIp == b.dstIp && (
    a.sport < b.sport || (a.sport == b.sport && (
    a.dport < b.dport || (a.dport == b.dport &&
    a.proto < b.proto)))))))
  }

  predicate AddrLess(a: Tuple, b: Tuple) {
    a.srcIp < b.srcIp || (a.srcIp == b.srcIp && (
    a.dstIp < b.dstIp || (a.dstIp == b.dstIp && (
    a.dport < b.dport || (a.dport == b.dport &&
    a.proto < b.proto)))))
  }

  /** Full tables tell apart exactly the tuples that differ; address restricted
      tables tell apart exactly the tuples whose address keys differ. */
  lemma TableKeys(a: Tuple, b: Tuple)
    ensures !Less(a, b) && !Less(b, a) <==> a == b
    ensures !AddrLess(a, b) && !AddrLess(b, a) <==> a.ToAddrKey() == b.ToAddrKey()
  {
  }
}
