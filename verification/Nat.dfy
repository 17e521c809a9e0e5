// The NAT filter: its configuration, the mapper and filter it is built from, and
// what it does to a packet.

module Nat {
  import opened Packets
  import opened Connections
  import opened NatMappers
  import opened NatFilters
  import NatSpec

  function ParseKind(name: string): Option<NatSpec.Kind> {
    if name == "portr" then Some(NatSpec.PortRestricted)
    else if name == "addrr" then Some(NatSpec.AddrRestricted)
    else if name == "symnat" then Some(NatSpec.Symmetric)
    else if name == "fullcone" then Some(NatSpec.FullCone)
    else None
  }

  class Nat {
    var kind: NatSpec.Kind
    var extIp: Ip
    var connectionTimeout: nat
    var dnatRules: map<Port, NatSpec.Rule>

    // Set by Init: one of the mappers and at most one of the filters. No filter is
    // the filter of a full cone NAT, which lets everything pass.
    var coneMapper: NatMapper?
    var symMapper: SymNatMapper?
    var tupleFilter: PortrSymNatFilter?
    var addrFilter: AddrrNatFilter?
    ghost var cfg: NatSpec.Config

    // The objects the mapper and the filter are made of.
    ghost var mapperRepr: set<object>
    ghost var filterRepr: set<object>

    /** The packets handed to the next filter. */
    ghost var forwarded: seq<Pkt>

    constructor (extIp: Ip)
      ensures kind == NatSpec.PortRestricted && connectionTimeout == 600 && dnatRules == map[] && this.extIp == extIp
      ensures forwarded == []
    {
      kind, connectionTimeout, dnatRules := NatSpec.PortRestricted, 600, map[];
      this.extIp := extIp;
      coneMapper, symMapper, tupleFilter, addrFilter := null, null, null, null;
      mapperRepr, filterRepr, forwarded := {}, {}, [];
    }

    /** An unknown name changes nothing. */
    method SetNatType(name: string)
      modifies this`kind
      ensures kind == match ParseKind(name) case Some(k) => k case None => old(kind)
      ensures name == "portr" ==> kind == NatSpec.PortRestricted
      ensures name == "addrr" ==> kind == NatSpec.AddrRestricted
      ensures name == "symnat" ==> kind == NatSpec.Symmetric
      ensures name == "fullcone" ==> kind == NatSpec.FullCone
      ensures name !in {"portr", "addrr", "symnat", "fullcone"} ==> kind == old(kind)
    {
      if name == "portr" {
        kind := NatSpec.PortRestricted;
      } else if name == "addrr" {
        kind := NatSpec.AddrRestricted;
      } else if name == "symnat" {
        kind := NatSpec.Symmetric;
      } else if name == "fullcone" {
        kind := NatSpec.FullCone;
      }
    }

    method SetTimeout(timeout: nat)
      modifies this`connectionTimeout
      ensures connectionTimeout == timeout
    {
      connectionTimeout := timeout;
    }

    method SetDnatRule(ip: Ip, extPort: Port, intPort: Port)
      modifies this`dnatRules
      ensures dnatRules == old(dnatRules)[extPort := NatSpec.Rule(ip, intPort)]
    {
      dnatRules := dnatRules[extPort := NatSpec.Rule(ip, intPort)];
    }

    // ---------- The mapper ----------

    /** The mapper is the one of the kind, is sound, and follows the configuration. */
    ghost predicate MapperValid()
      reads `cfg, `symMapper, `coneMapper, `mapperRepr, mapperRepr
    {
      if cfg.kind.Symmetric? then
        && symMapper != null && symMapper in mapperRepr && symMapper.entries <= mapperRepr
        && symMapper.Valid() && symMapper.Serves(cfg)
      else
        && symMapper == null && coneMapper != null && coneMapper in mapperRepr && coneMapper.entries <= mapperRepr
        && coneMapper.Valid() && coneMapper.Serves(cfg)
    }

    ghost function MapperView(): NatSpec.Mapper
      requires MapperValid()
      reads `cfg, `symMapper, `coneMapper, `mapperRepr, mapperRepr
    {
      if symMapper != null then symMapper.View() else coneMapper.View()
    }

    method MapPacket(pkt: Packet, now: nat) returns (mapped: bool)
      requires MapperValid() && this !in mapperRepr && pkt !in mapperRepr
      requires !NatSpec.MapPacket(cfg, MapperView(), now, pkt.View()).1.Stuck?
      modifies this`mapperRepr, mapperRepr, pkt
      ensures MapperValid() && fresh(mapperRepr - old(mapperRepr))
      ensures var (m, to) := NatSpec.MapPacket(cfg, old(MapperView()), now, old(pkt.View()));
        && MapperView() == m
        && mapped == to.To?
        && pkt.Tup() == if to.To? then to.tup else old(pkt.Tup())
    {
      if symMapper != null {
        mapped := symMapper.MapPacket(cfg, pkt, now);
        mapperRepr := mapperRepr + symMapper.entries;
      } else {
        mapped := coneMapper.MapPacket(cfg, pkt, now);
        mapperRepr := mapperRepr + coneMapper.entries;
      }
    }

    method FireMapperTimers(now: nat)
      requires MapperValid() && this !in mapperRepr
      modifies mapperRepr
      ensures MapperValid()
      ensures MapperView() == NatSpec.ExpireMapper(old(MapperView()), now)
    {
      if symMapper != null {
        symMapper.FireTimers(now);
      } else {
        coneMapper.FireTimers(now);
      }
    }

    // ---------- The filter ----------

    /** The filter is the one of the kind, is sound, and follows the configuration. */
    ghost predicate FilterValid()
      reads `cfg, `tupleFilter, `addrFilter, `filterRepr, filterRepr
    {
      match cfg.kind
      case FullCone => tupleFilter == null && addrFilter == null
      case AddrRestricted =>
        && tupleFilter == null && addrFilter != null && addrFilter in filterRepr && addrFilter.entries <= filterRepr
        && addrFilter.Valid() && addrFilter.Serves(cfg)
      case _ =>
        && tupleFilter != null && tupleFilter in filterRepr && tupleFilter.entries <= filterRepr
        && tupleFilter.Valid() && tupleFilter.Serves(cfg)
    }

    ghost function FilterView(): NatSpec.Filter
      requires FilterValid()
      reads `cfg, `tupleFilter, `addrFilter, `filterRepr, filterRepr
    {
      if tupleFilter != null then tupleFilter.View()
      else if addrFilter != null then addrFilter.View()
      else NatSpec.OpenFilter
    }

    method FilterPacket(pkt: Packet, now: nat) returns (pass: bool)
      requires FilterValid() && this !in filterRepr && pkt !in filterRepr
      modifies this`filterRepr, filterRepr
      ensures FilterValid() && fresh(filterRepr - old(filterRepr))
      ensures (FilterView(), pass) == NatSpec.FilterPacket(cfg, old(FilterView()), now, pkt.View())
    {
      if tupleFilter != null {
        pass := tupleFilter.FilterPacket(cfg, pkt, now);
        filterRepr := filterRepr + tupleFilter.entries;
      } else if addrFilter != null {
        pass := addrFilter.FilterPacket(cfg, pkt, now);
        filterRepr := filterRepr + addrFilter.entries;
      } else {
        pass := true;
      }
    }

    method FireFilterTimers(now: nat)
      requires FilterValid() && this !in filterRepr
      modifies filterRepr
      ensures FilterValid()
      ensures FilterView() == NatSpec.ExpireFilter(old(FilterView()), now)
    {
      if tupleFilter != null {
        tupleFilter.FireTimers(now);
      } else if addrFilter != null {
        addrFilter.FireTimers(now);
      }
    }

    // ---------- The NAT ----------

    /** Mapper and filter are sound and share nothing. */
    ghost predicate Valid()
      reads `cfg, `symMapper, `coneMapper, `tupleFilter, `addrFilter, `mapperRepr, `filterRepr, mapperRepr, filterRepr
    {
      && this !in mapperRepr + filterRepr && mapperRepr !! filterRepr
      && MapperValid() && FilterValid()
    }

    ghost function View(): NatSpec.State
      requires Valid()
      reads `cfg, `symMapper, `coneMapper, `tupleFilter, `addrFilter, `mapperRepr, `filterRepr, mapperRepr, filterRepr
    {
      NatSpec.State(MapperView(), FilterView())
    }

    method Init()
      modifies this`coneMapper, this`symMapper, this`tupleFilter, this`addrFilter
      modifies this`cfg, this`mapperRepr, this`filterRepr
      ensures Valid() && fresh(mapperRepr + filterRepr)
      ensures cfg == NatSpec.Config(kind, extIp, connectionTimeout, dnatRules)
      ensures View() == NatSpec.Init(kind)
    {
      cfg := NatSpec.Config(kind, extIp, connectionTimeout, dnatRules);
      InitMapper();
      InitFilter();
    }

    method InitMapper()
      requires cfg == NatSpec.Config(kind, extIp, connectionTimeout, dnatRules)
      modifies this`coneMapper, this`symMapper, this`mapperRepr
      ensures MapperValid() && fresh(mapperRepr)
      ensures MapperView() == NatSpec.Init(kind).mapper
    {
      coneMapper, symMapper := null, null;
      if kind == NatSpec.Symmetric {
        symMapper := new SymNatMapper(extIp, connectionTimeout, dnatRules);
        mapperRepr := {symMapper};
      } else {
        coneMapper := new NatMapper(extIp, connectionTimeout, dnatRules);
        mapperRepr := {coneMapper};
      }
    }

    method InitFilter()
      requires cfg == NatSpec.Config(kind, extIp, connectionTimeout, dnatRules)
      modifies this`tupleFilter, this`addrFilter, this`filterRepr
      ensures FilterValid() && fresh(filterRepr)
      ensures FilterView() == NatSpec.Init(kind).filter
    {
      tupleFilter, addrFilter, filterRepr := null, null, {};
      if kind == NatSpec.PortRestricted || kind == NatSpec.Symmetric {
        tupleFilter := new PortrSymNatFilter(connectionTimeout, dnatRules);
        filterRepr := {tupleFilter};
      } else if kind == NatSpec.AddrRestricted {
        addrFilter := new AddrrNatFilter(connectionTimeout, dnatRules);
        filterRepr := {addrFilter};
      }
    }

    /** Incoming packets are filtered, then mapped; outgoing ones mapped, then
        filtered. What is let through goes to the next filter. */
    method HandlePacket(pkt: Packet, now: nat)
      requires Valid() && pkt !in mapperRepr + filterRepr
      requires NatSpec.HandlePacket(cfg, View(), now, pkt.View()).1 != NatSpec.Hang
      modifies this`forwarded, this`mapperRepr, this`filterRepr, mapperRepr, filterRepr, pkt
      ensures Valid() && fresh(mapperRepr - old(mapperRepr)) && fresh(filterRepr - old(filterRepr))
      ensures var (s, out) := NatSpec.HandlePacket(cfg, old(View()), now, old(pkt.View()));
        && View() == s
        && forwarded == old(forwarded) + if out.Forward? then [Pkt(pkt.ingoing, out.tup)] else []
    {
      hide MapperValid, FilterValid, MapperView, FilterView, NatSpec.HandlePacket;
      var passed;
      if pkt.ingoing {
        passed := HandleIngoing(pkt, now);
      } else {
        passed := HandleOutgoing(pkt, now);
      }
      if passed {
        forwarded := forwarded + [pkt.View()];
      }
    }

    method HandleIngoing(pkt: Packet, now: nat) returns (passed: bool)
      requires Valid() && pkt !in mapperRepr + filterRepr && pkt.ingoing
      requires NatSpec.HandlePacket(cfg, View(), now, pkt.View()).1 != NatSpec.Hang
      modifies this`mapperRepr, this`filterRepr, mapperRepr, filterRepr, pkt
      ensures Valid() && fresh(mapperRepr - old(mapperRepr)) && fresh(filterRepr - old(filterRepr))
      ensures (View(), if passed then NatSpec.Forward(pkt.Tup()) else NatSpec.Drop)
        == NatSpec.HandlePacket(cfg, old(View()), now, old(pkt.View()))
    {
      hide MapperValid, FilterValid, MapperView, FilterView, NatSpec.MapPacket, NatSpec.FilterPacket;
      passed := FilterPacket(pkt, now);
      if passed {
        passed := MapPacket(pkt, now);
      }
    }

    method HandleOutgoing(pkt: Packet, now: nat) returns (passed: bool)
      requires Valid() && pkt !in mapperRepr + filterRepr && !pkt.ingoing
      requires NatSpec.HandlePacket(cfg, View(), now, pkt.View()).1 != NatSpec.Hang
      modifies this`mapperRepr, this`filterRepr, mapperRepr, filterRepr, pkt
      ensures Valid() && fresh(mapperRepr - old(mapperRepr)) && fresh(filterRepr - old(filterRepr))
      ensures (View(), if passed then NatSpec.Forward(pkt.Tup()) else NatSpec.Drop)
        == NatSpec.HandlePacket(cfg, old(View()), now, old(pkt.View()))
    {
      hide MapperValid, FilterValid, MapperView, FilterView, NatSpec.MapPacket, NatSpec.FilterPacket;
      passed := MapPacket(pkt, now);
      if passed {
        passed := FilterPacket(pkt, now);
      }
    }

    /** One event of a run: the timers that have run out by now, then the packet. */
    method Step(pkt: Packet, now: nat)
      requires Valid() && pkt !in mapperRepr + filterRepr
      requires NatSpec.Step(cfg, View(), NatSpec.Event(now, pkt.View())).1 != NatSpec.Hang
      modifies this`forwarded, this`mapperRepr, this`filterRepr, mapperRepr, filterRepr, pkt
      ensures Valid() && fresh(mapperRepr - old(mapperRepr)) && fresh(filterRepr - old(filterRepr))
      ensures var (s, out) := NatSpec.Step(cfg, old(View()), NatSpec.Event(now, old(pkt.View())));
        && View() == s
        && forwarded == old(forwarded) + if out.Forward? then [Pkt(pkt.ingoing, out.tup)] else []
    {
      hide MapperValid, FilterValid, MapperView, FilterView, NatSpec.HandlePacket;
      FireMapperTimers(now);
      FireFilterTimers(now);
      HandlePacket(pkt, now);
    }
  }
}
