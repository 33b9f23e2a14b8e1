/** The bridge invariant over every call and run, and the exact outcome of every roll-back. */
module BridgeSafety {
  import opened Common
  import opened BridgeSpec

  // ---------------------------------------------------------------------------------------------
  // The invariant
  // ---------------------------------------------------------------------------------------------

  ghost function PortsOf(s: State, bridge: Oid): set<Oid> {
    set id | id in s.ports && s.ports[id].bridge == bridge
  }

  ghost function PortsOn(s: State, t: Target): set<Oid> {
    set id | id in s.ports && TargetOf(s.ports[id].at) == t
  }

  /** A bridge's count is the number of its ports. */
  ghost predicate BridgeCounts(s: State) {
    forall b :: b in s.bridges ==> s.bridges[b].refCount == |PortsOf(s, b)|
  }

  ghost predicate TargetCounts(s: State) {
    forall t :: s.refs[t] == |PortsOn(s, t)|
  }

  /** Every bridge port is on a bridge of the right type. */
  ghost predicate TypesFit(s: State) {
    forall id :: id in s.ports ==>
      s.ports[id].bridge in s.bridges && TypeFits(s.bridges[s.ports[id].bridge].is1Q, KindOf(s.ports[id].at))
  }

  /** The default bridge port of a port or LAG is its one bridge port of type PORT. */
  ghost predicate DefaultsExact(s: State) {
    && (forall p :: p in s.defaults ==> s.defaults[p] in s.ports && s.ports[s.defaults[p]].at == PortAt(p))
    && (forall id :: id in s.ports && s.ports[id].at.PortAt? ==>
          s.ports[id].at.port in s.defaults && s.defaults[s.ports[id].at.port] == id)
  }

  /** The (port, VLAN) index is the inverse of the sub-ports. */
  ghost predicate SubPortsExact(s: State) {
    && (forall x :: x in s.subPorts ==>
        s.subPorts[x] in s.ports
        && s.ports[s.subPorts[x]].at == SubPortAt(x.port, x.vlan))
    && (forall id :: id in s.ports && s.ports[id].at.SubPortAt? ==>
          var x := SubPort(s.ports[id].at.port, s.ports[id].at.vlan);
          x in s.subPorts && s.subPorts[x] == id)
  }

  ghost predicate LagsExact(s: State) {
    forall l: PortId, id: Oid :: (l, id) in s.lags <==> id in s.ports && LagOf(s.ports[id].at) == Some(l)
  }

  ghost predicate TunnelsExact(s: State) {
    forall t: nat, id: Oid :: (t, id) in s.tunnels <==> id in s.ports && s.ports[id].at == TunnelAt(t)
  }

  predicate SameTunnel(p: BridgePort, q: BridgePort) {
    p.bridge == q.bridge && p.at == q.at && p.at.TunnelAt?
  }

  /** A tunnel is attached at most once per bridge. */
  ghost predicate TunnelsOnce(s: State) {
    forall i, j :: i in s.ports && j in s.ports && SameTunnel(s.ports[i], s.ports[j]) ==> i == j
  }

  ghost predicate Valid(s: State) {
    && BridgeCounts(s) && TargetCounts(s) && TypesFit(s) && DefaultsExact(s) && SubPortsExact(s)
    && LagsExact(s) && TunnelsExact(s) && TunnelsOnce(s)
  }

  // ---------------------------------------------------------------------------------------------
  // Adding a port to the tables
  // ---------------------------------------------------------------------------------------------

  /** What the checks of a create establish about the port. */
  ghost predicate Fits(s: State, id: Oid, p: BridgePort) {
    && id !in s.ports
    && p.bridge in s.bridges && TypeFits(s.bridges[p.bridge].is1Q, KindOf(p.at))
    && (p.at.PortAt? ==> p.at.port !in s.defaults)
    && (p.at.SubPortAt? ==> SubPort(p.at.port, p.at.vlan) !in s.subPorts)
    && (p.at.TunnelAt? ==> !TunnelOnBridge(s, p.bridge, p.at.tunnel))
  }

  function Added(s: State, id: Oid, p: BridgePort): State {
    Index(Incr(s.(ports := s.ports[id := p]), id, p), id, p.at)
  }

  lemma AddedParts(s: State, id: Oid, p: BridgePort)
    ensures var t := Added(s, id, p);
            && t.ports == s.ports[id := p]
            && t.bridges == AddBridgeRef(s.bridges, p.bridge, 1)
            && t.defaults == (if p.at.PortAt? then s.defaults[p.at.port := id] else s.defaults)
            && t.subPorts == (if p.at.SubPortAt? then s.subPorts[SubPort(p.at.port, p.at.vlan) := id] else s.subPorts)
            && t.lags == (if LagOf(p.at).Some? then s.lags + {(LagOf(p.at).value, id)} else s.lags)
            && t.tunnels == (if p.at.TunnelAt? then s.tunnels + {(p.at.tunnel, id)} else s.tunnels)
            && t.refs == s.refs + multiset{TargetOf(p.at)}
  {
  }

  lemma AddedPortsOf(s: State, id: Oid, p: BridgePort, t: State, b: Oid)
    requires id !in s.ports && t.ports == s.ports[id := p]
    ensures PortsOf(t, b) == PortsOf(s, b) + (if b == p.bridge then {id} else {}) && id !in PortsOf(s, b)
  {
  }

  lemma AddedPortsOn(s: State, id: Oid, p: BridgePort, t: State, x: Target)
    requires id !in s.ports && t.ports == s.ports[id := p]
    ensures PortsOn(t, x) == PortsOn(s, x) + (if x == TargetOf(p.at) then {id} else {}) && id !in PortsOn(s, x)
  {
  }

  lemma AddedCounts(s: State, id: Oid, p: BridgePort)
    requires BridgeCounts(s) && TargetCounts(s) && id !in s.ports
    ensures BridgeCounts(Added(s, id, p)) && TargetCounts(Added(s, id, p))
  {
    hide Added, TargetOf, PortsOf, PortsOn;
    var t := Added(s, id, p);
    AddedParts(s, id, p);
    forall b | b in t.bridges
      ensures t.bridges[b].refCount == |PortsOf(t, b)|
    {
      AddedPortsOf(s, id, p, t, b);
    }
    forall x: Target
      ensures t.refs[x] == |PortsOn(t, x)|
    {
      AddedPortsOn(s, id, p, t, x);
    }
  }

  lemma AddedTypes(s: State, id: Oid, p: BridgePort)
    requires TypesFit(s) && Fits(s, id, p)
    ensures TypesFit(Added(s, id, p))
  {
    hide Added, TypeFits, KindOf;
    AddedParts(s, id, p);
  }

  lemma AddedDefaults(s: State, id: Oid, p: BridgePort)
    requires DefaultsExact(s) && Fits(s, id, p)
    ensures DefaultsExact(Added(s, id, p))
  {
    hide Added, TypeFits, KindOf, TunnelOnBridge;
    AddedParts(s, id, p);
  }

  lemma AddedSubPorts(s: State, id: Oid, p: BridgePort)
    requires SubPortsExact(s) && Fits(s, id, p)
    ensures SubPortsExact(Added(s, id, p))
  {
    hide Added, TypeFits, KindOf, TunnelOnBridge;
    AddedParts(s, id, p);
  }

  lemma AddedLags(s: State, id: Oid, p: BridgePort)
    requires LagsExact(s) && id !in s.ports
    ensures LagsExact(Added(s, id, p))
  {
    hide Added, LagOf;
    AddedParts(s, id, p);
  }

  lemma AddedTunnels(s: State, id: Oid, p: BridgePort)
    requires TunnelsExact(s) && TunnelsOnce(s) && Fits(s, id, p)
    ensures TunnelsExact(Added(s, id, p)) && TunnelsOnce(Added(s, id, p))
  {
    hide Added, TypeFits, KindOf;
    AddedParts(s, id, p);
    var t := Added(s, id, p);
    forall i | i in s.ports
      ensures !SameTunnel(s.ports[i], p)
    {
      if SameTunnel(s.ports[i], p) {
        TunnelTaken(s, p, i);
      }
    }
  }

  lemma TunnelTaken(s: State, p: BridgePort, i: Oid)
    requires TunnelsExact(s) && i in s.ports && SameTunnel(s.ports[i], p)
    ensures TunnelOnBridge(s, p.bridge, p.at.tunnel)
  {
    assert (p.at.tunnel, i) in s.tunnels;
  }

  lemma AddedValid(s: State, id: Oid, p: BridgePort)
    requires Valid(s) && Fits(s, id, p)
    ensures Valid(Added(s, id, p))
  {
    hide BridgeCounts, TargetCounts, TypesFit, DefaultsExact, SubPortsExact, LagsExact, TunnelsExact, TunnelsOnce,
         Added;
    assert id !in s.ports;
    AddedCounts(s, id, p);
    AddedTypes(s, id, p);
    AddedDefaults(s, id, p);
    AddedSubPorts(s, id, p);
    AddedLags(s, id, p);
    AddedTunnels(s, id, p);
  }

  // ---------------------------------------------------------------------------------------------
  // Taking a port out of the tables
  // ---------------------------------------------------------------------------------------------

  function Taken(s: State, id: Oid): State
    requires id in s.ports
  {
    var t := Unindex(Decr(s, id, s.ports[id]), id, s.ports[id].at);
    t.(ports := t.ports - {id})
  }

  lemma TakenParts(s: State, id: Oid)
    requires id in s.ports
    ensures var t, p := Taken(s, id), s.ports[id];
            && t.ports == s.ports - {id}
            && t.bridges == AddBridgeRef(s.bridges, p.bridge, -1)
            && t.defaults == (if p.at.PortAt? then s.defaults - {p.at.port} else s.defaults)
            && t.subPorts == (if p.at.SubPortAt? then s.subPorts - {SubPort(p.at.port, p.at.vlan)} else s.subPorts)
            && t.lags == (if LagOf(p.at).Some? then s.lags - {(LagOf(p.at).value, id)} else s.lags)
            && t.tunnels == (if p.at.TunnelAt? then s.tunnels - {(p.at.tunnel, id)} else s.tunnels)
            && t.refs == s.refs - multiset{TargetOf(p.at)}
  {
    hide AddBridgeRef, LagOf, TargetOf;
    var d := Decr(s, id, s.ports[id]);
    var u := Unindex(d, id, s.ports[id].at);
    assert u.bridges == d.bridges && u.defaults == d.defaults && u.lags == d.lags && u.refs == d.refs
      && u.ports == d.ports;
  }

  lemma TakenPortsOf(s: State, id: Oid, t: State, b: Oid, x: Target)
    requires id in s.ports && t.ports == s.ports - {id}
    ensures |PortsOf(t, b)| == |PortsOf(s, b)| - if b == s.ports[id].bridge then 1 else 0
    ensures |PortsOn(t, x)| == |PortsOn(s, x)| - if x == TargetOf(s.ports[id].at) then 1 else 0
  {
    hide TargetOf, PortsOn;
    TakenPortsOn(s, id, t, x);
    assert PortsOf(t, b) == PortsOf(s, b) - {id};
  }

  lemma TakenPortsOn(s: State, id: Oid, t: State, x: Target)
    requires id in s.ports && t.ports == s.ports - {id}
    ensures |PortsOn(t, x)| == |PortsOn(s, x)| - if x == TargetOf(s.ports[id].at) then 1 else 0
  {
    hide TargetOf;
    assert PortsOn(t, x) == PortsOn(s, x) - {id};
  }

  lemma TakenCounts(s: State, id: Oid)
    requires BridgeCounts(s) && TargetCounts(s) && id in s.ports
    ensures BridgeCounts(Taken(s, id)) && TargetCounts(Taken(s, id))
  {
    hide Taken, TargetOf, PortsOf, PortsOn;
    var t, x0 := Taken(s, id), TargetOf(s.ports[id].at);
    TakenParts(s, id);
    forall b | b in t.bridges
      ensures t.bridges[b].refCount == |PortsOf(t, b)|
    {
      TakenPortsOf(s, id, t, b, x0);
    }
    forall x: Target
      ensures t.refs[x] == |PortsOn(t, x)|
    {
      TakenPortsOf(s, id, t, s.ports[id].bridge, x);
    }
  }

  lemma TakenIndexes(s: State, id: Oid)
    requires TypesFit(s) && DefaultsExact(s) && LagsExact(s) && id in s.ports
    ensures var t := Taken(s, id);
            TypesFit(t) && DefaultsExact(t) && LagsExact(t)
  {
    hide Taken, TypeFits, KindOf, LagOf;
    TakenParts(s, id);
  }

  lemma TakenSubPorts(s: State, id: Oid)
    requires SubPortsExact(s) && id in s.ports
    ensures SubPortsExact(Taken(s, id))
  {
    hide Taken;
    TakenParts(s, id);
  }

  lemma TakenTunnels(s: State, id: Oid)
    requires TunnelsExact(s) && TunnelsOnce(s) && id in s.ports
    ensures TunnelsExact(Taken(s, id)) && TunnelsOnce(Taken(s, id))
  {
    hide Taken;
    TakenParts(s, id);
  }

  lemma TakenValid(s: State, id: Oid)
    requires Valid(s) && id in s.ports
    ensures Valid(Taken(s, id))
  {
    hide BridgeCounts, TargetCounts, TypesFit, DefaultsExact, SubPortsExact, LagsExact, TunnelsExact, TunnelsOnce,
         Taken;
    TakenCounts(s, id);
    TakenIndexes(s, id);
    TakenSubPorts(s, id);
    TakenTunnels(s, id);
  }

  // ---------------------------------------------------------------------------------------------
  // Undoing
  // ---------------------------------------------------------------------------------------------

  /** Giving the references back undoes taking them, when the port was not attached. */
  lemma DecrUndoesIncr(s: State, id: Oid, p: BridgePort)
    requires Valid(s) && id !in s.ports && (p.at.PortAt? ==> p.at.port !in s.defaults)
    ensures Decr(Incr(s.(ports := s.ports[id := p]), id, p), id, p) == s.(ports := s.ports[id := p])
  {
    hide BridgeCounts, TargetCounts, TypesFit, DefaultsExact, SubPortsExact, TunnelsExact, TunnelsOnce, Incr, Decr;
    IncrDecrParts(s.(ports := s.ports[id := p]), id, p);
    assert LagOf(p.at).Some? ==> (LagOf(p.at).value, id) !in s.lags;
  }

  lemma IncrDecrParts(s: State, id: Oid, p: BridgePort)
    requires p.at.PortAt? ==> p.at.port !in s.defaults
    requires LagOf(p.at).Some? ==> (LagOf(p.at).value, id) !in s.lags
    ensures Decr(Incr(s, id, p), id, p) == s
  {
    var t := Decr(Incr(s, id, p), id, p);
    assert t.bridges == s.bridges;
    assert t.defaults == s.defaults;
    assert t.lags == s.lags;
    assert t.refs == s.refs;
  }

  lemma DecrIncrParts(s: State, id: Oid, p: BridgePort)
    requires p.at.PortAt? ==> p.at.port in s.defaults && s.defaults[p.at.port] == id
    requires LagOf(p.at).Some? ==> (LagOf(p.at).value, id) in s.lags
    requires TargetOf(p.at) in s.refs
    ensures Incr(Decr(s, id, p), id, p) == s
  {
    var t := Incr(Decr(s, id, p), id, p);
    assert t.bridges == s.bridges;
    assert t.defaults == s.defaults;
    assert t.lags == s.lags;
    assert t.refs == s.refs;
  }

  lemma IndexUnindex(s: State, id: Oid, at: Attachment)
    requires at.SubPortAt? ==> SubPort(at.port, at.vlan) in s.subPorts && s.subPorts[SubPort(at.port, at.vlan)] == id
    requires at.TunnelAt? ==> (at.tunnel, id) in s.tunnels
    ensures Index(Unindex(s, id, at), id, at) == s
  {
    var t := Index(Unindex(s, id, at), id, at);
    assert t.subPorts == s.subPorts;
    assert t.tunnels == s.tunnels;
  }

  lemma IndexIncrSwap(s: State, id: Oid, p: BridgePort)
    ensures Incr(Unindex(Decr(s, id, p), id, p.at), id, p) == Unindex(Incr(Decr(s, id, p), id, p), id, p.at)
  {
  }

  /** The references and the index entry of a port in the tables are there. */
  lemma PortPresent(s: State, id: Oid)
    requires Valid(s) && id in s.ports
    ensures var at := s.ports[id].at;
            && (at.PortAt? ==> at.port in s.defaults && s.defaults[at.port] == id)
            && (LagOf(at).Some? ==> (LagOf(at).value, id) in s.lags)
            && (at.SubPortAt? ==>
                SubPort(at.port, at.vlan) in s.subPorts
                && s.subPorts[SubPort(at.port, at.vlan)] == id)
            && (at.TunnelAt? ==> (at.tunnel, id) in s.tunnels)
            && TargetOf(at) in s.refs
  {
    hide TypesFit, BridgeCounts, TunnelsOnce;
    assert id in PortsOn(s, TargetOf(s.ports[id].at));
    assert s.refs[TargetOf(s.ports[id].at)] == |PortsOn(s, TargetOf(s.ports[id].at))|;
  }

  // ---------------------------------------------------------------------------------------------
  // The calls
  // ---------------------------------------------------------------------------------------------

  /** An accepted attribute list describes a port that fits the tables. */
  lemma ValidatedFits(s: State, e: Env, attrs: seq<PortAttr>, id: Oid)
    requires id !in s.ports && Validate(s, e, attrs).0 == Success && Validate(s, e, attrs).1.Some?
    ensures Fits(s, id, Validate(s, e, attrs).1.value)
  {
    hide Parse, HasType;
  }

  ghost predicate SameTables(s: State, t: State) {
    t == s.(calls := t.calls)
  }

  /** A bridge port create that fails, at whatever step, leaves every table and count as it was. */
  lemma FailedCreateRestores(s: State, e: Env, attrs: seq<PortAttr>, id: Oid)
    requires Valid(s) && id !in s.ports && CreatePortSpec(s, e, attrs, id).0 != Success
    ensures SameTables(s, CreatePortSpec(s, e, attrs, id).1)
  {
    hide Valid, Validate, Incr, Decr, Index, SetOptions, Fits, TunnelOnBridge;
    var (st, p) := Validate(s, e, attrs);
    if st == Success && p.Some? {
      ValidatedFits(s, e, attrs, id);
      FitsDefault(s, id, p.value);
      var s0 := s.(calls := SetOptions(attrs, s.calls + 2, e.verdict).1);
      CallsValid(s, s0);
      DecrUndoesIncr(s0, id, p.value);
      assert s.ports[id := p.value] - {id} == s.ports;
    }
  }

  lemma FitsDefault(s: State, id: Oid, p: BridgePort)
    requires Fits(s, id, p)
    ensures p.at.PortAt? ==> p.at.port !in s.defaults
  {
  }

  lemma SamePorts(s: State, t: State, b: Oid, x: Target)
    requires s.ports == t.ports
    ensures PortsOf(t, b) == PortsOf(s, b) && PortsOn(t, x) == PortsOn(s, x)
  {
  }

  /** Everything but the bridges and their types. */
  lemma IndexFrame(s: State, t: State)
    requires s == t.(bridges := s.bridges, calls := s.calls)
    ensures TargetCounts(s) ==> TargetCounts(t)
    ensures DefaultsExact(s) && SubPortsExact(s) && LagsExact(s) && TunnelsExact(s) && TunnelsOnce(s) ==>
      DefaultsExact(t) && SubPortsExact(t) && LagsExact(t) && TunnelsExact(t) && TunnelsOnce(t)
  {
    hide LagOf, TargetOf, PortsOn;
    forall x: Target
      ensures PortsOn(t, x) == PortsOn(s, x)
    {
      SamePorts(s, t, 0, x);
    }
  }

  lemma CallsValid(s: State, t: State)
    requires Valid(s) && SameTables(s, t)
    ensures Valid(t)
  {
    hide TypeFits, KindOf, PortsOf, DefaultsExact, SubPortsExact, LagsExact, TunnelsExact, TunnelsOnce, TargetCounts;
    IndexFrame(s, t);
    forall b: Oid
      ensures PortsOf(t, b) == PortsOf(s, b)
    {
      SamePorts(s, t, b, RifTarget(0));
    }
  }

  lemma CreatedPort(s: State, e: Env, attrs: seq<PortAttr>, id: Oid)
    requires CreatePortSpec(s, e, attrs, id).0 == Success
    ensures var (st, p) := Validate(s, e, attrs);
            p.Some? && st == Success && SameTables(Added(s, id, p.value), CreatePortSpec(s, e, attrs, id).1)
  {
    hide Validate, SetOptions, Incr;
    var (st, p) := Validate(s, e, attrs);
    ValidateSome(s, e, attrs);
    var calls := SetOptions(attrs, s.calls + 2, e.verdict).1;
    var s1 := s.(ports := s.ports[id := p.value]);
    IncrCalls(s1, calls, id, p.value);
    IncrCalls(s1, calls + 1, id, p.value);
  }

  lemma ValidateSome(s: State, e: Env, attrs: seq<PortAttr>)
    ensures Validate(s, e, attrs).0 == Success <==> Validate(s, e, attrs).1.Some?
  {
    hide Parse, HasType, TunnelOnBridge;
  }

  lemma IncrCalls(s: State, calls: nat, id: Oid, p: BridgePort)
    ensures Incr(s.(calls := calls), id, p) == Incr(s, id, p).(calls := calls)
    ensures Decr(s.(calls := calls), id, p) == Decr(s, id, p).(calls := calls)
  {
  }

  lemma CreatePortValid(s: State, e: Env, attrs: seq<PortAttr>, id: Oid)
    requires Valid(s) && id !in s.ports
    ensures Valid(CreatePortSpec(s, e, attrs, id).1)
  {
    hide Valid, Validate, Fits, CreatePortSpec, Added;
    var (st, t) := CreatePortSpec(s, e, attrs, id);
    if st == Success {
      var p := Validate(s, e, attrs).1;
      CreatedPort(s, e, attrs, id);
      ValidatedFits(s, e, attrs, id);
      AddedValid(s, id, p.value);
      CallsValid(Added(s, id, p.value), t);
    } else {
      FailedCreateRestores(s, e, attrs, id);
      CallsValid(s, t);
    }
  }

  /** The remove fails after the references were given back: at the index removal or at the cache delete. */
  predicate FailsLate(s: State, e: Env, id: Oid)
    requires id in s.ports
  {
    && s.ports[id].users == 0 && e.verdict(s.calls)
    && if Indexed(s.ports[id].at) then !(e.verdict(s.calls + 1) && e.verdict(s.calls + 2)) else !e.verdict(s.calls + 1)
  }

  lemma RemovedPort(s: State, e: Env, id: Oid, again: Oid)
    requires RemovePortSpec(s, e, id, again).0 == Success
    ensures id in s.ports && SameTables(Taken(s, id), RemovePortSpec(s, e, id, again).1)
  {
    hide Incr, Decr, Index, Unindex, Indexed;
    IncrCalls(s, s.calls + 1, id, s.ports[id]);
    UnindexParts(Decr(s, id, s.ports[id]), id, s.ports[id].at, s.calls + 2);
  }

  /** A remove that fails late is restored if and only if the NPU gives the port the same id again. */
  lemma FailedRemoveRestores(s: State, e: Env, id: Oid, again: Oid)
    requires Valid(s) && id in s.ports && RemovePortSpec(s, e, id, again).0 != Success
    ensures SameTables(s, RemovePortSpec(s, e, id, again).1) <==> (FailsLate(s, e, id) ==> again == id)
  {
    hide Valid, RemovePortSpec, FailsLate, Indexed;
    if !FailsLate(s, e, id) {
      FailedEarly(s, e, id, again);
    } else if again == id {
      FailedRemoveAgain(s, e, id);
    } else {
      PortPresent(s, id);
      FailedElsewhere(s, e, id, again);
    }
  }

  lemma FailedEarly(s: State, e: Env, id: Oid, again: Oid)
    requires id in s.ports && !FailsLate(s, e, id) && RemovePortSpec(s, e, id, again).0 != Success
    ensures SameTables(s, RemovePortSpec(s, e, id, again).1)
  {
    hide Incr, Decr, Index;
    IncrCalls(s, s.calls + 1, id, s.ports[id]);
  }

  lemma FailedElsewhere(s: State, e: Env, id: Oid, again: Oid)
    requires id in s.ports && FailsLate(s, e, id) && again != id && TargetOf(s.ports[id].at) in s.refs
    ensures var t := RemovePortSpec(s, e, id, again).1;
            t.refs == s.refs - multiset{TargetOf(s.ports[id].at)} && t.refs != s.refs && t.ports == s.ports
  {
    hide Incr, Index, LagOf, TargetOf, AddBridgeRef;
    var p := s.ports[id];
    IncrCalls(s, s.calls + 1, id, p);
    DecrChanges(s, id, p);
    UnindexParts(Decr(s, id, p), id, p.at, s.calls + 2);
  }

  lemma UnindexParts(s: State, id: Oid, at: Attachment, calls: nat)
    ensures Unindex(s.(calls := calls), id, at).refs == s.refs && Unindex(s.(calls := calls), id, at).ports == s.ports
    ensures Unindex(s.(calls := calls), id, at) == Unindex(s, id, at).(calls := calls)
    ensures Index(s.(calls := calls), id, at) == Index(s, id, at).(calls := calls)
    ensures !Indexed(at) ==> Unindex(s, id, at) == s && Index(s, id, at) == s
  {
  }

  lemma DecrChanges(s: State, id: Oid, p: BridgePort)
    requires TargetOf(p.at) in s.refs
    ensures Decr(s, id, p).refs != s.refs
  {
    assert Decr(s, id, p).refs[TargetOf(p.at)] == s.refs[TargetOf(p.at)] - 1;
  }

  lemma FailedRemoveAgain(s: State, e: Env, id: Oid)
    requires Valid(s) && id in s.ports && FailsLate(s, e, id)
    ensures SameTables(s, RemovePortSpec(s, e, id, id).1)
  {
    hide Valid, Incr, Decr, Index, Unindex, LagOf, TargetOf;
    var p := s.ports[id];
    var d := Decr(s, id, p);
    PortPresent(s, id);
    DecrIncrParts(s, id, p);
    IndexUnindex(s, id, p.at);
    IndexIncrSwap(s, id, p);
    IncrCalls(s, s.calls + 1, id, p);
    IncrCalls(d, s.calls + 3, id, p);
    UnindexParts(d, id, p.at, s.calls + 2);
    var u := Unindex(d, id, p.at);
    IncrCalls(u, s.calls + 4, id, p);
    UnindexParts(Incr(u, id, p), id, p.at, s.calls + 4);
    UnindexParts(s, id, p.at, s.calls + 3);
    UnindexParts(d, id, p.at, s.calls + 3);
  }

  lemma RemovePortValid(s: State, e: Env, id: Oid, again: Oid)
    requires Valid(s)
    ensures Valid(RemovePortSpec(s, e, id, again).1) <==> (id in s.ports && FailsLate(s, e, id) ==> again == id)
  {
    hide Valid, Taken, RemovePortSpec, FailsLate;
    var (st, t) := RemovePortSpec(s, e, id, again);
    if id !in s.ports {
      UnknownPort(s, e, id, again);
    } else if st == Success {
      RemovedPort(s, e, id, again);
      TakenValid(s, id);
      CallsValid(Taken(s, id), t);
      SucceedsEarly(s, e, id, again);
    } else {
      FailedRemoveRestores(s, e, id, again);
      if FailsLate(s, e, id) && again != id {
        LeakedInvalid(s, e, id, again);
      } else {
        CallsValid(s, t);
      }
    }
  }

  lemma UnknownPort(s: State, e: Env, id: Oid, again: Oid)
    requires id !in s.ports
    ensures RemovePortSpec(s, e, id, again) == (InvalidObjectId, s)
  {
  }

  lemma SucceedsEarly(s: State, e: Env, id: Oid, again: Oid)
    requires id in s.ports
    ensures FailsLate(s, e, id) ==> RemovePortSpec(s, e, id, again).0 == Failure
  {
    hide Incr, Decr, Index;
    IncrCalls(s, s.calls + 1, id, s.ports[id]);
  }

  /** The port stays in the cache but its reference is gone. */
  lemma LeakedInvalid(s: State, e: Env, id: Oid, again: Oid)
    requires Valid(s) && id in s.ports && FailsLate(s, e, id) && again != id
    ensures !Valid(RemovePortSpec(s, e, id, again).1)
  {
    hide RemovePortSpec, FailsLate, TypesFit, DefaultsExact, SubPortsExact, LagsExact, TunnelsExact, TunnelsOnce,
         BridgeCounts, PortsOn;
    var t, x := RemovePortSpec(s, e, id, again).1, TargetOf(s.ports[id].at);
    PortPresent(s, id);
    FailedElsewhere(s, e, id, again);
    SamePorts(s, t, 0, x);
    assert t.refs[x] != |PortsOn(t, x)|;
  }

  // ---------------------------------------------------------------------------------------------
  // Bridges
  // ---------------------------------------------------------------------------------------------

  /** The default bridge is there, and it is the only 1Q bridge. */
  ghost predicate OneDefault(s: State, e: Env) {
    && e.defaultBridge != NULL_ID && e.defaultBridge in s.bridges
    && forall b :: b in s.bridges ==> (s.bridges[b].is1Q <==> b == e.defaultBridge)
  }

  lemma {:induction false} ParsedNot1Q(e: Env, attrs: seq<BridgeAttr>, q: Option<bool>)
    requires e.defaultBridge != NULL_ID && (q.Some? ==> !q.value)
    ensures ParseBridge(e, attrs, q).0 == Success ==>
      ParseBridge(e, attrs, q).1.Some? && !ParseBridge(e, attrs, q).1.value
    decreases |attrs|
  {
    if attrs != [] {
      ParsedNot1Q(e, attrs[1..], if attrs[0].BridgeType? then Some(false) else q);
    }
  }

  lemma CreateBridgeValid(s: State, e: Env, attrs: seq<BridgeAttr>, id: Oid)
    requires Valid(s) && OneDefault(s, e) && id !in s.bridges
    ensures Valid(CreateBridgeSpec(s, e, attrs, id).1) && OneDefault(CreateBridgeSpec(s, e, attrs, id).1, e)
    ensures CreateBridgeSpec(s, e, attrs, id).0 != Success ==> SameTables(s, CreateBridgeSpec(s, e, attrs, id).1)
  {
    hide ParseBridge, SetBridgeOptions, TypeFits, KindOf, PortsOf, DefaultsExact, SubPortsExact, LagsExact,
         TunnelsExact, TunnelsOnce, TargetCounts;
    var (st, t) := CreateBridgeSpec(s, e, attrs, id);
    ParsedNot1Q(e, attrs, None);
    if st == Success {
      NewBridgeValid(s, t, id);
    } else {
      assert s.bridges[id := t.bridges[id := Bridge(false, 0)][id]] - {id} == s.bridges;
      assert t.bridges == s.bridges;
      CallsValid(s, t);
    }
  }

  lemma NewBridgeValid(s: State, t: State, id: Oid)
    requires Valid(s) && id !in s.bridges && id in t.bridges && t.bridges[id].refCount == 0
    requires t == s.(bridges := s.bridges[id := t.bridges[id]], calls := t.calls)
    ensures Valid(t)
  {
    hide TypeFits, KindOf, DefaultsExact, SubPortsExact, LagsExact, TunnelsExact, TunnelsOnce, TargetCounts;
    IndexFrame(s, t);
    assert PortsOf(s, id) == {};
    forall b: Oid
      ensures PortsOf(t, b) == PortsOf(s, b)
    {
      SamePorts(s, t, b, RifTarget(0));
    }
  }

  /** Only a bridge without ports is removed, and never the default one. */
  lemma RemoveBridgeValid(s: State, e: Env, id: Oid)
    requires Valid(s) && OneDefault(s, e)
    ensures Valid(RemoveBridgeSpec(s, e, id).1) && OneDefault(RemoveBridgeSpec(s, e, id).1, e)
    ensures RemoveBridgeSpec(s, e, id).0 == Success ==> PortsOf(s, id) == {}
    ensures RemoveBridgeSpec(s, e, id).0 != Success ==> SameTables(s, RemoveBridgeSpec(s, e, id).1)
  {
    hide TypeFits, KindOf, PortsOf, DefaultsExact, SubPortsExact, LagsExact, TunnelsExact, TunnelsOnce, TargetCounts;
    var (st, t) := RemoveBridgeSpec(s, e, id);
    if st == Success {
      NoPorts(s, id);
      IndexFrame(s, t);
      forall b: Oid
        ensures PortsOf(t, b) == PortsOf(s, b)
      {
        SamePorts(s, t, b, RifTarget(0));
      }
    } else {
      CallsValid(s, t);
    }
  }

  lemma NoPorts(s: State, b: Oid)
    requires BridgeCounts(s) && b in s.bridges && s.bridges[b].refCount <= 0
    ensures PortsOf(s, b) == {} && forall i :: i in s.ports ==> s.ports[i].bridge != b
  {
    assert |PortsOf(s, b)| == 0;
    forall i | i in s.ports
      ensures s.ports[i].bridge != b
    {
      assert s.ports[i].bridge == b <==> i in PortsOf(s, b);
    }
  }

  // ---------------------------------------------------------------------------------------------
  // Runs
  // ---------------------------------------------------------------------------------------------

  /** `UsedBy` stands for VLAN and multicast modules taking and returning references to a bridge port. */
  datatype Request =
    | CreateBridge(bridgeAttrs: seq<BridgeAttr>, newId: Oid)
    | RemoveBridge(id: Oid)
    | CreatePort(attrs: seq<PortAttr>, newId: Oid)
    | RemovePort(id: Oid, again: Oid)
    | UsedBy(id: Oid, users: nat)

  function Step(s: State, e: Env, r: Request): State {
    match r
    case CreateBridge(attrs, id) => CreateBridgeSpec(s, e, attrs, id).1
    case RemoveBridge(id) => RemoveBridgeSpec(s, e, id).1
    case CreatePort(attrs, id) => CreatePortSpec(s, e, attrs, id).1
    case RemovePort(id, again) => RemovePortSpec(s, e, id, again).1
    case UsedBy(id, n) => if id in s.ports then s.(ports := s.ports[id := s.ports[id].(users := n)]) else s
  }

  predicate FreshIds(s: State, r: Request) {
    (r.CreateBridge? ==> r.newId !in s.bridges) && (r.CreatePort? ==> r.newId !in s.ports)
  }

  /** The NPU gives a port whose removal is rolled back its own id again. */
  predicate Restored(s: State, e: Env, r: Request) {
    r.RemovePort? && r.id in s.ports && FailsLate(s, e, r.id) ==> r.again == r.id
  }

  predicate Fair(s: State, e: Env, r: Request) {
    FreshIds(s, r) && Restored(s, e, r)
  }

  lemma PortCallsKeepTypes(s: State, e: Env, r: Request)
    requires Valid(s) && OneDefault(s, e) && (r.CreatePort? || r.RemovePort?) && Fair(s, e, r)
    ensures OneDefault(Step(s, e, r), e)
  {
    hide Valid, CreatePortSpec, RemovePortSpec, Added, Taken, FailsLate, Validate;
    match r {
      case CreatePort(attrs, id) =>
        if CreatePortSpec(s, e, attrs, id).0 == Success {
          CreatedPort(s, e, attrs, id);
          AddedParts(s, id, Validate(s, e, attrs).1.value);
        } else {
          FailedCreateRestores(s, e, attrs, id);
        }
      case RemovePort(id, again) =>
        if id !in s.ports {
          UnknownPort(s, e, id, again);
        } else if RemovePortSpec(s, e, id, again).0 == Success {
          RemovedPort(s, e, id, again);
          TakenParts(s, id);
        } else {
          FailedRemoveRestores(s, e, id, again);
        }
    }
  }

  /** The bridge ports differ only in their users. */
  ghost predicate SameShapes(s: State, t: State) {
    && t == s.(ports := t.ports) && s.ports.Keys == t.ports.Keys
    && forall i :: i in s.ports ==> t.ports[i].bridge == s.ports[i].bridge && t.ports[i].at == s.ports[i].at
  }

  lemma SameShapesCounts(s: State, t: State)
    requires SameShapes(s, t)
    ensures BridgeCounts(s) && TargetCounts(s) && TypesFit(s) ==> BridgeCounts(t) && TargetCounts(t) && TypesFit(t)
  {
    hide TypeFits, KindOf, TargetOf;
    assert forall b :: PortsOf(t, b) == PortsOf(s, b);
    assert forall x :: PortsOn(t, x) == PortsOn(s, x);
  }

  lemma SameShapesIndexes(s: State, t: State)
    requires SameShapes(s, t)
    ensures DefaultsExact(s) && LagsExact(s) && TunnelsExact(s) && TunnelsOnce(s) ==>
      DefaultsExact(t) && LagsExact(t) && TunnelsExact(t) && TunnelsOnce(t)
  {
    hide LagOf;
  }

  lemma SameShapesSubPorts(s: State, t: State)
    requires SameShapes(s, t)
    ensures SubPortsExact(s) ==> SubPortsExact(t)
  {
  }

  lemma UsedByValid(s: State, id: Oid, n: nat, t: State)
    requires Valid(s) && id in s.ports && t == s.(ports := s.ports[id := s.ports[id].(users := n)])
    ensures Valid(t)
  {
    hide BridgeCounts, TargetCounts, TypesFit, DefaultsExact, SubPortsExact, LagsExact, TunnelsExact, TunnelsOnce;
    SameShapesCounts(s, t);
    SameShapesIndexes(s, t);
    SameShapesSubPorts(s, t);
  }

  /** Every call keeps the invariant, if and only if the NPU gives a port whose removal fails late its id again. */
  lemma StepValid(s: State, e: Env, r: Request)
    requires Valid(s) && OneDefault(s, e) && FreshIds(s, r)
    ensures Valid(Step(s, e, r)) && OneDefault(Step(s, e, r), e) <==> Restored(s, e, r)
  {
    hide Valid, OneDefault, CreateBridgeSpec, RemoveBridgeSpec, CreatePortSpec, RemovePortSpec, FailsLate;
    match r {
      case CreateBridge(attrs, id) => CreateBridgeValid(s, e, attrs, id);
      case RemoveBridge(id) => RemoveBridgeValid(s, e, id);
      case CreatePort(attrs, id) =>
        CreatePortValid(s, e, attrs, id);
        PortCallsKeepTypes(s, e, r);
      case RemovePort(id, again) =>
        RemovePortValid(s, e, id, again);
        if Restored(s, e, r) {
          PortCallsKeepTypes(s, e, r);
        }
      case UsedBy(id, n) =>
        if id in s.ports {
          UsedByValid(s, id, n, Step(s, e, r));
          SameBridges(s, e, Step(s, e, r));
        }
    }
  }

  lemma SameBridges(s: State, e: Env, t: State)
    requires OneDefault(s, e) && t.bridges == s.bridges
    ensures OneDefault(t, e)
  {
  }

  predicate FairRun(s: State, e: Env, rs: seq<Request>)
    decreases |rs|
  {
    rs != [] ==> Fair(s, e, rs[0]) && FairRun(Step(s, e, rs[0]), e, rs[1..])
  }

  function Run(s: State, e: Env, rs: seq<Request>): State
    decreases |rs|
  {
    if rs == [] then s else Run(Step(s, e, rs[0]), e, rs[1..])
  }

  /**
   After any run the counts are exact, every index is the inverse of the bridge ports, and every port fits
   its bridge.
   */
  lemma {:induction false} RunValid(s: State, e: Env, rs: seq<Request>)
    requires Valid(s) && OneDefault(s, e) && FairRun(s, e, rs)
    ensures Valid(Run(s, e, rs)) && OneDefault(Run(s, e, rs), e)
    decreases |rs|
  {
    hide Valid, OneDefault, Step, FreshIds, Restored;
    if rs != [] {
      StepValid(s, e, rs[0]);
      RunValid(Step(s, e, rs[0]), e, rs[1..]);
    }
  }

  /** What the invariant says about two ports: PORT attachments, sub-ports and tunnels are never shared. */
  lemma NeverShared(s: State, i: Oid, j: Oid)
    requires Valid(s) && i in s.ports && j in s.ports && s.ports[i].at == s.ports[j].at
    requires !s.ports[i].at.Router1QAt? && !s.ports[i].at.Router1DAt?
    requires s.ports[i].at.TunnelAt? ==> s.ports[i].bridge == s.ports[j].bridge
    ensures i == j
  {
    hide BridgeCounts, TargetCounts, TypesFit, LagsExact;
    assert s.ports[i].at.TunnelAt? ==> SameTunnel(s.ports[i], s.ports[j]);
  }

  /** With only the default bridge everything is exact. */
  lemma InitialValid(e: Env, s: State)
    requires e.defaultBridge != NULL_ID
    requires s == State(map[e.defaultBridge := Bridge(true, 0)], map[], map[], map[], {}, {}, multiset{}, 0)
    ensures Valid(s) && OneDefault(s, e)
  {
    assert forall b :: PortsOf(s, b) == {};
    assert forall x :: PortsOn(s, x) == {};
  }

  const A_PORT := BridgePort(1, PortAt(Port(1)), 0)
  const ONE_PORT := State(map[1 := Bridge(true, 1)], map[3 := A_PORT], map[Port(1) := 3], map[], {}, {},
                          multiset{PortTarget(Port(1))}, 0)

  lemma OnePortValid()
    ensures Valid(ONE_PORT)
  {
    var s := ONE_PORT;
    assert forall b :: PortsOf(s, b) == if b == 1 then {3} else {};
    assert forall x :: PortsOn(s, x) == if x == PortTarget(Port(1)) then {3} else {};
  }

  /**
   Port 3 is deleted in the NPU but not in the cache; the NPU creates it again as port 4, and port 3 stays
   without its references.
   */
  lemma RecreatedElsewhere(e: Env)
    requires e.verdict(0) && !e.verdict(1)
    ensures var (st, t) := RemovePortSpec(ONE_PORT, e, 3, 4);
            && Valid(ONE_PORT) && st == Failure && !Valid(t)
            && t.ports == ONE_PORT.ports && t.bridges[1].refCount == 0 && Port(1) !in t.defaults
  {
    OnePortValid();
    hide Valid;
    RemovePortValid(ONE_PORT, e, 3, 4);
  }
}
