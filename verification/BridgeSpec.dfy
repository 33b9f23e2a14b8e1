/**
 Bridges and bridge ports: what creating and removing them does to the caches, the attachment indexes
 and the reference counts, step by step and with the roll-backs.
 */
module BridgeSpec {
  import opened Common

  datatype PortId = Port(n: nat) | Lag(n: nat) | OtherType(n: nat)

  datatype PortType = PortKind | SubPortKind | Router1QKind | Router1DKind | TunnelKind | BadKind

  /** What a bridge port stands for. */
  datatype Attachment =
    | PortAt(port: PortId)
    | SubPortAt(port: PortId, vlan: nat)
    | Router1QAt(rif: nat)
    | Router1DAt(rif: nat)
    | TunnelAt(tunnel: nat)

  /** Something a bridge port holds a reference to. */
  datatype Target = PortTarget(port: PortId) | RifTarget(rif: nat) | TunnelTarget(tunnel: nat)

  /** `refCount` is the part of the reference count that is owned by bridge ports. */
  datatype Bridge = Bridge(is1Q: bool, refCount: int)

  /** `users` is the reference count held by VLAN and multicast members, which are not part of this model. */
  datatype BridgePort = BridgePort(bridge: Oid, at: Attachment, users: nat)

  datatype SubPort = SubPort(port: PortId, vlan: nat)

  /** The caches, the default bridge port of each port or LAG, the indexes, and the references to attached objects. */
  datatype State = State(
    bridges: map<Oid, Bridge>,
    ports: map<Oid, BridgePort>,
    defaults: map<PortId, Oid>,
    subPorts: map<SubPort, Oid>,
    lags: set<(PortId, Oid)>,
    tunnels: set<(nat, Oid)>,
    refs: multiset<Target>,
    calls: nat)

  /** Lookups into other modules, and the default bridge. */
  datatype Env = Env(
    validPort: PortId -> bool,
    validVlan: nat -> bool,
    rifExists: nat -> bool,
    tunnelExists: nat -> bool,
    verdict: nat -> bool,
    defaultBridge: Oid)

  datatype BridgeAttr = BridgeType(is1Q: bool) | BadBridgeType | BridgeOption | BridgePortList | UnknownBridgeAttr

  datatype PortAttr =
    | TypeAttr(kind: PortType)
    | PortIdAttr(port: PortId)
    | VlanAttr(vlan: nat)
    | RifAttr(rif: nat)
    | TunnelAttr(tunnel: nat)
    | BridgeIdAttr(bridge: Oid)
    | OptionAttr
    | UnknownPortAttr

  // ---------------------------------------------------------------------------------------------
  // Validating the attributes of a bridge port
  // ---------------------------------------------------------------------------------------------

  datatype Parsed = Parsed(
    kind: Option<PortType>,
    bridge: Option<Oid>,
    port: Option<PortId>,
    vlan: Option<nat>,
    rif: Option<nat>,
    tunnel: Option<nat>)

  const NOTHING_PARSED := Parsed(None, None, None, None, None, None)

  function ParseOne(bridges: map<Oid, Bridge>, e: Env, p: Parsed, a: PortAttr): (Status, Parsed) {
    match a
    case TypeAttr(k) => (Success, p.(kind := Some(k)))
    case PortIdAttr(x) => if e.validPort(x) then (Success, p.(port := Some(x))) else (InvalidAttrValue, p)
    case VlanAttr(x) => if e.validVlan(x) then (Success, p.(vlan := Some(x))) else (InvalidAttrValue, p)
    case RifAttr(x) => if e.rifExists(x) then (Success, p.(rif := Some(x))) else (InvalidAttrValue, p)
    case TunnelAttr(x) => if e.tunnelExists(x) then (Success, p.(tunnel := Some(x))) else (InvalidAttrValue, p)
    case BridgeIdAttr(x) => if x in bridges then (Success, p.(bridge := Some(x))) else (InvalidAttrValue, p)
    case OptionAttr => (Success, p)
    case UnknownPortAttr => (UnknownAttribute, p)
  }

  /** Later attributes override earlier ones; the first bad one ends the walk. */
  function Parse(bridges: map<Oid, Bridge>, e: Env, p: Parsed, attrs: seq<PortAttr>): (Status, Parsed)
    decreases |attrs|
  {
    if attrs == [] then (Success, p)
    else
      var (st, q) := ParseOne(bridges, e, p, attrs[0]);
      if st != Success then (st, q) else Parse(bridges, e, q, attrs[1..])
  }

  predicate HasType(attrs: seq<PortAttr>) {
    exists i :: 0 <= i < |attrs| && attrs[i].TypeAttr?
  }

  predicate TypeFits(is1Q: bool, k: PortType) {
    if is1Q then k == PortKind || k == Router1QKind else k == SubPortKind || k == TunnelKind || k == Router1DKind
  }

  function KindOf(at: Attachment): PortType {
    match at
    case PortAt(_) => PortKind
    case SubPortAt(_, _) => SubPortKind
    case Router1QAt(_) => Router1QKind
    case Router1DAt(_) => Router1DKind
    case TunnelAt(_) => TunnelKind
  }

  predicate TunnelOnBridge(s: State, bridge: Oid, tunnel: nat) {
    exists id :: id in s.ports && s.ports[id].bridge == bridge && (tunnel, id) in s.tunnels
  }

  function Attach(s: State, p: Parsed): (Status, Option<Attachment>)
    requires p.kind.Some? && p.bridge.Some?
  {
    match p.kind.value
    case PortKind =>
      if p.port == None then (MandatoryAttributeMissing, None)
      else if p.port.value.OtherType? then (InvalidObjectType, None)
      else if p.port.value in s.defaults then (ItemAlreadyExists, None)
      else (Success, Some(PortAt(p.port.value)))
    case SubPortKind =>
      if p.port == None || p.vlan == None then (MandatoryAttributeMissing, None)
      else if SubPort(p.port.value, p.vlan.value) in s.subPorts then (ItemAlreadyExists, None)
      else (Success, Some(SubPortAt(p.port.value, p.vlan.value)))
    case Router1QKind => if p.rif == None then (MandatoryAttributeMissing, None)
      else (Success, Some(Router1QAt(p.rif.value)))
    case Router1DKind => if p.rif == None then (MandatoryAttributeMissing, None)
      else (Success, Some(Router1DAt(p.rif.value)))
    case TunnelKind =>
      if p.tunnel == None then (MandatoryAttributeMissing, None)
      else if TunnelOnBridge(s, p.bridge.value, p.tunnel.value) then (ItemAlreadyExists, None)
      else (Success, Some(TunnelAt(p.tunnel.value)))
    case BadKind => (InvalidAttrValue, None)
  }

  /** The bridge port an attribute list describes, if it is acceptable. */
  function Validate(s: State, e: Env, attrs: seq<PortAttr>): (Status, Option<BridgePort>) {
    if !HasType(attrs) then (MandatoryAttributeMissing, None)
    else
      var (st, p) := Parse(s.bridges, e, NOTHING_PARSED, attrs);
      if st != Success then (st, None)
      else if p.kind == None || p.bridge == None then (MandatoryAttributeMissing, None)
      else if p.bridge.value !in s.bridges || !TypeFits(s.bridges[p.bridge.value].is1Q, p.kind.value) then
        (InvalidAttrValue, None)
      else
        var (st, at) := Attach(s, p);
        if st != Success || at == None then (st, None) else (Success, Some(BridgePort(p.bridge.value, at.value, 0)))
  }

  // ---------------------------------------------------------------------------------------------
  // References to the attached object
  // ---------------------------------------------------------------------------------------------

  function TargetOf(at: Attachment): Target {
    match at
    case PortAt(p) => PortTarget(p)
    case SubPortAt(p, _) => PortTarget(p)
    case Router1QAt(r) => RifTarget(r)
    case Router1DAt(r) => RifTarget(r)
    case TunnelAt(t) => TunnelTarget(t)
  }

  /** The LAG a bridge port stands on, if any. */
  function LagOf(at: Attachment): Option<PortId> {
    if (at.PortAt? || at.SubPortAt?) && at.port.Lag? then Some(at.port) else None
  }

  function AddBridgeRef(bridges: map<Oid, Bridge>, id: Oid, n: int): map<Oid, Bridge> {
    if id in bridges then bridges[id := bridges[id].(refCount := bridges[id].refCount + n)] else bridges
  }

  function Incr(s: State, id: Oid, p: BridgePort): State {
    s.(bridges := AddBridgeRef(s.bridges, p.bridge, 1),
       defaults := if p.at.PortAt? then s.defaults[p.at.port := id] else s.defaults,
       lags := if LagOf(p.at).Some? then s.lags + {(LagOf(p.at).value, id)} else s.lags,
       refs := s.refs + multiset{TargetOf(p.at)})
  }

  function Decr(s: State, id: Oid, p: BridgePort): State {
    s.(bridges := AddBridgeRef(s.bridges, p.bridge, -1),
       defaults := if p.at.PortAt? then s.defaults - {p.at.port} else s.defaults,
       lags := if LagOf(p.at).Some? then s.lags - {(LagOf(p.at).value, id)} else s.lags,
       refs := s.refs - multiset{TargetOf(p.at)})
  }

  function Index(s: State, id: Oid, at: Attachment): State {
    match at
    case SubPortAt(p, v) => s.(subPorts := s.subPorts[SubPort(p, v) := id])
    case TunnelAt(t) => s.(tunnels := s.tunnels + {(t, id)})
    case _ => s
  }

  function Unindex(s: State, id: Oid, at: Attachment): State {
    match at
    case SubPortAt(p, v) => s.(subPorts := s.subPorts - {SubPort(p, v)})
    case TunnelAt(t) => s.(tunnels := s.tunnels - {(t, id)})
    case _ => s
  }

  predicate Indexed(at: Attachment) {
    at.SubPortAt? || at.TunnelAt?
  }

  // ---------------------------------------------------------------------------------------------
  // Creating and removing a bridge port
  // ---------------------------------------------------------------------------------------------

  /** One call per optional attribute, up to the first that is rejected. */
  function SetOptions(attrs: seq<PortAttr>, calls: nat, v: nat -> bool): (bool, nat)
    decreases |attrs|
  {
    if attrs == [] then (true, calls)
    else if !attrs[0].OptionAttr? then SetOptions(attrs[1..], calls, v)
    else if !v(calls) then (false, calls + 1)
    else SetOptions(attrs[1..], calls + 1, v)
  }

  /**
   NPU, cache, optional attributes, references, index: each step can fail, and a failure undoes the
   steps before it. `id` is the id the NPU hands out.
   */
  function CreatePortSpec(s: State, e: Env, attrs: seq<PortAttr>, id: Oid): (Status, State) {
    var (st, p) := Validate(s, e, attrs);
    if st != Success || p == None then (st, s)
    else if !e.verdict(s.calls) then (NpuError, s.(calls := s.calls + 1))
    else if !e.verdict(s.calls + 1) then (Failure, s.(calls := s.calls + 3))
    else
      var s1 := s.(ports := s.ports[id := p.value]);
      var (ok, calls) := SetOptions(attrs, s.calls + 2, e.verdict);
      if !ok then (NpuError, s1.(ports := s1.ports - {id}, calls := calls + 1))
      else
        var s2 := Incr(s1.(calls := calls), id, p.value);
        if !Indexed(p.value.at) then (Success, s2)
        else if e.verdict(calls) then (Success, Index(s2.(calls := calls + 1), id, p.value.at))
        else
          var s3 := Decr(s2, id, p.value);
          (Failure, s3.(ports := s3.ports - {id}, calls := calls + 2))
  }

  /**
   `again` is the id in the caller's hands after the NPU was asked to create the port once more: the
   old one, or another.
   */
  function RemovePortSpec(s: State, e: Env, id: Oid, again: Oid): (Status, State) {
    if id !in s.ports then (InvalidObjectId, s)
    else
      var p := s.ports[id];
      if p.users > 0 then (ObjectInUse, s)
      else if !e.verdict(s.calls) then (NpuError, s.(calls := s.calls + 1))
      else
        var s1 := Decr(s.(calls := s.calls + 1), id, p);
        if Indexed(p.at) && !e.verdict(s1.calls) then
          var s2 := s1.(calls := s1.calls + 2);
          (Failure, if again == id then Incr(s2, id, p) else s2)
        else
          var s2 := if Indexed(p.at) then Unindex(s1.(calls := s1.calls + 1), id, p.at) else s1;
          if e.verdict(s2.calls) then (Success, s2.(ports := s2.ports - {id}, calls := s2.calls + 1))
          else
            var s3 := s2.(calls := s2.calls + 2);
            (Failure, if again == id then Index(Incr(s3, id, p), id, p.at) else s3)
  }

  // ---------------------------------------------------------------------------------------------
  // Creating and removing a bridge
  // ---------------------------------------------------------------------------------------------

  function ParseBridge(e: Env, attrs: seq<BridgeAttr>, is1Q: Option<bool>): (Status, Option<bool>)
    decreases |attrs|
  {
    if attrs == [] then (if is1Q == None then MandatoryAttributeMissing else Success, is1Q)
    else
      match attrs[0]
      case BridgeType(q) =>
        if q && e.defaultBridge != NULL_ID then (ItemAlreadyExists, None) else ParseBridge(e, attrs[1..], Some(q))
      case BadBridgeType => (InvalidAttrValue, None)
      case BridgePortList => (InvalidAttribute, None)
      case _ => ParseBridge(e, attrs[1..], is1Q)
  }

  function SetBridgeOptions(attrs: seq<BridgeAttr>, calls: nat, v: nat -> bool): (bool, nat)
    decreases |attrs|
  {
    if attrs == [] then (true, calls)
    else if !attrs[0].BridgeOption? then SetBridgeOptions(attrs[1..], calls, v)
    else if !v(calls) then (false, calls + 1)
    else SetBridgeOptions(attrs[1..], calls + 1, v)
  }

  function CreateBridgeSpec(s: State, e: Env, attrs: seq<BridgeAttr>, id: Oid): (Status, State) {
    var (st, q) := ParseBridge(e, attrs, None);
    if st != Success || q == None then (st, s)
    else if !e.verdict(s.calls) then (NpuError, s.(calls := s.calls + 1))
    else if !e.verdict(s.calls + 1) then (Failure, s.(calls := s.calls + 3))
    else
      var (ok, calls) := SetBridgeOptions(attrs, s.calls + 2, e.verdict);
      if !ok then (NpuError, s.(bridges := s.bridges[id := Bridge(q.value, 0)] - {id}, calls := calls + 1))
      else (Success, s.(bridges := s.bridges[id := Bridge(q.value, 0)], calls := calls))
  }

  function RemoveBridgeSpec(s: State, e: Env, id: Oid): (Status, State) {
    if id == e.defaultBridge then (ObjectInUse, s)
    else if id !in s.bridges then (InvalidObjectId, s)
    else if s.bridges[id].refCount > 0 then (ObjectInUse, s)
    else if !e.verdict(s.calls) then (NpuError, s.(calls := s.calls + 1))
    else if !e.verdict(s.calls + 1) then (Failure, s.(calls := s.calls + 3))
    else (Success, s.(bridges := s.bridges - {id}, calls := s.calls + 2))
  }
}
