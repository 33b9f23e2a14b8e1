/** The bridge caches and indexes, changed step by step with progress flags and roll-backs. */
module BridgeTables {
  import opened Common
  import opened BridgeSpec
  import opened BridgeSafety

  class Tables {
    const env: Env
    var bridges: map<Oid, Bridge>
    var ports: map<Oid, BridgePort>
    var defaults: map<PortId, Oid>
    var subPorts: map<SubPort, Oid>
    var lags: set<(PortId, Oid)>
    var tunnels: set<(nat, Oid)>
    var refs: multiset<Target>
    var calls: nat

    function Now(): State
      reads this
    {
      State(bridges, ports, defaults, subPorts, lags, tunnels, refs, calls)
    }

    /** Only the default bridge exists. */
    constructor (env: Env)
      ensures this.env == env
      ensures Now() == State(map[env.defaultBridge := Bridge(true, 0)], map[], map[], map[], {}, {}, multiset{}, 0)
    {
      this.env := env;
      bridges := map[env.defaultBridge := Bridge(true, 0)];
      ports, defaults, subPorts, lags, tunnels, refs, calls := map[], map[], map[], {}, {}, multiset{}, 0;
    }

    method Ask() returns (ok: bool)
      modifies this`calls
      ensures ok == env.verdict(old(calls)) && calls == old(calls) + 1
    {
      ok := env.verdict(calls);
      calls := calls + 1;
    }

    method ParseAttrs(attrs: seq<PortAttr>) returns (status: Status, p: Parsed)
      ensures (status, p) == Parse(bridges, env, NOTHING_PARSED, attrs)
    {
      status, p := Success, NOTHING_PARSED;
      var i := 0;
      while i < |attrs|
        invariant i <= |attrs| && status == Success
        invariant Parse(bridges, env, NOTHING_PARSED, attrs) == Parse(bridges, env, p, attrs[i..])
      {
        assert attrs[i..][1..] == attrs[i + 1..];
        match attrs[i] {
          case TypeAttr(k) => p := p.(kind := Some(k));
          case PortIdAttr(x) =>
            if !env.validPort(x) {
              return InvalidAttrValue, p;
            }
            p := p.(port := Some(x));
          case VlanAttr(x) =>
            if !env.validVlan(x) {
              return InvalidAttrValue, p;
            }
            p := p.(vlan := Some(x));
          case RifAttr(x) =>
            if !env.rifExists(x) {
              return InvalidAttrValue, p;
            }
            p := p.(rif := Some(x));
          case TunnelAttr(x) =>
            if !env.tunnelExists(x) {
              return InvalidAttrValue, p;
            }
            p := p.(tunnel := Some(x));
          case BridgeIdAttr(x) =>
            if x !in bridges {
              return InvalidAttrValue, p;
            }
            p := p.(bridge := Some(x));
          case OptionAttr =>
          case UnknownPortAttr => return UnknownAttribute, p;
        }
        i := i + 1;
      }
    }

    method FindType(attrs: seq<PortAttr>) returns (found: bool)
      ensures found == HasType(attrs)
    {
      found := false;
      var i := 0;
      while i < |attrs|
        invariant i <= |attrs|
        invariant found <==> exists j :: 0 <= j < i && attrs[j].TypeAttr?
      {
        if attrs[i].TypeAttr? {
          found := true;
        }
        i := i + 1;
      }
    }

    method ValidateAttrs(attrs: seq<PortAttr>) returns (status: Status, p: Option<BridgePort>)
      ensures (status, p) == Validate(Now(), env, attrs)
    {
      var found := FindType(attrs);
      if !found {
        return MandatoryAttributeMissing, None;
      }
      var parsed;
      status, parsed := ParseAttrs(attrs);
      if status != Success {
        return status, None;
      }
      if parsed.kind == None || parsed.bridge == None {
        return MandatoryAttributeMissing, None;
      }
      if parsed.bridge.value !in bridges || !TypeFits(bridges[parsed.bridge.value].is1Q, parsed.kind.value) {
        return InvalidAttrValue, None;
      }
      var at;
      status, at := FillAttachment(parsed);
      if status != Success || at == None {
        return status, None;
      }
      return Success, Some(BridgePort(parsed.bridge.value, at.value, 0));
    }

    method FillAttachment(p: Parsed) returns (status: Status, at: Option<Attachment>)
      requires p.kind.Some? && p.bridge.Some?
      ensures (status, at) == Attach(Now(), p)
    {
      match p.kind.value {
        case PortKind =>
          if p.port == None {
            return MandatoryAttributeMissing, None;
          }
          if p.port.value.OtherType? {
            return InvalidObjectType, None;
          }
          if p.port.value in defaults {
            return ItemAlreadyExists, None;
          }
          return Success, Some(PortAt(p.port.value));
        case SubPortKind =>
          if p.port == None || p.vlan == None {
            return MandatoryAttributeMissing, None;
          }
          if SubPort(p.port.value, p.vlan.value) in subPorts {
            return ItemAlreadyExists, None;
          }
          return Success, Some(SubPortAt(p.port.value, p.vlan.value));
        case Router1QKind =>
          if p.rif == None {
            return MandatoryAttributeMissing, None;
          }
          return Success, Some(Router1QAt(p.rif.value));
        case Router1DKind =>
          if p.rif == None {
            return MandatoryAttributeMissing, None;
          }
          return Success, Some(Router1DAt(p.rif.value));
        case TunnelKind =>
          if p.tunnel == None {
            return MandatoryAttributeMissing, None;
          }
          if TunnelOnBridge(Now(), p.bridge.value, p.tunnel.value) {
            return ItemAlreadyExists, None;
          }
          return Success, Some(TunnelAt(p.tunnel.value));
        case BadKind => return InvalidAttrValue, None;
      }
    }

    method AddToBridge(id: Oid, n: int)
      modifies this`bridges
      ensures bridges == AddBridgeRef(old(bridges), id, n)
    {
      if id in bridges {
        bridges := bridges[id := bridges[id].(refCount := bridges[id].refCount + n)];
      }
    }

    /** Takes the references of a bridge port: its bridge, and what it is attached to. */
    method TakeRefs(id: Oid, p: BridgePort)
      modifies this`bridges, this`defaults, this`lags, this`refs
      ensures Now() == Incr(old(Now()), id, p)
    {
      hide AddBridgeRef, TargetOf, LagOf;
      AddToBridge(p.bridge, 1);
      TakeAttachment(id, p.at);
    }

    method TakeAttachment(id: Oid, at: Attachment)
      modifies this`defaults, this`lags, this`refs
      ensures defaults == if at.PortAt? then old(defaults)[at.port := id] else old(defaults)
      ensures lags == if LagOf(at).Some? then old(lags) + {(LagOf(at).value, id)} else old(lags)
      ensures refs == old(refs) + multiset{TargetOf(at)}
    {
      match at {
        case PortAt(port) =>
          defaults := defaults[port := id];
          TakePortRef(id, port);
        case SubPortAt(port, _) => TakePortRef(id, port);
        case Router1QAt(rif) => refs := refs + multiset{RifTarget(rif)};
        case Router1DAt(rif) => refs := refs + multiset{RifTarget(rif)};
        case TunnelAt(tunnel) => refs := refs + multiset{TunnelTarget(tunnel)};
      }
    }

    method TakePortRef(id: Oid, port: PortId)
      modifies this`lags, this`refs
      ensures lags == if port.Lag? then old(lags) + {(port, id)} else old(lags)
      ensures refs == old(refs) + multiset{PortTarget(port)}
    {
      if port.Lag? {
        lags := lags + {(port, id)};
      }
      refs := refs + multiset{PortTarget(port)};
    }

    /** Gives them back. */
    method GiveRefs(id: Oid, p: BridgePort)
      modifies this`bridges, this`defaults, this`lags, this`refs
      ensures Now() == Decr(old(Now()), id, p)
    {
      hide AddBridgeRef, TargetOf, LagOf;
      AddToBridge(p.bridge, -1);
      GiveAttachment(id, p.at);
    }

    method GiveAttachment(id: Oid, at: Attachment)
      modifies this`defaults, this`lags, this`refs
      ensures defaults == if at.PortAt? then old(defaults) - {at.port} else old(defaults)
      ensures lags == if LagOf(at).Some? then old(lags) - {(LagOf(at).value, id)} else old(lags)
      ensures refs == old(refs) - multiset{TargetOf(at)}
    {
      match at {
        case PortAt(port) =>
          defaults := defaults - {port};
          GivePortRef(id, port);
        case SubPortAt(port, _) => GivePortRef(id, port);
        case Router1QAt(rif) => refs := refs - multiset{RifTarget(rif)};
        case Router1DAt(rif) => refs := refs - multiset{RifTarget(rif)};
        case TunnelAt(tunnel) => refs := refs - multiset{TunnelTarget(tunnel)};
      }
    }

    method GivePortRef(id: Oid, port: PortId)
      modifies this`lags, this`refs
      ensures lags == if port.Lag? then old(lags) - {(port, id)} else old(lags)
      ensures refs == old(refs) - multiset{PortTarget(port)}
    {
      if port.Lag? {
        lags := lags - {(port, id)};
      }
      refs := refs - multiset{PortTarget(port)};
    }

    method InsertIndex(id: Oid, at: Attachment)
      modifies this`subPorts, this`tunnels
      ensures Now() == Index(old(Now()), id, at)
    {
      match at {
        case SubPortAt(port, vlan) => subPorts := subPorts[SubPort(port, vlan) := id];
        case TunnelAt(tunnel) => tunnels := tunnels + {(tunnel, id)};
        case _ =>
      }
    }

    method RemoveIndex(id: Oid, at: Attachment)
      modifies this`subPorts, this`tunnels
      ensures Now() == Unindex(old(Now()), id, at)
    {
      match at {
        case SubPortAt(port, vlan) => subPorts := subPorts - {SubPort(port, vlan)};
        case TunnelAt(tunnel) => tunnels := tunnels - {(tunnel, id)};
        case _ =>
      }
    }

    method PushOptions(attrs: seq<PortAttr>) returns (ok: bool)
      modifies this`calls
      ensures (ok, calls) == SetOptions(attrs, old(calls), env.verdict)
    {
      ok := true;
      var i := 0;
      while i < |attrs|
        invariant i <= |attrs| && ok
        invariant SetOptions(attrs, old(calls), env.verdict) == SetOptions(attrs[i..], calls, env.verdict)
      {
        assert attrs[i..][1..] == attrs[i + 1..];
        if attrs[i].OptionAttr? {
          ok := Ask();
          if !ok {
            return;
          }
        }
        i := i + 1;
      }
    }

    /** The steps of a create, up to the first that fails; `done` says which of them must be undone. */
    method InstallPort(attrs: seq<PortAttr>, newId: Oid, p: BridgePort) returns (status: Status, done: Progress)
      modifies this
      ensures (status, done, Now()) == Install(old(Now()), env, attrs, newId, p)
    {
      hide SetOptions, Incr;
      done := Progress(false, false, false, false);
      var ok := Ask();
      if !ok {
        return NpuError, done;
      }
      done := done.(npu := true);
      ok := Ask();
      if !ok {
        return Failure, done;
      }
      ports := ports[newId := p];
      done := done.(cache := true);
      ok := PushOptions(attrs);
      if !ok {
        return NpuError, done;
      }
      TakeRefs(newId, p);
      done := done.(refs := true);
      if Indexed(p.at) {
        ok := Ask();
        if !ok {
          return Failure, done;
        }
        InsertIndex(newId, p.at);
      }
      return Success, done;
    }

    method RollBackInstall(id: Oid, p: BridgePort, done: Progress)
      modifies this
      ensures Now() == RolledBack(old(Now()), id, p, done)
    {
      hide Decr;
      if done.npu {
        var _ := Ask();
      }
      if done.refs {
        GiveRefs(id, p);
      }
      if done.cache {
        ports := ports - {id};
      }
    }

    /** `newId` is the id the NPU hands out. */
    method CreatePort(attrs: seq<PortAttr>, newId: Oid) returns (status: Status)
      modifies this
      ensures (status, Now()) == CreatePortSpec(old(Now()), env, attrs, newId)
    {
      hide Validate, Install, RolledBack, CreatePortSpec;
      InstallSpec(Now(), env, attrs, newId);
      var p;
      status, p := ValidateAttrs(attrs);
      if status != Success || p == None {
        return;
      }
      var done;
      status, done := InstallPort(attrs, newId, p.value);
      if status != Success {
        RollBackInstall(newId, p.value, done);
      }
    }

    /** The steps of a remove, up to the first that fails. */
    method UninstallPort(id: Oid, p: BridgePort) returns (status: Status, done: Progress)
      modifies this
      ensures (status, done, Now()) == Uninstall(old(Now()), env, id, p)
    {
      hide Decr, Unindex;
      done := Progress(false, false, false, false);
      var ok := Ask();
      if !ok {
        return NpuError, done;
      }
      done := done.(npu := true);
      GiveRefs(id, p);
      done := done.(refs := true);
      if Indexed(p.at) {
        ok := Ask();
        if !ok {
          return Failure, done;
        }
        RemoveIndex(id, p.at);
        done := done.(index := true);
      }
      ok := Ask();
      if !ok {
        return Failure, done;
      }
      ports := ports - {id};
      return Success, done;
    }

    method RollBackUninstall(id: Oid, again: Oid, p: BridgePort, done: Progress)
      modifies this
      ensures Now() == Reinstalled(old(Now()), id, again, p, done)
    {
      hide Incr, Index;
      if done.npu {
        var _ := Ask();
        if again == id {
          if done.refs {
            TakeRefs(id, p);
          }
          if done.index {
            InsertIndex(id, p.at);
          }
        }
      }
    }

    /** `again` is the id left after the NPU was asked to create the port once more. */
    method RemovePort(id: Oid, again: Oid) returns (status: Status)
      modifies this
      ensures (status, Now()) == RemovePortSpec(old(Now()), env, id, again)
    {
      hide Uninstall, Reinstalled, RemovePortSpec;
      UninstallSpec(Now(), env, id, again);
      if id !in ports {
        return InvalidObjectId;
      }
      var p := ports[id];
      if p.users > 0 {
        return ObjectInUse;
      }
      var done;
      status, done := UninstallPort(id, p);
      if status != Success {
        RollBackUninstall(id, again, p, done);
      }
    }

    method PushBridgeOptions(attrs: seq<BridgeAttr>) returns (ok: bool)
      modifies this`calls
      ensures (ok, calls) == SetBridgeOptions(attrs, old(calls), env.verdict)
    {
      ok := true;
      var i := 0;
      while i < |attrs|
        invariant i <= |attrs| && ok
        invariant SetBridgeOptions(attrs, old(calls), env.verdict) == SetBridgeOptions(attrs[i..], calls, env.verdict)
      {
        assert attrs[i..][1..] == attrs[i + 1..];
        if attrs[i].BridgeOption? {
          ok := Ask();
          if !ok {
            return;
          }
        }
        i := i + 1;
      }
    }

    method ParseBridgeAttrs(attrs: seq<BridgeAttr>) returns (status: Status, is1Q: Option<bool>)
      ensures (status, is1Q) == ParseBridge(env, attrs, None)
    {
      is1Q := None;
      var i := 0;
      while i < |attrs|
        invariant i <= |attrs|
        invariant ParseBridge(env, attrs, None) == ParseBridge(env, attrs[i..], is1Q)
      {
        assert attrs[i..][1..] == attrs[i + 1..];
        match attrs[i] {
          case BridgeType(q) =>
            if q && env.defaultBridge != NULL_ID {
              return ItemAlreadyExists, None;
            }
            is1Q := Some(q);
          case BadBridgeType => return InvalidAttrValue, None;
          case BridgePortList => return InvalidAttribute, None;
          case _ =>
        }
        i := i + 1;
      }
      if is1Q == None {
        return MandatoryAttributeMissing, None;
      }
      return Success, is1Q;
    }

    method CreateBridge(attrs: seq<BridgeAttr>, newId: Oid) returns (status: Status)
      modifies this
      ensures (status, Now()) == CreateBridgeSpec(old(Now()), env, attrs, newId)
    {
      var is1Q;
      status, is1Q := ParseBridgeAttrs(attrs);
      if status != Success || is1Q == None {
        return;
      }
      var npuUpdate, cacheUpdate := false, false;
      var ok := Ask();
      if !ok {
        status := NpuError;
      } else {
        npuUpdate := true;
        ok := Ask();
        if !ok {
          status := Failure;
        } else {
          bridges := bridges[newId := Bridge(is1Q.value, 0)];
          cacheUpdate := true;
          ok := PushBridgeOptions(attrs);
          if !ok {
            status := NpuError;
          }
        }
      }
      if status != Success {
        if npuUpdate {
          var _ := Ask();
        }
        if cacheUpdate {
          bridges := bridges - {newId};
        }
      }
    }

    method RemoveBridge(id: Oid) returns (status: Status)
      modifies this
      ensures (status, Now()) == RemoveBridgeSpec(old(Now()), env, id)
    {
      if id == env.defaultBridge {
        return ObjectInUse;
      }
      if id !in bridges {
        return InvalidObjectId;
      }
      if bridges[id].refCount > 0 {
        return ObjectInUse;
      }
      var ok := Ask();
      if !ok {
        return NpuError;
      }
      ok := Ask();
      if !ok {
        var _ := Ask();
        return Failure;
      }
      bridges := bridges - {id};
      return Success;
    }
  }

  // ---------------------------------------------------------------------------------------------
  // Progress and roll-back
  // ---------------------------------------------------------------------------------------------

  /** The progress flags of a create or a remove. */
  datatype Progress = Progress(npu: bool, cache: bool, refs: bool, index: bool)

  function Install(s: State, e: Env, attrs: seq<PortAttr>, id: Oid, p: BridgePort): (Status, Progress, State) {
    if !e.verdict(s.calls) then (NpuError, Progress(false, false, false, false), s.(calls := s.calls + 1))
    else if !e.verdict(s.calls + 1) then (Failure, Progress(true, false, false, false), s.(calls := s.calls + 2))
    else
      var (ok, calls) := SetOptions(attrs, s.calls + 2, e.verdict);
      var s1 := s.(ports := s.ports[id := p], calls := calls);
      if !ok then (NpuError, Progress(true, true, false, false), s1)
      else
        var s2 := Incr(s1, id, p);
        if !Indexed(p.at) then (Success, Progress(true, true, true, false), s2)
        else if !e.verdict(calls) then (Failure, Progress(true, true, true, false), s2.(calls := calls + 1))
        else (Success, Progress(true, true, true, false), Index(s2.(calls := calls + 1), id, p.at))
  }

  function RolledBack(s: State, id: Oid, p: BridgePort, done: Progress): State {
    var s1 := if done.npu then s.(calls := s.calls + 1) else s;
    var s2 := if done.refs then Decr(s1, id, p) else s1;
    if done.cache then s2.(ports := s2.ports - {id}) else s2
  }

  /** A create is its steps, followed by the roll-back of those done when one fails. */
  lemma InstallSpec(s: State, e: Env, attrs: seq<PortAttr>, id: Oid)
    ensures var (st, p) := Validate(s, e, attrs);
            CreatePortSpec(s, e, attrs, id)
            == if st != Success || p == None then (st, s)
               else
                 var (st, done, t) := Install(s, e, attrs, id, p.value);
                 (st, if st == Success then t else RolledBack(t, id, p.value, done))
  {
    hide Validate, SetOptions, Incr, Decr, Index;
    var (st, p) := Validate(s, e, attrs);
    if st == Success && p.Some? && e.verdict(s.calls) && e.verdict(s.calls + 1) {
      var (ok, calls) := SetOptions(attrs, s.calls + 2, e.verdict);
      var s2 := Incr(s.(ports := s.ports[id := p.value], calls := calls), id, p.value);
      IncrCalls(s2, calls + 2, id, p.value);
      KeepsPorts(s.(ports := s.ports[id := p.value], calls := calls), id, p.value);
    }
  }

  lemma KeepsPorts(s: State, id: Oid, p: BridgePort)
    ensures Incr(s, id, p).ports == s.ports && Incr(s, id, p).calls == s.calls
    ensures Decr(s, id, p).ports == s.ports && Decr(s, id, p).calls == s.calls
  {
  }

  function Uninstall(s: State, e: Env, id: Oid, p: BridgePort): (Status, Progress, State) {
    if !e.verdict(s.calls) then (NpuError, Progress(false, false, false, false), s.(calls := s.calls + 1))
    else
      var s1 := Decr(s.(calls := s.calls + 1), id, p);
      if Indexed(p.at) && !e.verdict(s1.calls) then (Failure, Progress(true, false, true, false),
                                                     s1.(calls := s1.calls + 1))
      else
        var s2 := if Indexed(p.at) then Unindex(s1.(calls := s1.calls + 1), id, p.at) else s1;
        var s3 := s2.(calls := s2.calls + 1);
        if !e.verdict(s2.calls) then (Failure, Progress(true, false, true, Indexed(p.at)), s3)
        else (Success, Progress(true, false, true, Indexed(p.at)), s3.(ports := s3.ports - {id}))
  }

  function Reinstalled(s: State, id: Oid, again: Oid, p: BridgePort, done: Progress): State {
    if !done.npu then s
    else
      var s1 := s.(calls := s.calls + 1);
      if again != id then s1
      else
        var s2 := if done.refs then Incr(s1, id, p) else s1;
        if done.index then Index(s2, id, p.at) else s2
  }

  /** A remove is its steps, followed by putting back what was taken when one fails and the id is still the port's. */
  lemma UninstallSpec(s: State, e: Env, id: Oid, again: Oid)
    ensures RemovePortSpec(s, e, id, again)
         == if id !in s.ports then (InvalidObjectId, s)
            else if s.ports[id].users > 0 then (ObjectInUse, s)
            else
              var (st, done, t) := Uninstall(s, e, id, s.ports[id]);
              (st, if st == Success then t else Reinstalled(t, id, again, s.ports[id], done))
  {
    hide Incr, Decr, Index, Unindex;
    if id in s.ports {
      NotIndexed(Incr(Decr(s.(calls := s.calls + 1), id, s.ports[id]).(calls := s.calls + 3), id, s.ports[id]), id,
                 s.ports[id].at);
      KeepsPorts(s.(calls := s.calls + 1), id, s.ports[id]);
    }
  }

  lemma NotIndexed(s: State, id: Oid, at: Attachment)
    ensures !Indexed(at) ==> Index(s, id, at) == s
  {
  }
}
