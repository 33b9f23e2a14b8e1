/**
 Which bridge port an attribute list describes, when each bridge call succeeds, and what it leaves in the
 tables, in terms of the request and the tables before it.
 */
module BridgeEffects {
  import opened Common
  import opened BridgeSpec
  import opened BridgeSafety

  // ---------------------------------------------------------------------------------------------
  // Attribute lists
  // ---------------------------------------------------------------------------------------------

  predicate SameKind(a: PortAttr, b: PortAttr) {
    match a
    case TypeAttr(_) => b.TypeAttr?
    case PortIdAttr(_) => b.PortIdAttr?
    case VlanAttr(_) => b.VlanAttr?
    case RifAttr(_) => b.RifAttr?
    case TunnelAttr(_) => b.TunnelAttr?
    case BridgeIdAttr(_) => b.BridgeIdAttr?
    case OptionAttr => b.OptionAttr?
    case UnknownPortAttr => b.UnknownPortAttr?
  }

  ghost predicate NoneLike(attrs: seq<PortAttr>, a: PortAttr) {
    forall i :: 0 <= i < |attrs| ==> !SameKind(attrs[i], a)
  }

  /** Attribute `i` is `a`, and no later one is of its kind. */
  ghost predicate LastAt(attrs: seq<PortAttr>, a: PortAttr, i: int) {
    0 <= i < |attrs| && attrs[i] == a && forall j :: i < j < |attrs| ==> !SameKind(attrs[j], a)
  }

  /** The last attribute of the kind of `a` is `a`. */
  ghost predicate Gives(attrs: seq<PortAttr>, a: PortAttr) {
    exists i :: LastAt(attrs, a, i)
  }

  /** The attribute is known, and the object or VLAN it names is there. */
  ghost predicate Acceptable(s: State, e: Env, a: PortAttr) {
    match a
    case TypeAttr(_) => true
    case PortIdAttr(x) => e.validPort(x)
    case VlanAttr(x) => e.validVlan(x)
    case RifAttr(x) => e.rifExists(x)
    case TunnelAttr(x) => e.tunnelExists(x)
    case BridgeIdAttr(x) => x in s.bridges
    case OptionAttr => true
    case UnknownPortAttr => false
  }

  ghost predicate AllAcceptable(s: State, e: Env, attrs: seq<PortAttr>) {
    forall i :: 0 <= i < |attrs| ==> Acceptable(s, e, attrs[i])
  }

  /** `p` has the value of `a`. */
  predicate Reads(p: Parsed, a: PortAttr) {
    match a
    case TypeAttr(x) => p.kind == Some(x)
    case PortIdAttr(x) => p.port == Some(x)
    case VlanAttr(x) => p.vlan == Some(x)
    case RifAttr(x) => p.rif == Some(x)
    case TunnelAttr(x) => p.tunnel == Some(x)
    case BridgeIdAttr(x) => p.bridge == Some(x)
    case _ => false
  }

  lemma LastAtTail(attrs: seq<PortAttr>, a: PortAttr, i: int)
    requires attrs != []
    ensures LastAt(attrs, a, i) <==> if i == 0 then attrs[0] == a && NoneLike(attrs[1..], a)
                                     else LastAt(attrs[1..], a, i - 1)
  {
    hide SameKind;
    assert forall j :: 0 < j < |attrs| ==> attrs[j] == attrs[1..][j - 1];
  }

  lemma GivesTail(attrs: seq<PortAttr>, a: PortAttr)
    requires attrs != []
    ensures NoneLike(attrs, a) <==> !SameKind(attrs[0], a) && NoneLike(attrs[1..], a)
    ensures Gives(attrs, a) <==> Gives(attrs[1..], a) || (attrs[0] == a && NoneLike(attrs[1..], a))
  {
    NoneLikeTail(attrs, a);
    hide SameKind, LastAt, NoneLike;
    LastAtTail(attrs, a, 0);
    if i :| LastAt(attrs, a, i) {
      LastAtTail(attrs, a, i);
    }
    if i :| LastAt(attrs[1..], a, i) {
      LastAtTail(attrs, a, i + 1);
      LastAtBounds(attrs[1..], a, i);
    }
  }

  lemma LastAtBounds(attrs: seq<PortAttr>, a: PortAttr, i: int)
    requires LastAt(attrs, a, i)
    ensures 0 <= i < |attrs| && attrs[i] == a
  {
  }

  lemma NoneLikeTail(attrs: seq<PortAttr>, a: PortAttr)
    requires attrs != []
    ensures NoneLike(attrs, a) <==> !SameKind(attrs[0], a) && NoneLike(attrs[1..], a)
  {
    hide SameKind;
    assert forall j :: 0 < j < |attrs| ==> attrs[j] == attrs[1..][j - 1];
  }

  lemma AcceptableTail(s: State, e: Env, attrs: seq<PortAttr>)
    requires attrs != []
    ensures AllAcceptable(s, e, attrs) <==> Acceptable(s, e, attrs[0]) && AllAcceptable(s, e, attrs[1..])
  {
    hide Acceptable;
    assert forall i :: 0 < i < |attrs| ==> attrs[i] == attrs[1..][i - 1];
  }

  lemma GivesOne(attrs: seq<PortAttr>, a: PortAttr)
    requires Gives(attrs, a) && !a.OptionAttr? && !a.UnknownPortAttr?
    ensures !NoneLike(attrs, a)
  {
  }

  lemma {:induction false} ParsedAll(s: State, e: Env, p: Parsed, attrs: seq<PortAttr>)
    ensures Parse(s.bridges, e, p, attrs).0 == Success <==> AllAcceptable(s, e, attrs)
    decreases |attrs|
  {
    hide AllAcceptable;
    if attrs == [] {
      assert AllAcceptable(s, e, []) by { NothingUnacceptable(s, e); }
    } else {
      AcceptableTail(s, e, attrs);
      ParsedAll(s, e, ParseOne(s.bridges, e, p, attrs[0]).1, attrs[1..]);
    }
  }

  lemma NothingUnacceptable(s: State, e: Env)
    ensures AllAcceptable(s, e, [])
  {
  }

  /** Of several attributes of one kind the last one counts. */
  lemma {:induction false} ParsedLast(s: State, e: Env, p: Parsed, attrs: seq<PortAttr>, a: PortAttr)
    requires Parse(s.bridges, e, p, attrs).0 == Success && !a.OptionAttr? && !a.UnknownPortAttr?
    ensures Reads(Parse(s.bridges, e, p, attrs).1, a) <==> Gives(attrs, a) || (NoneLike(attrs, a) && Reads(p, a))
    decreases |attrs|
  {
    hide Gives, NoneLike;
    if attrs == [] {
      NothingGiven(a);
    } else {
      GivesTail(attrs, a);
      if Gives(attrs[1..], a) {
        GivesOne(attrs[1..], a);
      }
      ParsedLast(s, e, ParseOne(s.bridges, e, p, attrs[0]).1, attrs[1..], a);
    }
  }

  lemma NothingGiven(a: PortAttr)
    ensures !Gives([], a) && NoneLike([], a)
  {
  }

  // ---------------------------------------------------------------------------------------------
  // The bridge port that is asked for
  // ---------------------------------------------------------------------------------------------

  /** The type that `at` has, and its port, VLAN, router interface or tunnel, are given last. */
  ghost predicate AttachmentGiven(attrs: seq<PortAttr>, at: Attachment) {
    match at
    case PortAt(x) => Gives(attrs, TypeAttr(PortKind)) && Gives(attrs, PortIdAttr(x))
    case SubPortAt(x, vlan) =>
      Gives(attrs, TypeAttr(SubPortKind)) && Gives(attrs, PortIdAttr(x)) && Gives(attrs, VlanAttr(vlan))
    case Router1QAt(x) => Gives(attrs, TypeAttr(Router1QKind)) && Gives(attrs, RifAttr(x))
    case Router1DAt(x) => Gives(attrs, TypeAttr(Router1DKind)) && Gives(attrs, RifAttr(x))
    case TunnelAt(x) => Gives(attrs, TypeAttr(TunnelKind)) && Gives(attrs, TunnelAttr(x))
  }

  /** No other bridge port is in the way: of type PORT on the port, on its VLAN, or for the tunnel on the bridge. */
  ghost predicate Free(s: State, bridge: Oid, at: Attachment) {
    match at
    case PortAt(x) => !x.OtherType? && forall id :: id in s.ports ==> s.ports[id].at != PortAt(x)
    case SubPortAt(x, vlan) => forall id :: id in s.ports ==> s.ports[id].at != SubPortAt(x, vlan)
    case TunnelAt(x) => forall id :: id in s.ports ==> s.ports[id].at != TunnelAt(x) || s.ports[id].bridge != bridge
    case _ => true
  }

  /** The attribute list asks for exactly this bridge port, and it can be had. */
  ghost predicate AskedFor(s: State, e: Env, attrs: seq<PortAttr>, bridge: Oid, at: Attachment) {
    && AllAcceptable(s, e, attrs)
    && Gives(attrs, BridgeIdAttr(bridge)) && bridge in s.bridges
    && AttachmentGiven(attrs, at)
    && (if s.bridges[bridge].is1Q then at.PortAt? || at.Router1QAt?
        else at.SubPortAt? || at.Router1DAt? || at.TunnelAt?)
    && Free(s, bridge, at)
  }

  lemma FreeExact(s: State, bridge: Oid, at: Attachment)
    requires Valid(s)
    ensures at.PortAt? ==> (Free(s, bridge, at) <==> !at.port.OtherType? && at.port !in s.defaults)
    ensures at.SubPortAt? ==> (Free(s, bridge, at) <==> SubPort(at.port, at.vlan) !in s.subPorts)
    ensures at.TunnelAt? ==> (Free(s, bridge, at) <==> !TunnelOnBridge(s, bridge, at.tunnel))
    ensures at.Router1QAt? || at.Router1DAt? ==> Free(s, bridge, at)
  {
    hide BridgeCounts, TargetCounts, TypesFit, LagsExact, TunnelsOnce;
    if at.PortAt? && at.port in s.defaults {
      assert s.ports[s.defaults[at.port]].at == at;
    }
    if at.SubPortAt? && SubPort(at.port, at.vlan) in s.subPorts {
      assert s.ports[s.subPorts[SubPort(at.port, at.vlan)]].at == at;
    }
    if at.TunnelAt? {
      forall id | id in s.ports
        ensures s.ports[id].at == at <==> (at.tunnel, id) in s.tunnels
      {
      }
    }
  }

  /** An attribute list validates to a bridge port if and only if it asks for it. */
  lemma ValidatedIff(s: State, e: Env, attrs: seq<PortAttr>, p: BridgePort)
    requires Valid(s)
    ensures Validate(s, e, attrs) == (Success, Some(p)) <==> p.users == 0 && AskedFor(s, e, attrs, p.bridge, p.at)
  {
    hide Valid, Gives, AllAcceptable, Parse, TunnelOnBridge, Free;
    ParsedAll(s, e, NOTHING_PARSED, attrs);
    FreeExact(s, p.bridge, p.at);
    TypeGiven(attrs);
    if AllAcceptable(s, e, attrs) {
      ParsedParts(s, e, attrs, p.bridge, p.at);
    }
  }

  lemma TypeGiven(attrs: seq<PortAttr>)
    ensures (exists k :: Gives(attrs, TypeAttr(k))) ==> HasType(attrs)
  {
  }

  lemma ParsedParts(s: State, e: Env, attrs: seq<PortAttr>, bridge: Oid, at: Attachment)
    requires Parse(s.bridges, e, NOTHING_PARSED, attrs).0 == Success
    ensures var q := Parse(s.bridges, e, NOTHING_PARSED, attrs).1;
            && (q.bridge == Some(bridge) <==> Gives(attrs, BridgeIdAttr(bridge)))
            && (forall k :: q.kind == Some(k) <==> Gives(attrs, TypeAttr(k)))
            && (at.PortAt? || at.SubPortAt? ==> (q.port == Some(at.port) <==> Gives(attrs, PortIdAttr(at.port))))
            && (at.SubPortAt? ==> (q.vlan == Some(at.vlan) <==> Gives(attrs, VlanAttr(at.vlan))))
            && (at.Router1QAt? || at.Router1DAt? ==> (q.rif == Some(at.rif) <==> Gives(attrs, RifAttr(at.rif))))
            && (at.TunnelAt? ==> (q.tunnel == Some(at.tunnel) <==> Gives(attrs, TunnelAttr(at.tunnel))))
  {
    hide Gives, NoneLike, Parse;
    ParsedLast(s, e, NOTHING_PARSED, attrs, BridgeIdAttr(bridge));
    forall k
      ensures Parse(s.bridges, e, NOTHING_PARSED, attrs).1.kind == Some(k) <==> Gives(attrs, TypeAttr(k))
    {
      ParsedLast(s, e, NOTHING_PARSED, attrs, TypeAttr(k));
    }
    match at {
      case PortAt(x) => ParsedLast(s, e, NOTHING_PARSED, attrs, PortIdAttr(x));
      case SubPortAt(x, vlan) =>
        ParsedLast(s, e, NOTHING_PARSED, attrs, PortIdAttr(x));
        ParsedLast(s, e, NOTHING_PARSED, attrs, VlanAttr(vlan));
      case Router1QAt(x) => ParsedLast(s, e, NOTHING_PARSED, attrs, RifAttr(x));
      case Router1DAt(x) => ParsedLast(s, e, NOTHING_PARSED, attrs, RifAttr(x));
      case TunnelAt(x) => ParsedLast(s, e, NOTHING_PARSED, attrs, TunnelAttr(x));
    }
  }

  /** What is asked for rightly but taken already is refused as existing. */
  lemma TakenRefused(s: State, e: Env, attrs: seq<PortAttr>, id: Oid, bridge: Oid, at: Attachment)
    requires Valid(s) && AllAcceptable(s, e, attrs) && Gives(attrs, BridgeIdAttr(bridge)) && bridge in s.bridges
    requires AttachmentGiven(attrs, at) && (at.PortAt? ==> !at.port.OtherType?) && !Free(s, bridge, at)
    requires if s.bridges[bridge].is1Q then at.PortAt? || at.Router1QAt?
             else at.SubPortAt? || at.Router1DAt? || at.TunnelAt?
    ensures CreatePortSpec(s, e, attrs, id) == (ItemAlreadyExists, s)
  {
    hide Valid, Gives, AllAcceptable, Parse, TunnelOnBridge, Free, SetOptions, Incr, Decr, Index;
    ParsedAll(s, e, NOTHING_PARSED, attrs);
    FreeExact(s, bridge, at);
    TypeGiven(attrs);
    ParsedParts(s, e, attrs, bridge, at);
  }

  // ---------------------------------------------------------------------------------------------
  // Creating and removing a bridge port
  // ---------------------------------------------------------------------------------------------

  ghost predicate AllAccepted(n: nat, calls: nat, v: nat -> bool) {
    forall k :: calls <= k < calls + n ==> v(k)
  }

  /** The number of attributes that are set in the NPU one by one. */
  function OptionCount(attrs: seq<PortAttr>): nat {
    if attrs == [] then 0 else OptionCount(attrs[1..]) + if attrs[0].OptionAttr? then 1 else 0
  }

  lemma AcceptedFrom(n: nat, calls: nat, v: nat -> bool)
    ensures AllAccepted(n + 1, calls, v) <==> v(calls) && AllAccepted(n, calls + 1, v)
  {
  }

  lemma AcceptedUpTo(n: nat, calls: nat, v: nat -> bool)
    ensures AllAccepted(n + 1, calls, v) <==> AllAccepted(n, calls, v) && v(calls + n)
  {
  }

  lemma {:induction false} OptionsSet(attrs: seq<PortAttr>, calls: nat, v: nat -> bool)
    ensures SetOptions(attrs, calls, v).0 <==> AllAccepted(OptionCount(attrs), calls, v)
    ensures SetOptions(attrs, calls, v).0 ==> SetOptions(attrs, calls, v).1 == calls + OptionCount(attrs)
    decreases |attrs|
  {
    hide AllAccepted;
    if attrs == [] {
      NoneAccepted(calls, v);
    } else if attrs[0].OptionAttr? {
      AcceptedFrom(OptionCount(attrs[1..]), calls, v);
      OptionsSet(attrs[1..], calls + 1, v);
    } else {
      OptionsSet(attrs[1..], calls, v);
    }
  }

  lemma NoneAccepted(calls: nat, v: nat -> bool)
    ensures AllAccepted(0, calls, v)
  {
  }

  /**
   A bridge port that can be had is created exactly when the NPU accepts it, the attributes set one by one,
   and the index entry of a sub-port or tunnel port.
   */
  lemma CreatePortSucceeds(s: State, e: Env, attrs: seq<PortAttr>, id: Oid, bridge: Oid, at: Attachment)
    requires Valid(s) && AskedFor(s, e, attrs, bridge, at)
    ensures var (st, t) := CreatePortSpec(s, e, attrs, id);
            var n := 2 + OptionCount(attrs) + if at.SubPortAt? || at.TunnelAt? then 1 else 0;
            && (st == Success <==> AllAccepted(n, s.calls, e.verdict))
            && (st == Success ==> t == Added(s, id, BridgePort(bridge, at, 0)).(calls := t.calls))
  {
    hide Valid, AskedFor, Validate, SetOptions, AllAccepted, OptionCount, AddBridgeRef, LagOf, TargetOf;
    ValidatedIff(s, e, attrs, BridgePort(bridge, at, 0));
    var n := OptionCount(attrs);
    AcceptedFrom(n + 1, s.calls, e.verdict);
    AcceptedFrom(n, s.calls + 1, e.verdict);
    OptionsSet(attrs, s.calls + 2, e.verdict);
    AcceptedUpTo(2 + n, s.calls, e.verdict);
  }

  /**
   What a bridge port takes: a reference to its bridge and to what it stands on, and the index entries of its
   type.
   */
  lemma AddedTables(s: State, id: Oid, bridge: Oid, at: Attachment)
    requires bridge in s.bridges
    ensures var t := Added(s, id, BridgePort(bridge, at, 0));
            && t.ports == s.ports[id := BridgePort(bridge, at, 0)]
            && t.bridges == s.bridges[bridge := Bridge(s.bridges[bridge].is1Q, s.bridges[bridge].refCount + 1)]
            && t.defaults == (if at.PortAt? then s.defaults[at.port := id] else s.defaults)
            && t.subPorts == (if at.SubPortAt? then s.subPorts[SubPort(at.port, at.vlan) := id] else s.subPorts)
            && t.tunnels == (if at.TunnelAt? then s.tunnels + {(at.tunnel, id)} else s.tunnels)
            && t.lags == (if (at.PortAt? || at.SubPortAt?) && at.port.Lag? then s.lags + {(at.port, id)} else s.lags)
            && t.refs == s.refs + multiset{match at
                                           case PortAt(x) => PortTarget(x)
                                           case SubPortAt(x, _) => PortTarget(x)
                                           case Router1QAt(x) => RifTarget(x)
                                           case Router1DAt(x) => RifTarget(x)
                                           case TunnelAt(x) => TunnelTarget(x)}
  {
    AddedParts(s, id, BridgePort(bridge, at, 0));
  }

  /** A created bridge port is the one asked for, and no other bridge port changed. */
  lemma CreatePortEffect(s: State, e: Env, attrs: seq<PortAttr>, id: Oid)
    requires Valid(s) && id !in s.ports
    ensures var (st, t) := CreatePortSpec(s, e, attrs, id);
            if st == Success then
              && id in t.ports && t.ports == s.ports[id := t.ports[id]]
              && t.ports[id].users == 0 && AskedFor(s, e, attrs, t.ports[id].bridge, t.ports[id].at)
            else t.ports == s.ports
  {
    hide Valid, AskedFor, CreatePortSpec, Validate, Added;
    if CreatePortSpec(s, e, attrs, id).0 == Success {
      CreatedPort(s, e, attrs, id);
      var p := Validate(s, e, attrs).1.value;
      ValidatedIff(s, e, attrs, p);
      AddedParts(s, id, p);
    } else {
      FailedCreateRestores(s, e, attrs, id);
    }
  }

  /** A bridge port that no VLAN or multicast member uses is removed exactly when the NPU accepts each step. */
  lemma RemovePortEffect(s: State, e: Env, id: Oid, again: Oid)
    ensures var (st, t) := RemovePortSpec(s, e, id, again);
            && (st == Success <==>
                  && id in s.ports && s.ports[id].users == 0
                  && AllAccepted(if s.ports[id].at.SubPortAt? || s.ports[id].at.TunnelAt? then 3
                                 else 2, s.calls, e.verdict))
            && (id !in s.ports ==> st == InvalidObjectId)
            && (id in s.ports && s.ports[id].users > 0 ==> st == ObjectInUse)
            && (st == Success ==> t == Taken(s, id).(calls := t.calls))
            && t.ports == if st == Success then s.ports - {id} else s.ports
  {
    hide Incr, Decr, Unindex, Index, AllAccepted;
    AcceptedFrom(2, s.calls, e.verdict);
    AcceptedFrom(1, s.calls + 1, e.verdict);
    AcceptedFrom(0, s.calls + 2, e.verdict);
    AcceptedFrom(1, s.calls, e.verdict);
    AcceptedFrom(0, s.calls + 1, e.verdict);
    NoneAccepted(s.calls + 2, e.verdict);
    NoneAccepted(s.calls + 3, e.verdict);
    if id in s.ports {
      var p := s.ports[id];
      LinksKept(s.(calls := s.calls + 1), id, p);
      if RemovePortSpec(s, e, id, again).0 == Success {
        RemovedPort(s, e, id, again);
        TakenParts(s, id);
      }
    }
  }

  /** Links and index entries are no ports. */
  lemma LinksKept(s: State, id: Oid, p: BridgePort)
    ensures forall c :: Decr(s.(calls := c), id, p).calls == c && Decr(s.(calls := c), id, p).ports == s.ports
    ensures forall t: State :: Unindex(t, id, p.at).calls == t.calls && Unindex(t, id, p.at).ports == t.ports
    ensures forall t: State :: Index(t, id, p.at).calls == t.calls && Index(t, id, p.at).ports == t.ports
    ensures forall t: State :: Incr(t, id, p).calls == t.calls && Incr(t, id, p).ports == t.ports
  {
    hide AddBridgeRef, LagOf, TargetOf;
  }

  // ---------------------------------------------------------------------------------------------
  // Creating and removing a bridge
  // ---------------------------------------------------------------------------------------------

  function BridgeOptionCount(attrs: seq<BridgeAttr>): nat {
    if attrs == [] then 0 else BridgeOptionCount(attrs[1..]) + if attrs[0].BridgeOption? then 1 else 0
  }

  /** The last bridge type of the list. */
  ghost predicate TypeLast(attrs: seq<BridgeAttr>, is1Q: bool) {
    exists i :: 0 <= i < |attrs| && attrs[i] == BridgeType(is1Q) && forall j :: i < j < |attrs| ==>
      !attrs[j].BridgeType?
  }

  ghost predicate NoType(attrs: seq<BridgeAttr>) {
    forall i :: 0 <= i < |attrs| ==> !attrs[i].BridgeType?
  }

  /** No second 1Q bridge, no unknown type and no port list. */
  ghost predicate BridgeAcceptable(e: Env, a: BridgeAttr) {
    !a.BadBridgeType? && !a.BridgePortList? && (a == BridgeType(true) ==> e.defaultBridge == NULL_ID)
  }

  ghost predicate AllBridgeAcceptable(e: Env, attrs: seq<BridgeAttr>) {
    forall i :: 0 <= i < |attrs| ==> BridgeAcceptable(e, attrs[i])
  }

  lemma TypeLastTail(e: Env, attrs: seq<BridgeAttr>, is1Q: bool)
    requires attrs != []
    ensures NoType(attrs) <==> !attrs[0].BridgeType? && NoType(attrs[1..])
    ensures TypeLast(attrs, is1Q) <==>
      TypeLast(attrs[1..], is1Q) || (attrs[0] == BridgeType(is1Q) && NoType(attrs[1..]))
    ensures AllBridgeAcceptable(e, attrs) <==> BridgeAcceptable(e, attrs[0]) && AllBridgeAcceptable(e, attrs[1..])
    ensures TypeLast(attrs, is1Q) ==> !NoType(attrs)
  {
    var rest := attrs[1..];
    assert forall i :: 0 < i < |attrs| ==> attrs[i] == rest[i - 1];
    if i :| 0 <= i < |rest| && rest[i] == BridgeType(is1Q) && forall j :: i < j < |rest| ==> !rest[j].BridgeType? {
      assert attrs[i + 1] == BridgeType(is1Q);
    }
    if i :| 0 < i < |attrs| && attrs[i] == BridgeType(is1Q) && forall j :: i < j < |attrs| ==> !attrs[j].BridgeType? {
      assert rest[i - 1] == BridgeType(is1Q);
      assert forall j :: i - 1 < j < |rest| ==> !rest[j].BridgeType?;
    }
  }

  lemma {:induction false} ParsedBridge(e: Env, attrs: seq<BridgeAttr>, was: Option<bool>, is1Q: bool)
    ensures ParseBridge(e, attrs, was) == (Success, Some(is1Q))
       <==> AllBridgeAcceptable(e, attrs) && (TypeLast(attrs, is1Q) || (NoType(attrs) && was == Some(is1Q)))
    ensures ParseBridge(e, attrs, was).0 == Success ==> ParseBridge(e, attrs, was).1.Some?
    decreases |attrs|
  {
    if attrs == [] {
    } else {
      TypeLastTail(e, attrs, is1Q);
      if |attrs| > 1 {
        TypeLastTail(e, attrs[1..], is1Q);
      }
      hide TypeLast, NoType, AllBridgeAcceptable;
      match attrs[0] {
        case BridgeType(q) => ParsedBridge(e, attrs[1..], Some(q), is1Q);
        case _ => ParsedBridge(e, attrs[1..], was, is1Q);
      }
    }
  }

  lemma {:induction false} BridgeOptionsSet(attrs: seq<BridgeAttr>, calls: nat, v: nat -> bool)
    ensures SetBridgeOptions(attrs, calls, v).0 <==> AllAccepted(BridgeOptionCount(attrs), calls, v)
    decreases |attrs|
  {
    hide AllAccepted;
    if attrs == [] {
      NoneAccepted(calls, v);
    } else if attrs[0].BridgeOption? {
      AcceptedFrom(BridgeOptionCount(attrs[1..]), calls, v);
      BridgeOptionsSet(attrs[1..], calls + 1, v);
    } else {
      BridgeOptionsSet(attrs[1..], calls, v);
    }
  }

  /** A bridge with the type given last is created exactly when its attributes are acceptable and the NPU accepts. */
  lemma CreateBridgeEffect(s: State, e: Env, attrs: seq<BridgeAttr>, id: Oid, is1Q: bool)
    requires id !in s.bridges && TypeLast(attrs, is1Q)
    ensures var (st, t) := CreateBridgeSpec(s, e, attrs, id);
            && (st == Success <==>
                  AllBridgeAcceptable(e, attrs) && AllAccepted(2 + BridgeOptionCount(attrs), s.calls, e.verdict))
            && t == s.(bridges := t.bridges, calls := t.calls)
            && t.bridges == if st == Success then s.bridges[id := Bridge(is1Q, 0)] else s.bridges
  {
    hide TypeLast, AllBridgeAcceptable, ParseBridge, SetBridgeOptions, AllAccepted, BridgeOptionCount;
    ParsedBridge(e, attrs, None, is1Q);
    if ParseBridge(e, attrs, None).0 == Success {
      LastTypeOnly(e, attrs, is1Q);
    }
    AcceptedFrom(BridgeOptionCount(attrs) + 1, s.calls, e.verdict);
    AcceptedFrom(BridgeOptionCount(attrs), s.calls + 1, e.verdict);
    BridgeOptionsSet(attrs, s.calls + 2, e.verdict);
    assert s.bridges[id := Bridge(is1Q, 0)] - {id} == s.bridges;
  }

  lemma LastTypeOnly(e: Env, attrs: seq<BridgeAttr>, is1Q: bool)
    requires TypeLast(attrs, is1Q) && ParseBridge(e, attrs, None).0 == Success
    ensures ParseBridge(e, attrs, None).1 == Some(is1Q)
  {
    hide ParseBridge, AllBridgeAcceptable;
    ParsedBridge(e, attrs, None, is1Q);
    var found := ParseBridge(e, attrs, None).1.value;
    ParsedBridge(e, attrs, None, found);
    assert TypeLast(attrs, found);
    var i :| 0 <= i < |attrs| && attrs[i] == BridgeType(found) && forall j :: i < j < |attrs| ==> !attrs[j].BridgeType?;
    var k :| 0 <= k < |attrs| && attrs[k] == BridgeType(is1Q) && forall j :: k < j < |attrs| ==> !attrs[j].BridgeType?;
    assert i == k;
  }

  /** A bridge is removed exactly when it is there, is not the default one and has no port, and the NPU accepts. */
  lemma RemoveBridgeEffect(s: State, e: Env, id: Oid)
    requires Valid(s)
    ensures var (st, t) := RemoveBridgeSpec(s, e, id);
            && (st == Success <==>
                  && id in s.bridges && id != e.defaultBridge
                  && (forall p :: p in s.ports ==> s.ports[p].bridge != id)
                  && e.verdict(s.calls) && e.verdict(s.calls + 1))
            && (id in s.bridges && (exists p :: p in s.ports && s.ports[p].bridge == id) ==> st == ObjectInUse)
            && (id == e.defaultBridge ==> st == ObjectInUse)
            && t == s.(bridges := t.bridges, calls := t.calls)
            && t.bridges == if st == Success then s.bridges - {id} else s.bridges
  {
    hide TargetCounts, TypesFit, DefaultsExact, SubPortsExact, LagsExact, TunnelsExact, TunnelsOnce;
    if id in s.bridges {
      assert s.bridges[id].refCount == |PortsOf(s, id)|;
      if p :| p in s.ports && s.ports[p].bridge == id {
        assert p in PortsOf(s, id);
      } else {
        assert PortsOf(s, id) == {};
      }
    }
  }
}
