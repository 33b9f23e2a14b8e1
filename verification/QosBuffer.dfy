/** The QoS buffer calls over mutable tables. Each call is one atomic step. */
module QosBuffer {
  import opened Common
  import opened QosBufferState
  import opened QosBufferWalk
  import opened QosBufferSpec
  import opened QosBufferAttachments

  class BufferTables {
    const verdict: nat -> bool
    var pools: map<Oid, Pool>
    var profiles: map<Oid, Profile>
    var objects: map<ObjId, Oid>
    var hw: map<ObjId, HwSetting>
    var calls: nat

    ghost function Tables(): State
      reads this
    {
      State(pools, profiles, objects, hw, calls)
    }

    /** The lists and the count of every profile are exactly the objects naming it; every call keeps this. */
    ghost predicate Valid()
      reads this
    {
      AttachmentsExact(Tables())
    }

    constructor (objs: set<ObjId>, verdict: nat -> bool)
      ensures Valid() && this.verdict == verdict
      ensures Tables() == State(map[], map[], map o | o in objs :: NULL_ID, map o | o in objs :: DEFAULT_HW, 0)
    {
      this.verdict := verdict;
      pools, profiles, calls := map[], map[], 0;
      objects := map o | o in objs :: NULL_ID;
      hw := map o | o in objs :: DEFAULT_HW;
    }

    /** Any NPU call: the oracle answers. */
    method AskNpu() returns (ok: bool)
      modifies this`calls
      ensures ok == verdict(old(calls)) && calls == old(calls) + 1
    {
      ok := verdict(calls);
      calls := calls + 1;
    }

    // -------------------------------------------------------------------------------------------
    // Pools
    // -------------------------------------------------------------------------------------------

    method UpdatePoolNode(node: Pool, attrs: seq<PoolAttr>) returns (st: Status, p: Pool)
      ensures (st, p) == ApplyPoolAttrs(node, attrs, false)
    {
      p := node;
      var xoffSeen, i := false, 0;
      assert attrs[i..] == attrs;
      while i < |attrs|
        invariant 0 <= i <= |attrs|
        invariant ApplyPoolAttrs(p, attrs[i..], xoffSeen) == ApplyPoolAttrs(node, attrs, false)
      {
        var a := attrs[i];
        assert attrs[i..][1..] == attrs[i + 1..];
        if a.SharedSizeAttr? {
          return InvalidAttribute, p;
        } else if a.UnknownPoolAttr? {
          return UnknownAttribute, p;
        }
        p := SetPoolField(p, a);
        xoffSeen := xoffSeen || a.XoffSizeAttr?;
        i := i + 1;
      }
      st := if xoffSeen && p.kind == Egress then InvalidAttribute else Success;
    }

    method CreatePool(attrs: seq<PoolAttr>, id: Oid) returns (st: Status)
      requires Valid() && FreshIds(Tables(), Request.CreatePool(attrs, id))
      modifies this
      ensures (st, Tables()) == CreatePoolSpec(old(Tables()), attrs, id, verdict)
      ensures Valid()
    {
      hide AttachmentsExact;
      StepAttachments(Tables(), Request.CreatePool(attrs, id), verdict);
      if attrs == [] {
        return InvalidParameter;
      }
      var p;
      st, p := UpdatePoolNode(NEW_POOL, attrs);
      if st != Success {
        return;
      }
      var checked := ValidateShared(None, p);
      if checked.0 != Success {
        return checked.0;
      }
      var ok := AskNpu();
      if !ok {
        return NpuError;
      }
      pools := pools[id := checked.1];
    }

    method RemovePool(id: Oid) returns (st: Status)
      requires Valid()
      modifies this
      ensures (st, Tables()) == RemovePoolSpec(old(Tables()), id, verdict)
      ensures Valid()
    {
      hide AttachmentsExact;
      StepAttachments(Tables(), Request.RemovePool(id), verdict);
      if id !in pools {
        return ItemNotFound;
      }
      if pools[id].numRef != 0 {
        return ObjectInUse;
      }
      var ok := AskNpu();
      if !ok {
        return NpuError;
      }
      pools := pools - {id};
      st := Success;
    }

    method SetPool(id: Oid, a: PoolAttr) returns (st: Status)
      requires Valid()
      modifies this
      ensures (st, Tables()) == SetPoolSpec(old(Tables()), id, a, verdict)
      ensures Valid()
    {
      hide AttachmentsExact;
      StepAttachments(Tables(), Request.SetPool(id, a), verdict);
      if id !in pools {
        return ItemNotFound;
      }
      var p;
      st, p := UpdatePoolNode(pools[id], [a]);
      if st != Success {
        return;
      }
      match a
      case XoffSizeAttr(_) =>
        if p.kind != Ingress {
          return AttrNotSupported;
        }
        var ok := AskNpu();
        st := if ok then Success else NpuError;
      case PoolSizeAttr(_) =>
        var checked := ValidateShared(Some(pools[id]), p);
        if checked.0 != Success {
          return checked.0;
        }
        var ok := AskNpu();
        if !ok {
          return NpuError;
        }
        pools := pools[id := checked.1];
      case _ =>
        st := InvalidAttribute;
    }

    method Recalc(id: Oid, amount: u32, isAdd: bool) returns (st: Status)
      modifies this
      ensures (st, Tables()) == RecalcSpec(old(Tables()), id, amount, isAdd, verdict)
    {
      if id !in pools {
        return ItemNotFound;
      }
      var pool := pools[id];
      if isAdd {
        if pool.sharedSize < amount {
          return InsufficientResources;
        }
        pools := pools[id := pool.(sharedSize := pool.sharedSize - amount)];
      } else {
        pools := pools[id := pool.(sharedSize := Wrap(pool.sharedSize + amount))];
      }
      var ok := AskNpu();
      if !ok {
        var now := pools[id];
        var shared := if isAdd then now.sharedSize + amount else now.sharedSize - amount;
        assert Wrap(shared) == pool.sharedSize;
        pools := pools[id := now.(sharedSize := Wrap(shared))];
        assert pools == old(pools);
        return NpuError;
      }
      st := Success;
    }

    // -------------------------------------------------------------------------------------------
    // Profiles
    // -------------------------------------------------------------------------------------------

    method CheckMandatoryTh(attrs: seq<ProfileAttr>) returns (st: Status)
      ensures st == MandatoryThSpec(pools, attrs)
    {
      var pool: Option<Oid>, mode: Option<ProfileMode> := None, None;
      var isStatic, isDynamic := false, false;
      for i := 0 to |attrs|
        invariant pool == ListedPool(attrs[..i]) && mode == ListedMode(attrs[..i])
        invariant isStatic <==> HasStatic(attrs[..i])
        invariant isDynamic <==> HasDynamic(attrs[..i])
      {
        assert attrs[..i + 1][..i] == attrs[..i] && attrs[..i + 1][i] == attrs[i];
        match attrs[i]
        case PoolIdAttr(id) => pool := Some(id);
        case ModeAttr(m) => mode := Some(m);
        case StaticThAttr(_) => isStatic := true;
        case DynamicThAttr(_) => isDynamic := true;
        case _ =>
        assert HasStatic(attrs[..i + 1]) <==> HasStatic(attrs[..i]) || attrs[i].StaticThAttr?;
        assert HasDynamic(attrs[..i + 1]) <==> HasDynamic(attrs[..i]) || attrs[i].DynamicThAttr?;
      }
      assert attrs[..|attrs|] == attrs;
      if pool == None || pool.value !in pools {
        return InvalidAttrValue;
      }
      if isDynamic && isStatic {
        return InvalidParameter;
      }
      var poolMode := pools[pool.value].mode;
      var wanted := if mode == None || mode.value == InheritPool then
        (if poolMode == StaticPool then StaticTh else DynamicTh)
                    else mode.value;
      if (wanted == StaticTh && !isStatic) || (wanted == DynamicTh && !isDynamic) {
        return MandatoryAttributeMissing;
      }
      st := Success;
    }

    method CheckPfc(attrs: seq<ProfileAttr>) returns (st: Status)
      ensures st == PfcSpec(pools, attrs)
    {
      var pool: Option<Oid> := None;
      var pfc := false;
      for i := 0 to |attrs|
        invariant pool == ListedPool(attrs[..i])
        invariant pfc <==> HasPfc(attrs[..i])
      {
        assert attrs[..i + 1][..i] == attrs[..i] && attrs[..i + 1][i] == attrs[i];
        if attrs[i].PoolIdAttr? {
          pool := Some(attrs[i].poolId);
        }
        if IsPfc(attrs[i]) {
          pfc := true;
        }
        assert HasPfc(attrs[..i + 1]) <==> HasPfc(attrs[..i]) || IsPfc(attrs[i]);
      }
      assert attrs[..|attrs|] == attrs;
      if pool == None || pool.value !in pools {
        return InvalidParameter;
      }
      st := if pfc && pools[pool.value].kind == Egress then InvalidAttribute else Success;
    }

    method UpdateProfileNode(node: Profile, q: Oid, attrs: seq<ProfileAttr>) returns (st: Status, p: Profile)
      modifies this`pools
      ensures (st, pools, p) == UpdateNodeAll(old(pools), node, q, attrs)
    {
      p := node;
      var i := 0;
      assert attrs[i..] == attrs;
      while i < |attrs|
        invariant 0 <= i <= |attrs|
        decreases |attrs| - i
        invariant UpdateNodeAll(pools, p, q, attrs[i..]) == UpdateNodeAll(old(pools), node, q, attrs)
      {
        assert attrs[i..][1..] == attrs[i + 1..];
        match attrs[i] {
        case PoolIdAttr(id) =>
          if id !in pools {
            return ItemNotFound, p;
          }
          if p.poolId != NULL_ID {
            pools := Unlink(pools, p.poolId, q);
          }
          p := p.(poolId := id);
          pools := Link(pools, id, q);
        case UnknownProfileAttr =>
          return UnknownAttribute, p;
        case a =>
          p := SetProfileField(p, a);
        }
        i := i + 1;
      }
      st := Success;
    }

    method CreateProfile(attrs: seq<ProfileAttr>, id: Oid) returns (st: Status)
      requires Valid() && FreshIds(Tables(), Request.CreateProfile(attrs, id))
      modifies this
      ensures (st, Tables()) == CreateProfileSpec(old(Tables()), attrs, id, verdict)
      ensures Valid()
    {
      hide AttachmentsExact;
      StepAttachments(Tables(), Request.CreateProfile(attrs, id), verdict);
      if !WellFormedAttrs(attrs) {
        return InvalidParameter;
      }
      st := CheckMandatoryTh(attrs);
      if st != Success {
        return;
      }
      st := CheckPfc(attrs);
      if st != Success {
        return;
      }
      var p;
      st, p := UpdateProfileNode(NEW_PROFILE, id, attrs);
      if st != Success {
        return;
      }
      var ok := AskNpu();
      if !ok {
        return NpuError;
      }
      profiles := profiles[id := p];
    }

    method RemoveProfile(q: Oid) returns (st: Status)
      requires Valid()
      modifies this
      ensures (st, Tables()) == RemoveProfileSpec(old(Tables()), q, verdict)
      ensures Valid()
    {
      hide AttachmentsExact;
      StepAttachments(Tables(), Request.RemoveProfile(q), verdict);
      if q !in profiles {
        return ItemNotFound;
      }
      if profiles[q].numRef != 0 {
        return ObjectInUse;
      }
      var ok := AskNpu();
      if !ok {
        return NpuError;
      }
      pools := Unlink(pools, profiles[q].poolId, q);
      profiles := profiles - {q};
      st := Success;
    }

    // -------------------------------------------------------------------------------------------
    // Setting a profile attribute
    // -------------------------------------------------------------------------------------------

    /** One pass over an attachment list, visiting `part`. `failedAt` is the object the NPU rejected. */
    method UpdateList(l: seq<ObjId>, a: ProfileAttr, stop: Option<ObjId>, ghost part: seq<ObjId>)
      returns (failedAt: Option<ObjId>)
      requires Visits(l, stop, part)
      modifies this`hw, this`calls
      ensures hw == WalkHw(part, a, old(hw), old(calls), verdict)
      ensures calls == CallsAfter(|part|, old(calls), verdict)
      ensures var k := Accepted(|part|, old(calls), verdict);
              failedAt == if k == |part| then None else Some(part[k])
    {
      var i := 0;
      while i < |l| && stop != Some(l[i])
        invariant 0 <= i <= |part|
        invariant hw == Written(old(hw), part[..i], a)
        invariant calls == old(calls) + i
        invariant forall j :: old(calls) <= j < calls ==> verdict(j)
      {
        var o := l[i];
        var ok := AskNpu();
        assert o == part[i];
        if !ok {
          AcceptedIs(|part|, i, old(calls), verdict);
          return Some(o);
        }
        if o in hw {
          hw := hw[o := WriteHw(hw[o], a)];
        }
        assert part[..i + 1] == part[..i] + [o];
        WrittenOnce(old(hw), part[..i], o, a);
        i := i + 1;
      }
      AcceptedIs(|part|, |part|, old(calls), verdict);
      failedAt := None;
    }

    /** Walks ports, queues and priority groups; a rejection undoes the walks made so far, in the same order. */
    method PushAll(l: seq<ObjId>, m: seq<ObjId>, g: seq<ObjId>, a: ProfileAttr, was: ProfileAttr) returns (ok: bool)
      requires Distinct(l) && Distinct(m) && Distinct(g)
      modifies this`hw, this`calls
      ensures PushResult(ok, hw, calls) == PushLists(ThreeLists(l, m, g), a, was, old(hw), old(calls), verdict)
    {
      ghost var hw0, c0 := hw, calls;
      var portStop := UpdateList(l, a, None, l);
      if portStop != None {
        ghost var k := Accepted(|l|, c0, verdict);
        VisitsBefore(l, k);
        RejectedInFirst(l, m, g, a, was, hw0, c0, verdict, k);
        var _ := UpdateList(l, was, portStop, l[..k]);
        return false;
      }
      ok := PushAfterPorts(l, m, g, a, was, hw0, c0);
    }

    method PushAfterPorts(l: seq<ObjId>, m: seq<ObjId>, g: seq<ObjId>, a: ProfileAttr, was: ProfileAttr,
                          ghost hw0: map<ObjId, HwSetting>, ghost c0: nat) returns (ok: bool)
      requires Distinct(m) && Distinct(g)
      requires Unrejected(l, c0, verdict) && hw == WalkHw(l, a, hw0, c0, verdict) && calls == c0 + |l|
      modifies this`hw, this`calls
      ensures PushResult(ok, hw, calls) == PushLists(ThreeLists(l, m, g), a, was, hw0, c0, verdict)
    {
      ghost var c1 := calls;
      var queueStop := UpdateList(m, a, None, m);
      if queueStop != None {
        ghost var k := Accepted(|m|, c1, verdict);
        VisitsBefore(m, k);
        RejectedInSecond(l, m, g, a, was, hw0, c0, verdict, c1, k);
        UndoPortsAndQueues(l, m, was, queueStop, m[..k]);
        return false;
      }
      ok := PushAfterQueues(l, m, g, a, was, hw0, c0);
    }

    method PushAfterQueues(l: seq<ObjId>, m: seq<ObjId>, g: seq<ObjId>, a: ProfileAttr, was: ProfileAttr,
                           ghost hw0: map<ObjId, HwSetting>, ghost c0: nat) returns (ok: bool)
      requires Distinct(g)
      requires Unrejected(l, c0, verdict) && Unrejected(m, c0 + |l|, verdict) && calls == c0 + |l| + |m|
      requires hw == WalkHw(m, a, WalkHw(l, a, hw0, c0, verdict), c0 + |l|, verdict)
      modifies this`hw, this`calls
      ensures PushResult(ok, hw, calls) == PushLists(ThreeLists(l, m, g), a, was, hw0, c0, verdict)
    {
      ghost var c2 := calls;
      var pgStop := UpdateList(g, a, None, g);
      if pgStop != None {
        ghost var k := Accepted(|g|, c2, verdict);
        VisitsBefore(g, k);
        RejectedInThird(l, m, g, a, was, hw0, c0, verdict, c2, k);
        UndoPortsQueuesAndPgs(l, m, g, was, pgStop, g[..k]);
        return false;
      }
      NoneRejected(l, m, g, a, was, hw0, c0, verdict);
      ok := true;
    }

    method UndoPortsAndQueues(l: seq<ObjId>, m: seq<ObjId>, was: ProfileAttr, queueStop: Option<ObjId>,
                              ghost part: seq<ObjId>)
      requires Visits(m, queueStop, part)
      modifies this`hw, this`calls
      ensures PushResult(false, hw, calls) == Undo(Then(l, Then(part, End)), was, old(hw), old(calls), verdict)
    {
      var _ := UpdateList(l, was, None, l);
      assert Undo(Then(l, Then(part, End)), was, old(hw), old(calls), verdict)
        == Undo(Then(part, End), was, hw, calls, verdict);
      UndoLast(part, was, hw, calls, verdict);
      var _ := UpdateList(m, was, queueStop, part);
    }

    method UndoPortsQueuesAndPgs(l: seq<ObjId>, m: seq<ObjId>, g: seq<ObjId>, was: ProfileAttr,
                                 pgStop: Option<ObjId>, ghost part: seq<ObjId>)
      requires Visits(g, pgStop, part)
      modifies this`hw, this`calls
      ensures PushResult(false, hw, calls) == Undo(Then(l, Then(m, Then(part, End))), was, old(hw), old(calls), verdict)
    {
      ghost var rest := Then(m, Then(part, End));
      var _ := UpdateList(l, was, None, l);
      assert Undo(Then(l, rest), was, old(hw), old(calls), verdict) == Undo(rest, was, hw, calls, verdict);
      UndoPortsAndQueues(m, g, was, pgStop, part);
    }

    /** Walks the priority groups only. */
    method PushPfc(g: seq<ObjId>, a: ProfileAttr, was: ProfileAttr) returns (ok: bool)
      requires Distinct(g)
      modifies this`hw, this`calls
      ensures PushResult(ok, hw, calls) == PushLists(Then(g, End), a, was, old(hw), old(calls), verdict)
    {
      ghost var hw0, c0 := hw, calls;
      var pgStop := UpdateList(g, a, None, g);
      if pgStop != None {
        ghost var k := Accepted(|g|, c0, verdict);
        VisitsBefore(g, k);
        RejectedInOnly(g, a, was, hw0, c0, verdict, k);
        var _ := UpdateList(g, was, pgStop, g[..k]);
        return false;
      }
      OnlyUnrejected(g, a, was, hw0, c0, verdict);
      ok := true;
    }

    /** Pushes `a` to all attached objects and stores it in the node, or undoes the push. */
    method UpdateProfileObjects(q: Oid, a: ProfileAttr) returns (st: Status)
      requires q in profiles && ProfileCounts(profiles[q])
      requires !a.UnknownProfileAttr? && (a.PoolIdAttr? ==> a.poolId in pools)
      modifies this
      ensures (st, Tables()) == UpdateObjectsSpec(old(Tables()), q, a, verdict)
    {
      var p := profiles[q];
      var was := OldAttr(p, a);
      if a.ModeAttr? {
        profiles := profiles[q := SetProfileField(p, a)];
        return Success;
      }
      var ok;
      if IsPfc(a) {
        ok := PushPfc(p.pgs, a, was);
      } else {
        ok := PushAll(p.ports, p.queues, p.pgs, a, was);
      }
      if !ok {
        return NpuError;
      }
      assert [a][1..] == [];
      st, p := UpdateProfileNode(p, q, [a]);
      profiles := profiles[q := p];
    }

    method SetProfile(q: Oid, a: ProfileAttr) returns (st: Status)
      requires Valid()
      modifies this
      ensures (st, Tables()) == SetProfileSpec(old(Tables()), q, a, verdict)
      ensures Valid()
    {
      hide AttachmentsExact;
      StepAttachments(Tables(), Request.SetProfile(q, a), verdict);
      if q in profiles {
        CountsExact(Tables(), q);
      }
      if a.UnknownProfileAttr? {
        return UnknownAttribute;
      }
      if q !in profiles {
        return ItemNotFound;
      }
      var p := profiles[q];
      if a.ModeAttr? && !p.thEnable && p.poolId !in pools {
        return Failure;
      }
      var oldPool := p.poolId;
      st := CheckValue(pools, p, a);
      if st != Success {
        return;
      }
      var amount, isAdd;
      st, amount, isAdd := CheckBufferSize(p, a);
      if st != Success {
        return;
      }
      st := UpdateProfileObjects(q, a);
      if st != Success {
        return;
      }
      if a.PoolIdAttr? {
        var _ := Recalc(oldPool, amount, false);
        var _ := Recalc(a.poolId, amount, true);
      }
      if a.SizeAttr? || a.XoffThAttr? {
        var _ := Recalc(profiles[q].poolId, amount, isAdd);
      }
    }

    method CheckBufferSize(p: Profile, a: ProfileAttr) returns (st: Status, amount: u32, isAdd: bool)
      modifies this`calls
      ensures SizeCheck(st, amount, isAdd, calls) == CheckSize(old(Tables()), p, a, verdict)
    {
      st, amount, isAdd := Success, 0, false;
      match a
      case PoolIdAttr(id) =>
        amount := Wrap(p.numRef * (p.size + ReservedXoff(pools, p)));
        if !PoolAvailable(pools, id, amount) {
          st := InsufficientResources;
        }
      case SizeAttr(x) =>
        st, amount, isAdd := CheckGrowthInPool(p, p.size, x);
      case XoffThAttr(x) =>
        if XoffConfigured(pools, p.poolId) {
          isAdd := true;
        } else {
          st, amount, isAdd := CheckGrowthInPool(p, p.xoffTh, x);
        }
      case _ =>
    }

    method CheckGrowthInPool(p: Profile, was: u32, now: u32) returns (st: Status, amount: u32, isAdd: bool)
      modifies this`calls
      ensures SizeCheck(st, amount, isAdd, calls) == CheckGrowth(old(Tables()), p, was, now, verdict)
    {
      st, isAdd := Success, false;
      if now > was {
        amount := Wrap(p.numRef * (now - was));
        if !PoolAvailable(pools, p.poolId, amount) {
          return InsufficientResources, amount, false;
        }
        var ok := AskNpu();
        if !ok {
          return InsufficientResources, amount, false;
        }
        isAdd := true;
      } else {
        amount := Wrap(p.numRef * (was - now));
      }
    }

    // -------------------------------------------------------------------------------------------
    // Attaching a profile to a port, queue or priority group
    // -------------------------------------------------------------------------------------------

    /** Moves the node of `o` from its old profile's list to the new one's, with both counts. */
    method UpdateObjectNode(o: ObjId, q: Oid) returns (st: Status)
      requires o in objects && (objects[o] != NULL_ID ==> objects[o] in profiles)
      modifies this`profiles, this`objects
      ensures st == if q != NULL_ID && q !in profiles then ItemNotFound else if o.Other? then InvalidObjectType
        else Success
      ensures Tables() == if st == Success then Relinked(old(Tables()), o, q) else old(Tables())
    {
      if q != NULL_ID && q !in profiles {
        return ItemNotFound;
      }
      if o.Other? {
        return InvalidObjectType;
      }
      var was := objects[o];
      objects := objects[o := q];
      if was != NULL_ID {
        var p := profiles[was];
        profiles := profiles[was := WithListFor(p, o, Without(ListFor(p, o), o)).(numRef := p.numRef - 1)];
      }
      if q != NULL_ID {
        var p := profiles[q];
        profiles := profiles[q := WithListFor(p, o, ListFor(p, o) + [o]).(numRef := p.numRef + 1)];
      }
      st := Success;
    }

    /** Attaches profile `q` to `o`, or detaches its profile when `q` is null. */
    method SetObject(o: ObjId, q: Oid) returns (st: Status)
      requires Valid()
      modifies this
      ensures (st, Tables()) == SetObjectSpec(old(Tables()), o, q, verdict)
      ensures Valid()
    {
      hide AttachmentsExact, CalcPoolSize, Relinked, ChargePools, ReservedXoff, Wrap;
      StepAttachments(Tables(), Request.SetObject(o, q), verdict);
      OthersUnattached(Tables());
      if o !in objects {
        return ItemNotFound;
      }
      var was := objects[o];
      if was == q {
        return Success;
      }
      var newSize: u32, oldSize: u32, newPool, oldPool := 0, 0, NULL_ID, NULL_ID;
      var newHw, checkTh := DEFAULT_HW, true;
      if q != NULL_ID {
        if q !in profiles {
          return ItemNotFound;
        }
        if !ObjectCompatible(pools, o, profiles[q]) {
          return InvalidParameter;
        }
        newSize := Wrap(profiles[q].size + ReservedXoff(pools, profiles[q]));
        newPool := profiles[q].poolId;
        newHw := HwOf(profiles[q]);
      }
      if was != NULL_ID {
        if was !in profiles {
          return ItemNotFound;
        }
        oldSize := Wrap(profiles[was].size + ReservedXoff(pools, profiles[was]));
        oldPool := profiles[was].poolId;
        checkTh := !profiles[was].thEnable;
      }
      var c := CalcPoolSize(pools, oldPool, newPool, checkTh, oldSize, newSize);
      assert c == CalcPoolSize(pools, PoolOf(Tables(), was), PoolOf(Tables(), q), checkTh, UnitSize(Tables(), was),
                               UnitSize(Tables(), q));
      if c.status != Success {
        return c.status;
      }
      var ok := AskNpu();
      if !ok {
        return NpuError;
      }
      hw := hw[o := newHw];
      ghost var s1 := Tables();
      st := UpdateObjectNode(o, q);
      assert Tables() == Relinked(s1, o, q);
      RecalcPools(oldPool, newPool, c, oldSize, newSize);
    }

    method RecalcPools(oldPool: Oid, newPool: Oid, c: PoolCalc, oldSize: u32, newSize: u32)
      modifies this
      ensures Tables() == ChargePools(old(Tables()), oldPool, newPool, c, oldSize, newSize, verdict)
    {
      if oldPool == newPool {
        var _ := Recalc(oldPool, c.amount, c.isAdd);
      } else {
        if oldPool != NULL_ID {
          var _ := Recalc(oldPool, oldSize, false);
        }
        if newPool != NULL_ID {
          var _ := Recalc(newPool, newSize, true);
        }
      }
    }

    lemma WrittenOnce(was: map<ObjId, HwSetting>, done: seq<ObjId>, o: ObjId, a: ProfileAttr)
      ensures var now := Written(was, done, a);
              (if o in now then now[o := WriteHw(now[o], a)] else now) == Written(was, done + [o], a)
    {
    }
  }
}
