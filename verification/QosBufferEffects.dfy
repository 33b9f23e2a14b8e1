/**
 When each QoS buffer call on profiles and attachments succeeds, and what it leaves in the tables and in the
 NPU, in terms of the request and the tables before it.
 */
module QosBufferEffects {
  import opened Common
  import opened QosBufferState
  import opened QosBufferWalk
  import opened QosBufferSpec
  import opened QosBufferAttachments
  import opened QosBufferRefs
  import opened QosBufferHolding
  import opened QosBufferConservation
  import opened QosBufferHardware

  /** The NPU accepts the `n` calls from call `calls` on. */
  ghost predicate AllAccepted(n: int, calls: nat, v: nat -> bool) {
    forall i :: calls <= i < calls + n ==> v(i)
  }

  // ---------------------------------------------------------------------------------------------
  // Setting a profile attribute: when it succeeds
  // ---------------------------------------------------------------------------------------------

  /** A set succeeds exactly when it passes its checks and the NPU accepts one call for each target. */
  lemma SetProfileSucceeds(s: State, q: Oid, a: ProfileAttr, v: nat -> bool)
    requires Held(s) && q in s.profiles && !a.UnknownProfileAttr?
    ensures var p := s.profiles[q];
            var c := CheckSize(s, p, a, v);
            SetProfileSpec(s, q, a, v).0 == Success
            <==> CheckValue(s.pools, p, a) == Success && c.status == Success
                 && (a.ModeAttr? || AllAccepted(|Targets(p, a)|, c.calls, v))
  {
    hide Held, CheckSize, Push, Link, Unlink, SettleSpec, ThresholdValid, Targets, SetProfileField;
    var p := s.profiles[q];
    var c := CheckSize(s, p, a, v);
    HeldAttachments(s);
    CountsExact(s, q);
    PoolHeld(s, q);
    PushAccepted(p, a, OldAttr(p, a), s.hw, c.calls, v);
  }

  /**
   The targets of a PFC threshold are the attached priority groups, those of other attributes all attached
   objects.
   */
  lemma TargetCount(s: State, q: Oid, a: ProfileAttr)
    requires Held(s) && q in s.profiles
    ensures var p := s.profiles[q];
            |Targets(p, a)| == if IsPfc(a) then |p.pgs| else p.numRef
  {
    hide Held;
    HeldAttachments(s);
    CountsExact(s, q);
    TargetsDistinct(s.profiles[q], a);
  }

  /**
   A shared static threshold can be set exactly when the profile has the static mode of its own, or
   no mode of its own (or the inheriting one) and its pool has the static mode.
   */
  lemma StaticThresholdSet(s: State, q: Oid, x: u32, v: nat -> bool)
    requires Held(s) && q in s.profiles
    ensures var p := s.profiles[q];
            && p.poolId in s.pools
            && (SetProfileSpec(s, q, StaticThAttr(x), v).0 == Success
                <==> && (|| (p.thEnable && p.thMode == StaticTh)
                         || ((!p.thEnable || p.thMode == InheritPool) && s.pools[p.poolId].mode == StaticPool))
                     && AllAccepted(p.numRef, s.calls, v))
  {
    hide Held, SetProfileSpec, AllAccepted, Targets;
    PoolHeld(s, q);
    SetProfileSucceeds(s, q, StaticThAttr(x), v);
    TargetCount(s, q, StaticThAttr(x));
  }

  /** A shared dynamic threshold, correspondingly, with the dynamic mode. */
  lemma DynamicThresholdSet(s: State, q: Oid, x: int, v: nat -> bool)
    requires Held(s) && q in s.profiles
    ensures var p := s.profiles[q];
            && p.poolId in s.pools
            && (SetProfileSpec(s, q, DynamicThAttr(x), v).0 == Success
                <==> && (|| (p.thEnable && p.thMode == DynamicTh)
                         || ((!p.thEnable || p.thMode == InheritPool) && s.pools[p.poolId].mode == DynamicPool))
                     && AllAccepted(p.numRef, s.calls, v))
  {
    hide Held, SetProfileSpec, AllAccepted, Targets;
    PoolHeld(s, q);
    SetProfileSucceeds(s, q, DynamicThAttr(x), v);
    TargetCount(s, q, DynamicThAttr(x));
  }

  /** A shared threshold of the kind that is not wanted is refused before anything is asked or changed. */
  lemma ThresholdRefused(s: State, q: Oid, x: u32, y: int, v: nat -> bool)
    requires Held(s) && q in s.profiles
    ensures var p := s.profiles[q];
            && p.poolId in s.pools
            && var wantsStatic := if p.thEnable && p.thMode != InheritPool then p.thMode == StaticTh
                                  else s.pools[p.poolId].mode == StaticPool;
               var a := if wantsStatic then DynamicThAttr(y) else StaticThAttr(x);
               SetProfileSpec(s, q, a, v) == (InvalidAttribute, s)
  {
    hide Held;
    PoolHeld(s, q);
  }

  /** The mode of a profile can always be set: the NPU is not told. */
  lemma ModeSet(s: State, q: Oid, x: ProfileMode, v: nat -> bool)
    requires Held(s) && q in s.profiles
    ensures SetProfileSpec(s, q, ModeAttr(x), v).0 == Success
    ensures SetProfileSpec(s, q, ModeAttr(x), v).1.calls == s.calls
  {
    hide Held;
    PoolHeld(s, q);
  }

  /**
   An XON threshold needs an ingress pool, and that the NPU accepts it for each attached priority group.
   */
  lemma XonSet(s: State, q: Oid, x: u32, v: nat -> bool)
    requires Held(s) && q in s.profiles
    ensures var p := s.profiles[q];
            && p.poolId in s.pools
            && (SetProfileSpec(s, q, XonThAttr(x), v).0 == Success
                <==> s.pools[p.poolId].kind == Ingress && AllAccepted(|p.pgs|, s.calls, v))
  {
    hide Held, SetProfileSpec, AllAccepted, Targets;
    PoolHeld(s, q);
    SetProfileSucceeds(s, q, XonThAttr(x), v);
    TargetCount(s, q, XonThAttr(x));
  }

  /**
   A growing reservation needs the 32-bit product of count and growth in the shared bytes of the pool, and
   one NPU call more than a shrinking one.
   */
  ghost predicate Grows(s: State, p: Profile, was: u32, now: u32, targets: int, v: nat -> bool)
    requires p.poolId in s.pools
  {
    if now > was then
      && (p.numRef * (now - was)) % 0x1_0000_0000 <= s.pools[p.poolId].sharedSize
      && AllAccepted(targets + 1, s.calls, v)
    else AllAccepted(targets, s.calls, v)
  }

  lemma AcceptedFrom(n: int, calls: nat, v: nat -> bool)
    requires n >= 0
    ensures AllAccepted(n + 1, calls, v) <==> v(calls) && AllAccepted(n, calls + 1, v)
  {
  }

  lemma CheckedGrowth(s: State, p: Profile, was: u32, now: u32, targets: int, v: nat -> bool)
    requires p.poolId in s.pools && targets >= 0
    ensures var c := CheckGrowth(s, p, was, now, v);
            Grows(s, p, was, now, targets, v) <==> c.status == Success && AllAccepted(targets, c.calls, v)
  {
    hide AllAccepted;
    AcceptedFrom(targets, s.calls, v);
  }

  lemma SizeSet(s: State, q: Oid, x: u32, v: nat -> bool)
    requires Held(s) && q in s.profiles
    ensures var p := s.profiles[q];
            && p.poolId in s.pools
            && (SetProfileSpec(s, q, SizeAttr(x), v).0 == Success <==> Grows(s, p, p.size, x, p.numRef, v))
  {
    hide Held, SetProfileSpec, AllAccepted, Targets, Grows, CheckGrowth;
    PoolHeld(s, q);
    SetProfileSucceeds(s, q, SizeAttr(x), v);
    TargetCount(s, q, SizeAttr(x));
    CheckedGrowth(s, s.profiles[q], s.profiles[q].size, x, s.profiles[q].numRef, v);
  }

  /** An XOFF threshold reserves bytes only in a pool without an XOFF size of its own. */
  lemma XoffSet(s: State, q: Oid, x: u32, v: nat -> bool)
    requires Held(s) && q in s.profiles
    ensures var p := s.profiles[q];
            && p.poolId in s.pools
            && (SetProfileSpec(s, q, XoffThAttr(x), v).0 == Success
                <==> && s.pools[p.poolId].kind == Ingress
                     && (if s.pools[p.poolId].xoffSize > 0 then AllAccepted(|p.pgs|, s.calls, v)
                         else Grows(s, p, p.xoffTh, x, |p.pgs|, v)))
  {
    hide Held, SetProfileSpec, AllAccepted, Targets, Grows, CheckGrowth;
    PoolHeld(s, q);
    SetProfileSucceeds(s, q, XoffThAttr(x), v);
    TargetCount(s, q, XoffThAttr(x));
    CheckedGrowth(s, s.profiles[q], s.profiles[q].xoffTh, x, |s.profiles[q].pgs|, v);
  }

  /**
   A profile can move to a pool of the same direction, and of the same mode unless the profile has its own,
   in which the 32-bit product of its count and its bytes per object is shared.
   */
  lemma PoolIdSet(s: State, q: Oid, to: Oid, v: nat -> bool)
    requires Held(s) && q in s.profiles
    ensures var p := s.profiles[q];
            && p.poolId in s.pools
            && (SetProfileSpec(s, q, PoolIdAttr(to), v).0 == Success
                <==> && to in s.pools && s.pools[to].kind == s.pools[p.poolId].kind
                     && (p.thEnable || s.pools[to].mode == s.pools[p.poolId].mode)
                     && (p.numRef * (p.size + if s.pools[p.poolId].xoffSize > 0 then 0 else p.xoffTh)) % 0x1_0000_0000
                        <= s.pools[to].sharedSize
                     && AllAccepted(p.numRef, s.calls, v))
  {
    hide Held, SetProfileSpec, AllAccepted, Targets;
    PoolHeld(s, q);
    SetProfileSucceeds(s, q, PoolIdAttr(to), v);
    TargetCount(s, q, PoolIdAttr(to));
  }

  /** An attribute the code does not know, and a profile that is not there, are refused. */
  lemma SetProfileRefused(s: State, q: Oid, a: ProfileAttr, v: nat -> bool)
    requires a.UnknownProfileAttr? || q !in s.profiles
    ensures SetProfileSpec(s, q, a, v).0 != Success && SetProfileSpec(s, q, a, v).1 == s
  {
  }

  // ---------------------------------------------------------------------------------------------
  // Setting a profile attribute: what it leaves
  // ---------------------------------------------------------------------------------------------

  /** The one member of profile and setting that each attribute changes; the mode is not in the setting. */
  lemma SetProfileStores(s: State, q: Oid, a: ProfileAttr, v: nat -> bool)
    requires AttachmentsExact(s) && SetProfileSpec(s, q, a, v).0 == Success
    ensures var t := SetProfileSpec(s, q, a, v).1;
            && q in s.profiles && t.objects == s.objects
            && t.profiles == s.profiles[q := match a
                 case PoolIdAttr(x) => s.profiles[q].(poolId := x)
                 case SizeAttr(x) => s.profiles[q].(size := x)
                 case ModeAttr(x) => s.profiles[q].(thEnable := true, thMode := x)
                 case DynamicThAttr(x) => s.profiles[q].(dynamicTh := x)
                 case StaticThAttr(x) => s.profiles[q].(staticTh := x)
                 case XoffThAttr(x) => s.profiles[q].(xoffTh := x)
                 case XonThAttr(x) => s.profiles[q].(xonTh := x)
                 case UnknownProfileAttr => s.profiles[q]]
  {
    hide AttachmentsExact, SetProfileSpec, SettleSpec, CheckSize, FirstRewrite, Push, Link, Unlink;
    var c, s2 := SetProfileSteps(s, q, a, v);
    SettleSettings(s2, s.profiles[q].poolId, q, a, c.amount, c.isAdd, v);
    UpdatedObjects(s.(calls := c.calls), q, a, v);
  }

  lemma UpdatedObjects(s: State, q: Oid, a: ProfileAttr, v: nat -> bool)
    requires q in s.profiles
    ensures UpdateObjectsSpec(s, q, a, v).1.objects == s.objects
  {
    hide Push, UpdateNode;
  }

  /**
   Each attached object, and for a PFC threshold each attached priority group, has the new value, and nothing
   else changed.
   */
  lemma SetProfilePushes(s: State, q: Oid, a: ProfileAttr, v: nat -> bool, o: ObjId)
    requires AttachmentsExact(s) && SetProfileSpec(s, q, a, v).0 == Success && o in s.hw
    ensures var t := SetProfileSpec(s, q, a, v).1;
            && t.hw.Keys == s.hw.Keys
            && t.hw[o] ==
               if o !in s.objects || s.objects[o] != q || (!o.Pg? && (a.XoffThAttr? || a.XonThAttr?)) then s.hw[o]
               else match a
                 case PoolIdAttr(x) => s.hw[o].(poolId := x)
                 case SizeAttr(x) => s.hw[o].(size := x)
                 case DynamicThAttr(x) => s.hw[o].(dynamicTh := x)
                 case StaticThAttr(x) => s.hw[o].(staticTh := x)
                 case XoffThAttr(x) => s.hw[o].(xoffTh := x)
                 case XonThAttr(x) => s.hw[o].(xonTh := x)
                 case _ => s.hw[o]
  {
    hide AttachmentsExact, SetProfileSpec, SettleSpec, CheckSize, FirstRewrite, Push, UpdateNode, Targets;
    var c, s2 := SetProfileSteps(s, q, a, v);
    var p := s.profiles[q];
    CountsExact(s, q);
    SettleSettings(s2, p.poolId, q, a, c.amount, c.isAdd, v);
    PushAccepted(p, a, OldAttr(p, a), s.hw, c.calls, v);
    TargetAttached(s, q, a, o);
  }

  // ---------------------------------------------------------------------------------------------
  // Attaching and detaching
  // ---------------------------------------------------------------------------------------------

  /** The bytes one object attached to `p` takes, as the code computes them in 32 bits. */
  function BytesEach(s: State, p: Profile): int
    requires p.poolId in s.pools
  {
    (p.size + if s.pools[p.poolId].xoffSize > 0 then 0 else p.xoffTh) % 0x1_0000_0000
  }

  /** An attach or a detach that changes something, and succeeds, has told the NPU first. */
  lemma SetObjectSteps(s: State, o: ObjId, q: Oid, v: nat -> bool)
    requires o in s.objects && s.objects[o] != q && SetObjectSpec(s, o, q, v).0 == Success
    ensures var t := SetObjectSpec(s, o, q, v).1;
            && t.objects == s.objects[o := q] && t.hw == s.hw[o := HwSettingOf(s, q)]
            && t.profiles == Relinked(s, o, q).profiles
            && v(s.calls) && (q == NULL_ID || q in s.profiles)
  {
    hide CalcPoolSize, ChargePools, UnitSize, PoolOf, HwSettingOf, ObjectCompatible, Attached, Detached;
    var was := s.objects[o];
    var c := CalcPoolSize(s.pools, PoolOf(s, was), PoolOf(s, q), was == NULL_ID || !s.profiles[was].thEnable,
                          UnitSize(s, was), UnitSize(s, q));
    var s1 := Relinked(s.(hw := s.hw[o := HwSettingOf(s, q)], calls := s.calls + 1), o, q);
    ChargePoolsSettings(s1, PoolOf(s, was), PoolOf(s, q), c, UnitSize(s, was), UnitSize(s, q), v);
  }

  /**
   After an attach the object has the profile and the NPU its values; after a detach it has none and the NPU
   the default setting. No other object, and no setting of another object, changes.
   */
  lemma SetObjectEffect(s: State, o: ObjId, q: Oid, v: nat -> bool)
    requires Held(s)
    ensures var (st, t) := SetObjectSpec(s, o, q, v);
            if st == Success && s.objects[o] != q then
              && o in s.objects && t.objects == s.objects[o := q]
              && (q == NULL_ID ==> t.hw == s.hw[o := HwSetting(NULL_ID, 0, 0, 0, 0, 0)])
              && (q != NULL_ID ==>
                    && q in s.profiles
                    && var p := s.profiles[q];
                       t.hw == s.hw[o := HwSetting(p.poolId, p.size, p.dynamicTh, p.staticTh, p.xoffTh, p.xonTh)])
            else t == s.(calls := t.calls)
  {
    hide Held, Relinked, CalcPoolSize, ChargePools, UnitSize, PoolOf;
    HeldAttachments(s);
    if SetObjectSpec(s, o, q, v).0 == Success {
      NoNullProfile(s);
      if s.objects[o] != q {
        SetObjectSteps(s, o, q, v);
      }
    }
  }

  lemma NoNullProfile(s: State)
    requires Held(s)
    ensures NULL_ID !in s.profiles && NULL_ID !in s.pools
  {
  }

  /** A detach succeeds exactly when the NPU accepts it. */
  lemma DetachSucceeds(s: State, o: ObjId, v: nat -> bool)
    requires Held(s) && o in s.objects && s.objects[o] != NULL_ID
    ensures SetObjectSpec(s, o, NULL_ID, v).0 == Success <==> v(s.calls)
  {
    hide AttachmentsExact, Relinked, ChargePools;
    HeldAttachments(s);
    AttachedProfile(s, o);
    PoolHeld(s, s.objects[o]);
  }

  lemma AttachedProfile(s: State, o: ObjId)
    requires AttachmentsExact(s) && o in s.objects && s.objects[o] != NULL_ID
    ensures s.objects[o] in s.profiles && NULL_ID !in s.profiles
  {
    assert ObjectListed(s, o);
  }

  /**
   An attach of a new profile succeeds exactly when the profile is on the object's side, its pool shares the
   bytes that are missing, the pools are alike when the object moves between two, and the NPU accepts.
   */
  lemma AttachSucceeds(s: State, o: ObjId, q: Oid, v: nat -> bool)
    requires Held(s) && o in s.objects && q != NULL_ID && s.objects[o] != q
    ensures SetObjectSpec(s, o, q, v).0 == Success
       <==> && q in s.profiles && s.profiles[q].poolId in s.pools
            && (var to := s.pools[s.profiles[q].poolId];
                var need := BytesEach(s, s.profiles[q]);
                && (if to.kind == Egress then o.Queue? else o.Port? || o.Pg?)
                && if s.objects[o] == NULL_ID then need <= to.sharedSize
                   else
                     && s.objects[o] in s.profiles && s.profiles[s.objects[o]].poolId in s.pools
                     && var was := s.profiles[s.objects[o]];
                        if was.poolId == s.profiles[q].poolId then
                          && need - BytesEach(s, was) <= to.sharedSize
                          && BytesEach(s, was) - need <= to.sharedSize
                        else
                          && s.pools[was.poolId].kind == to.kind
                          && (was.thEnable || s.pools[was.poolId].mode == to.mode)
                          && need <= to.sharedSize)
            && v(s.calls)
  {
    hide AttachmentsExact, Relinked, ChargePools;
    HeldAttachments(s);
    NoNullProfile(s);
    if s.objects[o] != NULL_ID {
      AttachedProfile(s, o);
      PoolHeld(s, s.objects[o]);
    }
    if q in s.profiles {
      PoolHeld(s, q);
    }
  }

  /** Why an attach is refused; what is refused before the NPU is asked changes nothing. */
  lemma AttachRefused(s: State, o: ObjId, q: Oid, v: nat -> bool)
    requires Held(s) && q != NULL_ID && (o in s.objects ==> s.objects[o] != q)
    ensures var (st, t) := SetObjectSpec(s, o, q, v);
            if o !in s.objects || q !in s.profiles then (st, t) == (ItemNotFound, s)
            else
              && s.profiles[q].poolId in s.pools
              && var to := s.pools[s.profiles[q].poolId];
                 if !(if to.kind == Egress then o.Queue? else o.Port? || o.Pg?) then (st, t) == (InvalidParameter, s)
                 else if s.objects[o] == NULL_ID && BytesEach(s, s.profiles[q]) > to.sharedSize then
                   (st, t) == (InsufficientResources, s)
                 else if s.objects[o] == NULL_ID && !v(s.calls) then (st, t) == (NpuError, s.(calls := s.calls + 1))
                 else s.objects[o] == NULL_ID ==> st == Success
  {
    hide AttachmentsExact, Relinked, ChargePools;
    HeldAttachments(s);
    NoNullProfile(s);
    if q in s.profiles {
      PoolHeld(s, q);
    }
  }

  // ---------------------------------------------------------------------------------------------
  // Objects without a profile
  // ---------------------------------------------------------------------------------------------

  /** A push, undone or not, changes the settings of its targets only. */
  lemma PushKeepsOthers(p: Profile, a: ProfileAttr, hw: map<ObjId, HwSetting>, calls: nat, v: nat -> bool, o: ObjId)
    requires ProfileCounts(p) && o !in Targets(p, a)
    ensures var r := Push(p, a, OldAttr(p, a), hw, calls, v);
            r.hw.Keys == hw.Keys && (o in hw ==> r.hw[o] == hw[o])
  {
    hide OldAttr, WriteHw, Accepted;
    var t, was := Targets(p, a), OldAttr(p, a);
    var n := Accepted(|t|, calls, v);
    TargetsDistinct(p, a);
    if n < |t| {
      PrefixDistinct(t, n);
      FirstListsConcat(TargetLists(p, a), n);
      var undone, lost := UndoEffect(FirstLists(TargetLists(p, a), n), was, Written(hw, t[..n], a), calls + n + 1, v);
      assert o !in undone;
    }
  }

  /** A set changes the settings of the objects naming the profile only, whatever the NPU answers. */
  lemma SetProfileKeepsOthers(s: State, q: Oid, a: ProfileAttr, v: nat -> bool, o: ObjId)
    requires AttachmentsExact(s) && (o in s.objects ==> s.objects[o] != q)
    ensures var t := SetProfileSpec(s, q, a, v).1;
            t.objects == s.objects && t.hw.Keys == s.hw.Keys && (o in s.hw ==> t.hw[o] == s.hw[o])
  {
    hide AttachmentsExact, CheckSize, Push, ThresholdValid, Link, Unlink, SettleSpec, Targets;
    if q in s.profiles && !a.UnknownProfileAttr? {
      var p := s.profiles[q];
      var c := CheckSize(s, p, a, v);
      CountsExact(s, q);
      TargetAttached(s, q, a, o);
      PushKeepsOthers(p, a, s.hw, c.calls, v, o);
      var s2 := UpdateObjectsSpec(s.(calls := c.calls), q, a, v).1;
      if q in s2.profiles {
        SettleSettings(s2, p.poolId, q, a, c.amount, c.isAdd, v);
      }
    }
  }

  lemma SetProfileDefaults(s: State, q: Oid, a: ProfileAttr, v: nat -> bool)
    requires AttachmentsExact(s) && DefaultsHeld(s)
    ensures DefaultsHeld(SetProfileSpec(s, q, a, v).1)
  {
    OthersUnattached(s);
    hide AttachmentsExact, SetProfileSpec;
    if q !in s.profiles {
      SetProfileRefused(s, q, a, v);
    } else {
      SetProfileKeepsOthers(s, q, a, v, Other(0));
      var t := SetProfileSpec(s, q, a, v).1;
      forall o | o in s.objects && s.objects[o] == NULL_ID
        ensures t.hw[o] == s.hw[o]
      {
        SetProfileKeepsOthers(s, q, a, v, o);
      }
    }
  }

  lemma OtherCallsKeepSettings(s: State, r: Request, v: nat -> bool)
    requires !r.SetProfile? && !r.SetObject?
    ensures Step(s, r, v).1.objects == s.objects && Step(s, r, v).1.hw == s.hw
  {
    hide ApplyPoolAttrs, ValidateShared, Unlink, UpdateNodeAll, WellFormedAttrs, MandatoryThSpec, PfcSpec;
  }

  /** Every call, whatever the NPU answers, keeps the default setting for each object without a profile. */
  lemma StepDefaults(s: State, r: Request, v: nat -> bool)
    requires Held(s) && DefaultsHeld(s)
    ensures DefaultsHeld(Step(s, r, v).1)
  {
    hide Held, SetProfileSpec, SetObjectSpec;
    HeldAttachments(s);
    NoNullProfile(s);
    match r {
      case SetProfile(q, a) => SetProfileDefaults(s, q, a, v);
      case SetObject(o, q) => SetObjectEffect(s, o, q, v);
      case _ => OtherCallsKeepSettings(s, r, v);
    }
  }
}
