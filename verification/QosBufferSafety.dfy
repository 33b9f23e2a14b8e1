/**
 Safety of the QoS buffer calls: rejected requests change no table, admitted requests never run short,
 and objects, profiles and pools agree on their direction.
 */
module QosBufferSafety {
  import opened Common
  import opened QosBufferState
  import opened QosBufferWalk
  import opened QosBufferSpec
  import opened QosBufferAttachments
  import opened QosBufferRefs
  import opened QosBufferGap
  import opened QosBufferConservation

  // ---------------------------------------------------------------------------------------------
  // Rejected requests
  // ---------------------------------------------------------------------------------------------

  ghost predicate LateFailure(s: State, r: Request, v: nat -> bool) {
    r.CreateProfile? && LateCreateFailure(s, r.attrs, v)
  }

  ghost predicate SameTables(s: State, t: State) {
    s.pools == t.pools && s.profiles == t.profiles && s.objects == t.objects
  }

  /**
   Apart from a profile create that fails late, a request that does not succeed changes no pool, profile,
   list or count.
   */
  lemma RejectedUnchanged(s: State, r: Request, v: nat -> bool)
    requires Step(s, r, v).0 != Success
    ensures SameTables(s, Step(s, r, v).1) <==> !LateFailure(s, r, v)
  {
    hide CreatePoolSpec, RemovePoolSpec, SetPoolSpec, CreateProfileSpec, RemoveProfileSpec, SetProfileSpec,
         SetObjectSpec, LateCreateFailure;
    match r {
      case CreatePool(attrs, id) => CreatePoolRejected(s, attrs, id, v);
      case RemovePool(id) => RemovePoolRejected(s, id, v);
      case SetPool(id, a) => SetPoolRejected(s, id, a, v);
      case CreateProfile(attrs, id) => CreateProfileRejected(s, attrs, id, v);
      case RemoveProfile(id) => RemoveProfileRejected(s, id, v);
      case SetProfile(id, a) => SetProfileRejected(s, id, a, v);
      case SetObject(o, id) => SetObjectRejected(s, o, id, v);
    }
  }

  lemma CreatePoolRejected(s: State, attrs: seq<PoolAttr>, id: Oid, v: nat -> bool)
    requires CreatePoolSpec(s, attrs, id, v).0 != Success
    ensures SameTables(s, CreatePoolSpec(s, attrs, id, v).1)
  {
    hide ApplyPoolAttrs, ValidateShared;
  }

  lemma RemovePoolRejected(s: State, id: Oid, v: nat -> bool)
    requires RemovePoolSpec(s, id, v).0 != Success
    ensures SameTables(s, RemovePoolSpec(s, id, v).1)
  {
  }

  lemma SetPoolRejected(s: State, id: Oid, a: PoolAttr, v: nat -> bool)
    requires SetPoolSpec(s, id, a, v).0 != Success
    ensures SameTables(s, SetPoolSpec(s, id, a, v).1)
  {
    hide ApplyPoolAttrs, ValidateShared;
  }

  lemma CreateProfileRejected(s: State, attrs: seq<ProfileAttr>, id: Oid, v: nat -> bool)
    requires CreateProfileSpec(s, attrs, id, v).0 != Success
    ensures SameTables(s, CreateProfileSpec(s, attrs, id, v).1) <==> !LateCreateFailure(s, attrs, v)
  {
    hide UpdateNodeAll, WellFormedAttrs, MandatoryThSpec, PfcSpec;
    if WellFormedAttrs(attrs) && MandatoryThSpec(s.pools, attrs) == Success && PfcSpec(s.pools, attrs) == Success {
      CreatedNode(s, attrs, id);
      assert Link(s.pools, UpdateNodeAll(s.pools, NEW_PROFILE, id, attrs).2.poolId, id)
        [UpdateNodeAll(s.pools, NEW_PROFILE, id, attrs).2.poolId].numRef
          != s.pools[UpdateNodeAll(s.pools, NEW_PROFILE, id, attrs).2.poolId].numRef;
    }
  }

  lemma RemoveProfileRejected(s: State, q: Oid, v: nat -> bool)
    requires RemoveProfileSpec(s, q, v).0 != Success
    ensures SameTables(s, RemoveProfileSpec(s, q, v).1)
  {
  }

  lemma UpdateObjectsRejected(s: State, q: Oid, a: ProfileAttr, v: nat -> bool)
    requires q in s.profiles && !a.UnknownProfileAttr? && (a.PoolIdAttr? ==> a.poolId in s.pools)
    requires UpdateObjectsSpec(s, q, a, v).0 != Success
    ensures SameTables(s, UpdateObjectsSpec(s, q, a, v).1)
  {
    hide Push, Link, Unlink;
  }

  lemma SetProfileRejected(s: State, q: Oid, a: ProfileAttr, v: nat -> bool)
    requires SetProfileSpec(s, q, a, v).0 != Success
    ensures SameTables(s, SetProfileSpec(s, q, a, v).1)
  {
    hide CheckSize, UpdateObjectsSpec, SettleSpec, CheckValue;
    if !a.UnknownProfileAttr? && q in s.profiles && CheckValue(s.pools, s.profiles[q], a) == Success {
      var c := CheckSize(s, s.profiles[q], a, v);
      var s1 := s.(calls := c.calls);
      if a.PoolIdAttr? {
        CheckedPool(s.pools, s.profiles[q], a);
      }
      if UpdateObjectsSpec(s1, q, a, v).0 != Success {
        UpdateObjectsRejected(s1, q, a, v);
      }
    }
  }

  lemma SetObjectRejected(s: State, o: ObjId, q: Oid, v: nat -> bool)
    requires SetObjectSpec(s, o, q, v).0 != Success
    ensures SameTables(s, SetObjectSpec(s, o, q, v).1) && SetObjectSpec(s, o, q, v).1.hw == s.hw
  {
    hide CalcPoolSize, UnitSize, PoolOf, ObjectCompatible, Relinked, ChargePools;
  }

  // ---------------------------------------------------------------------------------------------
  // Admission
  // ---------------------------------------------------------------------------------------------

  /** The ignored status of a recalculation is either success or a rejected rewrite. */
  predicate NeverShort(st: Status) {
    st == Success || st == NpuError
  }

  lemma RecalcNeverShort(s: State, id: Oid, amount: u32, isAdd: bool, v: nat -> bool)
    ensures NeverShort(RecalcSpec(s, id, amount, isAdd, v).0)
      <==> id in s.pools && (isAdd ==> s.pools[id].sharedSize >= amount)
  {
    hide Wrap;
  }

  /** Once a profile attribute has passed its checks, no recalculation that follows reports a shortage. */
  lemma ProfileAdmissionSound(s: State, q: Oid, a: ProfileAttr, v: nat -> bool)
    requires Refs(s) && Conserved(s) && SetProfileSpec(s, q, a, v).0 == Success
    ensures q in s.profiles
    ensures var p := s.profiles[q];
            var c := CheckSize(s, p, a, v);
            var s2 := UpdateObjectsSpec(s.(calls := c.calls), q, a, v).1;
            if a.PoolIdAttr? then
              var (st, s3) := RecalcSpec(s2, p.poolId, c.amount, false, v);
              NeverShort(st) && NeverShort(RecalcSpec(s3, a.poolId, c.amount, true, v).0)
            else a.SizeAttr? || a.XoffThAttr? ==> NeverShort(RecalcSpec(s2, p.poolId, c.amount, c.isAdd, v).0)
  {
    hide Refs, Conserved, SetProfileSpec, Link, Unlink, RecalcSpec, ChargeOf, NeverShort, Wrap, UpdateObjectsSpec;
    var c, s2 := SetProfileSteps(s, q, a, v);
    var p := s.profiles[q];
    NamedPoolNotNull(s, q);
    if a.PoolIdAttr? {
      MoveAmount(s, q, a.poolId, v);
      MovedGap(s, q, a.poolId, s2, p.poolId);
      RecalcNeverShort(s2, p.poolId, c.amount, false, v);
      RecalcShared(s2, p.poolId, c.amount, v, a.poolId);
      RecalcNeverShort(RecalcSpec(s2, p.poolId, c.amount, false, v).1, a.poolId, c.amount, true, v);
    } else if a.SizeAttr? || a.XoffThAttr? {
      RecalcNeverShort(s2, p.poolId, c.amount, c.isAdd, v);
    }
  }

  /** A credit that fits in 32 bits leaves no pool with fewer shared bytes. */
  lemma RecalcShared(s: State, id: Oid, amount: u32, v: nat -> bool, x: Oid)
    requires id in s.pools && x in s.pools && s.pools[id].sharedSize + amount < TWO32
    ensures var t := RecalcSpec(s, id, amount, false, v).1;
            x in t.pools && t.pools[x].sharedSize >= s.pools[x].sharedSize
  {
    WrapSmall(s.pools[id].sharedSize + amount);
    hide Wrap;
  }

  /** The same for attaching: the charge of the new pool, or of the only pool, is never refused for lack of bytes. */
  lemma AttachAdmissionSound(s: State, o: ObjId, q: Oid, v: nat -> bool)
    requires Refs(s) && Conserved(s) && o in s.objects && s.objects[o] != q
    requires SetObjectSpec(s, o, q, v).0 == Success
    ensures var was := s.objects[o];
            var from, to := PoolOf(s, was), PoolOf(s, q);
            var c := CalcPoolSize(s.pools, from, to, true, UnitSize(s, was), UnitSize(s, q));
            var t := Relinked(s.(hw := s.hw[o := HwSettingOf(s, q)], calls := s.calls + 1), o, q);
            if from == to then NeverShort(RecalcSpec(t, from, c.amount, c.isAdd, v).0)
            else
              var t1 := if from != NULL_ID then RecalcSpec(t, from, UnitSize(s, was), false, v).1 else t;
              && (from != NULL_ID ==> NeverShort(RecalcSpec(t, from, UnitSize(s, was), false, v).0))
              && (to != NULL_ID ==> NeverShort(RecalcSpec(t1, to, UnitSize(s, q), true, v).0))
  {
    hide Refs, Conserved, ChargePools, RecalcSpec, Relinked, UnitSize, PoolsCompatible, ObjectCompatible, NeverShort,
         HwSettingOf, ExactUnit;
    var was := s.objects[o];
    var from, to := PoolOf(s, was), PoolOf(s, q);
    var s1 := s.(hw := s.hw[o := HwSettingOf(s, q)], calls := s.calls + 1);
    var t := Relinked(s1, o, q);
    RelinkedPoolsKept(s1, o, q);
    NoNullProfile(s);
    if was != NULL_ID {
      AttachedUnitFits(s, o);
    }
    if q != NULL_ID {
      NamedPoolNotNull(s, q);
    }
    if from == to {
      RecalcNeverShort(t, from, if UnitSize(s, q) > UnitSize(s, was) then UnitSize(s, q) - UnitSize(s, was)
                       else UnitSize(s, was) - UnitSize(s, q),
                       UnitSize(s, q) > UnitSize(s, was), v);
    } else {
      RecalcNeverShort(t, from, UnitSize(s, was), false, v);
      var t1 := if from != NULL_ID then RecalcSpec(t, from, UnitSize(s, was), false, v).1 else t;
      if from != NULL_ID && to != NULL_ID {
        RecalcShared(t, from, UnitSize(s, was), v, to);
      }
      RecalcNeverShort(t1, to, UnitSize(s, q), true, v);
    }
  }
}
