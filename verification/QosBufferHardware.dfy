/** Hardware agreement over every QoS buffer call: the NPU holds, for each attached object, what its profile says. */
module QosBufferHardware {
  import opened Common
  import opened QosBufferState
  import opened QosBufferWalk
  import opened QosBufferSpec
  import opened QosBufferAttachments
  import opened QosBufferRefs
  import opened QosBufferConservation
  import opened QosBufferSafety

  // ---------------------------------------------------------------------------------------------
  // Calls that leave the settings alone
  // ---------------------------------------------------------------------------------------------

  lemma SameSettings(s: State, t: State)
    requires HwSynced(s) && t.objects == s.objects && t.hw == s.hw
    requires forall q :: q in t.profiles ==> q in s.profiles && t.profiles[q] == s.profiles[q]
    ensures HwSynced(t)
  {
  }

  lemma RecalcSettings(s: State, id: Oid, amount: u32, isAdd: bool, v: nat -> bool)
    ensures var t := RecalcSpec(s, id, amount, isAdd, v).1;
            t.profiles == s.profiles && t.objects == s.objects && t.hw == s.hw
  {
    hide Wrap;
  }

  lemma PoolCallSynced(s: State, r: Request, v: nat -> bool)
    requires HwSynced(s) && (r.CreatePool? || r.RemovePool? || r.SetPool? || r.RemoveProfile?)
    ensures HwSynced(Step(s, r, v).1)
  {
    hide ApplyPoolAttrs, ValidateShared, Unlink, HwSynced;
    SameSettings(s, Step(s, r, v).1);
  }

  lemma CreateProfileSynced(s: State, attrs: seq<ProfileAttr>, id: Oid, v: nat -> bool)
    requires AttachmentsExact(s) && HwSynced(s) && id != NULL_ID && id !in s.profiles
    ensures HwSynced(CreateProfileSpec(s, attrs, id, v).1)
  {
    hide UpdateNodeAll, WellFormedAttrs, MandatoryThSpec, PfcSpec, HwAgrees;
    var t := CreateProfileSpec(s, attrs, id, v).1;
    forall o | o in t.objects && t.objects[o] in t.profiles
      ensures HwAgrees(t.hw[o], t.profiles[t.objects[o]], o)
    {
      assert ObjectListed(s, o);
    }
  }

  // ---------------------------------------------------------------------------------------------
  // Setting a profile attribute
  // ---------------------------------------------------------------------------------------------

  /** The targets of an attribute are the attached objects it concerns. */
  lemma TargetMembers(p: Profile, a: ProfileAttr, o: ObjId)
    requires ProfileCounts(p)
    ensures o in Targets(p, a) <==> o in ListFor(p, o) && (IsPfc(a) ==> o.Pg?)
  {
    TargetsDistinct(p, a);
  }

  lemma TargetAttached(s: State, q: Oid, a: ProfileAttr, o: ObjId)
    requires AttachmentsExact(s) && q in s.profiles
    ensures o in Targets(s.profiles[q], a) <==> o in s.objects && s.objects[o] == q && (IsPfc(a) ==> o.Pg?)
  {
    assert ProfileCounts(s.profiles[q]) && AttachmentsBack(s, q);
    assert o in s.objects ==> ObjectListed(s, o);
    TargetMembers(s.profiles[q], a, o);
  }

  lemma SyncedHolds(s: State, q: Oid, a: ProfileAttr)
    requires AttachmentsExact(s) && HwSynced(s) && q in s.profiles
    ensures HwHolds(s.hw, Targets(s.profiles[q], a), OldAttr(s.profiles[q], a))
  {
    hide AttachmentsExact;
    forall o | o in Targets(s.profiles[q], a)
      ensures o in s.hw && WriteHw(s.hw[o], OldAttr(s.profiles[q], a)) == s.hw[o]
    {
      TargetAttached(s, q, a, o);
    }
  }

  /** After an accepted push the NPU agrees with the updated node. */
  lemma PushedAgrees(h: HwSetting, p: Profile, p1: Profile, a: ProfileAttr, o: ObjId)
    requires HwAgrees(h, p, o) && !a.UnknownProfileAttr?
    requires p1 == if a.PoolIdAttr? then p.(poolId := a.poolId) else SetProfileField(p, a)
    ensures HwAgrees(WriteHw(h, a), p1, o)
    ensures (IsPfc(a) && !o.Pg?) || a.ModeAttr? ==> HwAgrees(h, p1, o)
  {
  }

  /** The value a rejected push leaves behind is not what the profile says. */
  lemma LeftoverDisagrees(h: HwSetting, p: Profile, a: ProfileAttr, o: ObjId)
    requires HwAgrees(h, p, o) && a != OldAttr(p, a) && !a.ModeAttr? && (IsPfc(a) ==> o.Pg?)
    ensures !HwAgrees(WriteHw(h, a), p, o)
  {
  }

  lemma PushedSynced(s: State, q: Oid, a: ProfileAttr, t: State)
    requires AttachmentsExact(s) && HwSynced(s) && q in s.profiles && !a.UnknownProfileAttr?
    requires t.objects == s.objects
    requires t.hw == if a.ModeAttr? then s.hw else Written(s.hw, Targets(s.profiles[q], a), a)
    requires t.profiles == s.profiles[q := if a.PoolIdAttr? then s.profiles[q].(poolId := a.poolId)
                                      else SetProfileField(s.profiles[q], a)]
    ensures HwSynced(t)
  {
    hide AttachmentsExact, HwAgrees, WriteHw, SetProfileField;
    forall o | o in t.objects && t.objects[o] in t.profiles
      ensures HwAgrees(t.hw[o], t.profiles[t.objects[o]], o)
    {
      TargetAttached(s, q, a, o);
      if s.objects[o] == q {
        PushedAgrees(s.hw[o], s.profiles[q], t.profiles[q], a, o);
      }
    }
  }

  /** The call reaches the NPU, which rejects the new value at some object and then the old value at an earlier one. */
  ghost predicate UndoRejected(s: State, q: Oid, a: ProfileAttr, v: nat -> bool)
    requires q in s.profiles
  {
    var p := s.profiles[q];
    var c := CheckSize(s, p, a, v);
    && !a.UnknownProfileAttr? && !a.ModeAttr? && a != OldAttr(p, a)
    && CheckValue(s.pools, p, a) == Success && c.status == Success
    && UndoRefused(|Targets(p, a)|, c.calls, v)
  }

  lemma SettleSettings(s: State, oldPool: Oid, q: Oid, a: ProfileAttr, amount: u32, isAdd: bool, v: nat -> bool)
    requires q in s.profiles
    ensures var t := SettleSpec(s, oldPool, q, a, amount, isAdd, v);
            t.profiles == s.profiles && t.objects == s.objects && t.hw == s.hw
  {
    hide RecalcSpec;
    if a.PoolIdAttr? {
      RecalcSettings(s, oldPool, amount, false, v);
      RecalcSettings(RecalcSpec(s, oldPool, amount, false, v).1, a.poolId, amount, true, v);
    } else {
      RecalcSettings(s, s.profiles[q].poolId, amount, isAdd, v);
    }
  }

  lemma SetProfileSuccessSynced(s: State, q: Oid, a: ProfileAttr, v: nat -> bool)
    requires AttachmentsExact(s) && HwSynced(s) && SetProfileSpec(s, q, a, v).0 == Success
    ensures HwSynced(SetProfileSpec(s, q, a, v).1)
    ensures q in s.profiles && !UndoRejected(s, q, a, v)
  {
    hide AttachmentsExact, HwSynced, SetProfileSpec, SettleSpec, CheckSize, FirstRewrite, Push, CheckValue, Link,
         Unlink, SetProfileField, UndoRefused;
    var c, s2 := SetProfileSteps(s, q, a, v);
    var p := s.profiles[q];
    CountsExact(s, q);
    PushAccepted(p, a, OldAttr(p, a), s.hw, c.calls, v);
    if !a.ModeAttr? {
      NothingRefused(|Targets(p, a)|, c.calls, v);
    }
    PushedSynced(s, q, a, s2);
    SettleSettings(s2, p.poolId, q, a, c.amount, c.isAdd, v);
    SameSettings(s2, SetProfileSpec(s, q, a, v).1);
  }

  /** What a rejected attribute set did to the NPU: nothing, or the leftovers of a push. */
  lemma SetProfileRejectedHw(s: State, q: Oid, a: ProfileAttr, v: nat -> bool)
    requires q in s.profiles && SetProfileSpec(s, q, a, v).0 != Success
    ensures var p := s.profiles[q];
            var c := CheckSize(s, p, a, v);
            SetProfileSpec(s, q, a, v).1.hw
            == if !a.UnknownProfileAttr? && CheckValue(s.pools, p, a) == Success && c.status == Success && !a.ModeAttr?
               then Push(p, a, OldAttr(p, a), s.hw, c.calls, v).hw else s.hw
    ensures var p := s.profiles[q];
            var c := CheckSize(s, p, a, v);
            !a.UnknownProfileAttr? && CheckValue(s.pools, p, a) == Success && c.status == Success && !a.ModeAttr?
            ==> !Push(p, a, OldAttr(p, a), s.hw, c.calls, v).ok
  {
    hide CheckSize, Push, ThresholdValid, Link, Unlink, SettleSpec;
  }

  lemma SetProfileFailureSynced(s: State, q: Oid, a: ProfileAttr, v: nat -> bool)
    requires AttachmentsExact(s) && HwSynced(s) && q in s.profiles && SetProfileSpec(s, q, a, v).0 != Success
    ensures HwSynced(SetProfileSpec(s, q, a, v).1) <==> !UndoRejected(s, q, a, v)
  {
    hide AttachmentsExact, HwSynced, SetProfileSpec, CheckSize, CheckValue, Push, UndoRefused, HwHolds;
    var p, t := s.profiles[q], SetProfileSpec(s, q, a, v).1;
    var c := CheckSize(s, p, a, v);
    SetProfileRejected(s, q, a, v);
    SetProfileRejectedHw(s, q, a, v);
    CountsExact(s, q);
    SyncedHolds(s, q, a);
    if t.hw == s.hw {
      SameSettings(s, t);
    }
    if !a.UnknownProfileAttr? && CheckValue(s.pools, p, a) == Success && c.status == Success && !a.ModeAttr? {
      PushRejected(p, a, s.hw, c.calls, v);
      if UndoRejected(s, q, a, v) {
        LeftoverBreaksSync(s, q, a, c.calls, t, v);
      }
    }
  }

  lemma LeftoverBreaksSync(s: State, q: Oid, a: ProfileAttr, calls: nat, t: State, v: nat -> bool)
    requires AttachmentsExact(s) && HwSynced(s) && q in s.profiles && SameTables(s, t)
    requires UndoRefused(|Targets(s.profiles[q], a)|, calls, v)
    requires a != OldAttr(s.profiles[q], a) && !a.ModeAttr?
    requires t.hw == Push(s.profiles[q], a, OldAttr(s.profiles[q], a), s.hw, calls, v).hw
    ensures !HwSynced(t)
  {
    hide AttachmentsExact, Push, WriteHw, HwAgrees, UndoRefused;
    CountsExact(s, q);
    forall o | o in Targets(s.profiles[q], a)
      ensures o in s.hw
    {
      TargetAttached(s, q, a, o);
    }
    var lost := PushLoses(s.profiles[q], a, s.hw, calls, v);
    TargetAttached(s, q, a, lost);
    LeftoverDisagrees(s.hw[lost], s.profiles[q], a, lost);
  }

  /** A profile attribute set keeps the NPU in agreement with the profiles if and only if no undo call is rejected. */
  lemma SetProfileSynced(s: State, q: Oid, a: ProfileAttr, v: nat -> bool)
    requires AttachmentsExact(s) && HwSynced(s)
    ensures HwSynced(SetProfileSpec(s, q, a, v).1) <==> !(q in s.profiles && UndoRejected(s, q, a, v))
  {
    hide AttachmentsExact, HwSynced, UndoRejected;
    if q !in s.profiles {
      UnknownProfileSynced(s, q, a, v);
    } else if SetProfileSpec(s, q, a, v).0 == Success {
      SetProfileSuccessSynced(s, q, a, v);
    } else {
      SetProfileFailureSynced(s, q, a, v);
    }
  }

  lemma UnknownProfileSynced(s: State, q: Oid, a: ProfileAttr, v: nat -> bool)
    requires q !in s.profiles
    ensures SetProfileSpec(s, q, a, v).1 == s
  {
  }

  // ---------------------------------------------------------------------------------------------
  // Attaching
  // ---------------------------------------------------------------------------------------------

  lemma RelinkedSettings(s: State, o: ObjId, q: Oid, x: Oid)
    requires x in s.profiles
    ensures var t := Relinked(s, o, q);
            && t.profiles.Keys == s.profiles.Keys && t.objects == s.objects[o := q] && t.hw == s.hw
            && HwOf(t.profiles[x]) == HwOf(s.profiles[x])
  {
    hide Without;
  }

  lemma SameProfileAgrees(h: HwSetting, p: Profile, r: Profile, o: ObjId)
    requires HwOf(p) == HwOf(r)
    ensures HwAgrees(h, p, o) <==> HwAgrees(h, r, o)
    ensures HwAgrees(HwOf(p), r, o)
  {
  }

  lemma AttachedSynced(s: State, o: ObjId, q: Oid, calls: nat)
    requires HwSynced(s) && o in s.objects
    ensures HwSynced(Relinked(s.(hw := s.hw[o := HwSettingOf(s, q)], calls := calls), o, q))
  {
    hide HwAgrees, Relinked, HwOf;
    var s1 := s.(hw := s.hw[o := HwSettingOf(s, q)], calls := calls);
    var t := Relinked(s1, o, q);
    RelinkedObjects(s1, o, q);
    forall y | y in t.objects && t.objects[y] in t.profiles
      ensures HwAgrees(t.hw[y], t.profiles[t.objects[y]], y)
    {
      var x := t.objects[y];
      RelinkedSettings(s1, o, q, x);
      SameProfileAgrees(t.hw[y], s.profiles[x], t.profiles[x], y);
    }
  }

  lemma RelinkedObjects(s: State, o: ObjId, q: Oid)
    ensures var t := Relinked(s, o, q);
            t.profiles.Keys == s.profiles.Keys && t.objects == s.objects[o := q] && t.hw == s.hw
  {
    hide Without;
  }

  lemma ChargePoolsSettings(s: State, from: Oid, to: Oid, c: PoolCalc, oldSize: u32, newSize: u32, v: nat -> bool)
    ensures var t := ChargePools(s, from, to, c, oldSize, newSize, v);
            t.profiles == s.profiles && t.objects == s.objects && t.hw == s.hw
  {
    hide RecalcSpec;
    if from == to {
      RecalcSettings(s, from, c.amount, c.isAdd, v);
    } else {
      RecalcSettings(s, from, oldSize, false, v);
      var s1 := if from != NULL_ID then RecalcSpec(s, from, oldSize, false, v).1 else s;
      RecalcSettings(s1, to, newSize, true, v);
    }
  }

  lemma SetObjectSynced(s: State, o: ObjId, q: Oid, v: nat -> bool)
    requires HwSynced(s)
    ensures HwSynced(SetObjectSpec(s, o, q, v).1)
  {
    hide HwSynced, CalcPoolSize, ChargePools, Relinked, UnitSize, PoolOf, HwSettingOf, ObjectCompatible;
    var (st, t) := SetObjectSpec(s, o, q, v);
    if o in s.objects && s.objects[o] != q && st == Success {
      var was := s.objects[o];
      var c := CalcPoolSize(s.pools, PoolOf(s, was), PoolOf(s, q), was == NULL_ID || !s.profiles[was].thEnable,
                            UnitSize(s, was), UnitSize(s, q));
      var s2 := Relinked(s.(hw := s.hw[o := HwSettingOf(s, q)], calls := s.calls + 1), o, q);
      AttachedSynced(s, o, q, s.calls + 1);
      ChargePoolsSettings(s2, PoolOf(s, was), PoolOf(s, q), c, UnitSize(s, was), UnitSize(s, q), v);
      SameSettings(s2, t);
    } else {
      SameSettings(s, t);
    }
  }
}
