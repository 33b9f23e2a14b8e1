/**
 Conservation of pool bytes: for every call, the exact condition under which the bytes shared and
 the bytes reserved still add up to what each pool has.
 */
module QosBufferConservation {
  import opened Common
  import opened QosBufferState
  import opened QosBufferWalk
  import opened QosBufferSpec
  import opened QosBufferAttachments
  import opened QosBufferRefs
  import opened QosBufferGap

  // ---------------------------------------------------------------------------------------------
  // What conservation says about one profile
  // ---------------------------------------------------------------------------------------------

  /** What a profile reserves fits in its pool next to the shared bytes, so it is far from overflowing. */
  lemma ChargeFits(s: State, q: Oid)
    requires Refs(s) && Conserved(s) && q in s.profiles
    ensures var id := s.profiles[q].poolId;
            && id in s.pools
            && 0 <= ChargeOf(s.profiles[q], s.pools[id].xoffSize > 0) == s.profiles[q].numRef * ExactUnit(s, q)
            && s.pools[id].sharedSize + s.profiles[q].numRef * ExactUnit(s, q) < TWO32
  {
    hide Reserved, Refs;
    var id := s.profiles[q].poolId;
    NamedPoolNotNull(s, q);
    ListedOnce(s, q, id);
    assert PoolConserved(s, id);
    forall r | r in s.pools[id].profiles && r in s.profiles
      ensures s.profiles[r].numRef >= 0
    {
      ListedOnce(s, r, id);
    }
    ReservedLeast(s.pools[id].profiles, s.profiles, s.pools[id].xoffSize > 0, q);
  }

  lemma AttachedUnitFits(s: State, o: ObjId)
    requires Refs(s) && Conserved(s) && o in s.objects && s.objects[o] != NULL_ID
    ensures var was := s.objects[o];
            && was in s.profiles && s.profiles[was].poolId in s.pools
            && UnitSize(s, was) == ExactUnit(s, was)
            && s.pools[s.profiles[was].poolId].sharedSize + ExactUnit(s, was) < TWO32
  {
    hide Refs, Conserved, ChargeOf;
    AttachedOnce(s, o);
    ChargeFits(s, s.objects[o]);
    var n, u := s.profiles[s.objects[o]].numRef, ExactUnit(s, s.objects[o]);
    assert n * u >= u;
    WrapSmall(u);
  }

  lemma AttachedOnce(s: State, o: ObjId)
    requires Refs(s) && o in s.objects && s.objects[o] != NULL_ID
    ensures s.objects[o] in s.profiles && s.profiles[s.objects[o]].numRef >= 1
  {
    assert ObjectListed(s, o) && ProfileCounts(s.profiles[s.objects[o]]);
  }

  // ---------------------------------------------------------------------------------------------
  // Attaching and detaching
  // ---------------------------------------------------------------------------------------------

  /**
   Every pool whose bytes must move accepts the rewrite of its size, unless nothing moves, and what
   the new profile takes fits in 32 bits.
   */
  predicate AttachExact(s: State, o: ObjId, q: Oid, v: nat -> bool)
    requires o in s.objects
  {
    var was := s.objects[o];
    var from, to := PoolOf(s, was), PoolOf(s, q);
    var credit := s.calls + 1;
    var charge := if from != NULL_ID then credit + 1 else credit;
    if from == to then (if v(credit) then ExactUnit(s, q) < TWO32 else ExactUnit(s, q) == ExactUnit(s, was))
    else
      && (from != NULL_ID ==> v(credit) || ExactUnit(s, was) == 0)
      && (to != NULL_ID ==> if v(charge) then ExactUnit(s, q) < TWO32 else ExactUnit(s, q) == 0)
  }

  /** The shift in pool `x` once `o` has been moved and both pools rewritten. */
  function AttachShift(s: State, o: ObjId, q: Oid, v: nat -> bool, x: Oid): int
    requires o in s.objects
  {
    var was := s.objects[o];
    var from, to := PoolOf(s, was), PoolOf(s, q);
    var credit := s.calls + 1;
    var charge := if from != NULL_ID then credit + 1 else credit;
    if from == to then
      if x != from then 0
      else ExactUnit(s, q) - (if v(credit) then UnitSize(s, q) else ExactUnit(s, was))
    else if x == from then (if v(credit) then 0 else 0 - ExactUnit(s, was))
    else if x == to then ExactUnit(s, q) - (if v(charge) then UnitSize(s, q) else 0)
    else 0
  }

  lemma ChargeSamePoolGap(s: State, id: Oid, c: PoolCalc, oldSize: u32, newSize: u32, v: nat -> bool, x: Oid)
    requires x in s.pools && id in s.pools
    requires c.isAdd == (newSize > oldSize) && c.amount == if newSize > oldSize then newSize - oldSize
      else oldSize - newSize
    requires s.pools[id].sharedSize >= c.amount && s.pools[id].sharedSize + oldSize < TWO32
    ensures var t := ChargePools(s, id, id, c, oldSize, newSize, v);
            && t.pools.Keys == s.pools.Keys
            && Gap(t, x) == Gap(s, x) + if x == id && v(s.calls) then oldSize - newSize else 0
  {
    hide Gap, RecalcSpec, Wrap;
    RecalcGap(s, id, c.amount, c.isAdd, v, x);
    WrapSmall(s.pools[id].sharedSize + c.amount);
  }

  lemma ChargeTwoPoolsGap(s: State, from: Oid, to: Oid, c: PoolCalc, oldSize: u32, newSize: u32, v: nat -> bool, x: Oid)
    requires x in s.pools && from != to && NULL_ID !in s.pools
    requires from != NULL_ID ==> from in s.pools && s.pools[from].sharedSize + oldSize < TWO32
    requires to != NULL_ID ==> to in s.pools && s.pools[to].sharedSize >= newSize
    ensures var t := ChargePools(s, from, to, c, oldSize, newSize, v);
            var charge := if from != NULL_ID then s.calls + 1 else s.calls;
            && t.pools.Keys == s.pools.Keys
            && Gap(t, x) == Gap(s, x) + (if x == from && v(s.calls) then oldSize else 0)
                                      - (if x == to && v(charge) then newSize else 0)
  {
    hide Gap, Wrap;
    var s1 := if from != NULL_ID then RecalcSpec(s, from, oldSize, false, v).1 else s;
    if from != NULL_ID {
      RecalcGap(s, from, oldSize, false, v, x);
      WrapSmall(s.pools[from].sharedSize + oldSize);
    }
    if to != NULL_ID {
      RecalcGap(s1, to, newSize, true, v, x);
    }
  }

  /** Gaps depend on pools and profiles only. */
  lemma GapFrame(s: State, t: State, x: Oid)
    requires s.pools == t.pools && s.profiles == t.profiles && x in s.pools
    ensures Gap(s, x) == Gap(t, x)
  {
  }

  lemma RelinkedPoolsKept(s: State, o: ObjId, q: Oid)
    ensures Relinked(s, o, q).pools == s.pools && Relinked(s, o, q).calls == s.calls
  {
  }

  lemma AttachGap(s: State, o: ObjId, q: Oid, v: nat -> bool, x: Oid)
    requires Refs(s) && Conserved(s) && o in s.objects && s.objects[o] != q && x in s.pools
    requires SetObjectSpec(s, o, q, v).0 == Success
    ensures var t := SetObjectSpec(s, o, q, v).1;
            t.pools.Keys == s.pools.Keys && Gap(t, x) == AttachShift(s, o, q, v, x)
  {
    hide Refs, Gap, ChargePools, Relinked, UnitSize, ExactUnit, HwSettingOf, PoolsCompatible, ObjectCompatible,
         PoolConserved;
    var was := s.objects[o];
    var from, to := PoolOf(s, was), PoolOf(s, q);
    var c := CalcPoolSize(s.pools, from, to, was == NULL_ID || !s.profiles[was].thEnable,
                          UnitSize(s, was), UnitSize(s, q));
    var s1 := s.(hw := s.hw[o := HwSettingOf(s, q)], calls := s.calls + 1);
    SameLinksRefs(s, s1);
    RelinkedGap(s1, o, q, x);
    UnitFrame(s, s1, q);
    UnitFrame(s, s1, was);
    RelinkedPoolsKept(s1, o, q);
    GapFrame(s, s1, x);
    ConservedGap(s);
    if was != NULL_ID {
      AttachedUnitFits(s, o);
      ListedOnce(s, was, x);
    }
    if q != NULL_ID {
      ListedOnce(s, q, x);
    }
    NoNullProfile(s);
    var s2 := Relinked(s1, o, q);
    if from == to {
      ChargeSamePoolGap(s2, from, c, UnitSize(s, was), UnitSize(s, q), v, x);
    } else {
      ChargeTwoPoolsGap(s2, from, to, c, UnitSize(s, was), UnitSize(s, q), v, x);
    }
  }

  lemma UnitFrame(s: State, t: State, q: Oid)
    requires s.pools == t.pools && s.profiles == t.profiles
    ensures ExactUnit(s, q) == ExactUnit(t, q) && UnitSize(s, q) == UnitSize(t, q) && PoolOf(s, q) == PoolOf(t, q)
    ensures NULL_ID !in s.profiles && q == NULL_ID ==> ExactUnit(s, q) == 0 && UnitSize(s, q) == 0
  {
  }

  lemma NoNullProfile(s: State)
    requires Refs(s)
    ensures NULL_ID !in s.profiles && NULL_ID !in s.pools
  {
  }

  lemma AttachShiftExact(s: State, o: ObjId, q: Oid, v: nat -> bool)
    requires Refs(s) && Conserved(s) && o in s.objects && s.objects[o] != q
    requires q != NULL_ID ==> q in s.profiles
    ensures AttachExact(s, o, q, v) <==> forall x :: x in s.pools ==> AttachShift(s, o, q, v, x) == 0
  {
    hide Refs, Conserved;
    var was := s.objects[o];
    var from, to := PoolOf(s, was), PoolOf(s, q);
    NoNullProfile(s);
    if was != NULL_ID {
      AttachedUnitFits(s, o);
      assert from in s.pools;
    }
    if q != NULL_ID {
      NamedPoolNotNull(s, q);
      assert to in s.pools;
    }
    WrapSmall(ExactUnit(s, q));
  }

  /**
   Moving a port, queue or priority group from one profile to another (or to or from none) conserves
   every pool if and only if the NPU accepts the size rewrites that move bytes and one object's
   reservation fits in 32 bits.
   */
  lemma AttachConserves(s: State, o: ObjId, q: Oid, v: nat -> bool)
    requires Refs(s) && Conserved(s) && o in s.objects && s.objects[o] != q
    requires SetObjectSpec(s, o, q, v).0 == Success
    ensures Conserved(SetObjectSpec(s, o, q, v).1) <==> AttachExact(s, o, q, v)
  {
    AttachTargets(s, o, q, v);
    hide Refs, Conserved, SetObjectSpec, AttachShift, AttachExact, Gap;
    var t := SetObjectSpec(s, o, q, v).1;
    forall x | x in s.pools
      ensures t.pools.Keys == s.pools.Keys && Gap(t, x) == AttachShift(s, o, q, v, x)
    {
      AttachGap(s, o, q, v, x);
    }
    AttachShiftExact(s, o, q, v);
    ConservedGap(t);
    AttachKeys(s, o, q, v);
  }

  lemma AttachTargets(s: State, o: ObjId, q: Oid, v: nat -> bool)
    requires o in s.objects && s.objects[o] != q && SetObjectSpec(s, o, q, v).0 == Success
    ensures q != NULL_ID ==> q in s.profiles
  {
  }

  lemma AttachKeys(s: State, o: ObjId, q: Oid, v: nat -> bool)
    ensures SetObjectSpec(s, o, q, v).1.pools.Keys == s.pools.Keys
  {
    hide CalcPoolSize, UnitSize, ObjectCompatible, ChargePools, Relinked, PoolOf, HwSettingOf;
    var (st, t) := SetObjectSpec(s, o, q, v);
    if o in s.objects && s.objects[o] != q && st == Success {
      var was := s.objects[o];
      var c := CalcPoolSize(s.pools, PoolOf(s, was), PoolOf(s, q), was == NULL_ID || !s.profiles[was].thEnable,
                            UnitSize(s, was), UnitSize(s, q));
      var s1 := s.(hw := s.hw[o := HwSettingOf(s, q)], calls := s.calls + 1);
      RelinkedPoolsKept(s1, o, q);
      ChargePoolsKeys(Relinked(s1, o, q), PoolOf(s, was), PoolOf(s, q), c, UnitSize(s, was), UnitSize(s, q), v);
    }
  }

  lemma ChargePoolsKeys(s: State, from: Oid, to: Oid, c: PoolCalc, oldSize: u32, newSize: u32, v: nat -> bool)
    ensures ChargePools(s, from, to, c, oldSize, newSize, v).pools.Keys == s.pools.Keys
  {
    hide RecalcSpec;
    if from == to {
      RecalcKeys(s, from, c.amount, c.isAdd, v);
    } else {
      RecalcKeys(s, from, oldSize, false, v);
      var s1 := if from != NULL_ID then RecalcSpec(s, from, oldSize, false, v).1 else s;
      RecalcKeys(s1, to, newSize, true, v);
    }
  }

  lemma RecalcKeys(s: State, id: Oid, amount: u32, isAdd: bool, v: nat -> bool)
    ensures RecalcSpec(s, id, amount, isAdd, v).1.pools.Keys == s.pools.Keys
  {
    hide Wrap;
  }

  // ---------------------------------------------------------------------------------------------
  // Setting a profile attribute
  // ---------------------------------------------------------------------------------------------

  /** The per-object bytes of `p` in a pool where an XOFF size is, or is not, configured. */
  function UnitIn(p: Profile, xoffConfigured: bool): int {
    p.size + if xoffConfigured then 0 else p.xoffTh
  }

  /**
   The number of the NPU call that rewrites the first pool's size: the first call after those to the attached
   objects.
   */
  ghost function FirstRewrite(s: State, q: Oid, a: ProfileAttr, v: nat -> bool): nat
    requires q in s.profiles
  {
    UpdateObjectsSpec(s.(calls := CheckSize(s, s.profiles[q], a, v).calls), q, a, v).1.calls
  }

  /**
   Resizing: the product fits in 32 bits and the NPU accepts the rewrite, or nothing moves. Shrinking never
   overflows.
   */
  predicate ResizeExact(p: Profile, was: u32, now: u32, accepted: bool) {
    p.numRef * (now - was) == 0 || (accepted && p.numRef * (now - was) < TWO32)
  }

  /**
   Moving to another pool: the bytes leave the old pool and reach the new one in the same number.
   Both pools charge by the rule of the old one.
   */
  predicate MoveExact(s: State, p: Profile, to: Oid, first: bool, second: bool)
    requires p.poolId in s.pools && to in s.pools
  {
    var taken := p.numRef * UnitIn(p, s.pools[p.poolId].xoffSize > 0);
    var needed := p.numRef * UnitIn(p, s.pools[to].xoffSize > 0);
    if to == p.poolId then first == second || taken == 0
    else (first || taken == 0) && (if second then needed == taken else needed == 0)
  }

  ghost predicate SetProfileExact(s: State, q: Oid, a: ProfileAttr, v: nat -> bool)
    requires q in s.profiles && s.profiles[q].poolId in s.pools && (a.PoolIdAttr? ==> a.poolId in s.pools)
  {
    var p := s.profiles[q];
    var n := FirstRewrite(s, q, a, v);
    match a
    case SizeAttr(x) => ResizeExact(p, p.size, x, v(n))
    case XoffThAttr(x) => s.pools[p.poolId].xoffSize > 0 || ResizeExact(p, p.xoffTh, x, v(n))
    case PoolIdAttr(to) => MoveExact(s, p, to, v(n), v(n + 1))
    case _ => true
  }

  /** What a successful call has done before its charges are settled. */
  lemma SetProfileSteps(s: State, q: Oid, a: ProfileAttr, v: nat -> bool) returns (c: SizeCheck, s2: State)
    requires SetProfileSpec(s, q, a, v).0 == Success
    ensures q in s.profiles && !a.UnknownProfileAttr? && c == CheckSize(s, s.profiles[q], a, v) && c.status == Success
    ensures a.PoolIdAttr? ==> a.poolId in s.pools
    ensures UpdateObjectsSpec(s.(calls := c.calls), q, a, v) == (Success, s2) && s2.calls == FirstRewrite(s, q, a, v)
    ensures (Success, s2.pools, s2.profiles) == (UpdateNode(s.pools, s.profiles[q], q, a).0,
                                                 UpdateNode(s.pools, s.profiles[q], q, a).1,
                                                 s.profiles[q := UpdateNode(s.pools, s.profiles[q], q, a).2])
    ensures SetProfileSpec(s, q, a, v).1 == SettleSpec(s2, s.profiles[q].poolId, q, a, c.amount, c.isAdd, v)
  {
    hide CheckSize, Push, UpdateNode, SettleSpec, ThresholdValid;
    c := CheckSize(s, s.profiles[q], a, v);
    s2 := UpdateObjectsSpec(s.(calls := c.calls), q, a, v).1;
  }

  /**
   Counted from the start of the call: one call for a growing reservation, then one for each attached object
   it concerns.
   */
  lemma FirstRewriteCall(s: State, q: Oid, a: ProfileAttr, v: nat -> bool)
    requires Refs(s) && SetProfileSpec(s, q, a, v).0 == Success && !a.ModeAttr?
    ensures q in s.profiles
    ensures FirstRewrite(s, q, a, v) == CheckSize(s, s.profiles[q], a, v).calls + |Targets(s.profiles[q], a)|
  {
    hide SetProfileSpec, CheckSize, Refs, Targets, FirstRewrite, Push, Link, Unlink, SettleSpec;
    var c, s2 := SetProfileSteps(s, q, a, v);
    RefsAttachments(s);
    CountsExact(s, q);
    PushAccepted(s.profiles[q], a, OldAttr(s.profiles[q], a), s.hw, c.calls, v);
  }

  lemma Product(n: int, x: int, y: int)
    ensures n * (x - y) == n * x - n * y
    ensures n >= 0 && x >= y ==> n * (x - y) >= 0
  {
  }

  /**
   Resizing the per-object reservation of `q` by `now - was` leaves its pool off balance by the change of the
   charge.
   */
  lemma ResizedCharge(s: State, q: Oid, p1: Profile, was: u32, now: u32, s2: State, x: Oid)
    requires Refs(s) && Conserved(s) && q in s.profiles && x in s.pools
    requires s2.pools == s.pools && s2.profiles == s.profiles[q := p1]
    requires p1.poolId == s.profiles[q].poolId && p1.numRef == s.profiles[q].numRef && p1.poolId in s.pools
    requires var on := s.pools[p1.poolId].xoffSize > 0;
             UnitIn(p1, on) - UnitIn(s.profiles[q], on) == now - was && UnitIn(s.profiles[q], on) >= was
    ensures Gap(s2, x) == if x == p1.poolId then p1.numRef * (now - was) else 0
    ensures 0 <= p1.numRef && s.pools[p1.poolId].sharedSize + p1.numRef * was < TWO32
  {
    hide Refs, Conserved, Gap, ReservedXoff;
    var n, id := p1.numRef, p1.poolId;
    var on := s.pools[id].xoffSize > 0;
    ReplaceGap(s, q, p1, x);
    GapFrame(s.(profiles := s.profiles[q := p1]), s2, x);
    ConservedGap(s);
    ListedOnce(s, q, x);
    Product(n, UnitIn(p1, on), UnitIn(s.profiles[q], on));
    ChargeFits(s, q);
    UnitRule(s, q);
    Product(n, UnitIn(s.profiles[q], on), was);
  }

  lemma GrowthAmount(s: State, p: Profile, was: u32, now: u32, v: nat -> bool)
    requires p.numRef >= 0
    ensures var c := CheckGrowth(s, p, was, now, v);
            if now > was then
              && c.amount == Wrap(p.numRef * (now - was)) && (c.status == Success ==> c.isAdd)
              && (c.status == Success ==> p.poolId in s.pools && s.pools[p.poolId].sharedSize >= c.amount)
            else c.amount == Wrap(p.numRef * (was - now)) && !c.isAdd
  {
    hide Wrap;
  }

  /** ... and the charge for it brings the balance back exactly when it is accepted and was not truncated. */
  lemma ResizeGap(s: State, q: Oid, p1: Profile, was: u32, now: u32, c: SizeCheck, s2: State, v: nat -> bool, x: Oid)
    requires Refs(s) && Conserved(s) && q in s.profiles && x in s.pools
    requires s2.pools == s.pools && s2.profiles == s.profiles[q := p1]
    requires p1.poolId == s.profiles[q].poolId && p1.numRef == s.profiles[q].numRef && p1.poolId in s.pools
    requires var on := s.pools[p1.poolId].xoffSize > 0;
             UnitIn(p1, on) - UnitIn(s.profiles[q], on) == now - was && UnitIn(s.profiles[q], on) >= was
    requires c == CheckGrowth(s, s.profiles[q], was, now, v) && c.status == Success
    ensures var t := RecalcSpec(s2, p1.poolId, c.amount, c.isAdd, v).1;
            && t.pools.Keys == s.pools.Keys
            && (Gap(t, x) == 0 <==> x != p1.poolId || ResizeExact(p1, was, now, v(s2.calls)))
  {
    hide Refs, Conserved, Gap, RecalcSpec, Wrap, UnitIn, CheckGrowth, PoolAvailable;
    var n, id := p1.numRef, p1.poolId;
    ResizedCharge(s, q, p1, was, now, s2, x);
    GrowthAmount(s, s.profiles[q], was, now, v);
    RecalcGap(s2, id, c.amount, c.isAdd, v, x);
    Product(n, now, was);
    Product(n, was, now);
    Product(n, was, 0);
    if now > was {
      WrapSmall(n * (now - was));
    } else {
      WrapSmall(n * (was - now));
      Product(n, now, 0);
      WrapSmall(s.pools[id].sharedSize + n * (was - now));
    }
  }

  lemma UnitRule(s: State, q: Oid)
    requires q in s.profiles && s.profiles[q].poolId in s.pools
    ensures ExactUnit(s, q) == UnitIn(s.profiles[q], s.pools[s.profiles[q].poolId].xoffSize > 0)
  {
  }

  /** Crediting one pool and charging another, or the same, with the same amount. */
  lemma TransferGap(s: State, from: Oid, to: Oid, amount: u32, v: nat -> bool, x: Oid)
    requires from in s.pools && to in s.pools && x in s.pools
    requires s.pools[from].sharedSize + amount < TWO32 && s.pools[to].sharedSize >= amount
    ensures var t := RecalcSpec(RecalcSpec(s, from, amount, false, v).1, to, amount, true, v).1;
            && t.pools.Keys == s.pools.Keys
            && Gap(t, x) == Gap(s, x) + (if x == from && v(s.calls) then amount else 0)
                                      - (if x == to && v(s.calls + 1) then amount else 0)
  {
    hide Gap, Wrap;
    WrapSmall(s.pools[from].sharedSize + amount);
    RecalcGap(s, from, amount, false, v, x);
    RecalcGap(RecalcSpec(s, from, amount, false, v).1, to, amount, true, v, x);
  }

  lemma MoveAmount(s: State, q: Oid, to: Oid, v: nat -> bool)
    requires Refs(s) && Conserved(s) && q in s.profiles && s.profiles[q].poolId in s.pools
    ensures var c := CheckSize(s, s.profiles[q], PoolIdAttr(to), v);
            && c.amount == s.profiles[q].numRef * UnitIn(s.profiles[q], s.pools[s.profiles[q].poolId].xoffSize > 0)
            && s.pools[s.profiles[q].poolId].sharedSize + c.amount < TWO32
            && (c.status == Success ==> to in s.pools && s.pools[to].sharedSize >= c.amount)
            && c.calls == s.calls
  {
    hide Refs, Conserved, Wrap, ReservedXoff;
    ChargeFits(s, q);
    UnitRule(s, q);
    WrapSmall(s.profiles[q].numRef * ExactUnit(s, q));
  }

  /** Moving `q` to pool `to`, followed by crediting the old pool and charging the new one. */
  lemma MoveSettles(s: State, q: Oid, to: Oid, amount: u32, s2: State, v: nat -> bool, x: Oid)
    requires Refs(s) && Conserved(s) && q in s.profiles && to in s.pools && x in s.pools
      && s.profiles[q].poolId in s.pools
    requires s2.pools == Link(Unlink(s.pools, s.profiles[q].poolId, q), to, q)
    requires s2.profiles == s.profiles[q := s.profiles[q].(poolId := to)]
    requires amount == s.profiles[q].numRef * UnitIn(s.profiles[q], s.pools[s.profiles[q].poolId].xoffSize > 0)
    requires s.pools[s.profiles[q].poolId].sharedSize + amount < TWO32 && s.pools[to].sharedSize >= amount
    ensures var p, from := s.profiles[q], s.profiles[q].poolId;
            var t := SettleSpec(s2, from, q, PoolIdAttr(to), amount, false, v);
            && t.pools.Keys == s.pools.Keys
            && Gap(t, x) == (if x == to then p.numRef * UnitIn(p, s.pools[to].xoffSize > 0) else 0)
                          - (if x == from then amount else 0)
                          + (if x == from && v(s2.calls) then amount else 0)
                          - (if x == to && v(s2.calls + 1) then amount else 0)
  {
    hide Refs, Conserved, Gap, Wrap, Link, Unlink, RecalcSpec;
    MovedGap(s, q, to, s2, x);
    ConservedGap(s);
    TransferGap(s2, s.profiles[q].poolId, to, amount, v, x);
  }

  lemma SetPoolIdConserves(s: State, q: Oid, to: Oid, v: nat -> bool)
    requires Refs(s) && Conserved(s) && SetProfileSpec(s, q, PoolIdAttr(to), v).0 == Success
    requires q in s.profiles && s.profiles[q].poolId in s.pools && to in s.pools
    ensures var n := FirstRewrite(s, q, PoolIdAttr(to), v);
            Conserved(SetProfileSpec(s, q, PoolIdAttr(to), v).1) <==> MoveExact(s, s.profiles[q], to, v(n), v(n + 1))
  {
    hide Refs, Conserved, Gap, SetProfileSpec, SettleSpec, CheckSize, FirstRewrite, Link, Unlink, UnitIn;
    var c, s2 := SetProfileSteps(s, q, PoolIdAttr(to), v);
    var t := SetProfileSpec(s, q, PoolIdAttr(to), v).1;
    var from := s.profiles[q].poolId;
    MoveAmount(s, q, to, v);
    NamedPoolNotNull(s, q);
    forall x | x in s.pools
      ensures t.pools.Keys == s.pools.Keys
      ensures Gap(t, x) == (if x == to then s.profiles[q].numRef * UnitIn(s.profiles[q], s.pools[to].xoffSize > 0)
                            else 0)
                         - (if x == from then c.amount else 0)
                         + (if x == from && v(s2.calls) then c.amount else 0)
                         - (if x == to && v(s2.calls + 1) then c.amount else 0)
    {
      MoveSettles(s, q, to, c.amount, s2, v, x);
      SettleMove(s2, from, q, to, c.amount, c.isAdd, v);
    }
    ConservedGap(t);
    assert from in t.pools && to in t.pools;
  }

  lemma SettleMove(s: State, from: Oid, q: Oid, to: Oid, amount: u32, isAdd: bool, v: nat -> bool)
    requires q in s.profiles
    ensures SettleSpec(s, from, q, PoolIdAttr(to), amount, isAdd, v)
      == SettleSpec(s, from, q, PoolIdAttr(to), amount, false, v)
  {
  }

  /** The per-object reservation that `a` resizes, before and after. */
  predicate Resizes(s: State, p: Profile, a: ProfileAttr, was: u32, now: u32)
    requires p.poolId in s.pools
  {
    || (a == SizeAttr(now) && was == p.size)
    || (a == XoffThAttr(now) && was == p.xoffTh && s.pools[p.poolId].xoffSize == 0)
  }

  lemma SetSizeConserves(s: State, q: Oid, a: ProfileAttr, was: u32, now: u32, v: nat -> bool)
    requires Refs(s) && Conserved(s) && SetProfileSpec(s, q, a, v).0 == Success
    requires q in s.profiles && s.profiles[q].poolId in s.pools && Resizes(s, s.profiles[q], a, was, now)
    ensures Conserved(SetProfileSpec(s, q, a, v).1)
      <==> ResizeExact(s.profiles[q], was, now, v(FirstRewrite(s, q, a, v)))
  {
    hide Refs, Conserved, Gap, SetProfileSpec, RecalcSpec, FirstRewrite, CheckGrowth;
    var c, s2 := SetProfileSteps(s, q, a, v);
    var t := SetProfileSpec(s, q, a, v).1;
    var p := s.profiles[q];
    var p1 := SetProfileField(p, a);
    assert c == CheckGrowth(s, p, was, now, v);
    assert t == RecalcSpec(s2, p.poolId, c.amount, c.isAdd, v).1;
    forall x | x in s.pools
      ensures t.pools.Keys == s.pools.Keys
      ensures Gap(t, x) == 0 <==> x != p.poolId || ResizeExact(p, was, now, v(s2.calls))
    {
      ResizeGap(s, q, p1, was, now, c, s2, v, x);
    }
    ConservedGap(t);
    assert p.poolId in t.pools;
  }

  /** Threshold attributes, and an XOFF threshold in a pool with its own XOFF size, move no bytes. */
  lemma SetPlainConserves(s: State, q: Oid, a: ProfileAttr, v: nat -> bool)
    requires Refs(s) && Conserved(s) && SetProfileSpec(s, q, a, v).0 == Success
    requires q in s.profiles && s.profiles[q].poolId in s.pools
    requires !a.SizeAttr? && !a.PoolIdAttr? && (a.XoffThAttr? ==> s.pools[s.profiles[q].poolId].xoffSize > 0)
    ensures Conserved(SetProfileSpec(s, q, a, v).1)
  {
    hide Refs, Conserved, Gap, SetProfileSpec, RecalcSpec, FirstRewrite, CheckGrowth;
    var c, s2 := SetProfileSteps(s, q, a, v);
    var t := SetProfileSpec(s, q, a, v).1;
    var p := s.profiles[q];
    var p1 := SetProfileField(p, a);
    ConservedGap(s);
    RecalcKeys(s2, p.poolId, 0, true, v);
    forall x | x in s.pools
      ensures t.pools.Keys == s.pools.Keys && Gap(t, x) == 0
    {
      ReplaceGap(s, q, p1, x);
      GapFrame(s.(profiles := s.profiles[q := p1]), s2, x);
      RecalcGap(s2, p.poolId, 0, true, v, x);
    }
    ConservedGap(t);
  }

  /**
   A successful profile attribute set conserves every pool if and only if: when resizing, the product
   fits in 32 bits and the NPU accepts the pool rewrite; when moving, both rewrites are accepted and
   the two pools reserve XOFF bytes by the same rule (or no bytes are at stake).
   */
  lemma SetProfileConserves(s: State, q: Oid, a: ProfileAttr, v: nat -> bool)
    requires Refs(s) && Conserved(s) && SetProfileSpec(s, q, a, v).0 == Success
    ensures q in s.profiles && s.profiles[q].poolId in s.pools && (a.PoolIdAttr? ==> a.poolId in s.pools)
    ensures Conserved(SetProfileSpec(s, q, a, v).1) <==> SetProfileExact(s, q, a, v)
  {
    hide Refs, Conserved, SetProfileSpec, FirstRewrite, ResizeExact, MoveExact;
    var c, s2 := SetProfileSteps(s, q, a, v);
    NamedPoolNotNull(s, q);
    var p := s.profiles[q];
    if a.PoolIdAttr? {
      SetPoolIdConserves(s, q, a.poolId, v);
    } else if a.SizeAttr? {
      SetSizeConserves(s, q, a, p.size, a.size, v);
    } else if a.XoffThAttr? && s.pools[p.poolId].xoffSize == 0 {
      SetSizeConserves(s, q, a, p.xoffTh, a.xoffTh, v);
    } else {
      SetPlainConserves(s, q, a, v);
    }
  }

  /**
   When the NPU accepts every rewrite and the bytes at stake fit in 32 bits, only pools that disagree on XOFF
   break conservation.
   */
  lemma MoveBetweenLikePools(s: State, p: Profile, to: Oid)
    requires p.poolId in s.pools && to in s.pools
    ensures MoveExact(s, p, to, true, true)
       <==> to == p.poolId || p.numRef == 0 || p.xoffTh == 0
            || (s.pools[to].xoffSize > 0 <==> s.pools[p.poolId].xoffSize > 0)
  {
    var n := p.numRef;
    assert n * (p.size + p.xoffTh) == n * p.size + n * p.xoffTh;
  }
}
