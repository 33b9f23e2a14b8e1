/**
 Direction and hardware agreement over every QoS buffer call: what is attached fits the direction of
 its pool, and the NPU holds what the profile says.
 */
module QosBufferDirection {
  import opened Common
  import opened QosBufferState
  import opened QosBufferWalk
  import opened QosBufferSpec
  import opened QosBufferAttachments
  import opened QosBufferRefs
  import opened QosBufferHolding
  import opened QosBufferConservation
  import opened QosBufferSafety

  // ---------------------------------------------------------------------------------------------
  // Direction
  // ---------------------------------------------------------------------------------------------

  /** No pool changed its direction, and profiles kept their pools, lists and PFC thresholds. */
  ghost predicate SameDirections(s: State, t: State) {
    && t.profiles == s.profiles
    && s.pools.Keys == t.pools.Keys
    && forall id :: id in s.pools ==> t.pools[id].kind == s.pools[id].kind
  }

  lemma SameDirectionsDirected(s: State, t: State)
    requires Directed(s) && SameDirections(s, t)
    ensures Directed(t)
  {
    forall q | q in t.profiles
      ensures ProfileDirected(t, q)
    {
      assert ProfileDirected(s, q);
    }
  }

  lemma RecalcDirected(s: State, id: Oid, amount: u32, isAdd: bool, v: nat -> bool)
    requires Directed(s)
    ensures Directed(RecalcSpec(s, id, amount, isAdd, v).1)
  {
    hide Wrap, Directed;
    SameDirectionsDirected(s, RecalcSpec(s, id, amount, isAdd, v).1);
  }

  lemma CreatePoolDirected(s: State, attrs: seq<PoolAttr>, id: Oid, v: nat -> bool)
    requires Held(s) && Directed(s) && id != NULL_ID && id !in s.pools
    ensures Directed(CreatePoolSpec(s, attrs, id, v).1)
  {
    hide Held, ApplyPoolAttrs, ValidateShared;
    var t := CreatePoolSpec(s, attrs, id, v).1;
    forall q | q in t.profiles
      ensures ProfileDirected(t, q)
    {
      assert ProfileDirected(s, q);
      PoolHeld(s, q);
    }
  }

  lemma RemovePoolDirected(s: State, id: Oid, v: nat -> bool)
    requires Directed(s)
    ensures Directed(RemovePoolSpec(s, id, v).1)
  {
    var t := RemovePoolSpec(s, id, v).1;
    forall q | q in t.profiles
      ensures ProfileDirected(t, q)
    {
      assert ProfileDirected(s, q);
    }
  }

  lemma SetPoolDirected(s: State, id: Oid, a: PoolAttr, v: nat -> bool)
    requires Directed(s)
    ensures Directed(SetPoolSpec(s, id, a, v).1)
  {
    hide Directed, SharedInt32;
    if id in s.pools {
      assert ApplyPoolAttrs(s.pools[id], [a], false).0 == Success ==>
        ApplyPoolAttrs(s.pools[id], [a], false) == ApplyPoolAttrs(SetPoolField(s.pools[id], a), [], a.XoffSizeAttr?);
    }
    SameDirectionsDirected(s, SetPoolSpec(s, id, a, v).1);
  }

  /** Without a PFC attribute in the list the PFC thresholds keep their values. */
  lemma {:induction false} NoPfcKept(pools: map<Oid, Pool>, p: Profile, q: Oid, attrs: seq<ProfileAttr>)
    requires forall i :: 0 <= i < |attrs| ==> !IsPfc(attrs[i])
    ensures var r := UpdateNodeAll(pools, p, q, attrs).2;
            r.xoffTh == p.xoffTh && r.xonTh == p.xonTh
    decreases |attrs|
  {
    hide Link, Unlink;
    if attrs != [] {
      var (st, pools1, p1) := UpdateNode(pools, p, q, attrs[0]);
      if st == Success {
        NoPfcKept(pools1, p1, q, attrs[1..]);
      }
    }
  }

  lemma CreateProfileDirected(s: State, attrs: seq<ProfileAttr>, id: Oid, v: nat -> bool)
    requires Directed(s) && id !in s.profiles
    ensures Directed(CreateProfileSpec(s, attrs, id, v).1)
  {
    hide Directed, WellFormedAttrs, MandatoryThSpec, UpdateNodeAll, HasPfc;
    var t := CreateProfileSpec(s, attrs, id, v).1;
    if WellFormedAttrs(attrs) && MandatoryThSpec(s.pools, attrs) == Success && PfcSpec(s.pools, attrs) == Success {
      CreatedNode(s, attrs, id);
      var p := UpdateNodeAll(s.pools, NEW_PROFILE, id, attrs).2;
      if s.pools[p.poolId].kind == Egress {
        NewEgressProfile(s.pools, id, attrs);
      }
      LinkedDirected(s, p, id, t);
    } else {
      SameDirectionsDirected(s, t);
    }
  }

  lemma NewEgressProfile(pools: map<Oid, Pool>, id: Oid, attrs: seq<ProfileAttr>)
    requires !HasPfc(attrs)
    ensures UpdateNodeAll(pools, NEW_PROFILE, id, attrs).2.xoffTh == 0
    ensures UpdateNodeAll(pools, NEW_PROFILE, id, attrs).2.xonTh == 0
  {
    NoPfcKept(pools, NEW_PROFILE, id, attrs);
  }

  lemma LinkedDirected(s: State, p: Profile, id: Oid, t: State)
    requires Directed(s) && id !in s.profiles && p.poolId in s.pools
    requires p.ports == [] && p.queues == [] && p.pgs == []
    requires s.pools[p.poolId].kind == Egress ==> p.xoffTh == 0 && p.xonTh == 0
    requires t.pools == Link(s.pools, p.poolId, id) && (t.profiles == s.profiles[id := p] || t.profiles == s.profiles)
    ensures Directed(t)
  {
    forall q | q in t.profiles
      ensures ProfileDirected(t, q)
    {
      assert q in s.profiles ==> ProfileDirected(s, q);
    }
  }

  lemma RemoveProfileDirected(s: State, q: Oid, v: nat -> bool)
    requires Directed(s)
    ensures Directed(RemoveProfileSpec(s, q, v).1)
  {
    hide Without;
    var t := RemoveProfileSpec(s, q, v).1;
    forall x | x in t.profiles
      ensures ProfileDirected(t, x)
    {
      assert ProfileDirected(s, x);
    }
  }

  lemma SettleDirected(s: State, oldPool: Oid, q: Oid, a: ProfileAttr, amount: u32, isAdd: bool, v: nat -> bool)
    requires Directed(s) && q in s.profiles
    ensures Directed(SettleSpec(s, oldPool, q, a, amount, isAdd, v))
  {
    hide Directed, RecalcSpec;
    if a.PoolIdAttr? {
      RecalcDirected(s, oldPool, amount, false, v);
      RecalcDirected(RecalcSpec(s, oldPool, amount, false, v).1, a.poolId, amount, true, v);
    } else {
      RecalcDirected(s, s.profiles[q].poolId, amount, isAdd, v);
    }
  }

  lemma UpdatedDirected(s: State, q: Oid, a: ProfileAttr, t: State)
    requires Held(s) && Directed(s) && q in s.profiles && CheckValue(s.pools, s.profiles[q], a) == Success
    requires var (st, pools, p) := UpdateNode(s.pools, s.profiles[q], q, a);
             st == Success && t.pools == pools && t.profiles == s.profiles[q := p]
    ensures Directed(t)
  {
    hide Held, Without;
    PoolHeld(s, q);
    forall x | x in t.profiles
      ensures ProfileDirected(t, x)
    {
      assert ProfileDirected(s, x);
    }
  }

  lemma SetProfileDirected(s: State, q: Oid, a: ProfileAttr, v: nat -> bool)
    requires Held(s) && Directed(s)
    ensures Directed(SetProfileSpec(s, q, a, v).1)
  {
    hide Held, Directed, SettleSpec, SetProfileSpec, UpdateNode, UpdateObjectsSpec, CheckSize, CheckValue;
    var (st, t) := SetProfileSpec(s, q, a, v);
    if st == Success {
      var c, s2 := SetProfileSteps(s, q, a, v);
      CheckedValue(s, q, a, v);
      UpdatedDirected(s, q, a, s2);
      SettleDirected(s2, s.profiles[q].poolId, q, a, c.amount, c.isAdd, v);
    } else {
      SetProfileRejected(s, q, a, v);
      SameDirectionsDirected(s, t);
    }
  }

  lemma CheckedValue(s: State, q: Oid, a: ProfileAttr, v: nat -> bool)
    requires SetProfileSpec(s, q, a, v).0 == Success
    ensures q in s.profiles && CheckValue(s.pools, s.profiles[q], a) == Success
  {
    hide CheckSize, CheckValue, UpdateObjectsSpec, SettleSpec;
  }

  lemma ChargePoolsDirected(s: State, from: Oid, to: Oid, c: PoolCalc, oldSize: u32, newSize: u32, v: nat -> bool)
    requires Directed(s)
    ensures Directed(ChargePools(s, from, to, c, oldSize, newSize, v))
  {
    hide Directed, RecalcSpec;
    if from == to {
      RecalcDirected(s, from, c.amount, c.isAdd, v);
    } else {
      RecalcDirected(s, from, oldSize, false, v);
      var s1 := if from != NULL_ID then RecalcSpec(s, from, oldSize, false, v).1 else s;
      RecalcDirected(s1, to, newSize, true, v);
    }
  }

  lemma RelinkedDirected(s: State, o: ObjId, q: Oid)
    requires Directed(s)
    requires q != NULL_ID ==> q in s.profiles && ObjectCompatible(s.pools, o, s.profiles[q])
    ensures Directed(Relinked(s, o, q))
  {
    var t := Relinked(s, o, q);
    forall x | x in t.profiles
      ensures ProfileDirected(t, x)
    {
      assert ProfileDirected(s, x);
    }
  }

  lemma SetObjectDirected(s: State, o: ObjId, q: Oid, v: nat -> bool)
    requires Directed(s)
    ensures Directed(SetObjectSpec(s, o, q, v).1)
  {
    hide Directed, CalcPoolSize, ChargePools, Relinked, UnitSize, PoolOf, HwSettingOf, ObjectCompatible;
    var (st, t) := SetObjectSpec(s, o, q, v);
    if o in s.objects && s.objects[o] != q && st == Success {
      var was := s.objects[o];
      var c := CalcPoolSize(s.pools, PoolOf(s, was), PoolOf(s, q), was == NULL_ID || !s.profiles[was].thEnable,
                            UnitSize(s, was), UnitSize(s, q));
      var s1 := s.(hw := s.hw[o := HwSettingOf(s, q)], calls := s.calls + 1);
      SameDirectionsDirected(s, s1);
      RelinkedDirected(s1, o, q);
      ChargePoolsDirected(Relinked(s1, o, q), PoolOf(s, was), PoolOf(s, q), c, UnitSize(s, was), UnitSize(s, q), v);
    } else {
      SameDirectionsDirected(s, t);
    }
  }

  /** What direction safety says about a port, queue or priority group. */
  lemma ObjectDirection(s: State, o: ObjId)
    requires Held(s) && Directed(s) && o in s.objects && s.objects[o] != NULL_ID
    ensures s.objects[o] in s.profiles && s.profiles[s.objects[o]].poolId in s.pools
    ensures s.pools[s.profiles[s.objects[o]].poolId].kind == if o.Queue? then Egress else Ingress
    ensures !o.Other?
  {
    var q := s.objects[o];
    assert ObjectListed(s, o) && ProfileDirected(s, q) && ProfileListed(s, q);
  }
}
