/**
 Both levels of reference counts stay exact over every call, with one exception: a profile create
 that the NPU rejects after the node was linked to its pool.
 */
module QosBufferRefs {
  import opened Common
  import opened QosBufferState
  import opened QosBufferWalk
  import opened QosBufferSpec
  import opened QosBufferAttachments

  /** The same lists, counts and names; sizes, thresholds and NPU settings may differ. */
  ghost predicate SameLinks(s: State, t: State) {
    && s.pools.Keys == t.pools.Keys && s.profiles.Keys == t.profiles.Keys && s.objects == t.objects
    && (forall id :: id in s.pools ==>
      s.pools[id].profiles == t.pools[id].profiles && s.pools[id].numRef == t.pools[id].numRef)
    && (forall q :: q in s.profiles ==>
      s.profiles[q].poolId == t.profiles[q].poolId && SameLists(s.profiles[q], t.profiles[q]))
  }

  lemma RefsAttachments(s: State)
    requires Refs(s)
    ensures AttachmentsExact(s)
  {
  }

  lemma SameLinksRefs(s: State, t: State)
    requires Refs(s) && SameLinks(s, t)
    ensures Refs(t)
  {
    hide Without, Distinct;
    forall id | id in t.pools
      ensures PoolListed(t, id)
    {
      assert PoolListed(s, id);
    }
    forall q | q in t.profiles
      ensures ProfileListed(t, q)
    {
      assert ProfileListed(s, q);
    }
    AttachmentsKept(s, t);
  }

  lemma RecalcSameLinks(s: State, id: Oid, amount: u32, isAdd: bool, v: nat -> bool)
    ensures SameLinks(s, RecalcSpec(s, id, amount, isAdd, v).1)
    ensures RecalcSpec(s, id, amount, isAdd, v).1.profiles == s.profiles
    ensures RecalcSpec(s, id, amount, isAdd, v).1.hw == s.hw
  {
    hide Wrap, SameLists;
    SameListsAll(s);
  }

  // ---------------------------------------------------------------------------------------------
  // Attaching
  // ---------------------------------------------------------------------------------------------

  lemma RelinkedProfiles(s: State, o: ObjId, q: Oid)
    requires Refs(s) && o in s.objects && s.objects[o] != q
    requires q != NULL_ID ==> q in s.profiles && !o.Other?
    ensures var t := Relinked(s, o, q);
            && t.pools == s.pools && t.profiles.Keys == s.profiles.Keys
            && forall x :: x in t.profiles ==> ProfileListed(t, x)
  {
    hide Distinct, ProfileCounts, Attached, Detached, PoolListed, AttachmentsExact;
    var t := Relinked(s, o, q);
    forall x | x in t.profiles
      ensures ProfileListed(t, x)
    {
      assert ProfileListed(s, x);
      RelinkedProfile(s, o, q, x);
    }
  }

  lemma RelinkedRefs(s: State, o: ObjId, q: Oid)
    requires Refs(s) && o in s.objects && s.objects[o] != q
    requires q != NULL_ID ==> q in s.profiles && !o.Other?
    ensures Refs(Relinked(s, o, q))
  {
    hide PoolListed, ProfileListed, AttachmentsExact, Relinked;
    RelinkedProfiles(s, o, q);
    RelinkedPools(s, o, q);
    RelinkedAttachments(s, o, q);
  }

  lemma RelinkedPools(s: State, o: ObjId, q: Oid)
    requires Refs(s) && o in s.objects && s.objects[o] != q
    requires q != NULL_ID ==> q in s.profiles && !o.Other?
    ensures forall id :: id in s.pools ==> PoolListed(Relinked(s, o, q), id)
  {
    hide Without, Distinct, ProfileCounts, AttachmentsExact, Attached, Detached;
    var t := Relinked(s, o, q);
    forall id | id in t.pools
      ensures PoolListed(t, id)
    {
      assert PoolListed(s, id);
      forall x | x in t.pools[id].profiles
        ensures t.profiles[x].poolId == id
      {
        RelinkedProfile(s, o, q, x);
      }
    }
  }

  lemma SetObjectRefs(s: State, o: ObjId, q: Oid, v: nat -> bool)
    requires Refs(s)
    ensures Refs(SetObjectSpec(s, o, q, v).1)
  {
    hide Refs, CalcPoolSize, ChargePools, Relinked, UnitSize, PoolOf, HwSettingOf;
    var (st, t) := SetObjectSpec(s, o, q, v);
    if o in s.objects && s.objects[o] != q && st == Success {
      var was := s.objects[o];
      var c := CalcPoolSize(s.pools, PoolOf(s, was), PoolOf(s, q), was == NULL_ID || !s.profiles[was].thEnable,
                            UnitSize(s, was), UnitSize(s, q));
      var s1 := s.(hw := s.hw[o := HwSettingOf(s, q)], calls := s.calls + 1);
      SameLinksRefs(s, s1);
      RelinkedRefs(s1, o, q);
      ChargePoolsRefs(Relinked(s1, o, q), PoolOf(s, was), PoolOf(s, q), c, UnitSize(s, was), UnitSize(s, q), v);
    } else {
      SameLinksRefs(s, t);
    }
  }

  lemma ChargePoolsRefs(s: State, oldPool: Oid, newPool: Oid, c: PoolCalc, oldSize: u32, newSize: u32, v: nat -> bool)
    requires Refs(s)
    ensures Refs(ChargePools(s, oldPool, newPool, c, oldSize, newSize, v))
  {
    hide Refs, RecalcSpec;
    if oldPool == newPool {
      RecalcRefs(s, oldPool, c.amount, c.isAdd, v);
    } else {
      RecalcRefs(s, oldPool, oldSize, false, v);
      var s1 := if oldPool != NULL_ID then RecalcSpec(s, oldPool, oldSize, false, v).1 else s;
      RecalcRefs(s1, newPool, newSize, true, v);
    }
  }

  lemma RecalcRefs(s: State, id: Oid, amount: u32, isAdd: bool, v: nat -> bool)
    requires Refs(s)
    ensures Refs(RecalcSpec(s, id, amount, isAdd, v).1)
  {
    RecalcSameLinks(s, id, amount, isAdd, v);
    SameLinksRefs(s, RecalcSpec(s, id, amount, isAdd, v).1);
  }

  // ---------------------------------------------------------------------------------------------
  // Setting a profile attribute
  // ---------------------------------------------------------------------------------------------

  /** Moving a profile takes it out of one pool's list and puts it at the end of another's. */
  lemma MovedPool(s: State, q: Oid, id: Oid, x: Oid)
    requires Refs(s) && q in s.profiles && id in s.pools && x in s.pools
    ensures var pool := Link(Unlink(s.pools, s.profiles[q].poolId, q), id, q)[x];
            && Distinct(pool.profiles) && pool.numRef == |pool.profiles|
            && forall y :: y in pool.profiles <==> if y == q then x == id else y in s.pools[x].profiles
  {
    hide Without, Distinct, AttachmentsExact;
    var l := s.pools[x].profiles;
    assert ProfileListed(s, q) && PoolListed(s, x);
    WithoutFacts(l, q);
    assert x == s.profiles[q].poolId <==> q in l;
    AppendDistinct(Without(l, q), q);
  }

  lemma MovedKeys(pools: map<Oid, Pool>, was: Oid, id: Oid, q: Oid)
    ensures Link(Unlink(pools, was, q), id, q).Keys == pools.Keys
  {
    hide Without;
  }

  lemma WithoutFacts(l: seq<Oid>, q: Oid)
    requires Distinct(l)
    ensures Distinct(Without(l, q)) && |Without(l, q)| == if q in l then |l| - 1 else |l|
    ensures forall y :: y in Without(l, q) <==> y in l && y != q
  {
  }

  lemma MoveRefs(s: State, q: Oid, id: Oid)
    requires Refs(s) && q in s.profiles && id in s.pools
    ensures Refs(s.(pools := Link(Unlink(s.pools, s.profiles[q].poolId, q), id, q),
                    profiles := s.profiles[q := s.profiles[q].(poolId := id)]))
  {
    hide PoolListed, ProfileListed, AttachmentsExact, Link, Unlink;
    var pools := Link(Unlink(s.pools, s.profiles[q].poolId, q), id, q);
    var t := s.(pools := pools, profiles := s.profiles[q := s.profiles[q].(poolId := id)]);
    MovedKeys(s.pools, s.profiles[q].poolId, id, q);
    MovedPools(s, q, id, t);
    MovedProfiles(s, q, id, t);
    AttachmentsKept(s, t);
  }

  lemma MovedProfiles(s: State, q: Oid, id: Oid, t: State)
    requires Refs(s) && q in s.profiles && id in s.pools
    requires t.pools == Link(Unlink(s.pools, s.profiles[q].poolId, q), id, q)
    requires t.profiles == s.profiles[q := s.profiles[q].(poolId := id)]
    ensures forall x :: x in t.profiles ==> ProfileListed(t, x)
  {
    hide Distinct, PoolListed, AttachmentsExact, Link, Unlink;
    MovedKeys(s.pools, s.profiles[q].poolId, id, q);
    forall x | x in t.profiles
      ensures ProfileListed(t, x)
    {
      assert ProfileListed(s, x);
      MovedPool(s, q, id, t.profiles[x].poolId);
    }
  }

  lemma MovedPools(s: State, q: Oid, id: Oid, t: State)
    requires Refs(s) && q in s.profiles && id in s.pools
    requires t.pools == Link(Unlink(s.pools, s.profiles[q].poolId, q), id, q)
    requires t.profiles == s.profiles[q := s.profiles[q].(poolId := id)]
    ensures forall x :: x in t.pools ==> PoolListed(t, x)
  {
    hide Without, Distinct, AttachmentsExact, Link, Unlink;
    MovedKeys(s.pools, s.profiles[q].poolId, id, q);
    forall x | x in t.pools
      ensures PoolListed(t, x)
    {
      MovedPool(s, q, id, x);
      assert PoolListed(s, x);
    }
  }

  lemma UpdateObjectsRefs(s: State, q: Oid, a: ProfileAttr, v: nat -> bool)
    requires Refs(s) && q in s.profiles
    requires !a.UnknownProfileAttr? && (a.PoolIdAttr? ==> a.poolId in s.pools)
    ensures Refs(UpdateObjectsSpec(s, q, a, v).1)
    ensures UpdateObjectsSpec(s, q, a, v).1.profiles.Keys == s.profiles.Keys
  {
    hide Push, Link, Unlink, Refs;
    var t := UpdateObjectsSpec(s, q, a, v).1;
    var s1 := s.(hw := t.hw, calls := t.calls);
    SameLinksRefs(s, s1);
    if a.PoolIdAttr? {
      assert s.profiles[q].poolId != NULL_ID by {
        NamedPoolNotNull(s, q);
      }
      MoveRefs(s1, q, a.poolId);
    } else {
      SameLinksRefs(s1, t);
    }
  }

  lemma NamedPoolNotNull(s: State, q: Oid)
    requires Refs(s) && q in s.profiles
    ensures s.profiles[q].poolId in s.pools && s.profiles[q].poolId != NULL_ID
  {
    assert ProfileListed(s, q);
  }

  lemma SetProfileRefs(s: State, q: Oid, a: ProfileAttr, v: nat -> bool)
    requires Refs(s)
    ensures Refs(SetProfileSpec(s, q, a, v).1)
  {
    hide Refs, CheckValue, CheckSize, UpdateObjectsSpec, SettleSpec;
    if !a.UnknownProfileAttr? && q in s.profiles && CheckValue(s.pools, s.profiles[q], a) == Success {
      var p := s.profiles[q];
      var c := CheckSize(s, p, a, v);
      var s1 := s.(calls := c.calls);
      SameLinksRefs(s, s1);
      if a.PoolIdAttr? {
        CheckedPool(s.pools, p, a);
      }
      UpdateObjectsRefs(s1, q, a, v);
      SettleRefs(UpdateObjectsSpec(s1, q, a, v).1, p.poolId, q, a, c.amount, c.isAdd, v);
    }
  }

  lemma CheckedPool(pools: map<Oid, Pool>, p: Profile, a: ProfileAttr)
    requires CheckValue(pools, p, a) == Success && a.PoolIdAttr?
    ensures a.poolId in pools
  {
  }

  lemma SettleRefs(s: State, oldPool: Oid, q: Oid, a: ProfileAttr, amount: u32, isAdd: bool, v: nat -> bool)
    requires Refs(s) && q in s.profiles
    ensures Refs(SettleSpec(s, oldPool, q, a, amount, isAdd, v))
  {
    hide Refs, RecalcSpec;
    if a.PoolIdAttr? {
      RecalcRefs(s, oldPool, amount, false, v);
      RecalcRefs(RecalcSpec(s, oldPool, amount, false, v).1, a.poolId, amount, true, v);
    } else {
      RecalcRefs(s, s.profiles[q].poolId, amount, isAdd, v);
    }
  }

  // ---------------------------------------------------------------------------------------------
  // Creating and removing
  // ---------------------------------------------------------------------------------------------

  lemma CreatePoolRefs(s: State, attrs: seq<PoolAttr>, id: Oid, v: nat -> bool)
    requires Refs(s) && id != NULL_ID && id !in s.pools
    ensures Refs(CreatePoolSpec(s, attrs, id, v).1)
  {
    hide Refs, ApplyPoolAttrs, SharedInt32;
    var (st, t) := CreatePoolSpec(s, attrs, id, v);
    if st == Success {
      ApplyPoolAttrsLinks(NEW_POOL, attrs, false);
      NewPoolRefs(s, t, id);
    } else {
      SameLinksRefs(s, t);
    }
  }

  lemma NewPoolRefs(s: State, t: State, id: Oid)
    requires Refs(s) && id != NULL_ID && id !in s.pools
    requires id in t.pools && t.pools == s.pools[id := t.pools[id]] && t.profiles == s.profiles
      && t.objects == s.objects
    requires t.pools[id].profiles == [] && t.pools[id].numRef == 0
    ensures Refs(t)
  {
    forall x | x in t.pools
      ensures PoolListed(t, x)
    {
      assert x in s.pools ==> PoolListed(s, x);
    }
    forall q | q in t.profiles
      ensures ProfileListed(t, q)
    {
      assert ProfileListed(s, q);
    }
    AttachmentsKept(s, t);
  }

  lemma {:induction false} ApplyPoolAttrsLinks(p: Pool, attrs: seq<PoolAttr>, xoffSeen: bool)
    ensures var r := ApplyPoolAttrs(p, attrs, xoffSeen).1;
            r.profiles == p.profiles && r.numRef == p.numRef && r.sharedSize == p.sharedSize
    decreases |attrs|
  {
    if attrs != [] {
      ApplyPoolAttrsLinks(SetPoolField(p, attrs[0]), attrs[1..], xoffSeen || attrs[0].XoffSizeAttr?);
    }
  }

  lemma RemovePoolRefs(s: State, id: Oid, v: nat -> bool)
    requires Refs(s)
    ensures Refs(RemovePoolSpec(s, id, v).1)
  {
    hide Refs;
    var (st, t) := RemovePoolSpec(s, id, v);
    if st == Success {
      TakenPoolRefs(s, t, id);
    } else {
      SameLinksRefs(s, t);
    }
  }

  lemma TakenPoolRefs(s: State, t: State, id: Oid)
    requires Refs(s) && id in s.pools && s.pools[id].numRef == 0
    requires t.pools == s.pools - {id} && t.profiles == s.profiles && t.objects == s.objects
    ensures Refs(t)
  {
    hide Distinct, AttachmentsExact;
    assert PoolListed(s, id);
    forall x | x in t.pools
      ensures PoolListed(t, x)
    {
      assert PoolListed(s, x);
    }
    forall q | q in t.profiles
      ensures ProfileListed(t, q)
    {
      assert ProfileListed(s, q);
    }
    AttachmentsKept(s, t);
  }

  lemma SetPoolLinks(s: State, id: Oid, a: PoolAttr, v: nat -> bool)
    ensures SameLinks(s, SetPoolSpec(s, id, a, v).1)
  {
    hide ApplyPoolAttrs, SharedInt32, SameLists;
    if id in s.pools {
      ApplyPoolAttrsLinks(s.pools[id], [a], false);
    }
    SameListsAll(s);
  }

  lemma SetPoolRefs(s: State, id: Oid, a: PoolAttr, v: nat -> bool)
    requires Refs(s)
    ensures Refs(SetPoolSpec(s, id, a, v).1)
  {
    hide Refs, SetPoolSpec, SameLinks;
    SetPoolLinks(s, id, a, v);
    SameLinksRefs(s, SetPoolSpec(s, id, a, v).1);
  }

  /**
   The attribute list of a new profile names its pool exactly once, so the node ends up in exactly that
   pool's list.
   */
  lemma {:induction false} UpdateNodeAllEffect(pools: map<Oid, Pool>, p: Profile, q: Oid, attrs: seq<ProfileAttr>)
    requires forall i :: 0 <= i < |attrs| ==>
      !attrs[i].UnknownProfileAttr?
      && (attrs[i].PoolIdAttr? ==> attrs[i].poolId in pools)
    requires forall i, j :: 0 <= i < j < |attrs| ==> !SameAttr(attrs[i], attrs[j])
    requires p.poolId != NULL_ID ==> forall i :: 0 <= i < |attrs| ==> !attrs[i].PoolIdAttr?
    ensures var (st, pools1, p1) := UpdateNodeAll(pools, p, q, attrs);
            && st == Success
            && p1.numRef == p.numRef && p1.ports == p.ports && p1.queues == p.queues && p1.pgs == p.pgs
            && (if ListedPool(attrs) == None then p1.poolId == p.poolId && pools1 == pools
                else p1.poolId == ListedPool(attrs).value && pools1 == Link(pools, p1.poolId, q))
    decreases |attrs|
  {
    if attrs == [] {
    } else {
      var (st, pools1, p1) := UpdateNode(pools, p, q, attrs[0]);
      ListedPoolTail(attrs);
      assert forall i :: 0 <= i < |attrs[1..]| ==> attrs[1..][i] == attrs[i + 1];
      if attrs[0].PoolIdAttr? {
        forall i | 0 <= i < |attrs[1..]|
          ensures !attrs[1..][i].PoolIdAttr?
        {
          assert !SameAttr(attrs[0], attrs[i + 1]);
        }
        NoListedPool(attrs[1..]);
      }
      UpdateNodeAllEffect(pools1, p1, q, attrs[1..]);
    }
  }

  lemma {:induction false} ListedPoolTail(attrs: seq<ProfileAttr>)
    requires attrs != []
    ensures ListedPool(attrs) == if ListedPool(attrs[1..]) != None then ListedPool(attrs[1..])
                                 else if attrs[0].PoolIdAttr? then Some(attrs[0].poolId) else None
  {
    if |attrs| > 1 {
      ListedPoolTail(attrs[..|attrs| - 1]);
      assert attrs[1..][..|attrs| - 2] == attrs[..|attrs| - 1][1..];
    }
  }

  lemma {:induction false} NoListedPool(attrs: seq<ProfileAttr>)
    requires forall i :: 0 <= i < |attrs| ==> !attrs[i].PoolIdAttr?
    ensures ListedPool(attrs) == None
  {
    if attrs != [] {
      NoListedPool(attrs[..|attrs| - 1]);
    }
  }

  lemma {:induction false} ListedPoolIn(attrs: seq<ProfileAttr>, i: nat)
    requires i < |attrs| && attrs[i].PoolIdAttr?
    requires forall i, j :: 0 <= i < j < |attrs| ==> !SameAttr(attrs[i], attrs[j])
    ensures ListedPool(attrs) == Some(attrs[i].poolId)
  {
    if i < |attrs| - 1 {
      assert !SameAttr(attrs[i], attrs[|attrs| - 1]);
      ListedPoolIn(attrs[..|attrs| - 1], i);
    }
  }

  /** What a profile create that passes the checks has built before it asks the NPU. */
  lemma CreatedNode(s: State, attrs: seq<ProfileAttr>, id: Oid)
    requires WellFormedAttrs(attrs) && MandatoryThSpec(s.pools, attrs) == Success
    ensures var (st, pools, p) := UpdateNodeAll(s.pools, NEW_PROFILE, id, attrs);
            && st == Success && ListedPool(attrs) == Some(p.poolId) && p.poolId in s.pools
            && pools == Link(s.pools, p.poolId, id)
            && p.numRef == 0 && p.ports == [] && p.queues == [] && p.pgs == []
  {
    forall i | 0 <= i < |attrs| && attrs[i].PoolIdAttr?
      ensures attrs[i].poolId in s.pools
    {
      ListedPoolIn(attrs, i);
    }
    UpdateNodeAllEffect(s.pools, NEW_PROFILE, id, attrs);
  }

  /** The create passes every check but the NPU rejects it, after the node was linked. */
  ghost predicate LateCreateFailure(s: State, attrs: seq<ProfileAttr>, v: nat -> bool) {
    && WellFormedAttrs(attrs)
    && MandatoryThSpec(s.pools, attrs) == Success && PfcSpec(s.pools, attrs) == Success
    && !v(s.calls)
  }

  /** A profile create keeps the references exact if and only if the NPU does not reject it late. */
  lemma CreateProfileRefs(s: State, attrs: seq<ProfileAttr>, id: Oid, v: nat -> bool)
    requires Refs(s) && id != NULL_ID && id !in s.profiles
    ensures Refs(CreateProfileSpec(s, attrs, id, v).1) <==> !LateCreateFailure(s, attrs, v)
  {
    var (st, t) := CreateProfileSpec(s, attrs, id, v);
    if WellFormedAttrs(attrs) && MandatoryThSpec(s.pools, attrs) == Success && PfcSpec(s.pools, attrs) == Success {
      CreatedNode(s, attrs, id);
      var p := UpdateNodeAll(s.pools, NEW_PROFILE, id, attrs).2;
      assert id in t.pools[p.poolId].profiles;
      if v(s.calls) {
        LinkedRefs(s, p, id, t);
      } else {
        assert !PoolListed(t, p.poolId);
      }
    }
  }

  lemma LinkedRefs(s: State, p: Profile, id: Oid, t: State)
    requires Refs(s) && id != NULL_ID && id !in s.profiles && p.poolId in s.pools
    requires p.numRef == 0 && p.ports == [] && p.queues == [] && p.pgs == []
    requires t.pools == Link(s.pools, p.poolId, id) && t.profiles == s.profiles[id := p] && t.objects == s.objects
    ensures Refs(t)
  {
    hide PoolListed, AttachmentsExact;
    LinkedPools(s, p, id, t);
    NewAttachments(s, p, id, t);
    assert forall q :: q in s.profiles ==> ProfileListed(s, q);
  }

  lemma LinkedPools(s: State, p: Profile, id: Oid, t: State)
    requires Refs(s) && id !in s.profiles && p.poolId in s.pools
    requires t.pools == Link(s.pools, p.poolId, id) && t.profiles == s.profiles[id := p]
    ensures forall x :: x in t.pools ==> PoolListed(t, x)
  {
    hide Without, Distinct, AttachmentsExact;
    forall x | x in t.pools
      ensures PoolListed(t, x)
    {
      assert PoolListed(s, x);
      if x == p.poolId {
        AppendDistinct(s.pools[x].profiles, id);
      }
    }
  }

  lemma RemoveProfileRefs(s: State, q: Oid, v: nat -> bool)
    requires Refs(s)
    ensures Refs(RemoveProfileSpec(s, q, v).1)
  {
    hide Refs, Without, Unlink;
    var (st, t) := RemoveProfileSpec(s, q, v);
    if st == Success {
      UnlinkedRefs(s, q, t);
    } else {
      SameLinksRefs(s, t);
    }
  }

  lemma UnlinkedRefs(s: State, q: Oid, t: State)
    requires Refs(s) && q in s.profiles && s.profiles[q].numRef == 0
    requires t.pools == Unlink(s.pools, s.profiles[q].poolId, q) && t.profiles == s.profiles - {q}
      && t.objects == s.objects
    ensures Refs(t)
  {
    hide Without, Distinct;
    UnlinkedPools(s, q, t);
    RemovedAttachments(s, q, t);
    forall x | x in t.profiles
      ensures ProfileListed(t, x)
    {
      assert ProfileListed(s, x);
    }
  }

  lemma UnlinkedPools(s: State, q: Oid, t: State)
    requires Refs(s) && q in s.profiles
    requires t.pools == Unlink(s.pools, s.profiles[q].poolId, q) && t.profiles == s.profiles - {q}
    ensures forall x :: x in t.pools ==> PoolListed(t, x)
    ensures forall x :: x in t.pools ==> forall y :: y in t.pools[x].profiles <==> y in s.pools[x].profiles && y != q
  {
    hide Without, Distinct, AttachmentsExact;
    assert ProfileListed(s, q);
    forall x | x in t.pools
      ensures PoolListed(t, x)
      ensures forall y :: y in t.pools[x].profiles <==> y in s.pools[x].profiles && y != q
    {
      assert PoolListed(s, x);
      WithoutFacts(s.pools[x].profiles, q);
    }
  }

  // ---------------------------------------------------------------------------------------------
  // Consequences
  // ---------------------------------------------------------------------------------------------

  ghost function ProfilesNaming(s: State, id: Oid): set<Oid> {
    set q | q in s.profiles && s.profiles[q].poolId == id
  }

  /** A pool's count is the number of profiles naming it. */
  lemma PoolCountExact(s: State, id: Oid)
    requires Refs(s) && id in s.pools
    ensures s.pools[id].numRef == |ProfilesNaming(s, id)|
  {
    var l := s.pools[id].profiles;
    assert PoolListed(s, id);
    DistinctCardinality(l);
    forall q | q in ProfilesNaming(s, id)
      ensures q in ToSet(l)
    {
      assert ProfileListed(s, q);
    }
    assert ToSet(l) == ProfilesNaming(s, id);
  }
}
