/**
 No pool is removed while a profile names it, over every run: late failing creates leave stale entries in
 the list of a pool, but never take one away.
 */
module QosBufferHolding {
  import opened Common
  import opened QosBufferState
  import opened QosBufferWalk
  import opened QosBufferSpec
  import opened QosBufferAttachments
  import opened QosBufferRefs

  lemma RefsHeld(s: State)
    requires Refs(s)
    ensures Held(s)
  {
    hide AttachmentsExact, ProfileListed;
    assert forall id :: id in s.pools ==> PoolListed(s, id);
  }

  lemma PoolHeld(s: State, q: Oid)
    requires Held(s) && q in s.profiles
    ensures s.profiles[q].poolId in s.pools && s.profiles[q].poolId != NULL_ID
      && q in s.pools[s.profiles[q].poolId].profiles
  {
    hide AttachmentsExact;
    assert ProfileListed(s, q);
  }

  lemma SameLinksHeld(s: State, t: State)
    requires Held(s) && SameLinks(s, t) && AttachmentsExact(t)
    ensures Held(t)
  {
    hide AttachmentsExact;
    forall q | q in t.profiles
      ensures ProfileListed(t, q)
    {
      assert ProfileListed(s, q);
    }
  }

  lemma NewPoolHeld(s: State, t: State, id: Oid)
    requires Held(s) && AttachmentsExact(t) && id != NULL_ID && id !in s.pools && id in t.pools
    requires t.pools == s.pools[id := t.pools[id]] && t.profiles == s.profiles
    requires t.pools[id].profiles == [] && t.pools[id].numRef == 0
    ensures Held(t)
  {
    hide AttachmentsExact;
    forall q | q in t.profiles
      ensures ProfileListed(t, q)
    {
      assert ProfileListed(s, q);
    }
  }

  lemma TakenPoolHeld(s: State, t: State, id: Oid)
    requires Held(s) && AttachmentsExact(t) && id in s.pools && s.pools[id].numRef == 0
    requires t.pools == s.pools - {id} && t.profiles == s.profiles
    ensures Held(t)
  {
    hide AttachmentsExact;
    forall q | q in t.profiles
      ensures ProfileListed(t, q)
    {
      assert ProfileListed(s, q) && s.pools[id].profiles == [];
    }
  }

  /** Linking a profile, created or not. */
  lemma LinkedHeld(s: State, t: State, id: Oid, q: Oid)
    requires Held(s) && AttachmentsExact(t) && id in s.pools && t.pools == Link(s.pools, id, q)
    requires forall x :: x in t.profiles ==> if x == q then t.profiles[x].poolId == id
                                             else x in s.profiles && t.profiles[x].poolId == s.profiles[x].poolId
    ensures Held(t)
  {
    hide AttachmentsExact;
    forall x | x in t.profiles
      ensures ProfileListed(t, x)
    {
      assert x in s.profiles ==> ProfileListed(s, x);
    }
  }

  /** Unlinking a profile takes nothing but that profile out of a list. */
  lemma UnlinkKeeps(pools: map<Oid, Pool>, id: Oid, q: Oid, x: Oid, p: Oid)
    requires p in pools && x in pools[p].profiles && x != q
    ensures p in Unlink(pools, id, q) && x in Unlink(pools, id, q)[p].profiles
  {
    hide Distinct;
  }

  lemma UnlinkCounts(pools: map<Oid, Pool>, id: Oid, q: Oid, p: Oid)
    requires p in pools && pools[p].numRef == |pools[p].profiles| && (p == id ==> q in pools[p].profiles)
    ensures p in Unlink(pools, id, q) && Unlink(pools, id, q)[p].numRef == |Unlink(pools, id, q)[p].profiles|
  {
    hide Distinct;
  }

  lemma UnlinkedHeld(s: State, t: State, q: Oid)
    requires Held(s) && AttachmentsExact(t) && q in s.profiles
    requires t.pools == Unlink(s.pools, s.profiles[q].poolId, q) && t.profiles == s.profiles - {q}
    ensures Held(t)
  {
    hide AttachmentsExact, Without, Unlink;
    UnlinkPools(s.pools, s.profiles[q].poolId, q);
    assert ProfileListed(s, q);
    forall id | id in t.pools
      ensures t.pools[id].numRef == |t.pools[id].profiles|
    {
      UnlinkCounts(s.pools, s.profiles[q].poolId, q, id);
    }
    forall x | x in t.profiles
      ensures ProfileListed(t, x)
    {
      assert ProfileListed(s, x);
      UnlinkKeeps(s.pools, s.profiles[q].poolId, q, x, s.profiles[x].poolId);
    }
  }

  lemma UnlinkPools(pools: map<Oid, Pool>, id: Oid, q: Oid)
    ensures Unlink(pools, id, q).Keys == pools.Keys
  {
    hide Without;
  }

  /** A move is an unlink and a link. */
  lemma MovedHeld(s: State, t: State, q: Oid, to: Oid)
    requires Held(s) && AttachmentsExact(t) && q in s.profiles && to in s.pools
    requires t.pools == Link(Unlink(s.pools, s.profiles[q].poolId, q), to, q)
    requires t.profiles == s.profiles[q := s.profiles[q].(poolId := to)]
    ensures Held(t)
  {
    hide AttachmentsExact, Without, Unlink, Link;
    var from := s.profiles[q].poolId;
    var pools := Unlink(s.pools, from, q);
    UnlinkPools(s.pools, from, q);
    LinkPools(pools, to, q);
    assert ProfileListed(s, q);
    forall id | id in t.pools
      ensures t.pools[id].numRef == |t.pools[id].profiles|
    {
      UnlinkCounts(s.pools, from, q, id);
      LinkCounts(pools, to, q, id);
    }
    forall x | x in t.profiles
      ensures ProfileListed(t, x)
    {
      if x != q {
        assert ProfileListed(s, x);
        UnlinkKeeps(s.pools, from, q, x, s.profiles[x].poolId);
        LinkCounts(pools, to, q, s.profiles[x].poolId);
      } else {
        LinkCounts(pools, to, q, to);
      }
    }
  }

  lemma LinkPools(pools: map<Oid, Pool>, id: Oid, q: Oid)
    ensures Link(pools, id, q).Keys == pools.Keys
  {
  }

  lemma LinkCounts(pools: map<Oid, Pool>, id: Oid, q: Oid, p: Oid)
    requires p in pools
    ensures var r := Link(pools, id, q);
            && p in r
            && (pools[p].numRef == |pools[p].profiles| ==> r[p].numRef == |r[p].profiles|)
            && (forall x :: x in pools[p].profiles ==> x in r[p].profiles)
            && (p == id ==> q in r[p].profiles)
  {
  }

  // ---------------------------------------------------------------------------------------------
  // The calls
  // ---------------------------------------------------------------------------------------------

  lemma PoolCallHeld(s: State, r: Request, v: nat -> bool)
    requires Held(s) && FreshIds(s, r) && (r.CreatePool? || r.RemovePool? || r.SetPool?)
    ensures Held(Step(s, r, v).1)
  {
    hide Held, ApplyPoolAttrs, ValidateShared, SetPoolSpec, SameLinks;
    var (st, t) := Step(s, r, v);
    HeldAttachments(s);
    StepAttachments(s, r, v);
    match r {
      case CreatePool(attrs, id) =>
        if st == Success {
          CreatedPoolLinks(s, attrs, id, v);
          NewPoolHeld(s, t, id);
        } else {
          SameLinksSelf(s, t);
          SameLinksHeld(s, t);
        }
      case RemovePool(id) =>
        if st == Success {
          TakenPoolHeld(s, t, id);
        } else {
          SameLinksSelf(s, t);
          SameLinksHeld(s, t);
        }
      case SetPool(id, a) =>
        SetPoolLinks(s, id, a, v);
        SameLinksHeld(s, t);
    }
  }

  lemma CreatedPoolLinks(s: State, attrs: seq<PoolAttr>, id: Oid, v: nat -> bool)
    requires CreatePoolSpec(s, attrs, id, v).0 == Success
    ensures var t := CreatePoolSpec(s, attrs, id, v).1;
            && id in t.pools && t.pools == s.pools[id := t.pools[id]] && t.profiles == s.profiles
            && t.pools[id].profiles == [] && t.pools[id].numRef == 0
  {
    hide SharedInt32;
    ApplyPoolAttrsLinks(NEW_POOL, attrs, false);
    hide ApplyPoolAttrs;
  }

  lemma HeldAttachments(s: State)
    requires Held(s)
    ensures AttachmentsExact(s)
  {
  }

  lemma SameLinksSelf(s: State, t: State)
    requires s.pools == t.pools && s.profiles == t.profiles && s.objects == t.objects
    ensures SameLinks(s, t)
  {
  }

  lemma CreateProfileHeld(s: State, attrs: seq<ProfileAttr>, id: Oid, v: nat -> bool)
    requires Held(s) && id != NULL_ID && id !in s.profiles
    ensures Held(CreateProfileSpec(s, attrs, id, v).1)
  {
    hide Held, AttachmentsExact, WellFormedAttrs, MandatoryThSpec, PfcSpec, UpdateNodeAll, Link, SameLinks;
    var (st, t) := CreateProfileSpec(s, attrs, id, v);
    HeldAttachments(s);
    CreateProfileAttachments(s, attrs, id, v);
    if WellFormedAttrs(attrs) && MandatoryThSpec(s.pools, attrs) == Success && PfcSpec(s.pools, attrs) == Success {
      CreatedNode(s, attrs, id);
      LinkedHeld(s, t, UpdateNodeAll(s.pools, NEW_PROFILE, id, attrs).2.poolId, id);
    } else {
      SameLinksSelf(s, t);
      SameLinksHeld(s, t);
    }
  }

  lemma RemoveProfileHeld(s: State, q: Oid, v: nat -> bool)
    requires Held(s)
    ensures Held(RemoveProfileSpec(s, q, v).1)
  {
    hide Held, AttachmentsExact, Unlink, SameLinks;
    var (st, t) := RemoveProfileSpec(s, q, v);
    HeldAttachments(s);
    if st == Success {
      RemovedAttachments(s, q, t);
      UnlinkedHeld(s, t, q);
    } else {
      SameProfiles(s, t);
      SameLinksSelf(s, t);
      SameLinksHeld(s, t);
    }
  }

  lemma RecalcHeld(s: State, id: Oid, amount: u32, isAdd: bool, v: nat -> bool)
    requires Held(s)
    ensures Held(RecalcSpec(s, id, amount, isAdd, v).1)
  {
    hide Held, AttachmentsExact, SameLinks, RecalcSpec;
    var t := RecalcSpec(s, id, amount, isAdd, v).1;
    HeldAttachments(s);
    RecalcSameLinks(s, id, amount, isAdd, v);
    RecalcProfiles(s, id, amount, isAdd, v);
    SameProfiles(s, t);
    SameLinksHeld(s, t);
  }

  lemma UpdateObjectsPools(s: State, q: Oid, a: ProfileAttr, v: nat -> bool)
    requires q in s.profiles && s.profiles[q].poolId != NULL_ID && (a.PoolIdAttr? ==> a.poolId in s.pools)
    ensures var (st, t) := UpdateObjectsSpec(s, q, a, v);
            if a.PoolIdAttr? && st == Success then
              && t.pools == Link(Unlink(s.pools, s.profiles[q].poolId, q), a.poolId, q)
              && t.profiles == s.profiles[q := s.profiles[q].(poolId := a.poolId)]
            else
              && t.pools == s.pools && t.profiles.Keys == s.profiles.Keys
              && forall x :: x in s.profiles ==> t.profiles[x].poolId == s.profiles[x].poolId
  {
    hide Push, Link, Unlink;
  }

  lemma UpdateObjectsHeld(s: State, q: Oid, a: ProfileAttr, v: nat -> bool)
    requires Held(s) && q in s.profiles && (a.PoolIdAttr? ==> a.poolId in s.pools)
    ensures Held(UpdateObjectsSpec(s, q, a, v).1)
  {
    hide Held, AttachmentsExact, SameLists, UpdateObjectsSpec, Link, Unlink;
    PoolHeld(s, q);
    HeldAttachments(s);
    UpdateObjectsLists(s, q, a, v);
    UpdateObjectsPools(s, q, a, v);
    var (st, t) := UpdateObjectsSpec(s, q, a, v);
    AttachmentsKept(s, t);
    if a.PoolIdAttr? && st == Success {
      MovedHeld(s, t, q, a.poolId);
    } else {
      SameLinksHeld(s, t);
    }
  }

  lemma SetProfileHeld(s: State, q: Oid, a: ProfileAttr, v: nat -> bool)
    requires Held(s)
    ensures Held(SetProfileSpec(s, q, a, v).1)
  {
    hide Held, CheckValue, CheckSize, UpdateObjectsSpec, RecalcSpec, AttachmentsExact;
    HeldAttachments(s);
    if !a.UnknownProfileAttr? && q in s.profiles && CheckValue(s.pools, s.profiles[q], a) == Success {
      var p := s.profiles[q];
      var c := CheckSize(s, p, a, v);
      var s1 := s.(calls := c.calls);
      SameProfiles(s, s1);
      SameLinksSelf(s, s1);
      SameLinksHeld(s, s1);
      if a.PoolIdAttr? {
        CheckedPool(s.pools, p, a);
      }
      UpdateObjectsHeld(s1, q, a, v);
      var s2 := UpdateObjectsSpec(s1, q, a, v).1;
      UpdateObjectsLists(s1, q, a, v);
      RecalcHeld(s2, p.poolId, c.amount, false, v);
      RecalcHeld(s2, s2.profiles[q].poolId, c.amount, c.isAdd, v);
      if a.PoolIdAttr? {
        RecalcHeld(RecalcSpec(s2, p.poolId, c.amount, false, v).1, a.poolId, c.amount, true, v);
      }
    }
  }

  lemma SetObjectHeld(s: State, o: ObjId, q: Oid, v: nat -> bool)
    requires Held(s)
    ensures Held(SetObjectSpec(s, o, q, v).1)
  {
    hide Held, AttachmentsExact, CalcPoolSize, RecalcSpec, Relinked, UnitSize, PoolOf, HwSettingOf;
    var (st, t) := SetObjectSpec(s, o, q, v);
    HeldAttachments(s);
    if o in s.objects && s.objects[o] != q && st == Success {
      var was := s.objects[o];
      var from, to := PoolOf(s, was), PoolOf(s, q);
      var c := CalcPoolSize(s.pools, from, to, was == NULL_ID || !s.profiles[was].thEnable,
                            UnitSize(s, was), UnitSize(s, q));
      var s1 := s.(hw := s.hw[o := HwSettingOf(s, q)], calls := s.calls + 1);
      var s2 := Relinked(s1, o, q);
      SameProfiles(s, s1);
      SameLinksSelf(s, s1);
      SameLinksHeld(s, s1);
      RelinkedHeld(s1, o, q);
      RecalcHeld(s2, from, c.amount, c.isAdd, v);
      RecalcHeld(s2, from, UnitSize(s, was), false, v);
      var s3 := if from != NULL_ID then RecalcSpec(s2, from, UnitSize(s, was), false, v).1 else s2;
      RecalcHeld(s3, to, UnitSize(s, q), true, v);
    } else {
      SameProfiles(s, t);
      SameLinksSelf(s, t);
      SameLinksHeld(s, t);
    }
  }

  lemma RelinkedHeld(s: State, o: ObjId, q: Oid)
    requires Held(s) && o in s.objects && s.objects[o] != q
    requires q != NULL_ID ==> q in s.profiles && !o.Other?
    ensures Held(Relinked(s, o, q))
  {
    hide AttachmentsExact, Attached, Detached, Without;
    var t := Relinked(s, o, q);
    RelinkedAttachments(s, o, q);
    forall x | x in t.profiles
      ensures ProfileListed(t, x)
    {
      assert ProfileListed(s, x);
      AttachedPool(s.profiles[x], o);
      RelinkedProfile(s, o, q, x);
    }
  }

  /** Every step keeps every profile's pool, and every count the length of its list. */
  lemma StepHeld(s: State, r: Request, v: nat -> bool)
    requires Held(s) && FreshIds(s, r)
    ensures Held(Step(s, r, v).1)
  {
    hide Held, CreatePoolSpec, RemovePoolSpec, SetPoolSpec, CreateProfileSpec, RemoveProfileSpec, SetProfileSpec,
         SetObjectSpec;
    match r {
      case CreatePool(_, _) => PoolCallHeld(s, r, v);
      case RemovePool(_) => PoolCallHeld(s, r, v);
      case SetPool(_, _) => PoolCallHeld(s, r, v);
      case CreateProfile(attrs, id) => CreateProfileHeld(s, attrs, id, v);
      case RemoveProfile(id) => RemoveProfileHeld(s, id, v);
      case SetProfile(id, a) => SetProfileHeld(s, id, a, v);
      case SetObject(o, id) => SetObjectHeld(s, o, id, v);
    }
  }
}
