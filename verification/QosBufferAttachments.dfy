/**
 The attachments of ports, queues and priority groups to profiles stay exact over every call, whatever
 the NPU answers: they do not depend on the pools.
 */
module QosBufferAttachments {
  import opened Common
  import opened QosBufferState
  import opened QosBufferWalk
  import opened QosBufferSpec

  ghost predicate SameLists(p: Profile, r: Profile) {
    p.numRef == r.numRef && p.ports == r.ports && p.queues == r.queues && p.pgs == r.pgs
  }

  lemma SameListsAll(s: State)
    ensures forall q :: q in s.profiles ==> SameLists(s.profiles[q], s.profiles[q])
  {
  }

  lemma CountsExact(s: State, q: Oid)
    requires AttachmentsExact(s) && q in s.profiles
    ensures ProfileCounts(s.profiles[q])
  {
  }

  /** Only ports, queues and priority groups have a profile. */
  lemma OthersUnattached(s: State)
    requires AttachmentsExact(s)
    ensures NULL_ID !in s.profiles
    ensures forall o: ObjId :: o.Other? && o in s.objects ==> s.objects[o] == NULL_ID
  {
    assert forall o :: o in s.objects ==> ObjectListed(s, o);
  }

  // ---------------------------------------------------------------------------------------------
  // Moving one object
  // ---------------------------------------------------------------------------------------------

  lemma AppendDistinct<T>(l: seq<T>, x: T)
    requires Distinct(l) && x !in l
    ensures Distinct(l + [x])
  {
  }

  lemma DetachedCounts(p: Profile, o: ObjId)
    requires ProfileCounts(p) && o in ListFor(p, o)
    ensures ProfileCounts(Detached(p, o))
    ensures forall x :: x in ListFor(Detached(p, o), x) <==> x in ListFor(p, x) && x != o
  {
  }

  lemma AttachedCounts(p: Profile, o: ObjId)
    requires ProfileCounts(p) && o !in ListFor(p, o) && !o.Other?
    ensures ProfileCounts(Attached(p, o))
    ensures forall x :: x in ListFor(Attached(p, o), x) <==> x in ListFor(p, x) || x == o
  {
    AppendDistinct(ListFor(p, o), o);
  }

  /** Relinking changes the attachments of `o` and nothing else. */
  lemma RelinkedProfile(s: State, o: ObjId, q: Oid, x: Oid)
    requires AttachmentsExact(s) && o in s.objects && s.objects[o] != q && x in s.profiles
    requires q != NULL_ID ==> q in s.profiles && !o.Other?
    ensures var r := Relinked(s, o, q).profiles[x];
            && r.poolId == s.profiles[x].poolId && ProfileCounts(r)
            && forall y :: y in ListFor(r, y) <==> if y == o then x == q else y in ListFor(s.profiles[x], y)
  {
    hide Without, ProfileCounts, Attached, Detached;
    assert ObjectListed(s, o) && ProfileCounts(s.profiles[x]) && AttachmentsBack(s, x);
    if x == s.objects[o] {
      DetachedCounts(s.profiles[x], o);
      AttachedPool(s.profiles[x], o);
    } else if x == q {
      AttachedCounts(s.profiles[x], o);
      AttachedPool(s.profiles[x], o);
    }
  }

  lemma AttachedPool(p: Profile, o: ObjId)
    ensures Attached(p, o).poolId == p.poolId && Detached(p, o).poolId == p.poolId
  {
  }

  lemma RelinkedListed(s: State, o: ObjId, q: Oid)
    requires AttachmentsExact(s) && o in s.objects && s.objects[o] != q
    requires q != NULL_ID ==> q in s.profiles && !o.Other?
    ensures forall y :: y in Relinked(s, o, q).objects ==> ObjectListed(Relinked(s, o, q), y)
  {
    hide Distinct, ProfileCounts, Attached, Detached, AttachmentsBack;
    var t := Relinked(s, o, q);
    forall y | y in t.objects
      ensures ObjectListed(t, y)
    {
      assert ObjectListed(s, y);
      if t.objects[y] != NULL_ID {
        RelinkedProfile(s, o, q, t.objects[y]);
      }
    }
  }

  lemma RelinkedAttachments(s: State, o: ObjId, q: Oid)
    requires AttachmentsExact(s) && o in s.objects && s.objects[o] != q
    requires q != NULL_ID ==> q in s.profiles && !o.Other?
    ensures AttachmentsExact(Relinked(s, o, q))
  {
    hide Distinct, ProfileCounts, Attached, Detached, ObjectListed;
    var t := Relinked(s, o, q);
    RelinkedListed(s, o, q);
    forall x | x in t.profiles
      ensures ProfileCounts(t.profiles[x]) && AttachmentsBack(t, x)
    {
      assert AttachmentsBack(s, x);
      RelinkedProfile(s, o, q, x);
    }
  }

  // ---------------------------------------------------------------------------------------------
  // Profiles that come, stay and go
  // ---------------------------------------------------------------------------------------------

  /** Nothing about the attachments depends on anything but the lists, the counts and the objects. */
  lemma AttachmentsKept(s: State, t: State)
    requires AttachmentsExact(s) && t.objects == s.objects && t.profiles.Keys == s.profiles.Keys
    requires forall q :: q in s.profiles ==> SameLists(s.profiles[q], t.profiles[q])
    ensures AttachmentsExact(t)
  {
    hide Distinct;
    forall q | q in t.profiles
      ensures ProfileCounts(t.profiles[q]) && AttachmentsBack(t, q)
    {
      assert ProfileCounts(s.profiles[q]) && AttachmentsBack(s, q);
      assert forall o :: ListFor(t.profiles[q], o) == ListFor(s.profiles[q], o);
    }
    forall o | o in t.objects
      ensures ObjectListed(t, o)
    {
      assert ObjectListed(s, o);
    }
  }

  lemma NoAttachments(p: Profile)
    requires p.numRef == 0 && p.ports == [] && p.queues == [] && p.pgs == []
    ensures ProfileCounts(p) && forall o :: o !in ListFor(p, o)
  {
  }

  lemma NewAttachments(s: State, p: Profile, id: Oid, t: State)
    requires AttachmentsExact(s) && id != NULL_ID && id !in s.profiles
    requires p.numRef == 0 && p.ports == [] && p.queues == [] && p.pgs == []
    requires t.profiles == s.profiles[id := p] && t.objects == s.objects
    ensures AttachmentsExact(t)
  {
    hide ProfileCounts;
    NoAttachments(p);
    forall q | q in t.profiles
      ensures ProfileCounts(t.profiles[q]) && AttachmentsBack(t, q)
    {
      assert q != id ==> AttachmentsBack(s, q);
    }
    assert forall o :: o in t.objects ==> ObjectListed(s, o) && ObjectListed(t, o);
  }

  lemma RemovedAttachments(s: State, q: Oid, t: State)
    requires AttachmentsExact(s) && q in s.profiles && s.profiles[q].numRef == 0
    requires t.profiles == s.profiles - {q} && t.objects == s.objects
    ensures AttachmentsExact(t)
  {
    hide Distinct;
    assert ProfileCounts(s.profiles[q]) && AttachmentsBack(s, q);
    forall x | x in t.profiles
      ensures ProfileCounts(t.profiles[x]) && AttachmentsBack(t, x)
    {
      assert AttachmentsBack(s, x);
    }
    forall o | o in t.objects
      ensures ObjectListed(t, o)
    {
      assert ObjectListed(s, o);
    }
  }

  // ---------------------------------------------------------------------------------------------
  // The calls
  // ---------------------------------------------------------------------------------------------

  lemma SameProfiles(s: State, t: State)
    requires AttachmentsExact(s) && t.objects == s.objects && t.profiles == s.profiles
    ensures AttachmentsExact(t)
  {
    hide AttachmentsExact;
    SameListsAll(s);
    AttachmentsKept(s, t);
  }

  lemma {:induction false} NodeLists(pools: map<Oid, Pool>, p: Profile, q: Oid, attrs: seq<ProfileAttr>)
    ensures SameLists(p, UpdateNodeAll(pools, p, q, attrs).2)
    decreases |attrs|
  {
    hide Link, Unlink;
    if attrs != [] {
      var (st, pools1, p1) := UpdateNode(pools, p, q, attrs[0]);
      NodeLists(pools1, p1, q, attrs[1..]);
    }
  }

  lemma CreateProfileAttachments(s: State, attrs: seq<ProfileAttr>, id: Oid, v: nat -> bool)
    requires AttachmentsExact(s) && id != NULL_ID && id !in s.profiles
    ensures AttachmentsExact(CreateProfileSpec(s, attrs, id, v).1)
  {
    hide AttachmentsExact, WellFormedAttrs, MandatoryThSpec, PfcSpec, UpdateNodeAll;
    var (st, t) := CreateProfileSpec(s, attrs, id, v);
    if st == Success {
      NodeLists(s.pools, NEW_PROFILE, id, attrs);
      NewAttachments(s, t.profiles[id], id, t);
    } else {
      SameProfiles(s, t);
    }
  }

  lemma RecalcProfiles(s: State, id: Oid, amount: u32, isAdd: bool, v: nat -> bool)
    ensures var t := RecalcSpec(s, id, amount, isAdd, v).1; t.profiles == s.profiles && t.objects == s.objects
  {
    hide Wrap;
  }

  lemma UpdateObjectsLists(s: State, q: Oid, a: ProfileAttr, v: nat -> bool)
    requires q in s.profiles
    ensures var t := UpdateObjectsSpec(s, q, a, v).1;
            && t.objects == s.objects && t.profiles.Keys == s.profiles.Keys
            && forall x :: x in s.profiles ==> SameLists(s.profiles[x], t.profiles[x])
  {
    hide Push, Link, Unlink;
  }

  lemma SetProfileAttachments(s: State, q: Oid, a: ProfileAttr, v: nat -> bool)
    requires AttachmentsExact(s)
    ensures AttachmentsExact(SetProfileSpec(s, q, a, v).1)
  {
    hide AttachmentsExact, CheckValue, CheckSize, UpdateObjectsSpec, RecalcSpec, SameLists;
    SameListsAll(s);
    var t := SetProfileSpec(s, q, a, v).1;
    if q in s.profiles {
      var c := CheckSize(s, s.profiles[q], a, v);
      var s1 := s.(calls := c.calls);
      var s2 := UpdateObjectsSpec(s1, q, a, v).1;
      UpdateObjectsLists(s1, q, a, v);
      var from := s.profiles[q].poolId;
      RecalcProfiles(s2, from, c.amount, false, v);
      RecalcProfiles(s2, s2.profiles[q].poolId, c.amount, c.isAdd, v);
      if a.PoolIdAttr? {
        RecalcProfiles(RecalcSpec(s2, from, c.amount, false, v).1, a.poolId, c.amount, true, v);
      }
    }
    AttachmentsKept(s, t);
  }

  lemma SetObjectAttachments(s: State, o: ObjId, q: Oid, v: nat -> bool)
    requires AttachmentsExact(s)
    ensures AttachmentsExact(SetObjectSpec(s, o, q, v).1)
  {
    hide AttachmentsExact, CalcPoolSize, RecalcSpec, Relinked, UnitSize, PoolOf, HwSettingOf;
    var (st, t) := SetObjectSpec(s, o, q, v);
    if o in s.objects && s.objects[o] != q && st == Success {
      var was := s.objects[o];
      var from, to := PoolOf(s, was), PoolOf(s, q);
      var c := CalcPoolSize(s.pools, from, to, was == NULL_ID || !s.profiles[was].thEnable,
                            UnitSize(s, was), UnitSize(s, q));
      var s1 := s.(hw := s.hw[o := HwSettingOf(s, q)], calls := s.calls + 1);
      var s2 := Relinked(s1, o, q);
      SameProfiles(s, s1);
      RelinkedAttachments(s1, o, q);
      RecalcProfiles(s2, from, c.amount, c.isAdd, v);
      RecalcProfiles(s2, from, UnitSize(s, was), false, v);
      var s3 := if from != NULL_ID then RecalcSpec(s2, from, UnitSize(s, was), false, v).1 else s2;
      RecalcProfiles(s3, to, UnitSize(s, q), true, v);
      SameProfiles(s2, t);
    } else {
      SameProfiles(s, t);
    }
  }

  /** Every step keeps the attachments exact, late failing creates and rejected walks included. */
  lemma StepAttachments(s: State, r: Request, v: nat -> bool)
    requires AttachmentsExact(s) && FreshIds(s, r)
    ensures AttachmentsExact(Step(s, r, v).1)
  {
    hide AttachmentsExact, CreateProfileSpec, SetProfileSpec, SetObjectSpec, ApplyPoolAttrs, ValidateShared, Unlink;
    var t := Step(s, r, v).1;
    match r {
      case CreateProfile(attrs, id) => CreateProfileAttachments(s, attrs, id, v);
      case SetProfile(id, a) => SetProfileAttachments(s, id, a, v);
      case SetObject(o, id) => SetObjectAttachments(s, o, id, v);
      case RemoveProfile(q) =>
        if RemoveProfileSpec(s, q, v).0 == Success {
          RemovedAttachments(s, q, t);
        } else {
          SameProfiles(s, t);
        }
      case _ => SameProfiles(s, t);
    }
  }

  /** Every id of the run is fresh when it is handed out. */
  ghost predicate FreshRun(s: State, rs: seq<Request>, v: nat -> bool)
    decreases |rs|
  {
    rs != [] ==> FreshIds(s, rs[0]) && FreshRun(Step(s, rs[0], v).1, rs[1..], v)
  }

  /**
   Over every run a profile's count and lists are exactly the objects naming it, so that no removed profile
   is named.
   */
  lemma {:induction false} RunAttachments(s: State, rs: seq<Request>, v: nat -> bool)
    requires AttachmentsExact(s) && FreshRun(s, rs, v)
    ensures AttachmentsExact(Run(s, rs, v))
    decreases |rs|
  {
    hide AttachmentsExact, Step, FreshIds;
    if rs != [] {
      StepAttachments(s, rs[0], v);
      RunAttachments(Step(s, rs[0], v).1, rs[1..], v);
    }
  }

  // ---------------------------------------------------------------------------------------------
  // Consequences
  // ---------------------------------------------------------------------------------------------

  ghost function ObjectsNaming(s: State, q: Oid): set<ObjId> {
    set o | o in s.objects && s.objects[o] == q
  }

  /** The objects naming a profile are those in its three lists. */
  lemma NamingLists(s: State, q: Oid)
    requires AttachmentsExact(s) && q in s.profiles
    ensures var p := s.profiles[q];
            ObjectsNaming(s, q) == ToSet(p.ports) + ToSet(p.queues) + ToSet(p.pgs)
  {
    hide Without, Distinct;
    var p := s.profiles[q];
    assert ProfileCounts(p) && AttachmentsBack(s, q);
    forall o: ObjId
      ensures o in ObjectsNaming(s, q) <==> o in ToSet(p.ports) + ToSet(p.queues) + ToSet(p.pgs)
    {
      assert o in s.objects ==> ObjectListed(s, o);
      assert o in ToSet(p.ports) + ToSet(p.queues) + ToSet(p.pgs) <==> o in ListFor(p, o);
    }
  }

  /** A profile's count is the number of ports, queues and priority groups naming it. */
  lemma ProfileCountExact(s: State, q: Oid)
    requires AttachmentsExact(s) && q in s.profiles
    ensures s.profiles[q].numRef == |ObjectsNaming(s, q)|
  {
    hide Distinct, AttachmentsBack, ObjectListed, ObjectsNaming;
    var p := s.profiles[q];
    assert ProfileCounts(p);
    DistinctCardinality(p.ports);
    DistinctCardinality(p.queues);
    DistinctCardinality(p.pgs);
    NamingLists(s, q);
    assert ToSet(p.ports) !! ToSet(p.queues) !! ToSet(p.pgs);
  }
}
