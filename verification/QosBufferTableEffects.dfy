/**
 When pools and profiles can be created, resized and removed, and what that leaves in the tables, in terms
 of the request and the tables before it.
 */
module QosBufferTableEffects {
  import opened Common
  import opened QosBufferState
  import opened QosBufferWalk
  import opened QosBufferSpec
  import opened QosBufferAttachments
  import opened QosBufferRefs
  import opened QosBufferPools

  // ---------------------------------------------------------------------------------------------
  // Pools
  // ---------------------------------------------------------------------------------------------

  predicate SamePoolAttr(a: PoolAttr, b: PoolAttr) {
    match a
    case KindAttr(_) => b.KindAttr?
    case PoolSizeAttr(_) => b.PoolSizeAttr?
    case XoffSizeAttr(_) => b.XoffSizeAttr?
    case PoolModeAttr(_) => b.PoolModeAttr?
    case SharedSizeAttr => b.SharedSizeAttr?
    case UnknownPoolAttr => b.UnknownPoolAttr?
  }

  /** No later attribute is of the kind of attribute `i`. */
  ghost predicate LastOfKind(attrs: seq<PoolAttr>, i: int) {
    0 <= i < |attrs| && forall j :: i < j < |attrs| ==> !SamePoolAttr(attrs[i], attrs[j])
  }

  predicate PoolHas(p: Pool, a: PoolAttr) {
    match a
    case KindAttr(x) => p.kind == x
    case PoolSizeAttr(x) => p.size == x
    case XoffSizeAttr(x) => p.xoffSize == x
    case PoolModeAttr(x) => p.mode == x
    case _ => true
  }

  ghost predicate NoneLike(attrs: seq<PoolAttr>, a: PoolAttr) {
    forall i :: 0 <= i < |attrs| ==> !SamePoolAttr(attrs[i], a)
  }

  /** `p` has the last value given for each attribute, and the value that `was` has when none is given. */
  ghost predicate PoolGiven(p: Pool, was: Pool, attrs: seq<PoolAttr>) {
    && (forall i :: LastOfKind(attrs, i) ==> PoolHas(p, attrs[i]))
    && (NoneLike(attrs, KindAttr(Ingress)) ==> p.kind == was.kind)
    && (NoneLike(attrs, PoolSizeAttr(0)) ==> p.size == was.size)
    && (NoneLike(attrs, XoffSizeAttr(0)) ==> p.xoffSize == was.xoffSize)
    && (NoneLike(attrs, PoolModeAttr(StaticPool)) ==> p.mode == was.mode)
  }

  ghost predicate AllSettable(attrs: seq<PoolAttr>) {
    forall i :: 0 <= i < |attrs| ==> !attrs[i].SharedSizeAttr? && !attrs[i].UnknownPoolAttr?
  }

  ghost predicate HasXoff(attrs: seq<PoolAttr>) {
    exists i :: 0 <= i < |attrs| && attrs[i].XoffSizeAttr?
  }

  lemma NoneLikeTail(attrs: seq<PoolAttr>, a: PoolAttr)
    requires attrs != []
    ensures NoneLike(attrs, a) <==> !SamePoolAttr(attrs[0], a) && NoneLike(attrs[1..], a)
  {
    assert forall i :: 0 < i < |attrs| ==> attrs[i] == attrs[1..][i - 1];
  }

  lemma HasXoffTail(attrs: seq<PoolAttr>)
    requires attrs != []
    ensures HasXoff(attrs) <==> attrs[0].XoffSizeAttr? || HasXoff(attrs[1..])
    ensures AllSettable(attrs) <==> PoolAttrStatus(attrs[0]) == Success && AllSettable(attrs[1..])
  {
    assert forall i :: 0 < i < |attrs| ==> attrs[i] == attrs[1..][i - 1];
  }

  lemma LastOfKindTail(attrs: seq<PoolAttr>, i: int)
    requires LastOfKind(attrs, i)
    ensures if i == 0 then NoneLike(attrs[1..], attrs[0]) else LastOfKind(attrs[1..], i - 1)
  {
    assert forall j :: 0 < j < |attrs| ==> attrs[j] == attrs[1..][j - 1];
  }

  lemma PoolGivenStep(p: Pool, was: Pool, attrs: seq<PoolAttr>)
    requires attrs != [] && PoolGiven(p, SetPoolField(was, attrs[0]), attrs[1..])
    ensures PoolGiven(p, was, attrs)
  {
    hide LastOfKind, NoneLike;
    var rest := attrs[1..];
    NoneLikeTail(attrs, KindAttr(Ingress));
    NoneLikeTail(attrs, PoolSizeAttr(0));
    NoneLikeTail(attrs, XoffSizeAttr(0));
    NoneLikeTail(attrs, PoolModeAttr(StaticPool));
    forall i | LastOfKind(attrs, i)
      ensures 0 <= i < |attrs| && PoolHas(p, attrs[i])
    {
      LastOfKindTail(attrs, i);
      LastIndex(attrs, i);
      if i == 0 {
        LikeFirst(attrs);
      } else {
        assert rest[i - 1] == attrs[i];
      }
    }
  }

  lemma LastIndex(attrs: seq<PoolAttr>, i: int)
    requires LastOfKind(attrs, i)
    ensures 0 <= i < |attrs|
  {
  }

  /** An attribute id stands for all attributes with that id. */
  lemma LikeFirst(attrs: seq<PoolAttr>)
    requires attrs != [] && NoneLike(attrs[1..], attrs[0])
    ensures attrs[0].KindAttr? ==> NoneLike(attrs[1..], KindAttr(Ingress))
    ensures attrs[0].PoolSizeAttr? ==> NoneLike(attrs[1..], PoolSizeAttr(0))
    ensures attrs[0].XoffSizeAttr? ==> NoneLike(attrs[1..], XoffSizeAttr(0))
    ensures attrs[0].PoolModeAttr? ==> NoneLike(attrs[1..], PoolModeAttr(StaticPool))
  {
  }

  lemma {:induction false} AppliedGiven(was: Pool, attrs: seq<PoolAttr>, xoffSeen: bool)
    ensures var (st, p) := ApplyPoolAttrs(was, attrs, xoffSeen);
            && (st == Success <==> AllSettable(attrs) && (p.kind == Egress ==> !xoffSeen && !HasXoff(attrs)))
            && (AllSettable(attrs) ==>
                  && PoolGiven(p, was, attrs)
                  && p.sharedSize == was.sharedSize && p.numRef == was.numRef && p.profiles == was.profiles)
    decreases |attrs|
  {
    hide PoolGiven;
    if attrs == [] {
      NothingGiven(was);
    } else {
      HasXoffTail(attrs);
      hide AllSettable, HasXoff;
      if PoolAttrStatus(attrs[0]) == Success {
        var seen := xoffSeen || attrs[0].XoffSizeAttr?;
        AppliedGiven(SetPoolField(was, attrs[0]), attrs[1..], seen);
        var (st, p) := ApplyPoolAttrs(SetPoolField(was, attrs[0]), attrs[1..], seen);
        if AllSettable(attrs) {
          PoolGivenStep(p, was, attrs);
        }
      }
    }
  }

  lemma NothingGiven(p: Pool)
    ensures PoolGiven(p, p, [])
  {
  }

  lemma NoXoffGiven(p: Pool, was: Pool, attrs: seq<PoolAttr>)
    requires PoolGiven(p, was, attrs) && !HasXoff(attrs)
    ensures p.xoffSize == was.xoffSize
  {
    assert NoneLike(attrs, XoffSizeAttr(0));
  }

  /**
   A pool is created exactly when every attribute can be set, no XOFF size is given for an egress pool, the
   XOFF size is within the size, what remains is below 2^31 bytes, and the NPU accepts. It has the values
   given last, shares what its XOFF size leaves, has no profile, and no other pool changed.
   */
  lemma CreatePoolEffect(s: State, attrs: seq<PoolAttr>, id: Oid, v: nat -> bool) returns (p: Pool)
    ensures AllSettable(attrs) ==> PoolGiven(p, Pool(Ingress, 0, 0, 0, DynamicPool, 0, []), attrs)
    ensures var (st, t) := CreatePoolSpec(s, attrs, id, v);
            && (st == Success <==>
                  && attrs != [] && AllSettable(attrs) && (p.kind == Egress ==> !HasXoff(attrs))
                  && p.xoffSize <= p.size && p.size - p.xoffSize < 0x8000_0000 && v(s.calls))
            && (attrs != [] && AllSettable(attrs) && (p.kind == Egress ==> !HasXoff(attrs)) ==>
                  && (p.xoffSize > p.size ==> st == InvalidParameter)
                  && (p.size - p.xoffSize >= 0x8000_0000 ==> st == InsufficientResources))
            && t == s.(pools := t.pools, calls := t.calls)
            && t.pools == if st == Success then
                 s.pools[id := Pool(p.kind, p.size, p.xoffSize, p.size - p.xoffSize, p.mode, 0, [])] else s.pools
  {
    hide PoolGiven, ApplyPoolAttrs, SharedInt32;
    p := ApplyPoolAttrs(NEW_POOL, attrs, false).1;
    AppliedGiven(NEW_POOL, attrs, false);
    if AllSettable(attrs) {
      var k := SharedCongruent(p, 0, 0);
      if p.kind == Egress && !HasXoff(attrs) {
        NoXoffGiven(p, NEW_POOL, attrs);
      }
    }
  }

  /** A pool is removed exactly when it exists, no profile names it, and the NPU accepts; nothing else changes. */
  lemma RemovePoolEffect(s: State, id: Oid, v: nat -> bool)
    requires Refs(s)
    ensures var (st, t) := RemovePoolSpec(s, id, v);
            && (st == Success <==>
                  && id in s.pools && (forall q :: q in s.profiles ==> s.profiles[q].poolId != id)
                  && v(s.calls))
            && (id !in s.pools ==> st == ItemNotFound)
            && (id in s.pools && (exists q :: q in s.profiles && s.profiles[q].poolId == id) ==> st == ObjectInUse)
            && t == s.(pools := t.pools, calls := t.calls)
            && t.pools == if st == Success then s.pools - {id} else s.pools
  {
    hide Refs;
    if id in s.pools {
      PoolCountExact(s, id);
      if q :| q in s.profiles && s.profiles[q].poolId == id {
        assert q in ProfilesNaming(s, id);
      } else {
        assert ProfilesNaming(s, id) == {};
      }
    }
  }

  /**
   Of an existing pool only the size can be set, and the XOFF size, which is left to the NPU. A size must
   cover the XOFF size, and what is then shared, in 32 bits, must be below 2^31.
   */
  lemma SetPoolEffect(s: State, id: Oid, a: PoolAttr, v: nat -> bool)
    requires id in s.pools
    ensures var (st, t) := SetPoolSpec(s, id, a, v);
            var was := s.pools[id];
            && (st == Success <==>
                  && v(s.calls)
                  && match a
                     case PoolSizeAttr(x) =>
                       && was.xoffSize <= x && (was.xoffSize > 0 ==> was.kind == Ingress)
                       && (was.sharedSize + x - was.size) % 0x1_0000_0000 < 0x8000_0000
                     case XoffSizeAttr(_) => was.kind == Ingress
                     case _ => false)
            && t == s.(pools := t.pools, calls := t.calls)
            && t.pools == if st == Success && a.PoolSizeAttr? then
                 s.pools[id := was.(size := a.size, sharedSize := (was.sharedSize + a.size - was.size) % 0x1_0000_0000)]
               else s.pools
  {
    AppliedOne(s.pools[id], a);
    hide ApplyPoolAttrs, SharedInt32;
    if a.PoolSizeAttr? {
      ResizedShared(s.pools[id], a.size);
    }
  }

  lemma AppliedOne(was: Pool, a: PoolAttr)
    ensures ApplyPoolAttrs(was, [a], false)
         == if PoolAttrStatus(a) != Success then (PoolAttrStatus(a), was)
            else (if a.XoffSizeAttr? && was.kind == Egress then InvalidAttribute else Success, SetPoolField(was, a))
  {
    assert [a][1..] == [];
  }

  lemma ResizedShared(was: Pool, size: u32)
    ensures SharedInt32(was.(size := size), was.size, was.xoffSize) == AsInt32(Wrap(was.sharedSize + size - was.size))
  {
    var exact := was.sharedSize + size - was.size;
    var j := SignedCongruent(exact);
    var i := SignedCongruent(AsInt32(Wrap(exact)) - was.xoffSize + was.xoffSize);
  }

  // ---------------------------------------------------------------------------------------------
  // Profiles
  // ---------------------------------------------------------------------------------------------

  /** `p` has the value that attribute `a` gives. */
  predicate ProfileHas(p: Profile, a: ProfileAttr) {
    match a
    case PoolIdAttr(x) => p.poolId == x
    case SizeAttr(x) => p.size == x
    case ModeAttr(x) => p.thEnable && p.thMode == x
    case DynamicThAttr(x) => p.dynamicTh == x
    case StaticThAttr(x) => p.staticTh == x
    case XoffThAttr(x) => p.xoffTh == x
    case XonThAttr(x) => p.xonTh == x
    case UnknownProfileAttr => false
  }

  ghost predicate NoneSame(attrs: seq<ProfileAttr>, a: ProfileAttr) {
    forall i :: 0 <= i < |attrs| ==> !SameAttr(attrs[i], a)
  }

  /** `p` has the value given for each attribute, and that of `was` when none is given; nothing is attached to it. */
  ghost predicate ProfileGiven(p: Profile, was: Profile, attrs: seq<ProfileAttr>) {
    && (forall i :: 0 <= i < |attrs| ==> ProfileHas(p, attrs[i]))
    && (NoneSame(attrs, PoolIdAttr(0)) ==> p.poolId == was.poolId)
    && (NoneSame(attrs, SizeAttr(0)) ==> p.size == was.size)
    && (NoneSame(attrs, ModeAttr(StaticTh)) ==> p.thEnable == was.thEnable && p.thMode == was.thMode)
    && (NoneSame(attrs, DynamicThAttr(0)) ==> p.dynamicTh == was.dynamicTh)
    && (NoneSame(attrs, StaticThAttr(0)) ==> p.staticTh == was.staticTh)
    && (NoneSame(attrs, XoffThAttr(0)) ==> p.xoffTh == was.xoffTh)
    && (NoneSame(attrs, XonThAttr(0)) ==> p.xonTh == was.xonTh)
  }

  ghost predicate Given(attrs: seq<ProfileAttr>, a: ProfileAttr) {
    exists i :: 0 <= i < |attrs| && attrs[i] == a
  }

  lemma NoneSameTail(attrs: seq<ProfileAttr>, a: ProfileAttr)
    requires attrs != []
    ensures NoneSame(attrs, a) <==> !SameAttr(attrs[0], a) && NoneSame(attrs[1..], a)
  {
    assert forall i :: 0 < i < |attrs| ==> attrs[i] == attrs[1..][i - 1];
  }

  lemma ProfileGivenStep(p: Profile, was: Profile, now: Profile, attrs: seq<ProfileAttr>)
    requires attrs != [] && ProfileGiven(p, now, attrs[1..]) && NoneSame(attrs[1..], attrs[0])
    requires !attrs[0].UnknownProfileAttr?
    requires now == if attrs[0].PoolIdAttr? then was.(poolId := attrs[0].poolId) else SetProfileField(was, attrs[0])
    ensures ProfileGiven(p, was, attrs)
  {
    SameFirst(attrs);
    hide NoneSame;
    NoneSameTail(attrs, PoolIdAttr(0));
    NoneSameTail(attrs, SizeAttr(0));
    NoneSameTail(attrs, ModeAttr(StaticTh));
    NoneSameTail(attrs, DynamicThAttr(0));
    NoneSameTail(attrs, StaticThAttr(0));
    NoneSameTail(attrs, XoffThAttr(0));
    NoneSameTail(attrs, XonThAttr(0));
    assert forall i :: 0 < i < |attrs| ==> attrs[i] == attrs[1..][i - 1];
    assert ProfileHas(p, attrs[0]);
  }

  lemma SameFirst(attrs: seq<ProfileAttr>)
    requires attrs != [] && NoneSame(attrs[1..], attrs[0])
    ensures attrs[0].PoolIdAttr? ==> NoneSame(attrs[1..], PoolIdAttr(0))
    ensures attrs[0].SizeAttr? ==> NoneSame(attrs[1..], SizeAttr(0))
    ensures attrs[0].ModeAttr? ==> NoneSame(attrs[1..], ModeAttr(StaticTh))
    ensures attrs[0].DynamicThAttr? ==> NoneSame(attrs[1..], DynamicThAttr(0))
    ensures attrs[0].StaticThAttr? ==> NoneSame(attrs[1..], StaticThAttr(0))
    ensures attrs[0].XoffThAttr? ==> NoneSame(attrs[1..], XoffThAttr(0))
    ensures attrs[0].XonThAttr? ==> NoneSame(attrs[1..], XonThAttr(0))
  {
  }

  lemma {:induction false} NodeGiven(pools: map<Oid, Pool>, was: Profile, q: Oid, attrs: seq<ProfileAttr>)
    requires forall i, j :: 0 <= i < j < |attrs| ==> !SameAttr(attrs[i], attrs[j])
    requires UpdateNodeAll(pools, was, q, attrs).0 == Success
    ensures ProfileGiven(UpdateNodeAll(pools, was, q, attrs).2, was, attrs)
    decreases |attrs|
  {
    hide Link, Unlink;
    if attrs == [] {
    } else {
      hide ProfileGiven, SameAttr;
      var (st, pools1, now) := UpdateNode(pools, was, q, attrs[0]);
      assert forall i :: 0 < i < |attrs| ==> attrs[i] == attrs[1..][i - 1];
      NodeGiven(pools1, now, q, attrs[1..]);
      FirstNotAgain(attrs);
      ProfileGivenStep(UpdateNodeAll(pools, was, q, attrs).2, was, now, attrs);
    }
  }

  lemma FirstNotAgain(attrs: seq<ProfileAttr>)
    requires attrs != [] && forall i, j :: 0 <= i < j < |attrs| ==> !SameAttr(attrs[i], attrs[j])
    ensures NoneSame(attrs[1..], attrs[0])
  {
    forall i | 0 <= i < |attrs[1..]|
      ensures !SameAttr(attrs[1..][i], attrs[0])
    {
      assert !SameAttr(attrs[0], attrs[i + 1]);
    }
  }

  /** The pool `attrs` names, and whether the mode in `attrs`, or else the one of that pool, is static. */
  ghost predicate WantsStatic(pool: Pool, attrs: seq<ProfileAttr>) {
    || Given(attrs, ModeAttr(StaticTh))
    || (!Given(attrs, ModeAttr(DynamicTh)) && pool.mode == StaticPool)
  }

  ghost predicate NoneTwice(attrs: seq<ProfileAttr>) {
    && (forall i :: 0 <= i < |attrs| ==> !attrs[i].UnknownProfileAttr?)
    && (forall i, j :: 0 <= i < j < |attrs| ==> !SameAttr(attrs[i], attrs[j]))
  }

  lemma {:induction false} ListedModeIs(attrs: seq<ProfileAttr>)
    requires NoneTwice(attrs)
    ensures forall m :: Given(attrs, ModeAttr(m)) <==> ListedMode(attrs) == Some(m)
  {
    if attrs != [] {
      var n := |attrs| - 1;
      assert attrs == attrs[..n] + [attrs[n]];
      ListedModeIs(attrs[..n]);
      forall m
        ensures Given(attrs, ModeAttr(m)) <==> ListedMode(attrs) == Some(m)
      {
        assert Given(attrs, ModeAttr(m)) <==> attrs[n] == ModeAttr(m) || Given(attrs[..n], ModeAttr(m));
      }
    }
  }

  lemma ListedPoolIs(attrs: seq<ProfileAttr>)
    requires NoneTwice(attrs)
    ensures forall id: Oid :: Given(attrs, PoolIdAttr(id)) <==> ListedPool(attrs) == Some(id)
  {
    if i :| 0 <= i < |attrs| && attrs[i].PoolIdAttr? {
      ListedPoolIn(attrs, i);
      assert Given(attrs, attrs[i]);
      forall id: Oid | Given(attrs, PoolIdAttr(id))
        ensures id == attrs[i].poolId
      {
        var j :| 0 <= j < |attrs| && attrs[j] == PoolIdAttr(id);
        assert !SameAttr(attrs[if i < j then i else j], attrs[if i < j then j else i]) || i == j;
      }
    } else {
      NoListedPool(attrs);
    }
  }

  /**
   A profile is created exactly when its attributes are known and given once, it names an existing pool, it
   has a shared threshold of the kind that is wanted and none of the other kind, a PFC threshold only on an
   ingress pool, and the NPU accepts. It has the values given, nothing is attached to it, and it is the last
   of its pool's list. No other profile and no other pool changed.
   */
  lemma CreateProfileEffect(s: State, attrs: seq<ProfileAttr>, id: Oid, v: nat -> bool, to: Oid)
    requires Given(attrs, PoolIdAttr(to))
    ensures var (st, t) := CreateProfileSpec(s, attrs, id, v);
            && (st == Success <==>
                  && NoneTwice(attrs) && to in s.pools
                  && (exists i :: 0 <= i < |attrs| && if WantsStatic(s.pools[to], attrs) then attrs[i].StaticThAttr?
                                                      else attrs[i].DynamicThAttr?)
                  && (forall i :: 0 <= i < |attrs| ==> if WantsStatic(s.pools[to], attrs) then !attrs[i].DynamicThAttr?
                                                       else !attrs[i].StaticThAttr?)
                  && (s.pools[to].kind == Egress ==>
                        forall i :: 0 <= i < |attrs| ==> !attrs[i].XoffThAttr? && !attrs[i].XonThAttr?)
                  && v(s.calls))
            && (st == Success ==>
                  && id in t.profiles && t.profiles == s.profiles[id := t.profiles[id]]
                  && ProfileGiven(t.profiles[id],
                                  Profile(NULL_ID, 0, false, StaticTh, 0, 0, 0, 0, 0, [], [], []), attrs)
                  && t.profiles[id].numRef == 0
                  && t.profiles[id].ports == t.profiles[id].queues == t.profiles[id].pgs == []
                  && t.pools == s.pools[to := s.pools[to].(profiles := s.pools[to].profiles + [id],
                                                           numRef := s.pools[to].numRef + 1)])
            && t.objects == s.objects && t.hw == s.hw
  {
    hide UpdateNodeAll, ProfileGiven;
    if NoneTwice(attrs) {
      ListedPoolIs(attrs);
      ListedModeIs(attrs);
      if MandatoryThSpec(s.pools, attrs) == Success {
        CreatedNode(s, attrs, id);
        NodeGiven(s.pools, NEW_PROFILE, id, attrs);
      }
    }
  }

  /** Without a pool no profile is created, and nothing changes. */
  lemma CreateProfileRefused(s: State, attrs: seq<ProfileAttr>, id: Oid, v: nat -> bool)
    requires forall i :: 0 <= i < |attrs| ==> !attrs[i].PoolIdAttr?
    ensures CreateProfileSpec(s, attrs, id, v).0 != Success && CreateProfileSpec(s, attrs, id, v).1 == s
  {
    NoListedPool(attrs);
  }

  /**
   A profile is removed exactly when it exists, no port, queue or priority group names it, and the NPU
   accepts. It leaves its pool's list, and nothing else changes.
   */
  lemma RemoveProfileEffect(s: State, q: Oid, v: nat -> bool)
    requires Refs(s)
    ensures var (st, t) := RemoveProfileSpec(s, q, v);
            && (st == Success <==>
                  && q in s.profiles && (forall o :: o in s.objects ==> s.objects[o] != q)
                  && v(s.calls))
            && (q !in s.profiles ==> st == ItemNotFound)
            && (q in s.profiles && (exists o :: o in s.objects && s.objects[o] == q) ==> st == ObjectInUse)
            && t.profiles == (if st == Success then s.profiles - {q} else s.profiles)
            && t.objects == s.objects && t.hw == s.hw && t.pools.Keys == s.pools.Keys
            && (st != Success ==> t.pools == s.pools)
            && forall x :: x in s.pools ==>
                 && t.pools[x] == s.pools[x].(profiles := t.pools[x].profiles, numRef := t.pools[x].numRef)
                 && forall y :: y in t.pools[x].profiles <==> y in s.pools[x].profiles && !(st == Success && y == q)
  {
    RefsAttachments(s);
    hide AttachmentsExact;
    if q in s.profiles {
      ProfileCountExact(s, q);
      if o :| o in s.objects && s.objects[o] == q {
        assert o in ObjectsNaming(s, q);
      } else {
        assert ObjectsNaming(s, q) == {};
      }
      assert ProfileListed(s, q);
    }
    assert forall x :: x in s.pools ==> PoolListed(s, x);
  }
}
