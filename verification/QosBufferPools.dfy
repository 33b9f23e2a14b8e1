/**
 The 32-bit arithmetic of a pool's shared size, and conservation over creating, resizing and removing
 pools and over creating and removing profiles.
 */
module QosBufferPools {
  import opened Common
  import opened QosBufferState
  import opened QosBufferWalk
  import opened QosBufferSpec
  import opened QosBufferAttachments
  import opened QosBufferRefs
  import opened QosBufferGap

  // ---------------------------------------------------------------------------------------------
  // The new shared size
  // ---------------------------------------------------------------------------------------------

  /** The shared size a pool should have, as an exact integer. */
  function ExactShared(p: Pool, curSize: u32, curXoff: u32): int {
    p.sharedSize + p.size - curSize - p.xoffSize + curXoff
  }

  lemma SignedCongruent(x: int) returns (k: int)
    ensures AsInt32(Wrap(x)) == x + k * TWO32
    ensures -TWO31 <= AsInt32(Wrap(x)) < TWO31
  {
    var j := WrapQuotient(x);
    k := if Wrap(x) < TWO31 then -j else -j - 1;
  }

  /**
   The mixed unsigned and signed computation is off by a multiple of 2^32, so it is exact just when the
   result fits.
   */
  lemma SharedCongruent(p: Pool, curSize: u32, curXoff: u32) returns (k: int)
    ensures SharedInt32(p, curSize, curXoff) == ExactShared(p, curSize, curXoff) + k * TWO32
    ensures -TWO31 <= SharedInt32(p, curSize, curXoff) < TWO31
    ensures SharedInt32(p, curSize, curXoff) == ExactShared(p, curSize, curXoff)
       <==> -TWO31 <= ExactShared(p, curSize, curXoff) < TWO31
  {
    var first := p.sharedSize + p.size - curSize;
    var j := SignedCongruent(first);
    var i := SignedCongruent(AsInt32(Wrap(first)) - p.xoffSize + curXoff);
    k := i + j;
  }

  /**
   With sizes below 2^31 the new shared size is exact, and the request is refused exactly when it would be
   negative.
   */
  lemma SharedSizeExact(was: Option<Pool>, p: Pool)
    requires p.size < TWO31 && (was.Some? ==> was.value.size < TWO31)
    requires was.Some? ==> p.sharedSize == was.value.sharedSize <= was.value.size - was.value.xoffSize
    requires was == None ==> p.sharedSize == 0
    requires p.xoffSize <= p.size && (p.xoffSize > 0 ==> p.kind == Ingress)
    ensures var curSize := if was.Some? then was.value.size else 0;
            var curXoff := if was.Some? then was.value.xoffSize else 0;
            var exact := ExactShared(p, curSize, curXoff);
            ValidateShared(was, p) == if exact < 0 then (InsufficientResources, p)
              else (Success, p.(sharedSize := exact))
  {
    var curSize := if was.Some? then was.value.size else 0;
    var curXoff := if was.Some? then was.value.xoffSize else 0;
    var k := SharedCongruent(p, curSize, curXoff);
  }

  // ---------------------------------------------------------------------------------------------
  // Pools
  // ---------------------------------------------------------------------------------------------

  /** A new pool shares all it has: whatever sizes are asked for, a create that succeeds is exact. */
  lemma NewPoolShared(p: Pool)
    requires p.sharedSize == 0 && ValidateShared(None, p).0 == Success
    ensures ValidateShared(None, p).1 == p.(sharedSize := p.size - p.xoffSize)
  {
    var k := SharedCongruent(p, 0, 0);
  }

  lemma CreatePoolConserves(s: State, attrs: seq<PoolAttr>, id: Oid, v: nat -> bool)
    requires Conserved(s) && id !in s.pools
    ensures Conserved(CreatePoolSpec(s, attrs, id, v).1)
  {
    hide Conserved, Gap, ValidateShared;
    var (st, t) := CreatePoolSpec(s, attrs, id, v);
    ConservedGap(s);
    ConservedGap(t);
    if st == Success {
      ApplyPoolAttrsLinks(NEW_POOL, attrs, false);
      NewPoolShared(ApplyPoolAttrs(NEW_POOL, attrs, false).1);
      NewPoolGap(s, t, id);
    } else {
      forall x | x in s.pools
        ensures Gap(t, x) == Gap(s, x)
      {
        SamePoolGap(s, t, x);
      }
    }
  }

  lemma NewPoolGap(s: State, t: State, id: Oid)
    requires id !in s.pools && id in t.pools && t.pools == s.pools[id := t.pools[id]] && t.profiles == s.profiles
    requires t.pools[id].profiles == [] && t.pools[id].sharedSize == t.pools[id].size - t.pools[id].xoffSize
    ensures Gap(t, id) == 0
    ensures forall x :: x in s.pools ==> Gap(t, x) == Gap(s, x)
  {
  }

  lemma SamePoolGap(s: State, t: State, x: Oid)
    requires x in s.pools && x in t.pools && s.pools[x] == t.pools[x] && s.profiles == t.profiles
    ensures Gap(t, x) == Gap(s, x)
  {
  }

  lemma RemovePoolConserves(s: State, id: Oid, v: nat -> bool)
    requires Conserved(s)
    ensures Conserved(RemovePoolSpec(s, id, v).1)
  {
    hide Conserved, Gap;
    var (st, t) := RemovePoolSpec(s, id, v);
    ConservedGap(s);
    ConservedGap(t);
    forall x | x in t.pools
      ensures Gap(t, x) == Gap(s, x)
    {
      SamePoolGap(s, t, x);
    }
  }

  /**
   A resize that succeeds conserves the pool if and only if the exact new shared size is not below
   -2^31, where the signed result would wrap to a large positive number.
   */
  lemma ResizePoolConserves(s: State, id: Oid, size: u32, v: nat -> bool)
    requires Refs(s) && Conserved(s) && SetPoolSpec(s, id, PoolSizeAttr(size), v).0 == Success
    ensures id in s.pools
    ensures Conserved(SetPoolSpec(s, id, PoolSizeAttr(size), v).1)
       <==> s.pools[id].sharedSize + size - s.pools[id].size >= -TWO31
  {
    hide Conserved, Gap, Refs, SharedInt32, SetPoolSpec;
    var t := SetPoolSpec(s, id, PoolSizeAttr(size), v).1;
    ResizedPool(s, id, size, v);
    var was := s.pools[id];
    var k := SharedCongruent(was.(size := size), was.size, was.xoffSize);
    ConservedGap(s);
    ConservedGap(t);
    ResizeShift(s, t, id, size);
    SharedAtMost(s, id);
    forall x | x in s.pools && x != id
      ensures Gap(t, x) == Gap(s, x)
    {
      SamePoolGap(s, t, x);
    }
  }

  lemma ResizedPool(s: State, id: Oid, size: u32, v: nat -> bool)
    requires SetPoolSpec(s, id, PoolSizeAttr(size), v).0 == Success
    ensures id in s.pools
    ensures var was := s.pools[id];
            var shared := SharedInt32(was.(size := size), was.size, was.xoffSize);
            && 0 <= shared && was.xoffSize <= size
            && SetPoolSpec(s, id, PoolSizeAttr(size), v).1
            == s.(pools := s.pools[id := was.(size := size, sharedSize := shared)], calls := s.calls + 1)
  {
    hide SharedInt32;
    var was := s.pools[id];
    assert ApplyPoolAttrs(was, [PoolSizeAttr(size)], false) == ApplyPoolAttrs(was.(size := size), [], false);
  }

  lemma ResizeShift(s: State, t: State, id: Oid, size: u32)
    requires id in s.pools && id in t.pools && t.profiles == s.profiles
    requires t.pools[id] == s.pools[id].(size := size, sharedSize := t.pools[id].sharedSize)
    ensures Gap(t, id) == Gap(s, id) + t.pools[id].sharedSize - s.pools[id].sharedSize - size + s.pools[id].size
  {
  }

  lemma SharedAtMost(s: State, id: Oid)
    requires Refs(s) && Conserved(s) && id in s.pools
    ensures s.pools[id].sharedSize <= s.pools[id].size - s.pools[id].xoffSize
  {
    hide Refs, Reserved;
    assert PoolConserved(s, id);
    forall r | r in s.pools[id].profiles && r in s.profiles
      ensures s.profiles[r].numRef >= 0
    {
      ListedOnce(s, r, id);
    }
    ReservedLeast(s.pools[id].profiles, s.profiles, s.pools[id].xoffSize > 0, 0);
  }

  // ---------------------------------------------------------------------------------------------
  // Profiles
  // ---------------------------------------------------------------------------------------------

  /** A new profile reserves nothing until something is attached to it, even when its create fails late. */
  lemma CreateProfileConserves(s: State, attrs: seq<ProfileAttr>, id: Oid, v: nat -> bool)
    requires Refs(s) && Conserved(s) && id != NULL_ID && id !in s.profiles
    ensures Conserved(CreateProfileSpec(s, attrs, id, v).1)
  {
    hide Conserved, Gap, Refs, WellFormedAttrs, MandatoryThSpec, PfcSpec, UpdateNodeAll;
    var (st, t) := CreateProfileSpec(s, attrs, id, v);
    ConservedGap(s);
    ConservedGap(t);
    if WellFormedAttrs(attrs) && MandatoryThSpec(s.pools, attrs) == Success && PfcSpec(s.pools, attrs) == Success {
      CreatedNode(s, attrs, id);
      var p := UpdateNodeAll(s.pools, NEW_PROFILE, id, attrs).2;
      forall x | x in t.pools
        ensures x in s.pools && Gap(t, x) == Gap(s, x)
      {
        LinkedGap(s, id, p, t, x);
      }
    } else {
      forall x | x in s.pools
        ensures Gap(t, x) == Gap(s, x)
      {
        SamePoolGap(s, t, x);
      }
    }
  }

  lemma LinkedGap(s: State, id: Oid, p: Profile, t: State, x: Oid)
    requires Refs(s) && id !in s.profiles && p.numRef == 0 && p.poolId in s.pools && x in t.pools
    requires t.pools == Link(s.pools, p.poolId, id) && (t.profiles == s.profiles[id := p] || t.profiles == s.profiles)
    ensures x in s.pools && Gap(t, x) == Gap(s, x)
  {
    hide Refs, Reserved;
    NotListed(s, id, x);
    var l, c := s.pools[x].profiles, s.pools[x].xoffSize > 0;
    ReservedAgree(l, s.profiles, t.profiles, c);
    ReservedAppend(l, id, t.profiles, c);
  }

  lemma RemoveProfileConserves(s: State, q: Oid, v: nat -> bool)
    requires Refs(s) && Conserved(s)
    ensures Conserved(RemoveProfileSpec(s, q, v).1)
  {
    hide Conserved, Gap, Refs, Unlink;
    var (st, t) := RemoveProfileSpec(s, q, v);
    ConservedGap(s);
    ConservedGap(t);
    if st == Success {
      UnlinkKeys(s.pools, s.profiles[q].poolId, q);
      forall x | x in s.pools
        ensures Gap(t, x) == Gap(s, x)
      {
        UnlinkedGap(s, q, t, x);
      }
    } else {
      forall x | x in s.pools
        ensures Gap(t, x) == Gap(s, x)
      {
        SamePoolGap(s, t, x);
      }
    }
  }

  lemma UnlinkKeys(pools: map<Oid, Pool>, id: Oid, q: Oid)
    ensures Unlink(pools, id, q).Keys == pools.Keys
  {
    hide Without;
  }

  lemma UnlinkedGap(s: State, q: Oid, t: State, x: Oid)
    requires Refs(s) && q in s.profiles && s.profiles[q].numRef == 0 && x in s.pools
    requires t.pools == Unlink(s.pools, s.profiles[q].poolId, q) && t.profiles == s.profiles - {q}
    ensures x in t.pools && Gap(t, x) == Gap(s, x)
  {
    hide Refs, Reserved, Without;
    ListedOnce(s, q, x);
    var l, c := s.pools[x].profiles, s.pools[x].xoffSize > 0;
    if x == s.profiles[q].poolId {
      ReservedWithout(l, q, s.profiles, c);
      ReservedAgree(Without(l, q), s.profiles, t.profiles, c);
    } else {
      ReservedAgree(l, s.profiles, t.profiles, c);
    }
  }
}
