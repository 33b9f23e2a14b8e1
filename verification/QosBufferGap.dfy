/**
 How each step of a QoS buffer call shifts the balance of a pool: the bytes shared plus the bytes
 reserved, minus the bytes the pool has.
 */
module QosBufferGap {
  import opened Common
  import opened QosBufferState
  import opened QosBufferSpec
  import opened QosBufferAttachments
  import opened QosBufferRefs

  /** Zero when the pool is conserved; positive when it has promised more bytes than it has. */
  function Gap(s: State, id: Oid): int
    requires id in s.pools
  {
    s.pools[id].sharedSize + PoolReserved(s, id) - (s.pools[id].size - s.pools[id].xoffSize)
  }

  lemma ConservedGap(s: State)
    ensures Conserved(s) <==> forall id :: id in s.pools ==> Gap(s, id) == 0
  {
    assert forall id :: id in s.pools ==> (PoolConserved(s, id) <==> Gap(s, id) == 0);
  }

  // ---------------------------------------------------------------------------------------------
  // Sums over a list of profiles
  // ---------------------------------------------------------------------------------------------

  function Term(profiles: map<Oid, Profile>, q: Oid, xoffConfigured: bool): int {
    if q in profiles then ChargeOf(profiles[q], xoffConfigured) else 0
  }

  lemma {:induction false} ReservedAppend(l: seq<Oid>, q: Oid, profiles: map<Oid, Profile>, x: bool)
    ensures Reserved(l + [q], profiles, x) == Reserved(l, profiles, x) + Term(profiles, q, x)
  {
    hide ChargeOf;
    if l == [] {
      assert [q][1..] == [];
    } else {
      assert (l + [q])[1..] == l[1..] + [q];
      ReservedAppend(l[1..], q, profiles, x);
    }
  }

  lemma {:induction false} ReservedWithout(l: seq<Oid>, q: Oid, profiles: map<Oid, Profile>, x: bool)
    requires q in l
    ensures Reserved(Without(l, q), profiles, x) == Reserved(l, profiles, x) - Term(profiles, q, x)
  {
    hide ChargeOf;
    if l[0] != q {
      var rest := Without(l[1..], q);
      ReservedWithout(l[1..], q, profiles, x);
      assert ([l[0]] + rest)[1..] == rest;
    }
  }

  lemma {:induction false} ReservedAgree(l: seq<Oid>, ps: map<Oid, Profile>, qs: map<Oid, Profile>, x: bool)
    requires forall q :: q in l ==> Term(ps, q, x) == Term(qs, q, x)
    ensures Reserved(l, ps, x) == Reserved(l, qs, x)
  {
    hide ChargeOf;
    if l != [] {
      assert l[0] in l;
      ReservedAgree(l[1..], ps, qs, x);
    }
  }

  /** Replacing one profile changes the sum by the difference of its charges, in the one list that holds it. */
  lemma {:induction false} ReservedUpdate(l: seq<Oid>, profiles: map<Oid, Profile>, q: Oid, p: Profile, x: bool)
    requires Distinct(l)
    ensures Reserved(l, profiles[q := p], x)
         == Reserved(l, profiles, x) + if q in l then ChargeOf(p, x) - Term(profiles, q, x) else 0
  {
    hide ChargeOf;
    if l != [] {
      assert l[0] !in l[1..];
      assert l == [l[0]] + l[1..];
      ReservedUpdate(l[1..], profiles, q, p, x);
    }
  }

  lemma {:induction false} ReservedLeast(l: seq<Oid>, profiles: map<Oid, Profile>, x: bool, q: Oid)
    requires forall r :: r in l && r in profiles ==> profiles[r].numRef >= 0
    ensures 0 <= Reserved(l, profiles, x)
    ensures q in l ==> 0 <= Term(profiles, q, x) <= Reserved(l, profiles, x)
  {
    if l != [] {
      ReservedLeast(l[1..], profiles, x, q);
      assert l == [l[0]] + l[1..];
      ChargeNonNegative(l[0], profiles, x);
    }
  }

  lemma ChargeNonNegative(q: Oid, profiles: map<Oid, Profile>, x: bool)
    requires q in profiles ==> profiles[q].numRef >= 0
    ensures Term(profiles, q, x) >= 0
  {
    if q in profiles {
      var p := profiles[q];
      assert p.size + (if x then 0 else p.xoffTh) >= 0;
    }
  }

  // ---------------------------------------------------------------------------------------------
  // Charging one pool
  // ---------------------------------------------------------------------------------------------

  /** The shift that charging or crediting pool `id` causes there. */
  function RecalcShift(pool: Pool, amount: u32, isAdd: bool, accepted: bool): int {
    if !accepted then 0
    else if isAdd then (if pool.sharedSize < amount then 0 else 0 - amount)
    else Wrap(pool.sharedSize + amount) - pool.sharedSize
  }

  lemma RecalcGap(s: State, id: Oid, amount: u32, isAdd: bool, v: nat -> bool, x: Oid)
    requires x in s.pools
    ensures var t := RecalcSpec(s, id, amount, isAdd, v).1;
            && t.pools.Keys == s.pools.Keys
            && Gap(t, x) == Gap(s, x) + if x == id then RecalcShift(s.pools[id], amount, isAdd, v(s.calls)) else 0
  {
    hide Wrap, Reserved;
  }

  // ---------------------------------------------------------------------------------------------
  // Attaching
  // ---------------------------------------------------------------------------------------------

  /** The bytes one object attached to `q` takes, before any truncation to 32 bits. */
  function ExactUnit(s: State, q: Oid): int {
    if q in s.profiles then s.profiles[q].size + ReservedXoff(s.pools, s.profiles[q]) else 0
  }

  lemma ChargeMoreOrLess(p: Profile, o: ObjId, x: bool)
    ensures ChargeOf(Attached(p, o), x) == ChargeOf(p, x) + p.size + (if x then 0 else p.xoffTh)
    ensures ChargeOf(Detached(p, o), x) == ChargeOf(p, x) - p.size - (if x then 0 else p.xoffTh)
  {
    hide Without;
    var unit := p.size + (if x then 0 else p.xoffTh);
    assert (p.numRef + 1) * unit == p.numRef * unit + unit;
    assert (p.numRef - 1) * unit == p.numRef * unit - unit;
  }

  /** The pool a profile names is the one that lists it, and no other does. */
  lemma ListedOnce(s: State, q: Oid, x: Oid)
    requires Refs(s) && q in s.profiles && x in s.pools
    ensures s.profiles[q].poolId in s.pools && s.profiles[q].poolId != NULL_ID
    ensures q in s.pools[x].profiles <==> x == s.profiles[q].poolId
    ensures Distinct(s.pools[x].profiles) && s.profiles[q].numRef >= 0
  {
    hide Distinct, Without, AttachmentsBack, ObjectListed;
    assert ProfileListed(s, q) && PoolListed(s, x) && ProfileCounts(s.profiles[q]);
  }

  lemma NotListed(s: State, q: Oid, x: Oid)
    requires Refs(s) && q !in s.profiles && x in s.pools
    ensures q !in s.pools[x].profiles && Distinct(s.pools[x].profiles)
  {
    assert PoolListed(s, x);
  }

  /** Replacing the node of profile `q`, with the same pool. */
  lemma ReplaceGap(s: State, q: Oid, p: Profile, x: Oid)
    requires Refs(s) && q in s.profiles && x in s.pools
    ensures Gap(s.(profiles := s.profiles[q := p]), x)
         == Gap(s, x) + if x == s.profiles[q].poolId then
           ChargeOf(p, s.pools[x].xoffSize > 0) - ChargeOf(s.profiles[q], s.pools[x].xoffSize > 0)
                        else 0
  {
    hide Refs, Reserved, ChargeOf;
    ListedOnce(s, q, x);
    ReservedUpdate(s.pools[x].profiles, s.profiles, q, p, s.pools[x].xoffSize > 0);
  }

  lemma DetachGap(s: State, was: Oid, o: ObjId, x: Oid)
    requires Refs(s) && was in s.profiles && x in s.pools
    ensures Gap(s.(profiles := s.profiles[was := Detached(s.profiles[was], o)]), x)
         == Gap(s, x) - if x == s.profiles[was].poolId then ExactUnit(s, was) else 0
  {
    hide Refs, Reserved, ChargeOf, Detached;
    ListedOnce(s, was, x);
    ReplaceGap(s, was, Detached(s.profiles[was], o), x);
    ChargeMoreOrLess(s.profiles[was], o, s.pools[x].xoffSize > 0);
  }

  lemma {:induction false} RelinkedGap(s: State, o: ObjId, q: Oid, x: Oid)
    requires Refs(s) && o in s.objects && s.objects[o] != q && x in s.pools
    requires q != NULL_ID ==> q in s.profiles
    ensures Gap(Relinked(s, o, q), x)
         == Gap(s, x) + (if x == PoolOf(s, q) then ExactUnit(s, q) else 0)
                      - (if x == PoolOf(s, s.objects[o]) then ExactUnit(s, s.objects[o]) else 0)
  {
    hide Reserved, ChargeOf, Detached, Attached, PoolListed, ProfileListed, ProfileCounts, AttachmentsBack;
    var was := s.objects[o];
    assert ObjectListed(s, o);
    var l, c := s.pools[x].profiles, s.pools[x].xoffSize > 0;
    var ps := if was != NULL_ID then s.profiles[was := Detached(s.profiles[was], o)] else s.profiles;
    if was != NULL_ID {
      DetachGap(s, was, o, x);
    }
    assert Gap(s.(profiles := ps), x) == Gap(s, x) - if x == PoolOf(s, was) then ExactUnit(s, was) else 0;
    if q != NULL_ID {
      ListedOnce(s, q, x);
      ReservedUpdate(l, ps, q, Attached(ps[q], o), c);
      ChargeMoreOrLess(s.profiles[q], o, c);
    }
  }

  // ---------------------------------------------------------------------------------------------
  // Moving a profile to another pool
  // ---------------------------------------------------------------------------------------------

  /** The profile takes its charge along, at the rule of the pool it enters. */
  lemma MovedGap(s: State, q: Oid, id: Oid, t: State, x: Oid)
    requires Refs(s) && q in s.profiles && id in s.pools && x in s.pools
    requires t.pools == Link(Unlink(s.pools, s.profiles[q].poolId, q), id, q)
    requires t.profiles == s.profiles[q := s.profiles[q].(poolId := id)]
    ensures t.pools.Keys == s.pools.Keys
    ensures forall y :: y in s.pools ==>
      t.pools[y].sharedSize == s.pools[y].sharedSize && t.pools[y].xoffSize == s.pools[y].xoffSize
    ensures Gap(t, x) == Gap(s, x)
                       + (if x == id then ChargeOf(s.profiles[q], s.pools[x].xoffSize > 0) else 0)
                       - (if x == s.profiles[q].poolId then ChargeOf(s.profiles[q], s.pools[x].xoffSize > 0) else 0)
  {
    hide Refs, Reserved, Without;
    ListedOnce(s, q, x);
    var l, c := s.pools[x].profiles, s.pools[x].xoffSize > 0;
    var l1 := if x == s.profiles[q].poolId then Without(l, q) else l;
    if x == s.profiles[q].poolId {
      ReservedWithout(l, q, s.profiles, c);
    }
    ReservedAppend(l1, q, s.profiles, c);
    ReservedAgree(l1, s.profiles, t.profiles, c);
    ReservedAgree(l1 + [q], s.profiles, t.profiles, c);
  }
}
