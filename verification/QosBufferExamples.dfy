/**
 Concrete inputs on which the QoS buffer code loses a reference or a byte, from states in which everything is
 exact.
 */
module QosBufferExamples {
  import opened Common
  import opened QosBufferState
  import opened QosBufferWalk
  import opened QosBufferSpec
  import opened QosBufferAttachments
  import opened QosBufferRefs
  import opened QosBufferGap
  import opened QosBufferConservation
  import opened QosBufferPools
  import opened QosBufferHardware

  // ---------------------------------------------------------------------------------------------
  // A reference that is lost
  // ---------------------------------------------------------------------------------------------

  const UNUSED_POOL := Pool(Ingress, 100, 0, 100, DynamicPool, 0, [])
  const ONE_POOL := State(map[1 := UNUSED_POOL], map[], map[], map[], 0)

  /** The NPU rejects a new profile of pool 1: the pool goes on listing profile 5, which does not exist. */
  lemma RejectedCreateStaysLinked(v: nat -> bool)
    requires !v(0)
    ensures var (st, t) := CreateProfileSpec(ONE_POOL, [PoolIdAttr(1), DynamicThAttr(2)], 5, v);
            && Refs(ONE_POOL) && st == NpuError && !Refs(t)
            && t.pools[1].profiles == [5] && 5 !in t.profiles
  {
    var attrs := [PoolIdAttr(1), DynamicThAttr(2)];
    assert PoolListed(ONE_POOL, 1);
    ListedPoolIn(attrs, 0);
    assert attrs[1].DynamicThAttr? && HasDynamic(attrs) && !HasStatic(attrs) && !HasPfc(attrs);
    NoListedMode(attrs);
    hide Refs, UpdateNodeAll;
    assert WellFormedAttrs(attrs) && MandatoryThSpec(ONE_POOL.pools, attrs) == Success
      && PfcSpec(ONE_POOL.pools, attrs) == Success;
    CreatedNode(ONE_POOL, attrs, 5);
    CreateProfileRefs(ONE_POOL, attrs, 5, v);
  }

  lemma {:induction false} NoListedMode(attrs: seq<ProfileAttr>)
    requires forall i :: 0 <= i < |attrs| ==> !attrs[i].ModeAttr?
    ensures ListedMode(attrs) == None
  {
    if attrs != [] {
      NoListedMode(attrs[..|attrs| - 1]);
    }
  }

  // ---------------------------------------------------------------------------------------------
  // Attaching
  // ---------------------------------------------------------------------------------------------

  /** Pool 1 has 100 bytes and one profile, to which nothing is attached. */
  function UnattachedState(p: Profile): State {
    State(map[1 := UNUSED_POOL.(numRef := 1, profiles := [5])], map[5 := p], map[Port(1) := NULL_ID],
          map[Port(1) := DEFAULT_HW], 0)
  }

  function PlainProfile(size: u32, xoffTh: u32): Profile {
    Profile(1, size, false, StaticTh, 0, 0, xoffTh, 0, 0, [], [], [])
  }

  lemma UnattachedValid(size: u32, xoffTh: u32)
    ensures Refs(UnattachedState(PlainProfile(size, xoffTh))) && Conserved(UnattachedState(PlainProfile(size, xoffTh)))
  {
    var s := UnattachedState(PlainProfile(size, xoffTh));
    assert PoolListed(s, 1) && ProfileListed(s, 5) && ProfileCounts(s.profiles[5]) && AttachmentsBack(s, 5);
    assert Reserved([5], s.profiles, false) == ChargeOf(s.profiles[5], false) + Reserved([5][1..], s.profiles, false);
    assert PoolConserved(s, 1);
  }

  /**
   A profile of 2^31 bytes and an XOFF threshold of 2^31 reserves 2^32 bytes, which wrap to 0: a port of a
   100-byte pool can have it.
   */
  lemma OverflowingAttachSucceeds(v: nat -> bool)
    requires v(0) && v(1)
    ensures var s := UnattachedState(PlainProfile(0x8000_0000, 0x8000_0000));
            var (st, t) := SetObjectSpec(s, Port(1), 5, v);
            Refs(s) && Conserved(s) && st == Success && !Conserved(t)
  {
    UnattachedValid(0x8000_0000, 0x8000_0000);
    var s := UnattachedState(PlainProfile(0x8000_0000, 0x8000_0000));
    hide Refs, Conserved, Relinked, ChargePools;
    AttachConserves(s, Port(1), 5, v);
  }

  /**
   The NPU accepts the profile of a port but rejects the rewrite of the pool's size: the 10 bytes are not
   taken from the pool.
   */
  lemma RejectedRewriteForgetsCharge(v: nat -> bool)
    requires v(0) && !v(1)
    ensures var s := UnattachedState(PlainProfile(10, 0));
            var (st, t) := SetObjectSpec(s, Port(1), 5, v);
            Refs(s) && Conserved(s) && st == Success && !Conserved(t)
  {
    UnattachedValid(10, 0);
    var s := UnattachedState(PlainProfile(10, 0));
    hide Refs, Conserved, Relinked, ChargePools;
    AttachConserves(s, Port(1), 5, v);
  }

  // ---------------------------------------------------------------------------------------------
  // Resizing and moving a profile
  // ---------------------------------------------------------------------------------------------

  const SMALL_POOL := Pool(Ingress, 100, 0, 100, DynamicPool, 1, [5])
  const EMPTY_PROFILE := Profile(1, 0, false, StaticTh, 0, 0, 0, 0, 2, [Port(1), Port(2)], [], [])
  const TWO_ATTACHED := State(map[1 := SMALL_POOL], map[5 := EMPTY_PROFILE], map[Port(1) := 5, Port(2) := 5],
                              map[Port(1) := HwOf(EMPTY_PROFILE), Port(2) := HwOf(EMPTY_PROFILE)], 0)

  lemma TwoAttachedValid()
    ensures Refs(TWO_ATTACHED) && Conserved(TWO_ATTACHED)
  {
    var s := TWO_ATTACHED;
    assert PoolListed(s, 1) && ProfileListed(s, 5) && ProfileCounts(s.profiles[5]) && AttachmentsBack(s, 5);
    assert Reserved([5], s.profiles, false) == ChargeOf(EMPTY_PROFILE, false) + Reserved([5][1..], s.profiles, false);
    assert PoolConserved(s, 1);
  }

  /** Two ports at 2^31 bytes each make a product that wraps to 0: the resize of a 100-byte pool's profile succeeds. */
  lemma OverflowingResizeSucceeds(v: nat -> bool)
    requires forall i :: v(i)
    ensures var r := SetProfileSpec(TWO_ATTACHED, 5, SizeAttr(0x8000_0000), v);
            r.0 == Success && !Conserved(r.1)
  {
    TwoAttachedValid();
    hide Refs, Conserved, Push, RecalcSpec;
    var s, a := TWO_ATTACHED, SizeAttr(0x8000_0000);
    var c := CheckSize(s, s.profiles[5], a, v);
    assert c.status == Success && c.calls == 1;
    RefsAttachments(s);
    CountsExact(s, 5);
    PushAccepted(s.profiles[5], a, SizeAttr(0), s.hw, 1, v);
    SetProfileConserves(s, 5, a, v);
  }

  const PLAIN_POOL := Pool(Ingress, 100, 0, 92, DynamicPool, 1, [5])
  const XOFF_POOL := Pool(Ingress, 100, 10, 90, DynamicPool, 0, [])
  const XOFF_PROFILE := Profile(1, 5, false, StaticTh, 0, 0, 3, 0, 1, [Port(1)], [], [])
  const TWO_POOLS := State(map[1 := PLAIN_POOL, 2 := XOFF_POOL], map[5 := XOFF_PROFILE], map[Port(1) := 5],
                           map[Port(1) := HwOf(XOFF_PROFILE)], 0)

  lemma TwoPoolsValid()
    ensures Refs(TWO_POOLS) && Conserved(TWO_POOLS)
  {
    var s := TWO_POOLS;
    assert PoolListed(s, 1) && PoolListed(s, 2) && ProfileListed(s, 5) && ProfileCounts(s.profiles[5])
      && AttachmentsBack(s, 5);
    assert Reserved([5], s.profiles, false) == ChargeOf(XOFF_PROFILE, false) + Reserved([5][1..], s.profiles, false);
    assert PoolConserved(s, 1) && PoolConserved(s, 2);
  }

  /** Moved to a pool with its own XOFF size, a profile of 5 + 3 bytes needs 5 there, but the pool is charged 8. */
  lemma MoveIntoXoffPoolOvercharges(v: nat -> bool)
    requires forall i :: v(i)
    ensures var r := SetProfileSpec(TWO_POOLS, 5, PoolIdAttr(2), v);
            r.0 == Success && !Conserved(r.1)
  {
    TwoPoolsValid();
    hide Refs, Conserved, Push, RecalcSpec, Link, Unlink;
    var s, a := TWO_POOLS, PoolIdAttr(2);
    var c := CheckSize(s, s.profiles[5], a, v);
    assert c.status == Success && c.calls == 0;
    RefsAttachments(s);
    CountsExact(s, 5);
    PushAccepted(s.profiles[5], a, PoolIdAttr(1), s.hw, 0, v);
    SetProfileConserves(s, 5, a, v);
  }

  // ---------------------------------------------------------------------------------------------
  // Resizing a pool
  // ---------------------------------------------------------------------------------------------

  const HUGE_POOL := Pool(Ingress, 0xF000_0000, 0, 0, DynamicPool, 1, [1])
  const HUGE_PROFILE := Profile(1, 0xF000_0000, false, StaticTh, 0, 0, 0, 0, 1, [Port(1)], [], [])
  const HUGE := State(map[1 := HUGE_POOL], map[1 := HUGE_PROFILE], map[Port(1) := 1],
                      map[Port(1) := HwOf(HUGE_PROFILE)], 0)

  lemma HugeValid()
    ensures Refs(HUGE) && Conserved(HUGE)
  {
    var s := HUGE;
    assert PoolListed(s, 1) && ProfileListed(s, 1) && ProfileCounts(s.profiles[1]) && AttachmentsBack(s, 1);
    assert Reserved([1], s.profiles, false) == ChargeOf(HUGE_PROFILE, false) + Reserved([1][1..], s.profiles, false);
    assert PoolConserved(s, 1);
  }

  /**
   A pool of 0xF0000000 bytes, all reserved, is shrunk to 16 bytes: the shared size wraps to 0x10000010 and
   the resize succeeds.
   */
  lemma ShrinkingAHugePoolSucceeds(v: nat -> bool)
    requires v(0)
    ensures Refs(HUGE) && Conserved(HUGE)
    ensures var (st, t) := SetPoolSpec(HUGE, 1, PoolSizeAttr(16), v);
            st == Success && t.pools[1].sharedSize == 0x1000_0010 && !Conserved(t)
  {
    HugeValid();
    hide Refs, Conserved;
    assert ApplyPoolAttrs(HUGE_POOL, [PoolSizeAttr(16)], false) == ApplyPoolAttrs(HUGE_POOL.(size := 16), [], false);
    assert SharedInt32(HUGE_POOL.(size := 16), 0xF000_0000, 0) == 0x1000_0010;
    ResizePoolConserves(HUGE, 1, 16, v);
  }

  // ---------------------------------------------------------------------------------------------
  // The NPU and the profile disagree
  // ---------------------------------------------------------------------------------------------

  /**
   The second of two ports refuses the new size and the first then refuses the old one: the NPU holds a size
   no profile has.
   */
  lemma RefusedUndoBreaksSync(v: nat -> bool)
    requires v(0) && v(1) && !v(2) && !v(3)
    ensures HwSynced(TWO_ATTACHED)
    ensures !HwSynced(SetProfileSpec(TWO_ATTACHED, 5, SizeAttr(10), v).1)
  {
    hide Refs, HwSynced, Conserved, Push, SetProfileSpec, UndoRefused, Targets;
    var a := SizeAttr(10);
    TwoAttachedValid();
    TwoAttachedSynced();
    TwoTargets(a);
    assert UndoRefused(2, 1, v) by {
      assert RefusedAfter(1, 1, v) && RefusedAmong(1, 3, v);
      UndoRefusedAt(2, 1, 1, v);
    }
    RefsAttachments(TWO_ATTACHED);
    SetProfileSynced(TWO_ATTACHED, 5, a, v);
  }

  lemma TwoAttachedSynced()
    ensures HwSynced(TWO_ATTACHED)
  {
  }

  lemma TwoTargets(a: ProfileAttr)
    requires a.SizeAttr?
    ensures |Targets(EMPTY_PROFILE, a)| == 2
  {
    ConcatThree(EMPTY_PROFILE.ports, EMPTY_PROFILE.queues, EMPTY_PROFILE.pgs);
  }
}
