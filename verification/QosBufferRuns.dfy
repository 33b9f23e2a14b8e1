/**
 Every run of QoS buffer calls: which invariants each step keeps, with the exact exceptions, and what holds
 in the end.
 */
module QosBufferRuns {
  import opened Common
  import opened QosBufferState
  import opened QosBufferWalk
  import opened QosBufferSpec
  import opened QosBufferAttachments
  import opened QosBufferRefs
  import opened QosBufferHolding
  import opened QosBufferConservation
  import opened QosBufferPools
  import opened QosBufferSafety
  import opened QosBufferDirection
  import opened QosBufferHardware
  import opened QosBufferEffects

  // ---------------------------------------------------------------------------------------------
  // One step
  // ---------------------------------------------------------------------------------------------

  /** A step keeps both levels of reference counts exact, except for a profile create that fails late. */
  lemma StepRefs(s: State, r: Request, v: nat -> bool)
    requires Refs(s) && FreshIds(s, r)
    ensures Refs(Step(s, r, v).1) <==> !LateFailure(s, r, v)
  {
    hide Refs, LateCreateFailure, CreatePoolSpec, RemovePoolSpec, SetPoolSpec, CreateProfileSpec, RemoveProfileSpec,
         SetProfileSpec, SetObjectSpec;
    match r {
      case CreatePool(attrs, id) => CreatePoolRefs(s, attrs, id, v);
      case RemovePool(id) => RemovePoolRefs(s, id, v);
      case SetPool(id, a) => SetPoolRefs(s, id, a, v);
      case CreateProfile(attrs, id) => CreateProfileRefs(s, attrs, id, v);
      case RemoveProfile(id) => RemoveProfileRefs(s, id, v);
      case SetProfile(id, a) => SetProfileRefs(s, id, a, v);
      case SetObject(o, id) => SetObjectRefs(s, o, id, v);
    }
  }

  lemma StepDirected(s: State, r: Request, v: nat -> bool)
    requires Held(s) && Directed(s) && FreshIds(s, r)
    ensures Directed(Step(s, r, v).1)
  {
    hide Held, Directed, CreatePoolSpec, RemovePoolSpec, SetPoolSpec, CreateProfileSpec, RemoveProfileSpec,
         SetProfileSpec, SetObjectSpec;
    match r {
      case CreatePool(attrs, id) => CreatePoolDirected(s, attrs, id, v);
      case RemovePool(id) => RemovePoolDirected(s, id, v);
      case SetPool(id, a) => SetPoolDirected(s, id, a, v);
      case CreateProfile(attrs, id) => CreateProfileDirected(s, attrs, id, v);
      case RemoveProfile(id) => RemoveProfileDirected(s, id, v);
      case SetProfile(id, a) => SetProfileDirected(s, id, a, v);
      case SetObject(o, id) => SetObjectDirected(s, o, id, v);
    }
  }

  /** The bytes a request moves arrive: they fit in 32 bits and the pool rewrites that carry them are accepted. */
  ghost predicate Exact(s: State, r: Request, v: nat -> bool)
    requires Refs(s)
  {
    Step(s, r, v).0 == Success ==>
      match r
      case SetPool(id, PoolSizeAttr(size)) => id in s.pools
        && s.pools[id].sharedSize + size - s.pools[id].size >= -TWO31
      case SetProfile(q, a) =>
        && q in s.profiles && s.profiles[q].poolId in s.pools && (a.PoolIdAttr? ==> a.poolId in s.pools)
        && SetProfileExact(s, q, a, v)
      case SetObject(o, q) => o in s.objects && (s.objects[o] != q ==> AttachExact(s, o, q, v))
      case _ => true
  }

  lemma SetPoolConserves(s: State, id: Oid, a: PoolAttr, v: nat -> bool)
    requires Refs(s) && Conserved(s) && (SetPoolSpec(s, id, a, v).0 == Success ==> !a.PoolSizeAttr?)
    ensures Conserved(SetPoolSpec(s, id, a, v).1)
  {
    hide Refs, Conserved, ApplyPoolAttrs, ValidateShared;
    SameTablesConserved(s, SetPoolSpec(s, id, a, v).1);
  }

  lemma SameTablesConserved(s: State, t: State)
    requires Conserved(s) && s.pools == t.pools && s.profiles == t.profiles
    ensures Conserved(t)
  {
    forall id | id in t.pools
      ensures PoolConserved(t, id)
    {
      assert PoolConserved(s, id);
    }
  }

  lemma SetObjectConserves(s: State, o: ObjId, q: Oid, v: nat -> bool)
    requires Refs(s) && Conserved(s)
    ensures Conserved(SetObjectSpec(s, o, q, v).1) <==> Exact(s, SetObject(o, q), v)
  {
    SetObjectUnchanged(s, o, q, v);
    hide Refs, Conserved, SetObjectSpec, AttachExact;
    if SetObjectSpec(s, o, q, v).0 != Success {
      SetObjectRejected(s, o, q, v);
      SameTablesConserved(s, SetObjectSpec(s, o, q, v).1);
    } else if s.objects[o] != q {
      AttachConserves(s, o, q, v);
    }
  }

  lemma SetObjectUnchanged(s: State, o: ObjId, q: Oid, v: nat -> bool)
    ensures SetObjectSpec(s, o, q, v).0 == Success ==> o in s.objects
    ensures o in s.objects && s.objects[o] == q ==> SetObjectSpec(s, o, q, v).1 == s
  {
  }

  lemma SetProfileConservesAny(s: State, q: Oid, a: ProfileAttr, v: nat -> bool)
    requires Refs(s) && Conserved(s)
    ensures Conserved(SetProfileSpec(s, q, a, v).1) <==> Exact(s, SetProfile(q, a), v)
  {
    hide Refs, Conserved, SetProfileSpec, SetProfileExact;
    if SetProfileSpec(s, q, a, v).0 == Success {
      SetProfileConserves(s, q, a, v);
    } else {
      SetProfileRejected(s, q, a, v);
      SameTablesConserved(s, SetProfileSpec(s, q, a, v).1);
    }
  }

  lemma ResizeConservesAny(s: State, id: Oid, size: u32, v: nat -> bool)
    requires Refs(s) && Conserved(s)
    ensures Conserved(SetPoolSpec(s, id, PoolSizeAttr(size), v).1) <==> Exact(s, SetPool(id, PoolSizeAttr(size)), v)
  {
    hide Refs, Conserved, SetPoolSpec;
    if SetPoolSpec(s, id, PoolSizeAttr(size), v).0 == Success {
      ResizePoolConserves(s, id, size, v);
    } else {
      SetPoolRejected(s, id, PoolSizeAttr(size), v);
      SameTablesConserved(s, SetPoolSpec(s, id, PoolSizeAttr(size), v).1);
    }
  }

  /** A step conserves the bytes of every pool if and only if it is exact. */
  lemma StepConserves(s: State, r: Request, v: nat -> bool)
    requires Refs(s) && Conserved(s) && FreshIds(s, r)
    ensures Conserved(Step(s, r, v).1) <==> Exact(s, r, v)
  {
    hide Refs, Conserved, CreatePoolSpec, RemovePoolSpec, SetPoolSpec, CreateProfileSpec, RemoveProfileSpec,
         SetProfileSpec, SetObjectSpec,
         SetProfileExact, AttachExact;
    match r {
      case CreatePool(attrs, id) => CreatePoolConserves(s, attrs, id, v);
      case RemovePool(id) => RemovePoolConserves(s, id, v);
      case SetPool(id, PoolSizeAttr(size)) => ResizeConservesAny(s, id, size, v);
      case SetPool(id, a) => SetPoolConserves(s, id, a, v);
      case CreateProfile(attrs, id) => CreateProfileConserves(s, attrs, id, v);
      case RemoveProfile(id) => RemoveProfileConserves(s, id, v);
      case SetProfile(id, a) => SetProfileConservesAny(s, id, a, v);
      case SetObject(o, id) => SetObjectConserves(s, o, id, v);
    }
  }

  ghost predicate UndoLost(s: State, r: Request, v: nat -> bool) {
    r.SetProfile? && r.id in s.profiles && UndoRejected(s, r.id, r.attr, v)
  }

  /** A step keeps the NPU in agreement with the profiles if and only if no undo call is rejected. */
  lemma StepSynced(s: State, r: Request, v: nat -> bool)
    requires AttachmentsExact(s) && HwSynced(s) && FreshIds(s, r)
    ensures HwSynced(Step(s, r, v).1) <==> !UndoLost(s, r, v)
  {
    hide AttachmentsExact, HwSynced, UndoRejected, CreatePoolSpec, RemovePoolSpec, SetPoolSpec, CreateProfileSpec,
         RemoveProfileSpec, SetProfileSpec, SetObjectSpec;
    match r {
      case CreateProfile(attrs, id) => CreateProfileSynced(s, attrs, id, v);
      case SetProfile(id, a) => SetProfileSynced(s, id, a, v);
      case SetObject(o, id) => SetObjectSynced(s, o, id, v);
      case _ => PoolCallSynced(s, r, v);
    }
  }

  // ---------------------------------------------------------------------------------------------
  // Runs
  // ---------------------------------------------------------------------------------------------

  /** The ids of the run are fresh, and no profile create of it fails late. */
  ghost predicate Orderly(s: State, rs: seq<Request>, v: nat -> bool)
    decreases |rs|
  {
    rs != [] ==> FreshIds(s, rs[0]) && !LateFailure(s, rs[0], v) && Orderly(Step(s, rs[0], v).1, rs[1..], v)
  }

  ghost predicate ExactRun(s: State, rs: seq<Request>, v: nat -> bool)
    decreases |rs|
  {
    rs != [] ==> (Refs(s) ==> Exact(s, rs[0], v)) && ExactRun(Step(s, rs[0], v).1, rs[1..], v)
  }

  ghost predicate UndoneRun(s: State, rs: seq<Request>, v: nat -> bool)
    decreases |rs|
  {
    rs != [] ==> !UndoLost(s, rs[0], v) && UndoneRun(Step(s, rs[0], v).1, rs[1..], v)
  }

  /** Tables before the first call: no pool, no profile, nothing attached. */
  ghost predicate Initial(s: State) {
    && s.pools == map[] && s.profiles == map[] && s.objects.Keys == s.hw.Keys
    && forall o :: o in s.objects ==> s.objects[o] == NULL_ID && s.hw[o] == DEFAULT_HW
  }

  lemma InitialHolds(s: State)
    requires Initial(s)
    ensures Refs(s) && Held(s) && Directed(s) && Conserved(s) && HwSynced(s) && DefaultsHeld(s)
  {
  }

  /**
   Over every run, late failing creates included, each profile keeps its pool, attachments and counts
   stay exact, and directions safe.
   */
  lemma {:induction false} SafeRun(s: State, rs: seq<Request>, v: nat -> bool)
    requires Held(s) && Directed(s) && FreshRun(s, rs, v)
    ensures Held(Run(s, rs, v)) && Directed(Run(s, rs, v))
    decreases |rs|
  {
    hide Held, Directed, Step, FreshIds;
    if rs != [] {
      StepHeld(s, rs[0], v);
      StepDirected(s, rs[0], v);
      SafeRun(Step(s, rs[0], v).1, rs[1..], v);
    }
  }

  /** Over every orderly run the lists of the pools, too, are exactly the profiles naming them. */
  lemma {:induction false} RefsRun(s: State, rs: seq<Request>, v: nat -> bool)
    requires Refs(s) && Orderly(s, rs, v)
    ensures Refs(Run(s, rs, v))
    decreases |rs|
  {
    hide Refs, Step, FreshIds, LateFailure;
    if rs != [] {
      StepRefs(s, rs[0], v);
      RefsRun(Step(s, rs[0], v).1, rs[1..], v);
    }
  }

  /** Over every orderly run of exact steps, each pool's shared and reserved bytes add up to what it has. */
  lemma {:induction false} ConservedRun(s: State, rs: seq<Request>, v: nat -> bool)
    requires Refs(s) && Conserved(s) && Orderly(s, rs, v) && ExactRun(s, rs, v)
    ensures Refs(Run(s, rs, v)) && Conserved(Run(s, rs, v))
    decreases |rs|
  {
    hide Refs, Conserved, Step, FreshIds, LateFailure, Exact;
    if rs != [] {
      StepRefs(s, rs[0], v);
      StepConserves(s, rs[0], v);
      ConservedRun(Step(s, rs[0], v).1, rs[1..], v);
    }
  }

  /** Over every run in which no undo call is rejected, the NPU holds what the profiles say. */
  lemma {:induction false} SyncedRun(s: State, rs: seq<Request>, v: nat -> bool)
    requires AttachmentsExact(s) && HwSynced(s) && FreshRun(s, rs, v) && UndoneRun(s, rs, v)
    ensures AttachmentsExact(Run(s, rs, v)) && HwSynced(Run(s, rs, v))
    decreases |rs|
  {
    hide AttachmentsExact, HwSynced, Step, FreshIds, UndoLost;
    if rs != [] {
      StepAttachments(s, rs[0], v);
      StepSynced(s, rs[0], v);
      SyncedRun(Step(s, rs[0], v).1, rs[1..], v);
    }
  }

  /** Over every run, whatever the NPU answers, it has the default setting for each object without a profile. */
  lemma {:induction false} DefaultsRun(s: State, rs: seq<Request>, v: nat -> bool)
    requires Held(s) && DefaultsHeld(s) && FreshRun(s, rs, v)
    ensures Held(Run(s, rs, v)) && DefaultsHeld(Run(s, rs, v))
    decreases |rs|
  {
    hide Held, DefaultsHeld, Step, FreshIds;
    if rs != [] {
      StepHeld(s, rs[0], v);
      StepDefaults(s, rs[0], v);
      DefaultsRun(Step(s, rs[0], v).1, rs[1..], v);
    }
  }

  /**
   From empty tables, no run leaves a profile naming a removed pool, or an object a removed profile, or an
   object on the wrong side; a profile's count is the number of objects naming it, and an object without a
   profile has the default setting.
   */
  lemma NothingDangles(s: State, rs: seq<Request>, v: nat -> bool, q: Oid, o: ObjId)
    requires Initial(s) && FreshRun(s, rs, v)
    ensures var t := Run(s, rs, v);
            && (q in t.profiles ==> t.profiles[q].poolId in t.pools && t.profiles[q].numRef == |ObjectsNaming(t, q)|)
            && (o in t.objects && t.objects[o] != NULL_ID ==>
                  && t.objects[o] in t.profiles
                  && t.profiles[t.objects[o]].poolId in t.pools
                  && t.pools[t.profiles[t.objects[o]].poolId].kind == if o.Queue? then Egress else Ingress)
            && (o in t.objects && t.objects[o] == NULL_ID ==> o in t.hw && t.hw[o] == HwSetting(NULL_ID, 0, 0, 0, 0, 0))
  {
    hide Run, FreshRun, Held, AttachmentsExact, Refs, Directed, Conserved, HwSynced, ObjectsNaming;
    InitialHolds(s);
    SafeRun(s, rs, v);
    DefaultsRun(s, rs, v);
    var t := Run(s, rs, v);
    HeldAttachments(t);
    if q in t.profiles {
      PoolHeld(t, q);
      ProfileCountExact(t, q);
    }
    if o in t.objects && t.objects[o] != NULL_ID {
      ObjectDirection(t, o);
    }
  }

  /** From empty tables, no run of exact steps reserves more bytes than a pool has. */
  lemma NeverOvercommitted(s: State, rs: seq<Request>, v: nat -> bool, id: Oid)
    requires Initial(s) && Orderly(s, rs, v) && ExactRun(s, rs, v) && id in Run(s, rs, v).pools
    ensures var t := Run(s, rs, v);
            0 <= PoolReserved(t, id) == t.pools[id].size - t.pools[id].xoffSize - t.pools[id].sharedSize
  {
    hide Run, Orderly, ExactRun, Refs, Directed, HwSynced, Reserved;
    InitialHolds(s);
    ConservedRun(s, rs, v);
    var t := Run(s, rs, v);
    SharedAtMost(t, id);
    assert PoolConserved(t, id);
  }
}
