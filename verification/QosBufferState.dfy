/**
 The tables of the QoS buffer module: buffer pools, buffer profiles, the ports, queues and priority
 groups a profile can be attached to, and the buffer settings held by the NPU.
 */
module QosBufferState {
  import opened Common

  /** Ports, queues and priority groups; the object type is encoded in the id. */
  datatype ObjId = Port(n: nat) | Queue(n: nat) | Pg(n: nat) | Other(n: nat)

  datatype PoolKind = Ingress | Egress

  datatype PoolMode = StaticPool | DynamicPool

  datatype ProfileMode = StaticTh | DynamicTh | InheritPool

  datatype Pool = Pool(
    kind: PoolKind,
    size: u32,
    xoffSize: u32,
    sharedSize: u32,
    mode: PoolMode,
    numRef: int,
    profiles: seq<Oid>)

  datatype Profile = Profile(
    poolId: Oid,
    size: u32,
    thEnable: bool,
    thMode: ProfileMode,
    dynamicTh: int,
    staticTh: u32,
    xoffTh: u32,
    xonTh: u32,
    numRef: int,
    ports: seq<ObjId>,
    queues: seq<ObjId>,
    pgs: seq<ObjId>)

  datatype PoolAttr =
    | KindAttr(kind: PoolKind)
    | PoolSizeAttr(size: u32)
    | XoffSizeAttr(xoffSize: u32)
    | PoolModeAttr(mode: PoolMode)
    | SharedSizeAttr
    | UnknownPoolAttr

  datatype ProfileAttr =
    | PoolIdAttr(poolId: Oid)
    | SizeAttr(size: u32)
    | ModeAttr(thMode: ProfileMode)
    | DynamicThAttr(dynamicTh: int)
    | StaticThAttr(staticTh: u32)
    | XoffThAttr(xoffTh: u32)
    | XonThAttr(xonTh: u32)
    | UnknownProfileAttr

  /** What the NPU holds for one port, queue or priority group. */
  datatype HwSetting = HwSetting(poolId: Oid, size: u32, dynamicTh: int, staticTh: u32, xoffTh: u32, xonTh: u32)

  /** `calls` counts the NPU calls made so far; the verdict on call n is the n-th answer of an arbitrary oracle. */
  datatype State = State(
    pools: map<Oid, Pool>,
    profiles: map<Oid, Profile>,
    objects: map<ObjId, Oid>,
    hw: map<ObjId, HwSetting>,
    calls: nat)

  /** The list of profile `p` that holds objects of the type of `o`. */
  function ListFor(p: Profile, o: ObjId): seq<ObjId> {
    match o
    case Port(_) => p.ports
    case Queue(_) => p.queues
    case Pg(_) => p.pgs
    case Other(_) => []
  }

  function WithListFor(p: Profile, o: ObjId, l: seq<ObjId>): Profile {
    match o
    case Port(_) => p.(ports := l)
    case Queue(_) => p.(queues := l)
    case Pg(_) => p.(pgs := l)
    case Other(_) => p
  }

  predicate XoffConfigured(pools: map<Oid, Pool>, poolId: Oid) {
    poolId in pools && pools[poolId].xoffSize > 0
  }

  /** The XOFF bytes a profile reserves per attached object. */
  function ReservedXoff(pools: map<Oid, Pool>, p: Profile): u32 {
    if XoffConfigured(pools, p.poolId) then 0 else p.xoffTh
  }

  function HwOf(p: Profile): HwSetting {
    HwSetting(p.poolId, p.size, p.dynamicTh, p.staticTh, p.xoffTh, p.xonTh)
  }

  const DEFAULT_HW := HwSetting(NULL_ID, 0, 0, 0, 0, 0)

  // ---------------------------------------------------------------------------------------------
  // Conservation
  // ---------------------------------------------------------------------------------------------

  /** The exact number of bytes that the objects attached to `p` take from a pool. */
  function ChargeOf(p: Profile, xoffConfigured: bool): int {
    p.numRef * (p.size + (if xoffConfigured then 0 else p.xoffTh))
  }

  function Reserved(list: seq<Oid>, profiles: map<Oid, Profile>, xoffConfigured: bool): int {
    if list == [] then 0
    else (if list[0] in profiles then ChargeOf(profiles[list[0]], xoffConfigured) else 0)
         + Reserved(list[1..], profiles, xoffConfigured)
  }

  /** The bytes that the profiles of pool `id` reserve from it. */
  function PoolReserved(s: State, id: Oid): int
    requires id in s.pools
  {
    Reserved(s.pools[id].profiles, s.profiles, s.pools[id].xoffSize > 0)
  }

  ghost predicate PoolConserved(s: State, id: Oid)
    requires id in s.pools
  {
    s.pools[id].sharedSize + PoolReserved(s, id) == s.pools[id].size - s.pools[id].xoffSize
  }

  /** In every pool the shared bytes and the reserved bytes add up to what the pool has. */
  ghost predicate Conserved(s: State) {
    forall id :: id in s.pools ==> PoolConserved(s, id)
  }

  // ---------------------------------------------------------------------------------------------
  // References
  // ---------------------------------------------------------------------------------------------

  ghost predicate PoolListed(s: State, id: Oid)
    requires id in s.pools
  {
    var pool := s.pools[id];
    && Distinct(pool.profiles)
    && pool.numRef == |pool.profiles|
    && forall q :: q in pool.profiles ==> q in s.profiles && s.profiles[q].poolId == id
  }

  ghost predicate ProfileListed(s: State, q: Oid)
    requires q in s.profiles
  {
    s.profiles[q].poolId in s.pools && q in s.pools[s.profiles[q].poolId].profiles
  }

  ghost predicate ProfileCounts(p: Profile) {
    && p.numRef == |p.ports| + |p.queues| + |p.pgs|
    && Distinct(p.ports) && Distinct(p.queues) && Distinct(p.pgs)
    && (forall o :: o in p.ports ==> o.Port?)
    && (forall o :: o in p.queues ==> o.Queue?)
    && (forall o :: o in p.pgs ==> o.Pg?)
  }

  ghost predicate AttachmentsBack(s: State, q: Oid)
    requires q in s.profiles
  {
    forall o :: o in ListFor(s.profiles[q], o) ==> o in s.objects && s.objects[o] == q
  }

  ghost predicate ObjectListed(s: State, o: ObjId)
    requires o in s.objects
  {
    s.objects[o] != NULL_ID ==> s.objects[o] in s.profiles && o in ListFor(s.profiles[s.objects[o]], o)
  }

  /** The lists and the count of every profile are exactly the objects naming it. */
  ghost predicate AttachmentsExact(s: State) {
    && NULL_ID !in s.profiles
    && (forall q :: q in s.profiles ==> ProfileCounts(s.profiles[q]) && AttachmentsBack(s, q))
    && (forall o :: o in s.objects ==> ObjectListed(s, o))
  }

  /** Every profile's pool is there and lists it, every count is the length of a list, and attachments are exact. */
  ghost predicate Held(s: State) {
    && NULL_ID !in s.pools
    && (forall id :: id in s.pools ==> s.pools[id].numRef == |s.pools[id].profiles|)
    && (forall q :: q in s.profiles ==> ProfileListed(s, q))
    && AttachmentsExact(s)
  }

  /**
   Both levels of reference counts are exact: each count is the length of a list, and each list is the
   inverse of a field.
   */
  ghost predicate Refs(s: State) {
    && NULL_ID !in s.pools
    && (forall id :: id in s.pools ==> PoolListed(s, id))
    && (forall q :: q in s.profiles ==> ProfileListed(s, q))
    && AttachmentsExact(s)
  }

  // ---------------------------------------------------------------------------------------------
  // Direction
  // ---------------------------------------------------------------------------------------------

  ghost predicate ProfileDirected(s: State, q: Oid)
    requires q in s.profiles
  {
    var p := s.profiles[q];
    p.poolId in s.pools ==>
      if s.pools[p.poolId].kind == Ingress then p.queues == []
      else p.ports == [] && p.pgs == [] && p.xoffTh == 0 && p.xonTh == 0
  }

  /**
   Ports and priority groups use ingress pools only, queues egress pools only, and no profile of an egress
   pool has a PFC threshold.
   */
  ghost predicate Directed(s: State) {
    forall q :: q in s.profiles ==> ProfileDirected(s, q)
  }

  // ---------------------------------------------------------------------------------------------
  // Hardware agreement
  // ---------------------------------------------------------------------------------------------

  /** PFC thresholds are pushed to priority groups only. */
  predicate HwAgrees(h: HwSetting, p: Profile, o: ObjId) {
    && h.poolId == p.poolId && h.size == p.size
    && h.dynamicTh == p.dynamicTh && h.staticTh == p.staticTh
    && (o.Pg? ==> h.xoffTh == p.xoffTh && h.xonTh == p.xonTh)
  }

  ghost predicate HwSynced(s: State) {
    && s.objects.Keys == s.hw.Keys
    && forall o :: o in s.objects && s.objects[o] in s.profiles ==> HwAgrees(s.hw[o], s.profiles[s.objects[o]], o)
  }

  /** The NPU has the default setting for each object without a profile. */
  ghost predicate DefaultsHeld(s: State) {
    && s.objects.Keys == s.hw.Keys
    && forall o :: o in s.objects && s.objects[o] == NULL_ID ==> s.hw[o] == HwSetting(NULL_ID, 0, 0, 0, 0, 0)
  }
}
