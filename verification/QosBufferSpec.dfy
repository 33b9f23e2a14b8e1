/** What each QoS buffer call computes, as a function of the tables, the request and the NPU verdicts. */
module QosBufferSpec {
  import opened Common
  import opened QosBufferState
  import opened QosBufferWalk

  // ---------------------------------------------------------------------------------------------
  // Read-only checks
  // ---------------------------------------------------------------------------------------------

  predicate PoolAvailable(pools: map<Oid, Pool>, id: Oid, size: u32) {
    id in pools && pools[id].sharedSize >= size
  }

  predicate PoolsCompatible(pools: map<Oid, Pool>, a: Oid, b: Oid, checkTh: bool) {
    && a in pools && b in pools
    && pools[a].kind == pools[b].kind
    && (checkTh ==> pools[a].mode == pools[b].mode)
  }

  predicate ObjectCompatible(pools: map<Oid, Pool>, o: ObjId, p: Profile) {
    p.poolId in pools &&
    match pools[p.poolId].kind
    case Ingress => o.Port? || o.Pg?
    case Egress => o.Queue?
  }

  /**
   A shared threshold must be of the kind the profile or, failing that, its pool asks for; a PFC threshold
   needs an ingress pool.
   */
  predicate ThresholdValid(pools: map<Oid, Pool>, p: Profile, a: ProfileAttr) {
    p.poolId in pools &&
    var pool := pools[p.poolId];
    var wantsStatic := if p.thEnable && p.thMode != InheritPool then p.thMode == StaticTh else pool.mode == StaticPool;
    || (wantsStatic && a.StaticThAttr?)
    || (!wantsStatic && a.DynamicThAttr?)
    || (pool.kind == Ingress && IsPfc(a))
  }

  // ---------------------------------------------------------------------------------------------
  // Pools
  // ---------------------------------------------------------------------------------------------

  const NEW_POOL := Pool(Ingress, 0, 0, 0, DynamicPool, 0, [])

  function SetPoolField(p: Pool, a: PoolAttr): Pool {
    match a
    case KindAttr(x) => p.(kind := x)
    case PoolSizeAttr(x) => p.(size := x)
    case XoffSizeAttr(x) => p.(xoffSize := x)
    case PoolModeAttr(x) => p.(mode := x)
    case _ => p
  }

  function PoolAttrStatus(a: PoolAttr): Status {
    if a.SharedSizeAttr? then InvalidAttribute else if a.UnknownPoolAttr? then UnknownAttribute else Success
  }

  /**
   The pool node after an attribute list; an XOFF size is refused for an egress pool wherever it stands in
   the list.
   */
  function ApplyPoolAttrs(p: Pool, attrs: seq<PoolAttr>, xoffSeen: bool): (Status, Pool)
    decreases |attrs|
  {
    if attrs == [] then
      (if xoffSeen && p.kind == Egress then InvalidAttribute else Success, p)
    else if PoolAttrStatus(attrs[0]) != Success then (PoolAttrStatus(attrs[0]), p)
    else ApplyPoolAttrs(SetPoolField(p, attrs[0]), attrs[1..], xoffSeen || attrs[0].XoffSizeAttr?)
  }

  /** The two C statements that compute the new shared size: unsigned sums, each stored into a signed int. */
  function SharedInt32(p: Pool, curSize: u32, curXoff: u32): int {
    var first := AsInt32(Wrap(p.sharedSize + p.size - curSize));
    AsInt32(Wrap(first - p.xoffSize + curXoff))
  }

  function ValidateShared(was: Option<Pool>, p: Pool): (Status, Pool) {
    var curSize := if was.Some? then was.value.size else 0;
    var curXoff := if was.Some? then was.value.xoffSize else 0;
    var shared := SharedInt32(p, curSize, curXoff);
    if p.xoffSize > 0 && p.kind != Ingress then (InvalidParameter, p)
    else if p.xoffSize > p.size then (InvalidParameter, p)
    else if shared < 0 then (InsufficientResources, p)
    else (Success, p.(sharedSize := shared))
  }

  ghost function CreatePoolSpec(s: State, attrs: seq<PoolAttr>, id: Oid, v: nat -> bool): (Status, State) {
    if attrs == [] then (InvalidParameter, s)
    else
      var (st, p) := ApplyPoolAttrs(NEW_POOL, attrs, false);
      if st != Success then (st, s)
      else
        var (st, p) := ValidateShared(None, p);
        if st != Success then (st, s)
        else if !v(s.calls) then (NpuError, s.(calls := s.calls + 1))
        else (Success, s.(pools := s.pools[id := p], calls := s.calls + 1))
  }

  ghost function RemovePoolSpec(s: State, id: Oid, v: nat -> bool): (Status, State) {
    if id !in s.pools then (ItemNotFound, s)
    else if s.pools[id].numRef != 0 then (ObjectInUse, s)
    else if !v(s.calls) then (NpuError, s.(calls := s.calls + 1))
    else (Success, s.(pools := s.pools - {id}, calls := s.calls + 1))
  }

  /**
   Only the size is changed here; for an XOFF size the node is left to the NPU layer, which is not part of
   this model.
   */
  ghost function SetPoolSpec(s: State, id: Oid, a: PoolAttr, v: nat -> bool): (Status, State) {
    if id !in s.pools then (ItemNotFound, s)
    else
      var was := s.pools[id];
      var (st, p) := ApplyPoolAttrs(was, [a], false);
      if st != Success then (st, s)
      else if a.XoffSizeAttr? then
        if p.kind != Ingress then (AttrNotSupported, s)
        else (if v(s.calls) then Success else NpuError, s.(calls := s.calls + 1))
      else if !a.PoolSizeAttr? then (InvalidAttribute, s)
      else
        var (st, p) := ValidateShared(Some(was), p);
        if st != Success then (st, s)
        else if !v(s.calls) then (NpuError, s.(calls := s.calls + 1))
        else (Success, s.(pools := s.pools[id := p], calls := s.calls + 1))
  }

  /**
   Charging (`isAdd`) or crediting a pool, followed by a rewrite of its size in the NPU; a rejected rewrite
   takes the change back.
   */
  ghost function RecalcSpec(s: State, id: Oid, amount: u32, isAdd: bool, v: nat -> bool): (Status, State) {
    if id !in s.pools then (ItemNotFound, s)
    else
      var pool := s.pools[id];
      if isAdd && pool.sharedSize < amount then (InsufficientResources, s)
      else if !v(s.calls) then (NpuError, s.(calls := s.calls + 1))
      else
        var shared := if isAdd then pool.sharedSize - amount else Wrap(pool.sharedSize + amount);
        (Success, s.(pools := s.pools[id := pool.(sharedSize := shared)], calls := s.calls + 1))
  }

  // ---------------------------------------------------------------------------------------------
  // Profiles
  // ---------------------------------------------------------------------------------------------

  const NEW_PROFILE := Profile(NULL_ID, 0, false, StaticTh, 0, 0, 0, 0, 0, [], [], [])

  /** Every field of a profile except its pool. */
  function SetProfileField(p: Profile, a: ProfileAttr): Profile {
    match a
    case SizeAttr(x) => p.(size := x)
    case ModeAttr(x) => p.(thEnable := true, thMode := x)
    case DynamicThAttr(x) => p.(dynamicTh := x)
    case StaticThAttr(x) => p.(staticTh := x)
    case XoffThAttr(x) => p.(xoffTh := x)
    case XonThAttr(x) => p.(xonTh := x)
    case _ => p
  }

  function Unlink(pools: map<Oid, Pool>, id: Oid, q: Oid): map<Oid, Pool> {
    if id in pools then
      pools[id := pools[id].(profiles := Without(pools[id].profiles, q), numRef := pools[id].numRef - 1)]
    else pools
  }

  function Link(pools: map<Oid, Pool>, id: Oid, q: Oid): map<Oid, Pool> {
    if id in pools then
      pools[id := pools[id].(profiles := pools[id].profiles + [q], numRef := pools[id].numRef + 1)]
    else pools
  }

  /**
   One attribute stored into the node of profile `q`; a pool id also moves the node from its old pool's list
   to the new one's.
   */
  function UpdateNode(pools: map<Oid, Pool>, p: Profile, q: Oid, a: ProfileAttr): (Status, map<Oid, Pool>, Profile) {
    match a
    case PoolIdAttr(id) =>
      if id !in pools then (ItemNotFound, pools, p)
      else
        var pools1 := if p.poolId != NULL_ID then Unlink(pools, p.poolId, q) else pools;
        (Success, Link(pools1, id, q), p.(poolId := id))
    case UnknownProfileAttr => (UnknownAttribute, pools, p)
    case _ => (Success, pools, SetProfileField(p, a))
  }

  function UpdateNodeAll(pools: map<Oid, Pool>, p: Profile, q: Oid,
                         attrs: seq<ProfileAttr>): (Status, map<Oid, Pool>, Profile)
    decreases |attrs|
  {
    if attrs == [] then (Success, pools, p)
    else
      var (st, pools1, p1) := UpdateNode(pools, p, q, attrs[0]);
      if st != Success then (st, pools1, p1) else UpdateNodeAll(pools1, p1, q, attrs[1..])
  }

  /** The pool id that an attribute list names last. */
  function ListedPool(attrs: seq<ProfileAttr>): Option<Oid> {
    if attrs == [] then None
    else if attrs[|attrs| - 1].PoolIdAttr? then Some(attrs[|attrs| - 1].poolId)
    else ListedPool(attrs[..|attrs| - 1])
  }

  function ListedMode(attrs: seq<ProfileAttr>): Option<ProfileMode> {
    if attrs == [] then None
    else if attrs[|attrs| - 1].ModeAttr? then Some(attrs[|attrs| - 1].thMode)
    else ListedMode(attrs[..|attrs| - 1])
  }

  ghost predicate HasStatic(attrs: seq<ProfileAttr>) {
    exists i :: 0 <= i < |attrs| && attrs[i].StaticThAttr?
  }

  ghost predicate HasDynamic(attrs: seq<ProfileAttr>) {
    exists i :: 0 <= i < |attrs| && attrs[i].DynamicThAttr?
  }

  ghost predicate HasPfc(attrs: seq<ProfileAttr>) {
    exists i :: 0 <= i < |attrs| && IsPfc(attrs[i])
  }

  /**
   A new profile names an existing pool and exactly the kind of shared threshold that its mode, or its pool's
   mode, asks for.
   */
  ghost function MandatoryThSpec(pools: map<Oid, Pool>, attrs: seq<ProfileAttr>): Status {
    var pool := ListedPool(attrs);
    if pool == None || pool.value !in pools then InvalidAttrValue
    else if HasDynamic(attrs) && HasStatic(attrs) then InvalidParameter
    else
      var mode := ListedMode(attrs);
      var wantsStatic := if mode == None || mode.value == InheritPool then pools[pool.value].mode == StaticPool
                         else mode.value == StaticTh;
      if wantsStatic && !HasStatic(attrs) then MandatoryAttributeMissing
      else if !wantsStatic && !HasDynamic(attrs) then MandatoryAttributeMissing
      else Success
  }

  ghost function PfcSpec(pools: map<Oid, Pool>, attrs: seq<ProfileAttr>): Status {
    var pool := ListedPool(attrs);
    if pool == None || pool.value !in pools then InvalidParameter
    else if HasPfc(attrs) && pools[pool.value].kind == Egress then InvalidAttribute
    else Success
  }

  predicate SameAttr(a: ProfileAttr, b: ProfileAttr) {
    match a
    case PoolIdAttr(_) => b.PoolIdAttr?
    case SizeAttr(_) => b.SizeAttr?
    case ModeAttr(_) => b.ModeAttr?
    case DynamicThAttr(_) => b.DynamicThAttr?
    case StaticThAttr(_) => b.StaticThAttr?
    case XoffThAttr(_) => b.XoffThAttr?
    case XonThAttr(_) => b.XonThAttr?
    case UnknownProfileAttr => b.UnknownProfileAttr?
  }

  /** What the generic attribute validator lets through: known attributes, each at most once. */
  predicate WellFormedAttrs(attrs: seq<ProfileAttr>) {
    && attrs != []
    && (forall i :: 0 <= i < |attrs| ==> !attrs[i].UnknownProfileAttr?)
    && (forall i, j :: 0 <= i < j < |attrs| ==> !SameAttr(attrs[i], attrs[j]))
  }

  /** The node is linked to its pool before the NPU is asked; when the NPU rejects it, it stays linked. */
  ghost function CreateProfileSpec(s: State, attrs: seq<ProfileAttr>, id: Oid, v: nat -> bool): (Status, State) {
    if !WellFormedAttrs(attrs) then (InvalidParameter, s)
    else if MandatoryThSpec(s.pools, attrs) != Success then (MandatoryThSpec(s.pools, attrs), s)
    else if PfcSpec(s.pools, attrs) != Success then (PfcSpec(s.pools, attrs), s)
    else
      var (st, pools, p) := UpdateNodeAll(s.pools, NEW_PROFILE, id, attrs);
      var s1 := s.(pools := pools);
      if st != Success then (st, s1)
      else if !v(s.calls) then (NpuError, s1.(calls := s.calls + 1))
      else (Success, s1.(profiles := s.profiles[id := p], calls := s.calls + 1))
  }

  ghost function RemoveProfileSpec(s: State, q: Oid, v: nat -> bool): (Status, State) {
    if q !in s.profiles then (ItemNotFound, s)
    else if s.profiles[q].numRef != 0 then (ObjectInUse, s)
    else if !v(s.calls) then (NpuError, s.(calls := s.calls + 1))
    else (Success, s.(pools := Unlink(s.pools, s.profiles[q].poolId, q), profiles := s.profiles - {q},
                      calls := s.calls + 1))
  }

  // ---------------------------------------------------------------------------------------------
  // Setting a profile attribute
  // ---------------------------------------------------------------------------------------------

  function CheckValue(pools: map<Oid, Pool>, p: Profile, a: ProfileAttr): Status {
    if a.StaticThAttr? || a.DynamicThAttr? || IsPfc(a) then
      if ThresholdValid(pools, p, a) then Success else InvalidAttribute
    else if a.PoolIdAttr? then
      if PoolsCompatible(pools, a.poolId, p.poolId, !p.thEnable) then Success else InvalidAttrValue
    else Success
  }

  /** `amount` is the 32-bit product that the pool will be charged or credited with. */
  datatype SizeCheck = SizeCheck(status: Status, amount: u32, isAdd: bool, calls: nat)

  /** The check of growing or shrinking a per-object reservation from `was` to `now`. */
  function CheckGrowth(s: State, p: Profile, was: u32, now: u32, v: nat -> bool): SizeCheck {
    if now > was then
      var amount := Wrap(p.numRef * (now - was));
      if !PoolAvailable(s.pools, p.poolId, amount) then SizeCheck(InsufficientResources, amount, false, s.calls)
      else if !v(s.calls) then SizeCheck(InsufficientResources, amount, false, s.calls + 1)
      else SizeCheck(Success, amount, true, s.calls + 1)
    else SizeCheck(Success, Wrap(p.numRef * (was - now)), false, s.calls)
  }

  function CheckSize(s: State, p: Profile, a: ProfileAttr, v: nat -> bool): SizeCheck {
    match a
    case PoolIdAttr(id) =>
      var amount := Wrap(p.numRef * (p.size + ReservedXoff(s.pools, p)));
      SizeCheck(if PoolAvailable(s.pools, id, amount) then Success else InsufficientResources, amount, false, s.calls)
    case SizeAttr(x) => CheckGrowth(s, p, p.size, x, v)
    case XoffThAttr(x) =>
      if XoffConfigured(s.pools, p.poolId) then SizeCheck(Success, 0, true, s.calls)
      else CheckGrowth(s, p, p.xoffTh, x, v)
    case _ => SizeCheck(Success, 0, false, s.calls)
  }

  /** Pushing the attribute to the attached objects and storing it in the node; the threshold mode is only stored. */
  ghost function UpdateObjectsSpec(s: State, q: Oid, a: ProfileAttr, v: nat -> bool): (Status, State)
    requires q in s.profiles
  {
    var p := s.profiles[q];
    var r := if a.ModeAttr? then PushResult(true, s.hw, s.calls) else Push(p, a, OldAttr(p, a), s.hw, s.calls, v);
    var s1 := s.(hw := r.hw, calls := r.calls);
    if !r.ok then (NpuError, s1)
    else
      var (st, pools, p1) := UpdateNode(s.pools, p, q, a);
      (st, s1.(pools := pools, profiles := s.profiles[q := p1]))
  }

  /** The charges that follow an accepted change; their status is ignored. */
  ghost function SettleSpec(s: State, oldPool: Oid, q: Oid, a: ProfileAttr, amount: u32, isAdd: bool,
                            v: nat -> bool): State
    requires q in s.profiles
  {
    if a.PoolIdAttr? then
      var s1 := RecalcSpec(s, oldPool, amount, false, v).1;
      RecalcSpec(s1, a.poolId, amount, true, v).1
    else if a.SizeAttr? || a.XoffThAttr? then RecalcSpec(s, s.profiles[q].poolId, amount, isAdd, v).1
    else s
  }

  ghost function SetProfileSpec(s: State, q: Oid, a: ProfileAttr, v: nat -> bool): (Status, State) {
    if a.UnknownProfileAttr? then (UnknownAttribute, s)
    else if q !in s.profiles then (ItemNotFound, s)
    else
      var p := s.profiles[q];
      if a.ModeAttr? && !p.thEnable && p.poolId !in s.pools then (Failure, s)
      else if CheckValue(s.pools, p, a) != Success then (CheckValue(s.pools, p, a), s)
      else
        var c := CheckSize(s, p, a, v);
        var s1 := s.(calls := c.calls);
        if c.status != Success then (c.status, s1)
        else
          var (st, s2) := UpdateObjectsSpec(s1, q, a, v);
          if st != Success then (st, s2)
          else (Success, SettleSpec(s2, p.poolId, q, a, c.amount, c.isAdd, v))
  }

  // ---------------------------------------------------------------------------------------------
  // Attaching a profile to a port, queue or priority group
  // ---------------------------------------------------------------------------------------------

  function Detached(p: Profile, o: ObjId): Profile {
    WithListFor(p, o, Without(ListFor(p, o), o)).(numRef := p.numRef - 1)
  }

  function Attached(p: Profile, o: ObjId): Profile {
    WithListFor(p, o, ListFor(p, o) + [o]).(numRef := p.numRef + 1)
  }

  /** The object node, both attachment lists and both counts after `o` moved to profile `q`. */
  function Relinked(s: State, o: ObjId, q: Oid): State {
    var was := if o in s.objects then s.objects[o] else NULL_ID;
    var ps := if was != NULL_ID && was in s.profiles then s.profiles[was := Detached(s.profiles[was], o)]
      else s.profiles;
    var ps1 := if q != NULL_ID && q in ps then ps[q := Attached(ps[q], o)] else ps;
    s.(profiles := ps1, objects := s.objects[o := q])
  }

  /** The 32-bit size that one attached object reserves; 0 for the null profile. */
  function UnitSize(s: State, q: Oid): u32 {
    if q in s.profiles then Wrap(s.profiles[q].size + ReservedXoff(s.pools, s.profiles[q])) else 0
  }

  function PoolOf(s: State, q: Oid): Oid {
    if q in s.profiles then s.profiles[q].poolId else NULL_ID
  }

  datatype PoolCalc = PoolCalc(status: Status, amount: u32, isAdd: bool)

  /** The availability check; the same amount must be available whether the pool is charged or credited. */
  function CalcPoolSize(pools: map<Oid, Pool>, oldPool: Oid, newPool: Oid, checkTh: bool, oldSize: u32,
                        newSize: u32): PoolCalc {
    var amount: u32 :=
      if oldPool == newPool then (if newSize > oldSize then newSize - oldSize else oldSize - newSize)
      else if newPool != NULL_ID then newSize
      else 0;
    var isAdd := oldPool == newPool && newSize > oldSize;
    if oldPool != newPool && newPool != NULL_ID && oldPool != NULL_ID
      && !PoolsCompatible(pools, oldPool, newPool, checkTh) then
      PoolCalc(InvalidParameter, 0, false)
    else if newPool != NULL_ID && !PoolAvailable(pools, newPool, amount) then
      PoolCalc(InsufficientResources, amount, isAdd)
    else PoolCalc(Success, amount, isAdd)
  }

  ghost function ChargePools(s: State, oldPool: Oid, newPool: Oid, c: PoolCalc, oldSize: u32, newSize: u32,
                             v: nat -> bool): State {
    if oldPool == newPool then RecalcSpec(s, oldPool, c.amount, c.isAdd, v).1
    else
      var s1 := if oldPool != NULL_ID then RecalcSpec(s, oldPool, oldSize, false, v).1 else s;
      if newPool != NULL_ID then RecalcSpec(s1, newPool, newSize, true, v).1 else s1
  }

  function HwSettingOf(s: State, q: Oid): HwSetting {
    if q in s.profiles then HwOf(s.profiles[q]) else DEFAULT_HW
  }

  ghost function SetObjectSpec(s: State, o: ObjId, q: Oid, v: nat -> bool): (Status, State) {
    if o !in s.objects then (ItemNotFound, s)
    else
      var was := s.objects[o];
      if was == q then (Success, s)
      else if q != NULL_ID && q !in s.profiles then (ItemNotFound, s)
      else if q != NULL_ID && !ObjectCompatible(s.pools, o, s.profiles[q]) then (InvalidParameter, s)
      else if was != NULL_ID && was !in s.profiles then (ItemNotFound, s)
      else
        var checkTh := was == NULL_ID || !s.profiles[was].thEnable;
        var c := CalcPoolSize(s.pools, PoolOf(s, was), PoolOf(s, q), checkTh, UnitSize(s, was), UnitSize(s, q));
        if c.status != Success then (c.status, s)
        else if !v(s.calls) then (NpuError, s.(calls := s.calls + 1))
        else
          var s1 := Relinked(s.(hw := s.hw[o := HwSettingOf(s, q)], calls := s.calls + 1), o, q);
          (Success, ChargePools(s1, PoolOf(s, was), PoolOf(s, q), c, UnitSize(s, was), UnitSize(s, q), v))
  }

  // ---------------------------------------------------------------------------------------------
  // Runs
  // ---------------------------------------------------------------------------------------------

  /** A request, with the id the NPU hands out where one is created. */
  datatype Request =
    | CreatePool(poolAttrs: seq<PoolAttr>, newId: Oid)
    | RemovePool(id: Oid)
    | SetPool(id: Oid, poolAttr: PoolAttr)
    | CreateProfile(attrs: seq<ProfileAttr>, newId: Oid)
    | RemoveProfile(id: Oid)
    | SetProfile(id: Oid, attr: ProfileAttr)
    | SetObject(o: ObjId, id: Oid)

  ghost function Step(s: State, r: Request, v: nat -> bool): (Status, State) {
    match r
    case CreatePool(attrs, id) => CreatePoolSpec(s, attrs, id, v)
    case RemovePool(id) => RemovePoolSpec(s, id, v)
    case SetPool(id, a) => SetPoolSpec(s, id, a, v)
    case CreateProfile(attrs, id) => CreateProfileSpec(s, attrs, id, v)
    case RemoveProfile(id) => RemoveProfileSpec(s, id, v)
    case SetProfile(id, a) => SetProfileSpec(s, id, a, v)
    case SetObject(o, id) => SetObjectSpec(s, o, id, v)
  }

  ghost function Run(s: State, rs: seq<Request>, v: nat -> bool): State
    decreases |rs|
  {
    if rs == [] then s else Run(Step(s, rs[0], v).1, rs[1..], v)
  }

  /** The NPU hands out ids that are not null and not in use. */
  ghost predicate FreshIds(s: State, r: Request) {
    && (r.CreatePool? ==> r.newId != NULL_ID && r.newId !in s.pools)
    && (r.CreateProfile? ==> r.newId != NULL_ID && r.newId !in s.profiles)
  }
}
