/**
 Host interface traps and trap groups: every trap is in the list of the group it names. What each call
 computes, and the invariant behind the assertions on group lookups.
 */
module TrapSpec {
  import opened Common

  datatype GroupId = Null | Group(index: nat) | OtherType(n: nat)

  /** `count` is kept beside the list of traps. */
  datatype TrapGroup = TrapGroup(queue: nat, admin: bool, traps: seq<nat>, count: int)

  datatype Trap = Trap(action: nat, priority: nat, group: GroupId, excluded: seq<Oid>)

  datatype GroupAttr =
    | AdminAttr(admin: bool)
    | QueueAttr(queue: nat)
    | PolicerAttr(policer: Oid)
    | UnknownGroupAttr(id: nat)

  datatype TrapAttr = ActionAttr(action: nat) | PriorityAttr(priority: nat) | TrapGroupAttr(group: GroupId)
                    | ExcludeAttr(ports: seq<Oid>) | UnknownTrapAttr

  const MAX_GROUPS: nat := 128
  const MIN_PRIORITY: nat := 0

  datatype State = State(
    groups: map<GroupId, TrapGroup>,
    traps: map<nat, Trap>,
    free: seq<bool>,
    defaultGroup: GroupId,
    calls: nat)

  /**
   What the rest of the system decides: valid values, default actions, the default CPU queue and the NPU's
   answers.
   */
  datatype Env = Env(
    validTrap: nat -> bool,
    validAction: nat -> bool,
    validPort: Oid -> bool,
    defaultAction: nat -> nat,
    defaultQueue: nat,
    verdict: nat -> bool)

  // ---------------------------------------------------------------------------------------------
  // Trap groups
  // ---------------------------------------------------------------------------------------------

  predicate QueueTaken(groups: map<GroupId, TrapGroup>, queue: nat) {
    exists g :: g in groups && groups[g].queue == queue
  }

  /** The first free id; id 0 is never handed out. */
  function FirstFree(free: seq<bool>, i: nat): (r: nat)
    requires i <= |free|
    ensures i <= r <= |free| && (r < |free| ==> free[r])
    ensures forall j :: i <= j < r ==> !free[j]
    decreases |free| - i
  {
    if i == |free| || free[i] then i else FirstFree(free, i + 1)
  }

  predicate SameGroupAttr(a: GroupAttr, b: GroupAttr) {
    || (a.AdminAttr? && b.AdminAttr?) || (a.QueueAttr? && b.QueueAttr?) || (a.PolicerAttr? && b.PolicerAttr?)
    || (a.UnknownGroupAttr? && a == b)
  }

  predicate HasDuplicate(attrs: seq<GroupAttr>) {
    exists i, j :: 0 <= i < j < |attrs| && SameGroupAttr(attrs[i], attrs[j])
  }

  /** At least one attribute, none unknown and none twice. */
  predicate GroupAttrsValid(attrs: seq<GroupAttr>) {
    && attrs != []
    && (forall i :: 0 <= i < |attrs| ==> !attrs[i].UnknownGroupAttr?)
    && (forall i, j :: 0 <= i < j < |attrs| ==> !SameGroupAttr(attrs[i], attrs[j]))
  }

  /** Each known attribute is also validated by the NPU, up to the first one that is unknown or refused. */
  function CheckAttrs(attrs: seq<GroupAttr>, calls: nat, v: nat -> bool): (r: (Status, nat))
    ensures r.0 == Success ==> forall i :: 0 <= i < |attrs| ==> !attrs[i].UnknownGroupAttr?
    decreases |attrs|
  {
    if attrs == [] then (Success, calls)
    else if attrs[0].UnknownGroupAttr? then (UnknownAttribute, calls)
    else if !v(calls) then (AttrNotSupported, calls + 1)
    else
      var r := CheckAttrs(attrs[1..], calls + 1, v);
      assert r.0 == Success ==> forall i :: 1 <= i < |attrs| ==> attrs[i] == attrs[1..][i - 1];
      r
  }

  /** Duplicates are looked for before the attributes themselves. */
  function GroupAttrsStatus(attrs: seq<GroupAttr>, calls: nat, v: nat -> bool): (r: (Status, nat))
    ensures r.0 == Success ==> GroupAttrsValid(attrs)
  {
    if attrs == [] then (InvalidParameter, calls)
    else if HasDuplicate(attrs) then (InvalidAttribute, calls)
    else CheckAttrs(attrs, calls, v)
  }

  lemma {:induction false} CheckAttrsAccepts(attrs: seq<GroupAttr>, calls: nat, v: nat -> bool)
    ensures CheckAttrs(attrs, calls, v).0 == Success <==>
      && (forall i :: 0 <= i < |attrs| ==> !attrs[i].UnknownGroupAttr?)
      && (forall i :: calls <= i < calls + |attrs| ==> v(i))
    decreases |attrs|
  {
    if attrs != [] && !attrs[0].UnknownGroupAttr? && v(calls) {
      CheckAttrsAccepts(attrs[1..], calls + 1, v);
      assert forall i :: 1 <= i < |attrs| ==> attrs[i] == attrs[1..][i - 1];
    }
  }

  /** A list passes exactly when it is not empty, names no attribute twice or unknown, and the NPU accepts each one. */
  lemma GroupAttrsAccepted(attrs: seq<GroupAttr>, calls: nat, v: nat -> bool)
    ensures GroupAttrsStatus(attrs, calls, v).0 == Success <==>
      GroupAttrsValid(attrs) && forall i :: calls <= i < calls + |attrs| ==> v(i)
  {
    CheckAttrsAccepts(attrs, calls, v);
  }

  function AskedQueue(attrs: seq<GroupAttr>): Option<nat> {
    if attrs == [] then None else if attrs[0].QueueAttr? then Some(attrs[0].queue) else AskedQueue(attrs[1..])
  }

  /** A new node is zeroed, so that a group created without a queue is stored with queue 0. */
  function FilledGroup(g: TrapGroup, attrs: seq<GroupAttr>): TrapGroup
    decreases |attrs|
  {
    if attrs == [] then g
    else
      var h := match attrs[0]
               case AdminAttr(x) => g.(admin := x)
               case QueueAttr(x) => g.(queue := x)
               case _ => g;
      FilledGroup(h, attrs[1..])
  }

  const NEW_GROUP := TrapGroup(0, false, [], 0)

  ghost function CreateSpec(s: State, e: Env, attrs: seq<GroupAttr>): (Status, GroupId, State)
    requires |s.free| == MAX_GROUPS
  {
    var (st, calls) := GroupAttrsStatus(attrs, s.calls, e.verdict);
    var s1 := s.(calls := calls);
    if st != Success then (st, Null, s1)
    else
      var queue := if AskedQueue(attrs) == None then e.defaultQueue else AskedQueue(attrs).value;
      var i := FirstFree(s.free, 1);
      if QueueTaken(s.groups, queue) then (ItemAlreadyExists, Null, s1)
      else if i == MAX_GROUPS then (InsufficientResources, Null, s1)
      else
        (Success, Group(i),
         s1.(groups := s.groups[Group(i) := FilledGroup(NEW_GROUP, attrs)], free := s.free[i := false]))
  }

  function RemoveSpec(s: State, id: GroupId): (Status, State)
    requires |s.free| == MAX_GROUPS
  {
    if !id.Group? then (InvalidObjectType, s)
    else if id !in s.groups then (InvalidObjectId, s)
    else if s.groups[id].count > 0 then (ObjectInUse, s)
    else if s.defaultGroup == id then (ObjectInUse, s)
    else (Success, s.(groups := s.groups - {id}, free := if id.index < MAX_GROUPS then s.free[id.index := true]
                      else s.free))
  }

  /** One NPU call per trap of the group, up to the first rejection. */
  function UpdateTraps(n: nat, calls: nat, v: nat -> bool): (bool, nat) {
    if n == 0 then (true, calls) else if !v(calls) then (false, calls + 1) else UpdateTraps(n - 1, calls + 1, v)
  }

  function SetGroupSpec(s: State, e: Env, id: GroupId, a: GroupAttr): (Status, State) {
    var (st, calls) := GroupAttrsStatus([a], s.calls, e.verdict);
    var s1 := s.(calls := calls);
    if !id.Group? then (InvalidObjectType, s)
    else if st != Success then (st, s1)
    else if id !in s.groups then (InvalidObjectId, s1)
    else if a.PolicerAttr? then (AttrNotSupported, s1)
    else
      var g := s.groups[id];
      if (a.AdminAttr? && g.admin == a.admin) || (a.QueueAttr? && g.queue == a.queue) then (Success, s1)
      else if a.QueueAttr? && QueueTaken(s.groups, a.queue) then (ItemAlreadyExists, s1)
      else
        var (ok, calls) := UpdateTraps(|g.traps|, s1.calls, e.verdict);
        var s2 := s.(calls := calls);
        if !ok then (NpuError, s2)
        else
          (Success, s2.(groups := s.groups[id := if a.AdminAttr? then g.(admin := a.admin) else g.(queue := a.queue)]))
  }

  // ---------------------------------------------------------------------------------------------
  // Traps
  // ---------------------------------------------------------------------------------------------

  function Enlist(groups: map<GroupId, TrapGroup>, id: GroupId, t: nat): map<GroupId, TrapGroup> {
    if id in groups then groups[id := groups[id].(traps := groups[id].traps + [t], count := groups[id].count + 1)]
      else groups
  }

  function Delist(groups: map<GroupId, TrapGroup>, id: GroupId, t: nat): map<GroupId, TrapGroup> {
    if id in groups then groups[id := groups[id].(traps := Without(groups[id].traps, t),
                                                  count := groups[id].count - 1)] else groups
  }

  function ValidateTrap(s: State, e: Env, t: nat, a: TrapAttr): Status {
    if !e.validTrap(t) then InvalidParameter
    else
      match a
      case UnknownTrapAttr => UnknownAttribute
      case ActionAttr(x) => if e.validAction(x) then Success else InvalidAttrValue
      case TrapGroupAttr(id) => if id == Null || id in s.groups then Success else InvalidObjectId
      case ExcludeAttr(l) => if forall i :: 0 <= i < |l| ==> e.validPort(l[i]) then Success else InvalidObjectId
      case PriorityAttr(_) => Success
  }

  /** A trap that is set for the first time joins the default group. */
  function AddTrap(s: State, e: Env, t: nat): State {
    s.(traps := s.traps[t := Trap(e.defaultAction(t), MIN_PRIORITY, s.defaultGroup, [])],
       groups := Enlist(s.groups, s.defaultGroup, t))
  }

  predicate NoChange(p: Trap, a: TrapAttr) {
    match a
    case ActionAttr(x) => p.action == x
    case PriorityAttr(x) => p.priority == x
    case TrapGroupAttr(id) => p.group == id
    case _ => false
  }

  function UpdateNode(s: State, t: nat, a: TrapAttr): State
    requires t in s.traps
  {
    var p := s.traps[t];
    match a
    case ActionAttr(x) => s.(traps := s.traps[t := p.(action := x)])
    case PriorityAttr(x) => s.(traps := s.traps[t := p.(priority := x)])
    case ExcludeAttr(l) => s.(traps := s.traps[t := p.(excluded := l)])
    case TrapGroupAttr(id) =>
      s.(groups := Enlist(Delist(s.groups, p.group, t), id, t), traps := s.traps[t := p.(group := id)])
    case UnknownTrapAttr => s
  }

  /** A new trap is added first; it stays even if the NPU then rejects the set. */
  function SetKnownTrap(s: State, e: Env, t: nat, a: TrapAttr): (Status, State) {
    var s2 := if t in s.traps then s else AddTrap(s, e, t);
    if t in s.traps && NoChange(s2.traps[t], a) then (Success, s2)
    else if !e.verdict(s2.calls) then (NpuError, s2.(calls := s2.calls + 1))
    else (Success, UpdateNode(s2.(calls := s2.calls + 1), t, a))
  }

  /** The first NPU call validates the attribute, the second one sets it. */
  function SetTrapSpec(s: State, e: Env, t: nat, a: TrapAttr): (Status, State) {
    if ValidateTrap(s, e, t, a) != Success then (ValidateTrap(s, e, t, a), s)
    else if !e.verdict(s.calls) then (AttrNotSupported, s.(calls := s.calls + 1))
    else SetKnownTrap(s.(calls := s.calls + 1), e, t, a)
  }

  // ---------------------------------------------------------------------------------------------
  // The invariant
  // ---------------------------------------------------------------------------------------------

  /** The members of a group's list are distinct traps that name it, and the count is their number. */
  ghost predicate GroupExact(s: State, id: GroupId)
    requires id in s.groups
  {
    var g := s.groups[id];
    && Distinct(g.traps) && g.count == |g.traps|
    && forall t :: t in g.traps ==> t in s.traps && s.traps[t].group == id
  }

  /** A trap names no group, or one that lists it. */
  ghost predicate TrapListed(s: State, t: nat)
    requires t in s.traps
  {
    s.traps[t].group != Null ==> s.traps[t].group in s.groups && t in s.groups[s.traps[t].group].traps
  }

  ghost predicate Listed(s: State) {
    (forall id :: id in s.groups ==> GroupExact(s, id)) && (forall t :: t in s.traps ==> TrapListed(s, t))
  }

  ghost predicate QueuesUnique(s: State) {
    forall g, h :: g in s.groups && h in s.groups && s.groups[g].queue == s.groups[h].queue ==> g == h
  }

  ghost predicate IdsExact(s: State) {
    && |s.free| == MAX_GROUPS
    && (forall id :: id in s.groups ==> id.Group? && 1 <= id.index < MAX_GROUPS)
    && (forall i :: 1 <= i < MAX_GROUPS ==> (s.free[i] <==> Group(i) !in s.groups))
  }

  ghost predicate DefaultThere(s: State) {
    s.defaultGroup == Null || s.defaultGroup in s.groups
  }

  ghost predicate Valid(s: State) {
    Listed(s) && IdsExact(s) && DefaultThere(s)
  }

  // ---------------------------------------------------------------------------------------------
  // Group calls
  // ---------------------------------------------------------------------------------------------

  lemma {:induction false} FilledGroupLists(g: TrapGroup, attrs: seq<GroupAttr>)
    requires GroupAttrsValid(attrs) || attrs == []
    ensures FilledGroup(g, attrs).traps == g.traps && FilledGroup(g, attrs).count == g.count
    ensures FilledGroup(g, attrs).queue == if AskedQueue(attrs) == None then g.queue else AskedQueue(attrs).value
    decreases |attrs|
  {
    if attrs != [] {
      if attrs[1..] != [] {
        assert forall i :: 0 <= i < |attrs[1..]| ==> attrs[1..][i] == attrs[i + 1];
      }
      var k := match attrs[0]
               case AdminAttr(x) => g.(admin := x)
               case QueueAttr(x) => g.(queue := x)
               case _ => g;
      FilledGroupLists(k, attrs[1..]);
      if attrs[0].QueueAttr? {
        NoOtherQueue(attrs);
      }
    }
  }

  lemma NoOtherQueue(attrs: seq<GroupAttr>)
    requires GroupAttrsValid(attrs) && attrs[0].QueueAttr?
    ensures AskedQueue(attrs[1..]) == None
  {
    forall i | 0 <= i < |attrs[1..]|
      ensures !attrs[1..][i].QueueAttr?
    {
      assert !SameGroupAttr(attrs[0], attrs[i + 1]);
    }
    NoQueueAsked(attrs[1..]);
  }

  lemma {:induction false} NoQueueAsked(attrs: seq<GroupAttr>)
    requires forall i :: 0 <= i < |attrs| ==> !attrs[i].QueueAttr?
    ensures AskedQueue(attrs) == None
  {
    if attrs != [] {
      NoQueueAsked(attrs[1..]);
    }
  }

  lemma NewGroupListed(s: State, t: State, id: GroupId)
    requires Listed(s) && id !in s.groups && id in t.groups && t.groups == s.groups[id := t.groups[id]]
      && t.traps == s.traps
    requires t.groups[id].traps == [] && t.groups[id].count == 0
    ensures Listed(t)
  {
    forall g | g in t.groups
      ensures GroupExact(t, g)
    {
      assert g in s.groups ==> GroupExact(s, g);
    }
    forall x | x in t.traps
      ensures TrapListed(t, x)
    {
      assert TrapListed(s, x);
    }
  }

  lemma CreateValid(s: State, e: Env, attrs: seq<GroupAttr>)
    requires Valid(s)
    ensures Valid(CreateSpec(s, e, attrs).2)
  {
    hide GroupAttrsValid, GroupAttrsStatus, AskedQueue, FilledGroup, Listed, QueueTaken;
    var (st, id, t) := CreateSpec(s, e, attrs);
    if st == Success {
      FilledGroupLists(NEW_GROUP, attrs);
      NewGroupListed(s, t, id);
    } else {
      SameListsListed(s, t);
    }
  }

  /**
   A create keeps CPU queues unique if and only if it names a queue, or the default queue is the one
   that is stored when none is named, or no group has that one.
   */
  lemma CreateQueues(s: State, e: Env, attrs: seq<GroupAttr>)
    requires Valid(s) && QueuesUnique(s) && CreateSpec(s, e, attrs).0 == Success
    ensures QueuesUnique(CreateSpec(s, e, attrs).2)
       <==> AskedQueue(attrs).Some? || e.defaultQueue == 0 || !QueueTaken(s.groups, 0)
  {
    hide GroupAttrsValid, GroupAttrsStatus, AskedQueue, FilledGroup, Listed;
    var (st, id, t) := CreateSpec(s, e, attrs);
    FilledGroupLists(NEW_GROUP, attrs);
    assert id !in s.groups;
    if g :| g in s.groups && s.groups[g].queue == t.groups[id].queue {
      assert t.groups[g].queue == t.groups[id].queue && g != id;
      assert QueueTaken(s.groups, t.groups[id].queue);
    }
  }

  lemma RemoveValid(s: State, id: GroupId)
    requires Valid(s)
    ensures Valid(RemoveSpec(s, id).1)
    ensures QueuesUnique(s) ==> QueuesUnique(RemoveSpec(s, id).1)
    ensures RemoveSpec(s, id).0 == Success <==>
      id in s.groups && id != s.defaultGroup && forall t :: t in s.traps ==> s.traps[t].group != id
  {
    var (st, t) := RemoveSpec(s, id);
    if id in s.groups {
      assert GroupExact(s, id);
      forall x | x in s.traps && s.traps[x].group == id
        ensures s.groups[id].count > 0
      {
        assert TrapListed(s, x);
      }
      assert s.groups[id].count > 0 ==> s.groups[id].traps[0] in s.groups[id].traps;
      if st == Success {
        RemovedListed(s, id, t);
      }
    }
  }

  lemma RemovedListed(s: State, id: GroupId, t: State)
    requires Listed(s) && t.groups == s.groups - {id} && t.traps == s.traps
    requires forall x :: x in s.traps ==> s.traps[x].group != id
    ensures Listed(t)
  {
    forall g | g in t.groups
      ensures GroupExact(t, g)
    {
      assert GroupExact(s, g);
    }
    forall x | x in t.traps
      ensures TrapListed(t, x)
    {
      assert TrapListed(s, x);
    }
  }

  lemma SameListsListed(s: State, t: State)
    requires Listed(s) && t.traps == s.traps && t.groups.Keys == s.groups.Keys
    requires forall g :: g in s.groups ==>
      t.groups[g].traps == s.groups[g].traps
      && t.groups[g].count == s.groups[g].count
    ensures Listed(t)
  {
    forall g | g in t.groups
      ensures GroupExact(t, g)
    {
      assert GroupExact(s, g);
    }
    forall x | x in t.traps
      ensures TrapListed(t, x)
    {
      assert TrapListed(s, x);
    }
  }

  lemma SetGroupValid(s: State, e: Env, id: GroupId, a: GroupAttr)
    requires Valid(s)
    ensures Valid(SetGroupSpec(s, e, id, a).1)
    ensures QueuesUnique(s) ==> QueuesUnique(SetGroupSpec(s, e, id, a).1)
  {
    hide Listed, SetGroupSpec;
    SetGroupKeys(s, e, id, a);
    SameListsListed(s, SetGroupSpec(s, e, id, a).1);
  }

  /** Only the queue or admin state of one group changes, and a changed queue was taken by none. */
  lemma SetGroupKeys(s: State, e: Env, id: GroupId, a: GroupAttr)
    ensures var t := SetGroupSpec(s, e, id, a).1;
            && t.traps == s.traps && t.free == s.free && t.defaultGroup == s.defaultGroup
              && t.groups.Keys == s.groups.Keys
            && (forall g :: g in s.groups ==>
                t.groups[g].traps == s.groups[g].traps
                && t.groups[g].count == s.groups[g].count)
            && (forall g :: g in s.groups && g != id ==> t.groups[g].queue == s.groups[g].queue)
            && (id in s.groups && t.groups[id].queue != s.groups[id].queue ==>
                !QueueTaken(s.groups, t.groups[id].queue))
  {
    hide UpdateTraps, QueueTaken, GroupAttrsStatus;
    assert [a][0] == a;
  }

  // ---------------------------------------------------------------------------------------------
  // Trap calls
  // ---------------------------------------------------------------------------------------------

  lemma EnlistParts(groups: map<GroupId, TrapGroup>, id: GroupId, t: nat, x: GroupId)
    requires x in groups && Distinct(groups[x].traps) && groups[x].count == |groups[x].traps|
      && (x == id ==> t !in groups[x].traps)
    ensures var r := Enlist(groups, id, t);
            && r.Keys == groups.Keys && r[x].queue == groups[x].queue
            && Distinct(r[x].traps) && r[x].count == |r[x].traps|
            && forall y :: y in r[x].traps <==> y in groups[x].traps || (x == id && y == t)
  {
  }

  lemma DelistParts(groups: map<GroupId, TrapGroup>, id: GroupId, t: nat, x: GroupId)
    requires x in groups && Distinct(groups[x].traps) && groups[x].count == |groups[x].traps|
      && (x == id ==> t in groups[x].traps)
    ensures var r := Delist(groups, id, t);
            && r.Keys == groups.Keys && r[x].queue == groups[x].queue
            && Distinct(r[x].traps) && r[x].count == |r[x].traps|
            && forall y :: y in r[x].traps <==> y in groups[x].traps && !(x == id && y == t)
  {
  }

  lemma AddTrapListed(s: State, e: Env, t: nat)
    requires Listed(s) && DefaultThere(s) && Null !in s.groups && t !in s.traps
    ensures Listed(AddTrap(s, e, t)) && AddTrap(s, e, t).groups.Keys == s.groups.Keys
  {
    hide Enlist, Distinct;
    var r := AddTrap(s, e, t);
    forall x | x in s.groups
      ensures r.groups.Keys == s.groups.Keys && GroupExact(r, x)
      ensures forall y :: y in r.groups[x].traps <==> y in s.groups[x].traps || (x == s.defaultGroup && y == t)
    {
      assert GroupExact(s, x);
      EnlistParts(s.groups, s.defaultGroup, t, x);
    }
    EnlistKeys(s.groups, s.defaultGroup, t);
    forall y | y in r.traps
      ensures TrapListed(r, y)
    {
      assert y in s.traps ==> TrapListed(s, y);
    }
  }

  lemma EnlistKeys(groups: map<GroupId, TrapGroup>, id: GroupId, t: nat)
    ensures Enlist(groups, id, t).Keys == groups.Keys && Delist(groups, id, t).Keys == groups.Keys
    ensures forall x :: x in groups ==>
      Enlist(groups, id, t)[x].queue == groups[x].queue
      && Delist(groups, id, t)[x].queue == groups[x].queue
  {
    hide Without;
  }

  lemma MovedMembers(s: State, t: nat, id: GroupId, x: GroupId)
    requires Listed(s) && Null !in s.groups && t in s.traps && x in s.groups
    ensures var r := Enlist(Delist(s.groups, s.traps[t].group, t), id, t);
            && r.Keys == s.groups.Keys
            && Distinct(r[x].traps) && r[x].count == |r[x].traps|
            && forall y :: y in r[x].traps <==> if y == t then x == id else y in s.groups[x].traps
  {
    hide Enlist, Delist, Distinct;
    var was := s.traps[t].group;
    assert GroupExact(s, x) && TrapListed(s, t);
    DelistParts(s.groups, was, t, x);
    EnlistParts(Delist(s.groups, was, t), id, t, x);
    EnlistKeys(Delist(s.groups, was, t), id, t);
  }

  lemma MoveListed(s: State, t: nat, id: GroupId)
    requires Listed(s) && Null !in s.groups && t in s.traps && (id == Null || id in s.groups)
    ensures Listed(UpdateNode(s, t, TrapGroupAttr(id)))
  {
    hide Enlist, Delist, Distinct;
    var r := UpdateNode(s, t, TrapGroupAttr(id));
    EnlistKeys(s.groups, s.traps[t].group, t);
    EnlistKeys(Delist(s.groups, s.traps[t].group, t), id, t);
    forall x | x in r.groups
      ensures GroupExact(r, x)
    {
      assert GroupExact(s, x);
      MovedMembers(s, t, id, x);
    }
    forall y | y in r.traps
      ensures TrapListed(r, y)
    {
      assert TrapListed(s, y);
      if r.traps[y].group != Null {
        MovedMembers(s, t, id, r.traps[y].group);
      }
    }
  }

  lemma UpdateNodeListed(s: State, t: nat, a: TrapAttr)
    requires Listed(s) && Null !in s.groups && t in s.traps
    requires a.TrapGroupAttr? ==> a.group == Null || a.group in s.groups
    ensures Listed(UpdateNode(s, t, a))
  {
    if a.TrapGroupAttr? {
      MoveListed(s, t, a.group);
    } else {
      SameNamesListed(s, UpdateNode(s, t, a));
    }
  }

  lemma SameNamesListed(s: State, t: State)
    requires Listed(s) && t.groups == s.groups && t.traps.Keys == s.traps.Keys
    requires forall x :: x in s.traps ==> t.traps[x].group == s.traps[x].group
    ensures Listed(t)
  {
    forall g | g in t.groups
      ensures GroupExact(t, g)
    {
      assert GroupExact(s, g);
    }
    forall x | x in t.traps
      ensures TrapListed(t, x)
    {
      assert TrapListed(s, x);
    }
  }

  lemma UpdateNodeKeys(s: State, t: nat, a: TrapAttr)
    requires t in s.traps
    ensures var r := UpdateNode(s, t, a);
            && r.groups.Keys == s.groups.Keys && r.free == s.free && r.defaultGroup == s.defaultGroup
            && forall g :: g in s.groups ==> r.groups[g].queue == s.groups[g].queue
  {
    hide Enlist, Delist;
    EnlistKeys(s.groups, s.traps[t].group, t);
    if a.TrapGroupAttr? {
      EnlistKeys(Delist(s.groups, s.traps[t].group, t), a.group, t);
    }
  }

  lemma SetTrapListed(s: State, e: Env, t: nat, a: TrapAttr)
    requires Listed(s) && DefaultThere(s) && Null !in s.groups
    ensures Listed(SetTrapSpec(s, e, t, a).1)
  {
    hide Listed, AddTrap, UpdateNode, NoChange;
    var s1 := s.(calls := s.calls + 1);
    SameListsListed(s, s1);
    if ValidateTrap(s, e, t, a) == Success && e.verdict(s.calls) {
      var s2 := if t in s1.traps then s1 else AddTrap(s1, e, t);
      AddTrapKeys(s1, e, t);
      if t !in s1.traps {
        AddTrapListed(s1, e, t);
      }
      var s3 := s2.(calls := s2.calls + 1);
      SameListsListed(s2, s3);
      UpdateNodeListed(s3, t, a);
    }
  }

  /** Groups, queues, ids and the default group are the same; traps are only added. */
  ghost predicate KeepsGroups(s: State, t: State) {
    && t.groups.Keys == s.groups.Keys && t.free == s.free && t.defaultGroup == s.defaultGroup
    && (forall g :: g in s.groups ==> t.groups[g].queue == s.groups[g].queue)
    && s.traps.Keys <= t.traps.Keys
  }

  lemma SetKnownKeys(s: State, e: Env, t: nat, a: TrapAttr)
    ensures KeepsGroups(s, SetKnownTrap(s, e, t, a).1)
  {
    hide AddTrap, UpdateNode, NoChange;
    AddTrapKeys(s, e, t);
    var s2 := if t in s.traps then s else AddTrap(s, e, t);
    var s3 := s2.(calls := s2.calls + 1);
    UpdateNodeKeys(s3, t, a);
    UpdateNodeTraps(s3, t, a);
  }

  lemma SetTrapKeys(s: State, e: Env, t: nat, a: TrapAttr)
    ensures KeepsGroups(s, SetTrapSpec(s, e, t, a).1)
  {
    hide SetKnownTrap, ValidateTrap;
    SetKnownKeys(s.(calls := s.calls + 1), e, t, a);
  }

  /** A trap set keeps every trap in exactly its group's list, whether or not the NPU accepts it. */
  lemma SetTrapValid(s: State, e: Env, t: nat, a: TrapAttr)
    requires Valid(s)
    ensures Valid(SetTrapSpec(s, e, t, a).1)
    ensures QueuesUnique(s) ==> QueuesUnique(SetTrapSpec(s, e, t, a).1)
    ensures s.traps.Keys <= SetTrapSpec(s, e, t, a).1.traps.Keys
  {
    hide Listed, SetTrapSpec;
    SetTrapListed(s, e, t, a);
    SetTrapKeys(s, e, t, a);
  }

  lemma AddTrapKeys(s: State, e: Env, t: nat)
    ensures var r := AddTrap(s, e, t);
            && r.groups.Keys == s.groups.Keys && r.free == s.free && r.defaultGroup == s.defaultGroup
              && r.calls == s.calls
            && r.traps.Keys == s.traps.Keys + {t}
            && forall g :: g in s.groups ==> r.groups[g].queue == s.groups[g].queue
  {
    hide Enlist;
    EnlistKeys(s.groups, s.defaultGroup, t);
  }

  lemma UpdateNodeTraps(s: State, t: nat, a: TrapAttr)
    requires t in s.traps
    ensures UpdateNode(s, t, a).traps.Keys == s.traps.Keys
  {
    hide Enlist, Delist;
  }

  // ---------------------------------------------------------------------------------------------
  // Runs
  // ---------------------------------------------------------------------------------------------

  /** `Init` creates the default group while there is none. */
  datatype Request =
    | Init(attrs: seq<GroupAttr>)
    | Create(attrs: seq<GroupAttr>)
    | Remove(id: GroupId)
    | SetGroup(id: GroupId, groupAttr: GroupAttr)
    | SetTrap(trap: nat, trapAttr: TrapAttr)

  ghost function Step(s: State, e: Env, r: Request): State
    requires |s.free| == MAX_GROUPS
  {
    match r
    case Init(attrs) =>
      var (st, id, t) := CreateSpec(s, e, attrs);
      if st == Success && s.defaultGroup == Null then t.(defaultGroup := id) else t
    case Create(attrs) => CreateSpec(s, e, attrs).2
    case Remove(id) => RemoveSpec(s, id).1
    case SetGroup(id, a) => SetGroupSpec(s, e, id, a).1
    case SetTrap(t, a) => SetTrapSpec(s, e, t, a).1
  }

  lemma StepValid(s: State, e: Env, r: Request)
    requires Valid(s)
    ensures Valid(Step(s, e, r))
    ensures QueuesUnique(s) && e.defaultQueue == 0 ==> QueuesUnique(Step(s, e, r))
    ensures s.defaultGroup != Null ==> Step(s, e, r).defaultGroup == s.defaultGroup
  {
    hide Listed, CreateSpec, RemoveSpec, SetGroupSpec, SetTrapSpec, QueuesUnique;
    match r {
      case Init(attrs) => CreateStep(s, e, attrs);
      case Create(attrs) => CreateStep(s, e, attrs);
      case Remove(id) =>
        RemoveValid(s, id);
        DefaultKept(s, e, r);
      case SetGroup(id, a) =>
        SetGroupValid(s, e, id, a);
        DefaultKept(s, e, r);
      case SetTrap(t, a) =>
        SetTrapValid(s, e, t, a);
        DefaultKept(s, e, r);
    }
  }

  lemma CreateStep(s: State, e: Env, attrs: seq<GroupAttr>)
    requires Valid(s)
    ensures Valid(Step(s, e, Init(attrs))) && Valid(Step(s, e, Create(attrs)))
    ensures QueuesUnique(s) && e.defaultQueue == 0 ==>
      QueuesUnique(Step(s, e, Init(attrs))) && QueuesUnique(Step(s, e, Create(attrs)))
    ensures CreateSpec(s, e, attrs).2.defaultGroup == s.defaultGroup
  {
    assert |s.free| == MAX_GROUPS;
    hide Listed, IdsExact, QueuesUnique, CreateSpec;
    CreateValid(s, e, attrs);
    CreateParts(s, e, attrs);
    var (st, id, t) := CreateSpec(s, e, attrs);
    if QueuesUnique(s) {
      if st == Success {
        CreateQueues(s, e, attrs);
      } else {
        SameGroups(s, t);
      }
    }
    SameGroups(t, t.(defaultGroup := id));
  }

  lemma CreateParts(s: State, e: Env, attrs: seq<GroupAttr>)
    requires |s.free| == MAX_GROUPS
    ensures var (st, id, t) := CreateSpec(s, e, attrs);
            && t.defaultGroup == s.defaultGroup && t.traps == s.traps
            && (if st == Success then id in t.groups else t == s.(calls := t.calls))
  {
    hide GroupAttrsStatus, QueueTaken, AskedQueue, FilledGroup;
  }

  lemma SameGroups(s: State, t: State)
    requires t.groups == s.groups && t.traps == s.traps && t.free == s.free
    ensures Listed(s) ==> Listed(t)
    ensures IdsExact(s) ==> IdsExact(t)
    ensures QueuesUnique(s) ==> QueuesUnique(t)
  {
    if Listed(s) {
      SameListsListed(s, t);
    }
  }

  lemma DefaultKept(s: State, e: Env, r: Request)
    requires Valid(s) && (r.Remove? || r.SetGroup? || r.SetTrap?)
    ensures Step(s, e, r).defaultGroup == s.defaultGroup
  {
    hide Listed, SetGroupSpec, SetTrapSpec;
    match r {
      case Remove(_) =>
      case SetGroup(id, a) => SetGroupKeys(s, e, id, a);
      case SetTrap(t, a) => SetTrapKeys(s, e, t, a);
    }
  }

  ghost predicate RunTo(s: State, e: Env, rs: seq<Request>, t: State)
    requires Valid(s)
    decreases |rs|
  {
    if rs == [] then s == t
    else
      StepValid(s, e, rs[0]);
      RunTo(Step(s, e, rs[0]), e, rs[1..], t)
  }

  /**
   After any run each trap is in exactly the list of the group it names, and a default group stays; queues
   stay unique too when the default queue is 0.
   */
  lemma {:induction false} RunValid(s: State, e: Env, rs: seq<Request>, t: State)
    requires Valid(s) && RunTo(s, e, rs, t)
    ensures Valid(t)
    ensures QueuesUnique(s) && e.defaultQueue == 0 ==> QueuesUnique(t)
    ensures s.defaultGroup != Null ==> t.defaultGroup == s.defaultGroup && t.defaultGroup in t.groups
    decreases |rs|
  {
    hide Step, Listed, QueuesUnique;
    if rs != [] {
      StepValid(s, e, rs[0]);
      RunValid(Step(s, e, rs[0]), e, rs[1..], t);
    }
  }

  // ---------------------------------------------------------------------------------------------
  // An input on which queues clash
  // ---------------------------------------------------------------------------------------------

  const QUEUE_ZERO := TrapGroup(0, true, [], 0)

  const ONE_GROUP := State(map[Group(1) := QUEUE_ZERO], map[], seq(MAX_GROUPS, i => i != 1), Null, 0)

  /** The default queue is 5 and group 1 has queue 0: a group created without a queue also gets queue 0. */
  lemma DefaultQueueClashes(e: Env)
    requires e.defaultQueue == 5 && e.verdict(0)
    ensures Valid(ONE_GROUP) && QueuesUnique(ONE_GROUP)
    ensures var (st, id, t) := CreateSpec(ONE_GROUP, e, [AdminAttr(true)]);
            st == Success && !QueuesUnique(t)
  {
    var s, attrs := ONE_GROUP, [AdminAttr(true)];
    assert GroupExact(s, Group(1));
    GroupAttrsAccepted(attrs, 0, e.verdict);
    assert s.free[2];
    assert FirstFree(s.free, 1) <= 2;
    hide GroupAttrsStatus;
    CreateQueues(s, e, attrs);
  }
}
