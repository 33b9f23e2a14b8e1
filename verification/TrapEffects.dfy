/**
 When each trap and trap group call succeeds, and what it leaves in the tables, in terms of the request and
 the tables before it.
 */
module TrapEffects {
  import opened Common
  import opened TrapSpec

  ghost predicate AllAccepted(n: nat, calls: nat, v: nat -> bool) {
    forall i :: calls <= i < calls + n ==> v(i)
  }

  // ---------------------------------------------------------------------------------------------
  // Groups
  // ---------------------------------------------------------------------------------------------

  ghost predicate Given(attrs: seq<GroupAttr>, a: GroupAttr) {
    exists i :: 0 <= i < |attrs| && attrs[i] == a
  }

  ghost predicate NoQueue(attrs: seq<GroupAttr>) {
    forall i :: 0 <= i < |attrs| ==> !attrs[i].QueueAttr?
  }

  ghost predicate NoAdmin(attrs: seq<GroupAttr>) {
    forall i :: 0 <= i < |attrs| ==> !attrs[i].AdminAttr?
  }

  /** At least one attribute, each known and given once. */
  ghost predicate GivenOnce(attrs: seq<GroupAttr>) {
    && attrs != []
    && (forall i :: 0 <= i < |attrs| ==> !attrs[i].UnknownGroupAttr?)
    && (forall i, j :: 0 <= i < j < |attrs| ==>
          && !(attrs[i].AdminAttr? && attrs[j].AdminAttr?)
          && !(attrs[i].QueueAttr? && attrs[j].QueueAttr?)
          && !(attrs[i].PolicerAttr? && attrs[j].PolicerAttr?))
  }

  lemma GivenOnceValid(attrs: seq<GroupAttr>)
    ensures GivenOnce(attrs) <==> GroupAttrsValid(attrs)
  {
    if GivenOnce(attrs) {
      forall i, j | 0 <= i < j < |attrs|
        ensures !SameGroupAttr(attrs[i], attrs[j])
      {
      }
    }
    if GroupAttrsValid(attrs) {
      forall i, j | 0 <= i < j < |attrs|
        ensures !(attrs[i].AdminAttr? && attrs[j].AdminAttr?)
          && !(attrs[i].QueueAttr? && attrs[j].QueueAttr?)
          && !(attrs[i].PolicerAttr? && attrs[j].PolicerAttr?)
      {
        assert !SameGroupAttr(attrs[i], attrs[j]);
      }
    }
  }

  /** The queue that is checked: the one given, or the default CPU queue. */
  ghost predicate ChecksQueue(attrs: seq<GroupAttr>, e: Env, queue: nat) {
    Given(attrs, QueueAttr(queue)) || (NoQueue(attrs) && queue == e.defaultQueue)
  }

  lemma {:induction false} AskedIs(attrs: seq<GroupAttr>, queue: nat)
    requires forall i, j :: 0 <= i < j < |attrs| ==> !(attrs[i].QueueAttr? && attrs[j].QueueAttr?)
    ensures Given(attrs, QueueAttr(queue)) ==> AskedQueue(attrs) == Some(queue)
    ensures NoQueue(attrs) ==> AskedQueue(attrs) == None
  {
    if attrs != [] {
      var rest := attrs[1..];
      assert forall i :: 0 < i < |attrs| ==> attrs[i] == rest[i - 1];
      if i :| 0 < i < |attrs| && attrs[i] == QueueAttr(queue) {
        assert rest[i - 1] == QueueAttr(queue) && !attrs[0].QueueAttr?;
      }
      AskedIs(rest, queue);
    }
  }

  /** A new group has the admin state and the queue given, and otherwise `was`'s. */
  lemma {:induction false} FilledIs(was: TrapGroup, attrs: seq<GroupAttr>)
    requires GivenOnce(attrs) || attrs == []
    ensures var g := FilledGroup(was, attrs);
            && g.traps == was.traps && g.count == was.count
            && (forall x :: Given(attrs, AdminAttr(x)) ==> g.admin == x)
            && (forall x :: Given(attrs, QueueAttr(x)) ==> g.queue == x)
            && (NoAdmin(attrs) ==> g.admin == was.admin)
            && (NoQueue(attrs) ==> g.queue == was.queue)
    decreases |attrs|
  {
    if attrs != [] {
      var rest := attrs[1..];
      var now := match attrs[0]
                 case AdminAttr(x) => was.(admin := x)
                 case QueueAttr(x) => was.(queue := x)
                 case _ => was;
      assert forall i :: 0 < i < |attrs| ==> attrs[i] == rest[i - 1];
      FilledIs(now, rest);
      assert attrs[0].AdminAttr? ==> NoAdmin(rest);
      assert attrs[0].QueueAttr? ==> NoQueue(rest);
      forall a | Given(attrs, a)
        ensures a == attrs[0] || Given(rest, a)
      {
        var i :| 0 <= i < |attrs| && attrs[i] == a;
        assert i > 0 ==> rest[i - 1] == a;
      }
    }
  }

  /**
   A group is created exactly when its attributes are known, given once and accepted, an id is free and no group
   has the queue. It has the lowest free id, the admin state and queue given, and no traps.
   */
  lemma CreateEffect(s: State, e: Env, attrs: seq<GroupAttr>, queue: nat)
    requires Valid(s) && ChecksQueue(attrs, e, queue)
    ensures var (st, id, t) := CreateSpec(s, e, attrs);
            && (st == Success <==>
                  && GivenOnce(attrs) && AllAccepted(|attrs|, s.calls, e.verdict)
                  && (forall g :: g in s.groups ==> s.groups[g].queue != queue)
                  && (exists i :: 1 <= i < 128 && Group(i) !in s.groups))
            && (GivenOnce(attrs) && AllAccepted(|attrs|, s.calls, e.verdict) && st != Success ==>
                  st == if exists g :: g in s.groups && s.groups[g].queue == queue then ItemAlreadyExists
                        else InsufficientResources)
            && (st == Success ==>
                  && id.Group? && id !in s.groups && id in t.groups && t.groups == s.groups[id := t.groups[id]]
                  && (forall i :: 1 <= i < id.index ==> Group(i) in s.groups)
                  && t.groups[id].traps == [] && t.groups[id].count == 0
                  && (forall x :: Given(attrs, AdminAttr(x)) ==> t.groups[id].admin == x)
                  && (forall x :: Given(attrs, QueueAttr(x)) ==> t.groups[id].queue == x)
                  && (NoAdmin(attrs) ==> !t.groups[id].admin)
                  && (NoQueue(attrs) ==> t.groups[id].queue == 0))
            && (st != Success ==> t.groups == s.groups && t.free == s.free)
            && t.traps == s.traps && t.defaultGroup == s.defaultGroup
  {
    hide Listed, GroupAttrsStatus, FilledGroup, AskedQueue;
    GroupAttrsAccepted(attrs, s.calls, e.verdict);
    GivenOnceValid(attrs);
    if GivenOnce(attrs) {
      AskedIs(attrs, queue);
      FilledIs(NEW_GROUP, attrs);
    }
    hide GivenOnce, GroupAttrsValid, Given, NoAdmin, NoQueue;
    var i := FirstFree(s.free, 1);
    assert i < MAX_GROUPS ==> Group(i) !in s.groups;
  }

  /** A group is removed exactly when it is there, is not the default one and no trap names it. */
  lemma RemoveEffect(s: State, id: GroupId)
    requires Valid(s)
    ensures var (st, t) := RemoveSpec(s, id);
            && (st == Success <==>
                  && id in s.groups && id != s.defaultGroup && forall x :: x in s.traps ==> s.traps[x].group != id)
            && (id in s.groups && st != Success ==> st == ObjectInUse)
            && t.groups == (if st == Success then s.groups - {id} else s.groups)
            && t.traps == s.traps && t.defaultGroup == s.defaultGroup && t.calls == s.calls
  {
    RemoveValid(s, id);
    GroupIds(s);
    hide Valid;
  }

  /**
   The admin state or the queue of a group is set exactly when the group is there, the NPU accepts the attribute,
   and, unless it has the value already, no group has the queue and the NPU accepts it for each trap.
   */
  lemma SetGroupEffect(s: State, e: Env, id: GroupId, a: GroupAttr)
    requires Valid(s)
    ensures var (st, t) := SetGroupSpec(s, e, id, a);
            && (st == Success <==>
                  && id in s.groups && (a.AdminAttr? || a.QueueAttr?) && e.verdict(s.calls)
                  && var g := s.groups[id];
                     || (a == AdminAttr(g.admin) || a == QueueAttr(g.queue))
                     || ((a.QueueAttr? ==> forall x :: x in s.groups ==> s.groups[x].queue != a.queue)
                         && AllAccepted(|g.traps|, s.calls + 1, e.verdict)))
            && t.groups == (if st == Success then
                              s.groups[id := if a.AdminAttr? then s.groups[id].(admin := a.admin)
                                             else s.groups[id].(queue := a.queue)]
                            else s.groups)
            && t.traps == s.traps && t.free == s.free && t.defaultGroup == s.defaultGroup
  {
    GroupIds(s);
    hide Valid, GroupAttrsStatus, UpdateTraps, AllAccepted;
    OneAttr(a, s.calls, e.verdict);
    if id in s.groups {
      TrapsAccepted(|s.groups[id].traps|, s.calls + 1, e.verdict);
    }
  }

  lemma GroupIds(s: State)
    requires Valid(s)
    ensures forall id :: id in s.groups ==> id.Group?
  {
    hide Listed;
  }

  lemma OneAttr(a: GroupAttr, calls: nat, v: nat -> bool)
    ensures GroupAttrsStatus([a], calls, v).0 == Success <==> !a.UnknownGroupAttr? && v(calls)
    ensures GroupAttrsStatus([a], calls, v).0 == Success ==> GroupAttrsStatus([a], calls, v).1 == calls + 1
  {
    var rest := [a][1..];
    assert rest == [] && CheckAttrs(rest, calls + 1, v) == (Success, calls + 1);
    assert !HasDuplicate([a]);
  }

  lemma {:induction false} TrapsAccepted(n: nat, calls: nat, v: nat -> bool)
    ensures UpdateTraps(n, calls, v).0 <==> AllAccepted(n, calls, v)
  {
    if n > 0 && v(calls) {
      TrapsAccepted(n - 1, calls + 1, v);
    }
  }

  // ---------------------------------------------------------------------------------------------
  // Traps
  // ---------------------------------------------------------------------------------------------

  /** The value is one the switch knows, and every port and group named is there. */
  ghost predicate Acceptable(s: State, e: Env, a: TrapAttr) {
    match a
    case ActionAttr(x) => e.validAction(x)
    case PriorityAttr(_) => true
    case TrapGroupAttr(g) => g == Null || g in s.groups
    case ExcludeAttr(l) => forall i :: 0 <= i < |l| ==> e.validPort(l[i])
    case UnknownTrapAttr => false
  }

  /**
   What a trap is before its first set: the default action, the lowest priority, the default group and no
   excluded port.
   */
  ghost function Current(s: State, e: Env, t: nat): Trap {
    if t in s.traps then s.traps[t] else Trap(e.defaultAction(t), 0, s.defaultGroup, [])
  }

  /** The trap with the one member that the attribute sets. */
  ghost predicate SetTo(now: Trap, was: Trap, a: TrapAttr) {
    match a
    case ActionAttr(x) => now == Trap(x, was.priority, was.group, was.excluded)
    case PriorityAttr(x) => now == Trap(was.action, x, was.group, was.excluded)
    case TrapGroupAttr(x) => now == Trap(was.action, was.priority, x, was.excluded)
    case ExcludeAttr(x) => now == Trap(was.action, was.priority, was.group, x)
    case UnknownTrapAttr => now == was
  }

  lemma ListsKeepSettings(groups: map<GroupId, TrapGroup>, id: GroupId, t: nat)
    ensures SameSettings(groups, Enlist(groups, id, t)) && SameSettings(groups, Delist(groups, id, t))
  {
    hide Without;
  }

  ghost predicate SameSettings(was: map<GroupId, TrapGroup>, now: map<GroupId, TrapGroup>) {
    && now.Keys == was.Keys
    && forall g :: g in was ==> now[g].queue == was[g].queue && now[g].admin == was[g].admin
  }

  lemma UpdatedTrap(s: State, t: nat, a: TrapAttr)
    requires t in s.traps && !a.UnknownTrapAttr?
    ensures var r := UpdateNode(s, t, a);
            && t in r.traps && SetTo(r.traps[t], s.traps[t], a) && r.traps == s.traps[t := r.traps[t]]
            && SameSettings(s.groups, r.groups)
  {
    hide Enlist, Delist;
    if a.TrapGroupAttr? {
      ListsKeepSettings(s.groups, s.traps[t].group, t);
      ListsKeepSettings(Delist(s.groups, s.traps[t].group, t), a.group, t);
    }
  }

  /**
   An attribute of a trap is set exactly when trap and value are known and the NPU accepts the attribute, and
   then, unless the trap is there with that value, the set. The trap has that value and keeps the others;
   a trap that was not there has the default ones. No other trap changes, and no group's queue or state.
   */
  lemma SetTrapEffect(s: State, e: Env, t: nat, a: TrapAttr)
    requires Valid(s)
    ensures var (st, r) := SetTrapSpec(s, e, t, a);
            var was := Current(s, e, t);
            && (st == Success <==>
                  && e.validTrap(t) && Acceptable(s, e, a) && e.verdict(s.calls)
                  && (|| e.verdict(s.calls + 1)
                      || (t in s.traps && !a.ExcludeAttr? && SetTo(was, was, a))))
            && (st == Success ==> t in r.traps && r.traps == s.traps[t := r.traps[t]] && SetTo(r.traps[t], was, a))
            && SameSettings(s.groups, r.groups)
  {
    hide Valid, SetTo, SetKnownTrap, SameSettings;
    ValidatedTrap(s, e, t, a);
    NothingToSet(Current(s, e, t), a);
    OwnSettings(s.groups);
    if !a.UnknownTrapAttr? {
      SetKnownEffect(s.(calls := s.calls + 1), e, t, a);
    }
  }

  lemma ValidatedTrap(s: State, e: Env, t: nat, a: TrapAttr)
    ensures ValidateTrap(s, e, t, a) == Success <==> e.validTrap(t) && Acceptable(s, e, a)
  {
  }

  lemma NothingToSet(p: Trap, a: TrapAttr)
    ensures NoChange(p, a) <==> !a.ExcludeAttr? && !a.UnknownTrapAttr? && SetTo(p, p, a)
    ensures NoChange(p, a) ==> SetTo(p, p, a)
  {
  }

  lemma OwnSettings(groups: map<GroupId, TrapGroup>)
    ensures SameSettings(groups, groups)
  {
  }

  lemma SettingsChain(a: map<GroupId, TrapGroup>, b: map<GroupId, TrapGroup>, c: map<GroupId, TrapGroup>)
    requires SameSettings(a, b) && SameSettings(b, c)
    ensures SameSettings(a, c)
  {
  }

  lemma SetKnownEffect(s: State, e: Env, t: nat, a: TrapAttr)
    requires !a.UnknownTrapAttr?
    ensures var (st, r) := SetKnownTrap(s, e, t, a);
            var was := Current(s, e, t);
            && (st == Success <==> e.verdict(s.calls) || (t in s.traps && NoChange(was, a)))
            && (st == Success ==> t in r.traps && r.traps == s.traps[t := r.traps[t]] && SetTo(r.traps[t], was, a))
            && SameSettings(s.groups, r.groups)
  {
    hide AddTrap, UpdateNode, SetTo, NoChange, SameSettings;
    AddedTrap(s, e, t);
    NothingToSet(Current(s, e, t), a);
    OwnSettings(s.groups);
    var s2 := if t in s.traps then s else AddTrap(s, e, t);
    UpdatedTrap(s2.(calls := s2.calls + 1), t, a);
    SettingsChain(s.groups, s2.groups, UpdateNode(s2.(calls := s2.calls + 1), t, a).groups);
  }

  lemma AddedTrap(s: State, e: Env, t: nat)
    ensures var r := AddTrap(s, e, t);
            && r.traps == s.traps[t := Trap(e.defaultAction(t), 0, s.defaultGroup, [])]
            && SameSettings(s.groups, r.groups) && r.calls == s.calls
  {
    hide Enlist;
    ListsKeepSettings(s.groups, s.defaultGroup, t);
  }

  /** A set that is refused leaves the tables, except that the NPU may refuse a new trap after it was added. */
  lemma RefusedTrap(s: State, e: Env, t: nat, a: TrapAttr)
    requires SetTrapSpec(s, e, t, a).0 != Success
    ensures var r := SetTrapSpec(s, e, t, a).1;
            if e.validTrap(t) && Acceptable(s, e, a) && e.verdict(s.calls) then
              r.traps == s.traps[t := Current(s, e, t)]
            else r.traps == s.traps && r.groups == s.groups
  {
    hide AddTrap, UpdateNode;
    AddedTrap(s.(calls := s.calls + 1), e, t);
  }
}
