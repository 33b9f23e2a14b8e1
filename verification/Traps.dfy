/** The trap and trap group database and the calls that change it. */
module Traps {
  import opened Common
  import opened TrapSpec

  class TrapTables {
    const env: Env
    const free: array<bool>
    var groups: map<GroupId, TrapGroup>
    var traps: map<nat, Trap>
    var defaultGroup: GroupId
    var calls: nat

    ghost predicate Ok()
      reads this, free
    {
      free.Length == MAX_GROUPS && Valid(Now())
    }

    ghost function Now(): State
      reads this, free
    {
      State(groups, traps, free[..], defaultGroup, calls)
    }

    constructor (env: Env)
      ensures Ok() && QueuesUnique(Now()) && fresh(free)
      ensures this.env == env && groups == map[] && traps == map[] && defaultGroup == Null && calls == 0
    {
      this.env := env;
      free := new bool[MAX_GROUPS](_ => true);
      groups, traps, defaultGroup, calls := map[], map[], Null, 0;
    }

    method Ask() returns (ok: bool)
      modifies this`calls
      ensures ok == env.verdict(old(calls)) && calls == old(calls) + 1
    {
      ok := env.verdict(calls);
      calls := calls + 1;
    }

    /** Duplicates first; then each attribute must be known and accepted by the NPU. */
    method ValidateGroupAttrs(attrs: seq<GroupAttr>) returns (status: Status)
      modifies this`calls
      ensures (status, calls) == GroupAttrsStatus(attrs, old(calls), env.verdict)
    {
      if |attrs| == 0 {
        return InvalidParameter;
      }
      var i := 0;
      while i < |attrs|
        invariant i <= |attrs| && calls == old(calls)
        invariant forall k, l :: 0 <= k < l < i ==> !SameGroupAttr(attrs[k], attrs[l])
      {
        var j := 0;
        while j < i
          invariant j <= i
          invariant forall k :: 0 <= k < j ==> !SameGroupAttr(attrs[k], attrs[i])
        {
          if SameGroupAttr(attrs[j], attrs[i]) {
            return InvalidAttribute;
          }
          j := j + 1;
        }
        i := i + 1;
      }
      status := ValidateEach(attrs);
    }

    method ValidateEach(attrs: seq<GroupAttr>) returns (status: Status)
      modifies this`calls
      ensures (status, calls) == CheckAttrs(attrs, old(calls), env.verdict)
    {
      var i := 0;
      while i < |attrs|
        invariant i <= |attrs|
        invariant CheckAttrs(attrs, old(calls), env.verdict) == CheckAttrs(attrs[i..], calls, env.verdict)
      {
        assert attrs[i..][1..] == attrs[i + 1..];
        if attrs[i].UnknownGroupAttr? {
          return UnknownAttribute;
        }
        var ok := Ask();
        if !ok {
          return AttrNotSupported;
        }
        i := i + 1;
      }
      return Success;
    }

    method FindQueue(attrs: seq<GroupAttr>) returns (queue: Option<nat>)
      ensures queue == AskedQueue(attrs)
    {
      var i := 0;
      while i < |attrs|
        invariant i <= |attrs|
        invariant AskedQueue(attrs) == AskedQueue(attrs[i..])
      {
        assert attrs[i..][1..] == attrs[i + 1..];
        if attrs[i].QueueAttr? {
          return Some(attrs[i].queue);
        }
        i := i + 1;
      }
      return None;
    }

    method FindFree() returns (i: nat)
      requires free.Length == MAX_GROUPS
      ensures i == FirstFree(free[..], 1)
    {
      i := 1;
      while i < free.Length && !free[i]
        invariant 1 <= i <= free.Length
        invariant FirstFree(free[..], 1) == FirstFree(free[..], i)
      {
        i := i + 1;
      }
    }

    method FillGroup(attrs: seq<GroupAttr>) returns (g: TrapGroup)
      ensures g == FilledGroup(NEW_GROUP, attrs)
    {
      g := NEW_GROUP;
      var i := 0;
      while i < |attrs|
        invariant i <= |attrs|
        invariant FilledGroup(NEW_GROUP, attrs) == FilledGroup(g, attrs[i..])
      {
        assert attrs[i..][1..] == attrs[i + 1..];
        match attrs[i] {
          case AdminAttr(x) => g := g.(admin := x);
          case QueueAttr(x) => g := g.(queue := x);
          case _ =>
        }
        i := i + 1;
      }
    }

    method CreateGroup(attrs: seq<GroupAttr>) returns (status: Status, id: GroupId)
      requires Ok()
      modifies this`groups, this`calls, free
      ensures Ok()
      ensures (status, id, Now()) == CreateSpec(old(Now()), env, attrs)
    {
      hide Listed, GroupAttrsValid, GroupAttrsStatus, FilledGroup, AskedQueue;
      CreateValid(Now(), env, attrs);
      status := ValidateGroupAttrs(attrs);
      if status != Success {
        return status, Null;
      }
      var asked := FindQueue(attrs);
      var queue := if asked == None then env.defaultQueue else asked.value;
      if QueueTaken(groups, queue) {
        return ItemAlreadyExists, Null;
      }
      var i := FindFree();
      if i == MAX_GROUPS {
        return InsufficientResources, Null;
      }
      var g := FillGroup(attrs);
      id := Group(i);
      groups := groups[id := g];
      free[i] := false;
      assert free[..] == old(free[..])[i := false];
      return Success, id;
    }

    method RemoveGroup(id: GroupId) returns (status: Status)
      requires Ok()
      modifies this`groups, free
      ensures Ok()
      ensures (status, Now()) == RemoveSpec(old(Now()), id)
    {
      hide Listed;
      RemoveValid(Now(), id);
      if !id.Group? {
        return InvalidObjectType;
      }
      if id !in groups {
        return InvalidObjectId;
      }
      if groups[id].count > 0 {
        return ObjectInUse;
      }
      if defaultGroup == id {
        return ObjectInUse;
      }
      groups := groups - {id};
      free[id.index] := true;
      assert free[..] == old(free[..])[id.index := true];
      return Success;
    }

    /** Walks the traps of the group, then stores the attribute in the group. */
    /** Tells the NPU about each trap of a group, until it refuses one. */
    method UpdateEachTrap(members: seq<nat>) returns (ok: bool)
      modifies this`calls
      ensures (ok, calls) == UpdateTraps(|members|, old(calls), env.verdict)
    {
      var i := 0;
      while i < |members|
        invariant i <= |members|
        invariant UpdateTraps(|members|, old(calls), env.verdict) == UpdateTraps(|members| - i, calls, env.verdict)
      {
        ok := Ask();
        if !ok {
          return;
        }
        i := i + 1;
      }
      return true;
    }

    method SetGroup(id: GroupId, a: GroupAttr) returns (status: Status)
      requires Ok()
      modifies this`groups, this`calls
      ensures Ok()
      ensures (status, Now()) == SetGroupSpec(old(Now()), env, id, a)
    {
      hide Listed, GroupAttrsStatus, UpdateTraps, QueuesUnique;
      SetGroupValid(Now(), env, id, a);
      if !id.Group? {
        return InvalidObjectType;
      }
      assert [a][0] == a;
      status := ValidateGroupAttrs([a]);
      if status != Success {
        return;
      }
      if id !in groups {
        return InvalidObjectId;
      }
      var g := groups[id];
      match a {
        case AdminAttr(x) =>
          if g.admin == x {
            return Success;
          }
        case QueueAttr(x) =>
          if g.queue == x {
            return Success;
          }
          if QueueTaken(groups, x) {
            return ItemAlreadyExists;
          }
        case _ => return AttrNotSupported;
      }
      var ok := UpdateEachTrap(g.traps);
      if !ok {
        return NpuError;
      }
      groups := groups[id := if a.AdminAttr? then g.(admin := a.admin) else g.(queue := a.queue)];
      return Success;
    }

    method AddToGroup(t: nat, id: GroupId)
      modifies this`groups
      ensures groups == Enlist(old(groups), id, t)
    {
      if id in groups {
        groups := groups[id := groups[id].(traps := groups[id].traps + [t], count := groups[id].count + 1)];
      }
    }

    method RemoveFromGroup(t: nat, id: GroupId)
      modifies this`groups
      ensures groups == Delist(old(groups), id, t)
    {
      if id in groups {
        groups := groups[id := groups[id].(traps := Without(groups[id].traps, t), count := groups[id].count - 1)];
      }
    }

    /** Creates the node of a trap; the default group it joins is there. */
    method AddTrapNode(t: nat)
      requires Valid(Now())
      modifies this`groups, this`traps
      ensures Now() == AddTrap(old(Now()), env, t)
    {
      hide Listed, Enlist;
      traps := traps[t := Trap(env.defaultAction(t), MIN_PRIORITY, defaultGroup, [])];
      if defaultGroup != Null {
        assert defaultGroup in groups;
        AddToGroup(t, defaultGroup);
      } else {
        NoGroup(groups, t);
      }
    }

    method UpdateTrapNode(t: nat, a: TrapAttr)
      requires t in traps && Null !in groups
      requires a.TrapGroupAttr? ==> a.group == Null || a.group in groups
      modifies this`groups, this`traps
      ensures Now() == UpdateNode(old(Now()), t, a)
    {
      hide Enlist, Delist;
      var p := traps[t];
      match a {
        case ActionAttr(x) => traps := traps[t := p.(action := x)];
        case PriorityAttr(x) => traps := traps[t := p.(priority := x)];
        case ExcludeAttr(l) => traps := traps[t := p.(excluded := l)];
        case TrapGroupAttr(id) =>
          EnlistKeys(groups, p.group, t);
          RemoveFromGroup(t, p.group);
          NoGroup(groups, t);
          if id != Null {
            assert id in groups;
            AddToGroup(t, id);
          }
          traps := traps[t := p.(group := id)];
        case UnknownTrapAttr =>
      }
    }

    method ValidateTrapAttr(t: nat, a: TrapAttr) returns (status: Status)
      ensures status == ValidateTrap(Now(), env, t, a)
    {
      if !env.validTrap(t) {
        return InvalidParameter;
      }
      match a {
        case UnknownTrapAttr => return UnknownAttribute;
        case ActionAttr(x) => return if env.validAction(x) then Success else InvalidAttrValue;
        case TrapGroupAttr(id) => return if id == Null || id in groups then Success else InvalidObjectId;
        case ExcludeAttr(l) =>
          var i := 0;
          while i < |l|
            invariant i <= |l|
            invariant forall k :: 0 <= k < i ==> env.validPort(l[k])
          {
            if !env.validPort(l[i]) {
              return InvalidObjectId;
            }
            i := i + 1;
          }
          return Success;
        case PriorityAttr(_) => return Success;
      }
    }

    /** Both lookups of a named group, for the old and for the new one, find it. */
    method SetTrap(t: nat, a: TrapAttr) returns (status: Status)
      requires Ok()
      modifies this`groups, this`traps, this`calls
      ensures Ok()
      ensures (status, Now()) == SetTrapSpec(old(Now()), env, t, a)
    {
      hide Listed, SetKnownTrap;
      SetTrapValid(Now(), env, t, a);
      status := ValidateTrapAttr(t, a);
      if status != Success {
        return;
      }
      var ok := Ask();
      if !ok {
        return AttrNotSupported;
      }
      SameListsListed(old(Now()), Now());
      status := SetValidated(t, a);
    }

    /** Both group lookups of a trap set succeed: that of the default group, and that of the group the trap is in. */
    method SetValidated(t: nat, a: TrapAttr) returns (status: Status)
      requires Ok() && (a.TrapGroupAttr? ==> a.group == Null || a.group in groups)
      modifies this`groups, this`traps, this`calls
      ensures (status, Now()) == SetKnownTrap(old(Now()), env, t, a)
    {
      hide Listed, AddTrap, UpdateNode, NoChange;
      var isNew := t !in traps;
      if isNew {
        AddTrapKeys(Now(), env, t);
        AddTrapListed(Now(), env, t);
        AddTrapNode(t);
      }
      assert traps[t].group == Null || traps[t].group in groups by {
        NamedGroupThere(Now(), t);
      }
      if !isNew && NoChange(traps[t], a) {
        return Success;
      }
      var ok := Ask();
      if !ok {
        return NpuError;
      }
      UpdateTrapNode(t, a);
      return Success;
    }
  }

  lemma NoGroup(groups: map<GroupId, TrapGroup>, t: nat)
    ensures Null !in groups ==> Enlist(groups, Null, t) == groups
  {
  }

  lemma NamedGroupThere(s: State, t: nat)
    requires Listed(s) && t in s.traps
    ensures s.traps[t].group == Null || s.traps[t].group in s.groups
  {
    assert TrapListed(s, t);
  }
}
