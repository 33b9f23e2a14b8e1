/** The hash object database and the calls that change it, and every run of them. */
module HashObjects {
  import opened Common
  import opened HashSpec

  class HashTables {
    const verdict: nat -> bool
    const isHashGroup: Oid -> bool
    const slots: array<Id>
    const free: array<bool>
    var objects: map<Id, HashObject>
    var hw: seq<Fields>
    var calls: nat

    ghost predicate Valid()
      reads this, slots, free
    {
      slots.Length == SLOTS && free.Length == MAX_INDEX && TablesExact(Tables())
    }

    ghost function Tables(): State
      reads this, slots, free
    {
      State(objects, slots[..], hw, free[..], calls)
    }

    /** No object, no slot bound, every id free. */
    constructor (verdict: nat -> bool, isHashGroup: Oid -> bool)
      ensures Valid() && HwExact(Tables()) && fresh(slots) && fresh(free)
      ensures this.verdict == verdict && this.isHashGroup == isHashGroup
      ensures objects == map[] && (forall i :: 0 <= i < SLOTS ==> slots[i] == Null) && calls == 0
    {
      this.verdict := verdict;
      this.isHashGroup := isHashGroup;
      slots := new Id[SLOTS](_ => Null);
      free := new bool[MAX_INDEX](_ => true);
      objects := map[];
      hw := seq(SLOTS, _ => NO_FIELDS);
      calls := 0;
    }

    method SetFields(f: Fields, attrs: seq<Attr>) returns (status: Status, r: Fields)
      ensures (status, r) == ApplyAttrs(f, attrs, isHashGroup)
    {
      status, r := Success, f;
      var i := 0;
      while i < |attrs|
        invariant i <= |attrs| && status == Success
        invariant ApplyAttrs(f, attrs, isHashGroup) == ApplyAttrs(r, attrs[i..], isHashGroup)
      {
        match attrs[i] {
          case NativeList(l) => r := r.(native := l);
          case UdfList(l) =>
            var ok := ValidateGroups(l);
            if !ok {
              return InvalidAttrValue, r;
            }
            r := r.(udf := l);
        }
        assert attrs[i..][1..] == attrs[i + 1..];
        i := i + 1;
      }
    }

    method ValidateGroups(l: seq<Oid>) returns (ok: bool)
      ensures ok == AttrValid(UdfList(l), isHashGroup)
    {
      var i := 0;
      while i < |l|
        invariant i <= |l|
        invariant forall j :: 0 <= j < i ==> isHashGroup(l[j])
      {
        if !isHashGroup(l[i]) {
          return false;
        }
        i := i + 1;
      }
      return true;
    }

    method FindFirstFree() returns (i: nat)
      requires Valid()
      ensures i == FirstFree(free[..])
    {
      i := 0;
      while i < free.Length && !free[i]
        invariant i <= free.Length
        invariant forall j :: 0 <= j < i ==> !free[j]
      {
        i := i + 1;
      }
    }

    method CreateObject(attrs: seq<Attr>) returns (status: Status, id: Id)
      requires Valid()
      modifies this`objects, free
      ensures Valid()
      ensures (status, id, Tables()) == CreateSpec(old(Tables()), attrs, isHashGroup)
    {
      CreateKeepsTables(Tables(), attrs, isHashGroup);
      var i := FindFirstFree();
      if i == MAX_INDEX {
        return InsufficientResources, Null;
      }
      var f;
      status, f := SetFields(NO_FIELDS, attrs);
      if status != Success {
        return status, Null;
      }
      id := Hash(i);
      objects := objects[id := HashObject(f, 0)];
      free[i] := false;
      assert free[..] == old(free[..])[i := false];
    }

    method RemoveObject(id: Id) returns (status: Status)
      requires Valid()
      modifies this`objects, free
      ensures Valid()
      ensures (status, Tables()) == RemoveSpec(old(Tables()), id)
    {
      RemoveKeepsTables(Tables(), id);
      if !id.Hash? {
        return InvalidObjectType;
      }
      if id !in objects {
        return InvalidObjectId;
      }
      if objects[id].refCount > 0 {
        return ObjectInUse;
      }
      objects := objects - {id};
      free[id.index] := true;
      assert free[..] == old(free[..])[id.index := true];
      return Success;
    }

    method BindSlot(slot: nat, id: Id) returns (status: Status)
      requires Valid() && slot < SLOTS
      modifies this`objects, this`hw, this`calls, slots
      ensures Valid()
      ensures (status, Tables()) == BindSpec(old(Tables()), slot, id, verdict)
    {
      hide RefsExact, SlotsBound, BitmapExact;
      BindKeepsTables(Tables(), slot, id, verdict);
      var f := NO_FIELDS;
      if id != Null {
        if !id.Hash? {
          return InvalidObjectType;
        }
        if id !in objects {
          return InvalidObjectId;
        }
        f := objects[id].fields;
      }
      calls := calls + 1;
      if !verdict(calls - 1) {
        return NpuError;
      }
      hw := hw[slot := f];
      var was := slots[slot];
      if was in objects {
        objects := objects[was := objects[was].(refCount := objects[was].refCount - 1)];
      }
      slots[slot] := id;
      if id in objects {
        objects := objects[id := objects[id].(refCount := objects[id].refCount + 1)];
      }
      assert slots[..] == old(slots[..])[slot := id];
      return Success;
    }

    /** Writes the fields of a used object to its slots; `status` is read only after some slot has assigned it. */
    method SetInHw(id: Id, now: Fields) returns (status: Status)
      requires Valid() && id in objects && objects[id].refCount > 0
      modifies this`hw, this`calls
      ensures (status, Tables()) == SetInHwSpec(old(Tables()), id, now, objects[id].fields, verdict)
    {
      hide RefsExact, SlotsBound, BitmapExact, RestoreFrom;
      UsedObjectIsWritten(Tables(), id);
      ghost var start := Walk(0, hw, calls);
      var stored: Option<Status>, isSet, index := None, false, 0;
      while index < SLOTS
        invariant index <= SLOTS == |hw| && (stored == None || stored == Some(Success))
        invariant isSet <==> exists j :: 0 <= j < index && slots[j] == id
        invariant isSet <==> stored.Some?
        invariant WriteFrom(start, slots[..], id, now, verdict)
          == WriteFrom(Walk(index, hw, calls), slots[..], id, now, verdict)
      {
        if slots[index] == id {
          calls := calls + 1;
          if !verdict(calls - 1) {
            stored := Some(NpuError);
            break;
          }
          stored := Some(Success);
          hw := hw[index := now];
          isSet := true;
        }
        index := index + 1;
      }
      assert stored.Some?;
      status := stored.value;
      if status == Success {
        return;
      }
      if isSet {
        RestoreSlots(id, index);
      } else {
        NothingToRestore(Walk(0, hw, calls), index, slots[..], id, objects[id].fields, verdict);
      }
    }

    /** Writes the fields an object still has to its slots before slot `n`; the outcome of a write is not looked at. */
    method RestoreSlots(id: Id, n: nat)
      requires slots.Length == SLOTS == |hw| && n <= SLOTS && id in objects
      modifies this`hw, this`calls
      ensures |hw| == SLOTS
      ensures Walk(n, hw, calls)
           == RestoreFrom(Walk(0, old(hw), old(calls)), n, slots[..], id, objects[id].fields, verdict)
    {
      ghost var start := Walk(0, hw, calls);
      var cleanup := 0;
      while cleanup < n
        invariant cleanup <= n && |hw| == SLOTS
        invariant RestoreFrom(start, n, slots[..], id, objects[id].fields, verdict)
               == RestoreFrom(Walk(cleanup, hw, calls), n, slots[..], id, objects[id].fields, verdict)
      {
        if slots[cleanup] == id {
          calls := calls + 1;
          if verdict(calls - 1) {
            hw := hw[cleanup := objects[id].fields];
          }
        }
        cleanup := cleanup + 1;
      }
    }

    method SetAttr(id: Id, a: Attr) returns (status: Status)
      requires Valid()
      modifies this`objects, this`hw, this`calls
      ensures Valid()
      ensures (status, Tables()) == SetAttrSpec(old(Tables()), id, a, isHashGroup, verdict)
    {
      SetAttrKeepsTables(Tables(), id, a, isHashGroup, verdict);
      hide RefsExact, SlotsBound, BitmapExact, SetInHwSpec;
      if !id.Hash? {
        return InvalidObjectType;
      }
      if id !in objects {
        return InvalidObjectId;
      }
      if a.UdfList? {
        var ok := ValidateGroups(a.udf);
        if !ok {
          return InvalidAttrValue;
        }
      }
      var now := WithAttr(objects[id].fields, a);
      if objects[id].refCount > 0 {
        status := SetInHw(id, now);
        if status != Success {
          return;
        }
      }
      objects := objects[id := objects[id].(fields := now)];
      return Success;
    }
  }

  lemma {:induction false} NothingToRestore(w: Walk, n: nat, slots: seq<Id>, id: Id, f: Fields, v: nat -> bool)
    requires |slots| == SLOTS == |w.hw| && w.stop <= n <= SLOTS
    requires forall j :: w.stop <= j < n ==> slots[j] != id
    ensures RestoreFrom(w, n, slots, id, f, v) == Walk(n, w.hw, w.calls)
    decreases n - w.stop
  {
    if w.stop < n {
      NothingToRestore(Walk(w.stop + 1, w.hw, w.calls), n, slots, id, f, v);
    }
  }

  // ---------------------------------------------------------------------------------------------
  // Runs
  // ---------------------------------------------------------------------------------------------

  datatype Request = Create(attrs: seq<Attr>) | Remove(id: Id) | Bind(slot: nat, id: Id) | Set(id: Id, attr: Attr)

  ghost function Step(s: State, r: Request, isHashGroup: Oid -> bool, v: nat -> bool): State
    requires Shaped(s) && (r.Bind? ==> r.slot < SLOTS)
  {
    match r
    case Create(attrs) => CreateSpec(s, attrs, isHashGroup).2
    case Remove(id) => RemoveSpec(s, id).1
    case Bind(slot, id) => BindSpec(s, slot, id, v).1
    case Set(id, a) => SetAttrSpec(s, id, a, isHashGroup, v).1
  }

  /** The set reaches the NPU and a restoring call is rejected there. */
  ghost predicate SetLost(s: State, r: Request, isHashGroup: Oid -> bool, v: nat -> bool)
    requires Shaped(s)
  {
    && r.Set? && r.id in s.objects && AttrValid(r.attr, isHashGroup) && s.objects[r.id].refCount > 0
    && RestoreLost(s, r.id, WithAttr(s.objects[r.id].fields, r.attr), s.objects[r.id].fields, v)
  }

  /**
   Each step keeps counts, slots and bitmap exact, and keeps the NPU exact if and only if nothing is lost in
   a restore.
   */
  lemma StepExact(s: State, r: Request, isHashGroup: Oid -> bool, v: nat -> bool)
    requires TablesExact(s) && (r.Bind? ==> r.slot < SLOTS)
    ensures TablesExact(Step(s, r, isHashGroup, v))
    ensures HwExact(s) ==> (HwExact(Step(s, r, isHashGroup, v)) <==> !SetLost(s, r, isHashGroup, v))
  {
    hide CreateSpec, RemoveSpec, BindSpec, SetAttrSpec, HwExact, RestoreLost, RefsExact, SlotsBound, BitmapExact;
    match r {
      case Create(attrs) => CreateKeepsTables(s, attrs, isHashGroup);
      case Remove(id) => RemoveKeepsTables(s, id);
      case Bind(slot, id) => BindKeepsTables(s, slot, id, v);
      case Set(id, a) =>
        SetAttrKeepsTables(s, id, a, isHashGroup, v);
        if HwExact(s) {
          SetAttrKeepsHw(s, id, a, isHashGroup, v);
        }
    }
  }

  /** A run of requests about the eight slots leads from `s` to `t`. */
  ghost predicate RunTo(s: State, rs: seq<Request>, isHashGroup: Oid -> bool, v: nat -> bool, t: State)
    requires Shaped(s)
    decreases |rs|
  {
    if rs == [] then s == t
    else
      && (rs[0].Bind? ==> rs[0].slot < SLOTS)
      && Shaped(Step(s, rs[0], isHashGroup, v))
      && RunTo(Step(s, rs[0], isHashGroup, v), rs[1..], isHashGroup, v, t)
  }

  /** No set of the run loses anything in a restore. */
  ghost predicate NothingLost(s: State, rs: seq<Request>, isHashGroup: Oid -> bool, v: nat -> bool)
    requires Shaped(s)
    decreases |rs|
  {
    rs != [] && (rs[0].Bind? ==> rs[0].slot < SLOTS) ==>
      && !SetLost(s, rs[0], isHashGroup, v)
      && Shaped(Step(s, rs[0], isHashGroup, v))
      && NothingLost(Step(s, rs[0], isHashGroup, v), rs[1..], isHashGroup, v)
  }

  /**
   After any run every count is the number of bound slots, every bound slot has its object, and every id
   is free or in use. If no restoring call was refused, the NPU uses the fields of the bound objects.
   */
  lemma {:induction false} RunExact(s: State, rs: seq<Request>, isHashGroup: Oid -> bool, v: nat -> bool, t: State)
    requires TablesExact(s) && RunTo(s, rs, isHashGroup, v, t)
    ensures TablesExact(t)
    ensures HwExact(s) && NothingLost(s, rs, isHashGroup, v) ==> HwExact(t)
    decreases |rs|
  {
    hide RefsExact, SlotsBound, BitmapExact, HwExact, Step, SetLost;
    if rs != [] {
      StepExact(s, rs[0], isHashGroup, v);
      RunExact(Step(s, rs[0], isHashGroup, v), rs[1..], isHashGroup, v, t);
    }
  }
}
