/**
 Hash objects: one object backs up to eight switch hash slots. What each call computes, and the
 invariant that ties the object table, the slots, the id bitmap and the NPU together.
 */
module HashSpec {
  import opened Common

  datatype Id = Null | Hash(index: nat) | OtherType(n: nat)

  datatype Fields = Fields(native: seq<int>, udf: seq<Oid>)

  const NO_FIELDS := Fields([], [])

  datatype HashObject = HashObject(fields: Fields, refCount: int)

  datatype Attr = NativeList(native: seq<int>) | UdfList(udf: seq<Oid>)

  const SLOTS: nat := 8
  const MAX_INDEX: nat := 256

  /**
   `slots` are the eight switch attributes, `hw` the fields the NPU uses for each, `free` the bitmap of
   unused ids.
   */
  datatype State = State(objects: map<Id, HashObject>, slots: seq<Id>, hw: seq<Fields>, free: seq<bool>, calls: nat)

  predicate Shaped(s: State) {
    |s.slots| == SLOTS && |s.hw| == SLOTS && |s.free| == MAX_INDEX
  }

  // ---------------------------------------------------------------------------------------------
  // The calls
  // ---------------------------------------------------------------------------------------------

  function WithAttr(f: Fields, a: Attr): Fields {
    match a
    case NativeList(l) => f.(native := l)
    case UdfList(l) => f.(udf := l)
  }

  predicate AttrValid(a: Attr, isHashGroup: Oid -> bool) {
    a.UdfList? ==> forall i :: 0 <= i < |a.udf| ==> isHashGroup(a.udf[i])
  }

  function ApplyAttrs(f: Fields, attrs: seq<Attr>, isHashGroup: Oid -> bool): (Status, Fields)
    decreases |attrs|
  {
    if attrs == [] then (Success, f)
    else if !AttrValid(attrs[0], isHashGroup) then (InvalidAttrValue, f)
    else ApplyAttrs(WithAttr(f, attrs[0]), attrs[1..], isHashGroup)
  }

  function FirstFree(free: seq<bool>): (i: nat)
    ensures i <= |free| && (i < |free| ==> free[i])
    ensures forall j :: 0 <= j < i ==> !free[j]
  {
    if free == [] || free[0] then 0 else 1 + FirstFree(free[1..])
  }

  ghost function CreateSpec(s: State, attrs: seq<Attr>, isHashGroup: Oid -> bool): (Status, Id, State)
    requires Shaped(s)
  {
    var i := FirstFree(s.free);
    var (st, f) := ApplyAttrs(NO_FIELDS, attrs, isHashGroup);
    if i == MAX_INDEX then (InsufficientResources, Null, s)
    else if st != Success then (st, Null, s)
    else (Success, Hash(i), s.(objects := s.objects[Hash(i) := HashObject(f, 0)], free := s.free[i := false]))
  }

  function RemoveSpec(s: State, id: Id): (Status, State)
    requires Shaped(s)
  {
    if !id.Hash? then (InvalidObjectType, s)
    else if id !in s.objects then (InvalidObjectId, s)
    else if s.objects[id].refCount > 0 then (ObjectInUse, s)
    else (Success, s.(objects := s.objects - {id}, free := if id.index < MAX_INDEX then s.free[id.index := true]
                      else s.free))
  }

  function AddRef(objects: map<Id, HashObject>, id: Id, n: int): map<Id, HashObject> {
    if id in objects then objects[id := objects[id].(refCount := objects[id].refCount + n)] else objects
  }

  function BindSpec(s: State, slot: nat, id: Id, v: nat -> bool): (Status, State)
    requires Shaped(s) && slot < SLOTS
  {
    if id.OtherType? then (InvalidObjectType, s)
    else if id.Hash? && id !in s.objects then (InvalidObjectId, s)
    else if !v(s.calls) then (NpuError, s.(calls := s.calls + 1))
    else
      var f := if id.Hash? then s.objects[id].fields else NO_FIELDS;
      (Success, s.(objects := AddRef(AddRef(s.objects, s.slots[slot], -1), id, 1),
                   slots := s.slots[slot := id], hw := s.hw[slot := f], calls := s.calls + 1))
  }

  datatype Walk = Walk(stop: nat, hw: seq<Fields>, calls: nat)

  /** Writes `f` to every slot of `id` from slot `i` on, until the NPU rejects one; `stop` is that slot, or 8. */
  function WriteFrom(w: Walk, slots: seq<Id>, id: Id, f: Fields, v: nat -> bool): (r: Walk)
    requires |slots| == SLOTS == |w.hw| && w.stop <= SLOTS
    ensures w.stop <= r.stop <= SLOTS && |r.hw| == SLOTS
    decreases SLOTS - w.stop
  {
    var i := w.stop;
    if i == SLOTS then w
    else if slots[i] != id then WriteFrom(Walk(i + 1, w.hw, w.calls), slots, id, f, v)
    else if !v(w.calls) then Walk(i, w.hw, w.calls + 1)
    else WriteFrom(Walk(i + 1, w.hw[i := f], w.calls + 1), slots, id, f, v)
  }

  /** Writes `f` to every slot of `id` before slot `n`; a rejection is not noticed. */
  function RestoreFrom(w: Walk, n: nat, slots: seq<Id>, id: Id, f: Fields, v: nat -> bool): (r: Walk)
    requires |slots| == SLOTS == |w.hw| && w.stop <= n <= SLOTS
    ensures r.stop == n && |r.hw| == SLOTS
    decreases n - w.stop
  {
    var i := w.stop;
    if i == n then w
    else if slots[i] != id then RestoreFrom(Walk(i + 1, w.hw, w.calls), n, slots, id, f, v)
    else RestoreFrom(Walk(i + 1, if v(w.calls) then w.hw[i := f] else w.hw, w.calls + 1), n, slots, id, f, v)
  }

  function SetInHwSpec(s: State, id: Id, now: Fields, was: Fields, v: nat -> bool): (Status, State)
    requires Shaped(s)
  {
    var w := WriteFrom(Walk(0, s.hw, s.calls), s.slots, id, now, v);
    if w.stop == SLOTS then (Success, s.(hw := w.hw, calls := w.calls))
    else
      var r := RestoreFrom(Walk(0, w.hw, w.calls), w.stop, s.slots, id, was, v);
      (NpuError, s.(hw := r.hw, calls := r.calls))
  }

  function SetAttrSpec(s: State, id: Id, a: Attr, isHashGroup: Oid -> bool, v: nat -> bool): (Status, State)
    requires Shaped(s)
  {
    if !id.Hash? then (InvalidObjectType, s)
    else if id !in s.objects then (InvalidObjectId, s)
    else if !AttrValid(a, isHashGroup) then (InvalidAttrValue, s)
    else
      var o := s.objects[id];
      var now := WithAttr(o.fields, a);
      var (st, s1) := if o.refCount > 0 then SetInHwSpec(s, id, now, o.fields, v) else (Success, s);
      if st != Success then (st, s1)
      else (Success, s1.(objects := s1.objects[id := o.(fields := now)]))
  }

  // ---------------------------------------------------------------------------------------------
  // The invariant
  // ---------------------------------------------------------------------------------------------

  function CountOf(slots: seq<Id>, id: Id): nat {
    if slots == [] then 0 else (if slots[0] == id then 1 else 0) + CountOf(slots[1..], id)
  }

  ghost predicate RefsExact(s: State) {
    forall id :: id in s.objects ==> s.objects[id].refCount == CountOf(s.slots, id)
  }

  ghost predicate SlotsBound(s: State) {
    forall i :: 0 <= i < |s.slots| && s.slots[i] != Null ==> s.slots[i] in s.objects
  }

  ghost predicate BitmapExact(s: State) {
    && (forall id :: id in s.objects ==> id.Hash? && id.index < |s.free|)
    && (forall i :: 0 <= i < |s.free| ==> (s.free[i] <==> Hash(i) !in s.objects))
  }

  /** The NPU uses, for each bound slot, the fields of the object bound to it. */
  ghost predicate HwExact(s: State) {
    |s.hw| == |s.slots| &&
    forall i :: 0 <= i < |s.slots| && s.slots[i] in s.objects ==> s.hw[i] == s.objects[s.slots[i]].fields
  }

  ghost predicate TablesExact(s: State) {
    Shaped(s) && RefsExact(s) && SlotsBound(s) && BitmapExact(s)
  }

  // ---------------------------------------------------------------------------------------------
  // Counting slots
  // ---------------------------------------------------------------------------------------------

  lemma {:induction false} CountUpdate(slots: seq<Id>, i: nat, id: Id, x: Id)
    requires i < |slots|
    ensures CountOf(slots[i := id], x) == CountOf(slots, x) - (if slots[i] == x then 1 else 0)
      + (if id == x then 1 else 0)
  {
    if i > 0 {
      assert slots[i := id][1..] == slots[1..][i - 1 := id];
      CountUpdate(slots[1..], i - 1, id, x);
    } else {
      assert slots[i := id][1..] == slots[1..];
    }
  }

  /** A used object is bound to some slot. */
  lemma {:induction false} CountPositive(slots: seq<Id>, id: Id)
    ensures CountOf(slots, id) > 0 <==> id in slots
  {
    if slots != [] {
      CountPositive(slots[1..], id);
      assert slots == [slots[0]] + slots[1..];
    }
  }

  // ---------------------------------------------------------------------------------------------
  // Writing the slots of one object
  // ---------------------------------------------------------------------------------------------

  /** Every slot of `id` before the stop has the new fields; all the others are as before. */
  lemma {:induction false} WriteEffect(w: Walk, slots: seq<Id>, id: Id, f: Fields, v: nat -> bool)
    requires |slots| == SLOTS == |w.hw| && w.stop <= SLOTS
    ensures var r := WriteFrom(w, slots, id, f, v);
            && (forall j :: 0 <= j < SLOTS ==> r.hw[j] == if w.stop <= j < r.stop && slots[j] == id then f else w.hw[j])
            && (r.stop < SLOTS ==> slots[r.stop] == id)
    decreases SLOTS - w.stop
  {
    var i := w.stop;
    if i < SLOTS {
      if slots[i] != id {
        WriteEffect(Walk(i + 1, w.hw, w.calls), slots, id, f, v);
      } else if v(w.calls) {
        WriteEffect(Walk(i + 1, w.hw[i := f], w.calls + 1), slots, id, f, v);
      }
    }
  }

  /** The k-th slot of an object is written by the k-th call. */
  lemma {:induction false} WriteCalls(w: Walk, slots: seq<Id>, id: Id, f: Fields, v: nat -> bool)
    requires |slots| == SLOTS == |w.hw| && w.stop <= SLOTS
    ensures var r := WriteFrom(w, slots, id, f, v);
            var n := CountOf(slots[w.stop..r.stop], id);
            if r.stop == SLOTS then !RefusedAmong(n, w.calls, v)
            else n < CountOf(slots[w.stop..], id) && RefusedAfter(n, w.calls, v) && r.calls == w.calls + n + 1
    decreases SLOTS - w.stop
  {
    hide CountOf, RefusedAfter, RefusedAmong;
    var i := w.stop;
    var r := WriteFrom(w, slots, id, f, v);
    CountNone(slots, i, id);
    if i < SLOTS {
      CountFirst(slots, i, SLOTS, id);
      assert slots[i..SLOTS] == slots[i..] && slots[i + 1..SLOTS] == slots[i + 1..];
      if slots[i] != id {
        WriteCalls(Walk(i + 1, w.hw, w.calls), slots, id, f, v);
        CountFirst(slots, i, r.stop, id);
      } else if v(w.calls) {
        WriteCalls(Walk(i + 1, w.hw[i := f], w.calls + 1), slots, id, f, v);
        CountFirst(slots, i, r.stop, id);
        RefusalStep(CountOf(slots[i + 1..r.stop], id), w.calls, v);
      } else {
        RefusalStep(0, w.calls, v);
      }
    } else {
      RefusalStep(0, w.calls, v);
    }
  }

  lemma CountNone(slots: seq<Id>, i: nat, id: Id)
    requires i <= |slots|
    ensures CountOf(slots[i..i], id) == 0
  {
  }

  lemma CountFirst(slots: seq<Id>, i: nat, n: nat, id: Id)
    requires i < n <= |slots|
    ensures CountOf(slots[i..n], id) == (if slots[i] == id then 1 else 0) + CountOf(slots[i + 1..n], id)
  {
    assert slots[i..n][1..] == slots[i + 1..n];
  }

  /** None of the calls that restore slots `i` to `n` is refused. */
  predicate RestoreAccepted(i: nat, n: nat, slots: seq<Id>, id: Id, calls: nat, v: nat -> bool)
    requires i <= n <= |slots|
    decreases n - i
  {
    i == n || (if slots[i] != id then RestoreAccepted(i + 1, n, slots, id, calls, v)
               else v(calls) && RestoreAccepted(i + 1, n, slots, id, calls + 1, v))
  }

  lemma {:induction false} RestoreCalls(i: nat, n: nat, slots: seq<Id>, id: Id, calls: nat, v: nat -> bool)
    requires i <= n <= |slots|
    ensures RestoreAccepted(i, n, slots, id, calls, v) <==> !RefusedAmong(CountOf(slots[i..n], id), calls, v)
    decreases n - i
  {
    hide CountOf, RefusedAmong;
    CountNone(slots, i, id);
    if i < n {
      CountFirst(slots, i, n, id);
      RefusalStep(CountOf(slots[i + 1..n], id), calls, v);
      RestoreCalls(i + 1, n, slots, id, if slots[i] == id then calls + 1 else calls, v);
    } else {
      RefusalStep(0, calls, v);
    }
  }

  /**
   The restore walk puts the old fields back everywhere exactly when no call is refused; otherwise a slot
   keeps what it has.
   */
  lemma {:induction false} RestoreEffect(w: Walk, n: nat, slots: seq<Id>, id: Id, f: Fields, v: nat -> bool)
      returns (lost: nat)
    requires |slots| == SLOTS == |w.hw| && w.stop <= n <= SLOTS
    ensures var r := RestoreFrom(w, n, slots, id, f, v);
            && (forall j :: 0 <= j < SLOTS ==>
                  r.hw[j] == w.hw[j] || (w.stop <= j < n && slots[j] == id && r.hw[j] == f))
            && (if RestoreAccepted(w.stop, n, slots, id, w.calls, v)
                then forall j :: w.stop <= j < n && slots[j] == id ==> r.hw[j] == f
                else w.stop <= lost < n && slots[lost] == id && r.hw[lost] == w.hw[lost])
    decreases n - w.stop
  {
    var i := w.stop;
    lost := i;
    if i < n {
      if slots[i] != id {
        lost := RestoreEffect(Walk(i + 1, w.hw, w.calls), n, slots, id, f, v);
      } else {
        var later := RestoreEffect(Walk(i + 1, if v(w.calls) then w.hw[i := f] else w.hw, w.calls + 1), n, slots, id, f,
                                   v);
        lost := if v(w.calls) then later else i;
      }
    }
  }

  /**
   The NPU refuses the new fields at some slot of the object, and then the old ones at an earlier one. An
   object with the slot count `n` is written by `n` calls.
   */
  ghost predicate RestoreLost(s: State, id: Id, now: Fields, was: Fields, v: nat -> bool) {
    now != was && UndoRefused(CountOf(s.slots, id), s.calls, v)
  }

  /** In terms of the walks: a restoring call of the slots before the failing one is refused. */
  lemma RestoreLostAt(s: State, id: Id, now: Fields, was: Fields, v: nat -> bool)
    requires Shaped(s)
    ensures var w := WriteFrom(Walk(0, s.hw, s.calls), s.slots, id, now, v);
            (RestoreLost(s, id, now, was, v) <==>
             w.stop < SLOTS && now != was && !RestoreAccepted(0, w.stop, s.slots, id, w.calls, v))
  {
    hide WriteFrom, RestoreAccepted;
    var w := WriteFrom(Walk(0, s.hw, s.calls), s.slots, id, now, v);
    RestoreCalls(0, w.stop, s.slots, id, w.calls, v);
    WriteCalls(Walk(0, s.hw, s.calls), s.slots, id, now, v);
    assert s.slots[0..] == s.slots;
    if w.stop < SLOTS {
      UndoRefusedAt(CountOf(s.slots, id), CountOf(s.slots[0..w.stop], id), s.calls, v);
    } else {
      assert s.slots[0..w.stop] == s.slots;
    }
  }

  /** A failed set leaves the NPU as it was if and only if no restoring call is refused. */
  lemma FailedSetRestores(s: State, id: Id, now: Fields, v: nat -> bool)
    requires Shaped(s) && HwExact(s) && id in s.objects
    requires SetInHwSpec(s, id, now, s.objects[id].fields, v).0 != Success
    ensures SetInHwSpec(s, id, now, s.objects[id].fields, v).1.hw == s.hw
       <==> !RestoreLost(s, id, now, s.objects[id].fields, v)
  {
    hide RestoreLost;
    var was := s.objects[id].fields;
    var w := WriteFrom(Walk(0, s.hw, s.calls), s.slots, id, now, v);
    WriteEffect(Walk(0, s.hw, s.calls), s.slots, id, now, v);
    RestoreLostAt(s, id, now, was, v);
    var r := RestoreFrom(Walk(0, w.hw, w.calls), w.stop, s.slots, id, was, v);
    var lost := RestoreEffect(Walk(0, w.hw, w.calls), w.stop, s.slots, id, was, v);
    if RestoreLost(s, id, now, was, v) {
      assert r.hw[lost] == now != s.hw[lost];
    } else {
      forall j | 0 <= j < SLOTS
        ensures r.hw[j] == s.hw[j]
      {
      }
      assert r.hw == s.hw;
    }
  }

  /** When a used object is written, at least one slot answers, so the status the code returns has been assigned. */
  lemma UsedObjectIsWritten(s: State, id: Id)
    requires TablesExact(s) && id in s.objects && s.objects[id].refCount > 0
    ensures exists i :: 0 <= i < SLOTS && s.slots[i] == id
  {
    CountPositive(s.slots, id);
  }

  // ---------------------------------------------------------------------------------------------
  // Every call keeps the tables exact
  // ---------------------------------------------------------------------------------------------

  lemma CreateKeepsTables(s: State, attrs: seq<Attr>, isHashGroup: Oid -> bool)
    requires TablesExact(s)
    ensures TablesExact(CreateSpec(s, attrs, isHashGroup).2)
    ensures HwExact(s) ==> HwExact(CreateSpec(s, attrs, isHashGroup).2)
  {
    var i := FirstFree(s.free);
    if i < MAX_INDEX {
      CountPositive(s.slots, Hash(i));
    }
  }

  /** A create runs out of ids exactly when all 256 are taken, and it never hands out one that is. */
  lemma CreateIds(s: State, attrs: seq<Attr>, isHashGroup: Oid -> bool)
    requires TablesExact(s)
    ensures var (st, id, t) := CreateSpec(s, attrs, isHashGroup);
            && (st == InsufficientResources <==> forall i :: 0 <= i < MAX_INDEX ==> Hash(i) in s.objects)
            && (st == Success ==> id.Hash? && id !in s.objects && id in t.objects && t.objects[id].refCount == 0)
  {
    NoAttrShortage(NO_FIELDS, attrs, isHashGroup);
  }

  lemma {:induction false} NoAttrShortage(f: Fields, attrs: seq<Attr>, isHashGroup: Oid -> bool)
    ensures ApplyAttrs(f, attrs, isHashGroup).0 == Success || ApplyAttrs(f, attrs, isHashGroup).0 == InvalidAttrValue
    ensures ApplyAttrs(f, attrs, isHashGroup).0 == Success <==> forall i :: 0 <= i < |attrs| ==>
      AttrValid(attrs[i], isHashGroup)
    decreases |attrs|
  {
    if attrs != [] && AttrValid(attrs[0], isHashGroup) {
      NoAttrShortage(WithAttr(f, attrs[0]), attrs[1..], isHashGroup);
      assert forall i :: 1 <= i < |attrs| ==> attrs[i] == attrs[1..][i - 1];
    }
  }

  lemma RemoveKeepsTables(s: State, id: Id)
    requires TablesExact(s)
    ensures TablesExact(RemoveSpec(s, id).1)
    ensures HwExact(s) ==> HwExact(RemoveSpec(s, id).1)
    ensures RemoveSpec(s, id).0 == Success <==> id in s.objects && id !in s.slots
  {
    CountPositive(s.slots, id);
  }

  lemma BindKeepsTables(s: State, slot: nat, id: Id, v: nat -> bool)
    requires TablesExact(s) && slot < SLOTS
    ensures TablesExact(BindSpec(s, slot, id, v).1)
    ensures HwExact(s) ==> HwExact(BindSpec(s, slot, id, v).1)
  {
    hide CountOf;
    var t := BindSpec(s, slot, id, v).1;
    BindKeepsKeys(s.objects, s.slots[slot], id);
    if t.slots != s.slots {
      BindKeepsRefs(s, slot, id);
    }
  }

  lemma BindKeepsKeys(objects: map<Id, HashObject>, was: Id, id: Id)
    ensures var r := AddRef(AddRef(objects, was, -1), id, 1);
            && r.Keys == objects.Keys
            && forall x :: x in objects ==>
                 && r[x].fields == objects[x].fields
                 && r[x].refCount == objects[x].refCount - (if x == was then 1 else 0) + (if x == id then 1 else 0)
  {
  }

  lemma BindKeepsRefs(s: State, slot: nat, id: Id)
    requires RefsExact(s) && slot < |s.slots|
    ensures RefsExact(s.(objects := AddRef(AddRef(s.objects, s.slots[slot], -1), id, 1), slots := s.slots[slot := id]))
  {
    hide AddRef, CountOf;
    BindKeepsKeys(s.objects, s.slots[slot], id);
    forall x | x in s.objects
      ensures CountOf(s.slots[slot := id], x)
           == s.objects[x].refCount - (if x == s.slots[slot] then 1 else 0) + (if x == id then 1 else 0)
    {
      CountUpdate(s.slots, slot, id, x);
    }
  }

  lemma SetAttrKeepsTables(s: State, id: Id, a: Attr, isHashGroup: Oid -> bool, v: nat -> bool)
    requires TablesExact(s)
    ensures TablesExact(SetAttrSpec(s, id, a, isHashGroup, v).1)
  {
    hide WriteFrom, RestoreFrom;
  }

  /** The set of an attribute keeps the NPU exact if and only if no restoring call is rejected. */
  lemma SetAttrKeepsHw(s: State, id: Id, a: Attr, isHashGroup: Oid -> bool, v: nat -> bool)
    requires TablesExact(s) && HwExact(s)
    ensures HwExact(SetAttrSpec(s, id, a, isHashGroup, v).1)
       <==> !(id in s.objects && AttrValid(a, isHashGroup) && s.objects[id].refCount > 0
              && RestoreLost(s, id, WithAttr(s.objects[id].fields, a), s.objects[id].fields, v))
  {
    if id in s.objects && AttrValid(a, isHashGroup) {
      var was := s.objects[id].fields;
      var now := WithAttr(was, a);
      CountPositive(s.slots, id);
      if s.objects[id].refCount > 0 {
        SetInHwExact(s, id, now, v);
      }
    }
  }

  lemma SetInHwExact(s: State, id: Id, now: Fields, v: nat -> bool)
    requires TablesExact(s) && HwExact(s) && id in s.objects
    ensures var (st, t) := SetInHwSpec(s, id, now, s.objects[id].fields, v);
            if st == Success then HwExact(t.(objects := t.objects[id := t.objects[id].(fields := now)]))
                                  && !RestoreLost(s, id, now, s.objects[id].fields, v)
            else HwExact(t) <==> !RestoreLost(s, id, now, s.objects[id].fields, v)
  {
    var was := s.objects[id].fields;
    var (st, t) := SetInHwSpec(s, id, now, was, v);
    var w := WriteFrom(Walk(0, s.hw, s.calls), s.slots, id, now, v);
    WriteEffect(Walk(0, s.hw, s.calls), s.slots, id, now, v);
    RestoreLostAt(s, id, now, was, v);
    if st != Success {
      FailedSetRestores(s, id, now, v);
      var lost := RestoreEffect(Walk(0, w.hw, w.calls), w.stop, s.slots, id, was, v);
      if RestoreLost(s, id, now, was, v) {
        assert t.hw[lost] == now && s.slots[lost] in t.objects;
      }
    }
  }

  // ---------------------------------------------------------------------------------------------
  // An input on which the NPU is left changed
  // ---------------------------------------------------------------------------------------------

  const TWO_SLOTS := State(
    map[Hash(0) := HashObject(NO_FIELDS, 2)],
    [Hash(0), Hash(0), Null, Null, Null, Null, Null, Null],
    seq(SLOTS, _ => NO_FIELDS),
    seq(MAX_INDEX, i => i != 0),
    0)

  /**
   An object on slots 0 and 1: slot 0 takes the new fields, slot 1 refuses them, and slot 0 then refuses the
   old ones.
   */
  lemma RefusedRestoreLeavesFields(isHashGroup: Oid -> bool, v: nat -> bool)
    requires v(0) && !v(1) && !v(2)
    ensures TablesExact(TWO_SLOTS) && HwExact(TWO_SLOTS)
    ensures var (st, t) := SetAttrSpec(TWO_SLOTS, Hash(0), NativeList([1]), isHashGroup, v);
            st == NpuError && t.objects == TWO_SLOTS.objects && !HwExact(t)
  {
    hide CountOf, SetAttrSpec, TablesExact, HwExact;
    TwoSlotsExact();
    assert RefusedAfter(1, 0, v) && RefusedAmong(1, 2, v);
    SetAttrKeepsHw(TWO_SLOTS, Hash(0), NativeList([1]), isHashGroup, v);
    RefusedSetFails(TWO_SLOTS, Hash(0), NativeList([1]), isHashGroup, v);
  }

  lemma TwoSlotsExact()
    ensures TablesExact(TWO_SLOTS) && HwExact(TWO_SLOTS) && CountOf(TWO_SLOTS.slots, Hash(0)) == 2
  {
    CountTwo(TWO_SLOTS.slots);
  }

  lemma RefusedSetFails(s: State, id: Id, a: Attr, isHashGroup: Oid -> bool, v: nat -> bool)
    requires TablesExact(s) && id in s.objects && AttrValid(a, isHashGroup)
    requires RefusedAmong(CountOf(s.slots, id), s.calls, v) && s.objects[id].refCount > 0
    ensures SetAttrSpec(s, id, a, isHashGroup, v).0 == NpuError
    ensures SetAttrSpec(s, id, a, isHashGroup, v).1.objects == s.objects
  {
    hide WriteFrom, RestoreFrom, CountOf;
    WriteCalls(Walk(0, s.hw, s.calls), s.slots, id, WithAttr(s.objects[id].fields, a), v);
    assert s.slots[0..SLOTS] == s.slots;
  }

  lemma CountTwo(slots: seq<Id>)
    requires |slots| == SLOTS && forall i :: 0 <= i < SLOTS ==> slots[i] == if i < 2 then Hash(0) else Null
    ensures forall id: Id :: id.Hash? ==> CountOf(slots, id) == if id == Hash(0) then 2 else 0
  {
    forall id: Id | id.Hash?
      ensures CountOf(slots, id) == if id == Hash(0) then 2 else 0
    {
      CountPositive(slots[2..], id);
      assert slots[1..][1..] == slots[2..];
    }
  }
}
