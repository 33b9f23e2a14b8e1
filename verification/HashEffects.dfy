/**
 What each hash object call leaves behind, and exactly when it succeeds, in terms of the request and the
 tables before it.
 */
module HashEffects {
  import opened Common
  import opened HashSpec

  // ---------------------------------------------------------------------------------------------
  // Binding a slot
  // ---------------------------------------------------------------------------------------------

  /**
   A bind succeeds exactly when it names an existing object, or none, and the NPU accepts it. The slot then
   has the object, the NPU uses the object's fields for it, and no other slot and no field changed.
   */
  lemma BindEffect(s: State, slot: nat, id: Id, v: nat -> bool)
    requires TablesExact(s) && |s.hw| == SLOTS && slot < SLOTS
    ensures var (st, t) := BindSpec(s, slot, id, v);
            && (st == Success <==> (id == Null || id in s.objects) && v(s.calls))
            && (id.OtherType? ==> st == InvalidObjectType)
            && (id.Hash? && id !in s.objects ==> st == InvalidObjectId)
            && (st != Success ==> t == s.(calls := t.calls))
            && (st == Success ==>
                  && |t.slots| == |t.hw| == SLOTS && t.slots[slot] == id
                  && t.hw[slot] == (if id in s.objects then s.objects[id].fields else Fields([], []))
                  && (forall i :: 0 <= i < SLOTS && i != slot ==> t.slots[i] == s.slots[i] && t.hw[i] == s.hw[i])
                  && t.objects.Keys == s.objects.Keys
                  && (forall x :: x in s.objects ==> t.objects[x].fields == s.objects[x].fields)
                  && t.free == s.free)
  {
    hide CountOf;
    BindKeepsKeys(s.objects, s.slots[slot], id);
  }

  /**
   The reference counts move with the slot: the object that had it loses one, the object that has it now
   gains one.
   */
  lemma BindCounts(s: State, slot: nat, id: Id, v: nat -> bool, x: Id)
    requires TablesExact(s) && slot < SLOTS && x in s.objects && BindSpec(s, slot, id, v).0 == Success
    ensures var t := BindSpec(s, slot, id, v).1;
            x in t.objects && t.objects[x].refCount
              == s.objects[x].refCount - (if s.slots[slot] == x then 1 else 0) + (if id == x then 1 else 0)
  {
    hide CountOf;
    BindKeepsKeys(s.objects, s.slots[slot], id);
  }

  // ---------------------------------------------------------------------------------------------
  // Creating and removing an object
  // ---------------------------------------------------------------------------------------------

  /** No later attribute is of the kind of attribute `i`. */
  ghost predicate LastOfKind(attrs: seq<Attr>, i: int) {
    && 0 <= i < |attrs|
    && forall j :: i < j < |attrs| ==> attrs[j].NativeList? != attrs[i].NativeList?
  }

  ghost predicate GroupsValid(a: Attr, isHashGroup: Oid -> bool) {
    a.UdfList? ==> forall i :: 0 <= i < |a.udf| ==> isHashGroup(a.udf[i])
  }

  ghost predicate NoneOfKind(attrs: seq<Attr>, native: bool) {
    forall i :: 0 <= i < |attrs| ==> attrs[i].NativeList? != native
  }

  /** The list that `f` has for the attribute id of `a` is the one of `a`. */
  predicate Holds(f: Fields, a: Attr) {
    match a
    case NativeList(l) => f.native == l
    case UdfList(l) => f.udf == l
  }

  lemma {:induction false} FieldsKept(f: Fields, attrs: seq<Attr>, isHashGroup: Oid -> bool)
    ensures NoneOfKind(attrs, true) ==> ApplyAttrs(f, attrs, isHashGroup).1.native == f.native
    ensures NoneOfKind(attrs, false) ==> ApplyAttrs(f, attrs, isHashGroup).1.udf == f.udf
    decreases |attrs|
  {
    if attrs != [] {
      var rest := attrs[1..];
      FieldsKept(WithAttr(f, attrs[0]), rest, isHashGroup);
      forall native: bool | NoneOfKind(attrs, native)
        ensures NoneOfKind(rest, native)
      {
        assert forall j :: 0 <= j < |rest| ==> rest[j] == attrs[j + 1];
      }
    }
  }

  /** Of several lists of one kind the last one is kept. */
  lemma {:induction false} FieldGiven(f: Fields, attrs: seq<Attr>, i: nat, isHashGroup: Oid -> bool)
    requires LastOfKind(attrs, i) && ApplyAttrs(f, attrs, isHashGroup).0 == Success
    ensures Holds(ApplyAttrs(f, attrs, isHashGroup).1, attrs[i])
    decreases |attrs|
  {
    var rest := attrs[1..];
    assert forall j :: 0 <= j < |rest| ==> rest[j] == attrs[j + 1];
    if i > 0 {
      FieldGiven(WithAttr(f, attrs[0]), rest, i - 1, isHashGroup);
    } else {
      FieldsKept(WithAttr(f, attrs[0]), rest, isHashGroup);
      assert NoneOfKind(rest, attrs[0].NativeList?);
    }
  }

  /**
   A create succeeds exactly when an id is free and every UDF group is one, whatever the NPU says; the new
   object has the lists given last, no slot is bound to it, and nothing else changed.
   */
  lemma CreateEffect(s: State, attrs: seq<Attr>, isHashGroup: Oid -> bool)
    requires TablesExact(s)
    ensures var (st, id, t) := CreateSpec(s, attrs, isHashGroup);
            && (st == Success <==>
                  && (exists i :: 0 <= i < MAX_INDEX && Hash(i) !in s.objects)
                  && (forall i :: 0 <= i < |attrs| ==> GroupsValid(attrs[i], isHashGroup)))
            && (st != Success ==> t == s)
            && (st == Success ==>
                  && id !in s.objects && t.objects == s.objects[id := t.objects[id]]
                  && t.objects[id].refCount == 0 && t.slots == s.slots && t.hw == s.hw && t.calls == s.calls
                  && (forall i :: LastOfKind(attrs, i) ==> Holds(t.objects[id].fields, attrs[i]))
                  && (NoneOfKind(attrs, true) ==> t.objects[id].fields.native == [])
                  && (NoneOfKind(attrs, false) ==> t.objects[id].fields.udf == []))
  {
    hide ApplyAttrs, RefsExact, SlotsBound;
    NoAttrShortage(NO_FIELDS, attrs, isHashGroup);
    CreateIds(s, attrs, isHashGroup);
    FieldsKept(NO_FIELDS, attrs, isHashGroup);
    if ApplyAttrs(NO_FIELDS, attrs, isHashGroup).0 == Success {
      forall i | LastOfKind(attrs, i)
        ensures Holds(ApplyAttrs(NO_FIELDS, attrs, isHashGroup).1, attrs[i])
      {
        FieldGiven(NO_FIELDS, attrs, i, isHashGroup);
      }
    }
    assert forall a: Attr :: AttrValid(a, isHashGroup) <==> GroupsValid(a, isHashGroup);
  }

  /** A removed object is gone, its id free again, and nothing else changed. */
  lemma RemoveEffect(s: State, id: Id)
    requires TablesExact(s)
    ensures var (st, t) := RemoveSpec(s, id);
            if st == Success then
              && id.Hash? && id.index < MAX_INDEX && t.objects == s.objects - {id} && t.free == s.free[id.index := true]
              && t.slots == s.slots && t.hw == s.hw && t.calls == s.calls
            else
              && t == s && (id in s.objects ==> st == ObjectInUse)
              && (id.Hash? && id !in s.objects ==> st == InvalidObjectId)
  {
    hide CountOf;
  }

  // ---------------------------------------------------------------------------------------------
  // Setting an attribute
  // ---------------------------------------------------------------------------------------------

  /**
   A set succeeds exactly when the object exists, every UDF group is one, and the NPU accepts one call for
   each slot bound to the object; the one list is then the one given, in the table and in each bound slot.
   */
  lemma SetAttrEffect(s: State, id: Id, a: Attr, isHashGroup: Oid -> bool, v: nat -> bool)
    requires TablesExact(s) && HwExact(s)
    ensures var (st, t) := SetAttrSpec(s, id, a, isHashGroup, v);
            && (st == Success <==>
                  && id in s.objects && GroupsValid(a, isHashGroup)
                  && forall k :: s.calls <= k < s.calls + s.objects[id].refCount ==> v(k))
            && (st != Success ==> t.objects == s.objects)
            && (st == Success ==>
                  && t.objects == s.objects[id := t.objects[id]] && t.objects[id].refCount == s.objects[id].refCount
                  && t.objects[id].fields == (match a
                                              case NativeList(l) => Fields(l, s.objects[id].fields.udf)
                                              case UdfList(l) => Fields(s.objects[id].fields.native, l))
                  && |t.hw| == SLOTS
                  && forall i :: 0 <= i < SLOTS ==>
                       t.hw[i] == if s.slots[i] == id then t.objects[id].fields else s.hw[i])
            && t.slots == s.slots && t.free == s.free
  {
    hide WriteFrom, RestoreFrom, CountOf;
    if id in s.objects && AttrValid(a, isHashGroup) {
      var now := WithAttr(s.objects[id].fields, a);
      var start := Walk(0, s.hw, s.calls);
      CountPositive(s.slots, id);
      assert s.slots[0..] == s.slots && s.slots[0..SLOTS] == s.slots;
      if s.objects[id].refCount > 0 {
        WriteCalls(start, s.slots, id, now, v);
        WriteEffect(start, s.slots, id, now, v);
      }
    }
  }
}
