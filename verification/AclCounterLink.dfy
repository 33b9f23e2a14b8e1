/** Linking one counter to an ACL rule: attach, detach and the switch from one counter to another. */
module AclCounterLink {
  import opened Common

  /** `shared` is the number of rules attached in the NPU. */
  datatype Counter = Counter(tableId: Oid, shared: int)

  /** A rule's counter id (0 for none), the counters and the NPU calls made. */
  datatype Link = Link(status: Status, counterId: Oid, counters: map<Oid, Counter>, calls: nat)

  /** The NPU shares a counter by counting; the counter must exist. */
  function Attach(l: Link, id: Oid, v: nat -> bool): Link {
    if id !in l.counters then l.(status := InvalidObjectId)
    else if !v(l.calls) then l.(status := NpuError, calls := l.calls + 1)
    else
      var c := l.counters[id];
      l.(status := Success, counters := l.counters[id := c.(shared := c.shared + 1)], calls := l.calls + 1)
  }

  /** Detaching also insists that rule and counter belong to the same table. */
  function Detach(l: Link, tableId: Oid, id: Oid, v: nat -> bool): Link {
    if id !in l.counters then l.(status := InvalidObjectId)
    else if l.counters[id].tableId != tableId then l.(status := Failure)
    else if !v(l.calls) then l.(status := NpuError, calls := l.calls + 1)
    else
      var c := l.counters[id];
      l.(status := Success, counters := l.counters[id := c.(shared := c.shared - 1)], calls := l.calls + 1)
  }

  /**
   A rule in table `tableId` takes over counter action (`enable`, `id`). The id is stored before the
   new counter is attached.
   */
  function UpdateCounter(l: Link, tableId: Oid, id: Oid, enable: bool, v: nat -> bool): Link {
    if !enable then
      if l.counterId == NULL_ID then l.(status := Success)
      else
        var d := Detach(l, tableId, l.counterId, v);
        if d.status == Success then d.(counterId := NULL_ID) else d
    else if l.counterId != NULL_ID then
      if id == l.counterId then l.(status := Success)
      else
        var d := Detach(l, tableId, l.counterId, v);
        if d.status == Success then Attach(d.(counterId := id), id, v) else d
    else Attach(l.(counterId := id), id, v)
  }

  // ---------------------------------------------------------------------------------------------
  // When relinking succeeds, in terms of the tables and the NPU's answers
  // ---------------------------------------------------------------------------------------------

  /** The rule's counter is there, in the rule's table, and the NPU accepts its detaching as the next call. */
  predicate Detaches(l: Link, tableId: Oid, v: nat -> bool) {
    l.counterId in l.counters && l.counters[l.counterId].tableId == tableId && v(l.calls)
  }

  /** The counter `id` is there and the NPU accepts its attaching as call `n`. */
  predicate Attaches(l: Link, id: Oid, n: nat, v: nat -> bool) {
    id in l.counters && v(n)
  }

  /** Nothing has to be linked, or what has to be detached and attached can be. */
  predicate Relinks(l: Link, tableId: Oid, id: Oid, enable: bool, v: nat -> bool) {
    if !enable then l.counterId == NULL_ID || Detaches(l, tableId, v)
    else if l.counterId == NULL_ID then Attaches(l, id, l.calls, v)
    else l.counterId == id || (Detaches(l, tableId, v) && Attaches(l, id, l.calls + 1, v))
  }

  /** The new counter is stored in the rule but cannot be attached. */
  predicate AttachFails(l: Link, tableId: Oid, id: Oid, v: nat -> bool) {
    && l.counterId != id
    && if l.counterId == NULL_ID then !Attaches(l, id, l.calls, v)
       else Detaches(l, tableId, v) && !Attaches(l, id, l.calls + 1, v)
  }

  lemma RelinksExact(l: Link, tableId: Oid, id: Oid, enable: bool, v: nat -> bool)
    ensures UpdateCounter(l, tableId, id, enable, v).status == Success <==> Relinks(l, tableId, id, enable, v)
  {
  }

  lemma DetachKeepsId(l: Link, tableId: Oid, id: Oid, v: nat -> bool)
    ensures Detach(l, tableId, id, v).counterId == l.counterId
  {
  }

  /** Linking moves no counter: the counters and their tables stay the same. */
  ghost predicate SameCounterTables(was: map<Oid, Counter>, now: map<Oid, Counter>) {
    && now.Keys == was.Keys
    && forall c :: c in was ==> now[c].tableId == was[c].tableId
  }

  lemma AttachMovesNoCounter(l: Link, id: Oid, v: nat -> bool)
    ensures SameCounterTables(l.counters, Attach(l, id, v).counters)
  {
  }

  lemma DetachMovesNoCounter(l: Link, tableId: Oid, id: Oid, v: nat -> bool)
    ensures SameCounterTables(l.counters, Detach(l, tableId, id, v).counters)
  {
  }

  lemma RelinkingMovesNoCounter(l: Link, tableId: Oid, id: Oid, enable: bool, v: nat -> bool)
    ensures SameCounterTables(l.counters, UpdateCounter(l, tableId, id, enable, v).counters)
  {
    hide Attach, Detach;
    var d := Detach(l, tableId, l.counterId, v);
    DetachMovesNoCounter(l, tableId, l.counterId, v);
    AttachMovesNoCounter(d.(counterId := id), id, v);
    AttachMovesNoCounter(l.(counterId := id), id, v);
  }

  /**
   A rule's counter that is in the rule's own table is never refused on account of its table, and
   neither is a new one that is there: only the NPU can make relinking fail.
   */
  lemma RelinkFailsAtNpuOnly(l: Link, tableId: Oid, id: Oid, enable: bool, v: nat -> bool)
    requires l.status == Success && (enable ==> id in l.counters)
    requires l.counterId != NULL_ID ==> l.counterId in l.counters && l.counters[l.counterId].tableId == tableId
    ensures var st := UpdateCounter(l, tableId, id, enable, v).status; st == Success || st == NpuError
  {
  }
}
