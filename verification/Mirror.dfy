/** The mirror session tables and the calls that change them. */
module Mirror {
  import opened Common
  import opened MirrorSpec

  class MirrorTables {
    const verdict: nat -> bool
    const isValidPort: Oid -> bool
    var sessions: map<Id, set<Source>>
    var ports: map<Oid, seq<Key>>
    var calls: nat

    constructor (verdict: nat -> bool, isValidPort: Oid -> bool)
      ensures Tables() == State(map[], map[], 0) && Consistent(Tables())
      ensures this.verdict == verdict && this.isValidPort == isValidPort
    {
      this.verdict := verdict;
      this.isValidPort := isValidPort;
      sessions, ports, calls := map[], map[], 0;
    }

    ghost function Tables(): State
      reads this
    {
      State(sessions, ports, calls)
    }

    method AskNpu() returns (ok: bool)
      modifies this`calls
      ensures ok == verdict(old(calls)) && calls == old(calls) + 1
    {
      ok := verdict(calls);
      calls := calls + 1;
    }

    /** `newId` is the id the NPU hands out. */
    method CreateSession(newId: Id) returns (status: Status)
      modifies this
      ensures (status, Tables()) == CreateSpec(old(Tables()), newId, verdict)
    {
      var ok := AskNpu();
      if !ok {
        return NpuError;
      }
      sessions := sessions[newId := {}];
      return Success;
    }

    method RemoveSession(id: Id) returns (status: Status)
      modifies this
      ensures (status, Tables()) == RemoveSpec(old(Tables()), id, verdict)
    {
      if !id.Session? {
        return InvalidObjectType;
      }
      if id !in sessions {
        return InvalidObjectId;
      }
      if sessions[id] != {} {
        return ObjectInUse;
      }
      var ok := AskNpu();
      if !ok {
        return NpuError;
      }
      sessions := sessions - {id};
      return Success;
    }

    method SessionPortAdd(id: Id, port: Oid, dir: Direction) returns (status: Status)
      modifies this`sessions, this`calls
      ensures (status, Tables()) == PortAddSpec(old(Tables()), id, port, dir, isValidPort, verdict)
    {
      if !id.Session? {
        return InvalidObjectType;
      }
      if !isValidPort(port) {
        return InvalidObjectId;
      }
      if id !in sessions {
        return InvalidObjectId;
      }
      if Source(port, dir) in sessions[id] {
        return ItemAlreadyExists;
      }
      var ok := AskNpu();
      if !ok {
        return NpuError;
      }
      sessions := sessions[id := sessions[id] + {Source(port, dir)}];
      return Success;
    }

    method SessionPortRemove(id: Id, port: Oid, dir: Direction) returns (status: Status)
      modifies this`sessions, this`calls
      ensures (status, Tables()) == PortRemoveSpec(old(Tables()), id, port, dir, isValidPort, verdict)
    {
      if !id.Session? {
        return InvalidObjectType;
      }
      if !isValidPort(port) {
        return InvalidObjectId;
      }
      if id !in sessions {
        return InvalidObjectId;
      }
      if Source(port, dir) !in sessions[id] {
        return ItemNotFound;
      }
      var ok := AskNpu();
      if !ok {
        return NpuError;
      }
      sessions := sessions[id := sessions[id] - {Source(port, dir)}];
      return Success;
    }

    /**
     Walks the port's tree, which it changes on the way, from each key to the next larger one. What is
     still ahead in the changed tree is what was ahead in the tree at the start.
     */
    method DropUnwanted(port: Oid, ids: seq<Id>, dir: Direction) returns (status: Status)
      requires port in ports && Sorted(ports[port])
      modifies this
      ensures var (st, t) := DropAll(old(Tables()), port, old(ports[port]), ids, dir, isValidPort, verdict);
              status == st && Tables() == Freed(t, port)
    {
      hide Sorted, PortRemoveSpec, Without, Next;
      status := Success;
      ghost var todo := ports[port];
      var node := if ports[port] == [] then None else Some(ports[port][0]);
      while node.Some?
        invariant port in ports && status == Success && Sorted(ports[port])
        invariant |todo| <= |ports[port]| && ports[port][|ports[port]| - |todo|..] == todo
        invariant node == if todo == [] then None else Some(todo[0])
        invariant DropAll(old(Tables()), port, old(ports[port]), ids, dir, isValidPort, verdict)
               == DropAll(Tables(), port, todo, ids, dir, isValidPort, verdict)
        decreases |todo|
      {
        var key := node.value;
        ghost var n := |ports[port]| - |todo|;
        StepAhead(ports[port], n, key);
        var unwanted := key.dir == dir;
        var i := 0;
        while unwanted && i < |ids|
          invariant i <= |ids|
          invariant unwanted <==> key.dir == dir && key.id !in ids[..i]
          invariant !unwanted ==> !Unwanted(key, ids, dir)
        {
          unwanted := key.id != ids[i];
          i := i + 1;
        }
        assert ids[..|ids|] == ids;
        if unwanted {
          status := SessionPortRemove(key.id, port, key.dir);
          if status != Success {
            break;
          }
          ports := ports[port := Without(ports[port], key)];
        }
        node := Next(ports[port], key);
        todo := todo[1..];
      }
      if ports[port] == [] {
        ports := ports - {port};
      }
    }

    /** Sets the sessions that `port` mirrors to in direction `dir`: adds the missing ones, then drops the others. */
    method HandlePort(port: Oid, ids: seq<Id>, dir: Direction) returns (status: Status)
      requires forall p :: p in ports ==> Sorted(ports[p])
      modifies this
      ensures (status, Tables()) == HandleSpec(old(Tables()), port, ids, dir, isValidPort, verdict)
    {
      hide Sorted, PortAddSpec, Insert, DropAll;
      if port !in ports {
        EmptySorted();
        ports := ports[port := []];
      }
      label Allocated:
      status := Success;
      var i := 0;
      while i < |ids|
        invariant i <= |ids| && status == Success && port in ports && Sorted(ports[port])
        invariant AddAll(old@Allocated(Tables()), port, ids, dir, isValidPort, verdict)
               == AddAll(Tables(), port, ids[i..], dir, isValidPort, verdict)
      {
        assert ids[i..][1..] == ids[i + 1..];
        var key := Key(ids[i], dir);
        if key !in ports[port] {
          status := SessionPortAdd(ids[i], port, dir);
          if status != Success {
            return;
          }
          InsertSorted(ports[port], key);
          ports := ports[port := Insert(ports[port], key)];
        }
        i := i + 1;
      }
      status := DropUnwanted(port, ids, dir);
    }
  }

  // ---------------------------------------------------------------------------------------------
  // Walking a tree that shrinks
  // ---------------------------------------------------------------------------------------------

  lemma {:induction false} NextSplit(a: seq<Key>, b: seq<Key>, k: Key)
    requires forall x :: x in a ==> Rank(x) <= Rank(k)
    requires b != [] ==> Rank(b[0]) > Rank(k)
    ensures Next(a + b, k) == if b == [] then None else Some(b[0])
  {
    if a == [] {
      assert a + b == b;
    } else {
      assert (a + b)[1..] == a[1..] + b;
      NextSplit(a[1..], b, k);
    }
  }

  lemma {:induction false} WithoutAt(t: seq<Key>, n: nat)
    requires n < |t| && t[n] !in t[..n]
    ensures Without(t, t[n]) == t[..n] + t[n + 1..]
  {
    if n > 0 {
      assert t[..n][0] == t[0];
      assert t[1..][..n - 1] == t[..n][1..];
      WithoutAt(t[1..], n - 1);
    }
  }

  /** From position `n` the walk goes to position `n + 1`, whether or not the node at `n` is removed first. */
  lemma StepAhead(t: seq<Key>, n: nat, k: Key)
    requires Sorted(t) && n < |t| && t[n] == k
    ensures Next(t, k) == if n + 1 == |t| then None else Some(t[n + 1])
    ensures var r := Without(t, k);
            && Sorted(r) && |r| == |t| - 1 && r[n..] == t[n + 1..]
            && Next(r, k) == if n + 1 == |t| then None else Some(t[n + 1])
  {
    hide Without, Next;
    var a, b := t[..n], t[n + 1..];
    assert forall x :: x in a ==> Rank(x) < Rank(k);
    WithoutAt(t, n);
    SortedWithout(t, k);
    NextSplit(a, b, k);
    NextSplit(a + [k], b, k);
    assert t == (a + [k]) + b;
  }
}
