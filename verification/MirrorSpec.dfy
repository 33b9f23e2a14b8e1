/**
 Mirror sessions: each port keeps a sorted tree of the sessions it mirrors to, each session a tree of
 its source ports. What each call computes, and why the two stay inverse to each other.
 */
module MirrorSpec {
  import opened Common

  datatype Id = Session(n: nat) | OtherType(n: nat)

  datatype Direction = Ingress | Egress

  /** A node of a port's tree. */
  datatype Key = Key(id: Id, dir: Direction)

  /** A node of a session's source port tree. */
  datatype Source = Source(port: Oid, dir: Direction)

  /** A port has an entry in `ports` while its tree is allocated; a tree is listed in the order of its keys. */
  datatype State = State(sessions: map<Id, set<Source>>, ports: map<Oid, seq<Key>>, calls: nat)

  // ---------------------------------------------------------------------------------------------
  // Trees
  // ---------------------------------------------------------------------------------------------

  /** The order of the keys in a tree. */
  function Rank(k: Key): nat {
    4 * k.id.n + (if k.id.Session? then 0 else 2) + (if k.dir == Ingress then 0 else 1)
  }

  lemma RankInjective(a: Key, b: Key)
    ensures Rank(a) == Rank(b) <==> a == b
  {
    assert Rank(a) == Rank(b) ==> a.id.n == b.id.n;
  }

  ghost predicate Sorted(t: seq<Key>) {
    forall i, j :: 0 <= i < j < |t| ==> Rank(t[i]) < Rank(t[j])
  }

  function Insert(t: seq<Key>, k: Key): (r: seq<Key>)
    ensures forall x :: x in r <==> x in t || x == k
  {
    if t == [] then [k]
    else if Rank(k) < Rank(t[0]) then [k] + t
    else
      var rest := Insert(t[1..], k);
      assert forall x :: x in t <==> x == t[0] || x in t[1..];
      [t[0]] + rest
  }

  lemma SortedCons(k: Key, t: seq<Key>)
    ensures Sorted([k] + t) <==> Sorted(t) && forall x :: x in t ==> Rank(k) < Rank(x)
  {
    var r := [k] + t;
    if Sorted(r) {
      forall i, j | 0 <= i < j < |t|
        ensures Rank(t[i]) < Rank(t[j])
      {
        assert r[i + 1] == t[i] && r[j + 1] == t[j];
      }
      forall x | x in t
        ensures Rank(k) < Rank(x)
      {
        var i :| 0 <= i < |t| && t[i] == x;
        assert r[0] == k && r[i + 1] == x;
      }
    }
  }

  lemma {:induction false} InsertSorted(t: seq<Key>, k: Key)
    requires Sorted(t) && k !in t
    ensures Sorted(Insert(t, k))
  {
    hide Sorted;
    if t == [] {
      SortedCons(k, []);
      assert Sorted([]) by {
        EmptySorted();
      }
      assert [k] + [] == [k];
    } else {
      assert t == [t[0]] + t[1..];
      SortedCons(t[0], t[1..]);
      RankInjective(k, t[0]);
      if Rank(k) < Rank(t[0]) {
        SortedCons(k, t);
      } else {
        InsertSorted(t[1..], k);
        SortedCons(t[0], Insert(t[1..], k));
      }
    }
  }

  lemma EmptySorted()
    ensures Sorted([])
  {
  }

  lemma {:induction false} SortedWithout(t: seq<Key>, k: Key)
    requires Sorted(t)
    ensures Sorted(Without(t, k))
    ensures forall x :: x in Without(t, k) <==> x in t && x != k
  {
    hide Sorted, Distinct;
    if t != [] {
      assert t == [t[0]] + t[1..];
      SortedCons(t[0], t[1..]);
      if t[0] != k {
        SortedWithout(t[1..], k);
        SortedCons(t[0], Without(t[1..], k));
      }
    }
  }

  /** The node after `k` in the order, whether or not `k` itself is still in the tree. */
  function Next(t: seq<Key>, k: Key): Option<Key> {
    if t == [] then None else if Rank(t[0]) > Rank(k) then Some(t[0]) else Next(t[1..], k)
  }

  // ---------------------------------------------------------------------------------------------
  // Sessions
  // ---------------------------------------------------------------------------------------------

  /** The NPU hands out the session id `id`. */
  function CreateSpec(s: State, id: Id, v: nat -> bool): (Status, State) {
    if !v(s.calls) then (NpuError, s.(calls := s.calls + 1))
    else (Success, s.(sessions := s.sessions[id := {}], calls := s.calls + 1))
  }

  function RemoveSpec(s: State, id: Id, v: nat -> bool): (Status, State) {
    if !id.Session? then (InvalidObjectType, s)
    else if id !in s.sessions then (InvalidObjectId, s)
    else if s.sessions[id] != {} then (ObjectInUse, s)
    else if !v(s.calls) then (NpuError, s.(calls := s.calls + 1))
    else (Success, s.(sessions := s.sessions - {id}, calls := s.calls + 1))
  }

  function PortAddSpec(s: State, id: Id, port: Oid, dir: Direction, valid: Oid -> bool,
                       v: nat -> bool): (Status, State) {
    if !id.Session? then (InvalidObjectType, s)
    else if !valid(port) then (InvalidObjectId, s)
    else if id !in s.sessions then (InvalidObjectId, s)
    else if Source(port, dir) in s.sessions[id] then (ItemAlreadyExists, s)
    else if !v(s.calls) then (NpuError, s.(calls := s.calls + 1))
    else (Success, s.(sessions := s.sessions[id := s.sessions[id] + {Source(port, dir)}], calls := s.calls + 1))
  }

  function PortRemoveSpec(s: State, id: Id, port: Oid, dir: Direction, valid: Oid -> bool,
                          v: nat -> bool): (Status, State) {
    if !id.Session? then (InvalidObjectType, s)
    else if !valid(port) then (InvalidObjectId, s)
    else if id !in s.sessions then (InvalidObjectId, s)
    else if Source(port, dir) !in s.sessions[id] then (ItemNotFound, s)
    else if !v(s.calls) then (NpuError, s.(calls := s.calls + 1))
    else (Success, s.(sessions := s.sessions[id := s.sessions[id] - {Source(port, dir)}], calls := s.calls + 1))
  }

  // ---------------------------------------------------------------------------------------------
  // Setting a port's sessions in one direction
  // ---------------------------------------------------------------------------------------------

  function AddOne(s: State, port: Oid, id: Id, dir: Direction, valid: Oid -> bool, v: nat -> bool): (Status, State)
    requires port in s.ports
  {
    if Key(id, dir) in s.ports[port] then (Success, s)
    else
      var (st, t) := PortAddSpec(s, id, port, dir, valid, v);
      if st != Success then (st, t) else (Success, t.(ports := t.ports[port := Insert(t.ports[port], Key(id, dir))]))
  }

  function AddAll(s: State, port: Oid, ids: seq<Id>, dir: Direction, valid: Oid -> bool,
                  v: nat -> bool): (r: (Status, State))
    requires port in s.ports
    ensures port in r.1.ports
    decreases |ids|
  {
    if ids == [] then (Success, s)
    else
      var (st, t) := AddOne(s, port, ids[0], dir, valid, v);
      if st != Success then (st, t) else AddAll(t, port, ids[1..], dir, valid, v)
  }

  predicate Unwanted(k: Key, ids: seq<Id>, dir: Direction) {
    k.dir == dir && k.id !in ids
  }

  function DropOne(s: State, port: Oid, k: Key, valid: Oid -> bool, v: nat -> bool): (Status, State)
    requires port in s.ports
  {
    var (st, t) := PortRemoveSpec(s, k.id, port, k.dir, valid, v);
    if st != Success then (st, t) else (Success, t.(ports := t.ports[port := Without(t.ports[port], k)]))
  }

  /** Drops the unwanted nodes among `todo`, in that order, until one cannot be dropped. */
  function DropAll(s: State, port: Oid, todo: seq<Key>, ids: seq<Id>, dir: Direction, valid: Oid -> bool,
                   v: nat -> bool): (r: (Status, State))
    requires port in s.ports
    ensures port in r.1.ports
    decreases |todo|
  {
    if todo == [] then (Success, s)
    else if !Unwanted(todo[0], ids, dir) then DropAll(s, port, todo[1..], ids, dir, valid, v)
    else
      var (st, t) := DropOne(s, port, todo[0], valid, v);
      if st != Success then (st, t) else DropAll(t, port, todo[1..], ids, dir, valid, v)
  }

  /** An empty tree is freed. */
  function Freed(s: State, port: Oid): State {
    if port in s.ports && s.ports[port] == [] then s.(ports := s.ports - {port}) else s
  }

  function HandleSpec(s: State, port: Oid, ids: seq<Id>, dir: Direction, valid: Oid -> bool,
                      v: nat -> bool): (Status, State) {
    var s1 := if port in s.ports then s else s.(ports := s.ports[port := []]);
    var (st, s2) := AddAll(s1, port, ids, dir, valid, v);
    if st != Success then (st, s2)
    else
      var (st, s3) := DropAll(s2, port, s2.ports[port], ids, dir, valid, v);
      (st, Freed(s3, port))
  }

  // ---------------------------------------------------------------------------------------------
  // The invariant
  // ---------------------------------------------------------------------------------------------

  ghost predicate Mirrors(s: State, port: Oid, id: Id, dir: Direction) {
    port in s.ports && Key(id, dir) in s.ports[port]
  }

  ghost predicate HasSource(s: State, port: Oid, id: Id, dir: Direction) {
    id in s.sessions && Source(port, dir) in s.sessions[id]
  }

  /** A port mirrors to a session exactly when the session has it as a source. */
  ghost predicate Inverse(s: State) {
    forall port: Oid, id: Id, dir: Direction :: Mirrors(s, port, id, dir) <==> HasSource(s, port, id, dir)
  }

  ghost predicate Consistent(s: State) {
    && Inverse(s)
    && (forall port :: port in s.ports ==> Sorted(s.ports[port]))
    && (forall id :: id in s.sessions ==> id.Session?)
  }

  // ---------------------------------------------------------------------------------------------
  // One node added or dropped
  // ---------------------------------------------------------------------------------------------

  /** Apart from (port, id, dir), both indexes are as they were. */
  ghost predicate OnlyTouches(s: State, t: State, port: Oid, id: Id, dir: Direction) {
    && (forall p: Oid, i: Id, d: Direction :: (p, i, d) != (port, id, dir) ==>
        (Mirrors(t, p, i, d) <==> Mirrors(s, p, i, d)))
    && (forall p: Oid, i: Id, d: Direction :: (p, i, d) != (port, id, dir) ==>
        (HasSource(t, p, i, d) <==> HasSource(s, p, i, d)))
    && s.sessions.Keys == t.sessions.Keys && s.ports.Keys == t.ports.Keys
  }

  lemma AddOneEffect(s: State, port: Oid, id: Id, dir: Direction, valid: Oid -> bool, v: nat -> bool)
    requires Consistent(s) && port in s.ports
    ensures var (st, t) := AddOne(s, port, id, dir, valid, v);
            && Consistent(t) && OnlyTouches(s, t, port, id, dir)
            && (Mirrors(t, port, id, dir) <==> Mirrors(s, port, id, dir) || st == Success)
            && st != ItemAlreadyExists
  {
    hide Insert, Sorted;
    if Key(id, dir) !in s.ports[port] {
      InsertSorted(s.ports[port], Key(id, dir));
    }
    var (st, t) := AddOne(s, port, id, dir, valid, v);
    assert Mirrors(s, port, id, dir) <==> HasSource(s, port, id, dir);
    assert OnlyTouches(s, t, port, id, dir);
    assert Mirrors(t, port, id, dir) <==> HasSource(t, port, id, dir);
  }

  lemma DropOneStatus(s: State, port: Oid, k: Key, valid: Oid -> bool, v: nat -> bool)
    requires Consistent(s) && port in s.ports && k in s.ports[port]
    ensures var (st, t) := DropOne(s, port, k, valid, v);
            && (valid(port) ==> st == Success || (st == NpuError && !v(s.calls)))
            && (st == Success ==>
                  && k.id in s.sessions
                  && t.ports == s.ports[port := Without(s.ports[port], k)]
                  && t.sessions == s.sessions[k.id := s.sessions[k.id] - {Source(port, k.dir)}])
            && (st != Success ==> t.ports == s.ports && t.sessions == s.sessions)
  {
    hide Without, Sorted;
    assert Mirrors(s, port, k.id, k.dir);
    assert HasSource(s, port, k.id, k.dir);
  }

  lemma DropOneEffect(s: State, port: Oid, k: Key, valid: Oid -> bool, v: nat -> bool)
    requires Consistent(s) && port in s.ports && k in s.ports[port]
    ensures var (st, t) := DropOne(s, port, k, valid, v);
            && Consistent(t) && OnlyTouches(s, t, port, k.id, k.dir)
            && (Mirrors(t, port, k.id, k.dir) <==> st != Success)
            && (valid(port) ==> st == Success || st == NpuError)
            && (st == Success ==> t.ports[port] == Without(s.ports[port], k))
            && (st != Success ==> t.ports == s.ports)
  {
    hide Without, DropOne, Sorted;
    var (st, t) := DropOne(s, port, k, valid, v);
    DropOneStatus(s, port, k, valid, v);
    assert Mirrors(s, port, k.id, k.dir) && HasSource(s, port, k.id, k.dir);
    SortedWithout(s.ports[port], k);
    assert OnlyTouches(s, t, port, k.id, k.dir);
    assert Mirrors(t, port, k.id, k.dir) <==> HasSource(t, port, k.id, k.dir);
  }

  // ---------------------------------------------------------------------------------------------
  // The whole update
  // ---------------------------------------------------------------------------------------------

  /** Other ports and the other direction are as they were. */
  ghost predicate OnlyDirection(s: State, t: State, port: Oid, dir: Direction) {
    && (forall p: Oid, i: Id, d: Direction :: (p, d) != (port, dir) ==> (Mirrors(t, p, i, d) <==> Mirrors(s, p, i, d)))
    && s.sessions.Keys == t.sessions.Keys
  }

  lemma TouchesDirection(s: State, t: State, u: State, port: Oid, id: Id, dir: Direction)
    requires OnlyTouches(s, t, port, id, dir) && OnlyDirection(t, u, port, dir)
    ensures OnlyDirection(s, u, port, dir)
  {
  }

  /** Adding the wanted sessions: all of them on success, some of them otherwise, and nothing is lost. */
  lemma {:induction false} AddAllEffect(s: State, port: Oid, ids: seq<Id>, dir: Direction, valid: Oid -> bool,
                                        v: nat -> bool)
    requires Consistent(s) && port in s.ports
    ensures var (st, t) := AddAll(s, port, ids, dir, valid, v);
            && Consistent(t) && OnlyDirection(s, t, port, dir) && port in t.ports
            && (forall i :: Mirrors(s, port, i, dir) ==> Mirrors(t, port, i, dir))
            && (forall i :: Mirrors(t, port, i, dir) ==> Mirrors(s, port, i, dir) || i in ids)
            && (st == Success ==> forall i :: i in ids ==> Mirrors(t, port, i, dir))
    decreases |ids|
  {
    hide Consistent, AddOne;
    if ids != [] {
      AddOneEffect(s, port, ids[0], dir, valid, v);
      var (st, t) := AddOne(s, port, ids[0], dir, valid, v);
      if st == Success {
        AddAllEffect(t, port, ids[1..], dir, valid, v);
        TouchesDirection(s, t, AddAll(t, port, ids[1..], dir, valid, v).1, port, ids[0], dir);
        assert ids == [ids[0]] + ids[1..];
      } else {
        assert OnlyDirection(t, t, port, dir);
        TouchesDirection(s, t, t, port, ids[0], dir);
      }
    }
  }

  /** Dropping: only unwanted sessions go, and on success none of those to do remains. */
  lemma {:induction false} DropAllEffect(s: State, port: Oid, todo: seq<Key>, ids: seq<Id>, dir: Direction,
                                         valid: Oid -> bool, v: nat -> bool)
    requires Consistent(s) && port in s.ports && Sorted(todo)
    requires forall k :: k in todo ==> k in s.ports[port]
    ensures var (st, t) := DropAll(s, port, todo, ids, dir, valid, v);
            && Consistent(t) && OnlyDirection(s, t, port, dir) && port in t.ports
            && (forall i :: Mirrors(t, port, i, dir) ==> Mirrors(s, port, i, dir))
            && (forall i :: Mirrors(s, port, i, dir) && i in ids ==> Mirrors(t, port, i, dir))
            && (st == Success ==> forall i :: Mirrors(t, port, i, dir) && i !in ids ==> Key(i, dir) !in todo)
            && (valid(port) ==> st == Success || st == NpuError)
    decreases |todo|
  {
    hide Consistent, DropOne;
    if todo != [] {
      var k := todo[0];
      assert todo == [k] + todo[1..];
      if !Unwanted(k, ids, dir) {
        DropAllEffect(s, port, todo[1..], ids, dir, valid, v);
      } else {
        DropOneEffect(s, port, k, valid, v);
        var (st, t) := DropOne(s, port, k, valid, v);
        if st == Success {
          assert forall x :: x in todo[1..] ==>
            x != k && Mirrors(s, port, x.id, x.dir)
            && Mirrors(t, port, x.id, x.dir);
          DropAllEffect(t, port, todo[1..], ids, dir, valid, v);
          TouchesDirection(s, t, DropAll(t, port, todo[1..], ids, dir, valid, v).1, port, k.id, dir);
        } else {
          assert OnlyDirection(t, t, port, dir);
          TouchesDirection(s, t, t, port, k.id, dir);
        }
      }
    }
  }

  lemma FreedEffect(s: State, port: Oid)
    requires Consistent(s)
    ensures Consistent(Freed(s, port))
    ensures forall p: Oid, i: Id, d: Direction :: Mirrors(Freed(s, port), p, i, d) <==> Mirrors(s, p, i, d)
  {
    var t := Freed(s, port);
    assert forall p: Oid, i: Id, d: Direction :: HasSource(t, p, i, d) <==> HasSource(s, p, i, d);
    assert forall p: Oid, i: Id, d: Direction :: Mirrors(t, p, i, d) <==> Mirrors(s, p, i, d);
  }

  lemma AllocatedEffect(s: State, port: Oid)
    requires Consistent(s) && port !in s.ports
    ensures var t := s.(ports := s.ports[port := []]);
            Consistent(t) && forall p: Oid, i: Id, d: Direction :: Mirrors(t, p, i, d) <==> Mirrors(s, p, i, d)
  {
    var t := s.(ports := s.ports[port := []]);
    assert forall p: Oid, i: Id, d: Direction :: HasSource(t, p, i, d) <==> HasSource(s, p, i, d);
    assert forall p: Oid, i: Id, d: Direction :: Mirrors(t, p, i, d) <==> Mirrors(s, p, i, d);
  }

  /**
   A port mirror update keeps both indexes inverse whatever happens; it touches one port and one
   direction; when it succeeds the port mirrors to exactly the requested sessions in that direction,
   and when it stops part-way it has lost none that is requested and gained none that is not.
   */
  lemma HandleEffect(s: State, port: Oid, ids: seq<Id>, dir: Direction, valid: Oid -> bool, v: nat -> bool)
    requires Consistent(s)
    ensures var (st, t) := HandleSpec(s, port, ids, dir, valid, v);
            && Consistent(t) && OnlyDirection(s, t, port, dir)
            && (st == Success ==> forall i :: Mirrors(t, port, i, dir) <==> i in ids)
            && (forall i :: Mirrors(t, port, i, dir) ==> Mirrors(s, port, i, dir) || i in ids)
            && (forall i :: Mirrors(s, port, i, dir) && i in ids ==> Mirrors(t, port, i, dir))
            && (st == Success ==> port in t.ports ==> t.ports[port] != [])
  {
    hide Consistent, AddAll, DropAll, Mirrors;
    var s1 := if port in s.ports then s else s.(ports := s.ports[port := []]);
    if port !in s.ports {
      AllocatedEffect(s, port);
    }
    AddAllEffect(s1, port, ids, dir, valid, v);
    var (st, s2) := AddAll(s1, port, ids, dir, valid, v);
    if st == Success {
      TreeSorted(s2, port);
      DropAllEffect(s2, port, s2.ports[port], ids, dir, valid, v);
      var s3 := DropAll(s2, port, s2.ports[port], ids, dir, valid, v).1;
      FreedEffect(s3, port);
      forall i | Mirrors(s2, port, i, dir)
        ensures Key(i, dir) in s2.ports[port]
      {
        MirrorsKey(s2, port, i, dir);
      }
    }
  }

  lemma TreeSorted(s: State, port: Oid)
    requires Consistent(s) && port in s.ports
    ensures Sorted(s.ports[port])
  {
  }

  lemma MirrorsKey(s: State, port: Oid, id: Id, dir: Direction)
    requires Mirrors(s, port, id, dir)
    ensures port in s.ports && Key(id, dir) in s.ports[port]
  {
  }

  // ---------------------------------------------------------------------------------------------
  // Success
  // ---------------------------------------------------------------------------------------------

  lemma {:induction false} AddAllSucceeds(s: State, port: Oid, ids: seq<Id>, dir: Direction, valid: Oid -> bool,
                                          v: nat -> bool)
    requires Consistent(s) && port in s.ports && valid(port) && forall i :: v(i)
    ensures AddAll(s, port, ids, dir, valid, v).0 == Success <==> forall i :: i in ids ==> i in s.sessions
    decreases |ids|
  {
    if ids != [] {
      AddOneEffect(s, port, ids[0], dir, valid, v);
      var (st, t) := AddOne(s, port, ids[0], dir, valid, v);
      assert Mirrors(s, port, ids[0], dir) <==> HasSource(s, port, ids[0], dir);
      assert st == Success <==> ids[0] in s.sessions;
      assert ids == [ids[0]] + ids[1..];
      if st == Success {
        AddAllSucceeds(t, port, ids[1..], dir, valid, v);
      }
    }
  }

  /**
   When the NPU rejects nothing, an update of a valid port succeeds if and only if all the requested sessions
   exist.
   */
  lemma HandleSucceeds(s: State, port: Oid, ids: seq<Id>, dir: Direction, valid: Oid -> bool, v: nat -> bool)
    requires Consistent(s) && valid(port) && forall i :: v(i)
    ensures HandleSpec(s, port, ids, dir, valid, v).0 == Success <==> forall i :: i in ids ==> i in s.sessions
  {
    var s1 := if port in s.ports then s else s.(ports := s.ports[port := []]);
    if port !in s.ports {
      AllocatedEffect(s, port);
    }
    hide Consistent;
    AddAllSucceeds(s1, port, ids, dir, valid, v);
    AddAllEffect(s1, port, ids, dir, valid, v);
    var s2 := AddAll(s1, port, ids, dir, valid, v).1;
    if AddAll(s1, port, ids, dir, valid, v).0 == Success {
      TreeSorted(s2, port);
      DropAllAccepted(s2, port, s2.ports[port], ids, dir, valid, v);
    }
  }

  lemma {:induction false} DropAllAccepted(s: State, port: Oid, todo: seq<Key>, ids: seq<Id>, dir: Direction,
                                           valid: Oid -> bool, v: nat -> bool)
    requires Consistent(s) && port in s.ports && Sorted(todo) && valid(port) && forall i :: v(i)
    requires forall k :: k in todo ==> k in s.ports[port]
    ensures DropAll(s, port, todo, ids, dir, valid, v).0 == Success
    decreases |todo|
  {
    hide Consistent, DropOne, Sorted;
    if todo != [] {
      var k := todo[0];
      assert todo == [k] + todo[1..];
      SortedTail(todo);
      if !Unwanted(k, ids, dir) {
        DropAllAccepted(s, port, todo[1..], ids, dir, valid, v);
      } else {
        DropOneEffect(s, port, k, valid, v);
        DropOneStatus(s, port, k, valid, v);
        var t := DropOne(s, port, k, valid, v).1;
        DropAllAccepted(t, port, todo[1..], ids, dir, valid, v);
      }
    }
  }

  lemma SortedTail(t: seq<Key>)
    requires Sorted(t) && t != []
    ensures Sorted(t[1..]) && t[0] !in t[1..]
  {
    forall x | x in t[1..]
      ensures x != t[0]
    {
    }
  }

  // ---------------------------------------------------------------------------------------------
  // Creating and removing sessions
  // ---------------------------------------------------------------------------------------------

  lemma CreateConsistent(s: State, id: Id, v: nat -> bool)
    requires Consistent(s) && id.Session? && id !in s.sessions
    ensures Consistent(CreateSpec(s, id, v).1)
  {
    var t := CreateSpec(s, id, v).1;
    assert forall p: Oid, i: Id, d: Direction :: HasSource(t, p, i, d) <==> HasSource(s, p, i, d);
    assert forall p: Oid, i: Id, d: Direction :: Mirrors(t, p, i, d) <==> Mirrors(s, p, i, d);
  }

  lemma RemoveConsistent(s: State, id: Id, v: nat -> bool)
    requires Consistent(s)
    ensures Consistent(RemoveSpec(s, id, v).1)
  {
    var t := RemoveSpec(s, id, v).1;
    assert forall p: Oid, i: Id, d: Direction :: HasSource(t, p, i, d) <==> HasSource(s, p, i, d);
    assert forall p: Oid, i: Id, d: Direction :: Mirrors(t, p, i, d) <==> Mirrors(s, p, i, d);
  }

  // ---------------------------------------------------------------------------------------------
  // Runs
  // ---------------------------------------------------------------------------------------------

  datatype Request = Create(newId: Id) | Remove(id: Id) | Handle(port: Oid, ids: seq<Id>, dir: Direction)

  function Step(s: State, r: Request, valid: Oid -> bool, v: nat -> bool): (Status, State) {
    match r
    case Create(id) => CreateSpec(s, id, v)
    case Remove(id) => RemoveSpec(s, id, v)
    case Handle(port, ids, dir) => HandleSpec(s, port, ids, dir, valid, v)
  }

  function Run(s: State, rs: seq<Request>, valid: Oid -> bool, v: nat -> bool): State
    decreases |rs|
  {
    if rs == [] then s else Run(Step(s, rs[0], valid, v).1, rs[1..], valid, v)
  }

  /** The NPU hands out fresh session ids. */
  predicate FreshIds(s: State, rs: seq<Request>, valid: Oid -> bool, v: nat -> bool)
    decreases |rs|
  {
    rs != [] ==>
      && (rs[0].Create? ==> rs[0].newId.Session? && rs[0].newId !in s.sessions)
      && FreshIds(Step(s, rs[0], valid, v).1, rs[1..], valid, v)
  }

  /** After any run, failed calls included, the indexes are inverse and every session a port mirrors to exists. */
  lemma {:induction false} RunConsistent(s: State, rs: seq<Request>, valid: Oid -> bool, v: nat -> bool)
    requires Consistent(s) && FreshIds(s, rs, valid, v)
    ensures Consistent(Run(s, rs, valid, v))
    ensures forall port: Oid, id: Id, dir: Direction :: Mirrors(Run(s, rs, valid, v), port, id, dir) ==>
      id in Run(s, rs, valid, v).sessions
    decreases |rs|
  {
    hide CreateSpec, RemoveSpec, HandleSpec;
    if rs != [] {
      match rs[0] {
        case Create(id) => CreateConsistent(s, id, v);
        case Remove(id) => RemoveConsistent(s, id, v);
        case Handle(port, ids, dir) => HandleEffect(s, port, ids, dir, valid, v);
      }
      RunConsistent(Step(s, rs[0], valid, v).1, rs[1..], valid, v);
    } else {
      forall port, id, dir | Mirrors(s, port, id, dir)
        ensures id in s.sessions
      {
        assert HasSource(s, port, id, dir);
      }
    }
  }
}
