/** What each mirror session call leaves behind, and exactly when it succeeds. */
module MirrorEffects {
  import opened Common
  import opened MirrorSpec

  /** A created session is there without source ports, and no other session or port changed. */
  lemma CreateEffect(s: State, id: Id, v: nat -> bool)
    requires id !in s.sessions
    ensures var (st, t) := CreateSpec(s, id, v);
            && (st == Success <==> v(s.calls))
            && (st == Success ==>
                  && id in t.sessions && t.sessions[id] == {}
                  && (forall x :: x in s.sessions ==> x in t.sessions && t.sessions[x] == s.sessions[x])
                  && (forall x :: x in t.sessions ==> x in s.sessions || x == id))
            && (st != Success ==> t.sessions == s.sessions)
            && t.ports == s.ports
  {
  }

  /**
   A session is removed exactly when it exists, no port mirrors to it in either direction, and the NPU
   accepts; it is then gone, and no other session or port changed.
   */
  lemma RemoveEffect(s: State, id: Id, v: nat -> bool)
    requires Consistent(s)
    ensures var (st, t) := RemoveSpec(s, id, v);
            && (st == Success <==>
                  && id in s.sessions && v(s.calls)
                  && forall p: Oid, d: Direction :: !Mirrors(s, p, id, d))
            && ((exists p: Oid, d: Direction :: Mirrors(s, p, id, d)) && id.Session? ==> st == ObjectInUse)
            && (st == Success ==>
                  && id !in t.sessions
                  && (forall x :: x in s.sessions && x != id ==> x in t.sessions && t.sessions[x] == s.sessions[x])
                  && (forall x :: x in t.sessions ==> x in s.sessions))
            && (st != Success ==> t.sessions == s.sessions)
            && t.ports == s.ports
  {
    if id in s.sessions {
      forall p: Oid, d: Direction
        ensures Mirrors(s, p, id, d) <==> Source(p, d) in s.sessions[id]
      {
        assert Mirrors(s, p, id, d) <==> HasSource(s, p, id, d);
      }
      if s.sessions[id] != {} {
        var x :| x in s.sessions[id];
        assert x == Source(x.port, x.dir) && Mirrors(s, x.port, id, x.dir);
      }
    }
  }

  /**
   A source port is added exactly when session and port are there, it is not a source yet, and the NPU
   accepts; it is then the one source that changed.
   */
  lemma AddSourceEffect(s: State, id: Id, port: Oid, dir: Direction, valid: Oid -> bool, v: nat -> bool)
    ensures var (st, t) := PortAddSpec(s, id, port, dir, valid, v);
            && (st == Success <==>
                  id.Session? && id in s.sessions && valid(port) && !HasSource(s, port, id, dir) && v(s.calls))
            && (id.Session? && valid(port) && HasSource(s, port, id, dir) ==> st == ItemAlreadyExists)
            && t.ports == s.ports && t.sessions.Keys == s.sessions.Keys
            && (forall p: Oid, i: Id, d: Direction ::
                  HasSource(t, p, i, d) <==> HasSource(s, p, i, d) || (st == Success && (p, i, d) == (port, id, dir)))
  {
  }

  lemma RemoveSourceEffect(s: State, id: Id, port: Oid, dir: Direction, valid: Oid -> bool, v: nat -> bool)
    ensures var (st, t) := PortRemoveSpec(s, id, port, dir, valid, v);
            && (st == Success <==>
                  id.Session? && id in s.sessions && valid(port) && HasSource(s, port, id, dir) && v(s.calls))
            && (id.Session? && valid(port) && id in s.sessions && !HasSource(s, port, id, dir) ==> st == ItemNotFound)
            && t.ports == s.ports && t.sessions.Keys == s.sessions.Keys
            && (forall p: Oid, i: Id, d: Direction ::
                  HasSource(t, p, i, d) <==> HasSource(s, p, i, d) && !(st == Success && (p, i, d) == (port, id, dir)))
  {
  }

  // ---------------------------------------------------------------------------------------------
  // Updating a port that is not valid
  // ---------------------------------------------------------------------------------------------

  lemma {:induction false} AddNothing(s: State, port: Oid, ids: seq<Id>, dir: Direction, valid: Oid -> bool,
                                      v: nat -> bool)
    requires port in s.ports && !valid(port)
    ensures AddAll(s, port, ids, dir, valid, v).0 == Success <==> forall i :: i in ids ==> Mirrors(s, port, i, dir)
    ensures AddAll(s, port, ids, dir, valid, v).0 == Success ==> AddAll(s, port, ids, dir, valid, v).1 == s
    decreases |ids|
  {
    if ids != [] {
      assert ids == [ids[0]] + ids[1..];
      assert ids[0] in ids;
      if Key(ids[0], dir) in s.ports[port] {
        AddNothing(s, port, ids[1..], dir, valid, v);
      } else {
        assert !Mirrors(s, port, ids[0], dir);
      }
    }
  }

  lemma {:induction false} DropNothing(s: State, port: Oid, todo: seq<Key>, ids: seq<Id>, dir: Direction,
                                       valid: Oid -> bool, v: nat -> bool)
    requires port in s.ports && !valid(port)
    ensures DropAll(s, port, todo, ids, dir, valid, v).0 == Success <==>
      forall i :: Key(i, dir) in todo ==> i in ids
    ensures DropAll(s, port, todo, ids, dir, valid, v).0 == Success ==>
      DropAll(s, port, todo, ids, dir, valid, v).1 == s
    decreases |todo|
  {
    if todo != [] {
      assert todo == [todo[0]] + todo[1..];
      if Unwanted(todo[0], ids, dir) {
        assert Key(todo[0].id, dir) in todo;
      } else {
        DropNothing(s, port, todo[1..], ids, dir, valid, v);
        assert forall i :: Key(i, dir) in todo <==> Key(i, dir) == todo[0] || Key(i, dir) in todo[1..];
      }
    }
  }

  /**
   An update of a port that is not valid succeeds only if the port already mirrors to exactly the requested
   sessions.
   */
  lemma InvalidPortEffect(s: State, port: Oid, ids: seq<Id>, dir: Direction, valid: Oid -> bool, v: nat -> bool)
    requires !valid(port)
    ensures HandleSpec(s, port, ids, dir, valid, v).0 == Success <==>
      forall i :: Mirrors(s, port, i, dir) <==> i in ids
  {
    hide AddAll, DropAll;
    var s1 := if port in s.ports then s else s.(ports := s.ports[port := []]);
    assert forall i :: Mirrors(s1, port, i, dir) <==> Mirrors(s, port, i, dir);
    AddNothing(s1, port, ids, dir, valid, v);
    DropNothing(s1, port, s1.ports[port], ids, dir, valid, v);
    assert forall i :: Mirrors(s1, port, i, dir) <==> Key(i, dir) in s1.ports[port];
  }
}
