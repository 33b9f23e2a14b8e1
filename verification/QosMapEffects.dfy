/**
 What a QoS map update leaves in the array, kind by kind: which entries are accepted, which slot an entry
 goes to, and with what value.
 */
module QosMapEffects {
  import opened Common
  import opened QosMaps

  /** The entries each kind of map accepts. */
  lemma Accepted(e: Entry, q: Queues)
    ensures EntryValid(Dot1pToTcColor, e, q) <==> e.key.dot1p < 8 && e.value.tc < 16 && e.value.color < 3
    ensures EntryValid(DscpToTcColor, e, q) <==> e.key.dscp < 64 && e.value.tc < 16 && e.value.color < 3
    ensures EntryValid(TcToQueue, e, q) <==> e.key.tc < 16 && e.value.queue < q.total
    ensures EntryValid(TcColorToDot1p, e, q) <==> e.key.tc < 16 && e.key.color < 3 && e.value.dot1p < 8
    ensures EntryValid(TcColorToDscp, e, q) <==> e.key.tc < 16 && e.key.color < 3 && e.value.dscp < 64
  {
  }

  /** An update stores everything exactly when every entry is acceptable. */
  lemma {:induction false} AllStored(k: Kind, l: seq<Entry>, q: Queues)
    ensures ValidPrefix(k, l, q) == |l| <==> forall i :: 0 <= i < |l| ==> EntryValid(k, l[i], q)
  {
    hide EntryValid;
  }

  /** Two entries have the same key, as far as the kind of map looks at it. */
  predicate SameKey(k: Kind, e: Entry, f: Entry, q: Queues) {
    match k
    case Dot1pToTcColor => e.key.dot1p == f.key.dot1p
    case DscpToTcColor => e.key.dscp == f.key.dscp
    case TcToQueue => e.key.tc == f.key.tc && (e.value.queue < q.unicast <==> f.value.queue < q.unicast)
    case _ => e.key.tc == f.key.tc && e.key.color == f.key.color
  }

  lemma SameKeySameSlot(k: Kind, e: Entry, f: Entry, q: Queues)
    requires EntryValid(k, e, q) && EntryValid(k, f, q)
    ensures SameKey(k, e, f, q) <==> SlotOf(k, e, q) == SlotOf(k, f, q)
  {
  }

  /** Of the entries of `l` with the key of entry `j`, that is the last. */
  ghost predicate LastForKey(k: Kind, l: seq<Entry>, j: int, q: Queues) {
    0 <= j < |l| && forall i :: j < i < |l| ==> !SameKey(k, l[i], l[j], q)
  }

  ghost predicate AllValid(k: Kind, l: seq<Entry>, q: Queues) {
    forall i :: 0 <= i < |l| ==> EntryValid(k, l[i], q)
  }

  lemma LastStored(k: Kind, a: seq<Entry>, l: seq<Entry>, q: Queues, j: nat)
    requires KeysExact(k, a) && AllValid(k, l, q) && LastForKey(k, l, j, q)
    ensures SlotOf(k, l[j], q) < Size(k)
    ensures Store(k, a, l, q)[SlotOf(k, l[j], q)] == Stored(k, l[j], q)
  {
    hide EntryValid, SlotOf, SameKey, Stored, Store;
    forall i | j < i < |l|
      ensures SlotOf(k, l[i], q) != SlotOf(k, l[j], q)
    {
      SameKeySameSlot(k, l[i], l[j], q);
    }
    LastWriterWins(k, a, l, q, j);
  }

  /** A slot that no entry goes to keeps what it has. */
  lemma {:induction false} SlotKept(k: Kind, a: seq<Entry>, l: seq<Entry>, q: Queues, i: nat)
    requires |a| == Size(k) && AllValid(k, l, q) && i < Size(k)
    requires forall j :: 0 <= j < |l| ==> SlotOf(k, l[j], q) != i
    ensures Store(k, a, l, q)[i] == a[i]
  {
    hide EntryValid, SlotOf, Stored;
    if l != [] {
      SlotKept(k, a, l[..|l| - 1], q, i);
      StoredInPlace(k, l[|l| - 1], q);
    }
  }

  /** A code point has the class and color it was given last, and otherwise those it had. */
  lemma Dot1pUpdate(a: seq<Entry>, l: seq<Entry>, q: Queues, d: nat)
    requires KeysExact(Dot1pToTcColor, a) && AllValid(Dot1pToTcColor, l, q) && d < 8
    ensures var r := Store(Dot1pToTcColor, a, l, q);
            && |r| == 8 && r[d].key.dot1p == d
            && (forall j :: LastForKey(Dot1pToTcColor, l, j, q) && l[j].key.dot1p == d ==>
                  r[d].value.tc == l[j].value.tc && r[d].value.color == l[j].value.color)
            && ((forall j :: 0 <= j < |l| ==> l[j].key.dot1p != d) ==> r[d] == a[d])
  {
    hide Store, EntryValid;
    StoreRefines(Dot1pToTcColor, a, l, q);
    forall j | LastForKey(Dot1pToTcColor, l, j, q) && l[j].key.dot1p == d
      ensures Store(Dot1pToTcColor, a, l, q)[d] == Stored(Dot1pToTcColor, l[j], q)
    {
      LastStored(Dot1pToTcColor, a, l, q, j);
    }
    if forall j :: 0 <= j < |l| ==> l[j].key.dot1p != d {
      SlotKept(Dot1pToTcColor, a, l, q, d);
    }
  }

  lemma DscpUpdate(a: seq<Entry>, l: seq<Entry>, q: Queues, d: nat)
    requires KeysExact(DscpToTcColor, a) && AllValid(DscpToTcColor, l, q) && d < 64
    ensures var r := Store(DscpToTcColor, a, l, q);
            && |r| == 64 && r[d].key.dscp == d
            && (forall j :: LastForKey(DscpToTcColor, l, j, q) && l[j].key.dscp == d ==>
                  r[d].value.tc == l[j].value.tc && r[d].value.color == l[j].value.color)
            && ((forall j :: 0 <= j < |l| ==> l[j].key.dscp != d) ==> r[d] == a[d])
  {
    hide Store, EntryValid;
    StoreRefines(DscpToTcColor, a, l, q);
    forall j | LastForKey(DscpToTcColor, l, j, q) && l[j].key.dscp == d
      ensures Store(DscpToTcColor, a, l, q)[d] == Stored(DscpToTcColor, l[j], q)
    {
      LastStored(DscpToTcColor, a, l, q, j);
    }
    if forall j :: 0 <= j < |l| ==> l[j].key.dscp != d {
      SlotKept(DscpToTcColor, a, l, q, d);
    }
  }

  /** A class and color have the code point they were given last, in the slot of their index. */
  lemma ColoredUpdate(k: Kind, a: seq<Entry>, l: seq<Entry>, q: Queues, j: nat)
    requires k == TcColorToDot1p || k == TcColorToDscp
    requires KeysExact(k, a) && AllValid(k, l, q) && LastForKey(k, l, j, q)
    ensures var r := Store(k, a, l, q);
            var i := 16 * l[j].key.color + l[j].key.tc;
            && |r| == 48 && i < 48
            && r[i].key.tc == l[j].key.tc && r[i].key.color == l[j].key.color
            && (k == TcColorToDot1p ==> r[i].value.dot1p == l[j].value.dot1p)
            && (k == TcColorToDscp ==> r[i].value.dscp == l[j].value.dscp)
  {
    hide Store, EntryValid, SameKey;
    LastStored(k, a, l, q, j);
  }

  /** A class and color that no entry names keep their code point. */
  lemma ColoredKept(k: Kind, a: seq<Entry>, l: seq<Entry>, q: Queues, tc: nat, color: nat)
    requires k == TcColorToDot1p || k == TcColorToDscp
    requires |a| == Size(k) && AllValid(k, l, q) && tc < 16 && color < 3
    requires forall j :: 0 <= j < |l| ==> l[j].key.tc != tc || l[j].key.color != color
    ensures |Store(k, a, l, q)| == 48 && Store(k, a, l, q)[16 * color + tc] == a[16 * color + tc]
  {
    hide Store, EntryValid;
    forall j | 0 <= j < |l|
      ensures SlotOf(k, l[j], q) != 16 * color + tc
    {
      Accepted(l[j], q);
    }
    SlotKept(k, a, l, q, 16 * color + tc);
  }

  /**
   A class has the queue it was given last, for unicast and for multicast; multicast queues count from the
   last unicast one.
   */
  lemma QueueUpdate(a: seq<Entry>, l: seq<Entry>, q: Queues, j: nat)
    requires KeysExact(TcToQueue, a) && AllValid(TcToQueue, l, q) && LastForKey(TcToQueue, l, j, q)
    ensures var r := Store(TcToQueue, a, l, q);
            var tc, queue := l[j].key.tc, l[j].value.queue;
            && |r| == 32 && tc < 16
            && if queue < q.unicast then r[tc].key.tc == tc && r[tc].value.queue == queue
               else r[16 + tc].key.tc == tc && r[16 + tc].value.queue == queue - q.unicast
  {
    hide Store, SameKey;
    LastStored(TcToQueue, a, l, q, j);
  }

  /** A half of a class that no entry names keeps its queue. */
  lemma QueueKept(a: seq<Entry>, l: seq<Entry>, q: Queues, tc: nat, multicast: bool)
    requires |a| == Size(TcToQueue) && AllValid(TcToQueue, l, q) && tc < 16
    requires forall j :: 0 <= j < |l| && l[j].key.tc == tc ==> (multicast <==> l[j].value.queue < q.unicast)
    ensures var i := if multicast then 16 + tc else tc;
            |Store(TcToQueue, a, l, q)| == 32 && Store(TcToQueue, a, l, q)[i] == a[i]
  {
    hide Store, EntryValid;
    forall j | 0 <= j < |l|
      ensures SlotOf(TcToQueue, l[j], q) != if multicast then 16 + tc else tc
    {
      Accepted(l[j], q);
    }
    SlotKept(TcToQueue, a, l, q, if multicast then 16 + tc else tc);
  }

  /** The caller's list, which the update rewrites, ends up with the queue numbers that the array has. */
  lemma RenumberedAgrees(a: seq<Entry>, l: seq<Entry>, q: Queues, j: nat)
    requires KeysExact(TcToQueue, a) && AllValid(TcToQueue, l, q) && LastForKey(TcToQueue, l, j, q)
    ensures var tc := l[j].key.tc;
            var i := if l[j].value.queue < q.unicast then tc else 16 + tc;
            var r := Renumbered(l, |l|, q);
            && |Store(TcToQueue, a, l, q)| == 32 && i < 32 && |r| == |l|
            && r[j].key == l[j].key && r[j].value.queue == Store(TcToQueue, a, l, q)[i].value.queue
  {
    QueueUpdate(a, l, q, j);
    hide Store, SameKey;
  }

  /** The default array of each kind: one slot for each key, with value 0 in every member. */
  lemma DefaultArray(k: Kind, a: seq<Entry>, i: nat)
    requires Default(k, a) && i < |a|
    ensures |a| == match k
                   case Dot1pToTcColor => 8
                   case DscpToTcColor => 64
                   case TcToQueue => 32
                   case _ => 48
    ensures a[i].value == Params(0, 0, 0, 0, 0)
    ensures a[i].key == match k
                        case Dot1pToTcColor => Params(0, 0, i, 0, 0)
                        case DscpToTcColor => Params(0, 0, 0, i, 0)
                        case TcToQueue => Params(i % 16, 0, 0, 0, 0)
                        case _ => Params(i % 16, i / 16, 0, 0, 0)
  {
  }

  /**
   A map is created from a type and a list exactly when the type is known and every entry acceptable; its
   array is the default one with the list stored in it.
   */
  lemma CreatedMap(k: Option<Kind>, l: seq<Entry>, q: Queues)
    ensures var (st, n) := Parse([TypeAttr(k), ListAttr(l)], q);
            && (st == Success <==> k.Some? && AllValid(k.value, l, q))
            && (st == Success ==>
                  && n.kind == k && n.values.Some?
                  && exists a :: Default(k.value, a) && n.values.value == Store(k.value, a, l, q))
  {
    hide EntryValid, Store;
    var attrs := [TypeAttr(k), ListAttr(l)];
    assert attrs[1..] == [ListAttr(l)] && [ListAttr(l)][1..] == [];
    var n := Node(None, None);
    assert SetOthers(n.(kind := k), attrs, q) == SetOthers(n.(kind := k), [ListAttr(l)], q);
    if k.Some? {
      AllStored(k.value, l, q);
      assert l[..|l|] == l;
      assert Default(k.value, DefaultValues(k.value));
    }
  }

  /** A list without a type, and an attribute the code does not know, are refused. */
  lemma RefusedAttrs(a: Attr, q: Queues)
    requires !a.TypeAttr?
    ensures Parse([a], q).0 == if a.ListAttr? then AttrNotSupported else UnknownAttribute
  {
    var n := Node(None, None);
    assert [a][1..] == [] && FirstType([a]) == None;
    assert SetAttr(n, a, q).0 != Success;
  }
}
