/**
 QoS maps: a map from code points, traffic classes or colors is a flat array with a computed index.
 The arrays refine maps from keys to values.
 */
module QosMaps {
  import opened Common

  const MAX_TC: nat := 16
  const MAX_COLORS: nat := 3
  const MAX_DSCP: nat := 64
  const MAX_DOT1P: nat := 8

  datatype Kind = Dot1pToTcColor | DscpToTcColor | TcToQueue | TcColorToDot1p | TcColorToDscp

  /** Key and value of a map entry share one record; a map kind uses the members it needs. */
  datatype Params = Params(tc: nat, color: nat, dot1p: nat, dscp: nat, queue: nat)

  const ZERO := Params(0, 0, 0, 0, 0)

  datatype Entry = Entry(key: Params, value: Params)

  /** The number of unicast queues, and of all queues, of a port. */
  datatype Queues = Queues(unicast: nat, total: nat)

  // ---------------------------------------------------------------------------------------------
  // Indexes
  // ---------------------------------------------------------------------------------------------

  function GetIndex(color: nat, tc: nat): (i: nat)
    ensures color < MAX_COLORS && tc < MAX_TC ==> i < MAX_COLORS * MAX_TC
    ensures tc < MAX_TC ==> i / MAX_TC == color && i % MAX_TC == tc
  {
    color * MAX_TC + tc
  }

  function Size(k: Kind): nat {
    match k
    case Dot1pToTcColor => MAX_DOT1P
    case DscpToTcColor => MAX_DSCP
    case TcToQueue => 2 * MAX_TC
    case _ => MAX_COLORS * MAX_TC
  }

  /** The check of the four members, whatever the map kind; a member the kind does not use is passed as 0. */
  predicate InRange(dot1p: nat, tc: nat, color: nat, dscp: nat) {
    dot1p < MAX_DOT1P && tc < MAX_TC && color < MAX_COLORS && dscp < MAX_DSCP
  }

  predicate EntryValid(k: Kind, e: Entry, q: Queues) {
    match k
    case Dot1pToTcColor => InRange(e.key.dot1p, e.value.tc, e.value.color, 0)
    case DscpToTcColor => InRange(0, e.value.tc, e.value.color, e.key.dscp)
    case TcToQueue => InRange(0, e.key.tc, 0, 0) && e.value.queue < q.total
    case TcColorToDot1p => InRange(e.value.dot1p, e.key.tc, e.key.color, 0)
    case TcColorToDscp => InRange(0, e.key.tc, e.key.color, e.value.dscp)
  }

  predicate IsMulticast(e: Entry, q: Queues) {
    e.value.queue >= q.unicast
  }

  /** The slot an entry is stored in. */
  function SlotOf(k: Kind, e: Entry, q: Queues): nat {
    match k
    case Dot1pToTcColor => e.key.dot1p
    case DscpToTcColor => e.key.dscp
    case TcToQueue => if IsMulticast(e, q) then MAX_TC + e.key.tc else e.key.tc
    case _ => GetIndex(e.key.color, e.key.tc)
  }

  /** What is stored there. A multicast queue is stored by its number among the multicast queues. */
  function Stored(k: Kind, e: Entry, q: Queues): Entry {
    match k
    case Dot1pToTcColor => Entry(ZERO.(dot1p := e.key.dot1p), ZERO.(tc := e.value.tc, color := e.value.color))
    case DscpToTcColor => Entry(ZERO.(dscp := e.key.dscp), ZERO.(tc := e.value.tc, color := e.value.color))
    case TcToQueue =>
      Entry(ZERO.(tc := e.key.tc), ZERO.(queue := if IsMulticast(e, q) then e.value.queue - q.unicast
                                         else e.value.queue))
    case TcColorToDot1p => Entry(ZERO.(tc := e.key.tc, color := e.key.color), ZERO.(dot1p := e.value.dot1p))
    case TcColorToDscp => Entry(ZERO.(tc := e.key.tc, color := e.key.color), ZERO.(dscp := e.value.dscp))
  }

  /** The key a slot stands for: the decoding of its index. */
  function KeyAt(k: Kind, i: nat): Params {
    match k
    case Dot1pToTcColor => ZERO.(dot1p := i)
    case DscpToTcColor => ZERO.(dscp := i)
    case TcToQueue => ZERO.(tc := i % MAX_TC)
    case _ => ZERO.(color := i / MAX_TC, tc := i % MAX_TC)
  }

  /** The color and traffic class index is a bijection onto the array, with division and remainder as its inverse. */
  lemma IndexBijection(color: nat, tc: nat, i: nat)
    requires color < MAX_COLORS && tc < MAX_TC && i < MAX_COLORS * MAX_TC
    ensures GetIndex(color, tc) < MAX_COLORS * MAX_TC
    ensures GetIndex(i / MAX_TC, i % MAX_TC) == i && i / MAX_TC < MAX_COLORS && i % MAX_TC < MAX_TC
    ensures GetIndex(color, tc) == i <==> color == i / MAX_TC && tc == i % MAX_TC
  {
  }

  /** A valid entry lands in the array, in the slot that stands for its key. */
  lemma StoredInPlace(k: Kind, e: Entry, q: Queues)
    requires EntryValid(k, e, q)
    ensures SlotOf(k, e, q) < Size(k)
    ensures Stored(k, e, q).key == KeyAt(k, SlotOf(k, e, q))
  {
  }

  /** The queue a slot of a traffic class map stands for: multicast slots count from the last unicast queue. */
  function QueueAt(i: nat, stored: nat, q: Queues): nat {
    if i >= MAX_TC then stored + q.unicast else stored
  }

  /** From the slot and the stored number the requested queue is got back, and no two requests are confused. */
  lemma QueueReconstructed(e: Entry, f: Entry, q: Queues)
    requires EntryValid(TcToQueue, e, q) && EntryValid(TcToQueue, f, q)
    ensures QueueAt(SlotOf(TcToQueue, e, q), Stored(TcToQueue, e, q).value.queue, q) == e.value.queue
    ensures SlotOf(TcToQueue, e, q) == SlotOf(TcToQueue, f, q) && Stored(TcToQueue, e, q) == Stored(TcToQueue, f, q)
       <==> e.key.tc == f.key.tc && e.value.queue == f.value.queue
  {
  }

  // ---------------------------------------------------------------------------------------------
  // Updating a list
  // ---------------------------------------------------------------------------------------------

  /** The entries that are stored: those before the first invalid one. */
  function ValidPrefix(k: Kind, l: seq<Entry>, q: Queues): (n: nat)
    ensures n <= |l|
    ensures forall i :: 0 <= i < n ==> EntryValid(k, l[i], q)
    ensures n < |l| ==> !EntryValid(k, l[n], q)
  {
    if l == [] || !EntryValid(k, l[0], q) then 0 else 1 + ValidPrefix(k, l[1..], q)
  }

  function Store(k: Kind, a: seq<Entry>, l: seq<Entry>, q: Queues): (r: seq<Entry>)
    requires |a| == Size(k) && forall i :: 0 <= i < |l| ==> EntryValid(k, l[i], q)
    ensures |r| == |a|
  {
    if l == [] then a
    else
      var last := l[|l| - 1];
      StoredInPlace(k, last, q);
      Store(k, a, l[..|l| - 1], q)[SlotOf(k, last, q) := Stored(k, last, q)]
  }

  ghost predicate KeysExact(k: Kind, a: seq<Entry>) {
    |a| == Size(k) && forall i :: 0 <= i < |a| ==> a[i].key == KeyAt(k, i)
  }

  /** What the array says: a key is a slot's key, together with the half for a queue map. */
  datatype MapKey = MapKey(key: Params, multicast: bool)

  function MapKeyAt(k: Kind, i: nat): MapKey {
    MapKey(KeyAt(k, i), k == TcToQueue && i >= MAX_TC)
  }

  ghost function AsMap(k: Kind, a: seq<Entry>): map<MapKey, Params>
    requires |a| == Size(k)
  {
    map m | m in MapKeys(k) :: a[SlotFor(k, m)].value
  }

  ghost function MapKeys(k: Kind): set<MapKey> {
    set i | 0 <= i < Size(k) :: MapKeyAt(k, i)
  }

  /** The slot of a key. */
  ghost function SlotFor(k: Kind, m: MapKey): (i: nat)
    requires m in MapKeys(k)
    ensures i < Size(k) && MapKeyAt(k, i) == m
  {
    var i :| 0 <= i < Size(k) && MapKeyAt(k, i) == m;
    i
  }

  /** Different slots stand for different keys. */
  lemma KeysDiffer(k: Kind, i: nat, j: nat)
    requires i < Size(k) && j < Size(k)
    ensures MapKeyAt(k, i) == MapKeyAt(k, j) <==> i == j
  {
  }

  function MapKeyOf(k: Kind, e: Entry, q: Queues): MapKey {
    MapKeyAt(k, SlotOf(k, e, q))
  }

  /** A list update writes the entries into the map one after the other, so that the last entry for a key wins. */
  ghost function Override(k: Kind, m: map<MapKey, Params>, l: seq<Entry>, q: Queues): map<MapKey, Params> {
    if l == [] then m
    else Override(k, m, l[..|l| - 1], q)[MapKeyOf(k, l[|l| - 1], q) := Stored(k, l[|l| - 1], q).value]
  }

  lemma UpdatedMap(k: Kind, a: seq<Entry>, i: nat, e: Entry)
    requires |a| == Size(k) && i < |a|
    ensures AsMap(k, a[i := e]) == AsMap(k, a)[MapKeyAt(k, i) := e.value]
  {
    assert MapKeyAt(k, i) in MapKeys(k);
    forall m | m in MapKeys(k)
      ensures AsMap(k, a[i := e])[m] == AsMap(k, a)[MapKeyAt(k, i) := e.value][m]
    {
      KeysDiffer(k, i, SlotFor(k, m));
    }
  }

  /** The array refines a map: storing a valid list is overriding the map, and each slot keeps the key of its index. */
  lemma {:induction false} StoreRefines(k: Kind, a: seq<Entry>, l: seq<Entry>, q: Queues)
    requires KeysExact(k, a) && forall i :: 0 <= i < |l| ==> EntryValid(k, l[i], q)
    ensures KeysExact(k, Store(k, a, l, q))
    ensures AsMap(k, Store(k, a, l, q)) == Override(k, AsMap(k, a), l, q)
  {
    hide Stored, SlotOf, KeyAt, EntryValid, MapKeyAt;
    if l != [] {
      var last := l[|l| - 1];
      StoreRefines(k, a, l[..|l| - 1], q);
      StoredInPlace(k, last, q);
      UpdatedMap(k, Store(k, a, l[..|l| - 1], q), SlotOf(k, last, q), Stored(k, last, q));
    }
  }

  /** Last writer wins, slot by slot. */
  lemma {:induction false} LastWriterWins(k: Kind, a: seq<Entry>, l: seq<Entry>, q: Queues, j: nat)
    requires KeysExact(k, a) && (forall i :: 0 <= i < |l| ==> EntryValid(k, l[i], q)) && j < |l|
    requires forall i :: j < i < |l| ==> SlotOf(k, l[i], q) != SlotOf(k, l[j], q)
    ensures SlotOf(k, l[j], q) < Size(k)
    ensures Store(k, a, l, q)[SlotOf(k, l[j], q)] == Stored(k, l[j], q)
  {
    hide Stored, SlotOf, KeyAt, EntryValid;
    StoredInPlace(k, l[j], q);
    StoredInPlace(k, l[|l| - 1], q);
    if j < |l| - 1 {
      LastWriterWins(k, a, l[..|l| - 1], q, j);
    }
  }

  // ---------------------------------------------------------------------------------------------
  // The arrays
  // ---------------------------------------------------------------------------------------------

  const DEFAULT_TC: nat := 0
  const DEFAULT_VALUE: nat := 0
  const GREEN: nat := 0

  /** Every slot has its key; the default values are all zero: class 0, green, queue 0, code point 0. */
  ghost predicate Default(k: Kind, a: seq<Entry>) {
    |a| == Size(k) && forall i :: 0 <= i < |a| ==> a[i] == Entry(KeyAt(k, i), ZERO)
  }

  /** The default array of a map from one code point. */
  method FillFlat(k: Kind) returns (a: array<Entry>)
    requires k == Dot1pToTcColor || k == DscpToTcColor
    ensures fresh(a) && Default(k, a[..])
  {
    a := new Entry[Size(k)](_ => Entry(ZERO, ZERO));
    var i := 0;
    while i < a.Length
      invariant i <= a.Length
      invariant forall j :: 0 <= j < i ==> a[j] == Entry(KeyAt(k, j), ZERO)
    {
      a[i] := Entry(if k == Dot1pToTcColor then ZERO.(dot1p := i)
                    else ZERO.(dscp := i), ZERO.(tc := DEFAULT_TC, color := GREEN));
      i := i + 1;
    }
  }

  /** The default array of a map from traffic class and color, filled column by column. */
  method FillTcColor(k: Kind) returns (a: array<Entry>)
    requires k == TcColorToDot1p || k == TcColorToDscp
    ensures fresh(a) && Default(k, a[..])
  {
    a := new Entry[MAX_TC * MAX_COLORS](_ => Entry(ZERO, ZERO));
    var tc := 0;
    while tc < MAX_TC
      invariant tc <= MAX_TC
      invariant forall i :: 0 <= i < a.Length && i % MAX_TC < tc ==> a[i] == Entry(KeyAt(k, i), ZERO)
    {
      var color := 0;
      while color < MAX_COLORS
        invariant color <= MAX_COLORS
        invariant forall i :: 0 <= i < a.Length && (i % MAX_TC < tc || (i % MAX_TC == tc && i / MAX_TC < color)) ==>
          a[i] == Entry(KeyAt(k, i), ZERO)
      {
        var index := GetIndex(color, tc);
        a[index] := Entry(ZERO.(tc := tc, color := color), ZERO);
        forall i | 0 <= i < a.Length && (i % MAX_TC < tc || (i % MAX_TC == tc && i / MAX_TC < color + 1))
          ensures a[i] == Entry(KeyAt(k, i), ZERO)
        {
          IndexBijection(color, tc, i);
        }
        color := color + 1;
      }
      tc := tc + 1;
    }
  }

  /** The default array of a queue map: a unicast and a multicast slot for each traffic class. */
  method FillTcQueue() returns (a: array<Entry>)
    ensures fresh(a) && Default(TcToQueue, a[..])
  {
    a := new Entry[2 * MAX_TC](_ => Entry(ZERO, ZERO));
    var tc := 0;
    while tc < MAX_TC
      invariant tc <= MAX_TC
      invariant forall i :: 0 <= i < a.Length && i % MAX_TC < tc ==> a[i] == Entry(KeyAt(TcToQueue, i), ZERO)
    {
      a[tc] := Entry(ZERO.(tc := tc), ZERO.(queue := DEFAULT_VALUE));
      a[MAX_TC + tc] := Entry(ZERO.(tc := tc), ZERO.(queue := DEFAULT_VALUE));
      tc := tc + 1;
    }
  }

  lemma DefaultKeys(k: Kind, a: seq<Entry>)
    requires Default(k, a)
    ensures KeysExact(k, a)
  {
  }

  /** The caller's list after a queue map update: multicast queues are renumbered in place. */
  function Renumbered(l: seq<Entry>, n: nat, q: Queues): (r: seq<Entry>)
    requires n <= |l|
    ensures |r| == |l|
  {
    seq(|l|, i requires 0 <= i < |l| =>
      if i < n && IsMulticast(l[i], q) then l[i].(value := l[i].value.(queue := l[i].value.queue - q.unicast))
        else l[i])
  }

  /** Stores the entries of `list` up to the first invalid one, which ends the walk. */
  method UpdateList(k: Kind, a: array<Entry>, list: seq<Entry>, q: Queues) returns (status: Status)
    requires k != TcToQueue && a.Length == Size(k)
    modifies a
    ensures var n := ValidPrefix(k, list, q);
            a[..] == Store(k, old(a[..]), list[..n], q) && status == if n == |list| then Success else InvalidAttrValue
  {
    var i := 0;
    while i < |list|
      invariant i <= ValidPrefix(k, list, q)
      invariant a[..] == Store(k, old(a[..]), list[..i], q)
    {
      var e := list[i];
      if !EntryValid(k, e, q) {
        return InvalidAttrValue;
      }
      StoredInPlace(k, e, q);
      assert list[..i + 1][..i] == list[..i];
      ghost var before := a[..];
      match k {
        case Dot1pToTcColor => a[e.key.dot1p] := Entry(ZERO.(dot1p := e.key.dot1p),
                                                       ZERO.(tc := e.value.tc, color := e.value.color));
        case DscpToTcColor => a[e.key.dscp] := Entry(ZERO.(dscp := e.key.dscp),
                                                     ZERO.(tc := e.value.tc, color := e.value.color));
        case TcColorToDot1p =>
          a[GetIndex(e.key.color, e.key.tc)] := Entry(ZERO.(tc := e.key.tc, color := e.key.color),
                                                      ZERO.(dot1p := e.value.dot1p));
        case TcColorToDscp =>
          a[GetIndex(e.key.color, e.key.tc)] := Entry(ZERO.(tc := e.key.tc, color := e.key.color),
                                                      ZERO.(dscp := e.value.dscp));
      }
      assert a[..] == before[SlotOf(k, e, q) := Stored(k, e, q)];
      i := i + 1;
    }
    assert list[..|list|] == list;
    return Success;
  }

  /** The queue map update, which also renumbers the multicast queues in the list it is given. */
  method UpdateQueueList(a: array<Entry>, list: array<Entry>, q: Queues) returns (status: Status)
    requires a.Length == Size(TcToQueue) && a != list
    modifies a, list
    ensures var n := ValidPrefix(TcToQueue, old(list[..]), q);
            && a[..] == Store(TcToQueue, old(a[..]), old(list[..])[..n], q)
            && list[..] == Renumbered(old(list[..]), n, q)
            && status == if n == list.Length then Success else InvalidAttrValue
  {
    ghost var l := list[..];
    var i := 0;
    while i < list.Length
      invariant i <= ValidPrefix(TcToQueue, l, q)
      invariant a[..] == Store(TcToQueue, old(a[..]), l[..i], q)
      invariant list[..] == Renumbered(l, i, q)
    {
      assert list[i] == l[i];
      var tc := list[i].key.tc;
      if tc >= MAX_TC {
        return InvalidAttrValue;
      }
      if list[i].value.queue >= q.total {
        return InvalidAttrValue;
      }
      assert EntryValid(TcToQueue, l[i], q);
      StoredInPlace(TcToQueue, l[i], q);
      assert l[..i + 1][..i] == l[..i];
      ghost var before := a[..];
      var index := tc;
      if list[i].value.queue >= q.unicast {
        index := MAX_TC + tc;
        list[i] := list[i].(value := list[i].value.(queue := list[i].value.queue - q.unicast));
      }
      a[index] := Entry(ZERO.(tc := tc), ZERO.(queue := list[i].value.queue));
      assert a[..] == before[SlotOf(TcToQueue, l[i], q) := Stored(TcToQueue, l[i], q)];
      i := i + 1;
    }
    assert l[..|l|] == l;
    return Success;
  }

  /**
   The list is left as it was if and only if no stored entry names a multicast queue (or there are no unicast
   queues).
   */
  lemma ListKeptIff(l: seq<Entry>, q: Queues)
    ensures var n := ValidPrefix(TcToQueue, l, q);
            Renumbered(l, n, q) == l <==> q.unicast == 0 || forall i :: 0 <= i < n ==> !IsMulticast(l[i], q)
  {
    var n := ValidPrefix(TcToQueue, l, q);
    var r := Renumbered(l, n, q);
    if i :| 0 <= i < n && IsMulticast(l[i], q) && q.unicast > 0 {
      assert r[i].value.queue != l[i].value.queue;
    } else {
      assert forall i :: 0 <= i < |l| ==> r[i] == l[i];
    }
  }

  /**
   Applying one list twice is then not the same as applying it once: queue 8 of 8 unicast queues becomes
   unicast queue 0.
   */
  lemma SecondUpdateDiffers(a: seq<Entry>)
    requires KeysExact(TcToQueue, a) && a[0].value.queue == 7
    ensures var q := Queues(8, 16);
            var l := [Entry(ZERO, ZERO.(queue := 8))];
            && ValidPrefix(TcToQueue, l, q) == 1
            && Store(TcToQueue, a, l, q)[0].value.queue == 7
            && ValidPrefix(TcToQueue, Renumbered(l, 1, q), q) == 1
            && Store(TcToQueue, Store(TcToQueue, a, l, q), Renumbered(l, 1, q), q)[0].value.queue == 0
  {
    var q := Queues(8, 16);
    var l := [Entry(ZERO, ZERO.(queue := 8))];
    var m := Renumbered(l, 1, q);
    assert l[..0] == [] && m[..0] == [] && m == [Entry(ZERO, ZERO)];
    assert ValidPrefix(TcToQueue, l[1..], q) == 0 && ValidPrefix(TcToQueue, m[1..], q) == 0;
  }

  // ---------------------------------------------------------------------------------------------
  // Two passes over the attributes
  // ---------------------------------------------------------------------------------------------

  /** A type that the code does not know is `None`. */
  datatype Attr = TypeAttr(kind: Option<Kind>) | ListAttr(list: seq<Entry>) | UnknownAttr

  /** A map being created: its type, and its array once filled. */
  datatype Node = Node(kind: Option<Kind>, values: Option<seq<Entry>>)

  function DefaultValues(k: Kind): (r: seq<Entry>)
    ensures Default(k, r)
  {
    seq(Size(k), i requires 0 <= i < Size(k) => Entry(KeyAt(k, i), ZERO))
  }

  /** On creation a list is stored over the defaults of the type. */
  function SetAttr(n: Node, a: Attr, q: Queues): (Status, Node) {
    match a
    case TypeAttr(k) => if k == None then (AttrNotSupported, n) else (Success, n.(kind := k))
    case ListAttr(l) =>
      if n.kind == None then (AttrNotSupported, n)
      else
        var k := n.kind.value;
        var m := ValidPrefix(k, l, q);
        (if m == |l| then Success else InvalidAttrValue, n.(values := Some(Store(k, DefaultValues(k), l[..m], q))))
    case UnknownAttr => (UnknownAttribute, n)
  }

  /** The first type attribute, wherever it stands. */
  function FirstType(attrs: seq<Attr>): Option<Attr> {
    if attrs == [] then None else if attrs[0].TypeAttr? then Some(attrs[0]) else FirstType(attrs[1..])
  }

  /** The other attributes in order, up to the first that fails. */
  function SetOthers(n: Node, attrs: seq<Attr>, q: Queues): (Status, Node)
    decreases |attrs|
  {
    if attrs == [] then (Success, n)
    else if attrs[0].TypeAttr? then SetOthers(n, attrs[1..], q)
    else
      var (st, m) := SetAttr(n, attrs[0], q);
      if st != Success then (st, m) else SetOthers(m, attrs[1..], q)
  }

  function Parse(attrs: seq<Attr>, q: Queues): (Status, Node) {
    var n := Node(None, None);
    var t := FirstType(attrs);
    if t == None then SetOthers(n, attrs, q)
    else
      var (st, m) := SetAttr(n, t.value, q);
      if st != Success then (st, m) else SetOthers(m, attrs, q)
  }

  /** The two loops over the attribute list. */
  method ParseAttrs(attrs: seq<Attr>, q: Queues) returns (status: Status, n: Node)
    ensures (status, n) == Parse(attrs, q)
  {
    n := Node(None, None);
    status := Success;
    var i := 0;
    while i < |attrs| && !attrs[i].TypeAttr?
      invariant i <= |attrs|
      invariant FirstType(attrs) == FirstType(attrs[i..])
    {
      assert attrs[i..][1..] == attrs[i + 1..];
      i := i + 1;
    }
    if i < |attrs| {
      var (st, m) := SetAttr(n, attrs[i], q);
      status, n := st, m;
      if status != Success {
        return;
      }
    }
    ghost var start := n;
    i := 0;
    while i < |attrs|
      invariant i <= |attrs| && status == Success
      invariant SetOthers(start, attrs, q) == SetOthers(n, attrs[i..], q)
    {
      assert attrs[i..][1..] == attrs[i + 1..];
      if !attrs[i].TypeAttr? {
        var (st, m) := SetAttr(n, attrs[i], q);
        status, n := st, m;
        if status != Success {
          return;
        }
      }
      i := i + 1;
    }
  }

  lemma {:induction false} FirstTypeAt(a: seq<Attr>, t: Attr, b: seq<Attr>)
    requires t.TypeAttr? && forall i :: 0 <= i < |a| ==> !a[i].TypeAttr?
    ensures FirstType(a + [t] + b) == Some(t)
  {
    if a != [] {
      assert (a + [t] + b)[1..] == a[1..] + [t] + b;
      FirstTypeAt(a[1..], t, b);
    } else {
      assert (a + [t] + b)[0] == t;
    }
  }

  lemma {:induction false} SetOthersSkips(n: Node, a: seq<Attr>, t: Attr, b: seq<Attr>, q: Queues)
    requires t.TypeAttr?
    ensures SetOthers(n, a + [t] + b, q) == SetOthers(n, a + b, q)
    decreases |a|
  {
    hide SetAttr;
    if a == [] {
      assert a + [t] + b == [t] + b && a + b == b && ([t] + b)[1..] == b;
    } else {
      assert (a + [t] + b)[1..] == a[1..] + [t] + b && (a + b)[1..] == a[1..] + b;
      if a[0].TypeAttr? {
        SetOthersSkips(n, a[1..], t, b, q);
      } else if SetAttr(n, a[0], q).0 == Success {
        SetOthersSkips(SetAttr(n, a[0], q).1, a[1..], t, b, q);
      }
    }
  }

  /** The one type attribute may stand anywhere in the list: the result is that of giving it first. */
  lemma TypeAnywhere(a: seq<Attr>, t: Attr, b: seq<Attr>, q: Queues)
    requires t.TypeAttr? && (forall i :: 0 <= i < |a| ==> !a[i].TypeAttr?)
    ensures Parse(a + [t] + b, q) == Parse([t] + a + b, q)
  {
    hide SetAttr;
    FirstTypeAt(a, t, b);
    FirstTypeAt([], t, a + b);
    assert [] + [t] + (a + b) == [t] + a + b && [] + (a + b) == a + b;
    var n := SetAttr(Node(None, None), t, q).1;
    SetOthersSkips(n, a, t, b, q);
    SetOthersSkips(n, [], t, a + b, q);
  }
}
