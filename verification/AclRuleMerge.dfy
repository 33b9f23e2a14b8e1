/**
 Merging a delta rule into an ACL rule: marking what changed and what is new, then patching and growing
 the field and action lists.
 */
module AclRuleMerge {
  import opened Common
  import opened AclCounterLink

  /** The attribute id of a field or an action; the way its value is stored depends on it. */
  datatype Key = ObjectList(n: nat) | ByteList(n: nat) | Plain(n: nat) | CounterKey

  /**
   A field with its match data and mask, or an action with its parameter as `data` and no mask.
   Lists are held by value; a plain value is the bytes it is stored in.
   */
  datatype Entry = Entry(key: Key, enable: bool, data: seq<int>, mask: seq<int>, changed: bool, isNew: bool)

  const ZERO_ENTRY := Entry(Plain(0), false, [], [], false, false)

  // ---------------------------------------------------------------------------------------------
  // One entry
  // ---------------------------------------------------------------------------------------------

  /**
   The comparison looks through byte lists; of an object list it compares the pointer, and the rule is
   compared through a copy.
   */
  predicate Changed(given: Entry, scan: Entry) {
    || scan.enable != given.enable
    || scan.key.ObjectList?
    || scan.data != given.data
    || scan.mask != given.mask
  }

  /** A list that is disabled is freed; an enabled but empty one leaves the old list in place. */
  function MergedList(src: seq<int>, dst: seq<int>, enable: bool): seq<int> {
    if !enable then [] else if src != [] then src else dst
  }

  function Patched(given: Entry, scan: Entry): Entry {
    match given.key
    case ObjectList(_) => given.(enable := scan.enable, data := MergedList(scan.data, given.data, scan.enable),
                                 changed := false)
    case ByteList(_) =>
      given.(enable := scan.enable, data := MergedList(scan.data, given.data, scan.enable),
             mask := MergedList(scan.mask, given.mask, scan.enable), changed := false)
    case _ => scan.(changed := false)
  }

  /** A new entry starts from zeroed memory; an object list brings no mask along. */
  function NewEntry(scan: Entry): Entry {
    match scan.key
    case ObjectList(_) => Entry(scan.key, scan.enable, MergedList(scan.data, [], scan.enable), [], false, false)
    case ByteList(_) =>
      Entry(scan.key, scan.enable, MergedList(scan.data, [], scan.enable), MergedList(scan.mask, [], scan.enable),
            false, false)
    case _ => scan.(isNew := false)
  }

  // ---------------------------------------------------------------------------------------------
  // Lists of entries
  // ---------------------------------------------------------------------------------------------

  /** The position of the first entry with key `k`, or the length of the list. */
  function Find(l: seq<Entry>, k: Key): (i: nat)
    ensures i <= |l|
    ensures i < |l| ==> l[i].key == k
    ensures forall j :: 0 <= j < i ==> l[j].key != k
  {
    if l == [] || l[0].key == k then 0 else 1 + Find(l[1..], k)
  }

  predicate Has(l: seq<Entry>, k: Key) {
    Find(l, k) < |l|
  }

  function Lookup(l: seq<Entry>, k: Key): Option<Entry> {
    var i := Find(l, k);
    if i < |l| then Some(l[i]) else None
  }

  function Mark(given: seq<Entry>, scan: Entry): Entry {
    var i := Find(given, scan.key);
    if i < |given| then scan.(changed := Changed(given[i], scan)) else scan.(isNew := true)
  }

  function MarkAll(given: seq<Entry>, scan: seq<Entry>): (r: seq<Entry>)
    ensures |r| == |scan|
    ensures forall i :: 0 <= i < |scan| ==> r[i] == Mark(given, scan[i])
  {
    if scan == [] then [] else [Mark(given, scan[0])] + MarkAll(given, scan[1..])
  }

  function CountFresh(scan: seq<Entry>): nat {
    if scan == [] then 0 else CountFresh(scan[..|scan| - 1]) + if scan[|scan| - 1].isNew then 1 else 0
  }

  function PatchOne(given: seq<Entry>, scan: Entry): (r: seq<Entry>)
    ensures |r| == |given|
  {
    var i := Find(given, scan.key);
    if scan.changed && i < |given| then given[i := Patched(given[i], scan)] else given
  }

  function PatchAll(given: seq<Entry>, scan: seq<Entry>): (r: seq<Entry>)
    ensures |r| == |given|
  {
    if scan == [] then given
    else PatchOne(PatchAll(given, scan[..|scan| - 1]), scan[|scan| - 1])
  }

  function NewEntries(scan: seq<Entry>): (r: seq<Entry>)
    ensures |r| == CountFresh(scan)
  {
    if scan == [] then []
    else NewEntries(scan[..|scan| - 1]) + if scan[|scan| - 1].isNew then [NewEntry(scan[|scan| - 1])] else []
  }

  /** The list after a marked delta has been merged into it. */
  function Merged(given: seq<Entry>, marked: seq<Entry>): seq<Entry> {
    PatchAll(given, marked) + NewEntries(marked)
  }

  // ---------------------------------------------------------------------------------------------
  // Well-formed lists
  // ---------------------------------------------------------------------------------------------

  ghost predicate KeysDistinct(l: seq<Entry>) {
    forall i, j :: 0 <= i < j < |l| ==> l[i].key != l[j].key
  }

  ghost predicate Unmarked(l: seq<Entry>) {
    forall i :: 0 <= i < |l| ==> !l[i].changed && !l[i].isNew
  }

  /** The byte count of a byte list is that of its data and of its mask. */
  ghost predicate PairedMasks(l: seq<Entry>) {
    forall i :: 0 <= i < |l| && l[i].key.ByteList? ==> |l[i].data| == |l[i].mask|
  }

  ghost predicate WellFormed(l: seq<Entry>) {
    KeysDistinct(l) && Unmarked(l) && PairedMasks(l)
  }

  // ---------------------------------------------------------------------------------------------
  // Lists as maps
  // ---------------------------------------------------------------------------------------------

  datatype Setting = Setting(enable: bool, data: seq<int>, mask: seq<int>)

  function SettingOf(e: Entry): Setting {
    Setting(e.enable, e.data, e.mask)
  }

  ghost function Keys(l: seq<Entry>): set<Key> {
    set e | e in l :: e.key
  }

  /** What a list says about each of its keys. */
  ghost function AsMap(l: seq<Entry>): map<Key, Setting> {
    map k | k in Keys(l) :: SettingOf(l[FoundKey(l, k)])
  }

  ghost function FoundKey(l: seq<Entry>, k: Key): (i: nat)
    requires k in Keys(l)
    ensures i < |l| && i == Find(l, k)
  {
    Find(l, k)
  }

  lemma FindAt(l: seq<Entry>, i: nat)
    requires KeysDistinct(l) && i < |l|
    ensures Find(l, l[i].key) == i
  {
  }

  lemma AsMapLookup(l: seq<Entry>, k: Key)
    ensures k in AsMap(l) <==> Lookup(l, k).Some?
    ensures k in AsMap(l) ==> AsMap(l)[k] == SettingOf(Lookup(l, k).value)
  {
  }

  lemma FindSameKeys(l: seq<Entry>, m: seq<Entry>, k: Key)
    requires |l| == |m| && forall i :: 0 <= i < |l| ==> l[i].key == m[i].key
    ensures Find(l, k) == Find(m, k)
  {
  }

  lemma {:induction false} LookupAppend(l: seq<Entry>, m: seq<Entry>, k: Key)
    ensures Lookup(l + m, k) == if Lookup(l, k).Some? then Lookup(l, k) else Lookup(m, k)
  {
    if l == [] {
      assert l + m == m;
    } else {
      assert (l + m)[0] == l[0] && (l + m)[1..] == l[1..] + m;
      LookupAppend(l[1..], m, k);
      FindStep(l, k);
      FindStep(l + m, k);
    }
  }

  lemma FindStep(l: seq<Entry>, k: Key)
    requires l != []
    ensures Lookup(l, k) == if l[0].key == k then Some(l[0]) else Lookup(l[1..], k)
  {
  }

  // ---------------------------------------------------------------------------------------------
  // What merging does to one key
  // ---------------------------------------------------------------------------------------------

  /** What becomes of an entry when the delta says `d` about its key. */
  function PatchedBy(given: Entry, d: Option<Entry>): Entry {
    if d.Some? && d.value.changed then Patched(given, d.value) else given
  }

  lemma {:induction false} PatchOneAt(given: seq<Entry>, scan: Entry, i: nat)
    requires KeysDistinct(given) && i < |given|
    ensures PatchOne(given, scan)[i] == if scan.key == given[i].key && scan.changed then Patched(given[i], scan)
      else given[i]
  {
    FindAt(given, i);
  }

  lemma {:induction false} PatchAllKeys(given: seq<Entry>, scan: seq<Entry>)
    ensures forall i :: 0 <= i < |given| ==> PatchAll(given, scan)[i].key == given[i].key
  {
    if scan != [] {
      PatchAllKeys(given, scan[..|scan| - 1]);
    }
  }

  /** Entry `i` is patched by the one delta entry for its key, if that one is marked as a change. */
  lemma {:induction false} PatchAllAt(given: seq<Entry>, scan: seq<Entry>, i: nat)
    requires KeysDistinct(given) && KeysDistinct(scan) && i < |given|
    ensures PatchAll(given, scan)[i] == PatchedBy(given[i], Lookup(scan, given[i].key))
  {
    hide Patched;
    if scan != [] {
      var n := |scan| - 1;
      var rest := scan[..n];
      PatchAllAt(given, rest, i);
      LookupAppend(rest, [scan[n]], given[i].key);
      assert scan == rest + [scan[n]];
      PatchAllKeys(given, rest);
      PatchOneAt(PatchAll(given, rest), scan[n], i);
    }
  }

  /** The new entry for a key is made from the one delta entry for it, if that one is marked as new. */
  lemma {:induction false} NewEntriesLookup(scan: seq<Entry>, k: Key)
    requires KeysDistinct(scan)
    ensures Lookup(NewEntries(scan), k)
         == if Lookup(scan, k).Some? && Lookup(scan, k).value.isNew then Some(NewEntry(Lookup(scan, k).value)) else None
  {
    if scan != [] {
      var n := |scan| - 1;
      var rest := scan[..n];
      var last := if scan[n].isNew then [NewEntry(scan[n])] else [];
      NewEntriesLookup(rest, k);
      LookupAppend(rest, [scan[n]], k);
      LookupAppend(NewEntries(rest), last, k);
      OneEntry(scan[n], k);
      OneEntry(NewEntry(scan[n]), k);
      assert scan == rest + [scan[n]];
      LookupMember(rest, k);
      hide NewEntry, Lookup, Find;
    }
  }

  lemma OneEntry(e: Entry, k: Key)
    ensures Lookup([e], k) == if e.key == k then Some(e) else None
    ensures NewEntry(e).key == e.key
    ensures Lookup([], k) == None
  {
  }

  lemma LookupMember(l: seq<Entry>, k: Key)
    ensures Lookup(l, k).Some? ==> exists i :: 0 <= i < |l| && l[i] == Lookup(l, k).value && l[i].key == k
  {
  }

  lemma {:induction false} MarkedLookup(given: seq<Entry>, scan: seq<Entry>, k: Key)
    ensures Lookup(MarkAll(given, scan), k)
         == if Lookup(scan, k).Some? then Some(Mark(given, Lookup(scan, k).value)) else None
  {
    hide Changed;
    if scan != [] {
      MarkedLookup(given, scan[1..], k);
      OneEntry(Mark(given, scan[0]), k);
      LookupAppend([Mark(given, scan[0])], MarkAll(given, scan[1..]), k);
      LookupAppend([scan[0]], scan[1..], k);
      assert scan == [scan[0]] + scan[1..];
      OneEntry(scan[0], k);
    }
  }

  lemma MarkedKeys(given: seq<Entry>, scan: seq<Entry>)
    requires KeysDistinct(scan)
    ensures KeysDistinct(MarkAll(given, scan))
  {
    hide Changed, Find;
    var m := MarkAll(given, scan);
    assert forall i :: 0 <= i < |m| ==> m[i].key == scan[i].key;
  }

  /** What a merged list says about key `k`, from what the rule and the delta say about it. */
  function MergedEntry(g: Option<Entry>, d: Option<Entry>): Option<Entry> {
    if d == None then g
    else if g == None then Some(NewEntry(d.value))
    else if Changed(g.value, d.value) then Some(Patched(g.value, d.value))
    else g
  }

  lemma {:induction false} PatchAllLookup(given: seq<Entry>, marked: seq<Entry>, k: Key)
    requires KeysDistinct(given) && KeysDistinct(marked)
    ensures Lookup(PatchAll(given, marked), k)
         == if Lookup(given, k).Some? then Some(PatchedBy(Lookup(given, k).value, Lookup(marked, k))) else None
  {
    hide PatchedBy;
    PatchAllKeys(given, marked);
    FindSameKeys(given, PatchAll(given, marked), k);
    if Lookup(given, k).Some? {
      PatchAllAt(given, marked, Find(given, k));
    }
  }

  lemma MergedLookup(given: seq<Entry>, scan: seq<Entry>, k: Key)
    requires KeysDistinct(given) && KeysDistinct(scan) && Unmarked(scan)
    ensures Lookup(Merged(given, MarkAll(given, scan)), k) == MergedEntry(Lookup(given, k), Lookup(scan, k))
  {
    var marked := MarkAll(given, scan);
    MarkedKeys(given, scan);
    MarkedLookup(given, scan, k);
    PatchAllLookup(given, marked, k);
    NewEntriesLookup(marked, k);
    LookupAppend(PatchAll(given, marked), NewEntries(marked), k);
  }

  // ---------------------------------------------------------------------------------------------
  // Merging is overriding
  // ---------------------------------------------------------------------------------------------

  /** The condition on what the rule and the delta hold for one key under which the delta's value is taken over. */
  predicate TakenOver(g: Option<Entry>, d: Entry) {
    var oldData := if g.Some? then g.value.data else [];
    var listTaken := if d.enable then d.data != [] || oldData == [] else d.data == [];
    match d.key
    case ObjectList(_) => listTaken && d.mask == if g.Some? then g.value.mask else []
    case ByteList(_) => listTaken || (g.Some? && !Changed(g.value, d))
    case _ => true
  }

  ghost predicate AllTakenOver(given: seq<Entry>, scan: seq<Entry>) {
    forall i :: 0 <= i < |scan| ==> TakenOver(Lookup(given, scan[i].key), scan[i])
  }

  lemma MergedSetting(g: Option<Entry>, d: Entry)
    requires g.Some? ==> g.value.key == d.key
    requires d.key.ByteList? ==> |d.data| == |d.mask| && (g.Some? ==> |g.value.data| == |g.value.mask|)
    ensures MergedEntry(g, Some(d)).Some?
    ensures SettingOf(MergedEntry(g, Some(d)).value) == SettingOf(d) <==> TakenOver(g, d)
  {
  }

  lemma OverriddenAt(given: seq<Entry>, scan: seq<Entry>, k: Key)
    requires WellFormed(given) && WellFormed(scan)
    ensures var m, o := AsMap(Merged(given, MarkAll(given, scan))), AsMap(given) + AsMap(scan);
            && (k in m <==> k in o)
            && (k in o ==> (m[k] == o[k] <==> Lookup(scan, k).Some? ==>
                            TakenOver(Lookup(given, k), Lookup(scan, k).value)))
  {
    hide Merged, MergedEntry, TakenOver;
    var m := Merged(given, MarkAll(given, scan));
    MergedLookup(given, scan, k);
    AsMapLookup(m, k);
    AsMapLookup(given, k);
    AsMapLookup(scan, k);
    NothingMerged(Lookup(given, k));
    if Lookup(scan, k).Some? {
      MergedSetting(Lookup(given, k), Lookup(scan, k).value);
    }
  }

  lemma NothingMerged(g: Option<Entry>)
    ensures MergedEntry(g, None) == g
  {
  }

  /**
   Merging a delta into a list is overriding one map by another, if and only if no list of the delta
   is enabled but empty where the rule has one, or disabled but not empty.
   */
  lemma MergeOverrides(given: seq<Entry>, scan: seq<Entry>)
    requires WellFormed(given) && WellFormed(scan)
    ensures AsMap(Merged(given, MarkAll(given, scan))) == AsMap(given) + AsMap(scan) <==> AllTakenOver(given, scan)
  {
    hide Merged, TakenOver, AsMap, WellFormed;
    var m, o := AsMap(Merged(given, MarkAll(given, scan))), AsMap(given) + AsMap(scan);
    forall k: Key
      ensures k in m <==> k in o
      ensures k in o ==> (m[k] == o[k] <==> Lookup(scan, k).Some? ==>
                          TakenOver(Lookup(given, k), Lookup(scan, k).value))
    {
      OverriddenAt(given, scan, k);
    }
    forall i | 0 <= i < |scan|
      ensures Lookup(scan, scan[i].key) == Some(scan[i]) && scan[i].key in o
    {
      LookupAt(scan, i);
    }
    if AllTakenOver(given, scan) {
      forall k: Key | Lookup(scan, k).Some?
        ensures TakenOver(Lookup(given, k), Lookup(scan, k).value)
      {
        LookupMember(scan, k);
      }
      assert m == o;
    } else {
      var i :| 0 <= i < |scan| && !TakenOver(Lookup(given, scan[i].key), scan[i]);
      assert m[scan[i].key] != o[scan[i].key];
    }
  }

  lemma LookupAt(l: seq<Entry>, i: nat)
    requires WellFormed(l) && i < |l|
    ensures Lookup(l, l[i].key) == Some(l[i]) && l[i].key in AsMap(l)
  {
    FindAt(l, i);
  }

  /**
   What the attribute parser builds: a list is given exactly when it is enabled, and object lists come
   without a mask.
   */
  ghost predicate Populated(l: seq<Entry>) {
    forall i :: 0 <= i < |l| ==>
      && (l[i].key.ObjectList? || l[i].key.ByteList? ==> (l[i].enable <==> l[i].data != []))
      && (l[i].key.ObjectList? ==> l[i].mask == [])
  }

  /** Distinct keys, no marks, equal byte counts, and lists given exactly when enabled. */
  ghost predicate Parsed(l: seq<Entry>) {
    WellFormed(l) && Populated(l)
  }

  /** A parsed delta overrides a rule made of parsed attributes, and the result is again of that kind. */
  lemma PopulatedOverrides(given: seq<Entry>, scan: seq<Entry>)
    requires WellFormed(given) && WellFormed(scan) && Populated(given) && Populated(scan)
    ensures AsMap(Merged(given, MarkAll(given, scan))) == AsMap(given) + AsMap(scan)
  {
    MergeOverrides(given, scan);
    forall i | 0 <= i < |scan|
      ensures TakenOver(Lookup(given, scan[i].key), scan[i])
    {
      LookupMember(given, scan[i].key);
    }
  }

  const A_LIST := Entry(ByteList(1), true, [5], [255], false, false)
  const EMPTY_LIST := Entry(ByteList(1), true, [], [], false, false)

  /** A byte list enabled without bytes, which the parser refuses, would leave the rule's bytes where they are. */
  lemma EmptyListKept()
    ensures WellFormed([A_LIST]) && WellFormed([EMPTY_LIST])
    ensures AsMap(Merged([A_LIST], MarkAll([A_LIST], [EMPTY_LIST]))) != AsMap([A_LIST]) + AsMap([EMPTY_LIST])
  {
    OneEntry(A_LIST, A_LIST.key);
    hide Merged, AsMap;
    MergeOverrides([A_LIST], [EMPTY_LIST]);
    assert !TakenOver(Lookup([A_LIST], [EMPTY_LIST][0].key), [EMPTY_LIST][0]);
  }

  // ---------------------------------------------------------------------------------------------
  // Order, distinct keys, flags
  // ---------------------------------------------------------------------------------------------

  function KeyOrder(l: seq<Entry>): (r: seq<Key>) {
    if l == [] then [] else KeyOrder(l[..|l| - 1]) + [l[|l| - 1].key]
  }

  /** The keys of `scan` that `given` lacks, in the order of `scan`. */
  function MissingKeys(given: seq<Entry>, scan: seq<Entry>): seq<Key> {
    if scan == [] then []
    else MissingKeys(given, scan[..|scan| - 1]) + if Has(given, scan[|scan| - 1].key) then []
      else [scan[|scan| - 1].key]
  }

  lemma {:induction false} KeyOrderAt(l: seq<Entry>)
    ensures |KeyOrder(l)| == |l|
    ensures forall i :: 0 <= i < |l| ==> KeyOrder(l)[i] == l[i].key
  {
    if l != [] {
      KeyOrderAt(l[..|l| - 1]);
    }
  }

  lemma {:induction false} KeyOrderAppend(l: seq<Entry>, m: seq<Entry>)
    ensures KeyOrder(l + m) == KeyOrder(l) + KeyOrder(m)
  {
    KeyOrderAt(l);
    KeyOrderAt(m);
    KeyOrderAt(l + m);
  }

  lemma {:induction false} NewKeysOrder(given: seq<Entry>, scan: seq<Entry>, marked: seq<Entry>)
    requires Unmarked(scan) && marked == MarkAll(given, scan)
    ensures KeyOrder(NewEntries(marked)) == MissingKeys(given, scan)
  {
    hide Changed, NewEntry, Find;
    if scan == [] {
    } else {
      var n := |scan| - 1;
      assert marked[..n] == MarkAll(given, scan[..n]);
      NewKeysOrder(given, scan[..n], marked[..n]);
      var last := if marked[n].isNew then [NewEntry(marked[n])] else [];
      assert NewEntries(marked) == NewEntries(marked[..n]) + last;
      KeyOrderAppend(NewEntries(marked[..n]), last);
      KeyOrderAt(last);
      OneEntry(marked[n], marked[n].key);
    }
  }

  /** The old keys keep their order and the missing ones are appended in the delta's order. */
  lemma MergeKeepsOrder(given: seq<Entry>, scan: seq<Entry>)
    requires Unmarked(scan)
    ensures KeyOrder(Merged(given, MarkAll(given, scan))) == KeyOrder(given) + MissingKeys(given, scan)
  {
    var marked := MarkAll(given, scan);
    PatchAllKeys(given, marked);
    KeyOrderAt(given);
    KeyOrderAt(PatchAll(given, marked));
    assert KeyOrder(PatchAll(given, marked)) == KeyOrder(given);
    KeyOrderAppend(PatchAll(given, marked), NewEntries(marked));
    NewKeysOrder(given, scan, marked);
  }

  lemma {:induction false} MissingKeysDistinct(given: seq<Entry>, scan: seq<Entry>)
    requires KeysDistinct(scan)
    ensures Distinct(MissingKeys(given, scan))
    ensures forall k :: k in MissingKeys(given, scan) ==> !Has(given, k) && Has(scan, k)
  {
    if scan != [] {
      var n := |scan| - 1;
      MissingKeysDistinct(given, scan[..n]);
      forall k | k in MissingKeys(given, scan[..n])
        ensures Has(scan, k) && k != scan[n].key
      {
        var i := Find(scan[..n], k);
        assert scan[i] == scan[..n][i] && scan[i].key == k;
        FindAt(scan, i);
      }
      FindAt(scan, n);
    }
  }

  lemma DistinctKeysOrder(l: seq<Entry>)
    ensures KeysDistinct(l) <==> Distinct(KeyOrder(l))
  {
    KeyOrderAt(l);
  }

  lemma MergeKeepsKeysDistinct(given: seq<Entry>, scan: seq<Entry>)
    requires KeysDistinct(given) && KeysDistinct(scan) && Unmarked(scan)
    ensures KeysDistinct(Merged(given, MarkAll(given, scan)))
  {
    hide Merged, MissingKeys, KeyOrder, KeysDistinct;
    MergeKeepsOrder(given, scan);
    DistinctKeysOrder(given);
    MissingKeysDistinct(given, scan);
    DistinctKeysOrder(Merged(given, MarkAll(given, scan)));
    var a, b := KeyOrder(given), MissingKeys(given, scan);
    forall i, j | 0 <= i < j < |a + b|
      ensures (a + b)[i] != (a + b)[j]
    {
      if i < |a| <= j {
        KeyOrderAt(given);
        KeyPresent(given, i);
        assert b[j - |a|] in b;
      }
    }
  }

  lemma KeyPresent(l: seq<Entry>, i: nat)
    requires i < |l|
    ensures Has(l, l[i].key)
  {
  }

  /** Every entry of a merged list is unmarked, paired and, for parsed lists, populated. */
  lemma MergedEntryClean(g: Option<Entry>, d: Option<Entry>)
    requires g.Some? ==> WellFormed([g.value])
    requires d.Some? ==> WellFormed([d.value])
    requires g.Some? && d.Some? ==> g.value.key == d.value.key
    ensures var r := MergedEntry(g, d);
            r.Some? ==> && WellFormed([r.value])
                        && ((g.Some? ==> Populated([g.value])) && (d.Some? ==> Populated([d.value])) ==>
                            Populated([r.value]))
  {
    assert g.Some? ==> [g.value][0] == g.value;
    assert d.Some? ==> [d.value][0] == d.value;
  }

  lemma MergedEntryAt(given: seq<Entry>, scan: seq<Entry>, i: nat)
    requires WellFormed(given) && WellFormed(scan)
    requires i < |Merged(given, MarkAll(given, scan))|
    ensures var e := Merged(given, MarkAll(given, scan))[i];
            WellFormed([e]) && (Populated(given) && Populated(scan) ==> Populated([e]))
  {
    WellFormedParts(given);
    WellFormedParts(scan);
    hide Merged, MarkAll, MergedEntry, Find, Lookup, WellFormed, Populated, KeysDistinct;
    var m := Merged(given, MarkAll(given, scan));
    var k := m[i].key;
    MergeKeepsKeysDistinct(given, scan);
    LookupIs(m, i);
    MergedLookup(given, scan, k);
    LookupClean(given, k);
    LookupClean(scan, k);
    MergedEntryClean(Lookup(given, k), Lookup(scan, k));
  }

  lemma WellFormedParts(l: seq<Entry>)
    requires WellFormed(l)
    ensures KeysDistinct(l) && Unmarked(l)
  {
  }

  lemma LookupIs(l: seq<Entry>, i: nat)
    requires KeysDistinct(l) && i < |l|
    ensures Lookup(l, l[i].key) == Some(l[i])
  {
    FindAt(l, i);
  }

  lemma LookupClean(l: seq<Entry>, k: Key)
    requires WellFormed(l)
    ensures Lookup(l, k).Some? ==>
      && Lookup(l, k).value.key == k && WellFormed([Lookup(l, k).value])
      && (Populated(l) ==> Populated([Lookup(l, k).value]))
  {
    LookupMember(l, k);
  }

  lemma EveryEntryClean(l: seq<Entry>)
    requires KeysDistinct(l) && forall i :: 0 <= i < |l| ==> WellFormed([l[i]])
    ensures WellFormed(l)
    ensures (forall i :: 0 <= i < |l| ==> Populated([l[i]])) ==> Populated(l)
  {
    assert forall i :: 0 <= i < |l| ==> [l[i]][0] == l[i];
  }

  /** Distinct keys, cleared flags and equal byte counts are kept by every merge. */
  lemma MergeKeepsWellFormed(given: seq<Entry>, scan: seq<Entry>)
    requires WellFormed(given) && WellFormed(scan)
    ensures WellFormed(Merged(given, MarkAll(given, scan)))
    ensures Populated(given) && Populated(scan) ==> Populated(Merged(given, MarkAll(given, scan)))
  {
    MergeKeepsKeysDistinct(given, scan);
    hide Merged, WellFormed, Populated;
    var m := Merged(given, MarkAll(given, scan));
    forall i | 0 <= i < |m|
      ensures WellFormed([m[i]]) && (Populated(given) && Populated(scan) ==> Populated([m[i]]))
    {
      MergedEntryAt(given, scan, i);
    }
    EveryEntryClean(m);
  }

  // ---------------------------------------------------------------------------------------------
  // Merges that stop half-way
  // ---------------------------------------------------------------------------------------------

  /** What a map says about some keys only. */
  ghost function OnlyKeys(m: map<Key, Setting>, keys: set<Key>): map<Key, Setting> {
    map k | k in m && k in keys :: m[k]
  }

  lemma MergeKeepsParsed(given: seq<Entry>, scan: seq<Entry>)
    requires Parsed(given) && Parsed(scan)
    ensures Parsed(Merged(given, MarkAll(given, scan)))
  {
    hide Merged, WellFormed, Populated;
    MergeKeepsWellFormed(given, scan);
  }

  lemma PrefixParsed(l: seq<Entry>, n: nat)
    requires Parsed(l) && n <= |l|
    ensures Parsed(l[..n])
  {
  }

  /** Patching without appending is overriding the keys that the rule already has. */
  lemma PatchOverrides(given: seq<Entry>, scan: seq<Entry>)
    requires Parsed(given) && Parsed(scan)
    ensures var r := PatchAll(given, MarkAll(given, scan));
            && AsMap(r) == OnlyKeys(AsMap(given) + AsMap(scan), Keys(given))
            && KeyOrder(r) == KeyOrder(given)
            && Parsed(r)
  {
    hide PatchAll, WellFormed, Populated, AsMap, KeyOrder, Keys;
    var marked := MarkAll(given, scan);
    var r, m := PatchAll(given, marked), Merged(given, marked);
    assert m[..|given|] == r;
    MergeKeepsParsed(given, scan);
    PrefixParsed(m, |given|);
    PatchAllKeys(given, marked);
    SameKeyOrder(given, r);
    PopulatedOverrides(given, scan);
    forall k: Key
      ensures k in AsMap(r) <==> k in AsMap(given)
      ensures k in AsMap(given) ==> k in AsMap(m) && AsMap(r)[k] == AsMap(m)[k]
      ensures k in AsMap(given) <==> k in Keys(given)
    {
      FindSameKeys(given, r, k);
      LookupAppend(r, NewEntries(marked), k);
      AsMapLookup(r, k);
      AsMapLookup(m, k);
      AsMapLookup(given, k);
      AsMapKeys(given, k);
    }
  }

  lemma AsMapKeys(l: seq<Entry>, k: Key)
    ensures k in AsMap(l) <==> k in Keys(l)
  {
  }

  lemma SameKeyOrder(l: seq<Entry>, m: seq<Entry>)
    requires |l| == |m| && forall i :: 0 <= i < |l| ==> l[i].key == m[i].key
    ensures KeyOrder(l) == KeyOrder(m)
  {
    KeyOrderAt(l);
    KeyOrderAt(m);
  }

  lemma {:induction false} MarkAllPrefix(given: seq<Entry>, scan: seq<Entry>, n: nat)
    requires n <= |scan|
    ensures MarkAll(given, scan)[..n] == MarkAll(given, scan[..n])
  {
    hide Mark;
  }
}
