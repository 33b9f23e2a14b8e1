/** Updating a whole ACL rule from a marked delta: fields, actions and the attached counter, with the early exits. */
module AclRuleUpdate {
  import opened Common
  import opened AclCounterLink
  import opened AclRuleMerge

  // ---------------------------------------------------------------------------------------------
  // What the update computes
  // ---------------------------------------------------------------------------------------------

  /** An action list being built, with the counter link; the walk goes on while the link's status is success. */
  datatype Work = Work(list: seq<Entry>, link: Link)

  function PatchAction(w: Work, tableId: Oid, e: Entry, counter: Oid, v: nat -> bool): Work {
    if !e.changed || !Has(w.list, e.key) then w
    else if e.key == CounterKey then
      var l := UpdateCounter(w.link, tableId, counter, e.enable, v);
      Work(if l.status == Success then PatchOne(w.list, e) else w.list, l)
    else Work(PatchOne(w.list, e), w.link)
  }

  function PatchActions(w: Work, tableId: Oid, scan: seq<Entry>, counter: Oid, v: nat -> bool): Work {
    if scan == [] then w
    else
      var b := PatchActions(w, tableId, scan[..|scan| - 1], counter, v);
      if b.link.status != Success then b else PatchAction(b, tableId, scan[|scan| - 1], counter, v)
  }

  function AppendAction(w: Work, tableId: Oid, e: Entry, counter: Oid, v: nat -> bool): Work {
    if !e.isNew then w
    else if e.key == CounterKey then
      var l := UpdateCounter(w.link, tableId, counter, e.enable, v);
      Work(if l.status == Success then w.list + [NewEntry(e)] else w.list, l)
    else Work(w.list + [NewEntry(e)], w.link)
  }

  function AppendActions(w: Work, tableId: Oid, scan: seq<Entry>, counter: Oid, v: nat -> bool): Work {
    if scan == [] then w
    else
      var b := AppendActions(w, tableId, scan[..|scan| - 1], counter, v);
      if b.link.status != Success then b else AppendAction(b, tableId, scan[|scan| - 1], counter, v)
  }

  datatype RuleState = RuleState(filters: seq<Entry>, actions: seq<Entry>, link: Link)

  /** Field changes, action changes, new fields, new actions; a counter that cannot be linked ends the update. */
  function UpdateSpec(s: RuleState, tableId: Oid, fields: seq<Entry>, actions: seq<Entry>, counter: Oid,
                      v: nat -> bool): RuleState {
    var f := PatchAll(s.filters, fields);
    var p := PatchActions(Work(s.actions, s.link.(status := Success)), tableId, actions, counter, v);
    if p.link.status != Success then RuleState(f, p.list, p.link)
    else
      var n := AppendActions(p, tableId, actions, counter, v);
      RuleState(f + NewEntries(fields), if n.link.status == Success then n.list else p.list, n.link)
  }

  /** The rule set: marking, the NPU, and then the update, whose own status is ignored. */
  function ScanSpec(s: RuleState, tableId: Oid, fields: seq<Entry>, actions: seq<Entry>, counter: Oid,
                    v: nat -> bool): (Status, RuleState) {
    var s1 := s.(link := s.link.(calls := s.link.calls + 1));
    if !v(s.link.calls) then (NpuError, s1)
    else (Success, UpdateSpec(s1, tableId, MarkAll(s.filters, fields), MarkAll(s.actions, actions), counter, v))
  }

  // ---------------------------------------------------------------------------------------------
  // The lists
  // ---------------------------------------------------------------------------------------------

  lemma {:induction false} PatchActionsList(w: Work, tableId: Oid, scan: seq<Entry>, counter: Oid, v: nat -> bool)
    requires PatchActions(w, tableId, scan, counter, v).link.status == Success
    ensures PatchActions(w, tableId, scan, counter, v).list == PatchAll(w.list, scan)
  {
    hide UpdateCounter;
    if scan != [] {
      PatchActionsList(w, tableId, scan[..|scan| - 1], counter, v);
    }
  }

  lemma {:induction false} AppendActionsList(w: Work, tableId: Oid, scan: seq<Entry>, counter: Oid, v: nat -> bool)
    requires AppendActions(w, tableId, scan, counter, v).link.status == Success
    ensures AppendActions(w, tableId, scan, counter, v).list == w.list + NewEntries(scan)
  {
    hide UpdateCounter, NewEntry;
    if scan != [] {
      AppendActionsList(w, tableId, scan[..|scan| - 1], counter, v);
    }
  }

  /** An update in which the counter could be linked has merged both lists. */
  lemma UpdateMerges(s: RuleState, tableId: Oid, fields: seq<Entry>, actions: seq<Entry>, counter: Oid, v: nat -> bool)
    requires UpdateSpec(s, tableId, fields, actions, counter, v).link.status == Success
    ensures UpdateSpec(s, tableId, fields, actions, counter, v).filters == Merged(s.filters, fields)
    ensures UpdateSpec(s, tableId, fields, actions, counter, v).actions == Merged(s.actions, actions)
  {
    var w := Work(s.actions, s.link.(status := Success));
    PatchActionsList(w, tableId, actions, counter, v);
    AppendActionsList(PatchActions(w, tableId, actions, counter, v), tableId, actions, counter, v);
  }

  // ---------------------------------------------------------------------------------------------
  // The counter
  // ---------------------------------------------------------------------------------------------

  /** The counter that an action list asks for, or none. */
  function CounterOf(actions: seq<Entry>): Oid {
    var e := Lookup(actions, CounterKey);
    if e.Some? && e.value.enable && |e.value.data| == 1 && e.value.data[0] >= 0 then e.value.data[0] else NULL_ID
  }

  lemma {:induction false} PatchActionsLink(w: Work, tableId: Oid, scan: seq<Entry>, counter: Oid, v: nat -> bool)
    requires KeysDistinct(scan) && w.link.status == Success
    ensures var e := Lookup(scan, CounterKey);
            PatchActions(w, tableId, scan, counter, v).link
            == if e.Some? && e.value.changed && Has(w.list, CounterKey) then
              UpdateCounter(w.link, tableId, counter, e.value.enable, v)
               else w.link
  {
    hide UpdateCounter;
    if scan != [] {
      var n := |scan| - 1;
      var rest := scan[..n];
      var b := PatchActions(w, tableId, rest, counter, v);
      PatchActionsLink(w, tableId, rest, counter, v);
      assert scan == rest + [scan[n]];
      LookupAppend(rest, [scan[n]], CounterKey);
      OneEntry(scan[n], CounterKey);
      if scan[n].key == CounterKey {
        OnceIn(scan, n);
        if b.link.status == Success {
          PatchActionsList(w, tableId, rest, counter, v);
          PatchAllKeys(w.list, rest);
          FindSameKeys(w.list, b.list, CounterKey);
        }
      }
    }
  }

  lemma OnceIn(scan: seq<Entry>, n: nat)
    requires KeysDistinct(scan) && n == |scan| - 1
    ensures Lookup(scan[..n], scan[n].key) == None
  {
  }

  lemma {:induction false} AppendActionsLink(w: Work, tableId: Oid, scan: seq<Entry>, counter: Oid, v: nat -> bool)
    requires KeysDistinct(scan) && w.link.status == Success
    ensures var e := Lookup(scan, CounterKey);
            AppendActions(w, tableId, scan, counter, v).link
            == if e.Some? && e.value.isNew then UpdateCounter(w.link, tableId, counter, e.value.enable, v) else w.link
  {
    hide UpdateCounter, NewEntry;
    if scan != [] {
      var n := |scan| - 1;
      var rest := scan[..n];
      AppendActionsLink(w, tableId, rest, counter, v);
      assert scan == rest + [scan[n]];
      LookupAppend(rest, [scan[n]], CounterKey);
      OneEntry(scan[n], CounterKey);
      if scan[n].key == CounterKey {
        OnceIn(scan, n);
      }
    }
  }

  /** The delta's counter action, if it differs from what the rule has. */
  function CounterChange(given: seq<Entry>, scan: seq<Entry>): Option<bool> {
    var g, e := Lookup(given, CounterKey), Lookup(scan, CounterKey);
    if e == None || (g.Some? && !Changed(g.value, e.value)) then None else Some(e.value.enable)
  }

  /** The update relinks the counter once when the counter action changes, and otherwise leaves it alone. */
  lemma UpdateLink(s: RuleState, tableId: Oid, fields: seq<Entry>, scan: seq<Entry>, counter: Oid, v: nat -> bool)
    requires KeysDistinct(scan) && Unmarked(scan)
    ensures var l0 := s.link.(status := Success);
            UpdateSpec(s, tableId, fields, MarkAll(s.actions, scan), counter, v).link
            == match CounterChange(s.actions, scan)
               case None => l0
               case Some(enable) => UpdateCounter(l0, tableId, counter, enable, v)
  {
    hide UpdateCounter, Changed, Find;
    var marked := MarkAll(s.actions, scan);
    var w := Work(s.actions, s.link.(status := Success));
    MarkedKeys(s.actions, scan);
    MarkedLookup(s.actions, scan, CounterKey);
    LookupMember(scan, CounterKey);
    PatchActionsLink(w, tableId, marked, counter, v);
    var p := PatchActions(w, tableId, marked, counter, v);
    if p.link.status == Success {
      AppendActionsLink(p, tableId, marked, counter, v);
    }
  }

  lemma UpdateCounterId(l: Link, tableId: Oid, id: Oid, enable: bool, v: nat -> bool)
    requires enable ==> id != NULL_ID
    ensures var r := UpdateCounter(l, tableId, id, enable, v);
            && (r.status == Success ==> r.counterId == if enable then id else NULL_ID)
            && (r.status != Success ==> r.counterId == if enable && AttachFails(l, tableId, id, v) then id
                else l.counterId)
            && (enable && AttachFails(l, tableId, id, v) ==> r.status != Success && l.counterId != id)
  {
  }

  lemma CounterOfPatched(given: seq<Entry>, scan: seq<Entry>)
    requires KeysDistinct(given) && WellFormed(scan)
    ensures Lookup(scan, CounterKey) == None ==> CounterOf(Merged(given, MarkAll(given, scan))) == CounterOf(given)
    ensures Lookup(scan, CounterKey).Some? ==> CounterOf(Merged(given, MarkAll(given, scan))) == CounterOf(scan)
    ensures CounterChange(given, scan) == None && Lookup(scan, CounterKey).Some? ==> CounterOf(given) == CounterOf(scan)
  {
    hide Merged, Find;
    MergedLookup(given, scan, CounterKey);
    LookupMember(given, CounterKey);
    LookupMember(scan, CounterKey);
  }

  /** A failed update has not touched the counter action. */
  lemma {:induction false} FailedUpdateKeepsCounterAction(s: RuleState, tableId: Oid, fields: seq<Entry>,
                                                          scan: seq<Entry>, counter: Oid, v: nat -> bool)
    requires KeysDistinct(s.actions) && WellFormed(scan)
    requires UpdateSpec(s, tableId, fields, MarkAll(s.actions, scan), counter, v).link.status != Success
    ensures CounterOf(UpdateSpec(s, tableId, fields, MarkAll(s.actions, scan), counter, v).actions)
      == CounterOf(s.actions)
  {
    hide UpdateCounter, Changed, Find, WellFormed;
    var marked := MarkAll(s.actions, scan);
    var w := Work(s.actions, s.link.(status := Success));
    WellFormedKeys(scan);
    MarkedKeys(s.actions, scan);
    MarkedLookup(s.actions, scan, CounterKey);
    LookupMember(scan, CounterKey);
    PatchActionsLink(w, tableId, marked, counter, v);
    var p := PatchActions(w, tableId, marked, counter, v);
    if p.link.status != Success {
      FailedPatch(w, tableId, marked, counter, v);
    } else {
      AppendActionsLink(p, tableId, marked, counter, v);
      PatchActionsList(w, tableId, marked, counter, v);
      PatchAllLookup(s.actions, marked, CounterKey);
    }
  }

  lemma WellFormedKeys(l: seq<Entry>)
    requires WellFormed(l)
    ensures KeysDistinct(l) && Unmarked(l)
  {
  }

  /** The walk that fails has patched what stands before the counter action, and the rule had that action. */
  lemma {:induction false} FailedPatchList(w: Work, tableId: Oid, scan: seq<Entry>, counter: Oid, v: nat -> bool)
    requires KeysDistinct(scan) && w.link.status == Success
    requires PatchActions(w, tableId, scan, counter, v).link.status != Success
    ensures Has(scan, CounterKey)
    ensures PatchActions(w, tableId, scan, counter, v).list == PatchAll(w.list, scan[..Find(scan, CounterKey)])
  {
    hide UpdateCounter, Patched;
    if scan != [] {
      var n := |scan| - 1;
      var rest := scan[..n];
      var b := PatchActions(w, tableId, rest, counter, v);
      if b.link.status != Success {
        FailedPatchList(w, tableId, rest, counter, v);
        FindPrefix(scan, n, CounterKey);
        assert rest[..Find(scan, CounterKey)] == scan[..Find(scan, CounterKey)];
      } else {
        FindAt(scan, n);
        PatchActionsList(w, tableId, rest, counter, v);
      }
    }
  }

  lemma FindPrefix(l: seq<Entry>, n: nat, k: Key)
    requires n <= |l| && Has(l[..n], k)
    ensures Find(l, k) == Find(l[..n], k)
  {
    var i := Find(l[..n], k);
    assert l[i] == l[..n][i];
    assert forall j :: 0 <= j < i ==> l[j] == l[..n][j];
  }

  /** Until the walk fails it has passed no counter action; the action that fails it is not patched. */
  lemma FailedPatch(w: Work, tableId: Oid, scan: seq<Entry>, counter: Oid, v: nat -> bool)
    requires KeysDistinct(w.list) && KeysDistinct(scan) && w.link.status == Success
    requires PatchActions(w, tableId, scan, counter, v).link.status != Success
    ensures Lookup(PatchActions(w, tableId, scan, counter, v).list, CounterKey) == Lookup(w.list, CounterKey)
  {
    hide PatchAction, PatchActions, PatchAll;
    FailedPatchList(w, tableId, scan, counter, v);
    var before := scan[..Find(scan, CounterKey)];
    assert forall j :: 0 <= j < |before| ==> before[j] == scan[j] && before[j].key != CounterKey;
    PatchAllLookup(w.list, before, CounterKey);
  }

  /**
   After a rule set the rule's counter id is the object of its enabled counter action, or none, if and
   only if the set did not fail while attaching a new counter.
   */
  lemma CounterMatchesAction(s: RuleState, tableId: Oid, fields: seq<Entry>, scan: seq<Entry>, counter: Oid,
                             v: nat -> bool)
    requires KeysDistinct(s.actions) && WellFormed(scan)
    requires s.link.counterId == CounterOf(s.actions)
    requires counter == CounterOf(scan) && (forall e :: Lookup(scan, CounterKey) == Some(e) && e.enable ==>
                                            counter != NULL_ID)
    ensures var t := UpdateSpec(s, tableId, fields, MarkAll(s.actions, scan), counter, v);
            var failed := CounterChange(s.actions, scan) == Some(true)
              && AttachFails(s.link.(status := Success), tableId, counter, v);
            t.link.counterId == CounterOf(t.actions) <==> !failed
  {
    hide UpdateCounter, UpdateSpec, AttachFails, Merged, Find, WellFormed;
    WellFormedKeys(scan);
    var t := UpdateSpec(s, tableId, fields, MarkAll(s.actions, scan), counter, v);
    UpdateLink(s, tableId, fields, scan, counter, v);
    CounterOfPatched(s.actions, scan);
    var change := CounterChange(s.actions, scan);
    if change.Some? {
      UpdateCounterId(s.link.(status := Success), tableId, counter, change.value, v);
    }
    if t.link.status == Success {
      UpdateMerges(s, tableId, fields, MarkAll(s.actions, scan), counter, v);
    } else {
      FailedUpdateKeepsCounterAction(s, tableId, fields, scan, counter, v);
    }
  }

  // ---------------------------------------------------------------------------------------------
  // The whole set call
  // ---------------------------------------------------------------------------------------------

  /**
   The counter action does not change, or what it asks for can be detached and attached, right after the set
   itself.
   */
  predicate CounterLinked(s: RuleState, tableId: Oid, scan: seq<Entry>, counter: Oid, v: nat -> bool) {
    var change := CounterChange(s.actions, scan);
    change.Some? ==> Relinks(s.link.(calls := s.link.calls + 1), tableId, counter, change.value, v)
  }

  ghost predicate RuleParsed(s: RuleState) {
    Parsed(s.filters) && Parsed(s.actions)
  }

  /** The update fails in one of two ways: at a changed counter action, or at a new one. */
  lemma UpdateFails(s: RuleState, tableId: Oid, fields: seq<Entry>, actions: seq<Entry>, counter: Oid, v: nat -> bool)
    requires WellFormed(actions)
    requires CounterChange(s.actions, actions).Some?
    requires !Relinks(s.link, tableId, counter, CounterChange(s.actions, actions).value, v)
    ensures Has(actions, CounterKey)
    ensures var t := UpdateSpec(s, tableId, fields, MarkAll(s.actions, actions), counter, v);
            var n := Find(actions, CounterKey);
            if Has(s.actions, CounterKey) then
              && t.filters == PatchAll(s.filters, fields)
              && t.actions == PatchAll(s.actions, MarkAll(s.actions, actions[..n]))
            else
              && t.filters == Merged(s.filters, fields)
              && t.actions == PatchAll(s.actions, MarkAll(s.actions, actions))
  {
    hide UpdateCounter, Relinks, PatchActions, AppendActions, Changed, Find, WellFormed, PatchAll;
    var marked := MarkAll(s.actions, actions);
    var w := Work(s.actions, s.link.(status := Success));
    var p := PatchActions(w, tableId, marked, counter, v);
    WellFormedKeys(actions);
    MarkedKeys(s.actions, actions);
    MarkedLookup(s.actions, actions, CounterKey);
    LookupMember(actions, CounterKey);
    RelinksExact(w.link, tableId, counter, CounterChange(s.actions, actions).value, v);
    RelinksStatus(s.link, tableId, counter, CounterChange(s.actions, actions).value, v);
    PatchActionsLink(w, tableId, marked, counter, v);
    if p.link.status != Success {
      FailedPatchList(w, tableId, marked, counter, v);
      MarkedFind(s.actions, actions, CounterKey);
      MarkAllPrefix(s.actions, actions, Find(actions, CounterKey));
    } else {
      PatchActionsList(w, tableId, marked, counter, v);
      AppendActionsLink(p, tableId, marked, counter, v);
    }
  }

  lemma RelinksStatus(l: Link, tableId: Oid, id: Oid, enable: bool, v: nat -> bool)
    ensures Relinks(l, tableId, id, enable, v) <==> Relinks(l.(status := Success), tableId, id, enable, v)
  {
  }

  lemma MarkedFind(given: seq<Entry>, scan: seq<Entry>, k: Key)
    ensures Find(MarkAll(given, scan), k) == Find(scan, k)
  {
    hide Changed, Find;
    FindSameKeys(MarkAll(given, scan), scan, k);
  }

  /**
   A map that keeps what the rule says of its counter action is not the rule overridden by a delta that
   changes it.
   */
  lemma ChangedCounterMissing(given: seq<Entry>, scan: seq<Entry>, m: map<Key, Setting>)
    requires CounterChange(given, scan).Some?
    requires CounterKey in m <==> CounterKey in AsMap(given)
    requires CounterKey in m ==> m[CounterKey] == AsMap(given)[CounterKey]
    ensures m != AsMap(given) + AsMap(scan)
  {
    hide AsMap;
    AsMapLookup(given, CounterKey);
    AsMapLookup(scan, CounterKey);
    LookupMember(scan, CounterKey);
    assert CounterKey in AsMap(given) + AsMap(scan);
    assert (AsMap(given) + AsMap(scan))[CounterKey] == AsMap(scan)[CounterKey];
  }

  /**
   What a set leaves behind when the NPU accepts it but the counter cannot be linked: of a changed
   counter action, the field changes and the action changes before it; of a new one, all the fields
   and the action changes. Nothing is reported.
   */
  lemma SetPartly(s: RuleState, tableId: Oid, fields: seq<Entry>, actions: seq<Entry>, counter: Oid, v: nat -> bool)
    requires RuleParsed(s) && Parsed(fields) && Parsed(actions)
    requires v(s.link.calls) && !CounterLinked(s, tableId, actions, counter, v)
    ensures var (st, t) := ScanSpec(s, tableId, fields, actions, counter, v);
            var changed := Has(s.actions, CounterKey);
            var before := if changed then actions[..Find(actions, CounterKey)] else actions;
            var overridden := AsMap(s.filters) + AsMap(fields);
            && st == Success
            && AsMap(t.filters) == (if changed then OnlyKeys(overridden, Keys(s.filters)) else overridden)
            && AsMap(t.actions) == OnlyKeys(AsMap(s.actions) + AsMap(before), Keys(s.actions))
            && KeyOrder(t.filters) == KeyOrder(s.filters) + (if changed then [] else MissingKeys(s.filters, fields))
            && KeyOrder(t.actions) == KeyOrder(s.actions)
            && AsMap(t.actions) != AsMap(s.actions) + AsMap(actions)
            && RuleParsed(t)
  {
    hide UpdateSpec, Parsed, Merged, AsMap, KeyOrder, MissingKeys, CounterChange, Relinks, Keys, PatchAll, Find;
    var s1 := s.(link := s.link.(calls := s.link.calls + 1));
    ParsedWellFormed(actions);
    ParsedWellFormed(fields);
    UpdateFails(s1, tableId, MarkAll(s.filters, fields), actions, counter, v);
    var changed := Has(s.actions, CounterKey);
    var before := if changed then actions[..Find(actions, CounterKey)] else actions;
    PrefixParsed(actions, Find(actions, CounterKey));
    PatchOverrides(s.actions, before);
    CounterKept(s.actions, actions, before);
    ChangedCounterMissing(s.actions, actions, OnlyKeys(AsMap(s.actions) + AsMap(before), Keys(s.actions)));
    if changed {
      PatchOverrides(s.filters, fields);
    } else {
      FullMerge(s.filters, fields);
    }
  }

  lemma ParsedWellFormed(l: seq<Entry>)
    requires Parsed(l)
    ensures WellFormed(l) && KeysDistinct(l) && Unmarked(l) && PairedMasks(l) && Populated(l)
  {
  }

  /** Overriding by a delta that says nothing about the counter, or for a rule without a counter action, keeps it. */
  lemma CounterKept(given: seq<Entry>, scan: seq<Entry>, before: seq<Entry>)
    requires before == if Has(given, CounterKey) then scan[..Find(scan, CounterKey)] else scan
    ensures var m := OnlyKeys(AsMap(given) + AsMap(before), Keys(given));
            && (CounterKey in m <==> CounterKey in AsMap(given))
            && (CounterKey in m ==> m[CounterKey] == AsMap(given)[CounterKey])
  {
    hide AsMap, Keys;
    AsMapLookup(given, CounterKey);
    AsMapLookup(before, CounterKey);
    AsMapKeys(given, CounterKey);
    if Has(given, CounterKey) {
      assert forall j :: 0 <= j < |before| ==> before[j] == scan[j] && before[j].key != CounterKey;
    }
  }

  lemma FullMerge(given: seq<Entry>, scan: seq<Entry>)
    requires Parsed(given) && Parsed(scan)
    ensures var m := Merged(given, MarkAll(given, scan));
            && AsMap(m) == AsMap(given) + AsMap(scan)
            && KeyOrder(m) == KeyOrder(given) + MissingKeys(given, scan)
            && Parsed(m)
  {
    hide WellFormed, Populated, Merged, AsMap, KeyOrder, MissingKeys;
    ParsedWellFormed(scan);
    PopulatedOverrides(given, scan);
    MergeKeepsOrder(given, scan);
    MergeKeepsParsed(given, scan);
  }

  /**
   A rule set that the NPU rejects leaves the rule as it was. An accepted one overrides the actions by
   the delta if and only if the counter can be linked as the delta asks; it then overrides the fields
   too, and both lists keep their order, without marks.
   */
  lemma SetOverrides(s: RuleState, tableId: Oid, fields: seq<Entry>, actions: seq<Entry>, counter: Oid, v: nat -> bool)
    requires RuleParsed(s) && Parsed(fields) && Parsed(actions)
    ensures var (st, t) := ScanSpec(s, tableId, fields, actions, counter, v);
            && (st == Success <==> v(s.link.calls))
            && (st != Success ==> t == s.(link := s.link.(calls := s.link.calls + 1)))
            && (st == Success ==>
                  (AsMap(t.actions) == AsMap(s.actions) + AsMap(actions)
                   <==> CounterLinked(s, tableId, actions, counter, v)))
            && (st == Success && CounterLinked(s, tableId, actions, counter, v) ==>
                  && AsMap(t.filters) == AsMap(s.filters) + AsMap(fields)
                  && KeyOrder(t.filters) == KeyOrder(s.filters) + MissingKeys(s.filters, fields)
                  && KeyOrder(t.actions) == KeyOrder(s.actions) + MissingKeys(s.actions, actions))
            && RuleParsed(t)
  {
    hide UpdateSpec, Parsed, Merged, UpdateCounter, AsMap, KeyOrder, MissingKeys, CounterChange, Relinks;
    var s1 := s.(link := s.link.(calls := s.link.calls + 1));
    var change := CounterChange(s.actions, actions);
    if v(s.link.calls) {
      if CounterLinked(s, tableId, actions, counter, v) {
        ParsedWellFormed(actions);
        UpdateLink(s1, tableId, MarkAll(s.filters, fields), actions, counter, v);
        if change.Some? {
          RelinksExact(s1.link.(status := Success), tableId, counter, change.value, v);
          RelinksStatus(s1.link, tableId, counter, change.value, v);
        }
        UpdateMerges(s1, tableId, MarkAll(s.filters, fields), MarkAll(s.actions, actions), counter, v);
        FullMerge(s.filters, fields);
        FullMerge(s.actions, actions);
      } else {
        SetPartly(s, tableId, fields, actions, counter, v);
      }
    }
  }

  const COUNTER_ACTION := Entry(CounterKey, true, [7], [], false, false)
  const BARE_RULE := RuleState([], [], Link(Success, NULL_ID, map[7 := Counter(1, 0)], 0))

  /**
   A rule without actions is set to count with counter 7, which then cannot be attached: success, no action,
   and counter id 7.
   */
  lemma SetLosesAction(v: nat -> bool)
    requires v(0) && !v(1)
    ensures RuleParsed(BARE_RULE) && Parsed([COUNTER_ACTION])
    ensures var (st, t) := ScanSpec(BARE_RULE, 1, [], [COUNTER_ACTION], 7, v);
            && st == Success && t.actions == [] && t.link.counterId == 7
            && AsMap(t.actions) != AsMap(BARE_RULE.actions) + AsMap([COUNTER_ACTION])
  {
    hide AsMap, UpdateSpec;
    assert Lookup([COUNTER_ACTION], CounterKey) == Some(COUNTER_ACTION);
    SetPartly(BARE_RULE, 1, [], [COUNTER_ACTION], 7, v);
    KeyOrderAt(ScanSpec(BARE_RULE, 1, [], [COUNTER_ACTION], 7, v).1.actions);
    UpdateLink(BARE_RULE.(link := BARE_RULE.link.(calls := 1)), 1, [], [COUNTER_ACTION], 7, v);
  }
}
