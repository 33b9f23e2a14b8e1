/**
 When each ACL call succeeds, and what it leaves in the tables, in terms of the request and the tables before
 it.
 */
module AclEffects {
  import opened Common
  import opened AclCounterLink
  import opened AclRuleMerge
  import opened AclRuleUpdate
  import opened AclSpec
  import opened AclOwnership
  import opened AclSafety

  // ---------------------------------------------------------------------------------------------
  // Tables and counters
  // ---------------------------------------------------------------------------------------------

  /**
   A table is created exactly when an id is free and the NPU, if asked, accepts. It has the lowest free id
   and is empty.
   */
  lemma CreateTableEffect(s: State, e: Env, atOnce: bool)
    requires Owned(s)
    ensures var (st, id, t) := CreateTableSpec(s, e, atOnce);
            && (st == Success <==>
                  (exists x :: 1 <= x <= |s.inUse| && x !in s.tables) && (atOnce ==> e.verdict(s.calls)))
            && (st == Success ==>
                  && id !in s.tables && t.tables == s.tables[id := Table(0, 0)]
                  && forall x :: 1 <= x < id ==> x in s.tables)
            && (st != Success ==> t.tables == s.tables)
            && t.rules == s.rules && t.counters == s.counters
  {
    assert IdsExact(s);
    hide TableCounts, TablesThere, ListsParsed;
    var i := FirstUnused(s.inUse);
    if i < |s.inUse| {
      assert IdOf(i) !in s.tables;
    }
    forall x | 1 <= x <= i
      ensures x in s.tables
    {
      assert IdOf(x - 1) == x;
    }
  }

  /** A table is deleted exactly when it is a table, no rule and no counter is in it, and the NPU accepts. */
  lemma DeleteTableEffect(s: State, e: Env, id: Oid)
    requires Owned(s)
    ensures var (st, t) := DeleteTableSpec(s, e, id);
            && (st == Success <==>
                  && e.isTable(id) && id in s.tables && e.verdict(s.calls)
                  && (forall r :: r in s.rules ==> s.rules[r].tableId != id)
                  && (forall c :: c in s.counters ==> s.counters[c].tableId != id))
            && (e.isTable(id) && id in s.tables && (exists r :: r in s.rules && s.rules[r].tableId == id) ==>
                  st == ObjectInUse)
            && (e.isTable(id) && id in s.tables && (exists c :: c in s.counters && s.counters[c].tableId == id) ==>
                  st == ObjectInUse)
            && t.tables == (if st == Success then s.tables - {id} else s.tables)
            && t.rules == s.rules && t.counters == s.counters
  {
    DeleteTableOwned(s, e, id);
    DeletedTable(s, e, id);
    if DeleteTableSpec(s, e, id).0 == NpuError {
      EmptyTable(s, id);
    }
    hide Owned, DeleteTableSpec;
  }

  lemma DeletedTable(s: State, e: Env, id: Oid)
    ensures var (st, t) := DeleteTableSpec(s, e, id);
            && t.tables == (if st == Success then s.tables - {id} else s.tables)
            && t.rules == s.rules && t.counters == s.counters
            && (e.isTable(id) && id in s.tables ==> st == Success || st == ObjectInUse || st == NpuError)
            && (st == NpuError ==>
                  e.isTable(id) && id in s.tables && s.tables[id].ruleCount <= 0 && s.tables[id].numCounters <= 0)
  {
    hide Release;
    if id in s.tables {
      assert (s.tables - {id})[id := s.tables[id]] == s.tables;
    }
  }

  /** A counter is created exactly when its table is there and the NPU accepts; no rule shares it. */
  lemma CreateCounterEffect(s: State, e: Env, tableId: Oid, newId: Oid)
    ensures var (st, t) := CreateCounterSpec(s, e, tableId, newId);
            && (st == Success <==> tableId != NULL_ID && tableId in s.tables && e.verdict(s.calls))
            && (st == Success ==>
                  && t.counters == s.counters[newId := Counter(tableId, 0)]
                  && t.tables == s.tables[tableId := Table(s.tables[tableId].ruleCount,
                                                           s.tables[tableId].numCounters + 1)])
            && (st != Success ==> t.counters == s.counters && t.tables == s.tables)
            && t.rules == s.rules && t.inUse == s.inUse
  {
  }

  /** A deleted counter is gone and counted no more. */
  lemma DeleteCounterEffect(s: State, e: Env, id: Oid)
    requires Valid(s)
    ensures var (st, t) := DeleteCounterSpec(s, e, id);
            && (st == Success <==>
                  && e.isCounter(id) && id in s.counters && e.verdict(s.calls)
                  && forall r :: r in s.rules ==> s.rules[r].counterId != id)
            && (e.isCounter(id) && id in s.counters && (exists r :: r in s.rules && s.rules[r].counterId == id) ==>
                  st == ObjectInUse)
            && (st == Success ==>
                  && t.counters == s.counters - {id}
                  && s.counters[id].tableId in s.tables
                  && var x := s.counters[id].tableId;
                     t.tables == s.tables[x := Table(s.tables[x].ruleCount, s.tables[x].numCounters - 1)])
            && (st != Success ==> t.counters == s.counters && t.tables == s.tables)
            && t.rules == s.rules && t.inUse == s.inUse
  {
    if id in s.counters {
      CounterOwned(s, id);
      DeletedCounter(s, e, id);
      hide Valid, DeleteCounterSpec;
    }
    DeleteCounterValid(s, e, id);
    hide Valid;
  }

  lemma CounterOwned(s: State, id: Oid)
    requires Valid(s) && id in s.counters
    ensures s.counters[id].tableId in s.tables
    ensures s.counters[id].shared == 0 ==> forall r :: r in s.rules ==> s.rules[r].counterId != id
  {
    hide Owned, CounterOf;
    CounterTable(s, id);
    if s.counters[id].shared == 0 {
      NotUsed(s, id);
    }
  }

  lemma DeletedCounter(s: State, e: Env, id: Oid)
    requires id in s.counters && s.counters[id].tableId in s.tables
    ensures var (st, t) := DeleteCounterSpec(s, e, id);
            && (st == Success ==>
                  && t.counters == s.counters - {id}
                  && var x := s.counters[id].tableId;
                     t.tables == s.tables[x := Table(s.tables[x].ruleCount, s.tables[x].numCounters - 1)])
            && (st != Success ==> t.counters == s.counters && t.tables == s.tables)
            && t.rules == s.rules && t.inUse == s.inUse
            && (e.isCounter(id) ==>
                  st == if s.counters[id].shared != 0 then ObjectInUse else if e.verdict(s.calls) then Success
                        else NpuError)
  {
  }

  // ---------------------------------------------------------------------------------------------
  // The counter that an action list asks for
  // ---------------------------------------------------------------------------------------------

  /** An enabled counter action of the list has counter `c`. */
  ghost predicate Counts(actions: seq<Entry>, c: Oid) {
    exists i :: 0 <= i < |actions| && actions[i].key == CounterKey && actions[i].enable && actions[i].data == [c]
  }

  /** No action of the list counts, or the one that counts does so with counter `c`. */
  ghost predicate Asks(actions: seq<Entry>, c: Oid) {
    || Counts(actions, c)
    || (c == NULL_ID && forall i :: 0 <= i < |actions| ==> actions[i].key != CounterKey || !actions[i].enable)
  }

  lemma CounterAsked(actions: seq<Entry>, c: Oid)
    requires ParsedActions(actions) && Asks(actions, c)
    ensures CounterOf(actions) == c
    ensures NullCounter(actions) <==> Counts(actions, NULL_ID)
  {
    hide Populated, PairedMasks, Unmarked;
    if i :| 0 <= i < |actions| && actions[i].key == CounterKey {
      ParsedWellFormed(actions);
      FindAt(actions, i);
      OnlyCounter(actions, i);
    }
  }

  lemma OnlyCounter(actions: seq<Entry>, i: nat)
    requires KeysDistinct(actions) && i < |actions| && actions[i].key == CounterKey
    ensures forall j :: 0 <= j < |actions| && actions[j].key == CounterKey ==> j == i
  {
  }

  // ---------------------------------------------------------------------------------------------
  // Rules
  // ---------------------------------------------------------------------------------------------

  /** The counters after `c`, unless it is null, is shared by `n` rules more. */
  ghost predicate SharedMore(was: map<Oid, Counter>, now: map<Oid, Counter>, c: Oid, n: int) {
    && now.Keys == was.Keys
    && forall x :: x in was ==>
         now[x] == Counter(was[x].tableId, was[x].shared + if x == c && c != NULL_ID then n else 0)
  }

  lemma InstallEffect(s: State, e: Env, c: Oid, policer: bool)
    requires c != NULL_ID ==> c in s.counters
    ensures var (st, t) := Install(s, e, c, policer);
            var last := if c == NULL_ID then s.calls else s.calls + 1;
            && (st == Success <==> e.verdict(s.calls) && e.verdict(last) && (policer ==> e.verdict(last + 1)))
            && (st == Success ==> SharedMore(s.counters, t.counters, c, 1))
            && t.rules == s.rules && t.tables == s.tables && t.inUse == s.inUse
  {
  }

  /**
   A rule is created exactly when it has a field, its table is there, the counter it asks for is there in that
   table, and the NPU accepts the rule, its counter and its policer. It has the table, fields, actions
   and counter of the request, and is counted in its table and by its counter. No other rule changes.
   */
  lemma CreateRuleEffect(s: State, e: Env, tableId: Oid, filters: seq<Entry>, actions: seq<Entry>, policer: bool,
                         newId: Oid, c: Oid)
    requires newId !in s.rules && ParsedActions(actions) && Asks(actions, c)
    ensures var (st, t) := CreateRuleSpec(s, e, tableId, filters, actions, policer, newId);
            var last := if c == NULL_ID then s.calls else s.calls + 1;
            && (st == Success <==>
                  && filters != [] && tableId in s.tables && !Counts(actions, NULL_ID)
                  && (c != NULL_ID ==> c in s.counters && s.counters[c].tableId == tableId)
                  && e.verdict(s.calls) && e.verdict(last) && (policer ==> e.verdict(last + 1)))
            && (st == Success ==>
                  && t.rules.Keys == s.rules.Keys + {newId}
                  && (forall r :: r in s.rules ==> t.rules[r] == s.rules[r])
                  && t.rules[newId].tableId == tableId
                  && t.rules[newId].filters == filters && t.rules[newId].actions == actions
                  && t.rules[newId].counterId == c
                  && t.tables == s.tables[tableId := Table(s.tables[tableId].ruleCount + 1,
                                                           s.tables[tableId].numCounters)]
                  && SharedMore(s.counters, t.counters, c, 1))
            && (filters == [] ==> st == MandatoryAttributeMissing)
            && (filters != [] && tableId !in s.tables ==> st == InvalidObjectId)
            && (filters != [] && tableId in s.tables && Counts(actions, NULL_ID) ==> st == InvalidAttrValue)
            && (filters != [] && tableId in s.tables && c != NULL_ID && !CounterFits(s, tableId, c) ==>
                  st == (if Counts(actions, NULL_ID) then InvalidAttrValue else InvalidObjectId))
            && (st != Success ==> t.rules == s.rules && t.tables == s.tables)
            && t.inUse == s.inUse
  {
    hide CounterOf, NullCounter, ParsedActions, Asks, Counts, Install, SharedMore;
    CounterAsked(actions, c);
    if c != NULL_ID ==> c in s.counters {
      InstallEffect(s, e, c, policer);
    }
  }

  /**
   A rule is deleted exactly when it is there and the NPU accepts that its counter, then its policer, then the
   rule itself goes. It is then gone, and counted no more in its table and by its counter.
   */
  lemma DeleteRuleEffect(s: State, e: Env, id: Oid, policer: bool)
    requires Valid(s)
    ensures var (st, t) := DeleteRuleSpec(s, e, id, policer);
            && (st == Success <==>
                  && e.isRule(id) && id in s.rules
                  && var next := if s.rules[id].counterId == NULL_ID then s.calls else s.calls + 1;
                     && (s.rules[id].counterId != NULL_ID ==> e.verdict(s.calls))
                     && e.verdict(next) && (policer ==> e.verdict(next + 1)))
            && (st == Success ==>
                  && t.rules == s.rules - {id} && s.rules[id].tableId in s.tables
                  && var x := s.rules[id].tableId;
                     t.tables == s.tables[x := Table(s.tables[x].ruleCount - 1, s.tables[x].numCounters)]
                     && SharedMore(s.counters, t.counters, s.rules[id].counterId, -1))
            && (st != Success ==> t.rules == s.rules && t.tables == s.tables)
            && t.inUse == s.inUse
  {
    if id in s.rules {
      RuleThere(s, id);
      if e.isRule(id) {
        DeleteAccepted(s, e, id, policer);
      }
    }
    DeleteRuleParts(s, e, id, policer);
    RuleDeletedOnly(s, e, id, policer);
    hide Valid, DeleteRuleSpec, Parsed, CounterOf, ReattachFails;
    if id in s.rules {
      var t := DeleteRuleSpec(s, e, id, policer).1;
      if s.rules[id].counterId == NULL_ID || !e.isRule(id) {
        DeletePlain(s, e, id, policer);
      } else {
        DeleteSharing(s, e, id, policer);
      }
    }
  }

  lemma RuleDeletedOnly(s: State, e: Env, id: Oid, policer: bool)
    ensures DeleteRuleSpec(s, e, id, policer).0 == Success ==> e.isRule(id) && id in s.rules
  {
    hide Attach, Detach, AddRules;
  }

  lemma DeleteAccepted(s: State, e: Env, id: Oid, policer: bool)
    requires e.isRule(id) && id in s.rules && s.rules[id].tableId in s.tables
    requires s.rules[id].counterId != NULL_ID ==> CounterFits(s, s.rules[id].tableId, s.rules[id].counterId)
    ensures var next := if s.rules[id].counterId == NULL_ID then s.calls else s.calls + 1;
            DeleteRuleSpec(s, e, id, policer).0 == Success <==>
              && (s.rules[id].counterId != NULL_ID ==> e.verdict(s.calls))
              && e.verdict(next) && (policer ==> e.verdict(next + 1))
  {
    hide Attach, Detach, AddRules;
    var r := s.rules[id];
    DetachCalls(LinkOf(s, r.counterId), r.tableId, r.counterId, e.verdict);
  }

  /** The delta of a set is for this rule, in its own table, and asks for no counter of another table. */
  ghost predicate Admissible(s: State, e: Env, id: Oid, tableId: Oid, actions: seq<Entry>, c: Oid) {
    && e.isRule(id) && id in s.rules && !Counts(actions, NULL_ID)
    && (tableId == NULL_ID || tableId == s.rules[id].tableId)
    && (c != NULL_ID && c != s.rules[id].counterId ==> c in s.counters && s.counters[c].tableId == s.rules[id].tableId)
  }

  /**
   A set takes effect exactly when it is admissible and the NPU accepts it; it reports success unless the NPU
   refuses the policer in its last call. Only the rule that is set changes, and it stays in its table.
   */
  lemma SetRuleEffect(s: State, e: Env, id: Oid, tableId: Oid, fields: seq<Entry>, actions: seq<Entry>, policer: bool,
                      c: Oid)
    requires ParsedActions(actions) && Asks(actions, c)
    ensures var (st, t) := SetRuleSpec(s, e, id, tableId, fields, actions, policer);
            && t.tables == s.tables && t.inUse == s.inUse
            && if Admissible(s, e, id, tableId, actions, c) && e.verdict(s.calls) then
                 && (st == Success <==> policer ==> t.calls > 0 && e.verdict(t.calls - 1))
                 && t.rules == s.rules[id := t.rules[id]] && t.rules[id].tableId == s.rules[id].tableId
               else st != Success && t.rules == s.rules && t.counters == s.counters
  {
    CounterAsked(actions, c);
    SetRuleAnswers(s, e, id, tableId, fields, actions, policer);
    hide SetRuleSpec, CounterOf, NullCounter, ParsedActions, Asks, Counts;
  }

  lemma SetRuleAnswers(s: State, e: Env, id: Oid, tableId: Oid, fields: seq<Entry>, actions: seq<Entry>, policer: bool)
    ensures var (st, t) := SetRuleSpec(s, e, id, tableId, fields, actions, policer);
            && t.tables == s.tables && t.inUse == s.inUse
            && if SetAdmitted(s, e, id, tableId, actions) && e.verdict(s.calls) then
                 && (st == Success <==> policer ==> t.calls > 0 && e.verdict(t.calls - 1))
                 && t.rules == s.rules[id := t.rules[id]] && t.rules[id].tableId == s.rules[id].tableId
               else st != Success && t.rules == s.rules && t.counters == s.counters
  {
    hide CounterOf, NullCounter, ScanSpec, CounterFits;
    if id in s.rules {
      var r := s.rules[id];
      assert s.rules[id := Rule(r.tableId, r.filters, r.actions, r.counterId)] == s.rules;
      ScanAnswers(RuleStateOf(s, r), r.tableId, fields, actions, CounterOf(actions), e.verdict);
      var u := ScanSpec(RuleStateOf(s, r), r.tableId, fields, actions, CounterOf(actions), e.verdict).1;
      assert e.verdict(u.link.calls) <==> e.verdict(u.link.calls + 1 - 1);
    }
  }

  lemma ScanAnswers(s: RuleState, tableId: Oid, fields: seq<Entry>, actions: seq<Entry>, counter: Oid, v: nat -> bool)
    ensures var (st, t) := ScanSpec(s, tableId, fields, actions, counter, v);
            && (st == Success <==> v(s.link.calls))
            && (st != Success ==> t == s.(link := s.link.(calls := s.link.calls + 1)))
  {
    hide UpdateSpec, MarkAll;
  }

  /** A table id that is not the rule's own is refused as an attribute that cannot be set. */
  lemma TableIdFixed(s: State, e: Env, id: Oid, tableId: Oid, fields: seq<Entry>, actions: seq<Entry>, policer: bool,
                     c: Oid)
    requires ParsedActions(actions) && Asks(actions, c) && !Counts(actions, NULL_ID)
    requires e.isRule(id) && id in s.rules && tableId != NULL_ID && tableId != s.rules[id].tableId
    ensures SetRuleSpec(s, e, id, tableId, fields, actions, policer) == (AttrNotSupported, s)
  {
    CounterAsked(actions, c);
  }

  /**
   The counter can be linked exactly when the NPU accepts that the one the rule has is detached, if the delta
   disables or replaces it, and that a new one is attached.
   */
  lemma SetLinkedIff(s: State, e: Env, id: Oid, tableId: Oid, actions: seq<Entry>, c: Oid)
    requires Valid(s) && ParsedActions(actions) && Asks(actions, c) && Admissible(s, e, id, tableId, actions, c)
    ensures var r := s.rules[id];
            var next := if r.counterId == NULL_ID then s.calls + 1 else s.calls + 2;
            CounterLinked(RuleStateOf(s, r), r.tableId, actions, CounterOf(actions), e.verdict) <==>
            (exists i :: 0 <= i < |actions| && actions[i].key == CounterKey) && c != r.counterId ==>
              (r.counterId != NULL_ID ==> e.verdict(s.calls + 1)) && (c != NULL_ID ==> e.verdict(next))
  {
    hide Valid, ParsedActions, Parsed, WellFormed, KeysDistinct, Asks, CounterOf, CounterChange, Counts, NullCounter;
    CounterAsked(actions, c);
    RuleThere(s, id);
    ParsedKeys(actions);
    ParsedWellFormed(s.rules[id].actions);
    WellFormedKeys(s.rules[id].actions);
    ChangeAsked(s.rules[id].actions, actions, c);
  }

  lemma ParsedKeys(actions: seq<Entry>)
    requires ParsedActions(actions)
    ensures WellFormed(actions)
  {
  }

  lemma CounterLookup(actions: seq<Entry>, c: Oid)
    requires KeysDistinct(actions) && Asks(actions, c) && !Counts(actions, NULL_ID)
    ensures var e := Lookup(actions, CounterKey);
            if exists i :: 0 <= i < |actions| && actions[i].key == CounterKey then
              e.Some? && (e.value.enable <==> c != NULL_ID)
            else e == None
  {
    if i :| 0 <= i < |actions| && actions[i].key == CounterKey {
      FindAt(actions, i);
      OnlyCounter(actions, i);
    }
  }

  /** The counter action changes to the one asked for, or it is the one the rule has. */
  lemma ChangeAsked(given: seq<Entry>, actions: seq<Entry>, c: Oid)
    requires KeysDistinct(given) && WellFormed(actions)
    requires Asks(actions, c) && CounterOf(actions) == c && !Counts(actions, NULL_ID)
    ensures var change := CounterChange(given, actions);
            if exists i :: 0 <= i < |actions| && actions[i].key == CounterKey then
              change == Some(c != NULL_ID) || (change == None && CounterOf(given) == c)
            else change == None
  {
    CounterOfPatched(given, actions);
    hide Merged, MarkAll, Changed, Lookup, CounterOf;
    CounterLookup(actions, c);
  }
}
