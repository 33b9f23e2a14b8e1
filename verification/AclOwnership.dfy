/**
 Who owns what in the ACL database, over every run: tables count their rules and counters, every rule
 and counter has its table, and the id generator knows the tables. Nothing here depends on the NPU's
 answers.
 */
module AclOwnership {
  import opened Common
  import opened AclCounterLink
  import opened AclRuleMerge
  import opened AclRuleUpdate
  import opened AclSpec

  // ---------------------------------------------------------------------------------------------
  // The invariant
  // ---------------------------------------------------------------------------------------------

  ghost function RulesOf(rules: map<Oid, Rule>, t: Oid): set<Oid> {
    set r | r in rules && rules[r].tableId == t
  }

  ghost function CountersOf(counters: map<Oid, Counter>, t: Oid): set<Oid> {
    set c | c in counters && counters[c].tableId == t
  }

  /** A table's counts are the numbers of rules and counters naming it. */
  ghost predicate TableCounts(s: State) {
    forall t :: t in s.tables ==>
      && s.tables[t].ruleCount == |RulesOf(s.rules, t)|
      && s.tables[t].numCounters == |CountersOf(s.counters, t)|
  }

  /** Every rule and every counter is in a table that exists. */
  ghost predicate TablesThere(s: State) {
    && (forall r :: r in s.rules ==> s.rules[r].tableId in s.tables)
    && (forall c :: c in s.counters ==> s.counters[c].tableId in s.tables)
  }

  /** The flags of the id generator are the tables there are. */
  ghost predicate IdsExact(s: State) {
    && (forall i :: 0 <= i < |s.inUse| ==> (s.inUse[i] <==> IdOf(i) in s.tables))
    && (forall t :: t in s.tables ==> 1 <= t <= |s.inUse|)
  }

  /** The lists of every rule have distinct keys, no marks, paired masks, and lists given exactly when enabled. */
  ghost predicate ListsParsed(s: State) {
    forall r :: r in s.rules ==> Parsed(s.rules[r].filters) && Parsed(s.rules[r].actions)
  }

  ghost predicate Owned(s: State) {
    TableCounts(s) && TablesThere(s) && IdsExact(s) && ListsParsed(s)
  }

  // ---------------------------------------------------------------------------------------------
  // Counting
  // ---------------------------------------------------------------------------------------------

  lemma AddedRuleOf(rules: map<Oid, Rule>, id: Oid, r: Rule, t: Oid)
    requires id !in rules
    ensures |RulesOf(rules[id := r], t)| == |RulesOf(rules, t)| + if t == r.tableId then 1 else 0
  {
    assert id !in RulesOf(rules, t);
    assert RulesOf(rules[id := r], t) == if t == r.tableId then RulesOf(rules, t) + {id} else RulesOf(rules, t);
  }

  lemma TakenRuleOf(rules: map<Oid, Rule>, id: Oid, t: Oid)
    requires id in rules
    ensures |RulesOf(rules - {id}, t)| == |RulesOf(rules, t)| - if t == rules[id].tableId then 1 else 0
  {
    assert RulesOf(rules - {id}, t) == RulesOf(rules, t) - {id};
  }

  lemma AddedCounterOf(counters: map<Oid, Counter>, id: Oid, c: Counter, t: Oid)
    requires id !in counters
    ensures |CountersOf(counters[id := c], t)| == |CountersOf(counters, t)| + if t == c.tableId then 1 else 0
  {
    assert CountersOf(counters[id := c], t) == CountersOf(counters, t) + (if t == c.tableId then {id} else {});
  }

  lemma TakenCounterOf(counters: map<Oid, Counter>, id: Oid, t: Oid)
    requires id in counters
    ensures |CountersOf(counters - {id}, t)| == |CountersOf(counters, t)| - if t == counters[id].tableId then 1 else 0
  {
    assert CountersOf(counters - {id}, t) == CountersOf(counters, t) - {id};
  }

  lemma SameCountersOf(was: map<Oid, Counter>, now: map<Oid, Counter>, t: Oid)
    requires SameCounterTables(was, now)
    ensures CountersOf(now, t) == CountersOf(was, t)
  {
  }

  lemma AddParts(tables: map<Oid, Table>, id: Oid, n: int, t: Oid)
    requires t in tables
    ensures var r := AddRules(tables, id, n);
            t in r && r[t] == tables[t].(ruleCount := tables[t].ruleCount + if t == id then n else 0)
    ensures var r := AddCounters(tables, id, n);
            t in r && r[t] == tables[t].(numCounters := tables[t].numCounters + if t == id then n else 0)
  {
  }

  lemma AddKeys(tables: map<Oid, Table>, id: Oid, n: int)
    ensures AddRules(tables, id, n).Keys == tables.Keys && AddCounters(tables, id, n).Keys == tables.Keys
  {
  }

  // ---------------------------------------------------------------------------------------------
  // Tables
  // ---------------------------------------------------------------------------------------------

  /** Sharing a counter, or making NPU calls, moves nothing from one table to another. */
  lemma SharingKeepsOwned(s: State, t: State)
    requires Owned(s) && t.tables == s.tables && t.inUse == s.inUse && t.rules == s.rules
    requires SameCounterTables(s.counters, t.counters)
    ensures Owned(t)
  {
    hide RulesOf, CountersOf, Parsed;
    forall x | x in t.tables
      ensures |CountersOf(t.counters, x)| == |CountersOf(s.counters, x)|
    {
      SameCountersOf(s.counters, t.counters, x);
    }
  }

  lemma NoneInTable(s: State, t: Oid)
    requires TablesThere(s) && t !in s.tables
    ensures RulesOf(s.rules, t) == {} && CountersOf(s.counters, t) == {}
  {
  }

  lemma NewTableOwned(s: State, t: State, i: nat)
    requires Owned(s) && i < |s.inUse| && !s.inUse[i]
    requires t.tables == s.tables[IdOf(i) := Table(0, 0)] && t.inUse == s.inUse[i := true]
    requires t.rules == s.rules && t.counters == s.counters
    ensures Owned(t)
  {
    hide RulesOf, CountersOf, ListsParsed;
    SameRulesParsed(s, t);
    NoneInTable(s, IdOf(i));
  }

  /** A create runs out of ids exactly when every id has its table. */
  lemma CreateTableOwned(s: State, e: Env, atOnce: bool)
    requires Owned(s)
    ensures Owned(CreateTableSpec(s, e, atOnce).2)
    ensures var (st, id, t) := CreateTableSpec(s, e, atOnce);
            && (st == TableFull <==> forall i :: 0 <= i < |s.inUse| ==> IdOf(i) in s.tables)
            && (st == Success ==> id !in s.tables && id in t.tables)
  {
    assert IdsExact(s);
    hide TableCounts, TablesThere, ListsParsed;
    var (st, id, t) := CreateTableSpec(s, e, atOnce);
    var i := FirstUnused(s.inUse);
    if st == Success {
      NewTableOwned(s, t, i);
    } else {
      assert i < |s.inUse| ==> s.inUse[i := true][i := false] == s.inUse;
      SharingKeepsOwned(s, t);
    }
  }

  lemma SameRulesParsed(s: State, t: State)
    requires ListsParsed(s) && forall r :: r in t.rules ==> r in s.rules && t.rules[r] == s.rules[r]
    ensures ListsParsed(t)
  {
    hide Parsed;
  }

  lemma EmptyTable(s: State, t: Oid)
    requires TableCounts(s) && t in s.tables && s.tables[t].ruleCount <= 0 && s.tables[t].numCounters <= 0
    ensures Unowned(s, t)
  {
    assert |RulesOf(s.rules, t)| == 0 && |CountersOf(s.counters, t)| == 0;
    forall r | r in s.rules
      ensures s.rules[r].tableId != t
    {
      assert s.rules[r].tableId == t <==> r in RulesOf(s.rules, t);
    }
    forall c | c in s.counters
      ensures s.counters[c].tableId != t
    {
      assert s.counters[c].tableId == t <==> c in CountersOf(s.counters, t);
    }
  }

  /** No rule and no counter is in table `t`. */
  ghost predicate Unowned(s: State, t: Oid) {
    && (forall r :: r in s.rules ==> s.rules[r].tableId != t)
    && (forall c :: c in s.counters ==> s.counters[c].tableId != t)
  }

  lemma UnownedCounts(s: State, t: Oid)
    requires TableCounts(s) && t in s.tables && Unowned(s, t)
    ensures s.tables[t].ruleCount == 0 && s.tables[t].numCounters == 0
  {
    assert RulesOf(s.rules, t) == {} && CountersOf(s.counters, t) == {};
  }

  lemma TakenTableOwned(s: State, t: State, id: Oid)
    requires Owned(s) && id in s.tables && Unowned(s, id)
    requires t.tables == s.tables - {id} && t.inUse == Release(s.inUse, id)
    requires t.rules == s.rules && t.counters == s.counters
    ensures Owned(t)
  {
    hide RulesOf, CountersOf, ListsParsed;
    SameRulesParsed(s, t);
  }

  /** Exactly the tables that no rule and no counter names can be deleted. */
  lemma DeleteTableOwned(s: State, e: Env, id: Oid)
    requires Owned(s)
    ensures Owned(DeleteTableSpec(s, e, id).1)
    ensures DeleteTableSpec(s, e, id).0 == Success <==>
      e.isTable(id) && id in s.tables && Unowned(s, id) && e.verdict(s.calls)
  {
    hide TableCounts, TablesThere, IdsExact, ListsParsed, Unowned, Release;
    var (st, t) := DeleteTableSpec(s, e, id);
    if id in s.tables && Unowned(s, id) {
      UnownedCounts(s, id);
    }
    if st == Success {
      EmptyTable(s, id);
      TakenTableOwned(s, t, id);
    } else {
      assert t.tables == s.tables;
      SharingKeepsOwned(s, t);
    }
  }

  // ---------------------------------------------------------------------------------------------
  // Counters
  // ---------------------------------------------------------------------------------------------

  lemma NewCounterOwned(s: State, t: State, tableId: Oid, id: Oid)
    requires Owned(s) && id !in s.counters && tableId in s.tables
    requires t.counters == s.counters[id := Counter(tableId, 0)] && t.tables == AddCounters(s.tables, tableId, 1)
    requires t.rules == s.rules && t.inUse == s.inUse
    ensures Owned(t)
  {
    hide RulesOf, CountersOf, ListsParsed, AddCounters;
    SameRulesParsed(s, t);
    AddKeys(s.tables, tableId, 1);
    forall x | x in t.tables
      ensures t.tables[x].ruleCount == |RulesOf(t.rules, x)| && t.tables[x].numCounters == |CountersOf(t.counters, x)|
    {
      AddParts(s.tables, tableId, 1, x);
      AddedCounterOf(s.counters, id, Counter(tableId, 0), x);
    }
  }

  lemma CreateCounterOwned(s: State, e: Env, tableId: Oid, newId: Oid)
    requires Owned(s) && newId !in s.counters
    ensures Owned(CreateCounterSpec(s, e, tableId, newId).1)
  {
    hide Owned, AddCounters;
    var (st, t) := CreateCounterSpec(s, e, tableId, newId);
    if st == Success {
      NewCounterOwned(s, t, tableId, newId);
    } else {
      SharingKeepsOwned(s, t);
    }
  }

  lemma TakenCounterOwned(s: State, t: State, id: Oid)
    requires Owned(s) && id in s.counters
    requires t.counters == s.counters - {id} && t.tables == AddCounters(s.tables, s.counters[id].tableId, -1)
    requires t.rules == s.rules && t.inUse == s.inUse
    ensures Owned(t)
  {
    hide RulesOf, CountersOf, ListsParsed, AddCounters;
    SameRulesParsed(s, t);
    var tableId := s.counters[id].tableId;
    AddKeys(s.tables, tableId, -1);
    forall x | x in t.tables
      ensures t.tables[x].ruleCount == |RulesOf(t.rules, x)| && t.tables[x].numCounters == |CountersOf(t.counters, x)|
    {
      AddParts(s.tables, tableId, -1, x);
      TakenCounterOf(s.counters, id, x);
    }
  }

  /** The table of a deleted counter is there. */
  lemma DeleteCounterOwned(s: State, e: Env, id: Oid)
    requires Owned(s)
    ensures Owned(DeleteCounterSpec(s, e, id).1)
    ensures id in s.counters ==> s.counters[id].tableId in s.tables
  {
    CounterTable(s, id);
    hide Owned, AddCounters;
    var (st, t) := DeleteCounterSpec(s, e, id);
    if st == Success {
      TakenCounterOwned(s, t, id);
    } else {
      SharingKeepsOwned(s, t);
    }
  }

  lemma CounterTable(s: State, id: Oid)
    requires Owned(s)
    ensures id in s.counters ==> s.counters[id].tableId in s.tables
  {
    hide RulesOf, CountersOf, Parsed;
  }

  // ---------------------------------------------------------------------------------------------
  // Rules
  // ---------------------------------------------------------------------------------------------

  lemma AddedRuleOwned(s: State, t: State, id: Oid, r: Rule)
    requires Owned(s) && id !in s.rules && r.tableId in s.tables && Parsed(r.filters) && Parsed(r.actions)
    requires t.rules == s.rules[id := r] && t.tables == AddRules(s.tables, r.tableId, 1) && t.inUse == s.inUse
    requires SameCounterTables(s.counters, t.counters)
    ensures Owned(t)
  {
    hide AddRules, RulesOf, CountersOf, Parsed;
    AddKeys(s.tables, r.tableId, 1);
    forall x | x in t.tables
      ensures t.tables[x].ruleCount == |RulesOf(t.rules, x)| && t.tables[x].numCounters == |CountersOf(t.counters, x)|
    {
      AddParts(s.tables, r.tableId, 1, x);
      SameCountersOf(s.counters, t.counters, x);
      AddedRuleOf(s.rules, id, r, x);
    }
  }

  lemma TakenRuleOwned(s: State, t: State, id: Oid)
    requires Owned(s) && id in s.rules
    requires t.rules == s.rules - {id} && t.tables == AddRules(s.tables, s.rules[id].tableId, -1) && t.inUse == s.inUse
    requires SameCounterTables(s.counters, t.counters)
    ensures Owned(t)
  {
    hide AddRules, RulesOf, CountersOf, Parsed;
    AddKeys(s.tables, s.rules[id].tableId, -1);
    forall x | x in t.tables
      ensures t.tables[x].ruleCount == |RulesOf(t.rules, x)| && t.tables[x].numCounters == |CountersOf(t.counters, x)|
    {
      AddParts(s.tables, s.rules[id].tableId, -1, x);
      SameCountersOf(s.counters, t.counters, x);
      TakenRuleOf(s.rules, id, x);
    }
  }

  lemma ReplacedRuleOwned(s: State, t: State, id: Oid, r: Rule)
    requires Owned(s) && id in s.rules && t.rules == s.rules[id := r] && t.tables == s.tables && t.inUse == s.inUse
    requires r.tableId == s.rules[id].tableId && Parsed(r.filters) && Parsed(r.actions)
    requires SameCounterTables(s.counters, t.counters)
    ensures Owned(t)
  {
    hide RulesOf, CountersOf, Parsed;
    forall x | x in t.tables
      ensures |RulesOf(t.rules, x)| == |RulesOf(s.rules, x)|
      ensures |CountersOf(t.counters, x)| == |CountersOf(s.counters, x)|
    {
      SameCountersOf(s.counters, t.counters, x);
      SameRulesOf(s.rules, id, r, x);
    }
  }

  lemma SameRulesOf(rules: map<Oid, Rule>, id: Oid, r: Rule, t: Oid)
    requires id in rules && r.tableId == rules[id].tableId
    ensures RulesOf(rules[id := r], t) == RulesOf(rules, t)
  {
  }

  lemma SameTablesChain(a: map<Oid, Counter>, b: map<Oid, Counter>, c: map<Oid, Counter>)
    ensures SameCounterTables(a, a)
    ensures SameCounterTables(a, b) && SameCounterTables(b, c) ==> SameCounterTables(a, c)
  {
  }

  lemma InstallMovesNoCounter(s: State, e: Env, c: Oid, policer: bool)
    ensures var t := Install(s, e, c, policer).1;
            t.tables == s.tables && t.rules == s.rules && t.inUse == s.inUse
              && SameCounterTables(s.counters, t.counters)
  {
    hide Attach, SameCounterTables;
    SameTablesChain(s.counters, s.counters, s.counters);
    AttachMovesNoCounter(LinkOf(s.(calls := s.calls + 1), c), c, e.verdict);
  }

  lemma CreateRuleOwned(s: State, e: Env, tableId: Oid, filters: seq<Entry>, actions: seq<Entry>, policer: bool,
                        newId: Oid)
    requires Owned(s) && newId !in s.rules && Parsed(filters) && Parsed(actions)
    ensures Owned(CreateRuleSpec(s, e, tableId, filters, actions, policer, newId).1)
  {
    hide Owned, CounterOf, NullCounter, CounterFits, Install, AddRules, Parsed, SameCounterTables;
    var (st, t) := CreateRuleSpec(s, e, tableId, filters, actions, policer, newId);
    InstallMovesNoCounter(s, e, CounterOf(actions), policer);
    SameTablesChain(s.counters, s.counters, s.counters);
    if st == Success {
      AddedRuleOwned(s, t, newId, Rule(tableId, filters, actions, CounterOf(actions)));
    } else {
      SharingKeepsOwned(s, t);
    }
  }

  lemma DeletingMovesNoCounter(s: State, e: Env, id: Oid, policer: bool)
    ensures SameCounterTables(s.counters, DeleteRuleSpec(s, e, id, policer).1.counters)
  {
    hide Attach, Detach, AddRules, SameCounterTables;
    SameTablesChain(s.counters, s.counters, s.counters);
    if id in s.rules {
      var r := s.rules[id];
      var c := r.counterId;
      DetachMovesNoCounter(LinkOf(s, c), r.tableId, c, e.verdict);
      var l := if c != NULL_ID then Detach(LinkOf(s, c), r.tableId, c, e.verdict) else LinkOf(s, c);
      var last := if policer then l.calls + 1 else l.calls;
      AttachMovesNoCounter(l.(calls := l.calls + 1), c, e.verdict);
      AttachMovesNoCounter(l.(calls := last + 1), c, e.verdict);
      SameTablesChain(s.counters, l.counters, Attach(l.(calls := l.calls + 1), c, e.verdict).counters);
      SameTablesChain(s.counters, l.counters, Attach(l.(calls := last + 1), c, e.verdict).counters);
    }
  }

  lemma DeleteRuleParts(s: State, e: Env, id: Oid, policer: bool)
    ensures var (st, t) := DeleteRuleSpec(s, e, id, policer);
            && t.inUse == s.inUse
            && if st == Success then
                 && id in s.rules && t.rules == s.rules - {id}
                 && t.tables == AddRules(s.tables, s.rules[id].tableId, -1)
               else t.rules == s.rules && t.tables == s.tables
  {
    hide Detach, Reattach, AddRules;
  }

  /** The table of a rule is there. */
  lemma DeleteRuleOwned(s: State, e: Env, id: Oid, policer: bool)
    requires Owned(s)
    ensures Owned(DeleteRuleSpec(s, e, id, policer).1)
    ensures id in s.rules ==> s.rules[id].tableId in s.tables
  {
    hide Owned, DeleteRuleSpec, AddRules, SameCounterTables, Parsed;
    var (st, t) := DeleteRuleSpec(s, e, id, policer);
    DeleteRuleParts(s, e, id, policer);
    DeletingMovesNoCounter(s, e, id, policer);
    RuleTable(s, id);
    if st == Success {
      TakenRuleOwned(s, t, id);
    } else {
      SharingKeepsOwned(s, t);
    }
  }

  lemma RuleTable(s: State, id: Oid)
    requires Owned(s)
    ensures id in s.rules ==>
      s.rules[id].tableId in s.tables && Parsed(s.rules[id].filters)
      && Parsed(s.rules[id].actions)
  {
    hide RulesOf, CountersOf, Parsed;
  }

  lemma ScanMovesNoCounter(s: RuleState, tableId: Oid, fields: seq<Entry>, actions: seq<Entry>, counter: Oid,
                           v: nat -> bool)
    requires Parsed(actions)
    ensures SameCounterTables(s.link.counters, ScanSpec(s, tableId, fields, actions, counter, v).1.link.counters)
  {
    hide UpdateSpec, UpdateCounter, SameCounterTables, Parsed, CounterChange;
    var s1 := s.(link := s.link.(calls := s.link.calls + 1));
    var l0 := s1.link.(status := Success);
    ParsedWellFormed(actions);
    UpdateLink(s1, tableId, MarkAll(s.filters, fields), actions, counter, v);
    SameTablesChain(s.link.counters, s.link.counters, s.link.counters);
    RelinkingMovesNoCounter(l0, tableId, counter, true, v);
    RelinkingMovesNoCounter(l0, tableId, counter, false, v);
  }

  /** The table of the rule that is set is there. */
  lemma SetRuleOwned(s: State, e: Env, id: Oid, tableId: Oid, fields: seq<Entry>, actions: seq<Entry>, policer: bool)
    requires Owned(s) && Parsed(fields) && Parsed(actions)
    ensures Owned(SetRuleSpec(s, e, id, tableId, fields, actions, policer).1)
    ensures id in s.rules ==> s.rules[id].tableId in s.tables
  {
    hide Owned, CounterOf, NullCounter, CounterFits, ScanSpec, Parsed, SameCounterTables, CounterLinked, AsMap,
         KeyOrder, MissingKeys;
    var t := SetRuleSpec(s, e, id, tableId, fields, actions, policer).1;
    RuleTable(s, id);
    SameTablesChain(s.counters, s.counters, s.counters);
    if t.rules == s.rules && t.counters == s.counters {
      SharingKeepsOwned(s, t);
    } else {
      var r, c := s.rules[id], CounterOf(actions);
      SetOverrides(RuleStateOf(s, r), r.tableId, fields, actions, c, e.verdict);
      ScanMovesNoCounter(RuleStateOf(s, r), r.tableId, fields, actions, c, e.verdict);
      ReplacedRuleOwned(s, t, id, t.rules[id]);
    }
  }

  /**
   A rule set that passes the checks and that the NPU accepts overrides the rule's actions by the delta
   if and only if the counter can be linked as the delta asks, and then its fields too.
   */
  lemma SetRuleOverrides(s: State, e: Env, id: Oid, tableId: Oid, fields: seq<Entry>, actions: seq<Entry>,
                         policer: bool)
    requires Owned(s) && Parsed(fields) && Parsed(actions)
    requires SetAdmitted(s, e, id, tableId, actions) && e.verdict(s.calls)
    ensures var was := s.rules[id];
            var t := SetRuleSpec(s, e, id, tableId, fields, actions, policer).1;
            var linked := CounterLinked(RuleStateOf(s, was), was.tableId, actions, CounterOf(actions), e.verdict);
            && id in t.rules
            && (AsMap(t.rules[id].actions) == AsMap(was.actions) + AsMap(actions) <==> linked)
            && (linked ==> AsMap(t.rules[id].filters) == AsMap(was.filters) + AsMap(fields))
  {
    hide Owned, CounterOf, NullCounter, CounterFits, ScanSpec, Parsed, CounterLinked, AsMap, KeyOrder, MissingKeys;
    RuleTable(s, id);
    var r := s.rules[id];
    SetOverrides(RuleStateOf(s, r), r.tableId, fields, actions, CounterOf(actions), e.verdict);
  }

  // ---------------------------------------------------------------------------------------------
  // Runs
  // ---------------------------------------------------------------------------------------------

  /** Every step keeps table counts, owners, ids and lists exact, whatever the NPU answers. */
  lemma StepOwned(s: State, e: Env, r: Request)
    requires Owned(s) && WellPosed(s, r)
    ensures Owned(Step(s, e, r))
  {
    hide Owned, CreateTableSpec, DeleteTableSpec, CreateCounterSpec, DeleteCounterSpec, CreateRuleSpec, DeleteRuleSpec,
         SetRuleSpec, Parsed;
    match r {
      case CreateTable(atOnce) => CreateTableOwned(s, e, atOnce);
      case DeleteTable(id) => DeleteTableOwned(s, e, id);
      case CreateCounter(t, id) => CreateCounterOwned(s, e, t, id);
      case DeleteCounter(id) => DeleteCounterOwned(s, e, id);
      case CreateRule(t, f, a, p, id) => CreateRuleOwned(s, e, t, f, a, p, id);
      case DeleteRule(id, p) => DeleteRuleOwned(s, e, id, p);
      case SetRule(id, t, f, a, p) => SetRuleOwned(s, e, id, t, f, a, p);
    }
  }

  lemma {:induction false} RunOwned(s: State, e: Env, rs: seq<Request>)
    requires Owned(s) && WellPosedRun(s, e, rs)
    ensures Owned(Run(s, e, rs))
    decreases |rs|
  {
    hide Owned, Step, WellPosed;
    if rs != [] {
      StepOwned(s, e, rs[0]);
      RunOwned(Step(s, e, rs[0]), e, rs[1..]);
    }
  }

  lemma NothingOwned(s: State)
    requires Nothing(s)
    ensures Owned(s)
  {
  }

  /**
   The table lookups of the rule and counter paths never fail: after any run from an empty database,
   counters lost or not, each rule and each counter has its table.
   */
  lemma TablesFound(s: State, e: Env, rs: seq<Request>, r: Oid, c: Oid)
    requires Nothing(s) && WellPosedRun(s, e, rs)
    ensures var t := Run(s, e, rs);
            && (c in t.counters ==> t.counters[c].tableId in t.tables)
            && (r in t.rules ==> t.rules[r].tableId in t.tables)
  {
    hide WellPosedRun, Run;
    NothingOwned(s);
    RunOwned(s, e, rs);
    hide RulesOf, CountersOf, Parsed;
  }

  /**
   In every reachable state a set that is admitted and accepted is an override, if and only if the counter
   can be linked.
   */
  lemma SetAfterRun(s: State, e: Env, rs: seq<Request>, id: Oid, tableId: Oid, fields: seq<Entry>, actions: seq<Entry>)
    requires Nothing(s) && WellPosedRun(s, e, rs) && Parsed(fields) && ParsedActions(actions)
    requires SetAdmitted(Run(s, e, rs), e, id, tableId, actions) && e.verdict(Run(s, e, rs).calls)
    ensures var t := Run(s, e, rs);
            var was := t.rules[id];
            var u := Step(t, e, SetRule(id, tableId, fields, actions, false));
            && id in u.rules
            && (AsMap(u.rules[id].actions) == AsMap(was.actions) + AsMap(actions) <==>
                CounterLinked(RuleStateOf(t, was), was.tableId, actions, CounterOf(actions), e.verdict))
  {
    hide WellPosedRun, Run, SetAdmitted, SetRuleSpec, CounterLinked, AsMap, CounterOf, Parsed;
    NothingOwned(s);
    RunOwned(s, e, rs);
    hide Owned;
    SetRuleOverrides(Run(s, e, rs), e, id, tableId, fields, actions, false);
  }
}
