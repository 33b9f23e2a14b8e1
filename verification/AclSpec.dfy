/**
 ACL tables, rules and counters: what creating, setting and deleting them does to the table ids, the
 counts kept in the tables and the counts of shared counters.
 */
module AclSpec {
  import opened Common
  import opened AclCounterLink
  import opened AclRuleMerge
  import opened AclRuleUpdate

  datatype Table = Table(ruleCount: int, numCounters: int)

  datatype Rule = Rule(tableId: Oid, filters: seq<Entry>, actions: seq<Entry>, counterId: Oid)

  datatype State = State(
    tables: map<Oid, Table>,
    rules: map<Oid, Rule>,
    counters: map<Oid, Counter>,
    inUse: seq<bool>,
    calls: nat)

  /** The object types encoded in ids, and the answers of the NPU and the other modules. */
  datatype Env = Env(isTable: Oid -> bool, isRule: Oid -> bool, isCounter: Oid -> bool, verdict: nat -> bool)

  // ---------------------------------------------------------------------------------------------
  // Tables
  // ---------------------------------------------------------------------------------------------

  /** The id generator's entry `i` stands for table id `i + 1`; 0 is the invalid id. */
  function IdOf(i: nat): Oid {
    i + 1
  }

  function FirstUnused(inUse: seq<bool>): (i: nat)
    ensures i <= |inUse| && (i < |inUse| ==> !inUse[i])
    ensures forall j :: 0 <= j < i ==> inUse[j]
  {
    if inUse == [] || !inUse[0] then 0 else 1 + FirstUnused(inUse[1..])
  }

  function Release(inUse: seq<bool>, id: Oid): (r: seq<bool>)
    ensures |r| == |inUse|
  {
    if 1 <= id <= |inUse| then inUse[id - 1 := false] else inUse
  }

  /** A table with a fixed size, or one that joins a group, is created in the NPU at once. */
  function CreateTableSpec(s: State, e: Env, atOnce: bool): (Status, Oid, State) {
    var i := FirstUnused(s.inUse);
    if i == |s.inUse| then (TableFull, NULL_ID, s)
    else
      var s1 := s.(inUse := s.inUse[i := true], calls := if atOnce then s.calls + 1 else s.calls);
      if atOnce && !e.verdict(s.calls) then (NpuError, NULL_ID, s1.(inUse := Release(s1.inUse, IdOf(i))))
      else (Success, IdOf(i), s1.(tables := s.tables[IdOf(i) := Table(0, 0)]))
  }

  function DeleteTableSpec(s: State, e: Env, id: Oid): (Status, State) {
    if !e.isTable(id) then (InvalidObjectType, s)
    else if id !in s.tables then (InvalidObjectId, s)
    else if s.tables[id].ruleCount > 0 then (ObjectInUse, s)
    else if s.tables[id].numCounters > 0 then (ObjectInUse, s)
    else if !e.verdict(s.calls) then (NpuError, s.(tables := (s.tables - {id})[id := s.tables[id]],
                                                   calls := s.calls + 1))
    else (Success, s.(tables := s.tables - {id}, inUse := Release(s.inUse, id), calls := s.calls + 1))
  }

  function AddRules(tables: map<Oid, Table>, id: Oid, n: int): map<Oid, Table> {
    if id in tables then tables[id := tables[id].(ruleCount := tables[id].ruleCount + n)] else tables
  }

  function AddCounters(tables: map<Oid, Table>, id: Oid, n: int): map<Oid, Table> {
    if id in tables then tables[id := tables[id].(numCounters := tables[id].numCounters + n)] else tables
  }

  // ---------------------------------------------------------------------------------------------
  // Counters
  // ---------------------------------------------------------------------------------------------

  /** `newId` is a free id of the counter id generator. */
  function CreateCounterSpec(s: State, e: Env, tableId: Oid, newId: Oid): (Status, State) {
    if tableId == NULL_ID then (MandatoryAttributeMissing, s)
    else if tableId !in s.tables then (InvalidObjectId, s)
    else if !e.verdict(s.calls) then (NpuError, s.(calls := s.calls + 1))
    else (Success, s.(counters := s.counters[newId := Counter(tableId, 0)], tables := AddCounters(s.tables, tableId, 1),
                      calls := s.calls + 1))
  }

  function DeleteCounterSpec(s: State, e: Env, id: Oid): (Status, State) {
    if !e.isCounter(id) then (InvalidObjectType, s)
    else if id !in s.counters then (InvalidObjectId, s)
    else if s.counters[id].shared != 0 then (ObjectInUse, s)
    else if !e.verdict(s.calls) then (NpuError, s.(calls := s.calls + 1))
    else
      (Success, s.(counters := s.counters - {id}, tables := AddCounters(s.tables, s.counters[id].tableId, -1),
                   calls := s.calls + 1))
  }

  // ---------------------------------------------------------------------------------------------
  // Rules
  // ---------------------------------------------------------------------------------------------

  /** An enabled counter action must name an object. */
  predicate NullCounter(actions: seq<Entry>) {
    var a := Lookup(actions, CounterKey);
    a.Some? && a.value.enable && CounterOf(actions) == NULL_ID
  }

  predicate CounterFits(s: State, tableId: Oid, c: Oid) {
    c in s.counters && s.counters[c].tableId == tableId
  }

  function LinkOf(s: State, counterId: Oid): Link {
    Link(Success, counterId, s.counters, s.calls)
  }

  /**
   Install, attach the counter, then attach the policer if there is one; a failure deletes the rule in
   the NPU, but does not detach the counter.
   */
  function Install(s: State, e: Env, c: Oid, policer: bool): (Status, State) {
    if !e.verdict(s.calls) then (NpuError, s.(calls := s.calls + 1))
    else
      var l0 := LinkOf(s.(calls := s.calls + 1), c);
      var l := if c != NULL_ID then Attach(l0, c, e.verdict) else l0;
      if l.status != Success then (l.status, s.(counters := l.counters, calls := l.calls + 1))
      else if policer && !e.verdict(l.calls) then (InvalidObjectId, s.(counters := l.counters, calls := l.calls + 2))
      else (Success, s.(counters := l.counters, calls := if policer then l.calls + 1 else l.calls))
  }

  function CreateRuleSpec(s: State, e: Env, tableId: Oid, filters: seq<Entry>, actions: seq<Entry>, policer: bool,
                          newId: Oid): (Status, State) {
    var c := CounterOf(actions);
    if filters == [] then (MandatoryAttributeMissing, s)
    else if tableId !in s.tables then (InvalidObjectId, s)
    else if NullCounter(actions) then (InvalidAttrValue, s)
    else if c != NULL_ID && !CounterFits(s, tableId, c) then (InvalidObjectId, s)
    else
      var (st, t) := Install(s, e, c, policer);
      if st != Success then (st, t)
      else (Success, t.(rules := s.rules[newId := Rule(tableId, filters, actions, c)],
                        tables := AddRules(s.tables, tableId, 1)))
  }

  /** After a delete was rejected: the counter is attached again, then the policer; neither outcome is looked at. */
  function Reattach(l: Link, c: Oid, policer: bool, v: nat -> bool): Link {
    var l1 := if c != NULL_ID then Attach(l, c, v) else l;
    l1.(calls := if policer then l1.calls + 1 else l1.calls)
  }

  /**
   Detach the counter, then the policer if there is one, then delete in the NPU; if one of the last two
   is rejected, what was detached is attached again.
   */
  function DeleteRuleSpec(s: State, e: Env, id: Oid, policer: bool): (Status, State) {
    if !e.isRule(id) then (InvalidObjectType, s)
    else if id !in s.rules then (InvalidObjectId, s)
    else
      var r := s.rules[id];
      if r.tableId !in s.tables then (InvalidObjectId, s)
      else
        var c := r.counterId;
        var l0 := LinkOf(s, c);
        var l := if c != NULL_ID then Detach(l0, r.tableId, c, e.verdict) else l0;
        var last := if policer then l.calls + 1 else l.calls;
        if l.status != Success then (l.status, s.(counters := l.counters, calls := l.calls))
        else if policer && !e.verdict(l.calls) then
          var back := Reattach(l.(calls := l.calls + 1), c, false, e.verdict);
          (InvalidObjectId, s.(counters := back.counters, calls := back.calls))
        else if !e.verdict(last) then
          var back := Reattach(l.(calls := last + 1), c, policer, e.verdict);
          (NpuError, s.(counters := back.counters, calls := back.calls))
        else
          (Success, s.(counters := l.counters, calls := last + 1, rules := s.rules - {id},
                       tables := AddRules(s.tables, r.tableId, -1)))
  }

  function RuleStateOf(s: State, r: Rule): RuleState {
    RuleState(r.filters, r.actions, LinkOf(s, r.counterId))
  }

  /** The set of a rule passes every check and reaches the NPU. */
  predicate SetAdmitted(s: State, e: Env, id: Oid, tableId: Oid, actions: seq<Entry>) {
    var c := CounterOf(actions);
    && e.isRule(id) && id in s.rules && !NullCounter(actions)
    && (tableId == NULL_ID || tableId == s.rules[id].tableId)
    && (c != NULL_ID && c != s.rules[id].counterId ==> CounterFits(s, s.rules[id].tableId, c))
  }

  /**
   A delta for a rule: a table id, which must be the rule's own, fields and actions. After an accepted
   set the policer link may change, which may fail; the rule stays as it was set.
   */
  function SetRuleSpec(s: State, e: Env, id: Oid, tableId: Oid, fields: seq<Entry>, actions: seq<Entry>,
                       policer: bool): (Status, State) {
    var c := CounterOf(actions);
    if !e.isRule(id) then (InvalidObjectType, s)
    else if id !in s.rules then (InvalidObjectId, s)
    else
      var r := s.rules[id];
      if NullCounter(actions) then (InvalidAttrValue, s)
      else if tableId != NULL_ID && tableId != r.tableId then (AttrNotSupported, s)
      else if c != NULL_ID && c != r.counterId && !CounterFits(s, r.tableId, c) then (InvalidObjectId, s)
      else
        var (st, t) := ScanSpec(RuleStateOf(s, r), r.tableId, fields, actions, c, e.verdict);
        var linked := st == Success && policer;
        (if linked && !e.verdict(t.link.calls) then InvalidObjectId else st,
         s.(counters := t.link.counters, calls := if linked then t.link.calls + 1 else t.link.calls,
            rules := s.rules[id := Rule(r.tableId, t.filters, t.actions, t.link.counterId)]))
  }

  // ---------------------------------------------------------------------------------------------
  // Runs
  // ---------------------------------------------------------------------------------------------

  /**
   A request, with the id taken from an id generator where one is. `policer` says whether a policer link is
   touched.
   */
  datatype Request =
    | CreateTable(atOnce: bool)
    | DeleteTable(id: Oid)
    | CreateCounter(tableId: Oid, newId: Oid)
    | DeleteCounter(id: Oid)
    | CreateRule(tableId: Oid, filters: seq<Entry>, actions: seq<Entry>, policer: bool, newId: Oid)
    | DeleteRule(id: Oid, policer: bool)
    | SetRule(id: Oid, tableId: Oid, filters: seq<Entry>, actions: seq<Entry>, policer: bool)

  function Step(s: State, e: Env, r: Request): State {
    match r
    case CreateTable(atOnce) => CreateTableSpec(s, e, atOnce).2
    case DeleteTable(id) => DeleteTableSpec(s, e, id).1
    case CreateCounter(t, id) => CreateCounterSpec(s, e, t, id).1
    case DeleteCounter(id) => DeleteCounterSpec(s, e, id).1
    case CreateRule(t, f, a, p, id) => CreateRuleSpec(s, e, t, f, a, p, id).1
    case DeleteRule(id, p) => DeleteRuleSpec(s, e, id, p).1
    case SetRule(id, t, f, a, p) => SetRuleSpec(s, e, id, t, f, a, p).1
  }

  /** What the attribute parser builds for actions: no byte lists, and an enabled counter action names one object. */
  ghost predicate ParsedActions(actions: seq<Entry>) {
    && Parsed(actions)
    && (forall i :: 0 <= i < |actions| ==> !actions[i].key.ByteList?)
    && (forall e :: Lookup(actions, CounterKey) == Some(e) && e.enable ==> |e.data| == 1 && e.data[0] >= 0)
  }

  /** Ids are fresh, and rules and deltas are parsed attribute lists. */
  ghost predicate WellPosed(s: State, r: Request) {
    && (r.CreateCounter? ==> r.newId != NULL_ID && r.newId !in s.counters)
    && (r.CreateRule? ==> r.newId !in s.rules && Parsed(r.filters) && ParsedActions(r.actions))
    && (r.SetRule? ==> Parsed(r.filters) && ParsedActions(r.actions))
  }

  ghost predicate WellPosedRun(s: State, e: Env, rs: seq<Request>)
    decreases |rs|
  {
    rs != [] ==> WellPosed(s, rs[0]) && WellPosedRun(Step(s, e, rs[0]), e, rs[1..])
  }

  function Run(s: State, e: Env, rs: seq<Request>): State
    decreases |rs|
  {
    if rs == [] then s else Run(Step(s, e, rs[0]), e, rs[1..])
  }

  /** An empty database and an unused id generator. */
  predicate Nothing(s: State) {
    s.tables == map[] && s.rules == map[] && s.counters == map[] && forall i :: 0 <= i < |s.inUse| ==> !s.inUse[i]
  }
}
