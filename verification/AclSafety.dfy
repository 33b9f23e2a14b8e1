/**
 Each rule's counter, over every ACL call and run: which counter a rule names, and how often a counter
 is shared. Every call keeps this exact but for three kinds of NPU failure, each with its input.
 */
module AclSafety {
  import opened Common
  import opened AclCounterLink
  import opened AclRuleMerge
  import opened AclRuleUpdate
  import opened AclSpec
  import opened AclOwnership

  // ---------------------------------------------------------------------------------------------
  // The invariant
  // ---------------------------------------------------------------------------------------------

  /** The rules attached to counter `c`. */
  ghost function Users(rules: map<Oid, Rule>, c: Oid): set<Oid> {
    set r | r in rules && rules[r].counterId == c
  }

  /** A rule's counter is the object of its enabled counter action, or none. */
  ghost predicate CountersNamed(s: State) {
    forall r :: r in s.rules ==> s.rules[r].counterId == CounterOf(s.rules[r].actions)
  }

  /** A rule's counter exists in the rule's own table. */
  ghost predicate CountersThere(s: State) {
    && NULL_ID !in s.counters
    && forall r :: r in s.rules && s.rules[r].counterId != NULL_ID ==>
         CounterFits(s, s.rules[r].tableId, s.rules[r].counterId)
  }

  /** A counter is shared by exactly the rules that name it. */
  ghost predicate SharedExact(s: State) {
    forall c :: c in s.counters ==> s.counters[c].shared == |Users(s.rules, c)|
  }

  ghost predicate CountersExact(s: State) {
    CountersNamed(s) && CountersThere(s) && SharedExact(s)
  }

  ghost predicate Valid(s: State) {
    Owned(s) && CountersExact(s)
  }

  // ---------------------------------------------------------------------------------------------
  // Counting the users of a counter
  // ---------------------------------------------------------------------------------------------

  lemma AddedUser(rules: map<Oid, Rule>, id: Oid, r: Rule, c: Oid)
    requires id !in rules
    ensures |Users(rules[id := r], c)| == |Users(rules, c)| + if c == r.counterId then 1 else 0
  {
    assert id !in Users(rules, c);
    assert Users(rules[id := r], c) == if c == r.counterId then Users(rules, c) + {id} else Users(rules, c);
  }

  lemma TakenUser(rules: map<Oid, Rule>, id: Oid, c: Oid)
    requires id in rules
    ensures |Users(rules - {id}, c)| == |Users(rules, c)| - if c == rules[id].counterId then 1 else 0
  {
    assert Users(rules - {id}, c) == Users(rules, c) - {id};
  }

  lemma ReplacedUser(rules: map<Oid, Rule>, id: Oid, r: Rule, c: Oid)
    requires id in rules
    ensures |Users(rules[id := r], c)|
         == |Users(rules, c)| - (if c == rules[id].counterId then 1 else 0) + (if c == r.counterId then 1 else 0)
  {
    hide Users;
    TakenUser(rules, id, c);
    AddedUser(rules - {id}, id, r, c);
    assert (rules - {id})[id := r] == rules[id := r];
  }

  lemma NoUsers(s: State, c: Oid)
    requires CountersThere(s) && c !in s.counters && c != NULL_ID
    ensures Users(s.rules, c) == {}
  {
  }

  lemma NotUsed(s: State, c: Oid)
    requires SharedExact(s) && c in s.counters && s.counters[c].shared == 0
    ensures forall r :: r in s.rules ==> s.rules[r].counterId != c
  {
    assert |Users(s.rules, c)| == 0;
    forall r | r in s.rules
      ensures s.rules[r].counterId != c
    {
      assert s.rules[r].counterId == c <==> r in Users(s.rules, c);
    }
  }

  // ---------------------------------------------------------------------------------------------
  // Tables and counters
  // ---------------------------------------------------------------------------------------------

  lemma SameCountersExact(s: State, t: State)
    requires CountersExact(s) && s.rules == t.rules && s.counters == t.counters
    ensures CountersExact(t)
  {
    hide CounterOf, Users;
  }

  lemma TableCallValid(s: State, e: Env, r: Request)
    requires Valid(s) && (r.CreateTable? || r.DeleteTable?)
    ensures Valid(Step(s, e, r))
  {
    hide Owned, CountersExact;
    StepOwned(s, e, r);
    SameCountersExact(s, Step(s, e, r));
  }

  lemma CreateCounterValid(s: State, e: Env, tableId: Oid, newId: Oid)
    requires Valid(s) && newId != NULL_ID && newId !in s.counters
    ensures Valid(CreateCounterSpec(s, e, tableId, newId).1)
  {
    hide Owned, CounterOf, Users, AddCounters;
    CreateCounterOwned(s, e, tableId, newId);
    NoUsers(s, newId);
  }

  /** A counter is deleted only when no rule names it, and when none does only the NPU can refuse. */
  lemma DeleteCounterValid(s: State, e: Env, id: Oid)
    requires Valid(s)
    ensures Valid(DeleteCounterSpec(s, e, id).1)
    ensures DeleteCounterSpec(s, e, id).0 == Success <==>
      && e.isCounter(id) && id in s.counters && e.verdict(s.calls)
      && forall r :: r in s.rules ==> s.rules[r].counterId != id
  {
    hide Owned, CounterOf, Users, AddCounters;
    DeleteCounterOwned(s, e, id);
    if id in s.counters && s.counters[id].shared == 0 {
      NotUsed(s, id);
    }
    if forall r :: r in s.rules ==> s.rules[r].counterId != id {
      NoneUses(s.rules, id);
    }
  }

  lemma NoneUses(rules: map<Oid, Rule>, c: Oid)
    requires forall r :: r in rules ==> rules[r].counterId != c
    ensures |Users(rules, c)| == 0
  {
    assert Users(rules, c) == {};
  }

  // ---------------------------------------------------------------------------------------------
  // Attaching and detaching
  // ---------------------------------------------------------------------------------------------

  /** The counters are as before, but for the sharing of `c`, which changed by `n`. */
  ghost predicate SharedBy(was: map<Oid, Counter>, now: map<Oid, Counter>, c: Oid, n: int) {
    && now.Keys == was.Keys
    && forall x :: x in was ==> now[x] == was[x].(shared := was[x].shared + if x == c then n else 0)
  }

  lemma AttachParts(l: Link, c: Oid, v: nat -> bool)
    ensures var r := Attach(l, c, v);
            && r.counterId == l.counterId
            && SharedBy(l.counters, r.counters, c, if r.status == Success then 1 else 0)
            && (c in l.counters ==> r.status == Success || r.status == NpuError)
            && (r.status == Success ==> c in l.counters)
  {
  }

  lemma DetachParts(l: Link, t: Oid, c: Oid, v: nat -> bool)
    ensures var r := Detach(l, t, c, v);
            && r.counterId == l.counterId
            && SharedBy(l.counters, r.counters, c, if r.status == Success then -1 else 0)
            && (c in l.counters && l.counters[c].tableId == t ==> r.status == Success || r.status == NpuError)
            && (r.status == Success ==> c in l.counters)
  {
  }

  // ---------------------------------------------------------------------------------------------
  // Creating a rule
  // ---------------------------------------------------------------------------------------------

  /** The rule is rejected by the policer after its counter was attached. */
  predicate FailsWithCounter(s: State, e: Env, tableId: Oid, filters: seq<Entry>, actions: seq<Entry>, policer: bool) {
    var c := CounterOf(actions);
    && filters != [] && tableId in s.tables && !NullCounter(actions) && c != NULL_ID && CounterFits(s, tableId, c)
    && e.verdict(s.calls) && e.verdict(s.calls + 1) && policer && !e.verdict(s.calls + 2)
  }

  lemma AddedRuleCounters(s: State, t: State, id: Oid, r: Rule)
    requires CountersExact(s) && id !in s.rules && r.counterId == CounterOf(r.actions)
    requires r.counterId != NULL_ID ==> CounterFits(s, r.tableId, r.counterId)
    requires t.rules == s.rules[id := r] && SharedBy(s.counters, t.counters, r.counterId, 1)
    ensures CountersExact(t)
  {
    hide CounterOf, Users;
    forall c | c in t.counters
      ensures t.counters[c].shared == |Users(t.rules, c)|
    {
      AddedUser(s.rules, id, r, c);
    }
  }

  /** A sharing that no rule accounts for. */
  lemma LeakInvalid(s: State, t: State, c: Oid, n: int)
    requires SharedExact(s) && t.rules == s.rules && c in s.counters && n != 0 && SharedBy(s.counters, t.counters, c, n)
    ensures !CountersExact(t)
  {
    assert s.counters[c].shared == |Users(s.rules, c)|;
    assert t.counters[c].shared != |Users(t.rules, c)|;
  }

  lemma AttachCalls(l: Link, c: Oid, v: nat -> bool)
    ensures c in l.counters ==>
      (Attach(l, c, v).status == Success <==> v(l.calls))
      && Attach(l, c, v).calls == l.calls + 1
  {
  }

  lemma InstallSharing(s: State, e: Env, c: Oid, policer: bool)
    requires NULL_ID !in s.counters && (c != NULL_ID ==> c in s.counters)
    ensures var (st, t) := Install(s, e, c, policer);
            var attached := c != NULL_ID && e.verdict(s.calls) && e.verdict(s.calls + 1);
            && t.rules == s.rules
            && SharedBy(s.counters, t.counters, c, if attached then 1 else 0)
            && (st == Success && c != NULL_ID ==> attached)
            && (st != Success && attached <==> attached && policer && !e.verdict(s.calls + 2))
  {
    hide Attach;
    var l0 := LinkOf(s.(calls := s.calls + 1), c);
    AttachParts(l0, c, e.verdict);
    AttachCalls(l0, c, e.verdict);
  }

  /** A rule create keeps everything exact if and only if it is not rejected with its counter attached. */
  lemma CreateRuleValid(s: State, e: Env, tableId: Oid, filters: seq<Entry>, actions: seq<Entry>, policer: bool,
                        newId: Oid)
    requires Valid(s) && newId !in s.rules && Parsed(filters) && Parsed(actions)
    ensures Valid(CreateRuleSpec(s, e, tableId, filters, actions, policer, newId).1)
       <==> !FailsWithCounter(s, e, tableId, filters, actions, policer)
  {
    hide Owned, CountersExact, CounterOf, NullCounter, Install, AddRules, SharedBy, Parsed;
    CreateRuleOwned(s, e, tableId, filters, actions, policer, newId);
    NoNullCounter(s);
    var (st, t) := CreateRuleSpec(s, e, tableId, filters, actions, policer, newId);
    var c := CounterOf(actions);
    if filters != [] && tableId in s.tables && !NullCounter(actions) && (c != NULL_ID ==> CounterFits(s, tableId, c)) {
      InstallSharing(s, e, c, policer);
      SharedNone(s.counters, t.counters, c);
      if st == Success {
        AddedRuleCounters(s, t, newId, Rule(tableId, filters, actions, c));
      } else if FailsWithCounter(s, e, tableId, filters, actions, policer) {
        LeakInvalid(s, t, c, 1);
      } else {
        SameCountersExact(s, t);
      }
    } else {
      SameCountersExact(s, t);
    }
  }

  lemma NoNullCounter(s: State)
    requires CountersExact(s)
    ensures NULL_ID !in s.counters && SharedExact(s)
  {
  }

  /** The null counter is not there to be shared, and sharing changed by nothing is the same sharing. */
  lemma SharedNone(was: map<Oid, Counter>, now: map<Oid, Counter>, c: Oid)
    requires NULL_ID !in was
    ensures SharedBy(was, now, c, 0) ==> was == now
    ensures was == now ==> SharedBy(was, now, NULL_ID, 1) && SharedBy(was, now, NULL_ID, -1)
  {
  }

  // ---------------------------------------------------------------------------------------------
  // Deleting a rule
  // ---------------------------------------------------------------------------------------------

  lemma TakenRuleCounters(s: State, t: State, id: Oid)
    requires CountersExact(s) && id in s.rules && t.rules == s.rules - {id}
    requires SharedBy(s.counters, t.counters, s.rules[id].counterId, -1)
    ensures CountersExact(t)
  {
    hide CounterOf, Users;
    forall c | c in t.counters
      ensures t.counters[c].shared == |Users(t.rules, c)|
    {
      TakenUser(s.rules, id, c);
    }
  }

  /**
   The counter is detached, the policer or the NPU then refuses the delete, and the NPU refuses to attach
   the counter again.
   */
  predicate ReattachFails(s: State, e: Env, id: Oid, policer: bool)
    requires id in s.rules
  {
    var last := if policer then s.calls + 2 else s.calls + 1;
    && e.isRule(id) && s.rules[id].counterId != NULL_ID && e.verdict(s.calls)
    && if policer && !e.verdict(s.calls + 1) then !e.verdict(s.calls + 2)
       else !e.verdict(last) && !e.verdict(last + 1)
  }

  lemma RuleThere(s: State, id: Oid)
    requires Valid(s) && id in s.rules
    ensures s.rules[id].tableId in s.tables && NULL_ID !in s.counters
    ensures s.rules[id].counterId != NULL_ID ==> CounterFits(s, s.rules[id].tableId, s.rules[id].counterId)
    ensures Parsed(s.rules[id].actions) && Parsed(s.rules[id].filters)
    ensures s.rules[id].counterId == CounterOf(s.rules[id].actions)
  {
    hide Parsed, CounterOf, RulesOf, CountersOf, Users;
  }

  lemma DetachCalls(l: Link, t: Oid, c: Oid, v: nat -> bool)
    ensures c in l.counters && l.counters[c].tableId == t ==>
      (Detach(l, t, c, v).status == Success <==> v(l.calls)) && Detach(l, t, c, v).calls == l.calls + 1
  {
  }

  /** The last call before the delete of a rule is refused, if it is: that of the policer, or that of the NPU. */
  predicate DeleteRefused(s: State, e: Env, policer: bool, n: nat) {
    || (policer && n == s.calls + 1 && !e.verdict(n))
    || (policer && n == s.calls + 2 && e.verdict(s.calls + 1) && !e.verdict(n))
    || (!policer && n == s.calls + 1 && !e.verdict(n))
  }

  lemma DeleteCases(s: State, e: Env, id: Oid, policer: bool) returns (n: nat)
    requires id in s.rules && e.isRule(id) && s.rules[id].tableId in s.tables && s.rules[id].counterId != NULL_ID
    requires var r := s.rules[id];
             Detach(LinkOf(s, r.counterId), r.tableId, r.counterId, e.verdict).calls == s.calls + 1
    ensures var r := s.rules[id];
            var l := Detach(LinkOf(s, r.counterId), r.tableId, r.counterId, e.verdict);
            var (st, t) := DeleteRuleSpec(s, e, id, policer);
            if l.status != Success then st == l.status && t.counters == l.counters
            else if DeleteRefused(s, e, policer, n) then
              && (st == InvalidObjectId || st == NpuError)
              && t.counters == Attach(l.(calls := n + 1), r.counterId, e.verdict).counters
            else
              && st == Success && t.counters == l.counters
              && !DeleteRefused(s, e, policer, s.calls + 1) && !DeleteRefused(s, e, policer, s.calls + 2)
  {
    hide Attach, Detach, AddRules;
    n := if policer && e.verdict(s.calls + 1) then s.calls + 2 else s.calls + 1;
  }

  lemma SharedTwice(a: map<Oid, Counter>, b: map<Oid, Counter>, d: map<Oid, Counter>, c: Oid, n: int, m: int)
    requires SharedBy(a, b, c, n) && SharedBy(b, d, c, m)
    ensures SharedBy(a, d, c, n + m)
  {
  }

  /** What a delete does to the sharing of the rule's counter, by what the NPU answers. */
  lemma DeleteSharing(s: State, e: Env, id: Oid, policer: bool)
    requires id in s.rules && e.isRule(id) && s.rules[id].tableId in s.tables && s.rules[id].counterId != NULL_ID
    requires CounterFits(s, s.rules[id].tableId, s.rules[id].counterId)
    ensures var (st, t) := DeleteRuleSpec(s, e, id, policer);
            && st != Failure
            && SharedBy(s.counters, t.counters, s.rules[id].counterId,
                        if st == Success || ReattachFails(s, e, id, policer) then -1 else 0)
            && (st == Success ==> !ReattachFails(s, e, id, policer))
  {
    hide Attach, Detach, DeleteRuleSpec, SharedBy;
    var r := s.rules[id];
    var c, l0 := r.counterId, LinkOf(s, r.counterId);
    DetachParts(l0, r.tableId, c, e.verdict);
    DetachCalls(l0, r.tableId, c, e.verdict);
    var n := DeleteCases(s, e, id, policer);
    var l := Detach(l0, r.tableId, c, e.verdict);
    if l.status == Success && DeleteRefused(s, e, policer, n) {
      var a := l.(calls := n + 1);
      SharedKeys(s.counters, l.counters, c, -1);
      AttachParts(a, c, e.verdict);
      AttachCalls(a, c, e.verdict);
      SharedTwice(s.counters, l.counters, Attach(a, c, e.verdict).counters, c, -1, if e.verdict(n + 1) then 1 else 0);
    }
  }

  lemma SharedKeys(was: map<Oid, Counter>, now: map<Oid, Counter>, c: Oid, n: int)
    requires SharedBy(was, now, c, n)
    ensures now.Keys == was.Keys
  {
  }

  lemma DeletePlain(s: State, e: Env, id: Oid, policer: bool)
    requires id in s.rules ==> s.rules[id].counterId == NULL_ID || !e.isRule(id)
    ensures DeleteRuleSpec(s, e, id, policer).1.counters == s.counters
    ensures DeleteRuleSpec(s, e, id, policer).0 != Failure
    ensures DeleteRuleSpec(s, e, id, policer).0 == Success ==> id in s.rules && s.rules[id].counterId == NULL_ID
    ensures id in s.rules ==> !ReattachFails(s, e, id, policer)
  {
    hide AddRules;
  }

  /**
   A rule delete keeps everything exact if and only if a counter it detached for nothing is attached
   again. It never meets a counter of another table.
   */
  lemma DeleteRuleValid(s: State, e: Env, id: Oid, policer: bool)
    requires Valid(s)
    ensures Valid(DeleteRuleSpec(s, e, id, policer).1) <==> !(id in s.rules && ReattachFails(s, e, id, policer))
    ensures DeleteRuleSpec(s, e, id, policer).0 != Failure
  {
    hide Owned, CountersExact, DeleteRuleSpec, AddRules, SharedBy, ReattachFails;
    DeleteRuleOwned(s, e, id, policer);
    DeleteRuleParts(s, e, id, policer);
    NoNullCounter(s);
    if id in s.rules {
      RuleThere(s, id);
    }
    var (st, t) := DeleteRuleSpec(s, e, id, policer);
    if id in s.rules && s.rules[id].counterId != NULL_ID && e.isRule(id) {
      DeleteSharing(s, e, id, policer);
    } else {
      DeletePlain(s, e, id, policer);
    }
    SharedNone(s.counters, t.counters, if id in s.rules then s.rules[id].counterId else NULL_ID);
    if st == Success {
      TakenRuleCounters(s, t, id);
    } else if id in s.rules && ReattachFails(s, e, id, policer) {
      LostCounter(s, t, e, id, policer);
    } else {
      SameCountersExact(s, t);
    }
  }

  lemma LostCounter(s: State, t: State, e: Env, id: Oid, policer: bool)
    requires Valid(s) && t.rules == s.rules && id in s.rules && ReattachFails(s, e, id, policer)
    requires SharedBy(s.counters, t.counters, s.rules[id].counterId, -1)
    ensures !CountersExact(t)
  {
    RuleThere(s, id);
    LeakInvalid(s, t, s.rules[id].counterId, -1);
  }

  // ---------------------------------------------------------------------------------------------
  // Setting a rule
  // ---------------------------------------------------------------------------------------------

  /** The relinking of a rule's counter: the counter it had is shared once less, the one it has now once more. */
  lemma RelinkParts(l: Link, t: Oid, id: Oid, enable: bool, v: nat -> bool)
    requires l.status == Success && NULL_ID !in l.counters && (enable ==> id != NULL_ID)
    requires l.counterId != NULL_ID ==> l.counterId in l.counters && l.counters[l.counterId].tableId == t
    requires enable ==> id in l.counters && l.counters[id].tableId == t
    ensures var r := UpdateCounter(l, t, id, enable, v);
            && r.counters.Keys == l.counters.Keys
            && (forall x :: x in l.counters ==> r.counters[x].tableId == l.counters[x].tableId)
            && (r.counterId == NULL_ID || (r.counterId in l.counters && l.counters[r.counterId].tableId == t))
            && (!(enable && AttachFails(l, t, id, v)) ==>
                  forall x :: x in l.counters ==>
                    r.counters[x].shared == l.counters[x].shared - (if x == l.counterId then 1 else 0)
                      + (if x == r.counterId then 1 else 0))
            && (enable && AttachFails(l, t, id, v) ==>
                  r.counterId == id && l.counterId != id && r.counters[id].shared == l.counters[id].shared)
  {
  }

  /** The set reaches the rule's counter and fails to attach the new one. */
  predicate SetLosesCounter(s: State, e: Env, id: Oid, tableId: Oid, actions: seq<Entry>) {
    && SetAdmitted(s, e, id, tableId, actions) && e.verdict(s.calls)
    && CounterChange(s.rules[id].actions, actions) == Some(true)
    && AttachFails(LinkOf(s.(calls := s.calls + 1), s.rules[id].counterId), s.rules[id].tableId, CounterOf(actions),
                   e.verdict)
  }

  /** One rule was replaced, with the sharing of its counters moved along. */
  lemma ReplacedRuleCounters(s: State, t: State, id: Oid, r: Rule)
    requires CountersExact(s) && id in s.rules && t.rules == s.rules[id := r]
    requires r.counterId == CounterOf(r.actions)
    requires r.counterId != NULL_ID ==> CounterFits(s, r.tableId, r.counterId)
    requires SameCounterTables(s.counters, t.counters)
    requires forall x :: x in s.counters ==>
      t.counters[x].shared == s.counters[x].shared - (if x == s.rules[id].counterId then 1 else 0)
                                                   + (if x == r.counterId then 1 else 0)
    ensures CountersExact(t)
  {
    hide CounterOf, Users;
    forall c | c in t.counters
      ensures t.counters[c].shared == |Users(t.rules, c)|
    {
      ReplacedUser(s.rules, id, r, c);
    }
  }

  /** A rule that names a counter it is not attached to. */
  lemma UnattachedInvalid(s: State, t: State, id: Oid, r: Rule)
    requires SharedExact(s) && id in s.rules && t.rules == s.rules[id := r]
    requires r.counterId != s.rules[id].counterId && r.counterId in s.counters && r.counterId in t.counters
    requires t.counters[r.counterId].shared == s.counters[r.counterId].shared
    ensures !CountersExact(t)
  {
    hide Users;
    ReplacedUser(s.rules, id, r, r.counterId);
  }

  /** What a set that reaches the rule does to its counter link. */
  lemma SetLink(s: State, e: Env, r: Rule, fields: seq<Entry>, actions: seq<Entry>)
    requires Parsed(r.actions) && r.counterId == CounterOf(r.actions) && ParsedActions(actions) && !NullCounter(actions)
    requires r.counterId != NULL_ID ==> CounterFits(s, r.tableId, r.counterId)
    requires CounterOf(actions) != NULL_ID ==> CounterFits(s, r.tableId, CounterOf(actions))
    requires e.verdict(s.calls)
    ensures var c := CounterOf(actions);
            var l0 := LinkOf(s.(calls := s.calls + 1), r.counterId);
            var t := ScanSpec(RuleStateOf(s, r), r.tableId, fields, actions, c, e.verdict).1;
            var change := CounterChange(r.actions, actions);
            && t.link == (if change == None then l0 else UpdateCounter(l0, r.tableId, c, change.value, e.verdict))
            && (change == Some(true) ==> c != NULL_ID)
            && (t.link.counterId == CounterOf(t.actions) <==>
                !(change == Some(true) && AttachFails(l0, r.tableId, c, e.verdict)))
  {
    hide UpdateCounter, UpdateSpec, AttachFails, KeysDistinct, Changed, Find, WellFormed, Populated;
    var c := CounterOf(actions);
    var l0 := LinkOf(s.(calls := s.calls + 1), r.counterId);
    var s1 := RuleState(r.filters, r.actions, l0);
    ParsedWellFormed(actions);
    ParsedWellFormed(r.actions);
    var marked := MarkAll(r.filters, fields);
    UpdateLink(s1, r.tableId, marked, actions, c, e.verdict);
    CounterMatchesAction(s1, r.tableId, marked, actions, c, e.verdict);
  }

  /** A rule set never meets a counter of another table: relinking fails only when the NPU refuses. */
  lemma SetFailsAtNpuOnly(s: State, e: Env, id: Oid, tableId: Oid, fields: seq<Entry>, actions: seq<Entry>)
    requires Valid(s) && ParsedActions(actions) && SetAdmitted(s, e, id, tableId, actions)
    ensures var r := s.rules[id];
            var st := ScanSpec(RuleStateOf(s, r), r.tableId, fields, actions, CounterOf(actions),
                               e.verdict).1.link.status;
            st == Success || st == NpuError
  {
    hide Valid, CounterOf, ParsedActions, UpdateCounter, UpdateSpec, AttachFails, CounterChange, MarkAll, Parsed,
         Lookup;
    RuleThere(s, id);
    var r := s.rules[id];
    if e.verdict(s.calls) {
      SetLink(s, e, r, fields, actions);
      var change, c := CounterChange(r.actions, actions), CounterOf(actions);
      if change.Some? {
        RelinkFailsAtNpuOnly(LinkOf(s.(calls := s.calls + 1), r.counterId), r.tableId, c, change.value, e.verdict);
      }
    }
  }

  lemma SetRuleParts(s: State, e: Env, id: Oid, tableId: Oid, fields: seq<Entry>, actions: seq<Entry>, policer: bool)
    ensures var t := SetRuleSpec(s, e, id, tableId, fields, actions, policer).1;
            if SetAdmitted(s, e, id, tableId, actions) then
              var r := s.rules[id];
              var u := ScanSpec(RuleStateOf(s, r), r.tableId, fields, actions, CounterOf(actions), e.verdict).1;
              && t.counters == u.link.counters
              && t.rules == s.rules[id := Rule(r.tableId, u.filters, u.actions, u.link.counterId)]
            else t.rules == s.rules && t.counters == s.counters
  {
    hide CounterOf, NullCounter, ScanSpec, CounterFits;
  }

  /** A rule set keeps everything exact if and only if it does not fail while attaching a new counter. */
  lemma SetRuleValid(s: State, e: Env, id: Oid, tableId: Oid, fields: seq<Entry>, actions: seq<Entry>, policer: bool)
    requires Valid(s) && Parsed(fields) && ParsedActions(actions)
    ensures Valid(SetRuleSpec(s, e, id, tableId, fields, actions, policer).1)
      <==> !SetLosesCounter(s, e, id, tableId, actions)
  {
    hide Owned, CountersExact, SetRuleSpec, SetAdmitted, ScanSpec, AttachFails, CounterChange, Parsed, CounterOf;
    SetRuleOwned(s, e, id, tableId, fields, actions, policer);
    SetRuleParts(s, e, id, tableId, fields, actions, policer);
    var t := SetRuleSpec(s, e, id, tableId, fields, actions, policer).1;
    if SetAdmitted(s, e, id, tableId, actions) {
      SetRuleCounters(s, e, id, tableId, fields, actions, t);
    } else {
      SameCountersExact(s, t);
    }
  }

  lemma SetRuleCounters(s: State, e: Env, id: Oid, tableId: Oid, fields: seq<Entry>, actions: seq<Entry>, t: State)
    requires Valid(s) && ParsedActions(actions) && SetAdmitted(s, e, id, tableId, actions)
    requires var r := s.rules[id];
             var u := ScanSpec(RuleStateOf(s, r), r.tableId, fields, actions, CounterOf(actions), e.verdict).1;
             && t.counters == u.link.counters
             && t.rules == s.rules[id := Rule(r.tableId, u.filters, u.actions, u.link.counterId)]
    ensures CountersExact(t) <==> !SetLosesCounter(s, e, id, tableId, actions)
  {
    hide Owned, CountersExact, CounterOf, NullCounter, ScanSpec, AttachFails, CounterChange, Parsed, ParsedActions;
    RuleThere(s, id);
    var r, c := s.rules[id], CounterOf(actions);
    if !e.verdict(s.calls) {
      ScanRejected(RuleStateOf(s, r), r.tableId, fields, actions, c, e.verdict);
      assert t.rules == s.rules;
      SameCountersExact(s, t);
    } else {
      SetLink(s, e, r, fields, actions);
      var u := ScanSpec(RuleStateOf(s, r), r.tableId, fields, actions, c, e.verdict).1;
      RelinkedCounters(s, e, id, CounterChange(r.actions, actions), c, t, u);
    }
  }

  lemma ScanRejected(s: RuleState, tableId: Oid, fields: seq<Entry>, actions: seq<Entry>, counter: Oid, v: nat -> bool)
    requires !v(s.link.calls)
    ensures ScanSpec(s, tableId, fields, actions, counter, v).1 == s.(link := s.link.(calls := s.link.calls + 1))
  {
  }

  /** The counters after a set that relinked the rule's counter as `change` says. */
  lemma RelinkedCounters(s: State, e: Env, id: Oid, change: Option<bool>, c: Oid, t: State, u: RuleState)
    requires CountersExact(s) && id in s.rules && (change == Some(true) ==> c != NULL_ID)
    requires s.rules[id].counterId != NULL_ID ==> CounterFits(s, s.rules[id].tableId, s.rules[id].counterId)
    requires c != NULL_ID ==> CounterFits(s, s.rules[id].tableId, c)
    requires t.counters == u.link.counters
    requires t.rules == s.rules[id := Rule(s.rules[id].tableId, u.filters, u.actions, u.link.counterId)]
    requires var r := s.rules[id];
             var l0 := LinkOf(s.(calls := s.calls + 1), r.counterId);
             && u.link == (if change == None then l0 else UpdateCounter(l0, r.tableId, c, change.value, e.verdict))
             && (u.link.counterId == CounterOf(u.actions)
                 <==> !(change == Some(true) && AttachFails(l0, r.tableId, c, e.verdict)))
    ensures var l0 := LinkOf(s.(calls := s.calls + 1), s.rules[id].counterId);
            CountersExact(t) <==> !(change == Some(true) && AttachFails(l0, s.rules[id].tableId, c, e.verdict))
  {
    NoNullCounter(s);
    hide CountersExact, SharedExact, CounterOf, UpdateCounter, AttachFails;
    var r := s.rules[id];
    var l0 := LinkOf(s.(calls := s.calls + 1), r.counterId);
    if change.Some? {
      RelinkParts(l0, r.tableId, c, change.value, e.verdict);
    }
    if change == Some(true) && AttachFails(l0, r.tableId, c, e.verdict) {
      UnattachedInvalid(s, t, id, t.rules[id]);
    } else {
      ReplacedRuleCounters(s, t, id, t.rules[id]);
    }
  }

  // ---------------------------------------------------------------------------------------------
  // Runs
  // ---------------------------------------------------------------------------------------------

  /** The three ways in which a failing call loses track of a counter. */
  predicate LosesCounter(s: State, e: Env, r: Request) {
    || (r.CreateRule? && FailsWithCounter(s, e, r.tableId, r.filters, r.actions, r.policer))
    || (r.DeleteRule? && r.id in s.rules && ReattachFails(s, e, r.id, r.policer))
    || (r.SetRule? && SetLosesCounter(s, e, r.id, r.tableId, r.actions))
  }

  /** Every step keeps all counts, ids and counters exact, if and only if it does not lose track of a counter. */
  lemma StepValid(s: State, e: Env, r: Request)
    requires Valid(s) && WellPosed(s, r)
    ensures Valid(Step(s, e, r)) <==> !LosesCounter(s, e, r)
  {
    hide Valid, CreateTableSpec, DeleteTableSpec, CreateCounterSpec, DeleteCounterSpec, CreateRuleSpec, DeleteRuleSpec,
         SetRuleSpec, FailsWithCounter, ReattachFails, SetLosesCounter, Parsed;
    match r {
      case CreateTable(_) => TableCallValid(s, e, r);
      case DeleteTable(_) => TableCallValid(s, e, r);
      case CreateCounter(t, id) => CreateCounterValid(s, e, t, id);
      case DeleteCounter(id) => DeleteCounterValid(s, e, id);
      case CreateRule(t, f, a, p, id) => CreateRuleValid(s, e, t, f, a, p, id);
      case DeleteRule(id, p) => DeleteRuleValid(s, e, id, p);
      case SetRule(id, t, f, a, p) => SetRuleValid(s, e, id, t, f, a, p);
    }
  }

  /** A well-posed run in which no call loses track of a counter. */
  ghost predicate SoundRun(s: State, e: Env, rs: seq<Request>)
    decreases |rs|
  {
    rs != [] ==> WellPosed(s, rs[0]) && !LosesCounter(s, e, rs[0]) && SoundRun(Step(s, e, rs[0]), e, rs[1..])
  }

  lemma {:induction false} RunValid(s: State, e: Env, rs: seq<Request>)
    requires Valid(s) && SoundRun(s, e, rs)
    ensures Valid(Run(s, e, rs))
    decreases |rs|
  {
    hide Valid, Step, WellPosed, LosesCounter;
    if rs != [] {
      StepValid(s, e, rs[0]);
      RunValid(Step(s, e, rs[0]), e, rs[1..]);
    }
  }

  lemma NothingValid(s: State)
    requires Nothing(s)
    ensures Valid(s)
  {
  }

  /**
   After a run from an empty database that loses track of no counter, a rule's counter is there, in the
   rule's own table.
   */
  lemma CountersFound(s: State, e: Env, rs: seq<Request>, r: Oid)
    requires Nothing(s) && SoundRun(s, e, rs) && r in Run(s, e, rs).rules
    ensures var t := Run(s, e, rs);
            t.rules[r].counterId != NULL_ID ==> CounterFits(t, t.rules[r].tableId, t.rules[r].counterId)
  {
    hide SoundRun, Run;
    NothingValid(s);
    RunValid(s, e, rs);
    RuleThere(Run(s, e, rs), r);
  }

  // ---------------------------------------------------------------------------------------------
  // Inputs on which a counter is lost
  // ---------------------------------------------------------------------------------------------

  const A_FIELD := Entry(Plain(1), true, [5], [255], false, false)
  const COUNTING := Rule(1, [A_FIELD], [COUNTER_ACTION], 7)
  const PLAIN := Rule(1, [A_FIELD], [], NULL_ID)

  /** A table with a counter and no rule. */
  const NO_RULE := State(map[1 := Table(0, 1)], map[], map[7 := Counter(1, 0)], [true], 0)

  /** A table with a counter and a rule that counts with it, or does not. */
  const ONE_COUNTING := State(map[1 := Table(1, 1)], map[9 := COUNTING], map[7 := Counter(1, 1)], [true], 0)
  const ONE_PLAIN := State(map[1 := Table(1, 1)], map[9 := PLAIN], map[7 := Counter(1, 0)], [true], 0)

  lemma ExampleLists()
    ensures Parsed([A_FIELD]) && Parsed([]) && ParsedActions([COUNTER_ACTION])
    ensures CounterOf([COUNTER_ACTION]) == 7 && CounterOf([]) == NULL_ID && !NullCounter([COUNTER_ACTION])
  {
    assert Lookup([COUNTER_ACTION], CounterKey) == Some(COUNTER_ACTION);
  }

  /** A state with table 1, counter 7 and at most rule 9 is valid when its counts say so. */
  lemma SmallValid(s: State, rules: set<Oid>, users: set<Oid>)
    requires s.tables == map[1 := Table(|rules|, 1)] && s.inUse == [true] && s.counters == map[7 := Counter(1, |users|)]
    requires s.rules.Keys == rules && users <= rules <= {9}
    requires forall r :: r in rules ==> s.rules[r] == if r in users then COUNTING else PLAIN
    ensures Valid(s)
  {
    ExampleLists();
    hide Parsed, CounterOf;
    assert RulesOf(s.rules, 1) == rules && Users(s.rules, 7) == users && CountersOf(s.counters, 1) == {7};
  }

  lemma ExamplesValid()
    ensures Valid(NO_RULE) && Valid(ONE_COUNTING) && Valid(ONE_PLAIN)
  {
    hide Valid;
    SmallValid(NO_RULE, {}, {});
    SmallValid(ONE_COUNTING, {9}, {9});
    SmallValid(ONE_PLAIN, {9}, {});
  }

  /** The create of a rule is rejected by its policer: counter 7 stays shared although there is no rule. */
  lemma RejectedCreateLeaksCounter(e: Env)
    requires e.verdict(0) && e.verdict(1) && !e.verdict(2)
    ensures var (st, t) := CreateRuleSpec(NO_RULE, e, 1, [A_FIELD], [COUNTER_ACTION], true, 9);
            Valid(NO_RULE) && st != Success && t.rules == map[] && !Valid(t)
  {
    ExamplesValid();
    ExampleLists();
    hide Valid, Parsed, CounterOf, NullCounter;
    CreateRuleValid(NO_RULE, e, 1, [A_FIELD], [COUNTER_ACTION], true, 9);
  }

  /**
   The NPU rejects the delete of a rule and then the attaching of its counter: the rule stays, its counter is
   not shared.
   */
  lemma RejectedDeleteLosesCounter(e: Env)
    requires e.isRule(9) && e.verdict(0) && !e.verdict(1) && !e.verdict(2)
    ensures var (st, t) := DeleteRuleSpec(ONE_COUNTING, e, 9, false);
            Valid(ONE_COUNTING) && st == NpuError && t.rules == ONE_COUNTING.rules && !Valid(t)
  {
    ExamplesValid();
    ExampleLists();
    hide Valid, Parsed, CounterOf;
    DeleteRuleValid(ONE_COUNTING, e, 9, false);
  }

  /**
   A set whose counter cannot be attached succeeds; the counter can then be deleted, and the rule names one
   that is gone.
   */
  lemma LostCounterDangles(e: Env)
    requires e.isRule(9) && e.isCounter(7) && e.verdict(0) && !e.verdict(1) && e.verdict(2)
    ensures var (st, t) := SetRuleSpec(ONE_PLAIN, e, 9, NULL_ID, [], [COUNTER_ACTION], false);
            var (gone, u) := DeleteCounterSpec(t, e, 7);
            && Valid(ONE_PLAIN) && st == Success && !Valid(t)
            && gone == Success && 9 in u.rules && u.rules[9].counterId == 7 && 7 !in u.counters
  {
    ExamplesValid();
    ExampleLists();
    hide Valid, Parsed, ParsedActions, CounterOf, NullCounter, UpdateSpec;
    var s := ONE_PLAIN;
    assert Lookup([COUNTER_ACTION], CounterKey) == Some(COUNTER_ACTION);
    SetRuleValid(s, e, 9, NULL_ID, [], [COUNTER_ACTION], false);
    SetLink(s, e, PLAIN, [], [COUNTER_ACTION]);
  }
}
