/** The ACL database: table id generator, table, rule and counter trees, and the calls that change them. */
module AclTables {
  import opened Common
  import opened AclCounterLink
  import opened AclRuleMerge
  import opened AclRuleUpdate
  import opened AclSpec
  import opened AclOwnership
  import AclRule

  class Database {
    const env: Env
    const inUse: array<bool>
    var tables: map<Oid, Table>
    var rules: map<Oid, Rule>
    var counters: map<Oid, Counter>
    var calls: nat

    ghost function Now(): State
      reads this, inUse
    {
      State(tables, rules, counters, inUse[..], calls)
    }

    /** Tables count their rules and counters, owners are there, ids and lists are exact. */
    ghost predicate Valid()
      reads this, inUse
    {
      Owned(Now())
    }

    /** `maxTables` is the size of the id generator. */
    constructor (env: Env, maxTables: nat)
      ensures Valid() && Nothing(Now())
      ensures this.env == env && fresh(inUse) && inUse.Length == maxTables
      ensures tables == map[] && rules == map[] && counters == map[] && calls == 0
      ensures forall i :: 0 <= i < maxTables ==> !inUse[i]
    {
      this.env := env;
      inUse := new bool[maxTables](_ => false);
      tables, rules, counters, calls := map[], map[], map[], 0;
      new;
      NothingOwned(Now());
    }

    method Ask() returns (ok: bool)
      modifies this`calls
      ensures ok == env.verdict(old(calls)) && calls == old(calls) + 1
    {
      ok := env.verdict(calls);
      calls := calls + 1;
    }

    /** The invalid id when all ids are in use. */
    method AllocateId() returns (id: Oid)
      modifies inUse
      ensures var i := FirstUnused(old(inUse[..]));
              if i == inUse.Length then id == NULL_ID && inUse[..] == old(inUse[..])
              else id == IdOf(i) && inUse[..] == old(inUse[..])[i := true]
    {
      var i := 0;
      while i < inUse.Length
        invariant i <= inUse.Length && inUse[..] == old(inUse[..])
        invariant forall j :: 0 <= j < i ==> inUse[j]
      {
        if !inUse[i] {
          assert i == FirstUnused(inUse[..]);
          inUse[i] := true;
          assert inUse[..] == old(inUse[..])[i := true];
          return IdOf(i);
        }
        i := i + 1;
      }
      return NULL_ID;
    }

    method ReleaseId(id: Oid)
      modifies inUse
      ensures inUse[..] == Release(old(inUse[..]), id)
    {
      var i := 0;
      while i < inUse.Length
        invariant i <= inUse.Length && inUse[..] == old(inUse[..])
        invariant forall j :: 0 <= j < i ==> IdOf(j) != id
      {
        if IdOf(i) == id {
          inUse[i] := false;
          assert inUse[..] == old(inUse[..])[i := false];
          return;
        }
        i := i + 1;
      }
      assert forall j :: 0 <= j < inUse.Length ==> IdOf(j) != id;
      assert id == NULL_ID || IdOf(id - 1) == id;
    }

    method CreateTable(atOnce: bool) returns (status: Status, id: Oid)
      requires Valid()
      modifies this, inUse
      ensures (status, id, Now()) == CreateTableSpec(old(Now()), env, atOnce)
      ensures Valid()
    {
      hide Owned;
      StepOwned(Now(), env, Request.CreateTable(atOnce));
      id := AllocateId();
      if id == NULL_ID {
        ReleaseId(id);
        return TableFull, NULL_ID;
      }
      if atOnce {
        var ok := Ask();
        if !ok {
          ReleaseId(id);
          return NpuError, NULL_ID;
        }
      }
      tables := tables[id := Table(0, 0)];
      return Success, id;
    }

    method DeleteTable(id: Oid) returns (status: Status)
      requires Valid()
      modifies this, inUse
      ensures (status, Now()) == DeleteTableSpec(old(Now()), env, id)
      ensures Valid()
    {
      hide Owned;
      StepOwned(Now(), env, Request.DeleteTable(id));
      if !env.isTable(id) {
        return InvalidObjectType;
      }
      if id !in tables {
        return InvalidObjectId;
      }
      if tables[id].ruleCount > 0 {
        return ObjectInUse;
      }
      if tables[id].numCounters > 0 {
        return ObjectInUse;
      }
      var table := tables[id];
      tables := tables - {id};
      var ok := Ask();
      if !ok {
        tables := tables[id := table];
        return NpuError;
      }
      ReleaseId(id);
      return Success;
    }

    method CreateCounter(tableId: Oid, newId: Oid) returns (status: Status)
      requires Valid() && WellPosed(Now(), Request.CreateCounter(tableId, newId))
      modifies this
      ensures (status, Now()) == CreateCounterSpec(old(Now()), env, tableId, newId)
      ensures Valid()
    {
      hide Owned;
      StepOwned(Now(), env, Request.CreateCounter(tableId, newId));
      if tableId == NULL_ID {
        return MandatoryAttributeMissing;
      }
      if tableId !in tables {
        return InvalidObjectId;
      }
      var ok := Ask();
      if !ok {
        return NpuError;
      }
      counters := counters[newId := Counter(tableId, 0)];
      tables := tables[tableId := tables[tableId].(numCounters := tables[tableId].numCounters + 1)];
      return Success;
    }

    /** The counter's table is there, as every counter's is. */
    method DeleteCounter(id: Oid) returns (status: Status)
      requires Valid()
      modifies this
      ensures (status, Now()) == DeleteCounterSpec(old(Now()), env, id)
      ensures Valid()
    {
      hide Owned;
      StepOwned(Now(), env, Request.DeleteCounter(id));
      CounterTable(Now(), id);
      if !env.isCounter(id) {
        return InvalidObjectType;
      }
      if id !in counters {
        return InvalidObjectId;
      }
      if counters[id].shared != 0 {
        return ObjectInUse;
      }
      var ok := Ask();
      if !ok {
        return NpuError;
      }
      var tableId := counters[id].tableId;
      counters := counters - {id};
      tables := tables[tableId := tables[tableId].(numCounters := tables[tableId].numCounters - 1)];
      return Success;
    }

    method AttachCounter(id: Oid) returns (status: Status)
      modifies this`counters, this`calls
      ensures var l := Attach(old(LinkOf(Now(), id)), id, env.verdict);
              status == l.status && counters == l.counters && calls == l.calls
    {
      if id !in counters {
        return InvalidObjectId;
      }
      var ok := Ask();
      if !ok {
        return NpuError;
      }
      counters := counters[id := counters[id].(shared := counters[id].shared + 1)];
      return Success;
    }

    method DetachCounter(tableId: Oid, id: Oid) returns (status: Status)
      modifies this`counters, this`calls
      ensures var l := Detach(old(LinkOf(Now(), id)), tableId, id, env.verdict);
              status == l.status && counters == l.counters && calls == l.calls
    {
      if id !in counters {
        return InvalidObjectId;
      }
      if counters[id].tableId != tableId {
        return Failure;
      }
      var ok := Ask();
      if !ok {
        return NpuError;
      }
      counters := counters[id := counters[id].(shared := counters[id].shared - 1)];
      return Success;
    }

    /** The steps that can fail: install, counter, policer. A failure deletes the rule in the NPU again. */
    method InstallRule(c: Oid, policer: bool) returns (status: Status)
      modifies this`counters, this`calls
      ensures (status, Now()) == Install(old(Now()), env, c, policer)
    {
      hide Attach;
      var ok := Ask();
      if !ok {
        return NpuError;
      }
      status := Success;
      if c != NULL_ID {
        status := AttachCounter(c);
      }
      if status == Success && policer {
        ok := Ask();
        if !ok {
          status := InvalidObjectId;
        }
      }
      if status != Success {
        var _ := Ask();
      }
    }

    method CreateRule(tableId: Oid, filters: seq<Entry>, actions: seq<Entry>, policer: bool, newId: Oid)
      returns (status: Status)
      requires Valid() && WellPosed(Now(), Request.CreateRule(tableId, filters, actions, policer, newId))
      modifies this
      ensures (status, Now()) == CreateRuleSpec(old(Now()), env, tableId, filters, actions, policer, newId)
      ensures Valid()
    {
      hide Owned, CounterOf, NullCounter, Install, Parsed, ParsedActions;
      StepOwned(Now(), env, Request.CreateRule(tableId, filters, actions, policer, newId));
      if |filters| == 0 {
        return MandatoryAttributeMissing;
      }
      if tableId !in tables {
        return InvalidObjectId;
      }
      if NullCounter(actions) {
        return InvalidAttrValue;
      }
      var c := CounterOf(actions);
      if c != NULL_ID && !(c in counters && counters[c].tableId == tableId) {
        return InvalidObjectId;
      }
      status := InstallRule(c, policer);
      if status == Success {
        rules := rules[newId := Rule(tableId, filters, actions, c)];
        tables := tables[tableId := tables[tableId].(ruleCount := tables[tableId].ruleCount + 1)];
      }
    }

    /** Attaches again what a refused delete has detached; the outcomes are not looked at. */
    method ReattachAll(c: Oid, policer: bool)
      modifies this`counters, this`calls
      ensures var l := Reattach(old(LinkOf(Now(), c)), c, policer, env.verdict);
              counters == l.counters && calls == l.calls
    {
      if c != NULL_ID {
        var _ := AttachCounter(c);
      }
      if policer {
        var _ := Ask();
      }
    }

    /** `policer` says whether the rule holds a policer, which has to be detached too. */
    method DeleteRule(id: Oid, policer: bool) returns (status: Status)
      requires Valid()
      modifies this
      ensures (status, Now()) == DeleteRuleSpec(old(Now()), env, id, policer)
      ensures Valid()
    {
      hide Owned, Attach, Detach, Reattach;
      StepOwned(Now(), env, Request.DeleteRule(id, policer));
      if !env.isRule(id) {
        return InvalidObjectType;
      }
      if id !in rules {
        return InvalidObjectId;
      }
      var r := rules[id];
      if r.tableId !in tables {
        return InvalidObjectId;
      }
      if r.counterId != NULL_ID {
        DetachKeepsId(LinkOf(Now(), r.counterId), r.tableId, r.counterId, env.verdict);
        status := DetachCounter(r.tableId, r.counterId);
        if status != Success {
          return;
        }
      }
      if policer {
        var ok := Ask();
        if !ok {
          ReattachAll(r.counterId, false);
          return InvalidObjectId;
        }
      }
      var ok := Ask();
      if !ok {
        ReattachAll(r.counterId, policer);
        return NpuError;
      }
      rules := rules - {id};
      tables := tables[r.tableId := tables[r.tableId].(ruleCount := tables[r.tableId].ruleCount - 1)];
      return Success;
    }

    /**
     The node of the rule is marked and merged in place (AclRule.Rule), with the counters it is linked to.
     The rule's table, which the code asserts, is there. `policer` says whether the policer link changes.
     */
    method SetRule(id: Oid, tableId: Oid, fields: seq<Entry>, actions: seq<Entry>, policer: bool)
      returns (status: Status)
      requires Valid() && Parsed(fields) && ParsedActions(actions)
      modifies this
      ensures (status, Now()) == SetRuleSpec(old(Now()), env, id, tableId, fields, actions, policer)
      ensures Valid()
    {
      hide Owned, CounterOf, NullCounter, ScanSpec, Parsed, ParsedActions;
      StepOwned(Now(), env, Request.SetRule(id, tableId, fields, actions, policer));
      if !env.isRule(id) {
        return InvalidObjectType;
      }
      if id !in rules {
        return InvalidObjectId;
      }
      var r := rules[id];
      RuleTable(Now(), id);
      assert r.tableId in tables;
      if NullCounter(actions) {
        return InvalidAttrValue;
      }
      if tableId != NULL_ID && tableId != r.tableId {
        return AttrNotSupported;
      }
      var c := CounterOf(actions);
      if c != NULL_ID && c != r.counterId && !(c in counters && counters[c].tableId == r.tableId) {
        return InvalidObjectId;
      }
      status := ModifyRule(id, fields, actions, c);
      if status == Success && policer {
        var ok := Ask();
        if !ok {
          status := InvalidObjectId;
        }
      }
    }

    method ModifyRule(id: Oid, fields: seq<Entry>, actions: seq<Entry>, c: Oid) returns (status: Status)
      requires id in rules && Parsed(rules[id].filters) && Parsed(fields) && ParsedActions(actions)
      modifies this`rules, this`counters, this`calls
      ensures var r := old(rules[id]);
              var (st, t) := ScanSpec(old(RuleStateOf(Now(), rules[id])), r.tableId, fields, actions, c, env.verdict);
              && status == st && counters == t.link.counters && calls == t.link.calls
              && rules == old(rules)[id := Rule(r.tableId, t.filters, t.actions, t.link.counterId)]
    {
      hide ScanSpec, WellFormed, Populated;
      var r := rules[id];
      ParsedWellFormed(r.filters);
      ParsedWellFormed(fields);
      ParsedWellFormed(actions);
      var start := RuleState(r.filters, r.actions, Link(Success, r.counterId, counters, calls));
      var node := new AclRule.Rule(r.tableId, env.verdict, start);
      var st, _ := node.ScanAndModify(fields, actions, c);
      status := st;
      counters, calls := node.counters, node.calls;
      rules := rules[id := Rule(r.tableId, node.filters, node.actions, node.counterId)];
    }
  }
}
