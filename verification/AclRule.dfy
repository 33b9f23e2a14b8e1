/** The ACL rule node and the loops that mark, patch and grow its lists in place. */
module AclRule {
  import opened Common
  import opened AclCounterLink
  import opened AclRuleMerge
  import opened AclRuleUpdate

  /** An object list of the rule after the delta's list was copied, freed or left. */
  method UpdateObjectList(src: seq<int>, dst: seq<int>, enable: bool) returns (r: seq<int>)
    ensures r == MergedList(src, dst, enable)
  {
    if |dst| != 0 {
      if !enable {
        return [];
      } else if |src| != 0 && |src| != |dst| {
        return src;
      } else if |src| == |dst| {
        return src;
      }
      return dst;
    }
    if enable && |src| != 0 {
      return src;
    }
    return dst;
  }

  /**
   A byte list and its mask. The mask is copied with the byte count of the data, so as many mask bytes
   must be there; a rule that has one of its two lists only is refused.
   */
  method UpdateByteList(srcData: seq<int>, srcMask: seq<int>, dstData: seq<int>, dstMask: seq<int>, enable: bool)
    returns (status: Status, data: seq<int>, mask: seq<int>)
    requires enable ==> |srcData| <= |srcMask|
    ensures status == if dstData == [] <==> dstMask == [] then Success else Failure
    ensures status != Success ==> data == dstData && mask == dstMask
    ensures status == Success && !enable ==> data == [] && mask == []
    ensures status == Success && enable ==>
      if srcData != [] && (|srcData| == |dstData| ==> |dstMask| == |dstData|)
      then data == srcData && mask == srcMask[..|srcData|]
      else data == dstData && mask == dstMask
  {
    status, data, mask := Success, dstData, dstMask;
    if |dstData| != 0 || |dstMask| != 0 {
      if |dstData| == 0 || |dstMask| == 0 {
        status := Failure;
      } else if !enable {
        data, mask := [], [];
      } else if |srcData| != 0 && |srcData| != |dstData| {
        data, mask := srcData, srcMask[..|srcData|];
      } else if |srcData| == |dstData| && |srcData| == |dstMask| {
        data, mask := srcData, srcMask[..|srcData|];
      }
    } else if enable && |srcData| != 0 {
      data, mask := srcData, srcMask[..|srcData|];
    }
  }

  /** Compares one delta entry with the rule's entries, up to the one with its key. */
  method MarkEntry(given: seq<Entry>, scan: Entry) returns (marked: Entry)
    ensures marked == Mark(given, scan)
  {
    var j := 0;
    while j < |given| && given[j].key != scan.key
      invariant j <= |given|
      invariant forall k :: 0 <= k < j ==> given[k].key != scan.key
    {
      j := j + 1;
    }
    assert j == Find(given, scan.key);
    return if j < |given| then scan.(changed := Changed(given[j], scan)) else scan.(isNew := true);
  }

  /** Marks every entry of `scan` as a change of `given` or as new, and counts the new ones. */
  method MarkList(scan: seq<Entry>, given: seq<Entry>) returns (marked: seq<Entry>, added: nat)
    requires Unmarked(scan)
    ensures marked == MarkAll(given, scan)
    ensures added == CountFresh(marked)
  {
    hide Mark;
    marked, added := scan, 0;
    var i := 0;
    while i < |scan|
      invariant i <= |scan| == |marked|
      invariant forall j :: 0 <= j < i ==> marked[j] == Mark(given, scan[j])
      invariant forall j :: i <= j < |scan| ==> marked[j] == scan[j]
      invariant added == CountFresh(marked[..i])
    {
      var e := MarkEntry(given, scan[i]);
      ghost var before := marked[..i];
      marked := marked[i := e];
      if e.isNew {
        added := added + 1;
      }
      assert marked[..i + 1] == before + [e];
      assert (before + [e])[..i] == before;
      i := i + 1;
    }
    assert marked[..|scan|] == marked;
    assert marked == MarkAll(given, scan);
  }

  /** The entries from `g` on are as zeroed memory has them. */
  ghost predicate ZeroFrom(l: seq<Entry>, g: nat) {
    forall k :: g <= k < |l| ==> l[k] == ZERO_ENTRY
  }

  /** A zeroed array of `total` entries that starts with `l`. */
  method Grown(l: seq<Entry>, total: nat) returns (list: array<Entry>)
    requires |l| <= total
    ensures fresh(list) && list.Length == total
    ensures list[..|l|] == l && ZeroFrom(list[..], |l|)
  {
    list := new Entry[total](_ => ZERO_ENTRY);
    var g := 0;
    while g < |l|
      invariant g <= |l|
      invariant list[..g] == l[..g]
      invariant forall k :: g <= k < total ==> list[k] == ZERO_ENTRY
    {
      list[g] := l[g];
      g := g + 1;
    }
  }

  /** The entry for a new field. */
  method BuildField(zero: Entry, scan: Entry) returns (e: Entry)
    requires zero == ZERO_ENTRY && (scan.key.ByteList? ==> |scan.data| == |scan.mask|)
    ensures e == NewEntry(scan)
  {
    e := zero.(enable := scan.enable, key := scan.key);
    match scan.key {
      case ObjectList(_) =>
        var data := UpdateObjectList(scan.data, e.data, scan.enable);
        e := e.(data := data);
      case ByteList(_) =>
        var _, data, mask := UpdateByteList(scan.data, scan.mask, e.data, e.mask, scan.enable);
        e := e.(data := data, mask := mask);
      case _ => e := scan;
    }
    e := e.(isNew := false);
  }

  /** Adds the new fields behind the old ones in `list`. */
  method AddNewFields(list: array<Entry>, filters: seq<Entry>, scan: seq<Entry>)
    requires list.Length == |filters| + CountFresh(scan) && list[..|filters|] == filters
      && ZeroFrom(list[..], |filters|)
    requires PairedMasks(scan)
    modifies list
    ensures list[..] == filters + NewEntries(scan)
  {
    var g := |filters|;
    var i := 0;
    assert scan[..0] == [];
    hide NewEntries, CountFresh, NewEntry;
    while i < |scan|
      invariant i <= |scan|
      invariant g == |filters| + CountFresh(scan[..i]) <= list.Length
      invariant list[..g] == filters + NewEntries(scan[..i])
      invariant ZeroFrom(list[..], g)
    {
      NewEntriesNext(scan, i);
      if scan[i].isNew {
        ghost var before := list[..g];
        var e := BuildField(list[g], scan[i]);
        list[g] := e;
        g := g + 1;
        assert list[..g] == before + [NewEntry(scan[i])];
      }
      i := i + 1;
    }
    assert scan[..|scan|] == scan && list[..g] == list[..];
  }

  class Rule {
    const tableId: Oid
    const verdict: nat -> bool
    var filters: seq<Entry>
    var actions: seq<Entry>
    var counterId: Oid
    var counters: map<Oid, Counter>
    var calls: nat

    /** A rule node as it stands in the database. */
    constructor (tableId: Oid, verdict: nat -> bool, start: RuleState)
      ensures State(start.link.status) == start
      ensures this.tableId == tableId && this.verdict == verdict
    {
      this.tableId := tableId;
      this.verdict := verdict;
      this.filters, this.actions := start.filters, start.actions;
      this.counterId, this.counters, this.calls := start.link.counterId, start.link.counters, start.link.calls;
    }

    ghost function State(status: Status): RuleState
      reads this
    {
      RuleState(filters, actions, Link(status, counterId, counters, calls))
    }

    method AttachCounter() returns (status: Status)
      modifies this`counters, this`calls
      ensures Link(status, counterId, counters, calls) == Attach(old(State(Success).link), counterId, verdict)
    {
      if counterId !in counters {
        return InvalidObjectId;
      }
      calls := calls + 1;
      if !verdict(calls - 1) {
        return NpuError;
      }
      counters := counters[counterId := counters[counterId].(shared := counters[counterId].shared + 1)];
      return Success;
    }

    method DetachCounter() returns (status: Status)
      modifies this`counters, this`calls
      ensures Link(status, counterId, counters, calls) == Detach(old(State(Success).link), tableId, counterId, verdict)
    {
      if counterId !in counters {
        return InvalidObjectId;
      }
      if counters[counterId].tableId != tableId {
        return Failure;
      }
      calls := calls + 1;
      if !verdict(calls - 1) {
        return NpuError;
      }
      counters := counters[counterId := counters[counterId].(shared := counters[counterId].shared - 1)];
      return Success;
    }

    method UpdateCounterAction(id: Oid, enable: bool) returns (status: Status)
      modifies this`counterId, this`counters, this`calls
      ensures Link(status, counterId, counters, calls)
        == UpdateCounter(old(State(Success).link), tableId, id, enable, verdict)
    {
      status := Success;
      if !enable {
        if counterId != NULL_ID {
          status := DetachCounter();
          if status != Success {
            return;
          }
          counterId := NULL_ID;
        }
      } else if counterId != NULL_ID {
        if id != counterId {
          status := DetachCounter();
          if status != Success {
            return;
          }
          counterId := id;
          status := AttachCounter();
        }
      } else {
        counterId := id;
        status := AttachCounter();
      }
    }

    /** Copies one delta field into the field with its key, if it is marked as a change. */
    method PatchOneField(scan: Entry)
      requires PairedMasks(filters) && (scan.key.ByteList? ==> |scan.data| == |scan.mask|)
      modifies this`filters
      ensures filters == PatchOne(old(filters), scan) && PairedMasks(filters)
    {
      var j := 0;
      while j < |filters| && !(scan.changed && scan.key == filters[j].key)
        invariant j <= |filters| && filters == old(filters)
        invariant scan.changed ==> forall k :: 0 <= k < j ==> filters[k].key != scan.key
      {
        j := j + 1;
      }
      if j < |filters| {
        assert j == Find(filters, scan.key);
        CopyField(j, scan);
      }
    }

    /** The field at `j` takes over what the delta says about it. */
    method CopyField(j: nat, scan: Entry)
      requires PairedMasks(filters) && (scan.key.ByteList? ==> |scan.data| == |scan.mask|)
      requires j < |filters| && j == Find(filters, scan.key) && scan.changed
      modifies this`filters
      ensures filters == PatchOne(old(filters), scan) && PairedMasks(filters)
    {
      hide Find;
      var e := filters[j].(enable := scan.enable);
      match e.key {
        case ObjectList(_) =>
          var data := UpdateObjectList(scan.data, e.data, scan.enable);
          e := e.(data := data);
        case ByteList(_) =>
          assert scan.mask[..|scan.data|] == scan.mask;
          var _, data, mask := UpdateByteList(scan.data, scan.mask, e.data, e.mask, scan.enable);
          e := e.(data := data, mask := mask);
        case _ => e := scan;
      }
      assert e.(changed := false) == Patched(filters[j], scan);
      filters := filters[j := e.(changed := false)];
    }

    /** Copies the marked field changes into the existing fields. */
    method PatchFields(scan: seq<Entry>)
      requires PairedMasks(filters) && PairedMasks(scan)
      modifies this`filters
      ensures filters == PatchAll(old(filters), scan) && PairedMasks(filters)
    {
      hide PatchOne;
      var i := 0;
      while i < |scan|
        invariant i <= |scan|
        invariant filters == PatchAll(old(filters), scan[..i]) && PairedMasks(filters)
      {
        assert scan[..i + 1][..i] == scan[..i];
        PatchOneField(scan[i]);
        i := i + 1;
      }
      assert scan[..|scan|] == scan;
    }

    /** Copies one delta action into the action with its key, if it is marked as a change. */
    method PatchOneAction(scan: Entry, counter: Oid) returns (status: Status)
      requires !scan.key.ByteList?
      modifies this`actions, this`counterId, this`counters, this`calls
      ensures Work(actions, Link(status, counterId, counters, calls))
           == PatchAction(Work(old(actions), old(State(Success).link)), tableId, scan, counter, verdict)
    {
      hide PatchOne, UpdateCounter;
      status := Success;
      var j := 0;
      while j < |actions| && !(scan.changed && scan.key == actions[j].key)
        invariant j <= |actions|
        invariant scan.changed ==> forall k :: 0 <= k < j ==> actions[k].key != scan.key
      {
        j := j + 1;
      }
      if j < |actions| {
        assert j == Find(actions, scan.key);
        hide Find;
        if scan.key == CounterKey {
          status := UpdateCounterAction(counter, scan.enable);
          if status != Success {
            return;
          }
        }
        CopyAction(j, scan);
      }
    }

    /** The action at `j` takes over what the delta says about it. */
    method CopyAction(j: nat, scan: Entry)
      requires j < |actions| && j == Find(actions, scan.key) && scan.changed && !scan.key.ByteList?
      modifies this`actions
      ensures actions == PatchOne(old(actions), scan)
    {
      var e := actions[j];
      if e.key.ObjectList? {
        var data := UpdateObjectList(scan.data, e.data, scan.enable);
        e := e.(enable := scan.enable, data := data);
      } else {
        e := scan;
      }
      actions := actions[j := e.(changed := false)];
    }

    /** Copies the marked action changes into the existing actions, relinking the counter on the way. */
    method PatchActionList(scan: seq<Entry>, counter: Oid) returns (status: Status)
      requires forall k :: 0 <= k < |scan| ==> !scan[k].key.ByteList?
      modifies this`actions, this`counterId, this`counters, this`calls
      ensures Work(actions, Link(status, counterId, counters, calls))
           == PatchActions(Work(old(actions), old(State(Success).link)), tableId, scan, counter, verdict)
    {
      status := Success;
      ghost var w := Work(actions, Link(Success, counterId, counters, calls));
      var i := 0;
      while i < |scan|
        invariant i <= |scan| && status == Success
        invariant Work(actions, Link(Success, counterId, counters, calls))
          == PatchActions(w, tableId, scan[..i], counter, verdict)
      {
        PatchActionsNext(w, tableId, scan, i, counter, verdict);
        status := PatchOneAction(scan[i], counter);
        if status != Success {
          PatchActionsStop(w, tableId, scan, i + 1, counter, verdict);
          return;
        }
        i := i + 1;
      }
      assert scan[..|scan|] == scan;
    }

    /** Moves the fields to a larger array and adds the new ones behind them. */
    method AppendFields(scan: seq<Entry>, total: nat)
      requires PairedMasks(scan) && total == |filters| + CountFresh(scan)
      modifies this`filters
      ensures filters == old(filters) + NewEntries(scan)
    {
      hide NewEntries, CountFresh;
      var list := Grown(filters, total);
      AddNewFields(list, filters, scan);
      filters := list[..];
    }

    /** The entry for a new action; for the counter action, the counter is linked too. */
    method BuildAction(zero: Entry, scan: Entry, counter: Oid, ghost before: seq<Entry>)
      returns (status: Status, e: Entry)
      requires zero == ZERO_ENTRY && scan.isNew && !scan.key.ByteList?
      modifies this`counterId, this`counters, this`calls
      ensures Work(if status == Success then before + [e] else before, Link(status, counterId, counters, calls))
           == AppendAction(Work(before, old(State(Success).link)), tableId, scan, counter, verdict)
    {
      status, e := Success, zero;
      if scan.key.ObjectList? {
        var data := UpdateObjectList(scan.data, e.data, scan.enable);
        e := e.(enable := scan.enable, key := scan.key, data := data);
      } else {
        e := scan;
        if scan.key == CounterKey {
          status := UpdateCounterAction(counter, scan.enable);
        }
      }
      e := e.(isNew := false);
    }

    /** Writes a new action behind the `g` actions that `list` holds; an old one is skipped. */
    method AppendOneAction(list: array<Entry>, g: nat, scan: Entry, counter: Oid) returns (status: Status, next: nat)
      requires !scan.key.ByteList? && g <= list.Length && (scan.isNew ==> g < list.Length && list[g] == ZERO_ENTRY)
      modifies list, this`counterId, this`counters, this`calls
      ensures var w := AppendAction(Work(old(list[..g]), old(State(Success).link)), tableId, scan, counter, verdict);
              && Link(status, counterId, counters, calls) == w.link
              && (status == Success ==> next == (if scan.isNew then g + 1 else g) && list[..next] == w.list)
      ensures forall k :: g < k < list.Length ==> list[k] == old(list[k])
      ensures !scan.isNew && g < list.Length ==> list[g] == old(list[g])
    {
      hide AppendAction;
      status, next := Success, g;
      ghost var before := list[..g];
      if scan.isNew {
        var e;
        status, e := BuildAction(list[g], scan, counter, before);
        if status != Success {
          return;
        }
        list[g] := e;
        next := g + 1;
        assert list[..next] == before + [e];
      } else {
        NotNew(Work(before, Link(Success, counterId, counters, calls)), tableId, scan, counter, verdict);
      }
    }

    /**
     Moves the actions to a larger array and adds the new ones; when the counter cannot be linked the
     array is dropped.
     */
    method AppendActionList(scan: seq<Entry>, total: nat, counter: Oid) returns (status: Status)
      requires total == |actions| + CountFresh(scan)
      requires forall k :: 0 <= k < |scan| ==> !scan[k].key.ByteList?
      modifies this`actions, this`counterId, this`counters, this`calls
      ensures var w := AppendActions(Work(old(actions), old(State(Success).link)), tableId, scan, counter, verdict);
              && Link(status, counterId, counters, calls) == w.link
              && actions == if status == Success then w.list else old(actions)
    {
      hide AppendActions, CountFresh;
      var list := Grown(actions, total);
      status := AddNewActions(list, |actions|, scan, counter);
      if status == Success {
        actions := list[..];
      }
    }

    /** Adds the new actions behind the first `g` of `list`. */
    method AddNewActions(list: array<Entry>, ghost start: nat, scan: seq<Entry>, counter: Oid) returns (status: Status)
      requires list.Length == |actions| + CountFresh(scan) && list[..|actions|] == actions
      requires start == |actions| && ZeroFrom(list[..], start)
      requires forall k :: 0 <= k < |scan| ==> !scan[k].key.ByteList?
      modifies list, this`counterId, this`counters, this`calls
      ensures var w := AppendActions(Work(actions, old(State(Success).link)), tableId, scan, counter, verdict);
              && Link(status, counterId, counters, calls) == w.link
              && (status == Success ==> list[..] == w.list)
    {
      status := Success;
      ghost var w := Work(actions, State(Success).link);
      assert scan[..0] == [] && AppendActions(w, tableId, [], counter, verdict) == w;
      hide AppendAction, AppendActions, CountFresh, NewEntries, NewEntry;
      var g := |actions|;
      var i := 0;
      while i < |scan|
        invariant i <= |scan| && status == Success
        invariant g == |actions| + CountFresh(scan[..i]) <= list.Length
        invariant Work(list[..g], State(Success).link) == AppendActions(w, tableId, scan[..i], counter, verdict)
        invariant ZeroFrom(list[..], g)
      {
        AppendActionsNext(w, tableId, scan, i, counter, verdict);
        NewEntriesNext(scan, i);
        status, g := AppendOneAction(list, g, scan[i], counter);
        if status != Success {
          AppendActionsStop(w, tableId, scan, i + 1, counter, verdict);
          return;
        }
        i := i + 1;
      }
      assert scan[..|scan|] == scan && list[..g] == list[..];
    }

    method UpdateFieldAction(fields: seq<Entry>, newActions: seq<Entry>, counter: Oid, newFieldCount: nat,
                             newActionCount: nat)
      returns (status: Status)
      requires PairedMasks(filters) && PairedMasks(fields)
      requires forall k :: 0 <= k < |newActions| ==> !newActions[k].key.ByteList?
      requires newFieldCount == CountFresh(fields) && newActionCount == CountFresh(newActions)
      modifies this
      ensures State(status) == UpdateSpec(old(State(Success)), tableId, fields, newActions, counter, verdict)
    {
      PatchFields(fields);
      status := PatchActionList(newActions, counter);
      if status != Success {
        return;
      }
      if newFieldCount != 0 {
        AppendFields(fields, newFieldCount + |filters|);
      }
      if newActionCount != 0 {
        status := AppendActionList(newActions, newActionCount + |actions|, counter);
      } else {
        NothingToAppend(Work(actions, Link(Success, counterId, counters, calls)), tableId, newActions, counter,
                        verdict);
      }
    }

    /**
     The rule set: the delta is marked against the rule, offered to the NPU, and merged; a failure to
     merge is not reported.
     */
    method ScanAndModify(fields: seq<Entry>, newActions: seq<Entry>, counter: Oid)
      returns (status: Status, merged: Status)
      requires PairedMasks(filters) && PairedMasks(fields) && Unmarked(fields) && Unmarked(newActions)
      requires forall k :: 0 <= k < |newActions| ==> !newActions[k].key.ByteList?
      modifies this
      ensures (status, State(merged)) == ScanSpec(old(State(Success)), tableId, fields, newActions, counter, verdict)
    {
      hide MarkAll, CountFresh, UpdateSpec;
      var markedFields, newFieldCount := MarkList(fields, filters);
      var markedActions, newActionCount := MarkList(newActions, actions);
      merged := Success;
      calls := calls + 1;
      if !verdict(calls - 1) {
        return NpuError, merged;
      }
      MarkedShape(filters, fields);
      MarkedShape(actions, newActions);
      status := Success;
      merged := UpdateFieldAction(markedFields, markedActions, counter, newFieldCount, newActionCount);
    }
  }

  lemma MarkedShape(given: seq<Entry>, scan: seq<Entry>)
    ensures PairedMasks(scan) ==> PairedMasks(MarkAll(given, scan))
    ensures |MarkAll(given, scan)| == |scan|
    ensures forall i :: 0 <= i < |scan| ==> MarkAll(given, scan)[i].key == scan[i].key
  {
    hide Changed, Find;
  }

  // ---------------------------------------------------------------------------------------------
  // Unrolling the specifications at a loop index
  // ---------------------------------------------------------------------------------------------

  lemma {:induction false} CountFreshPrefix(scan: seq<Entry>, n: nat)
    requires n <= |scan|
    ensures CountFresh(scan[..n]) <= CountFresh(scan)
  {
    if n < |scan| {
      CountFreshPrefix(scan[..|scan| - 1], n);
      assert scan[..|scan| - 1][..n] == scan[..n];
    } else {
      assert scan[..n] == scan;
    }
  }

  lemma NewEntriesNext(scan: seq<Entry>, i: nat)
    requires i < |scan|
    ensures NewEntries(scan[..i + 1]) == NewEntries(scan[..i]) + if scan[i].isNew then [NewEntry(scan[i])] else []
    ensures CountFresh(scan[..i + 1]) == CountFresh(scan[..i]) + (if scan[i].isNew then 1 else 0) <= CountFresh(scan)
  {
    hide NewEntry;
    assert scan[..i + 1][..i] == scan[..i];
    CountFreshPrefix(scan, i + 1);
  }

  lemma PatchActionsNext(w: Work, tableId: Oid, scan: seq<Entry>, i: nat, counter: Oid, v: nat -> bool)
    requires i < |scan|
    ensures var b := PatchActions(w, tableId, scan[..i], counter, v);
            PatchActions(w, tableId, scan[..i + 1], counter, v)
            == if b.link.status != Success then b else PatchAction(b, tableId, scan[i], counter, v)
  {
    hide PatchAction;
    assert scan[..i + 1][..i] == scan[..i];
  }

  lemma AppendActionsNext(w: Work, tableId: Oid, scan: seq<Entry>, i: nat, counter: Oid, v: nat -> bool)
    requires i < |scan|
    ensures var b := AppendActions(w, tableId, scan[..i], counter, v);
            AppendActions(w, tableId, scan[..i + 1], counter, v)
            == if b.link.status != Success then b else AppendAction(b, tableId, scan[i], counter, v)
  {
    hide AppendAction;
    assert scan[..i + 1][..i] == scan[..i];
  }

  lemma NotNew(w: Work, tableId: Oid, e: Entry, counter: Oid, v: nat -> bool)
    requires !e.isNew
    ensures AppendAction(w, tableId, e, counter, v) == w
  {
  }

  /** Once the walk has failed, the rest of the delta is ignored. */
  lemma {:induction false} PatchActionsStop(w: Work, tableId: Oid, scan: seq<Entry>, n: nat, counter: Oid,
                                            v: nat -> bool)
    requires n <= |scan| && PatchActions(w, tableId, scan[..n], counter, v).link.status != Success
    ensures PatchActions(w, tableId, scan, counter, v) == PatchActions(w, tableId, scan[..n], counter, v)
  {
    hide PatchAction;
    if n < |scan| {
      assert scan[..|scan| - 1][..n] == scan[..n];
      PatchActionsStop(w, tableId, scan[..|scan| - 1], n, counter, v);
    } else {
      assert scan[..n] == scan;
    }
  }

  lemma {:induction false} AppendActionsStop(w: Work, tableId: Oid, scan: seq<Entry>, n: nat, counter: Oid,
                                             v: nat -> bool)
    requires n <= |scan| && AppendActions(w, tableId, scan[..n], counter, v).link.status != Success
    ensures AppendActions(w, tableId, scan, counter, v) == AppendActions(w, tableId, scan[..n], counter, v)
  {
    hide AppendAction;
    if n < |scan| {
      assert scan[..|scan| - 1][..n] == scan[..n];
      AppendActionsStop(w, tableId, scan[..|scan| - 1], n, counter, v);
    } else {
      assert scan[..n] == scan;
    }
  }

  lemma {:induction false} NothingToAppend(w: Work, tableId: Oid, scan: seq<Entry>, counter: Oid, v: nat -> bool)
    requires CountFresh(scan) == 0
    ensures AppendActions(w, tableId, scan, counter, v) == w
  {
    if scan != [] {
      NothingToAppend(w, tableId, scan[..|scan| - 1], counter, v);
    }
  }
}
