/**
 Pushing one profile attribute to every object attached to the profile, and undoing the push when
 the NPU rejects it part-way.
 */
module QosBufferWalk {
  import opened Common
  import opened QosBufferState

  /** The NPU setting after it accepted attribute `a`. The threshold mode is never pushed. */
  function WriteHw(h: HwSetting, a: ProfileAttr): HwSetting {
    match a
    case PoolIdAttr(x) => h.(poolId := x)
    case SizeAttr(x) => h.(size := x)
    case DynamicThAttr(x) => h.(dynamicTh := x)
    case StaticThAttr(x) => h.(staticTh := x)
    case XoffThAttr(x) => h.(xoffTh := x)
    case XonThAttr(x) => h.(xonTh := x)
    case ModeAttr(_) => h
    case UnknownProfileAttr => h
  }

  /** The value the profile node holds for the attribute id of `a`. */
  function OldAttr(p: Profile, a: ProfileAttr): ProfileAttr {
    match a
    case PoolIdAttr(_) => PoolIdAttr(p.poolId)
    case SizeAttr(_) => SizeAttr(p.size)
    case ModeAttr(_) => ModeAttr(p.thMode)
    case DynamicThAttr(_) => DynamicThAttr(p.dynamicTh)
    case StaticThAttr(_) => StaticThAttr(p.staticTh)
    case XoffThAttr(_) => XoffThAttr(p.xoffTh)
    case XonThAttr(_) => XonThAttr(p.xonTh)
    case UnknownProfileAttr => UnknownProfileAttr
  }

  predicate IsPfc(a: ProfileAttr) {
    a.XoffThAttr? || a.XonThAttr?
  }

  /** Attachment lists, in the order in which they are walked. */
  datatype Lists = End | Then(list: seq<ObjId>, next: Lists)

  /** The attachment lists that an attribute is pushed to, in order: PFC thresholds go to priority groups only. */
  function TargetLists(p: Profile, a: ProfileAttr): Lists {
    if IsPfc(a) then Then(p.pgs, End) else Then(p.ports, Then(p.queues, Then(p.pgs, End)))
  }

  // ---------------------------------------------------------------------------------------------
  // One walk, in terms of sets of objects
  // ---------------------------------------------------------------------------------------------

  /** The NPU after exactly the objects in `objs` received attribute `a`. */
  ghost function Written(hw: map<ObjId, HwSetting>, objs: seq<ObjId>, a: ProfileAttr): map<ObjId, HwSetting> {
    map o | o in hw :: if o in objs then WriteHw(hw[o], a) else hw[o]
  }

  /** How many of the next `n` NPU calls are accepted before the first rejection. */
  ghost function Accepted(n: nat, calls: nat, v: nat -> bool): (r: nat)
    ensures r <= n
  {
    if n == 0 || !v(calls) then 0 else 1 + Accepted(n - 1, calls + 1, v)
  }

  /** A walk makes one NPU call per object until the first rejection. */
  ghost function CallsAfter(n: nat, calls: nat, v: nat -> bool): nat {
    var k := Accepted(n, calls, v);
    if k == n then calls + n else calls + k + 1
  }

  /** A walk over `l` that is told to stop before `stop` visits exactly `part`. */
  ghost predicate Visits(l: seq<ObjId>, stop: Option<ObjId>, part: seq<ObjId>) {
    && part <= l
    && (forall o :: o in part ==> stop != Some(o))
    && (|part| < |l| ==> stop == Some(l[|part|]))
  }

  /** In a list without duplicates a walk told to stop at an object stops exactly there. */
  lemma VisitsBefore(l: seq<ObjId>, n: nat)
    requires n < |l| && Distinct(l)
    ensures Visits(l, Some(l[n]), l[..n])
  {
  }

  lemma {:induction false} AcceptedAll(n: nat, calls: nat, v: nat -> bool)
    ensures Accepted(n, calls, v) == n <==> forall i :: calls <= i < calls + n ==> v(i)
  {
    if n > 0 && v(calls) {
      AcceptedAll(n - 1, calls + 1, v);
    }
  }

  lemma {:induction false} AcceptedIs(n: nat, k: nat, calls: nat, v: nat -> bool)
    requires k <= n
    requires forall i :: calls <= i < calls + k ==> v(i)
    requires k < n ==> !v(calls + k)
    ensures Accepted(n, calls, v) == k
  {
    if k > 0 {
      AcceptedIs(n - 1, k - 1, calls + 1, v);
    }
  }

  lemma WrittenTwice(hw: map<ObjId, HwSetting>, s: seq<ObjId>, t: seq<ObjId>, a: ProfileAttr)
    ensures Written(Written(hw, s, a), t, a) == Written(hw, s + t, a)
  {
  }

  // ---------------------------------------------------------------------------------------------
  // Several walks: pushing and undoing
  // ---------------------------------------------------------------------------------------------

  /** The NPU after a walk over `l`. */
  ghost function WalkHw(l: seq<ObjId>, a: ProfileAttr, hw: map<ObjId, HwSetting>, calls: nat,
                        v: nat -> bool): map<ObjId, HwSetting> {
    Written(hw, l[..Accepted(|l|, calls, v)], a)
  }

  ghost predicate Unrejected(l: seq<ObjId>, calls: nat, v: nat -> bool) {
    Accepted(|l|, calls, v) == |l|
  }

  datatype PushResult = PushResult(ok: bool, hw: map<ObjId, HwSetting>, calls: nat)

  ghost function Concat(lists: Lists): seq<ObjId> {
    match lists
    case End => []
    case Then(l, next) => l + Concat(next)
  }

  /** Undo walks over several lists: a rejection ends the walk of one list, not of the following ones. */
  ghost function Undo(lists: Lists, was: ProfileAttr,
                      hw: map<ObjId, HwSetting>, calls: nat, v: nat -> bool): PushResult
  {
    match lists
    case End => PushResult(false, hw, calls)
    case Then(l, next) => Undo(next, was, WalkHw(l, was, hw, calls, v), CallsAfter(|l|, calls, v), v)
  }

  ghost function Targets(p: Profile, a: ProfileAttr): seq<ObjId> {
    Concat(TargetLists(p, a))
  }

  /** The first `n` objects of the concatenated lists, list by list. */
  ghost function FirstLists(lists: Lists, n: nat): Lists {
    match lists
    case End => End
    case Then(l, next) => if n < |l| then Then(l[..n], End) else Then(l, FirstLists(next, n - |l|))
  }

  /**
   The forward walks write the objects up to the first rejection; a rejection undoes what was written, list
   by list.
   */
  ghost function PushLists(lists: Lists, a: ProfileAttr, was: ProfileAttr,
                           hw: map<ObjId, HwSetting>, calls: nat, v: nat -> bool): PushResult
  {
    var t := Concat(lists);
    var n := Accepted(|t|, calls, v);
    var hw1 := Written(hw, t[..n], a);
    if n == |t| then PushResult(true, hw1, calls + n)
    else Undo(FirstLists(lists, n), was, hw1, calls + n + 1, v)
  }

  ghost function Push(p: Profile, a: ProfileAttr, was: ProfileAttr,
                      hw: map<ObjId, HwSetting>, calls: nat, v: nat -> bool): PushResult
  {
    PushLists(TargetLists(p, a), a, was, hw, calls, v)
  }

  lemma {:induction false} FirstListsConcat(lists: Lists, n: nat)
    requires n <= |Concat(lists)|
    ensures Concat(FirstLists(lists, n)) == Concat(lists)[..n]
  {
    match lists
    case End =>
    case Then(l, next) =>
      if n < |l| {
        assert (l + Concat(next))[..n] == l[..n] + [];
      } else {
        FirstListsConcat(next, n - |l|);
        assert (l + Concat(next))[..n] == l + Concat(next)[..n - |l|];
      }
  }

  lemma DistinctParts(l: seq<ObjId>, m: seq<ObjId>)
    requires Distinct(l + m)
    ensures Distinct(l) && Distinct(m)
    ensures forall o :: o in l ==> o !in m
  {
    var s := l + m;
    assert forall i :: 0 <= i < |l| ==> l[i] == s[i];
    assert forall i :: 0 <= i < |m| ==> m[i] == s[|l| + i];
  }

  lemma DistinctConcat(l: seq<ObjId>, m: seq<ObjId>)
    requires Distinct(l) && Distinct(m) && forall o :: o in l ==> o !in m
    ensures Distinct(l + m)
  {
    forall i, j | 0 <= i < j < |l + m|
      ensures (l + m)[i] != (l + m)[j]
    {
      if i < |l| <= j {
        assert l[i] in l && m[j - |l|] in m;
      }
    }
  }

  function ThreeLists(l: seq<ObjId>, m: seq<ObjId>, g: seq<ObjId>): Lists {
    Then(l, Then(m, Then(g, End)))
  }

  lemma ConcatThree(l: seq<ObjId>, m: seq<ObjId>, g: seq<ObjId>)
    ensures Concat(Then(g, End)) == g
    ensures Concat(ThreeLists(l, m, g)) == l + m + g
  {
    assert Concat(Then(g, End)) == g + [] == g;
    assert Concat(Then(m, Then(g, End))) == m + g;
    assert l + (m + g) == l + m + g;
  }

  lemma TargetsDistinct(p: Profile, a: ProfileAttr)
    requires ProfileCounts(p)
    ensures Distinct(Targets(p, a))
    ensures Targets(p, a) == if IsPfc(a) then p.pgs else p.ports + p.queues + p.pgs
  {
    ConcatThree(p.ports, p.queues, p.pgs);
    if !IsPfc(a) {
      DistinctConcat(p.ports, p.queues);
      DistinctConcat(p.ports + p.queues, p.pgs);
    }
  }

  /**
   The undo walks restore all the objects exactly when no undo call is rejected; otherwise some object `lost`
   keeps the new value.
   */
  lemma {:induction false} UndoEffect(lists: Lists, was: ProfileAttr, hw: map<ObjId, HwSetting>, calls: nat,
                                      v: nat -> bool)
      returns (undone: seq<ObjId>, lost: Option<ObjId>)
    requires Distinct(Concat(lists))
    ensures !Undo(lists, was, hw, calls, v).ok
    ensures Undo(lists, was, hw, calls, v).hw == Written(hw, undone, was)
    ensures forall o :: o in undone ==> o in Concat(lists)
    ensures lost == None <==> forall i :: calls <= i < calls + |Concat(lists)| ==> v(i)
    ensures if lost == None then undone == Concat(lists) else lost.value in Concat(lists) && lost.value !in undone
  {
    if lists == End {
      undone, lost := [], None;
      assert Written(hw, undone, was) == hw;
    } else {
      var l, rest := lists.list, Concat(lists.next);
      DistinctParts(l, rest);
      var k := Accepted(|l|, calls, v);
      AcceptedAll(|l|, calls, v);
      var more, lostLater := UndoEffect(lists.next, was, Written(hw, l[..k], was), CallsAfter(|l|, calls, v), v);
      undone := l[..k] + more;
      WrittenTwice(hw, l[..k], more, was);
      if k < |l| {
        lost := Some(l[k]);
        assert l[k] !in l[..k];
      } else {
        lost := lostLater;
        assert l[..k] == l;
      }
    }
  }

  /** The NPU holds the profile's current value of the attribute for every object it will be pushed to. */
  ghost predicate HwHolds(hw: map<ObjId, HwSetting>, objs: seq<ObjId>, was: ProfileAttr) {
    forall o :: o in objs ==> o in hw && WriteHw(hw[o], was) == hw[o]
  }

  lemma WriteBack(h: HwSetting, a: ProfileAttr, p: Profile)
    requires WriteHw(h, OldAttr(p, a)) == h
    ensures WriteHw(WriteHw(h, a), OldAttr(p, a)) == h
    ensures !a.ModeAttr? && a != OldAttr(p, a) ==> WriteHw(h, a) != h
  {
  }

  lemma UndoRestores(p: Profile, hw: map<ObjId, HwSetting>, done: seq<ObjId>, undone: seq<ObjId>, a: ProfileAttr)
    requires HwHolds(hw, done, OldAttr(p, a))
    requires forall o :: o in undone ==> o in done
    requires a == OldAttr(p, a) || undone == done
    ensures Written(Written(hw, done, a), undone, OldAttr(p, a)) == hw
  {
    var after := Written(Written(hw, done, a), undone, OldAttr(p, a));
    forall o | o in hw
      ensures after[o] == hw[o]
    {
      if o in done {
        WriteBack(hw[o], a, p);
      }
    }
    assert after.Keys == hw.Keys;
  }

  lemma UndoMisses(p: Profile, hw: map<ObjId, HwSetting>, done: seq<ObjId>, undone: seq<ObjId>, a: ProfileAttr,
                   lost: ObjId)
    requires HwHolds(hw, done, OldAttr(p, a))
    requires !a.ModeAttr? && a != OldAttr(p, a)
    requires lost in done && lost !in undone
    ensures Written(Written(hw, done, a), undone, OldAttr(p, a))[lost] != hw[lost]
  {
    WriteBack(hw[lost], a, p);
  }

  lemma {:induction false} AcceptedFirst(n: nat, calls: nat, v: nat -> bool)
    ensures Accepted(n, calls, v) < n ==> RefusedAfter(Accepted(n, calls, v), calls, v)
    ensures Accepted(n, calls, v) == n ==> !RefusedAmong(n, calls, v)
  {
    hide RefusedAfter, RefusedAmong;
    RefusalStep(0, calls, v);
    if n > 0 {
      RefusalStep(n - 1, calls, v);
      if v(calls) {
        AcceptedFirst(n - 1, calls + 1, v);
        RefusalStep(Accepted(n - 1, calls + 1, v), calls, v);
      }
    }
  }

  /** The undo of a push fails exactly when one of its calls is refused, counted from the first refusal. */
  lemma UndoRefusedExact(total: nat, calls: nat, v: nat -> bool)
    ensures UndoRefused(total, calls, v)
       <==> Accepted(total, calls, v) < total
            && RefusedAmong(Accepted(total, calls, v), calls + Accepted(total, calls, v) + 1, v)
  {
    AcceptedFirst(total, calls, v);
    if Accepted(total, calls, v) < total {
      UndoRefusedAt(total, Accepted(total, calls, v), calls, v);
    }
  }

  lemma {:induction false} AcceptedSplit(m: nat, n: nat, calls: nat, v: nat -> bool)
    ensures Accepted(m + n, calls, v)
         == if Accepted(m, calls, v) < m then Accepted(m, calls, v) else m + Accepted(n, calls + m, v)
  {
    if m > 0 && v(calls) {
      AcceptedSplit(m - 1, n, calls + 1, v);
    }
  }

  lemma PrefixDistinct(l: seq<ObjId>, n: nat)
    requires n <= |l| && Distinct(l)
    ensures Distinct(l[..n])
  {
  }


  lemma PushListsAccepted(lists: Lists, a: ProfileAttr, was: ProfileAttr,
                          hw: map<ObjId, HwSetting>, calls: nat, v: nat -> bool)
    requires Distinct(Concat(lists))
    ensures PushLists(lists, a, was, hw, calls, v).ok <==> Accepted(|Concat(lists)|, calls, v) == |Concat(lists)|
    ensures PushLists(lists, a, was, hw, calls, v).ok ==>
      PushLists(lists, a, was, hw, calls, v) == PushResult(true, Written(hw, Concat(lists), a), calls + |Concat(lists)|)
  {
    var t := Concat(lists);
    var n := Accepted(|t|, calls, v);
    if n < |t| {
      PrefixDistinct(t, n);
      FirstListsConcat(lists, n);
      var undone, lost := UndoEffect(FirstLists(lists, n), was, Written(hw, t[..n], a), calls + n + 1, v);
    } else {
      assert t[..n] == t;
    }
  }

  /**
   The push succeeds exactly when the NPU accepts it for every target, and then exactly the targets have the
   new value.
   */
  lemma PushAccepted(p: Profile, a: ProfileAttr, was: ProfileAttr, hw: map<ObjId, HwSetting>, calls: nat,
                     v: nat -> bool)
    requires ProfileCounts(p)
    ensures Push(p, a, was, hw, calls, v).ok <==> forall i :: calls <= i < calls + |Targets(p, a)| ==> v(i)
    ensures Push(p, a, was, hw, calls, v).ok ==>
      Push(p, a, was, hw, calls, v) == PushResult(true, Written(hw, Targets(p, a), a), calls + |Targets(p, a)|)
  {
    TargetsDistinct(p, a);
    PushListsAccepted(TargetLists(p, a), a, was, hw, calls, v);
    AcceptedAll(|Targets(p, a)|, calls, v);
  }

  lemma PushListsRejected(lists: Lists, p: Profile, a: ProfileAttr,
                          hw: map<ObjId, HwSetting>, calls: nat, v: nat -> bool)
    requires Distinct(Concat(lists)) && !a.ModeAttr?
    requires HwHolds(hw, Concat(lists), OldAttr(p, a))
    requires Accepted(|Concat(lists)|, calls, v) < |Concat(lists)|
    ensures PushLists(lists, a, OldAttr(p, a), hw, calls, v).hw == hw
       <==> a == OldAttr(p, a) || !UndoRefused(|Concat(lists)|, calls, v)
  {
    hide Undo, Written, HwHolds, UndoRefused, RefusedAmong, FirstLists, OldAttr;
    var t, was := Concat(lists), OldAttr(p, a);
    var n := Accepted(|t|, calls, v);
    UndoRefusedExact(|t|, calls, v);
    HoldsPrefix(hw, t, n, was);
    PrefixDistinct(t, n);
    FirstListsConcat(lists, n);
    UndoneExactly(FirstLists(lists, n), t[..n], p, a, hw, calls + n + 1, v);
  }

  lemma HoldsPrefix(hw: map<ObjId, HwSetting>, l: seq<ObjId>, n: nat, was: ProfileAttr)
    requires HwHolds(hw, l, was) && n <= |l|
    ensures HwHolds(hw, l[..n], was)
  {
    assert forall o :: o in l[..n] ==> o in l;
  }

  /** Undoing what was written to the objects `done` restores the NPU exactly when no call is refused. */
  lemma UndoneExactly(lists: Lists, done: seq<ObjId>, p: Profile, a: ProfileAttr,
                      hw: map<ObjId, HwSetting>, calls: nat, v: nat -> bool)
    requires done == Concat(lists) && Distinct(done) && !a.ModeAttr? && HwHolds(hw, done, OldAttr(p, a))
    ensures Undo(lists, OldAttr(p, a), Written(hw, done, a), calls, v).hw == hw
       <==> a == OldAttr(p, a) || !RefusedAmong(|done|, calls, v)
  {
    hide Undo, Written, HwHolds;
    var was := OldAttr(p, a);
    var undone, lost := UndoEffect(lists, was, Written(hw, done, a), calls, v);
    if a == was || lost == None {
      UndoRestores(p, hw, done, undone, a);
    } else {
      HoldsIn(hw, done, was, lost.value);
      UndoMisses(p, hw, done, undone, a, lost.value);
    }
  }

  lemma HoldsIn(hw: map<ObjId, HwSetting>, l: seq<ObjId>, was: ProfileAttr, o: ObjId)
    requires HwHolds(hw, l, was) && o in l
    ensures o in hw
  {
  }

  /** When the undo of a rejected push is itself rejected, some target keeps the new value. */
  lemma PushLoses(p: Profile, a: ProfileAttr, hw: map<ObjId, HwSetting>, calls: nat, v: nat -> bool)
    returns (lost: ObjId)
    requires ProfileCounts(p)
    requires forall o :: o in Targets(p, a) ==> o in hw
    requires UndoRefused(|Targets(p, a)|, calls, v)
    ensures lost in Targets(p, a)
    ensures lost in Push(p, a, OldAttr(p, a), hw, calls, v).hw
    ensures Push(p, a, OldAttr(p, a), hw, calls, v).hw[lost] == WriteHw(hw[lost], a)
  {
    var lists, t, was := TargetLists(p, a), Targets(p, a), OldAttr(p, a);
    var n := Accepted(|t|, calls, v);
    UndoRefusedExact(|t|, calls, v);
    TargetsDistinct(p, a);
    PrefixDistinct(t, n);
    FirstListsConcat(lists, n);
    var undone, missed := UndoEffect(FirstLists(lists, n), was, Written(hw, t[..n], a), calls + n + 1, v);
    lost := missed.value;
    assert lost in t[..n];
  }

  /**
   A rejected push leaves the NPU as it was exactly when the undo calls are accepted, or there was nothing to
   change.
   */
  lemma PushRejected(p: Profile, a: ProfileAttr, hw: map<ObjId, HwSetting>, calls: nat, v: nat -> bool)
    requires ProfileCounts(p) && !a.ModeAttr?
    requires HwHolds(hw, Targets(p, a), OldAttr(p, a))
    requires !Push(p, a, OldAttr(p, a), hw, calls, v).ok
    ensures Push(p, a, OldAttr(p, a), hw, calls, v).hw == hw
       <==> a == OldAttr(p, a) || !UndoRefused(|Targets(p, a)|, calls, v)
  {
    hide UndoRefused;
    TargetsDistinct(p, a);
    PushListsAccepted(TargetLists(p, a), a, OldAttr(p, a), hw, calls, v);
    PushListsRejected(TargetLists(p, a), p, a, hw, calls, v);
  }

  // ---------------------------------------------------------------------------------------------
  // The walks over ports, queues and priority groups, one after the other
  // ---------------------------------------------------------------------------------------------

  lemma AcceptedThree(l: nat, m: nat, n: nat, calls: nat, v: nat -> bool)
    ensures Accepted(l + m + n, calls, v)
         == if Accepted(l, calls, v) < l then Accepted(l, calls, v)
            else if Accepted(m, calls + l, v) < m then l + Accepted(m, calls + l, v)
            else l + m + Accepted(n, calls + l + m, v)
  {
    AcceptedSplit(l + m, n, calls, v);
    AcceptedSplit(l, m, calls, v);
  }

  lemma UndoLast(l: seq<ObjId>, was: ProfileAttr, hw: map<ObjId, HwSetting>, calls: nat, v: nat -> bool)
    ensures Undo(Then(l, End), was, hw, calls, v)
         == PushResult(false, WalkHw(l, was, hw, calls, v), CallsAfter(|l|, calls, v))
  {
  }

  /** A push rejected at its call number `n`, when `d` are the objects written before. */
  lemma PushUndoes(lists: Lists, t: seq<ObjId>, n: nat, d: seq<ObjId>, a: ProfileAttr, was: ProfileAttr,
                   hw: map<ObjId, HwSetting>, calls: nat, v: nat -> bool)
    requires t == Concat(lists) && n == Accepted(|t|, calls, v) < |t| && d == t[..n]
    ensures PushLists(lists, a, was, hw, calls, v) == Undo(FirstLists(lists, n), was, Written(hw, d, a), calls + n + 1,
                                                           v)
  {
  }

  lemma RejectedInFirst(l: seq<ObjId>, m: seq<ObjId>, g: seq<ObjId>, a: ProfileAttr, was: ProfileAttr,
                        hw: map<ObjId, HwSetting>, calls: nat, v: nat -> bool, k: nat)
    requires k == Accepted(|l|, calls, v) < |l|
    ensures PushLists(ThreeLists(l, m, g), a, was, hw, calls, v)
         == Undo(Then(l[..k], End), was, WalkHw(l, a, hw, calls, v), calls + k + 1, v)
  {
    ConcatThree(l, m, g);
    AcceptedThree(|l|, |m|, |g|, calls, v);
    assert (l + m + g)[..k] == l[..k];
    PushUndoes(ThreeLists(l, m, g), l + m + g, k, l[..k], a, was, hw, calls, v);
  }

  lemma RejectedInSecond(l: seq<ObjId>, m: seq<ObjId>, g: seq<ObjId>, a: ProfileAttr, was: ProfileAttr,
                         hw: map<ObjId, HwSetting>, calls: nat, v: nat -> bool, c: nat, k: nat)
    requires Unrejected(l, calls, v) && c == calls + |l| && k == Accepted(|m|, c, v) < |m|
    ensures PushLists(ThreeLists(l, m, g), a, was, hw, calls, v)
         == Undo(Then(l, Then(m[..k], End)), was, WalkHw(m, a, WalkHw(l, a, hw, calls, v), c, v), c + k + 1, v)
  {
    ConcatThree(l, m, g);
    AcceptedThree(|l|, |m|, |g|, calls, v);
    assert (l + m + g)[..|l| + k] == l + m[..k];
    assert l[..|l|] == l;
    WrittenTwice(hw, l, m[..k], a);
    PushUndoes(ThreeLists(l, m, g), l + m + g, |l| + k, l + m[..k], a, was, hw, calls, v);
  }

  lemma WalkedThrough(l: seq<ObjId>, m: seq<ObjId>, a: ProfileAttr, hw: map<ObjId, HwSetting>, calls: nat,
                      v: nat -> bool)
    requires Unrejected(l, calls, v) && Unrejected(m, calls + |l|, v)
    ensures WalkHw(m, a, WalkHw(l, a, hw, calls, v), calls + |l|, v) == Written(hw, l + m, a)
  {
    assert l[..|l|] == l && m[..|m|] == m;
    WrittenTwice(hw, l, m, a);
  }

  lemma FirstListsThird(l: seq<ObjId>, m: seq<ObjId>, g: seq<ObjId>, k: nat)
    requires k < |g|
    ensures FirstLists(ThreeLists(l, m, g), |l| + |m| + k) == Then(l, Then(m, Then(g[..k], End)))
  {
    assert FirstLists(Then(g, End), k) == Then(g[..k], End);
    assert FirstLists(Then(m, Then(g, End)), |m| + k) == Then(m, Then(g[..k], End));
  }

  lemma RejectedInThird(l: seq<ObjId>, m: seq<ObjId>, g: seq<ObjId>, a: ProfileAttr, was: ProfileAttr,
                        hw: map<ObjId, HwSetting>, calls: nat, v: nat -> bool, c: nat, k: nat)
    requires Unrejected(l, calls, v) && Unrejected(m, calls + |l|, v)
    requires c == calls + |l| + |m| && k == Accepted(|g|, c, v) < |g|
    ensures PushLists(ThreeLists(l, m, g), a, was, hw, calls, v)
         == Undo(Then(l, Then(m, Then(g[..k], End))), was,
                 WalkHw(g, a, WalkHw(m, a, WalkHw(l, a, hw, calls, v), calls + |l|, v), c, v), c + k + 1, v)
  {
    ConcatThree(l, m, g);
    AcceptedThree(|l|, |m|, |g|, calls, v);
    assert (l + m + g)[..|l| + |m| + k] == l + m + g[..k];
    WalkedThrough(l, m, a, hw, calls, v);
    WrittenTwice(hw, l + m, g[..k], a);
    FirstListsThird(l, m, g, k);
    PushUndoes(ThreeLists(l, m, g), l + m + g, |l| + |m| + k, l + m + g[..k], a, was, hw, calls, v);
  }

  lemma RejectedInOnly(g: seq<ObjId>, a: ProfileAttr, was: ProfileAttr,
                       hw: map<ObjId, HwSetting>, calls: nat, v: nat -> bool, k: nat)
    requires k == Accepted(|g|, calls, v) < |g|
    ensures PushLists(Then(g, End), a, was, hw, calls, v)
         == Undo(Then(g[..k], End), was, WalkHw(g, a, hw, calls, v), calls + k + 1, v)
  {
    ConcatThree(g, g, g);
    PushUndoes(Then(g, End), g, k, g[..k], a, was, hw, calls, v);
  }

  lemma NoneRejected(l: seq<ObjId>, m: seq<ObjId>, g: seq<ObjId>, a: ProfileAttr, was: ProfileAttr,
                     hw: map<ObjId, HwSetting>, calls: nat, v: nat -> bool)
    requires Unrejected(l, calls, v) && Unrejected(m, calls + |l|, v) && Unrejected(g, calls + |l| + |m|, v)
    ensures var hw2 := WalkHw(m, a, WalkHw(l, a, hw, calls, v), calls + |l|, v);
            var c := calls + |l| + |m|;
            PushLists(ThreeLists(l, m, g), a, was, hw, calls, v) == PushResult(true, WalkHw(g, a, hw2, c, v), c + |g|)
  {
    var t := l + m + g;
    ConcatThree(l, m, g);
    AcceptedThree(|l|, |m|, |g|, calls, v);
    assert g[..|g|] == g && t[..|t|] == t;
    WalkedThrough(l, m, a, hw, calls, v);
    WrittenTwice(hw, l + m, g, a);
  }

  lemma OnlyUnrejected(g: seq<ObjId>, a: ProfileAttr, was: ProfileAttr,
                       hw: map<ObjId, HwSetting>, calls: nat, v: nat -> bool)
    requires Unrejected(g, calls, v)
    ensures PushLists(Then(g, End), a, was, hw, calls, v) == PushResult(true, WalkHw(g, a, hw, calls, v), calls + |g|)
  {
    ConcatThree(g, g, g);
  }

  const TWO_PORTS := Profile(1, 10, false, StaticTh, 0, 0, 0, 0, 2, [Port(1), Port(2)], [], [])
  const TWO_PORTS_HW := map[Port(1) := HwOf(TWO_PORTS), Port(2) := HwOf(TWO_PORTS)]

  /**
   A rejected undo call does leave the NPU changed: of two ports, the second rejects the new size and the
   first then rejects the old one.
   */
  lemma RejectedUndoLeavesNewValue(v: nat -> bool)
    requires v(0) && !v(1) && !v(2)
    ensures var r := Push(TWO_PORTS, SizeAttr(20), SizeAttr(10), TWO_PORTS_HW, 0, v);
            !r.ok && r.hw != TWO_PORTS_HW
  {
    var a := SizeAttr(20);
    TargetsDistinct(TWO_PORTS, a);
    assert Targets(TWO_PORTS, a) == [Port(1), Port(2)] + [] + [];
    assert OldAttr(TWO_PORTS, a) == SizeAttr(10);
    PushAccepted(TWO_PORTS, a, SizeAttr(10), TWO_PORTS_HW, 0, v);
    assert RefusedAfter(1, 0, v) && RefusedAmong(1, 2, v);
    PushRejected(TWO_PORTS, a, TWO_PORTS_HW, 0, v);
  }
}
