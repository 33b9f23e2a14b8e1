/** Vocabulary shared by every model: object ids, status codes, 32-bit arithmetic and linked lists as sequences. */
module Common {

  /** A SAI object id. Zero is the null object id. */
  type Oid = nat

  const NULL_ID: Oid := 0

  datatype Option<+T> = None | Some(value: T)

  /** The status codes the modelled calls can return. */
  datatype Status =
    | Success
    | Failure
    | NpuError
    | ItemNotFound
    | ItemAlreadyExists
    | InvalidParameter
    | InvalidObjectId
    | InvalidObjectType
    | InvalidAttribute
    | InvalidAttrValue
    | UnknownAttribute
    | AttrNotSupported
    | MandatoryAttributeMissing
    | InsufficientResources
    | ObjectInUse
    | TableFull

  const TWO31: int := 0x8000_0000
  const TWO32: int := 0x1_0000_0000

  type u32 = x: int | 0 <= x < 0x1_0000_0000

  /** The value an unsigned 32-bit computation keeps of an exact integer. */
  function Wrap(x: int): u32 {
    x % TWO32
  }

  /** The value of a 32-bit pattern read as a signed integer. */
  function AsInt32(x: u32): int {
    if x < TWO31 then x else x - TWO32
  }

  lemma WrapSmall(x: int)
    ensures Wrap(x) == x <==> 0 <= x < TWO32
  {
  }

  lemma WrapQuotient(x: int) returns (k: int)
    ensures x == Wrap(x) + k * TWO32
  {
    k := x / TWO32;
  }

  // ---------------------------------------------------------------------------------------------
  // The answers of the NPU
  // ---------------------------------------------------------------------------------------------

  /** The NPU accepts the `n` calls from call `calls` on, and refuses the next one. */
  ghost predicate RefusedAfter(n: nat, calls: nat, v: nat -> bool) {
    (forall k :: calls <= k < calls + n ==> v(k)) && !v(calls + n)
  }

  /** The NPU refuses one of the `n` calls from call `calls` on. */
  ghost predicate RefusedAmong(n: nat, calls: nat, v: nat -> bool) {
    exists k :: calls <= k < calls + n && !v(k)
  }

  /** Of `total` calls one is refused, and then one of the calls that undo those before it is refused too. */
  ghost predicate UndoRefused(total: nat, calls: nat, v: nat -> bool) {
    exists n: nat :: n < total && RefusedAfter(n, calls, v) && RefusedAmong(n, calls + n + 1, v)
  }

  /** The first refusal decides. */
  lemma UndoRefusedAt(total: nat, n: nat, calls: nat, v: nat -> bool)
    requires n < total && RefusedAfter(n, calls, v)
    ensures UndoRefused(total, calls, v) <==> RefusedAmong(n, calls + n + 1, v)
  {
    forall m: nat | RefusedAfter(m, calls, v)
      ensures m == n
    {
    }
  }

  lemma NothingRefused(total: nat, calls: nat, v: nat -> bool)
    requires forall k :: calls <= k < calls + total ==> v(k)
    ensures !UndoRefused(total, calls, v)
  {
  }

  lemma RefusalStep(n: nat, calls: nat, v: nat -> bool)
    ensures !RefusedAmong(0, calls, v)
    ensures RefusedAmong(n + 1, calls, v) <==> !v(calls) || RefusedAmong(n, calls + 1, v)
    ensures RefusedAfter(0, calls, v) <==> !v(calls)
    ensures RefusedAfter(n + 1, calls, v) <==> v(calls) && RefusedAfter(n, calls + 1, v)
  {
    if RefusedAmong(n + 1, calls, v) && v(calls) {
      var k :| calls <= k < calls + n + 1 && !v(k);
      assert calls + 1 <= k;
    }
    if RefusedAfter(n, calls + 1, v) && v(calls) {
      assert !v(calls + (n + 1));
    }
    if RefusedAfter(n + 1, calls, v) {
      assert !v(calls + (n + 1));
    }
  }

  predicate Distinct<T(==)>(s: seq<T>) {
    forall i, j :: 0 <= i < j < |s| ==> s[i] != s[j]
  }

  /** The list after its first node equal to `x` has been unlinked. */
  function Without<T(==)>(s: seq<T>, x: T): (r: seq<T>)
    ensures x !in s ==> r == s
    ensures x in s ==> |r| == |s| - 1
    ensures forall y :: y in r ==> y in s
    ensures forall y :: y in s && y != x ==> y in r
    ensures Distinct(s) ==> Distinct(r) && x !in r
  {
    if s == [] then []
    else if s[0] == x then s[1..]
    else
      var rest := Without(s[1..], x);
      assert Distinct(s) ==> Distinct(s[1..]) && s[0] !in s[1..];
      [s[0]] + rest
  }

  ghost function ToSet<T>(s: seq<T>): set<T> {
    set x | x in s
  }

  lemma {:induction false} DistinctCardinality<T>(s: seq<T>)
    requires Distinct(s)
    ensures |ToSet(s)| == |s|
  {
    if s == [] {
    } else {
      DistinctCardinality(s[1..]);
      assert s == [s[0]] + s[1..];
      assert ToSet(s) == {s[0]} + ToSet(s[1..]);
      assert s[0] !in s[1..];
    }
  }
}
