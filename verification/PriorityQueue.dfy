/** The bounded priority queue of retry operations: sorted by priority, then age, with
    eviction by a strictly higher priority and expiry at dequeue. */
module PriorityQueue {
  import opened Wrappers

  datatype Priority = Low | Normal | High | Critical {
    function Rank(): nat {
      match this
      case Low => 0
      case Normal => 1
      case High => 2
      case Critical => 3
    }
  }

  /** The identifier stands for the pointer; closure, context and metadata do not
      influence the queue. */
  datatype Operation = Operation(id: nat, priority: Priority, createdAt: real, deadline: real)

  type Queue = seq<Operation>

  // ---------------------------------------------------------------- specification

  /** `a` may stand before `b`: higher priority, or equal priority and not younger. */
  predicate Precedes(a: Operation, b: Operation) {
    a.priority.Rank() > b.priority.Rank() || (a.priority.Rank() == b.priority.Rank() && a.createdAt <= b.createdAt)
  }

  ghost predicate Sorted(q: Queue) {
    forall i, j :: 0 <= i < j < |q| ==> Precedes(q[i], q[j])
  }

  predicate Lower(a: Operation, b: Operation) {
    a.priority.Rank() < b.priority.Rank()
  }

  predicate Alive(op: Operation, now: real) {
    op.deadline > now
  }

  function Unexpired(q: Queue, now: real): Queue {
    if q == [] then []
    else Unexpired(q[..|q| - 1], now) + if Alive(q[|q| - 1], now) then [q[|q| - 1]] else []
  }

  ghost predicate Inv(q: Queue, maxSize: int) {
    Sorted(q) && (|q| <= maxSize || q == [])
  }

  datatype Enqueued = Rejected | Accepted(evicted: Option<Operation>)

  /** When the code refuses: full, and too low a priority to evict or nothing lower. */
  ghost predicate Refuses(q: Queue, maxSize: int, op: Operation) {
    |q| >= maxSize && (op.priority.Rank() <= Normal.Rank() || forall x :: x in q ==> !Lower(x, op))
  }

  /** A full queue gives up the first operation of lower priority than the arrival,
      which is the best of the lower ones, not the worst. */
  ghost predicate Evicts(q: Queue, maxSize: int, op: Operation, victim: Operation) {
    |q| >= maxSize && victim in q && Lower(victim, op) && forall x :: x in q && Lower(x, op) ==> Precedes(victim, x)
  }

  /** Every result the code can produce; among equals the unstable sort may order
      either way. */
  ghost predicate EnqueueResult(q: Queue, maxSize: int, op: Operation, r: Queue, out: Enqueued) {
    match out
    case Rejected => Refuses(q, maxSize, op) && r == q
    case Accepted(None) =>
      |q| < maxSize && Sorted(r) && multiset(r) == multiset(q) + multiset{op}
    case Accepted(Some(victim)) =>
      && !Refuses(q, maxSize, op) && Evicts(q, maxSize, op, victim)
      && Sorted(r) && multiset(r) + multiset{victim} == multiset(q) + multiset{op}
  }

  // --------------------------------------------------------------- implementation

  /** Stands in for `sort.Slice`: callers learn only what any sort would give them. */
  method Sort(q: Queue) returns (r: Queue)
    ensures Sorted(r) && multiset(r) == multiset(q)
  {
    r := [];
    for i := 0 to |q|
      invariant Sorted(r) && multiset(r) == multiset(q[..i])
    {
      var k := |r|;
      while k > 0 && !Precedes(r[k - 1], q[i])
        invariant 0 <= k <= |r|
        invariant forall j :: k <= j < |r| ==> Precedes(q[i], r[j])
      {
        k := k - 1;
      }
      InsertKeepsSorted(r, k, q[i]);
      r := r[..k] + [q[i]] + r[k..];
      assert q[..i + 1] == q[..i] + [q[i]];
    }
    assert q[..|q|] == q;
  }

  lemma InsertKeepsSorted(r: Queue, k: nat, op: Operation)
    requires Sorted(r) && k <= |r|
    requires k > 0 ==> Precedes(r[k - 1], op)
    requires forall j :: k <= j < |r| ==> Precedes(op, r[j])
    ensures Sorted(r[..k] + [op] + r[k..])
    ensures multiset(r[..k] + [op] + r[k..]) == multiset(r) + multiset{op}
  {
    assert r == r[..k] + r[k..];
    BeforeInsertion(r, k, op);
    var s := r[..k] + [op] + r[k..];
    forall i, j | 0 <= i < j < |s| ensures Precedes(s[i], s[j]) {
      InsertedPair(r, k, op, s, i, j);
    }
  }

  lemma InsertedPair(r: Queue, k: nat, op: Operation, s: Queue, i: nat, j: nat)
    requires Sorted(r) && k <= |r| && |s| == |r| + 1 && i < j < |s|
    requires s[..k] == r[..k] && s[k] == op && s[k + 1..] == r[k..]
    requires forall x :: 0 <= x < k ==> Precedes(r[x], op)
    requires forall x :: k <= x < |r| ==> Precedes(op, r[x])
    ensures Precedes(s[i], s[j])
  {
    if i < k { assert s[i] == s[..k][i] == r[i]; }
    if j < k { assert s[j] == s[..k][j] == r[j]; }
    if i > k { assert s[i] == s[k + 1..][i - k - 1] == r[i - 1]; }
    if j > k { assert s[j] == s[k + 1..][j - k - 1] == r[j - 1]; }
  }

  lemma BeforeInsertion(r: Queue, k: nat, op: Operation)
    requires Sorted(r) && k <= |r| && (k > 0 ==> Precedes(r[k - 1], op))
    ensures forall i :: 0 <= i < k ==> Precedes(r[i], op)
  {
    forall i | 0 <= i < k ensures Precedes(r[i], op) {
      assert i < k - 1 ==> Precedes(r[i], r[k - 1]);
    }
  }

  class BoundedQueue {
    var operations: Queue
    const maxSize: int

    ghost predicate Valid()
      reads this
    {
      Inv(operations, maxSize)
    }

    constructor (maxSize: int)
      ensures Valid() && operations == [] && this.maxSize == maxSize
    {
      this.maxSize := maxSize;
      operations := [];
    }

    method Enqueue(operation: Operation) returns (out: Enqueued)
      requires Valid()
      modifies this
      ensures Valid()
      ensures EnqueueResult(old(operations), maxSize, operation, operations, out)
    {
      out := Accepted(None);
      if |operations| >= maxSize {
        if operation.priority.Rank() <= Normal.Rank() {
          return Rejected;
        }
        var i := 0;
        while i < |operations| && !Lower(operations[i], operation)
          invariant 0 <= i <= |operations|
          invariant forall j :: 0 <= j < i ==> !Lower(operations[j], operation)
        {
          i := i + 1;
        }
        if i < |operations| {
          out := Accepted(Some(operations[i]));
          FirstLowerEvicts(operations, maxSize, operation, i);
          operations := operations[..i] + operations[i + 1..];
        }
        if |operations| >= maxSize {
          return Rejected;
        }
      }
      operations := operations + [operation];
      operations := Sort(operations);
      assert |operations| == |multiset(operations)|;
    }

    method RemoveExpired(now: real)
      modifies this
      ensures operations == Unexpired(old(operations), now)
    {
      var validOps := [];
      for i := 0 to |operations|
        invariant operations == old(operations)
        invariant validOps == Unexpired(operations[..i], now)
      {
        assert operations[..i + 1][..i] == operations[..i];
        if Alive(operations[i], now) {
          validOps := validOps + [operations[i]];
        }
      }
      assert operations[..|operations|] == operations;
      operations := validOps;
    }

    method Dequeue(now: real) returns (operation: Option<Operation>)
      requires Valid()
      modifies this
      ensures Valid()
      ensures operation.None? <==> Unexpired(old(operations), now) == []
      ensures operation.None? ==> operations == []
      ensures operation.Some? ==> [operation.value] + operations == Unexpired(old(operations), now)
      ensures operation.Some? ==> operation.value in old(operations) && Alive(operation.value, now)
      ensures operation.Some? ==> forall x :: x in old(operations) && Alive(x, now) ==> Precedes(operation.value, x)
    {
      if |operations| == 0 {
        return None;
      }
      UnexpiredFacts(operations, now);
      RemoveExpired(now);
      if |operations| == 0 {
        return None;
      }
      operation := Some(operations[0]);
      assert operations[0] in operations;
      operations := operations[1..];
    }
  }

  lemma FirstLowerEvicts(q: Queue, maxSize: int, op: Operation, i: nat)
    requires Inv(q, maxSize) && |q| >= maxSize && i < |q| && Lower(q[i], op)
    requires op.priority.Rank() > Normal.Rank()
    requires forall j :: 0 <= j < i ==> !Lower(q[j], op)
    ensures Evicts(q, maxSize, op, q[i]) && !Refuses(q, maxSize, op)
    ensures multiset(q[..i] + q[i + 1..]) + multiset{q[i]} == multiset(q)
  {
    assert q == q[..i] + [q[i]] + q[i + 1..];
  }

  lemma {:induction false} UnexpiredFacts(q: Queue, now: real)
    ensures forall x :: x in Unexpired(q, now) <==> x in q && Alive(x, now)
    ensures |Unexpired(q, now)| <= |q|
    ensures Sorted(q) ==> Sorted(Unexpired(q, now))
    ensures multiset(Unexpired(q, now)) <= multiset(q)
  {
    if q != [] {
      var init, last := q[..|q| - 1], q[|q| - 1];
      assert q == init + [last];
      UnexpiredFacts(init, now);
      if Sorted(q) {
        forall x | x in Unexpired(init, now) ensures Precedes(x, last) {
          var i :| 0 <= i < |init| && init[i] == x;
          assert Precedes(q[i], q[|init|]);
        }
      }
    }
  }

  // ------------------------------------------------------------------- main results

  /** What one call removes: enqueueing only a strictly lower priority, so never a
      critical operation, and dequeueing only the returned one and the expired. */
  lemma LeavesOnly(q: Queue, maxSize: int, r: Queue, op: Operation, out: Enqueued, now: real, x: Operation)
    requires Inv(q, maxSize) && x in q
    ensures EnqueueResult(q, maxSize, op, r, out) && x !in r ==>
      out == Accepted(Some(x)) && Lower(x, op) && x.priority != Critical
    ensures Unexpired(q, now) != [] && x !in Unexpired(q, now)[1..] ==>
      x == Unexpired(q, now)[0] || !Alive(x, now)
  {
    UnexpiredFacts(q, now);
    if EnqueueResult(q, maxSize, op, r, out) && x !in r {
      assert multiset(r)[x] == 0 && multiset(q)[x] > 0;
      if out.Accepted? && out.evicted.Some? {
        assert (multiset(r) + multiset{out.evicted.value})[x] == (multiset(q) + multiset{op})[x];
      }
    }
  }

  /** A queue within its bound stays so, and only a full one ever gives anything up. */
  lemma EnqueueKeepsInv(q: Queue, maxSize: int, op: Operation, r: Queue, out: Enqueued)
    requires Inv(q, maxSize) && EnqueueResult(q, maxSize, op, r, out)
    ensures Inv(r, maxSize)
    ensures out.Accepted? ==> op in r
    ensures out.Accepted? && out.evicted.Some? ==> |r| == |q| == maxSize
  {
    assert |r| == |multiset(r)| && |q| == |multiset(q)|;
    if out.Accepted? {
      if out.evicted.Some? {
        var victim := out.evicted.value;
        assert |multiset(r) + multiset{victim}| == |multiset(q) + multiset{op}|;
        assert (multiset(r) + multiset{victim})[op] == (multiset(q) + multiset{op})[op];
      }
      assert op in multiset(r);
    }
  }

  // ---------------------------------------------------------------- order and existence

  lemma {:induction false} InsertionExists(q: Queue, op: Operation) returns (r: Queue)
    requires Sorted(q)
    ensures Sorted(r) && multiset(r) == multiset(q) + multiset{op}
  {
    var k := PlaceFor(q, op);
    InsertKeepsSorted(q, k, op);
    r := q[..k] + [op] + q[k..];
  }

  lemma {:induction false} PlaceFor(q: Queue, op: Operation) returns (k: nat)
    requires Sorted(q)
    ensures k <= |q| && (k > 0 ==> Precedes(q[k - 1], op)) && forall j :: k <= j < |q| ==> Precedes(op, q[j])
    decreases |q|
  {
    if q == [] || Precedes(q[|q| - 1], op) {
      k := |q|;
    } else {
      k := PlaceFor(q[..|q| - 1], op);
    }
  }

  lemma {:induction false} FirstLower(q: Queue, op: Operation) returns (i: nat)
    requires exists x :: x in q && Lower(x, op)
    ensures i < |q| && Lower(q[i], op) && forall j :: 0 <= j < i ==> !Lower(q[j], op)
    decreases |q|
  {
    if Lower(q[0], op) {
      i := 0;
    } else {
      var x :| x in q && Lower(x, op);
      assert x in q[1..];
      var j := FirstLower(q[1..], op);
      i := j + 1;
      assert forall m :: 0 < m < i ==> q[m] == q[1..][m - 1];
    }
  }

  /** Enqueueing always has a result. */
  lemma EnqueueExists(q: Queue, maxSize: int, op: Operation) returns (r: Queue, out: Enqueued)
    requires Inv(q, maxSize)
    ensures EnqueueResult(q, maxSize, op, r, out)
  {
    if |q| < maxSize {
      r := InsertionExists(q, op);
      out := Accepted(None);
    } else if Refuses(q, maxSize, op) {
      r, out := q, Rejected;
    } else {
      var i := FirstLower(q, op);
      FirstLowerEvicts(q, maxSize, op, i);
      var rest := q[..i] + q[i + 1..];
      RestIsSorted(q, i);
      r := InsertionExists(rest, op);
      out := Accepted(Some(q[i]));
    }
  }

  lemma RestIsSorted(q: Queue, i: nat)
    requires Sorted(q) && i < |q|
    ensures Sorted(q[..i] + q[i + 1..])
  {
    var rest := q[..i] + q[i + 1..];
    forall a, b | 0 <= a < b < |rest| ensures Precedes(rest[a], rest[b]) {
      assert rest[a] == q[if a < i then a else a + 1] && rest[b] == q[if b < i then b else b + 1];
    }
  }

  /** Which operation is dequeued: one that has not expired, such that no other that has not
      expired has a higher priority, or the same priority and an earlier creation. */
  lemma DequeuesBestAndOldest(q: Queue, maxSize: int, now: real, x: Operation)
    requires Inv(q, maxSize) && Unexpired(q, now) != []
    requires x in q && x.deadline > now
    ensures var first := Unexpired(q, now)[0];
      && first in q && first.deadline > now
      && first.priority.Rank() >= x.priority.Rank()
      && (first.priority == x.priority ==> first.createdAt <= x.createdAt)
  {
    UnexpiredFacts(q, now);
    var alive := Unexpired(q, now);
    assert alive[0] in alive && x in alive;
    var i :| 0 <= i < |alive| && alive[i] == x;
    assert i > 0 ==> Precedes(alive[0], alive[i]);
  }
}
