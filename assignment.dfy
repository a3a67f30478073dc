/** `calculateAssignments`: the range and round-robin strategies, and the
    dispatch on the strategy name, where any name other than `range`,
    `roundrobin` and `sticky` falls back to round-robin. Consumer counts are at
    least 1: the source's controls offer 1 to 4 consumers per group. */
module AssignmentEngine {
  import opened Loads
  import Sticky

  // ---------------------------------------------------------------------
  // Range

  /** The first partition of consumer c's block under the range strategy:
      the blocks of the consumers before it, laid end to end. */
  function RangeStart(P: nat, C: nat, c: nat): nat
    requires C >= 1
  {
    if c == 0 then 0 else RangeStart(P, C, c - 1) + FairShare(P, C, c - 1)
  }

  /** Block starts never decrease with the consumer index. */
  lemma {:induction false} RangeStartMonotone(P: nat, C: nat, c: nat, d: nat)
    requires C >= 1 && c <= d
    ensures RangeStart(P, C, c) <= RangeStart(P, C, d)
    decreases d - c
  {
    if c < d {
      RangeStartMonotone(P, C, c, d - 1);
    }
  }

  /** The block of consumer c starts at c * floor(P/C) + min(c, P mod C). */
  lemma {:induction false} RangeStartClosedForm(P: nat, C: nat, c: nat)
    requires C >= 1
    ensures RangeStart(P, C, c) == c * (P / C) + (if c < P % C then c else P % C)
  {
    if c > 0 {
      RangeStartClosedForm(P, C, c - 1);
      assert c * (P / C) == (c - 1) * (P / C) + P / C;
    }
  }

  /** The blocks of all C consumers cover exactly [0, P). */
  lemma RangeStartEnd(P: nat, C: nat)
    requires C >= 1
    ensures RangeStart(P, C, C) == P
  {
    RangeStartClosedForm(P, C, C);
    assert P == C * (P / C) + P % C;
  }

  /** A range assignment: complete, and every partition lies in its owner's block. */
  ghost predicate IsRange(a: Assignment, P: nat, C: nat)
    requires C >= 1
  {
    && Complete(a, P, C)
    && forall p :: p in a ==> RangeStart(P, C, a[p]) <= p < RangeStart(P, C, a[p] + 1)
  }

  /** The `range` case: consumer by consumer, hand out the next block of
      floor(P/C) partitions, one more for the first P mod C consumers. */
  method RangeAssign(P: nat, C: nat) returns (a: Assignment)
    requires C >= 1
    ensures IsRange(a, P, C)
  {
    var partitionsPerConsumer := P / C;
    var extraPartitions := P % C;
    a := map[];
    var partitionIndex := 0;
    var c := 0;
    while c < C
      invariant c <= C
      invariant partitionIndex == RangeStart(P, C, c)
      invariant forall p: nat :: p in a <==> p < partitionIndex
      invariant forall p :: p in a ==> a[p] < c && RangeStart(P, C, a[p]) <= p < RangeStart(P, C, a[p] + 1)
    {
      var partitionsForThisConsumer := partitionsPerConsumer + (if c < extraPartitions then 1 else 0);
      assert partitionsForThisConsumer == FairShare(P, C, c);
      a := AssignBlock(a, partitionIndex, partitionsForThisConsumer, c);
      partitionIndex := partitionIndex + partitionsForThisConsumer;
      c := c + 1;
    }
    RangeStartEnd(P, C);
  }

  /** The inner loop of the range case: the next count partitions from
      `from` on go to consumer c. */
  method AssignBlock(a: Assignment, from: nat, count: nat, c: nat) returns (b: Assignment)
    ensures forall p :: p in b <==> p in a || from <= p < from + count
    ensures forall p :: p in b ==> b[p] == if from <= p < from + count then c else a[p]
  {
    b := a;
    var i := 0;
    while i < count
      invariant i <= count
      invariant forall p :: p in b <==> p in a || from <= p < from + i
      invariant forall p :: p in b ==> b[p] == if from <= p < from + i then c else a[p]
    {
      b := b[from + i := c];
      i := i + 1;
    }
  }

  /** Under a range assignment owners never decrease with the partition
      index. */
  lemma RangeIsOrdered(a: Assignment, P: nat, C: nat)
    requires C >= 1 && IsRange(a, P, C)
    ensures forall p, q :: p in a && q in a && p <= q ==> a[p] <= a[q]
  {
    forall p, q | p in a && q in a && p <= q
      ensures a[p] <= a[q]
    {
      if a[p] > a[q] {
        RangeStartMonotone(P, C, a[q] + 1, a[p]);
      }
    }
  }

  /** Under a range assignment, partition q belongs to consumer c exactly
      when it lies in c's block. */
  lemma RangeBlock(a: Assignment, P: nat, C: nat, c: nat, q: nat)
    requires C >= 1 && IsRange(a, P, C) && q < P
    ensures (q in a && a[q] == c) <==> RangeStart(P, C, c) <= q < RangeStart(P, C, c + 1)
  {
    var d := a[q];
    if d < c {
      RangeStartMonotone(P, C, d + 1, c);
    } else if d > c {
      RangeStartMonotone(P, C, c + 1, d);
    }
  }

  /** Under a range assignment consumer c holds exactly its block:
      floor(P/C) partitions, one more when c < P mod C. */
  lemma RangeLoad(a: Assignment, P: nat, C: nat, c: nat)
    requires C >= 1 && IsRange(a, P, C) && c < C
    ensures Load(a, P, c) == FairShare(P, C, c)
  {
    var lo, hi := RangeStart(P, C, c), RangeStart(P, C, c + 1);
    forall q: nat | q < P
      ensures (q in a && a[q] == c) <==> lo <= q < hi
    {
      RangeBlock(a, P, C, c, q);
    }
    assert hi == lo + FairShare(P, C, c);
    RangeStartMonotone(P, C, c + 1, C);
    RangeStartEnd(P, C);
    assert lo <= hi <= P;
    LoadInterval(a, P, c, lo, hi);
    assert Load(a, P, c) == hi - lo;
  }

  /** Every consumer's load under a range assignment is its fair share. */
  lemma RangeIsBalanced(a: Assignment, P: nat, C: nat)
    requires C >= 1 && IsRange(a, P, C)
    ensures forall c: nat :: c < C ==> Load(a, P, c) == FairShare(P, C, c)
  {
    forall c: nat | c < C
      ensures Load(a, P, c) == FairShare(P, C, c)
    {
      RangeLoad(a, P, C, c);
    }
  }

  // ---------------------------------------------------------------------
  // Round-robin

  /** A round-robin assignment: partition p goes to consumer p mod C. */
  ghost predicate IsRoundRobin(a: Assignment, P: nat, C: nat)
    requires C >= 1
  {
    Complete(a, P, C) && forall p :: p in a ==> a[p] == p % C
  }

  /** The `roundrobin` case, and the fallback for any other strategy name. */
  method RoundRobinAssign(P: nat, C: nat) returns (a: Assignment)
    requires C >= 1
    ensures IsRoundRobin(a, P, C)
  {
    a := map[];
    var p := 0;
    while p < P
      invariant p <= P
      invariant forall q: nat :: q in a <==> q < p
      invariant forall q :: q in a ==> a[q] == q % C
    {
      a := a[p := p % C];
      p := p + 1;
    }
  }

  /** Euclidean division is unique. */
  lemma DivModUnique(n: nat, C: nat, q: nat, r: nat)
    requires C >= 1 && r < C && n == C * q + r
    ensures n / C == q && n % C == r
  {
    var q', r' := n / C, n % C;
    assert C * q' + r' == C * q + r;
    assert q' > q ==> C * q' >= C * (q + 1) == C * q + C;
    assert q' < q ==> C * q >= C * (q' + 1) == C * q' + C;
  }

  /** How n + 1 divides by C, in terms of how n does. */
  lemma DivModSucc(n: nat, C: nat)
    requires C >= 1
    ensures n % C + 1 < C ==> (n + 1) / C == n / C && (n + 1) % C == n % C + 1
    ensures n % C + 1 == C ==> (n + 1) / C == n / C + 1 && (n + 1) % C == 0
  {
    var q, r := n / C, n % C;
    assert n == C * q + r;
    if r + 1 < C {
      DivModUnique(n + 1, C, q, r + 1);
    } else {
      assert n + 1 == C * (q + 1) + 0;
      DivModUnique(n + 1, C, q + 1, 0);
    }
  }

  /** Round-robin gives every consumer the same number of partitions that
      range does: floor(n/C), one more for the first n mod C consumers. */
  lemma {:induction false} RoundRobinLoad(a: Assignment, n: nat, C: nat, c: nat)
    requires C >= 1 && c < C
    requires forall q: nat :: q < n ==> q in a && a[q] == q % C
    ensures Load(a, n, c) == FairShare(n, C, c)
  {
    if n > 0 {
      var m := n - 1;
      RoundRobinLoad(a, m, C, c);
      DivModSucc(m, C);
      var q, r := m / C, m % C;
      assert a[m] == r;
      if r + 1 < C {
        assert FairShare(n, C, c) == q + (if c < r + 1 then 1 else 0);
      } else {
        assert FairShare(n, C, c) == q + 1;
      }
    }
  }

  /** Round-robin is balanced: consumer c holds FairShare(P, C, c) partitions. */
  lemma RoundRobinIsBalanced(a: Assignment, P: nat, C: nat)
    requires C >= 1 && IsRoundRobin(a, P, C)
    ensures forall c: nat :: c < C ==> Load(a, P, c) == FairShare(P, C, c)
  {
    forall c: nat | c < C
      ensures Load(a, P, c) == FairShare(P, C, c)
    {
      RoundRobinLoad(a, P, C, c);
    }
  }

  // ---------------------------------------------------------------------
  // Dispatch

  /** What `calculateAssignments` promises for a strategy name: a complete
      assignment of [0, P) to [0, C), shaped by the named strategy, with
      every name other than `range` and `sticky` meaning round-robin; for
      `sticky`, exactly the result of its three passes. */
  ghost predicate Follows(strategy: string, P: nat, C: nat, prev: Assignment, a: Assignment)
    requires C >= 1
  {
    && Complete(a, P, C)
    && (strategy == "range" ==> IsRange(a, P, C))
    && (strategy == "sticky" ==> Sticky.IsSticky(prev, a, P, C) && a == Sticky.StickySpec(prev, P, C))
    && (strategy != "range" && strategy != "sticky" ==> IsRoundRobin(a, P, C))
  }

  /** `calculateAssignments(strategy, numPartitions, numConsumers, prevAssignments)`. */
  method CalculateAssignments(strategy: string, P: nat, C: nat, prev: Assignment) returns (a: Assignment)
    requires C >= 1
    ensures Follows(strategy, P, C, prev, a)
  {
    if strategy == "range" {
      a := RangeAssign(P, C);
    } else if strategy == "roundrobin" {
      a := RoundRobinAssign(P, C);
    } else if strategy == "sticky" {
      a := Sticky.StickyAssign(P, C, prev);
    } else {
      a := RoundRobinAssign(P, C);
    }
  }
}
