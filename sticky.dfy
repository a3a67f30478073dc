/** The `sticky` case of `calculateAssignments`.

    Three passes over a per-consumer count array: keep every previous owner
    that still exists, hand each orphaned partition to the lowest-indexed
    least-loaded consumer, then, for each consumer that was over
    ceil(P / C) after those two passes (the list is taken once, before any
    move), move the partitions it holds beyond its first ceil(P / C), in
    partition order, one by one to the least-loaded consumer.

    The passes are also written as functions of their inputs (Kept,
    PlaceFirst, ShedOverFirst, put together in StickySpec), and each method
    is proved to compute what they compute. Each loop also keeps one state
    predicate; the lemma beside it proves that one iteration preserves it,
    and together they give IsSticky. */
module Sticky {
  import opened Loads

  /** The previous owner of p still exists. */
  ghost predicate Survives(prev: Assignment, C: nat, p: nat) {
    p in prev && prev[p] < C
  }

  /** Partition p keeps its previous owner: that owner still exists and p is
      among the first ceil(P / C) partitions, in index order, it held before. */
  ghost predicate Keeps(prev: Assignment, P: nat, C: nat, p: nat)
    requires C >= 1
  {
    p in prev && prev[p] < C && Load(prev, p, prev[p]) < Ceil(P, C)
  }

  /** What the sticky strategy produces from `prev`: a complete assignment in
      which no consumer holds more than ceil(P / C) partitions, and a
      partition keeps its previous owner exactly when Keeps says so. */
  ghost predicate IsSticky(prev: Assignment, a: Assignment, P: nat, C: nat)
    requires C >= 1
  {
    && Complete(a, P, C)
    && (forall c: nat :: c < C ==> Load(a, P, c) <= Ceil(P, C))
    && (forall p: nat {:trigger Keeps(prev, P, C, p)} :: p < P ==>
          ((p in prev && p in a && a[p] == prev[p]) <==> Keeps(prev, P, C, p)))
  }

  // ---------------------------------------------------------------------
  // The three passes as functions

  /** What the passes carry from step to step: the assignment built so far
      and the number of partitions each consumer holds (a number in the
      source, so an `int` here). */
  datatype Tally = Tally(a: Assignment, counts: seq<int>)

  /** The first pass's assignment: each partition below P whose previous
      owner still exists, with that owner. */
  ghost function Kept(prev: Assignment, P: nat, C: nat): Assignment {
    map q: nat | q < P && Survives(prev, C, q) :: prev[q]
  }

  /** The first pass's `unassignedPartitions`: the partitions below n whose
      previous owner is gone, in ascending order. */
  ghost function OrphanList(prev: Assignment, n: nat, C: nat): seq<nat> {
    if n == 0 then [] else OrphanList(prev, n - 1, C) + (if Survives(prev, C, n - 1) then [] else [n - 1])
  }

  /** The loads of consumers 0 .. C - 1 under a, over the partitions below P. */
  ghost function LoadsOf(a: Assignment, P: nat, C: nat): (s: seq<int>)
    ensures |s| == C && forall c :: 0 <= c < C ==> s[c] == Load(a, P, c)
  {
    if C == 0 then [] else LoadsOf(a, P, C - 1) + [Load(a, P, C - 1)]
  }

  /** One step of the second pass: partition p goes to the lowest-indexed
      least-loaded consumer, whose count then rises by one. */
  ghost function GiveToLeast(t: Tally, p: nat): (r: Tally)
    requires |t.counts| >= 1
    ensures |r.counts| == |t.counts|
  {
    var m := LeastIndex(t.counts);
    Tally(t.a[p := m], t.counts[m := t.counts[m] + 1])
  }

  /** The second pass after its first n orphans, taken in list order. */
  ghost function PlaceFirst(t: Tally, orphans: seq<nat>, n: nat): (r: Tally)
    requires |t.counts| >= 1 && n <= |orphans|
    ensures |r.counts| == |t.counts|
  {
    if n == 0 then t else GiveToLeast(PlaceFirst(t, orphans, n - 1), orphans[n - 1])
  }

  /** The consumers below n whose count is above target, in ascending order. */
  ghost function OverList(s: seq<int>, target: int, n: nat): (over: seq<nat>)
    requires n <= |s|
    ensures forall k :: 0 <= k < |over| ==> over[k] < n
  {
    if n == 0 then [] else OverList(s, target, n - 1) + (if s[n - 1] > target then [n - 1] else [])
  }

  /** `Object.keys(assignments).filter(p => assignments[p] === c)` over the
      partitions below n: c's partitions, in ascending order. */
  ghost function Owned(a: Assignment, n: nat, c: nat): (owned: seq<nat>)
    ensures |owned| == Load(a, n, c)
  {
    if n == 0 then [] else Owned(a, n - 1, c) + (if n - 1 in a && a[n - 1] == c then [n - 1] else [])
  }

  /** `s.slice(t)`: s without its first t elements; empty when t is past its
      end. */
  function Drop(s: seq<nat>, t: nat): seq<nat> {
    if t <= |s| then s[t..] else []
  }

  /** One move of the third pass: partition p goes to the lowest-indexed
      least-loaded consumer, chosen before the counts change; then `consumer`
      counts one fewer and the receiver one more. */
  ghost function MoveToLeast(t: Tally, consumer: nat, p: nat): (r: Tally)
    requires consumer < |t.counts|
    ensures |r.counts| == |t.counts|
  {
    var m := LeastIndex(t.counts);
    var fewer := t.counts[consumer := t.counts[consumer] - 1];
    Tally(t.a[p := m], fewer[m := fewer[m] + 1])
  }

  /** One overloaded consumer after moving the first n partitions of its
      excess, in list order. */
  ghost function ShedFirst(t: Tally, consumer: nat, excess: seq<nat>, n: nat): (r: Tally)
    requires consumer < |t.counts| && n <= |excess|
    ensures |r.counts| == |t.counts|
  {
    if n == 0 then t else MoveToLeast(ShedFirst(t, consumer, excess, n - 1), consumer, excess[n - 1])
  }

  /** What consumer c sheds: its partitions beyond its first `target`, in
      partition order. */
  ghost function Excess(a: Assignment, P: nat, c: nat, target: nat): seq<nat> {
    Drop(Owned(a, P, c), target)
  }

  /** One overloaded consumer sheds all of its excess. */
  ghost function ShedConsumer(t: Tally, consumer: nat, P: nat, target: nat): (r: Tally)
    requires consumer < |t.counts|
    ensures |r.counts| == |t.counts|
  {
    var excess := Excess(t.a, P, consumer, target);
    ShedFirst(t, consumer, excess, |excess|)
  }

  /** The third pass after the first n consumers of the overloaded list. */
  ghost function ShedOverFirst(t: Tally, over: seq<nat>, P: nat, target: nat, n: nat): (r: Tally)
    requires n <= |over| && forall k :: 0 <= k < |over| ==> over[k] < |t.counts|
    ensures |r.counts| == |t.counts|
  {
    if n == 0 then t else ShedConsumer(ShedOverFirst(t, over, P, target, n - 1), over[n - 1], P, target)
  }

  /** ts lists the tallies the third pass goes through: ts[k] is the state
      before the k-th consumer of the overloaded list sheds. */
  ghost predicate ShedTrace(ts: seq<Tally>, over: seq<nat>, P: nat, target: nat) {
    && |ts| == |over| + 1
    && forall k :: 0 <= k < |over| ==>
         over[k] < |ts[k].counts| && ts[k + 1] == ShedConsumer(ts[k], over[k], P, target)
  }

  /** The states ShedOverFirst passes through form the trace of the third
      pass from t. */
  lemma TraceOf(t: Tally, over: seq<nat>, P: nat, target: nat) returns (ts: seq<Tally>)
    requires forall k :: 0 <= k < |over| ==> over[k] < |t.counts|
    ensures ShedTrace(ts, over, P, target) && ts[0] == t
    ensures ts[|over|] == ShedOverFirst(t, over, P, target, |over|)
  {
    ts := seq(|over| + 1, k requires 0 <= k <= |over| => ShedOverFirst(t, over, P, target, k));
    TraceSteps(t, over, P, target, ts);
  }

  /** A list holding the replay's state after each prefix of the
      overloaded list is a trace: each next state is one more shedding. */
  lemma TraceSteps(t: Tally, over: seq<nat>, P: nat, target: nat, ts: seq<Tally>)
    requires forall k :: 0 <= k < |over| ==> over[k] < |t.counts|
    requires |ts| == |over| + 1
    requires forall k :: 0 <= k <= |over| ==> ts[k] == ShedOverFirst(t, over, P, target, k)
    ensures ShedTrace(ts, over, P, target)
  {
    forall k | 0 <= k < |over|
      ensures over[k] < |ts[k].counts| && ts[k + 1] == ShedConsumer(ts[k], over[k], P, target)
    {
      ShedOverFirstStep(t, over, P, target, k);
    }
  }

  /** One more consumer of the replay sheds from the state the replay has
      reached. */
  lemma ShedOverFirstStep(t: Tally, over: seq<nat>, P: nat, target: nat, k: nat)
    requires k < |over| && forall j :: 0 <= j < |over| ==> over[j] < |t.counts|
    ensures over[k] < |ShedOverFirst(t, over, P, target, k).counts|
    ensures ShedOverFirst(t, over, P, target, k + 1) == ShedConsumer(ShedOverFirst(t, over, P, target, k), over[k], P, target)
  {
  }

  /** The state after the first two passes. */
  ghost function AfterPlacing(prev: Assignment, P: nat, C: nat): (r: Tally)
    requires C >= 1
    ensures |r.counts| == C
  {
    var kept := Kept(prev, P, C);
    var orphans := OrphanList(prev, P, C);
    PlaceFirst(Tally(kept, LoadsOf(kept, P, C)), orphans, |orphans|)
  }

  /** The sticky strategy as a function of its inputs: the three passes, the
      third over the consumers overloaded after the second. */
  ghost function StickySpec(prev: Assignment, P: nat, C: nat): Assignment
    requires C >= 1
  {
    var placed := AfterPlacing(prev, P, C);
    var target := Ceil(P, C);
    var over := OverList(placed.counts, target, C);
    ShedOverFirst(placed, over, P, target, |over|).a
  }

  // ---------------------------------------------------------------------
  // The count array

  /** counts[c] is consumer c's load below n, for each of the C consumers. */
  ghost predicate CountsBelow(a: Assignment, counts: seq<nat>, n: nat, C: nat) {
    |counts| == C && forall c: nat :: c < C ==> counts[c] == Load(a, n, c)
  }

  /** The counts describe a, which assigns only partitions below P, to
      consumers below C. */
  ghost predicate Counted(a: Assignment, counts: seq<nat>, P: nat, C: nat) {
    && (forall q: nat :: q in a ==> q < P && a[q] < C)
    && CountsBelow(a, counts, P, C)
  }

  /** `consumerPartitionCounts[x]++`. */
  method AddCount(counts: array<nat>, x: nat)
    requires x < counts.Length
    modifies counts
    ensures forall c :: 0 <= c < counts.Length ==> counts[c] == old(counts[c]) + (if c == x then 1 else 0)
    ensures counts[..] == old(counts[..])[x := old(counts[x]) + 1]
    ensures Sum(counts[..]) == Sum(old(counts[..])) + 1
  {
    ghost var before := counts[..];
    counts[x] := counts[x] + 1;
    assert counts[..] == before[x := before[x] + 1];
    SumUpdate(before, x, before[x] + 1);
  }

  /** `consumerPartitionCounts[y]--` then `consumerPartitionCounts[x]++`. */
  method MoveCount(counts: array<nat>, y: nat, x: nat)
    requires y < counts.Length && x < counts.Length && y != x && counts[y] >= 1
    modifies counts
    ensures forall c :: 0 <= c < counts.Length ==>
              counts[c] == old(counts[c]) - (if c == y then 1 else 0) + (if c == x then 1 else 0)
    ensures counts[..] == old(counts[..])[y := old(counts[..])[y] - 1][x := old(counts[..])[x] + 1]
    ensures Sum(counts[..]) == Sum(old(counts[..]))
  {
    ghost var before := counts[..];
    counts[y] := counts[y] - 1;
    ghost var middle := counts[..];
    assert middle == before[y := before[y] - 1];
    counts[x] := counts[x] + 1;
    assert counts[..] == middle[x := middle[x] + 1];
    SumUpdate(before, y, before[y] - 1);
    SumUpdate(middle, x, middle[x] + 1);
  }

  /** Strictly increasing, hence without repeats. */
  ghost predicate Ascending(s: seq<nat>) {
    forall k, l :: 0 <= k < l < |s| ==> s[k] < s[l]
  }

  // ---------------------------------------------------------------------
  // First pass: keep surviving owners

  /** The first pass has looked at the partitions below p. */
  ghost predicate Keeping(prev: Assignment, a: Assignment, orphans: seq<nat>, counts: seq<nat>, p: nat, C: nat) {
    && (forall q: nat :: q in a <==> q < p && Survives(prev, C, q))
    && (forall q: nat :: q in a ==> q in prev && a[q] == prev[q])
    && (forall q: nat :: q in orphans <==> q < p && !Survives(prev, C, q))
    && Ascending(orphans)
    && (forall k :: 0 <= k < |orphans| ==> orphans[k] < p)
    && CountsBelow(a, counts, p, C)
    && Sum(counts) + |orphans| == p
  }

  /** Keeping partition p with its surviving owner. */
  lemma KeepStep(prev: Assignment, a: Assignment, orphans: seq<nat>, before: seq<nat>, after: seq<nat>, p: nat, C: nat)
    requires Keeping(prev, a, orphans, before, p, C) && Survives(prev, C, p)
    requires |after| == C
    requires forall c :: 0 <= c < C ==> after[c] == before[c] + (if c == prev[p] then 1 else 0)
    requires Sum(after) == Sum(before) + 1
    ensures Keeping(prev, a[p := prev[p]], orphans, after, p + 1, C)
  {
    assert p !in a;
    forall c: nat | c < C
      ensures after[c] == Load(a[p := prev[p]], p + 1, c)
    {
      LoadUnchangedBelow(a, p, prev[p], c, p);
    }
  }

  /** Listing partition p as unassigned. */
  lemma OrphanStep(prev: Assignment, a: Assignment, orphans: seq<nat>, counts: seq<nat>, p: nat, C: nat)
    requires Keeping(prev, a, orphans, counts, p, C) && !Survives(prev, C, p)
    ensures Keeping(prev, a, orphans + [p], counts, p + 1, C)
  {
    assert p !in a;
  }

  /** Looking at partition p: keep it with its previous owner when that owner
      still exists, otherwise list it as unassigned. */
  method KeepOne(C: nat, prev: Assignment, counts: array<nat>, a0: Assignment, orphans0: seq<nat>, p: nat)
    returns (a: Assignment, orphans: seq<nat>)
    requires counts.Length == C
    requires Keeping(prev, a0, orphans0, counts[..], p, C)
    modifies counts
    ensures Keeping(prev, a, orphans, counts[..], p + 1, C)
    ensures orphans == orphans0 + (if Survives(prev, C, p) then [] else [p])
  {
    a, orphans := a0, orphans0;
    if p in prev && prev[p] < C {
      var prevConsumer := prev[p];
      ghost var before := counts[..];
      AddCount(counts, prevConsumer);
      KeepStep(prev, a, orphans, before, counts[..], p, C);
      a := a[p := prevConsumer];
    } else {
      OrphanStep(prev, a, orphans, counts[..], p, C);
      orphans := orphans + [p];
    }
  }

  /** First pass: keep every partition whose previous owner still exists,
      counting it for that owner, and list the others in partition order. */
  method KeepSurvivors(P: nat, C: nat, prev: Assignment, counts: array<nat>) returns (a: Assignment, orphans: seq<nat>)
    requires counts.Length == C
    requires forall c :: 0 <= c < C ==> counts[c] == 0
    modifies counts
    ensures Keeping(prev, a, orphans, counts[..], P, C)
    ensures a == Kept(prev, P, C) && orphans == OrphanList(prev, P, C)
    ensures counts[..] == LoadsOf(a, P, C)
  {
    SumZeros(counts[..]);
    a := map[];
    orphans := [];
    var p := 0;
    while p < P
      invariant p <= P
      invariant Keeping(prev, a, orphans, counts[..], p, C)
      invariant orphans == OrphanList(prev, p, C)
    {
      a, orphans := KeepOne(C, prev, counts, a, orphans, p);
      p := p + 1;
    }
    KeptAll(prev, a, orphans, counts[..], P, C);
  }

  /** After the first pass over all P partitions, the assignment is Kept and
      the counts are its loads. */
  lemma KeptAll(prev: Assignment, a: Assignment, orphans: seq<nat>, counts: seq<nat>, P: nat, C: nat)
    requires Keeping(prev, a, orphans, counts, P, C)
    ensures a == Kept(prev, P, C) && counts == LoadsOf(a, P, C)
  {
    assert forall q :: q in a <==> q in Kept(prev, P, C);
  }

  // ---------------------------------------------------------------------
  // Second pass: place the orphans

  /** Every partition held by a consumer whose count is above t is one that
      consumer held before. */
  ghost predicate Untouched(prev: Assignment, a: Assignment, counts: seq<nat>, t: nat) {
    forall q: nat :: q in a && a[q] < |counts| && counts[a[q]] > t ==> q in prev && prev[q] == a[q]
  }

  /** orphans lists, in ascending order, the partitions below P whose
      previous owner is gone. */
  ghost predicate Orphans(prev: Assignment, orphans: seq<nat>, P: nat, C: nat) {
    && (forall q: nat :: q in orphans <==> q < P && !Survives(prev, C, q))
    && Ascending(orphans)
  }

  /** Exactly the survivors and orphans[..i] are placed, survivors with
      their previous owner. */
  ghost predicate PlacedSoFar(prev: Assignment, a: Assignment, orphans: seq<nat>, i: nat, P: nat, C: nat)
    requires i <= |orphans|
  {
    && (forall q: nat :: q in a <==> q < P && (Survives(prev, C, q) || q in orphans[..i]))
    && (forall q: nat :: Survives(prev, C, q) && q in a ==> a[q] == prev[q])
  }

  /** The second pass has placed orphans[..i]. */
  ghost predicate Placing(prev: Assignment, a: Assignment, orphans: seq<nat>, counts: seq<nat>, i: nat, P: nat, C: nat)
    requires C >= 1
  {
    && i <= |orphans|
    && Orphans(prev, orphans, P, C)
    && Counted(a, counts, P, C)
    && PlacedSoFar(prev, a, orphans, i, P, C)
    && Untouched(prev, a, counts, Ceil(P, C))
    && Sum(counts) + (|orphans| - i) == P
  }

  /** The first pass over all P partitions starts the second. */
  lemma StartPlacing(prev: Assignment, a: Assignment, orphans: seq<nat>, counts: seq<nat>, P: nat, C: nat)
    requires C >= 1 && Keeping(prev, a, orphans, counts, P, C)
    ensures Placing(prev, a, orphans, counts, 0, P, C)
  {
    assert orphans[..0] == [];
  }

  /** While fewer than P partitions are placed, the least-loaded consumer is
      below ceil(P / C). */
  lemma LeastBelowTarget(s: seq<nat>, P: nat, C: nat, m: nat)
    requires C >= 1 && |s| == C && m < C && forall c :: 0 <= c < C ==> s[m] <= s[c]
    requires Sum(s) < P
    ensures s[m] < Ceil(P, C)
  {
    CeilBounds(P, C);
    MinBelow(s, Ceil(P, C), m);
  }

  /** Giving unassigned partition p to consumer m, counted for m. */
  lemma CountedAdd(a: Assignment, before: seq<nat>, after: seq<nat>, P: nat, C: nat, p: nat, m: nat)
    requires Counted(a, before, P, C) && p < P && p !in a && m < C
    requires |after| == C
    requires forall c :: 0 <= c < C ==> after[c] == before[c] + (if c == m then 1 else 0)
    ensures Counted(a[p := m], after, P, C)
  {
    forall c: nat | c < C
      ensures after[c] == Load(a[p := m], P, c)
    {
      LoadUpdate(a, P, p, m, c);
    }
  }

  /** Giving unassigned partition p to a consumer m still below t keeps every
      consumer above t untouched. */
  lemma UntouchedAdd(prev: Assignment, a: Assignment, before: seq<nat>, after: seq<nat>, t: nat, p: nat, m: nat)
    requires Untouched(prev, a, before, t) && p !in a
    requires m < |before| && before[m] < t
    requires |after| == |before|
    requires forall c :: 0 <= c < |before| ==> after[c] == before[c] + (if c == m then 1 else 0)
    ensures Untouched(prev, a[p := m], after, t)
  {
    var a' := a[p := m];
    forall q: nat | q in a' && a'[q] < |after| && after[a'[q]] > t
      ensures q in prev && prev[q] == a'[q]
    {
      assert q != p && a'[q] == a[q] != m;
    }
  }

  /** Placing orphans[i] with the least-loaded consumer m. */
  lemma PlaceStep(prev: Assignment, a: Assignment, orphans: seq<nat>, before: seq<nat>, after: seq<nat>,
                  i: nat, P: nat, C: nat, m: nat)
    requires C >= 1 && Placing(prev, a, orphans, before, i, P, C) && i < |orphans|
    requires m < C && forall c :: 0 <= c < C ==> before[m] <= before[c]
    requires |after| == C
    requires forall c :: 0 <= c < C ==> after[c] == before[c] + (if c == m then 1 else 0)
    requires Sum(after) == Sum(before) + 1
    ensures Placing(prev, a[orphans[i] := m], orphans, after, i + 1, P, C)
  {
    var p := orphans[i];
    assert p in orphans && p !in orphans[..i];
    assert p !in a;
    LeastBelowTarget(before, P, C, m);
    CountedAdd(a, before, after, P, C, p, m);
    UntouchedAdd(prev, a, before, after, Ceil(P, C), p, m);
    PlacedNext(prev, a, orphans, i, P, C, m);
  }

  /** After placing orphans[i], exactly the survivors and orphans[..i + 1]
      are placed. */
  lemma PlacedNext(prev: Assignment, a: Assignment, orphans: seq<nat>, i: nat, P: nat, C: nat, m: nat)
    requires i < |orphans| && orphans[i] < P && !Survives(prev, C, orphans[i])
    requires PlacedSoFar(prev, a, orphans, i, P, C)
    ensures PlacedSoFar(prev, a[orphans[i] := m], orphans, i + 1, P, C)
  {
    assert orphans[..i + 1] == orphans[..i] + [orphans[i]];
  }

  /** Second pass: each orphan, in partition order, goes to the least-loaded
      consumer. That consumer is below ceil(P / C) before the move, so no
      consumer is pushed over the target and an overloaded consumer still holds
      exactly the partitions it held before. */
  method PlaceOrphans(P: nat, C: nat, prev: Assignment, counts: array<nat>, kept: Assignment, orphans: seq<nat>)
    returns (a: Assignment)
    requires C >= 1 && counts.Length == C
    requires Keeping(prev, kept, orphans, counts[..], P, C)
    modifies counts
    ensures Placing(prev, a, orphans, counts[..], |orphans|, P, C)
    ensures Tally(a, counts[..]) == PlaceFirst(Tally(kept, old(counts[..])), orphans, |orphans|)
  {
    StartPlacing(prev, kept, orphans, counts[..], P, C);
    ghost var start := Tally(kept, counts[..]);
    a := kept;
    var i := 0;
    while i < |orphans|
      invariant Placing(prev, a, orphans, counts[..], i, P, C)
      invariant Tally(a, counts[..]) == PlaceFirst(start, orphans, i)
    {
      a := PlaceOne(P, C, prev, counts, a, orphans, i);
      i := i + 1;
    }
  }

  /** Placing orphans[i] with the lowest-indexed least-loaded consumer. */
  method PlaceOne(P: nat, C: nat, prev: Assignment, counts: array<nat>, a0: Assignment, orphans: seq<nat>, i: nat)
    returns (a: Assignment)
    requires C >= 1 && counts.Length == C && i < |orphans|
    requires Placing(prev, a0, orphans, counts[..], i, P, C)
    modifies counts
    ensures Placing(prev, a, orphans, counts[..], i + 1, P, C)
    ensures Tally(a, counts[..]) == GiveToLeast(Tally(a0, old(counts[..])), orphans[i])
  {
    ghost var before := counts[..];
    var minConsumer;
    a, minConsumer := GivePartition(counts, a0, orphans[i]);
    PlaceStep(prev, a0, orphans, before, counts[..], i, P, C, minConsumer);
  }

  /** `assignments[partition] = minConsumer` and `consumerPartitionCounts[minConsumer]++`,
      with minConsumer the least-loaded consumer. */
  method GivePartition(counts: array<nat>, a0: Assignment, partition: nat)
    returns (a: Assignment, minConsumer: nat)
    requires counts.Length >= 1
    modifies counts
    ensures minConsumer < counts.Length && forall c :: 0 <= c < counts.Length ==> old(counts[minConsumer]) <= old(counts[c])
    ensures a == a0[partition := minConsumer]
    ensures forall c :: 0 <= c < counts.Length ==> counts[c] == old(counts[c]) + (if c == minConsumer then 1 else 0)
    ensures Sum(counts[..]) == Sum(old(counts[..])) + 1
    ensures Tally(a, counts[..]) == GiveToLeast(Tally(a0, old(counts[..])), partition)
  {
    minConsumer := LeastLoaded(counts);
    a := a0[partition := minConsumer];
    AddCount(counts, minConsumer);
  }

  // ---------------------------------------------------------------------
  // Third pass: shed the excess of overloaded consumers

  /** The list of overloaded consumers, taken once, in consumer order. */
  method Overloaded(counts: array<nat>, target: nat) returns (over: seq<nat>)
    ensures forall c: nat :: c in over <==> c < counts.Length && counts[c] > target
    ensures forall k, l :: 0 <= k < l < |over| ==> over[k] < over[l]
    ensures over == OverList(counts[..], target, counts.Length)
  {
    ghost var s := counts[..];
    over := [];
    var c := 0;
    while c < counts.Length
      invariant c <= counts.Length
      invariant over == OverList(s, target, c)
    {
      if counts[c] > target {
        over := over + [c];
      }
      c := c + 1;
    }
    OverListMembers(s, target, c);
  }

  /** OverList holds, in ascending order, exactly the consumers below n whose
      count is above target. */
  lemma {:induction false} OverListMembers(s: seq<int>, target: int, n: nat)
    requires n <= |s|
    ensures forall d: nat :: d in OverList(s, target, n) <==> d < n && s[d] > target
    ensures forall k, l :: 0 <= k < l < |OverList(s, target, n)| ==> OverList(s, target, n)[k] < OverList(s, target, n)[l]
  {
    if n > 0 {
      OverListMembers(s, target, n - 1);
    }
  }

  /** The partitions below P that a gives to consumer c, in partition order,
      which is the order in which `Object.keys` lists integer keys. */
  method OwnedBy(a: Assignment, P: nat, c: nat) returns (owned: seq<nat>)
    ensures |owned| == Load(a, P, c)
    ensures forall k :: 0 <= k < |owned| ==>
              owned[k] < P && owned[k] in a && a[owned[k]] == c && Load(a, owned[k], c) == k
    ensures forall q: nat {:trigger q in owned} :: q < P && q in a && a[q] == c ==> q in owned
    ensures Ascending(owned)
    ensures owned == Owned(a, P, c)
  {
    owned := [];
    var q := 0;
    while q < P
      invariant q <= P
      invariant owned == Owned(a, q, c)
      invariant |owned| == Load(a, q, c)
      invariant forall k :: 0 <= k < |owned| ==>
                  owned[k] < q && owned[k] in a && a[owned[k]] == c && Load(a, owned[k], c) == k
      invariant forall r: nat {:trigger r in owned} :: r < q && r in a && a[r] == c ==> r in owned
      invariant Ascending(owned)
    {
      if q in a && a[q] == c {
        owned := owned + [q];
      }
      q := q + 1;
    }
  }

  /** All P partitions are placed and the counts describe them. */
  ghost predicate Placed(a: Assignment, counts: seq<nat>, P: nat, C: nat) {
    Counted(a, counts, P, C) && Complete(a, P, C) && Sum(counts) == P
  }

  /** A pending consumer is still over the target, holds only partitions it
      held before and still holds all of them. */
  ghost predicate Frozen(prev: Assignment, a: Assignment, counts: seq<nat>, P: nat, C: nat, pending: set<nat>)
    requires C >= 1
  {
    && (forall c: nat :: c in pending ==> c < C && c < |counts| && counts[c] > Ceil(P, C))
    && (forall q: nat :: q in a && a[q] in pending ==> q in prev && prev[q] == a[q])
    && (forall q: nat :: q < P && q in prev && prev[q] in pending ==> q in a && a[q] == prev[q])
  }

  /** Every partition whose previous owner is not in `skip` already keeps
      that owner exactly when IsSticky says it should. */
  ghost predicate KeepsUnless(prev: Assignment, a: Assignment, P: nat, C: nat, skip: set<nat>)
    requires C >= 1
  {
    forall q: nat {:trigger Keeps(prev, P, C, q)} :: q < P && !(q in prev && prev[q] in skip) ==>
      ((q in prev && q in a && a[q] == prev[q]) <==> Keeps(prev, P, C, q))
  }

  /** The state of the third pass, with `pending` the overloaded consumers not
      yet handled: every other consumer is within the target, pending ones
      are frozen, and the partitions of all others already satisfy IsSticky. */
  ghost predicate Shedding(prev: Assignment, a: Assignment, counts: seq<nat>, P: nat, C: nat, pending: set<nat>)
    requires C >= 1
  {
    && Placed(a, counts, P, C)
    && (forall c: nat :: c < C && c !in pending ==> counts[c] <= Ceil(P, C))
    && Frozen(prev, a, counts, P, C, pending)
    && KeepsUnless(prev, a, P, C, pending)
  }

  /** After the second pass, with `pending` the consumers over the target,
      the third pass's state holds. */
  lemma StartShedding(prev: Assignment, a: Assignment, orphans: seq<nat>, counts: seq<nat>, P: nat, C: nat, pending: set<nat>)
    requires C >= 1 && Placing(prev, a, orphans, counts, |orphans|, P, C)
    requires forall c: nat :: c in pending <==> c < C && counts[c] > Ceil(P, C)
    ensures Shedding(prev, a, counts, P, C, pending)
  {
    assert orphans[..|orphans|] == orphans;
    forall q: nat | q < P
      ensures q in a
    {
      if !Survives(prev, C, q) {
        assert q in orphans;
      }
    }
    forall q: nat | q < P && !(q in prev && prev[q] in pending)
      ensures (q in prev && q in a && a[q] == prev[q]) <==> Keeps(prev, P, C, q)
    {
      if Survives(prev, C, q) {
        var c := prev[q];
        assert counts[c] <= Ceil(P, C);
        LoadCountsOwner(prev, q, P, c);
        LoadSubsumed(prev, a, P, c);
      }
    }
  }

  /** owned lists, in ascending order, the partitions below P that prev gave
      to `consumer`, each with its rank among them. */
  ghost predicate Ranks(prev: Assignment, P: nat, consumer: nat, owned: seq<nat>) {
    && Ascending(owned)
    && (forall k :: 0 <= k < |owned| ==>
          owned[k] < P && owned[k] in prev && prev[owned[k]] == consumer && Load(prev, owned[k], consumer) == k)
    && (forall q: nat {:trigger q in owned} :: q < P && q in prev && prev[q] == consumer ==> q in owned)
  }

  /** Handling `consumer`: of the partitions it held before, in order, those
      at ranks from ceil(P / C) up to ceil(P / C) + e have been moved away;
      everything else is as in Shedding. */
  ghost predicate Moving(prev: Assignment, a: Assignment, counts: seq<nat>, P: nat, C: nat,
                         pending: set<nat>, consumer: nat, owned: seq<nat>, e: nat)
    requires C >= 1
  {
    && Placed(a, counts, P, C)
    && consumer < C && consumer !in pending
    && Ceil(P, C) + e <= |owned|
    && counts[consumer] == |owned| - e
    && (forall c: nat :: c < C && c != consumer && c !in pending ==> counts[c] <= Ceil(P, C))
    && Frozen(prev, a, counts, P, C, pending)
    && KeepsUnless(prev, a, P, C, pending + {consumer})
    && Ranks(prev, P, consumer, owned)
    && (forall k :: 0 <= k < |owned| ==> (a[owned[k]] == consumer <==> (k < Ceil(P, C) || k >= Ceil(P, C) + e)))
  }

  /** Listing `consumer`'s partitions starts its handling. */
  lemma StartMoving(prev: Assignment, a: Assignment, counts: seq<nat>, P: nat, C: nat,
                    pending: set<nat>, consumer: nat, owned: seq<nat>)
    requires C >= 1 && consumer !in pending
    requires Shedding(prev, a, counts, P, C, pending + {consumer})
    requires |owned| == Load(a, P, consumer)
    requires forall k :: 0 <= k < |owned| ==>
               owned[k] < P && owned[k] in a && a[owned[k]] == consumer && Load(a, owned[k], consumer) == k
    requires forall q: nat {:trigger q in owned} :: q < P && q in a && a[q] == consumer ==> q in owned
    requires Ascending(owned)
    ensures Moving(prev, a, counts, P, C, pending, consumer, owned, 0)
  {
    // Below P, a gives `consumer` exactly the partitions prev gave it, so a
    // partition's rank among them is the same in both.
    forall k | 0 <= k < |owned|
      ensures Load(prev, owned[k], consumer) == k
    {
      LoadAgree(a, prev, owned[k], consumer);
    }
  }

  /** With all P partitions placed and `consumer` over the target, the
      least-loaded consumer m is another one, below the target and not pending. */
  lemma MoveTarget(prev: Assignment, a: Assignment, counts: seq<nat>, P: nat, C: nat,
                   pending: set<nat>, consumer: nat, owned: seq<nat>, e: nat, m: nat)
    requires C >= 1 && Moving(prev, a, counts, P, C, pending, consumer, owned, e)
    requires Ceil(P, C) + e < |owned|
    requires m < C && forall c :: 0 <= c < C ==> counts[m] <= counts[c]
    ensures m != consumer && m !in pending && counts[m] < Ceil(P, C) && counts[consumer] >= 1
  {
    CeilBounds(P, C);
    SomeBelow(counts, Ceil(P, C), consumer);
  }

  /** Moving placed partition p to consumer m, with the counts moved along. */
  lemma PlacedMove(a: Assignment, before: seq<nat>, after: seq<nat>, P: nat, C: nat, p: nat, m: nat)
    requires Placed(a, before, P, C) && p < P && m < C
    requires |after| == C
    requires forall c :: 0 <= c < C ==>
               after[c] + (if c == a[p] then 1 else 0) == before[c] + (if c == m then 1 else 0)
    requires Sum(after) == Sum(before)
    ensures Placed(a[p := m], after, P, C)
  {
    forall c: nat | c < C
      ensures after[c] == Load(a[p := m], P, c)
    {
      LoadUpdate(a, P, p, m, c);
    }
  }

  /** Moving p between two consumers that are not pending leaves the pending
      ones frozen. */
  lemma FrozenMove(prev: Assignment, a: Assignment, before: seq<nat>, after: seq<nat>, P: nat, C: nat,
                   pending: set<nat>, p: nat, m: nat)
    requires C >= 1 && Frozen(prev, a, before, P, C, pending)
    requires p in a && a[p] !in pending && m !in pending
    requires |after| == |before|
    requires forall c :: c in pending && c < |before| ==> after[c] == before[c]
    ensures Frozen(prev, a[p := m], after, P, C, pending)
  {
  }

  /** Moving a partition whose previous owner is skipped keeps KeepsUnless. */
  lemma KeepsMove(prev: Assignment, a: Assignment, P: nat, C: nat, skip: set<nat>, p: nat, m: nat)
    requires C >= 1 && KeepsUnless(prev, a, P, C, skip)
    requires p in prev && prev[p] in skip
    ensures KeepsUnless(prev, a[p := m], P, C, skip)
  {
  }

  /** Moving owned[target + e] from `consumer` to the least-loaded consumer m. */
  lemma MoveStep(prev: Assignment, a: Assignment, before: seq<nat>, after: seq<nat>, P: nat, C: nat,
                 pending: set<nat>, consumer: nat, owned: seq<nat>, e: nat, m: nat)
    requires C >= 1 && Moving(prev, a, before, P, C, pending, consumer, owned, e)
    requires Ceil(P, C) + e < |owned|
    requires m < C && m != consumer && m !in pending && before[m] < Ceil(P, C)
    requires |after| == C
    requires forall c :: 0 <= c < C ==>
               after[c] == before[c] - (if c == consumer then 1 else 0) + (if c == m then 1 else 0)
    requires Sum(after) == Sum(before)
    ensures Moving(prev, a[owned[Ceil(P, C) + e] := m], after, P, C, pending, consumer, owned, e + 1)
  {
    var t := Ceil(P, C);
    var p := owned[t + e];
    assert a[p] == consumer;
    PlacedMove(a, before, after, P, C, p, m);
    FrozenMove(prev, a, before, after, P, C, pending, p, m);
    KeepsMove(prev, a, P, C, pending + {consumer}, p, m);
    MovedOne(a, owned, consumer, t, e, m);
  }

  /** Moving owned[t + e] away from `consumer` extends the moved ranks by one. */
  lemma MovedOne(a: Assignment, owned: seq<nat>, consumer: nat, t: nat, e: nat, m: nat)
    requires Ascending(owned) && t + e < |owned| && m != consumer
    requires forall k :: 0 <= k < |owned| ==> owned[k] in a
    requires forall k :: 0 <= k < |owned| ==> (a[owned[k]] == consumer <==> (k < t || k >= t + e))
    ensures forall k :: 0 <= k < |owned| ==>
              (a[owned[t + e] := m][owned[k]] == consumer <==> (k < t || k >= t + e + 1))
  {
    var p := owned[t + e];
    forall k | 0 <= k < |owned|
      ensures a[p := m][owned[k]] == consumer <==> (k < t || k >= t + e + 1)
    {
      if k < t + e {
        assert owned[k] < p;
      } else if k > t + e {
        assert p < owned[k];
      }
    }
  }

  /** When `consumer` is down to the target, the third pass's state holds
      without it. */
  lemma FinishMoving(prev: Assignment, a: Assignment, counts: seq<nat>, P: nat, C: nat,
                     pending: set<nat>, consumer: nat, owned: seq<nat>)
    requires C >= 1 && Ceil(P, C) <= |owned|
    requires Moving(prev, a, counts, P, C, pending, consumer, owned, |owned| - Ceil(P, C))
    ensures Shedding(prev, a, counts, P, C, pending)
  {
    forall q: nat | q < P && !(q in prev && prev[q] in pending)
      ensures (q in prev && q in a && a[q] == prev[q]) <==> Keeps(prev, P, C, q)
    {
      if q in prev && prev[q] == consumer {
        assert q in owned;
        var k :| 0 <= k < |owned| && owned[k] == q;
      }
    }
  }

  /** Moving the next excess partition of `consumer`, owned[target + e], to
      the least-loaded consumer. */
  method MoveOne(P: nat, C: nat, prev: Assignment, counts: array<nat>, a0: Assignment,
                 consumer: nat, target: nat, owned: seq<nat>, e: nat, ghost pending: set<nat>)
    returns (a: Assignment)
    requires C >= 1 && counts.Length == C && target == Ceil(P, C) && target + e < |owned|
    requires Moving(prev, a0, counts[..], P, C, pending, consumer, owned, e)
    modifies counts
    ensures Moving(prev, a, counts[..], P, C, pending, consumer, owned, e + 1)
    ensures Tally(a, counts[..]) == MoveToLeast(Tally(a0, old(counts[..])), consumer, owned[target + e])
    ensures forall q :: q in a0 && !(q in prev && prev[q] == consumer) ==> q in a && a[q] == a0[q]
  {
    ghost var before := counts[..];
    LeastIndexIsLeast(before);
    MoveTarget(prev, a0, before, P, C, pending, consumer, owned, e, LeastIndex(before));
    var underloadedConsumer;
    a, underloadedConsumer := MovePartition(counts, a0, consumer, owned[target + e]);
    MoveStep(prev, a0, before, counts[..], P, C, pending, consumer, owned, e, underloadedConsumer);
  }

  /** `assignments[partition] = underloadedConsumer`, then the two count
      updates, with the receiver the least-loaded consumer. */
  method MovePartition(counts: array<nat>, a0: Assignment, consumer: nat, partition: nat)
    returns (a: Assignment, underloadedConsumer: nat)
    requires consumer < counts.Length && counts[consumer] >= 1 && LeastIndex(counts[..]) != consumer
    modifies counts
    ensures underloadedConsumer == LeastIndex(old(counts[..]))
    ensures a == a0[partition := underloadedConsumer]
    ensures forall c :: 0 <= c < counts.Length ==>
              counts[c] == old(counts[c]) - (if c == consumer then 1 else 0) + (if c == underloadedConsumer then 1 else 0)
    ensures Sum(counts[..]) == Sum(old(counts[..]))
    ensures Tally(a, counts[..]) == MoveToLeast(Tally(a0, old(counts[..])), consumer, partition)
  {
    ghost var before := counts[..];
    underloadedConsumer := LeastLoaded(counts);
    a := a0[partition := underloadedConsumer];
    MoveCount(counts, consumer, underloadedConsumer);
    MoveToLeastIs(Tally(a0, before), consumer, partition, underloadedConsumer);
  }

  /** MoveToLeast, once the least-loaded consumer m is known to be another
      consumer than the one shedding. */
  lemma MoveToLeastIs(t: Tally, consumer: nat, p: nat, m: nat)
    requires consumer < |t.counts| && |t.counts| >= 1 && m == LeastIndex(t.counts) && m != consumer
    ensures MoveToLeast(t, consumer, p) == Tally(t.a[p := m], t.counts[consumer := t.counts[consumer] - 1][m := t.counts[m] + 1])
  {
  }

  /** One step of the third pass: `consumer`, over the target, gives the
      partitions it holds beyond its first ceil(P / C), in partition order,
      one at a time to the least-loaded consumer. */
  method ShedExcess(P: nat, C: nat, prev: Assignment, counts: array<nat>, a0: Assignment,
                    consumer: nat, target: nat, ghost pending: set<nat>)
    returns (a: Assignment)
    requires C >= 1 && counts.Length == C && target == Ceil(P, C)
    requires consumer !in pending
    requires Shedding(prev, a0, counts[..], P, C, pending + {consumer})
    modifies counts
    ensures Shedding(prev, a, counts[..], P, C, pending)
    ensures Tally(a, counts[..]) == ShedConsumer(Tally(a0, old(counts[..])), consumer, P, target)
    ensures forall q :: q in a0 && !(q in prev && prev[q] == consumer) ==> q in a && a[q] == a0[q]
  {
    ghost var start := Tally(a0, counts[..]);
    var owned := OwnedBy(a0, P, consumer);
    StartMoving(prev, a0, counts[..], P, C, pending, consumer, owned);
    ghost var excess := owned[target..];
    assert excess == Excess(a0, P, consumer, target);
    assert ShedFirst(start, consumer, excess, |excess|) == ShedConsumer(start, consumer, P, target);
    a := MoveExcess(P, C, prev, counts, a0, consumer, target, owned, pending);
    FinishMoving(prev, a, counts[..], P, C, pending, consumer, owned);
  }

  /** The loop of one overloaded consumer: owned[target..], in order, each
      to the least-loaded consumer. */
  method MoveExcess(P: nat, C: nat, prev: Assignment, counts: array<nat>, a0: Assignment,
                    consumer: nat, target: nat, owned: seq<nat>, ghost pending: set<nat>)
    returns (a: Assignment)
    requires C >= 1 && counts.Length == C && target == Ceil(P, C) && target <= |owned|
    requires Moving(prev, a0, counts[..], P, C, pending, consumer, owned, 0)
    modifies counts
    ensures Moving(prev, a, counts[..], P, C, pending, consumer, owned, |owned| - target)
    ensures Tally(a, counts[..]) == ShedFirst(Tally(a0, old(counts[..])), consumer, owned[target..], |owned| - target)
    ensures forall q :: q in a0 && !(q in prev && prev[q] == consumer) ==> q in a && a[q] == a0[q]
  {
    a := a0;
    ghost var start := Tally(a0, counts[..]);
    ghost var excess := owned[target..];
    var e := 0;
    while target + e < |owned|
      invariant target + e <= |owned|
      invariant Moving(prev, a, counts[..], P, C, pending, consumer, owned, e)
      invariant Tally(a, counts[..]) == ShedFirst(start, consumer, excess, e)
      invariant forall q :: q in a0 && !(q in prev && prev[q] == consumer) ==> q in a && a[q] == a0[q]
    {
      assert excess[e] == owned[target + e];
      a := MoveOne(P, C, prev, counts, a, consumer, target, owned, e, pending);
      e := e + 1;
    }
  }

  /** The third pass with nothing pending is the sticky result. */
  lemma FinishShedding(prev: Assignment, a: Assignment, counts: seq<nat>, P: nat, C: nat)
    requires C >= 1 && Shedding(prev, a, counts, P, C, {})
    ensures IsSticky(prev, a, P, C)
  {
  }

  /** The consumers of the overloaded list from position j on: those still
      pending. */
  ghost function Remaining(over: seq<nat>, j: nat): set<nat>
    requires j <= |over|
  {
    set c: nat | c in over[j..]
  }

  /** Handing the next overloaded consumer takes it out of the pending set. */
  lemma NextPending(over: seq<nat>, j: nat)
    requires j < |over|
    requires forall k, l :: 0 <= k < l < |over| ==> over[k] < over[l]
    ensures over[j] !in Remaining(over, j + 1)
    ensures Remaining(over, j + 1) + {over[j]} == Remaining(over, j)
  {
    assert over[j..] == [over[j]] + over[j + 1..];
  }

  /** The third pass's state before the consumer at position j sheds, with
      that consumer written apart from the ones after it. */
  lemma ShedNextPending(prev: Assignment, a: Assignment, counts: seq<nat>, P: nat, C: nat, over: seq<nat>, j: nat)
    requires C >= 1 && j < |over|
    requires forall k, l :: 0 <= k < l < |over| ==> over[k] < over[l]
    requires Shedding(prev, a, counts, P, C, Remaining(over, j))
    ensures over[j] !in Remaining(over, j + 1)
    ensures Shedding(prev, a, counts, P, C, Remaining(over, j + 1) + {over[j]})
  {
    NextPending(over, j);
  }

  /** Once the whole overloaded list is handled, nothing is pending. */
  lemma NoneRemaining(prev: Assignment, a: Assignment, counts: seq<nat>, P: nat, C: nat, over: seq<nat>)
    requires C >= 1 && Shedding(prev, a, counts, P, C, Remaining(over, |over|))
    ensures Shedding(prev, a, counts, P, C, {})
  {
    assert Remaining(over, |over|) == {};
  }

  // ---------------------------------------------------------------------
  // The strategy

  /** The `sticky` case of `calculateAssignments`: every partition below P
      ends with an owner below C, no consumer holds more than ceil(P / C), and
      a partition keeps its previous owner exactly when that owner still
      exists and the partition is among the first ceil(P / C) it held. */
  method StickyAssign(P: nat, C: nat, prev: Assignment) returns (a: Assignment)
    requires C >= 1
    ensures IsSticky(prev, a, P, C)
    ensures a == StickySpec(prev, P, C)
    ensures forall q: nat :: q < P && !Survives(prev, C, q) ==>
              q in a && q in AfterPlacing(prev, P, C).a && a[q] == AfterPlacing(prev, P, C).a[q]
  {
    var consumerPartitionCounts := new nat[C](_ => 0);
    var kept, unassignedPartitions := KeepSurvivors(P, C, prev, consumerPartitionCounts);
    a := PlaceOrphans(P, C, prev, consumerPartitionCounts, kept, unassignedPartitions);
    ghost var placed := Tally(a, consumerPartitionCounts[..]);
    assert placed == AfterPlacing(prev, P, C);
    OrphansPlaced(prev, a, unassignedPartitions, consumerPartitionCounts[..], P, C);
    var targetPartitionsPerConsumer := Ceil(P, C);
    var overloadedConsumers := Overloaded(consumerPartitionCounts, targetPartitionsPerConsumer);
    assert overloadedConsumers[0..] == overloadedConsumers;
    StartShedding(prev, a, unassignedPartitions, consumerPartitionCounts[..], P, C, Remaining(overloadedConsumers, 0));
    ghost var ts := TraceOf(placed, overloadedConsumers, P, targetPartitionsPerConsumer);
    a := ShedOverloaded(P, C, prev, consumerPartitionCounts, a, targetPartitionsPerConsumer, overloadedConsumers, ts);
    FinishShedding(prev, a, consumerPartitionCounts[..], P, C);
  }

  /** Third pass: each consumer of the overloaded list, in order, sheds the
      partitions it holds beyond its first ceil(P / C). Only partitions that
      a listed consumer held before move. */
  method ShedOverloaded(P: nat, C: nat, prev: Assignment, counts: array<nat>, a0: Assignment,
                        target: nat, over: seq<nat>, ghost ts: seq<Tally>)
    returns (a: Assignment)
    requires C >= 1 && counts.Length == C && target == Ceil(P, C)
    requires forall c: nat :: c in over <==> c < C && counts[c] > target
    requires forall k :: 0 <= k < |over| ==> over[k] < C
    requires forall k, l :: 0 <= k < l < |over| ==> over[k] < over[l]
    requires Shedding(prev, a0, counts[..], P, C, Remaining(over, 0))
    requires ShedTrace(ts, over, P, target) && ts[0] == Tally(a0, counts[..])
    modifies counts
    ensures Shedding(prev, a, counts[..], P, C, {})
    ensures Tally(a, counts[..]) == ts[|over|]
    ensures forall q: nat :: q in a0 && !Survives(prev, C, q) ==> q in a && a[q] == a0[q]
  {
    a := a0;
    var j := 0;
    while j < |over|
      invariant j <= |over|
      invariant Tally(a, counts[..]) == ts[j]
      invariant Shedding(prev, a, counts[..], P, C, Remaining(over, j))
      invariant forall q: nat :: q in a0 && !Survives(prev, C, q) ==> q in a && a[q] == a0[q]
    {
      a := ShedNext(P, C, prev, counts, a, target, over, j, ts);
      j := j + 1;
    }
    NoneRemaining(prev, a, counts[..], P, C, over);
  }

  /** One iteration of the third pass: the consumer at position j of the
      overloaded list sheds its excess. */
  method ShedNext(P: nat, C: nat, prev: Assignment, counts: array<nat>, a0: Assignment,
                  target: nat, over: seq<nat>, j: nat, ghost ts: seq<Tally>)
    returns (a: Assignment)
    requires C >= 1 && counts.Length == C && target == Ceil(P, C) && j < |over|
    requires forall k :: 0 <= k < |over| ==> over[k] < C
    requires forall k, l :: 0 <= k < l < |over| ==> over[k] < over[l]
    requires ShedTrace(ts, over, P, target) && Tally(a0, counts[..]) == ts[j]
    requires Shedding(prev, a0, counts[..], P, C, Remaining(over, j))
    modifies counts
    ensures Tally(a, counts[..]) == ts[j + 1]
    ensures Shedding(prev, a, counts[..], P, C, Remaining(over, j + 1))
    ensures forall q: nat :: q in a0 && !Survives(prev, C, q) ==> q in a && a[q] == a0[q]
  {
    var consumer := over[j];
    ShedNextPending(prev, a0, counts[..], P, C, over, j);
    assert ts[j + 1] == ShedConsumer(ts[j], consumer, P, target);
    a := ShedExcess(P, C, prev, counts, a0, consumer, target, Remaining(over, j + 1));
  }

  /** After the second pass every orphan is placed. */
  lemma OrphansPlaced(prev: Assignment, a: Assignment, orphans: seq<nat>, counts: seq<nat>, P: nat, C: nat)
    requires C >= 1 && Placing(prev, a, orphans, counts, |orphans|, P, C)
    ensures forall q: nat :: q < P && !Survives(prev, C, q) ==> q in a
  {
    assert orphans[..|orphans|] == orphans;
  }

  // ---------------------------------------------------------------------
  // Examples

  /** With no previous assignment, two partitions and two consumers, every
      partition is an orphan: partition 0 goes to consumer 0 (both counts are
      0, the lowest index wins) and partition 1 to consumer 1 (now the only
      one with count 0). Nobody is over ceil(2 / 2) = 1, so nothing moves. */
  lemma ExampleFreshStart()
    ensures StickySpec(map[], 2, 2) == map[0 := 0, 1 := 1]
  {
    var placed := Tally(map[0 := 0, 1 := 1], [1, 1]);
    FreshPlaced();
    assert Ceil(2, 2) == 1;
    assert OverList([1, 1], 1, 2) == [];
    assert ShedOverFirst(placed, [], 2, 1, 0) == placed;
  }

  /** In that example the second pass gives partition 0 to consumer 0 and
      partition 1 to consumer 1. */
  lemma FreshPlaced()
    ensures AfterPlacing(map[], 2, 2) == Tally(map[0 := 0, 1 := 1], [1, 1])
  {
    var prev: Assignment := map[];
    var kept := Kept(prev, 2, 2);
    assert kept == map[];
    assert LoadsOf(kept, 2, 2) == [0, 0];
    var orphans := OrphanList(prev, 2, 2);
    assert OrphanList(prev, 1, 2) == [0];
    assert orphans == [0, 1];
    FreshPlaces(Tally(kept, [0, 0]), orphans);
  }

  /** Placing partitions 0 and 1 on two idle consumers. */
  lemma FreshPlaces(start: Tally, orphans: seq<nat>)
    requires start == Tally(map[], [0, 0]) && orphans == [0, 1]
    ensures PlaceFirst(start, orphans, 2) == Tally(map[0 := 0, 1 := 1], [1, 1])
  {
    assert LeastIndex([0, 0]) == 0;
    assert PlaceFirst(start, orphans, 0) == start;
    var one := PlaceFirst(start, orphans, 1);
    assert one == GiveToLeast(start, 0);
    assert [0, 0][0 := 0 + 1] == [1, 0];
    assert one == Tally(map[0 := 0], [1, 0]);
    assert LeastIndex([1, 0]) == 1;
    assert PlaceFirst(start, orphans, 2) == GiveToLeast(one, 1);
    assert [1, 0][1 := 0 + 1] == [1, 1];
  }


  /** A second consumer joins a group whose only consumer held all three
      partitions. Every partition keeps its owner in the first pass, so
      consumer 0 counts 3, over ceil(3 / 2) = 2; it keeps its first two
      partitions and hands partition 2 to consumer 1. */
  lemma ExampleConsumerJoins()
    ensures StickySpec(map[0 := 0, 1 := 0, 2 := 0], 3, 2) == map[0 := 0, 1 := 0, 2 := 1]
  {
    var prev: Assignment := map[0 := 0, 1 := 0, 2 := 0];
    var placed := Tally(prev, [3, 0]);
    JoinKeepsAll();
    assert Ceil(3, 2) == 2;
    JoinOverloaded();
    var over := OverList([3, 0], 2, 2);
    JoinSheds();
    assert ShedOverFirst(placed, over, 3, 2, 0) == placed;
  }

  /** A third consumer joins two that hold two partitions each. The target
      ceil(4 / 3) = 2 overloads nobody, so nothing moves and the new consumer
      stays idle, below floor(4 / 3) = 1: the strategy bounds loads from
      above only. */
  lemma ExampleIdleConsumer()
    ensures StickySpec(map[0 := 0, 1 := 0, 2 := 1, 3 := 1], 4, 3) == map[0 := 0, 1 := 0, 2 := 1, 3 := 1]
    ensures Load(StickySpec(map[0 := 0, 1 := 0, 2 := 1, 3 := 1], 4, 3), 4, 2) == 0
  {
    var prev: Assignment := map[0 := 0, 1 := 0, 2 := 1, 3 := 1];
    var placed := Tally(prev, [2, 2, 0]);
    IdleKeepsAll();
    assert Ceil(4, 3) == 2;
    assert OverList([2, 2, 0], 2, 1) == [] && OverList([2, 2, 0], 2, 2) == [];
    assert OverList([2, 2, 0], 2, 3) == [];
    assert ShedOverFirst(placed, [], 4, 2, 0) == placed;
    assert Load(prev, 1, 2) == 0 && Load(prev, 2, 2) == 0 && Load(prev, 3, 2) == 0;
  }

  /** In that example the first two passes keep every partition. */
  lemma IdleKeepsAll()
    ensures AfterPlacing(map[0 := 0, 1 := 0, 2 := 1, 3 := 1], 4, 3) == Tally(map[0 := 0, 1 := 0, 2 := 1, 3 := 1], [2, 2, 0])
  {
    var prev: Assignment := map[0 := 0, 1 := 0, 2 := 1, 3 := 1];
    var kept := Kept(prev, 4, 3);
    assert kept == prev;
    assert Load(kept, 1, 0) == 1 && Load(kept, 2, 0) == 2 && Load(kept, 3, 0) == 2 && Load(kept, 4, 0) == 2;
    assert Load(kept, 1, 1) == 0 && Load(kept, 2, 1) == 0 && Load(kept, 3, 1) == 1 && Load(kept, 4, 1) == 2;
    assert Load(kept, 1, 2) == 0 && Load(kept, 2, 2) == 0 && Load(kept, 3, 2) == 0 && Load(kept, 4, 2) == 0;
    assert LoadsOf(kept, 4, 3) == [2, 2, 0];
    assert OrphanList(prev, 1, 3) == [] && OrphanList(prev, 2, 3) == [] && OrphanList(prev, 3, 3) == [];
    assert OrphanList(prev, 4, 3) == [];
  }

  /** In that example the first two passes keep every partition. */
  lemma JoinKeepsAll()
    ensures AfterPlacing(map[0 := 0, 1 := 0, 2 := 0], 3, 2) == Tally(map[0 := 0, 1 := 0, 2 := 0], [3, 0])
  {
    var prev: Assignment := map[0 := 0, 1 := 0, 2 := 0];
    var kept := Kept(prev, 3, 2);
    assert kept == prev;
    assert Load(kept, 3, 0) == 3 && Load(kept, 3, 1) == 0;
    assert LoadsOf(kept, 3, 2) == [3, 0];
    assert OrphanList(prev, 1, 2) == [] && OrphanList(prev, 2, 2) == [];
    assert OrphanList(prev, 3, 2) == [];
  }

  /** In that example consumer 0 alone is over the target 2. */
  lemma JoinOverloaded()
    ensures OverList([3, 0], 2, 2) == [0]
  {
    assert OverList([3, 0], 2, 1) == [0];
  }

  /** In that example consumer 0 sheds partition 2, to consumer 1. */
  lemma JoinSheds()
    ensures ShedConsumer(Tally(map[0 := 0, 1 := 0, 2 := 0], [3, 0]), 0, 3, 2)
            == Tally(map[0 := 0, 1 := 0, 2 := 1], [2, 1])
  {
    var placed := Tally(map[0 := 0, 1 := 0, 2 := 0], [3, 0]);
    JoinExcess();
    var excess := Excess(placed.a, 3, 0, 2);
    assert LeastIndex([3, 0]) == 1;
    assert ShedFirst(placed, 0, excess, 0) == placed;
    assert ShedFirst(placed, 0, excess, 1) == MoveToLeast(placed, 0, 2);
    assert [3, 0][0 := 3 - 1][1 := 0 + 1] == [2, 1];
  }

  /** In that example consumer 0's excess is partition 2 alone. */
  lemma JoinExcess()
    ensures Excess(map[0 := 0, 1 := 0, 2 := 0], 3, 0, 2) == [2]
  {
    var prev: Assignment := map[0 := 0, 1 := 0, 2 := 0];
    assert Owned(prev, 1, 0) == [0] && Owned(prev, 2, 0) == [0, 1];
    assert Owned(prev, 3, 0) == [0, 1, 2];
  }
}
