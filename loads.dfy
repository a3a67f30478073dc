/** Partition-to-consumer assignments and how many partitions each consumer
    holds under one: the vocabulary shared by every assignment strategy. */
module Loads {

  /** partition index -> consumer index: the `assignments` object that
      `calculateAssignments` fills in. */
  type Assignment = map<nat, nat>

  /** The number of partitions below n that a gives to consumer c. */
  function Load(a: Assignment, n: nat, c: nat): nat {
    if n == 0 then 0 else Load(a, n - 1, c) + (if n - 1 in a && a[n - 1] == c then 1 else 0)
  }

  /** Exactly the partitions [0, P) are assigned, each to a consumer in [0, C). */
  ghost predicate Complete(a: Assignment, P: nat, C: nat) {
    && (forall p: nat :: p in a <==> p < P)
    && (forall p :: p in a ==> a[p] < C)
  }

  /** `groupAssignments[groupId] || {}`: a group's assignment, or the empty
      one when the group has none yet. */
  function AssignmentOf(groupAssignments: map<string, Assignment>, gid: string): (a: Assignment)
    ensures gid in groupAssignments ==> a == groupAssignments[gid]
    ensures gid !in groupAssignments ==> a == map[]
  {
    if gid in groupAssignments then groupAssignments[gid] else map[]
  }

  /** floor(P / C), plus one for each of the first P mod C consumers. */
  function FairShare(P: nat, C: nat, c: nat): nat
    requires C >= 1
  {
    P / C + (if c < P % C then 1 else 0)
  }

  /** `Math.ceil(numPartitions / numConsumers)`. */
  function Ceil(P: nat, C: nat): nat
    requires C >= 1
  {
    (P + C - 1) / C
  }

  /** C consumers holding Ceil(P, C) partitions each can hold all P of them,
      and with one fewer each they could not. */
  lemma CeilBounds(P: nat, C: nat)
    requires C >= 1
    ensures C * Ceil(P, C) >= P
    ensures Ceil(P, C) >= 1 ==> C * (Ceil(P, C) - 1) < P
  {
    var q := Ceil(P, C);
    var r := (P + C - 1) % C;
    assert P + C - 1 == C * q + r;
    if q >= 1 {
      assert C * (q - 1) == C * q - C;
    }
  }

  /** Load only grows with n, by at most one per partition. */
  lemma {:induction false} LoadMonotone(a: Assignment, m: nat, n: nat, c: nat)
    requires m <= n
    ensures Load(a, m, c) <= Load(a, n, c) <= Load(a, m, c) + (n - m)
    decreases n - m
  {
    if m < n {
      LoadMonotone(a, m, n - 1, c);
    }
  }

  /** A partition below n held by c adds one to c's load below n. */
  lemma LoadCountsOwner(a: Assignment, q: nat, n: nat, c: nat)
    requires q < n && q in a && a[q] == c
    ensures Load(a, q, c) + 1 <= Load(a, n, c)
  {
    LoadMonotone(a, q + 1, n, c);
  }

  /** Reassigning partition p < n moves one unit of load from its old owner to x. */
  lemma {:induction false} LoadUpdate(a: Assignment, n: nat, p: nat, x: nat, c: nat)
    requires p < n
    ensures Load(a[p := x], n, c)
            == Load(a, n, c) - (if p in a && a[p] == c then 1 else 0) + (if x == c then 1 else 0)
  {
    if n - 1 == p {
      LoadUnchangedBelow(a, p, x, c, p);
    } else {
      LoadUpdate(a, n - 1, p, x, c);
    }
  }

  /** Changing partition p does not change any load below p. */
  lemma {:induction false} LoadUnchangedBelow(a: Assignment, p: nat, x: nat, c: nat, n: nat)
    requires n <= p
    ensures Load(a[p := x], n, c) == Load(a, n, c)
  {
    if n > 0 {
      LoadUnchangedBelow(a, p, x, c, n - 1);
    }
  }

  /** Two assignments that give consumer c the same partitions below n give it
      the same load. */
  lemma {:induction false} LoadAgree(a: Assignment, b: Assignment, n: nat, c: nat)
    requires forall q :: q < n ==> ((q in a && a[q] == c) <==> (q in b && b[q] == c))
    ensures Load(a, n, c) == Load(b, n, c)
  {
    if n > 0 {
      LoadAgree(a, b, n - 1, c);
    }
  }

  /** If every partition b gives c below n is also given to c by a, a's load is
      at least b's. */
  lemma {:induction false} LoadSubsumed(b: Assignment, a: Assignment, n: nat, c: nat)
    requires forall q :: q < n && q in b && b[q] == c ==> q in a && a[q] == c
    ensures Load(b, n, c) <= Load(a, n, c)
  {
    if n > 0 {
      LoadSubsumed(b, a, n - 1, c);
    }
  }

  /** When c holds exactly the partitions of [lo, hi) below n, its load is the
      size of that interval cut off at n. */
  lemma {:induction false} LoadInterval(a: Assignment, n: nat, c: nat, lo: nat, hi: nat)
    requires lo <= hi
    requires forall q :: q < n ==> ((q in a && a[q] == c) <==> lo <= q < hi)
    ensures Load(a, n, c) == if n <= lo then 0 else if n <= hi then n - lo else hi - lo
  {
    if n > 0 {
      LoadInterval(a, n - 1, c, lo, hi);
    }
  }

  /** The sum of a sequence of counts. */
  function Sum(s: seq<nat>): nat {
    if s == [] then 0 else Sum(s[..|s| - 1]) + s[|s| - 1]
  }

  /** Counts that are all zero add up to zero. */
  lemma {:induction false} SumZeros(s: seq<nat>)
    requires forall i :: 0 <= i < |s| ==> s[i] == 0
    ensures Sum(s) == 0
  {
    if s != [] {
      SumZeros(s[..|s| - 1]);
    }
  }

  /** Replacing one count changes the sum by the difference. */
  lemma {:induction false} SumUpdate(s: seq<nat>, i: nat, x: nat)
    requires i < |s|
    ensures Sum(s[i := x]) == Sum(s) - s[i] + x
  {
    var last := |s| - 1;
    if i == last {
      assert s[i := x][..last] == s[..last];
    } else {
      assert s[i := x][..last] == s[..last][i := x];
      SumUpdate(s[..last], i, x);
    }
  }

  /** If every count is at least m, the sum is at least |s| * m. */
  lemma {:induction false} SumAtLeast(s: seq<nat>, m: nat)
    requires forall i :: 0 <= i < |s| ==> s[i] >= m
    ensures Sum(s) >= |s| * m
  {
    if s != [] {
      SumAtLeast(s[..|s| - 1], m);
      assert |s| * m == (|s| - 1) * m + m;
    }
  }

  /** Pigeonhole: if the counts add up to at most |s| * m and one of them is
      above m, then some other count is below m. */
  lemma SomeBelow(s: seq<nat>, m: nat, c: nat)
    requires c < |s| && s[c] > m
    requires Sum(s) <= |s| * m
    ensures exists u :: 0 <= u < |s| && u != c && s[u] < m
  {
    if forall u :: 0 <= u < |s| && u != c ==> s[u] >= m {
      var t := s[c := m];
      SumUpdate(s, c, m);
      SumAtLeast(t, m);
      assert false;
    }
  }

  /** If the counts add up to less than |s| * m, the smallest is below m. */
  lemma MinBelow(s: seq<nat>, m: nat, u: nat)
    requires u < |s| && forall i :: 0 <= i < |s| ==> s[u] <= s[i]
    requires Sum(s) < |s| * m
    ensures s[u] < m
  {
    if s[u] >= m {
      SumAtLeast(s, m);
    }
  }

  /** `s.indexOf(Math.min(...s))`: the lowest index among those holding the
      smallest count (LeastIndexIsLeast). */
  function LeastIndex(s: seq<int>): (m: nat)
    requires |s| >= 1
    ensures m < |s|
  {
    LeastFrom(s, 1, 0)
  }

  /** The left-to-right scan behind LeastIndex, from index i on, with m the
      best index so far: it moves only to a strictly smaller count. */
  function LeastFrom(s: seq<int>, i: nat, m: nat): (r: nat)
    requires m < |s|
    ensures r < |s|
    decreases |s| - i
  {
    if i >= |s| then m else LeastFrom(s, i + 1, if s[i] < s[m] then i else m)
  }

  /** If m is the lowest index of a smallest count below i, the scan from i
      ends at the lowest index of a smallest count of all of s. */
  lemma {:induction false} LeastFromIsLeast(s: seq<int>, i: nat, m: nat)
    requires m < i <= |s|
    requires forall c :: 0 <= c < i ==> s[m] <= s[c]
    requires forall c :: 0 <= c < m ==> s[c] > s[m]
    ensures forall c :: 0 <= c < |s| ==> s[LeastFrom(s, i, m)] <= s[c]
    ensures forall c :: 0 <= c < LeastFrom(s, i, m) ==> s[c] > s[LeastFrom(s, i, m)]
    decreases |s| - i
  {
    if i < |s| {
      LeastFromIsLeast(s, i + 1, if s[i] < s[m] then i else m);
    }
  }

  /** LeastIndex picks a smallest count, and no lower index holds one. */
  lemma LeastIndexIsLeast(s: seq<int>)
    requires |s| >= 1
    ensures forall c :: 0 <= c < |s| ==> s[LeastIndex(s)] <= s[c]
    ensures forall c :: 0 <= c < LeastIndex(s) ==> s[c] > s[LeastIndex(s)]
  {
    LeastFromIsLeast(s, 1, 0);
  }

  /** `consumerPartitionCounts.indexOf(Math.min(...consumerPartitionCounts))`:
      the lowest-indexed consumer among those holding the fewest partitions. */
  method LeastLoaded(counts: array<nat>) returns (m: nat)
    requires counts.Length >= 1
    ensures m == LeastIndex(counts[..])
    ensures m < counts.Length
    ensures forall c :: 0 <= c < counts.Length ==> counts[m] <= counts[c]
    ensures forall c :: 0 <= c < m ==> counts[c] > counts[m]
  {
    m := 0;
    var c := 1;
    while c < counts.Length
      invariant 1 <= c <= counts.Length
      invariant m < c
      invariant LeastFrom(counts[..], c, m) == LeastIndex(counts[..])
    {
      if counts[c] < counts[m] {
        m := c;
      }
      c := c + 1;
    }
    LeastIndexIsLeast(counts[..]);
  }
}
