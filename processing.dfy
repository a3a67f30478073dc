/** The once-a-second processing pass. Group by group, partition by
    partition, each group takes the candidates of a partition it has
    consumers for, works out how many of them it processes this second,
    marks that many of them oldest first in a working copy of the buffer,
    advances its offset for that partition by one per marked message, and,
    for the first group, records the partition's lag.

    The pass is specified by functions on values (`ProcessPartition`,
    `SweepPartitions`, `SweepGroups`, `Tick`) and carried out by methods that
    update an array in place, as the source updates its `newMessages` copy. */
module Processing {
  import opened Loads
  import opened Messages

  /** Offsets per (group id, partition): `groupOffsets[groupId][p]`. */
  type Offsets = map<(string, nat), nat>

  /** `groupOffsets[g]?.[p] || 0`. */
  function Offset(offsets: Offsets, gid: string, p: nat): nat {
    if (gid, p) in offsets then offsets[(gid, p)] else 0
  }

  /** The offsets after group gid's offset for p advanced by n. */
  function Bumped(offsets: Offsets, gid: string, p: nat, n: nat): Offsets {
    if n > 0 then offsets[(gid, p) := Offset(offsets, gid, p) + n] else offsets
  }

  /** The working state of one pass: the buffer copy, the offsets and the
      lag table of the first group (`lagData`, partition -> count). */
  datatype TickState = TickState(msgs: seq<Message>, offsets: Offsets, lag: map<nat, int>)

  // ---------------------------------------------------------------------
  // Marking

  /** The message after group gid processes it at time now: the group is
      recorded, and `processedAt` is set unless some group got there first. */
  function Mark(m: Message, gid: string, now: int): Message {
    m.(processedBy := m.processedBy + {gid},
       processedAt := if m.processedAt.Some? then m.processedAt else Some(now))
  }

  /** The ids of a sequence of messages. */
  function IdsOf(s: seq<Message>): set<nat> {
    set m | m in s :: m.id
  }

  /** Every message whose id is in ids, marked as processed by gid. */
  function MarkWhere(msgs: seq<Message>, ids: set<nat>, gid: string, now: int): seq<Message> {
    seq(|msgs|, i requires 0 <= i < |msgs| => if msgs[i].id in ids then Mark(msgs[i], gid, now) else msgs[i])
  }

  /** b is a later state of a: everything the producer set is the same,
      groups are only ever added to `processedBy`, and a set `processedAt`
      is never changed. */
  predicate Evolves(a: Message, b: Message) {
    && b.id == a.id && b.globalOrder == a.globalOrder && b.offset == a.offset
    && b.key == a.key && b.data == a.data && b.partition == a.partition
    && b.timestamp == a.timestamp
    && a.processedBy <= b.processedBy
    && (a.processedAt.Some? ==> b.processedAt == a.processedAt)
  }

  /** Position by position, t is a later state of s. */
  ghost predicate EvolvesAll(s: seq<Message>, t: seq<Message>) {
    |s| == |t| && forall i :: 0 <= i < |s| ==> Evolves(s[i], t[i])
  }

  /** A later state of a later state is a later state. */
  lemma EvolvesAllTrans(s: seq<Message>, t: seq<Message>, u: seq<Message>)
    requires EvolvesAll(s, t) && EvolvesAll(t, u)
    ensures EvolvesAll(s, u)
  {
  }

  /** Evolving keeps ids where they are, so it keeps them unique. */
  lemma EvolvesKeepsUnique(s: seq<Message>, t: seq<Message>)
    requires EvolvesAll(s, t) && UniqueIds(s)
    ensures UniqueIds(t)
  {
    forall i, j | 0 <= i < |t| && 0 <= j < |t| && t[i].id == t[j].id
      ensures i == j
    {
      assert s[i].id == s[j].id;
    }
  }

  /** Marking evolves every message, marks exactly the messages whose ids
      are in ids, and leaves every other message as it was. */
  lemma MarkWhereEvolves(msgs: seq<Message>, ids: set<nat>, gid: string, now: int)
    ensures EvolvesAll(msgs, MarkWhere(msgs, ids, gid, now))
    ensures forall i :: 0 <= i < |msgs| && msgs[i].id !in ids ==> MarkWhere(msgs, ids, gid, now)[i] == msgs[i]
    ensures forall i :: 0 <= i < |msgs| && msgs[i].id in ids ==>
              gid in MarkWhere(msgs, ids, gid, now)[i].processedBy
              && MarkWhere(msgs, ids, gid, now)[i].processedAt.Some?
  {
  }

  // ---------------------------------------------------------------------
  // The specification of one pass

  /** The first min(k, |c|) candidates, oldest first. */
  function Oldest(c: seq<Message>, k: nat): (o: seq<Message>)
    ensures |o| == Min(k, |c|)
  {
    SortByTime(c)[..Min(k, |c|)]
  }

  /** How many messages group g asks to process in partition p. */
  function Wanted(msgs: seq<Message>, g: Group, p: nat, rateTenths: nat): nat {
    ToProcess(|Candidates(msgs, g, p)|, rateTenths, MultiplierTenths(g))
  }

  /** Group g's turn at partition p. */
  function ProcessPartition(t: TickState, g: Group, firstId: string, p: nat, rateTenths: nat, now: int): TickState {
    var c := Candidates(t.msgs, g, p);
    var k := Wanted(t.msgs, g, p, rateTenths);
    var chosen := Oldest(c, k);
    TickState(
      MarkWhere(t.msgs, IdsOf(chosen), g.id, now),
      Bumped(t.offsets, g.id, p, |chosen|),
      if g.id == firstId then t.lag[p := |c| - k] else t.lag)
  }

  /** Group g's turns at partitions 0 .. n-1, skipping partitions its
      assignment does not mention. */
  function SweepPartitions(t: TickState, g: Group, asg: Assignment, firstId: string, n: nat, rateTenths: nat, now: int): TickState {
    if n == 0 then t
    else
      var t' := SweepPartitions(t, g, asg, firstId, n - 1, rateTenths, now);
      if n - 1 in asg then ProcessPartition(t', g, firstId, n - 1, rateTenths, now) else t'
  }

  /** The groups' turns, in order, each over partitions 0 .. P-1. */
  function SweepGroups(t: TickState, groups: seq<Group>, groupAssignments: map<string, Assignment>,
                       firstId: string, P: nat, rateTenths: nat, now: int): TickState
  {
    if groups == [] then t
    else
      var t' := SweepGroups(t, groups[..|groups| - 1], groupAssignments, firstId, P, rateTenths, now);
      var g := groups[|groups| - 1];
      SweepPartitions(t', g, AssignmentOf(groupAssignments, g.id), firstId, P, rateTenths, now)
  }

  /** One whole pass over the buffer: a fresh lag table, the offsets kept. */
  function Tick(msgs: seq<Message>, offsets: Offsets, groups: seq<Group>, groupAssignments: map<string, Assignment>,
                P: nat, rateTenths: nat, now: int): TickState
  {
    var firstId := if groups == [] then "" else groups[0].id;
    SweepGroups(TickState(msgs, offsets, map[]), groups, groupAssignments, firstId, P, rateTenths, now)
  }

  // ---------------------------------------------------------------------
  // Properties of one turn

  /** The chosen messages are candidates. */
  lemma OldestSubset(c: seq<Message>, k: nat)
    ensures forall m :: m in Oldest(c, k) ==> m in c
  {
    var s := SortByTime(c);
    SortSorted(c);
    forall m | m in Oldest(c, k)
      ensures m in c
    {
      assert m in s;
      assert m in multiset(s);
    }
  }

  /** Sorting keeps ids unique, so the chosen messages have unique ids. */
  lemma OldestUnique(c: seq<Message>, k: nat)
    requires UniqueIds(c)
    ensures UniqueIds(Oldest(c, k))
  {
    var s := SortByTime(c);
    SortUnique(c);
    var o := Oldest(c, k);
    forall i, j | 0 <= i < |o| && 0 <= j < |o| && o[i].id == o[j].id
      ensures i == j
    {
      assert o[i] == s[i] && o[j] == s[j];
    }
  }

  /** Every candidate not chosen comes at or after every chosen one in time. */
  lemma OldestFirst(c: seq<Message>, k: nat)
    ensures forall m, x :: m in Oldest(c, k) && x in c && x.id !in IdsOf(Oldest(c, k)) ==> m.timestamp <= x.timestamp
  {
    var s := SortByTime(c);
    SortSorted(c);
    var o := Oldest(c, k);
    var n := Min(k, |c|);
    forall m, x | m in o && x in c && x.id !in IdsOf(o)
      ensures m.timestamp <= x.timestamp
    {
      assert x in multiset(s);
      var i :| 0 <= i < n && s[i] == m;
      var j :| 0 <= j < |s| && s[j] == x;
      assert forall q :: 0 <= q < n ==> s[q] in o;
    }
  }

  /** In a buffer with unique ids, a message whose id some chosen candidate
      has is that very candidate. */
  lemma IdPinsMessage(msgs: seq<Message>, o: seq<Message>, i: int)
    requires UniqueIds(msgs) && 0 <= i < |msgs|
    requires forall m :: m in o ==> m in msgs
    requires msgs[i].id in IdsOf(o)
    ensures msgs[i] in o
  {
    var m :| m in o && m.id == msgs[i].id;
    var j :| 0 <= j < |msgs| && msgs[j] == m;
  }

  /** A turn evolves the buffer and keeps its ids unique. */
  lemma ProcessPartitionEvolves(t: TickState, g: Group, firstId: string, p: nat, rateTenths: nat, now: int)
    requires UniqueIds(t.msgs)
    ensures EvolvesAll(t.msgs, ProcessPartition(t, g, firstId, p, rateTenths, now).msgs)
    ensures UniqueIds(ProcessPartition(t, g, firstId, p, rateTenths, now).msgs)
  {
    var o := Oldest(Candidates(t.msgs, g, p), Wanted(t.msgs, g, p, rateTenths));
    MarkWhereEvolves(t.msgs, IdsOf(o), g.id, now);
    EvolvesKeepsUnique(t.msgs, MarkWhere(t.msgs, IdsOf(o), g.id, now));
  }
  /** A buffer that evolved into t.msgs evolves further into the buffer after
      one partition's turn. */
  lemma ProcessPartitionEvolvesFrom(s: seq<Message>, t: TickState, g: Group, firstId: string, p: nat, rateTenths: nat, now: int)
    requires EvolvesAll(s, t.msgs) && UniqueIds(t.msgs)
    ensures var r := ProcessPartition(t, g, firstId, p, rateTenths, now);
            EvolvesAll(s, r.msgs) && UniqueIds(r.msgs)
  {
    ProcessPartitionEvolves(t, g, firstId, p, rateTenths, now);
    EvolvesAllTrans(s, t.msgs, ProcessPartition(t, g, firstId, p, rateTenths, now).msgs);
  }


  /** A turn touches only candidates: messages of other partitions,
      messages the group has already processed and messages its filter
      rejects stay exactly as they were. */
  lemma ProcessPartitionFrame(t: TickState, g: Group, firstId: string, p: nat, rateTenths: nat, now: int)
    requires UniqueIds(t.msgs)
    ensures forall i :: 0 <= i < |t.msgs| && !IsCandidate(t.msgs[i], g, p) ==>
              ProcessPartition(t, g, firstId, p, rateTenths, now).msgs[i] == t.msgs[i]
  {
    var c := Candidates(t.msgs, g, p);
    var o := Oldest(c, Wanted(t.msgs, g, p, rateTenths));
    var r := ProcessPartition(t, g, firstId, p, rateTenths, now);
    OldestSubset(c, Wanted(t.msgs, g, p, rateTenths));
    MarkWhereEvolves(t.msgs, IdsOf(o), g.id, now);
    forall i | 0 <= i < |t.msgs| && !IsCandidate(t.msgs[i], g, p)
      ensures r.msgs[i] == t.msgs[i]
    {
      if t.msgs[i].id in IdsOf(o) {
        IdPinsMessage(t.msgs, o, i);
      }
    }
  }

  /** The ids of the messages at positions where g appears in the
      processing marks of after but not of before. */
  function NewlyProcessed(before: seq<Message>, after: seq<Message>, gid: string): set<nat>
    requires |before| == |after|
  {
    set i | 0 <= i < |before| && gid !in before[i].processedBy && gid in after[i].processedBy :: before[i].id
  }

  /** Distinct ids make the id set as large as the sequence. */
  lemma {:induction false} IdsOfSize(s: seq<Message>)
    requires UniqueIds(s)
    ensures |IdsOf(s)| == |s|
  {
    if s != [] {
      var front := s[..|s| - 1];
      UniqueIdsFront(s);
      IdsOfSize(front);
      assert s == front + [s[|s| - 1]];
      assert IdsOf(s) == IdsOf(front) + {s[|s| - 1].id};
    }
  }

  /** The group's offset for p advances by exactly the number of messages
      it newly processed there, which is min(k, |candidates|); no other
      offset moves. */
  lemma ProcessPartitionCount(t: TickState, g: Group, firstId: string, p: nat, rateTenths: nat, now: int)
    requires UniqueIds(t.msgs)
    ensures var r := ProcessPartition(t, g, firstId, p, rateTenths, now);
            var n := Min(Wanted(t.msgs, g, p, rateTenths), |Candidates(t.msgs, g, p)|);
            && |r.msgs| == |t.msgs|
            && |NewlyProcessed(t.msgs, r.msgs, g.id)| == n
            && Offset(r.offsets, g.id, p) == Offset(t.offsets, g.id, p) + n
            && forall h, q: nat :: (h, q) != (g.id, p) ==> Offset(r.offsets, h, q) == Offset(t.offsets, h, q)
  {
    var c := Candidates(t.msgs, g, p);
    var k := Wanted(t.msgs, g, p, rateTenths);
    var o := Oldest(c, k);
    var r := ProcessPartition(t, g, firstId, p, rateTenths, now);
    OldestSubset(c, k);
    OldestUnique(c, k);
    MarkWhereEvolves(t.msgs, IdsOf(o), g.id, now);
    var np := NewlyProcessed(t.msgs, r.msgs, g.id);
    forall x | x in np
      ensures x in IdsOf(o)
    {
      var i :| 0 <= i < |t.msgs| && g.id !in t.msgs[i].processedBy && g.id in r.msgs[i].processedBy && t.msgs[i].id == x;
    }
    forall x | x in IdsOf(o)
      ensures x in np
    {
      var m :| m in o && m.id == x;
      var i :| 0 <= i < |t.msgs| && t.msgs[i] == m;
    }
    assert np == IdsOf(o);
    IdsOfSize(o);
  }

  /** Oldest first: every message newly processed in a turn is no younger
      than any candidate the group leaves for later. */
  lemma ProcessPartitionOldestFirst(t: TickState, g: Group, firstId: string, p: nat, rateTenths: nat, now: int)
    requires UniqueIds(t.msgs)
    ensures var r := ProcessPartition(t, g, firstId, p, rateTenths, now);
            forall i, j :: 0 <= i < |t.msgs| && 0 <= j < |t.msgs|
              && g.id !in t.msgs[i].processedBy && g.id in r.msgs[i].processedBy
              && IsCandidate(t.msgs[j], g, p) && g.id !in r.msgs[j].processedBy
              ==> t.msgs[i].timestamp <= t.msgs[j].timestamp
  {
    var c := Candidates(t.msgs, g, p);
    var k := Wanted(t.msgs, g, p, rateTenths);
    var o := Oldest(c, k);
    var r := ProcessPartition(t, g, firstId, p, rateTenths, now);
    OldestSubset(c, k);
    OldestFirst(c, k);
    MarkWhereEvolves(t.msgs, IdsOf(o), g.id, now);
    forall i, j | 0 <= i < |t.msgs| && 0 <= j < |t.msgs|
      && g.id !in t.msgs[i].processedBy && g.id in r.msgs[i].processedBy
      && IsCandidate(t.msgs[j], g, p) && g.id !in r.msgs[j].processedBy
      ensures t.msgs[i].timestamp <= t.msgs[j].timestamp
    {
      IdPinsMessage(t.msgs, o, i);
      assert t.msgs[j] in c;
    }
  }

  /** A buffer holding no candidate yields none. */
  lemma {:induction false} CandidatesNone(msgs: seq<Message>, g: Group, p: nat)
    requires forall i :: 0 <= i < |msgs| ==> !IsCandidate(msgs[i], g, p)
    ensures Candidates(msgs, g, p) == []
  {
    if msgs != [] {
      CandidatesNone(msgs[..|msgs| - 1], g, p);
    }
  }

  /** At or below an effective rate of 1 a group never asks for more than it
      has. */
  lemma ToProcessSlow(n: nat, rateTenths: nat, multTenths: nat)
    requires rateTenths * multTenths <= 100
    ensures ToProcess(n, rateTenths, multTenths) <= n
  {
    var k := ToProcess(n, rateTenths, multTenths);
    assert n * rateTenths * multTenths == n * (rateTenths * multTenths) <= n * 100;
  }

  /** At or above an effective rate of 1 a group asks for its n candidates
      and floor(n * (rate * multiplier - 100) / 100) more. */
  lemma ToProcessFast(n: nat, rateTenths: nat, multTenths: nat)
    requires rateTenths * multTenths >= 100
    ensures ToProcess(n, rateTenths, multTenths) == n + (n * (rateTenths * multTenths - 100)) / 100
    ensures ToProcess(n, rateTenths, multTenths) >= n
  {
    var k := ToProcess(n, rateTenths, multTenths);
    var e := n * (rateTenths * multTenths - 100);
    var K := n + e / 100;
    assert n * rateTenths * multTenths == 100 * n + e;
    assert e == 100 * (e / 100) + e % 100;
    assert K * 100 <= 100 * n + e < (K + 1) * 100;
  }

  /** Taking k >= |c| oldest candidates takes every one of them. */
  lemma OldestAll(c: seq<Message>, k: nat)
    requires k >= |c|
    ensures forall x :: x in c ==> x.id in IdsOf(Oldest(c, k))
  {
    SortSorted(c);
    assert Oldest(c, k) == SortByTime(c);
    forall x | x in c
      ensures x.id in IdsOf(Oldest(c, k))
    {
      assert x in multiset(SortByTime(c));
    }
  }

  /** Marking every candidate's id leaves no candidate behind. */
  lemma MarkAllCandidates(msgs: seq<Message>, ids: set<nat>, g: Group, p: nat, now: int)
    requires forall i :: 0 <= i < |msgs| && IsCandidate(msgs[i], g, p) ==> msgs[i].id in ids
    ensures Candidates(MarkWhere(msgs, ids, g.id, now), g, p) == []
  {
    var marked := MarkWhere(msgs, ids, g.id, now);
    MarkWhereEvolves(msgs, ids, g.id, now);
    forall i | 0 <= i < |marked|
      ensures !IsCandidate(marked[i], g, p)
    {
      assert msgs[i].id !in ids ==> marked[i] == msgs[i];
    }
    CandidatesNone(marked, g, p);
  }

  /** At an effective rate of at least 1 a group clears its partition: no
      candidate is left for it afterwards. */
  lemma ProcessPartitionDrains(t: TickState, g: Group, firstId: string, p: nat, rateTenths: nat, now: int)
    requires rateTenths * MultiplierTenths(g) >= 100
    ensures Candidates(ProcessPartition(t, g, firstId, p, rateTenths, now).msgs, g, p) == []
  {
    var c := Candidates(t.msgs, g, p);
    var k := Wanted(t.msgs, g, p, rateTenths);
    ToProcessFast(|c|, rateTenths, MultiplierTenths(g));
    OldestAll(c, k);
    var ids := IdsOf(Oldest(c, k));
    forall i | 0 <= i < |t.msgs| && IsCandidate(t.msgs[i], g, p)
      ensures t.msgs[i].id in ids
    {
      assert t.msgs[i] in c;
    }
    MarkAllCandidates(t.msgs, ids, g, p, now);
  }

  /** The lag recorded for the first group is |candidates| - k. Up to an
      effective rate of 1 it lies between 0 and the number of candidates;
      above it the lag is -floor(n * (rate * multiplier - 100) / 100), which
      is negative once n * (rate * multiplier - 100) >= 100. */
  lemma LagBounds(n: nat, rateTenths: nat, multTenths: nat)
    ensures var lag := n - ToProcess(n, rateTenths, multTenths);
            && (rateTenths * multTenths <= 100 ==> 0 <= lag <= n)
            && (rateTenths * multTenths >= 100 ==>
                  lag == -((n * (rateTenths * multTenths - 100)) / 100)
                  && (lag < 0 <==> n * (rateTenths * multTenths - 100) >= 100))
  {
    if rateTenths * multTenths <= 100 {
      ToProcessSlow(n, rateTenths, multTenths);
    }
    if rateTenths * multTenths >= 100 {
      ToProcessFast(n, rateTenths, multTenths);
    }
  }

  /** The lag table changes only for the first group, at p. */
  lemma ProcessPartitionLag(t: TickState, g: Group, firstId: string, p: nat, rateTenths: nat, now: int)
    ensures var r := ProcessPartition(t, g, firstId, p, rateTenths, now);
            var n := |Candidates(t.msgs, g, p)|;
            && (g.id == firstId ==> p in r.lag && r.lag[p] == n - ToProcess(n, rateTenths, MultiplierTenths(g))
                                    && forall q :: q != p && q in t.lag ==> q in r.lag && r.lag[q] == t.lag[q])
            && (g.id != firstId ==> r.lag == t.lag)
  {
  }

  // ---------------------------------------------------------------------
  // Properties of whole sweeps

  /** A group's sweep evolves the buffer and keeps ids unique. */
  lemma {:induction false} SweepPartitionsEvolves(t: TickState, g: Group, asg: Assignment, firstId: string, n: nat, rateTenths: nat, now: int)
    requires UniqueIds(t.msgs)
    ensures var r := SweepPartitions(t, g, asg, firstId, n, rateTenths, now);
            EvolvesAll(t.msgs, r.msgs) && UniqueIds(r.msgs)
  {
    if n > 0 {
      var t' := SweepPartitions(t, g, asg, firstId, n - 1, rateTenths, now);
      SweepPartitionsEvolves(t, g, asg, firstId, n - 1, rateTenths, now);
      if n - 1 in asg {
        ProcessPartitionEvolvesFrom(t.msgs, t', g, firstId, n - 1, rateTenths, now);
      }
    }
  }

  /** A group's sweep leaves a message of a partition outside its
      assignment (or at or above n) exactly as it was. */
  lemma {:induction false} SweepPartitionsFrame(t: TickState, g: Group, asg: Assignment, firstId: string, n: nat,
                                                rateTenths: nat, now: int, i: nat)
    requires UniqueIds(t.msgs) && i < |t.msgs|
    requires t.msgs[i].partition !in asg || t.msgs[i].partition >= n
    ensures var r := SweepPartitions(t, g, asg, firstId, n, rateTenths, now);
            |r.msgs| == |t.msgs| && r.msgs[i] == t.msgs[i]
  {
    if n > 0 {
      var t' := SweepPartitions(t, g, asg, firstId, n - 1, rateTenths, now);
      SweepPartitionsFrame(t, g, asg, firstId, n - 1, rateTenths, now, i);
      if n - 1 in asg {
        SweepPartitionsEvolves(t, g, asg, firstId, n - 1, rateTenths, now);
        assert !IsCandidate(t'.msgs[i], g, n - 1);
        ProcessPartitionFrame(t', g, firstId, n - 1, rateTenths, now);
      }
    }
  }

  /** A whole pass evolves the buffer: nothing the producer set changes,
      groups are only added to `processedBy`, and the first `processedAt`
      stays; ids stay unique. */
  lemma {:induction false} SweepGroupsEvolves(t: TickState, groups: seq<Group>, groupAssignments: map<string, Assignment>,
                                              firstId: string, P: nat, rateTenths: nat, now: int)
    requires UniqueIds(t.msgs)
    ensures var r := SweepGroups(t, groups, groupAssignments, firstId, P, rateTenths, now);
            EvolvesAll(t.msgs, r.msgs) && UniqueIds(r.msgs)
  {
    if groups != [] {
      var t' := SweepGroups(t, groups[..|groups| - 1], groupAssignments, firstId, P, rateTenths, now);
      SweepGroupsEvolves(t, groups[..|groups| - 1], groupAssignments, firstId, P, rateTenths, now);
      var g := groups[|groups| - 1];
      SweepPartitionsEvolves(t', g, AssignmentOf(groupAssignments, g.id), firstId, P, rateTenths, now);
      EvolvesAllTrans(t.msgs, t'.msgs, SweepGroups(t, groups, groupAssignments, firstId, P, rateTenths, now).msgs);
    }
  }

  /** A group without an assignment processes nothing: its sweep changes
      nothing at all. */
  lemma {:induction false} SweepUnassigned(t: TickState, g: Group, firstId: string, n: nat, rateTenths: nat, now: int)
    ensures SweepPartitions(t, g, map[], firstId, n, rateTenths, now) == t
  {
    if n > 0 {
      SweepUnassigned(t, g, firstId, n - 1, rateTenths, now);
    }
  }

  // ---------------------------------------------------------------------
  // The pass, in place

  /** `newMessages.findIndex(msg => msg.id === id)`: the first position
      holding id, or -1. */
  method FindIndex(arr: array<Message>, id: nat) returns (idx: int)
    ensures -1 <= idx < arr.Length
    ensures idx == -1 <==> forall i :: 0 <= i < arr.Length ==> arr[i].id != id
    ensures idx >= 0 ==> arr[idx].id == id && forall i :: 0 <= i < idx ==> arr[i].id != id
  {
    idx := 0;
    while idx < arr.Length
      invariant 0 <= idx <= arr.Length
      invariant forall i :: 0 <= i < idx ==> arr[i].id != id
    {
      if arr[idx].id == id {
        return;
      }
      idx := idx + 1;
    }
    idx := -1;
  }

  /** Marking one more message, whose id is new to the marked set, extends
      the marked set by its id. */
  lemma MarkOneMore(start: seq<Message>, cur: seq<Message>, ids: set<nat>, gid: string, now: int, j: nat)
    requires UniqueIds(start) && cur == MarkWhere(start, ids, gid, now)
    requires j < |start| && start[j].id !in ids
    ensures cur[j := Mark(cur[j], gid, now)] == MarkWhere(start, ids + {start[j].id}, gid, now)
  {
    var a := cur[j := Mark(cur[j], gid, now)];
    var b := MarkWhere(start, ids + {start[j].id}, gid, now);
    forall i | 0 <= i < |start|
      ensures a[i] == b[i]
    {
      if i != j {
        assert start[i].id != start[j].id;
      }
    }
  }

  /** The ids of a prefix one longer. */
  lemma IdsOfExtend(s: seq<Message>, i: nat)
    requires i < |s|
    ensures IdsOf(s[..i + 1]) == IdsOf(s[..i]) + {s[i].id}
  {
    assert s[..i + 1] == s[..i] + [s[i]];
  }

  /** Advancing an offset by one more. */
  lemma BumpedOneMore(offsets: Offsets, gid: string, p: nat, n: nat)
    ensures Bumped(offsets, gid, p, n + 1)
            == Bumped(offsets, gid, p, n)[(gid, p) := Offset(Bumped(offsets, gid, p, n), gid, p) + 1]
  {
  }

  /** The marking loop after its first n marks: the buffer has the first n
      sorted candidates marked, and the offset has advanced by n. */
  ghost predicate MarkedSoFar(cur: seq<Message>, offs: Offsets, start: seq<Message>, sorted: seq<Message>, n: nat,
                              offsets: Offsets, gid: string, p: nat, now: int)
    requires n <= |sorted|
  {
    cur == MarkWhere(start, IdsOf(sorted[..n]), gid, now) && offs == Bumped(offsets, gid, p, n)
  }

  /** One round of the marking loop: the i-th sorted candidate sits at a
      single position j of the buffer, and marking it there and bumping the
      offset extends the loop's state by one. */
  lemma MarkStep(cur: seq<Message>, offs: Offsets, start: seq<Message>, sorted: seq<Message>, i: nat,
                 offsets: Offsets, gid: string, p: nat, now: int) returns (j: nat)
    requires UniqueIds(start) && UniqueIds(sorted) && forall m :: m in sorted ==> m in start
    requires i < |sorted| && MarkedSoFar(cur, offs, start, sorted, i, offsets, gid, p, now)
    ensures j < |cur| && cur[j].id == sorted[i].id
    ensures forall q :: 0 <= q < |cur| && cur[q].id == sorted[i].id ==> q == j
    ensures MarkedSoFar(cur[j := Mark(cur[j], gid, now)], offs[(gid, p) := Offset(offs, gid, p) + 1],
                        start, sorted, i + 1, offsets, gid, p, now)
  {
    var m := sorted[i];
    var ids := IdsOf(sorted[..i]);
    assert m in sorted;
    j :| 0 <= j < |start| && start[j] == m;
    forall x | x in sorted[..i]
      ensures x.id != m.id
    {
      var q :| 0 <= q < i && sorted[q] == x;
    }
    MarkWhereEvolves(start, ids, gid, now);
    EvolvesKeepsUnique(start, cur);
    MarkOneMore(start, cur, ids, gid, now, j);
    IdsOfExtend(sorted, i);
    BumpedOneMore(offsets, gid, p, i);
  }

  /** What the marking loop relies on: the sorted candidates are as many
      as the candidates, have distinct ids and all come from the buffer. */
  lemma SortedCandidates(msgs: seq<Message>, g: Group, p: nat)
    requires UniqueIds(msgs)
    ensures var sorted := SortByTime(Candidates(msgs, g, p));
            && |sorted| == |Candidates(msgs, g, p)|
            && UniqueIds(sorted)
            && forall m :: m in sorted ==> m in msgs
  {
    var c := Candidates(msgs, g, p);
    SortSorted(c);
    SortUnique(c);
  }

  /** The marking loop of `tick`: for i below k, look the i-th sorted
      candidate up by id in the working copy and mark it, bumping the
      group's offset for p each time. Past the end of the sorted candidates
      the source looks up `undefined`, finds nothing and does nothing. */
  method MarkOldest(newMessages: array<Message>, sortedMessages: seq<Message>, messagesToProcess: nat,
                    offsets: Offsets, gid: string, p: nat, now: int)
    returns (offsets': Offsets)
    modifies newMessages
    requires UniqueIds(newMessages[..]) && UniqueIds(sortedMessages)
    requires forall m :: m in sortedMessages ==> m in newMessages[..]
    ensures newMessages[..]
            == MarkWhere(old(newMessages[..]), IdsOf(sortedMessages[..Min(messagesToProcess, |sortedMessages|)]), gid, now)
    ensures offsets' == Bumped(offsets, gid, p, Min(messagesToProcess, |sortedMessages|))
  {
    ghost var start := newMessages[..];
    offsets' := offsets;
    var i := 0;
    while i < messagesToProcess
      invariant i <= messagesToProcess
      invariant MarkedSoFar(newMessages[..], offsets', start, sortedMessages, Min(i, |sortedMessages|), offsets, gid, p, now)
    {
      if i < |sortedMessages| {
        ghost var cur := newMessages[..];
        ghost var j := MarkStep(cur, offsets', start, sortedMessages, i, offsets, gid, p, now);
        var msgIndex := FindIndex(newMessages, sortedMessages[i].id);
        assert msgIndex == j by {
          assert newMessages[j].id == sortedMessages[i].id;
        }
        newMessages[msgIndex] := Mark(newMessages[msgIndex], gid, now);
        assert newMessages[..] == cur[j := Mark(cur[j], gid, now)];
        offsets' := offsets'[(gid, p) := Offset(offsets', gid, p) + 1];
        assert Min(i + 1, |sortedMessages|) == i + 1;
      } else {
        assert Min(i + 1, |sortedMessages|) == Min(i, |sortedMessages|);
      }
      i := i + 1;
    }
  }

  /** Sorting group g's candidates at partition p oldest first and marking
      the first messagesToProcess of them. */
  method MarkPartition(newMessages: array<Message>, g: Group, p: nat, messagesToProcess: nat, offsets: Offsets, now: int)
    returns (offsets': Offsets)
    modifies newMessages
    requires UniqueIds(newMessages[..])
    ensures var chosen := Oldest(Candidates(old(newMessages[..]), g, p), messagesToProcess);
            && newMessages[..] == MarkWhere(old(newMessages[..]), IdsOf(chosen), g.id, now)
            && offsets' == Bumped(offsets, g.id, p, |chosen|)
  {
    var sortedMessages := SortByTime(Candidates(newMessages[..], g, p));
    SortedCandidates(newMessages[..], g, p);
    offsets' := MarkOldest(newMessages, sortedMessages, messagesToProcess, offsets, g.id, p, now);
  }

  /** Group g's turn at partition p, on the working copy `newMessages`:
      filter the candidates, work out how many to process, sort them oldest
      first and mark them, and record the lag when g is the first group. */
  method ProcessPartitionInPlace(newMessages: array<Message>, offsets: Offsets, lag: map<nat, int>,
                                 g: Group, firstId: string, p: nat, rateTenths: nat, now: int)
    returns (offsets': Offsets, lag': map<nat, int>)
    modifies newMessages
    requires UniqueIds(newMessages[..])
    ensures TickState(newMessages[..], offsets', lag')
            == ProcessPartition(TickState(old(newMessages[..]), offsets, lag), g, firstId, p, rateTenths, now)
  {
    var partitionMessages := Candidates(newMessages[..], g, p);
    var messagesToProcess := ToProcess(|partitionMessages|, rateTenths, MultiplierTenths(g));
    offsets' := MarkPartition(newMessages, g, p, messagesToProcess, offsets, now);
    lag' := if g.id == firstId then lag[p := |partitionMessages| - messagesToProcess] else lag;
  }

  /** The whole pass: a working copy of the buffer, the groups in order,
      partitions 0 .. P-1 for each, skipping partitions the group's
      assignment does not mention. */
  method RunTick(msgs: seq<Message>, offsets: Offsets, groups: seq<Group>, groupAssignments: map<string, Assignment>,
                 P: nat, rateTenths: nat, now: int)
    returns (msgs': seq<Message>, offsets': Offsets, lag: map<nat, int>)
    requires UniqueIds(msgs)
    ensures TickState(msgs', offsets', lag) == Tick(msgs, offsets, groups, groupAssignments, P, rateTenths, now)
  {
    var newMessages := new Message[|msgs|](i requires 0 <= i < |msgs| => msgs[i]);
    assert newMessages[..] == msgs;
    var firstId := if groups == [] then "" else groups[0].id;
    ghost var init := TickState(msgs, offsets, map[]);
    offsets' := offsets;
    lag := map[];
    var gi := 0;
    while gi < |groups|
      invariant gi <= |groups|
      invariant TickState(newMessages[..], offsets', lag)
                == SweepGroups(init, groups[..gi], groupAssignments, firstId, P, rateTenths, now)
      invariant UniqueIds(newMessages[..])
    {
      var group := groups[gi];
      var groupAssignment := AssignmentOf(groupAssignments, group.id);
      ghost var before := TickState(newMessages[..], offsets', lag);
      var p := 0;
      while p < P
        invariant p <= P
        invariant TickState(newMessages[..], offsets', lag)
                  == SweepPartitions(before, group, groupAssignment, firstId, p, rateTenths, now)
        invariant UniqueIds(newMessages[..])
      {
        if p in groupAssignment {
          ghost var cur := TickState(newMessages[..], offsets', lag);
          ProcessPartitionEvolves(cur, group, firstId, p, rateTenths, now);
          offsets', lag := ProcessPartitionInPlace(newMessages, offsets', lag, group, firstId, p, rateTenths, now);
        }
        p := p + 1;
      }
      assert groups[..gi + 1][..gi] == groups[..gi];
      gi := gi + 1;
    }
    assert groups[..gi] == groups;
    msgs' := newMessages[..];
  }
}
