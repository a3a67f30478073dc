/** Messages, consumer groups, and the expression-only rules the simulator
    applies to them: the group filter, the per-group rate multiplier, the
    candidates a group may process in one partition, the oldest-first order,
    the 100-message trim, the 10-second eviction and the per-partition
    offset count. */
module Messages {
  import opened KeyTemplate

  datatype Option<T> = None | Some(value: T)

  /** One produced message. `processedBy` holds the ids of the groups that
      have processed it (the keys set to `true` in `processedByGroups`);
      `processedAt` is `null` until some group first processes it. */
  datatype Message = Message(
    id: nat,
    globalOrder: nat,
    offset: nat,
    key: string,
    data: Fields,
    partition: nat,
    timestamp: int,
    processedBy: set<string>,
    processedAt: Option<int>)

  /** A consumer group: its id, its number of consumers and its optional
      filter string. */
  datatype Group = Group(id: string, consumers: nat, filter: Option<string>)

  /** No two messages share an id. */
  ghost predicate UniqueIds(s: seq<Message>) {
    forall i, j :: 0 <= i < |s| && 0 <= j < |s| && s[i].id == s[j].id ==> i == j
  }

  /** Dropping the last message keeps ids unique, and no earlier message
      shares the last one's id. */
  lemma UniqueIdsFront(s: seq<Message>)
    requires s != []
    ensures UniqueIds(s) ==> UniqueIds(s[..|s| - 1])
    ensures UniqueIds(s) ==> forall x :: x in s[..|s| - 1] ==> x.id != s[|s| - 1].id
  {
    if UniqueIds(s) {
      forall x | x in s[..|s| - 1]
        ensures x.id != s[|s| - 1].id
      {
        var j :| 0 <= j < |s| - 1 && s[..|s| - 1][j] == x;
        assert s[j] == x;
      }
    }
  }

  function Min(a: nat, b: nat): nat {
    if a <= b then a else b
  }

  // ---------------------------------------------------------------------
  // String.prototype.includes

  /** sub occurs in s starting at position i. */
  predicate OccursAt(s: string, sub: string, i: nat) {
    i + |sub| <= |s| && s[i..i + |sub|] == sub
  }

  /** Scan for sub from position i on. */
  function IncludesFrom(s: string, sub: string, i: nat): (r: bool)
    requires i <= |s|
    ensures r <==> exists j: nat :: i <= j && OccursAt(s, sub, j)
    decreases |s| - i
  {
    if i + |sub| > |s| then false
    else if s[i..i + |sub|] == sub then assert OccursAt(s, sub, i); true
    else IncludesFrom(s, sub, i + 1)
  }

  /** `s.includes(sub)`: sub occurs somewhere in s (the empty string occurs
      in every string). */
  function Includes(s: string, sub: string): (r: bool)
    ensures r <==> exists j: nat :: OccursAt(s, sub, j)
  {
    IncludesFrom(s, sub, 0)
  }

  // ---------------------------------------------------------------------
  // Filter and rate

  /** `if (group.filter)`: a filter is in force when it is set and non-empty. */
  predicate HasFilter(g: Group) {
    g.filter.Some? && |g.filter.value| > 0
  }

  /** The message's partition key, when non-empty, or any of its field values
      contains the filter. */
  predicate MatchesFilter(m: Message, filter: string) {
    (|m.key| > 0 && Includes(m.key, filter))
    || (exists i :: 0 <= i < |m.data| && Includes(m.data[i].value, filter))
  }

  /** The group's rate multiplier in tenths. The first test that holds wins:
      an id containing "analytics" gives 0.8, else one containing "billing"
      gives 1.2, else a filter in force gives 1.5, else 1. */
  function MultiplierTenths(g: Group): (m: nat)
    ensures m in {8, 10, 12, 15}
    ensures Includes(g.id, "analytics") ==> m == 8
    ensures m == 15 ==> HasFilter(g)
  {
    if Includes(g.id, "analytics") then 8
    else if Includes(g.id, "billing") then 12
    else if HasFilter(g) then 15
    else 10
  }

  /** `Math.floor(n * processingRate * multiplier)` with the rate and the
      multiplier in tenths. */
  function ToProcess(n: nat, rateTenths: nat, multTenths: nat): (k: nat)
    ensures k * 100 <= n * rateTenths * multTenths < (k + 1) * 100
  {
    (n * rateTenths * multTenths) / 100
  }

  /** At or below an effective rate of 1 a group never asks for more messages
      than it has; above it, it can: 10 candidates at rate 1.5 for a billing
      group ask for 18. */
  lemma ToProcessBounds(n: nat, rateTenths: nat, multTenths: nat)
    ensures rateTenths * multTenths <= 100 ==> ToProcess(n, rateTenths, multTenths) <= n
    ensures ToProcess(10, 15, 12) == 18
  {
    var k := ToProcess(n, rateTenths, multTenths);
    assert n * rateTenths * multTenths == n * (rateTenths * multTenths);
    assert rateTenths * multTenths <= 100 ==> k * 100 <= n * 100;
  }

  /** Message m is one that group g would consider in partition p: it lies in
      p, g has not processed it, and it passes g's filter if one is in force. */
  predicate IsCandidate(m: Message, g: Group, p: nat) {
    && m.partition == p
    && g.id !in m.processedBy
    && (HasFilter(g) ==> MatchesFilter(m, g.filter.value))
  }

  /** The messages of partition p that g has not processed and that pass its
      filter, in buffer order. */
  function Candidates(msgs: seq<Message>, g: Group, p: nat): (c: seq<Message>)
    ensures |c| <= |msgs|
    ensures forall m :: m in c <==> m in msgs && IsCandidate(m, g, p)
    ensures UniqueIds(msgs) ==> UniqueIds(c)
  {
    if msgs == [] then []
    else
      var front := msgs[..|msgs| - 1];
      var last := msgs[|msgs| - 1];
      assert msgs == front + [last];
      var rest := Candidates(front, g, p);
      UniqueIdsFront(msgs);
      if IsCandidate(last, g, p) then rest + [last] else rest
  }

  // ---------------------------------------------------------------------
  // Oldest first

  ghost predicate SortedByTime(s: seq<Message>) {
    forall i, j :: 0 <= i < j < |s| ==> s[i].timestamp <= s[j].timestamp
  }

  /** Insert m into a time-sorted sequence after every message that is not
      younger than it. */
  function Insert(s: seq<Message>, m: Message): (r: seq<Message>)
    ensures |r| == |s| + 1
  {
    if s == [] then [m]
    else if s[|s| - 1].timestamp <= m.timestamp then s + [m]
    else Insert(s[..|s| - 1], m) + [s[|s| - 1]]
  }

  /** Appending a message no younger than all others keeps the order. */
  lemma AppendSorted(s: seq<Message>, m: Message)
    requires SortedByTime(s) && forall x :: x in s ==> x.timestamp <= m.timestamp
    ensures SortedByTime(s + [m])
  {
    forall i, j | 0 <= i < j < |s| + 1
      ensures (s + [m])[i].timestamp <= (s + [m])[j].timestamp
    {
      if j == |s| {
        assert s[i] in s;
      }
    }
  }

  /** Insertion keeps a sequence sorted by time and adds exactly m. */
  lemma {:induction false} InsertSorted(s: seq<Message>, m: Message)
    requires SortedByTime(s)
    ensures SortedByTime(Insert(s, m))
    ensures multiset(Insert(s, m)) == multiset(s) + multiset{m}
  {
    if s == [] {
    } else if s[|s| - 1].timestamp <= m.timestamp {
      AppendSorted(s, m);
    } else {
      var front, last := s[..|s| - 1], s[|s| - 1];
      assert s == front + [last];
      InsertSorted(front, m);
      var r := Insert(front, m);
      forall x | x in r
        ensures x.timestamp <= last.timestamp
      {
        assert x in multiset(r);
        if x != m {
          assert x in front;
        }
      }
      AppendSorted(r, last);
    }
  }

  /** `partitionMessages.sort((a, b) => a.timestamp - b.timestamp)`: a stable
      sort by timestamp, written as an insertion sort. */
  function SortByTime(s: seq<Message>): (r: seq<Message>)
    ensures |r| == |s|
  {
    if s == [] then [] else Insert(SortByTime(s[..|s| - 1]), s[|s| - 1])
  }

  /** The sort orders the messages oldest first and is a permutation. */
  lemma {:induction false} SortSorted(s: seq<Message>)
    ensures SortedByTime(SortByTime(s))
    ensures multiset(SortByTime(s)) == multiset(s)
  {
    if s != [] {
      var front, last := s[..|s| - 1], s[|s| - 1];
      assert s == front + [last];
      SortSorted(front);
      InsertSorted(SortByTime(front), last);
    }
  }

  /** The messages of s stamped with time t, in their order in s. */
  function WithTime(s: seq<Message>, t: int): seq<Message> {
    if s == [] then []
    else WithTime(s[..|s| - 1], t) + (if s[|s| - 1].timestamp == t then [s[|s| - 1]] else [])
  }

  lemma WithTimeAppend(s: seq<Message>, m: Message, t: int)
    ensures WithTime(s + [m], t) == WithTime(s, t) + (if m.timestamp == t then [m] else [])
  {
    assert (s + [m])[..|s|] == s;
  }

  /** Insertion places m after every message of its own time: the messages
      of each time keep their order, with m last among its own. */
  lemma {:induction false} InsertStable(s: seq<Message>, m: Message, t: int)
    ensures WithTime(Insert(s, m), t) == WithTime(s, t) + (if m.timestamp == t then [m] else [])
  {
    if s == [] {
      WithTimeAppend([], m, t);
    } else if s[|s| - 1].timestamp <= m.timestamp {
      WithTimeAppend(s, m, t);
    } else {
      var front, last := s[..|s| - 1], s[|s| - 1];
      assert s == front + [last];
      assert Insert(s, m) == Insert(front, m) + [last];
      InsertStable(front, m, t);
      WithTimeAppend(Insert(front, m), last, t);
      WithTimeAppend(front, last, t);
      // last is younger than m, so at most one of them has time t
      assert m.timestamp != t || last.timestamp != t;
    }
  }

  /** The sort is stable: messages with the same timestamp come out in the
      order they went in. */
  lemma {:induction false} SortStable(s: seq<Message>, t: int)
    ensures WithTime(SortByTime(s), t) == WithTime(s, t)
  {
    if s != [] {
      var front, last := s[..|s| - 1], s[|s| - 1];
      assert s == front + [last];
      SortStable(front, t);
      InsertStable(SortByTime(front), last, t);
      WithTimeAppend(front, last, t);
    }
  }

  /** Appending a message with a new id keeps ids unique. */
  lemma UniqueAppend(s: seq<Message>, m: Message)
    requires UniqueIds(s) && forall x :: x in s ==> x.id != m.id
    ensures UniqueIds(s + [m])
  {
    var t := s + [m];
    assert forall k :: 0 <= k < |s| ==> t[k] == s[k] && s[k] in s;
  }

  /** Inserting a message whose id is new keeps ids unique. */
  lemma {:induction false} InsertUnique(s: seq<Message>, m: Message)
    requires UniqueIds(s) && forall x :: x in s ==> x.id != m.id
    ensures UniqueIds(Insert(s, m))
    ensures forall x :: x in Insert(s, m) <==> x in s || x == m
  {
    if s == [] {
    } else if s[|s| - 1].timestamp <= m.timestamp {
      UniqueAppend(s, m);
      assert forall x :: x in s + [m] <==> x in s || x == m;
    } else {
      var front, last := s[..|s| - 1], s[|s| - 1];
      assert s == front + [last];
      UniqueIdsFront(s);
      InsertUnique(front, m);
      var r := Insert(front, m);
      assert forall x :: x in r ==> x.id != last.id;
      UniqueAppend(r, last);
      assert forall x :: x in r + [last] <==> x in r || x == last;
    }
  }

  /** Sorting keeps the same messages, so it keeps ids unique. */
  lemma {:induction false} SortUnique(s: seq<Message>)
    requires UniqueIds(s)
    ensures UniqueIds(SortByTime(s))
    ensures forall x :: x in SortByTime(s) <==> x in s
  {
    if s != [] {
      var front, last := s[..|s| - 1], s[|s| - 1];
      assert s == front + [last];
      UniqueIdsFront(s);
      SortUnique(front);
      InsertUnique(SortByTime(front), last);
    }
  }

  // ---------------------------------------------------------------------
  // Buffer bounds

  /** `slice(-n)`: the last n elements, or all of them when there are fewer. */
  function LastN<T>(s: seq<T>, n: nat): (r: seq<T>)
    ensures |r| == Min(|s|, n)
    ensures r == s[|s| - |r|..]
  {
    if |s| <= n then s else s[|s| - n..]
  }

  /** Trimming after every append keeps the same messages as trimming once
      after all of them. */
  lemma LastNAppend<T>(s: seq<T>, t: seq<T>, n: nat)
    ensures LastN(LastN(s, n) + t, n) == LastN(s + t, n)
  {
    var u := LastN(s, n);
    assert s + t == s[..|s| - |u|] + (u + t);
  }

  /** `Date.now() - msg.timestamp < 10000`. */
  predicate Fresh(m: Message, now: int) {
    now - m.timestamp < 10000
  }

  /** The cleanup filter: the messages younger than ten seconds, in order. */
  function Retain(s: seq<Message>, now: int): (r: seq<Message>)
    ensures |r| <= |s|
    ensures forall m :: m in r <==> m in s && Fresh(m, now)
  {
    if s == [] then []
    else
      var front := s[..|s| - 1];
      var last := s[|s| - 1];
      assert s == front + [last];
      if Fresh(last, now) then Retain(front, now) + [last] else Retain(front, now)
  }

  /** Eviction keeps the relative order: it distributes over concatenation. */
  lemma {:induction false} RetainAppend(s: seq<Message>, t: seq<Message>, now: int)
    ensures Retain(s + t, now) == Retain(s, now) + Retain(t, now)
    decreases |t|
  {
    if t != [] {
      var front := t[..|t| - 1];
      assert s + t == (s + front) + [t[|t| - 1]];
      RetainAppend(s, front, now);
    } else {
      assert s + t == s;
    }
  }

  /** A second cleanup at the same time removes nothing more, and a buffer of
      young messages is left as it is. */
  lemma {:induction false} RetainIdempotent(s: seq<Message>, now: int)
    ensures Retain(Retain(s, now), now) == Retain(s, now)
    ensures (forall m :: m in s ==> Fresh(m, now)) ==> Retain(s, now) == s
  {
    if s != [] {
      var front := s[..|s| - 1];
      assert s == front + [s[|s| - 1]];
      RetainIdempotent(front, now);
      RetainAppend(Retain(front, now), [s[|s| - 1]], now);
    }
  }

  /** `messages.filter(m => m.partition === partition).length`. */
  function CountInPartition(s: seq<Message>, p: nat): (n: nat)
    ensures n <= |s|
  {
    if s == [] then 0
    else CountInPartition(s[..|s| - 1], p) + (if s[|s| - 1].partition == p then 1 else 0)
  }

  /** Appending a message raises its own partition's count by one and leaves
      every other partition's count alone. */
  lemma CountAppend(s: seq<Message>, m: Message, p: nat)
    ensures CountInPartition(s + [m], p) == CountInPartition(s, p) + (if m.partition == p then 1 else 0)
  {
    assert (s + [m])[..|s + [m]| - 1] == s;
  }
}
