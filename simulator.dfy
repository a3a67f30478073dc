/** The simulator component's state and the events that change it.

    The React hooks become fields of one object; every interval and timeout
    becomes an event method the environment calls: `Produce` (one message
    from the producer interval), `ProcessTick` (the once-a-second
    processing pass), `Cleanup` (the two-second eviction) and `FireTimer`
    (a pending rebalance timeout running out). Panel edits are methods that
    change the configuration and then run the two effects that depend on
    it, in the order they are declared: the rebalance trigger and the
    first-load initialisation. */
module Simulator {
  import opened Loads
  import opened KeyTemplate
  import opened Messages
  import opened Groups
  import Partitioner
  import AssignmentEngine
  import Processing

  /** A pending `setTimeout`, with the values its callback captured. */
  datatype Timer =
      /** Two seconds after the trigger: every group's assignment. */
    | AssignGroups(strategy: string, partitions: nat, groups: seq<Group>, previous: map<string, Assignment>)
      /** Two seconds after a strategy change: the display mapping only. */
    | AssignDisplay(strategy: string, partitions: nat, consumers: nat, displayed: Assignment)
      /** One second after either: rebalancing is over. */
    | Resume

  /** What a timer callback needs to be callable: groups to assign, each
      with a consumer, and a consumer to assign to. */
  predicate Runnable(t: Timer) {
    match t
    case AssignGroups(_, _, groups, _) => groups != [] && Staffed(groups)
    case AssignDisplay(_, _, consumers, _) => consumers >= 1
    case Resume => true
  }

  /** The trigger condition: the total consumer count differs from the
      recorded one, or no group has an assignment. */
  predicate NeedsRebalancing(groups: seq<Group>, consumers: nat, groupAssignments: map<string, Assignment>) {
    TotalConsumers(groups) != consumers || |groupAssignments| == 0
  }

  /** Keeping the newest n of a buffer with unique ids keeps ids unique. */
  lemma UniqueSuffix(s: seq<Message>, k: nat)
    requires UniqueIds(s) && k <= |s|
    ensures UniqueIds(s[k..])
  {
    forall i, j | 0 <= i < |s[k..]| && 0 <= j < |s[k..]| && s[k..][i].id == s[k..][j].id
      ensures i == j
    {
      assert s[k + i].id == s[k + j].id;
    }
  }

  /** msg is the message `generateMessage` builds from the field values:
      its key is the template resolved against them, its partition the
      key's hash modulo the partition count, its global order the given
      number, its offset the number of buffered messages already in that
      partition; nobody has processed it yet. */
  predicate Generated(msg: Message, fields: Fields, template: string, partitions: nat,
                      buffered: seq<Message>, order: nat, now: int, id: nat)
    requires 1 <= partitions && WellFormed(fields)
  {
    && msg.id == id && msg.data == fields && msg.timestamp == now
    && msg.key == ExtractPartitionKey(fields, template)
    && msg.partition == Partitioner.PartitionOf(msg.key, partitions) && msg.partition < partitions
    && msg.globalOrder == order
    && msg.offset == CountInPartition(buffered, msg.partition)
    && msg.processedBy == {} && msg.processedAt == None
  }

  /** Appending a message with a new id and keeping the newest 100 keeps
      ids unique, and the new message is the newest. */
  lemma KeepNewestUnique(s: seq<Message>, m: Message)
    requires UniqueIds(s) && forall x :: x in s ==> x.id != m.id
    ensures UniqueIds(LastN(s + [m], 100)) && |LastN(s + [m], 100)| <= 100
    ensures LastN(s + [m], 100)[|LastN(s + [m], 100)| - 1] == m
  {
    var appended := s + [m];
    UniqueAppend(s, m);
    var kept := LastN(appended, 100);
    UniqueSuffix(appended, |appended| - |kept|);
  }

  /** Eviction keeps ids unique. */
  lemma {:induction false} RetainUnique(s: seq<Message>, now: int)
    requires UniqueIds(s)
    ensures UniqueIds(Retain(s, now))
  {
    if s != [] {
      var front := s[..|s| - 1];
      UniqueIdsFront(s);
      RetainUnique(front, now);
      if Fresh(s[|s| - 1], now) {
        UniqueAppend(Retain(front, now), s[|s| - 1]);
      }
    }
  }

  /** Firing the i-th timer and starting the one-second timer keeps every
      pending timer runnable; the fired one was runnable too. */
  lemma FiredRunnable(timers: seq<Timer>, i: nat)
    requires i < |timers| && AllRunnable(timers)
    ensures Runnable(timers[i]) && AllRunnable(Dropped(timers, i) + [Resume])
  {
    DroppedRunnable(timers, i);
    AppendRunnable(Dropped(timers, i), Resume);
  }

  /** Every pending timer's callback can run. */
  predicate AllRunnable(timers: seq<Timer>) {
    forall t :: t in timers ==> Runnable(t)
  }

  /** Starting a runnable timer keeps every pending one runnable. */
  lemma AppendRunnable(timers: seq<Timer>, t: Timer)
    requires AllRunnable(timers) && Runnable(t)
    ensures AllRunnable(timers + [t])
  {
    assert forall u :: u in timers + [t] ==> u in timers || u == t;
  }

  /** The pending timers once the i-th has run out. */
  function Dropped(timers: seq<Timer>, i: nat): (r: seq<Timer>)
    requires i < |timers|
    ensures |r| == |timers| - 1
    ensures forall j :: 0 <= j < i ==> r[j] == timers[j]
    ensures forall j :: i <= j < |r| ==> r[j] == timers[j + 1]
  {
    timers[..i] + timers[i + 1..]
  }

  /** Dropping a timer leaves only runnable ones, and the dropped one is
      runnable too. */
  lemma DroppedRunnable(timers: seq<Timer>, i: nat)
    requires i < |timers| && AllRunnable(timers)
    ensures Runnable(timers[i]) && AllRunnable(Dropped(timers, i))
  {
    assert timers[i] in timers;
    forall t | t in Dropped(timers, i)
      ensures Runnable(t)
    {
      var j :| 0 <= j < |Dropped(timers, i)| && Dropped(timers, i)[j] == t;
      if j < i {
        assert timers[j] in timers;
      } else {
        assert timers[j + 1] in timers;
      }
    }
  }

  /** The group timer's callback on its captured values: every group's
      new assignment, and the first group's as the display mapping. */
  method GroupsTimerResult(strategy: string, P: nat, groups: seq<Group>, previous: map<string, Assignment>)
    returns (newGroupAssignments: map<string, Assignment>, shown: Assignment)
    requires groups != [] && Staffed(groups)
    ensures AssignsGroups(strategy, P, groups, previous, newGroupAssignments)
    ensures groups[0].id in newGroupAssignments && shown == newGroupAssignments[groups[0].id]
    ensures |newGroupAssignments| != 0
  {
    newGroupAssignments := AssignAllGroups(strategy, P, groups, previous);
    assert groups[0] in groups;
    shown := newGroupAssignments[groups[0].id];
    Occupied(newGroupAssignments, groups[0].id);
  }

  /** A map holding a key is not empty. */
  lemma Occupied<K, V>(m: map<K, V>, k: K)
    requires k in m
    ensures |m| != 0
  {
    assert k in m.Keys;
  }

  /** Setting a group's consumer count to at least one keeps every group
      staffed. */
  lemma WithConsumersStaffed(groups: seq<Group>, id: string, count: nat)
    requires Staffed(groups) && count >= 1
    ensures Staffed(WithConsumers(groups, id, count))
  {
  }

  /** Changing a filter keeps every group staffed. */
  lemma WithFilterStaffed(groups: seq<Group>, id: string, filter: string)
    requires Staffed(groups)
    ensures Staffed(WithFilter(groups, id, filter))
  {
  }

  /** The three initial groups have four consumers between them. */
  lemma InitialTotal()
    ensures TotalConsumers(InitialGroups) == 4
  {
    var g := InitialGroups;
    assert g[..2][..1] == g[..1] && g[..1][..0] == [];
    assert TotalConsumers(g[..1]) == 2;
    assert TotalConsumers(g[..2]) == 3;
  }

  class Simulator {
    var partitions: nat
    var consumers: nat
    var groups: seq<Group>
    var messages: seq<Message>
    var partitionKeyTemplate: string
    var consumerLag: map<nat, int>
    /** The processing rate in tenths (the slider's 0.1 .. 1.5). */
    var processingRate: nat
    var isRebalancing: bool
    var partitionAssignments: Assignment
    var groupAssignments: map<string, Assignment>
    var groupOffsets: Processing.Offsets
    var rebalanceStrategy: string
    var previousAssignments: Assignment
    var globalMessageCounter: nat
    /** The rebalance timeouts started and not yet run out, oldest first. */
    var timers: seq<Timer>

    /** What every event may rely on: the panel's ranges, at least one
        staffed group, a buffer of at most 100 messages with unique ids, and
        timers whose callbacks can run. */
    ghost predicate Sane()
      reads this
    {
      && 1 <= partitions <= 6
      && 1 <= processingRate <= 15
      && consumers >= 1
      && groups != [] && Staffed(groups)
      && UniqueIds(messages) && |messages| <= 100
      && AllRunnable(timers)
    }

    /** Between events the trigger has caught up: the recorded consumer
        count is the total and some group has an assignment. */
    ghost predicate Valid()
      reads this
    {
      Sane() && !NeedsRebalancing(groups, consumers, groupAssignments)
    }

    /** The component as first rendered, once its two effects have run:
        the trigger finds no group assignment, so it records the total
        consumer count, raises the flag, keeps the empty display mapping as
        the previous one and starts a group timer; the first-load effect
        then assigns every group at once and shows the first group's
        assignment. */
    constructor ()
      ensures Valid()
      ensures partitions == 3 && processingRate == 8 && rebalanceStrategy == "range"
      ensures groups == InitialGroups && consumers == TotalConsumers(InitialGroups)
      ensures messages == [] && globalMessageCounter == 0 && partitionKeyTemplate == "account_id"
      ensures groupOffsets == map[] && consumerLag == map[]
      ensures isRebalancing && previousAssignments == map[]
      ensures timers == [AssignGroups("range", 3, InitialGroups, map[])]
      ensures AssignsGroups("range", 3, InitialGroups, map[], groupAssignments)
      ensures partitionAssignments == groupAssignments[InitialGroups[0].id]
    {
      var initial := InitialGroups;
      assert initial[0] in initial && initial[1] in initial && initial[2] in initial;
      assert Staffed(initial);
      TotalAtLeast(initial);
      var initialGroupAssignments, shown := GroupsTimerResult("range", 3, initial, map[]);
      partitions := 3;
      consumers := TotalConsumers(initial);
      groups := initial;
      messages := [];
      partitionKeyTemplate := "account_id";
      consumerLag := map[];
      processingRate := 8;
      isRebalancing := true;
      partitionAssignments := shown;
      groupAssignments := initialGroupAssignments;
      groupOffsets := map[];
      rebalanceStrategy := "range";
      previousAssignments := map[];
      globalMessageCounter := 0;
      timers := [AssignGroups("range", 3, initial, map[])];
    }

    // -------------------------------------------------------------------
    // Producer

    /** `generateMessage`: resolve the key from the template, hash it to a
        partition, take the next global order number and the partition's
        current count in the buffer as offset. The field values, the clock
        and the (unique) id come from outside. */
    method GenerateMessage(fields: Fields, now: int, id: nat) returns (msg: Message)
      requires 1 <= partitions && WellFormed(fields)
      modifies this`globalMessageCounter
      ensures globalMessageCounter == old(globalMessageCounter) + 1
      ensures Generated(msg, fields, partitionKeyTemplate, partitions, messages, globalMessageCounter, now, id)
    {
      var key := ExtractPartitionKey(fields, partitionKeyTemplate);
      var partition := Partitioner.GetPartition(key, partitions);
      var currentGlobalId := globalMessageCounter + 1;
      globalMessageCounter := currentGlobalId;
      msg := Message(id, currentGlobalId, CountInPartition(messages, partition), key, fields, partition, now, {}, None);
    }

    /** `setMessages(prev => [...prev, ...newMessages].slice(-100))` for one
        new message. */
    method AppendMessage(msg: Message)
      requires Valid() && forall m :: m in messages ==> m.id != msg.id
      modifies this`messages
      ensures Valid()
      ensures messages == LastN(old(messages) + [msg], 100) && messages[|messages| - 1] == msg
    {
      KeepNewestUnique(messages, msg);
      messages := LastN(messages + [msg], 100);
    }

    /** One message from the producer interval: generate it and append it,
        keeping the newest 100. */
    method Produce(fields: Fields, now: int, id: nat) returns (msg: Message)
      requires Valid() && WellFormed(fields)
      requires forall m :: m in messages ==> m.id != id
      modifies this`messages, this`globalMessageCounter
      ensures Valid()
      ensures globalMessageCounter == old(globalMessageCounter) + 1
      ensures Generated(msg, fields, partitionKeyTemplate, partitions, old(messages), globalMessageCounter, now, id)
      ensures messages == LastN(old(messages) + [msg], 100) && messages[|messages| - 1] == msg
    {
      msg := GenerateMessage(fields, now, id);
      AppendMessage(msg);
    }

    /** The eviction interval: keep the messages younger than ten seconds. */
    method Cleanup(now: int)
      requires Valid()
      modifies this`messages
      ensures Valid()
      ensures messages == Retain(old(messages), now)
    {
      RetainUnique(messages, now);
      messages := Retain(messages, now);
    }

    // -------------------------------------------------------------------
    // Consumers

    /** The processing interval: nothing while rebalancing; otherwise one
        pass over the buffer, whose lag table replaces the old one. */
    method ProcessTick(now: int)
      requires Valid()
      modifies this`messages, this`groupOffsets, this`consumerLag
      ensures Valid()
      ensures old(isRebalancing) ==>
                messages == old(messages) && groupOffsets == old(groupOffsets) && consumerLag == old(consumerLag)
      ensures !old(isRebalancing) ==>
                Processing.TickState(messages, groupOffsets, consumerLag)
                == Processing.Tick(old(messages), old(groupOffsets), groups, groupAssignments, partitions, processingRate, now)
    {
      if isRebalancing {
        return;
      }
      ghost var firstId := groups[0].id;
      Processing.SweepGroupsEvolves(Processing.TickState(messages, groupOffsets, map[]), groups, groupAssignments,
                                    firstId, partitions, processingRate, now);
      var msgs, offsets, lag := Processing.RunTick(messages, groupOffsets, groups, groupAssignments, partitions, processingRate, now);
      messages, groupOffsets, consumerLag := msgs, offsets, lag;
    }

    /** `getConsumerForPartition`: no owner while rebalancing; otherwise the
        display mapping's owner, or p mod the consumer count when the
        mapping has none. */
    function ConsumerForPartition(p: nat): (r: Option<nat>)
      requires consumers >= 1
      reads this
      ensures r == None <==> isRebalancing
      ensures r.Some? && p in partitionAssignments ==> r.value == partitionAssignments[p]
      ensures r.Some? && p !in partitionAssignments ==> r.value < consumers && r.value % consumers == p % consumers
    {
      if isRebalancing then None
      else if p in partitionAssignments then Some(partitionAssignments[p])
      else Some(p % consumers)
    }

    // -------------------------------------------------------------------
    // Rebalancing

    /** The rebalance trigger: when the total consumer count differs from
        the recorded one or no group has an assignment, record the total,
        raise the flag, keep the display mapping as the previous one and
        start the two-second timer with the current configuration. */
    method TriggerRebalance()
      requires Sane()
      modifies this`consumers, this`isRebalancing, this`previousAssignments, this`timers
      ensures Sane() && consumers == TotalConsumers(groups)
      ensures NeedsRebalancing(groups, old(consumers), groupAssignments) ==>
                && consumers == TotalConsumers(groups) && isRebalancing
                && previousAssignments == partitionAssignments
                && timers == old(timers) + [AssignGroups(rebalanceStrategy, partitions, groups, groupAssignments)]
      ensures !NeedsRebalancing(groups, old(consumers), groupAssignments) ==>
                && consumers == old(consumers) && isRebalancing == old(isRebalancing)
                && previousAssignments == old(previousAssignments) && timers == old(timers)
    {
      var totalConsumers := TotalConsumers(groups);
      if totalConsumers != consumers || |groupAssignments| == 0 {
        TotalAtLeast(groups);
        AppendRunnable(timers, AssignGroups(rebalanceStrategy, partitions, groups, groupAssignments));
        consumers := totalConsumers;
        isRebalancing := true;
        previousAssignments := partitionAssignments;
        timers := timers + [AssignGroups(rebalanceStrategy, partitions, groups, groupAssignments)];
      }
    }

    /** The first-load effect: while no group has an assignment, record the
        total and assign every group from scratch at once, the first
        group's assignment becoming the display mapping. */
    method InitAssignments()
      requires Sane()
      modifies this`consumers, this`groupAssignments, this`partitionAssignments
      ensures Sane() && |groupAssignments| != 0
      ensures |old(groupAssignments)| == 0 ==>
                && consumers == TotalConsumers(groups)
                && AssignsGroups(rebalanceStrategy, partitions, groups, map[], groupAssignments)
                && groups[0].id in groupAssignments
                && partitionAssignments == groupAssignments[groups[0].id]
      ensures |old(groupAssignments)| != 0 ==>
                && consumers == old(consumers) && groupAssignments == old(groupAssignments)
                && partitionAssignments == old(partitionAssignments)
    {
      if |groupAssignments| == 0 {
        TotalAtLeast(groups);
        consumers := TotalConsumers(groups);
        var initialGroupAssignments, shown := GroupsTimerResult(rebalanceStrategy, partitions, groups, map[]);
        groupAssignments := initialGroupAssignments;
        partitionAssignments := shown;
      }
    }

    /** The effects that depend on the groups, the partition count and the
        strategy, run after any of them changed. Afterwards the trigger has
        nothing left to do. */
    method RunConfigEffects()
      requires Sane()
      modifies this`consumers, this`isRebalancing, this`previousAssignments, this`timers
      modifies this`groupAssignments, this`partitionAssignments
      ensures Valid()
      ensures NeedsRebalancing(groups, old(consumers), old(groupAssignments)) ==>
                && isRebalancing && previousAssignments == old(partitionAssignments)
                && timers == old(timers) + [AssignGroups(rebalanceStrategy, partitions, groups, old(groupAssignments))]
      ensures !NeedsRebalancing(groups, old(consumers), old(groupAssignments)) ==>
                && isRebalancing == old(isRebalancing) && timers == old(timers)
                && groupAssignments == old(groupAssignments) && partitionAssignments == old(partitionAssignments)
                && consumers == old(consumers) && previousAssignments == old(previousAssignments)
      ensures |old(groupAssignments)| == 0 ==>
                && AssignsGroups(rebalanceStrategy, partitions, groups, map[], groupAssignments)
                && groups[0].id in groupAssignments
                && partitionAssignments == groupAssignments[groups[0].id]
      ensures |old(groupAssignments)| != 0 ==>
                groupAssignments == old(groupAssignments) && partitionAssignments == old(partitionAssignments)
    {
      TriggerRebalance();
      InitAssignments();
    }

    /** A group timer running out (any pending one: real timers are never
        cancelled, and overlapping rebalances leave several pending). Every
        captured group is assigned from its captured previous assignment,
        the first group's assignment is shown, and the one-second timer that
        lowers the flag starts. */
    method FireGroupsTimer(i: nat) returns (t: Timer)
      requires Valid() && i < |timers| && timers[i].AssignGroups?
      modifies this`groupAssignments, this`partitionAssignments, this`timers
      ensures Valid()
      ensures t == old(timers[i]) && t.AssignGroups? && t.groups != []
      ensures AssignsGroups(t.strategy, t.partitions, t.groups, t.previous, groupAssignments)
      ensures t.groups[0].id in groupAssignments && partitionAssignments == groupAssignments[t.groups[0].id]
      ensures timers == Dropped(old(timers), i) + [Resume]
    {
      t := timers[i];
      FiredRunnable(timers, i);
      var newGroupAssignments, shown := GroupsTimerResult(t.strategy, t.partitions, t.groups, t.previous);
      ShowGroupAssignments(i, newGroupAssignments, shown);
    }

    /** The state updates of a fired group timer: the new group assignments
        and display mapping are shown, and the one-second timer starts. */
    method ShowGroupAssignments(i: nat, newGroupAssignments: map<string, Assignment>, shown: Assignment)
      requires Valid() && i < |timers| && |newGroupAssignments| != 0
      modifies this`groupAssignments, this`partitionAssignments, this`timers
      ensures Valid()
      ensures groupAssignments == newGroupAssignments && partitionAssignments == shown
      ensures timers == Dropped(old(timers), i) + [Resume]
    {
      FiredRunnable(timers, i);
      groupAssignments, partitionAssignments, timers := newGroupAssignments, shown, Dropped(timers, i) + [Resume];
    }

    /** A display timer running out: the display mapping is reassigned by
        the captured strategy among the captured consumer count, the group
        assignments stay as they are, and the one-second timer starts. */
    method FireDisplayTimer(i: nat) returns (t: Timer)
      requires Valid() && i < |timers| && timers[i].AssignDisplay?
      modifies this`partitionAssignments, this`timers
      ensures Valid()
      ensures t == old(timers[i]) && t.AssignDisplay? && t.consumers >= 1
      ensures AssignmentEngine.Follows(t.strategy, t.partitions, t.consumers, t.displayed, partitionAssignments)
      ensures timers == Dropped(old(timers), i) + [Resume]
    {
      t := timers[i];
      FiredRunnable(timers, i);
      var newAssignments := AssignmentEngine.CalculateAssignments(t.strategy, t.partitions, t.consumers, t.displayed);
      ShowDisplayAssignments(i, newAssignments);
    }

    /** The state updates of a fired display timer: the new display mapping
        is shown and the one-second timer starts. */
    method ShowDisplayAssignments(i: nat, shown: Assignment)
      requires Valid() && i < |timers|
      modifies this`partitionAssignments, this`timers
      ensures Valid()
      ensures partitionAssignments == shown && timers == Dropped(old(timers), i) + [Resume]
    {
      FiredRunnable(timers, i);
      partitionAssignments, timers := shown, Dropped(timers, i) + [Resume];
    }

    /** The one-second timer running out: rebalancing is over and
        processing resumes. */
    method FireResumeTimer(i: nat)
      requires Valid() && i < |timers| && timers[i].Resume?
      modifies this`isRebalancing, this`timers
      ensures Valid()
      ensures !isRebalancing && timers == Dropped(old(timers), i)
    {
      DroppedRunnable(timers, i);
      timers := Dropped(timers, i);
      isRebalancing := false;
    }

    /** `handleStrategyChange`: a different strategy is recorded, the flag
        raised, the display mapping kept as the previous one, and a timer
        started that reassigns only the display mapping among the recorded
        consumer count; the group assignments are left as they are, and the
        effects, rerun for the new strategy, find nothing to do. */
    method HandleStrategyChange(newStrategy: string)
      requires Valid()
      modifies this`rebalanceStrategy, this`isRebalancing, this`previousAssignments, this`timers
      modifies this`consumers, this`groupAssignments, this`partitionAssignments
      ensures Valid()
      ensures newStrategy == old(rebalanceStrategy) ==>
                rebalanceStrategy == old(rebalanceStrategy) && timers == old(timers)
                && isRebalancing == old(isRebalancing) && previousAssignments == old(previousAssignments)
      ensures newStrategy != old(rebalanceStrategy) ==>
                && rebalanceStrategy == newStrategy && isRebalancing
                && previousAssignments == old(partitionAssignments)
                && timers == old(timers) + [AssignDisplay(newStrategy, partitions, consumers, old(partitionAssignments))]
      ensures consumers == old(consumers)
      ensures groupAssignments == old(groupAssignments) && partitionAssignments == old(partitionAssignments)
    {
      if newStrategy != rebalanceStrategy {
        AppendRunnable(timers, AssignDisplay(newStrategy, partitions, consumers, partitionAssignments));
        rebalanceStrategy := newStrategy;
        isRebalancing := true;
        previousAssignments := partitionAssignments;
        timers := timers + [AssignDisplay(newStrategy, partitions, consumers, partitionAssignments)];
        RunConfigEffects();
      }
    }

    // -------------------------------------------------------------------
    // Configuration panel

    /** The partition slider (1 to 6); a new value reruns the effects, which
        find nothing to rebalance: only the timers started later see it. */
    method SetPartitions(n: nat)
      requires Valid() && 1 <= n <= 6
      modifies this`partitions, this`consumers, this`isRebalancing, this`previousAssignments, this`timers
      modifies this`groupAssignments, this`partitionAssignments
      ensures Valid() && partitions == n
      ensures consumers == old(consumers) && timers == old(timers) && isRebalancing == old(isRebalancing)
      ensures previousAssignments == old(previousAssignments)
      ensures groupAssignments == old(groupAssignments) && partitionAssignments == old(partitionAssignments)
    {
      if n != partitions {
        partitions := n;
        RunConfigEffects();
      }
    }

    /** The processing-rate slider, in tenths (0.1 to 1.5). */
    method SetProcessingRate(rateTenths: nat)
      requires Valid() && 1 <= rateTenths <= 15
      modifies this`processingRate
      ensures Valid() && processingRate == rateTenths
    {
      processingRate := rateTenths;
    }

    /** The key-template input. */
    method SetPartitionKeyTemplate(template: string)
      requires Valid()
      modifies this`partitionKeyTemplate
      ensures Valid() && partitionKeyTemplate == template
    {
      partitionKeyTemplate := template;
    }

    /** `addConsumerGroup`. The total rises by one, so a rebalance starts. */
    method AddConsumerGroup()
      requires Valid()
      modifies this`groups, this`consumers, this`isRebalancing, this`previousAssignments, this`timers
      modifies this`groupAssignments, this`partitionAssignments
      ensures Valid()
      ensures groups == AddGroup(old(groups)) && consumers == old(consumers) + 1
      ensures isRebalancing && previousAssignments == old(partitionAssignments)
      ensures timers == old(timers) + [AssignGroups(rebalanceStrategy, partitions, groups, old(groupAssignments))]
      ensures groupAssignments == old(groupAssignments) && partitionAssignments == old(partitionAssignments)
    {
      var newGroupId := NewGroupId(groups);
      groups := groups + [Group(newGroupId, 1, None)];
      AddGroupRaisesTotal(old(groups));
      RunConfigEffects();
    }

    /** `removeConsumerGroup`, with the guard that keeps at least one group:
        the groups with the id and the id's assignment are dropped, and the
        effects rerun, unless no group would be left. */
    method RemoveConsumerGroup(groupId: string)
      requires Valid()
      modifies this`groups, this`consumers, this`isRebalancing, this`previousAssignments, this`timers
      modifies this`groupAssignments, this`partitionAssignments
      ensures Valid()
      ensures groups == RemoveGroup(old(groups), groupId)
      ensures groups != old(groups) ==> groupId !in GroupIds(groups) && groupId !in groupAssignments
      ensures groups != old(groups) ==>
                && consumers == TotalConsumers(groups) && consumers < old(consumers)
                && isRebalancing && previousAssignments == old(partitionAssignments)
                && timers == old(timers) + [AssignGroups(rebalanceStrategy, partitions, groups, old(groupAssignments) - {groupId})]
      ensures WithoutId(old(groups), groupId) != [] && |old(groupAssignments) - {groupId}| != 0 ==>
                groupAssignments == old(groupAssignments) - {groupId} && partitionAssignments == old(partitionAssignments)
      ensures WithoutId(old(groups), groupId) != [] && |old(groupAssignments) - {groupId}| == 0 ==>
                && AssignsGroups(rebalanceStrategy, partitions, groups, map[], groupAssignments)
                && groups[0].id in groupAssignments && partitionAssignments == groupAssignments[groups[0].id]
      ensures WithoutId(old(groups), groupId) == [] ==>
                && groups == old(groups) && groupAssignments == old(groupAssignments)
                && partitionAssignments == old(partitionAssignments) && consumers == old(consumers)
                && timers == old(timers) && isRebalancing == old(isRebalancing)
                && previousAssignments == old(previousAssignments)
    {
      if WithoutId(groups, groupId) != [] {
        WithoutIdLowersTotal(groups, groupId);
        DropGroup(groupId);
        RunConfigEffects();
      }
    }

    /** The state updates of a removal: the groups without the id, and the
        group assignments without the id's entry. */
    method DropGroup(groupId: string)
      requires Valid() && WithoutId(groups, groupId) != []
      modifies this`groups, this`groupAssignments
      ensures Sane()
      ensures groups == WithoutId(old(groups), groupId) && groupId !in GroupIds(groups)
      ensures groupAssignments == old(groupAssignments) - {groupId}
    {
      groups := WithoutId(groups, groupId);
      groupAssignments := groupAssignments - {groupId};
    }

    /** `updateGroupConsumers` (1 to 4 consumers); a new total rebalances. */
    method UpdateGroupConsumers(groupId: string, count: nat)
      requires Valid() && 1 <= count <= 4
      modifies this`groups, this`consumers, this`isRebalancing, this`previousAssignments, this`timers
      modifies this`groupAssignments, this`partitionAssignments
      ensures Valid()
      ensures groups == WithConsumers(old(groups), groupId, count) && consumers == TotalConsumers(groups)
      ensures consumers != old(consumers) ==>
                && isRebalancing && previousAssignments == old(partitionAssignments)
                && timers == old(timers) + [AssignGroups(rebalanceStrategy, partitions, groups, old(groupAssignments))]
      ensures consumers == old(consumers) ==>
                timers == old(timers) && isRebalancing == old(isRebalancing)
                && previousAssignments == old(previousAssignments)
      ensures groupAssignments == old(groupAssignments) && partitionAssignments == old(partitionAssignments)
    {
      groups := WithConsumers(groups, groupId, count);
      WithConsumersStaffed(old(groups), groupId, count);
      RunConfigEffects();
    }

    /** `updateGroupFilter`: the empty string clears the filter. A filter
        never changes the total, so it never starts a rebalance. */
    method UpdateGroupFilter(groupId: string, filter: string)
      requires Valid()
      modifies this`groups, this`consumers, this`isRebalancing, this`previousAssignments, this`timers
      modifies this`groupAssignments, this`partitionAssignments
      ensures Valid()
      ensures groups == WithFilter(old(groups), groupId, filter)
      ensures timers == old(timers) && isRebalancing == old(isRebalancing) && consumers == old(consumers)
      ensures groupAssignments == old(groupAssignments) && partitionAssignments == old(partitionAssignments)
      ensures previousAssignments == old(previousAssignments)
    {
      groups := WithFilter(groups, groupId, filter);
      WithFilterStaffed(old(groups), groupId, filter);
      FilterKeepsTotal(old(groups), groupId, filter);
      RunConfigEffects();
    }
  }
}
