# Kafka visualiser: a verified model of the simulation core

The Kafka visualiser is a React page that simulates a Kafka topic. A
producer emits keyed messages, a hash picks each message's partition,
and several consumer groups read the partitions at their own speed. A
rebalance protocol hands partitions to consumers with one of three
strategies: range, round-robin or sticky. All of this lives in
`src/App.jsx`. The model lifts the simulation rules out of the
component's hooks and states what they guarantee.

Modules (one per part of `src/App.jsx`):

- `Partitioner` (`partitioner.dfy`): `getPartition`. The shift-and-subtract
  string hash over UTF-16 code units, with 32-bit wrap-around written out.
  It is proved equal to the `java.lang.String.hashCode` recurrence and to
  the polynomial reduced modulo 2^32. The partition is its absolute value
  modulo the partition count.
- `KeyTemplate` (`keytemplate.dfy`): `extractPartitionKey`. The
  `\b<field>\b` replacement and the `(\w+):(\w+)` pair rewrite are written
  as scanners over `seq<char>`. Word characters are `[A-Za-z0-9_]`. A
  word that names no field of the message can still name a property that
  every object inherits (`constructor`, `toString`, ...), and the lookup
  then yields what that property prints as.
- `Messages` (`messages.dfy`): the message record, and the rules written as
  expressions:
  - `String.prototype.includes`, the group filter and the rate multiplier;
  - the number of messages a group takes from a partition;
  - the stable sort by timestamp;
  - the `slice(-100)` trim and the ten-second eviction.
- `Processing` (`processing.dfy`): the once-a-second processing pass. It is
  a specification function (`Tick`) plus methods that overwrite an array of
  messages in place (`FindIndex`, `MarkOldest`, `ProcessPartitionInPlace`,
  `RunTick`). The methods are proved to compute that function.
- `Loads` and `AssignmentEngine` (`loads.dfy`, `assignment.dfy`):
  `calculateAssignments` for range, round-robin and the round-robin
  default. Each strategy is a method with loops, plus lemmas on how many
  partitions each consumer receives.
- `Sticky` (`sticky.dfy`): the sticky strategy's three passes over a
  partition-count array. The passes are keep, place orphans, and shed
  excess. Each pass is also written as a function of its inputs, and the
  methods are proved to compute those functions.
- `Groups` (`groups.dfy`): adding, removing and editing consumer groups, the
  total consumer count, and assigning every group.
- `Simulator` (`simulator.dfy`): the component's state as a class.
  - Every interval and timeout is an event method the environment calls.
  - Every panel edit is a method that changes the configuration and then
    runs the two effects that depend on it, in declaration order: the
    rebalance trigger (lines 406-442), then the first-load
    initialisation (lines 470-490).

The rates are exact. The processing rate is kept in tenths (the slider
moves from 0.1 to 1.5 in steps of 0.1), and so is the group multiplier
(0.8, 1, 1.2, 1.5). So `Math.floor(n * rate * multiplier)` becomes
`(n * rateTenths * multTenths) / 100` with no rounding.

The comment at line 188 says filtered groups process faster. The code
tests "analytics" first, then "billing", then the filter (lines 186-189),
so a filtered group whose id contains "analytics" or "billing" gets 0.8 or
1.2, not 1.5. The model follows the code.

## Model

| member | source | states |
|---|---|---|
| Partitioner.Wrap32 | src/App.jsx:91 | `hash & hash` gives the signed 32-bit integer congruent to the input modulo 2^32 |
| Partitioner.CodeUnits | src/App.jsx:89 | `charCodeAt` reads UTF-16 code units: one unit below U+10000, otherwise two, each below 0x10000 |
| Partitioner.HashStepIsJavaStep | src/App.jsx:90-91 | for every 32-bit hash, `((h << 5) - h) + c` wrapped to 32 bits equals `31 * h + c` wrapped to 32 bits |
| Partitioner.HashIsJavaHash | src/App.jsx:87-92 | the loop's hash is always a 32-bit value and equals the `String.hashCode` fold over the same code units |
| Partitioner.HashIsPolynomialMod32 | src/App.jsx:87-92 | the loop's hash is the polynomial sum of unit[i]*31^(n-1-i), reduced to signed 32 bits |
| Partitioner.GetPartition | src/App.jsx:86-94 | the loop yields a partition below the partition count, equal to the specification function of the key |
| Partitioner.PartitionIsJavaHash | src/App.jsx:93 | the partition is the absolute value of the wrapped polynomial hash modulo the partition count; that absolute value is at most 2^31 |
| KeyTemplate.WordEnd | src/App.jsx:73 | `\w+` matching from i ends at the first non-word character or at the end |
| KeyTemplate.Lookup | src/App.jsx:74-75 | `messageData[f] \|\| f`: the first own field with that name gives its value when that value is non-empty, and the name otherwise; with no such field, a name inherited from `Object.prototype` (`constructor`, `toString`, `__proto__` and the rest) gives what that property prints as, and any other name gives itself |
| KeyTemplate.ReplaceWordInWord | src/App.jsx:69 | replacing a whole-word field name inside a template that is a single word gives the value exactly when the template is that name, otherwise the template unchanged |
| KeyTemplate.ReplaceWordSplit | src/App.jsx:69 | a non-word separator splits the replacement: the two sides are rewritten independently |
| KeyTemplate.SubstituteFieldsSplit | src/App.jsx:67-70 | the same split holds for substituting every field in turn |
| KeyTemplate.ResolvePairOfWords | src/App.jsx:73-77 | `word:word` is rewritten to the lookup of each side joined by `:` |
| KeyTemplate.SubstituteFieldName | src/App.jsx:67-70 | a template that is one field's name becomes that field's value, when no field is named like the value |
| KeyTemplate.PairOfNonFields | src/App.jsx:64-83 | a `word:word` template whose words name no field becomes the lookup of each side joined by `:`: an inherited name is replaced by what it prints as, any other word is kept |
| KeyTemplate.PairOfUnknownWords | src/App.jsx:64-83 | a `word:word` template naming neither a field nor an inherited property comes back unchanged |
| KeyTemplate.PairOfFields | src/App.jsx:64-83 | a `name:name` template of two fields becomes `value:value`, when neither value names a field or an inherited property |
| KeyTemplate.SourceFields | src/App.jsx:16-22 | the page's five fields are well formed and appear in declaration order |
| KeyTemplate.ExampleCompositeKey | src/App.jsx:1071 | `account_id:record_id` resolves to the account value, `:`, then the record value |
| KeyTemplate.ExampleSuffixUnchanged | src/App.jsx:69 | `account_id_suffix` is not a whole-word match and stays unchanged |
| KeyTemplate.ExampleUnknownPair | src/App.jsx:73-77 | a pair naming no field (`tenant:shard`) is kept literally |
| KeyTemplate.ExampleConstructorKey | src/App.jsx:73-77 | `constructor:x` resolves to the printed function `Object`, then `:x`, because `constructor` is inherited by every message object |
| Messages.UniqueIdsFront | src/App.jsx:107 | dropping the newest message keeps ids unique, and no older message shares its id |
| Messages.IncludesFrom | src/App.jsx:177-179 | the scan from i answers true exactly when the substring occurs at some position j at or after i |
| Messages.Includes | src/App.jsx:177-179 | `includes` answers true exactly when the substring occurs somewhere |
| Messages.MultiplierTenths | src/App.jsx:186-189 | the multiplier is one of 0.8, 1, 1.2, 1.5; an id containing "analytics" always gets 0.8, checked first; 1.5 only for a group with a filter |
| Messages.ToProcess | src/App.jsx:191 | the count is the floor of candidates times rate times multiplier: k*100 <= n*rate*mult < (k+1)*100 |
| Messages.ToProcessBounds | src/App.jsx:191 | at an effective rate of at most 1 the count never exceeds the candidates; above 1 it does (10 candidates at 1.5 x 1.2 give 18) |
| Messages.Candidates | src/App.jsx:169-183 | a message is a candidate exactly when it is in the buffer, in partition p, not processed by the group, and passes the group's filter |
| Messages.AppendSorted | src/App.jsx:194 | appending a message no older than the rest keeps the sequence sorted by timestamp |
| Messages.InsertSorted | src/App.jsx:194 | one insertion step keeps the sequence sorted and adds exactly the inserted message |
| Messages.SortSorted | src/App.jsx:194 | the sort yields a timestamp-ordered permutation of its input |
| Messages.InsertStable | src/App.jsx:194 | insertion puts the message after every message with its own timestamp: for each timestamp, the messages carrying it keep their order |
| Messages.SortStable | src/App.jsx:194 | the sort is stable: for each timestamp, the messages carrying it come out in their input order |
| Messages.UniqueAppend | src/App.jsx:107 | appending a message with a fresh id keeps ids unique |
| Messages.InsertUnique | src/App.jsx:194 | insertion keeps ids unique and holds exactly the old messages plus the new one |
| Messages.SortUnique | src/App.jsx:194 | sorting keeps ids unique and the same set of messages |
| Messages.LastN | src/App.jsx:131 | `slice(-100)` keeps min(length, 100) messages, and they are the newest, in arrival order |
| Messages.LastNAppend | src/App.jsx:131 | trimming before appending and trimming again gives the same buffer as trimming once |
| Messages.Retain | src/App.jsx:270 | eviction keeps exactly the messages younger than 10000 ms |
| Messages.RetainAppend | src/App.jsx:270 | eviction distributes over concatenation, so arrival order is preserved |
| Messages.RetainIdempotent | src/App.jsx:270 | a second eviction at the same time changes nothing; a buffer of fresh messages is left intact |
| Messages.CountAppend | src/App.jsx:109 | appending a message raises its own partition's count by one and leaves the others |
| Processing.EvolvesAllTrans | src/App.jsx:198-205 | "only ever marked further" composes over successive passes |
| Processing.EvolvesKeepsUnique | src/App.jsx:198-205 | marking messages never changes their ids, so ids stay unique |
| Processing.MarkWhereEvolves | src/App.jsx:198-205 | marking keeps every message's identity and data; it adds the group to `processedByGroups` and sets `processedAt` only when it was null |
| Processing.OldestSubset | src/App.jsx:194-196 | the chosen messages are candidates |
| Processing.OldestUnique | src/App.jsx:194-196 | the chosen messages have distinct ids |
| Processing.OldestFirst | src/App.jsx:194-196 | every chosen message is no younger than every candidate left unchosen |
| Processing.IdPinsMessage | src/App.jsx:196 | in a buffer with unique ids, `findIndex` by id lands on the chosen message itself |
| Processing.ProcessPartitionEvolves | src/App.jsx:195-216 | one partition's pass only marks messages further and keeps ids unique |
| Processing.ProcessPartitionEvolvesFrom | src/App.jsx:195-216 | the same holds counted from any earlier buffer of the tick |
| Processing.ProcessPartitionFrame | src/App.jsx:169-216 | a message that is not a candidate for the group and partition is left exactly as it was |
| Processing.ProcessPartitionCount | src/App.jsx:191-216 | exactly min(k, candidates) messages become processed by the group; its offset for p rises by that number; every other offset is unchanged |
| Processing.ProcessPartitionOldestFirst | src/App.jsx:194-216 | a message the pass marks is never younger than a candidate it leaves |
| Processing.ProcessPartitionDrains | src/App.jsx:191-216 | at an effective rate of at least 1 no candidate is left after the pass |
| Processing.LagBounds | src/App.jsx:223 | the lag lies between 0 and the candidate count at an effective rate up to 1; above 1 it is minus the floor of the excess, and negative exactly when the excess reaches a whole message |
| Processing.ProcessPartitionLag | src/App.jsx:219-230 | the first group's pass records candidates minus k as partition p's lag, leaving other partitions' lag; other groups record nothing |
| Processing.SweepPartitionsEvolves | src/App.jsx:166-231 | the pass over all partitions only marks further and keeps ids unique |
| Processing.SweepPartitionsFrame | src/App.jsx:166-167 | messages of a partition the group has no assignment entry for are untouched |
| Processing.SweepGroupsEvolves | src/App.jsx:162-232 | the whole tick only marks further and keeps ids unique |
| Processing.SweepUnassigned | src/App.jsx:163-167 | a group without an assignment (`\|\| {}`) changes nothing |
| Processing.FindIndex | src/App.jsx:196 | `findIndex`: -1 exactly when no message has the id, otherwise the first index with it |
| Processing.MarkOldest | src/App.jsx:195-216 | the in-place loop marks exactly the ids of the first min(k, candidates) sorted messages and bumps the offset by that number |
| Processing.MarkPartition | src/App.jsx:194-216 | sorting and then the marking loop mark exactly the oldest k candidates |
| Processing.ProcessPartitionInPlace | src/App.jsx:169-230 | the in-place pass over one partition computes the specification pass: buffer, offsets and lag |
| Processing.RunTick | src/App.jsx:155-234 | the tick over a copy of the buffer computes the specification tick |
| Loads.AssignmentOf | src/App.jsx:365-367 | `groupAssignments[id] \|\| {}`: the group's assignment, or the empty one |
| Loads.CeilBounds | src/App.jsx:331 | `Math.ceil(P / C)` is the least t with C*t >= P |
| Loads.LeastIndexIsLeast | src/App.jsx:325 | the left-to-right scan picks an index of minimal count, and every lower index has a larger count |
| Loads.LeastLoaded | src/App.jsx:325 | `indexOf(Math.min(...counts))`: a consumer of minimal count, the lowest-indexed one, and the loop computes the scan's index |
| AssignmentEngine.RangeStartClosedForm | src/App.jsx:287-296 | consumer c's range starts at c*floor(P/C) + min(c, P mod C) |
| AssignmentEngine.RangeStartEnd | src/App.jsx:291-297 | the last range ends at P, so every partition is covered |
| AssignmentEngine.RangeAssign | src/App.jsx:285-298 | the nested loops assign each consumer its contiguous block, and exactly the partitions [0, P) |
| AssignmentEngine.AssignBlock | src/App.jsx:293-296 | the inner loop sets partitions [from, from+count) to c and leaves the rest |
| AssignmentEngine.RangeIsOrdered | src/App.jsx:285-298 | owners are non-decreasing in partition index |
| AssignmentEngine.RangeBlock | src/App.jsx:285-298 | partition q belongs to c exactly when it lies in c's block |
| AssignmentEngine.RangeLoad | src/App.jsx:292 | consumer c receives floor(P/C) + (1 if c < P mod C else 0) partitions |
| AssignmentEngine.RangeIsBalanced | src/App.jsx:285-298 | every consumer's load is its fair share |
| AssignmentEngine.RoundRobinAssign | src/App.jsx:300-305 | every partition p in [0, P) goes to p mod C |
| AssignmentEngine.RoundRobinLoad | src/App.jsx:302-304 | over the first n partitions, consumer c receives its fair share of n |
| AssignmentEngine.RoundRobinIsBalanced | src/App.jsx:300-305 | round-robin gives every consumer its fair share too |
| AssignmentEngine.CalculateAssignments | src/App.jsx:281-358 | the result is complete over [0, P) with owners in [0, C); `range` gives ranges, `sticky` exactly the three-pass result with the sticky properties, any other name round-robin |
| Sticky.AddCount | src/App.jsx:317 | `counts[c]++` raises exactly that entry, and the total by one |
| Sticky.MoveCount | src/App.jsx:344-345 | one partition moves from y's count to x's; every other entry and the total are unchanged |
| Sticky.KeepSurvivors | src/App.jsx:309-321 | the first pass yields exactly the partitions whose previous owner is below C, each with that owner; the counts are that assignment's loads; the other partitions are listed in ascending order |
| Sticky.PlaceOrphans | src/App.jsx:323-328 | the second pass equals the replay in which each orphan, in list order, goes to the lowest-indexed least-loaded consumer; every partition below P is then placed, kept partitions keep their owner, and a consumer above ceil(P/C) holds only partitions it held before |
| Sticky.PlaceOne | src/App.jsx:324-327 | one orphan goes to the lowest-indexed least-loaded consumer, whose count rises by one; the second pass's invariant is kept |
| Sticky.GivePartition | src/App.jsx:325-327 | the partition goes to a consumer of minimal count, the lowest-indexed one; only that count rises, by one |
| Sticky.Overloaded | src/App.jsx:332-334 | the snapshot lists, in ascending order, exactly the consumers over the target |
| Sticky.OverListMembers | src/App.jsx:332-334 | the list of consumers over the target holds exactly those consumers, in ascending order |
| Sticky.OwnedBy | src/App.jsx:337-338 | `Object.keys(assignments).filter(...)` lists c's partitions in ascending order, all of them |
| Sticky.ShedExcess | src/App.jsx:336-346 | one overloaded consumer gives the partitions it holds beyond its first ceil(P/C), in partition order, one at a time to the lowest-indexed least-loaded consumer; it ends within the target; partitions it did not hold before are unchanged |
| Sticky.MoveOne | src/App.jsx:341-346 | the next excess partition moves to the lowest-indexed least-loaded consumer, chosen before the counts change; the third pass's invariant is kept; no other consumer's partition changes |
| Sticky.MovePartition | src/App.jsx:341-345 | the receiver is the lowest-indexed consumer of minimal count before the move; the shedder's count falls by one and the receiver's rises by one; the total is unchanged |
| Sticky.FinishShedding | src/App.jsx:330-347 | once every overloaded consumer is processed, the assignment is sticky |
| Sticky.ShedOverloaded | src/App.jsx:330-347 | the third pass walks the replay trace in which each listed overloaded consumer, in list order, sheds its excess, and ends in its last state; partitions placed as orphans in the second pass keep their consumer; afterwards no consumer is over the target |
| Sticky.ShedNext | src/App.jsx:336-346 | one round of the third pass: the next listed consumer sheds, moving the state one step along the replay trace; the consumers still to shed shrink by that one; orphans keep their consumer |
| Sticky.MoveExcess | src/App.jsx:341-346 | the inner loop moves exactly the consumer's partitions beyond its first ceil(P/C), in partition order, as the replay of single moves does; partitions the consumer did not hold are unchanged |
| Sticky.TraceOf | src/App.jsx:330-347 | the states the replay of the third pass goes through form a trace from its start, each step one consumer shedding, whose last state is the whole replay |
| Sticky.StickyAssign | src/App.jsx:307-348 | the result is exactly the three passes written as functions: keep, place with the lowest-indexed least-loaded consumer, shed in partition order; it is complete over [0, P) with owners in [0, C); no consumer holds more than ceil(P/C); a partition keeps its previous owner exactly when that owner is below C and the partition is among the first ceil(P/C) it held before; an orphan ends with the consumer the second pass gave it |
| Sticky.ExampleFreshStart | src/App.jsx:307-348 | with no previous assignment, two partitions and two consumers, partition 0 goes to consumer 0 and partition 1 to consumer 1 |
| Sticky.ExampleConsumerJoins | src/App.jsx:307-348 | when a second consumer joins a single consumer holding three partitions, partition 2 moves to consumer 1 and the others stay |
| Sticky.ExampleIdleConsumer | src/App.jsx:330-334 | when a third consumer joins two that hold two partitions each, nobody is over ceil(4/3) = 2, nothing moves, and the new consumer holds no partition |
| Groups.NatToString | src/App.jsx:371 | the template literal prints a non-empty string of decimal digits |
| Groups.NatToStringRoundTrip | src/App.jsx:371 | reading those digits back gives the number |
| Groups.NewGroupIdInjective | src/App.jsx:371 | `service-${length + 1}` names coincide exactly when the list lengths do |
| Groups.AddGroup | src/App.jsx:370-381 | adding appends one group named after the new length, with one consumer and no filter, and keeps the others |
| Groups.WithoutId | src/App.jsx:385 | the filter keeps exactly the groups with another id |
| Groups.WithoutIdAbsent | src/App.jsx:385 | removing an id no group has changes nothing |
| Groups.WithoutIdOnly | src/App.jsx:385 | removing the id every group has leaves nothing |
| Groups.RemoveGroupAsWritten | src/App.jsx:383-392 | see Findings: the guard tests the list length, not what the filter leaves |
| Groups.RemoveGroup | src/App.jsx:383-392 | removal never empties a non-empty list; it drops exactly the groups with the id whenever another group remains, and otherwise changes nothing |
| Groups.RemoveGroupAgrees | src/App.jsx:383-392 | with distinct ids and the id present, the guarded removal agrees with the source |
| Groups.RemoveAsWrittenEmpties | src/App.jsx:370-392 | three adds and removes leave two groups both named by the same `service-N`, and removing that name empties the list |
| Groups.InitialGroupsCanVanish | src/App.jsx:8-12 | starting from the page's three groups, that sequence of clicks leaves no group |
| Groups.WithConsumers | src/App.jsx:394-398 | every group with the id gets the count; everything else is unchanged |
| Groups.WithFilter | src/App.jsx:400-404 | every group with the id gets the filter, and the empty string clears it; everything else is unchanged |
| Groups.FilterKeepsTotal | src/App.jsx:400-404 | editing a filter never changes the total consumer count |
| Groups.AddGroupRaisesTotal | src/App.jsx:375-380 | adding a group raises the total by exactly one |
| Groups.TotalAtLeast | src/App.jsx:408 | with every group staffed, the total is at least the number of groups |
| Groups.WithoutIdLowersTotal | src/App.jsx:385 | removing the groups with an id never raises the total, lowers it when a staffed list holds the id, and changes nothing when it does not |
| Groups.AssignAllGroups | src/App.jsx:420-429 | every group id, and no other key, gets an assignment by the strategy, from that id's previous assignment, among the consumers of the last group with that id |
| Simulator.KeepNewestUnique | src/App.jsx:131 | appending a fresh message and trimming keeps ids unique and at most 100 messages, the new one last |
| Simulator.RetainUnique | src/App.jsx:270 | eviction keeps ids unique |
| Simulator.InitialTotal | src/App.jsx:8-12 | the initial groups hold four consumers between them |
| Simulator.GroupsTimerResult | src/App.jsx:418-432 | the two-second callback assigns every group and shows the first group's assignment |
| Simulator.Simulator.constructor | src/App.jsx:5-40 | the initial state after the first render's effects: 3 partitions, rate 0.8, `range`, the three groups, 4 consumers, an empty buffer, empty offsets and lag, a pending group timer and every group already assigned |
| Simulator.Simulator.GenerateMessage | src/App.jsx:97-118 | the counter advances by one; the message's key is the resolved template and its partition the key's hash; its global order is the new counter; its offset is the buffered count in that partition; it is unprocessed |
| Simulator.Simulator.AppendMessage | src/App.jsx:131 | the buffer becomes the newest 100 of the old buffer plus the message, which is last |
| Simulator.Simulator.Produce | src/App.jsx:121-131 | one produced message: generated as above and appended with the trim |
| Simulator.Simulator.Cleanup | src/App.jsx:268-273 | the buffer keeps exactly its messages younger than ten seconds |
| Simulator.Simulator.ProcessTick | src/App.jsx:151-265 | nothing changes while rebalancing; otherwise the buffer, offsets and lag become the specification tick's |
| Simulator.Simulator.ConsumerForPartition | src/App.jsx:360-363 | no owner exactly while rebalancing; otherwise the display mapping's owner, or p mod the consumer count when the mapping has none |
| Simulator.Simulator.TriggerRebalance | src/App.jsx:406-442 | when the total differs from the recorded count or no group has an assignment: record the total, raise the flag, snapshot the display mapping and start a timer with the current configuration; otherwise nothing changes |
| Simulator.Simulator.InitAssignments | src/App.jsx:470-490 | with no group assignment yet, every group is assigned from scratch and the first group's assignment is shown; otherwise nothing changes |
| Simulator.Simulator.RunConfigEffects | src/App.jsx:406-490 | the trigger then the first-load effect; afterwards the recorded count is the total and some group has an assignment; when a group already had an assignment, the group assignments and the display mapping stay until a timer fires; when nothing needed rebalancing, nothing changes |
| Simulator.Simulator.FireGroupsTimer | src/App.jsx:417-440 | a pending group timer assigns every captured group from its captured previous assignment, shows the first, and starts the one-second timer |
| Simulator.Simulator.ShowGroupAssignments | src/App.jsx:434-439 | the state updates of that callback |
| Simulator.Simulator.FireDisplayTimer | src/App.jsx:451-458 | a pending strategy-change timer reassigns only the display mapping, among the captured total count, and starts the one-second timer |
| Simulator.Simulator.ShowDisplayAssignments | src/App.jsx:453-457 | the state updates of that callback |
| Simulator.Simulator.FireResumeTimer | src/App.jsx:437-439 | the one-second timer lowers the flag |
| Simulator.Simulator.HandleStrategyChange | src/App.jsx:445-460 | a different strategy is recorded; the flag is raised and the display mapping snapshotted; a display timer starts with the recorded consumer count; group assignments and the display mapping are left as they are; the same strategy changes nothing |
| Simulator.Simulator.SetPartitions | src/App.jsx:525-531 | the slider sets 1 to 6 partitions; the effects find nothing to rebalance, so the flag, the snapshot, the timers and all assignments stay |
| Simulator.Simulator.SetProcessingRate | src/App.jsx:554-561 | the slider sets the rate, from 0.1 to 1.5 |
| Simulator.Simulator.SetPartitionKeyTemplate | src/App.jsx:587-591 | the input sets the template |
| Simulator.Simulator.AddConsumerGroup | src/App.jsx:370-381 | one group is added, the total rises by one, and a rebalance starts with the group timer; the display mapping is snapshotted and stays until a timer fires |
| Simulator.Simulator.RemoveConsumerGroup | src/App.jsx:383-392 | the corrected removal: the id's groups and its assignment go whenever another group remains, and the list is never emptied; a removal that drops a group lowers the total, so it always raises the flag, snapshots the display mapping and starts a group timer over the remaining assignments; the other groups' assignments and the display mapping stay unless none is left, when every group is assigned afresh; a refused removal changes nothing |
| Simulator.Simulator.DropGroup | src/App.jsx:385-390 | the state updates of a removal: the groups without the id, and the assignments without the id's entry |
| Simulator.Simulator.UpdateGroupConsumers | src/App.jsx:394-398 | a new consumer count; a changed total raises the flag, snapshots the display mapping and starts a group timer; an unchanged one leaves the flag, the snapshot and the timers; group assignments and the display mapping stay in both cases |
| Simulator.Simulator.UpdateGroupFilter | src/App.jsx:400-404 | a new filter; the total is unchanged, so no rebalance starts and the flag, the snapshot, the timers and all assignments stay |

## Left out

- Floating point: the processing rate and the multipliers are exact tenths. The slider's 0.1 steps and the four multipliers are all tenths, so `Math.floor` of their product is computed exactly. Binary floating-point rounding of products such as 0.7 * 1.2 is not modelled.
- Throughput metrics are not modelled: the produced and consumed counters and histories, `partitionThroughput`, and `getRecentThroughput` (lines 133-141, 236-258, 463-468). They are display statistics computed with floating point and the clock.
- The lag's `oldestTimestamp` and `lagMs` (lines 224-228) are left out. They depend on `Date.now()`. Only the lag count is modelled.
- Random message data and ids: the field values (`generateMessageData`, lines 55-61), the clock and the message id (`Date.now() + Math.random()`) are parameters of `Produce`. The id is a natural number that the caller keeps fresh.
- The producer's batch size is not modelled: `Produce` is one message. The batch size comes from `messageRate`, and an interval with several messages is that many `Produce` calls. `isRunning`, `messageRate` and the start and stop of the producer interval are left out.
- Real time: intervals and timeouts are event methods that the environment may call in any order. Pending timers carry the values their callbacks captured. Nothing is cancelled, as in the source.
- React batching and stale closures are not modelled. Within one event the model runs the updates in program order, and every event reads the current state.
- Simulator.Simulator.Produce: reads the current counter and buffer, but in the source the producer interval is recreated only when `isRunning`, the template, `partitions` or `messageRate` change (line 148). It keeps calling the `generateMessage` of the render that created it. So every message it produces, across ticks, carries the same `globalOrder` (the counter at setup plus one), and its offset counts the buffer as it was at setup, until one of those dependencies changes.
- Simulator.Simulator.ProcessTick: reads the current group assignments, but the processing interval is recreated only when `partitions`, `processingRate`, `isRebalancing` or the groups change (line 265). It keeps the `groupAssignments` it was created with, so a group timer that fires after the flag was lowered is not seen by it.
- `getKeyColor`, colours, `showOrderingDemo`, `getPartitionMessages` and all JSX rendering (lines 44-52, 276-278, 492 onwards) are presentation only. `src/components/Home.jsx` is a static placeholder and is not part of this model.
- KeyTemplate.ExtractPartitionKey: a `$` pattern inside a field value (`$&`, `$1`) is inserted literally rather than expanded. The page's fixed field values contain no `$`. The `catch` fallback cannot be reached, because a pattern built from a word always compiles.
- Sticky.StickyAssign: minimality of the moves is not proved. The strategy's description (lines 1111-1112) promises to minimise reassignments. Relative to the ceiling the code enforces, this follows from the keep-iff clause: any complete assignment with no load above ceil(P/C) keeps at most min(n, ceil(P/C)) of the n partitions a surviving consumer held, and the sticky result keeps exactly that many. The model states the result exactly instead, as the three passes written as functions. The code does not give every consumer floor(P/C) partitions either: `ExampleIdleConsumer` leaves a new consumer with none.
- KeyTemplate.Lookup: the inherited names are the twelve properties `Object.prototype` defines, printed in V8's wording (`function toString() { [native code] }`). Other engines print native functions differently. Properties that a script adds to `Object.prototype` are not modelled.

## Findings

| source | as written | input that shows it | evidently intended | confidence | as-written member | corrected member |
|---|---|---|---|---|---|---|
| src/App.jsx:383-392 | the guard checks that more than one group exists, but the filter then removes every group with the id, and `addConsumerGroup` can name two groups alike (`service-${length + 1}`) | from the three initial groups: add (`service-4`), remove `analytics-service`, add (`service-4` again), remove `billing-service`, remove `account-001-processor`; two groups named `service-4` remain, the guard lets the removal of `service-4` through, and no group is left | removing a group never leaves the page without a consumer group | not executed | Groups.RemoveAsWrittenEmpties | Groups.RemoveGroup |
