/** Consumer groups as the configuration panel edits them: the id a new
    group gets, removal by id, the per-group consumer count and filter, the
    total consumer count the rebalance trigger compares, and the per-group
    assignments a rebalance computes. */
module Groups {
  import opened Loads
  import opened Messages
  import AssignmentEngine

  // ---------------------------------------------------------------------
  // Decimal numbers in group ids

  function Digit(d: nat): char
    requires d < 10
  {
    (48 + d) as char
  }

  function DigitValue(c: char): nat {
    if '0' <= c <= '9' then (c as int - 48) as nat else 0
  }

  /** The decimal numeral of n, as a template literal renders it. */
  function NatToString(n: nat): (s: string)
    ensures 1 <= |s|
    ensures forall i :: 0 <= i < |s| ==> '0' <= s[i] <= '9'
  {
    if n < 10 then [Digit(n)] else NatToString(n / 10) + [Digit(n % 10)]
  }

  /** The number a string of decimal digits denotes. */
  function DecimalValue(s: string): nat {
    if s == [] then 0 else DecimalValue(s[..|s| - 1]) * 10 + DigitValue(s[|s| - 1])
  }

  /** Reading the numeral back gives the number. */
  lemma {:induction false} NatToStringRoundTrip(n: nat)
    ensures DecimalValue(NatToString(n)) == n
  {
    if n >= 10 {
      NatToStringRoundTrip(n / 10);
      var s := NatToString(n);
      assert s[..|s| - 1] == NatToString(n / 10);
    }
  }

  /** `service-${consumerGroups.length + 1}`. */
  function NewGroupId(groups: seq<Group>): string {
    "service-" + NatToString(|groups| + 1)
  }

  /** Two group lists of different lengths name their new groups differently;
      lists of equal length name them alike. */
  lemma NewGroupIdInjective(gs: seq<Group>, hs: seq<Group>)
    ensures NewGroupId(gs) == NewGroupId(hs) <==> |gs| == |hs|
  {
    if NewGroupId(gs) == NewGroupId(hs) {
      var a, b := NatToString(|gs| + 1), NatToString(|hs| + 1);
      assert a == NewGroupId(gs)[8..] && b == NewGroupId(hs)[8..];
      NatToStringRoundTrip(|gs| + 1);
      NatToStringRoundTrip(|hs| + 1);
    }
  }

  /** `addConsumerGroup`: a new group with one consumer and no filter. */
  function AddGroup(groups: seq<Group>): (r: seq<Group>)
    ensures |r| == |groups| + 1 && r[..|groups|] == groups
    ensures r[|groups|] == Group(NewGroupId(groups), 1, None)
  {
    groups + [Group(NewGroupId(groups), 1, None)]
  }

  // ---------------------------------------------------------------------
  // Removal

  /** `consumerGroups.filter(g => g.id !== groupId)`. */
  function WithoutId(groups: seq<Group>, id: string): (r: seq<Group>)
    ensures |r| <= |groups|
    ensures forall g :: g in r <==> g in groups && g.id != id
  {
    if groups == [] then []
    else (if groups[0].id == id then [] else [groups[0]]) + WithoutId(groups[1..], id)
  }

  /** Filtering a list without the id changes nothing. */
  lemma {:induction false} WithoutIdAbsent(groups: seq<Group>, id: string)
    requires forall g :: g in groups ==> g.id != id
    ensures WithoutId(groups, id) == groups
  {
    if groups != [] {
      WithoutIdAbsent(groups[1..], id);
      assert groups == [groups[0]] + groups[1..];
    }
  }

  /** Filtering a list made only of the id empties it. */
  lemma {:induction false} WithoutIdOnly(groups: seq<Group>, id: string)
    requires forall g :: g in groups ==> g.id == id
    ensures WithoutId(groups, id) == []
  {
    if groups != [] {
      WithoutIdOnly(groups[1..], id);
    }
  }

  /** Filtering out the id of the front group of a list that has it nowhere
      else leaves the rest. */
  lemma DropFront(h: Group, rest: seq<Group>)
    requires forall g :: g in rest ==> g.id != h.id
    ensures WithoutId([h] + rest, h.id) == rest
  {
    assert ([h] + rest)[1..] == rest;
    WithoutIdAbsent(rest, h.id);
  }

  /** `removeConsumerGroup` as written: it refuses only when a single group
      is left, but then drops every group carrying the id. */
  function RemoveGroupAsWritten(groups: seq<Group>, id: string): seq<Group> {
    if |groups| > 1 then WithoutId(groups, id) else groups
  }

  /** `removeConsumerGroup` with the guard it evidently intends: it refuses
      whenever no group would be left. */
  function RemoveGroup(groups: seq<Group>, id: string): (r: seq<Group>)
    ensures groups != [] ==> r != []
    ensures r == WithoutId(groups, id) || r == groups
    ensures (exists g :: g in groups && g.id != id) ==> r == WithoutId(groups, id)
  {
    var rest := WithoutId(groups, id);
    if rest != [] then rest
    else
      assert forall g :: g in groups ==> g.id == id by {
        forall g | g in groups
          ensures g.id == id
        {
          assert g !in rest;
        }
      }
      groups
  }

  /** No two groups share an id. */
  predicate DistinctIds(groups: seq<Group>) {
    forall i, j :: 0 <= i < j < |groups| ==> groups[i].id != groups[j].id
  }

  /** While group ids are distinct, the intended guard and the written one
      agree on every id the panel offers. */
  lemma RemoveGroupAgrees(groups: seq<Group>, id: string)
    requires DistinctIds(groups)
    requires exists g :: g in groups && g.id == id
    ensures RemoveGroup(groups, id) == RemoveGroupAsWritten(groups, id)
  {
    var i :| 0 <= i < |groups| && groups[i].id == id;
    if |groups| > 1 {
      var j := if i == 0 then 1 else 0;
      assert groups[j] in groups && groups[j].id != id;
    } else {
      assert groups[0] in groups;
      assert forall g :: g in groups ==> g == groups[0];
      assert WithoutId(groups, id) == [];
    }
  }

  /** Removing the front group, whose id no other group has, from a list
      of at least two leaves the others. */
  lemma RemoveFront(h: Group, rest: seq<Group>)
    requires rest != [] && forall g :: g in rest ==> g.id != h.id
    ensures RemoveGroupAsWritten([h] + rest, h.id) == rest
  {
    DropFront(h, rest);
  }

  /** Adding a group to three and removing the first gives three again, the
      new group last. */
  lemma AddThenRemoveFirst(x: Group, y: Group, z: Group)
    requires x.id != y.id && x.id != z.id && NewGroupId([x, y, z]) != x.id
    ensures RemoveGroupAsWritten(AddGroup([x, y, z]), x.id) == [y, z, Group(NewGroupId([x, y, z]), 1, None)]
  {
    var s := Group(NewGroupId([x, y, z]), 1, None);
    assert AddGroup([x, y, z]) == [x] + [y, z, s];
    RemoveFront(x, [y, z, s]);
  }

  /** Adding to [y, z, s] a group named like s and removing y and z leaves
      two groups named like s. */
  lemma AddThenRemoveTwo(y: Group, z: Group, s: Group)
    requires y.id != z.id && s.id != y.id && s.id != z.id
    requires NewGroupId([y, z, s]) == s.id && s == Group(s.id, 1, None)
    ensures RemoveGroupAsWritten(RemoveGroupAsWritten(AddGroup([y, z, s]), y.id), z.id) == [s, s]
  {
    assert AddGroup([y, z, s]) == [y] + [z, s, s];
    RemoveFront(y, [z, s, s]);
    assert [z, s, s] == [z] + [s, s];
    RemoveFront(z, [s, s]);
  }

  /** The as-written removal empties the group list: from three groups, add
      one (`service-4`), remove the first, add one again (`service-4` a
      second time, as the list is back to three), then remove the other two
      originals; two groups are left, both called `service-4`, the guard lets
      the removal through, and it drops both. */
  lemma RemoveAsWrittenEmpties(x: Group, y: Group, z: Group)
    requires x.id != y.id && y.id != z.id && x.id != z.id
    requires NewGroupId([x, y, z]) !in {x.id, y.id, z.id}
    ensures var g2 := RemoveGroupAsWritten(AddGroup([x, y, z]), x.id);
            var g5 := RemoveGroupAsWritten(RemoveGroupAsWritten(AddGroup(g2), y.id), z.id);
            |g5| == 2 && RemoveGroupAsWritten(g5, NewGroupId([x, y, z])) == []
  {
    var s := Group(NewGroupId([x, y, z]), 1, None);
    var g2 := RemoveGroupAsWritten(AddGroup([x, y, z]), x.id);
    assert g2 == [y, z, s] by {
      AddThenRemoveFirst(x, y, z);
    }
    assert NewGroupId([y, z, s]) == s.id by {
      NewGroupIdInjective([y, z, s], [x, y, z]);
    }
    var g5 := RemoveGroupAsWritten(RemoveGroupAsWritten(AddGroup(g2), y.id), z.id);
    assert g5 == [s, s] by {
      AddThenRemoveTwo(y, z, s);
    }
    assert RemoveGroupAsWritten(g5, s.id) == [] by {
      WithoutIdOnly([s, s], s.id);
    }
  }

  /** The source's three starting groups. */
  const InitialGroups: seq<Group> := [
    Group("analytics-service", 2, None),
    Group("billing-service", 1, None),
    Group("account-001-processor", 1, Some("acc_001"))]

  /** From the starting groups that sequence of clicks leaves no group. */
  lemma InitialGroupsCanVanish()
    ensures var g := InitialGroups;
            var g2 := RemoveGroupAsWritten(AddGroup(g), g[0].id);
            var g5 := RemoveGroupAsWritten(RemoveGroupAsWritten(AddGroup(g2), g[1].id), g[2].id);
            |g5| == 2 && RemoveGroupAsWritten(g5, NewGroupId(g)) == []
  {
    var g := InitialGroups;
    assert |NatToString(4)| == 1;
    assert |NewGroupId(g)| == 9;
    RemoveAsWrittenEmpties(g[0], g[1], g[2]);
  }

  // ---------------------------------------------------------------------
  // Editing a group

  /** `updateGroupConsumers`: every group with the id gets count consumers. */
  function WithConsumers(groups: seq<Group>, id: string, count: nat): (r: seq<Group>)
    ensures |r| == |groups|
    ensures forall i :: 0 <= i < |r| ==>
              r[i].id == groups[i].id && r[i].filter == groups[i].filter
              && r[i].consumers == (if groups[i].id == id then count else groups[i].consumers)
  {
    seq(|groups|, i requires 0 <= i < |groups| =>
      if groups[i].id == id then groups[i].(consumers := count) else groups[i])
  }

  /** `updateGroupFilter`: every group with the id gets the filter, the empty
      string meaning none. */
  function WithFilter(groups: seq<Group>, id: string, filter: string): (r: seq<Group>)
    ensures |r| == |groups|
    ensures forall i :: 0 <= i < |r| ==>
              r[i].id == groups[i].id && r[i].consumers == groups[i].consumers
              && r[i].filter == (if groups[i].id != id then groups[i].filter
                                 else if filter == "" then None else Some(filter))
  {
    seq(|groups|, i requires 0 <= i < |groups| =>
      if groups[i].id == id then groups[i].(filter := if filter == "" then None else Some(filter)) else groups[i])
  }

  // ---------------------------------------------------------------------
  // Totals

  /** `consumerGroups.reduce((sum, group) => sum + group.consumers, 0)`. */
  function TotalConsumers(groups: seq<Group>): nat {
    if groups == [] then 0 else TotalConsumers(groups[..|groups| - 1]) + groups[|groups| - 1].consumers
  }

  /** Two lists with the same consumer counts, position by position, have
      the same total. */
  lemma {:induction false} TotalSameCounts(gs: seq<Group>, hs: seq<Group>)
    requires |gs| == |hs| && forall i :: 0 <= i < |gs| ==> gs[i].consumers == hs[i].consumers
    ensures TotalConsumers(gs) == TotalConsumers(hs)
  {
    if gs != [] {
      TotalSameCounts(gs[..|gs| - 1], hs[..|hs| - 1]);
    }
  }

  /** Changing a filter never changes the total, so it never rebalances. */
  lemma FilterKeepsTotal(groups: seq<Group>, id: string, filter: string)
    ensures TotalConsumers(WithFilter(groups, id, filter)) == TotalConsumers(groups)
  {
    TotalSameCounts(WithFilter(groups, id, filter), groups);
  }

  /** Adding a group adds its consumer to the total, so it always rebalances. */
  lemma AddGroupRaisesTotal(groups: seq<Group>)
    ensures TotalConsumers(AddGroup(groups)) == TotalConsumers(groups) + 1
  {
    assert AddGroup(groups)[..|groups|] == groups;
  }

  /** The total of two lists laid end to end is the sum of their totals. */
  lemma {:induction false} TotalConcat(a: seq<Group>, b: seq<Group>)
    ensures TotalConsumers(a + b) == TotalConsumers(a) + TotalConsumers(b)
    decreases |b|
  {
    if b == [] {
      assert a + b == a;
    } else {
      assert (a + b)[..|a + b| - 1] == a + b[..|b| - 1];
      TotalConcat(a, b[..|b| - 1]);
    }
  }

  /** Removing the groups with an id never raises the total, and when every
      group is staffed and one of them has the id it lowers it, so a
      removal always rebalances. */
  lemma {:induction false} WithoutIdLowersTotal(groups: seq<Group>, id: string)
    requires Staffed(groups)
    ensures TotalConsumers(WithoutId(groups, id)) <= TotalConsumers(groups)
    ensures id in GroupIds(groups) ==> TotalConsumers(WithoutId(groups, id)) < TotalConsumers(groups)
    ensures id !in GroupIds(groups) ==> WithoutId(groups, id) == groups
  {
    if id !in GroupIds(groups) {
      WithoutIdAbsent(groups, id);
    }
    if groups != [] {
      var h, rest := groups[0], groups[1..];
      assert groups == [h] + rest;
      assert Staffed(rest) by {
        forall i | 0 <= i < |rest|
          ensures rest[i].consumers >= 1
        {
          assert rest[i] == groups[i + 1];
        }
      }
      WithoutIdLowersTotal(rest, id);
      TotalConcat([h], rest);
      TotalConcat(if h.id == id then [] else [h], WithoutId(rest, id));
      assert TotalConsumers([h]) == h.consumers by {
        assert [h][..0] == [];
      }
      if id in GroupIds(groups) && h.id != id {
        var g :| g in groups && g.id == id;
        assert g in rest;
      }
    }
  }

  /** Every group has at least one consumer. */
  predicate Staffed(groups: seq<Group>) {
    forall i :: 0 <= i < |groups| ==> groups[i].consumers >= 1
  }

  /** With every group staffed, there are at least as many consumers as
      groups. */
  lemma {:induction false} TotalAtLeast(groups: seq<Group>)
    requires Staffed(groups)
    ensures TotalConsumers(groups) >= |groups|
  {
    if groups != [] {
      assert groups[|groups| - 1] in groups;
      TotalAtLeast(groups[..|groups| - 1]);
    }
  }

  // ---------------------------------------------------------------------
  // Per-group assignments

  function GroupIds(groups: seq<Group>): set<string> {
    set g | g in groups :: g.id
  }

  /** The consumer count of the last group carrying id (0 if none does):
      when ids repeat, the last group's assignment is the one kept. */
  function ConsumersOf(groups: seq<Group>, id: string): nat {
    if groups == [] then 0
    else if groups[|groups| - 1].id == id then groups[|groups| - 1].consumers
    else ConsumersOf(groups[..|groups| - 1], id)
  }

  /** The ids and last counts of a prefix one longer. */
  lemma GroupsExtend(groups: seq<Group>, i: nat)
    requires i < |groups|
    ensures GroupIds(groups[..i + 1]) == GroupIds(groups[..i]) + {groups[i].id}
    ensures forall id :: ConsumersOf(groups[..i + 1], id)
                         == if id == groups[i].id then groups[i].consumers else ConsumersOf(groups[..i], id)
  {
    var next := groups[..i + 1];
    assert next == groups[..i] + [groups[i]];
    assert next[..i] == groups[..i] && next[i] == groups[i];
    forall id
      ensures ConsumersOf(next, id) == if id == groups[i].id then groups[i].consumers else ConsumersOf(groups[..i], id)
    {
    }
  }

  /** The last group carrying an id of a staffed list has a consumer. */
  lemma {:induction false} ConsumersOfStaffed(groups: seq<Group>, id: string)
    requires Staffed(groups) && id in GroupIds(groups)
    ensures ConsumersOf(groups, id) >= 1
  {
    var last := groups[|groups| - 1];
    if last.id != id {
      var front := groups[..|groups| - 1];
      var g :| g in groups && g.id == id;
      assert g in front by {
        assert groups == front + [last];
      }
      ConsumersOfStaffed(front, id);
    }
  }

  /** m holds, for every group id and nothing else, an assignment of the
      partitions among the consumers of the last group with that id, made by
      the strategy from that id's previous assignment (`|| {}`). */
  ghost predicate AssignsGroups(strategy: string, P: nat, groups: seq<Group>,
                                previous: map<string, Assignment>, m: map<string, Assignment>)
  {
    && (forall id :: id in m <==> id in GroupIds(groups))
    && forall id :: id in m ==>
         ConsumersOf(groups, id) >= 1
         && AssignmentEngine.Follows(strategy, P, ConsumersOf(groups, id), AssignmentOf(previous, id), m[id])
  }

  /** The loop over `consumerGroups` that fills `newGroupAssignments`
      (and `initialGroupAssignments`): one `calculateAssignments` per group,
      a later group overwriting an earlier one with the same id. */
  method AssignAllGroups(strategy: string, P: nat, groups: seq<Group>, previous: map<string, Assignment>)
    returns (m: map<string, Assignment>)
    requires Staffed(groups)
    ensures AssignsGroups(strategy, P, groups, previous, m)
  {
    m := map[];
    var i := 0;
    while i < |groups|
      invariant i <= |groups|
      invariant AssignsGroups(strategy, P, groups[..i], previous, m)
    {
      var group := groups[i];
      assert group in groups;
      var a := AssignmentEngine.CalculateAssignments(strategy, P, group.consumers, AssignmentOf(previous, group.id));
      GroupsExtend(groups, i);
      m := m[group.id := a];
      i := i + 1;
    }
    assert groups[..i] == groups;
  }
}
