/**
 The two halves of the concat rebalancer that only count and move slots:
 planning how many slots each node shall have, and regrouping the slots of the
 old nodes accordingly.
 */
module ConcatPlan {
  import opened Seqs
  import opened Nodes

  /** RRB_EXTRAS: slots tolerated beyond the optimum. */
  const EXTRAS: nat := 2
  /** RRB_INVARIANT: a node with more than BRANCHING - INVARIANT slots is left alone. */
  const INVARIANT: nat := 1

  /** The slot counts of a sequence of nodes. */
  function SlotsOf<T>(kids: seq<Node<T>>): (r: seq<nat>)
    ensures |r| == |kids|
  {
    seq(|kids|, k requires 0 <= k < |kids| => Slots(kids[k]))
  }

  /** The fewest nodes that can hold `total` slots. */
  function OptimalSlots(total: nat): (r: int) {
    (total - 1) / BRANCHING + 1
  }

  ghost predicate InRange(s: seq<nat>) {
    forall k :: 0 <= k < |s| ==> 1 <= s[k] <= BRANCHING
  }

  lemma OptimalIsEnough(total: nat)
    requires total >= 1
    ensures BRANCHING * (OptimalSlots(total) - 1) < total <= BRANCHING * OptimalSlots(total)
  {}

  /** When more than the optimal number of nodes are in use, some node is not
      full; this is what keeps both scans of the planner inside the array. */
  lemma FullPrefixIsShort(c: seq<nat>, full: nat, rest: nat, total: nat)
    requires full <= |c| && total >= 1
    requires forall k :: 0 <= k < full ==> c[k] == BRANCHING
    requires Sum(c[..full]) + rest == total
    ensures full <= OptimalSlots(total)
    ensures rest > 0 ==> full < OptimalSlots(total)
  {
    SumBounds(c[..full], BRANCHING, BRANCHING);
    OptimalIsEnough(total);
  }

  // ---------- the plan as a function of the counts ----------

  /** The next count, from i on, that is not full. */
  function NextShort(c: seq<nat>, i: nat): nat
    decreases |c| - i
  {
    if i < |c| && c[i] > BRANCHING - INVARIANT then NextShort(c, i + 1) else i
  }

  /** The counts after `remaining` slots overflowed into those behind i, and the
      position that is then unused. */
  function Spread(c: seq<nat>, i: nat, remaining: nat): (r: (seq<nat>, nat))
    ensures |r.0| == |c|
    decreases |c| - i
  {
    if remaining == 0 || i + 1 >= |c| then (c, i)
    else
      var size: nat := Min(remaining + c[i + 1], BRANCHING);
      Spread(c[i := size], i + 1, remaining + c[i + 1] - size)
  }

  function PlanFrom(c: seq<nat>, i: nat, limit: int): seq<nat>
    decreases |c|
  {
    var j := NextShort(c, i);
    if |c| <= limit || j >= |c| then c
    else
      var (d, k) := Spread(c, j, c[j]);
      if 1 <= k < |d| then PlanFrom(d[..k] + d[k + 1..], k - 1, limit) else c
  }

  lemma SpreadStep(c: seq<nat>, i: nat, remaining: nat, d: seq<nat>, size: nat)
    requires remaining > 0 && i + 1 < |c| && size == Min(remaining + c[i + 1], BRANCHING) && d == c[i := size]
    ensures Spread(c, i, remaining) == Spread(d, i + 1, remaining + c[i + 1] - size)
  {}

  lemma SpreadDone(c: seq<nat>, i: nat)
    ensures Spread(c, i, 0) == (c, i)
  {}

  lemma PlanDone(c: seq<nat>, i: nat, limit: int)
    requires |c| <= limit
    ensures PlanFrom(c, i, limit) == c
  {}

  lemma PlanStep(c: seq<nat>, i: nat, limit: int, d: seq<nat>, k: nat)
    requires limit < |c| && NextShort(c, i) < |c| && 1 <= k < |d|
    requires (d, k) == Spread(c, NextShort(c, i), c[NextShort(c, i)])
    ensures PlanFrom(c, i, limit) == PlanFrom(d[..k] + d[k + 1..], k - 1, limit)
  {}

  function PlanOf(c: seq<nat>): seq<nat> {
    PlanFrom(c, 0, OptimalSlots(Sum(c)) + EXTRAS)
  }

  /** create_concat_plan: the plan conserves the slots, keeps every node between
      1 and 32, and needs at most two nodes more than the optimum (or leaves the
      nodes as they are). */
  method CreateConcatPlan<T>(all: seq<Node<T>>) returns (nodeCount: array<nat>, topLen: nat)
    requires |all| >= 1 && InRange(SlotsOf(all))
    ensures nodeCount.Length == |all|
    ensures 1 <= topLen <= |all|
    ensures Sum(nodeCount[..topLen]) == Sum(SlotsOf(all))
    ensures InRange(nodeCount[..topLen])
    ensures var limit := OptimalSlots(Sum(SlotsOf(all))) + EXTRAS;
            if |all| <= limit then topLen == |all| && nodeCount[..] == SlotsOf(all) else topLen == limit
    ensures nodeCount[..topLen] == PlanOf(SlotsOf(all))
  {
    hide Sum, SlotsOf, OptimalSlots, NextShort, Spread, PlanFrom;
    var totalNodes;
    nodeCount, totalNodes := CountSlots(all);
    ghost var counts := SlotsOf(all);
    assert counts[..] == counts;
    SumBounds(counts, 1, BRANCHING);
    var optimalSlots := OptimalSlots(totalNodes);
    OptimalIsEnough(totalNodes);

    var shuffledLen := |all|;
    var i := 0;
    assert nodeCount[..shuffledLen] == nodeCount[..];
    while optimalSlots + EXTRAS < shuffledLen
      invariant 0 <= i <= shuffledLen <= |all|
      invariant 1 <= shuffledLen
      invariant |all| <= optimalSlots + EXTRAS ==> shuffledLen == |all| && nodeCount[..] == counts
      invariant |all| > optimalSlots + EXTRAS ==> shuffledLen >= optimalSlots + EXTRAS
      invariant InRange(nodeCount[..shuffledLen])
      invariant Sum(nodeCount[..shuffledLen]) == totalNodes
      invariant forall k :: 0 <= k < i ==> nodeCount[k] == BRANCHING
      invariant PlanFrom(nodeCount[..shuffledLen], i, optimalSlots + EXTRAS) == PlanOf(counts)
      decreases shuffledLen
    {
      ghost var c, from := nodeCount[..shuffledLen], i;
      i := SkipFull(nodeCount, i, shuffledLen, totalNodes);
      i := Redistribute(nodeCount, i, shuffledLen, totalNodes);
      ghost var gap := nodeCount[..];
      ShuffleUp(nodeCount, i, shuffledLen, totalNodes);
      PlanStep(c, from, optimalSlots + EXTRAS, gap[..shuffledLen], i);
      assert nodeCount[..shuffledLen - 1] == gap[..shuffledLen][..i] + gap[..shuffledLen][i + 1..];
      shuffledLen := shuffledLen - 1;
      i := i - 1;
      assert forall k :: 0 <= k < i ==> nodeCount[k] == nodeCount[..shuffledLen][k] == gap[k];
    }
    topLen := shuffledLen;
    PlanDone(nodeCount[..shuffledLen], i, optimalSlots + EXTRAS);
  }

  /** The slot count of every node, and their total. */
  method CountSlots<T>(all: seq<Node<T>>) returns (nodeCount: array<nat>, totalNodes: nat)
    ensures fresh(nodeCount) && nodeCount[..] == SlotsOf(all)
    ensures totalNodes == Sum(SlotsOf(all))
  {
    nodeCount := new nat[|all|];
    totalNodes := 0;
    for i := 0 to |all|
      invariant nodeCount[..i] == SlotsOf(all)[..i]
      invariant totalNodes == Sum(SlotsOf(all)[..i])
    {
      SumPrefix(SlotsOf(all), i);
      nodeCount[i] := Slots(all[i]);
      totalNodes := totalNodes + Slots(all[i]);
    }
    assert SlotsOf(all)[..|all|] == SlotsOf(all);
  }

  /** The next node, from `start` on, that is not full. */
  method SkipFull(nodeCount: array<nat>, start: nat, len: nat, ghost total: nat) returns (i: nat)
    requires start <= len <= nodeCount.Length && total >= 1
    requires OptimalSlots(total) < len
    requires InRange(nodeCount[..len]) && Sum(nodeCount[..len]) == total
    requires forall k :: 0 <= k < start ==> nodeCount[k] == BRANCHING
    ensures start <= i < len && nodeCount[i] <= BRANCHING - INVARIANT
    ensures forall k :: 0 <= k < i ==> nodeCount[k] == BRANCHING
    ensures i == NextShort(nodeCount[..len], start)
  {
    ghost var plan := nodeCount[..len];
    i := start;
    AllFullIsImpossible(plan, i, total);
    while nodeCount[i] > BRANCHING - INVARIANT
      invariant start <= i < len
      invariant forall k :: 0 <= k < i ==> nodeCount[k] == BRANCHING
      invariant NextShort(plan, i) == NextShort(plan, start)
      decreases len - i
    {
      assert plan[i] == nodeCount[i];
      i := i + 1;
      AllFullIsImpossible(plan, i, total);
    }
  }

  lemma AllFullIsImpossible(c: seq<nat>, i: nat, total: nat)
    requires i <= |c| && total >= 1 && Sum(c) == total
    requires OptimalSlots(total) < |c|
    requires forall k :: 0 <= k < i ==> c[k] == BRANCHING
    ensures i < |c|
  {
    SumSplit(c, i);
    FullPrefixIsShort(c, i, Sum(c[i..]), total);
  }

  /** The redistribution loop: the slots of the short node at `start` overflow
      into the nodes after it until none remain; position `i` is then unused. */
  method Redistribute(nodeCount: array<nat>, start: nat, len: nat, ghost total: nat) returns (i: nat)
    requires start < len <= nodeCount.Length && total >= 1
    requires OptimalSlots(total) + EXTRAS < len
    requires InRange(nodeCount[..len]) && Sum(nodeCount[..len]) == total
    requires forall k :: 0 <= k < start ==> nodeCount[k] == BRANCHING
    modifies nodeCount
    ensures 1 <= i < len
    ensures forall k :: 0 <= k < i - 1 ==> nodeCount[k] == BRANCHING
    ensures InRange(nodeCount[..i]) && InRange(nodeCount[i + 1..len])
    ensures Sum(nodeCount[..i]) + Sum(nodeCount[i + 1..len]) == total
    ensures (nodeCount[..len], i) == Spread(old(nodeCount[..len]), start, old(nodeCount[start]))
  {
    hide Sum, OptimalSlots, Spread;
    i := start;
    var remainingNodes: nat := nodeCount[i];
    ghost var was := nodeCount[..len];
    SumAt(was, start);
    ghost var rest := was[start + 1..];
    assert nodeCount[..start] == was[..start] && nodeCount[start + 1..len] == rest;
    while remainingNodes > 0
      invariant start <= i < len
      invariant remainingNodes <= BRANCHING
      invariant remainingNodes == 0 ==> 1 <= i
      invariant forall k :: 0 <= k < i - 1 ==> nodeCount[k] == BRANCHING
      invariant 1 <= i ==> 1 <= nodeCount[i - 1] <= BRANCHING
      invariant 1 <= i && remainingNodes > 0 ==> nodeCount[i - 1] == BRANCHING
      invariant nodeCount[i + 1..len] == rest && InRange(rest)
      invariant Sum(nodeCount[..i]) + remainingNodes + Sum(rest) == total
      invariant Spread(nodeCount[..len], i, remainingNodes) == Spread(was, start, was[start])
      decreases len - i
    {
      FullPrefixIsShort(nodeCount[..i], i, remainingNodes + Sum(rest), total)
        by { assert nodeCount[..i][..i] == nodeCount[..i]; }
      assert nodeCount[i + 1] == rest[0];
      SumAt(rest, 0);
      ghost var before, counts := nodeCount[..i], nodeCount[..len];
      var minSize := Min(remainingNodes + nodeCount[i + 1], BRANCHING);
      nodeCount[i] := minSize;
      SpreadStep(counts, i, remainingNodes, nodeCount[..len], minSize);
      remainingNodes := remainingNodes + nodeCount[i + 1] - minSize;
      i := i + 1;
      assert nodeCount[..i] == before + [minSize];
      SumSnoc(before, minSize);
      rest := rest[1..];
      assert nodeCount[i + 1..len] == rest;
    }
    assert nodeCount[i + 1..len] == rest;
    SpreadDone(nodeCount[..len], i);
  }

  lemma ShuffledRange(a: seq<nat>, b: seq<nat>)
    requires InRange(a) && InRange(b)
    ensures InRange(a + b)
  {}

  /** Close the gap at `i` by moving the counts after it one slot down. */
  method ShuffleUp(nodeCount: array<nat>, i: nat, len: nat, ghost total: nat)
    requires 1 <= i < len <= nodeCount.Length
    requires InRange(nodeCount[..i]) && InRange(nodeCount[i + 1..len])
    requires Sum(nodeCount[..i]) + Sum(nodeCount[i + 1..len]) == total
    modifies nodeCount
    ensures nodeCount[..len - 1] == old(nodeCount[..i]) + old(nodeCount[i + 1..len])
    ensures InRange(nodeCount[..len - 1]) && Sum(nodeCount[..len - 1]) == total
  {
    hide Sum;
    ghost var was := nodeCount[..];
    ShuffledRange(was[..i], was[i + 1..len]);
    hide InRange;
    for j := i to len - 1
      invariant nodeCount[..i] == was[..i]
      invariant forall k :: i <= k < j ==> nodeCount[k] == was[k + 1]
      invariant forall k :: j <= k < nodeCount.Length ==> nodeCount[k] == was[k]
    {
      nodeCount[j] := nodeCount[j + 1];
    }
    ghost var closed := was[..i] + was[i + 1..len];
    forall k | 0 <= k < len - 1 ensures nodeCount[..len - 1][k] == closed[k] {
      if k < i { assert nodeCount[..i][k] == was[..i][k]; }
    }
    assert nodeCount[..len - 1] == closed;
    SumConcat(was[..i], was[i + 1..len]);
  }

  /** What a slot group of the rebalanced node is: an old node taken over as it
      is, or a new node filled with copied slots. */
  datatype Group<X> = Kept(idx: nat) | Built(slots: seq<X>)

  function GroupSlots<X>(olds: seq<seq<X>>, g: Group<X>): seq<X>
    requires g.Kept? ==> g.idx < |olds|
  {
    match g
    case Kept(idx) => olds[idx]
    case Built(slots) => slots
  }

  ghost predicate GroupsOk<X>(olds: seq<seq<X>>, groups: seq<Group<X>>) {
    forall k :: 0 <= k < |groups| ==> groups[k].Kept? ==> groups[k].idx < |olds|
  }

  ghost function AllSlots<X>(olds: seq<seq<X>>, groups: seq<Group<X>>): (r: seq<seq<X>>)
    requires GroupsOk(olds, groups)
    ensures |r| == |groups|
  {
    seq(|groups|, k requires 0 <= k < |groups| => GroupSlots(olds, groups[k]))
  }

  /** Only the first old node can be kept as the first new one, and so for the last. */
  ghost predicate KeptInPlace<X>(groups: seq<Group<X>>, first: nat, last: nat, count: nat) {
    forall k :: 0 <= k < |groups| && groups[k].Kept? ==>
      (groups[k].idx == first ==> k == 0) && (groups[k].idx + 1 == last ==> k + 1 == count)
  }

  /** The first `offset` slots of old node `idx` and everything before it. */
  ghost function Consumed<X>(olds: seq<seq<X>>, idx: nat, offset: nat): seq<X>
    requires idx <= |olds| && (if idx < |olds| then offset <= |olds[idx]| else offset == 0)
  {
    Flatten(olds[..idx]) + if idx < |olds| then olds[idx][..offset] else []
  }

  /** Part of the old slots consumed so far determines how many remain, so the
      copying never runs past the last old node. */
  lemma MoreToRead<X>(olds: seq<seq<X>>, idx: nat, offset: nat)
    requires idx <= |olds| && (if idx < |olds| then offset <= |olds[idx]| else offset == 0)
    requires |Consumed(olds, idx, offset)| < |Flatten(olds)|
    ensures idx < |olds|
  {
    assert olds[..|olds|] == olds;
  }

  lemma ConsumeRest<X>(olds: seq<seq<X>>, idx: nat, offset: nat)
    requires idx < |olds| && offset <= |olds[idx]|
    ensures Consumed(olds, idx + 1, 0) == Consumed(olds, idx, offset) + olds[idx][offset..]
  {
    assert olds[..idx + 1] == olds[..idx] + [olds[idx]];
    FlattenSnoc(olds[..idx], olds[idx]);
    assert olds[idx] == olds[idx][..offset] + olds[idx][offset..];
    if idx + 1 < |olds| { assert olds[idx + 1][..0] == []; }
  }

  lemma ConsumePart<X>(olds: seq<seq<X>>, idx: nat, offset: nat, n: nat)
    requires idx < |olds| && offset + n <= |olds[idx]|
    ensures Consumed(olds, idx, offset + n) == Consumed(olds, idx, offset) + olds[idx][offset..offset + n]
  {
    assert olds[idx][..offset + n] == olds[idx][..offset] + olds[idx][offset..offset + n];
  }

  /** The next slots of the old nodes from (idx, offset) on, and where they end. */
  ghost function FillOf<X>(olds: seq<seq<X>>, size: nat, idx: nat, offset: nat): (seq<X>, nat, nat)
    decreases |olds| - idx
  {
    if size == 0 || idx >= |olds| || offset > |olds[idx]| then ([], idx, offset)
    else if size < |olds[idx]| - offset then (olds[idx][offset..offset + size], idx, offset + size)
    else
      var (slots, i, o) := FillOf(olds, size - (|olds[idx]| - offset), idx + 1, 0);
      (olds[idx][offset..] + slots, i, o)
  }

  /** The same from the middle: `slots` are the first ones. */
  ghost predicate FillGoesOn<X>(olds: seq<seq<X>>, size: nat, idx: nat, offset: nat, slots: seq<X>,
      whole: (seq<X>, nat, nat)) {
    var (rest, i, o) := FillOf(olds, size, idx, offset);
    whole == (slots + rest, i, o)
  }

  lemma FillSome<X>(olds: seq<seq<X>>, size: nat, idx: nat, offset: nat, slots: seq<X>, whole: (seq<X>, nat, nat))
    requires FillGoesOn(olds, size, idx, offset, slots, whole) && idx < |olds| && offset < |olds[idx]| && size > 0
    ensures var n := |olds[idx]| - offset;
            if size >= n then FillGoesOn(olds, size - n, idx + 1, 0, slots + olds[idx][offset..], whole)
            else FillGoesOn(olds, 0, idx, offset + size, slots + olds[idx][offset..offset + size], whole)
  {
    var n := |olds[idx]| - offset;
    if size >= n {
      var rest := FillOf(olds, size - n, idx + 1, 0).0;
      assert slots + (olds[idx][offset..] + rest) == (slots + olds[idx][offset..]) + rest;
    } else {
      var part := olds[idx][offset..offset + size];
      assert slots + part == (slots + part) + [];
    }
  }

  lemma FillEnds<X>(olds: seq<seq<X>>, size: nat, idx: nat, offset: nat, slots: seq<X>, whole: (seq<X>, nat, nat))
    ensures FillGoesOn(olds, size, idx, offset, [], FillOf(olds, size, idx, offset))
    ensures FillGoesOn(olds, 0, idx, offset, slots, whole) ==> whole == (slots, idx, offset)
  {
    assert [] + FillOf(olds, size, idx, offset).0 == FillOf(olds, size, idx, offset).0;
    assert slots + [] == slots;
  }

  /** The groups of a plan from (idx, offset) on: an old node is kept where it begins
      and ends like a new one. */
  ghost function GroupsOf<X>(olds: seq<seq<X>>, sizes: seq<nat>, idx: nat, offset: nat): seq<Group<X>> {
    if sizes == [] then []
    else if idx < |olds| && offset == 0 && sizes[0] == |olds[idx]| then
      [Kept(idx)] + GroupsOf(olds, sizes[1..], idx + 1, 0)
    else
      var (slots, i, o) := FillOf(olds, sizes[0], idx, offset);
      [Built(slots)] + GroupsOf(olds, sizes[1..], i, o)
  }

  /** The same from the middle: `groups` are the first i ones. */
  ghost predicate GroupsGoOn<X>(olds: seq<seq<X>>, sizes: seq<nat>, i: nat, idx: nat, offset: nat,
      groups: seq<Group<X>>) {
    i <= |sizes| && groups + GroupsOf(olds, sizes[i..], idx, offset) == GroupsOf(olds, sizes, 0, 0)
  }

  lemma GroupsBegin<X>(olds: seq<seq<X>>, sizes: seq<nat>)
    ensures GroupsGoOn(olds, sizes, 0, 0, 0, [])
  {
    assert sizes[0..] == sizes;
  }

  lemma GroupsSome<X>(olds: seq<seq<X>>, sizes: seq<nat>, i: nat, idx: nat, offset: nat, groups: seq<Group<X>>,
      group: Group<X>, idx': nat, offset': nat)
    requires i < |sizes| && GroupsGoOn(olds, sizes, i, idx, offset, groups)
    requires if idx < |olds| && offset == 0 && sizes[i] == |olds[idx]|
             then group == Kept(idx) && idx' == idx + 1 && offset' == 0
             else group.Built? && (group.slots, idx', offset') == FillOf(olds, sizes[i], idx, offset)
    ensures GroupsGoOn(olds, sizes, i + 1, idx', offset', groups + [group])
  {
    hide FillOf;
    var rest := sizes[i..];
    assert rest[0] == sizes[i] && rest[1..] == sizes[i + 1..];
    assert GroupsOf(olds, rest, idx, offset) == [group] + GroupsOf(olds, rest[1..], idx', offset');
  }

  lemma GroupsEnd<X>(olds: seq<seq<X>>, sizes: seq<nat>, idx: nat, offset: nat, groups: seq<Group<X>>)
    requires GroupsGoOn(olds, sizes, |sizes|, idx, offset, groups)
    ensures groups == GroupsOf(olds, sizes, 0, 0)
  {
    assert sizes[|sizes|..] == [];
  }

  /** execute_concat_plan, the part common to its leaf and inner branches: the
      groups have exactly the planned lengths, and their slots in order are the
      old slots in order. */
  method Regroup<X>(olds: seq<seq<X>>, nodeSize: seq<nat>) returns (groups: seq<Group<X>>)
    requires forall k :: 0 <= k < |olds| ==> |olds[k]| >= 1
    requires forall k :: 0 <= k < |nodeSize| ==> nodeSize[k] >= 1
    requires Sum(nodeSize) == |Flatten(olds)|
    ensures |groups| == |nodeSize| && GroupsOk(olds, groups)
    ensures Lengths(AllSlots(olds, groups)) == nodeSize
    ensures Flatten(AllSlots(olds, groups)) == Flatten(olds)
    ensures KeptInPlace(groups, 0, |olds|, |nodeSize|)
    ensures groups == GroupsOf(olds, nodeSize, 0, 0)
  {
    hide Sum, Flatten, FillOf, GroupsOf, GroupsGoOn;
    NothingYet(olds, nodeSize);
    groups := [];
    GroupsBegin(olds, nodeSize);
    // Current old node to copy from, and how much of it has been copied.
    var idx: nat := 0;
    var offset: nat := 0;
    for i := 0 to |nodeSize|
      invariant |groups| == i && GroupsOk(olds, groups)
      invariant idx <= |olds| && (if idx < |olds| then offset < |olds[idx]| else offset == 0)
      invariant Flatten(AllSlots(olds, groups)) == Consumed(olds, idx, offset)
      invariant |Consumed(olds, idx, offset)| == Sum(nodeSize[..i])
      invariant Lengths(AllSlots(olds, groups)) == nodeSize[..i]
      invariant KeptInPlace(groups, 0, |olds|, |nodeSize|)
      invariant GroupsGoOn(olds, nodeSize, i, idx, offset, groups)
    {
      ghost var idx1, offset1, sofar := idx, offset, groups;
      SumPrefix(nodeSize, i);
      SumSplit(nodeSize, i + 1);
      MoreToRead(olds, idx, offset);
      var newSize := nodeSize[i];
      var group: Group<X>;
      ghost var start := Consumed(olds, idx, offset);
      if offset == 0 && newSize == |olds[idx]| {
        ConsumeRest(olds, idx, 0);
        KeptPlace(olds, nodeSize, idx, i);
        group := Kept(idx);
        idx := idx + 1;
      } else {
        var slots: seq<X>;
        slots, idx, offset := FillNode(olds, newSize, idx, offset);
        group := Built(slots);
      }
      assert AllSlots(olds, groups + [group]) == AllSlots(olds, groups) + [GroupSlots(olds, group)];
      FlattenSnoc(AllSlots(olds, groups), GroupSlots(olds, group));
      groups := groups + [group];
      GroupsSome(olds, nodeSize, i, idx1, offset1, sofar, group, idx, offset);
    }
    assert nodeSize[..|nodeSize|] == nodeSize;
    GroupsEnd(olds, nodeSize, idx, offset, groups);
    AllConsumed(olds, idx, offset);
  }

  lemma NothingYet<X>(olds: seq<seq<X>>, nodeSize: seq<nat>)
    requires forall k :: 0 <= k < |olds| ==> |olds[k]| >= 1
    ensures Flatten(AllSlots(olds, [])) == Consumed(olds, 0, 0) == [] && Sum(nodeSize[..0]) == 0
  {
    assert AllSlots(olds, []) == [] && olds[..0] == [];
    if olds != [] { assert olds[0][..0] == []; }
  }

  /** A kept node stays first or last only when it was. */
  lemma KeptPlace<X>(olds: seq<seq<X>>, nodeSize: seq<nat>, idx: nat, i: nat)
    requires forall k :: 0 <= k < |nodeSize| ==> nodeSize[k] >= 1
    requires i < |nodeSize| && idx < |olds| && nodeSize[i] == |olds[idx]| && Sum(nodeSize) == |Flatten(olds)|
    requires |Consumed(olds, idx, 0)| == Sum(nodeSize[..i])
    ensures idx == 0 ==> i == 0
    ensures idx + 1 == |olds| ==> i + 1 == |nodeSize|
  {
    assert olds[..0] == [] && olds[idx][..0] == [];
    ConsumeRest(olds, idx, 0);
    assert olds[..|olds|] == olds;
    SumPrefix(nodeSize, i);
    SumSplit(nodeSize, i + 1);
    SumPositive(nodeSize[..i]);
    SumPositive(nodeSize[i + 1..]);
  }

  lemma SumPositive(s: seq<nat>)
    requires forall k :: 0 <= k < |s| ==> s[k] >= 1
    ensures s != [] ==> Sum(s) >= 1
  {}

  lemma AllConsumed<X>(olds: seq<seq<X>>, idx: nat, offset: nat)
    requires idx <= |olds| && (if idx < |olds| then offset <= |olds[idx]| else offset == 0)
    requires |Consumed(olds, idx, offset)| == |Flatten(olds)|
    ensures Consumed(olds, idx, offset) == Flatten(olds)
  {
    assert olds == olds[..idx] + olds[idx..];
    FlattenConcat(olds[..idx], olds[idx..]);
    if idx < |olds| {
      assert olds[idx] == olds[idx][..offset] + olds[idx][offset..];
      assert Flatten(olds) == Consumed(olds, idx, offset) + (olds[idx][offset..] + Flatten(olds[idx + 1..]))
        by { assert olds[idx..][1..] == olds[idx + 1..]; }
    }
  }

  /** Copy slots of the old nodes from (idx, offset) on into one new node. */
  method FillNode<X>(olds: seq<seq<X>>, newSize: nat, idx0: nat, offset0: nat)
    returns (slots: seq<X>, idx: nat, offset: nat)
    requires forall k :: 0 <= k < |olds| ==> |olds[k]| >= 1
    requires idx0 < |olds| && offset0 < |olds[idx0]|
    requires |Consumed(olds, idx0, offset0)| + newSize <= |Flatten(olds)|
    ensures |slots| == newSize
    ensures idx <= |olds| && (if idx < |olds| then offset < |olds[idx]| else offset == 0)
    ensures Consumed(olds, idx, offset) == Consumed(olds, idx0, offset0) + slots
    ensures (slots, idx, offset) == FillOf(olds, newSize, idx0, offset0)
  {
    idx, offset := idx0, offset0;
    slots := [];
    ghost var whole := FillOf(olds, newSize, idx0, offset0);
    hide FillOf, FillGoesOn;
    FillEnds(olds, newSize, idx, offset, slots, whole);
    while |slots| < newSize
      invariant |slots| <= newSize
      invariant idx <= |olds| && (if idx < |olds| then offset < |olds[idx]| else offset == 0)
      invariant Consumed(olds, idx, offset) == Consumed(olds, idx0, offset0) + slots
      invariant FillGoesOn(olds, newSize - |slots|, idx, offset, slots, whole)
      decreases newSize - |slots|
    {
      MoreToRead(olds, idx, offset);
      FillSome(olds, newSize - |slots|, idx, offset, slots, whole);
      var oldNode := olds[idx];
      if newSize - |slots| >= |oldNode| - offset {
        // This node can take everything not yet copied from the old node.
        ConsumeRest(olds, idx, offset);
        slots := slots + oldNode[offset..];
        idx, offset := idx + 1, 0;
      } else {
        // It cannot: take what fits and leave the rest to the next node.
        var n := newSize - |slots|;
        ConsumePart(olds, idx, offset, n);
        slots := slots + oldNode[offset..offset + n];
        offset := offset + n;
      }
    }
    FillEnds(olds, newSize, idx, offset, slots, whole);
  }
}
