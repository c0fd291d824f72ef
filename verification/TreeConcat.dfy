/**
 Concatenation of two trees of any heights: descend along the touching edges,
 then rebalance every level on the way up.
 */
module TreeConcat {
  import opened Seqs
  import opened Nodes
  import opened Edges
  import opened ConcatPlan

  // ---------- slots of the nodes of one level ----------

  ghost predicate AllLeaves<T>(kids: seq<Node<T>>) {
    forall k :: 0 <= k < |kids| ==> kids[k].Leaf?
  }

  ghost predicate AllInner<T>(kids: seq<Node<T>>) {
    forall k :: 0 <= k < |kids| ==> kids[k].Inner?
  }

  function LeafSlots<T>(kids: seq<Node<T>>): (r: seq<seq<T>>)
    requires AllLeaves(kids)
    ensures |r| == |kids|
  {
    seq(|kids|, k requires 0 <= k < |kids| => kids[k].elems)
  }

  function InnerSlots<T>(kids: seq<Node<T>>): (r: seq<seq<Node<T>>>)
    requires AllInner(kids)
    ensures |r| == |kids|
  {
    seq(|kids|, k requires 0 <= k < |kids| => kids[k].kids)
  }

  lemma {:induction false} LeafContents<T>(kids: seq<Node<T>>)
    requires AllLeaves(kids)
    ensures ElementsOf(kids) == Flatten(LeafSlots(kids))
  {
    if kids != [] {
      LeafContents(kids[1..]);
      assert LeafSlots(kids)[1..] == LeafSlots(kids[1..]);
    }
  }

  lemma {:induction false} InnerContents<T>(kids: seq<Node<T>>)
    requires AllInner(kids)
    ensures ElementsOf(kids) == ElementsOf(Flatten(InnerSlots(kids)))
  {
    if kids != [] {
      InnerContents(kids[1..]);
      assert InnerSlots(kids)[1..] == InnerSlots(kids[1..]);
      ElementsOfConcat(kids[0].kids, Flatten(InnerSlots(kids[1..])));
    }
  }

  /** Where a part of several neighbours lies: the first part at the left edge, the
      last at the right one. */
  ghost predicate SoundPartsOf<T>(parts: seq<seq<Node<T>>>, h: nat, left: bool, right: bool) {
    forall k :: 0 <= k < |parts| ==> SoundAll(parts[k], h, left && k == 0, right && k == |parts| - 1)
  }

  /** What every part satisfies, the whole satisfies. */
  lemma {:induction false} SoundFlatten<T>(parts: seq<seq<Node<T>>>, h: nat, left: bool, right: bool)
    requires SoundPartsOf(parts, h, left, right) && forall k :: 0 <= k < |parts| ==> parts[k] != []
    ensures SoundAll(Flatten(parts), h, left, right)
    decreases parts
  {
    if parts != [] {
      var rest := parts[1..];
      forall k | 0 <= k < |rest| ensures SoundAll(rest[k], h, false && k == 0, right && k == |rest| - 1) {
        assert rest[k] == parts[k + 1];
      }
      SoundFlatten(rest, h, false, right);
      assert rest != [] ==> rest[0] == parts[1];
      SoundConcat(parts[0], Flatten(rest), h, left, right);
    }
  }

  /** What the whole satisfies, every part satisfies. */
  lemma {:induction false} SoundUnflatten<T>(parts: seq<seq<Node<T>>>, h: nat, left: bool, right: bool)
    requires SoundAll(Flatten(parts), h, left, right) && forall k :: 0 <= k < |parts| ==> parts[k] != []
    ensures SoundPartsOf(parts, h, left, right)
    decreases parts
  {
    if parts != [] {
      var rest := parts[1..];
      assert rest != [] ==> rest[0] == parts[1];
      SoundParts(parts[0], Flatten(rest), h, left, right);
      SoundUnflatten(rest, h, false, right);
      forall k | 0 <= k < |parts| ensures SoundAll(parts[k], h, left && k == 0, right && k == |parts| - 1) {
        if k > 0 { assert parts[k] == rest[k - 1]; }
      }
    }
  }

  // ---------- the result as a function ----------

  /** The node of a group: an old one, or a new one without a table on the lowest level
      and with its exact table above. */
  ghost function LeafOf<T>(all: seq<Node<T>>, g: Group<T>): Node<T> {
    match g
    case Kept(idx) => if idx < |all| then all[idx] else Leaf([])
    case Built(slots) => Leaf(slots)
  }

  ghost function InnerOf<T>(all: seq<Node<T>>, g: Group<Node<T>>): Node<T> {
    match g
    case Kept(idx) => if idx < |all| then all[idx] else Leaf([])
    case Built(slots) => Sized(slots)
  }

  ghost function LeavesOf<T>(all: seq<Node<T>>, groups: seq<Group<T>>): (r: seq<Node<T>>)
    ensures |r| == |groups|
  {
    seq(|groups|, k requires 0 <= k < |groups| => LeafOf(all, groups[k]))
  }

  ghost function InnersOf<T>(all: seq<Node<T>>, groups: seq<Group<Node<T>>>): (r: seq<Node<T>>)
    ensures |r| == |groups|
  {
    seq(|groups|, k requires 0 <= k < |groups| => InnerOf(all, groups[k]))
  }

  ghost function ExecuteOf<T>(all: seq<Node<T>>, sizes: seq<nat>): seq<Node<T>> {
    if AllLeaves(all) then LeavesOf(all, GroupsOf(LeafSlots(all), sizes, 0, 0))
    else if AllInner(all) then InnersOf(all, GroupsOf(InnerSlots(all), sizes, 0, 0))
    else all
  }

  /** execute_concat_plan: nodes of exactly the planned lengths that hold the
      same elements in the same order.  `h` is the height of the node whose
      children `all` are. */
  method ExecuteConcatPlan<T>(all: seq<Node<T>>, nodeSize: seq<nat>, h: nat, ghost left: bool, ghost right: bool)
    returns (newAll: seq<Node<T>>)
    requires h >= 1 && SoundAll(all, h - 1, left, right)
    requires InRange(nodeSize) && Sum(nodeSize) == Sum(SlotsOf(all))
    ensures SlotsOf(newAll) == nodeSize
    ensures SoundAll(newAll, h - 1, left, right)
    ensures ElementsOf(newAll) == ElementsOf(all)
    ensures newAll == ExecuteOf(all, nodeSize)
  {
    if h == 1 {
      newAll := RegroupLeaves(all, nodeSize, left, right);
    } else {
      newAll := RegroupInner(all, nodeSize, h, left, right);
    }
  }

  /** The lowest level of execute_concat_plan. */
  method RegroupLeaves<T>(all: seq<Node<T>>, nodeSize: seq<nat>, ghost left: bool, ghost right: bool)
    returns (newAll: seq<Node<T>>)
    requires SoundAll(all, 0, left, right)
    requires InRange(nodeSize) && Sum(nodeSize) == Sum(SlotsOf(all))
    ensures SlotsOf(newAll) == nodeSize
    ensures SoundAll(newAll, 0, left, right)
    ensures ElementsOf(newAll) == ElementsOf(all)
    ensures newAll == ExecuteOf(all, nodeSize)
  {
    hide ElementsOf, Sum, Flatten, GroupsOf, KeptInPlace;
    var olds := LeafSlots(all);
    assert Lengths(olds) == SlotsOf(all);
    FlattenLength(olds);
    var groups := Regroup(olds, nodeSize);
    newAll := [];
    for i := 0 to |groups|
      invariant |newAll| == i && AllLeaves(newAll)
      invariant LeafSlots(newAll) == AllSlots(olds, groups)[..i]
      invariant newAll == LeavesOf(all, groups)[..i]
    {
      newAll := newAll + [match groups[i] case Kept(idx) => all[idx] case Built(slots) => Leaf(slots)];
    }
    assert LeafSlots(newAll) == AllSlots(olds, groups);
    assert SlotsOf(newAll) == Lengths(AllSlots(olds, groups));
    forall k | 0 <= k < |newAll| ensures Sound(newAll[k], 0, left && k == 0, right && k == |newAll| - 1) {
      assert 1 <= nodeSize[k] <= BRANCHING && nodeSize[k] == SlotsOf(newAll)[k];
    }
    LeafContents(all);
    LeafContents(newAll);
  }

  lemma ExecuteInner<T>(all: seq<Node<T>>, sizes: seq<nat>, groups: seq<Group<Node<T>>>, newAll: seq<Node<T>>)
    requires all != [] && AllInner(all) && groups == GroupsOf(InnerSlots(all), sizes, 0, 0) && |newAll| == |groups|
    requires forall k :: 0 <= k < |groups| ==> newAll[k] == InnerOf(all, groups[k])
    ensures newAll == ExecuteOf(all, sizes)
  {
    hide GroupsOf, InnerOf;
    assert all[0].Inner?;
    assert newAll == InnersOf(all, groups);
  }

  lemma ExecuteNothing<T>(all: seq<Node<T>>, sizes: seq<nat>)
    requires all == [] && InRange(sizes) && Sum(sizes) == Sum(SlotsOf(all))
    ensures sizes == [] && ExecuteOf(all, sizes) == []
  {
    SumBounds(sizes, 1, BRANCHING);
  }

  /** The branch of execute_concat_plan above the lowest level. */
  method RegroupInner<T>(all: seq<Node<T>>, nodeSize: seq<nat>, h: nat, ghost left: bool, ghost right: bool)
    returns (newAll: seq<Node<T>>)
    requires h >= 2 && SoundAll(all, h - 1, left, right)
    requires InRange(nodeSize) && Sum(nodeSize) == Sum(SlotsOf(all))
    ensures SlotsOf(newAll) == nodeSize
    ensures SoundAll(newAll, h - 1, left, right)
    ensures ElementsOf(newAll) == ElementsOf(all)
    ensures newAll == ExecuteOf(all, nodeSize)
  {
    hide ElementsOf, TableOk, Radix, Sum, Flatten, Sound, SoundAll, ExecuteOf, GroupsOf, KeptInPlace, InnerOf;
    SoundEach(all, h - 1, left, right);
    InnerKids(all, h, left, right);
    var olds := InnerSlots(all);
    assert Lengths(olds) == SlotsOf(all);
    FlattenLength(olds);
    var groups := Regroup(olds, nodeSize);
    ghost var slots := AllSlots(olds, groups);
    SoundFlatten(olds, h - 2, left, right);
    assert forall k :: 0 <= k < |slots| ==> |slots[k]| == Lengths(slots)[k] == nodeSize[k];
    SoundUnflatten(slots, h - 2, left, right);
    newAll := InnerNodes(all, groups, h, slots, left, right);
    AllSound(newAll, h - 1, left, right);
    assert SlotsOf(newAll) == Lengths(slots);
    InnerContents(all);
    InnerContents(newAll);
    if all != [] { ExecuteInner(all, nodeSize, groups, newAll); } else { ExecuteNothing(all, nodeSize); }
  }

  lemma InnerKids<T>(all: seq<Node<T>>, h: nat, left: bool, right: bool)
    requires h >= 2 && forall k :: 0 <= k < |all| ==> Sound(all[k], h - 1, left && k == 0, right && k == |all| - 1)
    ensures AllInner(all) && SoundPartsOf(InnerSlots(all), h - 2, left, right)
    ensures forall k :: 0 <= k < |all| ==> |all[k].kids| >= 1
  {
    hide Sound, SoundAll;
    forall k | 0 <= k < |all|
      ensures all[k].Inner? && |all[k].kids| >= 1
          && SoundAll(all[k].kids, h - 2, left && k == 0, right && k == |all| - 1)
    {
      SoundKids(all[k], h - 1, left && k == 0, right && k == |all| - 1);
    }
  }

  /** The node of every group. */
  method InnerNodes<T>(all: seq<Node<T>>, groups: seq<Group<Node<T>>>, h: nat, ghost slots: seq<seq<Node<T>>>,
      ghost left: bool, ghost right: bool)
    returns (newAll: seq<Node<T>>)
    requires h >= 2 && AllInner(all) && GroupsOk(InnerSlots(all), groups) && slots == AllSlots(InnerSlots(all), groups)
    requires KeptInPlace(groups, 0, |all|, |groups|)
    requires forall k :: 0 <= k < |all| ==> Sound(all[k], h - 1, left && k == 0, right && k == |all| - 1)
    requires SoundPartsOf(slots, h - 2, left, right) && forall k :: 0 <= k < |slots| ==> 1 <= |slots[k]| <= BRANCHING
    ensures |newAll| == |groups| && AllInner(newAll) && InnerSlots(newAll) == slots
    ensures forall k :: 0 <= k < |groups| ==> Sound(newAll[k], h - 1, left && k == 0, right && k == |groups| - 1)
    ensures forall k :: 0 <= k < |groups| ==> newAll[k] == InnerOf(all, groups[k])
  {
    hide ElementsOf, Sound, SoundAll;
    newAll := [];
    for i := 0 to |groups|
      invariant |newAll| == i && AllInner(newAll) && InnerSlots(newAll) == slots[..i]
      invariant forall k :: 0 <= k < i ==> Sound(newAll[k], h - 1, left && k == 0, right && k == |groups| - 1)
      invariant forall k :: 0 <= k < i ==> newAll[k] == InnerOf(all, groups[k])
    {
      var node;
      match groups[i] {
        case Kept(idx) =>
          node := all[idx];
          SoundAnywhere(node, h - 1, left && idx == 0, right && idx == |all| - 1,
                        left && i == 0, right && i == |groups| - 1);
        case Built(s) =>
          assert s == slots[i];
          node := SizedNode(s, h - 1, left && i == 0, right && i == |groups| - 1);
      }
      newAll := newAll + [node];
    }
    assert InnerSlots(newAll) == slots;
  }

  lemma SoundEach<T>(kids: seq<Node<T>>, h: nat, left: bool, right: bool)
    requires SoundAll(kids, h, left, right)
    ensures forall k :: 0 <= k < |kids| ==> Sound(kids[k], h, left && k == 0, right && k == |kids| - 1)
  {}

  lemma AllSound<T>(kids: seq<Node<T>>, h: nat, left: bool, right: bool)
    requires forall k :: 0 <= k < |kids| ==> Sound(kids[k], h, left && k == 0, right && k == |kids| - 1)
    ensures SoundAll(kids, h, left, right)
  {}

  /** A node with a table made for its children. */
  method SizedNode<T>(kids: seq<Node<T>>, h: nat, ghost left: bool, ghost right: bool) returns (n: Node<T>)
    requires h > 0 && 1 <= |kids| <= BRANCHING && SoundAll(kids, h - 1, left, right)
    ensures n == Sized(kids) && n.Inner? && n.kids == kids && n.table.Some?
    ensures Sound(n, h, left, right) && Elements(n) == ElementsOf(kids)
  {
    SoundAllWf(kids, h - 1, left, right, Exact);
    n := SetSizes(kids, h);
  }

  // ---------- rebalancing ----------

  /** All children of `n` but the last, when there is a node at all. */
  function Init<T>(n: Option<Node<T>>): seq<Node<T>>
    requires n.Some? ==> n.value.Inner? && |n.value.kids| >= 1
  {
    if n.None? then [] else n.value.kids[..|n.value.kids| - 1]
  }

  /** All children of `n` but the first, when there is a node at all. */
  function Tail<T>(n: Option<Node<T>>): seq<Node<T>>
    requires n.Some? ==> n.value.Inner? && |n.value.kids| >= 1
  {
    if n.None? then [] else n.value.kids[1..]
  }

  /** internal_node_merge: the children of three neighbours, where `centre`
      replaces the last child of `left` and the first child of `right`. */
  function MergeKids<T>(left: Option<Node<T>>, centre: seq<Node<T>>, right: Option<Node<T>>): seq<Node<T>>
    requires left.Some? ==> left.value.Inner? && |left.value.kids| >= 1
    requires right.Some? ==> right.value.Inner? && |right.value.kids| >= 1
  {
    Init(left) + centre + Tail(right)
  }

  /** The node `r` has 1 to 32 children, all of the same height, and no table yet. */
  ghost predicate Candidate<T>(r: Node<T>, left: bool, right: bool) {
    && r.Inner? && r.table.None? && 1 <= |r.kids| <= BRANCHING
    && FindHeight(r) >= 1 && SoundAll(r.kids, FindHeight(r) - 1, left, right)
  }

  lemma CandidateHeight<T>(kids: seq<Node<T>>, h: nat, left: bool, right: bool)
    requires 1 <= |kids| <= BRANCHING && SoundAll(kids, h, left, right)
    ensures Candidate(Inner(kids, None), left, right)
    ensures FindHeight(Inner(kids, None)) == h + 1
  {
    SoundAllWf(kids, h, left, right, Exact);
    FindHeightIsHeight(kids[0], h, Exact);
  }

  /** Leaves of the same lengths with the same elements are the same leaves. */
  lemma {:induction false} SameLeaves<T>(a: seq<Node<T>>, b: seq<Node<T>>)
    requires AllLeaves(a) && AllLeaves(b) && SlotsOf(a) == SlotsOf(b) && ElementsOf(a) == ElementsOf(b)
    ensures a == b
  {
    if a != [] {
      assert |a| == |SlotsOf(a)| == |b|;
      assert |a[0].elems| == SlotsOf(a)[0] == SlotsOf(b)[0] == |b[0].elems|;
      assert a[0].elems == ElementsOf(a)[..|a[0].elems|] == b[0].elems;
      assert ElementsOf(a[1..]) == ElementsOf(a)[|a[0].elems|..] == ElementsOf(b[1..]);
      assert SlotsOf(a[1..]) == SlotsOf(a)[1..] == SlotsOf(b[1..]);
      SameLeaves(a[1..], b[1..]);
      assert a == [a[0]] + a[1..] && b == [b[0]] + b[1..];
    }
  }

  /** So few nodes that rebalancing does not touch them. */
  predicate Few<T>(all: seq<Node<T>>) {
    |all| <= BRANCHING && |all| <= OptimalSlots(Sum(SlotsOf(all))) + EXTRAS
  }

  ghost function RebalanceOf<T>(l: Option<Node<T>>, centre: Node<T>, r: Option<Node<T>>, isTop: bool): Node<T> {
    if !centre.Inner? || (l.Some? && (!l.value.Inner? || l.value.kids == []))
       || (r.Some? && (!r.value.Inner? || r.value.kids == [])) then centre
    else
      var all := MergeKids(l, centre.kids, r);
      var newAll := ExecuteOf(all, PlanOf(SlotsOf(all)));
      if |newAll| > BRANCHING then Inner([Sized(newAll[..BRANCHING]), Sized(newAll[BRANCHING..])], None)
      else if isTop then Inner(newAll, None)
      else Inner([Sized(newAll)], None)
  }

  ghost function SubTreeOf<T>(l: Node<T>, lh: nat, r: Node<T>, rh: nat, isTop: bool): Node<T>
    decreases lh + rh
  {
    var lm := if l.Inner? && l.kids != [] then l.kids[|l.kids| - 1] else l;
    var rm := if r.Inner? && r.kids != [] then r.kids[0] else r;
    if lh > rh then RebalanceOf(Some(l), SubTreeOf(lm, lh - 1, r, rh, false), None, isTop)
    else if lh < rh then RebalanceOf(None, SubTreeOf(l, lh, rm, rh - 1, false), Some(r), isTop)
    else if lh > 0 then RebalanceOf(Some(l), SubTreeOf(lm, lh - 1, rm, rh - 1, false), Some(r), isTop)
    else if l.Leaf? && r.Leaf? && isTop && |l.elems| + |r.elems| <= BRANCHING then
      Inner([Leaf(l.elems + r.elems)], None)
    else Inner([l, r], None)
  }

  lemma LeftStep<T>(l: Node<T>, lh: nat, r: Node<T>, rh: nat, isTop: bool)
    requires lh > rh && l.Inner? && l.kids != []
    ensures SubTreeOf(l, lh, r, rh, isTop)
         == RebalanceOf(Some(l), SubTreeOf(l.kids[|l.kids| - 1], lh - 1, r, rh, false), None, isTop)
  {}

  lemma RightStep<T>(l: Node<T>, lh: nat, r: Node<T>, rh: nat, isTop: bool)
    requires lh < rh && r.Inner? && r.kids != []
    ensures SubTreeOf(l, lh, r, rh, isTop)
         == RebalanceOf(None, SubTreeOf(l, lh, r.kids[0], rh - 1, false), Some(r), isTop)
  {}

  lemma InnerStep<T>(l: Node<T>, r: Node<T>, h: nat, isTop: bool)
    requires h > 0 && l.Inner? && l.kids != [] && r.Inner? && r.kids != []
    ensures SubTreeOf(l, h, r, h, isTop)
         == RebalanceOf(Some(l), SubTreeOf(l.kids[|l.kids| - 1], h - 1, r.kids[0], h - 1, false), Some(r), isTop)
  {}

  /** rebalance: one or two nodes of height h (all children of the result) when
      not at the top, else possibly the children themselves. */
  method Rebalance<T>(l: Option<Node<T>>, centre: Node<T>, r: Option<Node<T>>, h: nat, isTop: bool, ghost left: bool,
      ghost right: bool)
    returns (n: Node<T>)
    requires h >= 1
    requires centre.Inner? && 1 <= |centre.kids| <= 2
    requires l.Some? ==> l.value.Inner? && 1 <= |l.value.kids| <= BRANCHING
    requires r.Some? ==> r.value.Inner? && 1 <= |r.value.kids| <= BRANCHING
    requires SoundAll(MergeKids(l, centre.kids, r), h - 1, left, right)
    ensures Elements(n) == ElementsOf(MergeKids(l, centre.kids, r))
    ensures Candidate(n, left, right)
    ensures !isTop ==> |n.kids| <= 2 && FindHeight(n) == h + 1
    ensures isTop && h == 1 && Few(MergeKids(l, centre.kids, r)) ==> n.kids == MergeKids(l, centre.kids, r)
    ensures n == RebalanceOf(l, centre, r, isTop)
  {
    hide Sound, SoundAll, Wf, ElementsOf, ExecuteOf, PlanOf;
    var all := MergeKids(l, centre.kids, r);
    SoundAllWf(all, h - 1, left, right, Exact);
    WfSlots(all, h - 1, Exact);
    var nodeCount, topLen := CreateConcatPlan(all);
    var newAll := ExecuteConcatPlan(all, nodeCount[..topLen], h, left, right);
    assert |newAll| == |SlotsOf(newAll)| == topLen;
    if h == 1 && Few(all) {
      assert nodeCount[..topLen] == SlotsOf(all);
      SoundLeaves(all, left, right);
      SoundLeaves(newAll, left, right);
      SameLeaves(newAll, all);
    }
    if topLen > BRANCHING {
      n := SplitInTwo(newAll, h, left, right);
    } else if !isTop {
      var above := SizedNode(newAll, h, left, right);
      n := Inner([above], None);
      ElementsOfOne(above);
      SoundOne(above, h, left, right);
      CandidateHeight(n.kids, h, left, right);
    } else {
      n := Inner(newAll, None);
      CandidateHeight(newAll, h - 1, left, right);
    }
  }

  lemma SoundLeaves<T>(kids: seq<Node<T>>, left: bool, right: bool)
    requires SoundAll(kids, 0, left, right)
    ensures AllLeaves(kids)
  {}

  lemma WfSlots<T>(kids: seq<Node<T>>, h: nat, tier: Tier)
    requires WfAll(kids, h, tier)
    ensures InRange(SlotsOf(kids))
  {}

  /** rebalance when more than 32 children remain: two nodes, the first one full. */
  method SplitInTwo<T>(newAll: seq<Node<T>>, h: nat, ghost left: bool, ghost right: bool) returns (n: Node<T>)
    requires h >= 1
    requires BRANCHING < |newAll| <= 2 * BRANCHING && SoundAll(newAll, h - 1, left, right)
    ensures Elements(n) == ElementsOf(newAll)
    ensures Candidate(n, left, right)
    ensures |n.kids| == 2 && FindHeight(n) == h + 1
    ensures n == Inner([Sized(newAll[..BRANCHING]), Sized(newAll[BRANCHING..])], None)
  {
    assert newAll == newAll[..BRANCHING] + newAll[BRANCHING..];
    ElementsOfConcat(newAll[..BRANCHING], newAll[BRANCHING..]);
    SoundParts(newAll[..BRANCHING], newAll[BRANCHING..], h - 1, left, right);
    var newLeft := SizedNode(newAll[..BRANCHING], h, left, false);
    var newRight := SizedNode(newAll[BRANCHING..], h, false, right);
    n := Inner([newLeft, newRight], None);
    assert [newLeft, newRight] == [newLeft] + [newRight];
    ElementsOfSnoc([newLeft], newRight);
    ElementsOfOne(newLeft);
    CandidateHeight(n.kids, h, left, right);
  }

  // ---------- descending along the touching edges ----------

  /** What concat needs of its left operand: nothing but the shape along its right
      edge, whose nodes it takes apart. */
  ghost predicate EdgeShape<T>(n: Node<T>, h: nat, left: bool)
    decreases h
  {
    if h == 0 then n.Leaf? && 1 <= |n.elems| <= BRANCHING
    else
      && n.Inner? && 1 <= |n.kids| <= BRANCHING
      && SoundAll(n.kids[..|n.kids| - 1], h - 1, left, false)
      && EdgeShape(n.kids[|n.kids| - 1], h - 1, left && |n.kids| == 1)
  }

  function Max(a: nat, b: nat): nat {
    if a > b then a else b
  }

  lemma InitAndLast<T>(n: Option<Node<T>>, last: Node<T>)
    requires n.Some? ==> n.value.Inner? && |n.value.kids| >= 1 && last == n.value.kids[|n.value.kids| - 1]
    ensures Elements(n.GetOr(last)) == ElementsOf(Init(n)) + Elements(last)
  {
    if n.Some? {
      assert n.value.kids == Init(n) + [last];
      ElementsOfSnoc(Init(n), last);
    } else {
      assert ElementsOf<T>([]) + Elements(last) == Elements(last);
    }
  }

  lemma FirstAndTail<T>(n: Option<Node<T>>, first: Node<T>)
    requires n.Some? ==> n.value.Inner? && |n.value.kids| >= 1 && first == n.value.kids[0]
    ensures Elements(n.GetOr(first)) == Elements(first) + ElementsOf(Tail(n))
  {
    if n.None? {
      assert Elements(first) + ElementsOf<T>([]) == Elements(first);
    }
  }

  lemma Regroup4<T>(a: seq<T>, b: seq<T>, c: seq<T>, d: seq<T>)
    ensures a + (b + c) + d == (a + b) + (c + d)
  {}

  /** One level of the zipper: `centre` holds the elements of the touching
      children `lm` and `rm`; merging it with the other children gives the
      elements of both sides. */
  lemma MergeLevel<T>(left: Option<Node<T>>, lm: Node<T>, centre: Node<T>, rm: Node<T>, right: Option<Node<T>>)
    requires left.Some? ==> left.value.Inner? && |left.value.kids| >= 1 && lm == left.value.kids[|left.value.kids| - 1]
    requires right.Some? ==> right.value.Inner? && |right.value.kids| >= 1 && rm == right.value.kids[0]
    requires centre.Inner? && Elements(centre) == Elements(lm) + Elements(rm)
    ensures ElementsOf(MergeKids(left, centre.kids, right))
         == Elements(left.GetOr(lm)) + Elements(right.GetOr(rm))
  {
    ElementsOfConcat(Init(left), centre.kids);
    ElementsOfConcat(Init(left) + centre.kids, Tail(right));
    InitAndLast(left, lm);
    FirstAndTail(right, rm);
    Regroup4(ElementsOf(Init(left)), Elements(lm), Elements(rm), ElementsOf(Tail(right)));
  }

  /** The children of three neighbours at their places. */
  lemma MergeSound<T>(l: Option<Node<T>>, centre: seq<Node<T>>, r: Option<Node<T>>, h: nat, left: bool, right: bool)
    requires centre != []
    requires l.Some? ==> l.value.Inner? && |l.value.kids| >= 1 && SoundAll(Init(l), h, left, false)
    requires r.Some? ==> r.value.Inner? && |r.value.kids| >= 1 && SoundAll(Tail(r), h, false, right)
    requires SoundAll(centre, h, left && Init(l) == [], right && Tail(r) == [])
    ensures SoundAll(MergeKids(l, centre, r), h, left, right)
  {
    SoundConcat(Init(l), centre, h, left, right && Tail(r) == []);
    SoundConcat(Init(l) + centre, Tail(r), h, left, right);
  }

  /** concat_sub_tree: the elements of `l` followed by those of `r`, for any two
      heights.  What becomes of them depends only on their places: `left` and
      `right` say whether the left edge of `l` and the right edge of `r` are edges
      of the whole. */
  method ConcatSubTree<T>(l: Node<T>, lh: nat, r: Node<T>, rh: nat, isTop: bool, ghost left: bool, ghost right: bool)
    returns (n: Node<T>)
    requires EdgeShape(l, lh, left) && Sound(r, rh, true, right)
    ensures Elements(n) == Elements(l) + Elements(r)
    ensures Candidate(n, left, right)
    ensures !isTop ==> |n.kids| <= 2 && FindHeight(n) == Max(lh, rh) + 1
    ensures isTop && lh == 1 && rh == 0 && Few(l.kids + [r]) ==> n.kids == l.kids + [r]
    ensures !isTop && lh == rh == 0 ==> n.kids == [l, r]
    ensures n == SubTreeOf(l, lh, r, rh, isTop)
    decreases lh + rh, 1
  {
    if lh > rh {
      n := ConcatLeftHigher(l, lh, r, rh, isTop, left, right);
    } else if lh < rh {
      n := ConcatRightHigher(l, lh, r, rh, isTop, left, right);
    } else if lh == 0 {
      n := ConcatLeaves(l, r, isTop, left, right);
    } else {
      n := ConcatInner(l, r, lh, isTop, left, right);
    }
  }

  /** concat_sub_tree when the left tree is higher: descend along its right edge. */
  method ConcatLeftHigher<T>(l: Node<T>, lh: nat, r: Node<T>, rh: nat, isTop: bool, ghost left: bool,
      ghost right: bool)
    returns (n: Node<T>)
    requires lh > rh && EdgeShape(l, lh, left) && Sound(r, rh, true, right)
    ensures Elements(n) == Elements(l) + Elements(r)
    ensures Candidate(n, left, right)
    ensures !isTop ==> |n.kids| <= 2 && FindHeight(n) == lh + 1
    ensures isTop && lh == 1 && Few(l.kids + [r]) ==> n.kids == l.kids + [r]
    ensures n == SubTreeOf(l, lh, r, rh, isTop)
    decreases lh + rh, 0
  {
    hide Sound, SoundAll, Radix, TableOk, ElementsOf, Candidate, SubTreeOf, RebalanceOf;
    LeftStep(l, lh, r, rh, isTop);
    var lm := l.kids[|l.kids| - 1];
    var centre := ConcatSubTree(lm, lh - 1, r, rh, false, left && |l.kids| == 1, right);
    MergeLevel(Some(l), lm, centre, r, None);
    MergeSound(Some(l), centre.kids, None, lh - 1, left, right);
    if lh == 1 { assert MergeKids(Some(l), [lm, r], None) == l.kids + [r]; }
    n := Rebalance(Some(l), centre, None, lh, isTop, left, right);
  }

  lemma RightMerge<T>(l: Node<T>, centre: Node<T>, r: Node<T>, rh: nat, left: bool, right: bool)
    requires rh > 0 && Sound(r, rh, true, right) && r.Inner? && r.kids != [] && centre.Inner? && centre.kids != []
    requires Elements(centre) == Elements(l) + Elements(r.kids[0])
    requires SoundAll(centre.kids, rh - 1, left, right && |r.kids| == 1)
    ensures SoundAll(MergeKids(None, centre.kids, Some(r)), rh - 1, left, right)
    ensures ElementsOf(MergeKids(None, centre.kids, Some(r))) == Elements(l) + Elements(r)
  {
    hide Sound, SoundAll;
    RightKids(r, rh, right);
    MergeLevel(None, l, centre, r.kids[0], Some(r));
    MergeSound(None, centre.kids, Some(r), rh - 1, left, right);
  }

  /** concat_sub_tree when the right tree is higher: descend along its left edge. */
  method ConcatRightHigher<T>(l: Node<T>, lh: nat, r: Node<T>, rh: nat, isTop: bool, ghost left: bool,
      ghost right: bool)
    returns (n: Node<T>)
    requires lh < rh && EdgeShape(l, lh, left) && Sound(r, rh, true, right)
    ensures Elements(n) == Elements(l) + Elements(r)
    ensures Candidate(n, left, right)
    ensures !isTop ==> |n.kids| <= 2 && FindHeight(n) == rh + 1
    ensures n == SubTreeOf(l, lh, r, rh, isTop)
    decreases lh + rh, 0
  {
    hide Sound, SoundAll, Wf, Radix, TableOk, ElementsOf, EdgeShape, MergeKids, SubTreeOf, RebalanceOf;
    RightKids(r, rh, right);
    RightStep(l, lh, r, rh, isTop);
    var rm := r.kids[0];
    var centre := ConcatSubTree(l, lh, rm, rh - 1, false, left, right && |r.kids| == 1);
    RightMerge(l, centre, r, rh, left, right);
    n := Rebalance(None, centre, Some(r), rh, isTop, left, right);
  }

  /** The first child of the right operand, and the others. */
  lemma RightKids<T>(r: Node<T>, h: nat, right: bool)
    requires h > 0 && Sound(r, h, true, right)
    ensures r.Inner? && 1 <= |r.kids| <= BRANCHING
    ensures Sound(r.kids[0], h - 1, true, right && |r.kids| == 1)
    ensures SoundAll(r.kids[1..], h - 1, false, right)
  {
    SoundKids(r, h, true, right);
    assert r.kids == [r.kids[0]] + r.kids[1..];
    SoundParts([r.kids[0]], r.kids[1..], h - 1, true, right);
  }

  /** concat_sub_tree on two internal nodes of the same height: descend in both. */
  method ConcatInner<T>(l: Node<T>, r: Node<T>, h: nat, isTop: bool, ghost left: bool, ghost right: bool)
    returns (n: Node<T>)
    requires h > 0 && EdgeShape(l, h, left) && Sound(r, h, true, right)
    ensures Elements(n) == Elements(l) + Elements(r)
    ensures Candidate(n, left, right)
    ensures !isTop ==> |n.kids| <= 2 && FindHeight(n) == h + 1
    ensures n == SubTreeOf(l, h, r, h, isTop)
    decreases h + h, 0
  {
    hide Sound, SoundAll, Radix, TableOk, ElementsOf, Candidate, MergeKids, SubTreeOf, RebalanceOf;
    RightKids(r, h, right);
    InnerStep(l, r, h, isTop);
    var lm, rm := l.kids[|l.kids| - 1], r.kids[0];
    var centre := ConcatSubTree(lm, h - 1, rm, h - 1, false, left && |l.kids| == 1, right && |r.kids| == 1);
    MergeLevel(Some(l), lm, centre, rm, Some(r));
    MergeSound(Some(l), centre.kids, Some(r), h - 1, left, right);
    n := Rebalance(Some(l), centre, Some(r), h, isTop, left, right);
  }

  /** concat_sub_tree on two leaves, merged only at the top. */
  method ConcatLeaves<T>(l: Node<T>, r: Node<T>, isTop: bool, ghost left: bool, ghost right: bool)
    returns (n: Node<T>)
    requires EdgeShape(l, 0, left) && Sound(r, 0, true, right)
    ensures Elements(n) == Elements(l) + Elements(r)
    ensures Candidate(n, left, right)
    ensures |n.kids| <= 2 && FindHeight(n) == 1
    ensures !isTop ==> n.kids == [l, r]
    ensures n == SubTreeOf(l, 0, r, 0, isTop)
  {
    if isTop && |l.elems| + |r.elems| <= BRANCHING {
      var merged := Leaf(l.elems + r.elems);
      n := Inner([merged], None);
      ElementsOfOne(merged);
    } else {
      n := Inner([l, r], None);
      assert [l, r] == [l] + [r];
      ElementsOfConcat([l], [r]);
      ElementsOfOne(l);
      ElementsOfOne(r);
    }
    CandidateHeight(n.kids, 0, left, right);
  }
}
