/**
 The list header (tree plus tail), and the operations that grow a list: push and
 concat.
 */
module Vectors {
  import opened Seqs
  import opened Nodes
  import opened Paths
  import opened Edges
  import opened RightEdge
  import opened TreeConcat
  import opened ConcatPlan

  /** An RRB header.  `tail` is the tail leaf's elements; `height` stands for the
      shift, and means nothing while there is no root. */
  datatype Rrb<T> = Rrb(cnt: nat, height: nat, root: Option<Node<T>>, tail: seq<T>, tailLen: nat)

  /** rrb_create: EMPTY_RRB. */
  function Empty<T>(): Rrb<T> {
    Rrb(0, 0, None, [], 0)
  }

  function TreeElements<T>(v: Rrb<T>): seq<T> {
    match v.root
    case None => []
    case Some(n) => Elements(n)
  }

  /** The sequence a list stands for. */
  function Contents<T>(v: Rrb<T>): seq<T> {
    TreeElements(v) + v.tail
  }

  /** What is known of the tree of a list. */
  ghost predicate TreeOk<T>(n: Node<T>, h: nat, tier: Tier) {
    match tier
    case Indexable => Wf(n, h, Indexable)
    case Exact => Sound(n, h, true, true)
    case Strong => Sound(n, h, false, true)
  }

  lemma TreeOkWeaken<T>(n: Node<T>, h: nat, tier: Tier, weaker: Tier)
    requires TreeOk(n, h, tier)
    requires weaker == tier || weaker == Indexable || (weaker == Exact && tier == Strong)
    ensures TreeOk(n, h, weaker)
  {
    if tier != Indexable {
      SoundAnywhere(n, h, tier == Exact, true, weaker != Strong, true);
      SoundIsWf(n, h, tier == Exact, true, Indexable);
    }
  }

  /** The list invariant.  A strong list, besides having a strong tree, has more
      than 32 elements whenever it has a root, and a root leaf is full. */
  ghost predicate Valid<T>(v: Rrb<T>, tier: Tier) {
    && v.tailLen == |v.tail| <= BRANCHING
    && v.cnt == |Contents(v)|
    && (v.cnt > 0 ==> v.tailLen > 0)
    && (v.root.Some? ==> TreeOk(v.root.value, v.height, tier))
    && (v.root.Some? && tier == Strong ==>
          v.cnt > BRANCHING && (v.height == 0 ==> |v.root.value.elems| == BRANCHING))
  }

  lemma ValidWeaken<T>(v: Rrb<T>, tier: Tier, weaker: Tier)
    requires Valid(v, tier)
    requires weaker == tier || weaker == Indexable || (weaker == Exact && tier == Strong)
    ensures Valid(v, weaker)
  {
    if v.root.Some? { TreeOkWeaken(v.root.value, v.height, tier, weaker); }
  }

  /** What push_down_tail relies on: the old tail is a leaf, and with more than 32
      elements there is a root on which the tail's last index can be followed. */
  ghost predicate CanPushDown<T>(rrb: Rrb<T>, newRrb: Rrb<T>) {
    && 1 <= |newRrb.tail| <= BRANCHING
    && newRrb.root == rrb.root && newRrb.height == rrb.height
    && (rrb.cnt > BRANCHING ==>
          && rrb.root.Some?
          && Wf(rrb.root.value, rrb.height, Indexable)
          && Steered(rrb.root.value, rrb.height, |newRrb.tail|)
          && rrb.cnt == |Elements(rrb.root.value)| + |newRrb.tail|)
  }

  /** push_down_tail: the old tail becomes the last leaf of the tree.  A list of
      at most 32 elements is taken to have no tree. */
  method PushDownTail<T>(rrb: Rrb<T>, newRrb: Rrb<T>, newTail: seq<T>) returns (r: Rrb<T>)
    requires CanPushDown(rrb, newRrb)
    ensures r.cnt == newRrb.cnt && r.tailLen == newRrb.tailLen && r.tail == newTail
    ensures rrb.cnt <= BRANCHING ==> r.root == Some(Leaf(newRrb.tail)) && r.height == 0
    ensures rrb.cnt > BRANCHING ==>
              r.root.Some? && (r.root.value, r.height) == AppendLeaf(rrb.root.value, rrb.height, newRrb.tail)
  {
    var oldTail := newRrb.tail;
    r := newRrb.(tail := newTail);
    if rrb.cnt <= BRANCHING {
      r := r.(height := 0, root := Some(Leaf(oldTail)));
      return;
    }
    var root := rrb.root.value;
    DeepestRoomBound(root, rrb.height);
    var nodesToCopy, nodesVisited := CountCopyable(root, rrb.height, rrb.cnt, |oldTail|);
    if nodesToCopy == 0 {
      // Increase the height; the table is needed only if the old root has one.
      var table := None;
      if root.Inner? && root.table.Some? {
        table := Some([rrb.cnt - |oldTail|, rrb.cnt]);
      }
      var chain := AppendEmpty(nodesVisited, oldTail);
      r := r.(root := Some(Inner([root, chain], table)), height := r.height + 1);
    } else {
      var path := CopyFirstK(root, rrb.height, rrb.cnt, nodesToCopy, |oldTail|, oldTail);
      var chain := AppendEmpty(nodesVisited - nodesToCopy, oldTail);
      r := r.(root := Some(Plug(path, chain)));
    }
  }

  /** What rrb_push makes of a list. */
  function PushOf<T>(v: Rrb<T>, elt: T): Rrb<T>
    requires v.root.Some? ==> Wf(v.root.value, v.height, Indexable)
  {
    if v.tailLen < BRANCHING then v.(cnt := v.cnt + 1, tailLen := v.tailLen + 1, tail := v.tail + [elt])
    else
      var (root, height) := if v.root.None? then (Leaf(v.tail), 0) else AppendLeaf(v.root.value, v.height, v.tail);
      Rrb(v.cnt + 1, height, Some(root), [elt], 1)
  }

  /** rrb_push, with rrb_tail_push for the common case. */
  method Push<T>(v: Rrb<T>, elt: T) returns (r: Rrb<T>)
    requires Valid(v, Indexable)
    ensures r == PushOf(v, elt)
    ensures Contents(r) == Contents(v) + [elt]
    ensures Valid(r, Indexable) <==> PushSafe(v)
    ensures forall tier :: Valid(v, tier) && PushSafe(v) ==> Valid(r, tier)
    ensures Valid(v, Strong) ==> Valid(r, Strong)
  {
    PushOfOk(v, elt);
    if v.tailLen < BRANCHING {
      r := v.(cnt := v.cnt + 1, tailLen := v.tailLen + 1, tail := v.tail + [elt]);
      return;
    }
    var newRrb := v.(cnt := v.cnt + 1, tailLen := 1);
    if v.root.Some? {
      FullTailSteers(v.root.value, v.height);
      SizeBounds(v.root.value, v.height, Indexable);
    }
    r := PushDownTail(v, newRrb, [elt]);
  }

  lemma PushOfOk<T>(v: Rrb<T>, elt: T)
    requires Valid(v, Indexable)
    ensures var r := PushOf(v, elt);
            && Contents(r) == Contents(v) + [elt]
            && (Valid(r, Indexable) <==> PushSafe(v))
            && (forall tier :: Valid(v, tier) && PushSafe(v) ==> Valid(r, tier))
            && (Valid(v, Strong) ==> Valid(r, Strong))
  {
    var r := PushOf(v, elt);
    if v.tailLen < BRANCHING {
      assert Contents(r) == Contents(v) + [elt];
    } else {
      if v.root.Some? { SizeBounds(v.root.value, v.height, Indexable); }
      PushedDown(v, r, v.tail);
    }
    if Valid(v, Strong) { StrongIsSafe(v); }
  }

  /** A list can be pushed to when its tail has room or its tree accepts a leaf. */
  predicate PushSafe<T>(v: Rrb<T>)
    requires v.root.Some? ==> Wf(v.root.value, v.height, Indexable)
  {
    v.tailLen < BRANCHING || v.root.None? || RootAccepts(v.root.value, v.height)
  }

  lemma StrongIsSafe<T>(v: Rrb<T>)
    requires Valid(v, Strong)
    ensures Valid(v, Indexable) && PushSafe(v)
    ensures v.root.Some? ==> RootAccepts(v.root.value, v.height)
  {
    ValidWeaken(v, Strong, Indexable);
    if v.root.Some? { SoundRootAccepts(v.root.value, v.height); }
  }

  /** The tree after a full leaf was pushed down below it. */
  ghost predicate HoldsLeaf<T>(v: Rrb<T>, r: Rrb<T>, leaf: seq<T>)
    requires v.root.Some? ==> Wf(v.root.value, v.height, Indexable)
  {
    && r.root.Some?
    && if v.root.None? then r.root.value == Leaf(leaf) && r.height == 0
       else (r.root.value, r.height) == AppendLeaf(v.root.value, v.height, leaf)
  }

  lemma PushedDown<T>(v: Rrb<T>, r: Rrb<T>, leaf: seq<T>)
    requires Valid(v, Indexable) && |leaf| == BRANCHING && HoldsLeaf(v, r, leaf)
    requires 1 <= r.tailLen == |r.tail| <= BRANCHING && r.cnt == |TreeElements(v)| + |leaf| + r.tailLen
    ensures Contents(r) == TreeElements(v) + leaf + r.tail
    ensures Valid(r, Indexable) <==> v.root.None? || RootAccepts(v.root.value, v.height)
    ensures forall tier :: Valid(v, tier) && (v.root.None? || RootAccepts(v.root.value, v.height)) ==> Valid(r, tier)
  {
    if v.root.Some? {
      AppendLeafAppends(v.root.value, v.height, leaf);
      AppendLeafIff(v.root.value, v.height, leaf);
      forall tier | Valid(v, tier) && RootAccepts(v.root.value, v.height)
        ensures Valid(r, tier)
      {
        if tier != Indexable { AppendLeafSound(v.root.value, v.height, leaf, tier == Exact); }
      }
    }
  }

  // ---------- concat ----------

  /** The test for "at most 32 elements" in push_down_tail takes a left operand
      with a root and at most 32 elements for a rootless one. */
  predicate DropsLeftTree<T>(left: Rrb<T>, right: Rrb<T>) {
    right.root.Some? && left.root.Some? && left.cnt <= BRANCHING
  }

  /** Whether the result of a concat can be used: the left tree is not dropped, and
      it accepts a leaf where one is hung below it for good. */
  predicate ConcatSafe<T>(left: Rrb<T>, right: Rrb<T>)
    requires left.root.Some? ==> Wf(left.root.value, left.height, Indexable)
  {
    || left.cnt == 0 || right.cnt == 0 || left.root.None?
    || if right.root.None? then left.tailLen + right.tailLen <= BRANCHING || RootAccepts(left.root.value, left.height)
       else !DropsLeftTree(left, right)
  }

  lemma StrongConcatSafe<T>(left: Rrb<T>, right: Rrb<T>)
    requires Valid(left, Strong) && Valid(right, Strong)
    ensures Valid(left, Indexable) && ConcatSafe(left, right)
  {
    StrongIsSafe(left);
  }

  /** Two lists whose trees are single leaves, both of which the concat keeps. */
  predicate LeafRoots<T>(left: Rrb<T>, right: Rrb<T>) {
    left.root.Some? && right.root.Some? && left.height == right.height == 0 && left.cnt > BRANCHING
  }

  /** Their concat: the two leaves with the left tail between them. */
  ghost predicate ThreeLeaves<T>(r: Rrb<T>, left: Rrb<T>, right: Rrb<T>)
    requires left.root.Some? && right.root.Some?
  {
    && r.root.Some? && r.height == 1 && r.root.value.Inner? && r.root.value.table.Some?
    && r.root.value.kids == [left.root.value, Leaf(left.tail), right.root.value] && r.tail == right.tail
  }

  /** The tree with a leaf pushed down, when the list counts `cnt` elements. */
  ghost function Hung<T>(v: Rrb<T>, cnt: nat, leaf: seq<T>): (Node<T>, nat)
    requires v.root.Some? ==> Wf(v.root.value, v.height, Indexable)
  {
    if cnt <= BRANCHING || v.root.None? then (Leaf(leaf), 0) else AppendLeaf(v.root.value, v.height, leaf)
  }

  /** What rrb_concat makes of two lists. */
  ghost function ConcatOf<T>(left: Rrb<T>, right: Rrb<T>): Rrb<T>
    requires left.root.Some? ==> Wf(left.root.value, left.height, Indexable)
  {
    var cnt := left.cnt + right.cnt;
    if left.cnt == 0 then right
    else if right.cnt == 0 then left
    else if right.root.Some? then
      var (root, height) := Hung(left, left.cnt, left.tail);
      var candidate := SubTreeOf(root, height, right.root.value, right.height, true);
      var kids := if candidate.Inner? then candidate.kids else [];
      Rrb(cnt, FindHeight(candidate), Some(Sized(kids)), right.tail, right.tailLen)
    else if left.tailLen == BRANCHING then
      var (root, height) := Hung(left, left.cnt, left.tail);
      Rrb(cnt, height, Some(root), right.tail, right.tailLen)
    else if left.tailLen + right.tailLen <= BRANCHING then
      left.(cnt := cnt, tail := left.tail + right.tail, tailLen := left.tailLen + right.tailLen)
    else
      var cut := if left.tailLen <= BRANCHING && BRANCHING - left.tailLen <= |right.tail|
                 then BRANCHING - left.tailLen else 0;
      var (root, height) := Hung(left, left.cnt + cut, left.tail + right.tail[..cut]);
      Rrb(cnt, height, Some(root), right.tail[cut..], left.tailLen + right.tailLen - BRANCHING)
  }

  /** rrb_concat.  (That the left list is indexable follows from its tier.) */
  method Concat<T>(left: Rrb<T>, right: Rrb<T>, ghost tier: Tier) returns (r: Rrb<T>)
    requires tier != Indexable && Valid(left, tier) && Valid(right, tier) && Valid(left, Indexable)
    ensures Contents(r) == Contents(left) + Contents(right) <==> !DropsLeftTree(left, right)
    ensures Valid(r, tier) <==> ConcatSafe(left, right)
    ensures Valid(r, Indexable) <==> ConcatSafe(left, right)
    ensures DropsLeftTree(left, right) ==> r.cnt == left.cnt + right.cnt && Contents(r) == left.tail + Contents(right)
    ensures DropsLeftTree(left, right) ==> Valid(r.(cnt := left.tailLen + right.cnt), tier)
    ensures LeafRoots(left, right) ==> ThreeLeaves(r, left, right)
    ensures r == ConcatOf(left, right)
  {
    RootedIsNotEmpty(left, tier);
    RootedIsNotEmpty(right, tier);
    if left.cnt == 0 {
      assert Contents(left) + Contents(right) == Contents(right);
      r := right;
      ValidWeaken(right, tier, Indexable);
    } else if right.cnt == 0 {
      assert Contents(left) + Contents(right) == Contents(left);
      r := left;
    } else if right.root.None? {
      r := ConcatTails(left, right, tier);
    } else {
      r := ConcatTrees(left, right, tier);
    }
  }

  /** rrb_concat when the right list is only a tail. */
  method ConcatTails<T>(left: Rrb<T>, right: Rrb<T>, ghost tier: Tier) returns (r: Rrb<T>)
    requires tier != Indexable && Valid(left, tier) && Valid(right, tier) && Valid(left, Indexable)
    requires left.cnt > 0 && right.cnt > 0 && right.root.None?
    ensures Contents(r) == Contents(left) + Contents(right)
    ensures Valid(r, tier) <==> ConcatSafe(left, right)
    ensures Valid(r, Indexable) <==> ConcatSafe(left, right)
    ensures r == ConcatOf(left, right)
  {
    if left.tailLen == BRANCHING {
      // The left tail is full: skip merging.
      r := PushTail(left, right, tier);
    } else if left.tailLen + right.tailLen <= BRANCHING {
      var newTail := left.tail + right.tail;
      r := left.(cnt := left.cnt + right.cnt, tail := newTail, tailLen := left.tailLen + right.tailLen);
      assert Contents(r) == Contents(left) + Contents(right);
      ValidWeaken(r, tier, Indexable);
    } else {
      r := SplitTail(left, right, tier);
    }
  }

  /** rrb_concat of a full tail with another tail. */
  method PushTail<T>(left: Rrb<T>, right: Rrb<T>, ghost tier: Tier) returns (r: Rrb<T>)
    requires Valid(left, tier) && Valid(right, tier) && Valid(left, Indexable)
    requires left.tailLen == BRANCHING && right.cnt > 0 && right.root.None?
    ensures Contents(r) == Contents(left) + Contents(right)
    ensures Valid(r, tier) <==> left.root.None? || RootAccepts(left.root.value, left.height)
    ensures Valid(r, Indexable) <==> left.root.None? || RootAccepts(left.root.value, left.height)
    ensures r == ConcatOf(left, right)
  {
    if left.root.Some? {
      FullTailSteers(left.root.value, left.height);
      SizeBounds(left.root.value, left.height, Indexable);
    }
    var newRrb := left.(cnt := left.cnt + right.cnt, tailLen := right.tailLen);
    r := PushDownTail(left, newRrb, right.tail);
    PushedDown(left, r, left.tail);
    if Valid(r, tier) { ValidWeaken(r, tier, Indexable); }
    assert Contents(right) == right.tail;
  }

  /** rrb_concat of two tails that overflow a leaf: fill one leaf from both; the
      right tail's remainder becomes the tail. */
  method SplitTail<T>(left: Rrb<T>, right: Rrb<T>, ghost tier: Tier) returns (r: Rrb<T>)
    requires Valid(left, tier) && Valid(right, tier) && Valid(left, Indexable)
    requires left.cnt > 0 && left.tailLen < BRANCHING < left.tailLen + right.tailLen && right.root.None?
    ensures Contents(r) == Contents(left) + Contents(right)
    ensures Valid(r, tier) <==> left.root.None? || RootAccepts(left.root.value, left.height)
    ensures Valid(r, Indexable) <==> left.root.None? || RootAccepts(left.root.value, left.height)
    ensures r == ConcatOf(left, right)
  {
    if left.root.Some? {
      FullTailSteers(left.root.value, left.height);
      SizeBounds(left.root.value, left.height, Indexable);
    }
    var rightCut := BRANCHING - left.tailLen;
    var pushDown := left.tail + right.tail[..rightCut];
    var newTail := right.tail[rightCut..];
    var newTailLen := right.tailLen - rightCut;
    var newRrb := left.(cnt := left.cnt + right.cnt, tail := pushDown, tailLen := newTailLen);
    // The old list with the longer tail, for push_down_tail to compute sizes from.
    var leftImitation := left.(cnt := newRrb.cnt - newTailLen);
    r := PushDownTail(leftImitation, newRrb, newTail);
    assert Contents(right) == right.tail;
    PushedDown(left, r, pushDown);
    if Valid(r, tier) { ValidWeaken(r, tier, Indexable); }
    SplitTailContents(TreeElements(left), left.tail, right.tail, rightCut);
  }

  lemma SplitTailContents<T>(tree: seq<T>, a: seq<T>, b: seq<T>, cut: nat)
    requires cut <= |b|
    ensures tree + (a + b[..cut]) + b[cut..] == (tree + a) + b
  {
    assert b == b[..cut] + b[cut..];
  }

  /** rrb_concat when the right list has a tree: push down the left tail, then
      join the trees. */
  method ConcatTrees<T>(left: Rrb<T>, right: Rrb<T>, ghost tier: Tier) returns (r: Rrb<T>)
    requires tier != Indexable && Valid(left, tier) && Valid(right, tier) && Valid(left, Indexable)
    requires left.cnt > 0 && right.cnt > 0 && right.root.Some?
    ensures Contents(r) == (if DropsLeftTree(left, right) then left.tail else Contents(left)) + Contents(right)
    ensures r.cnt == left.cnt + right.cnt
    ensures !DropsLeftTree(left, right) ==> Valid(r, tier) && Valid(r, Indexable)
    ensures DropsLeftTree(left, right) ==> Valid(r.(cnt := left.tailLen + right.cnt), tier)
    ensures LeafRoots(left, right) ==> ThreeLeaves(r, left, right)
    ensures r == ConcatOf(left, right)
  {
    hide ElementsOf, TableOk, Radix, AppendLeaf, Few, FindHeight, SubTreeOf, ConcatOf, Sized;
    if left.root.Some? && left.cnt > BRANCHING {
      SoundSteered(left.root.value, left.height, tier == Exact, left.tailLen);
    }
    // The NULL tail of the C code is never read.
    var pushed := PushDownTail(left, left, []);
    PushedShape(left, pushed, tier);
    SoundAnywhere(right.root.value, right.height, tier == Exact, true, true, true);
    var rootCandidate := ConcatSubTree(pushed.root.value, pushed.height, right.root.value, right.height, true,
                                       tier == Exact, true);
    var height := FindHeight(rootCandidate);
    if LeafRoots(left, right) { LeavesKept(left, right, pushed, rootCandidate); }
    var root := SizedNode(rootCandidate.kids, height, tier == Exact, true);
    r := Rrb(pushed.cnt + right.cnt, height, Some(root), right.tail, right.tailLen);
    TreesGive(left, right, pushed, rootCandidate);
    ghost var l := Elements(pushed.root.value);
    assert Contents(r) == l + Contents(right) by {
      assert l + TreeElements(right) + right.tail == l + (TreeElements(right) + right.tail);
    }
    assert |l + Contents(right)| == |l| + |Contents(right)|;
    if !DropsLeftTree(left, right) { ValidWeaken(r, tier, Indexable); }
  }

  lemma TreesGive<T>(left: Rrb<T>, right: Rrb<T>, pushed: Rrb<T>, candidate: Node<T>)
    requires Valid(left, Indexable) && left.cnt > 0 && right.cnt > 0 && right.root.Some? && candidate.Inner?
    requires left.cnt <= BRANCHING ==> pushed.root == Some(Leaf(left.tail)) && pushed.height == 0
    requires left.cnt > BRANCHING ==>
               left.root.Some? && pushed.root.Some?
               && (pushed.root.value, pushed.height) == AppendLeaf(left.root.value, left.height, left.tail)
    requires candidate == SubTreeOf(pushed.root.value, pushed.height, right.root.value, right.height, true)
    ensures ConcatOf(left, right)
         == Rrb(left.cnt + right.cnt, FindHeight(candidate), Some(Sized(candidate.kids)), right.tail, right.tailLen)
  {
    hide AppendLeaf, SubTreeOf, Wf;
  }

  /** A tree of one leaf grows by the tail, and three leaves are not rebalanced. */
  lemma LeavesKept<T>(left: Rrb<T>, right: Rrb<T>, pushed: Rrb<T>, candidate: Node<T>)
    requires LeafRoots(left, right) && Valid(left, Indexable)
    requires pushed.root.Some? && (pushed.root.value, pushed.height) == AppendLeaf(left.root.value, 0, left.tail)
    ensures pushed.height == 1 && pushed.root.value.Inner?
    ensures pushed.root.value.kids + [right.root.value] == [left.root.value, Leaf(left.tail), right.root.value]
    ensures Few(pushed.root.value.kids + [right.root.value])
    ensures candidate.Inner? && candidate.kids == pushed.root.value.kids + [right.root.value] ==>
              FindHeight(candidate) == 1
  {
    var all := pushed.root.value.kids + [right.root.value];
    assert pushed.root.value.kids == [left.root.value, Chain(0, left.tail)];
    assert SlotsOf(all)[0] == |left.root.value.elems| >= 1;
    SumAt(SlotsOf(all), 0);
    OptimalIsEnough(Sum(SlotsOf(all)));
    assert FindHeight(left.root.value) == 0;
  }

  /** The left operand with its tail pushed down: everything is still there,
      unless the tree was dropped. */
  lemma PushedShape<T>(left: Rrb<T>, pushed: Rrb<T>, tier: Tier)
    requires tier != Indexable && Valid(left, tier) && Valid(left, Indexable) && left.cnt > 0
    requires left.cnt <= BRANCHING ==> pushed.root == Some(Leaf(left.tail)) && pushed.height == 0
    requires left.cnt > BRANCHING ==>
               left.root.Some? && pushed.root.Some?
               && (pushed.root.value, pushed.height) == AppendLeaf(left.root.value, left.height, left.tail)
    ensures pushed.root.Some? && EdgeShape(pushed.root.value, pushed.height, tier == Exact)
    ensures Elements(pushed.root.value)
         == if left.root.Some? && left.cnt <= BRANCHING then left.tail else Contents(left)
  {
    if left.cnt > BRANCHING {
      AppendLeafAppends(left.root.value, left.height, left.tail);
      AppendLeafShape(left.root.value, left.height, left.tail, tier == Exact);
    } else if left.root.None? {
      assert Contents(left) == left.tail;
    }
  }

  lemma RootedIsNotEmpty<T>(v: Rrb<T>, tier: Tier)
    requires Valid(v, tier)
    ensures v.root.Some? ==> v.cnt > v.tailLen > 0
  {
    if v.root.Some? {
      TreeOkWeaken(v.root.value, v.height, tier, Indexable);
      SizeBounds(v.root.value, v.height, Indexable);
    }
  }
}
