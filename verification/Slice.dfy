/**
 Cutting a list: at the right (which makes the rightmost leaf the new tail), at
 the left, and both; and dropping the last element.
 */
module Slice {
  import opened Seqs
  import opened Nodes
  import opened Shifts
  import opened Lookup
  import opened Vectors
  import opened RightEdge
  import opened Edges

  // ---------- the rightmost leaf ----------

  /** The elements of the rightmost leaf. */
  function LastLeaf<T>(n: Node<T>): seq<T> {
    match n
    case Leaf(elems) => elems
    case Inner(kids, _) => if kids == [] then [] else LastLeaf(kids[|kids| - 1])
  }

  /** The tree without its rightmost leaf, when anything remains. */
  function DropLeaf<T>(n: Node<T>, h: nat, tailLen: nat): Option<Node<T>>
    requires Wf(n, h, Indexable)
    decreases h
  {
    if h == 0 then None
    else
      KidsWf(n, h, Indexable);
      var len := |n.kids|;
      match DropLeaf(n.kids[len - 1], h - 1, tailLen)
      case None => if len == 1 then None else Some(Inner(n.kids[..len - 1], n.table))
      case Some(m) => Some(Inner(n.kids[..len - 1] + [m], ShrinkTable(n.table, len, tailLen)))
  }

  function ShrinkTable(table: Option<seq<nat>>, len: nat, tailLen: nat): Option<seq<nat>> {
    match table
    case None => None
    case Some(t) =>
      if 1 <= len <= |t| && tailLen <= t[len - 1] then Some(t[..len - 1] + [t[len - 1] - tailLen]) else table
  }

  /** What promote_rightmost_leaf leaves of the tree; a root left with one child
      is replaced by that child. */
  function Promoted<T>(root: Node<T>, h: nat): (Option<Node<T>>, nat)
    requires Wf(root, h, Indexable)
  {
    if h > 0 && |root.kids| == 2
       && (KidsWf(root, h, Indexable); DropLeaf(root.kids[1], h - 1, |LastLeaf(root)|).None?)
    then (Some(root.kids[0]), h - 1)
    else (DropLeaf(root, h, |LastLeaf(root)|), h)
  }

  lemma {:induction false} LastLeafIsLast<T>(n: Node<T>, h: nat)
    requires Wf(n, h, Indexable)
    ensures 1 <= |LastLeaf(n)| <= BRANCHING && |LastLeaf(n)| <= |Elements(n)|
    ensures Elements(n)[|Elements(n)| - |LastLeaf(n)|..] == LastLeaf(n)
    decreases h
  {
    if h > 0 {
      KidsWf(n, h, Indexable);
      var last := |n.kids| - 1;
      LastLeafIsLast(n.kids[last], h - 1);
      ElementsOfAt(n.kids, last);
      assert ElementsOf(n.kids[last + 1..]) == [];
    }
  }

  ghost function OptElements<T>(n: Option<Node<T>>): seq<T> {
    match n
    case None => []
    case Some(m) => Elements(m)
  }

  lemma KidsOf<T>(n: Node<T>, h: nat, tier: Tier)
    requires Wf(n, h, tier) && h > 0
    ensures n.Inner? && |n.kids| >= 1 && forall k :: 0 <= k < |n.kids| ==> Wf(n.kids[k], h - 1, tier)
  {
    hide TableOk, Radix;
    KidsWf(n, h, tier);
  }

  /** Exactly the last leaf's elements are gone, and the tree keeps its tier. */
  lemma {:induction false} DropLeafOk<T>(n: Node<T>, h: nat, tier: Tier)
    requires Wf(n, h, tier) && Wf(n, h, Indexable)
    ensures var r := DropLeaf(n, h, |LastLeaf(n)|);
            && OptElements(r) + LastLeaf(n) == Elements(n)
            && (r.Some? ==> Wf(r.value, h, tier))
            && (r.Some? && h > 0 ==> r.value.Inner? && r.value.table.Some? == n.table.Some?)
    decreases h
  {
    hide Wf, ElementsOf;
    if h > 0 {
      KidsOf(n, h, tier);
      KidsOf(n, h, Indexable);
      var len, k := |n.kids|, |LastLeaf(n)|;
      var last := n.kids[len - 1];
      DropLeafOk(last, h - 1, tier);
      var below := DropLeaf(last, h - 1, k);
      LastLeafIsLast(last, h - 1);
      ElementsOfAt(n.kids, len - 1);
      NoKids(n.kids, len);
      if h > 1 { KidsOf(last, h - 1, tier); }
      if below.Some? {
        DropLeafReplace(n, h, below.value, tier);
      } else if len > 1 {
        DropLeafInit(n, h, tier);
      } else {
        NoKids(n.kids[..0], 0);
      }
    } else {
      LeafOf(n, tier);
    }
  }

  lemma NoKids<T>(kids: seq<Node<T>>, i: nat)
    requires i == |kids|
    ensures ElementsOf(kids[i..]) == []
  {}

  lemma LeafOf<T>(n: Node<T>, tier: Tier)
    requires Wf(n, 0, tier)
    ensures n.Leaf?
  {}

  /** Without its last child, a node keeps a table whose last entry is exact. */
  lemma DropLeafInit<T>(n: Node<T>, h: nat, tier: Tier)
    requires h > 0 && Wf(n, h, tier) && |n.kids| > 1
    ensures Wf(Inner(n.kids[..|n.kids| - 1], n.table), h, tier)
    ensures Elements(n) == ElementsOf(n.kids[..|n.kids| - 1]) + Elements(n.kids[|n.kids| - 1])
  {
    var len := |n.kids|;
    var r := Inner(n.kids[..len - 1], n.table);
    ElementsOfAt(n.kids, len - 1);
    assert ElementsOf(n.kids[len..]) == [];
    if n.table.Some? {
      forall i | 0 <= i < len ensures Cum(r.kids, i) == Cum(n.kids, i) { assert r.kids[..i] == n.kids[..i]; }
    } else {
      RadixSize(n, h);
    }
  }

  /** With its last child shrunk by the last leaf, a node stays well formed. */
  lemma DropLeafReplace<T>(n: Node<T>, h: nat, m: Node<T>, tier: Tier)
    requires h > 1 && Wf(n, h, tier) && Wf(n, h, Indexable)
    requires Wf(m, h - 1, tier) && Elements(m) + LastLeaf(n) == Elements(n.kids[|n.kids| - 1])
    requires n.kids[|n.kids| - 1].Inner? && m.Inner? && m.table.Some? == n.kids[|n.kids| - 1].table.Some?
    ensures var r := Inner(n.kids[..|n.kids| - 1] + [m], ShrinkTable(n.table, |n.kids|, |LastLeaf(n)|));
            && Wf(r, h, tier) && r.table.Some? == n.table.Some?
            && Elements(r) + LastLeaf(n) == Elements(n)
  {
    var len, k := |n.kids|, |LastLeaf(n)|;
    var kids' := n.kids[..len - 1] + [m];
    SnocInit(n.kids, m);
    assert ElementsOf(kids') + LastLeaf(n) == Elements(n);
    if n.table.Some? {
      hide ElementsOf;
      ShrinkTableOk(n.kids, n.table.value, m, tier, k);
      assert WfAll(kids', h - 1, tier);
    } else {
      assert Radix(n.kids[len - 1], h - 1);
      ShrinkRadix(n, h, m, tier);
    }
  }

  lemma ShrinkTableOk<T>(kids: seq<Node<T>>, t: seq<nat>, m: Node<T>, tier: Tier, k: nat)
    requires TableOk(t, kids, tier) && |Elements(m)| + k == |Elements(kids[|kids| - 1])|
    ensures k <= t[|kids| - 1]
    ensures TableOk(t[..|kids| - 1] + [t[|kids| - 1] - k], kids[..|kids| - 1] + [m], tier)
  {
    var len := |kids|;
    var kids' := kids[..len - 1] + [m];
    ElementsOfAt(kids, len - 1);
    ElementsOfAt(kids', len - 1);
    forall i | 0 <= i < len ensures Cum(kids', i) == Cum(kids, i) { assert kids'[..i] == kids[..i]; }
  }

  lemma ShrinkRadix<T>(n: Node<T>, h: nat, m: Node<T>, tier: Tier)
    requires h > 1 && n.Inner? && n.table.None? && Wf(n, h, tier) && Wf(m, h - 1, tier)
    requires m.Inner? && m.table.None?
    ensures Wf(Inner(n.kids[..|n.kids| - 1] + [m], None), h, tier)
  {
    var kids' := n.kids[..|n.kids| - 1] + [m];
    assert Radix(m, h - 1);
    assert kids'[|n.kids| - 1] == m;
  }

  /** A tree whose last leaf may be short, as it is after a cut at the right; the
      rest is sound. */
  ghost predicate Sliced<T>(n: Node<T>, h: nat, left: bool)
    decreases h
  {
    if h == 0 then n.Leaf? && 1 <= |n.elems| <= BRANCHING
    else
      && n.Inner? && 1 <= |n.kids| <= BRANCHING
      && match n.table
         case None => Radix(n, h)
         case Some(t) =>
           && TableOk(t, n.kids, Exact) && SoundAll(n.kids[..|n.kids| - 1], h - 1, left, false)
           && Sliced(n.kids[|n.kids| - 1], h - 1, left && |n.kids| == 1)
  }

  lemma {:induction false} SoundIsSliced<T>(n: Node<T>, h: nat, left: bool)
    requires Sound(n, h, left, true)
    ensures Sliced(n, h, left)
    decreases h
  {
    if h > 0 {
      LastKidSound(n, h, left);
      SoundIsSliced(n.kids[|n.kids| - 1], h - 1, left && |n.kids| == 1);
    }
  }

  /** The leaves before the last one of a radix node are full. */
  lemma {:induction false} RadixInit<T>(n: Node<T>, h: nat)
    requires Radix(n, h) && |LastLeaf(n)| <= |Elements(n)|
    ensures (|Elements(n)| - |LastLeaf(n)|) % BRANCHING == 0
    decreases h
  {
    if h > 0 {
      var last := n.kids[|n.kids| - 1];
      RadixIsWf(last, h - 1, Indexable);
      LastLeafIsLast(last, h - 1);
      RadixInit(last, h - 1);
      RadixSize(n, h);
      CapMultiple(h);
      MulMod(|n.kids| - 1, Cap(h));
      ModOfSum((|n.kids| - 1) * Cap(h), |Elements(last)| - |LastLeaf(last)|);
    }
  }

  /** Without its last leaf such a tree is sound. */
  lemma {:induction false} DropLeafSound<T>(n: Node<T>, h: nat, left: bool)
    requires Sliced(n, h, left) && Wf(n, h, Indexable)
    ensures var r := DropLeaf(n, h, |LastLeaf(n)|);
            r.Some? ==> Sound(r.value, h, left, true)
    decreases h
  {
    hide ElementsOf, Radix, TableOk, Cum, Sound, SoundAll;
    if h > 0 {
      DropLeafOk(n, h, Indexable);
      KidsOf(n, h, Indexable);
      var len := |n.kids|;
      var last := n.kids[len - 1];
      if n.table.None? {
        LastLeafIsLast(n, h);
        RadixInit(n, h);
        DropLeafRadix(n, h, left);
      } else {
        DropLeafSound(last, h - 1, left && len == 1);
        DropLeafOk(last, h - 1, Indexable);
        LastLeafIsLast(last, h - 1);
        hide Sliced;
        DropLeafTabled(n, h, left, DropLeaf(last, h - 1, |LastLeaf(n)|));
      }
    }
  }

  lemma DropLeafTabled<T>(n: Node<T>, h: nat, left: bool, below: Option<Node<T>>)
    requires h > 0 && Sliced(n, h, left) && Wf(n, h, Indexable) && n.table.Some?
    requires Wf(n.kids[|n.kids| - 1], h - 1, Indexable)
    requires below == DropLeaf(n.kids[|n.kids| - 1], h - 1, |LastLeaf(n)|)
    requires below.Some? ==> Sound(below.value, h - 1, left && |n.kids| == 1, true)
    requires |OptElements(below)| + |LastLeaf(n)| == |Elements(n.kids[|n.kids| - 1])|
    ensures var r := DropLeaf(n, h, |LastLeaf(n)|);
            r.Some? ==> Sound(r.value, h, left, true)
  {
    hide ElementsOf, Radix, Cum, Wf, LastLeaf;
    var len := |n.kids|;
    var t := n.table.value;
    if below.Some? {
      ShrinkTableOk(n.kids, t, below.value, Exact, |LastLeaf(n)|);
      SoundOne(below.value, h - 1, left && len == 1, true);
      SoundConcat(n.kids[..len - 1], [below.value], h - 1, left, true);
      SoundTabled(Inner(n.kids[..len - 1] + [below.value], ShrinkTable(n.table, len, |LastLeaf(n)|)), h, left);
    } else if len > 1 {
      TableInit(n.kids, t);
      SoundAllAnywhere(n.kids[..len - 1], h - 1, left, false, left, true);
      SoundTabled(Inner(n.kids[..len - 1], n.table), h, left);
    }
  }

  lemma SoundTabled<T>(n: Node<T>, h: nat, left: bool)
    requires h > 0 && n.Inner? && n.table.Some? && 1 <= |n.kids| <= BRANCHING
    requires TableOk(n.table.value, n.kids, Exact) && SoundAll(n.kids, h - 1, left, true)
    ensures Sound(n, h, left, true)
  {}

  lemma DropLeafRadix<T>(n: Node<T>, h: nat, left: bool)
    requires h > 0 && Wf(n, h, Indexable) && n.table.None?
    requires var r := DropLeaf(n, h, |LastLeaf(n)|);
             && |OptElements(r)| + |LastLeaf(n)| == |Elements(n)|
             && (r.Some? ==> Wf(r.value, h, Indexable) && r.value.Inner? && r.value.table.None?)
    requires |LastLeaf(n)| <= |Elements(n)| && (|Elements(n)| - |LastLeaf(n)|) % BRANCHING == 0
    ensures var r := DropLeaf(n, h, |LastLeaf(n)|);
            r.Some? ==> Sound(r.value, h, left, true)
  {
    hide DropLeaf, LastLeaf;
  }

  lemma TableInit<T>(kids: seq<Node<T>>, t: seq<nat>)
    requires TableOk(t, kids, Exact) && |kids| > 1
    ensures TableOk(t, kids[..|kids| - 1], Exact)
  {
    var init := kids[..|kids| - 1];
    forall i | 0 <= i <= |init| ensures Cum(init, i) == Cum(kids, i) { assert init[..i] == kids[..i]; }
  }

  /** A root that keeps only its first child holds that child's elements. */
  lemma LoweredRoot<T>(root: Node<T>, h: nat)
    requires Wf(root, h, Indexable) && h > 0 && |root.kids| == 2
    requires Wf(root.kids[1], h - 1, Indexable) && DropLeaf(root.kids[1], h - 1, |LastLeaf(root)|).None?
    ensures OptElements(DropLeaf(root, h, |LastLeaf(root)|)) == Elements(root.kids[0])
  {
    hide LastLeaf, ElementsOf, TableOk, Radix;
    assert root.kids[..1] == [root.kids[0]];
    ElementsOfOne(root.kids[0]);
  }

  /** The root case: what is left of the tree, followed by the leaf taken off. */
  lemma PromotedOk<T>(root: Node<T>, h: nat, tier: Tier)
    requires Wf(root, h, tier) && Wf(root, h, Indexable)
    ensures var (r, h') := Promoted(root, h);
            && OptElements(r) + LastLeaf(root) == Elements(root)
            && (r.Some? ==> Wf(r.value, h', tier))
  {
    hide Elements, LastLeaf, DropLeaf, Wf;
    DropLeafOk(root, h, tier);
    if h > 0 {
      KidsOf(root, h, tier);
      KidsOf(root, h, Indexable);
      if |root.kids| == 2 && DropLeaf(root.kids[1], h - 1, |LastLeaf(root)|).None? { LoweredRoot(root, h); }
    }
  }

  lemma PromotedSound<T>(root: Node<T>, h: nat, left: bool)
    requires Sliced(root, h, left) && Wf(root, h, Indexable)
    ensures var (r, h') := Promoted(root, h);
            r.Some? ==> Sound(r.value, h', left, true)
  {
    hide LastLeaf, ElementsOf, TableOk;
    DropLeafSound(root, h, left);
    if h > 0 {
      KidsOf(root, h, Indexable);
      if |root.kids| == 2 && DropLeaf(root.kids[1], h - 1, |LastLeaf(root)|).None? {
        if root.table.None? {
          FullIsSound(root.kids[0], h - 1, left, true);
        } else {
          assert root.kids[..1][0] == root.kids[0];
          SoundAnywhere(root.kids[0], h - 1, left, false, left, true);
        }
      }
    }
  }

  /** promote_rightmost_leaf: the rightmost leaf becomes the tail; its ancestors
      are rebuilt bottom-up along the recorded path. */
  method PromoteRightmostLeaf<T>(root: Node<T>, height: nat)
    returns (newRoot: Option<Node<T>>, newHeight: nat, tail: seq<T>)
    requires Wf(root, height, Indexable)
    ensures (newRoot, newHeight) == Promoted(root, height)
    ensures tail == LastLeaf(root)
  {
    hide ElementsOf, TableOk, Radix;
    var path := new Option<Node<T>>[height + 1](_ => None);
    ghost var spine := RecordPath(root, height, path);
    SpineLastLeaf(spine, height, 0);
    tail := path[height].value.elems;
    newHeight := height;
    path[height] := None;
    var i: nat := height;
    while i > 0
      invariant 0 <= i <= height
      invariant forall k :: 0 <= k < i ==> path[k] == Some(spine[k])
      invariant i > 0 ==> path[i] == DropLeaf(spine[i], height - i, |tail|) && newHeight == height
      invariant i == 0 ==> (path[0], newHeight) == Promoted(root, height)
    {
      i := i - 1;
      path[i], newHeight := RebuildNode(path[i].value, height - i, path[i + 1], i == 0, |tail|, newHeight);
    }
    newRoot := path[0];
  }

  /** The first loop of promote_rightmost_leaf: the nodes of the right edge. */
  method RecordPath<T>(root: Node<T>, height: nat, path: array<Option<Node<T>>>) returns (ghost spine: seq<Node<T>>)
    requires Wf(root, height, Indexable) && path.Length == height + 1
    modifies path
    ensures |spine| == height + 1 && spine[0] == root && OnSpine(spine, height)
    ensures forall k :: 0 <= k <= height ==> path[k] == Some(spine[k])
  {
    hide ElementsOf, TableOk, Radix;
    path[0] := Some(root);
    spine := [root];
    var i: nat := 0;
    while i < height
      invariant i <= height && |spine| == i + 1 && spine[0] == root
      invariant OnSpine(spine, height)
      invariant forall k :: 0 <= k <= i ==> path[k] == Some(spine[k])
    {
      KidsWf(spine[i], height - i, Indexable);
      var kids := path[i].value.kids;
      path[i + 1] := Some(kids[|kids| - 1]);
      spine := spine + [kids[|kids| - 1]];
      i := i + 1;
    }
  }

  /** One step of the second loop: a node of the path without its last leaf,
      given what is left of its last child. */
  method RebuildNode<T>(node: Node<T>, h: nat, below: Option<Node<T>>, isRoot: bool, tailLen: nat, height: nat)
    returns (r: Option<Node<T>>, newHeight: nat)
    requires h > 0 && Wf(node, h, Indexable) && Wf(node.kids[|node.kids| - 1], h - 1, Indexable)
    requires below == DropLeaf(node.kids[|node.kids| - 1], h - 1, tailLen)
    requires isRoot ==> h == height && tailLen == |LastLeaf(node)|
    ensures !isRoot ==> r == DropLeaf(node, h, tailLen) && newHeight == height
    ensures isRoot ==> (r, newHeight) == Promoted(node, h)
  {
    newHeight := height;
    var len := |node.kids|;
    if below.None? {
      if len == 1 {
        r := None;
      } else if isRoot && len == 2 {
        r := Some(node.kids[0]);
        newHeight := newHeight - 1;
      } else {
        r := Some(Inner(node.kids[..len - 1], node.table));
      }
    } else {
      r := Some(Inner(node.kids[..len - 1] + [below.value], ShrinkTable(node.table, len, tailLen)));
    }
  }

  /** A path down the right edge. */
  ghost predicate OnSpine<T>(spine: seq<Node<T>>, height: nat) {
    && |spine| <= height + 1
    && (forall k :: 0 <= k < |spine| ==> Wf(spine[k], height - k, Indexable))
    && (forall k :: 0 <= k < |spine| - 1 ==> spine[k + 1] == spine[k].kids[|spine[k].kids| - 1])
  }

  lemma {:induction false} SpineLastLeaf<T>(spine: seq<Node<T>>, height: nat, k: nat)
    requires |spine| == height + 1 && OnSpine(spine, height) && k <= height
    ensures spine[height].Leaf? && LastLeaf(spine[k]) == spine[height].elems
    decreases height - k
  {
    assert Wf(spine[height], height - height, Indexable);
    if k < height { SpineLastLeaf(spine, height, k + 1); }
  }

  // ---------- cutting at the right ----------

  /** The slot of the element at a local index. */
  function SlotIn<T>(n: Node<T>, h: nat, index: nat): nat
    requires n.Inner?
  {
    match n.table
    case None => Shr(index, h)
    case Some(t) => Scan(t, Shr(index, h), index)
  }

  lemma SlotInOk<T>(n: Node<T>, h: nat, index: nat)
    requires h > 0 && Wf(n, h, Indexable) && index < |Elements(n)|
    ensures var slot := SlotIn(n, h, index);
            && slot < |n.kids| && Wf(n.kids[slot], h - 1, Indexable)
            && Cum(n.kids, slot) <= index < Cum(n.kids, slot + 1) == Cum(n.kids, slot) + |Elements(n.kids[slot])|
            && (n.table.None? ==> Cum(n.kids, slot) == slot * Cap(h))
            && (n.table.Some? && slot > 0 ==> Cum(n.kids, slot) == n.table.value[slot - 1])
            && (slot == 0 ==> Cum(n.kids, slot) == 0)
  {
    KidsWf(n, h, Indexable);
    if n.table.None? { RadixSlot(n, h, index); } else { TabledStep(n, h, index); }
    ElementsOfAt(n.kids, SlotIn(n, h, index));
    assert n.kids[..0] == [];
  }

  lemma RadixSlot<T>(n: Node<T>, h: nat, index: nat)
    requires h > 0 && Radix(n, h) && Wf(n, h, Indexable) && index < |Elements(n)|
    ensures var slot := Shr(index, h);
            && slot < |n.kids| && Cum(n.kids, slot) == slot * Cap(h)
            && slot * Cap(h) <= index < Cum(n.kids, slot + 1)
  {
    KidsWf(n, h, Indexable);
    SizeBounds(n, h, Indexable);
    SmallShift(index, h + 1);
    SmallDigit(index, h);
    RadixStep(n, h, index, index);
    CumFull(n.kids, Shr(index, h), Cap(h));
  }

  /** The slot and the index below it, both relative to the node: the mask is not
      needed when every index passed down is relative. */
  method FindSlot<T>(n: Node<T>, h: nat, index: nat) returns (slot: nat, index': nat)
    requires h > 0 && Wf(n, h, Indexable) && index < |Elements(n)|
    ensures slot == SlotIn(n, h, index) < |n.kids| && index' == index - Cum(n.kids, slot)
  {
    SlotInOk(n, h, index);
    slot := Shr(index, h);
    index' := index;
    if n.table.None? {
      index' := index' - slot * Cap(h);
    } else {
      var t := n.table.value;
      while slot < |t| && t[slot] <= index
        invariant Scan(t, slot, index) == Scan(t, Shr(index, h), index)
        decreases |t| - slot
      {
        slot := slot + 1;
      }
      if slot != 0 {
        index' := index' - t[slot - 1];
      }
    }
  }

  /** The cut child goes last; a table keeps its entries before it. */
  function CutRightNode<T>(n: Node<T>, right: nat, slot: nat, below: Node<T>): Node<T>
    requires n.Inner? && slot < |n.kids|
  {
    Inner(n.kids[..slot] + [below],
          match n.table
          case None => None
          case Some(t) => if slot <= |t| then Some(t[..slot] + [right + 1]) else Some([]))
  }

  /** The tree up to and including the element at `right`, and its height. */
  function CutRight<T>(n: Node<T>, h: nat, right: nat, hasLeft: bool): (Node<T>, nat)
    requires Wf(n, h, Indexable) && right < |Elements(n)|
    decreases h
  {
    if h == 0 then (Leaf(n.elems[..right + 1]), 0)
    else
      SlotInOk(n, h, right);
      var slot := SlotIn(n, h, right);
      var (below, shift) := CutRight(n.kids[slot], h - 1, right - Cum(n.kids, slot), slot != 0 || hasLeft);
      if slot == 0 && !hasLeft then (below, shift) else (CutRightNode(n, right, slot, below), h)
  }

  /** One level of the cut. */
  lemma CutRightLevel<T>(n: Node<T>, h: nat, right: nat, hasLeft: bool)
    requires h > 0 && Wf(n, h, Indexable) && right < |Elements(n)|
    ensures var slot := SlotIn(n, h, right);
            && slot < |n.kids| && Wf(n.kids[slot], h - 1, Indexable)
            && 0 <= right - Cum(n.kids, slot) < |Elements(n.kids[slot])|
            && (slot == 0 ==> Cum(n.kids, slot) == 0)
    ensures var slot := SlotIn(n, h, right);
            var (below, shift) := CutRight(n.kids[slot], h - 1, right - Cum(n.kids, slot), slot != 0 || hasLeft);
            CutRight(n, h, right, hasLeft) ==
              if slot == 0 && !hasLeft then (below, shift) else (CutRightNode(n, right, slot, below), h)
  {
    hide ElementsOf, TableOk, Radix;
    SlotInOk(n, h, right);
  }

  lemma {:induction false} CutRightOk<T>(n: Node<T>, h: nat, right: nat, hasLeft: bool)
    requires Wf(n, h, Indexable) && right < |Elements(n)|
    ensures var (r, shift) := CutRight(n, h, right, hasLeft);
            && shift <= h && (hasLeft ==> shift == h)
            && Wf(r, shift, Indexable) && Elements(r) == Elements(n)[..right + 1]
            && (Radix(n, h) ==> Radix(r, shift))
    decreases h
  {
    hide ElementsOf, TableOk, Cum;
    if h > 0 {
      CutRightLevel(n, h, right, hasLeft);
      hide CutRight, SlotIn;
      var slot := SlotIn(n, h, right);
      var idx := right - Cum(n.kids, slot);
      ElementsOfAt(n.kids, slot);
      CutRightOk(n.kids[slot], h - 1, idx, slot != 0 || hasLeft);
      var (below, shift) := CutRight(n.kids[slot], h - 1, idx, slot != 0 || hasLeft);
      PrefixContents(n.kids, slot, idx, below);
      if slot != 0 || hasLeft { CutRightWf(n, h, right, slot, below, Indexable); }
    }
  }

  lemma PrefixContents<T>(kids: seq<Node<T>>, slot: nat, idx: nat, below: Node<T>)
    requires slot < |kids| && idx < |Elements(kids[slot])| && Cum(kids, slot) + idx < |ElementsOf(kids)|
    requires Elements(below) == Elements(kids[slot])[..idx + 1]
    ensures ElementsOf(kids[..slot] + [below]) == ElementsOf(kids)[..Cum(kids, slot) + idx + 1]
    ensures slot == 0 ==> kids[..0] == [] && Cum(kids, 0) == 0 && Elements(below) == ElementsOf(kids)[..idx + 1]
  {
    ElementsOfAt(kids, slot);
    ElementsOfSnoc(kids[..slot], below);
    if slot == 0 { ElementsOfOne(below); assert kids[..0] + [below] == [below]; }
  }

  lemma CutRightWf<T>(n: Node<T>, h: nat, right: nat, slot: nat, below: Node<T>, tier: Tier)
    requires h > 0 && Wf(n, h, tier) && slot < |n.kids|
    requires Wf(below, h - 1, tier) && (n.table.None? ==> Radix(below, h - 1))
    requires Cum(n.kids, slot) + |Elements(below)| == right + 1
    ensures Wf(CutRightNode(n, right, slot, below), h, tier)
    ensures n.table.None? ==> Radix(CutRightNode(n, right, slot, below), h)
  {
    var kids := n.kids[..slot] + [below];
    if n.table.Some? {
      CutRightTable(n.kids, n.table.value, right, slot, below, tier);
      assert WfAll(kids, h - 1, tier);
    }
  }

  lemma CutRightTable<T>(kids: seq<Node<T>>, t: seq<nat>, right: nat, slot: nat, below: Node<T>, tier: Tier)
    requires TableOk(t, kids, tier) && slot < |kids| && Cum(kids, slot) + |Elements(below)| == right + 1
    ensures TableOk(t[..slot] + [right + 1], kids[..slot] + [below], Exact)
    ensures TableOk(t[..slot] + [right + 1], kids[..slot] + [below], tier)
  {
    var kids' := kids[..slot] + [below];
    forall i | 0 <= i <= slot ensures Cum(kids', i) == Cum(kids, i) { assert kids'[..i] == kids[..i]; }
    ElementsOfAt(kids', slot);
  }

  /** A cut at the right leaves a sound tree, but for its last leaf. */
  lemma {:induction false} CutRightSliced<T>(n: Node<T>, h: nat, right: nat, hasLeft: bool, left: bool, edge: bool)
    requires Sound(n, h, left, edge) && Wf(n, h, Indexable) && right < |Elements(n)|
    ensures var (r, shift) := CutRight(n, h, right, hasLeft);
            Sliced(r, shift, left)
    decreases h
  {
    hide ElementsOf, TableOk, Radix, Cum, Sound, Sliced;
    if h > 0 {
      CutRightLevel(n, h, right, hasLeft);
      hide CutRight, SlotIn;
      SoundKids(n, h, left, edge);
      var slot := SlotIn(n, h, right);
      var idx := right - Cum(n.kids, slot);
      var (below, shift) := CutRight(n.kids[slot], h - 1, idx, slot != 0 || hasLeft);
      CutRightSliced(n.kids[slot], h - 1, idx, slot != 0 || hasLeft, left && slot == 0, edge && slot == |n.kids| - 1);
      CutRightOk(n.kids[slot], h - 1, idx, slot != 0 || hasLeft);
      if slot != 0 || hasLeft {
        SlicedNode(n, h, right, slot, below, left, edge);
      }
    } else {
      SlicedLeaf(n, right, hasLeft, left, edge);
    }
  }

  lemma SlicedLeaf<T>(n: Node<T>, right: nat, hasLeft: bool, left: bool, edge: bool)
    requires Sound(n, 0, left, edge) && Wf(n, 0, Indexable) && right < |Elements(n)|
    ensures Sliced(CutRight(n, 0, right, hasLeft).0, 0, left)
  {}

  lemma SlicedNode<T>(n: Node<T>, h: nat, right: nat, slot: nat, below: Node<T>, left: bool, edge: bool)
    requires h > 0 && Sound(n, h, left, edge) && slot < |n.kids| <= BRANCHING && SoundAll(n.kids, h - 1, left, edge)
    requires Sliced(below, h - 1, left && slot == 0) && (Radix(n.kids[slot], h - 1) ==> Radix(below, h - 1))
    requires Cum(n.kids, slot) + |Elements(below)| == right + 1
    ensures Sliced(CutRightNode(n, right, slot, below), h, left)
  {
    hide ElementsOf;
    if n.table.Some? {
      CutRightTable(n.kids, n.table.value, right, slot, below, Exact);
      assert n.kids == n.kids[..slot] + n.kids[slot..];
      SoundParts(n.kids[..slot], n.kids[slot..], h - 1, left, edge);
      var kids := n.kids[..slot] + [below];
      assert kids[..|kids| - 1] == n.kids[..slot] && kids[|kids| - 1] == below;
    }
  }

  lemma LeafShift<T>(n: Node<T>, index: nat)
    requires Wf(n, 0, Indexable) && index < |Elements(n)|
    ensures Shr(index, 0) == index
  {
    SmallShift(index, 0 + 1);
  }

  lemma WfTable<T>(n: Node<T>, h: nat)
    requires h > 0 && Wf(n, h, Indexable)
    ensures n.Inner? && (n.table.Some? ==> |n.kids| <= |n.table.value|)
  {}

  /** slice_right_rec.  `hasLeft` says that nodes remain to the left on some level
      above, so that the height must not shrink. */
  method SliceRightRec<T>(n: Node<T>, h: nat, right: nat, hasLeft: bool) returns (r: Node<T>, totalShift: nat)
    requires Wf(n, h, Indexable) && right < |Elements(n)|
    ensures (r, totalShift) == CutRight(n, h, right, hasLeft)
    decreases h
  {
    hide ElementsOf, TableOk, Radix, Cum;
    if h == 0 {
      LeafShift(n, right);
      r, totalShift := Leaf(n.elems[..Shr(right, 0) + 1]), 0;
      return;
    }
    CutRightLevel(n, h, right, hasLeft);
    hide CutRight, SlotIn;
    WfTable(n, h);
    var slot, idx := FindSlot(n, h, right);
    r, totalShift := SliceRightRec(n.kids[slot], h - 1, idx, slot != 0 || hasLeft);
    if slot != 0 || hasLeft {
      // The cut child goes last; a table keeps its entries before it.
      var table := match n.table case None => None case Some(t) => Some(t[..slot] + [right + 1]);
      r := Inner(n.kids[..slot] + [r], table);
      totalShift := h;
    }
  }

  /** What slice_right makes of a list. */
  function CutListRight<T>(v: Rrb<T>, right: nat): Rrb<T>
    requires Valid(v, Indexable)
  {
    var tailOffset := v.cnt - v.tailLen;
    if right == 0 then Empty()
    else if right >= v.cnt then v
    else if tailOffset < right then
      v.(cnt := right, tail := v.tail[..right - tailOffset], tailLen := right - tailOffset)
    else
      CutRightOk(v.root.value, v.height, right - 1, false);
      var (root, height) := CutRight(v.root.value, v.height, right - 1, false);
      var (newRoot, newHeight) := Promoted(root, height);
      Rrb(right, newHeight, newRoot, LastLeaf(root), |LastLeaf(root)|)
  }

  /** A list with a root, but too short to be strong. */
  predicate RootedShort<T>(v: Rrb<T>) {
    v.root.Some? && (v.cnt <= BRANCHING || (v.height == 0 && v.root.value.Leaf? && |v.root.value.elems| != BRANCHING))
  }

  /** The case of a cut inside the tree. */
  lemma CutTreeRightOk<T>(v: Rrb<T>, right: nat, tier: Tier)
    requires Valid(v, tier) && Valid(v, Indexable) && 0 < right <= v.cnt - v.tailLen
    ensures var r := CutListRight(v, right);
            && r.cnt == right && r.tailLen == |r.tail| && 1 <= r.tailLen <= BRANCHING
            && Contents(r) == Contents(v)[..right]
            && (r.root.Some? ==> Wf(r.root.value, r.height, Indexable))
            && (r.root.Some? && tier != Indexable ==> Sound(r.root.value, r.height, tier == Exact, true))
  {
    hide CutRight, Promoted, Wf, Sound, Elements, LastLeaf;
    HeaderOf(v);
    CutRightOk(v.root.value, v.height, right - 1, false);
    var (root, height) := CutRight(v.root.value, v.height, right - 1, false);
    if tier != Indexable {
      CutRightSliced(v.root.value, v.height, right - 1, false, tier == Exact, true);
      PromotedSound(root, height, tier == Exact);
    }
    LastLeafIsLast(root, height);
    PromotedOk(root, height, Indexable);
    assert Elements(root) == Contents(v)[..right];
  }

  lemma CutListRightOk<T>(v: Rrb<T>, right: nat, tier: Tier)
    requires Valid(v, tier) && Valid(v, Indexable)
    ensures var r := CutListRight(v, right);
            && (if tier == Strong then Valid(r, Exact) && (Valid(r, Strong) <==> !RootedShort(r)) else Valid(r, tier))
            && Contents(r) == if right < v.cnt then Contents(v)[..right] else Contents(v)
  {
    var r := CutListRight(v, right);
    var tailOffset := v.cnt - v.tailLen;
    if 0 < right <= tailOffset {
      CutTreeRightOk(v, right, tier);
    } else if tailOffset < right < v.cnt {
      assert Contents(r) == Contents(v)[..right];
    }
    if tier == Strong { StrongUnlessShort(r); }
  }

  lemma StrongUnlessShort<T>(r: Rrb<T>)
    requires r.tailLen == |r.tail| <= BRANCHING && r.cnt == |Contents(r)| && (r.cnt > 0 ==> r.tailLen > 0)
    requires r.root.Some? ==> Sound(r.root.value, r.height, false, true)
    ensures Valid(r, Exact) && (Valid(r, Strong) <==> !RootedShort(r))
  {
    if r.root.Some? { TreeOkWeaken(r.root.value, r.height, Strong, Exact); }
  }

  lemma HeaderOf<T>(v: Rrb<T>)
    requires Valid(v, Indexable)
    ensures v.tailLen == |v.tail| <= v.cnt && v.cnt == |TreeElements(v)| + v.tailLen
    ensures v.cnt > v.tailLen ==> v.root.Some?
    ensures v.root.Some? ==> Wf(v.root.value, v.height, Indexable)
  {}

  /** slice_right: the first `right` elements. */
  method SliceRight<T>(v: Rrb<T>, right: nat) returns (r: Rrb<T>)
    requires Valid(v, Indexable)
    ensures r == CutListRight(v, right)
    ensures Contents(r) == if right < v.cnt then Contents(v)[..right] else Contents(v)
    ensures forall tier :: tier != Strong && Valid(v, tier) ==> Valid(r, tier)
    ensures Valid(v, Strong) ==> (Valid(r, Strong) <==> !RootedShort(r))
  {
    hide Wf, Sound, Valid, ElementsOf;
    CutListRightOk(v, right, Indexable);
    if Valid(v, Exact) { CutListRightOk(v, right, Exact); }
    if Valid(v, Strong) { CutListRightOk(v, right, Strong); }
    HeaderOf(v);
    if right == 0 {
      return Empty();
    } else if right >= v.cnt {
      return v;
    }
    var tailOffset := v.cnt - v.tailLen;
    if tailOffset < right {
      // Only the tail is cut.
      var newTailLen := right - tailOffset;
      return v.(cnt := right, tail := v.tail[..newTailLen], tailLen := newTailLen);
    }
    HeaderOf(v);
    CutRightOk(v.root.value, v.height, right - 1, false);
    var root, height := SliceRightRec(v.root.value, v.height, right - 1, false);
    var newRoot, newHeight, tail := PromoteRightmostLeaf(root, height);
    r := Rrb(right, newHeight, newRoot, tail, |tail|);
  }

  // ---------- cutting at the left ----------

  /** A one-child parent, tabled when the child is. */
  function OneAbove<T>(child: Node<T>): Node<T> {
    if child.Inner? && child.table.Some? && 1 <= |child.kids| <= |child.table.value|
    then Inner([child], Some([child.table.value[|child.kids| - 1]]))
    else Inner([child], None)
  }

  /** The i-th entry that a cut at the left starts from: for a radix node computed
      as if its last child were full. */
  function Entry<T>(n: Node<T>, h: nat, i: nat): nat
    requires h > 0 && Wf(n, h, Indexable) && i < |n.kids|
  {
    if n.table.None? then (i + 1) * Cap(h) else n.table.value[i]
  }

  /** The size table of a node cut at the left: the entries less what was cut off. */
  function LeftEntries<T>(n: Node<T>, h: nat, left: nat, slot: nat): (t: seq<nat>)
    requires h > 0 && Wf(n, h, Indexable) && slot < |n.kids|
    ensures |t| == |n.kids| - slot
  {
    seq(|n.kids| - slot, i requires 0 <= i < |n.kids| - slot =>
          var e := Entry(n, h, slot + i); if left <= e then e - left else 0)
  }

  /** The tree from the element at `left` on, and its height. */
  function CutLeft<T>(n: Node<T>, h: nat, left: nat, hasRight: bool): (Node<T>, nat)
    requires Wf(n, h, Indexable) && left < |Elements(n)|
    decreases h
  {
    if h == 0 then (Leaf(n.elems[left..]), 0)
    else
      SlotInOk(n, h, left);
      var slot, last := SlotIn(n, h, left), |n.kids| - 1;
      var (below, shift) := CutLeft(n.kids[slot], h - 1, left - Cum(n.kids, slot), slot != last || hasRight);
      if slot == last then if hasRight then (OneAbove(below), h) else (below, shift)
      else (Inner([below] + n.kids[slot + 1..], Some(LeftEntries(n, h, left, slot))), h)
  }

  /** One level of the cut. */
  lemma CutLeftLevel<T>(n: Node<T>, h: nat, left: nat, hasRight: bool)
    requires h > 0 && Wf(n, h, Indexable) && left < |Elements(n)|
    ensures var slot := SlotIn(n, h, left);
            && slot < |n.kids| && Wf(n.kids[slot], h - 1, Indexable)
            && 0 <= left - Cum(n.kids, slot) < |Elements(n.kids[slot])|
            && left < Cum(n.kids, slot + 1)
    ensures var slot, last := SlotIn(n, h, left), |n.kids| - 1;
            var (below, shift) := CutLeft(n.kids[slot], h - 1, left - Cum(n.kids, slot), slot != last || hasRight);
            CutLeft(n, h, left, hasRight) ==
              if slot == last then if hasRight then (OneAbove(below), h) else (below, shift)
              else (Inner([below] + n.kids[slot + 1..], Some(LeftEntries(n, h, left, slot))), h)
  {
    hide ElementsOf, TableOk, Radix, LeftEntries;
    SlotInOk(n, h, left);
  }

  lemma EntryIsCum<T>(n: Node<T>, h: nat, i: nat)
    requires h > 0 && Wf(n, h, Indexable) && i < |n.kids|
    ensures Entry(n, h, i) >= Cum(n.kids, i + 1)
    ensures i < |n.kids| - 1 ==> Entry(n, h, i) == Cum(n.kids, i + 1)
  {
    if n.table.None? { RadixCum(n, h, i + 1); }
  }

  lemma RadixCum<T>(n: Node<T>, h: nat, i: nat)
    requires h > 0 && Radix(n, h) && Wf(n, h, Indexable) && i <= |n.kids|
    ensures Cum(n.kids, i) <= i * Cap(h)
    ensures i < |n.kids| ==> Cum(n.kids, i) == i * Cap(h)
  {
    KidsWf(n, h, Indexable);
    forall k | 0 <= k < |n.kids| ensures |Elements(n.kids[k])| <= Cap(h) { SizeBounds(n.kids[k], h - 1, Indexable); }
    CumAtMost(n.kids, i, Cap(h));
    if i < |n.kids| { CumFull(n.kids, i, Cap(h)); }
  }

  /** All entries but the last are exact; the last is at least the size. */
  lemma LeftEntriesAre<T>(n: Node<T>, h: nat, left: nat, slot: nat)
    requires h > 0 && Wf(n, h, Indexable) && slot < |n.kids| && left < Cum(n.kids, slot + 1)
    ensures var t := LeftEntries(n, h, left, slot);
            && (forall i :: 0 <= i < |t| - 1 ==> t[i] == Cum(n.kids, slot + 1 + i) - left)
            && t[|t| - 1] == Entry(n, h, |n.kids| - 1) - left >= Cum(n.kids, |n.kids|) - left
  {
    hide Entry, ElementsOf, Cum;
    var t := LeftEntries(n, h, left, slot);
    forall i | 0 <= i < |t| ensures t[i] == Entry(n, h, slot + i) - left {
      CumMonotone(n.kids, slot + 1, slot + 1 + i);
      EntryIsCum(n, h, slot + i);
    }
    forall i | 0 <= i < |t| - 1 ensures t[i] == Cum(n.kids, slot + 1 + i) - left {
      EntryIsCum(n, h, slot + i);
    }
    EntryIsCum(n, h, |n.kids| - 1);
  }

  /** Off the right edge of a sound tree, the last entry is exact too. */
  lemma LastEntryExact<T>(n: Node<T>, h: nat)
    requires h > 0 && Sound(n, h, true, false) && Wf(n, h, Indexable) && |n.kids| > 1
    ensures Entry(n, h, |n.kids| - 1) == Cum(n.kids, |n.kids|)
  {
    assert n.kids[..|n.kids|] == n.kids;
    if n.table.None? { FullNodeFullKids(n, h); }
  }

  lemma {:induction false} CutLeftOk<T>(n: Node<T>, h: nat, left: nat, hasRight: bool)
    requires Wf(n, h, Indexable) && left < |Elements(n)|
    ensures var (r, shift) := CutLeft(n, h, left, hasRight);
            && shift <= h && (hasRight ==> shift == h)
            && Wf(r, shift, Indexable) && Elements(r) == Elements(n)[left..]
    decreases h
  {
    hide ElementsOf, TableOk, Radix, Cum, LeftEntries;
    if h > 0 {
      CutLeftLevel(n, h, left, hasRight);
      hide CutLeft, SlotIn, Wf, OneAbove;
      var slot, last := SlotIn(n, h, left), |n.kids| - 1;
      var idx := left - Cum(n.kids, slot);
      ElementsOfAt(n.kids, slot);
      CutLeftOk(n.kids[slot], h - 1, idx, slot != last || hasRight);
      var (below, shift) := CutLeft(n.kids[slot], h - 1, idx, slot != last || hasRight);
      SuffixContents(n.kids, slot, idx, below);
      if slot == last {
        LastSuffix(n.kids, below);
        if hasRight { OneAboveOk(below, h); }
      } else {
        LeftEntriesAre(n, h, left, slot);
        CutLeftWf(n, h, left, slot, below, LeftEntries(n, h, left, slot));
      }
    }
  }

  lemma OneAboveOk<T>(child: Node<T>, h: nat)
    requires h > 0 && Wf(child, h - 1, Indexable)
    ensures Wf(OneAbove(child), h, Indexable) && Elements(OneAbove(child)) == Elements(child)
  {
    ElementsOfOne(child);
    assert [child][..1] == [child];
    if h - 1 != 0 && child.table.Some? {
      assert child.kids[..|child.kids|] == child.kids;
    } else {
      assert Radix(child, h - 1);
    }
  }

  lemma SuffixContents<T>(kids: seq<Node<T>>, slot: nat, idx: nat, below: Node<T>)
    requires slot < |kids| && idx <= |Elements(kids[slot])|
    requires Elements(below) == Elements(kids[slot])[idx..]
    ensures Cum(kids, slot) + idx <= |ElementsOf(kids)|
    ensures ElementsOf([below] + kids[slot + 1..]) == ElementsOf(kids)[Cum(kids, slot) + idx..]
  {
    ElementsOfAt(kids, slot);
    ElementsOfConcat([below], kids[slot + 1..]);
    ElementsOfOne(below);
    DropMiddle(ElementsOf(kids[..slot]), Elements(kids[slot]), ElementsOf(kids[slot + 1..]), idx);
  }

  lemma DropMiddle<T>(a: seq<T>, b: seq<T>, c: seq<T>, i: nat)
    requires i <= |b|
    ensures (a + b + c)[|a| + i..] == b[i..] + c
  {}

  lemma LastSuffix<T>(kids: seq<Node<T>>, below: Node<T>)
    requires |kids| >= 1
    ensures ElementsOf([below] + kids[|kids|..]) == ElementsOf([below]) == Elements(below)
  {
    assert [below] + kids[|kids|..] == [below];
    ElementsOfOne(below);
  }

  lemma CutLeftWf<T>(n: Node<T>, h: nat, left: nat, slot: nat, below: Node<T>, table: seq<nat>)
    requires h > 0 && Wf(n, h, Indexable) && slot < |n.kids| - 1 && Wf(below, h - 1, Indexable)
    requires Cum(n.kids, slot) <= left < Cum(n.kids, slot + 1)
    requires |Elements(below)| == Cum(n.kids, slot + 1) - left
    requires |table| == |n.kids| - slot
    requires forall i :: 0 <= i < |table| - 1 ==> table[i] == Cum(n.kids, slot + 1 + i) - left
    requires table[|table| - 1] >= Cum(n.kids, |n.kids|) - left
    ensures Wf(Inner([below] + n.kids[slot + 1..], Some(table)), h, Indexable)
  {
    KidsWf(n, h, Indexable);
    var kids := [below] + n.kids[slot + 1..];
    CutLeftTable(n.kids, left, slot, below, table);
    assert WfAll(kids, h - 1, Indexable);
  }

  lemma CutLeftTable<T>(all: seq<Node<T>>, left: nat, slot: nat, below: Node<T>, table: seq<nat>)
    requires slot < |all| && Cum(all, slot) <= left < Cum(all, slot + 1)
    requires |Elements(below)| == Cum(all, slot + 1) - left
    requires |table| == |all| - slot
    requires forall i :: 0 <= i < |table| - 1 ==> table[i] == Cum(all, slot + 1 + i) - left
    requires table[|table| - 1] >= Cum(all, |all|) - left
    ensures TableOk(table, [below] + all[slot + 1..], Indexable)
    ensures table[|table| - 1] == Cum(all, |all|) - left ==> TableOk(table, [below] + all[slot + 1..], Exact)
  {
    var kids := [below] + all[slot + 1..];
    forall i | 1 <= i <= |kids| ensures Cum(kids, i) == Cum(all, slot + i) - left {
      CutCum(all, slot, below, left, i);
    }
  }

  lemma {:induction false} CutCum<T>(all: seq<Node<T>>, slot: nat, below: Node<T>, left: nat, i: nat)
    requires slot < |all| && 1 <= i <= |all| - slot
    requires Cum(all, slot) <= left <= Cum(all, slot + 1)
    requires |Elements(below)| == Cum(all, slot + 1) - left
    ensures Cum([below] + all[slot + 1..], i) == Cum(all, slot + i) - left
  {
    hide Elements;
    var kids := [below] + all[slot + 1..];
    ElementsOfAt(kids, i - 1);
    if i == 1 {
      assert kids[..0] == [];
    } else {
      CutCum(all, slot, below, left, i - 1);
      ElementsOfAt(all, slot + i - 1);
    }
  }

  /** A sound tree with a new left edge, whose root's last entry is still to be
      corrected. */
  ghost predicate LeftCut<T>(n: Node<T>, h: nat) {
    if h == 0 then n.Leaf? && 1 <= |n.elems| <= BRANCHING
    else
      && n.Inner? && n.table.Some? && 1 <= |n.kids| <= BRANCHING && SoundAll(n.kids, h - 1, true, true)
      && TableOk(n.table.value, n.kids, Indexable)
  }

  /** A cut at the left keeps a tree sound, but for the last entry at the root. */
  lemma {:induction false} CutLeftSound<T>(n: Node<T>, h: nat, left: nat, hasRight: bool)
    requires Sound(n, h, true, !hasRight) && Wf(n, h, Indexable) && left < |Elements(n)|
    ensures var (r, shift) := CutLeft(n, h, left, hasRight);
            if hasRight then Sound(r, h, true, false) && (r.Inner? && r.table.None? ==> Thin(r)) else LeftCut(r, shift)
    decreases h
  {
    hide ElementsOf, TableOk, Radix, Cum, LeftEntries, Sound, LeftCut;
    if h > 0 {
      CutLeftLevel(n, h, left, hasRight);
      hide CutLeft, SlotIn;
      SoundKids(n, h, true, !hasRight);
      var slot, last := SlotIn(n, h, left), |n.kids| - 1;
      var idx := left - Cum(n.kids, slot);
      var more := slot != last || hasRight;
      SoundAnywhere(n.kids[slot], h - 1, slot == 0, !hasRight && slot == last, true, !more);
      CutLeftSound(n.kids[slot], h - 1, idx, more);
      CutLeftOk(n.kids[slot], h - 1, idx, more);
      var (below, shift) := CutLeft(n.kids[slot], h - 1, idx, more);
      if slot != last {
        ElementsOfAt(n.kids, slot);
        CutLeftNode(n, h, left, slot, below, hasRight);
      } else if hasRight {
        OneAboveSound(below, h);
      }
    } else {
      CutLeftLeaf(n, left, hasRight);
    }
  }

  lemma CutLeftLeaf<T>(n: Node<T>, left: nat, hasRight: bool)
    requires Sound(n, 0, true, !hasRight) && Wf(n, 0, Indexable) && left < |Elements(n)|
    ensures var r := CutLeft(n, 0, left, hasRight).0;
            Sound(r, 0, true, false) && r.Leaf? && LeftCut(r, 0)
  {}

  lemma CutLeftNode<T>(n: Node<T>, h: nat, left: nat, slot: nat, below: Node<T>, hasRight: bool)
    requires h > 0 && Sound(n, h, true, !hasRight) && Wf(n, h, Indexable) && slot < |n.kids| - 1 < BRANCHING
    requires SoundAll(n.kids, h - 1, true, !hasRight) && Sound(below, h - 1, true, false)
    requires Cum(n.kids, slot) <= left < Cum(n.kids, slot + 1)
    requires |Elements(below)| == Cum(n.kids, slot + 1) - left
    ensures var r := Inner([below] + n.kids[slot + 1..], Some(LeftEntries(n, h, left, slot)));
            if hasRight then Sound(r, h, true, false) else LeftCut(r, h)
  {
    hide ElementsOf, Radix, Cum, LeftEntries;
    CutLeftKids(n.kids, h, slot, below, !hasRight);
    LeftEntriesAre(n, h, left, slot);
    if hasRight { LastEntryExact(n, h); }
    CutLeftTable(n.kids, left, slot, below, LeftEntries(n, h, left, slot));
  }

  lemma OneAboveSound<T>(child: Node<T>, h: nat)
    requires h > 0 && Sound(child, h - 1, true, false) && (child.Inner? && child.table.None? ==> Thin(child))
    ensures Sound(OneAbove(child), h, true, false)
    ensures OneAbove(child).table.None? ==> Thin(OneAbove(child))
  {
    ElementsOfOne(child);
    assert [child][..1] == [child];
    if h - 1 != 0 && child.table.Some? {
      assert child.kids[..|child.kids|] == child.kids;
    } else {
      assert Radix(child, h - 1);
    }
  }

  lemma CutLeftKids<T>(kids: seq<Node<T>>, h: nat, slot: nat, below: Node<T>, right: bool)
    requires h > 0 && slot < |kids| - 1 && SoundAll(kids, h - 1, true, right) && Sound(below, h - 1, true, false)
    ensures SoundAll([below] + kids[slot + 1..], h - 1, true, right)
  {
    assert kids == kids[..slot + 1] + kids[slot + 1..];
    SoundParts(kids[..slot + 1], kids[slot + 1..], h - 1, true, right);
    SoundConcat([below], kids[slot + 1..], h - 1, true, right);
  }

  /** slice_left_rec.  `hasRight` says that nodes remain to the right on some level
      above, so that the height must not shrink. */
  method SliceLeftRec<T>(n: Node<T>, h: nat, left: nat, hasRight: bool) returns (r: Node<T>, totalShift: nat)
    requires Wf(n, h, Indexable) && left < |Elements(n)|
    ensures (r, totalShift) == CutLeft(n, h, left, hasRight)
    decreases h
  {
    hide ElementsOf, TableOk, Radix, Cum, LeftEntries;
    if h == 0 {
      LeafShift(n, left);
      r, totalShift := Leaf(n.elems[Shr(left, 0)..]), 0;
      return;
    }
    CutLeftLevel(n, h, left, hasRight);
    hide CutLeft, SlotIn;
    var slot, idx := FindSlot(n, h, left);
    var lastSlot := |n.kids| - 1;
    CutLeftOk(n.kids[slot], h - 1, idx, slot != lastSlot || hasRight);
    var below;
    below, totalShift := SliceLeftRec(n.kids[slot], h - 1, idx, slot != lastSlot || hasRight);
    if slot == lastSlot {
      if hasRight {
        r := OneChild(below, h);
        totalShift := h;
      } else {
        r := below;
      }
    } else {
      var table := LeftTable(n, h, left, slot);
      r := Inner([below] + n.kids[slot + 1..], Some(table));
      totalShift := h;
    }
  }

  /** The parent made for an only child. */
  method OneChild<T>(child: Node<T>, h: nat) returns (n: Node<T>)
    requires h > 0 && Wf(child, h - 1, Indexable)
    ensures n == OneAbove(child)
  {
    n := Inner([child], None);
    if h - 1 != 0 && child.table.Some? {
      n := n.(table := Some([child.table.value[|child.kids| - 1]]));
    }
  }

  /** The two loops that fill the table of a node cut at the left. */
  method LeftTable<T>(n: Node<T>, h: nat, left: nat, slot: nat) returns (table: seq<nat>)
    requires h > 0 && Wf(n, h, Indexable) && slot < |n.kids|
    requires Cum(n.kids, slot) <= left < Cum(n.kids, slot + 1)
    ensures table == LeftEntries(n, h, left, slot)
    ensures forall i :: 0 <= i < |table| - 1 ==> table[i] == Cum(n.kids, slot + 1 + i) - left
    ensures Sound(n, h, true, false) && |n.kids| > 1 ==> table[|table| - 1] == Cum(n.kids, |n.kids|) - left
  {
    hide ElementsOf, Radix, Cum, TableOk, Sound;
    WfTable(n, h);
    var slicedLen := |n.kids| - slot;
    var entries: seq<nat> := [];
    for i := 0 to slicedLen
      invariant |entries| == i && forall k :: 0 <= k < i ==> entries[k] == Entry(n, h, slot + k)
    {
      entries := entries + [match n.table case None => (slot + 1 + i) * Cap(h) case Some(t) => t[slot + i]];
    }
    table := [];
    for i := 0 to slicedLen
      invariant |table| == i && forall k :: 0 <= k < i ==> table[k] == entries[k] - left
    {
      CumMonotone(n.kids, slot + 1, slot + 1 + i);
      EntryIsCum(n, h, slot + i);
      table := table + [entries[i] - left];
    }
    LeftEntriesAre(n, h, left, slot);
    if Sound(n, h, true, false) && |n.kids| > 1 { LastEntryExact(n, h); }
  }

  /** slice_left when elements of the tree remain. */
  function CutListLeftTree<T>(v: Rrb<T>, left: nat): Rrb<T>
    requires Valid(v, Indexable) && left < v.cnt - v.tailLen
  {
    var (root, height) := CutLeft(v.root.value, v.height, left, false);
    Rrb(v.cnt - left, height, Some(RootTable(root, height, v.cnt - left - v.tailLen)), v.tail, v.tailLen)
  }

  /** The root's own table, made exact again. */
  function RootTable<T>(root: Node<T>, height: nat, size: nat): Node<T> {
    if height != 0 && root.Inner? && root.table.Some? && 1 <= |root.kids| <= |root.table.value|
    then Inner(root.kids, Some(root.table.value[|root.kids| - 1 := size])) else root
  }

  lemma CutListLeftTreeOk<T>(v: Rrb<T>, left: nat)
    requires Valid(v, Indexable) && left < v.cnt - v.tailLen
    ensures var r := CutListLeftTree(v, left);
            && Valid(r, Indexable) && Contents(r) == Contents(v)[left..] && (Valid(v, Exact) ==> Valid(r, Exact))
  {
    hide CutLeft, RootTable, Wf, Sound, LeftCut, Elements;
    HeaderOf(v);
    CutLeftOk(v.root.value, v.height, left, false);
    var (root, height) := CutLeft(v.root.value, v.height, left, false);
    var r := CutListLeftTree(v, left);
    if Valid(v, Exact) { CutLeftSound(v.root.value, v.height, left, false); }
    RootTableOk(root, height);
    assert Contents(r) == Contents(v)[left..];
  }

  lemma RootTableOk<T>(root: Node<T>, height: nat)
    requires Wf(root, height, Indexable)
    ensures var r := RootTable(root, height, |Elements(root)|);
            && Wf(r, height, Indexable) && Elements(r) == Elements(root)
            && (LeftCut(root, height) ==> Sound(r, height, true, true))
  {
    hide ElementsOf;
    if height != 0 && root.table.Some? { assert root.kids[..|root.kids|] == root.kids; }
  }

  /** The end of slice_left: a root leaf with fewer than 32 elements is merged
      with the tail, or filled up from it. */
  function Refilled<T>(v: Rrb<T>): Rrb<T>
    requires Valid(v, Indexable)
  {
    if v.root.None? || v.height != 0 then v
    else
      var leaf := v.root.value.elems;
      if v.cnt <= BRANCHING then v.(tailLen := v.cnt, root := None, tail := leaf + v.tail)
      else if v.cnt - v.tailLen < BRANCHING then
        var tailCut := BRANCHING - |leaf|;
        v.(tailLen := v.tailLen - tailCut, tail := v.tail[tailCut..], root := Some(Leaf(leaf + v.tail[..tailCut])))
      else v
  }

  lemma RefilledOk<T>(v: Rrb<T>)
    requires Valid(v, Indexable)
    ensures var r := Refilled(v);
            && Valid(r, Indexable) && Contents(r) == Contents(v) && (Valid(v, Exact) ==> Valid(r, Exact))
            && (r.root.Some? && r.height == 0 ==> |r.root.value.elems| == BRANCHING)
  {
    var r := Refilled(v);
    if v.root.Some? && v.height == 0 {
      var leaf := v.root.value.elems;
      if BRANCHING - |leaf| <= v.tailLen {
        assert v.tail == v.tail[..BRANCHING - |leaf|] + v.tail[BRANCHING - |leaf|..];
      }
      assert Contents(r) == Contents(v);
    }
  }

  /** What slice_left makes of a list. */
  function CutListLeft<T>(v: Rrb<T>, left: nat): Rrb<T>
    requires Valid(v, Indexable)
  {
    var remaining := v.cnt - left;
    if left >= v.cnt then Empty()
    else if left == 0 then Refilled(v)
    else if remaining <= v.tailLen then Rrb(remaining, 0, None, v.tail[v.tailLen - remaining..], remaining)
    else CutListLeftTreeOk(v, left); Refilled(CutListLeftTree(v, left))
  }

  lemma CutListLeftOk<T>(v: Rrb<T>, left: nat)
    requires Valid(v, Indexable)
    ensures var r := CutListLeft(v, left);
            && Valid(r, Indexable) && (Valid(v, Exact) ==> Valid(r, Exact))
            && Contents(r) == (if left < v.cnt then Contents(v)[left..] else [])
            && (r.root.Some? && r.height == 0 ==> |r.root.value.elems| == BRANCHING)
  {
    if left == 0 {
      RefilledOk(v);
    } else if left < v.cnt - v.tailLen {
      CutListLeftTreeOk(v, left);
      RefilledOk(CutListLeftTree(v, left));
    } else if left < v.cnt {
      assert Contents(v)[left..] == v.tail[v.tailLen - (v.cnt - left)..];
    }
  }

  /** slice_left: the elements from `left` on. */
  method SliceLeft<T>(v: Rrb<T>, left: nat) returns (r: Rrb<T>)
    requires Valid(v, Indexable)
    ensures r == CutListLeft(v, left)
    ensures Contents(r) == if left < v.cnt then Contents(v)[left..] else []
    ensures Valid(r, Indexable) && (Valid(v, Exact) ==> Valid(r, Exact))
    ensures r.root.Some? && r.height == 0 ==> |r.root.value.elems| == BRANCHING
  {
    CutListLeftOk(v, left);
    if left >= v.cnt {
      return Empty();
    }
    r := v;
    if left > 0 {
      var remaining := v.cnt - left;
      if remaining <= v.tailLen {
        // The cut is inside the tail.
        return Rrb(remaining, 0, None, v.tail[v.tailLen - remaining..], remaining);
      }
      CutListLeftTreeOk(v, left);
      r := SliceLeftTree(v, left);
    }
    if r.height == 0 && r.root.Some? {
      r := FillRootLeaf(r);
    }
  }

  /** slice_left when elements of the tree remain; the root's own table is made
      exact again. */
  method SliceLeftTree<T>(v: Rrb<T>, left: nat) returns (r: Rrb<T>)
    requires Valid(v, Indexable) && 0 < left < v.cnt - v.tailLen
    ensures r == CutListLeftTree(v, left)
  {
    hide Radix;
    CutLeftOk(v.root.value, v.height, left, false);
    var remaining := v.cnt - left;
    var root, height := SliceLeftRec(v.root.value, v.height, left, false);
    if height != 0 && root.table.Some? {
      root := Inner(root.kids, Some(root.table.value[|root.kids| - 1 := remaining - v.tailLen]));
    }
    r := Rrb(remaining, height, Some(root), v.tail, v.tailLen);
  }

  /** The end of slice_left. */
  method FillRootLeaf<T>(v: Rrb<T>) returns (r: Rrb<T>)
    requires Valid(v, Indexable) && v.root.Some? && v.height == 0
    ensures r == Refilled(v)
    ensures Valid(r, Indexable) && Contents(r) == Contents(v) && (Valid(v, Exact) ==> Valid(r, Exact))
    ensures r.root.Some? ==> r.height == 0 && |r.root.value.elems| == BRANCHING
  {
    RefilledOk(v);
    var leaf := v.root.value.elems;
    r := v;
    if v.cnt <= BRANCHING {
      r := v.(tailLen := v.cnt, root := None, tail := leaf + v.tail);
    } else if v.cnt - v.tailLen < BRANCHING {
      var tailCut := BRANCHING - |leaf|;
      r := v.(tailLen := v.tailLen - tailCut,
              tail := v.tail[tailCut..],
              root := Some(Leaf(leaf + v.tail[..tailCut])));
    }
  }

  /** What rrb_slice makes of a list. */
  function CutList<T>(v: Rrb<T>, from: nat, to: nat): Rrb<T>
    requires Valid(v, Indexable)
  {
    CutListRightOk(v, to, Indexable);
    CutListLeft(CutListRight(v, to), from)
  }

  /** rrb_slice: the elements from `from` up to `to`, cut at the list's end. */
  method SliceList<T>(v: Rrb<T>, from: nat, to: nat) returns (r: Rrb<T>)
    requires Valid(v, Indexable)
    ensures r == CutList(v, from, to)
    ensures Contents(r) == SliceOf(Contents(v), from, to)
    ensures Valid(r, Indexable) && (Valid(v, Exact) ==> Valid(r, Exact))
  {
    var cut := SliceRight(v, to);
    r := SliceLeft(cut, from);
  }

  /** rrb_pop: all but the last element. */
  method Pop<T>(v: Rrb<T>) returns (r: Rrb<T>)
    requires Valid(v, Indexable) && v.cnt >= 1
    ensures Contents(r) == Contents(v)[..v.cnt - 1]
    ensures forall tier :: tier != Strong && Valid(v, tier) ==> Valid(r, tier)
    ensures Valid(v, Strong) ==> (Valid(r, Strong) <==> !RootedShort(r))
  {
    if v.cnt == 1 {
      return Empty();
    }
    r := v.(cnt := v.cnt - 1);
    if v.tailLen == 1 {
      PromotedOk(v.root.value, v.height, Indexable);
      LastLeafIsLast(v.root.value, v.height);
      var root, height, tail := PromoteRightmostLeaf(v.root.value, v.height);
      r := r.(root := root, height := height, tail := tail, tailLen := |tail|);
      assert Contents(v)[..v.cnt - 1] == Elements(v.root.value);
    } else {
      r := r.(tailLen := v.tailLen - 1, tail := v.tail[..v.tailLen - 1]);
      assert Contents(v)[..v.cnt - 1] == Contents(r);
    }
    PopTiers(v, r);
  }

  lemma PopTiers<T>(v: Rrb<T>, r: Rrb<T>)
    requires Valid(v, Indexable) && v.cnt > 1 && Valid(r, Indexable)
    requires if v.tailLen > 1 then r.root == v.root && r.height == v.height
             else (r.root, r.height) == Promoted(v.root.value, v.height)
    ensures forall tier :: tier != Strong && Valid(v, tier) ==> Valid(r, tier)
    ensures Valid(v, Strong) ==> (Valid(r, Strong) <==> !RootedShort(r))
  {
    if Valid(v, Exact) && v.tailLen == 1 {
      SoundIsSliced(v.root.value, v.height, true);
      PromotedSound(v.root.value, v.height, true);
    }
    if Valid(v, Strong) {
      if v.tailLen == 1 {
        SoundIsSliced(v.root.value, v.height, false);
        PromotedSound(v.root.value, v.height, false);
      }
      StrongUnlessShort(r);
    }
  }
}
