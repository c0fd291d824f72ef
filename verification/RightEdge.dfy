/**
 Appending a leaf at the right edge of the tree: the counting pass, the copying
 pass and the chain of fresh nodes of push_down_tail.
 */
module RightEdge {
  import opened Seqs
  import opened Nodes
  import opened Shifts
  import opened Paths
  import opened Edges
  import opened TreeConcat

  // ---------- what the two passes compute ----------

  /** The nodes of the right edge to copy, counted from the top: down to the
      deepest node that can take one more child; 0 when all are full. */
  function DeepestRoom<T>(n: Node<T>, h: nat): nat
    requires Wf(n, h, Indexable)
    decreases h
  {
    if h == 0 then 0
    else
      KidsWf(n, h, Indexable);
      var below := DeepestRoom(n.kids[|n.kids| - 1], h - 1);
      if below > 0 then below + 1 else if |n.kids| < BRANCHING then 1 else 0
  }

  /** A chain of h one-child nodes above a leaf. */
  function Chain<T>(h: nat, leaf: seq<T>): Node<T> {
    if h == 0 then Leaf(leaf) else Inner([Chain(h - 1, leaf)], None)
  }

  /** The tree with `leaf` appended below the k-th node of the right edge. */
  function Insert<T>(n: Node<T>, h: nat, k: nat, leaf: seq<T>): Node<T>
    requires Wf(n, h, Indexable) && 1 <= k <= h
    decreases h
  {
    KidsWf(n, h, Indexable);
    var len := |n.kids|;
    if k == 1 then
      Inner(n.kids + [Chain(h - 1, leaf)],
            match n.table
            case None => None
            case Some(t) => Some(t[..len] + [t[len - 1] + |leaf|]))
    else
      Inner(n.kids[..len - 1] + [Insert(n.kids[len - 1], h - 1, k - 1, leaf)],
            match n.table
            case None => None
            case Some(t) => Some(t[..len - 1] + [t[len - 1] + |leaf|]))
  }

  lemma {:induction false} DeepestRoomBound<T>(n: Node<T>, h: nat)
    requires Wf(n, h, Indexable)
    ensures DeepestRoom(n, h) <= h
    decreases h
  {
    if h > 0 {
      KidsWf(n, h, Indexable);
      DeepestRoomBound(n.kids[|n.kids| - 1], h - 1);
    }
  }

  // ---------- index arithmetic ----------

  /** A radix node has no room at its right edge exactly when an index 31 past
      its last element overflows it. */
  lemma {:induction false} RadixRoom<T>(n: Node<T>, h: nat)
    requires h >= 1 && Radix(n, h) && Wf(n, h, Indexable)
    ensures DeepestRoom(n, h) == 0 <==> |Elements(n)| + 31 >= Cap(h + 1)
    decreases h
  {
    KidsWf(n, h, Indexable);
    RadixSize(n, h);
    var len, c := |n.kids|, Cap(h);
    var last := n.kids[len - 1];
    SizeBounds(last, h - 1, Indexable);
    assert Cap(h + 1) == BRANCHING * c;
    if h == 1 {
      assert c == 32;
    } else {
      RadixRoom(last, h - 1);
      CapAtLeast(h);
      if len < BRANCHING {
        MulLeft(len - 1, 30, c);
      }
    }
  }

  /** The last index of the tail can steer the passes through a radix node: when
      the tail is full, when the leaves below are, and when tail and the only leaf
      together overflow a leaf. */
  ghost predicate Steers<T>(n: Node<T>, tailLen: nat) {
    && 1 <= tailLen <= BRANCHING
    && (tailLen == BRANCHING || |Elements(n)| % BRANCHING == 0
        || (Thin(n) && |Elements(n)| + tailLen > BRANCHING))
  }

  /** In a radix node the index of the last tail element selects the last child
      if there is room below it, and otherwise the slot after it. */
  lemma RadixChild<T>(n: Node<T>, h: nat, tailLen: nat)
    requires h >= 1 && Radix(n, h) && Wf(n, h, Indexable)
    requires Steers(n, tailLen)
    ensures Radix(n.kids[|n.kids| - 1], h - 1) && Wf(n.kids[|n.kids| - 1], h - 1, Indexable)
    ensures var len := |n.kids|;
            var last := n.kids[len - 1];
            var index := |Elements(n)| + tailLen - 1;
            if DeepestRoom(last, h - 1) == 0 then Shr(index, h) == len
            else Shr(index, h) == len - 1 && index % Cap(h) == |Elements(last)| + tailLen - 1
  {
    KidsWf(n, h, Indexable);
    RadixSize(n, h);
    RadixMultiple(n, h);
    var len, c := |n.kids|, Cap(h);
    var last := n.kids[len - 1];
    SizeBounds(last, h - 1, Indexable);
    CapMultiple(h);
    if h > 1 { RadixRoom(last, h - 1); }
    if Thin(n) { ThinSize(n, h); }
    EdgeDivision(len, c, |Elements(last)|, tailLen);
  }

  lemma EdgeDivision(len: nat, c: nat, l: nat, tailLen: nat)
    requires len >= 1 && c >= BRANCHING && c % BRANCHING == 0 && 1 <= l <= c && 1 <= tailLen <= BRANCHING
    requires tailLen == BRANCHING || l % BRANCHING == 0 || (len == 1 && l <= BRANCHING && l + tailLen > BRANCHING)
    ensures var index := (len - 1) * c + l + tailLen - 1;
            if l + 31 >= c then index / c == len
            else index / c == len - 1 && index % c == l + tailLen - 1
  {
    if l + 31 >= c {
      Overflow(l, c, tailLen);
      assert len * c == (len - 1) * c + c;
      DivUnique((len - 1) * c + l + tailLen - 1, c, len, l + tailLen - 1 - c);
    } else {
      DivUnique((len - 1) * c + l + tailLen - 1, c, len - 1, l + tailLen - 1);
    }
  }

  lemma Overflow(l: nat, c: nat, tailLen: nat)
    requires c >= BRANCHING && c % BRANCHING == 0 && l <= c && l + 31 >= c && 1 <= tailLen <= BRANCHING
    requires tailLen == BRANCHING || l % BRANCHING == 0 || (l <= BRANCHING && l + tailLen > BRANCHING)
    ensures c <= l + tailLen - 1 < 2 * c
  {}

  /** The tail length steers both passes at every radix node of the right edge. */
  ghost predicate Steered<T>(n: Node<T>, h: nat, tailLen: nat)
    requires Wf(n, h, Indexable)
    decreases h
  {
    && 1 <= tailLen <= BRANCHING
    && (h > 0 ==>
          match n.table
          case None => Steers(n, tailLen)
          case Some(_) => KidsWf(n, h, Indexable); Steered(n.kids[|n.kids| - 1], h - 1, tailLen))
  }

  lemma SteeredKid<T>(n: Node<T>, h: nat, tailLen: nat)
    requires h > 0 && Wf(n, h, Indexable) && Steered(n, h, tailLen)
    ensures Wf(n.kids[|n.kids| - 1], h - 1, Indexable) && Steered(n.kids[|n.kids| - 1], h - 1, tailLen)
  {
    KidsWf(n, h, Indexable);
    if n.table.None? && h > 1 {
      assert Radix(n.kids[|n.kids| - 1], h - 1);
      if Thin(n) { ThinSize(n, h); }
      if tailLen < BRANCHING && |Elements(n)| % BRANCHING == 0 { RadixKidMultiple(n, h, |n.kids| - 1); }
    }
  }

  /** A full tail steers everywhere. */
  lemma {:induction false} FullTailSteers<T>(n: Node<T>, h: nat)
    requires Wf(n, h, Indexable)
    ensures Steered(n, h, BRANCHING)
    decreases h
  {
    if h > 0 {
      KidsWf(n, h, Indexable);
      FullTailSteers(n.kids[|n.kids| - 1], h - 1);
    }
  }

  /** Any tail does in a sound tree, when the two together overflow a leaf. */
  lemma {:induction false} SoundSteered<T>(n: Node<T>, h: nat, left: bool, tailLen: nat)
    requires Sound(n, h, left, true) && 1 <= tailLen <= BRANCHING
    requires left ==> |Elements(n)| + tailLen > BRANCHING
    ensures Wf(n, h, Indexable) && Steered(n, h, tailLen)
    decreases h
  {
    SoundIsWf(n, h, left, true, Indexable);
    if h > 0 && n.table.Some? {
      var len := |n.kids|;
      SoundKids(n, h, left, true);
      if len == 1 {
        assert n.kids == [n.kids[0]];
        ElementsOfOne(n.kids[0]);
      }
      SoundSteered(n.kids[len - 1], h - 1, left && len == 1, tailLen);
    }
  }

  // ---------- the counting pass ----------

  /** The first half of push_down_tail: how many nodes of the right edge to copy,
      and how many inner nodes there are. */
  method CountCopyable<T>(root: Node<T>, height: nat, cnt: nat, ghost tailLen: nat)
    returns (nodesToCopy: nat, nodesVisited: nat)
    requires Wf(root, height, Indexable) && Steered(root, height, tailLen)
    requires cnt == |Elements(root)| + tailLen
    ensures nodesToCopy == DeepestRoom(root, height)
    ensures nodesVisited == height
  {
    var index: nat := cnt - 1;
    nodesToCopy, nodesVisited := 0, 0;
    var current := root;
    var h: nat := height;
    // All inner nodes but the lowest; a break leaves with h > 1.
    while h > 1
      invariant h <= height && nodesVisited == height - h
      invariant height >= 1 ==> h >= 1
      invariant Wf(current, h, Indexable) && Steered(current, h, tailLen)
      invariant index == |Elements(current)| + tailLen - 1
      invariant DeepestRoom(root, height) ==
                if DeepestRoom(current, h) > 0 then nodesVisited + DeepestRoom(current, h) else nodesToCopy
      decreases h
    {
      SteeredKid(current, h, tailLen);
      var len := |current.kids|;
      ghost var last := current.kids[len - 1];
      var childIndex: nat;
      if current.table.None? {
        RadixRoom(current, h);
        RadixChild(current, h, tailLen);
        if Shr(index, h + 1) > 0 {
          // No room below a completely filled radix node.
          FullRadixOverflows(current, h, tailLen);
          nodesVisited := nodesVisited + 1;
          break;
        }
        NoOverflow(current, h, tailLen);
        childIndex := Digit(index, h);
        index := index % Cap(h);
      } else {
        LastKidSize(current, h);
        childIndex := len - 1;
        if childIndex != 0 {
          index := index - current.table.value[childIndex - 1];
        }
      }
      nodesVisited := nodesVisited + 1;
      if childIndex < BRANCHING - 1 {
        nodesToCopy := nodesVisited;
      }
      if childIndex >= len {
        // The child looked for is absent.
        nodesToCopy := nodesVisited;
        break;
      }
      current := current.kids[childIndex];
      h := h - 1;
    }
    if h == 1 {
      nodesVisited := nodesVisited + 1;
      if |current.kids| < BRANCHING {
        nodesToCopy := nodesVisited;
      }
    }
    // Count the remaining levels after an early exit.
    while h > 1
      invariant if h == 0 then nodesVisited == height else nodesVisited + h == height + 1
      decreases h
    {
      nodesVisited := nodesVisited + 1;
      h := h - 1;
    }
  }

  lemma LastKidSize<T>(n: Node<T>, h: nat)
    requires h > 0 && Wf(n, h, Indexable) && n.table.Some?
    ensures var len := |n.kids|;
            |Elements(n)| == (if len == 1 then 0 else n.table.value[len - 2]) + |Elements(n.kids[len - 1])|
  {
    ElementsOfAt(n.kids, |n.kids| - 1);
    assert ElementsOf(n.kids[|n.kids|..]) == [];
    assert n.kids[..0] == [];
  }

  lemma FullRadixOverflows<T>(n: Node<T>, h: nat, tailLen: nat)
    requires h >= 1 && Radix(n, h) && Wf(n, h, Indexable) && Steers(n, tailLen)
    requires Shr(|Elements(n)| + tailLen - 1, h + 1) > 0
    ensures DeepestRoom(n, h) == 0
  {
    RadixRoom(n, h);
    if |Elements(n)| + tailLen - 1 < Cap(h + 1) {
      SmallShift(|Elements(n)| + tailLen - 1, h + 1);
    }
  }

  /** The converse: an index that does not overflow leaves room. */
  lemma NoOverflow<T>(n: Node<T>, h: nat, tailLen: nat)
    requires h >= 1 && Radix(n, h) && Wf(n, h, Indexable) && Steers(n, tailLen)
    requires DeepestRoom(n, h) > 0 || Shr(|Elements(n)| + tailLen - 1, h + 1) == 0
    ensures DeepestRoom(n, h) > 0
    ensures |Elements(n)| + tailLen - 1 < Cap(h + 1)
    ensures Digit(|Elements(n)| + tailLen - 1, h) == Shr(|Elements(n)| + tailLen - 1, h)
  {
    hide Wf, Elements, ElementsOf;
    var index := |Elements(n)| + tailLen - 1;
    RadixRoom(n, h);
    SizeBounds(n, h, Indexable);
    CapMultiple(h + 1);
    if index >= Cap(h + 1) {
      DivUnique(index, Cap(h + 1), 1, index - Cap(h + 1));
      assert false;
    }
    SmallDigit(index, h);
  }

  // ---------- the copying pass ----------

  /** What the copying pass still has to build below its current node, `todo`
      levels of copies from the bottom. */
  ghost function Remaining<T>(n: Node<T>, h: nat, todo: nat, leaf: seq<T>): Node<T>
    requires todo <= h && (todo > 0 ==> Wf(n, h, Indexable))
  {
    if todo == 0 then Chain(h, leaf) else Insert(n, h, todo, leaf)
  }

  /** copy_first_k: copies of the first k nodes of the right edge, sizes
      adjusted, ending in the child slot the new leaf is to hang from. */
  method CopyFirstK<T>(root: Node<T>, height: nat, cnt: nat, k: nat, tailSize: nat, ghost leaf: seq<T>)
    returns (path: seq<Frame<T>>)
    requires Wf(root, height, Indexable) && Steered(root, height, tailSize)
    requires cnt == |Elements(root)| + tailSize && |leaf| == tailSize
    requires 1 <= k == DeepestRoom(root, height) <= height
    ensures FramesOk(path)
    ensures Plug(path, Chain(height - k, leaf)) == Insert(root, height, k, leaf)
  {
    path := [];
    var current := root;
    var index: nat := cnt - 1;
    var h: nat := height;
    var i := 1;
    ExactEdgeIndex(root, height, tailSize, index);
    while i <= k && h != 0
      invariant h == height + 1 - i && 1 <= i <= k + 1 <= height + 1
      invariant FramesOk(path)
      invariant i <= k ==> Wf(current, h, Indexable) && Steered(current, h, tailSize)
      invariant i <= k ==> DeepestRoom(current, h) == k + 1 - i
      invariant i <= k ==> EdgeIndex(current, h, tailSize, index)
      invariant Plug(path, Remaining(current, h, k + 1 - i, leaf)) == Insert(root, height, k, leaf)
      decreases h
    {
      var frame;
      ghost var below := if i < k then current.kids[|current.kids| - 1] else current;
      frame, index := CopyLevel(current, h, i != k, tailSize, index);
      FillIsInsert(current, h, k + 1 - i, frame, leaf);
      PlugSnoc(path, frame, Remaining(below, h - 1, k - i, leaf));
      path := path + [frame];
      if frame.hole < |current.kids| {
        current := current.kids[frame.hole];
      }
      i := i + 1;
      h := h - 1;
    }
  }

  /** One copied node: a clone whose last child will be replaced, or, for the
      last node copied, one with a new slot; a table grows with the leaf. */
  method CopyLevel<T>(current: Node<T>, h: nat, clone: bool, tailSize: nat, index0: nat)
    returns (frame: Frame<T>, index: nat)
    requires h > 0 && Wf(current, h, Indexable) && Steered(current, h, tailSize)
    requires DeepestRoom(current, h) > 0 && clone == (DeepestRoom(current, h) > 1)
    requires EdgeIndex(current, h, tailSize, index0)
    ensures frame == EdgeFrame(current, clone, tailSize)
    ensures var last := current.kids[|current.kids| - 1];
            && Wf(last, h - 1, Indexable) && Steered(last, h - 1, tailSize)
            && (clone ==> DeepestRoom(last, h - 1) == DeepestRoom(current, h) - 1
                          && EdgeIndex(last, h - 1, tailSize, index))
  {
    var len := |current.kids|;
    SteeredKid(current, h, tailSize);
    index := index0;
    if current.table.None? {
      EdgeDigit(current, h, tailSize, index);
      frame := Frame(current.kids, None, Digit(index, h));
    } else {
      LastKidSize(current, h);
      var t := current.table.value;
      if clone {
        if len != 1 {
          index := index - t[len - 2];
        }
        ExactEdgeIndex(current.kids[len - 1], h - 1, tailSize, index);
        frame := Frame(current.kids, Some(t[..len - 1] + [t[len - 1] + tailSize]), len - 1);
      } else {
        frame := Frame(current.kids, Some(t[..len] + [t[len - 1] + tailSize]), len);
      }
    }
  }

  lemma ExactEdgeIndex<T>(n: Node<T>, h: nat, tailLen: nat, index: nat)
    requires Wf(n, h, Indexable) && Steered(n, h, tailLen) && (h > 0 ==> DeepestRoom(n, h) > 0)
    requires h > 0 && index == |Elements(n)| + tailLen - 1
    ensures EdgeIndex(n, h, tailLen, index)
  {
    if n.table.None? {
      NoOverflow(n, h, tailLen);
      SmallShift(index, h + 1);
    }
  }

  /** The frame for a node of the right edge. */
  function EdgeFrame<T>(n: Node<T>, clone: bool, tailSize: nat): Frame<T>
    requires n.Inner? && |n.kids| >= 1 && (n.table.Some? ==> |n.table.value| >= |n.kids|)
  {
    var len := |n.kids|;
    Frame(n.kids,
          match n.table
          case None => None
          case Some(t) => Some(t[..if clone then len - 1 else len] + [t[len - 1] + tailSize]),
          if clone then len - 1 else len)
  }

  lemma FillIsInsert<T>(n: Node<T>, h: nat, k: nat, frame: Frame<T>, leaf: seq<T>)
    requires Wf(n, h, Indexable) && 1 <= k <= h
    requires frame == EdgeFrame(n, k > 1, |leaf|)
    ensures Wf(n.kids[|n.kids| - 1], h - 1, Indexable)
    ensures Fill(frame, Remaining(if k > 1 then n.kids[|n.kids| - 1] else n, h - 1, k - 1, leaf))
         == Insert(n, h, k, leaf)
  {
    KidsWf(n, h, Indexable);
    var len := |n.kids|;
    if k > 1 {
      var below := Insert(n.kids[len - 1], h - 1, k - 1, leaf);
      assert n.kids[len - 1 := below] == n.kids[..len - 1] + [below];
    }
  }

  /** Above radix nodes the index is relative to the current node; below them
      only its lower digits count. */
  ghost predicate EdgeIndex<T>(n: Node<T>, h: nat, tailLen: nat, index: nat)
    requires h > 0 ==> n.Inner?
  {
    var local := |Elements(n)| + tailLen - 1;
    if h > 0 && n.table.Some? then index == local else index % Cap(h + 1) == local
  }

  /** The digit of the index selects the child to copy or the new slot. */
  lemma EdgeDigit<T>(n: Node<T>, h: nat, tailLen: nat, index: nat)
    requires h > 0 && Wf(n, h, Indexable) && n.table.None? && Steered(n, h, tailLen)
    requires DeepestRoom(n, h) > 0 && EdgeIndex(n, h, tailLen, index)
    ensures var len := |n.kids|;
            var last := n.kids[len - 1];
            && Wf(last, h - 1, Indexable)
            && if DeepestRoom(last, h - 1) == 0 then Digit(index, h) == len
               else Digit(index, h) == len - 1 && EdgeIndex(last, h - 1, tailLen, index)
  {
    DigitOfRemainder(index, h);
    RadixChild(n, h, tailLen);
    KidsWf(n, h, Indexable);
  }

  /** append_empty: a leaf below `emptyHeight` fresh one-child nodes. */
  method AppendEmpty<T>(emptyHeight: nat, leaf: seq<T>) returns (n: Node<T>)
    ensures n == Chain(emptyHeight, leaf)
  {
    n := Leaf(leaf);
    for i := 0 to emptyHeight
      invariant n == Chain(i, leaf)
    {
      n := Inner([n], None);
    }
  }

  // ---------- correctness of the insertion ----------

  lemma {:induction false} ChainIsRadix<T>(h: nat, leaf: seq<T>)
    requires 1 <= |leaf| <= BRANCHING
    ensures Radix(Chain(h, leaf), h) && Elements(Chain(h, leaf)) == leaf
  {
    if h > 0 {
      ChainIsRadix(h - 1, leaf);
      ElementsOfOne(Chain(h - 1, leaf));
    }
  }

  lemma SnocInit<T>(kids: seq<Node<T>>, x: Node<T>)
    requires |kids| >= 1
    ensures kids == kids[..|kids| - 1] + [kids[|kids| - 1]]
    ensures ElementsOf(kids[..|kids| - 1] + [x]) == ElementsOf(kids[..|kids| - 1]) + Elements(x)
    ensures ElementsOf(kids) == ElementsOf(kids[..|kids| - 1]) + Elements(kids[|kids| - 1])
  {
    assert kids == kids[..|kids| - 1] + [kids[|kids| - 1]];
    ElementsOfSnoc(kids[..|kids| - 1], x);
    ElementsOfSnoc(kids[..|kids| - 1], kids[|kids| - 1]);
  }

  /** Wherever the leaf goes, its elements come last. */
  lemma {:induction false} InsertAppends<T>(n: Node<T>, h: nat, k: nat, leaf: seq<T>)
    requires Wf(n, h, Indexable) && 1 <= k <= h && 1 <= |leaf| <= BRANCHING
    ensures Elements(Insert(n, h, k, leaf)) == Elements(n) + leaf
    decreases h
  {
    KidsWf(n, h, Indexable);
    var len := |n.kids|;
    if k == 1 {
      ChainIsRadix(h - 1, leaf);
      ElementsOfSnoc(n.kids, Chain(h - 1, leaf));
    } else {
      var below := Insert(n.kids[len - 1], h - 1, k - 1, leaf);
      InsertAppends(n.kids[len - 1], h - 1, k - 1, leaf);
      SnocInit(n.kids, below);
    }
  }

  /** Whether the tree accepts one more leaf: at the node that gets the new
      child, radix indexing still works, or the table is exact. */
  predicate Accepts<T>(n: Node<T>, h: nat)
    requires Wf(n, h, Indexable) && DeepestRoom(n, h) > 0
    decreases h
  {
    KidsWf(n, h, Indexable);
    var len := |n.kids|;
    match n.table
    case None => |Elements(n)| % BRANCHING == 0
    case Some(t) =>
      if DeepestRoom(n.kids[len - 1], h - 1) > 0 then Accepts(n.kids[len - 1], h - 1)
      else t[len - 1] == |Elements(n)|
  }

  /** A new child keeps a node radix indexed exactly when the child before it is full. */
  lemma RadixSnoc<T>(n: Node<T>, h: nat, child: Node<T>)
    requires h > 0 && Radix(n, h) && Radix(child, h - 1) && |n.kids| < BRANCHING
    ensures Radix(Inner(n.kids + [child], None), h) <==> |Elements(n.kids[|n.kids| - 1])| == Cap(h)
  {
    var kids := n.kids + [child];
    assert kids[|n.kids| - 1] == n.kids[|n.kids| - 1];
  }

  /** Replacing the last child keeps a node radix indexed exactly when it is. */
  lemma RadixReplace<T>(n: Node<T>, h: nat, child: Node<T>)
    requires h > 0 && Radix(n, h)
    ensures Radix(Inner(n.kids[..|n.kids| - 1] + [child], None), h) <==> Radix(child, h - 1)
  {
    var kids := n.kids[..|n.kids| - 1] + [child];
    assert kids[|n.kids| - 1] == child;
  }

  /** The size of a radix node is a multiple of 32 exactly when its last child's is. */
  lemma RadixMultiple<T>(n: Node<T>, h: nat)
    requires h > 0 && Radix(n, h)
    ensures |Elements(n)| % BRANCHING == 0 <==> |Elements(n.kids[|n.kids| - 1])| % BRANCHING == 0
  {
    RadixSize(n, h);
    CapMultiple(h);
    MulMod(|n.kids| - 1, Cap(h));
    ModOfSum((|n.kids| - 1) * Cap(h), |Elements(n.kids[|n.kids| - 1])|);
  }

  lemma {:induction false} InsertRadix<T>(n: Node<T>, h: nat, leaf: seq<T>)
    requires Radix(n, h) && Wf(n, h, Indexable) && DeepestRoom(n, h) > 0 && 1 <= |leaf| <= BRANCHING
    requires DeepestRoom(n, h) <= h
    ensures Radix(Insert(n, h, DeepestRoom(n, h), leaf), h) <==> |Elements(n)| % BRANCHING == 0
    decreases h
  {
    KidsWf(n, h, Indexable);
    RadixMultiple(n, h);
    var k, last := DeepestRoom(n, h), n.kids[|n.kids| - 1];
    if k == 1 {
      ChainIsRadix(h - 1, leaf);
      RadixSnoc(n, h, Chain(h - 1, leaf));
      LastIsFull(last, h - 1);
    } else {
      InsertRadix(last, h - 1, leaf);
      RadixReplace(n, h, Insert(last, h - 1, k - 1, leaf));
    }
  }

  /** A radix node without room is full exactly when its leaves are. */
  lemma LastIsFull<T>(n: Node<T>, h: nat)
    requires Radix(n, h) && Wf(n, h, Indexable) && DeepestRoom(n, h) == 0
    ensures |Elements(n)| == Cap(h + 1) <==> |Elements(n)| % BRANCHING == 0
  {
    CapMultiple(h + 1);
    SizeBounds(n, h, Indexable);
    if h > 0 { RadixRoom(n, h); } else { assert Cap(1) == 32; }
    if |Elements(n)| % BRANCHING == 0 { OnlyMultiple(|Elements(n)|, Cap(h + 1)); }
  }

  lemma OnlyMultiple(x: nat, c: nat)
    requires c % BRANCHING == 0 && x % BRANCHING == 0 && x <= c && x + 31 >= c
    ensures x == c
  {}

  /** Inserting into an accepting tree keeps it well formed. */
  lemma {:induction false} InsertWf<T>(n: Node<T>, h: nat, leaf: seq<T>, tier: Tier)
    requires Wf(n, h, tier) && Wf(n, h, Indexable) && 1 <= |leaf| <= BRANCHING
    requires 1 <= DeepestRoom(n, h) <= h && Accepts(n, h)
    ensures Wf(Insert(n, h, DeepestRoom(n, h), leaf), h, tier)
    decreases h
  {
    KidsWf(n, h, tier);
    KidsWf(n, h, Indexable);
    if n.table.None? {
      InsertRadix(n, h, leaf);
    } else {
      var last := n.kids[|n.kids| - 1];
      if DeepestRoom(n, h) == 1 {
        InsertWfHere(n, h, leaf, tier);
      } else {
        InsertWf(last, h - 1, leaf, tier);
        InsertWfBelow(n, h, leaf, tier);
      }
    }
  }

  /** The case of a tabled node that gets the new child. */
  lemma InsertWfHere<T>(n: Node<T>, h: nat, leaf: seq<T>, tier: Tier)
    requires Wf(n, h, tier) && Wf(n, h, Indexable) && 1 <= |leaf| <= BRANCHING
    requires h >= 1 && n.table.Some? && DeepestRoom(n, h) == 1 && Accepts(n, h)
    ensures Wf(Insert(n, h, 1, leaf), h, tier)
  {
    KidsWf(n, h, tier);
    KidsWf(n, h, Indexable);
    assert n.kids[..|n.kids|] == n.kids;
    ChainIsRadix(h - 1, leaf);
    var child := Chain(h - 1, leaf);
    RadixIsWf(child, h - 1, tier);
    TableSnoc(n.kids, n.table.value, child, tier, |leaf|);
    WfSnoc(n.kids, child, h - 1, tier);
  }

  /** The case of a tabled node whose last child takes the leaf. */
  lemma InsertWfBelow<T>(n: Node<T>, h: nat, leaf: seq<T>, tier: Tier)
    requires Wf(n, h, tier) && Wf(n, h, Indexable) && 1 <= |leaf| <= BRANCHING
    requires 1 < DeepestRoom(n, h) <= h && n.table.Some?
    requires Wf(n.kids[|n.kids| - 1], h - 1, Indexable)
    requires Wf(Insert(n.kids[|n.kids| - 1], h - 1, DeepestRoom(n, h) - 1, leaf), h - 1, tier)
    ensures Wf(Insert(n, h, DeepestRoom(n, h), leaf), h, tier)
  {
    hide ElementsOf, Radix;
    var last := n.kids[|n.kids| - 1];
    var below := Insert(last, h - 1, DeepestRoom(n, h) - 1, leaf);
    KidsWf(n, h, tier);
    InsertAppends(last, h - 1, DeepestRoom(n, h) - 1, leaf);
    TableReplace(n.kids, n.table.value, below, tier, |leaf|);
    WfSnoc(n.kids[..|n.kids| - 1], below, h - 1, tier);
  }

  lemma WfSnoc<T>(kids: seq<Node<T>>, child: Node<T>, h: nat, tier: Tier)
    requires WfAll(kids, h, tier) && Wf(child, h, tier)
    ensures WfAll(kids + [child], h, tier)
  {}

  /** A table with the entry for a new child, when the old last entry was exact. */
  lemma TableSnoc<T>(kids: seq<Node<T>>, t: seq<nat>, child: Node<T>, tier: Tier, size: nat)
    requires TableOk(t, kids, tier) && |Elements(child)| == size
    requires t[|kids| - 1] == Cum(kids, |kids|)
    ensures TableOk(t[..|kids|] + [t[|kids| - 1] + size], kids + [child], tier)
  {
    var kids' := kids + [child];
    forall i | 0 <= i <= |kids| ensures Cum(kids', i) == Cum(kids, i) {
      assert kids'[..i] == kids[..i];
    }
    ElementsOfAt(kids', |kids|);
  }

  /** A table whose last entry grows with the last child. */
  lemma TableReplace<T>(kids: seq<Node<T>>, t: seq<nat>, child: Node<T>, tier: Tier, size: nat)
    requires TableOk(t, kids, tier)
    requires |Elements(child)| == |Elements(kids[|kids| - 1])| + size
    ensures TableOk(t[..|kids| - 1] + [t[|kids| - 1] + size], kids[..|kids| - 1] + [child], tier)
  {
    var kids' := kids[..|kids| - 1] + [child];
    forall i | 0 <= i < |kids| ensures Cum(kids', i) == Cum(kids, i) {
      assert kids'[..i] == kids[..i];
    }
    ElementsOfAt(kids', |kids| - 1);
    ElementsOfAt(kids, |kids| - 1);
  }

  /** Only an accepting tree stays searchable: otherwise some element could no
      longer be looked up. */
  lemma {:induction false} InsertNeedsAccepts<T>(n: Node<T>, h: nat, leaf: seq<T>)
    requires Wf(n, h, Indexable) && 1 <= |leaf| <= BRANCHING
    requires 1 <= DeepestRoom(n, h) <= h
    requires Wf(Insert(n, h, DeepestRoom(n, h), leaf), h, Indexable)
    ensures Accepts(n, h)
    decreases h
  {
    KidsWf(n, h, Indexable);
    var len, k := |n.kids|, DeepestRoom(n, h);
    var last, r := n.kids[len - 1], Insert(n, h, k, leaf);
    if n.table.None? {
      InsertRadix(n, h, leaf);
    } else if k == 1 {
      assert r.kids[..len] == n.kids;
      assert TableOk(r.table.value, r.kids, Indexable) && r.table.value[len - 1] == Cum(r.kids, len);
    } else {
      assert r.kids[len - 1] == Insert(last, h - 1, k - 1, leaf);
      InsertNeedsAccepts(last, h - 1, leaf);
    }
  }

  /** In a sound tree without a short leaf there is always a place for the leaf. */
  lemma {:induction false} SoundAccepts<T>(n: Node<T>, h: nat)
    requires Sound(n, h, false, true) && Wf(n, h, Indexable) && DeepestRoom(n, h) > 0
    ensures Accepts(n, h)
    decreases h
  {
    SoundKids(n, h, false, true);
    KidsWf(n, h, Indexable);
    var len := |n.kids|;
    if n.table.Some? {
      if DeepestRoom(n.kids[len - 1], h - 1) > 0 {
        SoundAccepts(n.kids[len - 1], h - 1);
      } else {
        assert n.kids[..len] == n.kids;
      }
    }
  }

  /** A node without room at its right edge can have others behind it. */
  lemma {:induction false} NoRoomIsSound<T>(n: Node<T>, h: nat, left: bool)
    requires Sound(n, h, left, true) && Wf(n, h, Indexable) && DeepestRoom(n, h) == 0
    ensures Sound(n, h, left, false)
    decreases h
  {
    if h > 0 {
      var len := |n.kids|;
      KidsWf(n, h, Indexable);
      SoundKids(n, h, left, true);
      if n.table.None? {
        if !Thin(n) { LastIsFull(n, h); }
      } else {
        NoRoomIsSound(n.kids[len - 1], h - 1, left && len == 1);
      }
    }
  }

  lemma LastKidSound<T>(n: Node<T>, h: nat, left: bool)
    requires h > 0 && Sound(n, h, left, true)
    ensures n.Inner? && 1 <= |n.kids| <= BRANCHING
    ensures SoundAll(n.kids[..|n.kids| - 1], h - 1, left, false)
    ensures Sound(n.kids[|n.kids| - 1], h - 1, left && |n.kids| == 1, true)
  {
    SoundKids(n, h, left, true);
    var last := n.kids[|n.kids| - 1];
    assert n.kids == n.kids[..|n.kids| - 1] + [last];
    SoundParts(n.kids[..|n.kids| - 1], [last], h - 1, left, true);
    assert [last][0] == last;
  }

  /** All children lie off the right edge once another one follows. */
  lemma NoRoomKids<T>(n: Node<T>, h: nat, left: bool)
    requires h > 0 && Sound(n, h, left, true) && Wf(n, h, Indexable) && DeepestRoom(n, h) == 1
    ensures SoundAll(n.kids, h - 1, left, false)
  {
    LastKidSound(n, h, left);
    KidsWf(n, h, Indexable);
    var last := n.kids[|n.kids| - 1];
    NoRoomIsSound(last, h - 1, left && |n.kids| == 1);
    assert n.kids == n.kids[..|n.kids| - 1] + [last];
    SoundConcat(n.kids[..|n.kids| - 1], [last], h - 1, left, false);
  }

  /** A full leaf keeps an accepting tree sound. */
  lemma {:induction false} InsertSound<T>(n: Node<T>, h: nat, leaf: seq<T>, left: bool)
    requires Sound(n, h, left, true) && Wf(n, h, Indexable) && |leaf| == BRANCHING
    requires 1 <= DeepestRoom(n, h) <= h && Accepts(n, h)
    ensures Sound(Insert(n, h, DeepestRoom(n, h), leaf), h, left, true)
    decreases h
  {
    hide ElementsOf, TableOk, Radix, Cum;
    var len, k := |n.kids|, DeepestRoom(n, h);
    KidsWf(n, h, Indexable);
    LastKidSound(n, h, left);
    if n.table.None? {
      InsertAppends(n, h, k, leaf);
      InsertRadix(n, h, leaf);
      ModOfSum(|Elements(n)|, |leaf|);
      UntabledSound(Insert(n, h, k, leaf), h, left);
    } else if k == 1 {
      NoRoomKids(n, h, left);
      InsertSoundHere(n, h, leaf, left);
    } else {
      var last := n.kids[len - 1];
      InsertSound(last, h - 1, leaf, left && len == 1);
      InsertSoundBelow(n, h, leaf, left);
    }
  }

  lemma UntabledSound<T>(n: Node<T>, h: nat, left: bool)
    requires h > 0 && Radix(n, h) && |Elements(n)| % BRANCHING == 0
    ensures Sound(n, h, left, true)
  {}

  lemma InsertSoundHere<T>(n: Node<T>, h: nat, leaf: seq<T>, left: bool)
    requires h > 0 && Sound(n, h, left, true) && Wf(n, h, Indexable) && |leaf| == BRANCHING
    requires n.table.Some? && DeepestRoom(n, h) == 1 && SoundAll(n.kids, h - 1, left, false)
    ensures Sound(Insert(n, h, 1, leaf), h, left, true)
  {
    var child := Chain(h - 1, leaf);
    ChainIsRadix(h - 1, leaf);
    assert n.kids[..|n.kids|] == n.kids;
    TableSnoc(n.kids, n.table.value, child, Exact, |leaf|);
    SoundConcat(n.kids, [child], h - 1, left, true);
    assert |n.kids| < BRANCHING;
  }

  lemma InsertSoundBelow<T>(n: Node<T>, h: nat, leaf: seq<T>, left: bool)
    requires h > 0 && Sound(n, h, left, true) && Wf(n, h, Indexable) && |leaf| == BRANCHING
    requires n.table.Some? && 1 < DeepestRoom(n, h) <= h
    requires Wf(n.kids[|n.kids| - 1], h - 1, Indexable)
    requires Sound(Insert(n.kids[|n.kids| - 1], h - 1, DeepestRoom(n, h) - 1, leaf), h - 1, left && |n.kids| == 1, true)
    requires SoundAll(n.kids[..|n.kids| - 1], h - 1, left, false)
    ensures Sound(Insert(n, h, DeepestRoom(n, h), leaf), h, left, true)
  {
    hide ElementsOf, Radix;
    var last := n.kids[|n.kids| - 1];
    var below := Insert(last, h - 1, DeepestRoom(n, h) - 1, leaf);
    InsertAppends(last, h - 1, DeepestRoom(n, h) - 1, leaf);
    TableReplace(n.kids, n.table.value, below, Exact, |leaf|);
    SoundConcat(n.kids[..|n.kids| - 1], [below], h - 1, left, true);
  }

  /** Any leaf, even a short one, leaves the shape that concat needs. */
  lemma {:induction false} InsertShape<T>(n: Node<T>, h: nat, leaf: seq<T>, left: bool)
    requires Sound(n, h, left, true) && Wf(n, h, Indexable) && 1 <= |leaf| <= BRANCHING
    requires 1 <= DeepestRoom(n, h) <= h
    ensures EdgeShape(Insert(n, h, DeepestRoom(n, h), leaf), h, left)
    decreases h
  {
    hide ElementsOf, TableOk, Radix, Sound, SoundAll, Wf, EdgeShape;
    LastKidSound(n, h, left);
    KidsWf(n, h, Indexable);
    var len, k := |n.kids|, DeepestRoom(n, h);
    var r := Insert(n, h, k, leaf);
    if k == 1 {
      NoRoomKids(n, h, left);
      ChainShape(h - 1, leaf);
      ShapeOf(r, h, n.kids, Chain(h - 1, leaf), left);
    } else {
      var below := Insert(n.kids[len - 1], h - 1, k - 1, leaf);
      InsertShape(n.kids[len - 1], h - 1, leaf, left && len == 1);
      ShapeOf(r, h, n.kids[..len - 1], below, left);
    }
  }

  lemma ShapeOf<T>(r: Node<T>, h: nat, kids: seq<Node<T>>, last: Node<T>, left: bool)
    requires h > 0 && r.Inner? && r.kids == kids + [last] && |kids| < BRANCHING
    requires SoundAll(kids, h - 1, left, false) && EdgeShape(last, h - 1, left && kids == [])
    ensures EdgeShape(r, h, left)
  {
    assert r.kids[..|r.kids| - 1] == kids && r.kids[|r.kids| - 1] == last;
  }

  lemma {:induction false} ChainShape<T>(h: nat, leaf: seq<T>)
    requires 1 <= |leaf| <= BRANCHING
    ensures EdgeShape(Chain(h, leaf), h, false)
  {
    if h > 0 {
      ChainShape(h - 1, leaf);
      assert [Chain(h - 1, leaf)][..0] == [];
    }
  }

  // ---------- the root ----------

  /** The tree, and its height, after its right edge received a leaf. */
  function AppendLeaf<T>(root: Node<T>, h: nat, leaf: seq<T>): (Node<T>, nat)
    requires Wf(root, h, Indexable)
  {
    DeepestRoomBound(root, h);
    var k := DeepestRoom(root, h);
    if k > 0 then (Insert(root, h, k, leaf), h)
    else
      var table := if root.Inner? && root.table.Some?
                   then Some([|Elements(root)|, |Elements(root)| + |leaf|]) else None;
      (Inner([root, Chain(h, leaf)], table), h + 1)
  }

  /** Whether the whole tree accepts one more leaf.  A new level can be put on a
      node without a table only when that node is completely filled. */
  predicate RootAccepts<T>(root: Node<T>, h: nat)
    requires Wf(root, h, Indexable)
  {
    if DeepestRoom(root, h) > 0 then Accepts(root, h)
    else (root.Inner? && root.table.Some?) || |Elements(root)| == Cap(h + 1)
  }

  lemma AppendLeafAppends<T>(root: Node<T>, h: nat, leaf: seq<T>)
    requires Wf(root, h, Indexable) && 1 <= |leaf| <= BRANCHING
    ensures Elements(AppendLeaf(root, h, leaf).0) == Elements(root) + leaf
  {
    DeepestRoomBound(root, h);
    var k := DeepestRoom(root, h);
    if k > 0 {
      InsertAppends(root, h, k, leaf);
    } else {
      PairContents(root, Chain(h, leaf));
      ChainIsRadix(h, leaf);
    }
  }

  lemma PairContents<T>(a: Node<T>, b: Node<T>)
    ensures ElementsOf([a, b]) == Elements(a) + Elements(b)
    ensures ElementsOf([a, b][..1]) == Elements(a) && [a, b][..2] == [a, b]
  {
    assert [a, b] == [a] + [b] && [a, b][..1] == [a];
    ElementsOfSnoc([a], b);
    ElementsOfOne(a);
  }

  /** One more level on top. */
  lemma NewRoot<T>(root: Node<T>, h: nat, leaf: seq<T>, tier: Tier)
    requires Wf(root, h, tier) && Wf(root, h, Indexable) && 1 <= |leaf| <= BRANCHING
    requires DeepestRoom(root, h) == 0 && RootAccepts(root, h)
    ensures Wf(AppendLeaf(root, h, leaf).0, h + 1, tier)
  {
    PairContents(root, Chain(h, leaf));
    ChainIsRadix(h, leaf);
    RadixIsWf(Chain(h, leaf), h, tier);
    CapMultiple(h + 1);
  }

  /** Appending to an accepting tree keeps its tier. */
  lemma AppendLeafWf<T>(root: Node<T>, h: nat, leaf: seq<T>, tier: Tier)
    requires Wf(root, h, tier) && Wf(root, h, Indexable) && 1 <= |leaf| <= BRANCHING
    requires RootAccepts(root, h)
    ensures var (r, h') := AppendLeaf(root, h, leaf);
            Wf(r, h', tier)
  {
    DeepestRoomBound(root, h);
    if DeepestRoom(root, h) > 0 {
      InsertWf(root, h, leaf, tier);
    } else {
      NewRoot(root, h, leaf, tier);
    }
  }

  /** A tree stays searchable under appending exactly when it accepts. */
  lemma AppendLeafIff<T>(root: Node<T>, h: nat, leaf: seq<T>)
    requires Wf(root, h, Indexable) && 1 <= |leaf| <= BRANCHING
    ensures var (r, h') := AppendLeaf(root, h, leaf);
            Wf(r, h', Indexable) <==> RootAccepts(root, h)
  {
    DeepestRoomBound(root, h);
    var r := AppendLeaf(root, h, leaf).0;
    if RootAccepts(root, h) {
      AppendLeafWf(root, h, leaf, Indexable);
    } else if DeepestRoom(root, h) > 0 {
      if Wf(r, h, Indexable) { InsertNeedsAccepts(root, h, leaf); }
    } else {
      assert r.table.None? && r.kids[0] == root;
    }
  }

  /** A sound tree without a short leaf accepts. */
  lemma SoundRootAccepts<T>(root: Node<T>, h: nat)
    requires Sound(root, h, false, true) && Wf(root, h, Indexable) && (h == 0 ==> |root.elems| == BRANCHING)
    ensures RootAccepts(root, h)
  {
    if DeepestRoom(root, h) > 0 {
      SoundAccepts(root, h);
    } else if h == 0 {
      assert Cap(1) == 32 * Cap(0);
    } else if root.table.None? {
      LastIsFull(root, h);
    }
  }

  /** Appending a full leaf to an accepting sound tree keeps it sound. */
  lemma AppendLeafSound<T>(root: Node<T>, h: nat, leaf: seq<T>, left: bool)
    requires Sound(root, h, left, true) && Wf(root, h, Indexable) && |leaf| == BRANCHING
    requires RootAccepts(root, h)
    ensures var (r, h') := AppendLeaf(root, h, leaf);
            Sound(r, h', left, true)
  {
    DeepestRoomBound(root, h);
    if DeepestRoom(root, h) > 0 {
      InsertSound(root, h, leaf, left);
    } else {
      NewRootSound(root, h, leaf, left);
    }
  }

  lemma NewRootSound<T>(root: Node<T>, h: nat, leaf: seq<T>, left: bool)
    requires Sound(root, h, left, true) && Wf(root, h, Indexable) && |leaf| == BRANCHING
    requires DeepestRoom(root, h) == 0 && RootAccepts(root, h)
    ensures Sound(AppendLeaf(root, h, leaf).0, h + 1, left, true)
  {
    var r, chain := AppendLeaf(root, h, leaf).0, Chain(h, leaf);
    PairContents(root, chain);
    ChainIsRadix(h, leaf);
    RadixIsWf(chain, h, Exact);
    NoRoomIsSound(root, h, left);
    CapMultiple(h + 1);
    assert Sound(chain, h, false, true);
    assert r.kids == [root] + [chain];
    SoundConcat([root], [chain], h, left, true);
    if r.table.None? {
      assert Radix(r, h + 1);
      ModOfSum(|Elements(root)|, |leaf|);
    }
  }

  /** The left operand of a concat after its tail was pushed down. */
  lemma AppendLeafShape<T>(root: Node<T>, h: nat, leaf: seq<T>, left: bool)
    requires Sound(root, h, left, true) && Wf(root, h, Indexable) && 1 <= |leaf| <= BRANCHING
    ensures var (r, h') := AppendLeaf(root, h, leaf);
            EdgeShape(r, h', left)
  {
    DeepestRoomBound(root, h);
    if DeepestRoom(root, h) > 0 {
      InsertShape(root, h, leaf, left);
    } else {
      var r := AppendLeaf(root, h, leaf).0;
      NoRoomIsSound(root, h, left);
      ChainShape(h, leaf);
      assert r.kids[..1] == [root];
      SoundOne(root, h, left, false);
    }
  }
}
