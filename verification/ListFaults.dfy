/**
 Runs of the list operations that come to an unsafe push and to an unsafe concat:
 after 1057 pushes, two slices leave a one-child node above a leaf of one element;
 and after a concat of 40 and 45 elements, a slice leaves a tree in a list of 12.
 */
module ListFaults {
  import opened Seqs
  import opened Nodes
  import opened Shifts
  import opened Edges
  import opened RightEdge
  import opened Lookup
  import opened Vectors
  import opened Slice
  import opened CutLists

  // ---------- lists that were only pushed to ----------

  /** No tables anywhere, and no more levels than needed. */
  ghost predicate PushedOnly<T>(v: Rrb<T>) {
    && Valid(v, Strong)
    && (v.root.Some? ==> Radix(v.root.value, v.height) && (v.height > 0 ==> |v.root.value.kids| >= 2))
  }

  /** A radix tree whose leaves are full stays one. */
  lemma AppendLeafRadix<T>(root: Node<T>, h: nat, leaf: seq<T>)
    requires Radix(root, h) && Wf(root, h, Indexable) && Sound(root, h, false, true) && |leaf| == BRANCHING
    requires h == 0 ==> |root.elems| == BRANCHING
    requires h > 0 ==> |root.kids| >= 2
    ensures var (r, h') := AppendLeaf(root, h, leaf);
            Radix(r, h') && h' > 0 && |r.kids| >= 2
  {
    DeepestRoomBound(root, h);
    SoundRootAccepts(root, h);
    if DeepestRoom(root, h) > 0 {
      InsertRadix(root, h, leaf);
    } else {
      ChainIsRadix(h, leaf);
    }
  }

  lemma PushKeepsPushedOnly<T>(v: Rrb<T>, elt: T)
    requires PushedOnly(v) && Valid(v, Indexable)
    ensures PushedOnly(PushOf(v, elt))
  {
    PushOfOk(v, elt);
    if v.tailLen == BRANCHING && v.root.Some? {
      AppendLeafRadix(v.root.value, v.height, v.tail);
    }
  }

  method PushAll<T>(xs: seq<T>) returns (v: Rrb<T>)
    ensures PushedOnly(v) && Valid(v, Indexable) && Contents(v) == xs && v == ListOf(xs)
  {
    hide ListOf;
    v := Empty();
    ListOfNone<T>();
    for i := 0 to |xs|
      invariant PushedOnly(v) && Valid(v, Indexable) && Contents(v) == xs[..i] && v == ListOf(xs[..i])
    {
      PushKeepsPushedOnly(v, xs[i]);
      assert xs[..i + 1] == xs[..i] + [xs[i]];
      ListOfSnoc(xs[..i], xs[i]);
      v := Push(v, xs[i]);
      ValidWeaken(v, Strong, Indexable);
    }
    assert xs[..|xs|] == xs;
  }

  lemma ListOfNone<T>()
    ensures ListOf<T>([]) == Empty()
  {}

  lemma ListOfSnoc<T>(xs: seq<T>, x: T)
    ensures ListOf(xs + [x]) == PushOf(ListOf(xs), x)
  {
    assert (xs + [x])[..|xs|] == xs;
  }

  // ---------- the tree of 33 leaves ----------

  const LEAVES: nat := 33

  /** A radix tree of 1056 elements has two children at height 2: a full one, and
      one above a single full leaf. */
  lemma ShapeOf33<T>(root: Node<T>, h: nat)
    requires Radix(root, h) && |Elements(root)| == LEAVES * BRANCHING && (h > 0 ==> |root.kids| >= 2)
    ensures h == 2 && root.Inner? && |root.kids| == 2 && root.table.None?
    ensures root.kids[0].Inner? && root.kids[1].Inner?
    ensures Radix(root.kids[0], 1) && |root.kids[0].kids| == BRANCHING && |Elements(root.kids[0])| == Cap(2)
    ensures Radix(root.kids[1], 1) && |root.kids[1].kids| == 1 && |Elements(root.kids[1])| == BRANCHING
    ensures Radix(root.kids[1].kids[0], 0) && root.kids[1].kids[0].Leaf?
        && root.kids[1].kids[0].elems == Elements(root.kids[1])
  {
    assert Cap(1) == 32 && Cap(2) == 1024 && Cap(3) == 32768;
    RadixIsWf(root, h, Indexable);
    SizeBounds(root, h, Indexable);
    if h > 0 {
      RadixSize(root, h);
      if h >= 3 { TallIsLarge(root, h); }
      if h == 2 {
        var last := root.kids[|root.kids| - 1];
        RadixIsWf(last, 1, Indexable);
        SizeBounds(last, 1, Indexable);
        assert Radix(root.kids[0], 1) && Radix(last, 1);
        FullNodeFullKids(root.kids[0], 1);
        LastOf33(last);
      }
    }
  }

  lemma TallIsLarge<T>(root: Node<T>, h: nat)
    requires h >= 3 && Radix(root, h) && |root.kids| >= 2
    ensures |Elements(root)| >= 32768
  {
    RadixSize(root, h);
    CapGrows(h);
    MulLeft(1, |root.kids| - 1, Cap(h));
  }

  lemma CapGrows(h: nat)
    requires h >= 3
    ensures Cap(h) >= 32768
  {
    if h > 3 { CapGrows(h - 1); }
  }

  lemma LastOf33<T>(last: Node<T>)
    requires Radix(last, 1) && |Elements(last)| == BRANCHING
    ensures |last.kids| == 1 && Radix(last.kids[0], 0) && last.kids[0].elems == Elements(last)
  {
    RadixSize(last, 1);
    assert Cap(1) == 32 && Radix(last.kids[|last.kids| - 1], 0);
    if |last.kids| == 1 {
      assert last.kids == [last.kids[0]];
      ElementsOfOne(last.kids[0]);
    }
  }

  // ---------- cutting it ----------

  const FIRST: nat := 1023

  /** A one-child node without a table above a leaf of one element. */
  function ShortChain<T>(x: T): Node<T> {
    Inner([Leaf([x])], None)
  }

  /** The last leaf of the first child, cut down to its last element. */
  lemma CutLastLeaf<T>(n: Node<T>)
    requires Radix(n, 1) && Wf(n, 1, Indexable) && |n.kids| == BRANCHING && |Elements(n)| == Cap(2)
    ensures CutLeft(n, 1, FIRST, true) == (ShortChain(Elements(n)[FIRST]), 1)
  {
    assert Cap(1) == 32 && Cap(2) == 1024;
    CutLeftLevel(n, 1, FIRST, true);
    CutLeftOk(n, 1, FIRST, true);
    var slot := SlotIn(n, 1, FIRST);
    assert slot == 31;
    var below := CutLeft(n.kids[slot], 0, FIRST - Cum(n.kids, slot), true).0;
    assert OneAbove(below) == Inner([below], None);
    ElementsOfOne(below);
    assert Elements(below) == Elements(n)[FIRST..] == [Elements(n)[FIRST]];
  }

  /** The list that is left. */
  function Rest<T>(xs: seq<T>): Rrb<T>
    requires |xs| == LEAVES * BRANCHING + 1
  {
    var last := Inner([Leaf(xs[FIRST + 1..LEAVES * BRANCHING])], None);
    Rrb(LEAVES + 1, 2, Some(Inner([ShortChain(xs[FIRST]), last], Some([1, LEAVES]))), [xs[LEAVES * BRANCHING]], 1)
  }

  lemma Entries33<T>(root: Node<T>)
    requires Wf(root, 2, Indexable) && |root.kids| == 2 && root.table.None?
    ensures LeftEntries(root, 2, FIRST, 0) == [1, 1025]
  {
    hide Wf;
    assert Cap(1) == 32 && Cap(2) == 1024;
  }

  lemma OnlyLeaf<T>(n: Node<T>, elems: seq<T>)
    requires Radix(n, 1) && |n.kids| == 1 && Radix(n.kids[0], 0) && n.kids[0].elems == elems
    ensures n == Inner([Leaf(elems)], None)
  {
    assert n.kids == [n.kids[0]];
  }

  /** The whole tree, cut there. */
  lemma CutTree33<T>(root: Node<T>)
    requires Radix(root, 2) && Wf(root, 2, Indexable) && |root.kids| >= 2
    requires |Elements(root)| == LEAVES * BRANCHING
    ensures var last := Inner([Leaf(Elements(root)[FIRST + 1..])], None);
            CutLeft(root, 2, FIRST, false)
            == (Inner([ShortChain(Elements(root)[FIRST]), last], Some([1, 1025])), 2)
  {
    hide *;
    ShapeOf33(root, 2);
    var first, last := root.kids[0], root.kids[1];
    RadixIsWf(first, 1, Indexable);
    ContentsOf33(root);
    SlotOf33(root);
    CutLeftLevel(root, 2, FIRST, false);
    CutLastLeaf(first);
    Entries33(root);
    OnlyLeaf(last, Elements(root)[FIRST + 1..]);
    assert [ShortChain(Elements(root)[FIRST])] + root.kids[1..] == [ShortChain(Elements(root)[FIRST]), last];
  }

  lemma SlotOf33<T>(root: Node<T>)
    requires root.Inner? && root.table.None?
    ensures SlotIn(root, 2, FIRST) == 0 && Cum(root.kids, 0) == 0
  {
    assert Cap(1) == 32 && Cap(2) == 1024 && root.kids[..0] == [];
  }

  lemma ContentsOf33<T>(root: Node<T>)
    requires root.Inner? && |root.kids| == 2 && |Elements(root.kids[0])| == Cap(2)
    ensures FIRST < |Elements(root.kids[0])| == FIRST + 1 <= |Elements(root)|
    ensures Elements(root.kids[0])[FIRST] == Elements(root)[FIRST]
    ensures Elements(root.kids[1]) == Elements(root)[FIRST + 1..]
  {
    assert Cap(1) == 32 && Cap(2) == 1024;
    assert root.kids == [root.kids[0], root.kids[1]];
    PairContents(root.kids[0], root.kids[1]);
  }

  /** The first slice: from the last element of the first child on. */
  lemma FirstSlice<T>(v: Rrb<T>)
    requires PushedOnly(v) && Valid(v, Indexable) && v.cnt == LEAVES * BRANCHING + 1
    ensures CutList(v, FIRST, v.cnt) == Rest(Contents(v))
  {
    var xs := Contents(v);
    TailOfOne(v);
    var root := v.root.value;
    ShapeOf33(root, v.height);
    CutTree33(root);
    assert xs[FIRST + 1..LEAVES * BRANCHING] == Elements(root)[FIRST + 1..];
    hide CutLeft, Elements;
    var cut := CutListLeftTree(v, FIRST);
    assert [1, 1025][1 := LEAVES] == [1, LEAVES] && v.tail == [v.tail[0]];
    assert cut == Rest(xs);
    assert CutListRight(v, v.cnt) == v;
  }

  /** With one more element than the tree holds, the tail is a single one. */
  lemma TailOfOne<T>(v: Rrb<T>)
    requires PushedOnly(v) && Valid(v, Indexable) && v.cnt == LEAVES * BRANCHING + 1
    ensures v.root.Some? && v.tailLen == 1 && |TreeElements(v)| == LEAVES * BRANCHING
    ensures Contents(v)[v.cnt - 1] == v.tail[0] && Contents(v)[..v.cnt - 1] == TreeElements(v)
  {}

  /** A cut inside the only leaf of a node. */
  lemma CutOnlyLeaf<T>(elems: seq<T>, right: nat)
    requires right < |elems| <= BRANCHING
    ensures Wf(Inner([Leaf(elems)], None), 1, Indexable) && Elements(Inner([Leaf(elems)], None)) == elems
    ensures CutRight(Inner([Leaf(elems)], None), 1, right, true) == (Inner([Leaf(elems[..right + 1])], None), 1)
  {
    var n := Inner([Leaf(elems)], None);
    assert Cap(1) == 32;
    ElementsOfOne(Leaf(elems));
    assert Radix(Leaf(elems), 0) && Radix(n, 1);
    CutRightLevel(n, 1, right, true);
    assert SlotIn(n, 1, right) == 0 && n.kids[..0] == [];
    assert CutRight(Leaf(elems), 0, right, true) == (Leaf(elems[..right + 1]), 0);
    assert CutRightNode(n, right, 0, Leaf(elems[..right + 1])) == Inner([Leaf(elems[..right + 1])], None);
  }

  /** The tree of the rest, cut at the right. */
  lemma CutRestTree<T>(root: Node<T>, x: T, elems: seq<T>, n: nat)
    requires root == Inner([ShortChain(x), Inner([Leaf(elems)], None)], Some([1, LEAVES]))
    requires |elems| == BRANCHING && 2 <= n <= LEAVES && Wf(root, 2, Indexable)
    ensures Elements(root) == [x] + elems
    ensures CutRight(root, 2, n - 1, false)
         == (Inner([ShortChain(x), Inner([Leaf(elems[..n - 1])], None)], Some([1, n])), 2)
  {
    var chain, last := root.kids[0], root.kids[1];
    var cut := Inner([Leaf(elems[..n - 1])], None);
    assert Cap(1) == 32 && Cap(2) == 1024;
    ElementsOfOne(Leaf([x]));
    CutOnlyLeaf(elems, n - 2);
    PairContents(chain, last);
    assert Scan([1, LEAVES], 0, n - 1) == Scan([1, LEAVES], 1, n - 1) == 1;
    assert SlotIn(root, 2, n - 1) == 1;
    assert root.kids[..1] == [chain];
    ElementsOfOne(chain);
    hide CutRight, Wf, Elements, ElementsOf, SlotIn;
    CutRightLevel(root, 2, n - 1, false);
    assert [chain] + [cut] == [chain, cut] && [1, LEAVES][..1] + [n] == [1, n];
  }

  /** The second slice, of at most 33 elements: the tree is the one-child node. */
  lemma SecondSlice<T>(xs: seq<T>, n: nat)
    requires |xs| == LEAVES * BRANCHING + 1 && 2 <= n <= LEAVES && Valid(Rest(xs), Indexable)
    ensures CutList(Rest(xs), 0, n) == Rrb(n, 1, Some(ShortChain(xs[FIRST])), xs[FIRST + 1..FIRST + n], n - 1)
  {
    var v := Rest(xs);
    var elems := xs[FIRST + 1..LEAVES * BRANCHING];
    var root := v.root.value;
    var last := Inner([Leaf(elems[..n - 1])], None);
    var cut := Inner([ShortChain(xs[FIRST]), last], Some([1, n]));
    CutRestTree(root, xs[FIRST], elems, n);
    CutRightOk(root, 2, n - 1, false);
    assert LastLeaf(Leaf(elems[..n - 1])) == elems[..n - 1] && LastLeaf(last) == elems[..n - 1];
    assert LastLeaf(cut) == elems[..n - 1] == xs[FIRST + 1..FIRST + n];
    assert Promoted(cut, 2) == (Some(ShortChain(xs[FIRST])), 1) by {
      CutOnlyLeaf(elems[..n - 1], 0);
      assert DropLeaf(last, 1, n - 1).None?;
    }
    hide CutRight, Promoted, Wf, Elements, LastLeaf, DropLeaf;
    assert CutListRight(v, n) == Rrb(n, 1, Some(ShortChain(xs[FIRST])), xs[FIRST + 1..FIRST + n], n - 1);
  }

  // ---------- the runs ----------

  /** 1057 pushes and two slices. */
  method ShortChainRun<T>(xs: seq<T>, n: nat) returns (v: Rrb<T>)
    requires |xs| == LEAVES * BRANCHING + 1 && 2 <= n <= LEAVES
    ensures v == Rrb(n, 1, Some(ShortChain(xs[FIRST])), xs[FIRST + 1..FIRST + n], n - 1)
    ensures Valid(v, Exact) && Valid(v, Indexable) && Contents(v) == xs[FIRST..FIRST + n]
  {
    hide CutList, PushedOnly;
    var all := PushAll(xs);
    PushedIsValid(all);
    FirstSlice(all);
    var rest := SliceList(all, FIRST, all.cnt);
    SecondSlice(xs, n);
    v := SliceList(rest, 0, n);
    assert xs[FIRST..][..n] == xs[FIRST..FIRST + n];
  }

  lemma PushedIsValid<T>(v: Rrb<T>)
    requires PushedOnly(v)
    ensures Valid(v, Exact) && v.cnt == |Contents(v)|
  {
    ValidWeaken(v, Strong, Exact);
  }

  /** One more push loses an element: the second one is absent afterwards. */
  method UnsafePushRun<T>(xs: seq<T>, elt: T) returns (v: Rrb<T>, r: Rrb<T>)
    requires |xs| == LEAVES * BRANCHING + 1
    ensures Valid(v, Exact) && Valid(v, Indexable) && !PushSafe(v) && r == PushOf(v, elt)
    ensures Contents(r) == xs[FIRST..FIRST + LEAVES] + [elt] && HeaderOk(r) && r.cnt == |Contents(r)|
    ensures NthOf(r, 1) == None
  {
    v := ShortChainRun(xs, LEAVES);
    ElementsOfOne(Leaf([xs[FIRST]]));
    assert Accepts(ShortChain(xs[FIRST]), 1) <==> false;
    r := Push(v, elt);
    PushLookups(v, elt);
  }

  /** A concat with a list that has a root drops the tree: an element is missing,
      though it is counted. */
  method DroppedTreeRun<T>(xs: seq<T>, ys: seq<T>) returns (r: Rrb<T>)
    requires |xs| == LEAVES * BRANCHING + 1 && |ys| > BRANCHING
    ensures r.cnt == 20 + |ys| && Contents(r) == xs[FIRST + 1..FIRST + 20] + ys
  {
    var v := ShortChainRun(xs, 20);
    var w := PushAll(ys);
    PushedIsValid(w);
    assert w.root.Some?;
    r := Concat(v, w, Exact);
  }

  // ---------- from short lists ----------

  const FROM: nat := 30
  const TO: nat := 42

  /** A list of 33 to 64 elements that was only pushed to has a leaf as its tree. */
  lemma OneLeaf<T>(v: Rrb<T>)
    requires PushedOnly(v) && Valid(v, Indexable) && BRANCHING < v.cnt <= 2 * BRANCHING
    ensures v.root.Some? && v.height == 0 && v.root.value == Leaf(Contents(v)[..BRANCHING])
    ensures v.tail == Contents(v)[BRANCHING..]
  {
    var root, h := v.root.value, v.height;
    if h > 0 { TwoLeavesAtLeast(root, h); }
    assert Contents(v)[..BRANCHING] == root.elems;
  }

  lemma TwoLeavesAtLeast<T>(root: Node<T>, h: nat)
    requires h > 0 && Radix(root, h) && Sound(root, h, false, true) && |root.kids| >= 2
    ensures |Elements(root)| >= 2 * BRANCHING
  {
    RadixSize(root, h);
    CapAtLeast(h);
    MulLeft(1, |root.kids| - 1, Cap(h));
    RadixIsWf(root, h, Indexable);
    KidsWf(root, h, Indexable);
    SizeBounds(root.kids[|root.kids| - 1], h - 1, Indexable);
  }

  lemma CapAtLeast(h: nat)
    requires h > 0
    ensures Cap(h) >= BRANCHING
  {
    if h > 1 { CapAtLeast(h - 1); }
  }

  /** A list with a tree of three leaves, the one in the middle short. */
  ghost predicate ShortMiddle<T>(v: Rrb<T>, a: seq<T>, b: seq<T>, c: seq<T>) {
    && Valid(v, Indexable) && v.root.Some? && v.height == 1
    && v.root.value.Inner? && v.root.value.table.Some? && v.root.value.kids == [Leaf(a), Leaf(b), Leaf(c)]
    && |a| == BRANCHING && |b| == 8 && |c| == BRANCHING
  }

  lemma ThreeSizes<T>(v: Rrb<T>, a: seq<T>, b: seq<T>, c: seq<T>)
    requires ShortMiddle(v, a, b, c)
    ensures var t := v.root.value.table.value; |t| >= 3 && t[0] == 32 && t[1] == 40 && t[2] >= 72
    ensures Cum(v.root.value.kids, 2) == 40
    ensures Elements(v.root.value) == a + b + c && v.cnt == 72 + v.tailLen
  {
    var kids := v.root.value.kids;
    assert kids[..1] == [Leaf(a)] && kids[..2] == [Leaf(a), Leaf(b)] && kids[..3] == kids;
    ElementsOfOne(Leaf(a));
    PairContents(Leaf(a), Leaf(b));
    ElementsOfSnoc(kids[..2], Leaf(c));
    assert kids == kids[..2] + [Leaf(c)];
  }

  /** Its right cut: two leaves, and a tail of two elements. */
  lemma RightOfThree<T>(v: Rrb<T>, a: seq<T>, b: seq<T>, c: seq<T>)
    requires ShortMiddle(v, a, b, c)
    ensures CutListRight(v, TO) == Rrb(TO, 1, Some(Inner([Leaf(a), Leaf(b)], Some([32, 40, TO]))), c[..2], 2)
  {
    var root := v.root.value;
    var t := root.table.value;
    ThreeSizes(v, a, b, c);
    assert Cap(1) == 32 && Cap(2) == 1024;
    assert Scan(t, 1, TO - 1) == Scan(t, 2, TO - 1) == 2;
    assert SlotIn(root, 1, TO - 1) == 2;
    CutRightLevel(root, 1, TO - 1, false);
    assert CutRight(Leaf(c), 0, 1, true) == (Leaf(c[..2]), 0);
    CutRightOk(root, 1, TO - 1, false);
    var cut := CutRight(root, 1, TO - 1, false).0;
    assert root.kids[..2] == [Leaf(a), Leaf(b)] && t[..2] == [32, 40];
    assert root.kids[..2] + [Leaf(c[..2])] == [Leaf(a), Leaf(b), Leaf(c[..2])];
    assert t[..2] + [TO] == [32, 40, TO];
    assert cut == Inner([Leaf(a), Leaf(b), Leaf(c[..2])], Some([32, 40, TO]));
    assert LastLeaf(Leaf(c[..2])) == c[..2] && LastLeaf(cut) == c[..2];
    assert DropLeaf(Leaf(c[..2]), 0, 2).None?;
    assert cut.kids[..2] == [Leaf(a), Leaf(b)];
  }

  /** The left cut of that: still a tree, though there are 12 elements. */
  lemma SliceOfThree<T>(v: Rrb<T>, a: seq<T>, b: seq<T>, c: seq<T>)
    requires ShortMiddle(v, a, b, c)
    ensures var r := CutList(v, FROM, TO); r.root.Some? && r.cnt == TO - FROM && r.tail == c[..2]
  {
    CutListRightOk(v, TO, Indexable);
    RightOfThree(v, a, b, c);
    var w := CutListRight(v, TO);
    CutListLeftOk(w, FROM);
    var root := w.root.value;
    assert Cap(1) == 32 && Cap(2) == 1024;
    CutListLeftTreeOk(w, FROM);
    assert Scan([32, 40, TO], 0, FROM) == 0;
    assert SlotIn(root, 1, FROM) == 0;
    CutLeftLevel(root, 1, FROM, false);
    assert CutListLeftTree(w, FROM).height == 1;
  }

  /** Three lists of 40, 45 and 33 elements, as literals make them: a concat, a slice of
      12 elements, and another concat, which drops the tree.  The list counts 45 elements
      and holds 35, and the first one is not the first one of the slice. */
  method LiteralsRun<T>(xs: seq<T>, ys: seq<T>, zs: seq<T>) returns (cut: Rrb<T>, right: Rrb<T>, r: Rrb<T>)
    requires |xs| == 40 && |ys| == 45 && |zs| == 33
    ensures Valid(cut, Exact) && Valid(right, Strong) && Contents(cut) == (xs + ys)[FROM..TO] && Contents(right) == zs
    ensures Valid(cut, Indexable) && DropsLeftTree(cut, right) && !ConcatSafe(cut, right)
    ensures r.cnt == 45 && Contents(r) == ys[..2] + zs
    ensures HeaderOk(r) && NthOf(r, 0) == Some(ys[0])
    ensures right == ListOf(zs) && r == ConcatOf(cut, right) && ConcatSafe(ListOf(xs), ListOf(ys))
    ensures var all := ConcatOf(ListOf(xs), ListOf(ys));
            Valid(all, Strong) && Valid(all, Indexable) && cut == CutList(all, FROM, TO)
  {
    hide PushedOnly, CutList, Valid, Contents, ListOf, ConcatOf;
    var v := PushAll(xs);
    var w := PushAll(ys);
    right := PushAll(zs);
    PushedIsStrong(v);
    PushedIsStrong(w);
    PushedIsStrong(right);
    OneLeaf(v);
    OneLeaf(w);
    OneLeaf(right);
    var all := Concat(v, w, Strong);
    StrongConcatSafe(v, w);
    JoinedShape(all, v, w, xs, ys);
    cut := SliceList(all, FROM, TO);
    r := Concat(cut, right, Exact);
    FirstAfterDrop(r, cut, right);
  }

  lemma PushedIsStrong<T>(v: Rrb<T>)
    requires PushedOnly(v)
    ensures Valid(v, Strong) && Valid(v, Exact) && Valid(v, Indexable) && v.cnt == |Contents(v)|
  {
    ValidWeaken(v, Strong, Exact);
    ValidWeaken(v, Strong, Indexable);
  }

  lemma JoinedShape<T>(all: Rrb<T>, v: Rrb<T>, w: Rrb<T>, xs: seq<T>, ys: seq<T>)
    requires |xs| == 40 && |ys| == 45 && Valid(all, Strong) && Valid(all, Indexable) && Contents(all) == xs + ys
    requires v.root == Some(Leaf(xs[..BRANCHING])) && v.tail == xs[BRANCHING..] && w.root == Some(Leaf(ys[..BRANCHING]))
    requires ThreeLeaves(all, v, w)
    ensures Valid(all, Exact) && ShortMiddle(all, xs[..BRANCHING], xs[BRANCHING..], ys[..BRANCHING])
    ensures var r := CutList(all, FROM, TO); r.root.Some? && r.cnt == TO - FROM && r.tail == ys[..2]
  {
    ValidWeaken(all, Strong, Exact);
    SliceOfThree(all, xs[..BRANCHING], xs[BRANCHING..], ys[..BRANCHING]);
  }

  /** The lookup in what is left after the tree was dropped. */
  lemma FirstAfterDrop<T>(r: Rrb<T>, cut: Rrb<T>, right: Rrb<T>)
    requires right.root.Some? && |cut.tail| == cut.tailLen == 2 && right.cnt == 33 && Valid(right, Indexable)
    requires r.cnt == 45 && Contents(r) == cut.tail + Contents(right)
    requires Valid(r.(cnt := cut.tailLen + right.cnt), Exact) && r.tailLen == |r.tail|
    ensures HeaderOk(r) && NthOf(r, 0) == Some(cut.tail[0])
  {
    var fixed := r.(cnt := 35);
    ValidWeaken(fixed, Exact, Indexable);
    NthIsIndexing(fixed, 0);
    assert Contents(fixed) == Contents(r);
  }
}
