/**
 What the operations keep of a tree: size tables are exact, and a node without a
 table is filled as far as its place demands.  Off the right edge it is full; on
 the right edge its leaves are.  Only at the left edge, where lists are cut, may
 there be a chain of one-child nodes above a short leaf.
 */
module Edges {
  import opened Seqs
  import opened Nodes

  /** One-child nodes without tables above a leaf. */
  predicate Thin<T>(n: Node<T>) {
    match n
    case Leaf(_) => true
    case Inner(kids, table) => |kids| == 1 && table.None? && Thin(kids[0])
  }

  /** Every leaf of a radix node of height h is full, and so is the node itself
      when nodes follow it. */
  ghost predicate Filled<T>(n: Node<T>, h: nat, right: bool) {
    |Elements(n)| % BRANCHING == 0 && (right || |Elements(n)| == Cap(h + 1))
  }

  /** A node of height h at its place: `left` allows a short leaf at the left edge
      of the tree, `right` says that the node lies on the right edge. */
  ghost predicate Sound<T>(n: Node<T>, h: nat, left: bool, right: bool)
    decreases h, 0
  {
    if h == 0 then n.Leaf? && 1 <= |n.elems| <= BRANCHING
    else
      && n.Inner? && 1 <= |n.kids| <= BRANCHING
      && match n.table
         case None => Radix(n, h) && ((left && Thin(n)) || Filled(n, h, right))
         case Some(t) => TableOk(t, n.kids, Exact) && SoundAll(n.kids, h - 1, left, right)
  }

  /** Neighbours of height h, of which the first may lie on the left edge and the
      last on the right edge. */
  ghost predicate SoundAll<T>(kids: seq<Node<T>>, h: nat, left: bool, right: bool)
    decreases h, 1
  {
    forall k :: 0 <= k < |kids| ==> Sound(kids[k], h, left && k == 0, right && k == |kids| - 1)
  }

  lemma {:induction false} SoundIsWf<T>(n: Node<T>, h: nat, left: bool, right: bool, tier: Tier)
    requires Sound(n, h, left, right)
    ensures Wf(n, h, tier)
    decreases h
  {
    if h > 0 && n.table.Some? {
      forall k | 0 <= k < |n.kids| ensures Wf(n.kids[k], h - 1, tier) {
        SoundIsWf(n.kids[k], h - 1, left && k == 0, right && k == |n.kids| - 1, tier);
      }
    }
  }

  lemma SoundAllWf<T>(kids: seq<Node<T>>, h: nat, left: bool, right: bool, tier: Tier)
    requires SoundAll(kids, h, left, right)
    ensures WfAll(kids, h, tier)
  {
    forall k | 0 <= k < |kids| ensures Wf(kids[k], h, tier) {
      SoundIsWf(kids[k], h, left && k == 0, right && k == |kids| - 1, tier);
    }
  }

  /** A place at an edge demands less. */
  lemma {:induction false} SoundAnywhere<T>(n: Node<T>, h: nat, left: bool, right: bool, left': bool, right': bool)
    requires Sound(n, h, left, right) && (left ==> left') && (right ==> right')
    ensures Sound(n, h, left', right')
    decreases h
  {
    if h > 0 && n.table.Some? {
      forall k | 0 <= k < |n.kids|
        ensures Sound(n.kids[k], h - 1, left' && k == 0, right' && k == |n.kids| - 1)
      {
        SoundAnywhere(n.kids[k], h - 1, left && k == 0, right && k == |n.kids| - 1,
                      left' && k == 0, right' && k == |n.kids| - 1);
      }
    }
  }

  lemma SoundAllAnywhere<T>(kids: seq<Node<T>>, h: nat, left: bool, right: bool, left': bool, right': bool)
    requires SoundAll(kids, h, left, right) && (left ==> left') && (right ==> right')
    ensures SoundAll(kids, h, left', right')
  {
    forall k | 0 <= k < |kids| ensures Sound(kids[k], h, left' && k == 0, right' && k == |kids| - 1) {
      SoundAnywhere(kids[k], h, left && k == 0, right && k == |kids| - 1, left' && k == 0, right' && k == |kids| - 1);
    }
  }

  /** The children of a sound node are sound at their places. */
  lemma SoundKids<T>(n: Node<T>, h: nat, left: bool, right: bool)
    requires h > 0 && Sound(n, h, left, right)
    ensures n.Inner? && 1 <= |n.kids| <= BRANCHING && SoundAll(n.kids, h - 1, left, right)
  {
    if n.table.None? {
      forall k | 0 <= k < |n.kids| ensures Sound(n.kids[k], h - 1, left && k == 0, right && k == |n.kids| - 1) {
        RadixKidSound(n, h, left, right, k);
      }
    }
  }

  lemma RadixKidSound<T>(n: Node<T>, h: nat, left: bool, right: bool, k: nat)
    requires h > 0 && Sound(n, h, left, right) && n.table.None? && k < |n.kids|
    ensures Sound(n.kids[k], h - 1, left && k == 0, right && k == |n.kids| - 1)
  {
    var kid := n.kids[k];
    assert Radix(kid, h - 1);
    CapMultiple(h);
    if h > 1 && k == |n.kids| - 1 && !(left && Thin(n)) {
      RadixKidMultiple(n, h, k);
      if !right { FullNodeFullKids(n, h); }
    }
    if left && Thin(n) { assert kid == n.kids[0]; }
  }

  /** In a full radix node every child is full. */
  lemma FullNodeFullKids<T>(n: Node<T>, h: nat)
    requires h > 0 && Radix(n, h) && |Elements(n)| == Cap(h + 1)
    ensures |n.kids| == BRANCHING && |Elements(n.kids[|n.kids| - 1])| == Cap(h)
  {
    RadixSize(n, h);
    RadixIsWf(n, h, Indexable);
    KidsWf(n, h, Indexable);
    SizeBounds(n.kids[|n.kids| - 1], h - 1, Indexable);
    assert Cap(h + 1) == BRANCHING * Cap(h);
    if |n.kids| < BRANCHING { MulLeft(|n.kids|, BRANCHING - 1, Cap(h)); }
  }

  /** A full radix node is sound anywhere. */
  lemma FullIsSound<T>(n: Node<T>, h: nat, left: bool, right: bool)
    requires Radix(n, h) && (h > 0 ==> |Elements(n)| == Cap(h + 1))
    ensures Sound(n, h, left, right)
  {
    CapMultiple(h + 1);
  }

  /** A thin node holds one leaf. */
  lemma {:induction false} ThinSize<T>(n: Node<T>, h: nat)
    requires Radix(n, h) && Thin(n)
    ensures 1 <= |Elements(n)| <= BRANCHING
    ensures h > 0 ==> Elements(n) == Elements(n.kids[0])
    decreases h
  {
    if h > 0 {
      assert n.kids == [n.kids[0]];
      ElementsOfOne(n.kids[0]);
      ThinSize(n.kids[0], h - 1);
    }
  }

  lemma SoundConcat<T>(a: seq<Node<T>>, b: seq<Node<T>>, h: nat, left: bool, right: bool)
    requires SoundAll(a, h, left, right && b == []) && SoundAll(b, h, left && a == [], right)
    ensures SoundAll(a + b, h, left, right)
  {
    var all := a + b;
    forall k | 0 <= k < |all| ensures Sound(all[k], h, left && k == 0, right && k == |all| - 1) {
      if k < |a| { assert all[k] == a[k]; } else { assert all[k] == b[k - |a|]; }
    }
  }

  lemma SoundParts<T>(a: seq<Node<T>>, b: seq<Node<T>>, h: nat, left: bool, right: bool)
    requires SoundAll(a + b, h, left, right)
    ensures SoundAll(a, h, left, right && b == []) && SoundAll(b, h, left && a == [], right)
  {
    forall k | 0 <= k < |a| ensures Sound(a[k], h, left && k == 0, right && b == [] && k == |a| - 1) {
      assert (a + b)[k] == a[k];
    }
    forall k | 0 <= k < |b| ensures Sound(b[k], h, left && a == [] && k == 0, right && k == |b| - 1) {
      assert (a + b)[|a| + k] == b[k];
    }
  }

  lemma SoundOne<T>(n: Node<T>, h: nat, left: bool, right: bool)
    requires Sound(n, h, left, right)
    ensures SoundAll([n], h, left, right)
  {}
}
