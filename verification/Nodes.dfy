/**
 The tree nodes of the persistent list (a relaxed radix balanced vector), their
 contents and their invariants.  A height counts levels above the leaves; the
 C code stores it as a shift of RRB_BITS bits per level.
 */
module Nodes {
  import opened Seqs

  /** RRB_BRANCHING, 1 << RRB_BITS. */
  const BRANCHING: nat := 32

  /** A leaf holds elements; an internal node holds children and, when some
      child is not completely filled, a table of cumulative sizes.  The table
      may be longer than the node that carries it. */
  datatype Node<T> =
    | Leaf(elems: seq<T>)
    | Inner(kids: seq<Node<T>>, table: Option<seq<nat>>)

  /** The `len` field both kinds of node share. */
  function Slots<T>(n: Node<T>): nat {
    match n
    case Leaf(elems) => |elems|
    case Inner(kids, _) => |kids|
  }

  /** 1 << (RRB_BITS * h): the elements below one slot of a full node of height h. */
  function Cap(h: nat): (c: nat)
    ensures c >= 1
  {
    if h == 0 then 1 else BRANCHING * Cap(h - 1)
  }

  function Elements<T>(n: Node<T>): seq<T>
    decreases n, 1
  {
    match n
    case Leaf(elems) => elems
    case Inner(kids, _) => ElementsOf(kids)
  }

  function ElementsOf<T>(kids: seq<Node<T>>): seq<T>
    decreases kids, 0
  {
    if kids == [] then [] else Elements(kids[0]) + ElementsOf(kids[1..])
  }

  /** How many elements the first i children hold: what a size table records. */
  function Cum<T>(kids: seq<Node<T>>, i: nat): nat
    requires i <= |kids|
  {
    |ElementsOf(kids[..i])|
  }

  /** A node below which no table exists: radix indexing finds every element
      because every child but the last is completely filled. */
  ghost predicate Radix<T>(n: Node<T>, h: nat)
    decreases h
  {
    if h == 0 then n.Leaf? && 1 <= |n.elems| <= BRANCHING
    else
      && n.Inner? && n.table.None? && 1 <= |n.kids| <= BRANCHING
      && (forall k :: 0 <= k < |n.kids| ==> Radix(n.kids[k], h - 1))
      && (forall k :: 0 <= k < |n.kids| - 1 ==> |Elements(n.kids[k])| == Cap(h))
  }

  /** How much is known of a list.  Indexable: every element can be looked up; the
      last entry of a size table may overstate.  Exact: size tables are exact, and
      nodes without a table are filled as far as their place in the tree demands.
      Strong: furthermore a full tail can always be appended.  On the tables alone
      the last two agree. */
  datatype Tier = Indexable | Exact | Strong

  ghost predicate TableOk<T>(t: seq<nat>, kids: seq<Node<T>>, tier: Tier) {
    && 1 <= |kids| <= |t|
    && (forall i :: 0 <= i < |kids| - 1 ==> t[i] == Cum(kids, i + 1))
    && t[|kids| - 1] >= Cum(kids, |kids|)
    && (tier != Indexable ==> t[|kids| - 1] == Cum(kids, |kids|))
  }

  /** The shape of a node of height h: all leaves at the same depth, 1 to 32
      slots everywhere, and each level either radix indexed or tabled. */
  ghost predicate Wf<T>(n: Node<T>, h: nat, tier: Tier)
    decreases h, 0
  {
    if h == 0 then n.Leaf? && 1 <= |n.elems| <= BRANCHING
    else
      && n.Inner? && 1 <= |n.kids| <= BRANCHING
      && match n.table
         case None => Radix(n, h)
         case Some(t) => TableOk(t, n.kids, tier) && WfAll(n.kids, h - 1, tier)
  }

  ghost predicate WfAll<T>(kids: seq<Node<T>>, h: nat, tier: Tier)
    decreases h, 1
  {
    forall k :: 0 <= k < |kids| ==> Wf(kids[k], h, tier)
  }

  // ---------- contents of children ----------

  lemma {:induction false} ElementsOfConcat<T>(a: seq<Node<T>>, b: seq<Node<T>>)
    ensures ElementsOf(a + b) == ElementsOf(a) + ElementsOf(b)
  {
    if a == [] {
      assert a + b == b;
    } else {
      assert (a + b)[1..] == a[1..] + b;
      ElementsOfConcat(a[1..], b);
    }
  }

  lemma ElementsOfOne<T>(n: Node<T>)
    ensures ElementsOf([n]) == Elements(n)
  {
    assert ElementsOf([n]) == Elements(n) + ElementsOf([]);
  }

  lemma ElementsOfSnoc<T>(a: seq<Node<T>>, n: Node<T>)
    ensures ElementsOf(a + [n]) == ElementsOf(a) + Elements(n)
  {
    ElementsOfConcat(a, [n]);
    ElementsOfOne(n);
  }

  /** The contents split at slot i: before it, its own, after it. */
  lemma ElementsOfAt<T>(kids: seq<Node<T>>, i: nat)
    requires i < |kids|
    ensures ElementsOf(kids) == ElementsOf(kids[..i]) + Elements(kids[i]) + ElementsOf(kids[i + 1..])
    ensures Cum(kids, i + 1) == Cum(kids, i) + |Elements(kids[i])|
    ensures Cum(kids, |kids|) == |ElementsOf(kids)|
  {
    hide ElementsOf;
    assert kids[..i + 1] == kids[..i] + [kids[i]];
    ElementsOfSnoc(kids[..i], kids[i]);
    assert kids == kids[..i + 1] + kids[i + 1..];
    ElementsOfConcat(kids[..i + 1], kids[i + 1..]);
    assert kids[..|kids|] == kids;
  }

  lemma {:induction false} CumMonotone<T>(kids: seq<Node<T>>, i: nat, j: nat)
    requires i <= j <= |kids|
    ensures Cum(kids, i) <= Cum(kids, j)
    decreases j
  {
    if i < j {
      ElementsOfAt(kids, j - 1);
      CumMonotone(kids, i, j - 1);
    }
  }

  /** When the first i children are completely filled, they hold i * Cap elements. */
  lemma {:induction false} CumFull<T>(kids: seq<Node<T>>, i: nat, c: nat)
    requires i <= |kids|
    requires forall k :: 0 <= k < i ==> |Elements(kids[k])| == c
    ensures Cum(kids, i) == i * c
  {
    if i > 0 {
      ElementsOfAt(kids, i - 1);
      CumFull(kids, i - 1, c);
      MulStep(i, c);
    }
  }

  lemma {:induction false} CumAtMost<T>(kids: seq<Node<T>>, i: nat, c: nat)
    requires i <= |kids|
    requires forall k :: 0 <= k < i ==> |Elements(kids[k])| <= c
    ensures Cum(kids, i) <= i * c
  {
    if i > 0 {
      ElementsOfAt(kids, i - 1);
      CumAtMost(kids, i - 1, c);
      MulStep(i, c);
    }
  }

  // ---------- facts about the invariant ----------

  /** A radix node is well formed at every tier. */
  lemma RadixIsWf<T>(n: Node<T>, h: nat, tier: Tier)
    requires Radix(n, h)
    ensures Wf(n, h, tier)
  {}

  lemma CapMultiple(h: nat)
    requires h > 0
    ensures Cap(h) % BRANCHING == 0
  {}

  lemma MulMod(i: nat, c: nat)
    requires c % BRANCHING == 0
    ensures (i * c) % BRANCHING == 0
  {
    var d := c / BRANCHING;
    assert c == BRANCHING * d;
    MulThree(i, d);
  }

  lemma MulThree(i: nat, d: nat)
    ensures i * (BRANCHING * d) == BRANCHING * (i * d)
  {}

  /** Every child of a well-formed node is well formed, whichever way the node is indexed. */
  lemma KidsWf<T>(n: Node<T>, h: nat, tier: Tier)
    requires h > 0 && Wf(n, h, tier)
    ensures WfAll(n.kids, h - 1, tier)
  {
    if n.table.None? {
      forall k | 0 <= k < |n.kids|
        ensures Wf(n.kids[k], h - 1, tier)
      {
        RadixIsWf(n.kids[k], h - 1, tier);
      }
    }
  }

  lemma LastKidWf<T>(n: Node<T>, h: nat, tier: Tier)
    requires h > 0 && Wf(n, h, tier)
    ensures 1 <= |n.kids| && Wf(n.kids[|n.kids| - 1], h - 1, tier)
  {
    KidsWf(n, h, tier);
  }

  /** Below a radix node holding a multiple of 32 elements, so does every inner child. */
  lemma RadixKidMultiple<T>(n: Node<T>, h: nat, k: nat)
    requires h > 1 && Radix(n, h) && k < |n.kids| && |Elements(n)| % BRANCHING == 0
    ensures |Elements(n.kids[k])| % BRANCHING == 0
  {
    CapMultiple(h);
    var last := |n.kids| - 1;
    if k == last {
      RadixSize(n, h);
      MulMod(last, Cap(h));
      ModOfSum(last * Cap(h), |Elements(n.kids[last])|);
    }
  }

  /** A radix node's size: all children but the last are full. */
  lemma RadixSize<T>(n: Node<T>, h: nat)
    requires h > 0 && Radix(n, h)
    ensures Cum(n.kids, |n.kids| - 1) == (|n.kids| - 1) * Cap(h)
    ensures |Elements(n)| == (|n.kids| - 1) * Cap(h) + |Elements(n.kids[|n.kids| - 1])|
  {
    var last := |n.kids| - 1;
    ElementsOfAt(n.kids, last);
    CumFull(n.kids, last, Cap(h));
    assert ElementsOf(n.kids[last + 1..]) == [];
  }

  lemma ModOfSum(a: nat, b: nat)
    requires a % BRANCHING == 0
    ensures (a + b) % BRANCHING == b % BRANCHING
  {}

  lemma MulStep(i: nat, c: nat)
    requires i > 0
    ensures i * c == (i - 1) * c + c
  {}

  lemma MulLeft(a: nat, b: nat, c: nat)
    requires a <= b
    ensures a * c <= b * c
  {}

  /** A well-formed node of height h holds between 1 and 32^(h+1) elements. */
  lemma {:induction false} SizeBounds<T>(n: Node<T>, h: nat, tier: Tier)
    requires Wf(n, h, tier)
    ensures 1 <= |Elements(n)| <= Cap(h + 1)
    decreases h
  {
    if h > 0 {
      KidsWf(n, h, tier);
      forall k | 0 <= k < |n.kids|
        ensures 1 <= |Elements(n.kids[k])| <= Cap(h)
      {
        SizeBounds(n.kids[k], h - 1, tier);
      }
      CumAtMost(n.kids, |n.kids|, Cap(h));
      ElementsOfAt(n.kids, 0);
      assert Cap(h + 1) == BRANCHING * Cap(h);
      MulLeft(|n.kids|, BRANCHING, Cap(h));
    } else {
      assert Cap(1) == 32 * Cap(0);
    }
  }

  /** The tiers form a chain. */
  lemma {:induction false} Weaken<T>(n: Node<T>, h: nat, tier: Tier, weaker: Tier)
    requires Wf(n, h, tier)
    requires weaker == Indexable || tier != Indexable
    ensures Wf(n, h, weaker)
    decreases h
  {
    if h > 0 && n.table.Some? {
      forall k | 0 <= k < |n.kids|
        ensures Wf(n.kids[k], h - 1, weaker)
      {
        Weaken(n.kids[k], h - 1, tier, weaker);
      }
    }
  }

  // ---------- sizes and tables ----------

  /** find_shift: the height, read off the leftmost path. */
  function FindHeight<T>(n: Node<T>): nat {
    match n
    case Leaf(_) => 0
    case Inner(kids, _) => if kids == [] then 0 else 1 + FindHeight(kids[0])
  }

  lemma {:induction false} FindHeightIsHeight<T>(n: Node<T>, h: nat, tier: Tier)
    requires Wf(n, h, tier)
    ensures FindHeight(n) == h
    decreases h
  {
    if h > 0 {
      KidsWf(n, h, tier);
      FindHeightIsHeight(n.kids[0], h - 1, tier);
    }
  }

  /** size_sub_trie: the number of elements, from the table when there is one,
      from the radix layout otherwise. */
  function SizeSubTrie<T>(n: Node<T>, h: nat): (size: int)
    requires Wf(n, h, Exact)
    decreases h
  {
    if h > 0 then
      match n.table
      case None =>
        var len := |n.kids|;
        LastKidWf(n, h, Exact);
        (len - 1) * Cap(h) + SizeSubTrie(n.kids[len - 1], h - 1)
      case Some(t) => t[|n.kids| - 1]
    else |n.elems|
  }

  lemma {:induction false} SizeSubTrieIsSize<T>(n: Node<T>, h: nat)
    requires Wf(n, h, Exact)
    ensures SizeSubTrie(n, h) == |Elements(n)|
    decreases h
  {
    if h > 0 {
      var last := |n.kids| - 1;
      if n.table.None? {
        KidsWf(n, h, Exact);
        SizeSubTrieIsSize(n.kids[last], h - 1);
        RadixSize(n, h);
      } else {
        ElementsOfAt(n.kids, last);
      }
    }
  }

  /** A node with the exact table of its children. */
  function Sized<T>(kids: seq<Node<T>>): Node<T> {
    Inner(kids, Some(seq(|kids|, i requires 0 <= i < |kids| => Cum(kids, i + 1))))
  }

  /** set_sizes: give a node whose children have height h - 1 an exact table. */
  method SetSizes<T>(kids: seq<Node<T>>, h: nat) returns (n: Node<T>)
    requires h > 0 && 1 <= |kids| <= BRANCHING && WfAll(kids, h - 1, Exact)
    ensures n == Sized(kids) && TableOk(n.table.value, kids, Exact)
    ensures Wf(n, h, Exact)
    ensures Elements(n) == ElementsOf(kids)
  {
    var sum := 0;
    var table: seq<nat> := [];
    for i := 0 to |kids|
      invariant |table| == i && sum == Cum(kids, i)
      invariant forall k :: 0 <= k < i ==> table[k] == Cum(kids, k + 1)
    {
      SizeSubTrieIsSize(kids[i], h - 1);
      ElementsOfAt(kids, i);
      sum := sum + SizeSubTrie(kids[i], h - 1);
      table := table + [sum];
    }
    n := Inner(kids, Some(table));
    assert table == Sized(kids).table.value;
  }
}
