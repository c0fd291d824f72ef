/**
 Reading and replacing one element.  Radix nodes are descended by the digits of
 the index; tabled nodes by a guess that is scanned upwards.  A read past the
 end of a node or of a table counts as absent.
 */
module Lookup {
  import opened Seqs
  import opened Nodes
  import opened Shifts
  import opened Paths
  import opened Edges
  import opened RightEdge
  import opened Vectors

  /** The scan of sized_pos: the first entry from `start` on above the index. */
  function Scan(t: seq<nat>, start: nat, index: nat): (slot: nat)
    decreases |t| - start
  {
    if start < |t| && t[start] <= index then Scan(t, start + 1, index) else start
  }

  /** The child to descend into and the index to use there. */
  function Step<T>(n: Node<T>, h: nat, index: nat): (nat, nat)
    requires n.Inner?
  {
    match n.table
    case None => (Digit(index, h), index)
    case Some(t) =>
      var slot := Scan(t, Shr(index, h), index);
      (slot, if 1 <= slot <= |t| && t[slot - 1] <= index then index - t[slot - 1] else index)
  }

  /** What the loop of rrb_nth reads below a node. */
  function Descend<T>(n: Node<T>, h: nat, index: nat): Option<T>
    decreases h
  {
    match n
    case Leaf(elems) => if index % BRANCHING < |elems| then Some(elems[index % BRANCHING]) else None
    case Inner(kids, _) =>
      if h == 0 then None
      else
        var (slot, index') := Step(n, h, index);
        if slot < |kids| then Descend(kids[slot], h - 1, index') else None
  }

  /** A header whose fields rrb_nth can follow. */
  predicate HeaderOk<T>(v: Rrb<T>) {
    v.tailLen == |v.tail| <= v.cnt && (v.cnt > v.tailLen ==> v.root.Some?)
  }

  /** What rrb_nth returns, on any list. */
  function NthOf<T>(v: Rrb<T>, index: nat): Option<T>
    requires HeaderOk(v)
  {
    if index >= v.cnt then None
    else if v.cnt - v.tailLen <= index then Some(v.tail[index - (v.cnt - v.tailLen)])
    else Descend(v.root.value, v.height, index)
  }

  /** sized_pos: the slot found by scanning, and the index below it. */
  method SizedPos<T>(n: Node<T>, h: nat, index: nat) returns (slot: nat, index': nat)
    requires n.Inner? && n.table.Some?
    ensures (slot, index') == Step(n, h, index)
  {
    var t := n.table.value;
    slot := Shr(index, h);
    while slot < |t| && t[slot] <= index
      invariant Scan(t, slot, index) == Scan(t, Shr(index, h), index)
      decreases |t| - slot
    {
      slot := slot + 1;
    }
    index' := index;
    if slot != 0 && slot <= |t| && t[slot - 1] <= index {
      index' := index - t[slot - 1];
    }
  }

  /** rrb_nth: the tail directly, or a descent through the tree. */
  method Nth<T>(v: Rrb<T>, index: nat) returns (r: Option<T>)
    requires HeaderOk(v)
    ensures r == NthOf(v, index)
    ensures Valid(v, Indexable) ==> r == if index < v.cnt then Some(Contents(v)[index]) else None
  {
    if Valid(v, Indexable) { NthIsIndexing(v, index); }
    if index >= v.cnt {
      return None;
    }
    var tailOffset := v.cnt - v.tailLen;
    if tailOffset <= index {
      return Some(v.tail[index - tailOffset]);
    }
    var current := v.root.value;
    var i: nat := index;
    var h: nat := v.height;
    while h > 0 && current.Inner?
      invariant Descend(current, h, i) == Descend(v.root.value, v.height, index)
      decreases h
    {
      var slot: nat;
      if current.table.None? {
        slot := Digit(i, h);
      } else {
        slot, i := SizedPos(current, h, i);
      }
      if slot >= |current.kids| {
        return None;
      }
      current := current.kids[slot];
      h := h - 1;
    }
    match current
    case Leaf(elems) => r := if i % BRANCHING < |elems| then Some(elems[i % BRANCHING]) else None;
    case Inner(_, _) => r := None;
  }

  // ---------- correctness ----------

  /** The index a node sees: above tables it is exact, in radix nodes its higher
      digits may still be those of the ancestors. */
  ghost predicate Addresses<T>(n: Node<T>, h: nat, index: nat, local: nat) {
    && local == index % Cap(h + 1) < |Elements(n)|
    && (n.Inner? && n.table.Some? ==> index == local)
  }

  lemma {:induction false} ScanFinds(t: seq<nat>, start: nat, index: nat, slot: nat)
    requires start <= slot < |t|
    requires forall k :: start <= k < slot ==> t[k] <= index
    requires index < t[slot]
    ensures Scan(t, start, index) == slot
    decreases slot - start
  {
    if start < slot { ScanFinds(t, start + 1, index, slot); }
  }

  /** The slot holding the element of a given local index. */
  lemma {:induction false} SlotOf<T>(kids: seq<Node<T>>, local: nat) returns (slot: nat)
    requires local < |ElementsOf(kids)|
    ensures slot < |kids| && Cum(kids, slot) <= local < Cum(kids, slot + 1)
  {
    slot := 0;
    assert kids[..|kids|] == kids;
    while Cum(kids, slot + 1) <= local
      invariant slot < |kids| && Cum(kids, slot) <= local
      decreases |kids| - slot
    {
      slot := slot + 1;
    }
  }

  /** The scan: the guess index >> shift never exceeds the right slot. */
  lemma TabledStep<T>(n: Node<T>, h: nat, index: nat)
    requires h > 0 && Wf(n, h, Indexable) && n.table.Some? && index < |Elements(n)|
    ensures var (slot, index') := Step(n, h, index);
            && slot < |n.kids| && Cum(n.kids, slot) <= index < Cum(n.kids, slot + 1)
            && index' == index - Cum(n.kids, slot)
  {
    var t, kids := n.table.value, n.kids;
    var slot := SlotOf(kids, index);
    GuessIsLow(kids, h, index, slot);
    ScanStops(t, kids, Shr(index, h), index, slot);
    assert kids[..0] == [];
  }

  lemma GuessIsLow<T>(kids: seq<Node<T>>, h: nat, index: nat, slot: nat)
    requires h > 0 && WfAll(kids, h - 1, Indexable)
    requires slot < |kids| && index < Cum(kids, slot + 1)
    ensures Shr(index, h) <= slot
  {
    forall k | 0 <= k < |kids| ensures |Elements(kids[k])| <= Cap(h) { SizeBounds(kids[k], h - 1, Indexable); }
    CumAtMost(kids, slot + 1, Cap(h));
    ShiftBelow(index, Cap(h), slot);
  }

  lemma ShiftBelow(index: nat, c: nat, slot: nat)
    requires c >= 1 && index < (slot + 1) * c
    ensures index / c <= slot
  {
    MulOrder(slot, index / c, c);
    assert index / c * c <= index && (slot + 1) * c == slot * c + c;
  }

  lemma ScanStops<T>(t: seq<nat>, kids: seq<Node<T>>, guess: nat, index: nat, slot: nat)
    requires TableOk(t, kids, Indexable)
    requires guess <= slot < |kids| && Cum(kids, slot) <= index < Cum(kids, slot + 1)
    ensures Scan(t, guess, index) == slot
  {
    forall k | guess <= k < slot ensures t[k] <= index { CumMonotone(kids, k + 1, slot); }
    assert index < t[slot];
    ScanFinds(t, guess, index, slot);
  }

  /** One step of the descent stays on the element looked for. */
  lemma StepOk<T>(n: Node<T>, h: nat, index: nat, local: nat)
    requires h > 0 && Wf(n, h, Indexable) && Addresses(n, h, index, local)
    ensures var (slot, index') := Step(n, h, index);
            && slot < |n.kids| && Wf(n.kids[slot], h - 1, Indexable)
            && Cum(n.kids, slot) <= local < Cum(n.kids, slot + 1)
            && Addresses(n.kids[slot], h - 1, index', local - Cum(n.kids, slot))
  {
    hide ElementsOf, TableOk;
    KidsWf(n, h, Indexable);
    if n.table.Some? {
      TabledStep(n, h, index);
      var (slot, index') := Step(n, h, index);
      ElementsOfAt(n.kids, slot);
      SizeBounds(n.kids[slot], h - 1, Indexable);
      SmallShift(index', h);
    } else {
      RadixStep(n, h, index, local);
    }
  }

  /** The digit selects the child because all children but the last are full. */
  lemma RadixStep<T>(n: Node<T>, h: nat, index: nat, local: nat)
    requires h > 0 && Radix(n, h) && WfAll(n.kids, h - 1, Indexable)
    requires local == index % Cap(h + 1) < |Elements(n)|
    ensures var slot := Digit(index, h);
            && slot < |n.kids|
            && Cum(n.kids, slot) <= local < Cum(n.kids, slot + 1)
            && Addresses(n.kids[slot], h - 1, index, local - Cum(n.kids, slot))
  {
    RadixSize(n, h);
    var slot, len, c := Digit(index, h), |n.kids|, Cap(h);
    SizeBounds(n.kids[len - 1], h - 1, Indexable);
    DigitBelow(index, h, local, len);
    CumFull(n.kids, slot, c);
    ElementsOfAt(n.kids, slot);
    if slot == len - 1 {
      assert n.kids[..len] == n.kids;
    }
    assert n.kids[slot].Inner? ==> n.kids[slot].table.None?;
  }

  lemma DigitBelow(index: nat, h: nat, local: nat, len: nat)
    requires len >= 1 && local == index % Cap(h + 1) < (len - 1) * Cap(h) + Cap(h)
    ensures Digit(index, h) < len
    ensures local == Digit(index, h) * Cap(h) + index % Cap(h)
    ensures index % Cap(h) < Cap(h)
  {
    DigitOfRemainder(index, h);
    var slot, c := Digit(index, h), Cap(h);
    assert local == slot * c + local % c;
    MulOrder(len - 1, slot, c);
  }

  /** The descent finds the element at the local index. */
  lemma {:induction false} DescendIsIndexing<T>(n: Node<T>, h: nat, index: nat, local: nat)
    requires Wf(n, h, Indexable) && Addresses(n, h, index, local)
    ensures Descend(n, h, index) == Some(Elements(n)[local])
    decreases h
  {
    if h > 0 {
      StepOk(n, h, index, local);
      var (slot, index') := Step(n, h, index);
      DescendIsIndexing(n.kids[slot], h - 1, index', local - Cum(n.kids, slot));
      ElementsOfAt(n.kids, slot);
    } else {
      assert Cap(1) == 32 * Cap(0);
    }
  }

  /** rrb_nth is indexing, on any mix of tabled and untabled levels. */
  lemma NthIsIndexing<T>(v: Rrb<T>, index: nat)
    requires Valid(v, Indexable)
    ensures HeaderOk(v)
    ensures NthOf(v, index) == if index < v.cnt then Some(Contents(v)[index]) else None
  {
    if index < v.cnt - v.tailLen {
      SizeBounds(v.root.value, v.height, Indexable);
      SmallShift(index, v.height + 1);
      DescendIsIndexing(v.root.value, v.height, index, index);
    }
  }

  // ---------- pushes ----------

  /** A short leaf at the end of a one-child chain: the leaf hung beside it is not
      found at its first index. */
  lemma {:induction false} ThinLoses<T>(n: Node<T>, h: nat, leaf: seq<T>)
    requires h > 0 && Radix(n, h) && Thin(n) && Wf(n, h, Indexable) && |Elements(n)| < BRANCHING
    ensures DeepestRoom(n, h) == h
    ensures Descend(Insert(n, h, h, leaf), h, |Elements(n)|) == None
    decreases h
  {
    KidsWf(n, h, Indexable);
    ThinSize(n, h);
    CapAtLeast(h);
    SmallShift(|Elements(n)|, h);
    if h > 1 { ThinLoses(n.kids[0], h - 1, leaf); }
  }

  /** Where a sound tree does not accept a leaf, the leaf's first element becomes
      absent. */
  lemma {:induction false} InsertLoses<T>(n: Node<T>, h: nat, leaf: seq<T>, left: bool)
    requires Sound(n, h, left, true) && Wf(n, h, Indexable) && |leaf| == BRANCHING
    requires 1 <= DeepestRoom(n, h) <= h && !Accepts(n, h)
    ensures left && |Elements(n)| < BRANCHING
    ensures Descend(Insert(n, h, DeepestRoom(n, h), leaf), h, |Elements(n)|) == None
    decreases h
  {
    KidsWf(n, h, Indexable);
    LastKidSound(n, h, left);
    if n.table.None? {
      ThinSize(n, h);
      ThinLoses(n, h, leaf);
    } else {
      var last := n.kids[|n.kids| - 1];
      assert n.kids[..|n.kids|] == n.kids;
      InsertLoses(last, h - 1, leaf, left && |n.kids| == 1);
      assert n.kids == [last];
      ElementsOfOne(last);
      CapAtLeast(h);
      SmallShift(|Elements(n)|, h);
    }
  }

  /** A sound inner node without room has a table or is full. */
  lemma RoomlessAccepts<T>(n: Node<T>, h: nat)
    requires h > 0 && Sound(n, h, true, true) && Wf(n, h, Indexable) && DeepestRoom(n, h) == 0
    ensures RootAccepts(n, h)
  {
    if n.table.None? { LastIsFull(n, h); }
  }

  /** So it is with the whole tree. */
  lemma AppendLeafLoses<T>(root: Node<T>, h: nat, leaf: seq<T>)
    requires Sound(root, h, true, true) && Wf(root, h, Indexable) && |leaf| == BRANCHING && !RootAccepts(root, h)
    ensures var (r, h') := AppendLeaf(root, h, leaf);
            Descend(r, h', |Elements(root)|) == None
  {
    DeepestRoomBound(root, h);
    if DeepestRoom(root, h) > 0 {
      InsertLoses(root, h, leaf, true);
    } else if h > 0 {
      RoomlessAccepts(root, h);
    } else {
      assert Cap(1) == 32 * Cap(0);
      SmallShift(|Elements(root)|, 1);
    }
  }

  /** After a push every element is found, and nothing else, exactly when the list
      was safe to push to. */
  lemma PushLookups<T>(v: Rrb<T>, elt: T)
    requires Valid(v, Exact) && Valid(v, Indexable)
    ensures var r := PushOf(v, elt);
            && HeaderOk(r)
            && ((forall i: nat :: NthOf(r, i) == if i <= v.cnt then Some((Contents(v) + [elt])[i]) else None)
                <==> PushSafe(v))
            && (!PushSafe(v) ==> NthOf(r, |TreeElements(v)|) == None)
  {
    var r := PushOf(v, elt);
    PushOfOk(v, elt);
    if PushSafe(v) {
      forall i: nat ensures NthOf(r, i) == if i <= v.cnt then Some((Contents(v) + [elt])[i]) else None {
        NthIsIndexing(r, i);
      }
    } else {
      AppendLeafLoses(v.root.value, v.height, v.tail);
      assert NthOf(r, |TreeElements(v)|) == None;
    }
  }

  // ---------- concat ----------

  /** Every lookup agrees with a sequence. */
  ghost predicate LooksUp<T>(v: Rrb<T>, s: seq<T>) {
    HeaderOk(v) && forall i: nat :: NthOf(v, i) == if i < |s| then Some(s[i]) else None
  }

  lemma {:induction false} ScanPast(t: seq<nat>, start: nat, index: nat)
    requires forall k :: 0 <= k < |t| ==> t[k] <= index
    ensures Scan(t, start, index) >= |t|
    decreases |t| - start
  {
    if start < |t| { ScanPast(t, start + 1, index); }
  }

  /** Nothing is found past the end of a node with an exact table. */
  lemma PastTheEnd<T>(kids: seq<Node<T>>, h: nat, index: nat)
    requires index >= |ElementsOf(kids)|
    ensures Descend(Sized(kids), h, index) == None
  {
    var t := Sized(kids).table.value;
    assert kids[..|kids|] == kids;
    forall k | 0 <= k < |t| ensures t[k] <= index {
      CumMonotone(kids, k + 1, |kids|);
    }
    ScanPast(t, Shr(index, h), index);
  }

  /** After the left tree was dropped, the last lookup before the tail finds nothing. */
  lemma DropLoses<T>(left: Rrb<T>, right: Rrb<T>, r: Rrb<T>)
    requires Valid(left, Exact) && Valid(left, Indexable) && Valid(right, Exact) && DropsLeftTree(left, right)
    requires r == ConcatOf(left, right) && r.cnt == left.cnt + right.cnt && r.tail == right.tail
    requires r.tailLen == right.tailLen && r.root.Some? && Contents(r) == left.tail + Contents(right)
    requires r.root.value.Inner? && r.root.value == Sized(r.root.value.kids)
    ensures HeaderOk(r) && r.tailLen < r.cnt == left.cnt + right.cnt && NthOf(r, r.cnt - r.tailLen - 1) == None
  {
    hide ConcatOf;
    RootedIsNotEmpty(left, Exact);
    RootedIsNotEmpty(right, Exact);
    assert |TreeElements(r)| == left.tailLen + |TreeElements(right)| by {
      assert |Contents(r)| == |left.tail| + |Contents(right)|;
    }
    PastTheEnd(r.root.value.kids, r.height, r.cnt - r.tailLen - 1);
  }

  /** A leaf that the left tree does not accept loses its first element. */
  lemma HungLoses<T>(left: Rrb<T>, right: Rrb<T>, r: Rrb<T>, leaf: seq<T>)
    requires Valid(left, Exact) && Valid(left, Indexable) && left.root.Some? && |leaf| == BRANCHING
    requires !RootAccepts(left.root.value, left.height) && HeaderOk(r) && r.root.Some?
    requires (r.root.value, r.height) == AppendLeaf(left.root.value, left.height, leaf)
    requires r.cnt == |TreeElements(left)| + |leaf| + r.tailLen
    ensures NthOf(r, |TreeElements(left)|) == None
  {
    AppendLeafLoses(left.root.value, left.height, leaf);
  }

  /** rrb_concat: after it every lookup agrees with the left list followed by the right
      one exactly when the two were safe to concat. */
  method ConcatLookups<T>(left: Rrb<T>, right: Rrb<T>) returns (r: Rrb<T>)
    requires Valid(left, Exact) && Valid(right, Exact)
    ensures Valid(left, Indexable) && r == ConcatOf(left, right) && HeaderOk(r)
    ensures LooksUp(r, Contents(left) + Contents(right)) <==> ConcatSafe(left, right)
  {
    ValidWeaken(left, Exact, Indexable);
    ValidWeaken(right, Exact, Indexable);
    r := Concat(left, right, Exact);
    RootedIsNotEmpty(left, Exact);
    RootedIsNotEmpty(right, Exact);
    if ConcatSafe(left, right) {
      ghost var all := Contents(left) + Contents(right);
      NthIsIndexing(r, 0);
      forall i: nat ensures NthOf(r, i) == if i < |all| then Some(all[i]) else None { NthIsIndexing(r, i); }
    } else {
      UnsafeLoses(left, right, r);
    }
  }

  lemma UnsafeLoses<T>(left: Rrb<T>, right: Rrb<T>, r: Rrb<T>)
    requires Valid(left, Exact) && Valid(left, Indexable) && Valid(right, Exact) && !ConcatSafe(left, right)
    requires r == ConcatOf(left, right)
    requires DropsLeftTree(left, right) ==> Contents(r) == left.tail + Contents(right)
    ensures HeaderOk(r) && !LooksUp(r, Contents(left) + Contents(right))
  {
    RootedIsNotEmpty(left, Exact);
    RootedIsNotEmpty(right, Exact);
    var all := Contents(left) + Contents(right);
    if DropsLeftTree(left, right) {
      DropLoses(left, right, r);
      assert r.cnt - r.tailLen - 1 < |all|;
    } else {
      var cut := BRANCHING - left.tailLen;
      var leaf := left.tail + right.tail[..cut];
      assert left.tailLen == BRANCHING ==> leaf == left.tail;
      HungLoses(left, right, r, leaf);
      assert |TreeElements(left)| < |all|;
    }
  }

  // ---------- update ----------

  /** The tree with one element replaced, sharing everything off the path. */
  function SetAt<T>(n: Node<T>, h: nat, index: nat, local: nat, elt: T): Node<T>
    requires Wf(n, h, Indexable) && Addresses(n, h, index, local)
    decreases h
  {
    match n
    case Leaf(elems) => Leaf(elems[index % BRANCHING := elt])
    case Inner(kids, table) =>
      StepOk(n, h, index, local);
      var (slot, index') := Step(n, h, index);
      Inner(kids[slot := SetAt(kids[slot], h - 1, index', local - Cum(kids, slot), elt)], table)
  }

  lemma ReplaceKid<T>(kids: seq<Node<T>>, slot: nat, child: Node<T>)
    requires slot < |kids| && |Elements(child)| == |Elements(kids[slot])|
    ensures ElementsOf(kids[slot := child])
         == ElementsOf(kids[..slot]) + Elements(child) + ElementsOf(kids[slot + 1..])
    ensures forall i :: 0 <= i <= |kids| ==> Cum(kids[slot := child], i) == Cum(kids, i)
  {
    var kids' := kids[slot := child];
    forall i | 0 <= i <= |kids|
      ensures Cum(kids', i) == Cum(kids, i)
      ensures i == slot ==> kids'[..i] == kids[..i]
    {
      if i > slot {
        ElementsOfAt(kids[..i], slot);
        ElementsOfAt(kids'[..i], slot);
        assert kids'[..i][..slot] == kids[..i][..slot] && kids'[..i][slot + 1..] == kids[..i][slot + 1..];
      } else {
        assert kids'[..i] == kids[..i];
      }
    }
    ElementsOfAt(kids', slot);
    assert kids'[..slot] == kids[..slot] && kids'[slot + 1..] == kids[slot + 1..];
  }

  lemma {:induction false} SetAtOk<T>(n: Node<T>, h: nat, index: nat, local: nat, elt: T, tier: Tier)
    requires Wf(n, h, tier) && Wf(n, h, Indexable) && Addresses(n, h, index, local)
    ensures Elements(SetAt(n, h, index, local, elt)) == Elements(n)[local := elt]
    ensures Wf(SetAt(n, h, index, local, elt), h, tier)
    decreases h
  {
    hide ElementsOf, TableOk, Radix;
    if h == 0 {
      assert Cap(1) == 32 * Cap(0);
    } else {
      KidsWf(n, h, tier);
      StepOk(n, h, index, local);
      var (slot, index') := Step(n, h, index);
      var local' := local - Cum(n.kids, slot);
      var child := SetAt(n.kids[slot], h - 1, index', local', elt);
      SetAtOk(n.kids[slot], h - 1, index', local', elt, tier);
      ReplaceKid(n.kids, slot, child);
      ElementsOfAt(n.kids, slot);
      UpdateMiddle(ElementsOf(n.kids[..slot]), Elements(n.kids[slot]), ElementsOf(n.kids[slot + 1..]), local, elt);
      ReplaceWf(n, h, slot, child, tier);
    }
  }

  lemma UpdateMiddle<T>(a: seq<T>, b: seq<T>, c: seq<T>, i: nat, elt: T)
    requires |a| <= i < |a| + |b|
    ensures (a + b + c)[i := elt] == a + b[i - |a| := elt] + c
  {}

  /** Exchanging a child for one of the same size and kind keeps a node well formed. */
  lemma ReplaceWf<T>(n: Node<T>, h: nat, slot: nat, child: Node<T>, tier: Tier)
    requires h > 0 && Wf(n, h, tier) && slot < |n.kids| && Wf(child, h - 1, tier)
    requires |Elements(child)| == |Elements(n.kids[slot])|
    requires h > 1 ==> n.kids[slot].Inner? && child.table.None? == n.kids[slot].table.None?
    ensures Wf(Inner(n.kids[slot := child], n.table), h, tier)
  {
    hide ElementsOf, TableOk;
    ReplaceKid(n.kids, slot, child);
    ElementsOfAt(n.kids, slot);
    if n.table.Some? {
      ReplaceTableOk(n.kids, n.table.value, slot, child, tier);
    } else {
      assert Cum(n.kids[slot := child], |n.kids|) == Cum(n.kids, |n.kids|);
      assert n.kids[slot := child][..|n.kids|] == n.kids[slot := child] && n.kids[..|n.kids|] == n.kids;
      assert h > 1 ==> Radix(n.kids[slot], h - 1);
      ReplaceRadix(n, h, slot, child, tier);
    }
  }

  lemma ReplaceTableOk<T>(kids: seq<Node<T>>, t: seq<nat>, slot: nat, child: Node<T>, tier: Tier)
    requires slot < |kids| && TableOk(t, kids, tier)
    requires forall i :: 0 <= i <= |kids| ==> Cum(kids[slot := child], i) == Cum(kids, i)
    ensures TableOk(t, kids[slot := child], tier)
  {
    hide ElementsOf;
  }

  lemma ReplaceRadix<T>(n: Node<T>, h: nat, slot: nat, child: Node<T>, tier: Tier)
    requires h > 0 && n.Inner? && n.table.None? && Wf(n, h, tier) && slot < |n.kids| && Wf(child, h - 1, tier)
    requires |Elements(child)| == |Elements(n.kids[slot])|
    requires |ElementsOf(n.kids[slot := child])| == |Elements(n)|
    requires h > 1 ==> child.table.None?
    ensures Wf(Inner(n.kids[slot := child], None), h, tier)
  {
    hide ElementsOf;
    assert Radix(n.kids[slot], h - 1);
    assert Radix(child, h - 1);
  }

  /** A sound tree stays sound. */
  lemma {:induction false} SetAtSound<T>(n: Node<T>, h: nat, index: nat, local: nat, elt: T, left: bool, right: bool)
    requires Sound(n, h, left, right) && Wf(n, h, Indexable) && Addresses(n, h, index, local)
    ensures Sound(SetAt(n, h, index, local, elt), h, left, right)
    ensures Thin(n) ==> Thin(SetAt(n, h, index, local, elt))
    decreases h
  {
    hide ElementsOf, TableOk, Radix, Cum;
    SetAtOk(n, h, index, local, elt, Indexable);
    if h == 0 {
      assert Cap(1) == 32 * Cap(0);
    } else {
      SoundKids(n, h, left, right);
      StepOk(n, h, index, local);
      var (slot, index') := Step(n, h, index);
      var local' := local - Cum(n.kids, slot);
      var child := SetAt(n.kids[slot], h - 1, index', local', elt);
      SetAtSound(n.kids[slot], h - 1, index', local', elt, left && slot == 0, right && slot == |n.kids| - 1);
      SetAtOk(n.kids[slot], h - 1, index', local', elt, Indexable);
      if n.table.Some? {
        ReplaceKid(n.kids, slot, child);
        ReplaceTableOk(n.kids, n.table.value, slot, child, Exact);
        ReplaceSound(n.kids, h - 1, slot, child, left, right);
      }
    }
  }

  lemma ReplaceSound<T>(kids: seq<Node<T>>, h: nat, slot: nat, child: Node<T>, left: bool, right: bool)
    requires SoundAll(kids, h, left, right) && slot < |kids|
    requires Sound(child, h, left && slot == 0, right && slot == |kids| - 1)
    ensures SoundAll(kids[slot := child], h, left, right)
  {}

  /** rrb_update: copy the path to the element and replace it there. */
  method Update<T>(v: Rrb<T>, index: nat, elt: T, ghost tier: Tier) returns (r: Option<Rrb<T>>)
    requires Valid(v, tier)
    ensures r.Some? <==> index < v.cnt
    ensures r.Some? ==> Contents(r.value) == Contents(v)[index := elt] && Valid(r.value, tier)
  {
    hide SetAt, ElementsOf, Radix, TableOk;
    if index >= v.cnt {
      return None;
    }
    var tailOffset := v.cnt - v.tailLen;
    if tailOffset <= index {
      r := Some(v.(tail := v.tail[index - tailOffset := elt]));
      assert Contents(r.value) == Contents(v)[index := elt];
      return;
    }
    ValidWeaken(v, tier, Indexable);
    SizeBounds(v.root.value, v.height, Indexable);
    SmallShift(index, v.height + 1);
    SetAtOk(v.root.value, v.height, index, index, elt, Indexable);
    if tier != Indexable { SetAtSound(v.root.value, v.height, index, index, elt, tier == Exact, true); }
    var root := UpdateTree(v.root.value, v.height, index, elt);
    r := Some(v.(root := Some(root)));
    assert Contents(r.value) == Contents(v)[index := elt];
  }

  /** The loop of rrb_update: clone the nodes on the path, then the leaf. */
  method UpdateTree<T>(root: Node<T>, height: nat, index: nat, elt: T) returns (r: Node<T>)
    requires Wf(root, height, Indexable) && Addresses(root, height, index, index)
    ensures r == SetAt(root, height, index, index, elt)
  {
    hide ElementsOf, TableOk, Radix;
    var path: seq<Frame<T>> := [];
    var current := root;
    var i: nat, h: nat := index, height;
    ghost var local: nat := index;
    while h > 0
      invariant FramesOk(path)
      invariant Wf(current, h, Indexable) && Addresses(current, h, i, local)
      invariant Plug(path, SetAt(current, h, i, local, elt)) == SetAt(root, height, index, index, elt)
      decreases h
    {
      StepOk(current, h, i, local);
      var slot: nat;
      if current.table.None? {
        slot := Digit(i, h);
      } else {
        slot, i := SizedPos(current, h, i);
      }
      ghost var local': nat := local - Cum(current.kids, slot);
      var frame := Frame(current.kids, current.table, slot);
      PlugSnoc(path, frame, SetAt(current.kids[slot], h - 1, i, local', elt));
      path := path + [frame];
      current := current.kids[slot];
      local := local';
      h := h - 1;
    }
    r := Plug(path, Leaf(current.elems[i % BRANCHING := elt]));
  }
}
