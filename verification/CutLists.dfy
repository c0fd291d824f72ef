/**
 What is known of a list from how it was made, proved of the list operations: which
 concats are safe, and what is known of their results and of slices.
 */
module CutLists {
  import opened Seqs
  import opened Nodes
  import opened Edges
  import opened ListHistory
  import opened RightEdge
  import opened Lookup
  import opened Vectors
  import opened Slice

  /** A list with the tree invariant; a whole one has the strong form. */
  ghost predicate Held<T>(v: Rrb<T>, cut: bool) {
    && Valid(v, Exact) && Valid(v, Indexable) && HeaderOk(v) && v.cnt == |Contents(v)|
    && (!cut ==> Valid(v, Strong))
  }

  lemma HeldStrong<T>(v: Rrb<T>)
    requires Valid(v, Strong)
    ensures Held(v, false)
  {
    ValidWeaken(v, Strong, Exact);
    ValidWeaken(v, Strong, Indexable);
    NthIsIndexing(v, 0);
  }

  lemma HeldExact<T>(v: Rrb<T>)
    requires Valid(v, Exact)
    ensures Held(v, true)
  {
    ValidWeaken(v, Exact, Indexable);
    NthIsIndexing(v, 0);
  }

  /** An empty list is whole. */
  lemma EmptyIsWhole<T>(v: Rrb<T>, cut: bool)
    requires Held(v, cut) && v.cnt == 0
    ensures Held(v, false)
  {
    RootedIsNotEmpty(v, Exact);
  }

  /** The left operand needs a tree that accepts a leaf, or the right one a tree and
      the left one more than 32 elements. */
  lemma JoinSafeIsConcatSafe<T>(l: Rrb<T>, cut: bool, r: Rrb<T>, cut': bool)
    requires Held(l, cut) && Held(r, cut') && JoinSafe(l.cnt, cut, r.cnt)
    ensures ConcatSafe(l, r)
  {
    if !cut { StrongIsSafe(l); }
  }

  /** owl_list_concat. */
  method Join<T>(l: Rrb<T>, ghost cut: bool, r: Rrb<T>, ghost cut': bool) returns (x: Rrb<T>)
    requires Held(l, cut) && Held(r, cut') && ConcatSafe(l, r)
    ensures Held(x, JoinCut(l.cnt, cut, r.cnt, cut')) && Contents(x) == Contents(l) + Contents(r)
    ensures x == ConcatOf(l, r)
  {
    ghost var tier := if JoinCut(l.cnt, cut, r.cnt, cut') then Exact else Strong;
    if l.cnt == 0 { EmptyIsWhole(l, cut); }
    if r.cnt == 0 { EmptyIsWhole(r, cut'); }
    RootedIsNotEmpty(l, Exact);
    RootedIsNotEmpty(r, Exact);
    x := Concat(l, r, tier);
    if tier == Strong { HeldStrong(x); } else { HeldExact(x); }
  }

  /** A slice is as whole as it is known to be. */
  lemma SliceHeld<T>(v: Rrb<T>, cut: bool, from: nat, to: nat)
    requires Held(v, cut)
    ensures Held(CutList(v, from, to), SliceCut(v.cnt, cut, from, to))
  {
    CutListRightOk(v, to, Exact);
    CutListRightOk(v, to, Indexable);
    CutListLeftOk(CutListRight(v, to), from);
    var r := CutList(v, from, to);
    HeldExact(r);
    if from >= Min(to, v.cnt) {
      EmptyIsWhole(r, true);
    } else if !SliceCut(v.cnt, cut, from, to) {
      if v.cnt <= BRANCHING { RootlessSlice(v, from, to); } else { FrontSlice(v, to); }
      HeldStrong(r);
    }
  }

  /** The front of a strong list is strong when more than 32 elements are left. */
  lemma FrontSlice<T>(v: Rrb<T>, to: nat)
    requires Valid(v, Strong) && Valid(v, Indexable) && to > BRANCHING && v.cnt > BRANCHING
    ensures Valid(CutList(v, 0, to), Strong)
  {
    CutListRightOk(v, to, Indexable);
    CutListRightOk(v, to, Strong);
    var r := CutListRight(v, to);
    assert r.cnt > BRANCHING;
    RefilledOk(r);
  }

  /** A slice of a list without a tree has none. */
  lemma RootlessSlice<T>(v: Rrb<T>, from: nat, to: nat)
    requires Valid(v, Strong) && Valid(v, Indexable) && v.cnt <= BRANCHING
    ensures Valid(CutList(v, from, to), Strong)
  {
    CutListRightOk(v, to, Indexable);
    CutListLeftOk(CutListRight(v, to), from);
    assert v.root.None?;
    assert CutListRight(v, to).root.None?;
  }

  /** owl_list_slice. */
  method Cut<T>(v: Rrb<T>, ghost cut: bool, from: nat, to: nat) returns (x: Rrb<T>)
    requires Held(v, cut)
    ensures Held(x, SliceCut(v.cnt, cut, from, to)) && Contents(x) == SliceOf(Contents(v), from, to)
    ensures x == CutList(v, from, to)
  {
    SliceHeld(v, cut, from, to);
    x := SliceList(v, from, to);
  }

  // ---------- lists that are pushed together ----------

  lemma EmptyIsHeld<T>()
    ensures Held(Empty<T>(), false) && Contents(Empty<T>()) == []
  {
    HeldStrong(Empty<T>());
  }

  /** What pushing some elements one by one makes. */
  ghost function ListOf<T>(s: seq<T>): (v: Rrb<T>)
    ensures Valid(v, Strong) && Valid(v, Indexable) && Contents(v) == s
  {
    if s == [] then EmptyIsHeld<T>(); Empty()
    else
      var n := |s| - 1;
      PushOfOk(ListOf(s[..n]), s[n]);
      ValidWeaken(PushOf(ListOf(s[..n]), s[n]), Strong, Indexable);
      PushOf(ListOf(s[..n]), s[n])
  }

  /** op_list: the elements are pushed one by one. */
  method PushedList<T>(s: seq<T>) returns (v: Rrb<T>)
    ensures v == ListOf(s) && Held(v, false) && Contents(v) == s
  {
    hide Valid, Contents;
    v := Empty();
    EmptyIsHeld<T>();
    for i := 0 to |s|
      invariant Held(v, false) && Contents(v) == s[..i] && v == ListOf(s[..i])
    {
      assert s[..i + 1][..i] == s[..i];
      v := Push(v, s[i]);
      HeldStrong(v);
      assert s[..i + 1] == s[..i] + [s[i]];
    }
    assert s[..|s|] == s;
  }
}
