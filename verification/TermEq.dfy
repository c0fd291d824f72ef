/**
 Term equality: a word comparison first, then by tag.  False and true carry the
 tags of tuples and strings without pointing anywhere; comparing them with a
 real tuple or string crashes.
 */
module TermEq {
  import opened Seqs
  import opened Nodes
  import opened Vectors
  import opened Lookup
  import opened Heap

  datatype Verdict = Equal | Differ | Crash

  /** What the comparison relies on: lists whose elements can be looked up, and
      tuples whose length fits the 8-bit counter of the comparing loop. */
  ghost predicate Comparable(m: Memory, rank: Rank) {
    && HeapOk(m, rank)
    && (forall a :: a in m && m[a].ListObj? ==> Valid(ListAt(m, rank, a), Indexable))
    && (forall a :: a in m && m[a].TupleObj? ==> |m[a].fields| < 255)
  }

  ghost function Weight(rank: Rank, t: Term): nat {
    if IsRef(t) then rank(t.ptr) + 1 else 0
  }

  /** owl_terms_eq. */
  function TermsEq(m: Memory, ghost rank: Rank, left: Term, right: Term): Verdict
    requires Comparable(m, rank) && TermOk(m, left) && TermOk(m, right)
    decreases Weight(rank, left), 0
  {
    if left == right then Equal
    else if left.tag != right.tag then Differ
    else if left.tag == TUPLE then
      if !IsRef(left) || !IsRef(right) then Crash
      else
        assert ObjOk(m, rank, left.ptr) && ObjOk(m, rank, right.ptr);
        var ls, rs := m[left.ptr].fields, m[right.ptr].fields;
        if |ls| != |rs| then Differ
        else AllEq(m, rank, ls, rs, rank(left.ptr), rank(right.ptr))
    else if left.tag == LIST then
      ListContentsBelow(m, rank, left.ptr);
      ListContentsBelow(m, rank, right.ptr);
      var l, r := ListAt(m, rank, left.ptr), ListAt(m, rank, right.ptr);
      if l.cnt != r.cnt then Differ
      else ListEq(m, rank, l, r, 0, rank(left.ptr), rank(right.ptr))
    else if left.tag == STRING then
      if !IsRef(left) || !IsRef(right) then Crash
      else if m[left.ptr].text == m[right.ptr].text then Equal else Differ
    else Differ
  }

  /** Pairwise comparison up to the first pair that is not equal. */
  function AllEq(m: Memory, ghost rank: Rank, ls: seq<Term>, rs: seq<Term>, ghost lr: nat, ghost rr: nat): Verdict
    requires Comparable(m, rank) && |ls| == |rs|
    requires TermsBelow(m, rank, ls, lr) && TermsBelow(m, rank, rs, rr)
    decreases lr, 1, |ls|
  {
    if ls == [] then Equal
    else
      assert TermBelow(m, rank, ls[0], lr) && TermBelow(m, rank, rs[0], rr);
      match TermsEq(m, rank, ls[0], rs[0])
      case Equal => AllEq(m, rank, ls[1..], rs[1..], lr, rr)
      case v => v
  }

  /** owl_list_eq from index i on: element by element through rrb_nth. */
  function ListEq(m: Memory, ghost rank: Rank, l: Rrb<Term>, r: Rrb<Term>, i: nat, ghost lr: nat,
      ghost rr: nat): Verdict
    requires Comparable(m, rank) && Valid(l, Indexable) && Valid(r, Indexable) && l.cnt == r.cnt
    requires TermsBelow(m, rank, Contents(l), lr) && TermsBelow(m, rank, Contents(r), rr)
    decreases lr, 1, l.cnt - i
  {
    if i >= l.cnt then Equal
    else
      NthIsIndexing(l, i);
      NthIsIndexing(r, i);
      var le, re := NthOf(l, i).value, NthOf(r, i).value;
      assert TermBelow(m, rank, Contents(l)[i], lr) && TermBelow(m, rank, Contents(r)[i], rr);
      match TermsEq(m, rank, le, re)
      case Equal => ListEq(m, rank, l, r, i + 1, lr, rr)
      case v => v
  }

  /** Functions are told apart by their address. */
  ghost const Own: Addr -> nat := (a: Addr) => a

  ghost function Val(m: Memory, rank: Rank, t: Term): Value
    requires HeapOk(m, rank) && TermOk(m, t)
  {
    ValueOf(m, rank, Own, t)
  }

  /** The comparison answers "equal" exactly for equal values: for lists, equal
      contents, whatever trees hold them.  In particular it never crashes on those. */
  lemma {:induction false} TermsEqDecides(m: Memory, rank: Rank, left: Term, right: Term)
    requires Comparable(m, rank) && TermOk(m, left) && TermOk(m, right)
    ensures TermsEq(m, rank, left, right) == Equal <==> Val(m, rank, left) == Val(m, rank, right)
    decreases Weight(rank, left), 0
  {
    if left != right && left.tag == right.tag && IsRef(left) && IsRef(right) {
      assert ObjOk(m, rank, left.ptr) && ObjOk(m, rank, right.ptr);
      if left.tag == TUPLE {
        var ls, rs := m[left.ptr].fields, m[right.ptr].fields;
        if |ls| == |rs| { AllEqDecides(m, rank, ls, rs, rank(left.ptr), rank(right.ptr)); }
      } else if left.tag == LIST {
        ListContentsBelow(m, rank, left.ptr);
        ListContentsBelow(m, rank, right.ptr);
        var l, r := ListAt(m, rank, left.ptr), ListAt(m, rank, right.ptr);
        if l.cnt == r.cnt {
          ListEqIsAllEq(m, rank, l, r, 0, rank(left.ptr), rank(right.ptr));
          AllEqDecides(m, rank, Contents(l), Contents(r), rank(left.ptr), rank(right.ptr));
        }
      }
    }
  }

  lemma {:induction false} AllEqDecides(m: Memory, rank: Rank, ls: seq<Term>, rs: seq<Term>, lr: nat, rr: nat)
    requires Comparable(m, rank) && |ls| == |rs|
    requires TermsBelow(m, rank, ls, lr) && TermsBelow(m, rank, rs, rr)
    ensures AllEq(m, rank, ls, rs, lr, rr) == Equal <==>
            ValuesOf(m, rank, Own, ls, lr) == ValuesOf(m, rank, Own, rs, rr)
    decreases lr, 1, |ls|
  {
    if ls != [] {
      assert TermBelow(m, rank, ls[0], lr) && TermBelow(m, rank, rs[0], rr);
      TermsEqDecides(m, rank, ls[0], rs[0]);
      if TermsEq(m, rank, ls[0], rs[0]) == Equal {
        AllEqDecides(m, rank, ls[1..], rs[1..], lr, rr);
      }
      var lv, rv := ValuesOf(m, rank, Own, ls, lr), ValuesOf(m, rank, Own, rs, rr);
      assert lv == [lv[0]] + lv[1..] && rv == [rv[0]] + rv[1..];
      assert lv[1..] == ValuesOf(m, rank, Own, ls[1..], lr);
      assert rv[1..] == ValuesOf(m, rank, Own, rs[1..], rr);
    }
  }

  /** Looking up one index after the other compares the contents in order. */
  lemma {:induction false} ListEqIsAllEq(m: Memory, rank: Rank, l: Rrb<Term>, r: Rrb<Term>, i: nat, lr: nat, rr: nat)
    requires Comparable(m, rank) && Valid(l, Indexable) && Valid(r, Indexable) && l.cnt == r.cnt
    requires TermsBelow(m, rank, Contents(l), lr) && TermsBelow(m, rank, Contents(r), rr)
    requires i <= l.cnt
    ensures ListEq(m, rank, l, r, i, lr, rr) == AllEq(m, rank, Contents(l)[i..], Contents(r)[i..], lr, rr)
    decreases l.cnt - i
  {
    if i < l.cnt {
      NthIsIndexing(l, i);
      NthIsIndexing(r, i);
      ListEqIsAllEq(m, rank, l, r, i + 1, lr, rr);
      assert Contents(l)[i..][1..] == Contents(l)[i + 1..] && Contents(r)[i..][1..] == Contents(r)[i + 1..];
    }
  }

  /** Hence an equivalence relation, on all words. */
  lemma TermsEqIsEquivalence(m: Memory, rank: Rank, a: Term, b: Term, c: Term)
    requires Comparable(m, rank) && TermOk(m, a) && TermOk(m, b) && TermOk(m, c)
    ensures TermsEq(m, rank, a, a) == Equal
    ensures TermsEq(m, rank, a, b) == Equal <==> TermsEq(m, rank, b, a) == Equal
    ensures TermsEq(m, rank, a, b) == Equal && TermsEq(m, rank, b, c) == Equal ==> TermsEq(m, rank, a, c) == Equal
  {
    TermsEqDecides(m, rank, a, b);
    TermsEqDecides(m, rank, b, a);
    TermsEqDecides(m, rank, b, c);
    TermsEqDecides(m, rank, a, c);
  }

  // ---------- crashes ----------

  /** Nowhere in the two words does false stand against a tuple, or true against a
      string. */
  ghost predicate WellTagged(m: Memory, rank: Rank, left: Term, right: Term)
    requires Comparable(m, rank) && TermOk(m, left) && TermOk(m, right)
    decreases Weight(rank, left), 0
  {
    left == right || left.tag != right.tag ||
    if left.tag == TUPLE then
      IsRef(left) && IsRef(right)
      && (assert ObjOk(m, rank, left.ptr) && ObjOk(m, rank, right.ptr);
          AllWellTagged(m, rank, m[left.ptr].fields, m[right.ptr].fields, rank(left.ptr), rank(right.ptr)))
    else if left.tag == LIST then
      ListContentsBelow(m, rank, left.ptr);
      ListContentsBelow(m, rank, right.ptr);
      AllWellTagged(m, rank, Contents(ListAt(m, rank, left.ptr)), Contents(ListAt(m, rank, right.ptr)),
                    rank(left.ptr), rank(right.ptr))
    else left.tag == STRING ==> IsRef(left) && IsRef(right)
  }

  /** Pair by pair, where there are as many on both sides. */
  ghost predicate AllWellTagged(m: Memory, rank: Rank, ls: seq<Term>, rs: seq<Term>, lr: nat, rr: nat)
    requires Comparable(m, rank) && TermsBelow(m, rank, ls, lr) && TermsBelow(m, rank, rs, rr)
    decreases lr, 1, |ls|
  {
    |ls| != |rs| || ls == [] ||
    (assert TermBelow(m, rank, ls[0], lr) && TermBelow(m, rank, rs[0], rr);
     WellTagged(m, rank, ls[0], rs[0]) && AllWellTagged(m, rank, ls[1..], rs[1..], lr, rr))
  }

  /** On well-tagged words the comparison does not crash, so it decides equality. */
  lemma {:induction false} WellTaggedCompares(m: Memory, rank: Rank, left: Term, right: Term)
    requires Comparable(m, rank) && TermOk(m, left) && TermOk(m, right) && WellTagged(m, rank, left, right)
    ensures TermsEq(m, rank, left, right) == if Val(m, rank, left) == Val(m, rank, right) then Equal else Differ
    decreases Weight(rank, left), 0
  {
    TermsEqDecides(m, rank, left, right);
    if left != right && left.tag == right.tag && IsRef(left) && IsRef(right) {
      if left.tag == TUPLE {
        assert ObjOk(m, rank, left.ptr) && ObjOk(m, rank, right.ptr);
        var ls, rs := m[left.ptr].fields, m[right.ptr].fields;
        if |ls| == |rs| { AllWellTaggedCompare(m, rank, ls, rs, rank(left.ptr), rank(right.ptr)); }
      } else if left.tag == LIST {
        ListContentsBelow(m, rank, left.ptr);
        ListContentsBelow(m, rank, right.ptr);
        var l, r := ListAt(m, rank, left.ptr), ListAt(m, rank, right.ptr);
        if l.cnt == r.cnt {
          ListEqIsAllEq(m, rank, l, r, 0, rank(left.ptr), rank(right.ptr));
          AllWellTaggedCompare(m, rank, Contents(l), Contents(r), rank(left.ptr), rank(right.ptr));
        }
      }
    }
  }

  lemma {:induction false} AllWellTaggedCompare(m: Memory, rank: Rank, ls: seq<Term>, rs: seq<Term>, lr: nat, rr: nat)
    requires Comparable(m, rank) && |ls| == |rs|
    requires TermsBelow(m, rank, ls, lr) && TermsBelow(m, rank, rs, rr) && AllWellTagged(m, rank, ls, rs, lr, rr)
    ensures AllEq(m, rank, ls, rs, lr, rr) != Crash
    decreases lr, 1, |ls|
  {
    if ls != [] {
      assert TermBelow(m, rank, ls[0], lr) && TermBelow(m, rank, rs[0], rr);
      WellTaggedCompares(m, rank, ls[0], rs[0]);
      AllWellTaggedCompare(m, rank, ls[1..], rs[1..], lr, rr);
    }
  }

  // ---------- the loops ----------

  /** owl_terms_eq with the loops of its tuple case. */
  method CompareTerms(m: Memory, ghost rank: Rank, left: Term, right: Term) returns (v: Verdict)
    requires Comparable(m, rank) && TermOk(m, left) && TermOk(m, right)
    ensures v == TermsEq(m, rank, left, right)
    ensures v == Equal <==> Val(m, rank, left) == Val(m, rank, right)
    ensures WellTagged(m, rank, left, right) ==> v != Crash
    decreases Weight(rank, left), 1
  {
    TermsEqDecides(m, rank, left, right);
    if WellTagged(m, rank, left, right) { WellTaggedCompares(m, rank, left, right); }
    if left == right {
      return Equal;
    }
    if left.tag != right.tag {
      return Differ;
    }
    match left.tag {
      case 2 =>
        if !IsRef(left) || !IsRef(right) { return Crash; }
        v := CompareTuples(m, rank, left, right);
      case 3 =>
        v := CompareLists(m, rank, left, right);
      case 4 =>
        if !IsRef(left) || !IsRef(right) { return Crash; }
        v := if m[left.ptr].text == m[right.ptr].text then Equal else Differ;
      case _ =>
        v := Differ;
    }
  }

  method CompareTuples(m: Memory, ghost rank: Rank, left: Term, right: Term) returns (v: Verdict)
    requires Comparable(m, rank) && TermOk(m, left) && TermOk(m, right)
    requires IsRef(left) && IsRef(right) && left.tag == right.tag == TUPLE && left != right
    ensures v == TermsEq(m, rank, left, right)
    decreases Weight(rank, left), 0
  {
    var ls, rs := m[left.ptr].fields, m[right.ptr].fields;
    assert ObjOk(m, rank, left.ptr) && ObjOk(m, rank, right.ptr);
    if |ls| != |rs| {
      return Differ;
    }
    for i := 0 to |ls|
      invariant AllEq(m, rank, ls[i..], rs[i..], rank(left.ptr), rank(right.ptr))
             == AllEq(m, rank, ls, rs, rank(left.ptr), rank(right.ptr))
    {
      assert TermBelow(m, rank, ls[i], rank(left.ptr)) && TermBelow(m, rank, rs[i], rank(right.ptr));
      assert ls[i..][1..] == ls[i + 1..] && rs[i..][1..] == rs[i + 1..];
      v := CompareTerms(m, rank, ls[i], rs[i]);
      if v != Equal { return; }
    }
    v := Equal;
  }

  /** owl_list_eq. */
  method CompareLists(m: Memory, ghost rank: Rank, left: Term, right: Term) returns (v: Verdict)
    requires Comparable(m, rank) && TermOk(m, left) && TermOk(m, right)
    requires left.tag == right.tag == LIST && left != right
    ensures v == TermsEq(m, rank, left, right)
    decreases Weight(rank, left), 0
  {
    hide NthOf, ListAt, TreeElements, HeapOk;
    ListContentsBelow(m, rank, left.ptr);
    ListContentsBelow(m, rank, right.ptr);
    var l, r := ListAt(m, rank, left.ptr), ListAt(m, rank, right.ptr);
    if l.cnt != r.cnt {
      return Differ;
    }
    for i := 0 to l.cnt
      invariant ListEq(m, rank, l, r, i, rank(left.ptr), rank(right.ptr))
             == ListEq(m, rank, l, r, 0, rank(left.ptr), rank(right.ptr))
    {
      assert TermBelow(m, rank, Contents(l)[i], rank(left.ptr));
      assert TermBelow(m, rank, Contents(r)[i], rank(right.ptr));
      NthIsIndexing(l, i);
      NthIsIndexing(r, i);
      var le := Nth(l, i);
      var re := Nth(r, i);
      v := CompareTerms(m, rank, le.value, re.value);
      if v != Equal { return; }
    }
    v := Equal;
  }
}
