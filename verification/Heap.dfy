/**
 The VM's heap: tagged words that refer to objects by address, and the values
 they stand for once every reference is followed.
 */
module Heap {
  import opened Seqs
  import opened Nodes
  import opened Vectors

  type Addr = nat

  /** An owl_term: (ptr << 3) | tag.  For an integer, ptr is its value. */
  datatype Term = Term(tag: nat, ptr: nat)

  const PTR: nat := 0
  const INT: nat := 1
  const TUPLE: nat := 2
  const LIST: nat := 3
  const STRING: nat := 4
  const FUNCTION: nat := 5

  /** OWL_FALSE, OWL_TRUE and OWL_NIL are 2, 4 and 6: a tag without a pointer. */
  const FALSE: Term := Term(TUPLE, 0)
  const TRUE: Term := Term(STRING, 0)
  const NIL: Term := Term(6, 0)
  /** The content of an unused register. */
  const ZERO: Term := Term(PTR, 0)

  /** The objects of the heap.  A size table belongs to its node. */
  datatype Obj =
    | TupleObj(fields: seq<Term>)
    | FunctionObj(location: nat, upvalues: seq<Term>)
    | ListObj(cnt: nat, height: nat, tailLen: nat, root: Option<Addr>, tail: Addr)
    | LeafObj(elems: seq<Term>)
    | InnerObj(kids: seq<Addr>, table: Option<seq<nat>>)
    | StringObj(text: string)

  type Memory = map<Addr, Obj>

  /** A word that refers to an object. */
  predicate IsRef(t: Term) {
    t.ptr != 0 && TUPLE <= t.tag <= FUNCTION
  }

  predicate IsNode(o: Obj) {
    o.LeafObj? || o.InnerObj?
  }

  /** The kind of object a tag announces. */
  predicate Fits(tag: nat, o: Obj) {
    match o
    case TupleObj(_) => tag == TUPLE
    case FunctionObj(_, _) => tag == FUNCTION
    case ListObj(_, _, _, _, _) => tag == LIST
    case StringObj(_) => tag == STRING
    case LeafObj(_) => false
    case InnerObj(_, _) => false
  }

  predicate TermOk(m: Memory, t: Term) {
    && (IsRef(t) ==> t.ptr in m && Fits(t.tag, m[t.ptr]))
    && (t.tag == LIST || t.tag == FUNCTION ==> t.ptr != 0)
  }

  /** A rank that decreases along every reference: the heap is acyclic. */
  type Rank = Addr -> nat

  ghost predicate TermBelow(m: Memory, rank: Rank, t: Term, r: nat) {
    TermOk(m, t) && (IsRef(t) ==> rank(t.ptr) < r)
  }

  ghost predicate TermsBelow(m: Memory, rank: Rank, ts: seq<Term>, r: nat) {
    forall i :: 0 <= i < |ts| ==> TermBelow(m, rank, ts[i], r)
  }

  ghost predicate NodeBelow(m: Memory, rank: Rank, a: Addr, r: nat) {
    a in m && IsNode(m[a]) && rank(a) < r
  }

  ghost predicate NodesBelow(m: Memory, rank: Rank, kids: seq<Addr>, r: nat) {
    forall i :: 0 <= i < |kids| ==> NodeBelow(m, rank, kids[i], r)
  }

  ghost predicate ObjOk(m: Memory, rank: Rank, a: Addr)
    requires a in m
  {
    match m[a]
    case TupleObj(fields) => TermsBelow(m, rank, fields, rank(a))
    case FunctionObj(_, upvalues) => TermsBelow(m, rank, upvalues, rank(a))
    case ListObj(_, _, _, root, tail) =>
      && (root.Some? ==> NodeBelow(m, rank, root.value, rank(a)))
      && NodeBelow(m, rank, tail, rank(a)) && m[tail].LeafObj?
    case LeafObj(elems) => TermsBelow(m, rank, elems, rank(a))
    case InnerObj(kids, _) => NodesBelow(m, rank, kids, rank(a))
    case StringObj(_) => true
  }

  ghost predicate HeapOk(m: Memory, rank: Rank) {
    forall a :: a in m ==> ObjOk(m, rank, a)
  }

  // ---------- lists in the heap ----------

  /** A table cut to the length of its node. */
  function Truncate(table: Option<seq<nat>>, len: nat): Option<seq<nat>> {
    match table
    case None => None
    case Some(t) => Some(if len <= |t| then t[..len] else t)
  }

  /** The tree below a node address, with words as elements. */
  function NodeAt(m: Memory, ghost rank: Rank, a: Addr): Node<Term>
    requires HeapOk(m, rank) && a in m && IsNode(m[a])
    decreases rank(a), 1, 0
  {
    assert ObjOk(m, rank, a);
    match m[a]
    case LeafObj(elems) => Leaf(elems)
    case InnerObj(kids, table) => Inner(NodesAt(m, rank, kids, rank(a)), Truncate(table, |kids|))
  }

  function NodesAt(m: Memory, ghost rank: Rank, kids: seq<Addr>, ghost r: nat): (ns: seq<Node<Term>>)
    requires HeapOk(m, rank) && NodesBelow(m, rank, kids, r)
    ensures |ns| == |kids|
    ensures forall i :: 0 <= i < |kids| ==> NodeBelow(m, rank, kids[i], r) && ns[i] == NodeAt(m, rank, kids[i])
    decreases r, 0, |kids|
  {
    if kids == [] then [] else
      assert NodeBelow(m, rank, kids[0], r);
      [NodeAt(m, rank, kids[0])] + NodesAt(m, rank, kids[1..], r)
  }

  function ListAt(m: Memory, ghost rank: Rank, a: Addr): Rrb<Term>
    requires HeapOk(m, rank) && a in m && m[a].ListObj?
  {
    assert ObjOk(m, rank, a);
    var o := m[a];
    Rrb(o.cnt, o.height,
        if o.root.None? then None else Some(NodeAt(m, rank, o.root.value)),
        m[o.tail].elems, o.tailLen)
  }

  /** The words in a tree refer to objects of lower rank. */
  lemma {:induction false} NodeElementsBelow(m: Memory, rank: Rank, a: Addr)
    requires HeapOk(m, rank) && a in m && IsNode(m[a])
    ensures TermsBelow(m, rank, Elements(NodeAt(m, rank, a)), rank(a))
    decreases rank(a), 1, 0
  {
    assert ObjOk(m, rank, a);
    if m[a].InnerObj? {
      NodesElementsBelow(m, rank, m[a].kids, rank(a));
    }
  }

  lemma {:induction false} NodesElementsBelow(m: Memory, rank: Rank, kids: seq<Addr>, r: nat)
    requires HeapOk(m, rank) && NodesBelow(m, rank, kids, r)
    ensures TermsBelow(m, rank, ElementsOf(NodesAt(m, rank, kids, r)), r)
    decreases r, 0, |kids|
  {
    if kids != [] {
      NodeElementsBelow(m, rank, kids[0]);
      NodesElementsBelow(m, rank, kids[1..], r);
      var ns := NodesAt(m, rank, kids, r);
      assert ns[1..] == NodesAt(m, rank, kids[1..], r);
    }
  }

  lemma ListContentsBelow(m: Memory, rank: Rank, a: Addr)
    requires HeapOk(m, rank) && a in m && m[a].ListObj?
    ensures TermsBelow(m, rank, Contents(ListAt(m, rank, a)), rank(a))
  {
    assert ObjOk(m, rank, a);
    var o := m[a];
    assert ObjOk(m, rank, o.tail);
    if o.root.Some? { NodeElementsBelow(m, rank, o.root.value); }
  }

  // ---------- values ----------

  /** A fully unfolded value.  A list is its elements, whatever its tree; a
      function carries a name, by which functions are told apart. */
  datatype Value =
    | Immediate(term: Term)
    | TupleV(elems: seq<Value>)
    | FunctionV(name: nat, location: nat, upvalues: seq<Value>)
    | ListV(elems: seq<Value>)
    | StringV(text: string)

  ghost function ValueOf(m: Memory, rank: Rank, name: Addr -> nat, t: Term): Value
    requires HeapOk(m, rank) && TermOk(m, t)
    decreases if IsRef(t) then rank(t.ptr) + 1 else 0, 0
  {
    if !IsRef(t) then Immediate(t)
    else
      assert ObjOk(m, rank, t.ptr);
      match m[t.ptr]
      case TupleObj(fields) => TupleV(ValuesOf(m, rank, name, fields, rank(t.ptr)))
      case FunctionObj(location, upvalues) =>
        FunctionV(name(t.ptr), location, ValuesOf(m, rank, name, upvalues, rank(t.ptr)))
      case ListObj(_, _, _, _, _) =>
        ListContentsBelow(m, rank, t.ptr);
        ListV(ValuesOf(m, rank, name, Contents(ListAt(m, rank, t.ptr)), rank(t.ptr)))
      case StringObj(text) => StringV(text)
  }

  ghost function ValuesOf(m: Memory, rank: Rank, name: Addr -> nat, ts: seq<Term>, r: nat): (vs: seq<Value>)
    requires HeapOk(m, rank) && TermsBelow(m, rank, ts, r)
    ensures |vs| == |ts| && forall i :: 0 <= i < |ts| ==> vs[i] == ValueOf(m, rank, name, ts[i])
    decreases r, 1, |ts|
  {
    if ts == [] then [] else
      assert TermBelow(m, rank, ts[0], r);
      [ValueOf(m, rank, name, ts[0])] + ValuesOf(m, rank, name, ts[1..], r)
  }
}
