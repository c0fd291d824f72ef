/**
 What a finished collection means for the program: the new heap is an exact copy,
 sharing included, of what was reachable; every word stands for the same value,
 and no comparison can tell the difference.
 */
module GcMeaning {
  import opened Seqs
  import opened Nodes
  import opened Vectors
  import opened Lookup
  import opened Heap
  import opened GcModel
  import opened TermEq

  /** Objects outside the heap (static lists, loaded functions) refer to nothing on
      it; inner tree nodes are only ever allocated on it. */
  ghost predicate OffHeapOk(s: Snapshot) {
    forall c :: c in s.mem && !OnHeap(s.from, s.size, c) ==>
      && !s.mem[c].InnerObj?
      && (forall i :: 0 <= i < |Terms(s.mem[c])| ==> !OnHeap(s.from, s.size, Terms(s.mem[c])[i].ptr))
      && (forall i :: 0 <= i < |NodeRefs(s.mem[c])| ==> !OnHeap(s.from, s.size, NodeRefs(s.mem[c])[i]))
  }

  /** No integer among these words has the value of a heap address. */
  ghost predicate IntsApart(s: Snapshot, ts: seq<Term>) {
    forall i :: 0 <= i < |ts| && ts[i].tag == INT ==> !OnHeap(s.from, s.size, ts[i].ptr)
  }

  /** ... nor any in a live object. */
  ghost predicate Plain(s: Snapshot) {
    forall a :: a in s.live && a in s.mem ==> IntsApart(s, Terms(s.mem[a]))
  }

  /** Every forwarded object has a translated copy, and so has all it refers to. */
  ghost predicate Translated(s: Snapshot, m: Memory, f: Forwarding) {
    forall a :: a in f ==>
      a in s.live && a in s.mem && f[a] in m && Covered(s, f, s.mem[a]) && m[f[a]] == TrObj(f, s.mem[a])
  }

  /** The outcome of a collection, as gc_collect leaves it. */
  ghost predicate Collected(s: Snapshot, to: nat, m: Memory, f: Forwarding) {
    && SnapshotOk(s) && OffHeapOk(s) && Plain(s)
    && f.Keys <= s.live && Translated(s, m, f) && Injective(f)
    && (forall a :: a in f ==> to < f[a] && InSpace(to, s.size, f[a]))
    && (forall c :: c in s.mem ==> !InSpace(to, s.size, c))
    && (forall c :: c in s.mem && c !in s.live ==> c in m && m[c] == s.mem[c])
  }

  /** Addresses whose objects survive. */
  ghost predicate Kept(s: Snapshot, f: Forwarding, a: Addr) {
    a in s.mem && (a in f || !OnHeap(s.from, s.size, a))
  }

  ghost predicate KeptTerm(s: Snapshot, f: Forwarding, t: Term) {
    TermOk(s.mem, t) && (OnHeap(s.from, s.size, t.ptr) ==> IsRef(t) && t.ptr in f)
  }

  ghost predicate AllKept(s: Snapshot, f: Forwarding, ts: seq<Term>) {
    forall i :: 0 <= i < |ts| ==> KeptTerm(s, f, ts[i])
  }

  /** The heap afterwards: the copies, and what was never on the heap. */
  ghost function NewHeap(s: Snapshot, m: Memory, f: Forwarding): Memory {
    map a | a in m && (a in f.Values || (a in s.mem && !OnHeap(s.from, s.size, a))) :: m[a]
  }

  ghost function Inverse(f: Forwarding): map<Addr, Addr>
    requires Injective(f)
  {
    map a | a in f :: f[a] := a
  }

  /** A copy has the rank of its original. */
  ghost function NewRank(s: Snapshot, f: Forwarding): Rank
    requires Injective(f)
  {
    var origin := Inverse(f);
    (c: Addr) => RankVia(s, origin, c)
  }

  ghost function RankVia(s: Snapshot, origin: map<Addr, Addr>, c: Addr): nat {
    if c in origin then s.rank(origin[c]) else s.rank(c)
  }

  lemma RankKept(s: Snapshot, to: nat, m: Memory, f: Forwarding, a: Addr)
    requires Collected(s, to, m, f) && Kept(s, f, a)
    ensures NewRank(s, f)(TrAddr(f, a)) == s.rank(a)
  {
    if a in f {
      assert f[a] in Inverse(f);
    } else {
      assert forall c :: c in Inverse(f) ==> InSpace(to, s.size, c);
    }
  }

  /** The object found at the new address is the translated one. */
  lemma ObjKept(s: Snapshot, to: nat, m: Memory, f: Forwarding, a: Addr)
    requires Collected(s, to, m, f) && Kept(s, f, a)
    ensures TrAddr(f, a) in NewHeap(s, m, f)
    ensures NewHeap(s, m, f)[TrAddr(f, a)] == TrObj(f, s.mem[a])
    ensures HeapOk(s.mem, s.rank) && ObjOk(s.mem, s.rank, a)
    ensures AllKept(s, f, Terms(s.mem[a]))
    ensures forall i :: 0 <= i < |NodeRefs(s.mem[a])| ==> Kept(s, f, NodeRefs(s.mem[a])[i])
  {
    var o := s.mem[a];
    assert ObjOk(s.mem, s.rank, a);
    RefsInHeap(s, a);
    LiveRange(s);
    if a in f {
      assert f[a] in f.Values && LiveOk(s, a);
      assert AllSettled(s, Terms(o)) && TermsCovered(s, f, Terms(o)) && IntsApart(s, Terms(o));
    } else {
      OffHeapUntouched(s, f, o);
    }
  }

  lemma OffHeapUntouched(s: Snapshot, f: Forwarding, o: Obj)
    requires forall a :: a in f ==> OnHeap(s.from, s.size, a)
    requires !o.InnerObj?
    requires forall i :: 0 <= i < |Terms(o)| ==> !OnHeap(s.from, s.size, Terms(o)[i].ptr)
    requires forall i :: 0 <= i < |NodeRefs(o)| ==> !OnHeap(s.from, s.size, NodeRefs(o)[i])
    ensures TrObj(f, o) == o
  {
    assert TrTerms(f, Terms(o)) == Terms(o);
    if o.ListObj? {
      assert NodeRefs(o)[|NodeRefs(o)| - 1] == o.tail;
      if o.root.Some? { assert NodeRefs(o)[0] == o.root.value; }
    }
  }

  // ---------- the new heap is well formed ----------

  lemma TermKept(s: Snapshot, to: nat, m: Memory, f: Forwarding, t: Term)
    requires Collected(s, to, m, f) && KeptTerm(s, f, t)
    ensures TermOk(NewHeap(s, m, f), Tr(f, t)) && IsRef(Tr(f, t)) == IsRef(t)
    ensures IsRef(t) ==> Kept(s, f, t.ptr) && Tr(f, t) == Term(t.tag, TrAddr(f, t.ptr))
    ensures IsRef(t) ==> NewRank(s, f)(Tr(f, t).ptr) == s.rank(t.ptr)
    ensures !IsRef(t) ==> Tr(f, t) == t
  {
    LiveRange(s);
    if IsRef(t) {
      ObjKept(s, to, m, f, t.ptr);
      RankKept(s, to, m, f, t.ptr);
    }
  }

  lemma TermsKept(s: Snapshot, to: nat, m: Memory, f: Forwarding, ts: seq<Term>, r: nat)
    requires Collected(s, to, m, f) && AllKept(s, f, ts) && TermsBelow(s.mem, s.rank, ts, r)
    ensures TermsBelow(NewHeap(s, m, f), NewRank(s, f), TrTerms(f, ts), r)
  {
    forall i | 0 <= i < |ts| ensures TermBelow(NewHeap(s, m, f), NewRank(s, f), TrTerms(f, ts)[i], r) {
      assert KeptTerm(s, f, ts[i]) && TermBelow(s.mem, s.rank, ts[i], r);
      TermKept(s, to, m, f, ts[i]);
    }
  }

  lemma NodeKept(s: Snapshot, to: nat, m: Memory, f: Forwarding, a: Addr, r: nat)
    requires Collected(s, to, m, f) && Kept(s, f, a) && NodeBelow(s.mem, s.rank, a, r)
    ensures NodeBelow(NewHeap(s, m, f), NewRank(s, f), TrAddr(f, a), r)
    ensures NewHeap(s, m, f)[TrAddr(f, a)].LeafObj? == s.mem[a].LeafObj?
  {
    ObjKept(s, to, m, f, a);
    RankKept(s, to, m, f, a);
  }

  lemma NodesKept(s: Snapshot, to: nat, m: Memory, f: Forwarding, ks: seq<Addr>, r: nat)
    requires Collected(s, to, m, f) && NodesBelow(s.mem, s.rank, ks, r)
    requires forall i :: 0 <= i < |ks| ==> Kept(s, f, ks[i])
    ensures NodesBelow(NewHeap(s, m, f), NewRank(s, f), TrAddrs(f, ks), r)
  {
    forall i | 0 <= i < |ks| ensures NodeBelow(NewHeap(s, m, f), NewRank(s, f), TrAddrs(f, ks)[i], r) {
      assert NodeBelow(s.mem, s.rank, ks[i], r);
      NodeKept(s, to, m, f, ks[i], r);
    }
  }

  lemma NewObjOk(s: Snapshot, to: nat, m: Memory, f: Forwarding, a: Addr)
    requires Collected(s, to, m, f) && Kept(s, f, a)
    ensures TrAddr(f, a) in NewHeap(s, m, f) && ObjOk(NewHeap(s, m, f), NewRank(s, f), TrAddr(f, a))
  {
    hide Collected, NewHeap, NewRank, HeapOk, TermsBelow, NodesBelow, AllKept;
    var o, r := s.mem[a], s.rank(a);
    ObjKept(s, to, m, f, a);
    RankKept(s, to, m, f, a);
    match o
    case ListObj(_, _, _, root, tail) =>
      assert NodeRefs(o)[|NodeRefs(o)| - 1] == tail;
      NodeKept(s, to, m, f, tail, r);
      if root.Some? {
        assert NodeRefs(o)[0] == root.value;
        NodeKept(s, to, m, f, root.value, r);
      }
    case InnerObj(kids, _) =>
      assert NodeRefs(o) == kids;
      NodesKept(s, to, m, f, kids, r);
    case StringObj(_) =>
    case TupleObj(fields) => TermsKept(s, to, m, f, fields, r);
    case FunctionObj(_, upvalues) => TermsKept(s, to, m, f, upvalues, r);
    case LeafObj(elems) => TermsKept(s, to, m, f, elems, r);
  }

  /** The new heap is well formed and acyclic again. */
  lemma NewHeapOk(s: Snapshot, to: nat, m: Memory, f: Forwarding)
    requires Collected(s, to, m, f)
    ensures HeapOk(NewHeap(s, m, f), NewRank(s, f))
  {
    forall c | c in NewHeap(s, m, f) ensures ObjOk(NewHeap(s, m, f), NewRank(s, f), c) {
      var a := if c in f.Values then Inverse(f)[c] else c;
      LiveRange(s);
      assert TrAddr(f, a) == c;
      NewObjOk(s, to, m, f, a);
    }
  }

  // ---------- lists keep their shape ----------

  function MapNode(f: Forwarding, n: Node<Term>): Node<Term>
    decreases n, 1
  {
    match n
    case Leaf(elems) => Leaf(TrTerms(f, elems))
    case Inner(kids, table) => Inner(MapNodes(f, kids), table)
  }

  function MapNodes(f: Forwarding, kids: seq<Node<Term>>): (r: seq<Node<Term>>)
    ensures |r| == |kids|
    decreases kids, 0
  {
    if kids == [] then [] else [MapNode(f, kids[0])] + MapNodes(f, kids[1..])
  }

  /** The tree at the new address is the old one, word by word. */
  lemma {:induction false} NodeAtKept(s: Snapshot, to: nat, m: Memory, f: Forwarding, a: Addr)
    requires Collected(s, to, m, f) && Kept(s, f, a) && IsNode(s.mem[a])
    requires HeapOk(NewHeap(s, m, f), NewRank(s, f))
    ensures TrAddr(f, a) in NewHeap(s, m, f) && IsNode(NewHeap(s, m, f)[TrAddr(f, a)])
    ensures NodeAt(NewHeap(s, m, f), NewRank(s, f), TrAddr(f, a)) == MapNode(f, NodeAt(s.mem, s.rank, a))
    decreases s.rank(a), 1, 0
  {
    hide Collected, NewHeap, NewRank, TermsBelow, NodesBelow, AllKept;
    ObjKept(s, to, m, f, a);
    RankKept(s, to, m, f, a);
    if s.mem[a].InnerObj? {
      var ks := s.mem[a].kids;
      assert NodeRefs(s.mem[a]) == ks;
      NodesKept(s, to, m, f, ks, s.rank(a));
      NodesAtKept(s, to, m, f, ks, s.rank(a));
      TruncateTwice(s.mem[a].table, |ks|);
    }
  }

  lemma TruncateTwice(table: Option<seq<nat>>, len: nat)
    ensures Truncate(Truncate(table, len), len) == Truncate(table, len)
  {
    if table.Some? && len <= |table.value| { assert table.value[..len][..len] == table.value[..len]; }
  }

  lemma CollectedHeapOk(s: Snapshot, to: nat, m: Memory, f: Forwarding)
    requires Collected(s, to, m, f)
    ensures HeapOk(s.mem, s.rank)
  {}

  lemma {:induction false} NodesAtKept(s: Snapshot, to: nat, m: Memory, f: Forwarding, ks: seq<Addr>, r: nat)
    requires Collected(s, to, m, f) && NodesBelow(s.mem, s.rank, ks, r)
    requires forall i :: 0 <= i < |ks| ==> Kept(s, f, ks[i])
    requires HeapOk(NewHeap(s, m, f), NewRank(s, f))
    requires NodesBelow(NewHeap(s, m, f), NewRank(s, f), TrAddrs(f, ks), r)
    ensures NodesAt(NewHeap(s, m, f), NewRank(s, f), TrAddrs(f, ks), r) == MapNodes(f, NodesAt(s.mem, s.rank, ks, r))
    decreases r, 0, |ks|
  {
    CollectedHeapOk(s, to, m, f);
    hide Collected, NewHeap, NewRank, HeapOk, NodeAt, MapNode, Kept;
    if ks != [] {
      assert NodeBelow(s.mem, s.rank, ks[0], r);
      NodeAtKept(s, to, m, f, ks[0]);
      assert TrAddrs(f, ks)[1..] == TrAddrs(f, ks[1..]);
      NodesKept(s, to, m, f, ks[1..], r);
      NodesAtKept(s, to, m, f, ks[1..], r);
      assert NodesAt(s.mem, s.rank, ks, r)[1..] == NodesAt(s.mem, s.rank, ks[1..], r);
    }
  }

  lemma {:induction false} MapElements(f: Forwarding, n: Node<Term>)
    ensures Elements(MapNode(f, n)) == TrTerms(f, Elements(n))
    decreases n, 1
  {
    if n.Inner? { MapElementsOf(f, n.kids); }
  }

  lemma {:induction false} MapElementsOf(f: Forwarding, kids: seq<Node<Term>>)
    ensures ElementsOf(MapNodes(f, kids)) == TrTerms(f, ElementsOf(kids))
    decreases kids, 0
  {
    if kids != [] {
      MapElements(f, kids[0]);
      MapElementsOf(f, kids[1..]);
      var r := MapNodes(f, kids);
      assert r[1..] == MapNodes(f, kids[1..]);
    }
  }

  function MapList(f: Forwarding, v: Rrb<Term>): Rrb<Term> {
    v.(root := if v.root.None? then None else Some(MapNode(f, v.root.value)), tail := TrTerms(f, v.tail))
  }

  lemma ListAtKept(s: Snapshot, to: nat, m: Memory, f: Forwarding, a: Addr)
    requires Collected(s, to, m, f) && Kept(s, f, a) && s.mem[a].ListObj?
    requires HeapOk(NewHeap(s, m, f), NewRank(s, f))
    ensures TrAddr(f, a) in NewHeap(s, m, f) && NewHeap(s, m, f)[TrAddr(f, a)].ListObj?
    ensures ListAt(NewHeap(s, m, f), NewRank(s, f), TrAddr(f, a)) == MapList(f, ListAt(s.mem, s.rank, a))
    ensures Contents(ListAt(NewHeap(s, m, f), NewRank(s, f), TrAddr(f, a)))
         == TrTerms(f, Contents(ListAt(s.mem, s.rank, a)))
  {
    hide Collected, NewHeap, NewRank, TermsBelow, NodesBelow, AllKept;
    var o := s.mem[a];
    ObjKept(s, to, m, f, a);
    assert NodeRefs(o)[|NodeRefs(o)| - 1] == o.tail;
    NodeAtKept(s, to, m, f, o.tail);
    if o.root.Some? {
      assert NodeRefs(o)[0] == o.root.value;
      NodeAtKept(s, to, m, f, o.root.value);
      MapElements(f, NodeAt(s.mem, s.rank, o.root.value));
    }
  }

  // ---------- values ----------

  /** The names of functions, seen through the move. */
  ghost function Renamed(f: Forwarding, name: Addr -> nat): Addr -> nat {
    (a: Addr) => name(TrAddr(f, a))
  }

  /** Every word stands for the value it stood for. */
  lemma {:induction false} ValueKept(s: Snapshot, to: nat, m: Memory, f: Forwarding, name: Addr -> nat, t: Term)
    requires Collected(s, to, m, f) && KeptTerm(s, f, t)
    requires HeapOk(NewHeap(s, m, f), NewRank(s, f))
    ensures TermOk(NewHeap(s, m, f), Tr(f, t))
    ensures ValueOf(NewHeap(s, m, f), NewRank(s, f), name, Tr(f, t)) == ValueOf(s.mem, s.rank, Renamed(f, name), t)
    decreases Weight(s.rank, t), 0
  {
    hide Collected, NewHeap, NewRank, AllKept, TermsBelow;
    TermKept(s, to, m, f, t);
    if IsRef(t) {
      var a, r := t.ptr, s.rank(t.ptr);
      ObjKept(s, to, m, f, a);
      match s.mem[a]
      case TupleObj(fields) =>
        TermsKept(s, to, m, f, fields, r);
        ValuesKept(s, to, m, f, name, fields, r);
      case FunctionObj(_, upvalues) =>
        TermsKept(s, to, m, f, upvalues, r);
        ValuesKept(s, to, m, f, name, upvalues, r);
      case ListObj(_, _, _, _, _) =>
        ListContentsBelow(s.mem, s.rank, a);
        ListAtKept(s, to, m, f, a);
        var contents := Contents(ListAt(s.mem, s.rank, a));
        ListTermsKept(s, to, m, f, a);
        TermsKept(s, to, m, f, contents, r);
        ValuesKept(s, to, m, f, name, contents, r);
      case StringObj(_) =>
    }
  }

  lemma {:induction false} ValuesKept(s: Snapshot, to: nat, m: Memory, f: Forwarding, name: Addr -> nat, ts: seq<Term>,
      r: nat)
    requires Collected(s, to, m, f) && AllKept(s, f, ts) && TermsBelow(s.mem, s.rank, ts, r)
    requires HeapOk(NewHeap(s, m, f), NewRank(s, f)) && HeapOk(s.mem, s.rank)
    requires TermsBelow(NewHeap(s, m, f), NewRank(s, f), TrTerms(f, ts), r)
    ensures ValuesOf(NewHeap(s, m, f), NewRank(s, f), name, TrTerms(f, ts), r)
         == ValuesOf(s.mem, s.rank, Renamed(f, name), ts, r)
    decreases r, 1, |ts|
  {
    hide NewHeap, NewRank;
    var vs := ValuesOf(NewHeap(s, m, f), NewRank(s, f), name, TrTerms(f, ts), r);
    var ws := ValuesOf(s.mem, s.rank, Renamed(f, name), ts, r);
    forall i | 0 <= i < |ts| ensures vs[i] == ws[i] {
      assert KeptTerm(s, f, ts[i]) && TermBelow(s.mem, s.rank, ts[i], r);
      ValueKept(s, to, m, f, name, ts[i]);
    }
  }

  /** The elements of a surviving list survive. */
  lemma ListTermsKept(s: Snapshot, to: nat, m: Memory, f: Forwarding, a: Addr)
    requires Collected(s, to, m, f) && Kept(s, f, a) && s.mem[a].ListObj? && HeapOk(s.mem, s.rank)
    ensures AllKept(s, f, Contents(ListAt(s.mem, s.rank, a)))
  {
    var o := s.mem[a];
    ObjKept(s, to, m, f, a);
    assert NodeRefs(o)[|NodeRefs(o)| - 1] == o.tail;
    ObjKept(s, to, m, f, o.tail);
    if o.root.Some? {
      assert NodeRefs(o)[0] == o.root.value;
      NodeTermsKept(s, to, m, f, o.root.value);
    }
  }

  lemma {:induction false} NodeTermsKept(s: Snapshot, to: nat, m: Memory, f: Forwarding, a: Addr)
    requires Collected(s, to, m, f) && Kept(s, f, a) && IsNode(s.mem[a]) && HeapOk(s.mem, s.rank)
    ensures AllKept(s, f, Elements(NodeAt(s.mem, s.rank, a)))
    decreases s.rank(a), 1, 0
  {
    ObjKept(s, to, m, f, a);
    if s.mem[a].InnerObj? {
      assert NodeRefs(s.mem[a]) == s.mem[a].kids;
      NodesTermsKept(s, to, m, f, s.mem[a].kids, s.rank(a));
    }
  }

  lemma {:induction false} NodesTermsKept(s: Snapshot, to: nat, m: Memory, f: Forwarding, ks: seq<Addr>, r: nat)
    requires Collected(s, to, m, f) && NodesBelow(s.mem, s.rank, ks, r) && HeapOk(s.mem, s.rank)
    requires forall i :: 0 <= i < |ks| ==> Kept(s, f, ks[i])
    ensures AllKept(s, f, ElementsOf(NodesAt(s.mem, s.rank, ks, r)))
    decreases r, 0, |ks|
  {
    CollectedHeapOk(s, to, m, f);
    hide Collected, NewHeap, NewRank, HeapOk, NodeAt, MapNode, Kept;
    if ks != [] {
      assert NodeBelow(s.mem, s.rank, ks[0], r);
      NodeTermsKept(s, to, m, f, ks[0]);
      NodesTermsKept(s, to, m, f, ks[1..], r);
      assert NodesAt(s.mem, s.rank, ks, r)[1..] == NodesAt(s.mem, s.rank, ks[1..], r);
    }
  }

  // ---------- sharing ----------

  /** Words are the same word afterwards exactly when they were before. */
  lemma SharingKept(s: Snapshot, to: nat, m: Memory, f: Forwarding, l: Term, r: Term)
    requires Collected(s, to, m, f) && KeptTerm(s, f, l) && KeptTerm(s, f, r)
    ensures Tr(f, l) == Tr(f, r) <==> l == r
  {
    LiveRange(s);
    TermKept(s, to, m, f, l);
    TermKept(s, to, m, f, r);
  }

  // ---------- comparison ----------

  lemma {:induction false} MapWf(f: Forwarding, n: Node<Term>, h: nat)
    requires Wf(n, h, Indexable)
    ensures Wf(MapNode(f, n), h, Indexable) && (Radix(n, h) ==> Radix(MapNode(f, n), h))
    decreases h
  {
    if h > 0 {
      KidsWf(n, h, Indexable);
      MapNodesAt(f, n.kids);
      var r := MapNode(f, n);
      forall k | 0 <= k < |n.kids|
        ensures Wf(r.kids[k], h - 1, Indexable) && (Radix(n.kids[k], h - 1) ==> Radix(r.kids[k], h - 1))
        ensures |Elements(r.kids[k])| == |Elements(n.kids[k])|
      {
        MapWf(f, n.kids[k], h - 1);
        MapElements(f, n.kids[k]);
      }
      if n.table.Some? { MapTable(f, n.kids, n.table.value); }
    }
  }

  lemma {:induction false} MapNodesAt(f: Forwarding, kids: seq<Node<Term>>)
    ensures forall k :: 0 <= k < |kids| ==> MapNodes(f, kids)[k] == MapNode(f, kids[k])
  {
    if kids != [] { MapNodesAt(f, kids[1..]); }
  }

  lemma MapTable(f: Forwarding, kids: seq<Node<Term>>, t: seq<nat>)
    requires TableOk(t, kids, Indexable)
    ensures TableOk(t, MapNodes(f, kids), Indexable)
  {
    hide ElementsOf;
    MapNodesAt(f, kids);
    forall i | 0 <= i <= |kids| ensures Cum(MapNodes(f, kids), i) == Cum(kids, i) {
      MapNodesAt(f, kids[..i]);
      assert MapNodes(f, kids)[..i] == MapNodes(f, kids[..i]);
      MapElementsOf(f, kids[..i]);
    }
  }

  lemma MapListValid(f: Forwarding, v: Rrb<Term>)
    requires Valid(v, Indexable)
    ensures Valid(MapList(f, v), Indexable) && Contents(MapList(f, v)) == TrTerms(f, Contents(v))
  {
    if v.root.Some? {
      MapWf(f, v.root.value, v.height);
      MapElements(f, v.root.value);
    }
  }

  /** What can be compared before can be compared after. */
  lemma ComparableKept(s: Snapshot, to: nat, m: Memory, f: Forwarding)
    requires Collected(s, to, m, f) && Comparable(s.mem, s.rank)
    ensures Comparable(NewHeap(s, m, f), NewRank(s, f))
  {
    NewHeapOk(s, to, m, f);
    LiveRange(s);
    forall c | c in NewHeap(s, m, f)
      ensures NewHeap(s, m, f)[c].ListObj? ==> Valid(ListAt(NewHeap(s, m, f), NewRank(s, f), c), Indexable)
      ensures NewHeap(s, m, f)[c].TupleObj? ==> |NewHeap(s, m, f)[c].fields| < 255
    {
      var a := if c in f.Values then Inverse(f)[c] else c;
      assert TrAddr(f, a) == c && Kept(s, f, a);
      ObjKept(s, to, m, f, a);
      if s.mem[a].ListObj? {
        ListAtKept(s, to, m, f, a);
        MapListValid(f, ListAt(s.mem, s.rank, a));
      }
    }
  }

  /** No comparison can tell that a collection took place: what could be compared
      still can, with the same verdict, crashes included. */
  lemma ComparisonKept(s: Snapshot, to: nat, m: Memory, f: Forwarding, l: Term, r: Term)
    requires Collected(s, to, m, f) && KeptTerm(s, f, l) && KeptTerm(s, f, r) && Comparable(s.mem, s.rank)
    ensures Comparable(NewHeap(s, m, f), NewRank(s, f))
    ensures TermOk(NewHeap(s, m, f), Tr(f, l)) && TermOk(NewHeap(s, m, f), Tr(f, r))
    ensures TermsEq(NewHeap(s, m, f), NewRank(s, f), Tr(f, l), Tr(f, r)) == TermsEq(s.mem, s.rank, l, r)
  {
    ComparableKept(s, to, m, f);
    TermsEqKept(s, to, m, f, l, r);
  }

  lemma {:induction false} TermsEqKept(s: Snapshot, to: nat, m: Memory, f: Forwarding, l: Term, r: Term)
    requires Collected(s, to, m, f) && KeptTerm(s, f, l) && KeptTerm(s, f, r)
    requires Comparable(s.mem, s.rank) && Comparable(NewHeap(s, m, f), NewRank(s, f))
    ensures TermOk(NewHeap(s, m, f), Tr(f, l)) && TermOk(NewHeap(s, m, f), Tr(f, r))
    ensures TermsEq(NewHeap(s, m, f), NewRank(s, f), Tr(f, l), Tr(f, r)) == TermsEq(s.mem, s.rank, l, r)
    decreases Weight(s.rank, l), 1
  {
    hide Collected, NewHeap, NewRank, AllKept, TermsBelow, Valid;
    TermKept(s, to, m, f, l);
    TermKept(s, to, m, f, r);
    SharingKept(s, to, m, f, l, r);
    if l != r && l.tag == r.tag && IsRef(l) && IsRef(r) {
      ObjKept(s, to, m, f, l.ptr);
      ObjKept(s, to, m, f, r.ptr);
      var lr, rr := s.rank(l.ptr), s.rank(r.ptr);
      if l.tag == TUPLE {
        var ls, rs := s.mem[l.ptr].fields, s.mem[r.ptr].fields;
        if |ls| == |rs| { AllEqKept(s, to, m, f, ls, rs, lr, rr); }
      } else if l.tag == LIST {
        ListEqKept(s, to, m, f, l, r);
      }
    }
  }

  lemma ListEqKept(s: Snapshot, to: nat, m: Memory, f: Forwarding, l: Term, r: Term)
    requires Collected(s, to, m, f) && KeptTerm(s, f, l) && KeptTerm(s, f, r)
    requires Comparable(s.mem, s.rank) && Comparable(NewHeap(s, m, f), NewRank(s, f))
    requires l != r && l.tag == LIST && r.tag == LIST && IsRef(l) && IsRef(r)
    ensures TermOk(NewHeap(s, m, f), Tr(f, l)) && TermOk(NewHeap(s, m, f), Tr(f, r))
    ensures TermsEq(NewHeap(s, m, f), NewRank(s, f), Tr(f, l), Tr(f, r)) == TermsEq(s.mem, s.rank, l, r)
    decreases Weight(s.rank, l), 0
  {
    hide NewHeap, NewRank, AllKept, TermsBelow, TermsEq, Comparable, ListAt, Contents;
    TermKept(s, to, m, f, l);
    TermKept(s, to, m, f, r);
    SharingKept(s, to, m, f, l, r);
    ObjKept(s, to, m, f, l.ptr);
    ObjKept(s, to, m, f, r.ptr);
    ComparableIsOk(s.mem, s.rank);
    ComparableIsOk(NewHeap(s, m, f), NewRank(s, f));
    ListAtKept(s, to, m, f, l.ptr);
    ListAtKept(s, to, m, f, r.ptr);
    ListVerdict(s.mem, s.rank, l, r);
    ListVerdict(NewHeap(s, m, f), NewRank(s, f), Tr(f, l), Tr(f, r));
    var lc, rc := Contents(ListAt(s.mem, s.rank, l.ptr)), Contents(ListAt(s.mem, s.rank, r.ptr));
    if |lc| == |rc| {
      ListTermsKept(s, to, m, f, l.ptr);
      ListTermsKept(s, to, m, f, r.ptr);
      AllEqKept(s, to, m, f, lc, rc, s.rank(l.ptr), s.rank(r.ptr));
    }
  }

  lemma ComparableIsOk(m: Memory, rank: Rank)
    requires Comparable(m, rank)
    ensures HeapOk(m, rank)
  {}

  /** Comparing two lists compares their contents. */
  lemma ListVerdict(m: Memory, rank: Rank, l: Term, r: Term)
    requires Comparable(m, rank) && TermOk(m, l) && TermOk(m, r) && l != r && l.tag == LIST && r.tag == LIST
    ensures HeapOk(m, rank) && l.ptr in m && m[l.ptr].ListObj? && r.ptr in m && m[r.ptr].ListObj?
    ensures TermsBelow(m, rank, Contents(ListAt(m, rank, l.ptr)), rank(l.ptr))
    ensures TermsBelow(m, rank, Contents(ListAt(m, rank, r.ptr)), rank(r.ptr))
    ensures var lc, rc := Contents(ListAt(m, rank, l.ptr)), Contents(ListAt(m, rank, r.ptr));
            TermsEq(m, rank, l, r)
            == if |lc| == |rc| then AllEq(m, rank, lc, rc, rank(l.ptr), rank(r.ptr)) else Differ
  {
    ListContentsBelow(m, rank, l.ptr);
    ListContentsBelow(m, rank, r.ptr);
    var lv, rv := ListAt(m, rank, l.ptr), ListAt(m, rank, r.ptr);
    CountIsLength(lv);
    CountIsLength(rv);
    if lv.cnt == rv.cnt { ListsCompared(m, rank, lv, rv, rank(l.ptr), rank(r.ptr)); }
  }

  lemma CountIsLength(v: Rrb<Term>)
    requires Valid(v, Indexable)
    ensures v.cnt == |Contents(v)|
  {}

  lemma ListsCompared(m: Memory, rank: Rank, l: Rrb<Term>, r: Rrb<Term>, lr: nat, rr: nat)
    requires Comparable(m, rank) && Valid(l, Indexable) && Valid(r, Indexable) && l.cnt == r.cnt
    requires TermsBelow(m, rank, Contents(l), lr) && TermsBelow(m, rank, Contents(r), rr)
    ensures |Contents(l)| == |Contents(r)|
    ensures ListEq(m, rank, l, r, 0, lr, rr) == AllEq(m, rank, Contents(l), Contents(r), lr, rr)
  {
    ListEqIsAllEq(m, rank, l, r, 0, lr, rr);
    assert Contents(l)[0..] == Contents(l) && Contents(r)[0..] == Contents(r);
  }

  lemma {:induction false} AllEqKept(s: Snapshot, to: nat, m: Memory, f: Forwarding, ls: seq<Term>, rs: seq<Term>,
      lr: nat, rr: nat)
    requires Collected(s, to, m, f) && AllKept(s, f, ls) && AllKept(s, f, rs) && |ls| == |rs|
    requires Comparable(s.mem, s.rank) && Comparable(NewHeap(s, m, f), NewRank(s, f))
    requires TermsBelow(s.mem, s.rank, ls, lr) && TermsBelow(s.mem, s.rank, rs, rr)
    ensures TermsBelow(NewHeap(s, m, f), NewRank(s, f), TrTerms(f, ls), lr)
    ensures TermsBelow(NewHeap(s, m, f), NewRank(s, f), TrTerms(f, rs), rr)
    ensures AllEq(NewHeap(s, m, f), NewRank(s, f), TrTerms(f, ls), TrTerms(f, rs), lr, rr)
         == AllEq(s.mem, s.rank, ls, rs, lr, rr)
    decreases lr, 2, |ls|
  {
    assert Injective(f);
    hide Collected, NewHeap, NewRank, Comparable, TermsEq, KeptTerm, Tr, Injective, AllEq, HeapOk;
    ComparableIsOk(s.mem, s.rank);
    ComparableIsOk(NewHeap(s, m, f), NewRank(s, f));
    TermsKept(s, to, m, f, ls, lr);
    TermsKept(s, to, m, f, rs, rr);
    AllEqStep(s.mem, s.rank, ls, rs, lr, rr);
    AllEqStep(NewHeap(s, m, f), NewRank(s, f), TrTerms(f, ls), TrTerms(f, rs), lr, rr);
    if ls != [] {
      assert KeptTerm(s, f, ls[0]) && KeptTerm(s, f, rs[0]);
      assert TermBelow(s.mem, s.rank, ls[0], lr) && TermBelow(s.mem, s.rank, rs[0], rr);
      TermsEqKept(s, to, m, f, ls[0], rs[0]);
      assert TrTerms(f, ls)[1..] == TrTerms(f, ls[1..]) && TrTerms(f, rs)[1..] == TrTerms(f, rs[1..]);
      AllEqKept(s, to, m, f, ls[1..], rs[1..], lr, rr);
    }
  }

  /** One comparison of a pairwise comparison. */
  lemma AllEqStep(m: Memory, rank: Rank, ls: seq<Term>, rs: seq<Term>, lr: nat, rr: nat)
    requires Comparable(m, rank) && |ls| == |rs|
    requires TermsBelow(m, rank, ls, lr) && TermsBelow(m, rank, rs, rr)
    ensures ls == [] ==> AllEq(m, rank, ls, rs, lr, rr) == Equal
    ensures ls != [] ==>
              TermBelow(m, rank, ls[0], lr) && TermBelow(m, rank, rs[0], rr)
              && TermsBelow(m, rank, ls[1..], lr) && TermsBelow(m, rank, rs[1..], rr)
              && var first := TermsEq(m, rank, ls[0], rs[0]);
                 AllEq(m, rank, ls, rs, lr, rr) == if first == Equal then AllEq(m, rank, ls[1..], rs[1..], lr, rr)
                     else first
  {
    hide TermsEq;
  }

  // ---------- what gc_collect delivers ----------

  /** The state after a collection, in these terms. */
  lemma CollectionIsCollected(s: Snapshot, to: nat, p: Progress)
    requires Inv(s, to, p) && OffHeapOk(s) && Plain(s)
    requires forall c :: c in s.mem ==> !InSpace(to, s.size, c)
    requires forall c :: c in s.mem && c !in s.live ==> c in p.mem && p.mem[c] == s.mem[c]
    ensures Collected(s, to, p.mem, p.forward)
  {
    TotalNonNegative(s, to, p);
    ForwardedOnHeap(s, to, p);
    forall a | a in p.forward ensures p.mem[p.forward[a]] == TrObj(p.forward, s.mem[a]) {
      AlikeIsTranslated(s, p.forward, s.mem[a], p.mem[p.forward[a]]);
    }
  }

  lemma AlikeIsTranslated(s: Snapshot, f: Forwarding, o: Obj, c: Obj)
    requires Alike(f, o, c) && IntsApart(s, Terms(o)) && forall a :: a in f ==> OnHeap(s.from, s.size, a)
    ensures c == TrObj(f, o)
  {
    if o.TupleObj? || o.FunctionObj? || o.LeafObj? { FollowIsTranslated(s, f, Terms(o), Terms(c)); }
  }

  lemma FollowIsTranslated(s: Snapshot, f: Forwarding, ts: seq<Term>, us: seq<Term>)
    requires AllFollow(f, ts, us) && IntsApart(s, ts) && forall a :: a in f ==> OnHeap(s.from, s.size, a)
    ensures us == TrTerms(f, ts)
  {
    forall i | 0 <= i < |ts| ensures us[i] == TrTerms(f, ts)[i] { assert Follows(f, ts[i], us[i]); }
  }

  /** Integers whose value is no heap address stay as they are, in registers and in
      objects. */
  lemma IntegersOutsideStay(s: Snapshot, to: nat, p: Progress, ts: seq<Term>, us: seq<Term>)
    requires Inv(s, to, p) && AllFollow(p.forward, ts, us)
    ensures forall i :: 0 <= i < |ts| && ts[i].tag == INT && !OnHeap(s.from, s.size, ts[i].ptr) ==> us[i] == ts[i]
  {
    ForwardedOnHeap(s, to, p);
    forall i | 0 <= i < |ts| && ts[i].tag == INT && !OnHeap(s.from, s.size, ts[i].ptr) ensures us[i] == ts[i] {
      assert Follows(p.forward, ts[i], us[i]);
    }
  }

  /** A register that was covered survives. */
  lemma RegisterKept(s: Snapshot, to: nat, p: Progress, regs: seq<Term>, us: seq<Term>)
    requires Inv(s, to, p) && RootsOk(s, regs) && TermsCovered(s, p.forward, regs)
    requires IntsApart(s, regs) && AllFollow(p.forward, regs, us)
    ensures AllKept(s, p.forward, regs) && us == TrTerms(p.forward, regs)
  {
    ForwardedOnHeap(s, to, p);
    FollowIsTranslated(s, p.forward, regs, us);
  }

  /** The word u stands after the collection for what t stood for before, functions
      being named by their new places. */
  ghost predicate SameValue(s: Snapshot, m: Memory, f: Forwarding, name: Addr -> nat, t: Term, u: Term) {
    && Injective(f) && HeapOk(s.mem, s.rank) && TermOk(s.mem, t)
    && HeapOk(NewHeap(s, m, f), NewRank(s, f)) && TermOk(NewHeap(s, m, f), u)
    && ValueOf(NewHeap(s, m, f), NewRank(s, f), name, u) == ValueOf(s.mem, s.rank, Renamed(f, name), t)
  }

  ghost predicate SameValues(s: Snapshot, m: Memory, f: Forwarding, ts: seq<Term>, us: seq<Term>) {
    |ts| == |us| && forall i, name: Addr -> nat :: 0 <= i < |ts| ==> SameValue(s, m, f, name, ts[i], us[i])
  }

  lemma RegisterValues(s: Snapshot, to: nat, m: Memory, f: Forwarding, regs: seq<Term>)
    requires Collected(s, to, m, f) && AllKept(s, f, regs)
    ensures SameValues(s, m, f, regs, TrTerms(f, regs))
  {
    forall i, name: Addr -> nat | 0 <= i < |regs| ensures SameValue(s, m, f, name, regs[i], TrTerms(f, regs)[i]) {
      assert KeptTerm(s, f, regs[i]);
      RegisterValue(s, to, m, f, name, regs[i]);
    }
  }

  lemma RegisterValue(s: Snapshot, to: nat, m: Memory, f: Forwarding, name: Addr -> nat, t: Term)
    requires Collected(s, to, m, f) && KeptTerm(s, f, t)
    ensures SameValue(s, m, f, name, t, Tr(f, t))
  {
    NewHeapOk(s, to, m, f);
    CollectedHeapOk(s, to, m, f);
    assert Injective(f);
    hide Collected, NewHeap, NewRank, HeapOk, Injective;
    ValueKept(s, to, m, f, name, t);
  }
}
