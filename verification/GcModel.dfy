/**
 What a copying collection maintains, stated on values: the heap as it was, the
 forwarding addresses set so far, and the objects still to be copied.
 */
module GcModel {
  import opened Seqs
  import opened Heap

  // ---------- sizes ----------

  const ALIGNMENT: nat := 8
  const WORD: nat := 8

  function Align(size: nat): nat {
    if size % ALIGNMENT == 0 then size else size + (ALIGNMENT - size % ALIGNMENT)
  }

  /** The bytes an object takes up, without its forward flag. */
  function HeapSize(o: Obj): nat {
    match o
    case TupleObj(fields) => Align((|fields| + 1) * WORD)
    case FunctionObj(_, upvalues) => Align(24 + |upvalues| * WORD)
    case ListObj(_, _, _, _, _) => Align(32)
    case StringObj(text) => Align(|text|)
    case LeafObj(elems) => 16 + |elems| * WORD
    case InnerObj(kids, _) => 24 + |kids| * WORD
  }

  /** The bytes of a node's size table, which is copied together with it. */
  function TableSize(o: Obj): nat {
    if o.InnerObj? && o.table.Some? then 8 + |o.kids| * 4 else 0
  }

  /** What copying an object uses up of the space, flags included. */
  function Cost(o: Obj): nat {
    HeapSize(o) + 1 + if o.InnerObj? && o.table.Some? then TableSize(o) + 1 else 0
  }

  // ---------- what lies in memory ----------

  /** The words of 8 bytes that an object consists of. */
  datatype Word =
    | Length(len: nat)
    | Location(at: nat)
    | Counts(first: nat, second: nat)
    | Other
    | Of(term: Term)
    | Node(node: Addr)

  /** A tuple is its length and its fields; a closure its location, a name and the number
      of its upvalues, and these; a header two words of counts and two nodes; a tree node
      its type with its length, one more word and its elements, or that, the address of a
      table and its children. */
  function Words(o: Obj): seq<Word> {
    match o
    case TupleObj(fields) => [Length(|fields|)] + OfTerms(fields)
    case FunctionObj(location, upvalues) => [Location(location), Other, Length(|upvalues|)] + OfTerms(upvalues)
    case ListObj(cnt, height, tailLen, root, tail) =>
      [Counts(cnt, height), Length(tailLen), Node(tail), if root.None? then Other else Node(root.value)]
    case LeafObj(elems) => [Length(|elems|), Other] + OfTerms(elems)
    case InnerObj(kids, _) => [Length(|kids|), Other, Other] + OfNodes(kids)
    case StringObj(_) => []
  }

  function OfTerms(ts: seq<Term>): (r: seq<Word>)
    ensures |r| == |ts|
  {
    seq(|ts|, i requires 0 <= i < |ts| => Of(ts[i]))
  }

  function OfNodes(ks: seq<Addr>): (r: seq<Word>)
    ensures |r| == |ks|
  {
    seq(|ks|, i requires 0 <= i < |ks| => Node(ks[i]))
  }

  /** The bytes that an object and its table hold. */
  function Bytes(o: Obj): nat {
    if o.StringObj? then |o.text| else 8 * |Words(o)|
  }

  /** A word, and the entries in 4 bytes each. */
  function TableBytes(o: Obj): nat {
    if o.InnerObj? && o.table.Some? then 8 + 4 * |o.kids| else 0
  }

  /** The room taken is what the object holds, rounded up to words. */
  lemma RoomIsBytes(o: Obj)
    ensures Bytes(o) <= HeapSize(o) < Bytes(o) + 8 && HeapSize(o) % 8 == 0
    ensures !o.StringObj? ==> HeapSize(o) == Bytes(o)
    ensures TableSize(o) == TableBytes(o)
    ensures Cost(o) == Bytes(o) + (HeapSize(o) - Bytes(o)) + 1 + if TableBytes(o) > 0 then TableBytes(o) + 1 else 0
  {}

  ghost function Total(m: Memory, s: set<Addr>): nat
    requires s <= m.Keys
  {
    if s == {} then 0 else
      var a :| a in s;
      Cost(m[a]) + Total(m, s - {a})
  }

  lemma {:induction false} TotalRemove(m: Memory, s: set<Addr>, a: Addr)
    requires s <= m.Keys && a in s
    ensures Total(m, s) == Cost(m[a]) + Total(m, s - {a})
    decreases |s|
  {
    var b :| b in s && Total(m, s) == Cost(m[b]) + Total(m, s - {b});
    if a != b {
      TotalRemove(m, s - {b}, a);
      TotalRemove(m, s - {a}, b);
      assert s - {a} - {b} == s - {b} - {a};
    }
  }

  // ---------- the heap before the collection ----------

  /** The heap as it was, a set of objects that contains all that is to survive,
      and the space being emptied. */
  datatype Snapshot = Snapshot(mem: Memory, rank: Rank, live: set<Addr>, from: nat, size: nat)

  /** ON_HEAP: the test covers as many bytes as both spaces together have. */
  predicate OnHeap(from: nat, size: nat, p: nat) {
    from <= p <= from + size
  }

  /** One of the two spaces. */
  predicate InSpace(start: nat, size: nat, a: Addr) {
    start <= a <= start + size / 2
  }

  /** A word whose payload looks like a heap address, and that is no integer, is a
      reference to a live object. */
  ghost predicate Settled(s: Snapshot, t: Term) {
    OnHeap(s.from, s.size, t.ptr) ==> t.tag == INT || (IsRef(t) && t.ptr in s.live)
  }

  /** A word that refers to an object on the heap. */
  predicate RefersTo(s: Snapshot, t: Term) {
    OnHeap(s.from, s.size, t.ptr) && t.tag != INT
  }

  ghost predicate AllSettled(s: Snapshot, ts: seq<Term>) {
    forall i :: 0 <= i < |ts| ==> Settled(s, ts[i])
  }

  /** The words stored in a tuple, a closure or a leaf. */
  function Terms(o: Obj): seq<Term> {
    match o
    case TupleObj(fields) => fields
    case FunctionObj(_, upvalues) => upvalues
    case LeafObj(elems) => elems
    case _ => []
  }

  function WithTerms(o: Obj, ts: seq<Term>): (r: Obj)
    ensures |ts| == |Terms(o)| && (o.TupleObj? || o.FunctionObj? || o.LeafObj?) ==> Terms(r) == ts
  {
    match o
    case TupleObj(_) => TupleObj(ts)
    case FunctionObj(location, _) => FunctionObj(location, ts)
    case LeafObj(_) => LeafObj(ts)
    case _ => o
  }

  /** The node addresses stored in a list header or an inner node. */
  function NodeRefs(o: Obj): seq<Addr> {
    match o
    case ListObj(_, _, _, root, tail) => if root.Some? then [root.value, tail] else [tail]
    case InnerObj(kids, _) => kids
    case _ => []
  }

  /** A live object is where the test for the heap covers it, not an empty string, and
      all it refers to is live or not covered.  When the upper space is emptied, the
      test also covers what lies behind the heap, and such objects are live ones like
      any other. */
  ghost predicate LiveOk(s: Snapshot, a: Addr)
    requires a in s.mem
  {
    && OnHeap(s.from, s.size, a)
    && (s.mem[a].StringObj? ==> s.mem[a].text != [])
    && AllSettled(s, Terms(s.mem[a]))
    && (forall i :: 0 <= i < |NodeRefs(s.mem[a])| ==> NodeRefs(s.mem[a])[i] in s.live)
  }

  ghost predicate SnapshotOk(s: Snapshot) {
    && s.from > 0
    && s.live <= s.mem.Keys
    && HeapOk(s.mem, s.rank)
    && (forall a :: a in s.live ==> LiveOk(s, a))
  }

  // ---------- translation to the new space ----------

  type Forwarding = map<Addr, Addr>

  function Tr(f: Forwarding, t: Term): Term {
    if t.ptr in f then Term(t.tag, f[t.ptr]) else t
  }

  function TrAddr(f: Forwarding, a: Addr): Addr {
    if a in f then f[a] else a
  }

  function TrTerms(f: Forwarding, ts: seq<Term>): (r: seq<Term>)
    ensures |r| == |ts|
  {
    seq(|ts|, i requires 0 <= i < |ts| => Tr(f, ts[i]))
  }

  function TrAddrs(f: Forwarding, s: seq<Addr>): (r: seq<Addr>)
    ensures |r| == |s|
  {
    seq(|s|, i requires 0 <= i < |s| => TrAddr(f, s[i]))
  }

  function TrObj(f: Forwarding, o: Obj): Obj {
    match o
    case ListObj(cnt, height, tailLen, root, tail) =>
      ListObj(cnt, height, tailLen, if root.None? then None else Some(TrAddr(f, root.value)), TrAddr(f, tail))
    case InnerObj(kids, table) => InnerObj(TrAddrs(f, kids), Truncate(table, |kids|))
    case StringObj(_) => o
    case _ => WithTerms(o, TrTerms(f, Terms(o)))
  }

  /** A word after the move.  An integer is left alone or, when it was taken for a
      reference, changed like one. */
  ghost predicate Follows(f: Forwarding, t: Term, u: Term) {
    u == Tr(f, t) || (t.tag == INT && u == t)
  }

  ghost predicate AllFollow(f: Forwarding, ts: seq<Term>, us: seq<Term>) {
    |ts| == |us| && forall i :: 0 <= i < |ts| ==> Follows(f, ts[i], us[i])
  }

  /** An object and its copy. */
  ghost predicate Alike(f: Forwarding, o: Obj, c: Obj) {
    if o.TupleObj? || o.FunctionObj? || o.LeafObj? then c == WithTerms(o, Terms(c)) && AllFollow(f, Terms(o), Terms(c))
    else c == TrObj(f, o)
  }

  ghost predicate TermsCovered(s: Snapshot, f: Forwarding, ts: seq<Term>) {
    forall i :: 0 <= i < |ts| && RefersTo(s, ts[i]) ==> ts[i].ptr in f
  }

  /** Everything on the heap an object refers to has been forwarded. */
  ghost predicate Covered(s: Snapshot, f: Forwarding, o: Obj) {
    && TermsCovered(s, f, Terms(o))
    && (forall i :: 0 <= i < |NodeRefs(o)| ==> NodeRefs(o)[i] in f)
  }

  // ---------- the state of a collection ----------

  /** Memory, the forwarding addresses set, the live objects for which no room has
      been taken yet, and the allocation pointer. */
  datatype Progress = Progress(mem: Memory, forward: Forwarding, pending: set<Addr>, alloc: nat)

  ghost predicate Injective(f: Forwarding) {
    forall a, b :: a in f && b in f && f[a] == f[b] ==> a == b
  }

  /** Every forwarded object has a copy like it, and so has all it refers to. */
  ghost predicate Copied(s: Snapshot, m: Memory, f: Forwarding) {
    forall a :: a in f ==>
      a in s.live && a in s.mem && f[a] in m && Covered(s, f, s.mem[a]) && Alike(f, s.mem[a], m[f[a]])
  }

  /** The bytes of the copies, their tables before them, lie in what was allocated, and
      no two copies share one. */
  ghost predicate BytesApart(s: Snapshot, to: nat, p: Progress) {
    && (forall a :: a in p.forward ==>
          a in s.mem && to < FirstByte(s, p.forward, a) && p.forward[a] + Bytes(s.mem[a]) <= p.alloc)
    && (forall a, b :: a in p.forward && b in p.forward && a != b ==>
          p.forward[a] + Bytes(s.mem[a]) <= FirstByte(s, p.forward, b)
          || p.forward[b] + Bytes(s.mem[b]) <= FirstByte(s, p.forward, a))
  }

  /** The first byte of a copy, or of its table, which lies before it. */
  ghost function FirstByte(s: Snapshot, f: Forwarding, a: Addr): int
    requires a in f && a in s.mem
  {
    f[a] - if TableBytes(s.mem[a]) > 0 then TableBytes(s.mem[a]) + 1 else 0
  }

  lemma RoomsHoldBytes(s: Snapshot, to: nat, p: Progress)
    requires Inv(s, to, p)
    ensures BytesApart(s, to, p)
  {
    hide Total, SnapshotOk, Copied, Injective, HeapSize, Cost, TableSize, Bytes, TableBytes;
    forall a | a in p.forward
      ensures a in s.mem && RoomStart(s, p.forward, a) < FirstByte(s, p.forward, a)
      ensures p.forward[a] + Bytes(s.mem[a]) <= RoomEnd(s, p.forward, a)
    {
      RoomIsBytes(s.mem[a]);
    }
    forall a, b | a in p.forward && b in p.forward && a != b
      ensures p.forward[a] + Bytes(s.mem[a]) <= FirstByte(s, p.forward, b)
          || p.forward[b] + Bytes(s.mem[b]) <= FirstByte(s, p.forward, a)
    {
      assert RoomEnd(s, p.forward, a) <= RoomStart(s, p.forward, b)
          || RoomEnd(s, p.forward, b) <= RoomStart(s, p.forward, a);
    }
  }

  /** Where the room taken for an object, its table and the flags, begins. */
  ghost function RoomStart(s: Snapshot, f: Forwarding, a: Addr): int
    requires a in f && a in s.mem
  {
    f[a] + HeapSize(s.mem[a]) - Cost(s.mem[a])
  }

  ghost function RoomEnd(s: Snapshot, f: Forwarding, a: Addr): int
    requires a in f && a in s.mem
  {
    f[a] + HeapSize(s.mem[a])
  }

  /** The rooms lie in what was allocated, and no two overlap. */
  ghost predicate Packed(s: Snapshot, to: nat, f: Forwarding, alloc: nat) {
    && (forall a :: a in f ==> a in s.mem && to <= RoomStart(s, f, a) && RoomEnd(s, f, a) <= alloc)
    && (forall a, b :: a in f && b in f && a != b ==>
          RoomEnd(s, f, a) <= RoomStart(s, f, b) || RoomEnd(s, f, b) <= RoomStart(s, f, a))
  }

  lemma PackedMore(s: Snapshot, to: nat, f: Forwarding, alloc: nat, more: nat)
    requires Packed(s, to, f, alloc) && alloc <= more
    ensures Packed(s, to, f, more)
  {}

  ghost predicate Disjoint(s: Snapshot, to: nat) {
    to + s.size / 2 <= s.from || s.from + s.size / 2 <= to
  }

  /** No live object lies in the space to be filled. */
  ghost predicate Apart(s: Snapshot, to: nat) {
    forall a :: a in s.live ==> !InSpace(to, s.size, a)
  }

  ghost predicate Inv(s: Snapshot, to: nat, p: Progress) {
    && SnapshotOk(s) && Disjoint(s, to) && Apart(s, to)
    && s.live <= p.mem.Keys
    && p.forward.Keys <= s.live && p.pending <= s.live && p.forward.Keys !! p.pending
    && Copied(s, p.mem, p.forward)
    && Injective(p.forward) && Packed(s, to, p.forward, p.alloc)
    && (forall a :: a in p.forward ==> to < p.forward[a] < p.alloc)
    && to <= p.alloc
    && p.alloc + Total(s.mem, p.pending) == to + Total(s.mem, s.live) <= to + s.size / 2
    && (forall c :: c in p.mem ==> !(p.alloc < c <= to + s.size / 2))
  }

  /** Objects of rank below the bound are either copied or untouched; those being
      copied at the moment have a higher rank. */
  ghost predicate Intact(s: Snapshot, p: Progress, bound: nat) {
    && s.live <= s.mem.Keys && s.live <= p.mem.Keys
    && forall a :: a in s.live && s.rank(a) < bound ==>
         a in p.forward || (a in p.pending && p.mem[a] == s.mem[a])
  }

  /** What copying below a bound may change; `except` is the object whose contents
      are being rewritten. */
  ghost predicate Advance(s: Snapshot, p: Progress, q: Progress, bound: nat, except: set<Addr>) {
    && (forall a :: a in p.forward ==> a in q.forward && q.forward[a] == p.forward[a])
    && q.pending <= p.pending
    && q.pending + q.forward.Keys == p.pending + p.forward.Keys
    && (forall a :: a in p.pending && a !in q.pending ==> s.rank(a) < bound)
    && (forall a :: a in p.mem && (a in q.pending || a !in s.live) && a !in except ==>
          a in q.mem && q.mem[a] == p.mem[a])
    && p.mem.Keys <= q.mem.Keys
    && p.alloc <= q.alloc
    && AllBehind(s, p, q)
  }

  ghost predicate AllBehind(s: Snapshot, p: Progress, q: Progress) {
    forall a :: a in q.forward && a !in p.forward ==> q.forward[a] > p.alloc && Behind(s, p, q, a)
  }

  lemma BehindTransitive(s: Snapshot, p: Progress, q: Progress, r: Progress)
    requires AllBehind(s, p, q) && AllBehind(s, q, r) && p.alloc <= q.alloc
    requires forall a :: a in q.forward ==> a in r.forward && r.forward[a] == q.forward[a]
    ensures AllBehind(s, p, r)
  {
    hide HeapSize, Cost;
  }

  /** ... also of one more object. */
  lemma BehindToo(s: Snapshot, p: Progress, r: Progress, q: Progress, z: Progress, a: Addr, c: Addr)
    requires AllBehind(s, r, q) && r.forward == p.forward && p.alloc <= r.alloc
    requires a in s.mem && z.forward == q.forward[a := c] && c + HeapSize(s.mem[a]) - Cost(s.mem[a]) >= p.alloc
    ensures AllBehind(s, p, z)
  {
    RoomAtLeast(s.mem[a]);
    hide HeapSize, Cost;
  }

  lemma RoomAtLeast(o: Obj)
    ensures HeapSize(o) < Cost(o)
  {}

  /** The room of a newly forwarded object begins behind what was allocated. */
  ghost predicate Behind(s: Snapshot, p: Progress, q: Progress, a: Addr)
    requires a in q.forward
  {
    a in s.mem && RoomStart(s, q.forward, a) >= p.alloc
  }

  lemma AdvanceTransitive(s: Snapshot, p: Progress, q: Progress, r: Progress, bound: nat, except: set<Addr>)
    requires Advance(s, p, q, bound, except) && Advance(s, q, r, bound, except)
    ensures Advance(s, p, r, bound, except)
  {
    BehindTransitive(s, p, q, r);
    hide AllBehind;
  }

  lemma AdvanceForward(s: Snapshot, p: Progress, q: Progress, bound: nat, except: set<Addr>)
    requires Advance(s, p, q, bound, except)
    ensures p.forward.Keys <= q.forward.Keys
  {}

  /** Later forwardings do not change what is already moved. */
  lemma FollowStable(s: Snapshot, f: Forwarding, g: Forwarding, ts: seq<Term>, us: seq<Term>)
    requires TermsCovered(s, f, ts) && AllFollow(f, ts, us)
    requires forall a :: a in f ==> a in g && g[a] == f[a]
    requires forall a :: a in g ==> OnHeap(s.from, s.size, a)
    ensures AllFollow(g, ts, us) && TermsCovered(s, g, ts)
  {
    forall i | 0 <= i < |ts| ensures Follows(g, ts[i], us[i]) {
      assert Follows(f, ts[i], us[i]);
    }
  }

  lemma AlikeStable(s: Snapshot, f: Forwarding, g: Forwarding, o: Obj, c: Obj)
    requires Covered(s, f, o) && Alike(f, o, c)
    requires forall a :: a in f ==> a in g && g[a] == f[a]
    requires forall a :: a in g ==> OnHeap(s.from, s.size, a)
    ensures Alike(g, o, c) && Covered(s, g, o)
  {
    match o
    case ListObj(_, _, _, root, tail) =>
      assert NodeRefs(o)[|NodeRefs(o)| - 1] == tail;
      if root.Some? { assert NodeRefs(o)[0] == root.value; }
    case InnerObj(kids, _) =>
      assert NodeRefs(o) == kids;
      assert TrAddrs(g, kids) == TrAddrs(f, kids);
    case StringObj(_) =>
    case _ => FollowStable(s, f, g, Terms(o), Terms(c));
  }

  lemma LiveRange(s: Snapshot)
    requires SnapshotOk(s)
    ensures forall x :: x in s.live ==> OnHeap(s.from, s.size, x)
  {
    forall x | x in s.live ensures OnHeap(s.from, s.size, x) { assert LiveOk(s, x); }
  }

  lemma ForwardedOnHeap(s: Snapshot, to: nat, p: Progress)
    requires Inv(s, to, p)
    ensures forall a :: a in p.forward ==> OnHeap(s.from, s.size, a)
    ensures forall a :: a in p.forward ==> p.forward[a] !in s.live
  {
    LiveRange(s);
    TotalNonNegative(s, to, p);
  }

  /** All addresses handed out lie in the new space. */
  lemma TotalNonNegative(s: Snapshot, to: nat, p: Progress)
    requires Inv(s, to, p)
    ensures p.alloc <= to + s.size / 2
  {}

  /** Writing to an object that no forwarding address points to. */
  lemma WriteKeepsInv(s: Snapshot, to: nat, p: Progress, o: Addr, obj: Obj, bound: nat)
    requires Inv(s, to, p) && Intact(s, p, bound) && o in p.mem
    requires forall a :: a in p.forward ==> p.forward[a] != o
    requires o in s.live ==> s.rank(o) >= bound
    ensures Inv(s, to, p.(mem := p.mem[o := obj])) && Intact(s, p.(mem := p.mem[o := obj]), bound)
  {
    hide SnapshotOk, Total, Disjoint, Injective, TrObj, Covered, Alike, Packed;
    assert p.mem[o := obj].Keys == p.mem.Keys;
  }

  /** Where the copy of an object goes: behind the copy of its table, if any. */
  function Place(alloc: nat, o: Obj): nat {
    alloc + Cost(o) - HeapSize(o)
  }

  /** Taking room for an object fits, and gives a fresh address. */
  lemma RoomFits(s: Snapshot, to: nat, p: Progress, a: Addr)
    requires Inv(s, to, p) && a in p.pending
    ensures p.alloc + Cost(s.mem[a]) <= to + s.size / 2
    ensures Place(p.alloc, s.mem[a]) !in p.mem && Place(p.alloc, s.mem[a]) !in s.live
    ensures p.alloc < Place(p.alloc, s.mem[a]) < p.alloc + Cost(s.mem[a])
    ensures Total(s.mem, p.pending) == Cost(s.mem[a]) + Total(s.mem, p.pending - {a})
    ensures HeapSize(s.mem[a]) > 0
  {
    TotalRemove(s.mem, p.pending, a);
    assert LiveOk(s, a);
    LiveRange(s);
  }

  /** The progress after room was taken for the copy of `a`, with `obj` in it. */
  ghost function Reserved(s: Snapshot, p: Progress, a: Addr, obj: Obj): Progress
    requires a in s.mem
  {
    var o := s.mem[a];
    Progress(p.mem[Place(p.alloc, o) := obj], p.forward, p.pending - {a}, p.alloc + Cost(o))
  }

  lemma Reserve(s: Snapshot, to: nat, p: Progress, a: Addr, obj: Obj)
    requires Inv(s, to, p) && a in p.pending
    ensures var q, c := Reserved(s, p, a, obj), Place(p.alloc, s.mem[a]);
            && Inv(s, to, q)
            && (forall x :: x in p.forward ==> p.forward[x] != c)
            && to < c < q.alloc && c !in p.mem && c !in s.live
            && (Intact(s, p, s.rank(a)) ==> Intact(s, q, s.rank(a)))
  {
    hide HeapSize, Cost, Total, HeapOk, Covered, Alike;
    RoomFits(s, to, p, a);
    PackedMore(s, to, p.forward, p.alloc, p.alloc + Cost(s.mem[a]));
  }

  /** The room of a copy at `c`, apart from all others. */
  ghost predicate RoomFree(s: Snapshot, to: nat, p: Progress, a: Addr, c: Addr) {
    && a in s.mem && to <= c + HeapSize(s.mem[a]) - Cost(s.mem[a]) && c + HeapSize(s.mem[a]) <= p.alloc
    && forall x :: x in p.forward ==>
         x in s.mem && (RoomEnd(s, p.forward, x) <= c + HeapSize(s.mem[a]) - Cost(s.mem[a])
                        || c + HeapSize(s.mem[a]) <= RoomStart(s, p.forward, x))
  }

  /** Setting the forwarding address once the copy is complete. */
  lemma Publish(s: Snapshot, to: nat, p: Progress, a: Addr, c: Addr, bound: nat)
    requires Inv(s, to, p) && a in s.live && a !in p.pending && a !in p.forward
    requires to < c < p.alloc && c in p.mem && forall x :: x in p.forward ==> p.forward[x] != c
    requires Covered(s, p.forward, s.mem[a]) && Alike(p.forward, s.mem[a], p.mem[c]) && RoomFree(s, to, p, a, c)
    requires forall x :: x in s.live && s.rank(x) < bound ==>
               x == a || x in p.forward || (x in p.pending && p.mem[x] == s.mem[x])
    ensures var q := p.(forward := p.forward[a := c]);
            Inv(s, to, q) && Intact(s, q, bound)
  {
    hide Total, Disjoint, HeapOk, TrObj, Covered, Alike, Packed, RoomFree;
    ForwardedOnHeap(s, to, p);
    var g := p.forward[a := c];
    assert LiveOk(s, a);
    forall x | x in g
      ensures x in s.live && g[x] in p.mem && Covered(s, g, s.mem[x]) && Alike(g, s.mem[x], p.mem[g[x]])
    {
      AlikeStable(s, p.forward, g, s.mem[x], p.mem[g[x]]);
    }
    PackedWith(s, to, p, a, c);
  }

  lemma PackedWith(s: Snapshot, to: nat, p: Progress, a: Addr, c: Addr)
    requires Packed(s, to, p.forward, p.alloc) && RoomFree(s, to, p, a, c) && a !in p.forward
    ensures Packed(s, to, p.forward[a := c], p.alloc)
  {
    hide HeapSize, Cost;
    var g := p.forward[a := c];
    forall x, y | x in g && y in g && x != y
      ensures RoomEnd(s, g, x) <= RoomStart(s, g, y) || RoomEnd(s, g, y) <= RoomStart(s, g, x)
    {
      if x != a && y != a {
        assert RoomEnd(s, p.forward, x) <= RoomStart(s, p.forward, y)
            || RoomEnd(s, p.forward, y) <= RoomStart(s, p.forward, x);
      }
    }
  }

  /** The room taken before the contents were copied is still free of others. */
  lemma RoomStaysFree(s: Snapshot, to: nat, start: Progress, a: Addr, obj: Obj, q: Progress, bound: nat)
    requires Packed(s, to, start.forward, start.alloc) && Packed(s, to, q.forward, q.alloc)
    requires a in s.mem && to <= start.alloc
    requires Advance(s, Reserved(s, start, a, obj), q, bound, {Place(start.alloc, s.mem[a])})
    ensures RoomFree(s, to, q, a, Place(start.alloc, s.mem[a]))
  {
    hide HeapSize;
    var r := Reserved(s, start, a, obj);
    forall x | x in q.forward
      ensures RoomEnd(s, q.forward, x) <= start.alloc || start.alloc + Cost(s.mem[a]) <= RoomStart(s, q.forward, x)
    {
      if x in start.forward { assert q.forward[x] == start.forward[x]; } else { assert Behind(s, r, q, x); }
    }
  }

  lemma RoomIsFree(s: Snapshot, to: nat, p: Progress, a: Addr, obj: Obj)
    requires Inv(s, to, p) && a in p.pending && a in s.mem
    ensures RoomFree(s, to, Reserved(s, p, a, obj), a, Place(p.alloc, s.mem[a]))
  {
    hide HeapSize, Cost, Total, SnapshotOk, Copied, Injective, Disjoint;
    RoomAtLeast(s.mem[a]);
  }

  /** Reserving, filling and publishing together advance the collection. */
  lemma CopyAdvances(s: Snapshot, p: Progress, a: Addr, obj: Obj, q: Progress, bound: nat)
    requires a in s.mem && a in p.pending && a !in p.forward && s.rank(a) < bound
    requires Place(p.alloc, s.mem[a]) !in p.mem
    requires Advance(s, Reserved(s, p, a, obj), q, s.rank(a), {Place(p.alloc, s.mem[a])})
    ensures Advance(s, p, q.(forward := q.forward[a := Place(p.alloc, s.mem[a])]), bound, {})
  {
    hide HeapSize, Cost, AllBehind;
    var r := Reserved(s, p, a, obj);
    var z := q.(forward := q.forward[a := Place(p.alloc, s.mem[a])]);
    BehindToo(s, p, r, q, z, a, Place(p.alloc, s.mem[a]));
    assert a !in r.pending + r.forward.Keys;
    assert z.forward.Keys == q.forward.Keys + {a};
    assert p.pending + p.forward.Keys == r.pending + r.forward.Keys + {a};
  }

  /** The progress after a tree node, already rewritten to `obj`, was moved. */
  ghost function Moved(s: Snapshot, p: Progress, n: Addr, obj: Obj): Progress
    requires n in s.mem
  {
    var c := Place(p.alloc, s.mem[n]);
    Progress(p.mem[n := obj][c := obj], p.forward[n := c], p.pending - {n}, p.alloc + Cost(s.mem[n]))
  }

  /** Rewriting a node in place and then moving it advances the collection. */
  lemma MoveAdvances(s: Snapshot, start: Progress, p: Progress, n: Addr, obj: Obj, bound: nat)
    requires n in s.live && n in s.mem && n in p.pending && n !in start.forward && n !in p.forward
    requires n in p.mem && s.rank(n) < bound
    requires Advance(s, start, p, s.rank(n), {n}) && Place(p.alloc, s.mem[n]) !in p.mem
    ensures Advance(s, start, Moved(s, p, n, obj), bound, {})
  {
    hide HeapSize, Cost, AllBehind;
    var q := Moved(s, p, n, obj);
    BehindToo(s, start, start, p, q, n, Place(p.alloc, s.mem[n]));
    assert q.forward.Keys == p.forward.Keys + {n};
    assert q.pending + q.forward.Keys == p.pending + p.forward.Keys;
  }

  lemma MoveKeepsInv(s: Snapshot, to: nat, p: Progress, n: Addr, obj: Obj, bound: nat)
    requires Inv(s, to, p) && n in p.pending && Covered(s, p.forward, s.mem[n]) && Alike(p.forward, s.mem[n], obj)
    requires forall x :: x in s.live && s.rank(x) < bound ==>
               x == n || x in p.forward || (x in p.pending && p.mem[x] == s.mem[x])
    ensures Inv(s, to, Moved(s, p, n, obj)) && Intact(s, Moved(s, p, n, obj), bound)
  {
    hide Total, Disjoint, HeapOk, TrObj, Covered, Alike, Packed, RoomFree, Copied, Injective, Advance;
    var w := p.(mem := p.mem[n := obj]);
    ForwardedOnHeap(s, to, p);
    WriteKeepsInv(s, to, p, n, obj, 0);
    Reserve(s, to, w, n, obj);
    RoomIsFree(s, to, w, n, obj);
    Publish(s, to, Reserved(s, w, n, obj), n, Place(p.alloc, s.mem[n]), bound);
  }

  /** Intactness below a bound survives a copy below it. */
  lemma IntactAfter(s: Snapshot, to: nat, p: Progress, q: Progress, bound: nat, copied: nat)
    requires Inv(s, to, p) && Inv(s, to, q) && Intact(s, p, bound) && Advance(s, p, q, copied, {})
    ensures Intact(s, q, bound)
  {
    hide SnapshotOk, Copied, Injective;
    forall a | a in s.live && s.rank(a) < bound
      ensures a in q.forward || (a in q.pending && q.mem[a] == s.mem[a])
    {
      assert a in p.pending + p.forward.Keys;
      assert a in q.pending + q.forward.Keys;
    }
  }

  /** Copying the object behind one field touches neither the object the field is
      in nor what was translated before. */
  lemma FieldDone(s: Snapshot, to: nat, p: Progress, q: Progress, o: Addr, done: seq<Term>, us: seq<Term>, rank: nat)
    requires Inv(s, to, p) && Inv(s, to, q) && Advance(s, p, q, rank, {})
    requires o in p.mem && (o in s.live ==> o in p.pending && s.rank(o) >= rank) && (o in s.live || o < p.alloc)
    requires forall x :: x in p.forward ==> p.forward[x] != o
    requires TermsCovered(s, p.forward, done) && AllFollow(p.forward, done, us)
    ensures o in q.mem && q.mem[o] == p.mem[o]
    ensures (o in s.live ==> o in q.pending) && p.alloc <= q.alloc
    ensures forall x :: x in p.forward ==> x in q.forward && q.forward[x] == p.forward[x]
    ensures forall x :: x in q.forward ==> q.forward[x] != o
    ensures AllFollow(q.forward, done, us) && TermsCovered(s, q.forward, done)
  {
    ForwardedOnHeap(s, to, q);
    FollowStable(s, p.forward, q.forward, done, us);
  }

  /** Writing the exempted object keeps the advance. */
  lemma AdvanceWrite(s: Snapshot, start: Progress, p: Progress, q: Progress, rank: nat, o: Addr, obj: Obj)
    requires Advance(s, start, p, rank, {o}) && Advance(s, p, q, rank, {}) && o in q.mem
    ensures Advance(s, start, q.(mem := q.mem[o := obj]), rank, {o})
  {
    AdvanceTransitive(s, start, p, q, rank, {o});
  }

  lemma FollowSnoc(f: Forwarding, ts: seq<Term>, us: seq<Term>, i: nat, u: Term)
    requires i < |ts| == |us| && us[i..] == ts[i..] && AllFollow(f, ts[..i], us[..i]) && Follows(f, ts[i], u)
    ensures AllFollow(f, ts[..i + 1], us[i := u][..i + 1]) && us[i := u][i + 1..] == ts[i + 1..]
  {
    var vs := us[i := u];
    var a, b := ts[..i + 1], vs[..i + 1];
    forall k | 0 <= k < |a| ensures Follows(f, a[k], b[k]) {
      if k < i { assert Follows(f, ts[..i][k], us[..i][k]); }
    }
    assert us[i..][1..] == ts[i..][1..] && us[i + 1..] == us[i..][1..] && ts[i + 1..] == ts[i..][1..];
  }

  lemma TrAddrsStable(f: Forwarding, g: Forwarding, ks: seq<Addr>)
    requires forall i :: 0 <= i < |ks| ==> ks[i] in f
    requires forall a :: a in f ==> a in g && g[a] == f[a]
    ensures TrAddrs(g, ks) == TrAddrs(f, ks)
  {}

  lemma TrAddrsSnoc(f: Forwarding, ks: seq<Addr>, i: nat)
    requires i < |ks|
    ensures (TrAddrs(f, ks[..i]) + ks[i..])[i := TrAddr(f, ks[i])] == TrAddrs(f, ks[..i + 1]) + ks[i + 1..]
  {}

  /** While a node is being rewritten, all else below a higher bound is intact. */
  lemma LiftIntact(s: Snapshot, start: Progress, p: Progress, n: Addr, bound: nat)
    requires s.live <= p.mem.Keys && Intact(s, start, bound) && Advance(s, start, p, s.rank(n), {n})
    ensures forall x :: x in s.live && s.rank(x) < bound ==>
              x == n || x in p.forward || (x in p.pending && p.mem[x] == s.mem[x])
  {
    forall x | x in s.live && s.rank(x) < bound && x != n
      ensures x in p.forward || (x in p.pending && p.mem[x] == s.mem[x])
    {
      assert x in start.pending + start.forward.Keys;
      assert x in p.pending + p.forward.Keys;
    }
  }

  // ---------- the steps of the collector ----------

  /** An unforwarded object that is to be copied is still as it was. */
  lemma CanCopy(s: Snapshot, to: nat, p: Progress, a: Addr, bound: nat)
    requires Inv(s, to, p) && Intact(s, p, bound) && a in s.live && s.rank(a) < bound && a !in p.forward
    ensures a in s.mem && a in p.pending && a in p.mem && p.mem[a] == s.mem[a]
    ensures HeapSize(s.mem[a]) > 0 && p.alloc + Cost(s.mem[a]) <= to + s.size / 2
    ensures Place(p.alloc, s.mem[a]) !in p.mem
    ensures ObjOk(s.mem, s.rank, a) && LiveOk(s, a)
    ensures forall x :: x in p.forward ==> p.forward[x] != a
  {
    RoomFits(s, to, p, a);
    ForwardedOnHeap(s, to, p);
  }

  lemma FinishCopy(s: Snapshot, to: nat, start: Progress, a: Addr, obj: Obj, q: Progress, bound: nat)
    requires Inv(s, to, start) && Intact(s, start, bound) && a in start.pending && s.rank(a) < bound
    requires Inv(s, to, q)
    requires var c := Place(start.alloc, s.mem[a]);
             && Advance(s, Reserved(s, start, a, obj), q, s.rank(a), {c})
             && c in q.mem && Covered(s, q.forward, s.mem[a]) && Alike(q.forward, s.mem[a], q.mem[c])
             && forall x :: x in q.forward ==> q.forward[x] != c
    ensures var z := q.(forward := q.forward[a := Place(start.alloc, s.mem[a])]);
            Inv(s, to, z) && Intact(s, z, bound) && Advance(s, start, z, bound, {})
  {
    var c := Place(start.alloc, s.mem[a]);
    var r := Reserved(s, start, a, obj);
    Reserve(s, to, start, a, obj);
    CopyAdvances(s, start, a, obj, q, bound);
    forall x | x in s.live && s.rank(x) < bound
      ensures x == a || x in q.forward || (x in q.pending && q.mem[x] == s.mem[x])
    {
      assert x == a || x in r.pending + r.forward.Keys;
      assert x == a || x in q.pending + q.forward.Keys;
    }
    assert a !in r.pending + r.forward.Keys;
    RoomStaysFree(s, to, start, a, obj, q, s.rank(a));
    Publish(s, to, q, a, c, bound);
  }

  lemma FinishMove(s: Snapshot, to: nat, start: Progress, p: Progress, n: Addr, obj: Obj, bound: nat)
    requires Inv(s, to, start) && Intact(s, start, bound) && n in start.pending && s.rank(n) < bound
    requires Inv(s, to, p) && Advance(s, start, p, s.rank(n), {n})
    requires Covered(s, p.forward, s.mem[n]) && Alike(p.forward, s.mem[n], obj)
    ensures n in p.pending && n in p.mem && n !in p.forward
    ensures Inv(s, to, Moved(s, p, n, obj)) && Intact(s, Moved(s, p, n, obj), bound)
    ensures Advance(s, start, Moved(s, p, n, obj), bound, {})
  {
    LiftIntact(s, start, p, n, bound);
    RoomFits(s, to, p, n);
    MoveAdvances(s, start, p, n, obj, bound);
    MoveKeepsInv(s, to, p, n, obj, bound);
  }

  /** One word of an object moved in place. */
  lemma FieldWritten(s: Snapshot, to: nat, start: Progress, p: Progress, q: Progress, o: Addr, ts: seq<Term>,
      us: seq<Term>, i: nat, u: Term, obj: Obj, rank: nat)
    requires Inv(s, to, p) && Inv(s, to, q) && Intact(s, q, rank) && i < |ts| == |us|
    requires Advance(s, start, p, rank, {o}) && Advance(s, p, q, rank, {})
    requires o in p.mem && (o in s.live ==> o in p.pending && s.rank(o) == rank) && (o in s.live || o < p.alloc)
    requires forall x :: x in p.forward ==> p.forward[x] != o
    requires TermsCovered(s, p.forward, ts[..i]) && AllFollow(p.forward, ts[..i], us[..i]) && us[i..] == ts[i..]
    requires Follows(q.forward, ts[i], u) && (RefersTo(s, ts[i]) ==> ts[i].ptr in q.forward)
    ensures o in q.mem && q.mem[o] == p.mem[o] && (o in s.live ==> o in q.pending) && p.alloc <= q.alloc
    ensures var z := q.(mem := q.mem[o := obj]);
            Inv(s, to, z) && Intact(s, z, rank) && Advance(s, start, z, rank, {o})
    ensures forall x :: x in q.forward ==> q.forward[x] != o
    ensures AllFollow(q.forward, ts[..i + 1], us[i := u][..i + 1]) && us[i := u][i + 1..] == ts[i + 1..]
    ensures TermsCovered(s, q.forward, ts[..i + 1])
  {
    hide Inv, Intact, Advance, Copied, AllFollow, Follows;
    FieldDone(s, to, p, q, o, ts[..i], us[..i], rank);
    FollowSnoc(q.forward, ts, us, i, u);
    WriteKeepsInv(s, to, q, o, obj, rank);
    AdvanceWrite(s, start, p, q, rank, o, obj);
  }

  /** One node address of an object translated in place. */
  lemma ChildWritten(s: Snapshot, to: nat, start: Progress, p: Progress, q: Progress, o: Addr, ks: seq<Addr>, i: nat,
      obj: Obj, rank: nat)
    requires Inv(s, to, p) && Inv(s, to, q) && Intact(s, q, rank) && i < |ks|
    requires Advance(s, start, p, rank, {o}) && Advance(s, p, q, rank, {})
    requires o in p.mem && (o in s.live ==> o in p.pending && s.rank(o) == rank) && (o in s.live || o < p.alloc)
    requires forall x :: x in p.forward ==> p.forward[x] != o
    requires forall k :: 0 <= k < i ==> ks[k] in p.forward
    ensures o in q.mem && q.mem[o] == p.mem[o] && (o in s.live ==> o in q.pending) && p.alloc <= q.alloc
    ensures var z := q.(mem := q.mem[o := obj]);
            Inv(s, to, z) && Intact(s, z, rank) && Advance(s, start, z, rank, {o})
    ensures forall x :: x in q.forward ==> q.forward[x] != o
    ensures forall k :: 0 <= k < i ==> ks[k] in q.forward && q.forward[ks[k]] == p.forward[ks[k]]
    ensures TrAddrs(q.forward, ks[..i]) == TrAddrs(p.forward, ks[..i])
    ensures (TrAddrs(q.forward, ks[..i]) + ks[i..])[i := TrAddr(q.forward, ks[i])]
        == TrAddrs(q.forward, ks[..i + 1]) + ks[i + 1..]
  {
    hide Inv, Intact, Advance, Copied;
    FieldDone(s, to, p, q, o, [], [], rank);
    TrAddrsStable(p.forward, q.forward, ks[..i]);
    TrAddrsSnoc(q.forward, ks, i);
    WriteKeepsInv(s, to, q, o, obj, rank);
    AdvanceWrite(s, start, p, q, rank, o, obj);
  }

  lemma AdvanceReflexive(s: Snapshot, p: Progress, bound: nat, except: set<Addr>)
    ensures Advance(s, p, p, bound, except)
  {}

  /** A word off the heap stays; one that is changed is changed for good. */
  lemma OffHeapStays(s: Snapshot, to: nat, p: Progress, t: Term)
    requires Inv(s, to, p)
    ensures !OnHeap(s.from, s.size, t.ptr) ==> Tr(p.forward, t) == t
    ensures Tr(p.forward, t) == t <==> t.ptr !in p.forward
  {
    ForwardedOnHeap(s, to, p);
  }

  lemma BoundBelow(s: Snapshot, p: Progress, a: Addr, bound: nat)
    requires Intact(s, p, bound) && s.rank(a) < bound
    ensures Intact(s, p, s.rank(a))
  {}

  lemma SnapshotFacts(s: Snapshot, to: nat, p: Progress, a: Addr)
    requires Inv(s, to, p) && a in s.live
    ensures a in s.mem && ObjOk(s.mem, s.rank, a) && LiveOk(s, a) && s.live <= s.mem.Keys && s.live <= p.mem.Keys
  {}

  lemma PlainCost(o: Obj, alloc: nat)
    requires !IsNode(o)
    ensures Cost(o) == HeapSize(o) + 1 && Place(alloc, o) == alloc + 1
  {}

  lemma NodeCost(o: Obj, c: Obj, f: Forwarding, alloc: nat)
    requires IsNode(o) && Alike(f, o, c)
    ensures var table := if o.InnerObj? && o.table.Some? then TableSize(o) + 1 else 0;
            && Cost(o) == HeapSize(o) + 1 + table
            && Place(alloc, o) == alloc + table + 1
    ensures IsNode(c) && c.InnerObj? == o.InnerObj? && HeapSize(c) == HeapSize(o) >= 8
    ensures o.InnerObj? && o.table.Some? ==> TableSize(o) == 8 + |o.kids| * 4 && |c.kids| == |o.kids|
  {}

  /** The words of a live object may be handed to copy. */
  lemma FieldFacts(s: Snapshot, to: nat, p: Progress, a: Addr)
    requires Inv(s, to, p) && a in s.live
    ensures a in s.mem
    ensures forall i :: 0 <= i < |Terms(s.mem[a])| ==>
              TermBelow(s.mem, s.rank, Terms(s.mem[a])[i], s.rank(a)) && Settled(s, Terms(s.mem[a])[i])
  {
    SnapshotFacts(s, to, p, a);
    var o := s.mem[a];
    forall i | 0 <= i < |Terms(o)|
      ensures TermBelow(s.mem, s.rank, Terms(o)[i], s.rank(a)) && Settled(s, Terms(o)[i])
    {
      assert TermsBelow(s.mem, s.rank, Terms(o), s.rank(a)) && AllSettled(s, Terms(o));
    }
  }

  /** What a closed set contains with an object. */
  lemma FieldsInScope(s: Snapshot, c: set<Addr>, a: Addr)
    requires Closed(s, c) && a in c
    ensures a in s.mem
    ensures forall i :: 0 <= i < |Terms(s.mem[a])| ==> RefersTo(s, Terms(s.mem[a])[i]) ==> Terms(s.mem[a])[i].ptr in c
    ensures forall i :: 0 <= i < |NodeRefs(s.mem[a])| ==> NodeRefs(s.mem[a])[i] in c
  {
    var o := s.mem[a];
    forall i | 0 <= i < |Terms(o)| && RefersTo(s, Terms(o)[i]) ensures Terms(o)[i].ptr in c {
      assert Terms(o)[i].ptr in WordRefs(s, Terms(o));
    }
    forall i | 0 <= i < |NodeRefs(o)| ensures NodeRefs(o)[i] in c {
      assert NodeRefs(o)[i] in Refs(s, o);
    }
  }

  /** A node with its table cut to its length. */
  function Cut(o: Obj): Obj {
    if o.InnerObj? then InnerObj(o.kids, Truncate(o.table, |o.kids|)) else o
  }

  lemma CutAlike(f: Forwarding, o: Obj, c: Obj)
    requires if o.InnerObj? then c == InnerObj(TrAddrs(f, o.kids), o.table) else o.LeafObj? && Alike(f, o, c)
    ensures Alike(f, o, Cut(c)) && IsNode(c)
    ensures c.InnerObj? ==> o.InnerObj? && c.table == o.table && |c.kids| == |o.kids|
  {}

  lemma FieldsComplete(s: Snapshot, f: Forwarding, o: Obj, c: Obj)
    requires o.TupleObj? || o.FunctionObj? || o.LeafObj?
    requires c == WithTerms(o, Terms(c)) && |Terms(c)| == |Terms(o)|
    requires TermsCovered(s, f, Terms(o)[..|Terms(o)|]) && AllFollow(f, Terms(o)[..|Terms(o)|], Terms(c)[..|Terms(o)|])
    ensures Covered(s, f, o) && Alike(f, o, c)
  {
    assert Terms(o)[..|Terms(o)|] == Terms(o) && Terms(c)[..|Terms(o)|] == Terms(c);
  }

  // ---------- the roots ----------

  /** Between copies nothing is under way: what is not forwarded is untouched. */
  ghost predicate Quiet(s: Snapshot, p: Progress) {
    forall bound: nat :: Intact(s, p, bound)
  }

  lemma StartQuiet(s: Snapshot, p: Progress)
    requires s.live <= s.mem.Keys && p.mem == s.mem && p.pending == s.live
    ensures Quiet(s, p)
  {
    forall bound: nat ensures Intact(s, p, bound) {}
  }

  /** The start of a collection. */
  lemma StartInv(s: Snapshot, to: nat, p: Progress)
    requires SnapshotOk(s) && Disjoint(s, to) && Total(s.mem, s.live) <= s.size / 2
    requires forall c :: c in s.mem ==> !InSpace(to, s.size, c)
    requires p == Progress(s.mem, map[], s.live, to)
    ensures Inv(s, to, p) && Quiet(s, p) && Closed(s, {})
  {
    hide Total, LiveOk, HeapOk;
    StartQuiet(s, p);
  }

  lemma QuietAfter(s: Snapshot, to: nat, p: Progress, q: Progress, bound: nat)
    requires Inv(s, to, p) && Inv(s, to, q) && Quiet(s, p) && Advance(s, p, q, bound, {})
    ensures Quiet(s, q)
  {
    hide Inv, Intact, Advance;
    forall b: nat ensures Intact(s, q, b) {
      QuietIsIntact(s, p, b);
      IntactAfter(s, to, p, q, b, bound);
    }
  }

  /** A collection leaves no object behind that it forwarded anything to: when
      nothing under way remains, every live object is pending or forwarded. */
  lemma QuietCovers(s: Snapshot, to: nat, p: Progress)
    requires Inv(s, to, p) && Quiet(s, p)
    ensures p.pending + p.forward.Keys == s.live
  {
    forall a | a in s.live ensures a in p.pending + p.forward.Keys {
      assert Intact(s, p, s.rank(a) + 1);
    }
  }

  // ---------- reachability ----------

  /** The objects a sequence of words refers to. */
  ghost function WordRefs(s: Snapshot, ws: seq<Term>): set<Addr> {
    set i | 0 <= i < |ws| && RefersTo(s, ws[i]) :: ws[i].ptr
  }

  /** The objects an object refers to. */
  ghost function Refs(s: Snapshot, o: Obj): set<Addr> {
    WordRefs(s, Terms(o)) + set i | 0 <= i < |NodeRefs(o)| :: NodeRefs(o)[i]
  }

  /** A set of live objects with all they refer to. */
  ghost predicate Closed(s: Snapshot, c: set<Addr>) {
    forall a :: a in c ==> a in s.live && a in s.mem && Refs(s, s.mem[a]) <= c
  }

  /** All that can be reached from an object. */
  ghost function Reach(s: Snapshot, a: Addr): (r: set<Addr>)
    requires a in s.mem
    ensures a in r
    decreases s.rank(a)
  {
    {a} + set x, y | x in Refs(s, s.mem[a]) && x in s.mem && s.rank(x) < s.rank(a) && y in Reach(s, x) :: y
  }

  /** All that can be reached from some words. */
  ghost function ReachWords(s: Snapshot, ws: seq<Term>): set<Addr> {
    set x, y | x in WordRefs(s, ws) && x in s.mem && y in Reach(s, x) :: y
  }

  lemma RefsBelow(s: Snapshot, a: Addr)
    requires SnapshotOk(s) && a in s.live
    ensures a in s.mem && forall x :: x in Refs(s, s.mem[a]) ==> x in s.live && x in s.mem && s.rank(x) < s.rank(a)
  {
    RefsInHeap(s, a);
    assert LiveOk(s, a);
    var o := s.mem[a];
    forall x | x in Refs(s, o) ensures x in s.live && s.rank(x) < s.rank(a) {
      if x in WordRefs(s, Terms(o)) {
        var i :| 0 <= i < |Terms(o)| && RefersTo(s, Terms(o)[i]) && Terms(o)[i].ptr == x;
        assert Settled(s, Terms(o)[i]) && TermBelow(s.mem, s.rank, Terms(o)[i], s.rank(a));
      } else {
        var i :| 0 <= i < |NodeRefs(o)| && NodeRefs(o)[i] == x;
        assert NodeBelow(s.mem, s.rank, NodeRefs(o)[i], s.rank(a));
      }
    }
  }

  lemma RefsInHeap(s: Snapshot, a: Addr)
    requires SnapshotOk(s) && a in s.mem
    ensures forall i :: 0 <= i < |Terms(s.mem[a])| ==> TermBelow(s.mem, s.rank, Terms(s.mem[a])[i], s.rank(a))
    ensures forall i :: 0 <= i < |NodeRefs(s.mem[a])| ==> NodeBelow(s.mem, s.rank, NodeRefs(s.mem[a])[i], s.rank(a))
  {
    assert ObjOk(s.mem, s.rank, a);
    var o := s.mem[a];
    if !o.ListObj? && !o.InnerObj? && !o.StringObj? {
      assert TermsBelow(s.mem, s.rank, Terms(o), s.rank(a));
    } else if o.InnerObj? {
      assert NodesBelow(s.mem, s.rank, o.kids, s.rank(a));
    }
  }

  lemma {:induction false} ReachClosed(s: Snapshot, a: Addr)
    requires SnapshotOk(s) && a in s.live && a in s.mem
    ensures Closed(s, Reach(s, a))
    decreases s.rank(a)
  {
    RefsBelow(s, a);
    var r := Reach(s, a);
    forall b | b in r ensures b in s.live && b in s.mem && Refs(s, s.mem[b]) <= r {
      if b == a {
        forall x | x in Refs(s, s.mem[a]) ensures x in r { assert x in Reach(s, x); }
      } else {
        var x :| x in Refs(s, s.mem[a]) && x in s.mem && s.rank(x) < s.rank(a) && b in Reach(s, x);
        ReachClosed(s, x);
        assert Reach(s, x) <= r;
      }
    }
  }

  lemma {:induction false} ReachLeast(s: Snapshot, a: Addr, c: set<Addr>)
    requires a in s.mem && Closed(s, c) && a in c
    ensures Reach(s, a) <= c
    decreases s.rank(a)
  {
    forall y | y in Reach(s, a) ensures y in c {
      if y != a {
        var x :| x in Refs(s, s.mem[a]) && x in s.mem && s.rank(x) < s.rank(a) && y in Reach(s, x);
        ReachLeast(s, x, c);
      }
    }
  }

  /** What can be reached from live words is closed, contains what they refer to,
      and is the least such set. */
  lemma ReachWordsClosed(s: Snapshot, ws: seq<Term>)
    requires SnapshotOk(s) && RootsOk(s, ws)
    ensures Closed(s, ReachWords(s, ws)) && WordRefs(s, ws) <= ReachWords(s, ws)
  {
    var r := ReachWords(s, ws);
    forall x | x in WordRefs(s, ws) ensures x in s.live && x in s.mem && x in r {
      var i :| 0 <= i < |ws| && RefersTo(s, ws[i]) && ws[i].ptr == x;
      assert Settled(s, ws[i]) && x in Reach(s, x);
    }
    forall b | b in r ensures b in s.live && b in s.mem && Refs(s, s.mem[b]) <= r {
      var x :| x in WordRefs(s, ws) && x in s.mem && b in Reach(s, x);
      ReachClosed(s, x);
      assert Reach(s, x) <= r;
    }
  }

  lemma ReachWordsLeast(s: Snapshot, ws: seq<Term>, c: set<Addr>)
    requires Closed(s, c) && WordRefs(s, ws) <= c
    ensures ReachWords(s, ws) <= c
  {
    forall y | y in ReachWords(s, ws) ensures y in c {
      var x :| x in WordRefs(s, ws) && x in s.mem && y in Reach(s, x);
      ReachLeast(s, x, c);
    }
  }

  /** The forwarded objects are closed. */
  lemma ForwardedClosed(s: Snapshot, to: nat, p: Progress)
    requires Inv(s, to, p)
    ensures Closed(s, p.forward.Keys)
  {
    forall a | a in p.forward.Keys ensures a in s.live && a in s.mem && Refs(s, s.mem[a]) <= p.forward.Keys {
      assert Covered(s, p.forward, s.mem[a]);
    }
  }

  lemma {:induction false} TotalPart(m: Memory, part: set<Addr>, whole: set<Addr>)
    requires part <= whole <= m.Keys
    ensures Total(m, whole) == Total(m, part) + Total(m, whole - part)
    decreases |part|
  {
    if part != {} {
      var a :| a in part;
      TotalRemove(m, part, a);
      TotalRemove(m, whole, a);
      TotalPart(m, part - {a}, whole - {a});
      assert whole - {a} - (part - {a}) == whole - part;
    } else {
      assert whole - part == whole;
    }
  }

  ghost predicate RootsOk(s: Snapshot, regs: seq<Term>) {
    forall j :: 0 <= j < |regs| ==> TermOk(s.mem, regs[j]) && Settled(s, regs[j])
  }

  lemma RootFacts(s: Snapshot, regs: seq<Term>)
    requires RootsOk(s, regs)
    ensures forall j :: 0 <= j < |regs| ==> TermOk(s.mem, regs[j]) && Settled(s, regs[j])
  {}

  lemma RootsConcat(s: Snapshot, a: seq<Term>, b: seq<Term>)
    requires RootsOk(s, a) && RootsOk(s, b)
    ensures RootsOk(s, a + b)
  {}

  lemma NoRoots(s: Snapshot, roots: seq<seq<Term>>)
    ensures RootsOk(s, Flatten(roots[..0]))
  {}

  lemma RootsTogether(s: Snapshot, prior: seq<Term>, regs: seq<Term>, j: nat)
    requires RootsOk(s, prior) && RootsOk(s, regs) && j < |regs|
    ensures RootsOk(s, prior + regs[..j]) && RootsOk(s, prior + regs[..j] + [regs[j]])
  {}

  lemma WordRefsSnoc(s: Snapshot, ws: seq<Term>, t: Term)
    ensures WordRefs(s, ws + [t]) == WordRefs(s, ws) + if RefersTo(s, t) then {t.ptr} else {}
  {
    var vs := ws + [t];
    forall x | x in WordRefs(s, ws) ensures x in WordRefs(s, vs) {
      var i :| 0 <= i < |ws| && RefersTo(s, ws[i]) && ws[i].ptr == x;
      assert vs[i] == ws[i];
    }
    if RefersTo(s, t) { assert vs[|ws|] == t; }
  }

  lemma SnapshotIsOk(s: Snapshot, to: nat, p: Progress)
    requires Inv(s, to, p)
    ensures SnapshotOk(s)
  {}

  /** One more word reaches more. */
  lemma ReachGrows(s: Snapshot, ws: seq<Term>, t: Term)
    requires SnapshotOk(s) && RootsOk(s, ws + [t]) && RootsOk(s, ws)
    ensures Closed(s, ReachWords(s, ws + [t])) && ReachWords(s, ws) <= ReachWords(s, ws + [t])
    ensures RefersTo(s, t) ==> t.ptr in ReachWords(s, ws + [t])
  {
    hide Closed, ReachWords, WordRefs;
    ReachWordsClosed(s, ws + [t]);
    WordRefsSnoc(s, ws, t);
    ReachWordsLeast(s, ws, ReachWords(s, ws + [t]));
  }

  /** The integers among the first n registers stay, unless their value is the
      address of an object that an earlier register reaches. */
  ghost predicate IntsVisited(s: Snapshot, prior: seq<Term>, regs: seq<Term>, us: seq<Term>, n: nat) {
    n <= |regs| && n <= |us| && forall j :: 0 <= j < n && regs[j].tag == INT ==>
      (us[j] == regs[j] <==> regs[j].ptr !in ReachWords(s, prior + regs[..j]))
  }

  lemma IntVisited(s: Snapshot, to: nat, p: Progress, prior: seq<Term>, regs: seq<Term>, us: seq<Term>, j: nat, u: Term)
    requires Inv(s, to, p) && j < |regs| == |us| && IntsVisited(s, prior, regs, us, j)
    requires p.forward.Keys == ReachWords(s, prior + regs[..j])
    requires regs[j].tag == INT ==> (u == regs[j]
        <==> !(OnHeap(s.from, s.size, regs[j].ptr) && regs[j].ptr in p.forward))
    ensures IntsVisited(s, prior, regs, us[j := u], j + 1)
  {
    ForwardedOnHeap(s, to, p);
  }

  /** A bound above the rank of what a word refers to. */
  ghost function RootBound(s: Snapshot, t: Term): (bound: nat)
    requires TermOk(s.mem, t)
    ensures TermBelow(s.mem, s.rank, t, bound)
  {
    s.rank(t.ptr) + 1
  }

  lemma QuietIsIntact(s: Snapshot, p: Progress, bound: nat)
    requires Quiet(s, p)
    ensures Intact(s, p, bound)
  {}

  lemma ZeroStays(s: Snapshot, to: nat, p: Progress)
    requires Inv(s, to, p)
    ensures Tr(p.forward, ZERO) == ZERO && !OnHeap(s.from, s.size, ZERO.ptr)
  {
    OffHeapStays(s, to, p, ZERO);
  }

  lemma RegisterDone(s: Snapshot, to: nat, p: Progress, q: Progress, regs: seq<Term>, us: seq<Term>, j: nat, u: Term,
      bound: nat)
    requires Inv(s, to, p) && Inv(s, to, q) && Quiet(s, p) && Advance(s, p, q, bound, {}) && j < |regs| == |us|
    requires TermsCovered(s, p.forward, regs[..j]) && AllFollow(p.forward, regs[..j], us[..j]) && us[j..] == regs[j..]
    requires Follows(q.forward, regs[j], u) && (RefersTo(s, regs[j]) ==> regs[j].ptr in q.forward)
    ensures Quiet(s, q)
    ensures forall x :: x in p.forward ==> x in q.forward && q.forward[x] == p.forward[x]
    ensures AllFollow(q.forward, regs[..j + 1], us[j := u][..j + 1]) && us[j := u][j + 1..] == regs[j + 1..]
    ensures TermsCovered(s, q.forward, regs[..j + 1])
    ensures forall c :: c in p.mem && c !in s.live ==> c in q.mem && q.mem[c] == p.mem[c]
  {
    hide Inv, Quiet;
    QuietAfter(s, to, p, q, bound);
    ForwardedOnHeap(s, to, q);
    FollowStable(s, p.forward, q.forward, regs[..j], us[..j]);
    FollowSnoc(q.forward, regs, us, j, u);
  }

  lemma FramesStable(s: Snapshot, to: nat, p: Progress, f: Forwarding, roots: seq<seq<Term>>, moved: seq<seq<Term>>,
      frames: nat)
    requires Inv(s, to, p) && frames <= |roots| == |moved|
    requires forall x :: x in f ==> x in p.forward && p.forward[x] == f[x]
    requires forall k :: 0 <= k < frames ==> TermsCovered(s, f, roots[k]) && AllFollow(f, roots[k], moved[k])
    ensures forall k :: 0 <= k < frames ==>
              AllFollow(p.forward, roots[k], moved[k]) && TermsCovered(s, p.forward, roots[k])
  {
    ForwardedOnHeap(s, to, p);
    forall k | 0 <= k < frames ensures AllFollow(p.forward, roots[k], moved[k])
        && TermsCovered(s, p.forward, roots[k]) {
      FollowStable(s, f, p.forward, roots[k], moved[k]);
    }
  }

  /** At the end exactly the forwarded objects took up room. */
  lemma AllCopied(s: Snapshot, to: nat, p: Progress)
    requires Inv(s, to, p) && p.pending + p.forward.Keys == s.live
    ensures p.alloc == to + Total(s.mem, p.forward.Keys)
  {
    TotalPart(s.mem, p.forward.Keys, s.live);
    assert s.live - p.forward.Keys == p.pending;
  }

  /** The children of a live inner node may be handed to copy_list_node. */
  lemma KidFacts(s: Snapshot, to: nat, p: Progress, n: Addr)
    requires Inv(s, to, p) && n in s.live && n in s.mem && s.mem[n].InnerObj?
    ensures forall i :: 0 <= i < |s.mem[n].kids| ==> CanMove(s, s.mem[n].kids[i], s.rank(n))
  {
    SnapshotFacts(s, to, p, n);
    var ks := s.mem[n].kids;
    assert NodeRefs(s.mem[n]) == ks;
    forall i | 0 <= i < |ks| ensures CanMove(s, ks[i], s.rank(n)) {
      assert NodeBelow(s.mem, s.rank, ks[i], s.rank(n)) && NodeRefs(s.mem[n])[i] == ks[i];
    }
  }

  ghost predicate CanMove(s: Snapshot, n: Addr, bound: nat) {
    n in s.live && n in s.mem && IsNode(s.mem[n]) && s.rank(n) < bound
  }

  lemma KidsComplete(s: Snapshot, f: Forwarding, o: Obj)
    requires o.InnerObj? && forall k :: 0 <= k < |o.kids| ==> o.kids[k] in f
    ensures Covered(s, f, o)
    ensures TrAddrs(f, o.kids[..|o.kids|]) + o.kids[|o.kids|..] == TrAddrs(f, o.kids)
    ensures TrAddrs(f, o.kids[..0]) + o.kids[0..] == o.kids
  {
    assert o.kids[..|o.kids|] == o.kids;
  }

  lemma NothingMoved(f: Forwarding, ks: seq<Addr>)
    ensures TrAddrs(f, ks[..0]) + ks[0..] == ks
  {}
}
