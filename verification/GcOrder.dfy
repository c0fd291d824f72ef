/**
 The order in which a collection comes to the objects, for the integers in them: an
 integer is changed exactly when its value is the address of an object that is
 forwarded already when the integer is visited.
 */
module GcOrder {
  import opened Seqs
  import opened Heap
  import opened GcModel

  /** For every object that the collection has come to, what was forwarded when its
      copying began. */
  type Clock = map<Addr, set<Addr>>

  /** All that can be reached from some nodes. */
  ghost function ReachNodes(s: Snapshot, ks: seq<Addr>): set<Addr> {
    set k, y | 0 <= k < |ks| && ks[k] in s.mem && y in Reach(s, ks[k]) :: y
  }

  /** All that can be reached from one word. */
  ghost function ReachOf(s: Snapshot, t: Term): set<Addr> {
    if RefersTo(s, t) && t.ptr in s.mem then Reach(s, t.ptr) else {}
  }

  /** The collection comes to `a` when `done` is forwarded: by way of a register, after
      all that earlier registers reach; or of a word or node of another object, after
      all that was forwarded when that one was begun and all that its earlier words or
      nodes reach. */
  ghost predicate Link(s: Snapshot, begun: Clock, roots: seq<Term>, done: set<Addr>, a: Addr) {
    || (exists j :: 0 <= j < |roots| && FromWord(s, {}, roots, j, done, a))
    || (exists p, k :: p in begun && p in s.mem && 0 <= k < |Terms(s.mem[p])|
                       && FromWord(s, begun[p], Terms(s.mem[p]), k, done, a))
    || (exists p, k :: p in begun && p in s.mem && 0 <= k < |NodeRefs(s.mem[p])|
                       && FromNode(s, begun[p], NodeRefs(s.mem[p]), k, done, a))
  }

  ghost predicate FromWord(s: Snapshot, start: set<Addr>, ws: seq<Term>, k: nat, done: set<Addr>, a: Addr)
    requires k < |ws|
  {
    RefersTo(s, ws[k]) && ws[k].ptr == a && done == start + ReachWords(s, ws[..k])
  }

  ghost predicate FromNode(s: Snapshot, start: set<Addr>, ks: seq<Addr>, k: nat, done: set<Addr>, a: Addr)
    requires k < |ks|
  {
    ks[k] == a && done == start + ReachNodes(s, ks[..k])
  }

  /** The first n words of an object begun at `done`: an integer stays unless its value
      is the address of an object forwarded by then. */
  ghost predicate IntsUpTo(s: Snapshot, done: set<Addr>, ts: seq<Term>, us: seq<Term>, n: nat) {
    n <= |ts| && n <= |us| && forall i :: 0 <= i < n && ts[i].tag == INT ==>
      (us[i] == ts[i] <==> ts[i].ptr !in done + ReachWords(s, ts[..i]))
  }

  ghost predicate IntsTimed(s: Snapshot, done: set<Addr>, o: Obj, c: Obj) {
    |Terms(c)| == |Terms(o)| && IntsUpTo(s, done, Terms(o), Terms(c), |Terms(o)|)
  }

  /** Every object that was come to was new, and every copy has the right integers. */
  ghost predicate Timed(s: Snapshot, begun: Clock, roots: seq<Term>, p: Progress) {
    && p.forward.Keys <= begun.Keys
    && (forall a :: a in begun ==> a !in begun[a] && Link(s, begun, roots, begun[a], a))
    && (forall a :: a in p.forward ==>
          a in s.mem && p.forward[a] in p.mem && IntsTimed(s, begun[a], s.mem[a], p.mem[p.forward[a]]))
  }

  /** ... and of the objects of rank below the bound none is under way. */
  ghost predicate Clocked(s: Snapshot, begun: Clock, roots: seq<Term>, p: Progress, bound: nat) {
    Timed(s, begun, roots, p) && forall a :: a in begun && s.rank(a) < bound ==> a in p.forward
  }

  /** More objects were begun, and have been finished. */
  ghost predicate Grown(b: Clock, c: Clock, done: set<Addr>) {
    (forall a :: a in b ==> a in c && c[a] == b[a]) && (forall a :: a in c && a !in b ==> a in done)
  }

  lemma GrownTwice(b: Clock, c: Clock, d: Clock, done: set<Addr>, more: set<Addr>)
    requires Grown(b, c, done) && Grown(c, d, more) && done <= more
    ensures Grown(b, d, more)
  {}

  lemma GrownAt(b: Clock, c: Clock, done: set<Addr>, a: Addr)
    requires Grown(b, c, done) && a in b
    ensures a in c && c[a] == b[a]
  {}

  lemma LinkGrows(s: Snapshot, b: Clock, c: Clock, roots: seq<Term>, done: set<Addr>, a: Addr)
    requires Link(s, b, roots, done, a) && forall x :: x in b ==> x in c && c[x] == b[x]
    ensures Link(s, c, roots, done, a)
  {
    hide FromWord, FromNode;
  }

  /** The copying of an object begins. */
  lemma Begin(s: Snapshot, begun: Clock, roots: seq<Term>, p: Progress, a: Addr, bound: nat)
    requires Clocked(s, begun, roots, p, bound) && s.rank(a) < bound && a !in p.forward
    requires Link(s, begun, roots, p.forward.Keys, a)
    ensures a !in begun && Clocked(s, begun[a := p.forward.Keys], roots, p, s.rank(a))
  {
    hide Link, IntsTimed;
    var c := begun[a := p.forward.Keys];
    forall x | x in c ensures x !in c[x] && Link(s, c, roots, c[x], x) {
      LinkGrows(s, begun, c, roots, c[x], x);
    }
  }

  /** Memory changes, but no copy that is finished. */
  lemma Written(s: Snapshot, begun: Clock, roots: seq<Term>, p: Progress, q: Progress, bound: nat)
    requires Clocked(s, begun, roots, p, bound) && q.forward == p.forward
    requires forall x :: x in p.forward && p.forward[x] in p.mem ==>
               p.forward[x] in q.mem && q.mem[p.forward[x]] == p.mem[p.forward[x]]
    ensures Clocked(s, begun, roots, q, bound)
  {
    hide Link, IntsTimed;
  }

  /** The copying of an object ends. */
  lemma End(s: Snapshot, b: Clock, start: Progress, begun: Clock, roots: seq<Term>, p: Progress, q: Progress, a: Addr,
      bound: nat)
    requires Clocked(s, b, roots, start, bound) && Clocked(s, begun, roots, p, s.rank(a)) && s.rank(a) < bound
    requires a !in b && Grown(b[a := start.forward.Keys], begun, p.forward.Keys)
    requires start.forward.Keys <= p.forward.Keys && a in s.mem
    requires q.forward.Keys == p.forward.Keys + {a} && q.forward[a] in q.mem
    requires forall x :: x in p.forward && x != a ==> q.forward[x] == p.forward[x]
    requires forall x :: x in p.forward && x != a && p.forward[x] in p.mem ==>
               p.forward[x] in q.mem && q.mem[p.forward[x]] == p.mem[p.forward[x]]
    requires IntsTimed(s, start.forward.Keys, s.mem[a], q.mem[q.forward[a]])
    ensures Clocked(s, begun, roots, q, bound) && Grown(b, begun, q.forward.Keys)
  {
    hide Link, IntsTimed;
    assert begun[a] == start.forward.Keys by { assert a in b[a := start.forward.Keys]; }
    forall x | x in begun && s.rank(x) < bound ensures x in q.forward {
      if x != a && x in b { assert x in start.forward; }
    }
  }

  // ---------- what exactly is forwarded ----------

  lemma ReachWordsSnoc(s: Snapshot, ws: seq<Term>, t: Term)
    ensures ReachWords(s, ws + [t]) == ReachWords(s, ws) + ReachOf(s, t)
  {
    hide WordRefs;
    WordRefsSnoc(s, ws, t);
  }

  lemma ReachNodesSnoc(s: Snapshot, ks: seq<Addr>, k: Addr)
    requires k in s.mem
    ensures ReachNodes(s, ks + [k]) == ReachNodes(s, ks) + Reach(s, k)
  {
    var all := ks + [k];
    forall y | y in ReachNodes(s, ks) ensures y in ReachNodes(s, all) {
      var i :| 0 <= i < |ks| && ks[i] in s.mem && y in Reach(s, ks[i]);
      assert all[i] == ks[i];
    }
    assert all[|ks|] == k;
  }

  lemma NothingReached(s: Snapshot)
    ensures ReachWords(s, []) == {} && ReachNodes(s, []) == {}
  {}

  /** What the copying of `a` is going to forward, besides what is forwarded. */
  lemma Narrow(s: Snapshot, to: nat, p: Progress, scope: set<Addr>, a: Addr)
    requires Inv(s, to, p) && Closed(s, scope) && p.forward.Keys <= scope && a in scope
    ensures a in s.mem && Closed(s, p.forward.Keys + Reach(s, a)) && p.forward.Keys + Reach(s, a) <= scope
    ensures Closed(s, p.forward.Keys)
  {
    ForwardedClosed(s, to, p);
    assert a in s.live && a in s.mem;
    assert SnapshotOk(s);
    ReachClosed(s, a);
    ReachLeast(s, a, scope);
  }

  /** ... and has forwarded. */
  lemma Exactly(s: Snapshot, to: nat, p: Progress, q: Progress, a: Addr)
    requires Inv(s, to, q) && a in q.forward && a in s.mem
    requires p.forward.Keys <= q.forward.Keys <= p.forward.Keys + Reach(s, a)
    ensures q.forward.Keys == p.forward.Keys + Reach(s, a)
  {
    ForwardedClosed(s, to, q);
    ReachLeast(s, a, q.forward.Keys);
  }

  /** One more word of an object. */
  lemma IntNext(s: Snapshot, done: set<Addr>, ts: seq<Term>, us: seq<Term>, i: nat, u: Term, forwarded: set<Addr>)
    requires i < |ts| == |us| && IntsUpTo(s, done, ts, us, i) && forwarded == done + ReachWords(s, ts[..i])
    requires ts[i].tag == INT ==> (u == ts[i] <==> ts[i].ptr !in forwarded)
    ensures IntsUpTo(s, done, ts, us[i := u], i + 1)
  {}

  lemma GrownNot(b: Clock, done: set<Addr>)
    ensures Grown(b, b, done)
  {}

  lemma CutTimed(s: Snapshot, done: set<Addr>, o: Obj, c: Obj)
    requires IntsTimed(s, done, o, c)
    ensures IntsTimed(s, done, o, Cut(c))
  {
    assert Terms(Cut(c)) == Terms(c);
  }

  lemma MovedParts(s: Snapshot, to: nat, p: Progress, n: Addr, obj: Obj)
    requires Inv(s, to, p) && n in p.pending && n in s.live && n in s.mem
    ensures var q := Moved(s, p, n, obj);
            && q.forward.Keys == p.forward.Keys + {n} && q.forward[n] in q.mem && q.mem[q.forward[n]] == obj
            && (forall x :: x in p.forward && x != n ==> q.forward[x] == p.forward[x])
            && (forall x :: x in p.forward && x != n && p.forward[x] in p.mem ==>
                  p.forward[x] in q.mem && q.mem[p.forward[x]] == p.mem[p.forward[x]])
  {
    RoomFits(s, to, p, n);
    ForwardedOnHeap(s, to, p);
  }

  /** A node that was rewritten is moved. */
  lemma MoveEnds(s: Snapshot, to: nat, b: Clock, start: Progress, begun: Clock, roots: seq<Term>, p: Progress, n: Addr,
      obj: Obj, bound: nat)
    requires Inv(s, to, start) && Intact(s, start, bound) && n in start.pending && s.rank(n) < bound
    requires Inv(s, to, p) && Advance(s, start, p, s.rank(n), {n}) && n in s.live && n in s.mem
    requires Covered(s, p.forward, s.mem[n]) && Alike(p.forward, s.mem[n], obj)
    requires Clocked(s, b, roots, start, bound) && Clocked(s, begun, roots, p, s.rank(n)) && n !in b
    requires Grown(b[n := start.forward.Keys], begun, p.forward.Keys)
    requires IntsTimed(s, start.forward.Keys, s.mem[n], obj)
    ensures n in p.pending && n in p.mem && n !in p.forward
    ensures var q := Moved(s, p, n, obj);
            && Inv(s, to, q) && Intact(s, q, bound) && Advance(s, start, q, bound, {}) && n in q.forward
            && q.forward.Keys == p.forward.Keys + {n}
            && Clocked(s, begun, roots, q, bound) && Grown(b, begun, q.forward.Keys)
  {
    hide Inv, Intact, Advance, Covered, Alike, Clocked, Grown, IntsTimed, Moved;
    FinishMove(s, to, start, p, n, obj, bound);
    AdvanceForward(s, start, p, s.rank(n), {n});
    MovedParts(s, to, p, n, obj);
    End(s, b, start, begun, roots, p, Moved(s, p, n, obj), n, bound);
  }

  // ---------- the nodes of a header or an inner node ----------

  /** The first k nodes of `a` were visited in order; `clock` is from before. */
  ghost predicate NodesTimed(s: Snapshot, begun: Clock, roots: seq<Term>, p: Progress, clock: Clock, a: Addr, k: nat) {
    && a in s.mem && Clocked(s, begun, roots, p, s.rank(a)) && a in begun && a in clock
    && Grown(clock, begun, p.forward.Keys)
    && k <= |NodeRefs(s.mem[a])|
    && p.forward.Keys == begun[a] + ReachNodes(s, NodeRefs(s.mem[a])[..k])
  }

  lemma NodesBegin(s: Snapshot, begun: Clock, roots: seq<Term>, p: Progress, a: Addr)
    requires a in s.mem && Clocked(s, begun, roots, p, s.rank(a)) && a in begun && begun[a] == p.forward.Keys
    ensures NodesTimed(s, begun, roots, p, begun, a, 0)
  {
    hide Clocked;
    NothingReached(s);
    assert NodeRefs(s.mem[a])[..0] == [];
  }

  /** The next node is come to in order. */
  lemma NextNode(s: Snapshot, begun: Clock, roots: seq<Term>, p: Progress, clock: Clock, a: Addr, k: nat)
    requires NodesTimed(s, begun, roots, p, clock, a, k) && k < |NodeRefs(s.mem[a])|
    ensures Clocked(s, begun, roots, p, s.rank(a)) && Link(s, begun, roots, p.forward.Keys, NodeRefs(s.mem[a])[k])
    ensures a in begun && begun[a] <= p.forward.Keys
  {
    hide Clocked;
    var ks := NodeRefs(s.mem[a]);
    assert FromNode(s, begun[a], ks, k, p.forward.Keys, ks[k]);
  }

  /** ... and was visited: `p` and `times` are from before the visit. */
  lemma NodeVisited(s: Snapshot, times: Clock, begun: Clock, roots: seq<Term>, p: Progress, q: Progress, clock: Clock,
      a: Addr, k: nat)
    requires NodesTimed(s, times, roots, p, clock, a, k) && k < |NodeRefs(s.mem[a])| && NodeRefs(s.mem[a])[k] in s.mem
    requires Clocked(s, begun, roots, q, s.rank(a)) && Grown(times, begun, q.forward.Keys)
    requires p.forward.Keys <= q.forward.Keys
    requires q.forward.Keys == p.forward.Keys + Reach(s, NodeRefs(s.mem[a])[k])
    ensures NodesTimed(s, begun, roots, q, clock, a, k + 1)
  {
    hide Clocked, Reach, ReachNodes, Grown;
    var ks := NodeRefs(s.mem[a]);
    assert ks[..k + 1] == ks[..k] + [ks[k]];
    ReachNodesSnoc(s, ks[..k], ks[k]);
    GrownTwice(clock, times, begun, p.forward.Keys, q.forward.Keys);
    GrownAt(times, begun, q.forward.Keys, a);
  }

  /** Memory changes, but no copy that is finished. */
  lemma NodesStay(s: Snapshot, begun: Clock, roots: seq<Term>, p: Progress, q: Progress, clock: Clock, a: Addr, k: nat)
    requires NodesTimed(s, begun, roots, p, clock, a, k) && q.forward == p.forward
    requires forall x :: x in p.forward && p.forward[x] in p.mem ==>
               p.forward[x] in q.mem && q.mem[p.forward[x]] == p.mem[p.forward[x]]
    ensures NodesTimed(s, begun, roots, q, clock, a, k)
  {
    hide Clocked;
    Written(s, begun, roots, p, q, s.rank(a));
  }

  /** Headers and inner nodes hold no words. */
  lemma NodesEnd(s: Snapshot, begun: Clock, roots: seq<Term>, p: Progress, clock: Clock, a: Addr, k: nat)
    requires NodesTimed(s, begun, roots, p, clock, a, k) && (s.mem[a].ListObj? || s.mem[a].InnerObj?)
    ensures Clocked(s, begun, roots, p, s.rank(a)) && Grown(clock, begun, p.forward.Keys) && a in clock
    ensures forall c: Obj :: c.ListObj? || c.InnerObj? ==> IntsTimed(s, clock[a], s.mem[a], c)
  {
    hide Clocked;
  }

  // ---------- the registers ----------

  lemma RegisterLink(s: Snapshot, begun: Clock, roots: seq<Term>, done: set<Addr>, prior: seq<Term>, regs: seq<Term>,
      j: nat)
    requires prior + regs <= roots && j < |regs| && done == ReachWords(s, prior + regs[..j])
    ensures RefersTo(s, regs[j]) ==> Link(s, begun, roots, done, regs[j].ptr)
  {
    var k := |prior| + j;
    assert roots[k] == (prior + regs)[k] == regs[j];
    assert roots[..k] == prior + regs[..j];
    assert {} + ReachWords(s, roots[..k]) == done;
    if RefersTo(s, regs[j]) { assert FromWord(s, {}, roots, k, done, regs[j].ptr); }
  }

  lemma FramePrefix(registers: seq<seq<Term>>, n: nat, i: nat)
    requires i < n <= |registers|
    ensures Flatten(registers[..i]) + registers[i] <= Flatten(registers[..n])
  {
    assert registers[..n] == registers[..i] + ([registers[i]] + registers[i + 1..n]);
    FlattenConcat(registers[..i], [registers[i]] + registers[i + 1..n]);
    FlattenConcat([registers[i]], registers[i + 1..n]);
    assert Flatten([registers[i]]) == registers[i] + Flatten([]);
    assert Flatten(registers[..n]) == (Flatten(registers[..i]) + registers[i]) + Flatten(registers[i + 1..n]);
  }

  lemma NothingBegun(s: Snapshot, roots: seq<Term>, p: Progress)
    requires p.forward == map[]
    ensures Timed(s, map[], roots, p)
  {}

  lemma ZeroReaches(s: Snapshot)
    requires !OnHeap(s.from, s.size, ZERO.ptr)
    ensures ReachOf(s, ZERO) == {}
  {}

  /** Between two registers nothing is under way. */
  lemma ClockBelow(s: Snapshot, begun: Clock, roots: seq<Term>, p: Progress, bound: nat)
    requires Timed(s, begun, roots, p) && begun.Keys <= p.forward.Keys
    ensures Clocked(s, begun, roots, p, bound)
  {
    hide Timed;
  }

  lemma ClockAt(s: Snapshot, b: Clock, begun: Clock, roots: seq<Term>, p: Progress, q: Progress, bound: nat)
    requires Clocked(s, begun, roots, q, bound) && Grown(b, begun, q.forward.Keys)
    requires b.Keys <= p.forward.Keys <= q.forward.Keys
    ensures Timed(s, begun, roots, q) && begun.Keys <= q.forward.Keys
  {
    hide Timed;
  }
}
