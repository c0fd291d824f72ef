/**
 The copying collector.  It walks from the registers, copies each object into the
 other space and leaves a forwarding address behind.  Tuples, closures and list
 headers get their new place before their contents are copied; list nodes are
 rewritten where they are and moved afterwards.
 */
module Gc {
  import opened Seqs
  import opened Heap
  import opened GcModel
  import opened GcMeaning
  import opened GcOrder

  class Collector {
    /** The objects in memory, by address. */
    var mem: Memory
    /** The forward flags that are set, with the addresses stored behind them. */
    var forward: Forwarding
    var allocPtr: nat
    var fromSpace: nat
    var toSpace: nat
    /** The bytes of both spaces together. */
    var size: nat
    /** The registers of every frame. */
    var frames: seq<seq<Term>>
    var currentFrame: nat

    /** The heap as the collection found it, what has no place yet, and what can be
        reached from the registers visited so far. */
    ghost var before: Snapshot
    ghost var pending: set<Addr>
    ghost var scope: set<Addr>
    /** The words of all registers in the order of the visits, and what was forwarded
        when each object was begun. */
    ghost var roots: seq<Term>
    ghost var begun: Clock

    ghost function Now(): Progress
      reads this
    {
      Progress(mem, forward, pending, allocPtr)
    }

    /** The state of a running collection. */
    ghost predicate Collecting()
      reads this
    {
      && before.from == fromSpace && before.size == size
      && Inv(before, toSpace, Now())
      && Closed(before, scope) && forward.Keys <= scope
    }

    /** What is forwarded was come to in order, and nothing below the bound is under way. */
    ghost predicate InOrder(bound: nat)
      reads this
    {
      Clocked(before, begun, roots, Now(), bound)
    }

    /** heap_size_of, for a word that refers to an object. */
    function HeapSizeOf(t: Term): nat
      reads this
    {
      if t.ptr in mem && IsRef(t) then HeapSize(mem[t.ptr]) else 0
    }

    /** copy: the word for the copy of the object a word refers to.  The code does not
        look at the tag first: an integer is changed when its value is the address of
        an object that is forwarded already. */
    method Copy(t: Term, ghost bound: nat) returns (r: Term)
      requires Collecting() && Intact(before, Now(), bound)
      requires TermBelow(before.mem, before.rank, t, bound) && Settled(before, t)
      requires RefersTo(before, t) ==> t.ptr in scope
      requires InOrder(bound)
      requires RefersTo(before, t) && t.ptr !in forward ==> Link(before, begun, roots, forward.Keys, t.ptr)
      modifies `mem, `forward, `allocPtr, `pending, `begun, `scope
      ensures Collecting() && Intact(before, Now(), bound)
      ensures Advance(before, old(Now()), Now(), bound, {})
      ensures t.tag != INT ==> r == Tr(forward, t) && (OnHeap(fromSpace, size, t.ptr) ==> t.ptr in forward)
      ensures t.tag == INT ==> r == Tr(old(forward), t) && Now() == old(Now())
      ensures t.tag == INT ==> (r == t <==> !(OnHeap(fromSpace, size, t.ptr) && t.ptr in old(forward)))
      ensures Follows(forward, t, r) && (RefersTo(before, t) ==> t.ptr in forward)
      ensures InOrder(bound)
      ensures scope == old(scope) && Grown(old(begun), begun, forward.Keys)
      ensures forward.Keys == old(forward.Keys) + ReachOf(before, t)
      decreases bound, 0, 1
    {
      hide Inv, Intact, Advance, Copied, HeapSize, Cost, Place, HeapOk, ObjOk, LiveOk, TrObj, Covered, Closed,
          Clocked, Link, Reach, Refs;
      OffHeapStays(before, toSpace, Now(), t);
      AdvanceReflexive(before, Now(), bound, {});
      ghost var start, outer := Now(), scope;
      if RefersTo(before, t) { Narrow(before, toSpace, start, scope, t.ptr); }
      if !OnHeap(fromSpace, size, t.ptr) {
        return t;
      }
      if t.ptr in forward {
        if RefersTo(before, t) { Exactly(before, toSpace, start, start, t.ptr); }
        return Term(t.tag, forward[t.ptr]);
      }
      if t.tag != INT { CanCopy(before, toSpace, Now(), t.ptr, bound); }
      var heapSize := HeapSizeOf(t);
      if heapSize == 0 {
        return t;
      }
      scope := forward.Keys + Reach(before, t.ptr);
      var copied := CopyObject(t.ptr, heapSize, bound);
      AdvanceForward(before, start, Now(), bound, {});
      Exactly(before, toSpace, start, Now(), t.ptr);
      scope := outer;
      r := Term(t.tag, copied);
    }

    /** The part of copy that makes a copy: take room, fill it, and leave the
        forwarding address. */
    method CopyObject(a: Addr, heapSize: nat, ghost bound: nat) returns (copied: Addr)
      requires Collecting() && Intact(before, Now(), bound)
      requires a in scope && a in before.live && a in before.mem && before.rank(a) < bound
      requires a !in forward && !IsNode(before.mem[a])
      requires heapSize == HeapSize(before.mem[a])
      requires InOrder(bound) && Link(before, begun, roots, forward.Keys, a)
      modifies `mem, `forward, `allocPtr, `pending, `begun, `scope
      ensures Collecting() && Intact(before, Now(), bound)
      ensures Advance(before, old(Now()), Now(), bound, {})
      ensures a in forward && forward[a] == copied
      ensures InOrder(bound)
      ensures scope == old(scope) && Grown(old(begun), begun, forward.Keys)
      decreases bound, 0, 0
    {
      hide Inv, Intact, Advance, HeapSize, Cost, Place, Alike, Covered, Reserved, Closed, Clocked, Link, IntsTimed,
          Grown;
      ghost var start, obj := Now(), before.mem[a];
      CanCopy(before, toSpace, start, a, bound);
      BoundBelow(before, start, a, bound);
      ghost var clock := begun;
      Begin(before, clock, roots, start, a, bound);
      begun := begun[a := forward.Keys];
      copied := TakeRoom(a, heapSize);
      ghost var reserved := Now();
      CopyRefs(copied, a);
      ghost var p := Now();
      AdvanceForward(before, reserved, p, before.rank(a), {copied});
      ForwardTo(a, copied, start, bound);
      End(before, clock, start, begun, roots, p, Now(), a, bound);
    }

    /** forward: leave the forwarding address of a finished copy.  `start` is the
        state before room was taken for it. */
    method ForwardTo(a: Addr, copied: Addr, ghost start: Progress, ghost bound: nat)
      requires Collecting() && Inv(before, toSpace, start) && Intact(before, start, bound)
      requires a in scope && a in start.pending && a in before.mem && before.rank(a) < bound
      requires copied == Place(start.alloc, before.mem[a])
      requires Advance(before, Reserved(before, start, a, before.mem[a]), Now(), before.rank(a), {copied})
      requires copied in mem && Covered(before, forward, before.mem[a])
      requires Alike(forward, before.mem[a], mem[copied])
      requires forall x :: x in forward ==> forward[x] != copied
      modifies `forward
      ensures Collecting() && Intact(before, Now(), bound) && Advance(before, start, Now(), bound, {})
      ensures forward == old(forward)[a := copied]
    {
      hide Inv, Intact, Advance, Place, Alike, Covered, Reserved, Closed;
      FinishCopy(before, toSpace, start, a, before.mem[a], Now(), bound);
      forward := forward[a := copied];
    }

    /** Room for one object, holding a byte-for-byte copy. */
    method TakeRoom(a: Addr, heapSize: nat) returns (copied: Addr)
      requires Collecting() && Intact(before, Now(), before.rank(a))
      requires a in pending && a in mem && a in before.mem && mem[a] == before.mem[a] && !IsNode(mem[a])
      requires heapSize == HeapSize(mem[a])
      requires InOrder(before.rank(a))
      modifies `mem, `allocPtr, `pending
      ensures Collecting()
      ensures Now() == Reserved(before, old(Now()), a, before.mem[a])
      ensures copied == Place(old(allocPtr), before.mem[a]) < allocPtr
      ensures copied in mem && copied !in before.live && forall x :: x in forward ==> forward[x] != copied
      ensures mem[copied] == before.mem[a]
      ensures Intact(before, Now(), before.rank(a)) && InOrder(before.rank(a))
    {
      hide Inv, Intact, HeapSize, Cost, Place, Closed, Clocked;
      PlainCost(mem[a], allocPtr);
      RoomFits(before, toSpace, Now(), a);
      Reserve(before, toSpace, Now(), a, before.mem[a]);
      if allocPtr + heapSize > toSpace + size / 2 {
        assert false;  // die("Insufficient memory")
      }
      copied := allocPtr + 1;
      mem := mem[copied := mem[a]];
      allocPtr := allocPtr + heapSize + 1;
      pending := pending - {a};
      assert Now() == Reserved(before, old(Now()), a, before.mem[a]);
      Written(before, begun, roots, old(Now()), Now(), before.rank(a));
    }

    /** copy_refs: translate the contents of a fresh copy. */
    method CopyRefs(copied: Addr, ghost a: Addr)
      requires Collecting() && a in scope && a in before.live && a in before.mem
          && Intact(before, Now(), before.rank(a))
      requires copied in mem && copied !in before.live && mem[copied] == before.mem[a] && !IsNode(before.mem[a])
      requires forall x :: x in forward ==> forward[x] != copied
      requires copied < allocPtr
      requires InOrder(before.rank(a)) && a in begun && begun[a] == forward.Keys
      modifies `mem, `forward, `allocPtr, `pending, `begun, `scope
      ensures Collecting() && Intact(before, Now(), before.rank(a))
      ensures Advance(before, old(Now()), Now(), before.rank(a), {copied})
      ensures forall x :: x in forward ==> forward[x] != copied
      ensures copied in mem && Covered(before, forward, before.mem[a]) && Alike(forward, before.mem[a], mem[copied])
      ensures InOrder(before.rank(a)) && IntsTimed(before, old(forward.Keys), before.mem[a], mem[copied])
      ensures scope == old(scope) && Grown(old(begun), begun, forward.Keys)
      decreases before.rank(a), 3, 0
    {
      if mem[copied].ListObj? {
        CopyHeader(copied, a);
      } else if !mem[copied].StringObj? {
        CopyFields(copied, a);
      }
    }

    /** The loops of copy_refs and copy_list_node over the words of an object:
        every word is replaced, in place, by the word for its copy.  `o` is the
        fresh copy of `a`, or `a` itself when it is a leaf. */
    method CopyFields(o: Addr, ghost a: Addr)
      requires Collecting() && a in scope && a in before.live && a in before.mem
          && Intact(before, Now(), before.rank(a))
      requires o in mem && mem[o] == before.mem[a] && (mem[o].TupleObj? || mem[o].FunctionObj? || mem[o].LeafObj?)
      requires o in before.live ==> o == a && a in pending
      requires (forall x :: x in forward ==> forward[x] != o) && (o in before.live || o < allocPtr)
      requires InOrder(before.rank(a)) && a in begun && begun[a] == forward.Keys
      modifies `mem, `forward, `allocPtr, `pending, `begun, `scope
      ensures Collecting() && Intact(before, Now(), before.rank(a))
      ensures Advance(before, old(Now()), Now(), before.rank(a), {o})
      ensures forall x :: x in forward ==> forward[x] != o
      ensures o in mem && Covered(before, forward, before.mem[a]) && Alike(forward, before.mem[a], mem[o])
      ensures InOrder(before.rank(a)) && IntsTimed(before, old(forward.Keys), before.mem[a], mem[o])
      ensures scope == old(scope) && Grown(old(begun), begun, forward.Keys)
      decreases before.rank(a), 2, 0
    {
      hide FieldsDone, FieldsTimed, Collecting, Intact, Advance, Covered, Alike, HeapOk, Clocked, IntsTimed;
      ghost var start := Now();
      FieldsBegin(o, a);
      TimesBegin(o, a);
      ghost var clock := begun;
      var i := 0;
      while i < |Terms(mem[o])|
        invariant o in mem && a in before.mem && i <= |Terms(before.mem[a])| == |Terms(mem[o])|
            && FieldsDone(start, o, a, i) && FieldsTimed(clock, o, a, i)
        invariant before == old(before) && roots == old(roots) && scope == old(scope)
        decreases |Terms(before.mem[a])| - i
      {
        CopyField(o, i, start, a, clock);
        i := i + 1;
      }
      FieldsEnd(start, o, a);
      TimesEnd(clock, o, a);
    }

    lemma FieldsBegin(o: Addr, a: Addr)
      requires Collecting() && a in scope && a in before.live && a in before.mem
          && Intact(before, Now(), before.rank(a))
      requires o in mem && mem[o] == before.mem[a] && (mem[o].TupleObj? || mem[o].FunctionObj? || mem[o].LeafObj?)
      requires o in before.live ==> o == a && a in pending
      requires (forall x :: x in forward ==> forward[x] != o) && (o in before.live || o < allocPtr)
      ensures FieldsDone(Now(), o, a, 0)
    {
      hide Inv, Intact, Advance, Closed;
      AdvanceReflexive(before, Now(), before.rank(a), {o});
    }

    lemma FieldsEnd(start: Progress, o: Addr, a: Addr)
      requires a in before.mem && FieldsDone(start, o, a, |Terms(before.mem[a])|)
      ensures Collecting() && Intact(before, Now(), before.rank(a))
          && Advance(before, start, Now(), before.rank(a), {o})
      ensures forall x :: x in forward ==> forward[x] != o
      ensures o in mem && Covered(before, forward, before.mem[a]) && Alike(forward, before.mem[a], mem[o])
    {
      hide Inv, Intact, Advance, TermsCovered, Covered, Alike, AllFollow, Closed;
      FieldsComplete(before, forward, before.mem[a], mem[o]);
    }

    /** The first i words of `o` were visited in order; `clock` is from before. */
    ghost predicate FieldsTimed(clock: Clock, o: Addr, a: Addr, i: nat)
      reads this
    {
      && a in before.mem && o in mem && InOrder(before.rank(a)) && a in begun && a in clock
      && Grown(clock, begun, forward.Keys)
      && i <= |Terms(before.mem[a])| == |Terms(mem[o])|
      && forward.Keys == begun[a] + ReachWords(before, Terms(before.mem[a])[..i])
      && IntsUpTo(before, begun[a], Terms(before.mem[a]), Terms(mem[o]), i)
    }

    lemma TimesBegin(o: Addr, a: Addr)
      requires a in before.mem && InOrder(before.rank(a)) && a in begun && begun[a] == forward.Keys
      requires o in mem && mem[o] == before.mem[a]
      ensures FieldsTimed(begun, o, a, 0)
    {
      hide Clocked;
      NothingReached(before);
      assert Terms(before.mem[a])[..0] == [];
    }

    /** The next word is come to in order. */
    lemma NextField(clock: Clock, o: Addr, a: Addr, i: nat)
      requires FieldsTimed(clock, o, a, i) && i < |Terms(before.mem[a])|
      ensures InOrder(before.rank(a)) && a in begun && a in clock && Grown(clock, begun, forward.Keys)
      ensures forward.Keys == begun[a] + ReachWords(before, Terms(before.mem[a])[..i])
      ensures IntsUpTo(before, begun[a], Terms(before.mem[a]), Terms(mem[o]), i)
      ensures RefersTo(before, Terms(before.mem[a])[i]) ==>
                Link(before, begun, roots, forward.Keys, Terms(before.mem[a])[i].ptr)
    {
      hide Clocked;
      if RefersTo(before, Terms(before.mem[a])[i]) {
        assert FromWord(before, begun[a], Terms(before.mem[a]), i, forward.Keys, Terms(before.mem[a])[i].ptr);
      }
    }

    /** ... and was visited: `p` and `times` are from before the visit. */
    lemma FieldVisited(clock: Clock, times: Clock, p: Progress, o: Addr, a: Addr, i: nat, u: Term)
      requires a in before.mem && i < |Terms(before.mem[a])| && o in mem && o in p.mem
      requires a in times && a in clock && Grown(clock, times, p.forward.Keys) && Grown(times, begun, forward.Keys)
      requires p.forward.Keys <= forward.Keys && InOrder(before.rank(a))
      requires p.forward.Keys == times[a] + ReachWords(before, Terms(before.mem[a])[..i])
      requires forward.Keys == p.forward.Keys + ReachOf(before, Terms(before.mem[a])[i])
      requires |Terms(p.mem[o])| == |Terms(before.mem[a])| && Terms(mem[o]) == Terms(p.mem[o])[i := u]
      requires IntsUpTo(before, times[a], Terms(before.mem[a]), Terms(p.mem[o]), i)
      requires Terms(before.mem[a])[i].tag == INT ==>
                 (u == Terms(before.mem[a])[i] <==> Terms(before.mem[a])[i].ptr !in p.forward.Keys)
      ensures FieldsTimed(clock, o, a, i + 1)
    {
      hide Clocked, ReachWords, ReachOf, IntsUpTo;
      var ts := Terms(before.mem[a]);
      assert ts[..i + 1] == ts[..i] + [ts[i]];
      ReachWordsSnoc(before, ts[..i], ts[i]);
      IntNext(before, times[a], ts, Terms(p.mem[o]), i, u, p.forward.Keys);
    }

    lemma TimesEnd(clock: Clock, o: Addr, a: Addr)
      requires a in before.mem && FieldsTimed(clock, o, a, |Terms(before.mem[a])|)
      ensures InOrder(before.rank(a)) && a in clock && o in mem && Grown(clock, begun, forward.Keys)
      ensures IntsTimed(before, clock[a], before.mem[a], mem[o])
    {
      hide Clocked;
    }

    /** The first i words of `o` are moved. */
    ghost predicate FieldsDone(start: Progress, o: Addr, a: Addr, i: nat)
      reads this
    {
      && Collecting() && a in scope && a in before.live && a in before.mem && Intact(before, Now(), before.rank(a))
      && Advance(before, start, Now(), before.rank(a), {o})
      && (forall x :: x in forward ==> forward[x] != o)
      && o in mem && (o in before.live || o < allocPtr) && (o in before.live ==> o == a && a in pending)
      && (before.mem[a].TupleObj? || before.mem[a].FunctionObj? || before.mem[a].LeafObj?)
      && var ts := Terms(before.mem[a]);
         var us := Terms(mem[o]);
         i <= |ts| == |us| && mem[o] == WithTerms(before.mem[a], us) && us[i..] == ts[i..]
         && AllFollow(forward, ts[..i], us[..i]) && TermsCovered(before, forward, ts[..i])
    }

    /** One word of an object. */
    method CopyField(o: Addr, i: nat, ghost start: Progress, ghost a: Addr, ghost clock: Clock)
      requires FieldsDone(start, o, a, i) && o in mem && i < |Terms(mem[o])| && a in before.mem
          && i < |Terms(before.mem[a])|
      requires FieldsTimed(clock, o, a, i)
      modifies `mem, `forward, `allocPtr, `pending, `begun, `scope
      ensures FieldsDone(start, o, a, i + 1) && FieldsTimed(clock, o, a, i + 1) && scope == old(scope)
      ensures o in mem && |Terms(mem[o])| == |Terms(before.mem[a])|
      decreases before.rank(a), 1, 0
    {
      hide Inv, Intact, Advance, TermBelow, Settled, TermsCovered, Covered, AllFollow, Follows, Tr, HeapOk, ObjOk,
          SnapshotOk, LiveOk, Closed, RefersTo, Clocked, Link, IntsUpTo, ReachOf, Grown, FieldsTimed;
      ghost var rank, ts, us := before.rank(a), Terms(before.mem[a]), Terms(mem[o]);
      ghost var p, times := Now(), begun;
      FieldFacts(before, toSpace, p, a);
      FieldsInScope(before, scope, a);
      assert us[i] == us[i..][0] == ts[i];
      NextField(clock, o, a, i);
      ForwardedOnHeap(before, toSpace, p);
      var r := Copy(Terms(mem[o])[i], rank);
      ghost var q := Now();
      ghost var obj := WithTerms(before.mem[a], us[i := r]);
      FieldWritten(before, toSpace, start, p, Now(), o, ts, us, i, r, obj, rank);
      mem := mem[o := WithTerms(mem[o], Terms(mem[o])[i := r])];
      assert mem[o] == obj;
      Written(before, begun, roots, q, Now(), rank);
      FieldVisited(clock, times, p, o, a, i, r);
    }

    /** copy_refs on a list header: its tree, then its tail. */
    method CopyHeader(copied: Addr, ghost a: Addr)
      requires Collecting() && a in scope && a in before.live && a in before.mem
          && Intact(before, Now(), before.rank(a))
      requires copied in mem && copied !in before.live && mem[copied] == before.mem[a] && mem[copied].ListObj?
      requires forall x :: x in forward ==> forward[x] != copied
      requires copied < allocPtr
      requires InOrder(before.rank(a)) && a in begun && begun[a] == forward.Keys
      modifies `mem, `forward, `allocPtr, `pending, `begun, `scope
      ensures Collecting() && Intact(before, Now(), before.rank(a))
      ensures Advance(before, old(Now()), Now(), before.rank(a), {copied})
      ensures forall x :: x in forward ==> forward[x] != copied
      ensures copied in mem && Covered(before, forward, before.mem[a]) && Alike(forward, before.mem[a], mem[copied])
      ensures InOrder(before.rank(a)) && IntsTimed(before, old(forward.Keys), before.mem[a], mem[copied])
      ensures scope == old(scope) && Grown(old(begun), begun, forward.Keys)
      decreases before.rank(a), 2, 0
    {
      hide Inv, Intact, Advance, Copied, Closed, Clocked, Link, NodesTimed, Grown;
      ghost var rank, start, clock := before.rank(a), Now(), begun;
      NodesBegin(before, begun, roots, start, a);
      SnapshotFacts(before, toSpace, start, a);
      FieldsInScope(before, scope, a);
      ghost var obj := before.mem[a];
      AdvanceReflexive(before, start, rank, {copied});
      ghost var ks := NodeRefs(obj);
      ghost var last := |ks| - 1;
      assert ks[last] == obj.tail;
      if mem[copied].root.Some? {
        assert ks[0] == obj.root.value;
        var root := VisitNode(mem[copied].root.value, a, 0, clock);
        ghost var q := Now();
        ghost var withRoot := obj.(root := Some(root));
        ChildWritten(before, toSpace, start, start, Now(), copied, ks, 0, withRoot, rank);
        mem := mem[copied := mem[copied].(root := Some(root))];
        NodesStay(before, begun, roots, q, Now(), clock, a, 1);
      }
      ghost var p := Now();
      var tail := VisitNode(mem[copied].tail, a, last, clock);
      ghost var q := Now();
      ghost var withTail := p.mem[copied].(tail := tail);
      ChildWritten(before, toSpace, start, p, Now(), copied, ks, last, withTail, rank);
      mem := mem[copied := mem[copied].(tail := tail)];
      NodesStay(before, begun, roots, q, Now(), clock, a, last + 1);
      NodesEnd(before, begun, roots, Now(), clock, a, last + 1);
    }

    /** One node that a header or an inner node refers to, in its turn. */
    method VisitNode(n: Addr, ghost a: Addr, ghost k: nat, ghost clock: Clock) returns (r: Addr)
      requires Collecting() && a in before.mem && Intact(before, Now(), before.rank(a))
      requires NodesTimed(before, begun, roots, Now(), clock, a, k) && k < |NodeRefs(before.mem[a])|
      requires n == NodeRefs(before.mem[a])[k] && CanMove(before, n, before.rank(a)) && n in scope
      modifies `mem, `forward, `allocPtr, `pending, `begun, `scope
      ensures Collecting() && Intact(before, Now(), before.rank(a))
      ensures Advance(before, old(Now()), Now(), before.rank(a), {})
      ensures n in forward && r == forward[n]
      ensures NodesTimed(before, begun, roots, Now(), clock, a, k + 1) && scope == old(scope)
      decreases before.rank(a), 0, 2
    {
      hide Inv, Intact, Advance, Closed, NodesTimed, Clocked, Link, Grown, ReachNodes;
      ghost var p, times := Now(), begun;
      NextNode(before, begun, roots, p, clock, a, k);
      r := CopyListNode(n, before.rank(a));
      AdvanceForward(before, p, Now(), before.rank(a), {});
      NodeVisited(before, times, begun, roots, p, Now(), clock, a, k);
    }

    /** copy_list_node: the address of the copy of a tree node. */
    method CopyListNode(n: Addr, ghost bound: nat) returns (r: Addr)
      requires Collecting() && Intact(before, Now(), bound)
      requires n in scope && n in before.live && n in before.mem && IsNode(before.mem[n]) && before.rank(n) < bound
      requires InOrder(bound) && (n !in forward ==> Link(before, begun, roots, forward.Keys, n))
      modifies `mem, `forward, `allocPtr, `pending, `begun, `scope
      ensures Collecting() && Intact(before, Now(), bound)
      ensures Advance(before, old(Now()), Now(), bound, {})
      ensures n in forward && r == forward[n]
      ensures InOrder(bound)
      ensures scope == old(scope) && Grown(old(begun), begun, forward.Keys)
      ensures forward.Keys == old(forward.Keys) + Reach(before, n)
      decreases bound, 0, 1
    {
      hide Inv, Intact, Advance, Closed, Alike, Covered, HeapSize, Cost, Place, ObjOk, LiveOk, Cut,
          Clocked, Link, Grown, Reach, Refs;
      AdvanceReflexive(before, Now(), bound, {});
      Narrow(before, toSpace, Now(), scope, n);
      if n in forward {
        Exactly(before, toSpace, Now(), Now(), n);
        GrownNot(begun, forward.Keys);
        return forward[n];
      }
      ghost var start, outer := Now(), scope;
      scope := forward.Keys + Reach(before, n);
      r := MoveNode(n, bound);
      AdvanceForward(before, start, Now(), bound, {});
      Exactly(before, toSpace, start, Now(), n);
      scope := outer;
    }

    /** The part of copy_list_node that moves a node: rewrite it, then copy it. */
    method MoveNode(n: Addr, ghost bound: nat) returns (r: Addr)
      requires Collecting() && Intact(before, Now(), bound)
      requires n in scope && n in before.live && n in before.mem && IsNode(before.mem[n]) && before.rank(n) < bound
      requires n !in forward && InOrder(bound) && Link(before, begun, roots, forward.Keys, n)
      modifies `mem, `forward, `allocPtr, `pending, `begun, `scope
      ensures Collecting() && Intact(before, Now(), bound)
      ensures Advance(before, old(Now()), Now(), bound, {})
      ensures n in forward && r == forward[n]
      ensures InOrder(bound)
      ensures scope == old(scope) && Grown(old(begun), begun, forward.Keys)
      decreases bound, 0, 0
    {
      hide Inv, Intact, Advance, Closed, Alike, Covered, HeapSize, Cost, Place, ObjOk, LiveOk, Cut,
          Clocked, Link, IntsTimed, Grown, Moved, Reach, Refs, HeapOk, SnapshotOk;
      ghost var start, clock := Now(), begun;
      CanCopy(before, toSpace, start, n, bound);
      BoundBelow(before, start, n, bound);
      Begin(before, clock, roots, start, n, bound);
      begun := begun[n := forward.Keys];
      RewriteNode(n);
      ghost var p, obj := Now(), Cut(mem[n]);
      MoveEnds(before, toSpace, clock, start, begun, roots, p, n, obj, bound);
      r := BumpNode(n);
    }

    /** The loops of copy_list_node: the node is rewritten where it is. */
    method RewriteNode(n: Addr)
      requires Collecting() && n in scope && n in before.live && n in before.mem
          && Intact(before, Now(), before.rank(n))
      requires n in pending && n in mem && mem[n] == before.mem[n] && IsNode(mem[n])
      requires forall x :: x in forward ==> forward[x] != n
      requires InOrder(before.rank(n)) && n in begun && begun[n] == forward.Keys
      modifies `mem, `forward, `allocPtr, `pending, `begun, `scope
      ensures Collecting() && Intact(before, Now(), before.rank(n))
      ensures Advance(before, old(Now()), Now(), before.rank(n), {n})
      ensures n in mem && Covered(before, forward, before.mem[n]) && Alike(forward, before.mem[n], Cut(mem[n]))
      ensures IsNode(mem[n])
      ensures mem[n].InnerObj? ==>
                before.mem[n].InnerObj? && mem[n].table == before.mem[n].table && |mem[n].kids| == |before.mem[n].kids|
      ensures InOrder(before.rank(n)) && IntsTimed(before, old(forward.Keys), before.mem[n], Cut(mem[n]))
      ensures scope == old(scope) && Grown(old(begun), begun, forward.Keys)
      decreases before.rank(n), 3, 0
    {
      hide Inv, Intact, Advance, Closed, Alike, Covered, Cut, TrAddrs, Clocked, IntsTimed, Grown;
      if mem[n].InnerObj? {
        CopyKids(n);
      } else {
        CopyFields(n, n);
      }
      CutAlike(forward, before.mem[n], mem[n]);
      CutTimed(before, old(forward.Keys), before.mem[n], mem[n]);
    }

    /** The loop of copy_list_node over the children of an inner node. */
    method CopyKids(n: Addr)
      requires Collecting() && n in scope && n in before.live && n in before.mem
          && Intact(before, Now(), before.rank(n))
      requires n in pending && n in mem && mem[n] == before.mem[n] && mem[n].InnerObj?
      requires forall x :: x in forward ==> forward[x] != n
      requires InOrder(before.rank(n)) && n in begun && begun[n] == forward.Keys
      modifies `mem, `forward, `allocPtr, `pending, `begun, `scope
      ensures Collecting() && Intact(before, Now(), before.rank(n))
      ensures Advance(before, old(Now()), Now(), before.rank(n), {n})
      ensures n in pending && n in mem && Covered(before, forward, before.mem[n])
      ensures mem[n] == InnerObj(TrAddrs(forward, before.mem[n].kids), before.mem[n].table)
      ensures InOrder(before.rank(n)) && IntsTimed(before, old(forward.Keys), before.mem[n], mem[n])
      ensures scope == old(scope) && Grown(old(begun), begun, forward.Keys)
      decreases before.rank(n), 2, 0
    {
      hide Inv, Intact, Advance, Covered, TrAddrs, Closed, CanMove, NodesTimed, Clocked, Grown;
      ghost var rank, start, kids := before.rank(n), Now(), before.mem[n].kids;
      ghost var clock := begun;
      NodesBegin(before, begun, roots, start, n);
      KidFacts(before, toSpace, start, n);
      FieldsInScope(before, scope, n);
      assert NodeRefs(before.mem[n]) == kids;
      NothingMoved(forward, kids);
      AdvanceReflexive(before, start, rank, {n});
      var i := 0;
      while i < |mem[n].kids|
        invariant Collecting() && before == old(before) && scope == old(scope) && Intact(before, Now(), rank)
        invariant Advance(before, start, Now(), rank, {n})
        invariant roots == old(roots) && NodesTimed(before, begun, roots, Now(), clock, n, i)
        invariant n in pending && n in mem && i <= |kids| && forall x :: x in forward ==> forward[x] != n
        invariant mem[n] == InnerObj(TrAddrs(forward, kids[..i]) + kids[i..], before.mem[n].table)
        invariant forall k :: 0 <= k < i ==> kids[k] in forward
        decreases |kids| - i
      {
        CopyKid(n, i, start, clock);
        i := i + 1;
      }
      KidsComplete(before, forward, before.mem[n]);
      NodesEnd(before, begun, roots, Now(), clock, n, i);
    }

    /** One child of an inner node. */
    method CopyKid(n: Addr, i: nat, ghost start: Progress, ghost clock: Clock)
      requires Collecting() && n in before.live && n in before.mem && Intact(before, Now(), before.rank(n))
      requires Advance(before, start, Now(), before.rank(n), {n}) && before.mem[n].InnerObj?
      requires n in pending && n in mem && i < |before.mem[n].kids| && forall x :: x in forward ==> forward[x] != n
      requires var kids := before.mem[n].kids;
               && mem[n] == InnerObj(TrAddrs(forward, kids[..i]) + kids[i..], before.mem[n].table)
               && (forall k :: 0 <= k < i ==> kids[k] in forward)
               && CanMove(before, kids[i], before.rank(n)) && kids[i] in scope
      requires NodesTimed(before, begun, roots, Now(), clock, n, i)
      modifies `mem, `forward, `allocPtr, `pending, `begun, `scope
      ensures Collecting() && Intact(before, Now(), before.rank(n))
      ensures Advance(before, start, Now(), before.rank(n), {n})
      ensures n in pending && n in mem && forall x :: x in forward ==> forward[x] != n
      ensures var kids := before.mem[n].kids;
              && mem[n] == InnerObj(TrAddrs(forward, kids[..i + 1]) + kids[i + 1..], before.mem[n].table)
              && forall k :: 0 <= k < i + 1 ==> kids[k] in forward
      ensures NodesTimed(before, begun, roots, Now(), clock, n, i + 1) && scope == old(scope)
      decreases before.rank(n), 1, 0
    {
      hide Inv, Intact, Advance, Covered, TrAddrs, Closed, NodesTimed, Clocked, Link, Grown;
      ghost var p, kids, rank := Now(), before.mem[n].kids, before.rank(n);
      var r := VisitNode(mem[n].kids[i], n, i, clock);
      ghost var q := Now();
      ghost var obj := InnerObj(TrAddrs(forward, kids[..i + 1]) + kids[i + 1..], before.mem[n].table);
      ChildWritten(before, toSpace, start, p, Now(), n, kids, i, obj, rank);
      mem := mem[n := mem[n].(kids := mem[n].kids[i := r])];
      assert mem[n] == obj;
      NodesStay(before, begun, roots, q, Now(), clock, n, i + 1);
    }

    /** The end of copy_list_node: bump_cpy of the table, then of the node. */
    method BumpNode(n: Addr) returns (r: Addr)
      requires Collecting() && n in pending && n in mem && n in before.mem && IsNode(before.mem[n]) && IsNode(mem[n])
      requires Alike(forward, before.mem[n], Cut(mem[n]))
      requires mem[n].InnerObj? ==>
                 before.mem[n].InnerObj? && mem[n].table == before.mem[n].table && |mem[n].kids| == |before.mem[n].kids|
      modifies `mem, `forward, `allocPtr, `pending
      ensures Now() == Moved(before, old(Now()), n, Cut(old(mem)[n])) && r == forward[n]
    {
      hide Inv, HeapSize, Cost, Place, Covered, Closed, Alike;
      RoomFits(before, toSpace, Now(), n);
      ghost var obj := Cut(mem[n]);
      NodeCost(before.mem[n], obj, forward, allocPtr);
      if mem[n].InnerObj? && mem[n].table.Some? {
        var block := Max(8, 8 + |mem[n].kids| * 4);
        if allocPtr + block + 1 > toSpace + size / 2 {
          assert false;  // die("Insufficient memory")
        }
        allocPtr := allocPtr + block + 1;
        mem := mem[n := mem[n].(table := Truncate(mem[n].table, |mem[n].kids|))];
      }
      var block := Max(8, HeapSize(mem[n]));
      if allocPtr + block + 1 > toSpace + size / 2 {
        assert false;  // die("Insufficient memory")
      }
      r := allocPtr + 1;
      allocPtr := allocPtr + block + 1;
      assert mem[n] == obj && mem == old(mem)[n := obj];
      mem := mem[r := mem[n]];
      forward := forward[n := r];
      pending := pending - {n};
    }

    /** The objects outside the idle space. */
    function Active(): Memory
      reads this
    {
      map a | a in mem && !(fromSpace <= a <= fromSpace + size / 2) :: mem[a]
    }

    /** What a collection starts from: the active space and all off the heap. */
    ghost function Start(rank: Rank, live: set<Addr>): Snapshot
      reads this
    {
      Snapshot(Active(), rank, live, toSpace, size)
    }

    /** A heap that can be collected: well formed, every word in a live register
        settled, no forward flag of an earlier collection on what is live, and enough
        room for a copy of it. */
    ghost predicate Ready(rank: Rank, live: set<Addr>)
      reads this
    {
      var s := Start(rank, live);
      && SnapshotOk(s) && Disjoint(s, fromSpace) && live !! forward.Keys
      && currentFrame < |frames|
      && (forall i :: 0 <= i <= currentFrame ==> RootsOk(s, frames[i]))
      && Total(s.mem, live) <= size / 2
    }

    lemma StartFacts(rank: Rank, live: set<Addr>)
      requires Ready(rank, live)
      ensures Start(rank, live) == Snapshot(Active(), rank, live, toSpace, size)
      ensures var s := Start(rank, live);
              && SnapshotOk(s) && Disjoint(s, fromSpace) && Total(Active(), live) <= size / 2
              && currentFrame < |frames| && forall i :: 0 <= i <= currentFrame ==> RootsOk(s, frames[i])
      ensures forall c :: c in Active() ==> !InSpace(fromSpace, size, c)
    {
      hide Total, SnapshotOk, RootsOk, Disjoint;
    }

    /** swap_spaces.  Whatever still lies in the space to be filled, flags included,
        is going to be overwritten and never read. */
    method SwapSpaces(ghost rank: Rank, ghost live: set<Addr>)
      requires Ready(rank, live)
      modifies this
      ensures toSpace == old(fromSpace) && fromSpace == old(toSpace) && allocPtr == toSpace
      ensures size == old(size) && currentFrame == old(currentFrame) && frames == old(frames)
      ensures before == old(Start(rank, live)) && mem == before.mem && forward == map[]
      ensures Collecting() && Quiet(before, Now()) && scope == {}
      ensures currentFrame < |frames| && (forall i :: 0 <= i <= currentFrame ==> RootsOk(before, frames[i]))
      ensures before.live == live && forall c :: c in before.mem ==> !InSpace(toSpace, size, c)
      ensures roots == Flatten(old(frames)[..old(currentFrame) + 1])
      ensures Timed(before, begun, roots, Now()) && begun == map[]
    {
      hide Total, SnapshotOk, RootsOk, Inv, Quiet, Timed, Flatten, Ready, Active, Start, Disjoint, InSpace, Closed;
      StartFacts(rank, live);
      var active := Active();
      before := Start(rank, live);
      mem := active;
      forward := map[];
      pending := live;
      scope := {};
      roots, begun := Flatten(frames[..currentFrame + 1]), map[];
      toSpace, fromSpace := fromSpace, toSpace;
      allocPtr := toSpace;
      StartInv(before, toSpace, Now());
      NothingBegun(before, roots, Now());
    }

    /** The inner loop of gc_collect: the registers of one frame.  `prior` are the
        registers visited before. */
    method CopyFrame(i: nat, ghost prior: seq<Term>)
      requires Collecting() && Quiet(before, Now()) && i < |frames| && RootsOk(before, frames[i])
      requires RootsOk(before, prior) && forward.Keys == ReachWords(before, prior)
      requires prior + frames[i] <= roots && Timed(before, begun, roots, Now()) && begun.Keys <= forward.Keys
      modifies `mem, `forward, `allocPtr, `pending, `frames, `scope, `begun
      ensures Collecting() && Quiet(before, Now())
      ensures Timed(before, begun, roots, Now()) && begun.Keys <= forward.Keys
      ensures forall x :: x in old(forward) ==> x in forward && forward[x] == old(forward)[x]
      ensures i < |frames| && frames == old(frames)[i := frames[i]]
      ensures AllFollow(forward, old(frames)[i], frames[i]) && TermsCovered(before, forward, old(frames)[i])
      ensures IntsVisited(before, prior, old(frames)[i], frames[i], |frames[i]|)
      ensures forward.Keys == ReachWords(before, prior + old(frames)[i])
      ensures forall c :: c in old(mem) && c !in before.live ==> c in mem && mem[c] == old(mem)[c]
    {
      hide Inv, Intact, Quiet, Settled, Closed, ReachWords, RootsOk, WordRefs, RefersTo, Follows, Timed;
      ghost var regs := frames[i];
      assert prior + regs[..0] == prior;
      assert prior + regs <= roots;
      var j := 0;
      while j < |frames[i]|
        invariant Collecting() && Quiet(before, Now())
        invariant Timed(before, begun, roots, Now()) && begun.Keys <= forward.Keys
        invariant i < |frames| && j <= |regs| == |frames[i]| && frames == old(frames)[i := frames[i]]
        invariant forall x :: x in old(forward) ==> x in forward && forward[x] == old(forward)[x]
        invariant AllFollow(forward, regs[..j], frames[i][..j]) && frames[i][j..] == regs[j..]
        invariant TermsCovered(before, forward, regs[..j])
        invariant IntsVisited(before, prior, regs, frames[i], j)
        invariant forward.Keys == ReachWords(before, prior + regs[..j])
        invariant forall c :: c in old(mem) && c !in before.live ==> c in mem && mem[c] == old(mem)[c]
        decreases |regs| - j
      {
        CopyRegister(i, j, regs, prior);
        j := j + 1;
      }
      assert regs[..j] == regs && frames[i][..j] == frames[i];
    }

    /** One register. */
    method CopyRegister(i: nat, j: nat, ghost regs: seq<Term>, ghost prior: seq<Term>)
      requires Collecting() && Quiet(before, Now()) && RootsOk(before, regs) && RootsOk(before, prior)
      requires i < |frames| && j < |regs| == |frames[i]| && frames[i][j..] == regs[j..]
      requires AllFollow(forward, regs[..j], frames[i][..j]) && TermsCovered(before, forward, regs[..j])
      requires IntsVisited(before, prior, regs, frames[i], j)
      requires forward.Keys == ReachWords(before, prior + regs[..j])
      requires prior + regs <= roots && Timed(before, begun, roots, Now()) && begun.Keys <= forward.Keys
      modifies `mem, `forward, `allocPtr, `pending, `frames, `scope, `begun
      ensures Collecting() && Quiet(before, Now())
      ensures Timed(before, begun, roots, Now()) && begun.Keys <= forward.Keys
      ensures i < |frames| && |frames[i]| == |regs| && frames == old(frames)[i := frames[i]]
      ensures frames[i][j + 1..] == regs[j + 1..]
      ensures forall x :: x in old(forward) ==> x in forward && forward[x] == old(forward)[x]
      ensures AllFollow(forward, regs[..j + 1], frames[i][..j + 1]) && TermsCovered(before, forward, regs[..j + 1])
      ensures IntsVisited(before, prior, regs, frames[i], j + 1)
      ensures forward.Keys == ReachWords(before, prior + regs[..j + 1])
      ensures forall c :: c in old(mem) && c !in before.live ==> c in mem && mem[c] == old(mem)[c]
    {
      hide Inv, Intact, Quiet, Settled, Closed, ReachWords, RootsOk, WordRefs, AllFollow, TermsCovered, Timed, Link,
          Clocked, Grown, ReachOf;
      ghost var p, us, ws, t := Now(), frames[i], prior + regs[..j], regs[j];
      assert prior + regs[..j + 1] == ws + [t];
      var register := frames[i][j];
      assert register == frames[i][j..][0] == t;
      RootFacts(before, regs);
      RootsTogether(before, prior, regs, j);
      SnapshotIsOk(before, toSpace, p);
      ReachGrows(before, ws, t);
      scope := ReachWords(before, ws + [t]);
      ghost var bound := RootBound(before, t);
      QuietIsIntact(before, p, bound);
      var copied := register;
      if register != ZERO {
        RegisterLink(before, begun, roots, forward.Keys, prior, regs, j);
        ClockBelow(before, begun, roots, p, bound);
        copied := Copy(register, bound);
        AdvanceForward(before, p, Now(), bound, {});
        ClockAt(before, old(begun), begun, roots, p, Now(), bound);
        frames := frames[i := frames[i][j := copied]];
      } else {
        ZeroStays(before, toSpace, p);
        ZeroReaches(before);
        AdvanceReflexive(before, p, bound, {});
        assert us[j := ZERO] == us && old(frames)[i := us] == old(frames);
      }
      RegisterDone(before, toSpace, p, Now(), regs, us, j, copied, bound);
      ReachWordsSnoc(before, ws, t);
      IntVisited(before, toSpace, p, prior, regs, us, j, copied);
    }

    /** What becomes of the registers: every word of a live frame is the word for the
        copy of what it referred to, and exactly what they reach is copied.  An integer
        stays unless its value is the address of an object that an earlier register
        reaches. */
    ghost predicate RegistersMoved(roots: seq<seq<Term>>)
      reads this
    {
      && currentFrame < |roots| == |frames|
      && (forall i :: 0 <= i <= currentFrame ==>
            && AllFollow(forward, roots[i], frames[i]) && TermsCovered(before, forward, roots[i])
            && IntsVisited(before, Flatten(roots[..i]), roots[i], frames[i], |frames[i]|))
      && (forall i :: currentFrame < i < |frames| ==> frames[i] == roots[i])
      && forward.Keys == ReachWords(before, Flatten(roots[..currentFrame + 1]))
    }

    /** With no integers that look like addresses, every register stands for the value
        it stood for. */
    ghost predicate RegistersKept(roots: seq<seq<Term>>)
      reads this
    {
      && Collected(before, toSpace, mem, forward) && currentFrame < |roots| == |frames|
      && forall i :: 0 <= i <= currentFrame && IntsApart(before, roots[i]) ==>
           && frames[i] == TrTerms(forward, roots[i]) && AllKept(before, forward, roots[i])
           && SameValues(before, mem, forward, roots[i], frames[i])
    }

    /** gc_collect: every register of every live frame is replaced by the word for the
        copy of what it referred to. */
    method GcCollect(ghost rank: Rank, ghost live: set<Addr>)
      requires Ready(rank, live)
      modifies this
      ensures before == old(Start(rank, live))
      ensures toSpace == old(fromSpace) && fromSpace == old(toSpace) && size == old(size)
      ensures Collecting() && Quiet(before, Now())
      ensures currentFrame == old(currentFrame) && RegistersMoved(old(frames))
      ensures forall c :: c in before.mem && c !in live ==> c in mem && mem[c] == before.mem[c]
      ensures allocPtr == toSpace + Total(before.mem, forward.Keys) && BytesApart(before, toSpace, Now())
      ensures Timed(before, begun, Flatten(old(frames)[..currentFrame + 1]), Now())
      ensures OffHeapOk(before) && Plain(before) ==> RegistersKept(old(frames))
    {
      hide Inv, Quiet, RootsOk, Closed, RegistersMoved, RegistersKept, Total, OffHeapOk, Plain, SnapshotOk, Timed,
          Ready, Start, Flatten, InSpace, BytesApart;
      SwapSpaces(rank, live);
      CopyRoots();
      QuietCovers(before, toSpace, Now());
      AllCopied(before, toSpace, Now());
      RoomsHoldBytes(before, toSpace, Now());
      if OffHeapOk(before) && Plain(before) { Delivers(old(frames)); }
    }

    /** What the registers referred to is kept, in the terms of GcMeaning. */
    lemma Delivers(registers: seq<seq<Term>>)
      requires Collecting() && Quiet(before, Now()) && OffHeapOk(before) && Plain(before)
      requires RegistersMoved(registers) && forall i :: 0 <= i <= currentFrame ==> RootsOk(before, registers[i])
      requires forall c :: c in before.mem ==> !InSpace(toSpace, before.size, c)
      requires forall c :: c in before.mem && c !in before.live ==> c in mem && mem[c] == before.mem[c]
      ensures RegistersKept(registers)
    {
      hide Inv, Quiet, TermsCovered, IntsVisited, ReachWords, Collected, AllKept, OffHeapOk, RootsOk, AllFollow,
          IntsApart, Plain, SameValues, Closed, TrTerms;
      CollectionIsCollected(before, toSpace, Now());
      forall i | 0 <= i <= currentFrame && IntsApart(before, registers[i])
        ensures frames[i] == TrTerms(forward, registers[i]) && AllKept(before, forward, registers[i])
        ensures SameValues(before, mem, forward, registers[i], frames[i])
      {
        RegisterKept(before, toSpace, Now(), registers[i], frames[i]);
        RegisterValues(before, toSpace, mem, forward, registers[i]);
      }
    }

    lemma NextRoots(registers: seq<seq<Term>>, i: nat)
      requires i < |registers| && RootsOk(before, Flatten(registers[..i])) && RootsOk(before, registers[i])
      ensures Flatten(registers[..i + 1]) == Flatten(registers[..i]) + registers[i]
      ensures RootsOk(before, Flatten(registers[..i + 1]))
    {
      hide RootsOk;
      assert registers[..i + 1] == registers[..i] + [registers[i]];
      FlattenSnoc(registers[..i], registers[i]);
      RootsConcat(before, Flatten(registers[..i]), registers[i]);
    }

    /** The outer loop of gc_collect, over the live frames. */
    method CopyRoots()
      requires Collecting() && Quiet(before, Now()) && mem == before.mem && currentFrame < |frames|
      requires forward == map[]
      requires forall i :: 0 <= i <= currentFrame ==> RootsOk(before, frames[i])
      requires roots == Flatten(frames[..currentFrame + 1]) && Timed(before, begun, roots, Now()) && begun == map[]
      modifies `mem, `forward, `allocPtr, `pending, `frames, `scope, `begun
      ensures Collecting() && Quiet(before, Now())
      ensures RegistersMoved(old(frames)) && Timed(before, begun, roots, Now())
      ensures forall c :: c in before.mem && c !in before.live ==> c in mem && mem[c] == before.mem[c]
    {
      hide Inv, Intact, Quiet, Settled, TermsCovered, SnapshotOk, RootsOk, Closed, AllFollow, IntsVisited, Timed;
      ghost var registers := frames;
      assert ReachWords(before, Flatten(registers[..0])) == {};
      hide ReachWords, Flatten, OnHeap;
      NoRoots(before, registers);
      var i := 0;
      while i <= currentFrame
        invariant Collecting() && Quiet(before, Now())
        invariant roots == old(roots) && Timed(before, begun, roots, Now()) && begun.Keys <= forward.Keys
        invariant |frames| == |registers| && i <= currentFrame + 1
        invariant forall k :: 0 <= k < i ==>
                    && AllFollow(forward, registers[k], frames[k]) && TermsCovered(before, forward, registers[k])
                    && IntsVisited(before, Flatten(registers[..k]), registers[k], frames[k], |frames[k]|)
        invariant forall k :: i <= k < |frames| ==> frames[k] == registers[k]
        invariant forall c :: c in before.mem && c !in before.live ==> c in mem && mem[c] == before.mem[c]
        invariant RootsOk(before, Flatten(registers[..i]))
        invariant forward.Keys == ReachWords(before, Flatten(registers[..i]))
        decreases currentFrame + 1 - i
      {
        ghost var f, moved := forward, frames;
        FramePrefix(registers, currentFrame + 1, i);
        CopyFrame(i, Flatten(registers[..i]));
        FramesStable(before, toSpace, Now(), f, registers, moved, i);
        NextRoots(registers, i);
        i := i + 1;
      }
    }
  }

  // ---------- an integer taken for a reference ----------

  const TUPLE_AT: Addr := 1001

  /** A heap with one object that refers to nothing. */
  lemma LoneOk(s: Snapshot, a: Addr)
    requires s.from > 0 && s.live == s.mem.Keys == {a} && OnHeap(s.from, s.size, a)
    requires Terms(s.mem[a]) == [] && (s.mem[a].TupleObj? || s.mem[a].FunctionObj?)
    ensures SnapshotOk(s) && Total(s.mem, s.live) == Cost(s.mem[a])
  {
    TotalRemove(s.mem, {a}, a);
    assert {a} - {a} == {};
  }

  /** A heap with one empty tuple, and a frame of two registers: a reference to it,
      and the integer that is its address, in either order. */
  method TwoRegisters(integerFirst: bool) returns (c: Collector)
    ensures fresh(c) && c.Ready(_ => 0, {TUPLE_AT}) && c.currentFrame == 0
    ensures c.frames == [if integerFirst then [Term(INT, TUPLE_AT), Term(TUPLE, TUPLE_AT)]
                         else [Term(TUPLE, TUPLE_AT), Term(INT, TUPLE_AT)]]
    ensures c.Active() == map[TUPLE_AT := TupleObj([])] && c.toSpace == 1000 && c.size == 64
  {
    c := new Collector;
    c.mem := map[TUPLE_AT := TupleObj([])];
    c.forward := map[];
    c.allocPtr, c.toSpace, c.fromSpace, c.size := 1010, 1000, 2000, 64;
    c.currentFrame := 0;
    var ref, number := Term(TUPLE, TUPLE_AT), Term(INT, TUPLE_AT);
    c.frames := [if integerFirst then [number, ref] else [ref, number]];
    assert c.Active() == c.mem;
    LoneOk(c.Start(_ => 0, {TUPLE_AT}), TUPLE_AT);
    hide SnapshotOk, Total;
  }

  /** The integer survives when it is visited before the reference, and is replaced by
      another one when it comes after it. */
  method IntegerTaken(integerFirst: bool) returns (c: Collector)
    ensures |c.frames| == 1 && |c.frames[0]| == 2
    ensures if integerFirst then c.frames[0][0] == Term(INT, TUPLE_AT) else c.frames[0][1] != Term(INT, TUPLE_AT)
  {
    c := TwoRegisters(integerFirst);
    ghost var regs := c.frames[0];
    ghost var roots := c.frames;
    c.GcCollect(_ => 0, {TUPLE_AT});
    assert roots[..0] == [];
    ghost var prior := [] + regs[..if integerFirst then 0 else 1];
    if integerFirst {
      assert prior == [];
    } else {
      assert prior == [regs[0]] && RefersTo(c.before, prior[0]);
      assert TUPLE_AT in WordRefs(c.before, prior) && TUPLE_AT in Reach(c.before, TUPLE_AT);
    }
  }

  const PAIR_AT: Addr := 1011

  ghost function PairRank(): Rank {
    x => if x == PAIR_AT then 1 else 0
  }

  lemma OneCovered(s: Snapshot, f: Forwarding, t: Term)
    requires TermsCovered(s, f, [t]) && RefersTo(s, t)
    ensures t.ptr in f
  {
    assert [t][0] == t;
  }

  lemma FlattenOne<X>(s: seq<X>)
    ensures Flatten([s]) == s
  {
    assert Flatten([s]) == s + Flatten([]);
  }

  function PairAt(integerFirst: bool): seq<Term> {
    if integerFirst then [Term(INT, TUPLE_AT), Term(TUPLE, TUPLE_AT)]
    else [Term(TUPLE, TUPLE_AT), Term(INT, TUPLE_AT)]
  }

  /** The same in a tuple of the two, to which the only register refers. */
  method IntegerInTuple(integerFirst: bool) returns (c: Collector, a: Addr)
    ensures a in c.mem && |Terms(c.mem[a])| == 2
    ensures if integerFirst then Terms(c.mem[a])[0] == Term(INT, TUPLE_AT)
            else Terms(c.mem[a])[1] != Term(INT, TUPLE_AT)
  {
    c := PairHeap(integerFirst);
    hide Inv, Quiet, Timed, Total, SnapshotOk, RootsOk, Flatten, ReachWords, IntsVisited, Closed, OffHeapOk, Plain,
        AllFollow, TermsCovered;
    ghost var words := [Term(TUPLE, PAIR_AT)];
    assert c.frames[..1] == [words];
    c.GcCollect(PairRank(), {TUPLE_AT, PAIR_AT});
    ghost var s := c.before;
    FlattenOne(words);
    assert AllFollow(c.forward, words, c.frames[0]) && TermsCovered(s, c.forward, words);
    OneCovered(s, c.forward, words[0]);
    PairBegun(s, c.begun, c.Now(), integerFirst);
    a := c.forward[PAIR_AT];
  }

  method PairHeap(integerFirst: bool) returns (c: Collector)
    ensures fresh(c) && c.Ready(PairRank(), {TUPLE_AT, PAIR_AT}) && c.currentFrame == 0
    ensures c.frames == [[Term(TUPLE, PAIR_AT)]]
    ensures c.Active() == map[TUPLE_AT := TupleObj([]), PAIR_AT := TupleObj(PairAt(integerFirst))]
    ensures c.toSpace == 1000 && c.size == 128
  {
    c := new Collector;
    c.mem := map[TUPLE_AT := TupleObj([]), PAIR_AT := TupleObj(PairAt(integerFirst))];
    c.forward := map[];
    c.allocPtr, c.toSpace, c.fromSpace, c.size := 1040, 1000, 2000, 128;
    c.currentFrame := 0;
    c.frames := [[Term(TUPLE, PAIR_AT)]];
    assert c.Active() == c.mem;
    ghost var s := c.Start(PairRank(), {TUPLE_AT, PAIR_AT});
    PairOk(s, integerFirst);
  }

  lemma PairOk(s: Snapshot, integerFirst: bool)
    requires s.mem == map[TUPLE_AT := TupleObj([]), PAIR_AT := TupleObj(PairAt(integerFirst))]
    requires s.live == {TUPLE_AT, PAIR_AT} && s.rank(TUPLE_AT) == 0 && s.rank(PAIR_AT) == 1
    requires s.from == 1000 && s.size == 128
    ensures SnapshotOk(s) && RootsOk(s, [Term(TUPLE, PAIR_AT)]) && Total(s.mem, s.live) <= 64
  {
    var fields := Terms(s.mem[PAIR_AT]);
    assert fields == PairAt(integerFirst) && Terms(s.mem[TUPLE_AT]) == [];
    assert NodeRefs(s.mem[PAIR_AT]) == [] && NodeRefs(s.mem[TUPLE_AT]) == [];
    assert TermBelow(s.mem, s.rank, fields[0], 1) && TermBelow(s.mem, s.rank, fields[1], 1);
    TotalRemove(s.mem, s.live, PAIR_AT);
    assert s.live - {PAIR_AT} == {TUPLE_AT};
    TotalRemove(s.mem, {TUPLE_AT}, TUPLE_AT);
    assert {TUPLE_AT} - {TUPLE_AT} == {};
  }

  /** The pair is come to first; so its integer stays when it stands before the
      reference, and is changed when it stands behind it. */
  lemma PairBegun(s: Snapshot, begun: Clock, p: Progress, integerFirst: bool)
    requires s.mem == map[TUPLE_AT := TupleObj([]), PAIR_AT := TupleObj(PairAt(integerFirst))]
    requires s.from == 1000 && s.size == 128 && PAIR_AT in p.forward
    requires Timed(s, begun, [Term(TUPLE, PAIR_AT)], p)
    ensures p.forward[PAIR_AT] in p.mem
    ensures var ts := Terms(p.mem[p.forward[PAIR_AT]]);
            |ts| == 2 && if integerFirst then ts[0] == Term(INT, TUPLE_AT) else ts[1] != Term(INT, TUPLE_AT)
  {
    hide Link, ReachWords;
    var roots := [Term(TUPLE, PAIR_AT)];
    NothingBefore(s, begun, begun[PAIR_AT], integerFirst);
    PairVisited(s, integerFirst, p.mem[p.forward[PAIR_AT]]);
  }

  /** Only the register leads to the pair. */
  lemma NothingBefore(s: Snapshot, begun: Clock, done: set<Addr>, integerFirst: bool)
    requires s.mem == map[TUPLE_AT := TupleObj([]), PAIR_AT := TupleObj(PairAt(integerFirst))]
    requires Link(s, begun, [Term(TUPLE, PAIR_AT)], done, PAIR_AT)
    ensures done == {}
  {
    hide ReachWords;
    assert Terms(s.mem[PAIR_AT]) == PairAt(integerFirst) && Terms(s.mem[TUPLE_AT]) == [];
    assert NodeRefs(s.mem[PAIR_AT]) == [] && NodeRefs(s.mem[TUPLE_AT]) == [];
    assert [Term(TUPLE, PAIR_AT)][..0] == [];
    NothingReached(s);
  }

  lemma PairVisited(s: Snapshot, integerFirst: bool, c: Obj)
    requires s.mem == map[TUPLE_AT := TupleObj([]), PAIR_AT := TupleObj(PairAt(integerFirst))]
    requires s.from == 1000 && s.size == 128 && IntsTimed(s, {}, s.mem[PAIR_AT], c)
    ensures |Terms(c)| == 2
    ensures if integerFirst then Terms(c)[0] == Term(INT, TUPLE_AT) else Terms(c)[1] != Term(INT, TUPLE_AT)
  {
    hide ReachWords;
    var fields := Terms(s.mem[PAIR_AT]);
    assert fields == PairAt(integerFirst) && fields[..0] == [];
    NothingReached(s);
    if !integerFirst {
      assert fields[..1] == [] + [fields[0]];
      ReachWordsSnoc(s, [], fields[0]);
      assert TUPLE_AT in ReachOf(s, fields[0]);
    }
  }

  const BEHIND: Addr := 1070

  /** A heap of 64 bytes that ends at 1064, with the upper space in use, and a function
      behind it in a register. */
  method FunctionBehind() returns (c: Collector)
    ensures fresh(c) && c.Ready(_ => 0, {BEHIND}) && c.currentFrame == 0 && c.frames == [[Term(FUNCTION, BEHIND)]]
    ensures c.fromSpace == 1000 && c.toSpace == 1032 && c.size == 64
  {
    c := new Collector;
    c.mem := map[BEHIND := FunctionObj(5, [])];
    c.forward := map[];
    c.allocPtr, c.toSpace, c.fromSpace, c.size := 1040, 1032, 1000, 64;
    c.currentFrame := 0;
    c.frames := [[Term(FUNCTION, BEHIND)]];
    assert c.Active() == c.mem;
    LoneOk(c.Start(_ => 0, {BEHIND}), BEHIND);
    hide SnapshotOk, Total;
  }

  /** It is moved like an object on the heap. */
  method BehindTheHeap() returns (c: Collector)
    ensures |c.frames| == 1 && |c.frames[0]| == 1 && c.size == 64 && c.fromSpace == 1032
    ensures c.fromSpace + c.size / 2 < BEHIND && BEHIND in c.forward && c.frames[0][0] != Term(FUNCTION, BEHIND)
  {
    hide Inv, Quiet, Timed, Total, SnapshotOk, RootsOk, Flatten, ReachWords, IntsVisited, Closed, OffHeapOk, Plain;
    c := FunctionBehind();
    c.GcCollect(_ => 0, {BEHIND});
    ghost var t := Term(FUNCTION, BEHIND);
    assert AllFollow(c.forward, [t], c.frames[0]) && TermsCovered(c.before, c.forward, [t]);
    OneCovered(c.before, c.forward, t);
    assert Follows(c.forward, [t][0], c.frames[0][0]);
    CopyIsElsewhere(c.before, c.toSpace, c.Now(), BEHIND);
  }

  lemma CopyIsElsewhere(s: Snapshot, to: nat, p: Progress, a: Addr)
    requires Inv(s, to, p) && a in p.forward
    ensures p.forward[a] != a
  {
    ForwardedOnHeap(s, to, p);
  }

  function Max(a: nat, b: nat): nat {
    if a > b then a else b
  }
}
