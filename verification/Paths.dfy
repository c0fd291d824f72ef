/**
 Path copying.  The C code walks down while holding a pointer to the child slot
 it will fill next; here the nodes copied so far are frames, each with one hole.
 */
module Paths {
  import opened Seqs
  import opened Nodes

  /** A copied node whose child slot `hole` is still to be set; the slot may be
      the one just past the original children. */
  datatype Frame<T> = Frame(kids: seq<Node<T>>, table: Option<seq<nat>>, hole: nat)

  ghost predicate FramesOk<T>(path: seq<Frame<T>>) {
    forall k :: 0 <= k < |path| ==> path[k].hole <= |path[k].kids|
  }

  /** The frame with its hole set. */
  function Fill<T>(f: Frame<T>, child: Node<T>): Node<T>
    requires f.hole <= |f.kids|
  {
    if f.hole == |f.kids| then Inner(f.kids + [child], f.table) else Inner(f.kids[f.hole := child], f.table)
  }

  /** The whole tree, once the innermost hole is set. */
  function Plug<T>(path: seq<Frame<T>>, child: Node<T>): Node<T>
    requires FramesOk(path)
  {
    if path == [] then child else Fill(path[0], Plug(path[1..], child))
  }

  lemma {:induction false} PlugSnoc<T>(path: seq<Frame<T>>, f: Frame<T>, child: Node<T>)
    requires FramesOk(path) && f.hole <= |f.kids|
    ensures FramesOk(path + [f])
    ensures Plug(path + [f], child) == Plug(path, Fill(f, child))
  {
    if path != [] {
      assert (path + [f])[1..] == path[1..] + [f];
      PlugSnoc(path[1..], f, child);
    } else {
      assert path + [f] == [f];
    }
  }
}
