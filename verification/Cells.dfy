/**
 The interpreter's values with the lists they really hold, the values of the step
 function they stand for, and the operations on them.
 */
module Cells {
  import opened Seqs
  import opened Bytecode
  import opened Decode
  import opened Nodes
  import opened Lookup
  import opened Vectors
  import opened Slice
  import opened ListHistory
  import opened CutLists
  import opened Vm

  datatype Cell =
    | ZeroC
    | IntC(n: nat)
    | TrueC
    | FalseC
    | NilC
    | StrC(text: Name)
    | TupleC(elems: seq<Cell>)
    | ListC(list: Rrb<Cell>)
    | FunC(location: nat, upvals: seq<Cell>)

  /** The cell holds the value: a list cell a tree with these elements, which has the
      strong form unless it may be cut. */
  ghost predicate Stands(c: Cell, x: Value)
    decreases x
  {
    match x
    case Zero => c == ZeroC
    case IntV(n) => c == IntC(n)
    case True => c == TrueC
    case False => c == FalseC
    case Nil => c == NilC
    case StrV(text) => c == StrC(text)
    case TupleV(elems) =>
      c.TupleC? && |c.elems| == |elems| && forall i :: 0 <= i < |elems| ==> Stands(c.elems[i], elems[i])
    case ListV(elems, cut) =>
      && c.ListC? && Held(c.list, cut) && c.list.cnt == |elems|
      && forall i :: 0 <= i < |elems| ==> Stands(Contents(c.list)[i], elems[i])
    case FunV(location, upvals) =>
      && c.FunC? && c.location == location && |c.upvals| == |upvals|
      && forall i :: 0 <= i < |upvals| ==> Stands(c.upvals[i], upvals[i])
  }

  ghost predicate StandAll(cs: seq<Cell>, xs: seq<Value>) {
    |cs| == |xs| && forall i :: 0 <= i < |xs| ==> Stands(cs[i], xs[i])
  }

  predicate TruthyCell(c: Cell) {
    !c.FalseC? && !c.NilC?
  }

  function BoolCell(b: bool): Cell {
    if b then TrueC else FalseC
  }

  function CellInt(c: Cell): Option<nat> {
    match c
    case IntC(n) => Some(n)
    case ZeroC | TrueC | FalseC | NilC => Some(0)
    case _ => None
  }

  function TwoCellInts(cs: seq<Cell>): Option<(nat, nat)>
    requires |cs| == 2
  {
    if CellInt(cs[0]).None? || CellInt(cs[1]).None? then None
    else Some((CellInt(cs[0]).value, CellInt(cs[1]).value))
  }

  /** What operations look at first. */
  lemma SameKind(c: Cell, x: Value)
    requires Stands(c, x)
    ensures TruthyCell(c) == Truthy(x) && CellInt(c) == AsInt(x)
    ensures c.TupleC? <==> x.TupleV?
    ensures c.ListC? <==> x.ListV?
    ensures c.FunC? <==> x.FunV?
    ensures c.StrC? <==> x.StrV?
    ensures c.ZeroC? <==> x.Zero?
    ensures c.FalseC? <==> x.False?
    ensures c.TrueC? <==> x.True?
    ensures x.TupleV? ==> StandAll(c.elems, x.elems)
    ensures x.ListV? ==> Held(c.list, x.cut) && StandAll(Contents(c.list), x.elems)
    ensures x.StrV? ==> c.text == x.text
    ensures x.FunV? ==> c.location == x.location && StandAll(c.upvals, x.upvals)
  {}

  lemma ListStands(v: Rrb<Cell>, xs: seq<Value>, cut: bool)
    requires Held(v, cut) && StandAll(Contents(v), xs)
    ensures Stands(ListC(v), ListV(xs, cut))
  {}

  // ---------- what the operations give ----------

  /** A list that the operations are stated for. */
  ghost predicate Usable(v: Rrb<Cell>) {
    Valid(v, Exact) && Valid(v, Indexable) && HeaderOk(v)
  }

  lemma {:induction false} ElementSmaller(n: Node<Cell>, x: Cell)
    requires x in Elements(n)
    ensures n decreases to x
    decreases n, 0
  {
    if n.Inner? { SomeElementSmaller(n.kids, x); }
  }

  lemma {:induction false} SomeElementSmaller(kids: seq<Node<Cell>>, x: Cell)
    requires x in ElementsOf(kids)
    ensures kids decreases to x
    decreases kids, 1
  {
    if x in Elements(kids[0]) {
      ElementSmaller(kids[0], x);
      assert kids decreases to kids[0];
    } else {
      SomeElementSmaller(kids[1..], x);
      assert kids decreases to kids[1..];
    }
  }

  lemma ContentSmaller(v: Rrb<Cell>, x: Cell)
    requires x in Contents(v)
    ensures ListC(v) decreases to x
  {
    assert ListC(v) decreases to v;
    if x in v.tail {
      assert v decreases to v.tail;
    } else {
      ElementSmaller(v.root.value, x);
      assert v decreases to v.root;
      assert v.root decreases to v.root.value;
    }
  }

  /** owl_terms_eq as a function. */
  ghost function EqCell(a: Cell, b: Cell): Option<bool>
    decreases a, 1, 0
  {
    match a
    case FunC(_, _) => if b.FunC? then None else Some(false)
    case TupleC(elems) =>
      if b.FalseC? then None
      else if !b.TupleC? || |elems| != |b.elems| then Some(false)
      else EqCellsFrom(a, elems, b.elems, 0)
    case ListC(list) =>
      if !b.ListC? || |Contents(list)| != |Contents(b.list)| then Some(false)
      else
        assert forall x :: x in Contents(list) ==> (a decreases to x) by {
          forall x | x in Contents(list) ensures a decreases to x { ContentSmaller(list, x); }
        }
        EqCellsFrom(a, Contents(list), Contents(b.list), 0)
    case StrC(_) => if b.TrueC? then None else Some(a == b)
    case FalseC => if b.TupleC? then None else Some(a == b)
    case TrueC => if b.StrC? then None else Some(a == b)
    case _ => Some(a == b)
  }

  ghost function EqCellsFrom(a: Cell, ls: seq<Cell>, rs: seq<Cell>, i: nat): Option<bool>
    requires i <= |ls| == |rs| && forall x :: x in ls ==> (a decreases to x)
    decreases a, 0, |ls| - i
  {
    if i == |ls| then Some(true)
    else
      assert ls[i] in ls;
      var first := EqCell(ls[i], rs[i]);
      if first == Some(true) then EqCellsFrom(a, ls, rs, i + 1) else first
  }

  /** It is the comparison of the values. */
  lemma {:induction false} EqCellIsEqV(a: Cell, b: Cell, x: Value, y: Value)
    requires Stands(a, x) && Stands(b, y)
    ensures EqCell(a, b) == EqV(x, y)
    decreases x, 1, 0
  {
    hide EqCellsFrom, AllEqV, Held, Valid;
    SameKind(a, x);
    SameKind(b, y);
    if a.TupleC? && b.TupleC? && |a.elems| == |b.elems| {
      EqFromIsAllEqV(a, a.elems, b.elems, x, x.elems, y.elems, 0);
    } else if a.ListC? && b.ListC? && |Contents(a.list)| == |Contents(b.list)| {
      forall z | z in Contents(a.list) ensures a decreases to z { ContentSmaller(a.list, z); }
      EqFromIsAllEqV(a, Contents(a.list), Contents(b.list), x, x.elems, y.elems, 0);
    }
  }

  lemma {:induction false} EqFromIsAllEqV(a: Cell, ls: seq<Cell>, rs: seq<Cell>, x: Value, xs: seq<Value>,
      ys: seq<Value>, i: nat)
    requires i <= |ls| == |rs| && (forall z :: z in ls ==> (a decreases to z))
    requires StandAll(ls, xs) && StandAll(rs, ys) && forall z :: z in xs ==> (x decreases to z)
    ensures EqCellsFrom(a, ls, rs, i) == AllEqV(xs[i..], ys[i..])
    decreases x, 0, |ls| - i
  {
    hide Stands, EqCell, EqV;
    if i < |ls| {
      assert xs[i..][0] == xs[i] && ys[i..][0] == ys[i] && xs[i..][1..] == xs[i + 1..] && ys[i..][1..] == ys[i + 1..];
      assert ls[i] in ls && xs[i] in xs;
      EqCellIsEqV(ls[i], rs[i], xs[i], ys[i]);
      EqFromIsAllEqV(a, ls, rs, x, xs, ys, i + 1);
    }
  }

  /** owl_concat as a function: None where the tags differ, and where the concat would
      break the lists. */
  ghost function ConcatCell(a: Cell, b: Cell): Option<Cell> {
    if a.StrC? && b.StrC? then Some(StrC(a.text + b.text))
    else if a.ListC? && b.ListC? && Usable(a.list) && Usable(b.list) && ConcatSafe(a.list, b.list) then
      Some(ListC(ConcatOf(a.list, b.list)))
    else None
  }

  /** The opcodes that compute a value, as functions of their operands. */
  ghost function CellCompute(op: Op, cs: seq<Cell>): Option<Cell>
    requires 1 + |cs| == Operands(op)
  {
    match op
    case Mov => Some(cs[0])
    case StoreTrue => Some(TrueC)
    case StoreFalse => Some(FalseC)
    case StoreNil => Some(NilC)
    case Not => Some(BoolCell(!TruthyCell(cs[0])))
    case Add =>
      var ab := TwoCellInts(cs);
      if ab.None? then None else Some(IntC((ab.value.0 + ab.value.1) % INT_RANGE))
    case Sub =>
      var ab := TwoCellInts(cs);
      if ab.None? then None else Some(IntC((ab.value.0 - ab.value.1) % INT_RANGE))
    case GreaterThan =>
      var ab := TwoCellInts(cs);
      if ab.None? then None else Some(BoolCell(ab.value.0 > ab.value.1))
    case Eq =>
      var e := EqCell(cs[0], cs[1]);
      if e.None? then None else Some(BoolCell(e.value))
    case NotEq =>
      var e := EqCell(cs[0], cs[1]);
      if e.None? then None else Some(BoolCell(!e.value))
    case TupleNth =>
      if !cs[0].TupleC? || CellInt(cs[1]).None? then None
      else
        var i := CellInt(cs[1]).value % 256;
        Some(if i < |cs[0].elems| then cs[0].elems[i] else NilC)
    case ListNth =>
      if !cs[0].ListC? || !Usable(cs[0].list) || CellInt(cs[1]).None? then None
      else
        var found := NthOf(cs[0].list, CellInt(cs[1]).value % 0x1_0000_0000);
        Some(if found.None? || found.value.ZeroC? then NilC else found.value)
    case ListCount => if cs[0].ListC? then Some(IntC(cs[0].list.cnt)) else None
    case ListSlice =>
      if !cs[0].ListC? || !Usable(cs[0].list) || CellInt(cs[1]).None? || CellInt(cs[2]).None? then None
      else
        Some(ListC(CutList(cs[0].list, CellInt(cs[1]).value % 0x1_0000_0000, CellInt(cs[2]).value % 0x1_0000_0000)))
    case Concat => ConcatCell(cs[0], cs[1])
    case StringCount => if cs[0].StrC? then Some(IntC(|cs[0].text|)) else None
    case StringContains =>
      if cs[0].StrC? && cs[1].StrC? then Some(BoolCell(Occurs(cs[0].text, cs[1].text))) else None
    case StringSlice =>
      if !cs[0].StrC? || CellInt(cs[1]).None? || CellInt(cs[2]).None? then None
      else
        var from, to := CellInt(cs[1]).value % 0x1_0000_0000, CellInt(cs[2]).value;
        var end := if to < |cs[0].text| then to else |cs[0].text|;
        if from < 0x8000_0000 && from < end then Some(StrC(cs[0].text[from..end])) else None
    case _ => None
  }

  // ---------- equality ----------

  /** owl_terms_eq. */
  method CellsEq(a: Cell, b: Cell, ghost x: Value, ghost y: Value) returns (r: Option<bool>)
    requires Stands(a, x) && Stands(b, y)
    ensures r == EqV(x, y)
    decreases x, 1
  {
    hide Held, AllEqV, Valid, Contents;
    match a {
      case FunC(_, _) => r := if b.FunC? then None else Some(false);
      case TupleC(elems) =>
        if b.FalseC? {
          r := None;
        } else if !b.TupleC? || |elems| != |b.elems| {
          r := Some(false);
        } else {
          r := TuplesEq(elems, b.elems, x, y);
        }
      case ListC(list) =>
        if !b.ListC? {
          r := Some(false);
        } else {
          r := ListsEq(list, b.list, x, y);
        }
      case StrC(text) => r := if b.TrueC? then None else Some(b.StrC? && b.text == text);
      case FalseC => r := if b.TupleC? then None else Some(b.FalseC?);
      case TrueC => r := if b.StrC? then None else Some(b.TrueC?);
      case IntC(n) => r := Some(b.IntC? && b.n == n);
      case ZeroC => r := Some(b.ZeroC?);
      case NilC => r := Some(b.NilC?);
    }
  }

  method TuplesEq(ls: seq<Cell>, rs: seq<Cell>, ghost x: Value, ghost y: Value) returns (r: Option<bool>)
    requires x.TupleV? && y.TupleV? && StandAll(ls, x.elems) && StandAll(rs, y.elems) && |ls| == |rs|
    ensures r == AllEqV(x.elems, y.elems)
    decreases x, 0
  {
    hide Stands, EqV;
    for i := 0 to |ls|
      invariant AllEqV(x.elems, y.elems) == AllEqV(x.elems[i..], y.elems[i..])
    {
      r := CellsEq(ls[i], rs[i], x.elems[i], y.elems[i]);
      if r != Some(true) { return; }
    }
    r := Some(true);
  }

  /** owl_list_eq: by count, then element by element. */
  method ListsEq(l: Rrb<Cell>, r: Rrb<Cell>, ghost x: Value, ghost y: Value) returns (res: Option<bool>)
    requires x.ListV? && y.ListV? && Stands(ListC(l), x) && Stands(ListC(r), y)
    ensures res == if |x.elems| != |y.elems| then Some(false) else AllEqV(x.elems, y.elems)
    decreases x, 0
  {
    hide EqV, Contents, Valid;
    if l.cnt != r.cnt { return Some(false); }
    for i := 0 to l.cnt
      invariant AllEqV(x.elems, y.elems) == AllEqV(x.elems[i..], y.elems[i..])
    {
      var a := Nth(l, i);
      var b := Nth(r, i);
      res := CellsEq(a.value, b.value, x.elems[i], y.elems[i]);
      if res != Some(true) { return; }
    }
    res := Some(true);
  }

  // ---------- lists ----------

  lemma ListOfStands(cs: seq<Cell>, xs: seq<Value>)
    requires StandAll(cs, xs)
    ensures Stands(ListC(ListOf(cs)), ListV(xs, false))
  {
    HeldStrong(ListOf(cs));
  }

  /** owl_list_nth: nil past the end, and for an element that is the zero word. */
  method NthCell(list: Rrb<Cell>, index: nat, ghost x: Value) returns (c: Cell)
    requires x.ListV? && Stands(ListC(list), x)
    ensures var v := ElementOr(x.elems, index); Stands(c, if v.Zero? then Nil else v)
    ensures HeaderOk(list) && var found := NthOf(list, index);
                              c == if found.None? || found.value.ZeroC? then NilC else found.value
  {
    var found := Nth(list, index);
    if found.None? {
      c := NilC;
    } else {
      c := found.value;
      SameKind(c, x.elems[index]);
      if c.ZeroC? { c := NilC; }
    }
  }

  /** owl_concat of two lists, and of two strings. */
  method ConcatCells(a: Cell, b: Cell, ghost x: Value, ghost y: Value) returns (r: Option<Cell>)
    requires Stands(a, x) && Stands(b, y)
    ensures r == ConcatCell(a, b)
    ensures var v := Compute(false, Concat, [x, y]);
            if r.Some? then v.Some? && Stands(r.value, v.value) else v.None? || Unsafe(a, b)
  {
    hide Stands, Valid, Contents;
    SameKind(a, x);
    SameKind(b, y);
    if a.StrC? && b.StrC? {
      StringStands(a.text + b.text);
      return Some(StrC(a.text + b.text));
    }
    if !a.ListC? || !b.ListC? { return None; }
    HeldTree(a.list, x.cut);
    if !ConcatSafe(a.list, b.list) { return None; }
    var list := Join(a.list, x.cut, b.list, y.cut);
    ListStands(list, x.elems + y.elems, JoinCut(|x.elems|, x.cut, |y.elems|, y.cut));
    r := Some(ListC(list));
  }

  lemma StringStands(text: Name)
    ensures Stands(StrC(text), StrV(text))
  {}

  lemma HeldTree(v: Rrb<Cell>, cut: bool)
    requires Held(v, cut)
    ensures v.root.Some? ==> Wf(v.root.value, v.height, Indexable)
    ensures v.cnt == |Contents(v)|
  {}

  /** Two lists whose concat would break them. */
  ghost predicate Unsafe(a: Cell, b: Cell) {
    a.ListC? && b.ListC? && Usable(a.list) && Usable(b.list) && !ConcatSafe(a.list, b.list)
  }

  // ---------- the operations ----------

  /** The result stands for the value that the step function gives; only an unsafe
      concat has no result though the step function has one. */
  ghost predicate Agrees(op: Op, cs: seq<Cell>, xs: seq<Value>)
    requires 1 + |cs| == Operands(op) && |xs| == |cs|
  {
    var r, v := CellCompute(op, cs), Compute(false, op, xs);
    if r.Some? then v.Some? && Stands(r.value, v.value) else v.None? || (op == Concat && Unsafe(cs[0], cs[1]))
  }

  /** What the opcodes compute that store a value. */
  method Result(op: Op, cs: seq<Cell>, ghost xs: seq<Value>) returns (r: Option<Cell>)
    requires 1 + |cs| == Operands(op) && StandAll(cs, xs)
    ensures r == CellCompute(op, cs) && Agrees(op, cs, xs)
  {
    hide Held, EqV, ConcatSafe, SliceOf, EqCell, ConcatCell, Unsafe, Usable;
    if |cs| >= 1 { SameKind(cs[0], xs[0]); }
    if |cs| >= 2 { SameKind(cs[1], xs[1]); }
    match op {
      case Mov => r := Some(cs[0]);
      case StoreTrue => r := Some(TrueC);
      case StoreFalse => r := Some(FalseC);
      case StoreNil => r := Some(NilC);
      case Not => r := Some(BoolCell(!TruthyCell(cs[0])));
      case Add | Sub | GreaterThan => r := IntResult(op, cs, xs);
      case Eq | NotEq =>
        EqCellIsEqV(cs[0], cs[1], xs[0], xs[1]);
        var e := CellsEq(cs[0], cs[1], xs[0], xs[1]);
        r := if e.None? then None else Some(BoolCell(e.value == (op == Eq)));
      case TupleNth =>
        if !cs[0].TupleC? || CellInt(cs[1]).None? { return None; }
        var i := CellInt(cs[1]).value % 256;
        r := Some(if i < |cs[0].elems| then cs[0].elems[i] else NilC);
      case ListNth | ListCount | ListSlice => r := ListResult(op, cs, xs);
      case Concat =>
        assert xs == [xs[0], xs[1]];
        r := ConcatCells(cs[0], cs[1], xs[0], xs[1]);
      case StringCount | StringContains | StringSlice => r := StringResult(op, cs, xs);
      case _ => r := None;
    }
  }

  method IntResult(op: Op, cs: seq<Cell>, ghost xs: seq<Value>) returns (r: Option<Cell>)
    requires op == Add || op == Sub || op == GreaterThan
    requires 1 + |cs| == Operands(op) && StandAll(cs, xs)
    ensures r == CellCompute(op, cs) && Agrees(op, cs, xs)
  {
    hide Held;
    SameKind(cs[0], xs[0]);
    SameKind(cs[1], xs[1]);
    var ab := TwoCellInts(cs);
    if ab.None? { return None; }
    var (a, b) := ab.value;
    r := Some(if op == Add then IntC((a + b) % INT_RANGE)
              else if op == Sub then IntC((a - b) % INT_RANGE) else BoolCell(a > b));
  }

  /** The operations on one list. */
  method ListResult(op: Op, cs: seq<Cell>, ghost xs: seq<Value>) returns (r: Option<Cell>)
    requires op == ListNth || op == ListCount || op == ListSlice
    requires 1 + |cs| == Operands(op) && StandAll(cs, xs)
    ensures r == CellCompute(op, cs) && Agrees(op, cs, xs)
  {
    hide SliceOf, Valid, Contents, CutList, NthOf;
    SameKind(cs[0], xs[0]);
    if !cs[0].ListC? { return None; }
    var list := cs[0].list;
    if op == ListCount {
      return Some(IntC(list.cnt));
    }
    SameKind(cs[1], xs[1]);
    if CellInt(cs[1]).None? { return None; }
    var i := CellInt(cs[1]).value % 0x1_0000_0000;
    if op == ListNth {
      var c := NthCell(list, i, xs[0]);
      return Some(c);
    }
    SameKind(cs[2], xs[2]);
    if CellInt(cs[2]).None? { return None; }
    var to := CellInt(cs[2]).value % 0x1_0000_0000;
    var cut := Cut(list, xs[0].cut, i, to);
    SliceStands(Contents(list), xs[0].elems, i, to);
    ListStands(cut, SliceOf(xs[0].elems, i, to), SliceCut(list.cnt, xs[0].cut, i, to));
    r := Some(ListC(cut));
  }

  /** The operations on strings: owl_string_count, owl_string_contains, owl_string_slice. */
  method StringResult(op: Op, cs: seq<Cell>, ghost xs: seq<Value>) returns (r: Option<Cell>)
    requires op == StringCount || op == StringContains || op == StringSlice
    requires 1 + |cs| == Operands(op) && StandAll(cs, xs)
    ensures r == CellCompute(op, cs) && Agrees(op, cs, xs)
  {
    hide Held;
    SameKind(cs[0], xs[0]);
    if !cs[0].StrC? { return None; }
    var text := cs[0].text;
    if op == StringCount {
      return Some(IntC(|text|));
    }
    SameKind(cs[1], xs[1]);
    if op == StringContains {
      return if cs[1].StrC? then Some(BoolCell(Occurs(text, cs[1].text))) else None;
    }
    SameKind(cs[2], xs[2]);
    if CellInt(cs[1]).None? || CellInt(cs[2]).None? { return None; }
    var from, end := CellInt(cs[1]).value % 0x1_0000_0000, CellInt(cs[2]).value;
    if end > |text| { end := |text|; }
    if from >= 0x8000_0000 || from >= end { return None; }
    r := Some(StrC(text[from..end]));
  }

  lemma SliceStands(cs: seq<Cell>, xs: seq<Value>, from: nat, to: nat)
    requires StandAll(cs, xs)
    ensures StandAll(SliceOf(cs, from, to), SliceOf(xs, from, to))
  {}

  /** A checked machine never comes to an unsafe concat. */
  lemma CheckedIsSafe(a: Cell, b: Cell, x: Value, y: Value)
    requires Stands(a, x) && Stands(b, y) && Compute(true, Concat, [x, y]).Some?
    ensures !Unsafe(a, b)
  {
    if a.ListC? && b.ListC? { JoinSafeIsConcatSafe(a.list, x.cut, b.list, y.cut); }
  }
}
