/**
 A program of the fragment whose source means 30 and whose list operations give 40:

   list_nth(list_slice([0, .., 39] ++ [40, .., 84], 30, 42) ++ [85, .., 117], 0)

 The slice has 12 elements and a tree, which the second concat drops.
 */
module CutConcat {
  import opened Seqs
  import opened Ast
  import opened Semantics
  import Vectors
  import Lookup
  import Vm
  import Cells
  import CutLists
  import ListFaults
  import Slice
  import Bytecode
  import Codegen
  import Pipeline
  import ClosedRuns
  import ClosedPrograms
  import Example

  function Ints(from: nat, n: nat): seq<Expr> {
    seq(n, (i: nat) => IntLit(from + i))
  }

  function IntVals(from: nat, n: nat): seq<Val> {
    seq(n, (i: nat) => IntVal(from + i))
  }

  function IntCells(from: nat, n: nat): seq<Cells.Cell> {
    seq(n, (i: nat) => Cells.IntC(from + i))
  }

  function Joined(): Expr {
    Apply(None, "++", [ListLit(Ints(0, 40)), ListLit(Ints(40, 45))])
  }

  function Twelve(): Expr {
    Apply(None, "list_slice", [Joined(), IntLit(30), IntLit(42)])
  }

  function Longer(): Expr {
    Apply(None, "++", [Twelve(), ListLit(Ints(85, 33))])
  }

  function First(): Expr {
    Apply(None, "list_nth", [Longer(), IntLit(0)])
  }

  // ---------- what it means ----------

  lemma {:induction false} IntsMean(p: Program, k: nat, mod: string, env: seq<Binding>, from: nat, n: nat)
    ensures EvalArgs(p, k, mod, env, Ints(from, n)) == Some(IntVals(from, n))
    decreases n
  {
    if n == 0 {
      assert Ints(from, n) == [] && IntVals(from, n) == [];
    } else {
      IntsMean(p, k, mod, env, from + 1, n - 1);
      OneArg(p, k, mod, env, IntLit(from), Ints(from + 1, n - 1));
      assert [IntLit(from)] + Ints(from + 1, n - 1) == Ints(from, n);
      assert [IntVal(from)] + IntVals(from + 1, n - 1) == IntVals(from, n);
    }
  }

  lemma LiteralMeans(p: Program, k: nat, mod: string, env: seq<Binding>, from: nat, n: nat)
    ensures Eval(p, k, mod, env, ListLit(Ints(from, n))) == Some(ListVal(IntVals(from, n), false))
  {
    IntsMean(p, k, mod, env, from, n);
  }

  lemma OneArg(p: Program, k: nat, mod: string, env: seq<Binding>, a: Expr, rest: seq<Expr>)
    ensures EvalArgs(p, k, mod, env, [a] + rest)
         == (var u, r := Eval(p, k, mod, env, a), EvalArgs(p, k, mod, env, rest);
             if u.None? || r.None? then None else Some([u.value] + r.value))
  {
    assert ([a] + rest)[0] == a && ([a] + rest)[1..] == rest;
  }

  lemma TwoArgs(p: Program, k: nat, mod: string, env: seq<Binding>, a: Expr, b: Expr)
    ensures EvalArgs(p, k, mod, env, [a, b])
         == (var u, v := Eval(p, k, mod, env, a), Eval(p, k, mod, env, b);
             if u.None? || v.None? then None else Some([u.value, v.value]))
  {
    hide Eval;
    OneArg(p, k, mod, env, b, []);
    OneArg(p, k, mod, env, a, [b]);
    assert EvalArgs(p, k, mod, env, []) == Some([]);
    assert [b] + [] == [b] && [a] + [b] == [a, b];
    var u, v := Eval(p, k, mod, env, a), Eval(p, k, mod, env, b);
    if u.Some? && v.Some? { assert [v.value] + [] == [v.value] && [u.value] + [v.value] == [u.value, v.value]; }
  }

  lemma TwelveMeans(p: Program, k: nat, mod: string, env: seq<Binding>)
    ensures Eval(p, k, mod, env, Twelve()) == Some(ListVal(IntVals(30, 12), true))
  {
    LiteralMeans(p, k, mod, env, 0, 40);
    LiteralMeans(p, k, mod, env, 40, 45);
    TwoArgs(p, k, mod, env, ListLit(Ints(0, 40)), ListLit(Ints(40, 45)));
    assert IntVals(0, 40) + IntVals(40, 45) == IntVals(0, 85);
    assert Eval(p, k, mod, env, Joined()) == Some(ListVal(IntVals(0, 85), false));
    assert Eval(p, k, mod, env, IntLit(30)) == Some(IntVal(30)) && Eval(p, k, mod, env, IntLit(42)) == Some(IntVal(42));
    TwoArgs(p, k, mod, env, IntLit(30), IntLit(42));
    OneArg(p, k, mod, env, Joined(), [IntLit(30), IntLit(42)]);
    assert [Joined()] + [IntLit(30), IntLit(42)] == [Joined(), IntLit(30), IntLit(42)];
    assert SliceOf(IntVals(0, 85), 30, 42) == IntVals(30, 12);
  }

  /** With every concat taken to work it means 30; checked, it has no meaning. */
  lemma FirstMeans30(p: Program, k: nat, mod: string, env: seq<Binding>)
    ensures Eval(p, k, mod, env, First()) == if p.checked then None else Some(IntVal(30))
  {
    TwelveMeans(p, k, mod, env);
    LiteralMeans(p, k, mod, env, 85, 33);
    TwoArgs(p, k, mod, env, Twelve(), ListLit(Ints(85, 33)));
    TwoArgs(p, k, mod, env, Longer(), IntLit(0));
    assert p.checked ==> Eval(p, k, mod, env, Longer()) == None;
  }

  lemma {:induction false} IntsInFragment(v: Sight, captures: bool, from: nat, n: nat)
    requires from + n <= 250
    ensures AllSimple(Ints(from, n), v, captures) && !AnyCall(Ints(from, n))
    decreases n
  {
    if n == 0 {
      assert Ints(from, n) == [];
    } else {
      IntsInFragment(v, captures, from + 1, n - 1);
      MoreArgs(IntLit(from), Ints(from + 1, n - 1), v, captures);
      assert [IntLit(from)] + Ints(from + 1, n - 1) == Ints(from, n);
    }
  }

  lemma LiteralInFragment(v: Sight, captures: bool, from: nat, n: nat)
    requires from + n <= 250
    ensures Simple(ListLit(Ints(from, n)), v, captures) && !HasCall(ListLit(Ints(from, n)))
  {
    IntsInFragment(v, captures, from, n);
  }

  lemma IntInFragment(v: Sight, captures: bool, n: nat)
    requires n < 250
    ensures Simple(IntLit(n), v, captures) && !HasCall(IntLit(n))
  {}

  lemma OperatorInFragment(name: string, args: seq<Expr>, v: Sight, captures: bool)
    requires name in OPERATORS && AllSimple(args, v, captures) && !AnyCall(args)
    ensures Simple(Apply(None, name, args), v, captures) && !HasCall(Apply(None, name, args))
  {}

  lemma MoreArgs(a: Expr, rest: seq<Expr>, v: Sight, captures: bool)
    requires Simple(a, v, captures) && !HasCall(a) && AllSimple(rest, v, captures) && !AnyCall(rest)
    ensures AllSimple([a] + rest, v, captures) && !AnyCall([a] + rest)
  {
    assert ([a] + rest)[1..] == rest;
  }

  /** The program lies in the fragment. */
  lemma FirstInFragment(v: Sight, captures: bool)
    ensures BlockOk([First()], v, captures)
  {
    hide *;
    LiteralInFragment(v, captures, 0, 40);
    LiteralInFragment(v, captures, 40, 45);
    LiteralInFragment(v, captures, 85, 33);
    IntInFragment(v, captures, 0);
    IntInFragment(v, captures, 30);
    IntInFragment(v, captures, 42);
    OperatorNames();
    var a, b, c := ListLit(Ints(0, 40)), ListLit(Ints(40, 45)), ListLit(Ints(85, 33));
    Operator2("++", a, b, v, captures);
    TwelveInFragment(v, captures);
    Operator2("++", Twelve(), c, v, captures);
    Operator2("list_nth", Longer(), IntLit(0), v, captures);
    Example.BlockLast(First(), v, captures);
  }

  lemma OperatorNames()
    ensures "++" in OPERATORS && "list_slice" in OPERATORS && "list_nth" in OPERATORS
    ensures Joined() == Apply(None, "++", [ListLit(Ints(0, 40)), ListLit(Ints(40, 45))])
    ensures Longer() == Apply(None, "++", [Twelve(), ListLit(Ints(85, 33))])
    ensures First() == Apply(None, "list_nth", [Longer(), IntLit(0)])
  {}

  lemma TwelveInFragment(v: Sight, captures: bool)
    requires Simple(Joined(), v, captures) && !HasCall(Joined())
    ensures Simple(Twelve(), v, captures) && !HasCall(Twelve())
  {
    var args := [Joined(), IntLit(30), IntLit(42)];
    assert AllSimple([], v, captures) && !AnyCall([]);
    IntInFragment(v, captures, 30);
    IntInFragment(v, captures, 42);
    hide Simple, AllSimple, HasCall, AnyCall, Joined;
    MoreArgs(IntLit(42), [], v, captures);
    MoreArgs(IntLit(30), [IntLit(42)], v, captures);
    MoreArgs(Joined(), [IntLit(30), IntLit(42)], v, captures);
    assert [IntLit(42)] + [] == [IntLit(42)] && [IntLit(30)] + [IntLit(42)] == [IntLit(30), IntLit(42)];
    assert [Joined()] + [IntLit(30), IntLit(42)] == args;
    OperatorInFragment("list_slice", args, v, captures);
  }

  lemma Operator2(name: string, a: Expr, b: Expr, v: Sight, captures: bool)
    requires name in OPERATORS && Simple(a, v, captures) && !HasCall(a) && Simple(b, v, captures) && !HasCall(b)
    ensures Simple(Apply(None, name, [a, b]), v, captures) && !HasCall(Apply(None, name, [a, b]))
  {
    hide Simple, HasCall;
    assert AllSimple([], v, captures) && !AnyCall([]);
    MoreArgs(b, [], v, captures);
    MoreArgs(a, [b], v, captures);
    assert [b] + [] == [b] && [a] + [b] == [a, b];
    OperatorInFragment(name, [a, b], v, captures);
  }

  // ---------- what the lists do ----------

  lemma {:induction false} IntsAreClosed(from: nat, n: nat)
    requires from + n <= 250
    ensures ClosedRuns.AllClosed(Ints(from, n)) && ClosedRuns.AllNeed(Ints(from, n)) == n
    ensures ClosedRuns.CellsOf(Ints(from, n)) == Some(IntCells(from, n))
    decreases n
  {
    if n == 0 {
      assert Ints(from, n) == [] && IntCells(from, n) == [];
    } else {
      var rest := Ints(from + 1, n - 1);
      IntsAreClosed(from + 1, n - 1);
      assert Ints(from, n)[0] == IntLit(from) && Ints(from, n)[1..] == rest;
      assert [Cells.IntC(from)] + IntCells(from + 1, n - 1) == IntCells(from, n);
    }
  }

  lemma LiteralIsClosed(from: nat, n: nat)
    requires from + n <= 250
    ensures var e := ListLit(Ints(from, n));
            && ClosedRuns.Closed(e) && ClosedRuns.Needs(e) == n
            && ClosedRuns.CellOf(e) == Some(Cells.ListC(CutLists.ListOf(IntCells(from, n))))
  {
    IntsAreClosed(from, n);
  }

  lemma OneCell(a: Expr, rest: seq<Expr>)
    requires ClosedRuns.Closed(a) && ClosedRuns.AllClosed(rest)
    ensures ClosedRuns.AllClosed([a] + rest)
    ensures ClosedRuns.AllNeed([a] + rest) == 1 + ClosedRuns.Max(ClosedRuns.Needs(a), ClosedRuns.AllNeed(rest))
    ensures ClosedRuns.CellsOf([a] + rest)
         == (var u, r := ClosedRuns.CellOf(a), ClosedRuns.CellsOf(rest);
             if u.None? || r.None? then None else Some([u.value] + r.value))
  {
    hide ClosedRuns.Closed, ClosedRuns.Needs, ClosedRuns.CellOf;
    assert ([a] + rest)[0] == a && ([a] + rest)[1..] == rest;
  }

  lemma OfArgs(name: string, es: seq<Expr>)
    requires ClosedRuns.AllClosed(es) && ClosedRuns.Takes(name, |es|)
    ensures var e := Apply(None, name, es);
            && ClosedRuns.Closed(e) && ClosedRuns.Needs(e) == ClosedRuns.AllNeed(es)
            && ClosedRuns.CellOf(e)
               == (var cs := ClosedRuns.CellsOf(es);
                   var (op, n, _) := Codegen.Primitive(name).value;
                   if cs.None? then None else Cells.CellCompute(op, cs.value[..n]))
  {
    hide Cells.CellCompute, Codegen.Primitive, ClosedRuns.AllNeed, ClosedRuns.CellsOf;
  }

  /** An operator of two closed operands. */
  lemma TwoCells(name: string, a: Expr, b: Expr)
    requires ClosedRuns.Closed(a) && ClosedRuns.Closed(b) && ClosedRuns.Takes(name, 2)
    requires Codegen.Primitive(name).value.1 == 2
    ensures var e := Apply(None, name, [a, b]);
            && ClosedRuns.Closed(e)
            && ClosedRuns.Needs(e) == 1 + ClosedRuns.Max(ClosedRuns.Needs(a), 1 + ClosedRuns.Needs(b))
            && ClosedRuns.CellOf(e)
               == (var u, v := ClosedRuns.CellOf(a), ClosedRuns.CellOf(b);
                   if u.None? || v.None? then None
                   else Cells.CellCompute(Codegen.Primitive(name).value.0, [u.value, v.value]))
  {
    hide *;
    NoCells();
    assert [b] + [] == [b] && [a] + [b] == [a, b];
    OneCell(b, []);
    OneCell(a, [b]);
    MaxIs(ClosedRuns.Needs(b), 0);
    OfArgs(name, [a, b]);
    var u, v := ClosedRuns.CellOf(a), ClosedRuns.CellOf(b);
    if u.Some? && v.Some? {
      assert [v.value] + [] == [v.value] && [u.value] + [v.value] == [u.value, v.value];
      assert [u.value, v.value][..2] == [u.value, v.value];
    }
  }

  lemma NoCells()
    ensures ClosedRuns.CellsOf([]) == Some([]) && ClosedRuns.AllNeed([]) == 0 && ClosedRuns.AllClosed([])
  {}

  /** An operator of three closed operands. */
  lemma ThreeCells(name: string, a: Expr, b: Expr, c: Expr)
    requires ClosedRuns.Closed(a) && ClosedRuns.Closed(b) && ClosedRuns.Closed(c) && ClosedRuns.Takes(name, 3)
    requires Codegen.Primitive(name).value.1 == 3
    requires ClosedRuns.CellOf(a).Some? && ClosedRuns.CellOf(b).Some? && ClosedRuns.CellOf(c).Some?
    ensures var e := Apply(None, name, [a, b, c]);
            && ClosedRuns.Closed(e)
            && ClosedRuns.Needs(e)
               == 1 + ClosedRuns.Max(ClosedRuns.Needs(a),
                                     1 + ClosedRuns.Max(ClosedRuns.Needs(b), 1 + ClosedRuns.Needs(c)))
            && ClosedRuns.CellOf(e)
               == Cells.CellCompute(Codegen.Primitive(name).value.0,
                                    [ClosedRuns.CellOf(a).value, ClosedRuns.CellOf(b).value,
                                     ClosedRuns.CellOf(c).value])
  {
    hide *;
    ThreeArgs(a, b, c);
    MaxIs(ClosedRuns.Needs(c), 0);
    OfArgs(name, [a, b, c]);
    var u, v, x := ClosedRuns.CellOf(a).value, ClosedRuns.CellOf(b).value, ClosedRuns.CellOf(c).value;
    assert [u, v, x][..3] == [u, v, x];
  }

  lemma ThreeArgs(a: Expr, b: Expr, c: Expr)
    requires ClosedRuns.Closed(a) && ClosedRuns.Closed(b) && ClosedRuns.Closed(c)
    requires ClosedRuns.CellOf(a).Some? && ClosedRuns.CellOf(b).Some? && ClosedRuns.CellOf(c).Some?
    ensures ClosedRuns.AllClosed([a, b, c])
    ensures ClosedRuns.AllNeed([a, b, c])
         == 1 + ClosedRuns.Max(ClosedRuns.Needs(a),
                               1 + ClosedRuns.Max(ClosedRuns.Needs(b), 1 + ClosedRuns.Max(ClosedRuns.Needs(c), 0)))
    ensures ClosedRuns.CellsOf([a, b, c])
         == Some([ClosedRuns.CellOf(a).value, ClosedRuns.CellOf(b).value, ClosedRuns.CellOf(c).value])
  {
    hide *;
    NoCells();
    assert [c] + [] == [c] && [b] + [c] == [b, c] && [a] + [b, c] == [a, b, c];
    OneCell(c, []);
    OneCell(b, [c]);
    OneCell(a, [b, c]);
    var u, v, x := ClosedRuns.CellOf(a).value, ClosedRuns.CellOf(b).value, ClosedRuns.CellOf(c).value;
    assert [x] + [] == [x] && [v] + [x] == [v, x] && [u] + [v, x] == [u, v, x];
  }

  /** The slice, once the concat gives `all`. */
  lemma TwelveCell(all: Vectors.Rrb<Cells.Cell>)
    requires ClosedRuns.Closed(Joined()) && ClosedRuns.Needs(Joined()) == 47
    requires ClosedRuns.CellOf(Joined()) == Some(Cells.ListC(all)) && Cells.Usable(all)
    ensures ClosedRuns.Closed(Twelve()) && ClosedRuns.Needs(Twelve()) == 48
    ensures ClosedRuns.CellOf(Twelve()) == Some(Cells.ListC(Slice.CutList(all, 30, 42)))
  {
    hide Joined, Cells.Usable, Cells.CellCompute, Slice.CutList, Codegen.Primitive;
    Operators();
    SliceCell(all);
    ThreeCells("list_slice", Joined(), IntLit(30), IntLit(42));
  }

  lemma SliceCell(all: Vectors.Rrb<Cells.Cell>)
    requires Cells.Usable(all)
    ensures Cells.CellCompute(Bytecode.ListSlice, [Cells.ListC(all), Cells.IntC(30), Cells.IntC(42)])
         == Some(Cells.ListC(Slice.CutList(all, 30, 42)))
  {
    hide Cells.Usable, Slice.CutList;
  }

  lemma Operators()
    ensures ClosedRuns.Takes("++", 2) && Codegen.Primitive("++") == Some((Bytecode.Concat, 2, true))
    ensures ClosedRuns.Takes("list_slice", 3) && Codegen.Primitive("list_slice") == Some((Bytecode.ListSlice, 3, true))
    ensures ClosedRuns.Takes("list_nth", 2) && Codegen.Primitive("list_nth") == Some((Bytecode.ListNth, 2, true))
  {}

  /** The concat of two lists of cells. */
  lemma ConcatOfLists(l: Vectors.Rrb<Cells.Cell>, r: Vectors.Rrb<Cells.Cell>)
    requires Cells.Usable(l) && Cells.Usable(r)
    ensures Cells.CellCompute(Bytecode.Concat, [Cells.ListC(l), Cells.ListC(r)])
         == if Vectors.ConcatSafe(l, r) then Some(Cells.ListC(Vectors.ConcatOf(l, r))) else None
  {
    hide Vectors.ConcatSafe, Vectors.ConcatOf;
  }

  ghost function AllOf(): Vectors.Rrb<Cells.Cell> {
    Vectors.ConcatOf(CutLists.ListOf(IntCells(0, 40)), CutLists.ListOf(IntCells(40, 45)))
  }

  /** Evaluated on the real lists, the program comes to nothing: the second concat has no
      result. */
  lemma FirstHasNoCell(all: Vectors.Rrb<Cells.Cell>, cut: Vectors.Rrb<Cells.Cell>)
    requires all == AllOf() && Cells.Usable(all) && cut == Slice.CutList(all, 30, 42)
    requires Vectors.ConcatSafe(CutLists.ListOf(IntCells(0, 40)), CutLists.ListOf(IntCells(40, 45)))
    requires Cells.Usable(cut) && !Vectors.ConcatSafe(cut, CutLists.ListOf(IntCells(85, 33)))
    ensures ClosedRuns.Closed(First()) && ClosedRuns.Needs(First()) == 50 && ClosedRuns.CellOf(First()) == None
    ensures ClosedRuns.Closed(Twelve()) && ClosedRuns.CellOf(Twelve()) == Some(Cells.ListC(cut))
  {
    hide *;
    var a, b, c := ListLit(Ints(0, 40)), ListLit(Ints(40, 45)), ListLit(Ints(85, 33));
    var l, r, z := CutLists.ListOf(IntCells(0, 40)), CutLists.ListOf(IntCells(40, 45)),
        CutLists.ListOf(IntCells(85, 33));
    LiteralIsClosed(0, 40);
    LiteralIsClosed(40, 45);
    LiteralIsClosed(85, 33);
    Operators();
    OperatorNames();
    ListIsUsable(IntCells(0, 40));
    ListIsUsable(IntCells(40, 45));
    ListIsUsable(IntCells(85, 33));
    TwoCells("++", a, b);
    MaxIs(40, 46);
    ConcatOfLists(l, r);
    AllIs(all);
    TwelveCell(all);
    TwoCells("++", Twelve(), c);
    MaxIs(48, 34);
    ConcatOfLists(cut, z);
    IntIsClosed(0);
    TwoCells("list_nth", Longer(), IntLit(0));
    MaxIs(49, 1);
  }

  lemma AllIs(all: Vectors.Rrb<Cells.Cell>)
    requires all == AllOf()
    ensures all == Vectors.ConcatOf(CutLists.ListOf(IntCells(0, 40)), CutLists.ListOf(IntCells(40, 45)))
  {}

  lemma MaxIs(a: nat, b: nat)
    ensures ClosedRuns.Max(a, b) == if a < b then b else a
  {}

  lemma IntIsClosed(n: nat)
    requires n < 250
    ensures ClosedRuns.Closed(IntLit(n)) && ClosedRuns.Needs(IntLit(n)) == 0
  {}

  lemma ListIsUsable(cs: seq<Cells.Cell>)
    ensures Cells.Usable(CutLists.ListOf(cs))
  {
    CutLists.HeldStrong(CutLists.ListOf(cs));
  }

  /** The program on the real lists.  Its source means 30.  Compiled, loaded and run, it has
      no result, because the second concat would break its lists: it drops the tree of
      the slice.  The list operations carried on with give 40. */
  method SourceAndListsDiffer(ghost k: nat)
    returns (result: Option<Cells.Cell>, cut: Vectors.Rrb<Cells.Cell>, right: Vectors.Rrb<Cells.Cell>,
        joined: Vectors.Rrb<Cells.Cell>, first: Option<Cells.Cell>)
    requires k + 1 < Vm.STACK_DEPTH
    ensures Eval(Pipeline.ProgramOf(ClosedPrograms.Mods(First()), false), k, "m", [], First())
         == Some(IntVal(30))
    ensures ClosedRuns.Closed(First()) && result == ClosedRuns.CellOf(First()) == None
    ensures ClosedRuns.Closed(Twelve()) && ClosedRuns.CellOf(Twelve()) == Some(Cells.ListC(cut))
    ensures Vectors.Contents(cut) == IntCells(30, 12) && right == CutLists.ListOf(IntCells(85, 33))
    ensures Vectors.DropsLeftTree(cut, right) && Cells.Usable(cut) && joined == Vectors.ConcatOf(cut, right)
    ensures Lookup.HeaderOk(joined) && first == Lookup.NthOf(joined, 0) == Some(Cells.IntC(40))
  {
    hide Eval, ClosedRuns.CellOf, ClosedRuns.Closed, ClosedRuns.Needs, CutLists.ListOf, Vectors.ConcatOf,
        Vectors.ConcatSafe, Slice.CutList, Vectors.Valid, First, Twelve;
    FirstMeans30(Pipeline.ProgramOf(ClosedPrograms.Mods(First()), false), k, "m", []);
    cut, right, joined := ListFaults.LiteralsRun(IntCells(0, 40), IntCells(40, 45), IntCells(85, 33));
    CutLists.HeldExact(cut);
    CutLists.HeldStrong(AllOf());
    FirstHasNoCell(AllOf(), cut);
    result := ClosedPrograms.RunClosed(First(), k);
    first := Lookup.Nth(joined, 0);
    assert (IntCells(0, 40) + IntCells(40, 45))[30..42] == IntCells(30, 12);
  }
}
