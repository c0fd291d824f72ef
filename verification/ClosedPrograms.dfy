/**
 Whole programs of one function whose body is a closed expression: exactly when the
 interpreter ends with a result, and with which one.
 */
module ClosedPrograms {
  import opened Seqs
  import opened Ast
  import opened Bytecode
  import opened Loader
  import opened Decode
  import opened Vm
  import opened Codegen
  import opened Semantics
  import opened Relation
  import opened Frames
  import opened Simulation
  import opened Pipeline
  import opened ClosedRuns
  import Cells
  import CellSteps
  import EndToEnd
  import Interpreter
  import Example

  function MainOf(e: Expr): FunDef {
    FunDef("main", [], [e])
  }

  /** The program with this function only. */
  function Mods(e: Expr): seq<Module> {
    [Module("m", [MainOf(e)])]
  }

  // ---------- the conditions of the theorem ----------

  lemma {:induction false} ClosedIsSimple(e: Expr, v: Sight, captures: bool)
    requires Closed(e)
    ensures Simple(e, v, captures) && !HasCall(e)
    decreases e, 0
  {
    match e
    case IntLit(_) =>
    case ListLit(es) => AllClosedAreSimple(es, v, captures);
    case Apply(_, name, es) =>
      AllClosedAreSimple(es, v, captures);
      OperatorsArePrimitives(name);
  }

  lemma {:induction false} AllClosedAreSimple(es: seq<Expr>, v: Sight, captures: bool)
    requires AllClosed(es)
    ensures AllSimple(es, v, captures) && !AnyCall(es)
    decreases es, 0
  {
    if es != [] {
      ClosedIsSimple(es[0], v, captures);
      AllClosedAreSimple(es[1..], v, captures);
    }
  }

  lemma MainInFragment(e: Expr)
    requires Closed(e)
    ensures InFragment([MainOf(e)], {})
  {
    hide BlockOk;
    ClosedIsSimple(e, Entry({}, [], {}, false), true);
    Example.BlockLast(e, Entry({}, [], {}, false), true);
  }

  function BodyCode(e: Expr): seq<Instr>
    requires Gen(e, 0, Scope(0, map[], [], None), "m").Some?
  {
    Gen(e, 0, Scope(0, map[], [], None), "m").value.code
  }

  lemma MainCompiles(e: Expr)
    requires Closed(e) && Needs(e) < REGISTER_COUNT
    ensures Gen(e, 0, Scope(0, map[], [], None), "m").Some?
    ensures Gen(e, 0, Scope(0, map[], [], None), "m") == Some(Output(BodyCode(e), Scope(0, map[], [], None)))
    ensures Nameless(BodyCode(e))
    ensures GenBody([], [e], None, "m") == Some(Output(BodyCode(e) + [Return], Scope(0, map[], [], None)))
    ensures GenModule("m", [MainOf(e)]) == Some([Fun(QualifiedName("m", "main"), 0, BodyCode(e) + [Return])])
  {
    hide Gen, Needs, Nameless, Around;
    var s := Scope(0, map[], [], None);
    Compiles(e, 0, s, "m");
    var g := Output(BodyCode(e), s);
    Example.GenOne(e, 0, s, "m", g);
    assert NewScope([], None) == Some(s);
    hide GenBlock;
    var f := Fun(QualifiedName("m", "main"), 0, BodyCode(e) + [Return]);
    assert GenFunction(MainOf(e), "m") == Some(f);
    assert GenModule("m", []) == Some([]) && [MainOf(e)][1..] == [] && [f] + [] == [f];
  }

  lemma MainFits(e: Expr)
    requires Closed(e) && Needs(e) < REGISTER_COUNT
    ensures Generated(Module("m", [MainOf(e)]))
    ensures PoolOk(ModuleNames(GenModule("m", [MainOf(e)]).value, []))
    ensures PoolOk(ModuleStrings(GenModule("m", [MainOf(e)]).value, []))
  {
    hide GenModule, Full, ModuleNames, ModuleStrings, NameOk, Gen, GenBody, Closed, Needs;
    MainCompiles(e);
    var code := BodyCode(e) + [Return];
    var f := Fun(QualifiedName("m", "main"), 0, code);
    assert FunOk(f) by {
      Example.MainName();
      SameName(f);
      assert CodeOk(code);
    }
    assert ModuleOk([f]) && DistinctFuns([f]);
    OnlyName(f);
    assert PoolOk([Full(f)]);
  }

  lemma SameName(f: Fun)
    requires f.name == QualifiedName("m", "main") && f.arity == 0
    ensures Full(f) == Full(Example.MainFun())
  {
    hide QualifiedName, FullName;
  }

  lemma OnlyName(f: Fun)
    requires Nameless(f.code)
    ensures ModuleNames([f], []) == [Full(f)] && ModuleStrings([f], []) == []
  {
    hide Full;
    Example.NothingNamed(f.code, [Full(f)]);
    assert Intern([], Full(f)) == [] + [Full(f)] == [Full(f)];
    assert [f][1..] == [];
    assert ModuleNames([], [Full(f)]) == [Full(f)];
  }

  // ---------- the run ----------

  /** The started machine enters the function. */
  lemma Starts(w: World, full: Name, at: nat) returns (c: CellSteps.CellState)
    requires var id := Id(w.names, full);
             id in w.m.functions && at + 6 == |w.m.code| && w.m.code[at..] == StartCode(id)
    ensures Shape(c) && CellSteps.CellRun(w.m, CellSteps.FreshCells(at), 1) == Some(c)
    ensures c.ip == w.m.functions[Id(w.names, full)] && c.current == 1
    ensures c.frames[1].retAddress == at + 4 && c.frames[1].retRegister == 0
  {
    hide Id;
    var id, s := Id(w.names, full), CellSteps.FreshCells(at);
    StartFetch(w.m, at, id);
    assert GetVars(s.(upvals := []), []) == Some([]);
    c := Enter(s, w.m.functions[id], [], Register(0), [], at + 4).value;
    assert CellSteps.CellRun(w.m, s, 0) == Some(s);
    assert CellSteps.CellStep(w.m, s) == Some(c);
  }

  /** The return, and the exit. */
  lemma Returns(w: World, c: CellSteps.CellState, at: nat, v: Cells.Cell)
    requires Shape(c) && c.current == 1 && CodeAt(w, c.ip, [Return]) && Regs(c)[0] == v
    requires c.frames[1].retAddress == at && c.frames[1].retRegister == 0
    ensures CellSteps.CellStep(w.m, c).Some?
    ensures var d := CellSteps.CellStep(w.m, c).value; d.ip == at && GetVar(d, Register(0)) == Some(v)
  {
    hide CodeAt, Size;
    CellStepAt(w, Return, c);
  }

  lemma Ends(w: World, e: Expr, full: Name, at: nat) returns (n: nat)
    requires Closed(e) && Needs(e) < REGISTER_COUNT && CellOf(e).Some?
    requires var id := Id(w.names, full);
             && id in w.m.functions && at + 6 == |w.m.code| && w.m.code[at..] == StartCode(id)
             && Gen(e, 0, Scope(0, map[], [], None), "m").Some?
             && CodeAt(w, w.m.functions[id], BodyCode(e) + [Return])
    ensures EndToEnd.EndsWith(w.m, CellSteps.FreshCells(at), n, CellOf(e).value)
  {
    hide Id, CodeAt, Size, Gen, Needs, Closed, CellOf, Ran, CellSteps.CellRun, CellSteps.CellStep, StartCode,
        CellSteps.FreshCells;
    var s, c0 := Scope(0, map[], [], None), CellSteps.FreshCells(at);
    var c := Starts(w, full, at);
    CodeParts(w, c.ip, BodyCode(e), [Return]);
    var n1 := RunExpr(w, e, 0, s, "m", c);
    var d := BodyEnd(w, c, n1, Size(w, BodyCode(e)), CellOf(e).value);
    Returns(w, d, at + 4, CellOf(e).value);
    RunAdd(w.m, c0, 1, n1);
    n := 1 + n1 + 1;
    RunNext(w.m, c0, d, 1 + n1);
    ExitCode(w.m.code, at, Id(w.names, full));
  }

  lemma RunNext(m: Machine, c: CellSteps.CellState, d: CellSteps.CellState, n: nat)
    requires Shape(c) && Shape(d) && CellSteps.CellRun(m, c, n) == Some(d)
    ensures CellSteps.CellRun(m, c, n + 1) == CellSteps.CellStep(m, d)
  {
    hide CellSteps.CellStep;
  }

  lemma ExitCode(code: seq<nat>, at: nat, id: nat)
    requires at + 6 == |code| && code[at..] == StartCode(id)
    ensures code[at + 4] == Interpreter.EXIT
  {
    assert code[at + 4] == code[at..][4];
  }

  lemma BodyEnd(w: World, c: CellSteps.CellState, n: nat, size: nat, v: Cells.Cell) returns (d: CellSteps.CellState)
    requires Shape(c) && Ran(w, c, n, size, 0, 0, v)
    ensures CellSteps.CellRun(w.m, c, n) == Some(d) && Shape(d) && d.ip == c.ip + size && d.current == c.current
    ensures Regs(d)[0] == v && d.frames[c.current].retAddress == c.frames[c.current].retAddress
    ensures d.frames[c.current].retRegister == c.frames[c.current].retRegister
  {
    d := CellSteps.CellRun(w.m, c, n).value;
  }

  lemma Stops(w: World, e: Expr, full: Name, at: nat) returns (n: nat)
    requires Closed(e) && Needs(e) < REGISTER_COUNT && CellOf(e).None?
    requires var id := Id(w.names, full);
             && id in w.m.functions && at + 6 == |w.m.code| && w.m.code[at..] == StartCode(id)
             && Gen(e, 0, Scope(0, map[], [], None), "m").Some?
             && CodeAt(w, w.m.functions[id], BodyCode(e) + [Return])
    ensures Stuck(w.m, CellSteps.FreshCells(at), n)
  {
    hide Id, CodeAt, Size, Gen, Needs, Closed, CellOf, CellSteps.CellRun, CellSteps.CellStep, StartCode, Stuck,
        CellSteps.FreshCells;
    var c := Starts(w, full, at);
    CodeParts(w, c.ip, BodyCode(e), [Return]);
    var k := ExprStops(w, e, 0, Scope(0, map[], [], None), "m", c);
    StuckLater(w.m, CellSteps.FreshCells(at), c, 1, k);
    n := 1 + k;
  }

  ghost predicate Last(m: Machine, c: CellSteps.CellState, n: nat)
    requires Shape(c)
  {
    CellSteps.CellRun(m, c, n).Some? && CellSteps.CellStep(m, CellSteps.CellRun(m, c, n).value) == None
  }

  /** A run comes to its last state once. */
  lemma LastState(m: Machine, c: CellSteps.CellState, n: nat, k: nat)
    requires Shape(c) && Last(m, c, n) && Last(m, c, k)
    ensures n == k
  {
    hide CellSteps.CellStep;
    if n < k { CellSteps.RunStops(m, c, n + 1, k); }
    if k < n { CellSteps.RunStops(m, c, k + 1, n); }
  }

  lemma EndIsLast(m: Machine, c: CellSteps.CellState, n: nat, v: Cells.Cell)
    requires Shape(c) && EndToEnd.EndsWith(m, c, n, v)
    ensures Last(m, c, n) && !Stuck(m, c, n)
  {
    hide CellSteps.CellRun, CellSteps.CellStep, CellSteps.UnsafeAt;
    EndToEnd.NothingAtExit(m, CellSteps.CellRun(m, c, n).value);
  }

  /** The loaded machine holds the function. */
  lemma LoadedMain(e: Expr, r: LoadState) returns (w: World)
    requires Closed(e) && Needs(e) < REGISTER_COUNT && Loadable(Mods(e), {}) && LoadAll(Mods(e)) == Some(r)
    requires AllDefs(Mods(e)) == DefsOf("m", [MainOf(e)])
    ensures w.names == r.names && w.m == EndToEnd.Started(r, Id(r.names, FullOfDef("m", MainOf(e))), false)
    ensures var id := Id(w.names, FullOfDef("m", MainOf(e)));
            && id in w.m.functions && |r.code| + 6 == |w.m.code| && w.m.code[|r.code|..] == StartCode(id)
            && Gen(e, 0, Scope(0, map[], [], None), "m").Some?
            && CodeAt(w, w.m.functions[id], BodyCode(e) + [Return])
  {
    hide LoadAll, GenModule, Loadable, FullOfDef, Id, Gen, GenBody, Closed, Needs, Nameless, BlockOk, CodeAt, Distinct,
        DefsOf, AllDefs, Mods;
    var full := FullOfDef("m", MainOf(e));
    var r0 := CompileAndLoad(Mods(e), {}, false);
    var w0 := WorldOf(r, Mods(e), {}, false);
    HoldingAppended(w0, StartCode(Id(r.names, full)));
    w := w0.(m := w0.m.(code := r.code + StartCode(Id(r.names, full))));
    MainDefined(e);
    assert FunctionAt(w, full);
    MainCompiles(e);
  }

  lemma MainDefined(e: Expr)
    ensures FullOfDef("m", MainOf(e)) in DefsOf("m", [MainOf(e)])
    ensures DefsOf("m", [MainOf(e)])[FullOfDef("m", MainOf(e))] == ("m", MainOf(e))
  {
    hide FullOfDef;
    assert [MainOf(e)][0] == MainOf(e);
  }

  /** A closed expression that means something, as a program: the interpreter ends with a
      result if and only if every operation on the real lists has one, and then with
      that. */
  method RunClosed(e: Expr, ghost k: nat) returns (result: Option<Cells.Cell>)
    requires Closed(e) && Needs(e) < REGISTER_COUNT && k + 1 < STACK_DEPTH
    requires Eval(ProgramOf(Mods(e), false), k, "m", [], e).Some?
    ensures result == CellOf(e)
    ensures Eval(ProgramOf(Mods(e), true), k, "m", [], e).Some? ==> result.Some?
  {
    hide LoadAll, GenModule, Loadable, InFragment, FullOfDef, Id, CellOf, Closed, Needs, Eval, Gen, Generated, Mods,
        EndToEnd.NeverUnsafe, EndToEnd.EndsWith, CellSteps.UnsafeAt, CellSteps.CellRun, CallVal, DefsOf, AllDefs,
        CodeAt, EndToEnd.Means, StartCode, Stuck, EndToEnd.Started, CellSteps.FreshCells, ModuleNames, ModuleStrings;
    MainLoadable(e);
    MainDefined(e);
    ClosedKind(e);
    MainMeans(e, k, false);
    MainMeans(e, k, true);
    ghost var x, n;
    result, x, n := EndToEnd.RunProgram(Mods(e), FullOfDef("m", MainOf(e)), {}, k);
    ghost var r := LoadAll(Mods(e)).value;
    ghost var w := LoadedMain(e, r);
    SameEnd(w, e, FullOfDef("m", MainOf(e)), |r.code|, result, n);
  }

  lemma MainLoadable(e: Expr)
    requires Closed(e) && Needs(e) < REGISTER_COUNT
    ensures Loadable(Mods(e), {}) && AllDefs(Mods(e)) == DefsOf("m", [MainOf(e)])
  {
    hide Generated, InFragment, Loadable, AllDefs, DefsOf, GenModule, ModuleNames, ModuleStrings, Closed, Needs;
    MainFits(e);
    MainInFragment(e);
    OneModule(Module("m", [MainOf(e)]), {});
  }

  /** Both runs of one machine end in the same way. */
  lemma SameEnd(w: World, e: Expr, full: Name, at: nat, result: Option<Cells.Cell>, n: nat)
    requires Closed(e) && Needs(e) < REGISTER_COUNT
    requires var id := Id(w.names, full);
             && id in w.m.functions && at + 6 == |w.m.code| && w.m.code[at..] == StartCode(id)
             && Gen(e, 0, Scope(0, map[], [], None), "m").Some?
             && CodeAt(w, w.m.functions[id], BodyCode(e) + [Return])
    requires var c := CellSteps.FreshCells(at);
             if result.Some? then EndToEnd.EndsWith(w.m, c, n, result.value)
             else CellSteps.CellRun(w.m, c, n).Some? && CellSteps.UnsafeAt(w.m, CellSteps.CellRun(w.m, c, n).value)
    ensures result == CellOf(e)
  {
    hide Id, CodeAt, Gen, Needs, Closed, CellOf, CellSteps.CellRun, CellSteps.CellStep, CellSteps.UnsafeAt, StartCode,
        CellSteps.FreshCells;
    var c := CellSteps.FreshCells(at);
    if result.None? {
      CellSteps.UnsafeStops(w.m, CellSteps.CellRun(w.m, c, n).value);
    } else {
      EndIsLast(w.m, c, n, result.value);
    }
    if CellOf(e).Some? {
      var k := Ends(w, e, full, at);
      EndIsLast(w.m, c, k, CellOf(e).value);
      LastState(w.m, c, n, k);
      if result.None? { NotUnsafe(w.m, c, n, CellOf(e).value); }
    } else {
      var k := Stops(w, e, full, at);
      LastState(w.m, c, n, k);
    }
  }

  lemma NotUnsafe(m: Machine, c: CellSteps.CellState, n: nat, v: Cells.Cell)
    requires Shape(c) && EndToEnd.EndsWith(m, c, n, v)
    ensures !CellSteps.UnsafeAt(m, CellSteps.CellRun(m, c, n).value)
  {
    hide CellSteps.CellRun, CellSteps.CellStep, CellSteps.UnsafeAt;
    EndToEnd.NothingAtExit(m, CellSteps.CellRun(m, c, n).value);
  }

  lemma BodyOfOne(p: Program, k: nat, e: Expr)
    requires !e.Let? && !e.If?
    ensures EvalBody(p, k, "m", [], [e]) == Eval(p, k, "m", [], e)
  {
    hide Eval;
    assert EvalItems(p, k, "m", [], [e]) == EvalItem(p, k, "m", [], e);
  }

  lemma ClosedKind(e: Expr)
    requires Closed(e)
    ensures !e.Let? && !e.If?
  {}

  lemma MainMeans(e: Expr, k: nat, checked: bool)
    requires !e.Let? && !e.If? && AllDefs(Mods(e)) == DefsOf("m", [MainOf(e)])
    ensures var p := ProgramOf(Mods(e), checked);
            CallVal(p, k, FnVal(FullOfDef("m", MainOf(e))), []) == Eval(p, k, "m", [], e)
  {
    hide FullOfDef, Eval, DefsOf, AllDefs, Mods;
    MainDefined(e);
    assert Bind([], []) == [];
    BodyOfOne(ProgramOf(Mods(e), checked), k, e);
  }
}
