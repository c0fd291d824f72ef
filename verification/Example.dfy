/**
 One program all the way through:

   fn main() {
     y = 40
     g = (x) -> x + y
     if true { g(2) } else { 0 }
   }

 compiles, loads, and leaves 42 in register 0.
 */
module Example {
  import opened Seqs
  import opened Ast
  import opened Bytecode
  import opened Loader
  import opened Vm
  import opened Codegen
  import opened Semantics
  import opened Relation
  import opened Frames
  import opened Pipeline
  import Cells
  import EndToEnd
  import CellSteps

  // ---------- the program ----------

  function AddY(): seq<Expr> {
    [Apply(None, "+", [Ident("x"), Ident("y")])]
  }

  function CallG(): seq<Expr> {
    [Apply(None, "g", [IntLit(2)])]
  }

  function MainBody(): seq<Expr> {
    [Let("y", IntLit(40)), Let("g", Lambda(["x"], AddY())), If(TrueLit, CallG(), [IntLit(0)])]
  }

  function MainDef(): FunDef {
    FunDef("main", [], MainBody())
  }

  // ---------- its code ----------

  function AddYCode(): seq<Instr> {
    [Plain(Mov, [Register(2), Register(1)]), Plain(Mov, [Register(3), Upvalue(0)]),
     Plain(Add, [Register(0), Register(2), Register(3)]), Return]
  }

  function CallGCode(): seq<Instr> {
    [StoreInt(Register(3), 2), CallLocal(Register(0), Register(2), [Register(3)])]
  }

  function IfCode(): seq<Instr> {
    [Plain(StoreTrue, [Register(3)]), Test(Register(3), 7), StoreInt(Register(0), 0), Jmp(10)] + CallGCode()
  }

  function MainCode(): seq<Instr> {
    [StoreInt(Register(1), 40), AnonFn(Register(2), 12, 1, [Register(1)])] + AddYCode() + IfCode() + [Return]
  }

  // ---------- rules of the code generator ----------

  lemma GenArgsCons(e: Expr, rest: seq<Expr>, s: Scope, mod: string, first: Output, second: Output)
    requires Push(s).Some? && Gen(e, s.varCount + 1, Push(s).value, mod) == Some(first)
    requires GenArgs(rest, first.scope, mod) == Some(second)
    ensures GenArgs([e] + rest, s, mod) == Some(Output(first.code + second.code, second.scope))
  {
    hide Gen, Around;
    var es := [e] + rest;
    assert es[0] == e && es[1..] == rest;
  }

  lemma GenItemsCons(e: Expr, rest: seq<Expr>, out: nat, s: Scope, mod: string, first: Output, second: Output)
    requires Gen(e, out, s, mod) == Some(first) && GenItems(rest, out, first.scope, mod) == Some(second)
    ensures GenItems([e] + rest, out, s, mod) == Some(Output(first.code + second.code, second.scope))
  {
    hide Gen, Around;
    var es := [e] + rest;
    assert es[0] == e && es[1..] == rest;
  }

  /** A block of one item. */
  lemma GenOne(e: Expr, out: nat, s: Scope, mod: string, r: Output)
    requires Gen(e, out, s, mod) == Some(r)
    ensures GenBlock([e], out, s, mod) == GenItems([e], out, s, mod) == Some(r)
  {
    hide Gen, Around;
    assert GenItems([], out, r.scope, mod) == Some(Output([], r.scope));
    GenItemsCons(e, [], out, s, mod, r, Output([], r.scope));
    assert [e] + [] == [e] && r.code + [] == r.code;
  }

  lemma GenLet(name: string, right: Expr, out: nat, s: Scope, mod: string, r: Output)
    requires !Exists(s, name) && Push(s).Some? && Gen(right, s.varCount + 1, Push(s).value, mod) == Some(r)
    ensures Gen(Let(name, right), out, s, mod)
         == Some(Output(r.code, r.scope.(env := r.scope.env[name := Register(s.varCount + 1)])))
  {
    hide Around, GenArgs, GenBlock, GenBody, ApplyOp, Branch, Search, Exists;
  }

  lemma GenApply(name: string, args: seq<Expr>, out: nat, s: Scope, mod: string, a: Output, op: Output)
    requires name != "&&" && name != "||" && GenArgs(args, s, mod) == Some(a) && |args| <= a.scope.varCount
    requires var (locs, s1) := Popped(a.scope, |args|); ApplyOp(None, name, out, locs, s1, mod) == Some(op)
    ensures Gen(Apply(None, name, args), out, s, mod) == Some(Output(a.code + op.code, op.scope))
  {
    hide Around, ApplyOp;
  }

  lemma GenLambda(params: seq<string>, body: seq<Expr>, out: nat, s: Scope, mod: string, b: Output)
    requires GenBody(params, body, Some(s), mod) == Some(b) && JumpOver(b.code).Some? && b.scope.parent == Some(s)
    ensures Gen(Lambda(params, body), out, s, mod)
         == Some(Output([AnonFn(Register(out), JumpOver(b.code).value, |params|, b.scope.upvals)] + b.code, s))
  {
    hide Around, GenBody, ByteSizeOf;
  }

  lemma GenIf(cond: Expr, body: seq<Expr>, elseBody: seq<Expr>, out: nat, s: Scope, mod: string, t: Output, f: Output,
      c: Output)
    requires GenBlock(body, out, s, mod) == Some(t) && GenBlock(elseBody, out, t.scope, mod) == Some(f)
    requires Push(f.scope).Some? && Gen(cond, f.scope.varCount + 1, Push(f.scope).value, mod) == Some(c)
    requires Branch(f.scope.varCount + 1, t.code, f.code).Some?
    ensures Gen(If(cond, body, elseBody), out, s, mod)
         == Some(Output(c.code + Branch(f.scope.varCount + 1, t.code, f.code).value, c.scope))
  {
    hide Around, Branch, GenBlock;
  }

  // ---------- compiling ----------

  /** The scopes of the body: with y, with y and g. */
  function ScopeY(varCount: nat): Scope {
    Scope(varCount, map["y" := Register(1)], [], None)
  }

  function ScopeYG(varCount: nat): Scope {
    Scope(varCount, map["y" := Register(1), "g" := Register(2)], [], None)
  }

  function ScopeX(varCount: nat, upvals: seq<VarRef>): Scope {
    Scope(varCount, map["x" := Register(1)], upvals, Some(ScopeY(2)))
  }

  lemma AddYCompiles(mod: string)
    ensures GenBody(["x"], AddY(), Some(ScopeY(2)), mod) == Some(Output(AddYCode(), ScopeX(1, [Register(1)])))
  {
    var s1, s2, s3 := ScopeX(1, []), ScopeX(2, []), ScopeX(3, []);
    var x := Output([Plain(Mov, [Register(2), Register(1)])], s2);
    var y := Output([Plain(Mov, [Register(3), Upvalue(0)])], ScopeX(3, [Register(1)]));
    assert "x" != "y";
    assert Search(s2, "x") == (Some(Register(1)), s2);
    assert Gen(Ident("x"), 2, s2, mod) == Some(x);
    assert Search(ScopeY(2), "y") == (Some(Register(1)), ScopeY(2));
    assert [] + [Register(1)] == [Register(1)];
    assert Search(s3, "y") == (Some(Upvalue(0)), ScopeX(3, [Register(1)]));
    assert Gen(Ident("y"), 3, s3, mod) == Some(y);
    assert GenArgs([], y.scope, mod) == Some(Output([], y.scope));
    GenArgsCons(Ident("y"), [], s2, mod, y, Output([], y.scope));
    assert y.code + [] == y.code && [Ident("y")] + [] == [Ident("y")];
    GenArgsCons(Ident("x"), [Ident("y")], s1, mod, x, y);
    assert [Ident("x")] + [Ident("y")] == [Ident("x"), Ident("y")];
    var a := Output(x.code + y.code, y.scope);
    var op := Output([Plain(Add, [Register(0), Register(2), Register(3)])], ScopeX(1, [Register(1)]));
    assert Popped(a.scope, 2).0 == [Register(2), Register(3)];
    assert Popped(a.scope, 2) == ([Register(2), Register(3)], op.scope);
    assert [Register(0)] + [Register(2), Register(3)][..2] == [Register(0), Register(2), Register(3)];
    assert ApplyOp(None, "+", 0, [Register(2), Register(3)], op.scope, mod) == Some(op);
    GenApply("+", [Ident("x"), Ident("y")], 0, s1, mod, a, op);
    GenOne(AddY()[0], 0, s1, mod, Output(a.code + op.code, op.scope));
    assert NewScope(["x"], Some(ScopeY(2))) == Some(s1) by { assert ["x"][..0] == [] && ParamEnv([]) == map[]; }
    hide Gen, GenItems;
    assert a.code + op.code + [Return] == AddYCode();
  }

  lemma IfCompiles(mod: string)
    ensures Gen(If(TrueLit, CallG(), [IntLit(0)]), 0, ScopeYG(2), mod) == Some(Output(IfCode(), ScopeYG(3)))
  {
    var s2, s3 := ScopeYG(2), ScopeYG(3);
    var two := Output([StoreInt(Register(3), 2)], s3);
    assert Gen(IntLit(2), 3, s3, mod) == Some(two);
    assert GenArgs([], s3, mod) == Some(Output([], s3));
    GenArgsCons(IntLit(2), [], s2, mod, two, Output([], s3));
    assert two.code + [] == two.code && [IntLit(2)] + [] == [IntLit(2)];
    var call := Output([CallLocal(Register(0), Register(2), [Register(3)])], s2);
    assert Popped(s3, 1).0 == [Register(3)];
    assert "g" != "y" && Search(s2, "g") == (Some(Register(2)), s2);
    assert ApplyOp(None, "g", 0, [Register(3)], s2, mod) == Some(call);
    GenApply("g", [IntLit(2)], 0, s2, mod, two, call);
    var t := Output(CallGCode(), s2);
    assert two.code + call.code == t.code;
    GenOne(CallG()[0], 0, s2, mod, t);
    var f := Output([StoreInt(Register(0), 0)], s2);
    assert Gen(IntLit(0), 0, s2, mod) == Some(f);
    GenOne(IntLit(0), 0, s2, mod, f);
    var c := Output([Plain(StoreTrue, [Register(3)])], s3);
    assert Gen(TrueLit, 3, s3, mod) == Some(c);
    BranchCode();
    GenIf(TrueLit, CallG(), [IntLit(0)], 0, s2, mod, t, f, c);
    hide Gen, Branch;
    assert c.code + BranchOfIf() == IfCode();
  }

  function BranchOfIf(): seq<Instr> {
    [Test(Register(3), 7), StoreInt(Register(0), 0), Jmp(10)] + CallGCode()
  }

  lemma BranchCode()
    ensures Branch(3, CallGCode(), [StoreInt(Register(0), 0)]) == Some(BranchOfIf())
  {
    var t, f := CallGCode(), [StoreInt(Register(0), 0)];
    assert t[1..][1..] == [] && ByteSizeOf(t[1..]) == 5;
    assert ByteSizeOf(t) == 9;
    var els := f + [Jmp(10)];
    assert els[1..] == [Jmp(10)] && els[1..][1..] == [];
    assert ByteSizeOf(els) == 6;
    assert [Test(Register(3), 7)] + els + t == BranchOfIf();
  }

  lemma YCompiles(mod: string)
    ensures Gen(MainBody()[0], 0, Scope(0, map[], [], None), mod)
        == Some(Output([StoreInt(Register(1), 40)], ScopeY(1)))
  {
    var forty := Output([StoreInt(Register(1), 40)], Scope(1, map[], [], None));
    assert Gen(IntLit(40), 1, forty.scope, mod) == Some(forty);
    GenLet("y", IntLit(40), 0, Scope(0, map[], [], None), mod, forty);
  }

  lemma GCompiles(mod: string)
    ensures Gen(MainBody()[1], 0, ScopeY(1), mod)
         == Some(Output([AnonFn(Register(2), 12, 1, [Register(1)])] + AddYCode(), ScopeYG(2)))
  {
    hide Gen, GenBody;
    AddYCompiles(mod);
    AddYSize();
    var fn := Output([AnonFn(Register(2), 12, 1, [Register(1)])] + AddYCode(), ScopeY(2));
    GenLambda(["x"], AddY(), 2, ScopeY(2), mod, Output(AddYCode(), ScopeX(1, [Register(1)])));
    assert "g" != "y" && !Exists(ScopeY(1), "g");
    GenLet("g", Lambda(["x"], AddY()), 0, ScopeY(1), mod, fn);
    assert fn.scope.(env := fn.scope.env["g" := Register(2)]) == ScopeYG(2);
  }

  lemma BodyCompiles(mod: string)
    ensures GenBody([], MainBody(), None, mod) == Some(Output(MainCode(), ScopeYG(3)))
  {
    var s, items := Scope(0, map[], [], None), MainBody();
    YCompiles(mod);
    GCompiles(mod);
    IfCompiles(mod);
    var y := Output([StoreInt(Register(1), 40)], ScopeY(1));
    var g := Output([AnonFn(Register(2), 12, 1, [Register(1)])] + AddYCode(), ScopeYG(2));
    var i := Output(IfCode(), ScopeYG(3));
    hide Gen, GenItems;
    GenOne(items[2], 0, ScopeYG(2), mod, i);
    GenItemsCons(items[1], [items[2]], 0, ScopeY(1), mod, g, i);
    GenItemsCons(items[0], [items[1]] + [items[2]], 0, s, mod, y, Output(g.code + i.code, i.scope));
    assert [items[0]] + ([items[1]] + [items[2]]) == items;
    assert y.code + (g.code + i.code) + [Return] == MainCode();
    assert NewScope([], None) == Some(s);
  }

  lemma MainCompiles()
    ensures GenModule("m", [MainDef()]) == Some([Fun(QualifiedName("m", "main"), 0, MainCode())])
  {
    hide GenBody, MainBody, MainCode;
    BodyCompiles("m");
    var f := Fun(QualifiedName("m", "main"), 0, MainCode());
    assert GenFunction(MainDef(), "m") == Some(f);
    assert GenModule("m", []) == Some([]) && [MainDef()][1..] == [] && [f] + [] == [f];
  }

  lemma AddYSize()
    ensures JumpOver(AddYCode()) == Some(12)
  {
    var c := AddYCode();
    assert c[1..][1..][1..][1..] == [];
    assert ByteSizeOf(c[1..][1..][1..]) == 1;
    assert ByteSizeOf(c[1..][1..]) == 5;
    assert ByteSizeOf(c[1..]) == 8;
  }

  // ---------- the limits of the format ----------

  function MainFun(): Fun {
    Fun(QualifiedName("m", "main"), 0, MainCode())
  }

  lemma MainName()
    ensures Full(MainFun()) == [109, 46, 109, 97, 105, 110, 92, 48] && NameOk(Full(MainFun()))
  {
    assert QualifiedName("m", "main") == [109, 46, 109, 97, 105, 110];
    assert Decimal(0) == [48];
  }

  lemma MainPools()
    ensures ModuleNames([MainFun()], []) == [Full(MainFun())] && ModuleStrings([MainFun()], []) == []
  {
    MainNamesNothing();
    hide Full, MainCode;
    var full, code := Full(MainFun()), MainCode();
    NothingNamed(code, [full]);
    assert Intern([], full) == [] + [full] == [full];
    assert [MainFun()][1..] == [];
    assert ModuleNames([], [full]) == [full];
  }

  lemma MainNamesNothing()
    ensures forall k :: 0 <= k < |MainCode()| ==>
              !MainCode()[k].Capture? && !MainCode()[k].Call? && !MainCode()[k].LoadString?
  {}

  /** Code that names nothing leaves the pools alone. */
  lemma {:induction false} NothingNamed(code: seq<Instr>, names: seq<Name>)
    requires forall k :: 0 <= k < |code| ==> !code[k].Capture? && !code[k].Call? && !code[k].LoadString?
    ensures NamesAfterAll(code, names) == names && StringsAfterAll(code, []) == []
  {
    if code != [] { NothingNamed(code[1..], names); }
  }

  lemma MainCodeOk()
    ensures CodeOk(MainCode())
  {
    assert CodeOk(AddYCode()) && CodeOk(IfCode());
  }

  lemma MainFits()
    ensures Generated(Module("m", [MainDef()]))
    ensures PoolOk(ModuleNames(GenModule("m", [MainDef()]).value, []))
    ensures PoolOk(ModuleStrings(GenModule("m", [MainDef()]).value, []))
  {
    hide GenModule, Full, ModuleNames, ModuleStrings, NameOk;
    MainCompiles();
    MainName();
    MainPools();
    MainCodeOk();
    hide MainCode, CodeOk;
    assert FunOk(MainFun());
    var funs := [MainFun()];
    assert ModuleOk(funs) && DistinctFuns(funs);
    assert PoolOk([Full(MainFun())]);
  }

  // ---------- what it means ----------

  lemma EvalTwo(p: Program, k: nat, mod: string, env: seq<Binding>, a: Expr, b: Expr, u: Val, v: Val)
    requires Eval(p, k, mod, env, a) == Some(u) && Eval(p, k, mod, env, b) == Some(v)
    ensures EvalArgs(p, k, mod, env, [a, b]) == Some([u, v]) && EvalArgs(p, k, mod, env, [b]) == Some([v])
  {
    hide Eval;
    assert [b][1..] == [] && [a, b][1..] == [b];
    assert EvalArgs(p, k, mod, env, []) == Some([]);
    assert [v] + [] == [v] && [u] + [v] == [u, v];
  }

  /** The closure applied to 2. */
  lemma AddYMeans(p: Program, k: nat, mod: string, env: seq<Binding>)
    requires env == [Binding("y", IntVal(40))]
    ensures CallVal(p, k, ClosureVal(mod, ["x"], AddY(), env), [IntVal(2)]) == Some(IntVal(42))
  {
    var all := env + Bind(["x"], [IntVal(2)]);
    assert all == [Binding("y", IntVal(40)), Binding("x", IntVal(2))];
    assert "x" != "y" && all[..1] == env && env[..0] == [];
    assert Lookup(all, "x") == Some(IntVal(2)) && Lookup(env, "y") == Some(IntVal(40))
        && Lookup(all, "y") == Some(IntVal(40));
    EvalTwo(p, k, mod, all, Ident("x"), Ident("y"), IntVal(2), IntVal(40));
    assert Eval(p, k, mod, all, AddY()[0]) == Some(IntVal(42));
    assert EvalItem(p, k, mod, all, AddY()[0]) == Some(IntVal(42));
    assert EvalBody(p, k, mod, all, AddY()) == Some(IntVal(42));
  }

  lemma ItemsLet(p: Program, k: nat, mod: string, env: seq<Binding>, name: string, right: Expr, rest: seq<Expr>,
      v: Val, r: Val)
    requires Eval(p, k, mod, env, right) == Some(v) && rest != []
    requires EvalItems(p, k, mod, env + [Binding(name, v)], rest) == Some(r)
    ensures EvalItems(p, k, mod, env, [Let(name, right)] + rest) == Some(r)
  {
    hide Eval;
    assert ([Let(name, right)] + rest)[1..] == rest;
  }

  lemma ItemsLast(p: Program, k: nat, mod: string, env: seq<Binding>, e: Expr, r: Val)
    requires !e.Let? && EvalItem(p, k, mod, env, e) == Some(r)
    ensures EvalItems(p, k, mod, env, [e]) == EvalBody(p, k, mod, env, [e]) == Some(r)
  {
    hide EvalItem;
  }

  /** The closure that g is bound to. */
  function GVal(): Val {
    ClosureVal("m", ["x"], AddY(), [Binding("y", IntVal(40))])
  }

  lemma IfMeans(p: Program, env: seq<Binding>)
    requires env == [Binding("y", IntVal(40)), Binding("g", GVal())]
    ensures EvalItems(p, 1, "m", env, [If(TrueLit, CallG(), [IntLit(0)])]) == Some(IntVal(42))
  {
    var i := If(TrueLit, CallG(), [IntLit(0)]);
    assert env[|env| - 1].name == "g" && Lookup(env, "g") == Some(GVal());
    AddYMeans(p, 0, "m", [Binding("y", IntVal(40))]);
    EvalTwo(p, 1, "m", env, IntLit(2), IntLit(2), IntVal(2), IntVal(2));
    CallMeans(p, "m", env, GVal());
    hide CallVal, EvalArgs, Lookup, GVal;
    assert EvalItem(p, 1, "m", env, CallG()[0]) == Some(IntVal(42));
    ItemsLast(p, 1, "m", env, CallG()[0], IntVal(42));
    assert CallG() == [CallG()[0]];
    assert EvalItem(p, 1, "m", env, i) == Some(IntVal(42));
    ItemsLast(p, 1, "m", env, i, IntVal(42));
  }

  lemma BodyMeans42(p: Program)
    ensures EvalBody(p, 1, "m", [], MainBody()) == Some(IntVal(42))
  {
    var items, env := MainBody(), [Binding("y", IntVal(40))];
    IfMeans(p, env + [Binding("g", GVal())]);
    assert Eval(p, 1, "m", env, Lambda(["x"], AddY())) == Some(GVal());
    assert Eval(p, 1, "m", [], IntLit(40)) == Some(IntVal(40));
    hide Eval, EvalItem, GVal, AddY, CallG;
    ItemsLet(p, 1, "m", env, "g", Lambda(["x"], AddY()), [items[2]], GVal(), IntVal(42));
    assert [] + env == env;
    ItemsLet(p, 1, "m", [], "y", IntLit(40), [items[1]] + [items[2]], IntVal(40), IntVal(42));
    assert [items[0]] + ([items[1]] + [items[2]]) == items;
  }

  lemma MainMeans42(p: Program)
    requires p.defs == DefsOf("m", [MainDef()])
    ensures FullOfDef("m", MainDef()) in p.defs
    ensures CallVal(p, 1, FnVal(FullOfDef("m", MainDef())), []) == Some(IntVal(42))
  {
    hide MainBody, FullName, QualifiedName;
    assert p.defs[FullOfDef("m", MainDef())] == ("m", MainDef());
    assert Bind([], []) == [];
    BodyMeans42(p);
    hide EvalBody;
  }

  lemma CallMeans(p: Program, mod: string, env: seq<Binding>, g: Val)
    requires Lookup(env, "g") == Some(g) && EvalArgs(p, 1, mod, env, [IntLit(2)]) == Some([IntVal(2)])
    requires CallVal(p, 0, g, [IntVal(2)]) == Some(IntVal(42))
    ensures Eval(p, 1, mod, env, CallG()[0]) == Some(IntVal(42))
  {
    hide EvalArgs, CallVal, Lookup;
  }

  // ---------- all together ----------

  lemma BlockLet(name: string, right: Expr, rest: seq<Expr>, v: Sight, captures: bool)
    requires BlockOk(rest, Behind(v, Let(name, right)), captures)
    requires rest != [] && name !in v.globals && Simple(right, v, captures)
    ensures BlockOk([Let(name, right)] + rest, v, captures)
  {
    hide Simple, Behind;
    assert ([Let(name, right)] + rest)[1..] == rest;
  }

  lemma BlockLast(e: Expr, v: Sight, captures: bool)
    requires !e.Let? && !e.If? && Simple(e, v, captures)
    ensures BlockOk([e], v, captures)
  {
    hide Simple, Behind;
  }

  lemma IfInFragment(v: Sight)
    requires "g" in v.locals && !v.nested && v.globals == {}
    ensures BlockOk([If(TrueLit, CallG(), [IntLit(0)])], v, true)
  {
    assert [IntLit(2)][1..] == [];
    assert AllSimple([], v, false) && AllSimple([IntLit(2)], v, false);
    assert Simple(CallG()[0], v, false);
    BlockLast(CallG()[0], v, false);
    BlockLast(IntLit(0), v, false);
    assert CallG() == [CallG()[0]];
  }

  lemma MainInFragment()
    ensures InFragment([MainDef()], {})
  {
    var v, items := Entry({}, [], {}, false), MainBody();
    var v1 := Behind(v, items[0]);
    var v2 := Behind(v1, items[1]);
    assert "y" in v1.locals && "g" in v2.locals;
    AddYInFragment(v1);
    IfInFragment(v2);
    assert Simple(items[0].right, v, true);
    assert !v.nested && v1.globals == {} && v.globals == {};
    hide Simple, BlockOk, Behind, CallG, AddY;
    BlockLet("g", Lambda(["x"], AddY()), [items[2]], v1, true);
    BlockLet("y", IntLit(40), [items[1]] + [items[2]], v, true);
    assert [items[0]] + ([items[1]] + [items[2]]) == items;
  }

  lemma AddYInFragment(v: Sight)
    requires "y" in v.locals && !v.nested && v.globals == {}
    ensures Simple(Lambda(["x"], AddY()), v, true)
  {
    var inner := Entry(v.locals, ["x"], v.globals, true);
    var es := [Ident("x"), Ident("y")];
    assert "x" in ["x"] && "x" in inner.locals && "y" in inner.locals;
    assert es[1..] == [Ident("y")] && es[1..][1..] == [];
    assert AllSimple([], inner, false);
    assert !HasCall(es[0]) && AllSimple(es[1..], inner, false);
    assert AllSimple(es, inner, false);
    assert Simple(AddY()[0], inner, false) && AddY()[1..] == [];
    assert BlockOk(AddY(), inner, false);
  }

  /** A cell that stands for 42 holds 42. */
  lemma Holds42(w: World, c: Cells.Cell, x: Value)
    requires EndToEnd.Means(w, IntVal(42), c, x)
    ensures c == Cells.IntC(42)
  {}

  /** The program is compiled, loaded and run, and gives what it means. */
  method RunMain() returns (c: Cells.Cell)
    ensures c == Cells.IntC(42)
  {
    hide GenModule, LoadAll, Steps, Loadable, InFragment, CallVal, EndToEnd.Started, FullOfDef, DefsOf, Id, MainDef,
      EndToEnd.Means, Fresh, Shape, CellSteps.UnsafeAt, EndToEnd.NeverUnsafe, EndToEnd.EndsWith, ModuleNames,
      ModuleStrings, AllDefs, Generated;
    var mods := [Module("m", [MainDef()])];
    ghost var full := FullOfDef("m", MainDef());
    MainFits();
    MainInFragment();
    OneModule(Module("m", [MainDef()]), {});
    MainMeans42(ProgramOf(mods, false));
    MainMeans42(ProgramOf(mods, true));
    var result;
    ghost var x, n;
    result, x, n := EndToEnd.RunProgram(mods, FullOfDef("m", MainDef()), {}, 1);
    ghost var loaded := LoadAll(mods).value;
    ghost var m := EndToEnd.Started(loaded, Id(loaded.names, full), false);
    Holds42(World(m, loaded.names, ProgramOf(mods, false), {}), result.value, x);
    c := result.value;
  }
}
