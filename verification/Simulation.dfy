/**
 Compiler correctness: running the loaded bytes of an expression ends just behind
 them with the expression's value in the destination register.
 */
module Simulation {
  import opened Seqs
  import opened Ast
  import opened Bytecode
  import opened Loader
  import opened Decode
  import opened Vm
  import opened Codegen
  import opened Scopes
  import opened Semantics
  import opened Relation
  import opened Fragment
  import opened Frames

  /** The loaded code of a named function, with a body of the fragment. */
  ghost predicate FunctionAt(w: World, full: Name)
    requires full in w.p.defs
  {
    var (mod, def) := w.p.defs[full];
    var b := GenBody(def.params, def.body, None, mod);
    && full in w.names && Id(w.names, full) in w.m.functions
    && b.Some? && CodeAt(w, w.m.functions[Id(w.names, full)], b.value.code)
    && (forall x :: x in def.params ==> x !in w.globals)
    && BlockOk(def.body, Entry({}, def.params, w.globals, false), true)
  }

  /** The machine holds the whole program. */
  ghost predicate Holding(w: World) {
    PoolOk(w.names) && w.m.checked == w.p.checked && forall full :: full in w.p.defs ==> FunctionAt(w, full)
  }

  /** What a piece of code is expected to do from `st` on. */
  ghost predicate Runs(w: World, st: State, n: nat, size: nat, limit: nat, out: nat, v: Val, called: bool) {
    Shape(st) && Steps(w.m, st, n).Some?
    && After(w, st, Steps(w.m, st, n).value, st.ip + size, limit, out, v, called)
  }

  // ---------- single instructions ----------

  lemma OneStep(w: World, st: State)
    requires Shape(st) && Step(w.m, st).Some?
    ensures Steps(w.m, st, 1) == Step(w.m, st)
  {
    StepFrames(w.m, st);
    assert Steps(w.m, Step(w.m, st).value, 0) == Step(w.m, st);
  }

  /** An instruction that stores a value. */
  lemma Stored(w: World, i: Instr, st: State, limit: nat, out: nat, v: Val, x: Value, called: bool)
    requires Shape(st) && CodeAt(w, st.ip, [i]) && Rel(w, v, x) && out < REGISTER_COUNT
    requires var next := st.ip + Size(w, [i]);
             next > 0 && Exec(w.m, Resolve(i, w.names, w.m.strings), next, st) == SetReg(st, Register(out), x, next)
    ensures Runs(w, st, 1, Size(w, [i]), limit, out, v, called)
  {
    hide Exec, Rel, CodeAt, Resolve;
    StepAt(w, i, st);
    StoresResult(w, st, out, v, x, st.ip + Size(w, [i]), limit, called);
    OneStep(w, st);
  }

  /** Literals. */
  lemma SimulateLiteral(w: World, k: nat, mod: string, vars: seq<Binding>, e: Expr, out: nat, s: Scope, st: State)
    requires e.IntLit? || e.TrueLit? || e.FalseLit? || e.NilLit? || e.StrLit?
    requires Shape(st) && (e.IntLit? ==> e.val < 250)
    requires Gen(e, out, s, mod).Some? && CodeAt(w, st.ip, Gen(e, out, s, mod).value.code)
    ensures Eval(w.p, k, mod, vars, e).Some?
    ensures Runs(w, st, 1, Size(w, Gen(e, out, s, mod).value.code), s.varCount, out, Eval(w.p, k, mod, vars, e).value,
        false)
  {
    hide Id, Runs, CodeAt, SetReg, Size, RefBytes;
    match e
    case IntLit(val) =>
      StepAt(w, StoreInt(Register(out), val), st);
      StoreIntSurvives(val);
      Stored(w, StoreInt(Register(out), val), st, s.varCount, out, IntVal(val), IntV(val), false);
    case StrLit(text) =>
      StepAt(w, LoadString(Register(out), Text(text)), st);
      IdIsPosition(w.m.strings, Text(text));
      Stored(w, LoadString(Register(out), Text(text)), st, s.varCount, out, StrVal(Text(text)), StrV(Text(text)),
          false);
    case TrueLit => SimulateConst(w, StoreTrue, st, s.varCount, out, TrueVal, True, false);
    case FalseLit => SimulateConst(w, StoreFalse, st, s.varCount, out, FalseVal, False, false);
    case NilLit => SimulateConst(w, StoreNil, st, s.varCount, out, NilVal, Nil, false);
  }

  lemma SimulateConst(w: World, op: Op, st: State, limit: nat, out: nat, v: Val, x: Value, called: bool)
    requires Shape(st) && CodeAt(w, st.ip, [Plain(op, [Register(out)])])
    requires Operands(op) == 1 && Compute(w.m.checked, op, []) == Some(x) && Rel(w, v, x)
    ensures Runs(w, st, 1, Size(w, [Plain(op, [Register(out)])]), limit, out, v, called)
  {
    hide Runs, CodeAt, SetReg, Compute, Rel, Size;
    var i := Plain(op, [Register(out)]);
    StepAt(w, i, st);
    assert [Register(out)][1..] == [];
    assert GetVars(st, []) == Some([]);
    assert RefOk([Register(out)][0]);
    Stored(w, i, st, limit, out, v, x, called);
  }

  lemma SimulateCapture(w: World, k: nat, mod: string, vars: seq<Binding>, e: Expr, out: nat, s: Scope, st: State)
    requires e.CaptureFn? && Holding(w) && Shape(st)
    requires Gen(e, out, s, mod).Some? && CodeAt(w, st.ip, Gen(e, out, s, mod).value.code)
    requires Eval(w.p, k, mod, vars, e).Some?
    ensures Runs(w, st, 1, Size(w, Gen(e, out, s, mod).value.code), s.varCount, out, Eval(w.p, k, mod, vars, e).value,
        false)
  {
    hide Id, FullName, Runs, CodeAt, SetReg, Size, BlockOk, Distinct;
    var name := QualifiedName(e.mod.GetOr(mod), e.name);
    var full := FullName(name, e.arity);
    var i := Capture(Register(out), name, e.arity);
    assert FunctionAt(w, full);
    StepAt(w, i, st);
    IdIsPosition(w.names, full);
    Stored(w, i, st, s.varCount, out, FnVal(full), FunV(w.m.functions[Id(w.names, full)], []), false);
  }

  lemma SimulateIdent(w: World, vars: seq<Binding>, sight: Sight, name: string, mod: string, out: nat, s: Scope,
      last: Scope, st: State)
    requires Ready(w, vars, sight, s, last, out, st) && name in sight.locals
    requires Gen(Ident(name), out, s, mod).Some? && CodeAt(w, st.ip, Gen(Ident(name), out, s, mod).value.code)
    requires Grown(Gen(Ident(name), out, s, mod).value.scope, last)
    ensures Runs(w, st, 1, Size(w, Gen(Ident(name), out, s, mod).value.code), s.varCount, out,
        Lookup(vars, name).value, false)
  {
    hide Runs, Rel, Search, Ready, CodeAt, Size, SetReg, GetVar, Id;
    var (found, t) := Search(s, name);
    var i := Plain(Mov, [Register(out), found.value]);
    ReadableIsBound(w, vars, sight, s, last, out, st);
    ReadsVariable(w, vars, sight, s, last, out, st, name);
    ReadyShape(w, vars, sight, s, last, out, st);
    StepAt(w, i, st);
    assert [Register(out), found.value][1..] == [found.value];
    OneVar(st, found.value);
    Stored(w, i, st, s.varCount, out, Lookup(vars, name).value, GetVar(st, found.value).value, false);
  }

  lemma ReadyShape(w: World, vars: seq<Binding>, sight: Sight, s: Scope, last: Scope, out: nat, st: State)
    requires Ready(w, vars, sight, s, last, out, st)
    ensures Shape(st) && ScopeOk(s)
  {}

  lemma OneVar(st: State, v: VarRef)
    requires Shape(st) && GetVar(st, v).Some?
    ensures GetVars(st, [v]) == Some([GetVar(st, v).value])
  {
    var none: seq<Value> := [];
    assert [v][..0] == [];
    assert GetVars(st, []) == Some(none);
    assert none + [GetVar(st, v).value] == [GetVar(st, v).value];
  }

  // ---------- sequences ----------

  lemma AfterTrans(w: World, st: State, u: State, t: State, ip: nat, limit: nat, limit': nat, out: nat, v: Val,
      second: bool, called: bool)
    requires Keeps(st, u, limit, out) && (!called ==> u.upvals == st.upvals)
    requires After(w, u, t, ip, limit', out, v, second) && limit <= limit' && (second ==> called)
    ensures After(w, st, t, ip, limit, out, v, called)
  {
    hide Rel;
    KeepsWeaken(u, t, limit', out, limit, out);
    KeepsTrans(st, u, t, limit, out);
  }

  /** A run after `a` steps that kept the variables. */
  lemma RunsOn(w: World, st: State, a: nat, b: nat, sizeB: nat, size: nat, limit: nat, limit': nat, out: nat, v: Val,
      second: bool, called: bool)
    requires Shape(st) && Steps(w.m, st, a).Some?
    requires var u := Steps(w.m, st, a).value;
             && Keeps(st, u, limit, out) && (!called ==> u.upvals == st.upvals)
             && Runs(w, u, b, sizeB, limit', out, v, second) && u.ip + sizeB == st.ip + size
    requires limit <= limit' && (second ==> called)
    ensures Runs(w, st, a + b, size, limit, out, v, called)
  {
    hide Rel;
    StepsAdd(w.m, st, a, b);
    var u := Steps(w.m, st, a).value;
    AfterTrans(w, st, u, Steps(w.m, u, b).value, st.ip + size, limit, limit', out, v, second, called);
  }

  /** Back from a run to what the next one needs. */
  lemma RunsEnd(w: World, st: State, n: nat, size: nat, limit: nat, out: nat, v: Val, called: bool)
    requires Runs(w, st, n, size, limit, out, v, called)
    ensures Shape(st) && Steps(w.m, st, n).Some?
    ensures var t := Steps(w.m, st, n).value;
            && Keeps(st, t, limit, out) && t.ip == st.ip + size && t.current == st.current
            && out < REGISTER_COUNT && Rel(w, v, Regs(t)[out]) && (!called ==> t.upvals == st.upvals)
  {}

  // ---------- branches ----------

  ghost function ElseSize(w: World, t: seq<Instr>, f: seq<Instr>): nat {
    Size(w, f) + if Size(w, t) > 0 then 2 else 0
  }

  /** Every jump of a branch lands on an instruction: on the then-branch, or just
      behind the whole. */
  lemma BranchLayout(w: World, ip: nat, reg: nat, t: seq<Instr>, f: seq<Instr>)
    requires Branch(reg, t, f).Some? && NoCapture(t) && NoCapture(f)
    requires CodeAt(w, ip, Branch(reg, t, f).value)
    ensures CodeAt(w, ip, [Test(Register(reg), ElseSize(w, t, f) + 1)]) && CodeAt(w, ip + 3, f)
    ensures CodeAt(w, ip + 3 + ElseSize(w, t, f), t)
    ensures Size(w, Branch(reg, t, f).value) == 3 + ElseSize(w, t, f) + Size(w, t)
    ensures Size(w, t) > 0 ==> CodeAt(w, ip + 3 + Size(w, f), [Jmp(Size(w, t) + 1)])
  {
    hide HoldsAt, LoadedAll, CodeAt, Size;
    var b := Branch(reg, t, f).value;
    var els := if ByteSizeOf(t) > 0 then f + [Jmp(JumpOver(t).value)] else f;
    var test := [Test(Register(reg), JumpOver(els).value)];
    assert b == test + (els + t);
    CodeParts(w, ip, test, els + t);
    SizeOfOne(w);
    CodeParts(w, ip + 3, els, t);
    CodeIsOk(w, ip + 3, els);
    CodeIsOk(w, ip + 3 + Size(w, els), t);
    assert NoCapture(els);
    SizeIsByteSize(w, els);
    SizeIsByteSize(w, t);
    if ByteSizeOf(t) > 0 {
      CodeParts(w, ip + 3, f, [Jmp(JumpOver(t).value)]);
    }
  }

  lemma CodeIsOk(w: World, ip: nat, code: seq<Instr>)
    requires CodeAt(w, ip, code)
    ensures CodeOk(code)
  {}

  lemma SizeOfOne(w: World)
    ensures forall v: VarRef, j: nat :: Size(w, [Test(v, j)]) == 3
    ensures forall j: nat :: Size(w, [Jmp(j)]) == 2
    ensures Size(w, [Return]) == 1 && Size(w, []) == 0
  {
    forall v: VarRef, j: nat ensures Size(w, [Test(v, j)]) == 3 {
      assert LoadedAll([Test(v, j)], w.names, w.m.strings)
          == LoadedBytes(Test(v, j), w.names, w.m.strings) + LoadedAll([], w.names, w.m.strings);
    }
    forall j: nat ensures Size(w, [Jmp(j)]) == 2 {
      assert LoadedAll([Jmp(j)], w.names, w.m.strings)
          == LoadedBytes(Jmp(j), w.names, w.m.strings) + LoadedAll([], w.names, w.m.strings);
    }
    assert LoadedAll([Return], w.names, w.m.strings)
        == LoadedBytes(Return, w.names, w.m.strings) + LoadedAll([], w.names, w.m.strings);
  }

  /** The test takes the then-branch exactly on a true value. */
  lemma TestStep(w: World, st: State, reg: nat, t: seq<Instr>, f: seq<Instr>, v: Val)
    requires Branch(reg, t, f).Some? && NoCapture(t) && NoCapture(f)
    requires CodeAt(w, st.ip, Branch(reg, t, f).value)
    requires Shape(st) && reg < REGISTER_COUNT && Rel(w, v, Regs(st)[reg])
    ensures Steps(w.m, st, 1) == Some(st.(ip := if Truth(v) then st.ip + 3 + ElseSize(w, t, f) else st.ip + 3))
  {
    hide CodeAt, Size, Rel, Branch, Steps;
    BranchLayout(w, st.ip, reg, t, f);
    var i := Test(Register(reg), ElseSize(w, t, f) + 1);
    SizeOfOne(w);
    StepAt(w, i, st);
    RelTruth(w, v, Regs(st)[reg]);
    OneStep(w, st);
  }

  /** From the end of the else-branch to the end of the whole. */
  lemma ElseEnd(w: World, ip: nat, reg: nat, t: seq<Instr>, f: seq<Instr>, u: State) returns (n: nat)
    requires Branch(reg, t, f).Some? && NoCapture(t) && NoCapture(f)
    requires CodeAt(w, ip, Branch(reg, t, f).value)
    requires Shape(u) && u.ip == ip + 3 + Size(w, f)
    ensures Steps(w.m, u, n) == Some(u.(ip := ip + Size(w, Branch(reg, t, f).value)))
  {
    hide CodeAt, Size, Branch, Steps;
    BranchLayout(w, ip, reg, t, f);
    if Size(w, t) > 0 {
      SizeOfOne(w);
      StepAt(w, Jmp(Size(w, t) + 1), u);
      OneStep(w, u);
      n := 1;
    } else {
      n := 0;
      NoSteps(w, u);
      assert u.(ip := u.ip) == u;
    }
  }

  lemma NoSteps(w: World, u: State)
    requires Shape(u)
    ensures Steps(w.m, u, 0) == Some(u)
  {}

  // ---------- operands ----------

  /** The arguments are in the registers behind `base`. */
  ghost predicate ArgsDone(w: World, st: State, t: State, size: nat, base: nat, vals: seq<Val>, called: bool) {
    && Keeps(st, t, base, base + 1) && t.ip == st.ip + size && (!called ==> t.upvals == st.upvals)
    && forall i :: 0 <= i < |vals| ==> InRegister(w, t, base + 1 + i, vals[i])
  }

  ghost predicate InRegister(w: World, t: State, reg: nat, v: Val)
    requires Shape(t)
  {
    reg < REGISTER_COUNT && Rel(w, v, Regs(t)[reg])
  }

  /** The popped registers hold the arguments. */
  lemma PoppedArgs(w: World, st: State, t: State, size: nat, base: nat, vals: seq<Val>, called: bool, s: Scope)
      returns (xs: seq<Value>)
    requires ArgsDone(w, st, t, size, base, vals, called) && s.varCount == base + |vals|
    ensures forall upvals :: GetVars(t.(upvals := upvals), Popped(s, |vals|).0) == Some(xs)
    ensures GetVars(t, Popped(s, |vals|).0) == Some(xs) && RelAll(w, vals, xs)
    ensures |vals| < REGISTER_COUNT
  {
    hide Rel, GetVars, Keeps;
    assert Shape(t) by { KeepsShape(st, t, base, base + 1); }
    var n := |vals|;
    if n > 0 {
      assert InRegister(w, t, base + 1 + (n - 1), vals[n - 1]);
    }
    var refs: seq<VarRef> := seq(n, i requires 0 <= i < n => Register(base + 1 + i));
    assert Popped(s, n).0 == refs;
    xs := ReadsRegisters(t, base, n);
    forall upvals ensures GetVars(t.(upvals := upvals), refs) == Some(xs) {
      var ys := ReadsRegisters(t.(upvals := upvals), base, n);
      assert ys == xs;
    }
    forall i | 0 <= i < n ensures Rel(w, vals[i], xs[i]) {
      assert InRegister(w, t, base + 1 + i, vals[i]);
      assert xs[i] == Regs(t)[base + 1 + i];
    }
  }

  lemma KeepsShape(st: State, t: State, limit: nat, out: nat)
    requires Keeps(st, t, limit, out)
    ensures Shape(st) && Shape(t)
  {}

  /** Building a tuple or list from its elements. */
  lemma SimulateMake(w: World, tuple: bool, out: nat, vals: seq<Val>, s: Scope, st: State, t: State, size: nat,
      base: nat, called: bool)
    requires ArgsDone(w, st, t, size, base, vals, called) && s.varCount == base + |vals|
    requires var locs := Popped(s, |vals|).0;
             var i := if tuple then MakeTuple(Register(out), |vals|, locs) else MakeList(Register(out), |vals|, locs);
             CodeAt(w, t.ip, [i])
    ensures var locs := Popped(s, |vals|).0;
            var i := if tuple then MakeTuple(Register(out), |vals|, locs) else MakeList(Register(out), |vals|, locs);
            Runs(w, t, 1, Size(w, [i]), base, out, if tuple then TupleVal(vals) else ListVal(vals, false), called)
  {
    hide Rel, GetVars, CodeAt, Size, Runs, Keeps, ArgsDone, Popped, SetReg;
    var xs := PoppedArgs(w, st, t, size, base, vals, called, s);
    var locs := Popped(s, |vals|).0;
    ArgsShape(w, st, t, size, base, vals, called);
    RelOfList(w, vals, xs, false);
    var i := if tuple then MakeTuple(Register(out), |vals|, locs) else MakeList(Register(out), |vals|, locs);
    StepAt(w, i, t);
    Stored(w, i, t, base, out, if tuple then TupleVal(vals) else ListVal(vals, false), if tuple then TupleV(xs)
        else ListV(xs, false), called);
  }

  lemma ArgsShape(w: World, st: State, t: State, size: nat, base: nat, vals: seq<Val>, called: bool)
    requires ArgsDone(w, st, t, size, base, vals, called)
    ensures Shape(st) && Shape(t) && t.ip == st.ip + size && t.current == st.current
    ensures Keeps(st, t, base, base + 1) && (!called ==> t.upvals == st.upvals)
  {}

  /** An operator on its arguments. */
  lemma SimulateOperator(w: World, callee: Option<string>, name: string, out: nat, vals: seq<Val>, s: Scope, s1: Scope,
      mod: string, st: State, t: State, size: nat, base: nat, called: bool)
    requires ArgsDone(w, st, t, size, base, vals, called) && s.varCount == base + |vals|
    requires w.m.checked == w.p.checked && Operate(w.p.checked, name, vals).Some?
    requires ApplyOp(callee, name, out, Popped(s, |vals|).0, s1, mod).Some?
    requires CodeAt(w, t.ip, ApplyOp(callee, name, out, Popped(s, |vals|).0, s1, mod).value.code)
    ensures var code := ApplyOp(callee, name, out, Popped(s, |vals|).0, s1, mod).value.code;
            Runs(w, t, 1, Size(w, code), base, out, Operate(w.p.checked, name, vals).value, called)
  {
    hide Rel, GetVars, CodeAt, Size, Runs, Keeps, ArgsDone, Popped, SetReg, Compute, Operate, Primitive, Operands;
    var xs := PoppedArgs(w, st, t, size, base, vals, called, s);
    var locs := Popped(s, |vals|).0;
    ArgsShape(w, st, t, size, base, vals, called);
    ComputesOperator(w, w.m.checked, name, vals, xs);
    var (op, n, ret) := Primitive(name).value;
    GetVarsPrefix(t, locs, n);
    var args := [Register(out)] + locs[..n];
    assert args[1..] == locs[..n];
    var i := Plain(op, args);
    StepAt(w, i, t);
    assert RefOk(args[0]);
    Stored(w, i, t, base, out, Operate(w.p.checked, name, vals).value, Compute(w.m.checked, op, xs[..n]).value, called);
  }

  // ---------- calls ----------

  /** The machine has just entered a function with these arguments. */
  ghost predicate Entered(t: State, u: State, location: nat, upvals: seq<Value>, next: nat, out: nat, xs: seq<Value>) {
    && Shape(t) && Shape(u) && u.ip == location && u.current == t.current + 1 && u.upvals == upvals
    && (forall j :: 0 <= j < STACK_DEPTH && j != u.current ==> u.frames[j] == t.frames[j])
    && u.frames[u.current].retAddress == next && u.frames[u.current].retRegister == out
    && |xs| < REGISTER_COUNT && forall i :: 0 <= i < |xs| ==> Regs(u)[1 + i] == xs[i]
  }

  lemma EnterGives(t: State, location: nat, upvals: seq<Value>, out: nat, args: seq<VarRef>, next: nat,
      xs: seq<Value>) returns (u: State)
    requires Shape(t) && t.current + 1 < STACK_DEPTH && |args| < REGISTER_COUNT
    requires GetVars(t.(upvals := upvals), args) == Some(xs)
    ensures Enter(t, location, upvals, Register(out), args, next) == Some(u)
    ensures Entered(t, u, location, upvals, next, out, xs)
  {
    hide GetVar;
    u := Enter(t, location, upvals, Register(out), args, next).value;
  }

  /** The callee has returned v. */
  ghost predicate Returned(w: World, u: State, t: State, v: Val) {
    && Shape(u) && Shape(t) && u.current == t.current + 1
    && t.ip == u.frames[u.current].retAddress
    && (forall j :: 0 <= j < t.current ==> t.frames[j] == u.frames[j])
    && var to := u.frames[u.current].retRegister;
       to < REGISTER_COUNT && Rel(w, v, Regs(t)[to])
       && t.frames[t.current] == u.frames[t.current].(regs := u.frames[t.current].regs[to := Regs(t)[to]])
  }

  /** A finished body returns its register 0. */
  lemma ReturnStep(w: World, u: State, t: State, limit: nat, v: Val, called: bool) returns (r: State)
    requires After(w, u, t, t.ip, limit, 0, v, called) && CodeAt(w, t.ip, [Return])
    requires u.current >= 1 && u.frames[u.current].retRegister < REGISTER_COUNT
    ensures Steps(w.m, t, 1) == Some(r) && Returned(w, u, r, v)
  {
    hide CodeAt, Rel, Steps;
    StepAt(w, Return, t);
    r := Leave(t, NoRegisters()).value;
    OneStep(w, t);
  }

  /** Entering, running and returning amount to storing a value. */
  lemma CallDone(w: World, t: State, u: State, r: State, location: nat, upvals: seq<Value>, size: nat, out: nat,
      xs: seq<Value>, v: Val, limit: nat)
    requires Entered(t, u, location, upvals, t.ip + size, out, xs) && Returned(w, u, r, v)
    ensures After(w, t, r, t.ip + size, limit, out, v, true)
  {
    hide Rel;
  }

  /** The values of parameters and of the names they hide or leave visible. */
  lemma {:induction false} BindLookup(env: seq<Binding>, params: seq<string>, vals: seq<Val>, x: string)
    requires |params| == |vals|
    ensures x in params ==> x in ParamEnv(params) && ParamEnv(params)[x].Register?
                            && 1 <= ParamEnv(params)[x].reg <= |params|
                            && Lookup(env + Bind(params, vals), x) == Some(vals[ParamEnv(params)[x].reg - 1])
    ensures x !in params ==> Lookup(env + Bind(params, vals), x) == Lookup(env, x)
    decreases |params|
  {
    hide Names;
    var all := env + Bind(params, vals);
    if params == [] {
      assert all == env;
    } else {
      var n := |params| - 1;
      var front := env + Bind(params[..n], vals[..n]);
      assert all[..|all| - 1] == front;
      assert all[|all| - 1] == Binding(params[n], vals[n]);
      assert x in params <==> x in params[..n] || x == params[n];
      BindLookup(env, params[..n], vals[..n], x);
      assert Lookup(all, x) == if x == params[n] then Some(vals[n]) else Lookup(front, x);
    }
  }

  lemma BindNames(env: seq<Binding>, params: seq<string>, vals: seq<Val>)
    requires |params| == |vals|
    ensures Names(env + Bind(params, vals)) == Names(env) + (set x | x in params)
  {
    var b := Bind(params, vals);
    forall x | x in Names(env) ensures x in Names(env + b) {
      var c :| c in env && c.name == x;
      assert c in env + b;
    }
    forall x | x in params ensures x in Names(env + b) {
      var i :| 0 <= i < |params| && params[i] == x;
      assert b[i] in env + b;
    }
    forall x | x in Names(env + b) ensures x in Names(env) || x in params {
      var c :| c in env + b && c.name == x;
      if c !in env { assert c in b; }
    }
  }

  /** At the start of a function its parameters are in registers, and the captured
      names in its upvalues. */
  lemma BodyReady(w: World, env: seq<Binding>, params: seq<string>, vals: seq<Val>, par: Option<Scope>, last: Scope,
      u: State)
    requires |params| == |vals| < REGISTER_COUNT && NewScope(params, par).Some?
    requires par.Some? ==> ScopeOk(par.value) && Visible(env, par.value, w.globals)
    requires par.None? ==> env == []
    requires forall x :: x in params ==> x !in w.globals
    requires Shape(u) && forall i :: 0 <= i < |vals| ==> Rel(w, vals[i], Regs(u)[1 + i])
    requires forall x :: x in Names(env) ==> Holds(w, x, Lookup(env, x).value, map[], last, u)
    requires (last.parent.Some? <==> par.Some?) && (par.Some? ==> |u.upvals| == |last.upvals|)
    ensures Ready(w, env + Bind(params, vals), Entry(Names(env), params, w.globals, par.Some?),
        NewScope(params, par).value, last, 0, u)
  {
    hide Rel;
    var s, all := NewScope(params, par).value, env + Bind(params, vals);
    ParamsAreRegisters(params);
    BindNames(env, params, vals);
    forall x | x in Names(all) ensures Exists(s, x) && Holds(w, x, Lookup(all, x).value, s.env, last, u) {
      BindLookup(env, params, vals, x);
      if x in params {
        assert Rel(w, vals[s.env[x].reg - 1], Regs(u)[1 + (s.env[x].reg - 1)]);
      } else {
        assert Holds(w, x, Lookup(env, x).value, map[], last, u);
      }
    }
  }

  // ---------- the simulation ----------

  /** What the simulation starts from: the program is loaded, the variables are in
      place, and `k` frames are left. */
  ghost predicate Setting(w: World, k: nat, vars: seq<Binding>, sight: Sight, s: Scope, last: Scope, out: nat,
      st: State) {
    Holding(w) && Ready(w, vars, sight, s, last, out, st) && st.current + k < STACK_DEPTH
  }

  lemma SettingParts(w: World, k: nat, vars: seq<Binding>, sight: Sight, s: Scope, last: Scope, out: nat, st: State)
    requires Setting(w, k, vars, sight, s, last, out, st)
    ensures Holding(w) && Ready(w, vars, sight, s, last, out, st) && st.current + k < STACK_DEPTH
    ensures Shape(st) && ScopeOk(s) && out <= s.varCount
  {}

  /** The setting after a piece of code. */
  lemma SettingNext(w: World, k: nat, vars: seq<Binding>, sight: Sight, s: Scope, s': Scope, last: Scope, out: nat,
      st: State, t: State, called: bool)
    requires Setting(w, k, vars, sight, s, last, out, st) && Evolves(s, s') && Adds(s, s', w.globals)
    requires Keeps(st, t, s.varCount, out) && (!called ==> t.upvals == st.upvals)
    ensures Setting(w, k, vars, Later(sight, called), s', last, out, t)
  {
    hide Ready, Evolves, Adds, Holding;
    ReadyNext(w, vars, sight, s, s', last, out, st, t, called);
    assert t.current == st.current;
  }

  lemma SettingPushed(w: World, k: nat, vars: seq<Binding>, sight: Sight, s: Scope, last: Scope, out: nat, st: State)
    requires Setting(w, k, vars, sight, s, last, out, st) && Push(s).Some?
    ensures Setting(w, k, vars, sight, Push(s).value, last, Push(s).value.varCount, st)
  {
    hide Ready, Holding;
    ReadyPushed(w, vars, sight, s, last, out, st);
  }

  /** An expression in argument position adds no names. */
  lemma AddsNothing(s: Scope, t: Scope, globals: set<string>)
    requires t.env == s.env && t.varCount == s.varCount
    ensures Adds(s, t, globals)
  {}

  lemma {:induction false} SimulateExpr(w: World, k: nat, mod: string, vars: seq<Binding>, e: Expr, sight: Sight,
      captures: bool, out: nat, s: Scope, last: Scope, st: State) returns (n: nat)
    requires Setting(w, k, vars, sight, s, last, out, st) && Simple(e, sight, captures)
    requires Gen(e, out, s, mod).Some? && CodeAt(w, st.ip, Gen(e, out, s, mod).value.code)
    requires Grown(Gen(e, out, s, mod).value.scope, last)
    requires Eval(w.p, k, mod, vars, e).Some?
    ensures Runs(w, st, n, Size(w, Gen(e, out, s, mod).value.code), s.varCount, out, Eval(w.p, k, mod, vars, e).value,
        HasCall(e))
    decreases k, 0, e, 3
  {
    hide *;
    SettingParts(w, k, vars, sight, s, last, out, st);
    OnlyCallsCall(e);
    match e
    case Ident(name) =>
      ReadableIsBound(w, vars, sight, s, last, out, st);
      IdentIsVariable(w, k, mod, sight, vars, e, captures);
      SimulateIdent(w, vars, sight, name, mod, out, s, last, st);
      n := 1;
    case CaptureFn(_, _, _) =>
      SimulateCapture(w, k, mod, vars, e, out, s, st);
      n := 1;
    case Apply(callee, name, args) =>
      if name == "&&" || name == "||" {
        n := SimulateShort(w, k, mod, vars, e, sight, captures, out, s, last, st);
      } else {
        n := SimulateApply(w, k, mod, vars, e, sight, captures, out, s, last, st);
      }
    case TupleLit(elems) => n := SimulateElems(w, k, mod, vars, e, sight, captures, out, s, last, st);
    case ListLit(elems) => n := SimulateElems(w, k, mod, vars, e, sight, captures, out, s, last, st);
    case Lambda(params, body) =>
      SimulateLambda(w, k, mod, vars, e, sight, captures, out, s, last, st);
      n := 1;
    case Let(_, _) => NoLets(e, sight, captures);
    case If(_, _, _) => NoLets(e, sight, captures);
    case _ =>
      IntsAreSmall(e, sight, captures);
      SimulateLiteral(w, k, mod, vars, e, out, s, st);
      n := 1;
  }

  lemma OnlyCallsCall(e: Expr)
    ensures HasCall(e) ==> e.Apply? || e.TupleLit? || e.ListLit? || e.Let? || e.If?
  {}

  lemma ReadableIsBound(w: World, vars: seq<Binding>, sight: Sight, s: Scope, last: Scope, out: nat, st: State)
    requires Ready(w, vars, sight, s, last, out, st)
    ensures (forall x :: x in sight.locals ==> x in Names(vars)) && sight.globals == w.globals
  {}

  lemma IdentIsVariable(w: World, k: nat, mod: string, sight: Sight, vars: seq<Binding>, e: Expr, captures: bool)
    requires (forall x :: x in sight.locals ==> x in Names(vars)) && e.Ident? && Simple(e, sight, captures)
    ensures e.name in sight.locals && !HasCall(e) && Eval(w.p, k, mod, vars, e) == Lookup(vars, e.name)
  {}

  lemma NoLets(e: Expr, sight: Sight, captures: bool)
    requires Simple(e, sight, captures)
    ensures !e.Let? && !e.If?
  {}

  lemma IntsAreSmall(e: Expr, sight: Sight, captures: bool)
    requires Simple(e, sight, captures)
    ensures e.IntLit? ==> e.val < 250
  {}

  // ---------- operands and short circuits ----------

  lemma {:induction false} SimulateArgs(w: World, k: nat, mod: string, vars: seq<Binding>, es: seq<Expr>, sight: Sight,
      captures: bool, out: nat, s: Scope, last: Scope, st: State) returns (n: nat)
    requires Setting(w, k, vars, sight, s, last, out, st) && AllSimple(es, sight, captures)
    requires GenArgs(es, s, mod).Some? && CodeAt(w, st.ip, GenArgs(es, s, mod).value.code)
    requires Grown(GenArgs(es, s, mod).value.scope, last)
    requires EvalArgs(w.p, k, mod, vars, es).Some?
    ensures Shape(st) && Steps(w.m, st, n).Some?
    ensures ArgsDone(w, st, Steps(w.m, st, n).value, Size(w, GenArgs(es, s, mod).value.code), s.varCount,
                     EvalArgs(w.p, k, mod, vars, es).value, AnyCall(es))
    decreases k, 0, es, 0
  {
    hide Setting, Simple, CodeAt, Size, Grown, Gen, Eval, Rel, Ready, Evolves, Steps, Keeps, ScopeOk;
    SettingParts(w, k, vars, sight, s, last, out, st);
    if es == [] {
      NoArgs(w, st, s.varCount, false);
      n := 0;
    } else {
      var s1 := Push(s).value;
      var first := Gen(es[0], s1.varCount, s1, mod).value;
      var rest := GenArgs(es[1..], first.scope, mod).value;
      CodeParts(w, st.ip, first.code, rest.code);
      PushOk(s);
      GenEvolves(es[0], s1.varCount, s1, mod);
      EvolvesOk(s1, first.scope);
      GenArgsEvolves(es[1..], first.scope, mod);
      EvolvesGrown(first.scope, rest.scope);
      GrownTrans(first.scope, rest.scope, last);
      SimpleFacts(es[0], sight, captures, s1.varCount, s1, mod);
      SettingPushed(w, k, vars, sight, s, last, out, st);
      var n1 := SimulateExpr(w, k, mod, vars, es[0], sight, captures, s1.varCount, s1, last, st);
      RunsEnd(w, st, n1, Size(w, first.code), s1.varCount, s1.varCount, Eval(w.p, k, mod, vars, es[0]).value,
          HasCall(es[0]));
      var t1 := Steps(w.m, st, n1).value;
      AddsNothing(s1, first.scope, w.globals);
      SettingNext(w, k, vars, sight, s1, first.scope, last, s1.varCount, st, t1, HasCall(es[0]));
      var n2 := SimulateArgs(w, k, mod, vars, es[1..], Later(sight, HasCall(es[0])), captures, s1.varCount,
          first.scope, last, t1);
      StepsAdd(w.m, st, n1, n2);
      n := n1 + n2;
      ArgsTogether(w, st, t1, Steps(w.m, t1, n2).value, Size(w, first.code), Size(w, rest.code), s.varCount,
                   EvalArgs(w.p, k, mod, vars, es).value, HasCall(es[0]), AnyCall(es[1..]));
    }
  }

  lemma EvolvesGrown(s: Scope, t: Scope)
    requires Evolves(s, t)
    ensures Grown(s, t)
  {}

  lemma NoArgs(w: World, st: State, base: nat, called: bool)
    requires Shape(st)
    ensures Steps(w.m, st, 0) == Some(st) && ArgsDone(w, st, st, Size(w, []), base, [], called)
  {}

  lemma ArgsTogether(w: World, st: State, t1: State, t2: State, size1: nat, size2: nat, base: nat, all: seq<Val>,
      first: bool, rest: bool)
    requires all != []
    requires Keeps(st, t1, base + 1, base + 1) && t1.ip == st.ip + size1 && (!first ==> t1.upvals == st.upvals)
    requires Shape(t1) && Shape(t2) && base + 1 < REGISTER_COUNT && Rel(w, all[0], Regs(t1)[base + 1])
    requires ArgsDone(w, t1, t2, size2, base + 1, all[1..], rest)
    ensures ArgsDone(w, st, t2, size1 + size2, base, all, first || rest)
  {
    hide Rel, Keeps;
    KeepsMore(st, t1, t2, base);
    var vals := all[1..];
    forall i | 0 <= i < |all| ensures InRegister(w, t2, base + 1 + i, all[i]) {
      if i > 0 {
        assert all[i] == vals[i - 1];
        assert InRegister(w, t2, base + 1 + 1 + (i - 1), vals[i - 1]);
      }
    }
  }

  lemma KeepsMore(st: State, t1: State, t2: State, base: nat)
    requires Keeps(st, t1, base + 1, base + 1) && Keeps(t1, t2, base + 1, base + 2)
    ensures Keeps(st, t2, base, base + 1) && t2.current == st.current
    ensures base + 1 < REGISTER_COUNT ==> Regs(t2)[base + 1] == Regs(t1)[base + 1]
  {
    forall r | 0 <= r <= base && r < REGISTER_COUNT && r != base + 1 ensures Regs(t2)[r] == Regs(st)[r] {
      assert Regs(t1)[r] == Regs(st)[r];
    }
  }

  /** Tuples and lists. */
  lemma {:induction false} SimulateElems(w: World, k: nat, mod: string, vars: seq<Binding>, e: Expr, sight: Sight,
      captures: bool, out: nat, s: Scope, last: Scope, st: State) returns (n: nat)
    requires e.TupleLit? || e.ListLit?
    requires Setting(w, k, vars, sight, s, last, out, st) && Simple(e, sight, captures)
    requires Gen(e, out, s, mod).Some? && CodeAt(w, st.ip, Gen(e, out, s, mod).value.code)
    requires Grown(Gen(e, out, s, mod).value.scope, last)
    requires Eval(w.p, k, mod, vars, e).Some?
    ensures Runs(w, st, n, Size(w, Gen(e, out, s, mod).value.code), s.varCount, out, Eval(w.p, k, mod, vars, e).value,
        HasCall(e))
    decreases k, 0, e, 2
  {
    hide Setting, AllSimple, CodeAt, Size, GenArgs, EvalArgs, Rel, Ready, Evolves, Steps, Keeps, ScopeOk, Runs,
        ArgsDone;
    var es := e.elems;
    SettingParts(w, k, vars, sight, s, last, out, st);
    var a := GenArgs(es, s, mod).value;
    var (locs, s1) := Popped(a.scope, |es|);
    var i := if e.TupleLit? then MakeTuple(Register(out), |es|, locs) else MakeList(Register(out), |es|, locs);
    assert Gen(e, out, s, mod).value == Output(a.code + [i], s1);
    CodeParts(w, st.ip, a.code, [i]);
    ArgsFacts(es, sight, captures, s, mod);
    GrownAbove(a.scope, s1, last);
    var n1 := SimulateArgs(w, k, mod, vars, es, sight, captures, out, s, last, st);
    var vals := EvalArgs(w.p, k, mod, vars, es).value;
    var t1 := Steps(w.m, st, n1).value;
    ArgsShape(w, st, t1, Size(w, a.code), s.varCount, vals, AnyCall(es));
    SimulateMake(w, e.TupleLit?, out, vals, a.scope, st, t1, Size(w, a.code), s.varCount, AnyCall(es));
    KeepsWeaken(st, t1, s.varCount, s.varCount + 1, s.varCount, out);
    RunsOn(w, st, n1, 1, Size(w, [i]), Size(w, a.code + [i]), s.varCount, s.varCount, out,
           if e.TupleLit? then TupleVal(vals) else ListVal(vals, false), AnyCall(es), AnyCall(es));
    n := n1 + 1;
  }

  lemma GrownAbove(s: Scope, s1: Scope, last: Scope)
    requires Grown(s1, last) && s1.upvals == s.upvals && s1.parent == s.parent
    ensures Grown(s, last)
  {}

  /** One side of a branch has run: so has the whole branch. */
  lemma BranchTaken(w: World, st: State, reg: nat, t: seq<Instr>, f: seq<Instr>, c: Val, a: nat, limit: nat, out: nat,
      v: Val, called: bool)
    returns (n: nat)
    requires Branch(reg, t, f).Some? && NoCapture(t) && NoCapture(f)
    requires CodeAt(w, st.ip, Branch(reg, t, f).value)
    requires Shape(st) && reg < REGISTER_COUNT && Rel(w, c, Regs(st)[reg])
    requires var u := st.(ip := if Truth(c) then st.ip + 3 + ElseSize(w, t, f) else st.ip + 3);
             Runs(w, u, a, if Truth(c) then Size(w, t) else Size(w, f), limit, out, v, called)
    ensures Runs(w, st, n, Size(w, Branch(reg, t, f).value), limit, out, v, called)
  {
    hide CodeAt, Size, Rel, Branch, Steps, ElseSize, After, NoCapture;
    var b := Branch(reg, t, f).value;
    var start := if Truth(c) then st.ip + 3 + ElseSize(w, t, f) else st.ip + 3;
    var u := st.(ip := start);
    TestStep(w, st, reg, t, f, c);
    BranchLayout(w, st.ip, reg, t, f);
    KeepsSelf(st, start, limit, out);
    if Truth(c) {
      RunsOn(w, st, 1, a, Size(w, t), Size(w, b), limit, limit, out, v, called, called);
      n := 1 + a;
    } else {
      RunsOn(w, st, 1, a, Size(w, f), 3 + Size(w, f), limit, limit, out, v, called, called);
      var x := Steps(w.m, st, 1 + a).value;
      RunsEnd(w, st, 1 + a, 3 + Size(w, f), limit, out, v, called);
      var j := ElseEnd(w, st.ip, reg, t, f, x);
      StepsAdd(w.m, st, 1 + a, j);
      n := 1 + a + j;
      AfterJump(w, st, x, st.ip + 3 + Size(w, f), st.ip + Size(w, b), limit, out, v, called);
    }
  }

  lemma AfterJump(w: World, st: State, x: State, ip: nat, end: nat, limit: nat, out: nat, v: Val, called: bool)
    requires After(w, st, x, ip, limit, out, v, called)
    ensures After(w, st, x.(ip := end), end, limit, out, v, called)
  {
    hide Rel;
  }

  /** The code of `&&` and `||`, by its two sides. */
  lemma ShortCode(e: Expr, sight: Sight, captures: bool, out: nat, s: Scope, last: Scope, mod: string)
    requires e.Apply? && (e.name == "&&" || e.name == "||") && ScopeOk(s)
    requires Simple(e, sight, captures) && Gen(e, out, s, mod).Some?
    requires Grown(Gen(e, out, s, mod).value.scope, last)
    ensures |e.args| >= 2 && Gen(e.args[0], out, s, mod).Some?
    ensures Simple(e.args[0], sight, captures) && Simple(e.args[1], Later(sight, HasCall(e.args[0])), false)
    ensures var l := Gen(e.args[0], out, s, mod).value;
            && Gen(e.args[1], out, l.scope, mod).Some? && Evolves(s, l.scope) && Grown(l.scope, last)
            && l.scope.env == s.env && l.scope.varCount == s.varCount
    ensures var l := Gen(e.args[0], out, s, mod).value;
            var r := Gen(e.args[1], out, l.scope, mod).value;
            var (t, f) := if e.name == "&&" then (r.code, []) else ([], r.code);
            && NoCapture(t) && NoCapture(f) && Grown(r.scope, last) && Branch(out, t, f).Some?
            && Gen(e, out, s, mod).value.code == l.code + Branch(out, t, f).value
  {
    hide Grown, Evolves, ScopeOk, Branch, NoCapture, ApplyOp, AllSimple, OPERATORS, Around, GenArgs, GenBody;
    var l := Gen(e.args[0], out, s, mod).value;
    var r := Gen(e.args[1], out, l.scope, mod).value;
    GenEvolves(e.args[0], out, s, mod);
    EvolvesOk(s, l.scope);
    GenEvolves(e.args[1], out, l.scope, mod);
    EvolvesGrown(l.scope, r.scope);
    GrownTrans(l.scope, r.scope, last);
    SimpleFacts(e.args[0], sight, captures, out, s, mod);
    SimpleFacts(e.args[1], Later(sight, HasCall(e.args[0])), false, out, l.scope, mod);
    NoCaptureEmpty();
  }

  /** Their value, by the values of the sides. */
  lemma ShortValue(p: Program, k: nat, mod: string, vars: seq<Binding>, e: Expr)
    requires e.Apply? && (e.name == "&&" || e.name == "||") && Eval(p, k, mod, vars, e).Some?
    ensures |e.args| >= 2 && Eval(p, k, mod, vars, e.args[0]).Some?
    ensures var c := Eval(p, k, mod, vars, e.args[0]).value;
            Eval(p, k, mod, vars, e) == if Truth(c) == (e.name == "&&") then Eval(p, k, mod, vars, e.args[1])
                else Some(c)
  {}

  lemma ShortCalls(e: Expr)
    requires e.Apply? && |e.args| >= 2
    ensures HasCall(e.args[0]) || HasCall(e.args[1]) ==> HasCall(e)
  {
    assert e.args[1..][0] == e.args[1];
  }

  /** `&&` and `||`: the right side runs exactly when it is needed, and otherwise
      the left value stays. */
  lemma {:induction false} SimulateShort(w: World, k: nat, mod: string, vars: seq<Binding>, e: Expr, sight: Sight,
      captures: bool, out: nat, s: Scope, last: Scope, st: State) returns (n: nat)
    requires e.Apply? && (e.name == "&&" || e.name == "||")
    requires Setting(w, k, vars, sight, s, last, out, st) && Simple(e, sight, captures)
    requires Gen(e, out, s, mod).Some? && CodeAt(w, st.ip, Gen(e, out, s, mod).value.code)
    requires Grown(Gen(e, out, s, mod).value.scope, last)
    requires Eval(w.p, k, mod, vars, e).Some?
    ensures Runs(w, st, n, Size(w, Gen(e, out, s, mod).value.code), s.varCount, out, Eval(w.p, k, mod, vars, e).value,
        HasCall(e))
    decreases k, 0, e, 2
  {
    hide Setting, CodeAt, Size, Grown, Rel, Ready, Evolves, Steps, Keeps, ScopeOk, Runs, Branch, NoCapture, ElseSize,
        Gen, Eval, Simple, Names, Around, Truth, HasCall;
    SettingParts(w, k, vars, sight, s, last, out, st);
    ShortCode(e, sight, captures, out, s, last, mod);
    ShortValue(w.p, k, mod, vars, e);
    ShortCalls(e);
    var l := Gen(e.args[0], out, s, mod).value;
    var r := Gen(e.args[1], out, l.scope, mod).value;
    var (t, f) := if e.name == "&&" then (r.code, []) else ([], r.code);
    var b := Branch(out, t, f).value;
    var c := Eval(w.p, k, mod, vars, e.args[0]).value;
    CodeParts(w, st.ip, l.code, b);
    var n1 := SimulateExpr(w, k, mod, vars, e.args[0], sight, captures, out, s, last, st);
    RunsEnd(w, st, n1, Size(w, l.code), s.varCount, out, c, HasCall(e.args[0]));
    var t1 := Steps(w.m, st, n1).value;
    var start := if Truth(c) then t1.ip + 3 + ElseSize(w, t, f) else t1.ip + 3;
    var u := t1.(ip := start);
    KeepsIp(st, t1, start, s.varCount, out);
    AddsNothing(s, l.scope, w.globals);
    SettingNext(w, k, vars, sight, s, l.scope, last, out, st, u, HasCall(e.args[0]));
    BranchLayout(w, t1.ip, out, t, f);
    SizeOfOne(w);
    var n2, called := 0, false;
    if Truth(c) == (e.name == "&&") {
      n2 := SimulateExpr(w, k, mod, vars, e.args[1], Later(sight, HasCall(e.args[0])), false, out, l.scope, last, u);
      called := HasCall(e.args[1]);
    } else {
      RunsNothing(w, u, s.varCount, out, c, false);
    }
    var v := Eval(w.p, k, mod, vars, e).value;
    var n3 := BranchTaken(w, t1, out, t, f, c, n2, s.varCount, out, v, called);
    RunsOn(w, st, n1, n3, Size(w, b), Size(w, l.code + b), s.varCount, s.varCount, out, v, called, HasCall(e));
    n := n1 + n3;
  }

  lemma KeepsIp(st: State, t: State, ip: nat, limit: nat, out: nat)
    requires Keeps(st, t, limit, out)
    ensures Keeps(st, t.(ip := ip), limit, out)
  {}

  /** No code at all, with the value already there. */
  lemma RunsNothing(w: World, u: State, limit: nat, out: nat, v: Val, called: bool)
    requires Shape(u) && out < REGISTER_COUNT && Rel(w, v, Regs(u)[out])
    ensures Runs(w, u, 0, 0, limit, out, v, called)
  {}

  /** Operators and calls. */
  lemma {:induction false} SimulateApply(w: World, k: nat, mod: string, vars: seq<Binding>, e: Expr, sight: Sight,
      captures: bool, out: nat, s: Scope, last: Scope, st: State) returns (n: nat)
    requires e.Apply? && e.name != "&&" && e.name != "||"
    requires Setting(w, k, vars, sight, s, last, out, st) && Simple(e, sight, captures)
    requires Gen(e, out, s, mod).Some? && CodeAt(w, st.ip, Gen(e, out, s, mod).value.code)
    requires Grown(Gen(e, out, s, mod).value.scope, last)
    requires Eval(w.p, k, mod, vars, e).Some?
    ensures Runs(w, st, n, Size(w, Gen(e, out, s, mod).value.code), s.varCount, out, Eval(w.p, k, mod, vars, e).value,
        HasCall(e))
    decreases k, 0, e, 2
  {
    hide Setting, AllSimple, CodeAt, Size, GenArgs, EvalArgs, Rel, Ready, Evolves, Steps, Keeps, ScopeOk, Runs,
        ArgsDone, ApplyOp, Operate, CallVal, OPERATORS;
    var Apply(callee, name, es) := e;
    SettingParts(w, k, vars, sight, s, last, out, st);
    var a := GenArgs(es, s, mod).value;
    var (locs, s1) := Popped(a.scope, |es|);
    var op := ApplyOp(callee, name, out, locs, s1, mod).value;
    CodeParts(w, st.ip, a.code, op.code);
    ArgsFacts(es, sight, captures, s, mod);
    GenArgsEvolves(es, s, mod);
    EvolvesTo(s, a.scope, s1);
    EvolvesOk(s, s1);
    ApplyOpEvolves(callee, name, out, locs, s1, mod);
    EvolvesGrown(s1, op.scope);
    GrownTrans(s1, op.scope, last);
    GrownAbove(a.scope, s1, last);
    var n1 := SimulateArgs(w, k, mod, vars, es, sight, captures, out, s, last, st);
    var vals := EvalArgs(w.p, k, mod, vars, es).value;
    var t1 := Steps(w.m, st, n1).value;
    ArgsShape(w, st, t1, Size(w, a.code), s.varCount, vals, AnyCall(es));
    KeepsWeaken(st, t1, s.varCount, s.varCount + 1, s.varCount, out);
    var v := Eval(w.p, k, mod, vars, e).value;
    var n2, called := 1, name !in OPERATORS || AnyCall(es);
    if name in OPERATORS {
      SimulateOperator(w, callee, name, out, vals, a.scope, s1, mod, st, t1, Size(w, a.code), s.varCount, AnyCall(es));
    } else {
      OperatorsArePrimitives(name);
      ReadableIsBound(w, vars, sight, s, last, out, st);
      AddsNothing(s, s1, w.globals);
      SettingNext(w, k, vars, sight, s, s1, last, out, st, t1, AnyCall(es));
      n2 := SimulateCall(w, k, mod, vars, Later(sight, AnyCall(es)), e, vals, out, s1, a.scope, last, st, t1,
          Size(w, a.code), s.varCount, AnyCall(es));
    }
    RunsOn(w, st, n1, n2, Size(w, op.code), Size(w, a.code + op.code), s.varCount, s.varCount, out, v, called,
        HasCall(e));
    n := n1 + n2;
  }

  /** The function value a call invokes, and the value it has. */
  ghost function Callee(mod: string, vars: seq<Binding>, e: Expr): Val
    requires e.Apply?
  {
    if e.mod.None? && e.name in Names(vars) then Lookup(vars, e.name).value
    else FnVal(FullOf(e.mod, mod, e.name, |e.args|))
  }

  lemma {:induction false} SimulateCall(w: World, k: nat, mod: string, vars: seq<Binding>, sight: Sight, e: Expr,
      vals: seq<Val>, out: nat, s1: Scope, above: Scope, last: Scope, st: State, t: State, size: nat, base: nat,
      called: bool)
    returns (n: nat)
    requires e.Apply? && k > 0 && |vals| == |e.args| && !Primitive(e.name).Some?
    requires e.mod.None? ==> e.name in sight.locals || e.name in w.globals
    requires Setting(w, k, vars, sight, s1, last, out, t)
    requires ArgsDone(w, st, t, size, base, vals, called) && above.varCount == base + |vals|
    requires ApplyOp(e.mod, e.name, out, Popped(above, |vals|).0, s1, mod).Some?
    requires CodeAt(w, t.ip, ApplyOp(e.mod, e.name, out, Popped(above, |vals|).0, s1, mod).value.code)
    requires Grown(ApplyOp(e.mod, e.name, out, Popped(above, |vals|).0, s1, mod).value.scope, last)
    requires CallVal(w.p, k - 1, Callee(mod, vars, e), vals).Some?
    ensures Runs(w, t, n, Size(w, ApplyOp(e.mod, e.name, out, Popped(above, |vals|).0, s1, mod).value.code), base, out,
                 CallVal(w.p, k - 1, Callee(mod, vars, e), vals).value, true)
    decreases k, 0, e, 1
  {
    hide Setting, CodeAt, Size, Rel, Ready, Steps, Keeps, ArgsDone, Popped, GetVars, Enter, Lookup, FullName,
        Returned, Entered;
    SettingParts(w, k, vars, sight, s1, last, out, t);
    var f := Callee(mod, vars, e);
    var locs := Popped(above, |vals|).0;
    var op := ApplyOp(e.mod, e.name, out, locs, s1, mod).value;
    var i := op.code[0];
    assert op.code == [i];
    var xs := PoppedArgs(w, st, t, size, base, vals, called, above);
    StepAt(w, i, t);
    var next := t.ip + Size(w, [i]);
    var fx := CalleeValue(w, k, mod, vars, sight, e, vals, out, s1, last, t, locs, next);
    var u := EnterGives(t, fx.location, fx.upvals, out, locs, next, xs);
    OneStep(w, t);
    EnteredParts(w, t, u, fx.location, fx.upvals, next, out, xs, vals);
    var n1 := SimulateInvoke(w, k - 1, f, vals, u);
    StepsAdd(w.m, t, 1, n1);
    n := 1 + n1;
    CallDone(w, t, u, Steps(w.m, u, n1).value, fx.location, fx.upvals, Size(w, [i]), out, xs,
             CallVal(w.p, k - 1, f, vals).value, base);
  }

  /** The instruction chosen for a call enters the function it should. */
  lemma CalleeValue(w: World, k: nat, mod: string, vars: seq<Binding>, sight: Sight, e: Expr, vals: seq<Val>, out: nat,
      s1: Scope, last: Scope, t: State, locs: seq<VarRef>, next: nat) returns (fx: Value)
    requires e.Apply? && k > 0 && |vals| == |e.args| == |locs| && !Primitive(e.name).Some? && next > 0
    requires e.mod.None? ==> e.name in sight.locals || e.name in w.globals
    requires Holding(w) && Ready(w, vars, sight, s1, last, out, t)
    requires ApplyOp(e.mod, e.name, out, locs, s1, mod).Some?
    requires var op := ApplyOp(e.mod, e.name, out, locs, s1, mod).value;
             Grown(op.scope, last) && InstrOk(op.code[0]) && Known(op.code[0], w.names, w.m.strings)
    requires CallVal(w.p, k - 1, Callee(mod, vars, e), vals).Some?
    ensures fx.FunV? && Rel(w, Callee(mod, vars, e), fx) && out < REGISTER_COUNT
    ensures Exec(w.m, Resolve(ApplyOp(e.mod, e.name, out, locs, s1, mod).value.code[0], w.names, w.m.strings), next, t)
         == Enter(t, fx.location, fx.upvals, Register(out), locs, next)
  {
    hide Enter, Lookup, FullName, Primitive, Rel, Ready, GetVar, Grown, Id, Search, InstrOk, Known, Holding, CallVal,
        Exec;
    var f := Callee(mod, vars, e);
    var i := ApplyOp(e.mod, e.name, out, locs, s1, mod).value.code[0];
    ReadyShape(w, vars, sight, s1, last, out, t);
    VisibleCallee(w, vars, sight, s1, last, out, t, e.name);
    ReadableIsBound(w, vars, sight, s1, last, out, t);
    if e.mod.None? && e.name in Names(vars) {
      var v := Search(s1, e.name).0.value;
      assert i == CallLocal(Register(out), v, locs);
      ReadsVariable(w, vars, sight, s1, last, out, t, e.name);
      fx := GetVar(t, v).value;
      FunctionsAreFunctions(w, k - 1, f, vals, fx);
      ExecCallLocal(w, t, out, v, locs, next, fx);
    } else {
      var full := FullOf(e.mod, mod, e.name, |e.args|);
      CalledIsLoaded(w, k - 1, full, vals);
      fx := FunV(w.m.functions[Id(w.names, full)], []);
      assert i == Call(Register(out), QualifiedName(e.mod.GetOr(mod), e.name), |locs|, locs);
      ExecCall(w, t, out, QualifiedName(e.mod.GetOr(mod), e.name), locs, next);
    }
  }

  lemma ExecCallLocal(w: World, t: State, out: nat, v: VarRef, locs: seq<VarRef>, next: nat, fx: Value)
    requires Shape(t) && next > 0 && GetVar(t, v) == Some(fx) && fx.FunV? && InstrOk(CallLocal(Register(out), v, locs))
    ensures out < REGISTER_COUNT
    ensures Exec(w.m, Resolve(CallLocal(Register(out), v, locs), w.names, w.m.strings), next, t)
         == Enter(t, fx.location, fx.upvals, Register(out), locs, next)
  {
    hide Enter, GetVar;
  }

  lemma ExecCall(w: World, t: State, out: nat, name: Name, locs: seq<VarRef>, next: nat)
    requires Shape(t) && next > 0 && InstrOk(Call(Register(out), name, |locs|, locs))
    requires Id(w.names, FullName(name, |locs|)) in w.m.functions
    ensures out < REGISTER_COUNT
    ensures Exec(w.m, Resolve(Call(Register(out), name, |locs|, locs), w.names, w.m.strings), next, t)
         == Enter(t, w.m.functions[Id(w.names, FullName(name, |locs|))], [], Register(out), locs, next)
  {
    hide Enter, FullName, Id;
  }

  /** The name of a call is a variable for the compiler exactly when it is one. */
  lemma VisibleCallee(w: World, vars: seq<Binding>, sight: Sight, s: Scope, last: Scope, out: nat, st: State,
      name: string)
    requires Ready(w, vars, sight, s, last, out, st)
    ensures name in Names(vars) ==> Search(s, name).0.Some?
    ensures name in w.globals ==> Search(s, name).0.None?
  {
    SearchFinds(s, name);
  }

  lemma FunctionsAreFunctions(w: World, k: nat, f: Val, vals: seq<Val>, x: Value)
    requires CallVal(w.p, k, f, vals).Some? && Rel(w, f, x)
    ensures x.FunV?
  {}

  lemma CalledIsLoaded(w: World, k: nat, full: Name, vals: seq<Val>)
    requires Holding(w) && CallVal(w.p, k, FnVal(full), vals).Some?
    ensures full in w.p.defs && Id(w.names, full) in w.m.functions
    ensures Rel(w, FnVal(full), FunV(w.m.functions[Id(w.names, full)], []))
  {
    assert FunctionAt(w, full);
  }

  lemma EnteredParts(w: World, t: State, u: State, location: nat, upvals: seq<Value>, next: nat, out: nat,
      xs: seq<Value>, vals: seq<Val>)
    requires Entered(t, u, location, upvals, next, out, xs) && RelAll(w, vals, xs)
    ensures Shape(u) && u.ip == location && u.upvals == upvals && u.current == t.current + 1
    ensures u.frames[u.current].retRegister == out && |vals| < REGISTER_COUNT
    ensures forall i :: 0 <= i < |vals| ==> Rel(w, vals[i], Regs(u)[1 + i])
  {
    hide Rel;
    forall i | 0 <= i < |vals| ensures Rel(w, vals[i], Regs(u)[1 + i]) { assert Rel(w, vals[i], xs[i]); }
  }

  /** Running an entered function to its return. */
  lemma {:induction false} SimulateInvoke(w: World, k: nat, f: Val, vals: seq<Val>, u: State) returns (n: nat)
    requires Holding(w) && Shape(u) && Rel(w, f, FunV(u.ip, u.upvals)) && CallVal(w.p, k, f, vals).Some?
    requires |vals| < REGISTER_COUNT && forall i :: 0 <= i < |vals| ==> Rel(w, vals[i], Regs(u)[1 + i])
    requires u.current >= 1 && u.frames[u.current].retRegister < REGISTER_COUNT && u.current + k < STACK_DEPTH
    ensures Steps(w.m, u, n).Some? && Returned(w, u, Steps(w.m, u, n).value, CallVal(w.p, k, f, vals).value)
    decreases k, 1
  {
    hide GenBody, BlockOk, EvalBody, CodeAt, Names, Lookup, Returned, Steps;
    if f.FnVal? {
      assert FunctionAt(w, f.full);
      var (mod, def) := w.p.defs[f.full];
      NamesOfNone();
      assert [] + Bind(def.params, vals) == Bind(def.params, vals);
      NoParent(def.params, def.body, mod);
      n := SimulateFunction(w, k, mod, def.params, def.body, None, [], vals, true, u);
    } else {
      var ClosureVal(mod, params, body, env) := f;
      var outer :| ClosureCode(w, outer, mod, params, body, Names(env), u.ip, |u.upvals|)
                   && forall i :: 0 <= i < |env| && Lookup(env, env[i].name) == Some(env[i].val) ==>
                        forall j :: 0 <= j < |u.upvals| && CapturedAs(outer, mod, params, body, env[i].name, j) ==>
                          Rel(w, env[i].val, u.upvals[j]);
      CapturedHold(w, outer, mod, params, body, env, u);
      n := SimulateFunction(w, k, mod, params, body, Some(outer), env, vals, false, u);
    }
  }

  lemma NamesOfNone()
    ensures Names([]) == {}
  {}

  lemma NoParent(params: seq<string>, body: seq<Expr>, mod: string)
    ensures GenBody(params, body, None, mod).Some? ==> GenBody(params, body, None, mod).value.scope.parent.None?
  {}

  /** The upvalues of a closure hold what its body looks for. */
  lemma CapturedHold(w: World, outer: Scope, mod: string, params: seq<string>, body: seq<Expr>, env: seq<Binding>,
      u: State)
    requires Shape(u) && ClosureCode(w, outer, mod, params, body, Names(env), u.ip, |u.upvals|)
    requires forall i :: 0 <= i < |env| && Lookup(env, env[i].name) == Some(env[i].val) ==>
               forall j :: 0 <= j < |u.upvals| && CapturedAs(outer, mod, params, body, env[i].name, j) ==>
                 Rel(w, env[i].val, u.upvals[j])
    ensures forall x :: x in Names(env) ==> Holds(w, x, Lookup(env, x).value, map[],
        GenBody(params, body, Some(outer), mod).value.scope, u)
  {
    hide Rel, GenBody, BlockOk, CodeAt;
    var last := GenBody(params, body, Some(outer), mod).value.scope;
    forall x | x in Names(env) ensures Holds(w, x, Lookup(env, x).value, map[], last, u) {
      var i := LookupAt(env, x);
      forall j | 0 <= j < |last.upvals| && j < |u.upvals| && Ref(last.parent.value, x) == Some(last.upvals[j])
        ensures Rel(w, Lookup(env, x).value, u.upvals[j])
      {
        assert CapturedAs(outer, mod, params, body, env[i].name, j);
      }
    }
  }

  /** Where a variable is bound. */
  lemma {:induction false} LookupAt(env: seq<Binding>, x: string) returns (i: nat)
    requires x in Names(env)
    ensures i < |env| && env[i].name == x && Lookup(env, x) == Some(env[i].val)
    decreases |env|
  {
    var last := |env| - 1;
    if env[last].name == x {
      i := last;
    } else {
      var c :| c in env && c.name == x;
      assert env == env[..last] + [env[last]];
      assert c in env[..last];
      i := LookupAt(env[..last], x);
    }
  }

  /** Running a function body to its return. */
  lemma {:induction false} SimulateFunction(w: World, k: nat, mod: string, params: seq<string>, body: seq<Expr>,
      par: Option<Scope>, env: seq<Binding>, vals: seq<Val>, captures: bool, u: State)
    returns (n: nat)
    requires Holding(w) && Shape(u) && |params| == |vals| < REGISTER_COUNT
    requires GenBody(params, body, par, mod).Some? && CodeAt(w, u.ip, GenBody(params, body, par, mod).value.code)
    requires par.Some? ==> ScopeOk(par.value) && Visible(env, par.value, w.globals)
    requires par.None? ==> env == []
    requires forall x :: x in params ==> x !in w.globals
    requires BlockOk(body, Entry(Names(env), params, w.globals, par.Some?), captures)
    requires forall i :: 0 <= i < |vals| ==> Rel(w, vals[i], Regs(u)[1 + i])
    requires var last := GenBody(params, body, par, mod).value.scope;
             && (last.parent.Some? <==> par.Some?) && (par.Some? ==> |u.upvals| == |last.upvals|)
             && forall x :: x in Names(env) ==> Holds(w, x, Lookup(env, x).value, map[], last, u)
    requires u.current >= 1 && u.frames[u.current].retRegister < REGISTER_COUNT && u.current + k < STACK_DEPTH
    requires EvalBody(w.p, k, mod, env + Bind(params, vals), body).Some?
    ensures Steps(w.m, u, n).Some?
    ensures Returned(w, u, Steps(w.m, u, n).value, EvalBody(w.p, k, mod, env + Bind(params, vals), body).value)
    decreases k, 0, body, 4
  {
    hide Rel, GenBlock, BlockOk, EvalBody, CodeAt, Names, Lookup, Returned, Steps, Ready, Size, Holds, Visible,
        Around, ParamEnv;
    var s := NewScope(params, par).value;
    var b := GenBlock(body, 0, s, mod).value;
    var last := b.scope;
    var vars := env + Bind(params, vals);
    var v := EvalBody(w.p, k, mod, vars, body).value;
    var sight := Entry(Names(env), params, w.globals, par.Some?);
    CodeParts(w, u.ip, b.code, [Return]);
    BodyReady(w, env, params, vals, par, last, u);
    BindNames(env, params, vals);
    GrownRefl(last);
    assert Setting(w, k, vars, sight, s, last, 0, u);
    var n1 := SimulateBlock(w, k, mod, vars, body, sight, captures, 0, s, last, u);
    RunsEnd(w, u, n1, Size(w, b.code), s.varCount, 0, v, AnyCall(body));
    var t := Steps(w.m, u, n1).value;
    assert After(w, u, t, t.ip, s.varCount, 0, v, AnyCall(body));
    var r := ReturnStep(w, u, t, s.varCount, v, AnyCall(body));
    StepsAdd(w.m, u, n1, 1);
    n := n1 + 1;
  }

  /** A closure is made. */
  lemma {:induction false} SimulateLambda(w: World, k: nat, mod: string, vars: seq<Binding>, e: Expr, sight: Sight,
      captures: bool, out: nat, s: Scope, last: Scope, st: State)
    requires e.Lambda?
    requires Setting(w, k, vars, sight, s, last, out, st) && Simple(e, sight, captures)
    requires Gen(e, out, s, mod).Some? && CodeAt(w, st.ip, Gen(e, out, s, mod).value.code)
    requires Grown(Gen(e, out, s, mod).value.scope, last)
    requires Eval(w.p, k, mod, vars, e).Some?
    ensures Runs(w, st, 1, Size(w, Gen(e, out, s, mod).value.code), s.varCount, out, Eval(w.p, k, mod, vars, e).value,
        HasCall(e))
  {
    hide Setting, CodeAt, Size, Rel, Ready, Steps, Keeps, GenBody, BlockOk, Names, Grown, ScopeOk, GetVars, NoCapture,
        ByteSizeOf, SetReg, RefsOk, Evolves, HoldsAt;
    var Lambda(params, body) := e;
    SettingParts(w, k, vars, sight, s, last, out, st);
    var b := GenBody(params, body, Some(s), mod).value;
    var i := AnonFn(Register(out), JumpOver(b.code).value, |params|, b.scope.upvals);
    CodeParts(w, st.ip, [i], b.code);
    CodeIsOk(w, st.ip + Size(w, [i]), b.code);
    GenBodyEvolves(params, body, Some(s), mod);
    BodyFacts(params, body, Entry(sight.locals, params, sight.globals, true), false, Some(s), mod);
    SizeIsByteSize(w, b.code);
    StepAt(w, i, st);
    CapturesReadable(w, vars, sight, s, b.scope, last, out, st);
    var xs := GetVars(st, b.scope.upvals).value;
    var next := st.ip + Size(w, [i]);
    ReadableIsBound(w, vars, sight, s, last, out, st);
    ClosureIsRelated(w, mod, vars, sight, params, body, out, s, last, st, xs, next);
    StoresResult(w, st, out, ClosureVal(mod, params, body, vars), FunV(next, xs), next + Size(w, b.code), s.varCount,
        false);
    OneStep(w, st);
  }

  /** The value made for a lambda stands for its closure. */
  lemma ClosureIsRelated(w: World, mod: string, vars: seq<Binding>, sight: Sight, params: seq<string>, body: seq<Expr>,
      out: nat, s: Scope, last: Scope, st: State, xs: seq<Value>, next: nat)
    requires Ready(w, vars, sight, s, last, out, st) && GenBody(params, body, Some(s), mod).Some?
    requires forall x :: x in params ==> x !in w.globals
    requires (sight.nested ==> sight.clean) && BlockOk(body, Entry(sight.locals, params, w.globals, true), false)
    requires CodeAt(w, next, GenBody(params, body, Some(s), mod).value.code)
    requires var child := GenBody(params, body, Some(s), mod).value.scope;
             ScopeOk(child) && Grown(child.parent.value, last) && GetVars(st, child.upvals) == Some(xs)
    ensures Rel(w, ClosureVal(mod, params, body, vars), FunV(next, xs))
  {
    hide GenBody, BlockOk, CodeAt, Names, Lookup, Grown, Ready, GetVar, Ref;
    var child := GenBody(params, body, Some(s), mod).value.scope;
    ReadyVisible(w, vars, sight, s, last, out, st);
    AllReadable(w, vars, sight, s, last, out, st);
    assert ClosureCode(w, s, mod, params, body, Names(vars), next, |xs|);
    forall i, j | 0 <= i < |vars| && Lookup(vars, vars[i].name) == Some(vars[i].val)
                  && 0 <= j < |xs| && CapturedAs(s, mod, params, body, vars[i].name, j)
      ensures Rel(w, vars[i].val, xs[j])
    {
      BoundName(vars, i);
      ReadsRef(w, vars, sight, s, child.parent.value, last, out, st, vars[i].name);
      assert GetVar(st, child.upvals[j]) == Some(xs[j]);
    }
  }

  lemma ReadyVisible(w: World, vars: seq<Binding>, sight: Sight, s: Scope, last: Scope, out: nat, st: State)
    requires Ready(w, vars, sight, s, last, out, st)
    ensures ScopeOk(s) && Visible(vars, s, w.globals) && Shape(st)
  {}

  lemma AllReadable(w: World, vars: seq<Binding>, sight: Sight, s: Scope, last: Scope, out: nat, st: State)
    requires Ready(w, vars, sight, s, last, out, st) && (sight.nested ==> sight.clean)
    ensures sight.locals == Names(vars)
  {}

  lemma BoundName(vars: seq<Binding>, i: nat)
    requires i < |vars|
    ensures vars[i].name in Names(vars)
  {}

  // ---------- blocks ----------

  lemma {:induction false} SimulateBlock(w: World, k: nat, mod: string, vars: seq<Binding>, block: seq<Expr>,
      sight: Sight, captures: bool, out: nat, s: Scope, last: Scope, st: State) returns (n: nat)
    requires Setting(w, k, vars, sight, s, last, out, st) && BlockOk(block, sight, captures)
    requires GenBlock(block, out, s, mod).Some? && CodeAt(w, st.ip, GenBlock(block, out, s, mod).value.code)
    requires Grown(GenBlock(block, out, s, mod).value.scope, last)
    requires EvalBody(w.p, k, mod, vars, block).Some?
    ensures Runs(w, st, n, Size(w, GenBlock(block, out, s, mod).value.code), s.varCount, out,
        EvalBody(w.p, k, mod, vars, block).value, AnyCall(block))
    decreases k, 0, block, 3
  {
    hide Setting, CodeAt, Size, Rel, Ready, Runs, BlockOk, Grown, GenItems, EvalItems;
    SettingParts(w, k, vars, sight, s, last, out, st);
    if block == [] {
      assert Compute(w.m.checked, StoreNil, []) == Some(Nil);
      RelOfPlain(w);
      SimulateConst(w, StoreNil, st, s.varCount, out, NilVal, Nil, false);
      n := 1;
    } else {
      n := SimulateItems(w, k, mod, vars, block, sight, captures, out, s, last, st);
    }
  }

  /** The items of a block, one after the other. */
  lemma {:induction false} SimulateItems(w: World, k: nat, mod: string, vars: seq<Binding>, block: seq<Expr>,
      sight: Sight, captures: bool, out: nat, s: Scope, last: Scope, st: State) returns (n: nat)
    requires block != []
    requires Setting(w, k, vars, sight, s, last, out, st) && BlockOk(block, sight, captures)
    requires GenItems(block, out, s, mod).Some? && CodeAt(w, st.ip, GenItems(block, out, s, mod).value.code)
    requires Grown(GenItems(block, out, s, mod).value.scope, last)
    requires EvalItems(w.p, k, mod, vars, block).Some?
    ensures Runs(w, st, n, Size(w, GenItems(block, out, s, mod).value.code), s.varCount, out,
        EvalItems(w.p, k, mod, vars, block).value, AnyCall(block))
    decreases k, 0, block, 2
  {
    hide Setting, CodeAt, Size, Rel, Ready, Runs, Grown, Evolves, ScopeOk, Keeps, Steps, Gen, Simple, Eval, EvalItem,
        Adds;
    SettingParts(w, k, vars, sight, s, last, out, st);
    var first := Gen(block[0], out, s, mod).value;
    var rest := GenItems(block[1..], out, first.scope, mod).value;
    CodeParts(w, st.ip, first.code, rest.code);
    GenEvolves(block[0], out, s, mod);
    EvolvesOk(s, first.scope);
    GenItemsEvolves(block[1..], out, first.scope, mod);
    EvolvesGrown(first.scope, rest.scope);
    GrownTrans(first.scope, rest.scope, last);
    FirstItem(block, sight, captures);
    ReadableIsBound(w, vars, sight, s, last, out, st);
    ItemFacts(block[0], |block| == 1, sight, captures, out, s, mod);
    if block[0].Let? {
      n := SimulateLet(w, k, mod, vars, block, sight, captures, out, s, last, st);
    } else {
      var v := EvalItem(w.p, k, mod, vars, block[0]).value;
      var n1 := SimulateItem(w, k, mod, vars, block[0], |block| == 1, sight, captures, out, s, last, st);
      if |block| == 1 {
        assert rest.code == [] && first.code + [] == first.code;
        n := n1;
      } else {
        RunsEnd(w, st, n1, Size(w, first.code), s.varCount, out, v, HasCall(block[0]));
        var t := Steps(w.m, st, n1).value;
        SettingNext(w, k, vars, sight, s, first.scope, last, out, st, t, HasCall(block[0]));
        var n2 := SimulateItems(w, k, mod, vars, block[1..], Later(sight, HasCall(block[0])), captures, out,
            first.scope, last, t);
        RunsOn(w, st, n1, n2, Size(w, rest.code), Size(w, first.code + rest.code), s.varCount, first.scope.varCount,
            out,
               EvalItems(w.p, k, mod, vars, block).value, AnyCall(block[1..]), AnyCall(block));
        n := n1 + n2;
      }
    }
  }

  /** A let and the items that see its name. */
  lemma {:induction false} SimulateLet(w: World, k: nat, mod: string, vars: seq<Binding>, block: seq<Expr>,
      sight: Sight, captures: bool, out: nat, s: Scope, last: Scope, st: State) returns (n: nat)
    requires block != [] && block[0].Let?
    requires Setting(w, k, vars, sight, s, last, out, st) && BlockOk(block, sight, captures)
    requires GenItems(block, out, s, mod).Some? && CodeAt(w, st.ip, GenItems(block, out, s, mod).value.code)
    requires Grown(GenItems(block, out, s, mod).value.scope, last)
    requires EvalItems(w.p, k, mod, vars, block).Some?
    ensures Runs(w, st, n, Size(w, GenItems(block, out, s, mod).value.code), s.varCount, out,
        EvalItems(w.p, k, mod, vars, block).value, AnyCall(block))
    decreases k, 0, block, 1
  {
    hide Setting, CodeAt, Size, Rel, Ready, Runs, Grown, ScopeOk, Keeps, Steps, Simple, Eval, Adds, Around, Names;
    var Let(name, right) := block[0];
    var s1 := Push(s).value;
    var r := Gen(right, s1.varCount, s1, mod).value;
    var s3 := r.scope.(env := r.scope.env[name := Register(s1.varCount)]);
    var rest := GenItems(block[1..], out, s3, mod).value;
    var v := Eval(w.p, k, mod, vars, right).value;
    var more := vars + [Binding(name, v)];
    SettingParts(w, k, vars, sight, s, last, out, st);
    assert Gen(block[0], out, s, mod).value == Output(r.code, s3);
    CodeParts(w, st.ip, r.code, rest.code);
    PushOk(s);
    GenEvolves(right, s1.varCount, s1, mod);
    EvolvesOk(s1, r.scope);
    SimpleFacts(right, sight, captures, s1.varCount, s1, mod);
    EvolvesFrom(s, s1, r.scope);
    EvolvesGrown(s, r.scope);
    LetScope(block[0], out, s, mod);
    ReadableIsBound(w, vars, sight, s, last, out, st);
    GenItemsEvolves(block[1..], out, s3, mod);
    EvolvesGrown(s3, rest.scope);
    GrownTrans(s3, rest.scope, last);
    GrownAbove(r.scope, s3, last);
    SettingPushed(w, k, vars, sight, s, last, out, st);
    var n1 := SimulateExpr(w, k, mod, vars, right, sight, captures, s1.varCount, s1, last, st);
    RunsEnd(w, st, n1, Size(w, r.code), s1.varCount, s1.varCount, v, HasCall(right));
    var t := Steps(w.m, st, n1).value;
    AddsNothing(s1, r.scope, w.globals);
    SettingNext(w, k, vars, sight, s1, r.scope, last, s1.varCount, st, t, HasCall(right));
    SettingBound(w, k, vars, sight, Later(sight, HasCall(right)), s, r.scope, name, v, s1.varCount, last, out, st, t);
    NamesSnoc(vars, name, v);
    var n2 := SimulateItems(w, k, mod, more, block[1..], Behind(sight, block[0]), captures, out, s3, last, t);
    KeepsWeaken(st, t, s1.varCount, s1.varCount, s.varCount, out);
    RunsOn(w, st, n1, n2, Size(w, rest.code), Size(w, r.code + rest.code), s.varCount, s3.varCount, out,
           EvalItems(w.p, k, mod, vars, block).value, AnyCall(block[1..]), AnyCall(block));
    n := n1 + n2;
  }

  lemma LetScope(e: Expr, out: nat, s: Scope, mod: string)
    requires e.Let? && ScopeOk(s) && Gen(e, out, s, mod).Some?
    ensures ScopeOk(Gen(e, out, s, mod).value.scope)
  {
    GenEvolves(e, out, s, mod);
    EvolvesOk(s, Gen(e, out, s, mod).value.scope);
  }

  /** The setting for the items behind a let. */
  lemma SettingBound(w: World, k: nat, vars: seq<Binding>, sight: Sight, later: Sight, s: Scope, s2: Scope,
      name: string, v: Val, reg: nat, last: Scope, out: nat, st: State, t: State)
    requires Setting(w, k, vars, sight, s, last, out, st) && Setting(w, k, vars, later, s2, last, reg, t)
    requires reg == s2.varCount == s.varCount + 1 && s2.env == s.env && Grown(s, s2)
    requires !Exists(s, name) && name !in w.globals
    requires reg < REGISTER_COUNT && Rel(w, v, Regs(t)[reg])
    ensures Setting(w, k, vars + [Binding(name, v)], Bound(later, name), s2.(env := s2.env[name := Register(reg)]),
        last, out, t)
  {
    hide Rel, Match;
    if Exists(s2, name) { ExistsGrown(s, s2, name); }
    ReadyBound(w, vars, later, s2, name, v, reg, last, out, t);
  }

  /** An item that is no let. */
  lemma {:induction false} SimulateItem(w: World, k: nat, mod: string, vars: seq<Binding>, e: Expr, final: bool,
      sight: Sight, captures: bool, out: nat, s: Scope, last: Scope, st: State) returns (n: nat)
    requires !e.Let? && BlockOk([e] + (if final then [] else [NilLit]), sight, captures)
    requires Setting(w, k, vars, sight, s, last, out, st)
    requires Gen(e, out, s, mod).Some? && CodeAt(w, st.ip, Gen(e, out, s, mod).value.code)
    requires Grown(Gen(e, out, s, mod).value.scope, last)
    requires EvalItem(w.p, k, mod, vars, e).Some?
    ensures Runs(w, st, n, Size(w, Gen(e, out, s, mod).value.code), s.varCount, out,
        EvalItem(w.p, k, mod, vars, e).value, HasCall(e))
    decreases k, 0, e, 5
  {
    hide Setting, CodeAt, Size, Runs, Grown, Gen, Simple, Eval, EvalBody;
    if e.If? {
      n := SimulateIf(w, k, mod, vars, e, sight, captures, out, s, last, st);
    } else {
      n := SimulateExpr(w, k, mod, vars, e, sight, captures, out, s, last, st);
    }
  }

  /** An if: the condition is computed behind all registers of the branches, and
      exactly the chosen branch runs. */
  lemma {:induction false} SimulateIf(w: World, k: nat, mod: string, vars: seq<Binding>, e: Expr, sight: Sight,
      captures: bool, out: nat, s: Scope, last: Scope, st: State) returns (n: nat)
    requires e.If? && Simple(e.cond, sight, captures)
    requires BlockOk(e.body, Later(sight, HasCall(e.cond)), false)
        && BlockOk(e.elseBody, Later(sight, HasCall(e.cond)), false)
    requires Setting(w, k, vars, sight, s, last, out, st)
    requires Gen(e, out, s, mod).Some? && CodeAt(w, st.ip, Gen(e, out, s, mod).value.code)
    requires Grown(Gen(e, out, s, mod).value.scope, last)
    requires EvalItem(w.p, k, mod, vars, e).Some?
    ensures Runs(w, st, n, Size(w, Gen(e, out, s, mod).value.code), s.varCount, out,
        EvalItem(w.p, k, mod, vars, e).value, HasCall(e))
    decreases k, 0, e, 4
  {
    hide Setting, CodeAt, Size, Rel, Ready, Runs, Grown, Evolves, ScopeOk, Keeps, Steps, Simple, Eval, EvalBody, Adds,
        Around, Names, BlockOk, GenBlock, Branch, NoCapture, ElseSize;
    SettingParts(w, k, vars, sight, s, last, out, st);
    var t := GenBlock(e.body, out, s, mod).value;
    var f := GenBlock(e.elseBody, out, t.scope, mod).value;
    var s1 := Push(f.scope).value;
    var c := Gen(e.cond, s1.varCount, s1, mod).value;
    var b := Branch(s1.varCount, t.code, f.code).value;
    ReadableIsBound(w, vars, sight, s, last, out, st);
    IfEvolution(w, e, sight, captures, out, s, last, mod);
    CodeParts(w, st.ip, c.code, b);
    NothingChanged(st, s.varCount, out);
    SettingNext(w, k, vars, sight, s, t.scope, last, out, st, st, false);
    NothingChanged(st, t.scope.varCount, out);
    SettingNext(w, k, vars, sight, t.scope, f.scope, last, out, st, st, false);
    SettingPushed(w, k, vars, sight, f.scope, last, out, st);
    var cv := Eval(w.p, k, mod, vars, e.cond).value;
    var v := EvalItem(w.p, k, mod, vars, e).value;
    var n1 := SimulateExpr(w, k, mod, vars, e.cond, sight, captures, s1.varCount, s1, last, st);
    RunsEnd(w, st, n1, Size(w, c.code), s1.varCount, s1.varCount, cv, HasCall(e.cond));
    var t1 := Steps(w.m, st, n1).value;
    var start := if Truth(cv) then t1.ip + 3 + ElseSize(w, t.code, f.code) else t1.ip + 3;
    var u := t1.(ip := start);
    KeepsIp(st, t1, start, s1.varCount, s1.varCount);
    BranchLayout(w, t1.ip, s1.varCount, t.code, f.code);
    var n2;
    var called := if Truth(cv) then AnyCall(e.body) else AnyCall(e.elseBody);
    if Truth(cv) {
      KeepsWeaken(st, u, s1.varCount, s1.varCount, s.varCount, out);
      SettingSame(w, k, vars, sight, s, last, out, st, u, HasCall(e.cond));
      n2 := SimulateBlock(w, k, mod, vars, e.body, Later(sight, HasCall(e.cond)), false, out, s, last, u);
    } else {
      KeepsWeaken(st, u, s1.varCount, s1.varCount, t.scope.varCount, out);
      SettingSame(w, k, vars, sight, t.scope, last, out, st, u, HasCall(e.cond));
      n2 := SimulateBlock(w, k, mod, vars, e.elseBody, Later(sight, HasCall(e.cond)), false, out, t.scope, last, u);
      RunsWeaken(w, u, n2, Size(w, f.code), t.scope.varCount, s.varCount, out, v, called);
    }
    var n3 := BranchTaken(w, t1, s1.varCount, t.code, f.code, cv, n2, s.varCount, out, v, called);
    KeepsWeaken(st, t1, s1.varCount, s1.varCount, s.varCount, out);
    RunsOn(w, st, n1, n3, Size(w, b), Size(w, c.code + b), s.varCount, s.varCount, out, v, called, HasCall(e));
    n := n1 + n3;
  }

  lemma RunsWeaken(w: World, u: State, n: nat, size: nat, limit: nat, limit': nat, out: nat, v: Val, called: bool)
    requires Runs(w, u, n, size, limit, out, v, called) && limit' <= limit
    ensures Runs(w, u, n, size, limit', out, v, called)
  {
    hide Rel;
  }

  lemma NothingChanged(st: State, limit: nat, out: nat)
    requires Shape(st)
    ensures Keeps(st, st, limit, out)
  {}

  lemma SettingSame(w: World, k: nat, vars: seq<Binding>, sight: Sight, s: Scope, last: Scope, out: nat, st: State,
      t: State, called: bool)
    requires Setting(w, k, vars, sight, s, last, out, st)
    requires Keeps(st, t, s.varCount, out) && (!called ==> t.upvals == st.upvals)
    ensures Setting(w, k, vars, Later(sight, called), s, last, out, t)
  {
    hide Holding, Adds;
    EvolvesRefl(s, s);
    AddsNothing(s, s, w.globals);
    SettingNext(w, k, vars, sight, s, s, last, out, st, t, called);
  }

  /** How the scopes of an if follow one another. */
  lemma IfEvolution(w: World, e: Expr, sight: Sight, captures: bool, out: nat, s: Scope, last: Scope, mod: string)
    requires e.If? && Simple(e.cond, sight, captures)
    requires BlockOk(e.body, Later(sight, HasCall(e.cond)), false)
        && BlockOk(e.elseBody, Later(sight, HasCall(e.cond)), false)
    requires sight.globals == w.globals && ScopeOk(s) && Gen(e, out, s, mod).Some?
        && Grown(Gen(e, out, s, mod).value.scope, last)
    ensures var t := GenBlock(e.body, out, s, mod).value;
            var f := GenBlock(e.elseBody, out, t.scope, mod).value;
            && Evolves(s, t.scope) && Evolves(t.scope, f.scope) && Grown(t.scope, last) && Grown(f.scope, last)
            && Adds(s, t.scope, w.globals) && Adds(t.scope, f.scope, w.globals)
            && NoCapture(t.code) && NoCapture(f.code)
            && s.varCount <= t.scope.varCount <= f.scope.varCount
  {
    hide Evolves, ScopeOk, Simple, BlockOk, GenBlock, Branch, Around, Adds, Grown, NoCapture;
    var t := GenBlock(e.body, out, s, mod).value;
    GenBlockEvolves(e.body, out, s, mod);
    EvolvesOk(s, t.scope);
    BlockFacts(e.body, Later(sight, HasCall(e.cond)), false, out, s, mod);
    var f := GenBlock(e.elseBody, out, t.scope, mod).value;
    GenBlockEvolves(e.elseBody, out, t.scope, mod);
    EvolvesOk(t.scope, f.scope);
    BlockFacts(e.elseBody, Later(sight, HasCall(e.cond)), false, out, t.scope, mod);
    var s1 := Push(f.scope).value;
    PushOk(f.scope);
    GenEvolves(e.cond, s1.varCount, s1, mod);
    var c := Gen(e.cond, s1.varCount, s1, mod).value;
    EvolvesGrown(s1, c.scope);
    GrownTrans(s1, c.scope, last);
    GrownAbove(f.scope, s1, last);
    EvolvesGrown(t.scope, f.scope);
    GrownTrans(t.scope, f.scope, last);
  }
}
