/**
 The code generator as it runs: one object for each function being compiled, with
 a link to the one around it, whose counters, names and upvalue lists change as
 code is generated.
 */
module FnGenerators {
  import opened Seqs
  import opened Ast
  import opened Bytecode
  import opened Codegen
  import opened Limits

  /** Code in front of an outcome. */
  function Behind(code: seq<Instr>, o: Option<Output>): Option<Output> {
    if o.None? then None else Some(Output(code + o.value.code, o.value.scope))
  }

  /** What a method answers: code and the scope it leaves, or a panic. */
  function Outcome(ok: bool, code: seq<Instr>, s: Scope): Option<Output> {
    if ok then Some(Output(code, s)) else None
  }

  lemma BehindTwice(a: seq<Instr>, b: seq<Instr>, o: Option<Output>)
    ensures Behind(a, Behind(b, o)) == Behind(a + b, o)
  {
    if o.Some? { assert a + (b + o.value.code) == a + b + o.value.code; }
  }

  lemma BehindNothing(o: Option<Output>)
    ensures Behind([], o) == o
  {
    if o.Some? { assert [] + o.value.code == o.value.code; }
  }

  class FnGenerator {
    const mod: string
    const parent: FnGenerator?
    /** The generators of the functions around. */
    ghost const above: set<FnGenerator>
    var varCount: nat
    var env: map<string, VarRef>
    var upvals: seq<VarRef>

    ghost predicate Linked()
      decreases above
    {
      if parent == null then above == {}
      else
        && this !in above && parent in above && parent.above < above && above == parent.above + {parent}
        && parent.Linked()
    }

    ghost function View(): Scope
      requires Linked()
      reads this, above
      decreases above
    {
      Scope(varCount, env, upvals, if parent == null then None else Some(parent.View()))
    }

    /** FnGenerator::new; the register counter is a byte. */
    constructor (mod: string, params: seq<string>, parent: FnGenerator?)
      requires |params| <= 255 && (parent != null ==> parent.Linked())
      ensures fresh(this) && Linked() && this.mod == mod && this.parent == parent
      ensures Some(View()) == NewScope(params, if parent == null then None else Some(parent.View()))
      ensures parent == null ==> above == {}
      ensures parent != null ==> above == parent.above + {parent}
    {
      this.mod, this.parent := mod, parent;
      this.above := if parent == null then {} else parent.above + {parent};
      varCount, env, upvals := 0, map[], [];
      new;
      for i := 0 to |params|
        invariant varCount == i && env == ParamEnv(params[..i]) && upvals == []
        invariant unchanged(this.above)
      {
        varCount := varCount + 1;
        assert params[..i + 1][..i] == params[..i];
        env := env[params[i] := Register(varCount)];
      }
      assert params[..|params|] == params;
    }

    // ---------- registers and names ----------

    /** push; no register past 255. */
    method PushReg() returns (ok: bool, reg: nat)
      requires Linked()
      modifies this
      ensures Push(old(View())) == if ok then Some(View()) else None
      ensures ok ==> reg == varCount
      ensures parent != null ==> parent.View() == old(parent.View())
    {
      if varCount >= 255 { return false, 0; }
      varCount := varCount + 1;
      return true, varCount;
    }

    /** The registers of n operands: popped one by one, then reversed. */
    method PopRegs(n: nat) returns (locs: seq<VarRef>)
      requires Linked() && n <= varCount
      modifies this
      ensures (locs, View()) == Popped(old(View()), n)
      ensures parent != null ==> parent.View() == old(parent.View())
    {
      ghost var top := varCount;
      locs := [];
      for i := 0 to n
        invariant varCount == top - i && env == old(env) && upvals == old(upvals)
        invariant |locs| == i && forall j :: 0 <= j < i ==> locs[j] == Register(top - i + 1 + j)
        invariant parent != null ==> parent.View() == old(parent.View())
      {
        locs := [Register(varCount)] + locs;
        varCount := varCount - 1;
      }
      assert locs == Popped(old(View()), n).0;
    }

    method PushUpvalue(v: VarRef) returns (u: VarRef)
      requires Linked()
      modifies this
      ensures (u, View()) == PushUpval(old(View()), v)
    {
      var i := 0;
      while i < |upvals| && upvals[i] != v
        invariant i <= |upvals| && v !in upvals[..i]
      {
        assert upvals[..i + 1] == upvals[..i] + [upvals[i]];
        i := i + 1;
      }
      FirstIndex(upvals, v, i);
      if i < |upvals| { return Upvalue(i); }
      upvals := upvals + [v];
      u := Upvalue(i);
    }

    method SearchEnv(name: string) returns (found: Option<VarRef>)
      requires Linked()
      modifies this, above
      ensures (found, View()) == Search(old(View()), name)
      decreases above
    {
      if name in env { return Some(env[name]); }
      if parent == null { return None; }
      found := parent.SearchEnv(name);
      if found.None? { return; }
      var u := PushUpvalue(found.value);
      found := Some(u);
    }

    predicate NameExists(name: string)
      requires Linked()
      reads this, above
      ensures NameExists(name) == Exists(View(), name)
      decreases above
    {
      name in env || (parent != null && parent.NameExists(name))
    }

    // ---------- expressions ----------

    /** generate_expr */
    method GenerateExpr(e: Expr, out: nat) returns (ok: bool, code: seq<Instr>)
      requires Linked()
      modifies this, above
      ensures Gen(e, out, old(View()), mod) == Outcome(ok, code, View())
      decreases e, 3
    {
      ok, code := true, [];
      match e {
        case IntLit(val) =>
          if val > 65535 { return false, []; }
          code := [StoreInt(Register(out), val)];
        case TrueLit => code := [Plain(StoreTrue, [Register(out)])];
        case FalseLit => code := [Plain(StoreFalse, [Register(out)])];
        case NilLit => code := [Plain(StoreNil, [Register(out)])];
        case StrLit(text) => code := [LoadString(Register(out), Text(text))];
        case CaptureFn(callee, name, arity) =>
          code := [Capture(Register(out), QualifiedName(callee.GetOr(mod), name), arity)];
        case Ident(name) =>
          var found := SearchEnv(name);
          if found.None? { return false, []; }
          code := [Plain(Mov, [Register(out), found.value])];
        case Let(_, _) => ok, code := GenerateLet(e, out);
        case If(_, _, _) => ok, code := GenerateIf(e, out);
        case TupleLit(_) => ok, code := GenerateElems(e, out);
        case ListLit(_) => ok, code := GenerateElems(e, out);
        case Lambda(_, _) => ok, code := GenerateLambda(e, out);
        case Apply(callee, name, args) =>
          if name == "&&" || name == "||" {
            ok, code := GenerateShort(e, out);
          } else {
            ok, code := GenerateApply(e, out);
          }
      }
    }

    method GenerateLet(e: Expr, out: nat) returns (ok: bool, code: seq<Instr>)
      requires e.Let? && Linked()
      modifies this, above
      ensures Gen(e, out, old(View()), mod) == Outcome(ok, code, View())
      decreases e, 2
    {
      if NameExists(e.name) { return false, []; }
      var reg;
      ok, reg := PushReg();
      if !ok { return false, []; }
      ok, code := GenerateExpr(e.right, reg);
      if !ok { return false, []; }
      env := env[e.name := Register(reg)];
    }

    /** generate_and_and and generate_or_or */
    method GenerateShort(e: Expr, out: nat) returns (ok: bool, code: seq<Instr>)
      requires e.Apply? && (e.name == "&&" || e.name == "||") && Linked()
      modifies this, above
      ensures Gen(e, out, old(View()), mod) == Outcome(ok, code, View())
      decreases e, 2
    {
      hide Branch, GenArgs, ApplyOp;
      if |e.args| < 2 { return false, []; }
      ok, code := GenerateExpr(e.args[0], out);
      if !ok { return false, []; }
      var right;
      ok, right := GenerateExpr(e.args[1], out);
      if !ok { return false, []; }
      if e.name == "&&" {
        ok, code := BranchInto(code, out, right, []);
      } else {
        ok, code := BranchInto(code, out, [], right);
      }
    }

    method GenerateApply(e: Expr, out: nat) returns (ok: bool, code: seq<Instr>)
      requires e.Apply? && e.name != "&&" && e.name != "||" && Linked()
      modifies this, above
      ensures Gen(e, out, old(View()), mod) == Outcome(ok, code, View())
      decreases e, 2
    {
      hide Branch, GenArgs, ApplyOp, Popped;
      ok, code := GenerateArgs(e.args);
      if !ok { return false, []; }
      var locs := PopRegs(|e.args|);
      var more;
      ok, more := Operation(e.mod, e.name, out, locs);
      code := code + more;
    }

    /** apply_op and generic_apply */
    method Operation(callee: Option<string>, name: string, out: nat, args: seq<VarRef>)
        returns (ok: bool, code: seq<Instr>)
      requires Linked()
      modifies this, above
      ensures ApplyOp(callee, name, out, args, old(View()), mod) == Outcome(ok, code, View())
    {
      hide Primitive;
      var prim := Primitive(name);
      if prim.Some? {
        var (op, n, ret) := prim.value;
        if |args| < n { return false, []; }
        return true, [Plain(op, (if ret then [Register(out)] else []) + args[..n])];
      }
      var found := SearchEnv(name);
      if callee.None? && found.Some? {
        return true, [CallLocal(Register(out), found.value, args)];
      }
      return true, [Call(Register(out), QualifiedName(callee.GetOr(mod), name), |args|, args)];
    }

    method GenerateElems(e: Expr, out: nat) returns (ok: bool, code: seq<Instr>)
      requires (e.TupleLit? || e.ListLit?) && Linked()
      modifies this, above
      ensures Gen(e, out, old(View()), mod) == Outcome(ok, code, View())
      decreases e, 2
    {
      hide Branch, GenArgs, ApplyOp, Popped;
      ok, code := GenerateArgs(e.elems);
      if !ok { return false, []; }
      var locs := PopRegs(|e.elems|);
      code := code + [if e.TupleLit? then MakeTuple(Register(out), |e.elems|, locs)
          else MakeList(Register(out), |e.elems|, locs)];
    }

    /** The branches are generated before the condition. */
    method GenerateIf(e: Expr, out: nat) returns (ok: bool, code: seq<Instr>)
      requires e.If? && Linked()
      modifies this, above
      ensures Gen(e, out, old(View()), mod) == Outcome(ok, code, View())
      decreases e, 2
    {
      hide Branch, GenBlock;
      var thenCode, elseCode, reg;
      ok, thenCode := GenerateBlock(e.body, out);
      if !ok { return false, []; }
      ok, elseCode := GenerateBlock(e.elseBody, out);
      if !ok { return false, []; }
      ok, reg := PushReg();
      if !ok { return false, []; }
      ok, code := GenerateExpr(e.cond, reg);
      if !ok { return false, []; }
      ok, code := BranchInto(code, reg, thenCode, elseCode);
    }

    /** gen_branch_into */
    method BranchInto(code: seq<Instr>, reg: nat, thenCode: seq<Instr>, elseCode: seq<Instr>)
        returns (ok: bool, r: seq<Instr>)
      ensures Branch(reg, thenCode, elseCode).Some? <==> ok
      ensures ok ==> r == code + Branch(reg, thenCode, elseCode).value
    {
      r := code;
      var els := elseCode;
      if ByteSizeOf(thenCode) > 0 {
        if ByteSizeOf(thenCode) + 1 > 255 { return false, []; }
        els := els + [Jmp(ByteSizeOf(thenCode) + 1)];
      }
      if ByteSizeOf(els) + 1 > 255 { return false, []; }
      r := r + [Test(Register(reg), ByteSizeOf(els) + 1)];
      r := r + els;
      r := r + thenCode;
      ok := true;
      assert r == code + ([Test(Register(reg), ByteSizeOf(els) + 1)] + els + thenCode);
    }

    /** A nested function is compiled by a generator of its own, linked to this. */
    method GenerateLambda(e: Expr, out: nat) returns (ok: bool, code: seq<Instr>)
      requires e.Lambda? && Linked()
      modifies this, above
      ensures Gen(e, out, old(View()), mod) == Outcome(ok, code, View())
      decreases e, 2
    {
      hide GenBlock;
      if |e.params| > 255 { return false, []; }
      var child := new FnGenerator(mod, e.params, this);
      var body;
      ok, body := child.GenerateCode(e.params, e.body);
      if !ok || ByteSizeOf(body) + 1 > 255 { return false, []; }
      code := [AnonFn(Register(out), ByteSizeOf(body) + 1, |e.params|, child.upvals)];
      code := code + body;
    }

    /** The loop over arguments: a register for each, and its code. */
    method GenerateArgs(args: seq<Expr>) returns (ok: bool, code: seq<Instr>)
      requires Linked()
      modifies this, above
      ensures GenArgs(args, old(View()), mod) == Outcome(ok, code, View())
      decreases args, 1
    {
      hide Gen;
      code := [];
      BehindNothing(GenArgs(args, View(), mod));
      assert args[0..] == args;
      for i := 0 to |args|
        invariant GenArgs(args, old(View()), mod) == Behind(code, GenArgs(args[i..], View(), mod))
      {
        assert args[i..][0] == args[i] && args[i..][1..] == args[i + 1..];
        var reg, more;
        ok, reg := PushReg();
        if !ok { return false, []; }
        ok, more := GenerateExpr(args[i], reg);
        if !ok { return false, []; }
        BehindTwice(code, more, GenArgs(args[i + 1..], View(), mod));
        code := code + more;
      }
      assert code + [] == code;
      ok := true;
    }

    /** generate_block */
    method GenerateBlock(block: seq<Expr>, out: nat) returns (ok: bool, code: seq<Instr>)
      requires Linked()
      modifies this, above
      ensures GenBlock(block, out, old(View()), mod) == Outcome(ok, code, View())
      decreases block, 1
    {
      hide Gen;
      if |block| == 0 { return true, [Plain(StoreNil, [Register(out)])]; }
      code := [];
      BehindNothing(GenItems(block, out, View(), mod));
      assert block[0..] == block;
      for i := 0 to |block|
        invariant GenItems(block, out, old(View()), mod) == Behind(code, GenItems(block[i..], out, View(), mod))
      {
        assert block[i..][0] == block[i] && block[i..][1..] == block[i + 1..];
        var more;
        ok, more := GenerateExpr(block[i], out);
        if !ok { return false, []; }
        BehindTwice(code, more, GenItems(block[i + 1..], out, View(), mod));
        code := code + more;
      }
      assert code + [] == code;
      ok := true;
    }

    /** generate_code, right after `new`. */
    method GenerateCode(params: seq<string>, body: seq<Expr>) returns (ok: bool, code: seq<Instr>)
      requires Linked()
      requires Some(View()) == NewScope(params, if parent == null then None else Some(parent.View()))
      modifies this, above
      ensures GenBody(params, body, if parent == null then None else Some(old(parent.View())), mod)
          == Outcome(ok, code, View())
      decreases body, 2
    {
      hide GenBlock;
      ok, code := GenerateBlock(body, 0);
      code := code + [Return];
    }
  }

  lemma {:induction false} FirstIndex(refs: seq<VarRef>, v: VarRef, i: nat)
    requires i <= |refs| && v !in refs[..i] && (i < |refs| ==> refs[i] == v)
    ensures IndexOf(refs, v) == i && (i < |refs| <==> v in refs)
  {
    if refs != [] && i > 0 {
      assert refs[..i][0] == refs[0] && refs[..i][1..] == refs[1..][..i - 1];
      FirstIndex(refs[1..], v, i - 1);
    }
  }

  /** FnGenerator::generate for a function of a module. */
  method GenerateFunction(f: FunDef, mod: string) returns (r: Option<Fun>)
    ensures r == GenFunction(f, mod)
  {
    hide GenBlock;
    if |f.params| > 255 { return None; }
    var g := new FnGenerator(mod, f.params, null);
    var ok, code := g.GenerateCode(f.params, f.body);
    if !ok { return None; }
    r := Some(Fun(QualifiedName(mod, f.name), |f.params|, code));
  }

  /** generate: the functions of a module, one after the other.  There is code exactly
      when all of them fit. */
  method GenerateModule(mod: string, fs: seq<FunDef>) returns (r: Option<seq<Fun>>)
    ensures r == GenModule(mod, fs)
    ensures r.Some? <==> forall i :: 0 <= i < |fs| ==> FunctionFits(fs[i])
  {
    hide GenFunction, FunctionFits;
    ModuleCompiles(mod, fs);
    var funs := [];
    assert fs[0..] == fs;
    if GenModule(mod, fs).Some? { assert [] + GenModule(mod, fs).value == GenModule(mod, fs).value; }
    for i := 0 to |fs|
      invariant GenModule(mod, fs) == if GenModule(mod, fs[i..]).None? then None
          else Some(funs + GenModule(mod, fs[i..]).value)
    {
      assert fs[i..][0] == fs[i] && fs[i..][1..] == fs[i + 1..];
      var f := GenerateFunction(fs[i], mod);
      if f.None? { return None; }
      var rest := GenModule(mod, fs[i + 1..]);
      if rest.Some? { assert funs + ([f.value] + rest.value) == funs + [f.value] + rest.value; }
      funs := funs + [f.value];
    }
    assert funs + [] == funs;
    r := Some(funs);
  }
}
