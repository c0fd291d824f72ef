/**
 What the code generator does to registers and names within the fragment, and the
 shape of the code it lays out for branches.
 */
module Fragment {
  import opened Seqs
  import opened Ast
  import opened Bytecode
  import opened Loader
  import opened Codegen
  import opened Scopes
  import opened Semantics

  /** Names stand for registers in use. */
  ghost predicate InUse(s: Scope) {
    forall x :: x in s.env ==> s.env[x].Register? && 1 <= s.env[x].reg <= s.varCount
  }

  lemma NoCaptureConcat(a: seq<Instr>, b: seq<Instr>)
    requires NoCapture(a) && NoCapture(b)
    ensures NoCapture(a + b)
  {}

  lemma BranchNoCapture(reg: nat, t: seq<Instr>, f: seq<Instr>)
    requires NoCapture(t) && NoCapture(f) && Branch(reg, t, f).Some?
    ensures NoCapture(Branch(reg, t, f).value)
  {}

  lemma ApplyOpFacts(callee: Option<string>, name: string, out: nat, args: seq<VarRef>, s: Scope, mod: string)
    requires ApplyOp(callee, name, out, args, s, mod).Some?
    ensures var r := ApplyOp(callee, name, out, args, s, mod).value;
            r.scope.env == s.env && r.scope.varCount == s.varCount && NoCapture(r.code)
  {
    hide Primitive;
    SearchEnv(s, name);
  }

  lemma SearchEnv(s: Scope, name: string)
    ensures Search(s, name).1.env == s.env && Search(s, name).1.varCount == s.varCount
  {}

  /** An expression in argument position leaves names and registers alone. */
  lemma {:induction false} SimpleFacts(e: Expr, v: Sight, captures: bool, out: nat, s: Scope, mod: string)
    requires Simple(e, v, captures) && Gen(e, out, s, mod).Some?
    ensures var r := Gen(e, out, s, mod).value;
            r.scope.env == s.env && r.scope.varCount == s.varCount && (!captures ==> NoCapture(r.code))
    decreases e, 1
  {
    hide Branch, ApplyOp, Search, Around, GenArgs, GenBody, BlockOk, AllSimple, NoCapture, OPERATORS;
    NoCaptureOne(e, out);
    match e
    case Ident(name) => SearchEnv(s, name); NoCaptureMov(out, Search(s, name).0);
    case Apply(callee, name, args) =>
      if name == "&&" || name == "||" {
        var l := Gen(args[0], out, s, mod).value;
        SimpleFacts(args[0], v, captures, out, s, mod);
        SimpleFacts(args[1], Later(v, HasCall(args[0])), false, out, l.scope, mod);
        var r := Gen(args[1], out, l.scope, mod).value;
        var (t, f) := if name == "&&" then (r.code, []) else ([], r.code);
        NoCaptureEmpty();
        BranchNoCapture(out, t, f);
        if !captures { NoCaptureConcat(l.code, Branch(out, t, f).value); }
      } else {
        ArgsFacts(args, v, captures, s, mod);
        var a := GenArgs(args, s, mod).value;
        var (locs, s1) := Popped(a.scope, |args|);
        ApplyOpFacts(callee, name, out, locs, s1, mod);
        if !captures { NoCaptureConcat(a.code, ApplyOp(callee, name, out, locs, s1, mod).value.code); }
      }
    case TupleLit(elems) =>
      ArgsFacts(elems, v, captures, s, mod);
      var a := GenArgs(elems, s, mod).value;
      NoCaptureMake(out, |elems|, Popped(a.scope, |elems|).0);
      if !captures { NoCaptureConcat(a.code, [MakeTuple(Register(out), |elems|, Popped(a.scope, |elems|).0)]); }
    case ListLit(elems) =>
      ArgsFacts(elems, v, captures, s, mod);
      var a := GenArgs(elems, s, mod).value;
      NoCaptureMake(out, |elems|, Popped(a.scope, |elems|).0);
      if !captures { NoCaptureConcat(a.code, [MakeList(Register(out), |elems|, Popped(a.scope, |elems|).0)]); }
    case Lambda(params, body) => LambdaFacts(e, v, captures, out, s, mod);
    case _ =>
  }

  lemma NoCaptureEmpty()
    ensures NoCapture([])
  {}

  lemma NoCaptureOne(e: Expr, out: nat)
    ensures NoCapture([StoreInt(Register(out), if e.IntLit? then e.val else 0)])
    ensures NoCapture([Plain(StoreTrue, [Register(out)])]) && NoCapture([Plain(StoreFalse, [Register(out)])])
    ensures NoCapture([Plain(StoreNil, [Register(out)])])
    ensures NoCapture([LoadString(Register(out), if e.StrLit? then Text(e.text) else [])])
  {}

  lemma NoCaptureMov(out: nat, from: Option<VarRef>)
    ensures from.Some? ==> NoCapture([Plain(Mov, [Register(out), from.value])])
  {}

  lemma NoCaptureMake(out: nat, n: nat, locs: seq<VarRef>)
    ensures NoCapture([MakeTuple(Register(out), n, locs)]) && NoCapture([MakeList(Register(out), n, locs)])
  {}

  lemma {:induction false} LambdaFacts(e: Expr, v: Sight, captures: bool, out: nat, s: Scope, mod: string)
    requires e.Lambda? && Simple(e, v, captures) && Gen(e, out, s, mod).Some?
    ensures var r := Gen(e, out, s, mod).value;
            r.scope.env == s.env && r.scope.varCount == s.varCount && NoCapture(r.code)
    decreases e, 0
  {
    hide Branch, ApplyOp, Search, GenArgs, GenBlock;
    var b := GenBody(e.params, e.body, Some(s), mod).value;
    BodyFacts(e.params, e.body, Entry(v.locals, e.params, v.globals, true), false, Some(s), mod);
    var i := AnonFn(Register(out), JumpOver(b.code).value, |e.params|, b.scope.upvals);
    NoCaptureConcat([i], b.code);
  }

  /** Arguments take one register each. */
  lemma {:induction false} ArgsFacts(es: seq<Expr>, v: Sight, captures: bool, s: Scope, mod: string)
    requires AllSimple(es, v, captures) && GenArgs(es, s, mod).Some?
    ensures var r := GenArgs(es, s, mod).value;
            r.scope.env == s.env && r.scope.varCount == s.varCount + |es| && (!captures ==> NoCapture(r.code))
    decreases es, 0
  {
    hide Gen, Simple, Around;
    if es != [] {
      var s1 := Push(s).value;
      var first := Gen(es[0], s1.varCount, s1, mod).value;
      SimpleFacts(es[0], v, captures, s1.varCount, s1, mod);
      ArgsFacts(es[1..], Later(v, HasCall(es[0])), captures, first.scope, mod);
    }
  }

  /** Names added by a block stand for fresh registers, and are not names of
      functions called without a module. */
  ghost predicate Adds(s: Scope, t: Scope, globals: set<string>) {
    && s.varCount <= t.varCount
    && (forall x :: x in s.env ==> x in t.env && t.env[x] == s.env[x])
    && (forall x :: x in t.env && x !in s.env ==>
          x !in globals && t.env[x].Register? && s.varCount < t.env[x].reg <= t.varCount)
  }

  lemma {:induction false} ItemFacts(e: Expr, last: bool, v: Sight, captures: bool, out: nat, s: Scope, mod: string)
    requires BlockOk([e] + (if last then [] else [NilLit]), v, captures) && Gen(e, out, s, mod).Some?
    ensures var r := Gen(e, out, s, mod).value; Adds(s, r.scope, v.globals) && (!captures ==> NoCapture(r.code))
    decreases e, 2
  {
    hide Simple, NoCapture, AllSimple, Around, GenArgs, GenBlock, ApplyOp, Branch, Search;
    match e
    case Let(name, right) =>
      var s1 := Push(s).value;
      SimpleFacts(right, v, captures, s1.varCount, s1, mod);
    case If(cond, body, elseBody) =>
      IfFacts(e, v, captures, out, s, mod);
    case _ =>
      SimpleFacts(e, v, captures, out, s, mod);
  }

  lemma {:induction false} IfFacts(e: Expr, v: Sight, captures: bool, out: nat, s: Scope, mod: string)
    requires e.If? && Simple(e.cond, v, captures)
    requires BlockOk(e.body, Later(v, HasCall(e.cond)), false) && BlockOk(e.elseBody, Later(v, HasCall(e.cond)), false)
    requires Gen(e, out, s, mod).Some?
    ensures var r := Gen(e, out, s, mod).value; Adds(s, r.scope, v.globals) && (!captures ==> NoCapture(r.code))
    decreases e, 1
  {
    hide Simple, NoCapture, BlockOk, GenBlock, Branch, Around;
    var t := GenBlock(e.body, out, s, mod).value;
    BlockFacts(e.body, Later(v, HasCall(e.cond)), false, out, s, mod);
    var f := GenBlock(e.elseBody, out, t.scope, mod).value;
    BlockFacts(e.elseBody, Later(v, HasCall(e.cond)), false, out, t.scope, mod);
    var s1 := Push(f.scope).value;
    SimpleFacts(e.cond, v, captures, s1.varCount, s1, mod);
    var c := Gen(e.cond, s1.varCount, s1, mod).value;
    BranchNoCapture(s1.varCount, t.code, f.code);
    if !captures { NoCaptureConcat(c.code, Branch(s1.varCount, t.code, f.code).value); }
  }

  lemma {:induction false} ItemsFacts(block: seq<Expr>, v: Sight, captures: bool, out: nat, s: Scope, mod: string)
    requires BlockOk(block, v, captures) && GenItems(block, out, s, mod).Some?
    ensures var r := GenItems(block, out, s, mod).value;
            Adds(s, r.scope, v.globals) && (!captures ==> NoCapture(r.code))
    decreases block, 0
  {
    hide Simple, Gen, Around, NoCapture;
    if block == [] {
      NoCaptureEmpty();
    } else {
      var first := Gen(block[0], out, s, mod).value;
      FirstItem(block, v, captures);
      ItemFacts(block[0], |block| == 1, v, captures, out, s, mod);
      ItemsFacts(block[1..], Behind(v, block[0]), captures, out, first.scope, mod);
      if !captures { NoCaptureConcat(first.code, GenItems(block[1..], out, first.scope, mod).value.code); }
    }
  }

  lemma FirstItem(block: seq<Expr>, v: Sight, captures: bool)
    requires block != [] && BlockOk(block, v, captures)
    ensures BlockOk([block[0]] + (if |block| == 1 then [] else [NilLit]), v, captures)
    ensures BlockOk(block[1..], Behind(v, block[0]), captures)
  {
    var one := [block[0]] + (if |block| == 1 then [] else [NilLit]);
    if |block| == 1 { assert one[1..] == []; } else { assert one[1..] == [NilLit]; assert [NilLit][1..] == []; }
  }

  lemma {:induction false} BlockFacts(block: seq<Expr>, v: Sight, captures: bool, out: nat, s: Scope, mod: string)
    requires BlockOk(block, v, captures) && GenBlock(block, out, s, mod).Some?
    ensures var r := GenBlock(block, out, s, mod).value;
            Adds(s, r.scope, v.globals) && (!captures ==> NoCapture(r.code))
    decreases block, 1
  {
    if block == [] { NoCaptureOne(NilLit, out); } else { ItemsFacts(block, v, captures, out, s, mod); }
  }

  lemma {:induction false} BodyFacts(params: seq<string>, body: seq<Expr>, v: Sight, captures: bool,
      parent: Option<Scope>, mod: string)
    requires BlockOk(body, v, captures)
    requires GenBody(params, body, parent, mod).Some?
    ensures !captures ==> NoCapture(GenBody(params, body, parent, mod).value.code)
    decreases body, 2
  {
    hide GenBlock, BlockOk, Around;
    var s := NewScope(params, parent).value;
    BlockFacts(body, v, captures, 0, s, mod);
  }
}
