/**
 Where jumps lead: in everything the compiler generates, each jump ends at the
 start of an instruction or just behind the code, and without captures this is
 still so once the code is loaded.
 */
module Jumps {
  import opened Seqs
  import opened Ast
  import opened Bytecode
  import opened Loader
  import opened Codegen

  function JumpOf(i: Instr): Option<nat> {
    match i
    case Test(_, jump) => Some(jump)
    case Jmp(jump) => Some(jump)
    case AnonFn(_, jump, _, _) => Some(jump)
    case _ => None
  }

  /** The jump at i, counted from the last byte of its instruction, ends where
      instruction j begins. */
  ghost predicate Lands(code: seq<Instr>, i: nat, j: nat)
    requires i < |code|
  {
    i < j <= |code| && JumpOf(code[i]).Some?
    && ByteSizeOf(code[..j]) + 1 == ByteSizeOf(code[..i + 1]) + JumpOf(code[i]).value
  }

  ghost predicate JumpsLand(code: seq<Instr>) {
    forall i :: 0 <= i < |code| && JumpOf(code[i]).Some? ==> exists j :: Lands(code, i, j)
  }

  lemma LandsLeft(a: seq<Instr>, b: seq<Instr>, i: nat, j: nat)
    requires i < |a| && Lands(a, i, j)
    ensures Lands(a + b, i, j)
  {
    assert (a + b)[..j] == a[..j] && (a + b)[..i + 1] == a[..i + 1];
  }

  lemma LandsRight(a: seq<Instr>, b: seq<Instr>, i: nat, j: nat)
    requires i < |b| && Lands(b, i, j)
    ensures Lands(a + b, |a| + i, |a| + j)
  {
    assert (a + b)[..|a| + j] == a + b[..j] && (a + b)[..|a| + i + 1] == a + b[..i + 1];
    ByteSizeOfConcat(a, b[..j]);
    ByteSizeOfConcat(a, b[..i + 1]);
  }

  lemma JumpsConcat(a: seq<Instr>, b: seq<Instr>)
    requires JumpsLand(a) && JumpsLand(b)
    ensures JumpsLand(a + b)
  {
    hide Lands;
    forall i | 0 <= i < |a + b| && JumpOf((a + b)[i]).Some? ensures exists j :: Lands(a + b, i, j) {
      if i < |a| {
        var j :| Lands(a, i, j);
        LandsLeft(a, b, i, j);
      } else {
        var j :| Lands(b, i - |a|, j);
        LandsRight(a, b, i - |a|, j);
      }
    }
  }

  /** A jump in front of code that lands. */
  lemma JumpsBehind(i: Instr, code: seq<Instr>, j: nat)
    requires JumpsLand(code) && 1 <= j <= |code| + 1 && JumpOf(i) == Some(ByteSizeOf(code[..j - 1]) + 1)
    ensures JumpsLand([i] + code)
  {
    var all := [i] + code;
    assert all[..j] == [i] + code[..j - 1] && all[..1] == [i];
    ByteSizeOfConcat([i], code[..j - 1]);
    assert Lands(all, 0, j);
    forall k | 0 <= k < |all| && JumpOf(all[k]).Some? ensures exists l :: Lands(all, k, l) {
      if k > 0 {
        var l :| Lands(code, k - 1, l);
        LandsRight([i], code, k - 1, l);
      }
    }
  }

  /** The else-branch, its jump if there is one, and the then-branch. */
  lemma SidesLand(t: seq<Instr>, f: seq<Instr>, els: seq<Instr>)
    requires JumpsLand(t) && JumpsLand(f)
    requires els == if ByteSizeOf(t) > 0 then f + [Jmp(ByteSizeOf(t) + 1)] else f
    ensures JumpsLand(els + t)
  {
    hide JumpsLand, ByteSizeOf;
    if ByteSizeOf(t) > 0 {
      var i := Jmp(ByteSizeOf(t) + 1);
      assert t[..|t|] == t;
      JumpsBehind(i, t, |t| + 1);
      JumpsConcat(f, [i] + t);
      assert f + ([i] + t) == els + t;
    } else {
      JumpsConcat(f, t);
    }
  }

  lemma BranchLands(reg: nat, t: seq<Instr>, f: seq<Instr>)
    requires JumpsLand(t) && JumpsLand(f) && Branch(reg, t, f).Some?
    ensures JumpsLand(Branch(reg, t, f).value)
  {
    hide JumpsLand, ByteSizeOf;
    var els := if ByteSizeOf(t) > 0 then f + [Jmp(ByteSizeOf(t) + 1)] else f;
    SidesLand(t, f, els);
    var test := Test(Register(reg), ByteSizeOf(els) + 1);
    assert (els + t)[..|els|] == els;
    JumpsBehind(test, els + t, |els| + 1);
    assert [test] + (els + t) == [test] + els + t;
  }

  lemma NoJumps(code: seq<Instr>)
    requires forall i :: 0 <= i < |code| ==> JumpOf(code[i]).None?
    ensures JumpsLand(code)
  {}

  /** Every jump the compiler generates lands. */
  lemma {:induction false} GenLands(e: Expr, out: nat, s: Scope, mod: string)
    requires Gen(e, out, s, mod).Some?
    ensures JumpsLand(Gen(e, out, s, mod).value.code)
    decreases e, 1
  {
    hide JumpsLand, Branch, ApplyOp, Search, Around, GenArgs, GenBlock, GenBody;
    match e
    case Let(name, right) =>
      var s1 := Push(s).value;
      GenLands(right, s1.varCount, s1, mod);
    case Apply(callee, name, args) =>
      if name == "&&" || name == "||" {
        var l := Gen(args[0], out, s, mod).value;
        var r := Gen(args[1], out, l.scope, mod).value;
        var (t, f) := if name == "&&" then (r.code, []) else ([], r.code);
        GenLands(args[0], out, s, mod);
        GenLands(args[1], out, l.scope, mod);
        NoJumps([]);
        BranchLands(out, t, f);
        JumpsConcat(l.code, Branch(out, t, f).value);
      } else {
        var a := GenArgs(args, s, mod).value;
        var (locs, s1) := Popped(a.scope, |args|);
        ArgsLand(args, s, mod);
        ApplyOpLands(callee, name, out, locs, s1, mod);
        JumpsConcat(a.code, ApplyOp(callee, name, out, locs, s1, mod).value.code);
      }
    case TupleLit(elems) =>
      ArgsLand(elems, s, mod);
      var a := GenArgs(elems, s, mod).value;
      var i := MakeTuple(Register(out), |elems|, Popped(a.scope, |elems|).0);
      NoJumps([i]);
      JumpsConcat(a.code, [i]);
    case ListLit(elems) =>
      ArgsLand(elems, s, mod);
      var a := GenArgs(elems, s, mod).value;
      var i := MakeList(Register(out), |elems|, Popped(a.scope, |elems|).0);
      NoJumps([i]);
      JumpsConcat(a.code, [i]);
    case If(cond, body, elseBody) =>
      var t := GenBlock(body, out, s, mod).value;
      var f := GenBlock(elseBody, out, t.scope, mod).value;
      var s1 := Push(f.scope).value;
      var c := Gen(cond, s1.varCount, s1, mod).value;
      BlockLands(body, out, s, mod);
      BlockLands(elseBody, out, t.scope, mod);
      GenLands(cond, s1.varCount, s1, mod);
      BranchLands(s1.varCount, t.code, f.code);
      JumpsConcat(c.code, Branch(s1.varCount, t.code, f.code).value);
    case Lambda(params, body) =>
      var b := GenBody(params, body, Some(s), mod).value;
      BodyLands(params, body, Some(s), mod);
      assert b.code[..|b.code|] == b.code;
      JumpsBehind(AnonFn(Register(out), JumpOver(b.code).value, |params|, b.scope.upvals), b.code, |b.code| + 1);
    case _ =>
      NoJumps(Gen(e, out, s, mod).value.code);
  }

  lemma ApplyOpLands(callee: Option<string>, name: string, out: nat, args: seq<VarRef>, s: Scope, mod: string)
    requires ApplyOp(callee, name, out, args, s, mod).Some?
    ensures JumpsLand(ApplyOp(callee, name, out, args, s, mod).value.code)
  {
    hide Primitive;
    NoJumps(ApplyOp(callee, name, out, args, s, mod).value.code);
  }

  lemma {:induction false} ArgsLand(es: seq<Expr>, s: Scope, mod: string)
    requires GenArgs(es, s, mod).Some?
    ensures JumpsLand(GenArgs(es, s, mod).value.code)
    decreases es, 0
  {
    hide JumpsLand, Gen;
    if es == [] {
      NoJumps([]);
    } else {
      var s1 := Push(s).value;
      var first := Gen(es[0], s1.varCount, s1, mod).value;
      GenLands(es[0], s1.varCount, s1, mod);
      ArgsLand(es[1..], first.scope, mod);
      JumpsConcat(first.code, GenArgs(es[1..], first.scope, mod).value.code);
    }
  }

  lemma {:induction false} BlockLands(block: seq<Expr>, out: nat, s: Scope, mod: string)
    requires GenBlock(block, out, s, mod).Some?
    ensures JumpsLand(GenBlock(block, out, s, mod).value.code)
    decreases block, 1
  {
    if block == [] { NoJumps([Plain(StoreNil, [Register(out)])]); } else { ItemsLand(block, out, s, mod); }
  }

  lemma {:induction false} ItemsLand(block: seq<Expr>, out: nat, s: Scope, mod: string)
    requires GenItems(block, out, s, mod).Some?
    ensures JumpsLand(GenItems(block, out, s, mod).value.code)
    decreases block, 0
  {
    hide JumpsLand, Gen;
    if block == [] {
      NoJumps([]);
    } else {
      var first := Gen(block[0], out, s, mod).value;
      GenLands(block[0], out, s, mod);
      ItemsLand(block[1..], out, first.scope, mod);
      JumpsConcat(first.code, GenItems(block[1..], out, first.scope, mod).value.code);
    }
  }

  lemma {:induction false} BodyLands(params: seq<string>, body: seq<Expr>, parent: Option<Scope>, mod: string)
    requires GenBody(params, body, parent, mod).Some?
    ensures JumpsLand(GenBody(params, body, parent, mod).value.code)
    decreases body, 2
  {
    hide JumpsLand, GenBlock, Around;
    var s := NewScope(params, parent).value;
    BlockLands(body, 0, s, mod);
    NoJumps([Return]);
    JumpsConcat(GenBlock(body, 0, s, mod).value.code, [Return]);
  }

  /** In a function that captures no function, the bytes the machine has between a
      jump and its target are those the compiler counted: every jump of the loaded
      code ends at a loaded instruction, or behind the code. */
  lemma LoadedJumpsLand(f: FunDef, mod: string, names: seq<Name>, strings: seq<Name>, i: nat) returns (j: nat)
    requires GenFunction(f, mod).Some?
    requires var code := GenFunction(f, mod).value.code;
             CodeOk(code) && NoCapture(code) && i < |code| && JumpOf(code[i]).Some?
    ensures var code := GenFunction(f, mod).value.code;
            i < j <= |code|
            && |LoadedAll(code[..j], names, strings)| + 1
               == |LoadedAll(code[..i + 1], names, strings)| + JumpOf(code[i]).value
  {
    hide GenBody;
    BodyLands(f.params, f.body, None, mod);
    var code := GenFunction(f, mod).value.code;
    j :| Lands(code, i, j);
    ByteSizeOfIsLoadedSize(code[..j], names, strings);
    ByteSizeOfIsLoadedSize(code[..i + 1], names, strings);
  }
}
