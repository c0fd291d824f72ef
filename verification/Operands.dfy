/**
 Where the compiler looks for operands, and when they are there: an if or a let
 inside an operand takes a register and never gives it back, and the operands are
 then read one register too high.
 */
module Operands {
  import opened Seqs
  import opened Ast
  import opened Bytecode
  import opened Codegen

  /** The registers an expression takes and keeps. */
  function Kept(e: Expr): nat
    decreases e, 1
  {
    match e
    case Let(_, right) => 1 + Kept(right)
    case If(cond, body, elseBody) => KeptBy(body) + KeptBy(elseBody) + 1 + Kept(cond)
    case Apply(_, name, args) =>
      if (name == "&&" || name == "||") && |args| >= 2 then Kept(args[0]) + Kept(args[1]) else KeptBy(args)
    case TupleLit(elems) => KeptBy(elems)
    case ListLit(elems) => KeptBy(elems)
    case _ => 0
  }

  function KeptBy(es: seq<Expr>): nat
    decreases es, 0
  {
    if es == [] then 0 else Kept(es[0]) + KeptBy(es[1..])
  }

  /** The register counter after an expression. */
  lemma {:induction false} GenKeeps(e: Expr, out: nat, s: Scope, mod: string)
    requires Gen(e, out, s, mod).Some?
    ensures Gen(e, out, s, mod).value.scope.varCount == s.varCount + Kept(e)
    decreases e, 1
  {
    hide Branch, ApplyOp, Search, Around, GenArgs, GenBlock;
    match e
    case Let(name, right) =>
      var s1 := Push(s).value;
      GenKeeps(right, s1.varCount, s1, mod);
    case Apply(callee, name, args) =>
      if name == "&&" || name == "||" {
        GenKeeps(args[0], out, s, mod);
        GenKeeps(args[1], out, Gen(args[0], out, s, mod).value.scope, mod);
      } else {
        ArgsKeep(args, s, mod);
        var (locs, s1) := Popped(GenArgs(args, s, mod).value.scope, |args|);
        ApplyOpKeeps(callee, name, out, locs, s1, mod);
      }
    case TupleLit(elems) => ArgsKeep(elems, s, mod);
    case ListLit(elems) => ArgsKeep(elems, s, mod);
    case If(cond, body, elseBody) =>
      var t := GenBlock(body, out, s, mod).value.scope;
      BlockKeeps(body, out, s, mod);
      var f := GenBlock(elseBody, out, t, mod).value.scope;
      BlockKeeps(elseBody, out, t, mod);
      var s1 := Push(f).value;
      GenKeeps(cond, s1.varCount, s1, mod);
    case _ =>
  }

  lemma ApplyOpKeeps(callee: Option<string>, name: string, out: nat, args: seq<VarRef>, s: Scope, mod: string)
    requires ApplyOp(callee, name, out, args, s, mod).Some?
    ensures ApplyOp(callee, name, out, args, s, mod).value.scope.varCount == s.varCount
  {
    hide Primitive;
  }

  lemma {:induction false} ArgsKeep(es: seq<Expr>, s: Scope, mod: string)
    requires GenArgs(es, s, mod).Some?
    ensures GenArgs(es, s, mod).value.scope.varCount == s.varCount + |es| + KeptBy(es)
    decreases es, 0
  {
    hide Gen;
    if es != [] {
      var s1 := Push(s).value;
      GenKeeps(es[0], s1.varCount, s1, mod);
      ArgsKeep(es[1..], Gen(es[0], s1.varCount, s1, mod).value.scope, mod);
    }
  }

  lemma {:induction false} BlockKeeps(block: seq<Expr>, out: nat, s: Scope, mod: string)
    requires GenBlock(block, out, s, mod).Some?
    ensures GenBlock(block, out, s, mod).value.scope.varCount == s.varCount + KeptBy(block)
    decreases block, 1
  {
    if block != [] { ItemsKeep(block, out, s, mod); }
  }

  lemma {:induction false} ItemsKeep(block: seq<Expr>, out: nat, s: Scope, mod: string)
    requires GenItems(block, out, s, mod).Some?
    ensures GenItems(block, out, s, mod).value.scope.varCount == s.varCount + KeptBy(block)
    decreases block, 0
  {
    hide Gen;
    if block != [] {
      GenKeeps(block[0], out, s, mod);
      ItemsKeep(block[1..], out, Gen(block[0], out, s, mod).value.scope, mod);
    }
  }

  /** The registers that operands are computed into. */
  function Destinations(es: seq<Expr>, s: Scope, mod: string): (r: seq<VarRef>)
    requires GenArgs(es, s, mod).Some?
    ensures |r| == |es|
  {
    if es == [] then []
    else
      var s1 := Push(s).value;
      [Register(s1.varCount)] + Destinations(es[1..], Gen(es[0], s1.varCount, s1, mod).value.scope, mod)
  }

  lemma {:induction false} DestinationsAligned(es: seq<Expr>, s: Scope, mod: string)
    requires GenArgs(es, s, mod).Some? && KeptBy(es) == 0
    ensures forall i :: 0 <= i < |es| ==> Destinations(es, s, mod)[i] == Register(s.varCount + 1 + i)
    decreases es
  {
    hide Gen;
    if es != [] {
      var s1 := Push(s).value;
      var s2 := Gen(es[0], s1.varCount, s1, mod).value.scope;
      GenKeeps(es[0], s1.varCount, s1, mod);
      DestinationsAligned(es[1..], s2, mod);
      var d := Destinations(es, s, mod);
      forall i | 0 <= i < |es| ensures d[i] == Register(s.varCount + 1 + i) {
        if i > 0 { assert d[i] == Destinations(es[1..], s2, mod)[i - 1]; }
      }
    }
  }

  /** The popped registers are those the operands were computed into exactly when
      no operand contains an if or a let (outside nested functions). */
  lemma OperandsFoundIff(es: seq<Expr>, s: Scope, mod: string)
    requires GenArgs(es, s, mod).Some? && es != []
    ensures Popped(GenArgs(es, s, mod).value.scope, |es|).0 == Destinations(es, s, mod) <==> KeptBy(es) == 0
  {
    hide Gen;
    ArgsKeep(es, s, mod);
    var locs, d := Popped(GenArgs(es, s, mod).value.scope, |es|).0, Destinations(es, s, mod);
    assert locs[0] == Register(s.varCount + KeptBy(es) + 1) && d[0] == Register(s.varCount + 1);
    if KeptBy(es) == 0 {
      DestinationsAligned(es, s, mod);
      assert locs == d;
    }
  }

  /** In `(if true { 1 } else { 2 }) + 3` the sum is taken of the condition and 3. */
  lemma IfAsOperand(mod: string)
    ensures var e := Apply(None, "+", [If(TrueLit, [IntLit(1)], [IntLit(2)]), IntLit(3)]);
            var s := Scope(0, map[], [], None);
            && GenArgs(e.args, s, mod).Some?
            && Destinations(e.args, s, mod) == [Register(1), Register(3)]
            && Popped(GenArgs(e.args, s, mod).value.scope, 2).0 == [Register(2), Register(3)]
  {
    var i := If(TrueLit, [IntLit(1)], [IntLit(2)]);
    var es := [i, IntLit(3)];
    var s, s3 := Scope(0, map[], [], None), Scope(3, map[], [], None);
    IfKeepsRegister(mod);
    hide Gen;
    var g := Gen(i, 1, Scope(1, map[], [], None), mod).value;
    SecondOperand(mod);
    assert es[1..] == [IntLit(3)];
    assert Push(s) == Some(Scope(1, map[], [], None));
    assert GenArgs(es, s, mod).value.scope == s3;
    assert Destinations(es, s, mod) == [Register(1)] + Destinations([IntLit(3)], g.scope, mod);
  }

  lemma SecondOperand(mod: string)
    ensures var s := Scope(2, map[], [], None);
            GenArgs([IntLit(3)], s, mod).Some? && GenArgs([IntLit(3)], s, mod).value.scope == Scope(3, map[], [], None)
            && Destinations([IntLit(3)], s, mod) == [Register(3)]
  {
    var s3 := Scope(3, map[], [], None);
    assert Gen(IntLit(3), 3, s3, mod) == Some(Output([StoreInt(Register(3), 3)], s3));
    assert [IntLit(3)][1..] == [];
    assert GenArgs([], s3, mod) == Some(Output([], s3));
  }

  lemma IfKeepsRegister(mod: string)
    ensures var g := Gen(If(TrueLit, [IntLit(1)], [IntLit(2)]), 1, Scope(1, map[], [], None), mod);
            g.Some? && g.value.scope == Scope(2, map[], [], None)
  {
    var s1 := Scope(1, map[], [], None);
    var one, two := [StoreInt(Register(1), 1)], [StoreInt(Register(1), 2)];
    BlockOfOne(IntLit(1), 1, s1, mod, one);
    BlockOfOne(IntLit(2), 1, s1, mod, two);
    assert ByteSizeOf(one) == 4 + ByteSizeOf([]) == 4;
    ByteSizeOfConcat(two, [Jmp(5)]);
    assert ByteSizeOf(two) == 4 + ByteSizeOf([]) == 4;
    assert ByteSizeOf([Jmp(5)]) == 2 + ByteSizeOf([]) == 2;
    assert Branch(2, one, two).Some?;
  }

  lemma BlockOfOne(e: Expr, out: nat, s: Scope, mod: string, code: seq<Instr>)
    requires Gen(e, out, s, mod) == Some(Output(code, s))
    ensures GenBlock([e], out, s, mod) == Some(Output(code, s))
  {
    hide Gen;
    assert [e][1..] == [] && code + [] == code;
    assert GenItems([], out, s, mod) == Some(Output([], s));
  }
}
