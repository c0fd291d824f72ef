/**
 Programs that take no slices: no list of theirs is cut, so every concat is safe, and
 they mean the same checked and unchecked.
 */
module Sliceless {
  import opened Seqs
  import opened Ast
  import opened Bytecode
  import opened ListHistory
  import opened Semantics

  predicate NoSlice(e: Expr)
    decreases e, 0
  {
    match e
    case Let(_, right) => NoSlice(right)
    case If(cond, body, elseBody) => NoSlice(cond) && NoSlices(body) && NoSlices(elseBody)
    case Apply(_, name, args) => name != "list_slice" && NoSlices(args)
    case TupleLit(elems) => NoSlices(elems)
    case ListLit(elems) => NoSlices(elems)
    case Lambda(_, body) => NoSlices(body)
    case _ => true
  }

  predicate NoSlices(es: seq<Expr>)
    decreases es, 0
  {
    es == [] || (NoSlice(es[0]) && NoSlices(es[1..]))
  }

  predicate Uncut(p: Program) {
    forall full :: full in p.defs ==> NoSlices(p.defs[full].1.body)
  }

  /** A value in which no list is cut, and no function takes slices. */
  ghost predicate Whole(v: Val) {
    match v
    case TupleVal(elems) => forall i :: 0 <= i < |elems| ==> Whole(elems[i])
    case ListVal(elems, cut) => !cut && forall i :: 0 <= i < |elems| ==> Whole(elems[i])
    case ClosureVal(_, _, body, env) => NoSlices(body) && forall i :: 0 <= i < |env| ==> Whole(env[i].val)
    case _ => true
  }

  ghost predicate AllWhole(vals: seq<Val>) {
    forall i :: 0 <= i < |vals| ==> Whole(vals[i])
  }

  ghost predicate WholeEnv(env: seq<Binding>) {
    forall i :: 0 <= i < |env| ==> Whole(env[i].val)
  }

  /** The same with and without the check, and nothing cut. */
  ghost predicate Same(checked: Option<Val>, unchecked: Option<Val>) {
    checked == unchecked && (checked.Some? ==> Whole(checked.value))
  }

  lemma {:induction false} LookupWhole(env: seq<Binding>, name: string)
    requires WholeEnv(env) && Lookup(env, name).Some?
    ensures Whole(Lookup(env, name).value)
    decreases |env|
  {
    if env[|env| - 1].name != name { LookupWhole(env[..|env| - 1], name); }
  }

  lemma OperateWhole(name: string, vals: seq<Val>)
    requires name != "list_slice" && AllWhole(vals)
    ensures Same(Operate(true, name, vals), Operate(false, name, vals))
  {
    if name == "++" && |vals| >= 2 && vals[0].ListVal? && vals[1].ListVal? {
      assert Whole(vals[0]) && Whole(vals[1]);
    } else if (name == "tuple_nth" || name == "list_nth") && |vals| >= 2 {
      assert Whole(vals[0]);
    }
  }

  lemma {:induction false} SameEval(p: Program, k: nat, mod: string, env: seq<Binding>, e: Expr)
    requires Uncut(p) && NoSlice(e) && WholeEnv(env)
    ensures Same(Eval(Checked(p, true), k, mod, env, e), Eval(Checked(p, false), k, mod, env, e))
    decreases k, e, 0
  {
    hide Operate, OPERATORS, Uncut;
    match e
    case Ident(name) => if name in Names(env) { LookupWhole(env, name); }
    case TupleLit(elems) => SameArgs(p, k, mod, env, elems);
    case ListLit(elems) => SameArgs(p, k, mod, env, elems);
    case Apply(callee, name, args) =>
      if name == "&&" || name == "||" {
        if |args| >= 2 {
          SameEval(p, k, mod, env, args[0]);
          assert NoSlices(args[1..]) && args[1] == args[1..][0];
          SameEval(p, k, mod, env, args[1]);
        }
      } else {
        SameArgs(p, k, mod, env, args);
        var vals := EvalArgs(Checked(p, true), k, mod, env, args);
        if vals.Some? {
          OperateWhole(name, vals.value);
          if name !in OPERATORS && k > 0 {
            if callee.None? && name in Names(env) {
              LookupWhole(env, name);
              SameCall(p, k - 1, Lookup(env, name).value, vals.value);
            } else {
              SameCall(p, k - 1, FnVal(FullOf(callee, mod, name, |args|)), vals.value);
            }
          }
        }
      }
    case _ =>
  }

  lemma {:induction false} SameArgs(p: Program, k: nat, mod: string, env: seq<Binding>, args: seq<Expr>)
    requires Uncut(p) && NoSlices(args) && WholeEnv(env)
    ensures EvalArgs(Checked(p, true), k, mod, env, args) == EvalArgs(Checked(p, false), k, mod, env, args)
    ensures var r := EvalArgs(Checked(p, true), k, mod, env, args); r.Some? ==> AllWhole(r.value)
    decreases k, args, 0
  {
    hide Eval, NoSlice, Uncut, Whole;
    if args != [] {
      SameEval(p, k, mod, env, args[0]);
      SameArgs(p, k, mod, env, args[1..]);
    }
  }

  lemma {:induction false} SameCall(p: Program, k: nat, f: Val, vals: seq<Val>)
    requires Uncut(p) && Whole(f) && AllWhole(vals)
    ensures Same(CallVal(Checked(p, true), k, f, vals), CallVal(Checked(p, false), k, f, vals))
    decreases k
  {
    hide EvalBody;
    match f
    case FnVal(full) =>
      if full in p.defs && |p.defs[full].1.params| == |vals| {
        var (mod, def) := p.defs[full];
        SameBody(p, k, mod, Bind(def.params, vals), def.body);
      }
    case ClosureVal(mod, params, body, env) =>
      if |params| == |vals| { SameBody(p, k, mod, env + Bind(params, vals), body); }
    case _ =>
  }

  lemma {:induction false} SameBody(p: Program, k: nat, mod: string, env: seq<Binding>, block: seq<Expr>)
    requires Uncut(p) && NoSlices(block) && WholeEnv(env)
    ensures Same(EvalBody(Checked(p, true), k, mod, env, block), EvalBody(Checked(p, false), k, mod, env, block))
    decreases k, block, 1
  {
    hide EvalItems, Uncut;
    if block != [] { SameItems(p, k, mod, env, block); }
  }

  lemma {:induction false} SameItems(p: Program, k: nat, mod: string, env: seq<Binding>, block: seq<Expr>)
    requires block != [] && Uncut(p) && NoSlices(block) && WholeEnv(env)
    ensures Same(EvalItems(Checked(p, true), k, mod, env, block), EvalItems(Checked(p, false), k, mod, env, block))
    decreases k, block, 0
  {
    hide Eval, EvalItem, Uncut;
    if block[0].Let? {
      SameEval(p, k, mod, env, block[0].right);
      var v := Eval(Checked(p, true), k, mod, env, block[0].right);
      if v.Some? && |block| > 1 {
        SameItems(p, k, mod, env + [Binding(block[0].name, v.value)], block[1..]);
      }
    } else {
      SameItem(p, k, mod, env, block[0]);
      if |block| > 1 { SameItems(p, k, mod, env, block[1..]); }
    }
  }

  lemma {:induction false} SameItem(p: Program, k: nat, mod: string, env: seq<Binding>, e: Expr)
    requires Uncut(p) && NoSlice(e) && WholeEnv(env)
    ensures Same(EvalItem(Checked(p, true), k, mod, env, e), EvalItem(Checked(p, false), k, mod, env, e))
    decreases k, e, 1
  {
    hide Eval, EvalBody, Uncut;
    if e.If? {
      SameEval(p, k, mod, env, e.cond);
      SameBody(p, k, mod, env, e.body);
      SameBody(p, k, mod, env, e.elseBody);
    } else {
      SameEval(p, k, mod, env, e);
    }
  }
}
