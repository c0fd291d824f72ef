/**
 What generating code does to scopes: upvalue lists only grow and never hold a
 reference twice, so an index once given keeps its meaning; names are only added,
 and never hide a name that was visible.
 */
module Scopes {
  import opened Seqs
  import opened Ast
  import opened Bytecode
  import opened Codegen

  /** The reference a name has in a scope, if every function on the way to its
      definition has captured it. */
  function Ref(s: Scope, name: string): Option<VarRef> {
    if name in s.env then Some(s.env[name])
    else if s.parent.None? then None
    else
      var outer := Ref(s.parent.value, name);
      if outer.None? || outer.value !in s.upvals then None
      else Some(Upvalue(IndexOf(s.upvals, outer.value)))
  }

  /** Upvalue lists grow at the end, at every depth; the names of the functions
      around stay. */
  ghost predicate Grown(s: Scope, t: Scope)
    decreases s
  {
    && s.upvals <= t.upvals
    && (s.parent.Some? <==> t.parent.Some?)
    && (s.parent.Some? ==> s.parent.value.env == t.parent.value.env && Grown(s.parent.value, t.parent.value))
  }

  lemma {:induction false} GrownRefl(s: Scope)
    ensures Grown(s, s)
    decreases s
  {
    if s.parent.Some? { GrownRefl(s.parent.value); }
  }

  lemma {:induction false} GrownTrans(s: Scope, t: Scope, u: Scope)
    requires Grown(s, t) && Grown(t, u)
    ensures Grown(s, u)
    decreases s
  {
    if s.parent.Some? { GrownTrans(s.parent.value, t.parent.value, u.parent.value); }
  }

  /** Grown does not look at the registers and names of the function itself. */
  lemma GrownInside(s: Scope, t: Scope, u: Scope)
    requires Grown(s, t) && u.upvals == t.upvals && u.parent == t.parent
    ensures Grown(s, u)
  {}

  /** Names stand for registers; upvalue lists are without repetitions, at every
      depth, and what they capture exists in the function around. */
  ghost predicate ScopeOk(s: Scope)
    decreases s
  {
    && (forall i, j :: 0 <= i < j < |s.upvals| ==> s.upvals[i] != s.upvals[j])
    && (s.parent.None? ==> s.upvals == [])
    && (forall x :: x in s.env ==> s.env[x].Register?)
    && (s.parent.Some? ==>
          && ScopeOk(s.parent.value)
          && forall i :: 0 <= i < |s.upvals| && s.upvals[i].Upvalue? ==> s.upvals[i].idx < |s.parent.value.upvals|)
  }

  lemma IndexOfGrown(a: seq<VarRef>, b: seq<VarRef>, v: VarRef)
    requires a <= b && v in a
    ensures IndexOf(a, v) == IndexOf(b, v) && v in b
  {
    if a[0] != v { IndexOfGrown(a[1..], b[1..], v); }
  }

  /** A reference, once there, stays as code is generated. */
  lemma {:induction false} RefStable(s: Scope, t: Scope, name: string)
    requires Grown(s, t) && s.env == t.env && Ref(s, name).Some?
    ensures Ref(t, name) == Ref(s, name)
    decreases s
  {
    if name !in s.env {
      RefStable(s.parent.value, t.parent.value, name);
      IndexOfGrown(s.upvals, t.upvals, Ref(s.parent.value, name).value);
    }
  }

  /** The lookup finds a name exactly when it exists, and what it answers is the
      name's reference from then on. */
  lemma {:induction false} SearchFinds(s: Scope, name: string)
    requires ScopeOk(s)
    ensures var (found, t) := Search(s, name);
            && (found.Some? <==> Exists(s, name))
            && (found.Some? ==> Ref(t, name) == found)
            && (found.None? ==> t == s)
            && Grown(s, t) && t.env == s.env && ScopeOk(t)
            && (found.Some? ==> if name in s.env then found.value.Register?
                                else found.value.Upvalue? && found.value.idx < |t.upvals|)
    decreases s
  {
    GrownRefl(s);
    if name !in s.env && s.parent.Some? {
      SearchFinds(s.parent.value, name);
      var (found, parent) := Search(s.parent.value, name);
      if found.Some? {
        var (v, t) := PushUpval(s.(parent := Some(parent)), found.value);
        if found.value !in s.upvals { IndexOfLast(s.upvals, found.value); }
      }
    }
  }

  lemma IndexOfLast(a: seq<VarRef>, v: VarRef)
    requires v !in a
    ensures IndexOf(a + [v], v) == |a|
  {
    if a != [] {
      assert (a + [v])[1..] == a[1..] + [v];
      IndexOfLast(a[1..], v);
    }
  }

  /** Names are only added, and only where they were not visible. */
  ghost predicate Evolves(s: Scope, t: Scope) {
    && Grown(s, t) && ScopeOk(t)
    && (forall x :: x in s.env ==> x in t.env && t.env[x] == s.env[x])
    && (forall x :: x in t.env && x !in s.env ==> !Exists(s, x))
  }

  lemma {:induction false} ExistsGrown(s: Scope, t: Scope, name: string)
    requires Grown(s, t) && s.env == t.env
    ensures Exists(s, name) <==> Exists(t, name)
    decreases s
  {
    if s.parent.Some? { ExistsGrown(s.parent.value, t.parent.value, name); }
  }

  /** What was visible stays visible. */
  lemma ExistsEvolves(s: Scope, t: Scope, name: string)
    requires Evolves(s, t) && Exists(s, name)
    ensures Exists(t, name)
  {
    if name !in s.env { ExistsGrown(s.parent.value, t.parent.value, name); }
  }

  lemma EvolvesRefl(s: Scope, t: Scope)
    requires ScopeOk(s) && t.upvals == s.upvals && t.parent == s.parent && t.env == s.env
    ensures Evolves(s, t)
  {
    GrownRefl(s);
  }

  lemma EvolvesTrans(s: Scope, t: Scope, u: Scope)
    requires Evolves(s, t) && Evolves(t, u)
    ensures Evolves(s, u)
  {
    GrownTrans(s, t, u);
    forall x | x in u.env && x !in s.env ensures !Exists(s, x) {
      if Exists(s, x) { ExistsEvolves(s, t, x); }
    }
  }

  /** Only registers in between. */
  lemma EvolvesFrom(s: Scope, s1: Scope, t: Scope)
    requires Evolves(s1, t) && s1.upvals == s.upvals && s1.parent == s.parent && s1.env == s.env
    ensures Evolves(s, t)
  {
    forall x ensures Exists(s, x) == Exists(s1, x) {}
  }

  lemma EvolvesTo(s: Scope, t: Scope, t1: Scope)
    requires Evolves(s, t) && t1.upvals == t.upvals && t1.parent == t.parent && t1.env == t.env
    ensures Evolves(s, t1)
  {}

  // ---------- the code generator ----------

  lemma SearchEvolves(s: Scope, name: string)
    requires ScopeOk(s)
    ensures Evolves(s, Search(s, name).1)
  {
    SearchFinds(s, name);
  }

  lemma {:induction false} GenEvolves(e: Expr, out: nat, s: Scope, mod: string)
    requires ScopeOk(s) && Gen(e, out, s, mod).Some?
    ensures Evolves(s, Gen(e, out, s, mod).value.scope)
    decreases e, 1
  {
    hide Evolves, ScopeOk, Search, Exists, Branch, ApplyOp, Around;
    EvolvesRefl(s, s);
    match e
    case Ident(name) => SearchEvolves(s, name);
    case Let(name, right) => LetEvolves(e, out, s, mod);
    case Apply(callee, name, args) =>
      if name == "&&" || name == "||" {
        var l := Gen(args[0], out, s, mod).value.scope;
        GenEvolves(args[0], out, s, mod);
        EvolvesOk(s, l);
        GenEvolves(args[1], out, l, mod);
        EvolvesTrans(s, l, Gen(args[1], out, l, mod).value.scope);
      } else {
        GenArgsEvolves(args, s, mod);
        var a := GenArgs(args, s, mod).value.scope;
        var (locs, s1) := Popped(a, |args|);
        EvolvesTo(s, a, s1);
        EvolvesOk(s, s1);
        ApplyOpEvolves(callee, name, out, locs, s1, mod);
        EvolvesTrans(s, s1, ApplyOp(callee, name, out, locs, s1, mod).value.scope);
      }
    case TupleLit(elems) =>
      GenArgsEvolves(elems, s, mod);
      EvolvesTo(s, GenArgs(elems, s, mod).value.scope, Gen(e, out, s, mod).value.scope);
    case ListLit(elems) =>
      GenArgsEvolves(elems, s, mod);
      EvolvesTo(s, GenArgs(elems, s, mod).value.scope, Gen(e, out, s, mod).value.scope);
    case If(cond, body, elseBody) => IfEvolves(e, out, s, mod);
    case Lambda(params, body) => LambdaEvolves(e, out, s, mod);
    case _ =>
  }

  lemma EvolvesOk(s: Scope, t: Scope)
    requires Evolves(s, t)
    ensures ScopeOk(t)
  {}

  lemma OkInside(s: Scope, t: Scope)
    requires ScopeOk(s) && t.upvals == s.upvals && t.parent == s.parent
    requires forall x :: x in t.env ==> t.env[x].Register?
    ensures ScopeOk(t)
  {}

  lemma PushOk(s: Scope)
    requires ScopeOk(s) && Push(s).Some?
    ensures ScopeOk(Push(s).value)
  {}

  lemma ApplyOpEvolves(callee: Option<string>, name: string, out: nat, args: seq<VarRef>, s: Scope, mod: string)
    requires ScopeOk(s) && ApplyOp(callee, name, out, args, s, mod).Some?
    ensures Evolves(s, ApplyOp(callee, name, out, args, s, mod).value.scope)
  {
    hide Evolves, Search, ScopeOk, Primitive;
    EvolvesRefl(s, s);
    SearchEvolves(s, name);
  }

  lemma {:induction false} LetEvolves(e: Expr, out: nat, s: Scope, mod: string)
    requires e.Let? && ScopeOk(s) && Gen(e, out, s, mod).Some?
    ensures Evolves(s, Gen(e, out, s, mod).value.scope)
    decreases e, 0
  {
    hide Search, Around, Grown;
    var Let(name, right) := e;
    var s1 := Push(s).value;
    PushOk(s);
    GenEvolves(right, s1.varCount, s1, mod);
    var s2 := Gen(right, s1.varCount, s1, mod).value.scope;
    EvolvesFrom(s, s1, s2);
    var t := Gen(e, out, s, mod).value.scope;
    GrownInside(s, s2, t);
    OkInside(s2, t);
  }

  lemma {:induction false} IfEvolves(e: Expr, out: nat, s: Scope, mod: string)
    requires e.If? && ScopeOk(s) && Gen(e, out, s, mod).Some?
    ensures Evolves(s, Gen(e, out, s, mod).value.scope)
    decreases e, 0
  {
    var If(cond, body, elseBody) := e;
    hide Evolves, ScopeOk, Search, Exists, Branch, Around;
    var t := GenBlock(body, out, s, mod).value.scope;
    GenBlockEvolves(body, out, s, mod);
    EvolvesOk(s, t);
    var f := GenBlock(elseBody, out, t, mod).value.scope;
    GenBlockEvolves(elseBody, out, t, mod);
    EvolvesTrans(s, t, f);
    EvolvesOk(s, f);
    var s1 := Push(f).value;
    PushOk(f);
    GenEvolves(cond, s1.varCount, s1, mod);
    var c := Gen(cond, s1.varCount, s1, mod).value.scope;
    EvolvesFrom(f, s1, c);
    EvolvesTrans(s, f, c);
  }

  lemma {:induction false} LambdaEvolves(e: Expr, out: nat, s: Scope, mod: string)
    requires e.Lambda? && ScopeOk(s) && Gen(e, out, s, mod).Some?
    ensures Evolves(s, Gen(e, out, s, mod).value.scope)
    decreases e, 0
  {
    GenBodyEvolves(e.params, e.body, Some(s), mod);
  }

  lemma {:induction false} GenArgsEvolves(args: seq<Expr>, s: Scope, mod: string)
    requires ScopeOk(s) && GenArgs(args, s, mod).Some?
    ensures Evolves(s, GenArgs(args, s, mod).value.scope)
    decreases args, 0
  {
    hide Evolves, ScopeOk, Gen, Around;
    if args == [] {
      EvolvesRefl(s, s);
    } else {
      var s1 := Push(s).value;
      PushOk(s);
      GenEvolves(args[0], s1.varCount, s1, mod);
      var s2 := Gen(args[0], s1.varCount, s1, mod).value.scope;
      EvolvesFrom(s, s1, s2);
      EvolvesOk(s, s2);
      GenArgsEvolves(args[1..], s2, mod);
      EvolvesTrans(s, s2, GenArgs(args, s, mod).value.scope);
    }
  }

  lemma {:induction false} GenBlockEvolves(block: seq<Expr>, out: nat, s: Scope, mod: string)
    requires ScopeOk(s) && GenBlock(block, out, s, mod).Some?
    ensures Evolves(s, GenBlock(block, out, s, mod).value.scope)
    decreases block, 1
  {
    EvolvesRefl(s, s);
    if block != [] { GenItemsEvolves(block, out, s, mod); }
  }

  lemma {:induction false} GenItemsEvolves(block: seq<Expr>, out: nat, s: Scope, mod: string)
    requires ScopeOk(s) && GenItems(block, out, s, mod).Some?
    ensures Evolves(s, GenItems(block, out, s, mod).value.scope)
    decreases block, 0
  {
    hide Evolves, ScopeOk, Gen, Around;
    if block == [] {
      EvolvesRefl(s, s);
    } else {
      GenEvolves(block[0], out, s, mod);
      var s1 := Gen(block[0], out, s, mod).value.scope;
      EvolvesOk(s, s1);
      GenItemsEvolves(block[1..], out, s1, mod);
      EvolvesTrans(s, s1, GenItems(block, out, s, mod).value.scope);
    }
  }

  lemma {:induction false} ParamsAreRegisters(params: seq<string>)
    ensures forall x :: x in ParamEnv(params) <==> x in params
    ensures forall x :: x in ParamEnv(params) ==>
              ParamEnv(params)[x].Register? && 1 <= ParamEnv(params)[x].reg <= |params|
              && params[ParamEnv(params)[x].reg - 1] == x
  {
    if params != [] {
      ParamsAreRegisters(params[..|params| - 1]);
      assert params == params[..|params| - 1] + [params[|params| - 1]];
    }
  }

  /** Compiling a function inside another grows the upvalues of both. */
  lemma {:induction false} GenBodyEvolves(params: seq<string>, body: seq<Expr>, parent: Option<Scope>, mod: string)
    requires (parent.Some? ==> ScopeOk(parent.value)) && GenBody(params, body, parent, mod).Some?
    ensures var t := GenBody(params, body, parent, mod).value.scope;
            && Evolves(NewScope(params, parent).value, t) && ScopeOk(t)
            && (parent.Some? ==> Evolves(parent.value, t.parent.value))
    decreases body, 2
  {
    hide GenBlock, Around;
    var s := NewScope(params, parent).value;
    ParamsAreRegisters(params);
    assert ScopeOk(s);
    GenBlockEvolves(body, 0, s, mod);
  }
}
