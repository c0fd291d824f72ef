/**
 When a machine represents a source program: which machine values stand for which
 source values, and where the variables of a running function are found.
 */
module Relation {
  import opened Seqs
  import opened Ast
  import opened Bytecode
  import opened Loader
  import opened Decode
  import opened Vm
  import opened Codegen
  import opened Scopes
  import opened Semantics
  import opened ListHistory

  /** A loaded machine with the name pool it was loaded under, and the program it
      is to run. */
  datatype World = World(m: Machine, names: seq<Name>, p: Program, globals: set<string>)

  ghost function Size(w: World, code: seq<Instr>): nat {
    |LoadedAll(code, w.names, w.m.strings)|
  }

  /** The loaded form of some code, at a position of the code array. */
  ghost predicate CodeAt(w: World, ip: nat, code: seq<Instr>) {
    && CodeOk(code) && HoldsAt(w.m.code, ip, LoadedAll(code, w.names, w.m.strings))
    && forall k :: 0 <= k < |code| ==> Known(code[k], w.names, w.m.strings)
  }

  lemma CodeParts(w: World, ip: nat, a: seq<Instr>, b: seq<Instr>)
    requires CodeAt(w, ip, a + b)
    ensures CodeAt(w, ip, a) && CodeAt(w, ip + Size(w, a), b) && Size(w, a + b) == Size(w, a) + Size(w, b)
  {
    hide HoldsAt, InstrOk, Known, LoadedAll;
    LoadedAllConcat(a, b, w.names, w.m.strings);
    HoldsParts(w.m.code, ip, LoadedAll(a, w.names, w.m.strings), LoadedAll(b, w.names, w.m.strings));
    forall k | 0 <= k < |a| ensures InstrOk(a[k]) && Known(a[k], w.names, w.m.strings) { assert a[k] == (a + b)[k]; }
    forall k | 0 <= k < |b| ensures InstrOk(b[k]) && Known(b[k], w.names, w.m.strings)
        { assert b[k] == (a + b)[|a| + k]; }
  }

  /** One step at known code. */
  lemma StepAt(w: World, i: Instr, st: State)
    requires Shape(st) && CodeAt(w, st.ip, [i])
    ensures InstrOk(i) && Known(i, w.names, w.m.strings) && Size(w, [i]) == |LoadedBytes(i, w.names, w.m.strings)| > 0
    ensures Step(w.m, st) == Exec(w.m, Resolve(i, w.names, w.m.strings), st.ip + Size(w, [i]), st)
  {
    hide HoldsAt, Exec, Fetch, InstrOk, Known, LoadedBytes, Resolve;
    assert [i][0] == i;
    var b := LoadedBytes(i, w.names, w.m.strings);
    assert LoadedAll([i], w.names, w.m.strings) == b + LoadedAll([], w.names, w.m.strings) == b;
    FetchLoaded(w.m.code, st.ip, i, w.names, w.m.strings);
  }

  lemma SizeIsByteSize(w: World, code: seq<Instr>)
    requires CodeOk(code) && NoCapture(code)
    ensures Size(w, code) == ByteSizeOf(code)
  {
    ByteSizeOfIsLoadedSize(code, w.names, w.m.strings);
  }

  // ---------- values ----------

  /** A machine value stands for a source value.  A closure is the position of its
      code together with the values its code will read as upvalues. */
  ghost predicate Rel(w: World, v: Val, x: Value)
    decreases v
  {
    match v
    case IntVal(n) => x == IntV(n)
    case TrueVal => x == True
    case FalseVal => x == False
    case NilVal => x == Nil
    case StrVal(text) => x == StrV(text)
    case TupleVal(elems) =>
      x.TupleV? && |x.elems| == |elems| && forall i :: 0 <= i < |elems| ==> Rel(w, elems[i], x.elems[i])
    case ListVal(elems, cut) =>
      x.ListV? && x.cut == cut && |x.elems| == |elems| && forall i :: 0 <= i < |elems| ==> Rel(w, elems[i], x.elems[i])
    case FnVal(full) =>
      full in w.p.defs && Id(w.names, full) in w.m.functions && x == FunV(w.m.functions[Id(w.names, full)], [])
    case ClosureVal(mod, params, body, env) =>
      x.FunV? && exists outer: Scope ::
        && ClosureCode(w, outer, mod, params, body, Names(env), x.location, |x.upvals|)
        && forall i :: 0 <= i < |env| && Lookup(env, env[i].name) == Some(env[i].val) ==>
             forall j :: 0 <= j < |x.upvals| && CapturedAs(outer, mod, params, body, env[i].name, j) ==>
               Rel(w, env[i].val, x.upvals[j])
  }

  /** At `location` is the code of a function compiled inside `outer`. */
  ghost predicate ClosureCode(w: World, outer: Scope, mod: string, params: seq<string>, body: seq<Expr>,
      names: set<string>, location: nat, upvals: nat) {
    var b := GenBody(params, body, Some(outer), mod);
    && ScopeOk(outer) && b.Some? && CodeAt(w, location, b.value.code)
    && upvals == |b.value.scope.upvals|
    && (forall x :: x in names ==> Exists(outer, x))
    && (forall x :: x in w.globals ==> !Exists(outer, x))
    && (forall x :: x in params ==> x !in w.globals)
    && BlockOk(body, Entry(names, params, w.globals, true), false)
  }

  /** The j-th upvalue of the compiled function is this name of the functions around. */
  ghost predicate CapturedAs(outer: Scope, mod: string, params: seq<string>, body: seq<Expr>, name: string, j: nat) {
    var b := GenBody(params, body, Some(outer), mod);
    b.Some? && j < |b.value.scope.upvals| && Ref(b.value.scope.parent.value, name) == Some(b.value.scope.upvals[j])
  }

  ghost predicate RelAll(w: World, vals: seq<Val>, xs: seq<Value>) {
    |vals| == |xs| && forall i :: 0 <= i < |vals| ==> Rel(w, vals[i], xs[i])
  }

  lemma RelTruth(w: World, v: Val, x: Value)
    requires Rel(w, v, x)
    ensures Truthy(x) <==> Truth(v)
  {}

  /** On comparable values the machine's comparison is equality. */
  lemma {:induction false} EqVIsEquality(w: World, l: Val, r: Val, x: Value, y: Value)
    requires Rel(w, l, x) && Rel(w, r, y) && Comparable(l, r)
    ensures EqV(x, y) == Some(Bare(l) == Bare(r))
    decreases l
  {
    if l.TupleVal? && r.TupleVal? && |l.elems| == |r.elems| {
      AllEqVIsEquality(w, l.elems, r.elems, x.elems, y.elems);
    } else if l.ListVal? && r.ListVal? && |l.elems| == |r.elems| {
      AllEqVIsEquality(w, l.elems, r.elems, x.elems, y.elems);
    }
  }

  lemma {:induction false} AllEqVIsEquality(w: World, ls: seq<Val>, rs: seq<Val>, xs: seq<Value>, ys: seq<Value>)
    requires |ls| == |rs| && RelAll(w, ls, xs) && RelAll(w, rs, ys)
    requires forall i :: 0 <= i < |ls| ==> Comparable(ls[i], rs[i])
    ensures AllEqV(xs, ys) == Some(AllBare(ls) == AllBare(rs))
    decreases ls
  {
    hide Rel, Comparable, EqV, Bare;
    if ls != [] {
      EqVIsEquality(w, ls[0], rs[0], xs[0], ys[0]);
      AllEqVIsEquality(w, ls[1..], rs[1..], xs[1..], ys[1..]);
      assert AllBare(ls)[0] == Bare(ls[0]) && AllBare(ls)[1..] == AllBare(ls[1..]);
      assert AllBare(rs)[0] == Bare(rs[0]) && AllBare(rs)[1..] == AllBare(rs[1..]);
      assert AllBare(ls) == [AllBare(ls)[0]] + AllBare(ls)[1..];
      assert AllBare(rs) == [AllBare(rs)[0]] + AllBare(rs)[1..];
    }
  }

  /** Whether a concat is checked does not matter for what values stand for. */
  lemma {:induction false} SameRel(w: World, w': World, v: Val, x: Value)
    requires Rel(w, v, x) && w.m.code == w'.m.code && w.m.strings == w'.m.strings && w.m.functions == w'.m.functions
    requires w.names == w'.names && w.p.defs == w'.p.defs && w.globals == w'.globals
    ensures Rel(w', v, x)
    decreases v
  {
    match v
    case TupleVal(elems) =>
      forall i | 0 <= i < |elems| ensures Rel(w', elems[i], x.elems[i]) { SameRel(w, w', elems[i], x.elems[i]); }
    case ListVal(elems, _) =>
      forall i | 0 <= i < |elems| ensures Rel(w', elems[i], x.elems[i]) { SameRel(w, w', elems[i], x.elems[i]); }
    case ClosureVal(mod, params, body, env) =>
      var outer: Scope :|
        ClosureCode(w, outer, mod, params, body, Names(env), x.location, |x.upvals|)
        && forall i :: 0 <= i < |env| && Lookup(env, env[i].name) == Some(env[i].val) ==>
             forall j :: 0 <= j < |x.upvals| && CapturedAs(outer, mod, params, body, env[i].name, j) ==>
               Rel(w, env[i].val, x.upvals[j]);
      SameCode(w, w', x.location, outer, mod, params, body, Names(env), |x.upvals|);
      forall i, j | 0 <= i < |env| && Lookup(env, env[i].name) == Some(env[i].val)
                    && 0 <= j < |x.upvals| && CapturedAs(outer, mod, params, body, env[i].name, j)
        ensures Rel(w', env[i].val, x.upvals[j])
      {
        SameRel(w, w', env[i].val, x.upvals[j]);
      }
    case _ =>
  }

  lemma SameCode(w: World, w': World, location: nat, outer: Scope, mod: string, params: seq<string>,
      body: seq<Expr>, names: set<string>, upvals: nat)
    requires ClosureCode(w, outer, mod, params, body, names, location, upvals)
    requires w.m.code == w'.m.code && w.m.strings == w'.m.strings && w.names == w'.names && w.globals == w'.globals
    ensures ClosureCode(w', outer, mod, params, body, names, location, upvals)
  {
    hide BlockOk, GenBody, HoldsAt, LoadedAll, Known;
  }

  // ---------- operators ----------

  lemma OperatorsArePrimitives(name: string)
    ensures name in OPERATORS <==> Primitive(name).Some?
  {}

  /** The opcode chosen for an operator computes it. */
  lemma ComputesOperator(w: World, checked: bool, name: string, vals: seq<Val>, xs: seq<Value>)
    requires RelAll(w, vals, xs) && Operate(checked, name, vals).Some?
    ensures Primitive(name).Some?
    ensures var (op, n, ret) := Primitive(name).value;
            && ret && n <= |xs| && n + 1 == Operands(op)
            && Compute(checked, op, xs[..n]).Some?
            && Rel(w, Operate(checked, name, vals).value, Compute(checked, op, xs[..n]).value)
  {
    hide SliceOf, Comparable, EqV, Rel;
    RelParts(w, vals[0], xs[0]);
    if name in ["+", "-", ">"] {
      RelParts(w, vals[1], xs[1]);
    } else if name in ["==", "!="] {
      EqVIsEquality(w, vals[0], vals[1], xs[0], xs[1]);
    } else if name == "!" {
      RelTruth(w, vals[0], xs[0]);
    } else {
      ComputesSequenceOperator(w, checked, name, vals, xs);
    }
    RelOfPlain(w);
  }

  /** What the operators look at. */
  lemma RelParts(w: World, v: Val, x: Value)
    requires Rel(w, v, x)
    ensures v.IntVal? ==> x == IntV(v.n)
    ensures v.StrVal? ==> x == StrV(v.text)
    ensures v.TupleVal? ==> x.TupleV? && RelAll(w, v.elems, x.elems)
    ensures v.ListVal? ==> x.ListV? && x.cut == v.cut && RelAll(w, v.elems, x.elems)
    ensures !x.Zero?
  {}

  lemma RelOfPlain(w: World)
    ensures forall n: nat :: Rel(w, IntVal(n), IntV(n))
    ensures forall t: Name :: Rel(w, StrVal(t), StrV(t))
    ensures Rel(w, TrueVal, True) && Rel(w, FalseVal, False) && Rel(w, NilVal, Nil)
  {}

  lemma RelOfList(w: World, vals: seq<Val>, xs: seq<Value>, cut: bool)
    requires RelAll(w, vals, xs)
    ensures Rel(w, ListVal(vals, cut), ListV(xs, cut)) && Rel(w, TupleVal(vals), TupleV(xs))
  {}

  lemma ComputesSequenceOperator(w: World, checked: bool, name: string, vals: seq<Val>, xs: seq<Value>)
    requires RelAll(w, vals, xs) && Operate(checked, name, vals).Some?
    requires name in ["++", "tuple_nth", "list_nth", "list_count", "list_slice", "string_count", "string_contains",
                      "string_slice"]
    ensures Primitive(name).Some?
    ensures var (op, n, ret) := Primitive(name).value;
            && ret && n <= |xs| && n + 1 == Operands(op)
            && Compute(checked, op, xs[..n]).Some?
            && Rel(w, Operate(checked, name, vals).value, Compute(checked, op, xs[..n]).value)
  {
    hide Rel, SliceOf, Operate, Compute;
    if name == "++" { ConcatOperator(w, checked, vals, xs); }
    else if name == "list_slice" { SliceOperator(w, checked, vals, xs); }
    else if name == "list_count" { CountOperator(w, checked, vals, xs); }
    else if name == "string_slice" { StringSliceOperator(w, checked, vals, xs); }
    else if name == "string_count" || name == "string_contains" { StringTestOperator(w, checked, name, vals, xs); }
    else { NthOperator(w, checked, name, vals, xs); }
  }

  lemma ConcatOperator(w: World, checked: bool, vals: seq<Val>, xs: seq<Value>)
    requires RelAll(w, vals, xs) && Operate(checked, "++", vals).Some?
    ensures |xs| >= 2 && Compute(checked, Concat, xs[..2]).Some?
        && Rel(w, Operate(checked, "++", vals).value, Compute(checked, Concat, xs[..2]).value)
  {
    hide Rel, SliceOf;
    RelOfPlain(w);
    RelParts(w, vals[0], xs[0]);
    RelParts(w, vals[1], xs[1]);
    if vals[0].ListVal? {
      var cut := JoinCut(|vals[0].elems|, vals[0].cut, |vals[1].elems|, vals[1].cut);
      RelOfList(w, vals[0].elems + vals[1].elems, xs[0].elems + xs[1].elems, cut);
    }
  }

  lemma SliceOperator(w: World, checked: bool, vals: seq<Val>, xs: seq<Value>)
    requires RelAll(w, vals, xs) && Operate(checked, "list_slice", vals).Some?
    ensures |xs| >= 3 && Compute(checked, ListSlice, xs[..3]).Some?
    ensures Rel(w, Operate(checked, "list_slice", vals).value, Compute(checked, ListSlice, xs[..3]).value)
  {
    hide Rel, SliceOf;
    RelParts(w, vals[0], xs[0]);
    RelParts(w, vals[1], xs[1]);
    RelParts(w, vals[2], xs[2]);
    RelOfSlice(w, vals[0].elems, xs[0].elems, vals[1].n, vals[2].n, Operate(checked, "list_slice", vals).value.cut);
  }

  lemma CountOperator(w: World, checked: bool, vals: seq<Val>, xs: seq<Value>)
    requires RelAll(w, vals, xs) && Operate(checked, "list_count", vals).Some?
    ensures |xs| >= 1 && Compute(checked, ListCount, xs[..1]).Some?
    ensures Rel(w, Operate(checked, "list_count", vals).value, Compute(checked, ListCount, xs[..1]).value)
  {
    hide Rel, SliceOf;
    RelOfPlain(w);
    RelParts(w, vals[0], xs[0]);
  }

  lemma StringTestOperator(w: World, checked: bool, name: string, vals: seq<Val>, xs: seq<Value>)
    requires RelAll(w, vals, xs) && (name == "string_count" || name == "string_contains")
    requires Operate(checked, name, vals).Some?
    ensures var (op, n) := if name == "string_count" then (StringCount, 1) else (StringContains, 2);
            && |xs| >= n && Compute(checked, op, xs[..n]).Some?
            && Rel(w, Operate(checked, name, vals).value, Compute(checked, op, xs[..n]).value)
  {
    hide Rel, Contains, Occurs;
    RelOfPlain(w);
    RelParts(w, vals[0], xs[0]);
    if name == "string_contains" {
      RelParts(w, vals[1], xs[1]);
      OccursIsContains(xs[0].text, xs[1].text);
    }
  }

  lemma StringSliceOperator(w: World, checked: bool, vals: seq<Val>, xs: seq<Value>)
    requires RelAll(w, vals, xs) && Operate(checked, "string_slice", vals).Some?
    ensures |xs| >= 3 && Compute(checked, StringSlice, xs[..3]).Some?
    ensures Rel(w, Operate(checked, "string_slice", vals).value, Compute(checked, StringSlice, xs[..3]).value)
  {
    hide Rel, Operate;
    OperateStringSlice(checked, vals);
    RelOfPlain(w);
    RelParts(w, vals[0], xs[0]);
    RelParts(w, vals[1], xs[1]);
    RelParts(w, vals[2], xs[2]);
  }

  lemma OperateStringSlice(checked: bool, vals: seq<Val>)
    requires Operate(checked, "string_slice", vals).Some?
    ensures |vals| >= 3 && vals[0].StrVal? && vals[1].IntVal? && vals[2].IntVal?
    ensures var (text, from, to) := (vals[0].text, vals[1].n, vals[2].n);
            var end := if to < |text| then to else |text|;
            from < end && from < 0x8000_0000 && Operate(checked, "string_slice", vals) == Some(StrVal(text[from..end]))
  {
    var (text, from) := (vals[0].text, vals[1].n);
    assert text[from..] == text[from..|text|];
  }

  /** The search from the front finds the part if and only if it is there. */
  lemma {:induction false} OccursIsContains(text: Name, part: Name)
    ensures Occurs(text, part) <==> Contains(text, part)
    decreases |text|
  {
    assert text[0..] == text;
    if !(part <= text) && text != [] {
      OccursIsContains(text[1..], part);
      forall i | 1 <= i <= |text| ensures text[1..][i - 1..] == text[i..] {}
      if Contains(text, part) {
        var i :| 0 <= i <= |text| && part <= text[i..];
        assert part <= text[1..][i - 1..];
      }
      if Contains(text[1..], part) {
        var i :| 0 <= i <= |text[1..]| && part <= text[1..][i..];
        assert part <= text[i + 1..];
      }
    }
  }

  lemma NthOperator(w: World, checked: bool, name: string, vals: seq<Val>, xs: seq<Value>)
    requires RelAll(w, vals, xs) && (name == "tuple_nth" || name == "list_nth") && Operate(checked, name, vals).Some?
    ensures var op := if name == "tuple_nth" then TupleNth else ListNth;
            && |xs| >= 2 && Compute(checked, op, xs[..2]).Some?
            && Rel(w, Operate(checked, name, vals).value, Compute(checked, op, xs[..2]).value)
  {
    hide Rel, SliceOf;
    RelOfPlain(w);
    RelParts(w, vals[0], xs[0]);
    RelParts(w, vals[1], xs[1]);
    var i := vals[1].n;
    if i < |vals[0].elems| { RelParts(w, vals[0].elems[i], xs[0].elems[i]); }
  }

  lemma RelOfSlice(w: World, vals: seq<Val>, xs: seq<Value>, from: nat, to: nat, cut: bool)
    requires RelAll(w, vals, xs)
    ensures Rel(w, ListVal(SliceOf(vals, from, to), cut), ListV(SliceOf(xs, from, to), cut))
  {
    RelOfList(w, SliceOf(vals, from, to), SliceOf(xs, from, to), cut);
  }
}
