/**
 What programs mean, independently of registers and bytes, and the fragment of
 the language that the compiler and the machine treat consistently.
 */
module Semantics {
  import opened Seqs
  import opened Ast
  import opened Bytecode
  import opened ListHistory

  /** Values.  A function is a named one or a closure with the bindings it can
      see; later bindings come last.  A list carries whether it may be cut. */
  datatype Val =
    | IntVal(n: nat)
    | TrueVal
    | FalseVal
    | NilVal
    | StrVal(text: Name)
    | TupleVal(elems: seq<Val>)
    | ListVal(elems: seq<Val>, cut: bool)
    | FnVal(full: Name)
    | ClosureVal(mod: string, params: seq<string>, body: seq<Expr>, env: seq<Binding>)

  datatype Binding = Binding(name: string, val: Val)

  /** The functions of all modules by full name, each with its module.  In a checked
      program, a concat that may be unsafe has no meaning; in an unchecked one every
      concat of lists has. */
  datatype Program = Program(defs: map<Name, (string, FunDef)>, checked: bool)

  /** Integers have 61 bits. */
  const INT_VALUES: nat := 0x2000_0000_0000_0000

  function Names(env: seq<Binding>): set<string> {
    set b | b in env :: b.name
  }

  /** The last binding of a name. */
  function Lookup(env: seq<Binding>, name: string): (r: Option<Val>)
    ensures r.Some? <==> name in Names(env)
  {
    if env == [] then None
    else
      var last := env[|env| - 1];
      assert env == env[..|env| - 1] + [last];
      if last.name == name then Some(last.val) else Lookup(env[..|env| - 1], name)
  }

  function Bind(params: seq<string>, vals: seq<Val>): (r: seq<Binding>)
    requires |params| == |vals|
    ensures |r| == |params|
  {
    seq(|params|, i requires 0 <= i < |params| => Binding(params[i], vals[i]))
  }

  predicate Truth(v: Val) {
    v != FalseVal && v != NilVal
  }

  function BoolVal(b: bool): Val {
    if b then TrueVal else FalseVal
  }

  // ---------- operators ----------

  const OPERATORS: set<string> := {
    "+", "++", "-", "==", "!=", "!", ">", "exit", "print", "file_pwd", "file_ls", "tuple_nth", "list_nth",
    "list_count", "list_slice", "string_slice", "string_count", "code_load", "function_name",
    "string_contains", "term_to_string", "gc_collect"
  }

  /** Where equality is meaningful: not between two functions, and not between
      false and a tuple or true and a string, which the machine does not survive. */
  predicate Comparable(l: Val, r: Val) {
    match l
    case FnVal(_) => !r.FnVal? && !r.ClosureVal?
    case ClosureVal(_, _, _, _) => !r.FnVal? && !r.ClosureVal?
    case TupleVal(ls) =>
      !r.FalseVal? && (r.TupleVal? && |ls| == |r.elems| ==> forall i :: 0 <= i < |ls| ==> Comparable(ls[i], r.elems[i]))
    case ListVal(ls, _) =>
      r.ListVal? && |ls| == |r.elems| ==> forall i :: 0 <= i < |ls| ==> Comparable(ls[i], r.elems[i])
    case StrVal(_) => !r.TrueVal?
    case FalseVal => !r.TupleVal?
    case TrueVal => !r.StrVal?
    case _ => true
  }

  /** The value alone, whatever is known of its lists. */
  function Bare(v: Val): Val {
    match v
    case TupleVal(elems) => TupleVal(AllBare(elems))
    case ListVal(elems, _) => ListVal(AllBare(elems), false)
    case _ => v
  }

  function AllBare(vals: seq<Val>): (r: seq<Val>)
    ensures |r| == |vals|
  {
    seq(|vals|, i requires 0 <= i < |vals| => Bare(vals[i]))
  }

  function NthOr(elems: seq<Val>, i: nat): Val {
    if i < |elems| then elems[i] else NilVal
  }

  /** The operators on values.  Arguments past the ones an operator takes are
      computed and dropped. */
  function Operate(checked: bool, name: string, vals: seq<Val>): Option<Val> {
    match name
    case "+" => if |vals| >= 2 && vals[0].IntVal? && vals[1].IntVal?
        then Some(IntVal((vals[0].n + vals[1].n) % INT_VALUES)) else None
    case "-" => if |vals| >= 2 && vals[0].IntVal? && vals[1].IntVal?
        then Some(IntVal((vals[0].n - vals[1].n) % INT_VALUES)) else None
    case ">" => if |vals| >= 2 && vals[0].IntVal? && vals[1].IntVal? then Some(BoolVal(vals[0].n > vals[1].n)) else None
    case "==" => if |vals| >= 2 && Comparable(vals[0], vals[1])
        then Some(BoolVal(Bare(vals[0]) == Bare(vals[1]))) else None
    case "!=" => if |vals| >= 2 && Comparable(vals[0], vals[1])
        then Some(BoolVal(Bare(vals[0]) != Bare(vals[1]))) else None
    case "!" => if |vals| >= 1 then Some(BoolVal(!Truth(vals[0]))) else None
    case "++" =>
      if |vals| < 2 then None
      else if vals[0].StrVal? && vals[1].StrVal? then Some(StrVal(vals[0].text + vals[1].text))
      else if vals[0].ListVal? && vals[1].ListVal? then
        var n, k := |vals[0].elems|, |vals[1].elems|;
        if checked && !JoinSafe(n, vals[0].cut, k) then None
        else Some(ListVal(vals[0].elems + vals[1].elems, JoinCut(n, vals[0].cut, k, vals[1].cut)))
      else None
    case "tuple_nth" =>
      if |vals| >= 2 && vals[0].TupleVal? && vals[1].IntVal? && vals[1].n < 256
          then Some(NthOr(vals[0].elems, vals[1].n)) else None
    case "list_nth" =>
      if |vals| >= 2 && vals[0].ListVal? && vals[1].IntVal? && vals[1].n < 0x1_0000_0000
          then Some(NthOr(vals[0].elems, vals[1].n)) else None
    case "list_count" => if |vals| >= 1 && vals[0].ListVal? then Some(IntVal(|vals[0].elems|)) else None
    case "list_slice" =>
      if |vals| >= 3 && vals[0].ListVal? && vals[1].IntVal? && vals[2].IntVal?
         && vals[1].n < 0x1_0000_0000 && vals[2].n < 0x1_0000_0000
      then Some(ListVal(SliceOf(vals[0].elems, vals[1].n, vals[2].n),
                        SliceCut(|vals[0].elems|, vals[0].cut, vals[1].n, vals[2].n))) else None
    case "string_count" => if |vals| >= 1 && vals[0].StrVal? then Some(IntVal(|vals[0].text|)) else None
    case "string_contains" =>
      if |vals| >= 2 && vals[0].StrVal? && vals[1].StrVal?
          then Some(BoolVal(Contains(vals[0].text, vals[1].text))) else None
    case "string_slice" =>
      // an empty slice ends the program
      if |vals| >= 3 && vals[0].StrVal? && vals[1].IntVal? && vals[2].IntVal?
         && vals[1].n < vals[2].n && vals[1].n < |vals[0].text| && vals[1].n < 0x8000_0000
      then Some(StrVal(if vals[2].n < |vals[0].text| then vals[0].text[vals[1].n..vals[2].n]
                       else vals[0].text[vals[1].n..])) else None
    case _ => None
  }

  /** One text is a part of the other. */
  predicate Contains(text: Name, part: Name) {
    exists i :: 0 <= i <= |text| && part <= text[i..]
  }

  // ---------- evaluation ----------

  /** The full name under which a call finds a function. */
  function FullOf(callee: Option<string>, mod: string, name: string, arity: nat): Name {
    FullName(QualifiedName(callee.GetOr(mod), name), arity)
  }

  /** The value of an expression in argument position, with `k` stack frames left
      for calls; nothing where the program has no meaning. */
  function Eval(p: Program, k: nat, mod: string, env: seq<Binding>, e: Expr): Option<Val>
    decreases k, e, 0
  {
    match e
    case IntLit(val) => Some(IntVal(val))
    case TrueLit => Some(TrueVal)
    case FalseLit => Some(FalseVal)
    case NilLit => Some(NilVal)
    case StrLit(text) => Some(StrVal(Text(text)))
    case Ident(name) => Lookup(env, name)
    case CaptureFn(callee, name, arity) =>
      var full := FullOf(callee, mod, name, arity);
      if full in p.defs then Some(FnVal(full)) else None
    case Lambda(params, body) => Some(ClosureVal(mod, params, body, env))
    case TupleLit(elems) =>
      var vals := EvalArgs(p, k, mod, env, elems);
      if vals.None? then None else Some(TupleVal(vals.value))
    case ListLit(elems) =>
      var vals := EvalArgs(p, k, mod, env, elems);
      if vals.None? then None else Some(ListVal(vals.value, false))
    case Apply(callee, name, args) =>
      if name == "&&" || name == "||" then
        if |args| < 2 then None
        else
          var l := Eval(p, k, mod, env, args[0]);
          if l.None? then None
          else if Truth(l.value) == (name == "&&") then Eval(p, k, mod, env, args[1])
          else l
      else
        var vals := EvalArgs(p, k, mod, env, args);
        if vals.None? then None
        else if name in OPERATORS then Operate(p.checked, name, vals.value)
        else if k == 0 then None
        else if callee.None? && name in Names(env) then CallVal(p, k - 1, Lookup(env, name).value, vals.value)
        else CallVal(p, k - 1, FnVal(FullOf(callee, mod, name, |args|)), vals.value)
    case Let(_, _) => None
    case If(_, _, _) => None
  }

  function EvalArgs(p: Program, k: nat, mod: string, env: seq<Binding>, args: seq<Expr>): (r: Option<seq<Val>>)
    ensures r.Some? ==> |r.value| == |args|
    decreases k, args, 0
  {
    if args == [] then Some([])
    else
      var first := Eval(p, k, mod, env, args[0]);
      var rest := EvalArgs(p, k, mod, env, args[1..]);
      if first.None? || rest.None? then None else Some([first.value] + rest.value)
  }

  /** A call, with k frames left for the calls it makes. */
  function CallVal(p: Program, k: nat, f: Val, vals: seq<Val>): Option<Val>
    decreases k
  {
    match f
    case FnVal(full) =>
      if full !in p.defs || |p.defs[full].1.params| != |vals| then None
      else EvalBody(p, k, p.defs[full].0, Bind(p.defs[full].1.params, vals), p.defs[full].1.body)
    case ClosureVal(mod, params, body, env) =>
      if |params| != |vals| then None
      else EvalBody(p, k, mod, env + Bind(params, vals), body)
    case _ => None
  }

  /** A block; the empty one is nil. */
  function EvalBody(p: Program, k: nat, mod: string, env: seq<Binding>, block: seq<Expr>): Option<Val>
    decreases k, block, 1
  {
    if block == [] then Some(NilVal) else EvalItems(p, k, mod, env, block)
  }

  /** The items of a block in order.  The last one is the value; a name is
      visible in the items behind its let. */
  function EvalItems(p: Program, k: nat, mod: string, env: seq<Binding>, block: seq<Expr>): Option<Val>
    requires block != []
    decreases k, block, 0
  {
    match block[0]
    case Let(name, right) =>
      var v := Eval(p, k, mod, env, right);
      if v.None? || |block| == 1 then None
      else EvalItems(p, k, mod, env + [Binding(name, v.value)], block[1..])
    case _ =>
      var v := EvalItem(p, k, mod, env, block[0]);
      if v.None? || |block| == 1 then v else EvalItems(p, k, mod, env, block[1..])
  }

  /** An item that is no let: an if, or an expression. */
  function EvalItem(p: Program, k: nat, mod: string, env: seq<Binding>, e: Expr): Option<Val>
    decreases k, e, 1
  {
    if e.If? then
      var c := Eval(p, k, mod, env, e.cond);
      if c.None? then None
      else if Truth(c.value) then EvalBody(p, k, mod, env, e.body)
      else EvalBody(p, k, mod, env, e.elseBody)
    else Eval(p, k, mod, env, e)
  }

  // ---------- string constants ----------

  lemma LiteralArgs(p: Program, k: nat, mod: string, env: seq<Binding>, a: string, b: string)
    ensures EvalArgs(p, k, mod, env, [StrLit(a), StrLit(b)]) == Some([StrVal(Text(a)), StrVal(Text(b))])
  {
    assert [StrLit(a), StrLit(b)][1..] == [StrLit(b)] && [StrLit(b)][1..] == [];
    assert EvalArgs(p, k, mod, env, []) == Some([]) && [StrVal(Text(b))] + [] == [StrVal(Text(b))];
    assert EvalArgs(p, k, mod, env, [StrLit(b)]) == Some([StrVal(Text(b))]);
    assert [StrVal(Text(a))] + [StrVal(Text(b))] == [StrVal(Text(a)), StrVal(Text(b))];
  }

  /** Two constants are equal exactly when they are the same in the source, and their
      concat is the constant of their concat. */
  lemma LiteralsMean(p: Program, k: nat, mod: string, env: seq<Binding>, a: string, b: string)
    ensures Eval(p, k, mod, env, Apply(None, "==", [StrLit(a), StrLit(b)])) == Some(BoolVal(a == b))
    ensures Eval(p, k, mod, env, Apply(None, "++", [StrLit(a), StrLit(b)])) == Eval(p, k, mod, env, StrLit(a + b))
  {
    hide EvalArgs;
    LiteralArgs(p, k, mod, env, a, b);
    TextBytes(a, b);
  }

  /** A constant has the count of its characters, and contains another one exactly where
      the source strings say so. */
  lemma LiteralsMeasured(p: Program, k: nat, mod: string, env: seq<Binding>, a: string, b: string)
    ensures Eval(p, k, mod, env, Apply(None, "string_count", [StrLit(a)])) == Some(IntVal(|a|))
    ensures Eval(p, k, mod, env, Apply(None, "string_contains", [StrLit(a), StrLit(b)]))
            == Some(BoolVal(exists i :: 0 <= i <= |a| && b <= a[i..]))
  {
    hide EvalArgs;
    LiteralArgs(p, k, mod, env, a, b);
    OneLiteral(p, k, mod, env, a);
    forall i | 0 <= i <= |a| ensures b <= a[i..] <==> Text(b) <= Text(a)[i..] {
      assert Text(a)[i..] == Text(a[i..]);
      if |b| <= |a| - i {
        assert Text(a[i..])[..|b|] == Text(a[i..][..|b|]);
        TextBytes(a[i..][..|b|], b);
      }
    }
  }

  lemma OneLiteral(p: Program, k: nat, mod: string, env: seq<Binding>, a: string)
    ensures EvalArgs(p, k, mod, env, [StrLit(a)]) == Some([StrVal(Text(a))])
  {
    assert [StrLit(a)][1..] == [] && EvalArgs(p, k, mod, env, []) == Some([]);
    assert [StrVal(Text(a))] + [] == [StrVal(Text(a))];
  }

  // ---------- what the operators are for ----------

  /** Values without functions and booleans. */
  predicate Data(v: Val) {
    match v
    case IntVal(_) => true
    case StrVal(_) => true
    case NilVal => true
    case TupleVal(elems) => forall i :: 0 <= i < |elems| ==> Data(elems[i])
    case ListVal(elems, _) => forall i :: 0 <= i < |elems| ==> Data(elems[i])
    case _ => false
  }

  /** Any two of them can be compared, and the comparison is that of the bare values. */
  lemma {:induction false} DataComparable(l: Val, r: Val)
    requires Data(l) && Data(r)
    ensures Comparable(l, r)
    ensures forall checked :: Operate(checked, "==", [l, r]) == Some(BoolVal(Bare(l) == Bare(r)))
    ensures forall checked :: Operate(checked, "!=", [l, r]) == Some(BoolVal(Bare(l) != Bare(r)))
    decreases l
  {
    if l.TupleVal? && r.TupleVal? && |l.elems| == |r.elems| {
      forall i | 0 <= i < |l.elems| ensures Comparable(l.elems[i], r.elems[i]) {
        DataComparable(l.elems[i], r.elems[i]);
      }
    } else if l.ListVal? && r.ListVal? && |l.elems| == |r.elems| {
      forall i | 0 <= i < |l.elems| ensures Comparable(l.elems[i], r.elems[i]) {
        DataComparable(l.elems[i], r.elems[i]);
      }
    }
  }

  /** Integers of 61 bits form a ring: what is added can be taken away again. */
  lemma AddThenSub(checked: bool, a: nat, b: nat)
    requires a < INT_VALUES
    ensures var sum := Operate(checked, "+", [IntVal(a), IntVal(b)]);
            && sum.Some? && sum.value.IntVal? && (a + b < 0x2000_0000_0000_0000 ==> sum.value.n == a + b)
            && Operate(checked, "-", [sum.value, IntVal(b)]) == Some(IntVal(a))
  {
    var n := (a + b) % INT_VALUES;
    assert a + b == n + (a + b) / INT_VALUES * INT_VALUES;
    assert n - b == a + (-((a + b) / INT_VALUES)) * INT_VALUES;
    SameResidue(a, -((a + b) / INT_VALUES));
  }

  lemma SameResidue(a: nat, k: int)
    requires a < INT_VALUES
    ensures (a + k * INT_VALUES) % INT_VALUES == a
  {}

  /** Elements of a tuple up to index 255, and of a list up to 32 bits, or nil. */
  lemma ElementsFound(checked: bool, elems: seq<Val>, cut: bool, i: nat)
    ensures i < 256 ==>
              Operate(checked, "tuple_nth", [TupleVal(elems), IntVal(i)])
              == Some(if i < |elems| then elems[i] else NilVal)
    ensures i < 0x1_0000_0000 ==>
              Operate(checked, "list_nth", [ListVal(elems, cut), IntVal(i)])
              == Some(if i < |elems| then elems[i] else NilVal)
    ensures Operate(checked, "list_count", [ListVal(elems, cut)]) == Some(IntVal(|elems|))
  {}

  // ---------- calls and lists ----------

  /** A function bound by a let and called with as many arguments as it has parameters
      means its body, with the names of the place where it was made. */
  lemma BoundCallMeansBody(p: Program, k: nat, mod: string, env: seq<Binding>, name: string, params: seq<string>,
      body: seq<Expr>, args: seq<Expr>, vals: seq<Val>)
    requires name !in OPERATORS && name != "&&" && name != "||" && |params| == |vals|
    requires EvalArgs(p, k + 1, mod, env + [Binding(name, ClosureVal(mod, params, body, env))], args) == Some(vals)
    ensures EvalItems(p, k + 1, mod, env, [Let(name, Lambda(params, body)), Apply(None, name, args)])
            == EvalBody(p, k, mod, env + Bind(params, vals), body)
  {
    hide EvalArgs, EvalBody, OPERATORS;
    var f, call := ClosureVal(mod, params, body, env), Apply(None, name, args);
    var inner := env + [Binding(name, f)];
    assert [Let(name, Lambda(params, body)), call][1..] == [call];
    assert inner[|inner| - 1] == Binding(name, f) && Binding(name, f) in inner;
    assert Lookup(inner, name) == Some(f) && name in Names(inner);
    assert Eval(p, k + 1, mod, inner, call) == CallVal(p, k, f, vals);
    assert EvalItem(p, k + 1, mod, inner, call) == Eval(p, k + 1, mod, inner, call);
    assert EvalItems(p, k + 1, mod, inner, [call]) == Eval(p, k + 1, mod, inner, call);
    assert Eval(p, k + 1, mod, env, Lambda(params, body)) == Some(f);
  }

  /** A call of a function of another module means that function's body there, wherever
      the call stands and whatever the caller's module and names are. */
  lemma ModuleCallMeansBody(p: Program, k: nat, mod: string, env: seq<Binding>, other: string, def: FunDef,
      args: seq<Expr>, vals: seq<Val>)
    requires def.name !in OPERATORS && def.name != "&&" && def.name != "||" && |def.params| == |args|
    requires EvalArgs(p, k + 1, mod, env, args) == Some(vals)
    requires var full := FullName(QualifiedName(other, def.name), |args|);
             full in p.defs && p.defs[full] == (other, def)
    ensures Eval(p, k + 1, mod, env, Apply(Some(other), def.name, args))
            == EvalBody(p, k, other, Bind(def.params, vals), def.body)
  {
    hide EvalArgs, EvalBody, OPERATORS, QualifiedName, FullName;
  }

  /** When two lists may be joined in a checked program, and which slices stay whole. */
  lemma JoinsAndSlices(checked: bool, l: Val, r: Val, from: nat, to: nat)
    requires l.ListVal? && r.ListVal? && from < 0x1_0000_0000 && to < 0x1_0000_0000
    ensures var n, k := |l.elems|, |r.elems|;
            var joined := Operate(checked, "++", [l, r]);
            && (joined.Some? <==> !checked || n == 0 || k == 0 || !l.cut || (n > 32 && k > 32))
            && (joined.Some? ==> Bare(joined.value) == Bare(ListVal(l.elems + r.elems, false)))
            && (joined.Some? && !l.cut && !r.cut ==> !joined.value.cut)
    ensures var slice := Operate(checked, "list_slice", [l, IntVal(from), IntVal(to)]);
            && slice.Some? && slice.value.ListVal? && slice.value.elems == SliceOf(l.elems, from, to)
            && (!l.cut && (|l.elems| <= 32 || (from == 0 && to > 32)) ==> !slice.value.cut)
  {}

  // ---------- checked programs ----------

  function Checked(p: Program, checked: bool): Program {
    p.(checked := checked)
  }

  /** What a checked program means, it means unchecked. */
  lemma {:induction false} CheckedEval(p: Program, k: nat, mod: string, env: seq<Binding>, e: Expr)
    requires Eval(Checked(p, true), k, mod, env, e).Some?
    ensures Eval(Checked(p, false), k, mod, env, e) == Eval(Checked(p, true), k, mod, env, e)
    decreases k, e, 0
  {
    hide Operate, OPERATORS;
    match e
    case TupleLit(elems) => CheckedArgs(p, k, mod, env, elems);
    case ListLit(elems) => CheckedArgs(p, k, mod, env, elems);
    case Apply(callee, name, args) =>
      if name == "&&" || name == "||" {
        CheckedEval(p, k, mod, env, args[0]);
        if Truth(Eval(Checked(p, true), k, mod, env, args[0]).value) == (name == "&&") {
          CheckedEval(p, k, mod, env, args[1]);
        }
      } else {
        CheckedArgs(p, k, mod, env, args);
        var vals := EvalArgs(Checked(p, true), k, mod, env, args).value;
        if name in OPERATORS { CheckedOperate(name, vals); }
        else if callee.None? && name in Names(env) { CheckedCall(p, k - 1, Lookup(env, name).value, vals); }
        else { CheckedCall(p, k - 1, FnVal(FullOf(callee, mod, name, |args|)), vals); }
      }
    case _ =>
  }

  lemma CheckedOperate(name: string, vals: seq<Val>)
    requires Operate(true, name, vals).Some?
    ensures Operate(false, name, vals) == Operate(true, name, vals)
  {}

  lemma {:induction false} CheckedArgs(p: Program, k: nat, mod: string, env: seq<Binding>, args: seq<Expr>)
    requires EvalArgs(Checked(p, true), k, mod, env, args).Some?
    ensures EvalArgs(Checked(p, false), k, mod, env, args) == EvalArgs(Checked(p, true), k, mod, env, args)
    decreases k, args, 0
  {
    hide Eval;
    if args != [] {
      CheckedEval(p, k, mod, env, args[0]);
      CheckedArgs(p, k, mod, env, args[1..]);
    }
  }

  lemma {:induction false} CheckedCall(p: Program, k: nat, f: Val, vals: seq<Val>)
    requires CallVal(Checked(p, true), k, f, vals).Some?
    ensures CallVal(Checked(p, false), k, f, vals) == CallVal(Checked(p, true), k, f, vals)
    decreases k
  {
    hide EvalBody;
    match f
    case FnVal(full) =>
      var (mod, def) := p.defs[full];
      CheckedBody(p, k, mod, Bind(def.params, vals), def.body);
    case ClosureVal(mod, params, body, env) => CheckedBody(p, k, mod, env + Bind(params, vals), body);
    case _ =>
  }

  lemma {:induction false} CheckedBody(p: Program, k: nat, mod: string, env: seq<Binding>, block: seq<Expr>)
    requires EvalBody(Checked(p, true), k, mod, env, block).Some?
    ensures EvalBody(Checked(p, false), k, mod, env, block) == EvalBody(Checked(p, true), k, mod, env, block)
    decreases k, block, 1
  {
    hide EvalItems;
    if block != [] { CheckedItems(p, k, mod, env, block); }
  }

  lemma {:induction false} CheckedItems(p: Program, k: nat, mod: string, env: seq<Binding>, block: seq<Expr>)
    requires block != [] && EvalItems(Checked(p, true), k, mod, env, block).Some?
    ensures EvalItems(Checked(p, false), k, mod, env, block) == EvalItems(Checked(p, true), k, mod, env, block)
    decreases k, block, 0
  {
    hide Eval, EvalItem;
    if block[0].Let? {
      CheckedEval(p, k, mod, env, block[0].right);
      var v := Eval(Checked(p, true), k, mod, env, block[0].right).value;
      CheckedItems(p, k, mod, env + [Binding(block[0].name, v)], block[1..]);
    } else {
      CheckedItem(p, k, mod, env, block[0]);
      if |block| > 1 { CheckedItems(p, k, mod, env, block[1..]); }
    }
  }

  lemma {:induction false} CheckedItem(p: Program, k: nat, mod: string, env: seq<Binding>, e: Expr)
    requires EvalItem(Checked(p, true), k, mod, env, e).Some?
    ensures EvalItem(Checked(p, false), k, mod, env, e) == EvalItem(Checked(p, true), k, mod, env, e)
    decreases k, e, 1
  {
    hide Eval, EvalBody;
    if e.If? {
      CheckedEval(p, k, mod, env, e.cond);
      if Truth(Eval(Checked(p, true), k, mod, env, e.cond).value) { CheckedBody(p, k, mod, env, e.body); }
      else { CheckedBody(p, k, mod, env, e.elseBody); }
    } else {
      CheckedEval(p, k, mod, env, e);
    }
  }

  // ---------- the fragment ----------

  /** What can be used at a point of a function: the variables that can be read,
      those bound by the function itself, and the functions called by bare name.
      A nested function reads the others as upvalues, which a call spoils: `clean`
      says that there was none yet. */
  datatype Sight = Sight(locals: set<string>, own: set<string>, globals: set<string>, nested: bool, clean: bool)

  /** At the start of a function with these names around it. */
  function Entry(around: set<string>, params: seq<string>, globals: set<string>, nested: bool): Sight {
    var own := set x | x in params;
    Sight(around + own, own, globals, nested, true)
  }

  /** After code that may have made a call. */
  function Later(v: Sight, called: bool): Sight {
    if called && v.nested then v.(locals := v.locals * v.own, clean := false) else v
  }

  function Bound(v: Sight, name: string): Sight {
    v.(locals := v.locals + {name}, own := v.own + {name})
  }

  /** Whether running an expression may call a function. */
  predicate HasCall(e: Expr)
    decreases e, 0
  {
    match e
    case Let(_, right) => HasCall(right)
    case If(cond, body, elseBody) => HasCall(cond) || AnyCall(body) || AnyCall(elseBody)
    case Apply(_, name, args) => (name != "&&" && name != "||" && name !in OPERATORS) || AnyCall(args)
    case TupleLit(elems) => AnyCall(elems)
    case ListLit(elems) => AnyCall(elems)
    case _ => false
  }

  predicate AnyCall(es: seq<Expr>)
    decreases es, 0
  {
    es != [] && (HasCall(es[0]) || AnyCall(es[1..]))
  }

  /** An expression in argument position.  Captures of functions are allowed where
      no jump has to cross them. */
  predicate Simple(e: Expr, v: Sight, captures: bool)
    decreases e, 0
  {
    match e
    case IntLit(val) => val < 250
    case CaptureFn(_, _, _) => captures
    case Ident(name) => name in v.locals
    case Let(_, _) => false
    case If(_, _, _) => false
    case TupleLit(elems) => AllSimple(elems, v, captures)
    case ListLit(elems) => AllSimple(elems, v, captures)
    case Lambda(params, body) =>
      && (v.nested ==> v.clean)
      && (forall x :: x in params ==> x !in v.globals)
      && BlockOk(body, Entry(v.locals, params, v.globals, true), false)
    case Apply(callee, name, args) =>
      if name == "&&" || name == "||" then
        && |args| >= 2 && Simple(args[0], v, captures)
        && Simple(args[1], Later(v, HasCall(args[0])), false)
      else
        && AllSimple(args, v, captures)
        && (name in OPERATORS
            || (callee.None? ==> name in Later(v, AnyCall(args)).locals || name in v.globals))
    case _ => true
  }

  predicate AllSimple(es: seq<Expr>, v: Sight, captures: bool)
    decreases es, 0
  {
    es == [] || (Simple(es[0], v, captures) && AllSimple(es[1..], Later(v, HasCall(es[0])), captures))
  }

  /** What can be used behind an item of a block. */
  function Behind(v: Sight, e: Expr): Sight {
    var after := Later(v, HasCall(e));
    if e.Let? then Bound(after, e.name) else after
  }

  /** A block: ifs and lets, and expressions.  A let is not the last item, and a
      name bound in a branch is not visible outside it. */
  predicate BlockOk(block: seq<Expr>, v: Sight, captures: bool)
    decreases block, 0
  {
    block == [] ||
    (BlockOk(block[1..], Behind(v, block[0]), captures) &&
     match block[0]
     case Let(name, right) => |block| > 1 && name !in v.globals && Simple(right, v, captures)
     case If(cond, body, elseBody) =>
       && Simple(cond, v, captures)
       && BlockOk(body, Later(v, HasCall(cond)), false) && BlockOk(elseBody, Later(v, HasCall(cond)), false)
     case _ => Simple(block[0], v, captures))
  }
}
