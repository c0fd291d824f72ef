/**
 Expressions of constants, literals of lists and operators, on the interpreter with its
 real lists: their code computes what the operations on cells give.
 */
module ClosedRuns {
  import opened Seqs
  import opened Ast
  import opened Bytecode
  import opened Loader
  import opened Decode
  import opened Vm
  import opened Codegen
  import opened Semantics
  import opened Relation
  import opened Frames
  import Cells
  import CellSteps
  import CutLists

  // ---------- the expressions and their cells ----------

  /** An operation that stores a value and takes its operands from the first arguments. */
  predicate Takes(name: string, k: nat) {
    var prim := Primitive(name);
    name != "&&" && name != "||" && prim.Some?
    && prim.value.2 && prim.value.1 <= k && Operands(prim.value.0) == 1 + prim.value.1
  }

  predicate Closed(e: Expr)
    decreases e, 0
  {
    match e
    case IntLit(val) => val < 250
    case ListLit(es) => AllClosed(es)
    case Apply(_, name, es) => Takes(name, |es|) && AllClosed(es)
    case _ => false
  }

  predicate AllClosed(es: seq<Expr>)
    decreases es, 0
  {
    es == [] || (Closed(es[0]) && AllClosed(es[1..]))
  }

  ghost function CellOf(e: Expr): Option<Cells.Cell>
    requires Closed(e)
    decreases e, 0
  {
    match e
    case IntLit(val) => Some(Cells.IntC(val))
    case ListLit(es) =>
      var cs := CellsOf(es);
      if cs.None? then None else Some(Cells.ListC(CutLists.ListOf(cs.value)))
    case Apply(_, name, es) =>
      var cs := CellsOf(es);
      var (op, n, _) := Primitive(name).value;
      if cs.None? then None else Cells.CellCompute(op, cs.value[..n])
  }

  ghost function CellsOf(es: seq<Expr>): (r: Option<seq<Cells.Cell>>)
    requires AllClosed(es)
    ensures r.Some? ==> |r.value| == |es|
    decreases es, 0
  {
    if es == [] then Some([])
    else
      var first, rest := CellOf(es[0]), CellsOf(es[1..]);
      if first.None? || rest.None? then None else Some([first.value] + rest.value)
  }

  function Max(a: nat, b: nat): nat {
    if a < b then b else a
  }

  /** How many registers the code takes besides its destination. */
  function Needs(e: Expr): nat
    decreases e, 0
  {
    match e
    case ListLit(es) => AllNeed(es)
    case Apply(_, _, es) => AllNeed(es)
    case _ => 0
  }

  function AllNeed(es: seq<Expr>): nat
    decreases es, 0
  {
    if es == [] then 0 else 1 + Max(Needs(es[0]), AllNeed(es[1..]))
  }

  // ---------- compiling them ----------

  /** Code within the format that refers to no names. */
  ghost predicate Nameless(code: seq<Instr>) {
    CodeOk(code) && forall k :: 0 <= k < |code| ==> !code[k].Capture? && !code[k].Call? && !code[k].LoadString?
  }

  lemma NamelessConcat(a: seq<Instr>, b: seq<Instr>)
    requires Nameless(a) && Nameless(b)
    ensures Nameless(a + b)
  {}

  lemma PoppedRegisters(s: Scope, n: nat)
    requires s.varCount + n < REGISTER_COUNT
    ensures var t := s.(varCount := s.varCount + n);
            Popped(t, n) == (seq(n, i requires 0 <= i < n => Register(s.varCount + 1 + i)), s)
            && RefsOk(Popped(t, n).0)
  {}

  lemma {:induction false} Compiles(e: Expr, out: nat, s: Scope, mod: string)
    requires Closed(e) && out < REGISTER_COUNT && s.varCount + Needs(e) < REGISTER_COUNT
    ensures Gen(e, out, s, mod).Some? && Gen(e, out, s, mod).value.scope == s
    ensures Nameless(Gen(e, out, s, mod).value.code)
    decreases e, 0
  {
    hide GenArgs, Popped, Around, Primitive;
    match e
    case IntLit(val) =>
    case ListLit(es) =>
      ArgsCompile(es, s, mod);
      PoppedRegisters(s, |es|);
      NamelessConcat(GenArgs(es, s, mod).value.code,
                     [MakeList(Register(out), |es|, Popped(s.(varCount := s.varCount + |es|), |es|).0)]);
    case Apply(callee, name, es) =>
      ArgsCompile(es, s, mod);
      PoppedRegisters(s, |es|);
      NamelessConcat(GenArgs(es, s, mod).value.code, [Operator(name, out, s.varCount)]);
      OperatorCode(callee, name, out, s, |es|, mod);
  }

  function Operator(name: string, out: nat, base: nat): Instr
    requires Primitive(name).Some?
  {
    var (op, n, _) := Primitive(name).value;
    Plain(op, [Register(out)] + seq(n, i requires 0 <= i < n => Register(base + 1 + i)))
  }

  lemma OperatorCode(callee: Option<string>, name: string, out: nat, s: Scope, k: nat, mod: string)
    requires Takes(name, k) && s.varCount + k < REGISTER_COUNT && out < REGISTER_COUNT
    ensures var locs := seq(k, i requires 0 <= i < k => Register(s.varCount + 1 + i));
            ApplyOp(callee, name, out, locs, s, mod) == Some(Output([Operator(name, out, s.varCount)], s))
    ensures Nameless([Operator(name, out, s.varCount)])
  {
    hide Primitive, Around;
    var locs: seq<VarRef> := seq(k, i requires 0 <= i < k => Register(s.varCount + 1 + i));
    var n := Primitive(name).value.1;
    assert locs[..n] == seq(n, i requires 0 <= i < n => Register(s.varCount + 1 + i));
  }

  lemma {:induction false} ArgsCompile(es: seq<Expr>, s: Scope, mod: string)
    requires AllClosed(es) && s.varCount + AllNeed(es) < REGISTER_COUNT
    ensures GenArgs(es, s, mod).Some? && GenArgs(es, s, mod).value.scope == s.(varCount := s.varCount + |es|)
    ensures Nameless(GenArgs(es, s, mod).value.code) && s.varCount + |es| < REGISTER_COUNT
    decreases es, 0
  {
    hide Gen, Needs, Around, Nameless;
    if es == [] {
      assert s.(varCount := s.varCount + 0) == s;
      NamelessNothing();
    } else {
      var s1 := s.(varCount := s.varCount + 1);
      assert Push(s) == Some(s1);
      Compiles(es[0], s1.varCount, s1, mod);
      ArgsCompile(es[1..], s1, mod);
      NamelessConcat(Gen(es[0], s1.varCount, s1, mod).value.code, GenArgs(es[1..], s1, mod).value.code);
    }
  }

  lemma NamelessNothing()
    ensures Nameless([])
  {}

  // ---------- running them ----------

  /** One step at known code. */
  lemma CellStepAt(w: World, i: Instr, c: CellSteps.CellState)
    requires Shape(c) && CodeAt(w, c.ip, [i])
    ensures InstrOk(i) && Size(w, [i]) > 0
    ensures Fetch(w.m.code, c.ip) == Some((Resolve(i, w.names, w.m.strings), c.ip + Size(w, [i])))
    ensures CellSteps.CellStep(w.m, c)
         == CellSteps.CellExec(w.m, Resolve(i, w.names, w.m.strings), c.ip + Size(w, [i]), c)
  {
    hide HoldsAt, CellSteps.CellExec, Fetch, InstrOk, Known, LoadedBytes, Resolve;
    assert [i][0] == i;
    var b := LoadedBytes(i, w.names, w.m.strings);
    assert LoadedAll([i], w.names, w.m.strings) == b + LoadedAll([], w.names, w.m.strings) == b;
    FetchLoaded(w.m.code, c.ip, i, w.names, w.m.strings);
  }

  lemma {:induction false} RunAdd(m: Machine, c: CellSteps.CellState, a: nat, b: nat)
    requires Shape(c) && CellSteps.CellRun(m, c, a).Some?
    ensures CellSteps.CellRun(m, c, a + b) == CellSteps.CellRun(m, CellSteps.CellRun(m, c, a).value, b)
    decreases b
  {
    hide CellSteps.CellStep;
    if b > 0 { RunAdd(m, c, a, b - 1); }
  }

  /** Running went on behind some code, and changed only registers behind `limit` and the
      one of the result. */
  ghost predicate Went(c: CellSteps.CellState, d: CellSteps.CellState, size: nat, limit: nat, out: nat) {
    && Shape(c) && Shape(d) && d.ip == c.ip + size && d.current == c.current && d.upvals == c.upvals
    && (forall r :: 0 <= r <= limit && r != out && r < REGISTER_COUNT ==> Regs(d)[r] == Regs(c)[r])
    && (forall j :: 0 <= j < STACK_DEPTH && j != c.current ==> d.frames[j] == c.frames[j])
    && d.frames[c.current].retAddress == c.frames[c.current].retAddress
    && d.frames[c.current].retRegister == c.frames[c.current].retRegister
  }

  ghost predicate Ran(w: World, c: CellSteps.CellState, n: nat, size: nat, limit: nat, out: nat, v: Cells.Cell)
    requires Shape(c)
  {
    && CellSteps.CellRun(w.m, c, n).Some?
    && var d := CellSteps.CellRun(w.m, c, n).value;
       Went(c, d, size, limit, out) && out < REGISTER_COUNT && Regs(d)[out] == v
  }

  /** The arguments are in the registers behind `base`. */
  ghost predicate ArgsRan(w: World, c: CellSteps.CellState, n: nat, size: nat, base: nat, vs: seq<Cells.Cell>)
    requires Shape(c)
  {
    && CellSteps.CellRun(w.m, c, n).Some? && base + |vs| < REGISTER_COUNT
    && var d := CellSteps.CellRun(w.m, c, n).value;
       Went(c, d, size, base, base + 1) && d.upvals == c.upvals
       && forall i :: 0 <= i < |vs| ==> Regs(d)[base + 1 + i] == vs[i]
  }

  /** An instruction that stores a cell. */
  lemma Stores(w: World, c: CellSteps.CellState, i: Instr, limit: nat, out: nat, v: Cells.Cell)
    requires Shape(c) && CodeAt(w, c.ip, [i]) && out < REGISTER_COUNT
    requires CellSteps.CellStep(w.m, c) == SetReg(c, Register(out), v, c.ip + Size(w, [i]))
    ensures Ran(w, c, 1, Size(w, [i]), limit, out, v)
  {
    hide CellSteps.CellStep;
    assert CellSteps.CellRun(w.m, c, 0) == Some(c);
  }

  lemma {:induction false} RunExpr(w: World, e: Expr, out: nat, s: Scope, mod: string, c: CellSteps.CellState)
      returns (n: nat)
    requires Closed(e) && CellOf(e).Some? && Shape(c)
    requires out <= s.varCount && s.varCount + Needs(e) < REGISTER_COUNT && Gen(e, out, s, mod).Some?
    requires CodeAt(w, c.ip, Gen(e, out, s, mod).value.code)
    ensures Ran(w, c, n, Size(w, Gen(e, out, s, mod).value.code), s.varCount, out, CellOf(e).value)
    decreases e, 0
  {
    hide CodeAt, Size, GenArgs, Popped, Around, Primitive, Ran, ArgsRan, CellSteps.CellStep, CellSteps.CellRun,
        Cells.CellCompute, CutLists.ListOf, SetReg;
    Compiles(e, out, s, mod);
    match e
    case IntLit(val) =>
      CellStepAt(w, StoreInt(Register(out), val), c);
      StoreIntSurvives(val);
      Stores(w, c, StoreInt(Register(out), val), s.varCount, out, Cells.IntC(val));
      n := 1;
    case ListLit(es) =>
      ListCode(e, out, s, mod);
      CodeParts(w, c.ip, GenArgs(es, s, mod).value.code, [ListMade(|es|, out, s.varCount)]);
      n := RunArgs(w, es, s, mod, c);
      n := ListRuns(w, c, n, Size(w, GenArgs(es, s, mod).value.code), s.varCount, out, CellsOf(es).value);
    case Apply(callee, name, es) =>
      ApplyCode(e, out, s, mod);
      CodeParts(w, c.ip, GenArgs(es, s, mod).value.code, [Operator(name, out, s.varCount)]);
      n := RunArgs(w, es, s, mod, c);
      n := OperatorRuns(w, c, n, Size(w, GenArgs(es, s, mod).value.code), s.varCount, out, name, CellsOf(es).value);
  }

  function ListMade(k: nat, out: nat, base: nat): Instr {
    MakeList(Register(out), k, seq(k, i requires 0 <= i < k => Register(base + 1 + i)))
  }

  lemma ListCode(e: Expr, out: nat, s: Scope, mod: string)
    requires e.ListLit? && Closed(e) && s.varCount + Needs(e) < REGISTER_COUNT
    ensures GenArgs(e.elems, s, mod).Some? && s.varCount + AllNeed(e.elems) < REGISTER_COUNT
    ensures Gen(e, out, s, mod)
         == Some(Output(GenArgs(e.elems, s, mod).value.code + [ListMade(|e.elems|, out, s.varCount)], s))
  {
    hide GenArgs, Popped, Around, Nameless;
    ArgsCompile(e.elems, s, mod);
    PoppedRegisters(s, |e.elems|);
  }

  lemma ApplyCode(e: Expr, out: nat, s: Scope, mod: string)
    requires e.Apply? && Closed(e) && out < REGISTER_COUNT && s.varCount + Needs(e) < REGISTER_COUNT
    ensures GenArgs(e.args, s, mod).Some? && s.varCount + AllNeed(e.args) < REGISTER_COUNT
    ensures Gen(e, out, s, mod)
         == Some(Output(GenArgs(e.args, s, mod).value.code + [Operator(e.name, out, s.varCount)], s))
  {
    hide GenArgs, Popped, Around, Primitive, ApplyOp, Operator, Nameless;
    ArgsCompile(e.args, s, mod);
    PoppedRegisters(s, |e.args|);
    OperatorCode(e.mod, e.name, out, s, |e.args|, mod);
  }

  /** The elements and then the list. */
  lemma ListRuns(w: World, c: CellSteps.CellState, n1: nat, size: nat, base: nat, out: nat, vs: seq<Cells.Cell>)
      returns (n: nat)
    requires Shape(c) && ArgsRan(w, c, n1, size, base, vs) && out <= base
    requires CodeAt(w, c.ip + size, [ListMade(|vs|, out, base)])
    ensures Ran(w, c, n, size + Size(w, [ListMade(|vs|, out, base)]), base, out, Cells.ListC(CutLists.ListOf(vs)))
  {
    hide CodeAt, Size, Ran, ArgsRan, CellSteps.CellStep, CellSteps.CellRun, CutLists.ListOf, SetReg, GetVars;
    var i := ListMade(|vs|, out, base);
    var d := ArgsEnd(w, c, n1, size, base, vs);
    CellStepAt(w, i, d);
    Stores(w, d, i, base, out, Cells.ListC(CutLists.ListOf(vs)));
    n := Behind(w, c, d, n1, size, Size(w, [i]), base, out, vs, Cells.ListC(CutLists.ListOf(vs)));
  }

  /** The operands and then the operation. */
  lemma OperatorRuns(w: World, c: CellSteps.CellState, n1: nat, size: nat, base: nat, out: nat, name: string,
      vs: seq<Cells.Cell>)
      returns (n: nat)
    requires Shape(c) && ArgsRan(w, c, n1, size, base, vs) && out <= base && Takes(name, |vs|)
    requires CodeAt(w, c.ip + size, [Operator(name, out, base)])
    requires var (op, k, _) := Primitive(name).value; Cells.CellCompute(op, vs[..k]).Some?
    ensures var (op, k, _) := Primitive(name).value;
            Ran(w, c, n, size + Size(w, [Operator(name, out, base)]), base, out, Cells.CellCompute(op, vs[..k]).value)
  {
    hide CodeAt, Size, Ran, ArgsRan, CellSteps.CellStep, CellSteps.CellRun, Cells.CellCompute, SetReg, GetVars,
        Primitive, Operator, CellSteps.Operates;
    var (op, k, _) := Primitive(name).value;
    var i, v := Operator(name, out, base), Cells.CellCompute(op, vs[..k]).value;
    var d := ArgsEnd(w, c, n1, size, base, vs);
    OperatorStep(w, d, name, out, base, vs);
    Stores(w, d, i, base, out, v);
    n := Behind(w, c, d, n1, size, Size(w, [i]), base, out, vs, v);
  }

  /** The state behind the arguments. */
  lemma ArgsEnd(w: World, c: CellSteps.CellState, n: nat, size: nat, base: nat, vs: seq<Cells.Cell>)
      returns (d: CellSteps.CellState)
    requires Shape(c) && ArgsRan(w, c, n, size, base, vs)
    ensures CellSteps.CellRun(w.m, c, n) == Some(d) && Shape(d) && d.ip == c.ip + size
    ensures base + |vs| < REGISTER_COUNT
    ensures GetVars(d, seq(|vs|, k requires 0 <= k < |vs| => Register(base + 1 + k))) == Some(vs)
  {
    hide GetVars, CellSteps.CellRun;
    d := CellSteps.CellRun(w.m, c, n).value;
    var xs := ReadsRegisters(d, base, |vs|);
    assert xs == vs;
  }

  /** An operator at its operands. */
  lemma OperatorStep(w: World, d: CellSteps.CellState, name: string, out: nat, base: nat, vs: seq<Cells.Cell>)
    requires Shape(d) && Takes(name, |vs|) && base + |vs| < REGISTER_COUNT
    requires GetVars(d, seq(|vs|, k requires 0 <= k < |vs| => Register(base + 1 + k))) == Some(vs)
    requires CodeAt(w, d.ip, [Operator(name, out, base)])
    ensures var (op, n, _) := Primitive(name).value;
            && CellSteps.Operates(w.m, d, op, vs[..n])
            && CellSteps.CellStep(w.m, d)
               == (var v := Cells.CellCompute(op, vs[..n]);
                   if v.None? then None
                   else SetReg(d, Register(out), v.value, d.ip + Size(w, [Operator(name, out, base)])))
  {
    hide CodeAt, Size, Primitive, GetVars, Cells.CellCompute, SetReg, Operands, CellSteps.CellStep;
    var (op, n, _) := Primitive(name).value;
    var refs: seq<VarRef> := seq(|vs|, k requires 0 <= k < |vs| => Register(base + 1 + k));
    GetVarsPrefix(d, refs, n);
    var args := [Register(out)] + refs[..n];
    assert refs[..n] == seq(n, k requires 0 <= k < n => Register(base + 1 + k));
    assert args[1..] == refs[..n] && args[0] == Register(out);
    CellStepAt(w, Operator(name, out, base), d);
  }

  /** Arguments and then one instruction. */
  lemma Behind(w: World, c: CellSteps.CellState, d: CellSteps.CellState, n1: nat, size: nat, more: nat, base: nat,
      out: nat, vs: seq<Cells.Cell>, v: Cells.Cell)
      returns (n: nat)
    requires Shape(c) && Shape(d) && ArgsRan(w, c, n1, size, base, vs) && CellSteps.CellRun(w.m, c, n1) == Some(d)
    requires Ran(w, d, 1, more, base, out, v) && out <= base
    ensures Ran(w, c, n, size + more, base, out, v)
  {
    hide CellSteps.CellRun;
    RunAdd(w.m, c, n1, 1);
    n := n1 + 1;
  }

  lemma {:induction false} RunArgs(w: World, es: seq<Expr>, s: Scope, mod: string, c: CellSteps.CellState)
      returns (n: nat)
    requires AllClosed(es) && CellsOf(es).Some? && Shape(c)
    requires s.varCount + AllNeed(es) < REGISTER_COUNT && GenArgs(es, s, mod).Some?
    requires CodeAt(w, c.ip, GenArgs(es, s, mod).value.code)
    ensures ArgsRan(w, c, n, Size(w, GenArgs(es, s, mod).value.code), s.varCount, CellsOf(es).value)
    decreases es, 0
  {
    hide CodeAt, Size, Gen, Needs, Around, CellOf, Ran, ArgsRan, Closed, CellSteps.CellStep, CellSteps.CellRun;
    if es == [] {
      n := 0;
      NoArgs(w, c, s.varCount);
    } else {
      var s1 := s.(varCount := s.varCount + 1);
      assert Push(s) == Some(s1);
      ArgsCompile(es, s, mod);
      Compiles(es[0], s1.varCount, s1, mod);
      var a, b := Gen(es[0], s1.varCount, s1, mod).value.code, GenArgs(es[1..], s1, mod).value.code;
      CodeParts(w, c.ip, a, b);
      var n1 := RunExpr(w, es[0], s1.varCount, s1, mod, c);
      var d := ExprEnd(w, c, n1, Size(w, a), s1.varCount, s1.varCount, CellOf(es[0]).value);
      var n2 := RunArgs(w, es[1..], s1, mod, d);
      n := OneAndMore(w, c, d, n1, n2, Size(w, a), Size(w, b), s.varCount, CellOf(es[0]).value,
                      CellsOf(es[1..]).value);
    }
  }

  lemma NoArgs(w: World, c: CellSteps.CellState, base: nat)
    requires Shape(c) && base < REGISTER_COUNT
    ensures ArgsRan(w, c, 0, Size(w, []), base, [])
  {
    assert CellSteps.CellRun(w.m, c, 0) == Some(c);
  }

  lemma ExprEnd(w: World, c: CellSteps.CellState, n: nat, size: nat, limit: nat, out: nat, v: Cells.Cell)
      returns (d: CellSteps.CellState)
    requires Shape(c) && Ran(w, c, n, size, limit, out, v)
    ensures CellSteps.CellRun(w.m, c, n) == Some(d) && Shape(d) && d.ip == c.ip + size
  {
    d := CellSteps.CellRun(w.m, c, n).value;
  }

  lemma OneAndMore(w: World, c: CellSteps.CellState, d: CellSteps.CellState, n1: nat, n2: nat, size: nat, more: nat,
      base: nat, v: Cells.Cell, vs: seq<Cells.Cell>)
      returns (n: nat)
    requires Shape(c) && Shape(d) && CellSteps.CellRun(w.m, c, n1) == Some(d)
    requires Ran(w, c, n1, size, base + 1, base + 1, v) && ArgsRan(w, d, n2, more, base + 1, vs)
    ensures ArgsRan(w, c, n, size + more, base, [v] + vs)
  {
    hide CellSteps.CellRun;
    RunAdd(w.m, c, n1, n2);
    n := n1 + n2;
    var e := CellSteps.CellRun(w.m, d, n2).value;
    forall i | 0 <= i < |[v] + vs| ensures Regs(e)[base + 1 + i] == ([v] + vs)[i] {
      if i > 0 { assert Regs(e)[base + 1 + 1 + (i - 1)] == vs[i - 1]; }
    }
  }

  // ---------- where they stop ----------

  /** After n steps there is no next one, though an operation is to be done. */
  ghost predicate Stuck(m: Machine, c: CellSteps.CellState, n: nat)
    requires Shape(c)
  {
    && CellSteps.CellRun(m, c, n).Some?
    && var d := CellSteps.CellRun(m, c, n).value;
       CellSteps.CellStep(m, d) == None && Operation(m, d)
  }

  ghost predicate Operation(m: Machine, c: CellSteps.CellState) {
    match Fetch(m.code, c.ip)
    case Some((Plain(op, _), _)) => op != Exit
    case _ => false
  }

  lemma StuckLater(m: Machine, c: CellSteps.CellState, d: CellSteps.CellState, n: nat, k: nat)
    requires Shape(c) && Shape(d) && CellSteps.CellRun(m, c, n) == Some(d) && Stuck(m, d, k)
    ensures Stuck(m, c, n + k)
  {
    hide CellSteps.CellStep, CellSteps.CellRun;
    RunAdd(m, c, n, k);
  }

  /** Where an operation has no result, the run stops. */
  lemma {:induction false} ExprStops(w: World, e: Expr, out: nat, s: Scope, mod: string, c: CellSteps.CellState)
      returns (n: nat)
    requires Closed(e) && CellOf(e).None? && Shape(c)
    requires out <= s.varCount && s.varCount + Needs(e) < REGISTER_COUNT && Gen(e, out, s, mod).Some?
    requires CodeAt(w, c.ip, Gen(e, out, s, mod).value.code)
    ensures Stuck(w.m, c, n)
    decreases e, 0
  {
    hide CodeAt, Size, GenArgs, Popped, Around, Primitive, Ran, ArgsRan, CellSteps.CellStep, CellSteps.CellRun,
        Cells.CellCompute, CutLists.ListOf, SetReg, Stuck;
    match e
    case ListLit(es) =>
      ListCode(e, out, s, mod);
      CodeParts(w, c.ip, GenArgs(es, s, mod).value.code, [ListMade(|es|, out, s.varCount)]);
      n := ArgsStop(w, es, s, mod, c);
    case Apply(callee, name, es) =>
      ApplyCode(e, out, s, mod);
      CodeParts(w, c.ip, GenArgs(es, s, mod).value.code, [Operator(name, out, s.varCount)]);
      if CellsOf(es).None? {
        n := ArgsStop(w, es, s, mod, c);
      } else {
        n := RunArgs(w, es, s, mod, c);
        OperatorStops(w, c, n, Size(w, GenArgs(es, s, mod).value.code), s.varCount, out, name, CellsOf(es).value);
      }
  }

  lemma OperatorStops(w: World, c: CellSteps.CellState, n: nat, size: nat, base: nat, out: nat, name: string,
      vs: seq<Cells.Cell>)
    requires Shape(c) && ArgsRan(w, c, n, size, base, vs) && out <= base && Takes(name, |vs|)
    requires CodeAt(w, c.ip + size, [Operator(name, out, base)])
    requires var (op, k, _) := Primitive(name).value; Cells.CellCompute(op, vs[..k]).None?
    ensures Stuck(w.m, c, n)
  {
    hide CodeAt, Size, ArgsRan, CellSteps.CellStep, CellSteps.CellRun, Cells.CellCompute, SetReg, GetVars,
        Primitive, Operator;
    var d := ArgsEnd(w, c, n, size, base, vs);
    OperatorStep(w, d, name, out, base, vs);
    TakesIsNoExit(name, |vs|);
  }

  lemma TakesIsNoExit(name: string, k: nat)
    requires Takes(name, k)
    ensures Primitive(name).value.0 != Exit
  {}

  lemma {:induction false} ArgsStop(w: World, es: seq<Expr>, s: Scope, mod: string, c: CellSteps.CellState)
      returns (n: nat)
    requires AllClosed(es) && CellsOf(es).None? && Shape(c)
    requires s.varCount + AllNeed(es) < REGISTER_COUNT && GenArgs(es, s, mod).Some?
    requires CodeAt(w, c.ip, GenArgs(es, s, mod).value.code)
    ensures Stuck(w.m, c, n)
    decreases es, 0
  {
    hide CodeAt, Size, Gen, Needs, Around, CellOf, Ran, Closed, CellSteps.CellStep, CellSteps.CellRun, Stuck;
    var s1 := s.(varCount := s.varCount + 1);
    assert Push(s) == Some(s1);
    Compiles(es[0], s1.varCount, s1, mod);
    ArgsCompile(es[1..], s1, mod);
    var a, b := Gen(es[0], s1.varCount, s1, mod).value.code, GenArgs(es[1..], s1, mod).value.code;
    CodeParts(w, c.ip, a, b);
    if CellOf(es[0]).None? {
      n := ExprStops(w, es[0], s1.varCount, s1, mod, c);
    } else {
      var n1 := RunExpr(w, es[0], s1.varCount, s1, mod, c);
      var d := ExprEnd(w, c, n1, Size(w, a), s1.varCount, s1.varCount, CellOf(es[0]).value);
      var n2 := ArgsStop(w, es[1..], s1, mod, d);
      StuckLater(w.m, c, d, n1, n2);
      n := n1 + n2;
    }
  }
}
