/**
 Code generation: registers are handed out as a stack, names are looked up
 through the enclosing functions, and jumps are computed from instruction sizes.
 Nothing is generated where the compiler panics: a register or a size past a
 byte, an unknown or rebound name, a missing operand, an integer past 16 bits.
 */
module Codegen {
  import opened Seqs
  import opened Ast
  import opened Bytecode

  /** The state of an FnGenerator, with those of the functions around it. */
  datatype Scope = Scope(varCount: nat, env: map<string, VarRef>, upvals: seq<VarRef>, parent: Option<Scope>)

  /** Generated code and the state it leaves. */
  datatype Output = Output(code: seq<Instr>, scope: Scope)

  // ---------- scopes ----------

  /** Arguments live in the registers from 1 on. */
  function ParamEnv(params: seq<string>): map<string, VarRef> {
    if params == [] then map[]
    else ParamEnv(params[..|params| - 1])[params[|params| - 1] := Register(|params|)]
  }

  /** FnGenerator::new */
  function NewScope(params: seq<string>, parent: Option<Scope>): Option<Scope> {
    if |params| > 255 then None else Some(Scope(|params|, ParamEnv(params), [], parent))
  }

  /** The first position of a reference, or the length. */
  function IndexOf(refs: seq<VarRef>, v: VarRef): (i: nat)
    ensures i <= |refs| && (i < |refs| <==> v in refs) && (i < |refs| ==> refs[i] == v)
  {
    if refs == [] then 0 else if refs[0] == v then 0 else 1 + IndexOf(refs[1..], v)
  }

  /** The registers and names of the enclosing functions, innermost first. */
  function Around(s: Scope): seq<(nat, map<string, VarRef>)> {
    match s.parent
    case None => []
    case Some(p) => [(p.varCount, p.env)] + Around(p)
  }

  /** Generating code takes registers, and leaves those of the functions around
      alone. */
  predicate Further(s: Scope, t: Scope) {
    s.varCount <= t.varCount && Around(s) == Around(t)
  }

  lemma AroundSplit(s: Scope, t: Scope)
    requires Around(s) == Around(t)
    ensures s.parent.None? <==> t.parent.None?
    ensures s.parent.Some? ==> var (p, q) := (s.parent.value, t.parent.value);
                               p.varCount == q.varCount && p.env == q.env && Around(p) == Around(q)
  {
    if s.parent.Some? {
      assert Around(s)[0] == Around(t)[0] && Around(s)[1..] == Around(t)[1..];
    }
  }

  /** push_upval: a reference already captured keeps its index. */
  function PushUpval(s: Scope, v: VarRef): (VarRef, Scope) {
    if v in s.upvals then (Upvalue(IndexOf(s.upvals, v)), s)
    else (Upvalue(|s.upvals|), s.(upvals := s.upvals + [v]))
  }

  /** search_env: a name of an enclosing function becomes an upvalue of every
      function on the way. */
  function Search(s: Scope, name: string): (r: (Option<VarRef>, Scope))
    ensures Further(s, r.1) && r.1.varCount == s.varCount
  {
    if name in s.env then (Some(s.env[name]), s)
    else if s.parent.None? then (None, s)
    else
      var (found, parent) := Search(s.parent.value, name);
      if found.None? then (None, s)
      else
        var (v, s') := PushUpval(s.(parent := Some(parent)), found.value);
        (Some(v), s')
  }

  /** identifier_exists_in_scope */
  predicate Exists(s: Scope, name: string) {
    name in s.env || (s.parent.Some? && Exists(s.parent.value, name))
  }

  /** push, at the limit of 8 bits. */
  function Push(s: Scope): Option<Scope> {
    if s.varCount >= 255 then None else Some(s.(varCount := s.varCount + 1))
  }

  /** n pops, in the order of the pushes. */
  function Popped(s: Scope, n: nat): (seq<VarRef>, Scope)
    requires n <= s.varCount
  {
    (seq(n, i requires 0 <= i < n => Register(s.varCount - n + 1 + i)), s.(varCount := s.varCount - n))
  }

  // ---------- operators ----------

  /** The operations that apply_op knows by name: opcode, arguments used, and
      whether the first operand is the destination. */
  function Primitive(name: string): Option<(Op, nat, bool)> {
    match name
    case "+" => Some((Add, 2, true))
    case "++" => Some((Concat, 2, true))
    case "-" => Some((Sub, 2, true))
    case "==" => Some((Eq, 2, true))
    case "!=" => Some((NotEq, 2, true))
    case "!" => Some((Not, 1, true))
    case ">" => Some((GreaterThan, 2, true))
    case "exit" => Some((Exit, 1, false))
    case "print" => Some((Print, 1, false))
    case "file_pwd" => Some((FilePwd, 0, true))
    case "file_ls" => Some((FileLs, 1, true))
    case "tuple_nth" => Some((TupleNth, 2, true))
    case "list_nth" => Some((ListNth, 2, true))
    case "list_count" => Some((ListCount, 1, true))
    case "list_slice" => Some((ListSlice, 3, true))
    case "string_slice" => Some((StringSlice, 3, true))
    case "string_count" => Some((StringCount, 1, true))
    case "code_load" => Some((CodeLoad, 1, true))
    case "function_name" => Some((FunctionName, 1, true))
    case "string_contains" => Some((StringContains, 2, true))
    case "term_to_string" => Some((ToString, 1, true))
    case "gc_collect" => Some((GcCollect, 0, true))
    case _ => None
  }

  /** The name under which programs reach an opcode that stands for an operator. */
  function OperatorName(op: Op): Option<string> {
    match op
    case Add => Some("+")
    case Sub => Some("-")
    case Concat => Some("++")
    case Eq => Some("==")
    case NotEq => Some("!=")
    case Not => Some("!")
    case GreaterThan => Some(">")
    case TupleNth => Some("tuple_nth")
    case ListNth => Some("list_nth")
    case ListCount => Some("list_count")
    case ListSlice => Some("list_slice")
    case StringCount => Some("string_count")
    case StringContains => Some("string_contains")
    case StringSlice => Some("string_slice")
    case ToString => Some("term_to_string")
    case FunctionName => Some("function_name")
    case CodeLoad => Some("code_load")
    case FileLs => Some("file_ls")
    case FilePwd => Some("file_pwd")
    case GcCollect => Some("gc_collect")
    case Print => Some("print")
    case Exit => Some("exit")
    case Mov => None
    case StoreTrue => None
    case StoreFalse => None
    case StoreNil => None
  }

  /** Every operator has an opcode of its own, and every such opcode its operator. */
  lemma OperatorsNamed(name: string, op: Op)
    ensures Primitive(name).Some? && Primitive(name).value.0 == op <==> OperatorName(op) == Some(name)
  {}

  /** apply_op and generic_apply. */
  function ApplyOp(callee: Option<string>, name: string, out: nat, args: seq<VarRef>, s: Scope,
      mod: string): (r: Option<Output>)
    ensures r.Some? ==> Further(s, r.value.scope)
  {
    var prim := Primitive(name);
    if prim.Some? then
      var (op, n, ret) := prim.value;
      if |args| < n then None
      else Some(Output([Plain(op, (if ret then [Register(out)] else []) + args[..n])], s))
    else
      var (found, s') := Search(s, name);
      if callee.None? && found.Some? then
        Some(Output([CallLocal(Register(out), found.value, args)], s'))
      else
        Some(Output([Call(Register(out), QualifiedName(callee.GetOr(mod), name), |args|, args)], s'))
  }

  // ---------- jumps ----------

  /** byte_size_of, plus one, as a jump. */
  function JumpOver(code: seq<Instr>): Option<nat> {
    if ByteSizeOf(code) + 1 > 255 then None else Some(ByteSizeOf(code) + 1)
  }

  /** gen_branch_into: the else-branch comes first, and jumps over a then-branch
      that is not empty. */
  function Branch(reg: nat, thenCode: seq<Instr>, elseCode: seq<Instr>): Option<seq<Instr>> {
    var over := JumpOver(thenCode);
    if ByteSizeOf(thenCode) > 0 && over.None? then None
    else
      var els := if ByteSizeOf(thenCode) > 0 then elseCode + [Jmp(over.value)] else elseCode;
      if JumpOver(els).None? then None
      else Some([Test(Register(reg), JumpOver(els).value)] + els + thenCode)
  }

  // ---------- expressions ----------

  /** generate_expr */
  function Gen(e: Expr, out: nat, s: Scope, mod: string): (r: Option<Output>)
    ensures r.Some? ==> Further(s, r.value.scope)
    decreases e, 0
  {
    match e
    case IntLit(val) => if val > 65535 then None else Some(Output([StoreInt(Register(out), val)], s))
    case TrueLit => Some(Output([Plain(StoreTrue, [Register(out)])], s))
    case FalseLit => Some(Output([Plain(StoreFalse, [Register(out)])], s))
    case NilLit => Some(Output([Plain(StoreNil, [Register(out)])], s))
    case StrLit(text) => Some(Output([LoadString(Register(out), Text(text))], s))
    case CaptureFn(callee, name, arity) =>
      Some(Output([Capture(Register(out), QualifiedName(callee.GetOr(mod), name), arity)], s))
    case Ident(name) =>
      var (found, s') := Search(s, name);
      if found.None? then None
      else Some(Output([Plain(Mov, [Register(out), found.value])], s'))
    case Let(name, right) =>
      if Exists(s, name) || Push(s).None? then None
      else
        var s1 := Push(s).value;
        var r := Gen(right, s1.varCount, s1, mod);
        if r.None? then None
        else
          var s2 := r.value.scope;
          Some(Output(r.value.code, s2.(env := s2.env[name := Register(s1.varCount)])))
    case Apply(callee, name, args) =>
      if name == "&&" || name == "||" then
        if |args| < 2 then None
        else
          var l := Gen(args[0], out, s, mod);
          if l.None? then None
          else
            var r := Gen(args[1], out, l.value.scope, mod);
            if r.None? then None
            else
              var branch := if name == "&&" then Branch(out, r.value.code, []) else Branch(out, [], r.value.code);
              if branch.None? then None else Some(Output(l.value.code + branch.value, r.value.scope))
      else
        var a := GenArgs(args, s, mod);
        if a.None? then None
        else
          var (locs, s1) := Popped(a.value.scope, |args|);
          var op := ApplyOp(callee, name, out, locs, s1, mod);
          if op.None? then None else Some(Output(a.value.code + op.value.code, op.value.scope))
    case TupleLit(elems) =>
      var a := GenArgs(elems, s, mod);
      if a.None? then None
      else
        var (locs, s1) := Popped(a.value.scope, |elems|);
        Some(Output(a.value.code + [MakeTuple(Register(out), |elems|, locs)], s1))
    case ListLit(elems) =>
      var a := GenArgs(elems, s, mod);
      if a.None? then None
      else
        var (locs, s1) := Popped(a.value.scope, |elems|);
        Some(Output(a.value.code + [MakeList(Register(out), |elems|, locs)], s1))
    case If(cond, body, elseBody) =>
      // both branches before the condition; its register is never given back
      var t := GenBlock(body, out, s, mod);
      if t.None? then None
      else
        var f := GenBlock(elseBody, out, t.value.scope, mod);
        if f.None? || Push(f.value.scope).None? then None
        else
          var s1 := Push(f.value.scope).value;
          var c := Gen(cond, s1.varCount, s1, mod);
          if c.None? then None
          else
            var branch := Branch(s1.varCount, t.value.code, f.value.code);
            if branch.None? then None else Some(Output(c.value.code + branch.value, c.value.scope))
    case Lambda(params, body) =>
      var b := GenBody(params, body, Some(s), mod);
      if b.None? || JumpOver(b.value.code).None? then None
      else
        var child := b.value.scope;
        Some(Output([AnonFn(Register(out), JumpOver(b.value.code).value, |params|, child.upvals)] + b.value.code,
                    child.parent.value))
  }

  /** One fresh register for each argument. */
  function GenArgs(args: seq<Expr>, s: Scope, mod: string): (r: Option<Output>)
    ensures r.Some? ==> Further(s, r.value.scope) && r.value.scope.varCount >= s.varCount + |args|
    decreases args, 0
  {
    if args == [] then Some(Output([], s))
    else if Push(s).None? then None
    else
      var s1 := Push(s).value;
      var first := Gen(args[0], s1.varCount, s1, mod);
      if first.None? then None
      else
        var rest := GenArgs(args[1..], first.value.scope, mod);
        if rest.None? then None else Some(Output(first.value.code + rest.value.code, rest.value.scope))
  }

  /** generate_block */
  function GenBlock(block: seq<Expr>, out: nat, s: Scope, mod: string): (r: Option<Output>)
    ensures r.Some? ==> Further(s, r.value.scope)
    decreases block, 1
  {
    if block == [] then Some(Output([Plain(StoreNil, [Register(out)])], s)) else GenItems(block, out, s, mod)
  }

  function GenItems(block: seq<Expr>, out: nat, s: Scope, mod: string): (r: Option<Output>)
    ensures r.Some? ==> Further(s, r.value.scope)
    decreases block, 0
  {
    if block == [] then Some(Output([], s))
    else
      var first := Gen(block[0], out, s, mod);
      if first.None? then None
      else
        var rest := GenItems(block[1..], out, first.value.scope, mod);
        if rest.None? then None else Some(Output(first.value.code + rest.value.code, rest.value.scope))
  }

  /** generate_code: a function body, with its result in register 0. */
  function GenBody(params: seq<string>, body: seq<Expr>, parent: Option<Scope>, mod: string): (r: Option<Output>)
    ensures r.Some? ==> (parent.None? <==> r.value.scope.parent.None?)
                        && (parent.Some? ==> var p := r.value.scope.parent.value;
                              p.varCount == parent.value.varCount && p.env == parent.value.env
                              && Around(p) == Around(parent.value))
    decreases body, 2
  {
    var s := NewScope(params, parent);
    if s.None? then None
    else
      var b := GenBlock(body, 0, s.value, mod);
      if b.None? then None
      else
        AroundSplit(s.value, b.value.scope);
        Some(Output(b.value.code + [Return], b.value.scope))
  }

  /** FnGenerator::generate */
  function GenFunction(f: FunDef, mod: string): Option<Fun> {
    var b := GenBody(f.params, f.body, None, mod);
    if b.None? then None else Some(Fun(QualifiedName(mod, f.name), |f.params|, b.value.code))
  }

  /** generate */
  function GenModule(mod: string, fs: seq<FunDef>): Option<seq<Fun>> {
    if fs == [] then Some([])
    else
      var first := GenFunction(fs[0], mod);
      var rest := GenModule(mod, fs[1..]);
      if first.None? || rest.None? then None else Some([first.value] + rest.value)
  }
}
