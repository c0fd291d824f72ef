/**
 One step of the interpreter over cells, where lists are trees, and what it has to do
 with the step over values: every step is one, up to a concat that would break the
 lists held there.
 */
module CellSteps {
  import opened Seqs
  import opened Bytecode
  import opened Decode
  import opened Vm
  import opened CutLists
  import opened Cells

  type CellState = Config<Cell>

  function NoCells(): (r: seq<Cell>)
    ensures |r| == REGISTER_COUNT && StandAll(r, NoRegisters())
  {
    seq(REGISTER_COUNT, _ => ZeroC)
  }

  /** vm_new */
  function FreshCells(ip: nat): (c: CellState)
    ensures Stand(c, Fresh(ip))
  {
    State(ip, seq(STACK_DEPTH, _ => Frame(NoCells(), 0, 0)), 0, [])
  }

  ghost function CellExec(m: Machine, i: Loaded, next: nat, c: CellState): Option<CellState>
    requires Shape(c) && next > 0
  {
    match i
    case Plain(op, args) =>
      if |args| != Operands(op) || GetVars(c, args[1..]).None? then None
      else
        var v := CellCompute(op, GetVars(c, args[1..]).value);
        if v.None? then None else SetReg(c, args[0], v.value, next)
    case StoreInt(to, val) => SetReg(c, to, IntC(val), next)
    case Test(reg, jump) =>
      var v := GetVar(c, reg);
      if v.None? then None else Some(c.(ip := if TruthyCell(v.value) then Target(next, jump) else next))
    case Jmp(jump) => Some(c.(ip := Target(next, jump)))
    case Return => Leave(c, NoCells())
    case LoadString(to, id) =>
      if 1 <= id <= |m.strings| then SetReg(c, to, StrC(m.strings[id - 1]), next) else None
    case Capture(to, id, _) =>
      if id in m.functions then SetReg(c, to, FunC(m.functions[id], []), next) else None
    case Call(to, id, _, args) =>
      if id in m.functions then Enter(c, m.functions[id], [], to, args, next) else None
    case CallLocal(to, fun, args) =>
      var f := GetVar(c, fun);
      if f.None? || !f.value.FunC? then None
      else Enter(c, f.value.location, f.value.upvals, to, args, next)
    case MakeTuple(to, size, regs) =>
      var vals := GetVars(c, regs);
      if size != |regs| || size >= 255 || vals.None? then None else SetReg(c, to, TupleC(vals.value), next)
    case MakeList(to, size, regs) =>
      var vals := GetVars(c, regs);
      if size != |regs| || vals.None? then None else SetReg(c, to, ListC(ListOf(vals.value)), next)
    case AnonFn(to, jump, _, upvals) =>
      var vals := GetVars(c, upvals);
      if vals.None? then None else SetReg(c, to, FunC(next, vals.value), Target(next, jump))
  }

  /** One round of vm_run. */
  ghost function CellStep(m: Machine, c: CellState): (r: Option<CellState>)
    requires Shape(c)
    ensures r.Some? ==> Shape(r.value)
  {
    match Fetch(m.code, c.ip)
    case None => None
    case Some((i, next)) => ExecShape(m, i, next, c); CellExec(m, i, next, c)
  }

  lemma ExecShape(m: Machine, i: Loaded, next: nat, c: CellState)
    requires Shape(c) && next > 0
    ensures CellExec(m, i, next, c).Some? ==> Shape(CellExec(m, i, next, c).value)
  {
    hide CellCompute, GetVar, ListOf;
  }

  /** The state after n steps. */
  ghost function CellRun(m: Machine, c: CellState, n: nat): (r: Option<CellState>)
    requires Shape(c)
    ensures r.Some? ==> Shape(r.value)
  {
    if n == 0 then Some(c)
    else
      var d := CellRun(m, c, n - 1);
      if d.None? then None else CellStep(m, d.value)
  }

  lemma {:induction false} RunStops(m: Machine, c: CellState, n: nat, k: nat)
    requires Shape(c) && n <= k && CellRun(m, c, n) == None
    ensures CellRun(m, c, k) == None
    decreases k
  {
    hide CellStep;
    if n < k { RunStops(m, c, n, k - 1); }
  }

  // ---------- cells and the values they stand for ----------

  ghost predicate FrameStands(c: FrameOf<Cell>, f: FrameOf<Value>) {
    c.retAddress == f.retAddress && c.retRegister == f.retRegister && StandAll(c.regs, f.regs)
  }

  ghost predicate Stand(c: CellState, s: State) {
    && Shape(c) && Shape(s) && c.ip == s.ip && c.current == s.current && StandAll(c.upvals, s.upvals)
    && forall j :: 0 <= j < STACK_DEPTH ==> FrameStands(c.frames[j], s.frames[j])
  }

  lemma VarStands(c: CellState, s: State, v: VarRef)
    requires Stand(c, s)
    ensures var a, x := GetVar(c, v), GetVar(s, v); if a.None? then x.None? else x.Some? && Stands(a.value, x.value)
  {
    assert FrameStands(c.frames[c.current], s.frames[s.current]);
  }

  lemma {:induction false} VarsStand(c: CellState, s: State, refs: seq<VarRef>)
    requires Stand(c, s)
    ensures var cs, xs := GetVars(c, refs), GetVars(s, refs);
            if cs.None? then xs.None? else xs.Some? && StandAll(cs.value, xs.value)
    decreases |refs|
  {
    hide Stand, Stands, GetVar;
    if refs != [] {
      VarsStand(c, s, refs[..|refs| - 1]);
      VarStands(c, s, refs[|refs| - 1]);
    }
  }

  /** The same result on both sides. */
  ghost predicate Both(d: Option<CellState>, t: Option<State>) {
    if d.None? then t.None? else t.Some? && Stand(d.value, t.value)
  }

  lemma SetRegStands(c: CellState, s: State, to: VarRef, a: Cell, x: Value, next: nat)
    requires Stand(c, s) && Stands(a, x)
    ensures Both(SetReg(c, to, a, next), SetReg(s, to, x, next))
  {
    hide Stands;
    assert FrameStands(c.frames[c.current], s.frames[s.current]);
  }

  lemma EnterStands(c: CellState, s: State, location: nat, upvals: seq<Cell>, upvalValues: seq<Value>, to: VarRef,
      args: seq<VarRef>, next: nat)
    requires Stand(c, s) && StandAll(upvals, upvalValues)
    ensures Both(Enter(c, location, upvals, to, args, next), Enter(s, location, upvalValues, to, args, next))
  {
    hide Stands, GetVars;
    VarsStand(c.(upvals := upvals), s.(upvals := upvalValues), args);
    if s.current + 1 < STACK_DEPTH { assert FrameStands(c.frames[c.current + 1], s.frames[s.current + 1]); }
  }

  lemma LeaveStands(c: CellState, s: State)
    requires Stand(c, s)
    ensures Both(Leave(c, NoCells()), Leave(s, NoRegisters()))
  {
    hide Stands;
    assert FrameStands(c.frames[c.current], s.frames[s.current]);
    if s.current > 0 { assert FrameStands(c.frames[c.current - 1], s.frames[s.current - 1]); }
  }

  /** The operands of a computing instruction, when there are any to be had. */
  ghost predicate Operates<V>(m: Machine, s: Config<V>, op: Op, vals: seq<V>)
    requires Shape(s)
  {
    match Fetch(m.code, s.ip)
    case Some((Plain(o, args), _)) => o == op && |args| == Operands(op) && GetVars(s, args[1..]) == Some(vals)
    case _ => false
  }

  /** The machine stands at a concat, and the lists in the registers it names would
      break. */
  ghost predicate UnsafeAt(m: Machine, c: CellState)
    requires Shape(c)
  {
    exists a, b :: Operates(m, c, Concat, [a, b]) && Unsafe(a, b)
  }

  lemma OperandsOf<V>(m: Machine, s: Config<V>)
    requires Shape(s)
    ensures forall op, vals, vals' :: Operates(m, s, op, vals) && Operates(m, s, op, vals') ==> vals == vals'
    ensures forall op, vals :: Operates(m, s, op, vals) ==> 1 + |vals| == Operands(op)
  {}

  /** Where the instruction computes, its result stands for the value's. */
  ghost predicate Agree(m: Machine, c: CellState, s: State)
    requires Shape(c) && Shape(s)
  {
    OperandsOf(m, c);
    OperandsOf(m, s);
    forall op, cs, xs :: Operates(m, c, op, cs) && Operates(m, s, op, xs) ==> Agrees(op, cs, xs)
  }

  /** A step over cells is the step over values; it is missing only where that is, or at
      an unsafe concat. */
  lemma StepStands(m: Machine, c: CellState, s: State)
    requires Stand(c, s) && !m.checked && Agree(m, c, s)
    ensures var d, t := CellStep(m, c), Step(m, s);
            if d.Some? then t.Some? && Stand(d.value, t.value) else t.None? || UnsafeAt(m, c)
  {
    hide CellCompute, Compute, GetVars, GetVar, SetReg, Enter, Leave, Stands, Agrees, ListOf, Unsafe, Agree, UnsafeAt;
    if Fetch(m.code, c.ip).Some? {
      var (i, next) := Fetch(m.code, c.ip).value;
      match i
      case Plain(op, args) => PlainStands(m, c, s, op, args, next);
      case StoreInt(to, val) => IntStands(val); SetRegStands(c, s, to, IntC(val), IntV(val), next);
      case Test(reg, _) => TestStands(c, s, reg);
      case Jmp(_) =>
      case Return => LeaveStands(c, s);
      case LoadString(to, id) =>
        if 1 <= id <= |m.strings| {
          StringStands(m.strings[id - 1]);
          SetRegStands(c, s, to, StrC(m.strings[id - 1]), StrV(m.strings[id - 1]), next);
        }
      case Capture(to, id, _) =>
        if id in m.functions {
          FunctionStands(m.functions[id], [], []);
          SetRegStands(c, s, to, FunC(m.functions[id], []), FunV(m.functions[id], []), next);
        }
      case Call(to, id, _, args) =>
        if id in m.functions { EnterStands(c, s, m.functions[id], [], [], to, args, next); }
      case CallLocal(to, fun, args) => CallStands(c, s, to, fun, args, next);
      case MakeTuple(to, size, regs) => MakeStands(c, s, to, regs, next);
      case MakeList(to, size, regs) => MakeStands(c, s, to, regs, next);
      case AnonFn(to, jump, _, upvals) => ClosureStands(c, s, to, upvals, next, Target(next, jump));
    }
  }

  lemma MakeStands(c: CellState, s: State, to: VarRef, regs: seq<VarRef>, next: nat)
    requires Stand(c, s)
    ensures var cs, xs := GetVars(c, regs), GetVars(s, regs);
            if cs.None? then xs.None?
            else xs.Some? && Both(SetReg(c, to, TupleC(cs.value), next), SetReg(s, to, TupleV(xs.value), next))
                 && Both(SetReg(c, to, ListC(ListOf(cs.value)), next), SetReg(s, to, ListV(xs.value, false), next))
  {
    hide GetVars, SetReg, Stands, ListOf, FrameStands;
    VarsStand(c, s, regs);
    if GetVars(c, regs).Some? {
      var cs, xs := GetVars(c, regs).value, GetVars(s, regs).value;
      TupleStands(cs, xs);
      ListOfStands(cs, xs);
      SetRegStands(c, s, to, TupleC(cs), TupleV(xs), next);
      SetRegStands(c, s, to, ListC(ListOf(cs)), ListV(xs, false), next);
    }
  }

  lemma ClosureStands(c: CellState, s: State, to: VarRef, upvals: seq<VarRef>, location: nat, next: nat)
    requires Stand(c, s)
    ensures var cs, xs := GetVars(c, upvals), GetVars(s, upvals);
            if cs.None? then xs.None?
            else xs.Some?
                 && Both(SetReg(c, to, FunC(location, cs.value), next), SetReg(s, to, FunV(location, xs.value), next))
  {
    hide GetVars, SetReg, Stands, FrameStands;
    VarsStand(c, s, upvals);
    if GetVars(c, upvals).Some? {
      var cs, xs := GetVars(c, upvals).value, GetVars(s, upvals).value;
      FunctionStands(location, cs, xs);
      SetRegStands(c, s, to, FunC(location, cs), FunV(location, xs), next);
    }
  }

  lemma IntStands(n: nat)
    ensures Stands(IntC(n), IntV(n))
  {}

  lemma TupleStands(cs: seq<Cell>, xs: seq<Value>)
    requires StandAll(cs, xs)
    ensures Stands(TupleC(cs), TupleV(xs))
  {}

  lemma FunctionStands(location: nat, cs: seq<Cell>, xs: seq<Value>)
    requires StandAll(cs, xs)
    ensures Stands(FunC(location, cs), FunV(location, xs))
  {}

  lemma TestStands(c: CellState, s: State, reg: VarRef)
    requires Stand(c, s)
    ensures GetVar(c, reg).Some? <==> GetVar(s, reg).Some?
    ensures GetVar(c, reg).Some? ==> TruthyCell(GetVar(c, reg).value) == Truthy(GetVar(s, reg).value)
  {
    VarStands(c, s, reg);
    if GetVar(c, reg).Some? { SameKind(GetVar(c, reg).value, GetVar(s, reg).value); }
  }

  lemma CallStands(c: CellState, s: State, to: VarRef, fun: VarRef, args: seq<VarRef>, next: nat)
    requires Stand(c, s)
    ensures var f, g := GetVar(c, fun), GetVar(s, fun);
            && (f.Some? <==> g.Some?) && (f.Some? ==> (f.value.FunC? <==> g.value.FunV?))
            && (f.Some? && f.value.FunC? ==>
                  f.value.location == g.value.location
                  && Both(Enter(c, f.value.location, f.value.upvals, to, args, next),
                          Enter(s, g.value.location, g.value.upvals, to, args, next)))
  {
    hide Enter, Stands;
    VarStands(c, s, fun);
    if GetVar(c, fun).Some? {
      var f, g := GetVar(c, fun).value, GetVar(s, fun).value;
      SameKind(f, g);
      if f.FunC? { EnterStands(c, s, f.location, f.upvals, g.upvals, to, args, next); }
    }
  }

  lemma PlainStands(m: Machine, c: CellState, s: State, op: Op, args: seq<VarRef>, next: nat)
    requires Stand(c, s) && !m.checked && Agree(m, c, s) && Fetch(m.code, c.ip) == Some((Plain(op, args), next))
    ensures var d, t := CellStep(m, c), Step(m, s);
            if d.Some? then t.Some? && Stand(d.value, t.value) else t.None? || UnsafeAt(m, c)
  {
    hide CellCompute, Compute, GetVar, SetReg, Stands, Unsafe, Fetch;
    if |args| == Operands(op) {
      VarsStand(c, s, args[1..]);
      if GetVars(c, args[1..]).Some? {
        var cs, xs := GetVars(c, args[1..]).value, GetVars(s, args[1..]).value;
        assert Operates(m, c, op, cs) && Operates(m, s, op, xs);
        assert Agrees(op, cs, xs);
        if CellCompute(op, cs).Some? {
          SetRegStands(c, s, args[0], CellCompute(op, cs).value, Compute(false, op, xs).value, next);
        } else if Compute(false, op, xs).Some? {
          assert cs == [cs[0], cs[1]];
        }
      }
    }
  }

  // ---------- unsafe concats ----------

  /** There is no step at an unsafe concat. */
  lemma UnsafeStops(m: Machine, c: CellState)
    requires Shape(c) && UnsafeAt(m, c)
    ensures CellStep(m, c) == None
  {
    hide GetVars;
    var a, b :| Operates(m, c, Concat, [a, b]) && Unsafe(a, b);
  }

  /** ... nor one of a checked machine. */
  lemma UnsafeUnchecked(m: Machine, c: CellState, s: State)
    requires Stand(c, s) && UnsafeAt(m, c)
    ensures Step(m.(checked := true), s) == None
  {
    hide GetVars, Compute, Stands, Unsafe;
    var a, b :| Operates(m, c, Concat, [a, b]) && Unsafe(a, b);
    var (i, next) := Fetch(m.code, c.ip).value;
    VarsStand(c, s, i.args[1..]);
    var xs := GetVars(s, i.args[1..]).value;
    assert xs == [xs[0], xs[1]] && [a, b][0] == a && [a, b][1] == b;
    if Compute(true, Concat, xs).Some? { CheckedIsSafe(a, b, xs[0], xs[1]); }
  }
}
