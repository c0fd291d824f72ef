/**
 The interpreter as it runs: an instruction pointer that moves byte by byte, and frames
 written register by register.  Every opcode is proved to do what the step over cells
 says; and so a run is one of the step over values, up to a concat that would break the
 lists held there.
 */
module Interpreter {
  import opened Seqs
  import opened Bytecode
  import opened Decode
  import opened Vm
  import opened CutLists
  import opened Cells
  import opened CellSteps

  // ---------- operands in the code array ----------

  /** The values of the n variables named by the operand bytes at `from`. */
  function VarsAt<V>(m: Machine, s: Config<V>, from: nat, n: nat): (r: Option<seq<V>>)
    requires Shape(s)
    ensures r.Some? ==> from + n <= |m.code| && |r.value| == n
  {
    if from + n > |m.code| then None else GetVars(s, RefsOf(m.code[from..from + n]))
  }

  lemma VarsAtNext<V>(m: Machine, s: Config<V>, from: nat, k: nat)
    requires Shape(s) && from + k < |m.code|
    ensures VarsAt(m, s, from, 0) == Some([])
    ensures var front, last := VarsAt(m, s, from, k), GetVar(s, RefOf(m.code[from + k]));
            VarsAt(m, s, from, k + 1) == if front.None? || last.None? then None else Some(front.value + [last.value])
  {
    hide GetVar, RefOf;
    var refs, more := RefsOf(m.code[from..from + k]), RefsOf(m.code[from..from + k + 1]);
    assert more == refs + [RefOf(m.code[from + k])];
    assert more[..k] == refs;
  }

  lemma {:induction false} VarsAtFails<V>(m: Machine, s: Config<V>, from: nat, k: nat, n: nat)
    requires Shape(s) && k <= n && VarsAt(m, s, from, k) == None
    ensures VarsAt(m, s, from, n) == None
    decreases n
  {
    hide VarsAt, GetVar;
    if k < n {
      VarsAtFails(m, s, from, k, n - 1);
      VarsAtLast(m, s, from, n - 1);
    }
  }

  lemma VarsAtLast<V>(m: Machine, s: Config<V>, from: nat, k: nat)
    requires Shape(s) && VarsAt(m, s, from, k) == None
    ensures VarsAt(m, s, from, k + 1) == None
  {
    if from + k < |m.code| { VarsAtNext(m, s, from, k); }
  }

  /** Variables do not depend on the instruction pointer. */
  lemma {:induction false} SameVars<V>(s: Config<V>, t: Config<V>, refs: seq<VarRef>)
    requires Shape(s) && Shape(t) && s.frames == t.frames && s.current == t.current && s.upvals == t.upvals
    ensures GetVars(s, refs) == GetVars(t, refs)
  {
    if refs != [] { SameVars(s, t, refs[..|refs| - 1]); }
  }

  lemma SameVarsAt<V>(m: Machine, s: Config<V>, t: Config<V>, from: nat, n: nat)
    requires Shape(s) && Shape(t) && s.frames == t.frames && s.current == t.current && s.upvals == t.upvals
    ensures VarsAt(m, s, from, n) == VarsAt(m, t, from, n)
  {
    if from + n <= |m.code| { SameVars(s, t, RefsOf(m.code[from..from + n])); }
  }

  // ---------- steps of instructions with operand lists ----------

  lemma StepOfCompute(m: Machine, s: CellState, op: Op)
    requires Shape(s) && s.ip < |m.code| && OpOf(m.code[s.ip]) == Some(op)
    ensures CellStep(m, s)
         == if s.ip + 1 + Operands(op) > |m.code| then None else
              var vals := VarsAt(m, s, s.ip + 2, Operands(op) - 1);
              if vals.None? then None else
                var v := CellCompute(op, vals.value);
                if v.None? then None else SetReg(s, RefOf(m.code[s.ip + 1]), v.value, s.ip + 1 + Operands(op))
  {
    hide CellCompute, GetVars, SetReg, RefOf;
    var next := s.ip + 1 + Operands(op);
    if next <= |m.code| {
      assert RefsOf(m.code[s.ip + 1..next])[1..] == RefsOf(m.code[s.ip + 2..next]);
    }
  }

  lemma StepOfMake(m: Machine, s: CellState)
    requires Shape(s) && s.ip < |m.code| && (m.code[s.ip] == TUPLE || m.code[s.ip] == LIST)
    ensures CellStep(m, s)
         == if s.ip + 3 > |m.code| then None else
              var size := m.code[s.ip + 2];
              var vals := VarsAt(m, s, s.ip + 3, size);
              if vals.None? || (m.code[s.ip] == TUPLE && size >= 255) then None
              else
                var v := if m.code[s.ip] == TUPLE then TupleC(vals.value) else ListC(ListOf(vals.value));
                SetReg(s, RefOf(m.code[s.ip + 1]), v, s.ip + 3 + size)
  {
    hide CellCompute, ListOf, GetVars, SetReg, RefOf;
  }

  /** A call, once the next frame is described by the values of the arguments. */
  function EnterWith(s: CellState, location: nat, upvals: seq<Cell>, to: nat, vals: seq<Cell>, next: nat)
    : Option<CellState>
    requires Shape(s)
  {
    if s.current + 1 >= STACK_DEPTH || |vals| >= REGISTER_COUNT then None
    else
      var regs := s.frames[s.current + 1].regs;
      var f := Frame([regs[0]] + vals + regs[1 + |vals|..], next, to);
      Some(State(location, s.frames[s.current + 1 := f], s.current + 1, upvals))
  }

  lemma StepOfCall(m: Machine, s: CellState)
    requires Shape(s) && s.ip < |m.code| && m.code[s.ip] == CALL
    ensures CellStep(m, s)
         == if s.ip + 4 > |m.code| || m.code[s.ip + 2] !in m.functions then None else
              var vals := VarsAt(m, s.(upvals := []), s.ip + 4, m.code[s.ip + 3]);
              if vals.None? then None
              else EnterWith(s, m.functions[m.code[s.ip + 2]], [], m.code[s.ip + 1], vals.value,
                  s.ip + 4 + m.code[s.ip + 3])
  {
    hide CellCompute, GetVars;
  }

  lemma StepOfCallLocal(m: Machine, s: CellState)
    requires Shape(s) && s.ip < |m.code| && m.code[s.ip] == CALL_LOCAL
    ensures CellStep(m, s)
         == if s.ip + 4 > |m.code| then None else
              var f := GetVar(s, RefOf(m.code[s.ip + 2]));
              if f.None? || !f.value.FunC? then None else
                var vals := VarsAt(m, s.(upvals := f.value.upvals), s.ip + 4, m.code[s.ip + 3]);
                if vals.None? then None
                else EnterWith(s, f.value.location, f.value.upvals, m.code[s.ip + 1], vals.value,
                    s.ip + 4 + m.code[s.ip + 3])
  {
    hide CellCompute, GetVars, GetVar;
  }

  lemma StepOfAnonFn(m: Machine, s: CellState)
    requires Shape(s) && s.ip < |m.code| && m.code[s.ip] == ANON_FN
    ensures CellStep(m, s)
         == if s.ip + 5 > |m.code| then None else
              var count := m.code[s.ip + 4];
              var vals := VarsAt(m, s, s.ip + 5, count);
              if vals.None? then None
              else SetReg(s, RefOf(m.code[s.ip + 1]), FunC(s.ip + 5 + count, vals.value),
                          s.ip + 4 + count + m.code[s.ip + 2])
  {
    hide CellCompute, GetVars, SetReg, RefOf;
  }

  // ---------- the machine ----------

  /** struct vm.  When a method answers false the C program is in trouble, or the
      operation is not modelled; the machine is not used any further. */
  class VirtualMachine {
    const m: Machine
    var ip: nat
    var frames: seq<FrameOf<Cell>>
    var current: nat
    var upvals: seq<Cell>

    /** vm_new, with the modules already loaded. */
    constructor (m: Machine, ip: nat)
      ensures this.m == m && Now() == FreshCells(ip)
    {
      this.m := m;
      this.ip, frames, current, upvals := ip, FreshCells(ip).frames, 0, [];
    }

    function Now(): CellState
      reads this
    {
      State(ip, frames, current, upvals)
    }

    predicate Ready()
      reads this
    {
      Shape(Now())
    }

    /** At an instruction with this opcode. */
    predicate At(opcode: nat)
      reads this
    {
      Ready() && ip < |m.code| && m.code[ip] == opcode
    }

    method NextByte() returns (ok: bool, b: nat)
      modifies `ip
      ensures ok <==> old(ip) + 1 < |m.code|
      ensures ok ==> ip == old(ip) + 1 && b == m.code[ip]
    {
      b := 0;
      if ip + 1 >= |m.code| { return false, b; }
      ip := ip + 1;
      return true, m.code[ip];
    }

    /** What register 0 of the running frame holds. */
    function Register0(): (r: Option<Cell>)
      requires Ready()
      reads this
      ensures r == GetVar(Now(), Register(0))
    {
      Some(frames[current].regs[0])
    }

    method SetRegister(reg: nat, val: Cell) returns (ok: bool)
      requires Ready()
      modifies `frames
      ensures Ready()
      ensures SetReg(old(Now()), RefOf(reg), val, ip) == if ok then Some(Now()) else None
    {
      if reg >= REGISTER_COUNT { return false; }
      var f := frames[current];
      frames := frames[current := f.(regs := f.regs[reg := val])];
      ok := true;
    }

    /** Reads n operands and the variables they name, one after the other. */
    method NextVars(n: nat) returns (ok: bool, vals: seq<Cell>)
      requires Ready()
      modifies `ip
      ensures VarsAt(m, old(Now()), old(ip) + 1, n) == if ok then Some(vals) else None
      ensures ok ==> ip == old(ip) + n
    {
      hide VarsAt, RefOf;
      ghost var s := Now();
      vals := [];
      if ip + 1 + n > |m.code| {
        OperandsMissing(m, s, s.ip + 1, n);
        return false, vals;
      }
      if n == 0 { NoOperands(m, s, s.ip + 1); }
      for k := 0 to n
        invariant ip == s.ip + k && Ready()
        invariant k > 0 || n == 0 ==> VarsAt(m, s, s.ip + 1, k) == Some(vals)
        invariant k == 0 ==> vals == []
      {
        VarsAtNext(m, s, s.ip + 1, k);
        var b;
        ok, b := NextByte();
        var v := GetVar(Now(), RefOf(b));
        assert v == GetVar(s, RefOf(b));
        if v.None? {
          VarsAtFails(m, s, s.ip + 1, k + 1, n);
          return false, vals;
        }
        vals := vals + [v.value];
      }
      ok := true;
    }

    /** The opcodes that compute a value from variables: destination first.  The result
        stands for that of the values. */
    method OpCompute(op: Op, ghost s: State) returns (ok: bool)
      requires At(OpCode(op)) && Operands(op) >= 1 && Stand(Now(), s)
      modifies `ip, `frames
      ensures CellStep(m, old(Now())) == if ok then Some(Now()) else None
      ensures Agree(m, old(Now()), s)
    {
      hide CellStep, CellCompute, VarsAt, OpCode, Stand, Agrees, Stands;
      OpCodeRoundTrip(op);
      ghost var c := Now();
      StepOfCompute(m, c, op);
      if ip + 1 + Operands(op) > |m.code| {
        NoOperation(m, c, s, op);
        return false;
      }
      var to;
      ok, to := NextByte();
      var vals;
      SameVarsAt(m, c, Now(), ip + 1, Operands(op) - 1);
      ok, vals := NextVars(Operands(op) - 1);
      if !ok {
        NoOperation(m, c, s, op);
        return;
      }
      ghost var xs := ValuesAt(m, c, s, op, vals);
      var v := Result(op, vals, xs);
      OperationAgrees(m, c, s, op, vals, xs);
      if v.None? { return false; }
      ip := ip + 1;
      ok := SetRegister(to, v.value);
    }

    method OpStoreInt() returns (ok: bool)
      requires At(STORE_INT)
      modifies `ip, `frames
      ensures CellStep(m, old(Now())) == if ok then Some(Now()) else None
    {
      var to, low, high;
      ok, to := NextByte();
      if !ok { return; }
      ok, low := NextByte();
      if !ok { return; }
      ok, high := NextByte();
      if !ok { return; }
      ip := ip + 1;
      ok := SetRegister(to, IntC(ReadInt(low, high)));
    }

    method OpTest() returns (ok: bool)
      requires At(TEST)
      modifies `ip
      ensures CellStep(m, old(Now())) == if ok then Some(Now()) else None
    {
      var reg, jump;
      ok, reg := NextByte();
      if !ok { return; }
      ok, jump := NextByte();
      if !ok { return; }
      var v := GetVar(Now(), RefOf(reg));
      assert v == GetVar(old(Now()), RefOf(reg));
      if v.None? { return false; }
      if TruthyCell(v.value) { ip := ip + jump; } else { ip := ip + 1; }
    }

    method OpJmp() returns (ok: bool)
      requires At(JMP)
      modifies `ip
      ensures CellStep(m, old(Now())) == if ok then Some(Now()) else None
    {
      var jump;
      ok, jump := NextByte();
      if !ok { return; }
      ip := ip + jump;
    }

    method OpLoadString() returns (ok: bool)
      requires At(LOAD_STRING)
      modifies `ip, `frames
      ensures CellStep(m, old(Now())) == if ok then Some(Now()) else None
    {
      var to, id;
      ok, to := NextByte();
      if !ok { return; }
      ok, id := NextByte();
      if !ok || id == 0 || id > |m.strings| { return false; }
      ip := ip + 1;
      ok := SetRegister(to, StrC(m.strings[id - 1]));
    }

    method OpCapture() returns (ok: bool)
      requires At(CAPTURE)
      modifies `ip, `frames
      ensures CellStep(m, old(Now())) == if ok then Some(Now()) else None
    {
      var to, id;
      ok, to := NextByte();
      if !ok { return; }
      ok, id := NextByte();
      if !ok || id !in m.functions { return false; }
      ip := ip + 1;
      ok := SetRegister(to, FunC(m.functions[id], []));
    }

    method OpTuple() returns (ok: bool)
      requires At(TUPLE)
      modifies `ip, `frames
      ensures CellStep(m, old(Now())) == if ok then Some(Now()) else None
    {
      hide CellStep, VarsAt;
      StepOfMake(m, Now());
      var to, size, vals;
      ok, to := NextByte();
      if !ok { return; }
      ok, size := NextByte();
      if !ok { return; }
      SameVarsAt(m, old(Now()), Now(), ip + 1, size);
      ok, vals := NextVars(size);
      if !ok || size >= 255 { return false; }
      ip := ip + 1;
      ok := SetRegister(to, TupleC(vals));
    }

    method OpList() returns (ok: bool)
      requires At(LIST)
      modifies `ip, `frames
      ensures CellStep(m, old(Now())) == if ok then Some(Now()) else None
    {
      hide CellStep, VarsAt, ListOf;
      StepOfMake(m, Now());
      var to, size, vals;
      ok, to := NextByte();
      if !ok { return; }
      ok, size := NextByte();
      if !ok { return; }
      SameVarsAt(m, old(Now()), Now(), ip + 1, size);
      ok, vals := NextVars(size);
      if !ok { return; }
      ip := ip + 1;
      var list := PushedList(vals);
      ok := SetRegister(to, ListC(list));
    }

    /** setup_next_stackframe: the arguments are copied one by one into the next
        frame, from register 1 on. */
    method SetupNextFrame(arity: nat, to: nat) returns (ok: bool)
      requires Ready()
      modifies `ip, `frames, `current
      ensures var vals := VarsAt(m, old(Now()), old(ip) + 1, arity);
              (if vals.None? then None else EnterWith(old(Now()), ip, upvals, to, vals.value, old(ip) + 1 + arity))
              == if ok then Some(Now()) else None
    {
      hide VarsAt, RefOf;
      ghost var s := Now();
      if current + 1 >= STACK_DEPTH || arity >= REGISTER_COUNT { return false; }
      if ip + 1 + arity > |m.code| {
        OperandsMissing(m, s, s.ip + 1, arity);
        return false;
      }
      var next := current + 1;
      ghost var regs := frames[next].regs;
      ghost var vals: seq<Cell> := [];
      assert [regs[0]] + vals + regs[1 + 0..] == regs;
      NoOperands(m, s, s.ip + 1);
      for i := 0 to arity
        invariant ip == s.ip + i && current == s.current && upvals == s.upvals && Ready()
        invariant |vals| == i && VarsAt(m, s, s.ip + 1, i) == Some(vals)
        invariant frames == s.frames[next := s.frames[next].(regs := [regs[0]] + vals + regs[1 + i..])]
      {
        VarsAtNext(m, s, s.ip + 1, i);
        var b;
        ok, b := NextByte();
        var arg := GetVar(Now(), RefOf(b));
        assert arg == GetVar(s, RefOf(b));
        if arg.None? {
          VarsAtFails(m, s, s.ip + 1, i + 1, arity);
          return false;
        }
        var f := frames[next];
        WriteNext(regs[0], vals, regs, i, arg.value);
        frames := frames[next := f.(regs := f.regs[i + 1 := arg.value])];
        vals := vals + [arg.value];
      }
      var f := frames[next];
      frames := frames[next := Frame(f.regs, ip + 1, to)];
      current := current + 1;
      ok := true;
      assert frames == s.frames[next := Frame([regs[0]] + vals + regs[1 + arity..], ip + 1, to)];
    }

    method OpCall() returns (ok: bool)
      requires At(CALL)
      modifies `ip, `frames, `current, `upvals
      ensures CellStep(m, old(Now())) == if ok then Some(Now()) else None
    {
      hide GetVar, CellStep, VarsAt;
      StepOfCall(m, Now());
      var to, id, arity;
      ok, to := NextByte();
      if !ok { return; }
      ok, id := NextByte();
      if !ok { return; }
      ok, arity := NextByte();
      if !ok || id !in m.functions { return false; }
      upvals := [];
      SameVarsAt(m, old(Now()).(upvals := []), Now(), ip + 1, arity);
      ok := SetupNextFrame(arity, to);
      if !ok { return; }
      ip := m.functions[id];
    }

    method OpCallLocal() returns (ok: bool)
      requires At(CALL_LOCAL)
      modifies `ip, `frames, `current, `upvals
      ensures CellStep(m, old(Now())) == if ok then Some(Now()) else None
    {
      hide CellStep, VarsAt;
      StepOfCallLocal(m, Now());
      var to, b, arity;
      ok, to := NextByte();
      if !ok { return; }
      ok, b := NextByte();
      if !ok { return; }
      var fun := GetVar(Now(), RefOf(b));
      assert fun == GetVar(old(Now()), RefOf(b));
      ok, arity := NextByte();
      if !ok || fun.None? || !fun.value.FunC? { return false; }
      upvals := fun.value.upvals;
      SameVarsAt(m, old(Now()).(upvals := upvals), Now(), ip + 1, arity);
      ok := SetupNextFrame(arity, to);
      if !ok { return; }
      ip := fun.value.location;
    }

    method OpReturn() returns (ok: bool)
      requires At(RETURN)
      modifies `ip, `frames, `current
      ensures CellStep(m, old(Now())) == if ok then Some(Now()) else None
    {
      if current == 0 || frames[current].retRegister >= REGISTER_COUNT { return false; }
      var f, caller := frames[current], frames[current - 1];
      frames := frames[current - 1 := caller.(regs := caller.regs[f.retRegister := f.regs[0]])];
      frames := frames[current := f.(regs := NoCells())];
      current := current - 1;
      ip := f.retAddress;
      ok := true;
    }

    method OpAnonFn() returns (ok: bool)
      requires At(ANON_FN)
      modifies `ip, `frames
      ensures CellStep(m, old(Now())) == if ok then Some(Now()) else None
    {
      hide CellStep, VarsAt;
      StepOfAnonFn(m, Now());
      var to, jump, arity, count, vals;
      ok, to := NextByte();
      if !ok { return; }
      ok, jump := NextByte();
      if !ok { return; }
      ok, arity := NextByte();
      if !ok { return; }
      ok, count := NextByte();
      if !ok { return; }
      var location := ip + count + 1;
      SameVarsAt(m, old(Now()), Now(), ip + 1, count);
      ok, vals := NextVars(count);
      if !ok { return; }
      ip := ip + jump;
      ok := SetRegister(to, FunC(location, vals));
    }

    /** One round of vm_run. */
    method Round(ghost s: State) returns (ok: bool)
      requires Stand(Now(), s)
      modifies `ip, `frames, `current, `upvals
      ensures CellStep(m, old(Now())) == if ok then Some(Now()) else None
      ensures Agree(m, old(Now()), s)
    {
      hide CellExec, Fetch, CellCompute, Agree, Stand;
      StandShape(Now(), s);
      if ip >= |m.code| {
        OutOfCode(m.code, ip);
        NothingComputed(m, Now(), s);
        return false;
      }
      var opcode := m.code[ip];
      var op := OpOf(opcode);
      if op.Some? {
        OpOfCode(opcode);
        ok := OpCompute(op.value, s);
        return;
      }
      NothingComputed(m, Now(), s);
      if opcode == STORE_INT {
        ok := OpStoreInt();
      } else if opcode == TEST {
        ok := OpTest();
      } else if opcode == JMP {
        ok := OpJmp();
      } else if opcode == LOAD_STRING {
        ok := OpLoadString();
      } else if opcode == CAPTURE {
        ok := OpCapture();
      } else if opcode == TUPLE {
        ok := OpTuple();
      } else if opcode == LIST {
        ok := OpList();
      } else if opcode == CALL {
        ok := OpCall();
      } else if opcode == CALL_LOCAL {
        ok := OpCallLocal();
      } else if opcode == RETURN {
        ok := OpReturn();
      } else if opcode == ANON_FN {
        ok := OpAnonFn();
      } else {
        UnknownOpcode(m.code, ip);
        ok := false;
      }
    }

    /** vm_run, for as long as there is fuel: as many steps over cells as there are, and
        these are steps over values, up to one that has none, or a concat whose lists, as
        they are held there, would break. */
    method Run(fuel: nat, ghost s: State) returns (ok: bool, ghost n: nat)
      requires Stand(Now(), s) && !m.checked
      modifies `ip, `frames, `current, `upvals
      ensures CellRun(m, old(Now()), fuel) == if ok then Some(Now()) else None
      ensures ok ==> Steps(m, s, fuel).Some? && Stand(Now(), Steps(m, s, fuel).value)
      ensures !ok ==> n < fuel && StopsAfter(m, old(Now()), s, n)
      ensures ok <==> Clear(m, old(Now()), fuel) && Steps(m, s, fuel).Some?
      ensures Steps(m.(checked := true), s, fuel).Some? ==> ok
    {
      hide CellStep, Step, Stand, UnsafeAt, Agree;
      ghost var c, t := Now(), s;
      StandShape(c, s);
      n := 0;
      ghost var stopped := false;
      for i := 0 to fuel
        invariant n == i && Stand(Now(), t) && Shape(c) && CellRun(m, c, i) == Some(Now()) && Steps(m, s, i) == Some(t)
        invariant Clear(m, c, i)
      {
        ghost var d := Now();
        StandShape(d, t);
        ok := Round(t);
        StepStands(m, d, t);
        if !ok {
          RunStops(m, c, i + 1, fuel);
          Stopped(m, c, s, d, t, i, fuel);
          return;
        }
        StepsNext(m, s, t, i);
        NoConcat(m, d);
        t := Step(m, t).value;
        n := n + 1;
      }
      ok := true;
    }

    /** vm_run, up to op_exit, to which the step over values comes after n steps: the
        interpreter comes to it exactly when no concat on its way has lists, as they are
        held there, that would break. */
    method RunToExit(ghost n: nat, ghost s: State) returns (ok: bool, ghost k: nat)
      requires Stand(Now(), s) && !m.checked && Steps(m, s, n).Some? && AtExit(m, Steps(m, s, n).value)
      modifies `ip, `frames, `current, `upvals
      ensures ok ==> CellRun(m, old(Now()), n) == Some(Now()) && Stand(Now(), Steps(m, s, n).value)
      ensures !ok ==> k < n && CellRun(m, old(Now()), k).Some? && UnsafeAt(m, CellRun(m, old(Now()), k).value)
      ensures ok <==> Clear(m, old(Now()), n)
      ensures Steps(m.(checked := true), s, n).Some? ==> ok
    {
      hide CellStep, Step, Stand, UnsafeAt, Agree;
      ghost var c, t := Now(), s;
      StandShape(c, s);
      k := 0;
      ExitIsLast(m, s, n);
      while m.code[ip] != EXIT
        invariant Stand(Now(), t) && k <= n && ip < |m.code| && t.ip == ip
        invariant Shape(c) && CellRun(m, c, k) == Some(Now()) && Steps(m, s, k) == Some(t)
        invariant Clear(m, c, k)
        invariant m.code[ip] == EXIT <==> k == n
        decreases n - k
      {
        ghost var d := Now();
        StandShape(d, t);
        RunIsDefined(m, s, n, k);
        RunIsDefined(m, s, n, k + 1);
        ok := Round(t);
        StepStands(m, d, t);
        if !ok {
          Stopped(m, c, s, d, t, k, n);
          return;
        }
        NoConcat(m, d);
        t := Step(m, t).value;
        StandShape(Now(), t);
        k := k + 1;
        StepsAdd(m, s, k, n - k);
        ExitIsLast(m, t, n - k);
      }
      ok := true;
    }
  }

  /** No concat among the first n states has lists that would break. */
  ghost predicate Clear(m: Machine, c: CellState, n: nat)
    requires Shape(c)
  {
    forall k :: 0 <= k < n ==> CellRun(m, c, k).Some? ==> !UnsafeAt(m, CellRun(m, c, k).value)
  }

  /** After n steps the values have no next one, or the cells are at an unsafe concat. */
  ghost predicate StopsAfter(m: Machine, c: CellState, s: State, n: nat)
    requires Shape(c) && Shape(s)
  {
    && CellRun(m, c, n).Some? && Steps(m, s, n).Some?
    && (Step(m, Steps(m, s, n).value) == None || UnsafeAt(m, CellRun(m, c, n).value))
  }

  lemma StandShape(c: CellState, s: State)
    requires Stand(c, s)
    ensures Shape(c) && Shape(s) && c.ip == s.ip
  {}

  lemma NoConcat(m: Machine, c: CellState)
    requires Shape(c) && CellStep(m, c).Some?
    ensures !UnsafeAt(m, c)
  {
    hide CellStep;
    if UnsafeAt(m, c) { UnsafeStops(m, c); }
  }

  lemma StepsNext(m: Machine, s: State, t: State, i: nat)
    requires Shape(s) && Steps(m, s, i) == Some(t)
    ensures Steps(m, s, i + 1) == Step(m, t)
  {
    hide Step;
    StepsAdd(m, s, i, 1);
    if Step(m, t).Some? {
      StepFrames(m, t);
      assert Steps(m, Step(m, t).value, 0) == Step(m, t);
    }
  }

  /** What a stop after k steps means for a run of n. */
  lemma Stopped(m: Machine, c: CellState, s: State, d: CellState, t: State, k: nat, n: nat)
    requires Shape(c) && Shape(s) && Stand(d, t) && !m.checked && k < n
    requires CellRun(m, c, k) == Some(d) && Steps(m, s, k) == Some(t) && CellStep(m, d) == None
    requires Step(m, t) == None || UnsafeAt(m, d)
    ensures !(Clear(m, c, n) && Steps(m, s, n).Some?)
    ensures Steps(m.(checked := true), s, n) == None
  {
    hide CellStep, Step, Stand, UnsafeAt;
    StandShape(d, t);
    if Steps(m, s, n).Some? {
      RunIsDefined(m, s, n, k);
      RunIsDefined(m, s, n, k + 1);
    }
    if Steps(m.(checked := true), s, n).Some? {
      CheckedRun(m, s, n, k);
      CheckedStep(m, t);
      if UnsafeAt(m, d) { UnsafeUnchecked(m, d, t); }
    }
  }

  const EXIT: nat := 0x00

  ghost predicate AtExit(m: Machine, s: State) {
    s.ip < |m.code| && m.code[s.ip] == EXIT
  }

  /** The way to the exit does not come to it before. */
  lemma ExitIsLast(m: Machine, s: State, n: nat)
    requires Shape(s) && Steps(m, s, n).Some? && AtExit(m, Steps(m, s, n).value)
    ensures s.ip < |m.code| && (AtExit(m, s) <==> n == 0)
  {
    if n > 0 {
      if s.ip >= |m.code| { OutOfCode(m.code, s.ip); }
    }
  }

  /** A step of a checked run is a step of the unchecked one. */
  lemma CheckedRun(m: Machine, s: State, n: nat, k: nat)
    requires Shape(s) && k < n && Steps(m.(checked := true), s, n).Some? && !m.checked
    ensures Steps(m, s, k).Some? && Step(m.(checked := true), Steps(m, s, k).value).Some?
  {
    hide Step;
    var c := m.(checked := true);
    assert m.(checked := false) == m;
    RunIsDefined(c, s, n, k);
    RunIsDefined(c, s, n, k + 1);
    CheckedSteps(m, s, k);
  }

  /** The values of the operands that were read. */
  lemma ValuesAt(m: Machine, c: CellState, s: State, op: Op, cs: seq<Cell>) returns (xs: seq<Value>)
    requires Stand(c, s) && VarsAt(m, c, c.ip + 2, Operands(op) - 1) == Some(cs)
    ensures VarsAt(m, s, s.ip + 2, Operands(op) - 1) == Some(xs) && StandAll(cs, xs)
    ensures 1 + |cs| == Operands(op)
  {
    hide Stands, GetVars;
    var refs := RefsOf(m.code[c.ip + 2..c.ip + 2 + (Operands(op) - 1)]);
    VarsStand(c, s, refs);
    xs := GetVars(s, refs).value;
  }

  /** The operands, instruction by instruction and byte by byte. */
  lemma OperatesAt<V>(m: Machine, s: Config<V>, op: Op)
    requires Shape(s) && s.ip < |m.code| && OpOf(m.code[s.ip]) == Some(op) && Operands(op) >= 1
    ensures forall o, vals :: Operates(m, s, o, vals) <==>
              o == op && s.ip + 1 + Operands(op) <= |m.code| && VarsAt(m, s, s.ip + 2, Operands(op) - 1) == Some(vals)
  {
    hide GetVars;
    var next := s.ip + 1 + Operands(op);
    if next <= |m.code| {
      assert RefsOf(m.code[s.ip + 1..next])[1..] == RefsOf(m.code[s.ip + 2..next]);
    }
  }

  lemma NoOperation(m: Machine, c: CellState, s: State, op: Op)
    requires Stand(c, s) && c.ip < |m.code| && OpOf(m.code[c.ip]) == Some(op) && Operands(op) >= 1
    requires c.ip + 1 + Operands(op) > |m.code| || VarsAt(m, c, c.ip + 2, Operands(op) - 1).None?
    ensures Agree(m, c, s)
  {
    hide VarsAt, Operates;
    OperatesAt(m, c, op);
  }

  lemma OperationAgrees(m: Machine, c: CellState, s: State, op: Op, cs: seq<Cell>, xs: seq<Value>)
    requires Stand(c, s) && c.ip < |m.code| && OpOf(m.code[c.ip]) == Some(op) && Operands(op) >= 1
    requires VarsAt(m, c, c.ip + 2, Operands(op) - 1) == Some(cs)
    requires VarsAt(m, s, s.ip + 2, Operands(op) - 1) == Some(xs)
    requires 1 + |cs| == Operands(op) && |xs| == |cs| && Agrees(op, cs, xs)
    ensures Agree(m, c, s)
  {
    hide VarsAt, Operates, Agrees;
    OperatesAt(m, c, op);
    OperatesAt(m, s, op);
  }

  lemma NothingComputed(m: Machine, c: CellState, s: State)
    requires Stand(c, s) && (c.ip >= |m.code| || OpOf(m.code[c.ip]).None?)
    ensures Agree(m, c, s)
  {
    hide GetVars;
    assert forall op, vals :: !Operates(m, c, op, vals);
  }

  lemma OpOfCode(opcode: nat)
    requires OpOf(opcode).Some?
    ensures OpCode(OpOf(opcode).value) == opcode && Operands(OpOf(opcode).value) >= 1
  {}

  lemma OutOfCode(code: seq<nat>, ip: nat)
    requires ip >= |code|
    ensures Fetch(code, ip) == None
  {}

  lemma UnknownOpcode(code: seq<nat>, ip: nat)
    requires ip < |code| && OpOf(code[ip]).None?
    requires code[ip] !in [STORE_INT, TEST, JMP, LOAD_STRING, CAPTURE, TUPLE, LIST, CALL, CALL_LOCAL, RETURN, ANON_FN]
    ensures Fetch(code, ip) == None
  {}

  lemma OperandsMissing<V>(m: Machine, s: Config<V>, from: nat, n: nat)
    requires Shape(s) && from + n > |m.code|
    ensures VarsAt(m, s, from, n) == None
  {}

  lemma NoOperands<V>(m: Machine, s: Config<V>, from: nat)
    requires Shape(s) && from <= |m.code|
    ensures VarsAt(m, s, from, 0) == Some([])
  {}

  /** One more argument in place. */
  lemma WriteNext<V>(first: V, vals: seq<V>, regs: seq<V>, i: nat, arg: V)
    requires |vals| == i && i + 1 < |regs|
    ensures ([first] + vals + regs[1 + i..])[i + 1 := arg] == [first] + (vals + [arg]) + regs[1 + (i + 1)..]
  {}
}
