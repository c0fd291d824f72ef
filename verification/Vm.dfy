/**
 The virtual machine: values, frames, and one step of the interpreter.  Values
 stand for what the heap holds; a step that the C code does not survive (a
 register outside its frame, a call of something that is no function, a stack
 overflow), that waits for input or output, or that ends the program has no
 result.
 */
module Vm {
  import opened Seqs
  import opened Bytecode
  import opened Decode
  import opened ListHistory

  const REGISTER_COUNT: nat := 100
  const STACK_DEPTH: nat := 300
  /** Integers are what is left of 64 bits beside a 3-bit tag. */
  const INT_RANGE: nat := 0x2000_0000_0000_0000

  /** Zero is the content of an unused register.  A list carries whether it may be cut. */
  datatype Value =
    | Zero
    | IntV(n: nat)
    | True
    | False
    | Nil
    | StrV(text: Name)
    | TupleV(elems: seq<Value>)
    | ListV(elems: seq<Value>, cut: bool)
    | FunV(location: nat, upvals: seq<Value>)

  datatype FrameOf<V> = Frame(regs: seq<V>, retAddress: nat, retRegister: nat)

  /** What loading provides and running does not change.  A checked machine gives no
      result to a concat that may be unsafe; an unchecked one takes every concat of
      lists to work. */
  datatype Machine = Machine(code: seq<nat>, strings: seq<Name>, functions: map<nat, nat>, checked: bool)

  /** The state of a machine over any kind of values; `upvals` are those of the current
      function. */
  datatype Config<V> = State(ip: nat, frames: seq<FrameOf<V>>, current: nat, upvals: seq<V>)

  type State = Config<Value>

  predicate Shape<V>(s: Config<V>) {
    && |s.frames| == STACK_DEPTH && s.current < STACK_DEPTH
    && forall j :: 0 <= j < |s.frames| ==> |s.frames[j].regs| == REGISTER_COUNT
  }

  // ---------- registers ----------

  /** get_var */
  function GetVar<V>(s: Config<V>, v: VarRef): Option<V>
    requires Shape(s)
  {
    match v
    case Register(reg) => if reg < REGISTER_COUNT then Some(s.frames[s.current].regs[reg]) else None
    case Upvalue(idx) => if idx < |s.upvals| then Some(s.upvals[idx]) else None
  }

  function GetVars<V>(s: Config<V>, refs: seq<VarRef>): (r: Option<seq<V>>)
    requires Shape(s)
    ensures r.Some? <==> forall k :: 0 <= k < |refs| ==> GetVar(s, refs[k]).Some?
    ensures r.Some? ==> |r.value| == |refs| && forall k :: 0 <= k < |refs| ==> GetVar(s, refs[k]) == Some(r.value[k])
  {
    if refs == [] then Some([])
    else
      var front := GetVars(s, refs[..|refs| - 1]);
      var last := GetVar(s, refs[|refs| - 1]);
      if front.None? || last.None? then None else Some(front.value + [last.value])
  }

  /** set_reg, and the next instruction. */
  function SetReg<V>(s: Config<V>, to: VarRef, val: V, next: nat): Option<Config<V>>
    requires Shape(s)
  {
    if to.Upvalue? || to.reg >= REGISTER_COUNT then None
    else
      var f := s.frames[s.current];
      Some(s.(ip := next, frames := s.frames[s.current := f.(regs := f.regs[to.reg := val])]))
  }

  // ---------- values ----------

  predicate Truthy(v: Value) {
    !v.False? && !v.Nil?
  }

  function BoolV(b: bool): Value {
    if b then True else False
  }

  /** owl_terms_eq on values.  Two functions are the same when they are one
      object, which values do not tell; false against a tuple and true against a
      string follow a pointer that is none. */
  function EqV(l: Value, r: Value): Option<bool> {
    match l
    case FunV(_, _) => if r.FunV? then None else Some(false)
    case TupleV(ls) =>
      if r.False? then None
      else if !r.TupleV? || |ls| != |r.elems| then Some(false)
      else AllEqV(ls, r.elems)
    case ListV(ls, _) =>
      if !r.ListV? || |ls| != |r.elems| then Some(false) else AllEqV(ls, r.elems)
    case StrV(_) => if r.True? then None else Some(l == r)
    case False => if r.TupleV? then None else Some(l == r)
    case True => if r.StrV? then None else Some(l == r)
    case _ => Some(l == r)
  }

  function AllEqV(ls: seq<Value>, rs: seq<Value>): Option<bool>
    requires |ls| == |rs|
  {
    if ls == [] then Some(true)
    else
      var first := EqV(ls[0], rs[0]);
      if first == Some(true) then AllEqV(ls[1..], rs[1..]) else first
  }

  /** The value alone, whatever is known of its lists. */
  function BareV(v: Value): Value {
    match v
    case TupleV(elems) => TupleV(AllBareV(elems))
    case ListV(elems, _) => ListV(AllBareV(elems), false)
    case _ => v
  }

  function AllBareV(vs: seq<Value>): (r: seq<Value>)
    ensures |r| == |vs|
  {
    seq(|vs|, i requires 0 <= i < |vs| => BareV(vs[i]))
  }

  /** Where it has a result, the comparison decides equality. */
  lemma {:induction false} EqVDecides(l: Value, r: Value)
    requires EqV(l, r).Some?
    ensures EqV(l, r).value <==> BareV(l) == BareV(r)
    decreases l
  {
    if l.TupleV? && r.TupleV? && |l.elems| == |r.elems| { AllEqVDecides(l.elems, r.elems); }
    if l.ListV? && r.ListV? && |l.elems| == |r.elems| { AllEqVDecides(l.elems, r.elems); }
  }

  lemma {:induction false} AllEqVDecides(ls: seq<Value>, rs: seq<Value>)
    requires |ls| == |rs| && AllEqV(ls, rs).Some?
    ensures AllEqV(ls, rs).value <==> AllBareV(ls) == AllBareV(rs)
    decreases ls
  {
    hide BareV, EqV;
    if ls != [] {
      EqVDecides(ls[0], rs[0]);
      if EqV(ls[0], rs[0]) == Some(true) { AllEqVDecides(ls[1..], rs[1..]); }
      assert AllBareV(ls)[0] == BareV(ls[0]) && AllBareV(ls)[1..] == AllBareV(ls[1..]);
      assert AllBareV(rs)[0] == BareV(rs[0]) && AllBareV(rs)[1..] == AllBareV(rs[1..]);
      assert AllBareV(ls) == [AllBareV(ls)[0]] + AllBareV(ls)[1..];
      assert AllBareV(rs) == [AllBareV(rs)[0]] + AllBareV(rs)[1..];
    }
  }

  /** int_from_owl_int: the tag shifted out of a word.  A reference would give
      its address. */
  function AsInt(v: Value): Option<nat> {
    match v
    case IntV(n) => Some(n)
    case Zero | True | False | Nil => Some(0)
    case _ => None
  }

  /** The results of the operations that compute a value from values. */
  function Compute(checked: bool, op: Op, vals: seq<Value>): Option<Value>
    requires 1 + |vals| == Operands(op)
  {
    match op
    case Mov => Some(vals[0])
    case StoreTrue => Some(True)
    case StoreFalse => Some(False)
    case StoreNil => Some(Nil)
    case Not => Some(BoolV(!Truthy(vals[0])))
    case Add =>
      var ab := TwoInts(vals);
      if ab.None? then None else Some(IntV((ab.value.0 + ab.value.1) % INT_RANGE))
    case Sub =>
      var ab := TwoInts(vals);
      if ab.None? then None else Some(IntV((ab.value.0 - ab.value.1) % INT_RANGE))
    case GreaterThan =>
      var ab := TwoInts(vals);
      if ab.None? then None else Some(BoolV(ab.value.0 > ab.value.1))
    case Eq =>
      var e := EqV(vals[0], vals[1]);
      if e.None? then None else Some(BoolV(e.value))
    case NotEq =>
      var e := EqV(vals[0], vals[1]);
      if e.None? then None else Some(BoolV(!e.value))
    case TupleNth =>
      // the index is passed as a byte
      if !vals[0].TupleV? || AsInt(vals[1]).None? then None
      else Some(ElementOr(vals[0].elems, AsInt(vals[1]).value % 256))
    case ListNth =>
      // the index is passed as 32 bits; an element that is the zero word counts as none
      if !vals[0].ListV? || AsInt(vals[1]).None? then None
      else
        var v := ElementOr(vals[0].elems, AsInt(vals[1]).value % 0x1_0000_0000);
        Some(if v.Zero? then Nil else v)
    case ListCount => if vals[0].ListV? then Some(IntV(|vals[0].elems|)) else None
    case ListSlice =>
      if !vals[0].ListV? || AsInt(vals[1]).None? || AsInt(vals[2]).None? then None
      else
        var from, to := AsInt(vals[1]).value % 0x1_0000_0000, AsInt(vals[2]).value % 0x1_0000_0000;
        Some(ListV(SliceOf(vals[0].elems, from, to), SliceCut(|vals[0].elems|, vals[0].cut, from, to)))
    case Concat =>
      if vals[0].StrV? && vals[1].StrV? then Some(StrV(vals[0].text + vals[1].text))
      else if vals[0].ListV? && vals[1].ListV? then
        var n, k := |vals[0].elems|, |vals[1].elems|;
        if checked && !JoinSafe(n, vals[0].cut, k) then None
        else Some(ListV(vals[0].elems + vals[1].elems, JoinCut(n, vals[0].cut, k, vals[1].cut)))
      else None
    case StringCount => if vals[0].StrV? then Some(IntV(|vals[0].text|)) else None
    case StringContains =>
      if vals[0].StrV? && vals[1].StrV? then Some(BoolV(Occurs(vals[0].text, vals[1].text))) else None
    case StringSlice =>
      // the start is taken as a signed int; the end is cut to the length; nothing but an
      // exit for an empty slice
      if !vals[0].StrV? || AsInt(vals[1]).None? || AsInt(vals[2]).None? then None
      else
        var from, to := AsInt(vals[1]).value % 0x1_0000_0000, AsInt(vals[2]).value;
        var end := if to < |vals[0].text| then to else |vals[0].text|;
        if from < 0x8000_0000 && from < end then Some(StrV(vals[0].text[from..end])) else None
    case _ => None
  }

  /** strstr: whether the second text begins somewhere in the first. */
  predicate Occurs(text: Name, part: Name) {
    part <= text || (text != [] && Occurs(text[1..], part))
  }

  function TwoInts(vals: seq<Value>): Option<(nat, nat)>
    requires |vals| == 2
  {
    if AsInt(vals[0]).None? || AsInt(vals[1]).None? then None
    else Some((AsInt(vals[0]).value, AsInt(vals[1]).value))
  }

  /** owl_tuple_nth and owl_list_nth: nil past the end. */
  function ElementOr(elems: seq<Value>, i: nat): Value {
    if i < |elems| then elems[i] else Nil
  }

  // ---------- one instruction ----------

  /** Sets up the next frame and enters the function at `location`. */
  function Enter<V>(s: Config<V>, location: nat, upvals: seq<V>, to: VarRef, args: seq<VarRef>, next: nat)
    : Option<Config<V>>
    requires Shape(s)
  {
    var callee := s.(upvals := upvals);  // before the arguments are read
    if s.current + 1 >= STACK_DEPTH || |args| >= REGISTER_COUNT || GetVars(callee, args).None? then None
    else
      var vals := GetVars(callee, args).value;
      var regs := s.frames[s.current + 1].regs;
      var f := Frame([regs[0]] + vals + regs[1 + |vals|..], next, RefByte(to));
      Some(State(location, s.frames[s.current + 1 := f], s.current + 1, upvals))
  }

  function NoRegisters(): (r: seq<Value>)
    ensures |r| == REGISTER_COUNT && forall k :: 0 <= k < |r| ==> r[k] == Zero
  {
    seq(REGISTER_COUNT, _ => Zero)
  }

  /** op_return: the callee's registers are cleared; the current function stays. */
  function Leave<V>(s: Config<V>, cleared: seq<V>): Option<Config<V>>
    requires Shape(s)
  {
    var f := s.frames[s.current];
    if s.current == 0 || f.retRegister >= REGISTER_COUNT then None
    else
      var caller := s.frames[s.current - 1];
      var back := caller.(regs := caller.regs[f.retRegister := f.regs[0]]);
      Some(State(f.retAddress, s.frames[s.current - 1 := back][s.current := f.(regs := cleared)],
                 s.current - 1, s.upvals))
  }

  /** A jump is counted from the last byte of its instruction. */
  function Target(next: nat, jump: nat): nat
    requires next > 0
  {
    next - 1 + jump
  }

  function Exec(m: Machine, i: Loaded, next: nat, s: State): Option<State>
    requires Shape(s) && next > 0
  {
    match i
    case Plain(op, args) =>
      if |args| != Operands(op) || GetVars(s, args[1..]).None? then None
      else
        var v := Compute(m.checked, op, GetVars(s, args[1..]).value);
        if v.None? then None else SetReg(s, args[0], v.value, next)
    case StoreInt(to, val) => SetReg(s, to, IntV(val), next)
    case Test(reg, jump) =>
      var v := GetVar(s, reg);
      if v.None? then None else Some(s.(ip := if Truthy(v.value) then Target(next, jump) else next))
    case Jmp(jump) => Some(s.(ip := Target(next, jump)))
    case Return => Leave(s, NoRegisters())
    case LoadString(to, id) =>
      if 1 <= id <= |m.strings| then SetReg(s, to, StrV(m.strings[id - 1]), next) else None
    case Capture(to, id, _) =>
      if id in m.functions then SetReg(s, to, FunV(m.functions[id], []), next) else None
    case Call(to, id, _, args) =>
      if id in m.functions then Enter(s, m.functions[id], [], to, args, next) else None
    case CallLocal(to, fun, args) =>
      var f := GetVar(s, fun);
      if f.None? || !f.value.FunV? then None
      else Enter(s, f.value.location, f.value.upvals, to, args, next)
    case MakeTuple(to, size, regs) =>
      // at 255 the 8-bit counter of the loop never passes the size
      var vals := GetVars(s, regs);
      if size != |regs| || size >= 255 || vals.None? then None else SetReg(s, to, TupleV(vals.value), next)
    case MakeList(to, size, regs) =>
      var vals := GetVars(s, regs);
      if size != |regs| || vals.None? then None else SetReg(s, to, ListV(vals.value, false), next)
    case AnonFn(to, jump, _, upvals) =>
      var vals := GetVars(s, upvals);
      if vals.None? then None else SetReg(s, to, FunV(next, vals.value), Target(next, jump))
  }

  /** One round of vm_run. */
  function Step(m: Machine, s: State): Option<State>
    requires Shape(s)
  {
    match Fetch(m.code, s.ip)
    case None => None
    case Some((i, next)) => Exec(m, i, next, s)
  }

  /** A checked machine does what the unchecked one does, or stops. */
  lemma CheckedStep(m: Machine, s: State)
    requires Shape(s) && Step(m.(checked := true), s).Some?
    ensures Step(m.(checked := false), s) == Step(m.(checked := true), s)
  {
    hide Fetch, GetVars, GetVar, SetReg, Enter, Leave, Shape;
    var (i, next) := Fetch(m.code, s.ip).value;
    if i.Plain? { CheckedCompute(i.op, GetVars(s, i.args[1..]).value); }
  }

  lemma CheckedCompute(op: Op, vals: seq<Value>)
    requires 1 + |vals| == Operands(op) && Compute(true, op, vals).Some?
    ensures Compute(false, op, vals) == Compute(true, op, vals)
  {}

  // ---------- frames ----------

  /** Same frame: only registers of the running frame change. */
  ghost predicate Stays(s: State, t: State)
    requires Shape(s) && Shape(t)
  {
    && t.current == s.current
    && (forall j :: 0 <= j < STACK_DEPTH && j != s.current ==> t.frames[j] == s.frames[j])
    && t.frames[s.current].retAddress == s.frames[s.current].retAddress
    && t.frames[s.current].retRegister == s.frames[s.current].retRegister
  }

  /** A call: only the next frame changes. */
  ghost predicate Enters(s: State, t: State)
    requires Shape(s) && Shape(t)
  {
    && t.current == s.current + 1
    && forall j :: 0 <= j < STACK_DEPTH && j != t.current ==> t.frames[j] == s.frames[j]
  }

  /** A return: the caller gets the result in one register, and the registers of
      the frame are cleared. */
  ghost predicate Leaves(s: State, t: State)
    requires Shape(s) && Shape(t)
  {
    && s.current == t.current + 1
    && (forall j :: 0 <= j < STACK_DEPTH && j != t.current && j != s.current ==> t.frames[j] == s.frames[j])
    && t.frames[s.current] == s.frames[s.current].(regs := NoRegisters())
    && t.ip == s.frames[s.current].retAddress
    && s.frames[s.current].retRegister < REGISTER_COUNT
    && var (to, result) := (s.frames[s.current].retRegister, s.frames[s.current].regs[0]);
       t.frames[t.current] == s.frames[t.current].(regs := s.frames[t.current].regs[to := result])
  }

  lemma StepFrames(m: Machine, s: State)
    requires Shape(s) && Step(m, s).Some?
    ensures var t := Step(m, s).value; Shape(t) && (Stays(s, t) || Enters(s, t) || Leaves(s, t))
    ensures var t := Step(m, s).value;
            Fetch(m.code, s.ip).Some?
            && (t.current > s.current ==>
                  var (i, next) := Fetch(m.code, s.ip).value;
                  (i.Call? || i.CallLocal?)
                  && t.frames[t.current].retAddress == next && t.frames[t.current].retRegister == RefByte(i.to))
  {
    hide Fetch, Compute, GetVar, Truthy;
  }

  /** The registers of every frame above the current one are zero. */
  ghost predicate AboveZero(s: State)
    requires Shape(s)
  {
    forall j :: s.current < j < STACK_DEPTH ==> s.frames[j].regs == NoRegisters()
  }

  /** Every step keeps the unused frames clean. */
  lemma AboveZeroKept(m: Machine, s: State)
    requires Shape(s) && AboveZero(s) && Step(m, s).Some?
    ensures Shape(Step(m, s).value) && AboveZero(Step(m, s).value)
  {
    hide Step;
    StepFrames(m, s);
  }

  // ---------- runs ----------

  /** The state after n steps. */
  function Steps(m: Machine, s: State, n: nat): (r: Option<State>)
    requires Shape(s)
    ensures r.Some? ==> Shape(r.value)
    decreases n
  {
    if n == 0 then Some(s)
    else
      var t := Step(m, s);
      if t.None? then None
      else
        StepFrames(m, s);
        Steps(m, t.value, n - 1)
  }

  lemma {:induction false} StepsAdd(m: Machine, s: State, a: nat, b: nat)
    requires Shape(s) && Steps(m, s, a).Some?
    ensures Steps(m, s, a + b) == Steps(m, Steps(m, s, a).value, b)
    decreases a
  {
    hide Step, Stays, Enters, Leaves, Shape;
    if a > 0 {
      StepFrames(m, s);
      StepsAdd(m, Step(m, s).value, a - 1, b);
    }
  }

  lemma {:induction false} CheckedSteps(m: Machine, s: State, n: nat)
    requires Shape(s) && Steps(m.(checked := true), s, n).Some?
    ensures Steps(m.(checked := false), s, n) == Steps(m.(checked := true), s, n)
    decreases n
  {
    hide Step;
    if n > 0 {
      CheckedStep(m, s);
      StepFrames(m.(checked := true), s);
      CheckedSteps(m, Step(m.(checked := true), s).value, n - 1);
    }
  }

  /** In every state a run reaches, the unused frames are clean. */
  lemma {:induction false} RunKeepsAboveZero(m: Machine, s: State, n: nat)
    requires Shape(s) && AboveZero(s) && Steps(m, s, n).Some?
    ensures AboveZero(Steps(m, s, n).value)
    decreases n
  {
    if n > 0 {
      AboveZeroKept(m, s);
      RunKeepsAboveZero(m, Step(m, s).value, n - 1);
    }
  }

  /** vm_new: no frame is in use. */
  function Fresh(ip: nat): (s: State)
    ensures Shape(s) && AboveZero(s)
  {
    State(ip, seq(STACK_DEPTH, _ => Frame(NoRegisters(), 0, 0)), 0, [])
  }

  lemma ReachableIsClean(m: Machine, ip: nat, n: nat)
    ensures var r := Steps(m, Fresh(ip), n); r.Some? ==> AboveZero(r.value)
  {
    if Steps(m, Fresh(ip), n).Some? { RunKeepsAboveZero(m, Fresh(ip), n); }
  }

  /** A call of s up to its matching return after n steps: the run stays above
      the frame of s until the last step. */
  ghost predicate MatchedCall(m: Machine, s: State, n: nat)
    requires Shape(s)
  {
    && n >= 2 && Steps(m, s, n).Some?
    && (forall k :: 0 < k < n ==> Steps(m, s, k).Some? && Steps(m, s, k).value.current > s.current)
    && Steps(m, s, n).value.current == s.current
  }

  /** While a call lasts, the frames of its callers do not change, nor where it
      returns to. */
  lemma {:induction false} LowerFramesStay(m: Machine, s: State, c: nat, n: nat)
    requires Shape(s) && c < s.current && Steps(m, s, n).Some?
    requires forall k :: 0 <= k <= n ==> Steps(m, s, k).Some? && Steps(m, s, k).value.current > c
    ensures var t := Steps(m, s, n).value;
            && (forall j :: 0 <= j <= c ==> t.frames[j] == s.frames[j])
            && t.frames[c + 1].retAddress == s.frames[c + 1].retAddress
            && t.frames[c + 1].retRegister == s.frames[c + 1].retRegister
    decreases n
  {
    hide Step;
    if n > 0 {
      StepFrames(m, s);
      var u := Step(m, s).value;
      forall k | 0 <= k <= n - 1 ensures Steps(m, u, k).Some? && Steps(m, u, k).value.current > c {
        assert Steps(m, s, k + 1) == Steps(m, u, k);
      }
      assert Steps(m, u, 0) == Some(u);
      LowerFramesStay(m, u, c, n - 1);
    }
  }

  /** A matched call and return goes on behind the call, with the callee's
      register 0 in the return register and everything else in the frames as it
      was. */
  lemma MatchedCallEffect(m: Machine, s: State, n: nat)
    requires Shape(s) && AboveZero(s) && MatchedCall(m, s, n)
    ensures Step(m, s).Some? && Steps(m, s, n - 1).Some? && Fetch(m.code, s.ip).Some?
    ensures var (i, next) := Fetch(m.code, s.ip).value; i.Call? || i.CallLocal?
    ensures var t := Steps(m, s, n).value;
            var callee := Steps(m, s, n - 1).value.frames[s.current + 1];
            var (i, next) := Fetch(m.code, s.ip).value;
            var to := RefByte(i.to);
            && t.ip == next && to < REGISTER_COUNT
            && t.frames[s.current] == s.frames[s.current].(regs := s.frames[s.current].regs[to := callee.regs[0]])
            && (forall j :: 0 <= j < s.current ==> t.frames[j] == s.frames[j])
            && AboveZero(t)
  {
    hide Step, Fetch;
    var c := s.current;
    assert Steps(m, s, 1).Some?;
    StepFrames(m, s);
    var u := Step(m, s).value;
    assert Steps(m, u, 0) == Some(u) == Steps(m, s, 1);
    forall k | 0 <= k <= n - 2 ensures Steps(m, u, k).Some? && Steps(m, u, k).value.current > c {
      assert Steps(m, s, k + 1) == Steps(m, u, k);
    }
    LowerFramesStay(m, u, c, n - 2);
    var w := Steps(m, s, n - 1).value;
    assert Steps(m, u, n - 2) == Some(w);
    StepsAdd(m, s, n - 1, 1);
    assert Steps(m, w, 1) == Step(m, w);
    StepFrames(m, w);
    RunKeepsAboveZero(m, s, n);
  }

  // ---------- the current function ----------

  /** The upvalues of the function that a call instruction enters. */
  function EnteredUpvals(s: State, i: Loaded): seq<Value>
    requires Shape(s)
  {
    match i
    case CallLocal(_, fun, _) =>
      var f := GetVar(s, fun);
      if f.Some? && f.value.FunV? then f.value.upvals else []
    case _ => []
  }

  /** A call makes its function the current one; no other step, a return in
      particular, changes it. */
  lemma StepUpvals(m: Machine, s: State)
    requires Shape(s) && Step(m, s).Some?
    ensures Fetch(m.code, s.ip).Some? && Shape(Step(m, s).value)
    ensures var t, i := Step(m, s).value, Fetch(m.code, s.ip).value.0;
            t.upvals == if t.current > s.current then EnteredUpvals(s, i) else s.upvals
  {
    hide Fetch, Compute, Truthy, GetVars;
    StepFrames(m, s);
  }

  /** The k-th step of a run is a call. */
  ghost predicate CallsAt(m: Machine, s: State, k: nat)
    requires Shape(s)
  {
    && Steps(m, s, k).Some? && Steps(m, s, k + 1).Some?
    && Steps(m, s, k + 1).value.current > Steps(m, s, k).value.current
  }

  /** ... and the last one of its first n steps. */
  ghost predicate LastCall(m: Machine, s: State, n: nat, k: nat)
    requires Shape(s)
  {
    k < n && CallsAt(m, s, k) && forall j :: k < j < n ==> !CallsAt(m, s, j)
  }

  lemma {:induction false} RunIsDefined(m: Machine, s: State, n: nat, k: nat)
    requires Shape(s) && Steps(m, s, n).Some? && k <= n
    ensures Steps(m, s, k).Some?
    ensures k < n ==> Step(m, Steps(m, s, k).value) == Steps(m, s, k + 1)
    decreases n
  {
    hide Step;
    if k > 0 {
      StepFrames(m, s);
      RunIsDefined(m, Step(m, s).value, n - 1, k - 1);
    } else if n > 0 {
      StepFrames(m, s);
      assert Steps(m, Step(m, s).value, 0) == Step(m, s);
    }
  }

  /** After a run without calls the current function is what it was. */
  lemma {:induction false} NoEnterKeeps(m: Machine, s: State, a: nat, n: nat)
    requires Shape(s) && Steps(m, s, n).Some? && a <= n && Steps(m, s, a).Some?
    requires forall j :: a <= j < n ==> !CallsAt(m, s, j)
    ensures Steps(m, s, n).value.upvals == Steps(m, s, a).value.upvals
    decreases n
  {
    hide Step, Fetch, EnteredUpvals;
    if a < n {
      RunIsDefined(m, s, n, n - 1);
      NoEnterKeeps(m, s, a, n - 1);
      assert !CallsAt(m, s, n - 1);
      StepUpvals(m, Steps(m, s, n - 1).value);
    }
  }

  /** Behind a call and its matching return, the current function is the one entered
      last, however many calls the callee made: the upvalues are the caller's again
      exactly when that function has the same ones. */
  lemma UpvaluesAfterCall(m: Machine, s: State, n: nat) returns (k: nat)
    requires Shape(s) && MatchedCall(m, s, n)
    ensures LastCall(m, s, n, k) && Fetch(m.code, Steps(m, s, k).value.ip).Some?
    ensures var u := Steps(m, s, k).value;
            var entered := EnteredUpvals(u, Fetch(m.code, u.ip).value.0);
            && Steps(m, s, n).value.upvals == entered
            && (Steps(m, s, n).value.upvals == s.upvals <==> entered == s.upvals)
  {
    hide Step, Fetch, EnteredUpvals;
    assert Steps(m, s, 0) == Some(s) && CallsAt(m, s, 0);
    k := n - 1;
    while !CallsAt(m, s, k)
      invariant k < n && forall j :: k < j < n ==> !CallsAt(m, s, j)
      decreases k
    {
      k := k - 1;
    }
    RunIsDefined(m, s, n, k);
    StepUpvals(m, Steps(m, s, k).value);
    NoEnterKeeps(m, s, k + 1, n);
  }

  /** A return does not restore the current function: behind a call of a named
      function that makes no call itself there are no upvalues, so the caller keeps
      its own exactly when it has none. */
  lemma UpvaluesLost(m: Machine, s: State, n: nat)
    requires Shape(s) && MatchedCall(m, s, n)
    requires Fetch(m.code, s.ip).Some? && Fetch(m.code, s.ip).value.0.Call?
    requires forall k :: 0 < k < n ==> !CallsAt(m, s, k)
    ensures Steps(m, s, n).value.upvals == []
    ensures Steps(m, s, n).value.upvals == s.upvals <==> s.upvals == []
    ensures forall idx: nat :: GetVar(Steps(m, s, n).value, Upvalue(idx)) == None
  {
    assert Steps(m, s, 0) == Some(s);
    hide Step, Fetch, Steps, MatchedCall, Shape, CallsAt;
    var k := UpvaluesAfterCall(m, s, n);
    assert k == 0;
  }
}
