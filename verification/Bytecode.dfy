/**
 Instructions, the bytes the compiler emits for them, and the sizes its jumps are
 computed from.
 */
module Bytecode {
  import opened Seqs

  /** Bytes of a name or string constant, without the terminating zero. */
  type Name = seq<nat>

  /** The bytes of a name or string. */
  function Text(s: string): Name {
    seq(|s|, i requires 0 <= i < |s| => s[i] as nat)
  }

  /** One byte for each character, the character's own. */
  lemma TextBytes(s: string, t: string)
    ensures |Text(s)| == |s| && forall i :: 0 <= i < |s| ==> Text(s)[i] == s[i] as nat
    ensures Text(s + t) == Text(s) + Text(t)
    ensures Text(s) == Text(t) <==> s == t
  {
    if Text(s) == Text(t) {
      forall i | 0 <= i < |s| ensures s[i] == t[i] { assert Text(s)[i] == Text(t)[i]; }
    }
  }

  function QualifiedName(mod: string, name: string): Name {
    Text(mod + "." + name)
  }

  /** Module names hold no point, so functions of different modules have different
      names. */
  lemma QualifiedNameInjective(mod: string, name: string, mod': string, name': string)
    requires '.' !in mod && '.' !in mod' && QualifiedName(mod, name) == QualifiedName(mod', name')
    ensures mod == mod' && name == name'
  {
    var s, t := mod + "." + name, mod' + "." + name';
    TextBytes(s, t);
    assert s[|mod|] == '.' && forall i :: 0 <= i < |mod| ==> s[i] == mod[i] != '.';
    assert t[|mod'|] == '.' && forall i :: 0 <= i < |mod'| ==> t[i] == mod'[i] != '.';
    assert |mod| == |mod'|;
    assert s[..|mod|] == mod && t[..|mod'|] == mod' && s[|mod| + 1..] == name && t[|mod'| + 1..] == name';
  }

  /** A register of the running frame, or an upvalue of the running function. */
  datatype VarRef = Register(reg: nat) | Upvalue(idx: nat)

  /** VarRef::byte: the most significant bit tells the two apart. */
  function RefByte(v: VarRef): nat {
    match v
    case Register(reg) => reg
    case Upvalue(idx) => idx + 128
  }

  /** The operations whose only operands are variables. */
  datatype Op =
    | Exit | Print | Add | Sub | Mov | TupleNth | StoreTrue | StoreFalse | Eq | NotEq | Not | StoreNil
    | GreaterThan | FilePwd | Concat | FileLs | ListNth | ListCount | ListSlice | StringSlice | CodeLoad
    | FunctionName | StringCount | StringContains | ToString | GcCollect

  /** Instructions, with functions and strings named by N: by their text in the
      compiler's output, by interned ids once loaded. */
  datatype InstrOf<N> =
    | Plain(op: Op, args: seq<VarRef>)
    | StoreInt(to: VarRef, val: nat)
    | Test(reg: VarRef, jump: nat)
    | Jmp(jump: nat)
    | Return
    | LoadString(to: VarRef, text: N)
    | Capture(to: VarRef, name: N, arity: nat)
    | Call(to: VarRef, name: N, arity: nat, regs: seq<VarRef>)
    | CallLocal(to: VarRef, fun: VarRef, regs: seq<VarRef>)
    | MakeTuple(to: VarRef, size: nat, regs: seq<VarRef>)
    | MakeList(to: VarRef, size: nat, regs: seq<VarRef>)
    | AnonFn(to: VarRef, jump: nat, arity: nat, upvals: seq<VarRef>)

  type Instr = InstrOf<Name>

  const STORE_INT: nat := 0x01
  const CALL: nat := 0x05
  const RETURN: nat := 0x06
  const JMP: nat := 0x08
  const TUPLE: nat := 0x09
  const LIST: nat := 0x0b
  const PUB_FN: nat := 0x0c
  const TEST: nat := 0x0f
  const LOAD_STRING: nat := 0x15
  const CAPTURE: nat := 0x19
  const CALL_LOCAL: nat := 0x1a
  const ANON_FN: nat := 0x24

  function OpCode(op: Op): nat {
    match op
    case Exit => 0x00
    case Print => 0x02
    case Add => 0x03
    case Sub => 0x04
    case Mov => 0x07
    case TupleNth => 0x0a
    case StoreTrue => 0x0d
    case StoreFalse => 0x0e
    case Eq => 0x10
    case NotEq => 0x11
    case Not => 0x12
    case StoreNil => 0x13
    case GreaterThan => 0x14
    case FilePwd => 0x16
    case Concat => 0x17
    case FileLs => 0x18
    case ListNth => 0x1b
    case ListCount => 0x1c
    case ListSlice => 0x1d
    case StringSlice => 0x1e
    case CodeLoad => 0x1f
    case FunctionName => 0x20
    case StringCount => 0x21
    case StringContains => 0x22
    case ToString => 0x23
    case GcCollect => 0x25
  }

  /** The number of operands, destination included. */
  function Operands(op: Op): nat {
    match op
    case Exit | Print | FilePwd | StoreTrue | StoreFalse | StoreNil | GcCollect => 1
    case Mov | FileLs | Not | ListCount | StringCount | CodeLoad | FunctionName | ToString => 2
    case TupleNth | Add | Sub | Eq | NotEq | GreaterThan | ListNth | Concat | StringContains => 3
    case ListSlice | StringSlice => 4
  }

  function RefBytes(refs: seq<VarRef>): (r: seq<nat>)
    ensures |r| == |refs|
  {
    seq(|refs|, k requires 0 <= k < |refs| => RefByte(refs[k]))
  }

  /** The decimal digits of a number, as ASCII. */
  function Decimal(n: nat): seq<nat> {
    if n < 10 then [48 + n] else Decimal(n / 10) + [48 + n % 10]
  }

  /** format!("{}\\{}", name, arity) */
  function FullName(name: Name, arity: nat): Name {
    name + [92] + Decimal(arity)
  }

  lemma {:induction false} DecimalDigits(n: nat)
    ensures forall k :: 0 <= k < |Decimal(n)| ==> 48 <= Decimal(n)[k] <= 57
  {
    if n >= 10 { DecimalDigits(n / 10); }
  }

  lemma {:induction false} DecimalInjective(a: nat, b: nat)
    requires Decimal(a) == Decimal(b)
    ensures a == b
  {
    var x, y := Decimal(a), Decimal(b);
    assert x[|x| - 1] == 48 + a % 10 && y[|y| - 1] == 48 + b % 10;
    if a >= 10 && b >= 10 {
      assert Decimal(a / 10) == x[..|x| - 1] && Decimal(b / 10) == y[..|y| - 1];
      DecimalInjective(a / 10, b / 10);
    }
  }

  /** Name and arity can be told from the full name: functions that differ in
      either never collide. */
  lemma FullNameInjective(m: Name, a: nat, n: Name, b: nat)
    requires FullName(m, a) == FullName(n, b)
    ensures m == n && a == b
  {
    hide Decimal;
    var x := FullName(m, a);
    DecimalDigits(a);
    DecimalDigits(b);
    assert x[|m|] == 92 == x[|n|];
    forall k | |m| < k < |x| ensures x[k] != 92 { assert x[k] == Decimal(a)[k - |m| - 1]; }
    forall k | |n| < k < |x| ensures x[k] != 92 { assert x[k] == Decimal(b)[k - |n| - 1]; }
    assert m == x[..|m|] && n == x[..|n|];
    assert Decimal(a) == x[|m| + 1..] && Decimal(b) == x[|n| + 1..];
    DecimalInjective(a, b);
  }

  /** A string constant as emitted: its length, terminator included, and its bytes. */
  function Counted(text: Name): seq<nat> {
    [|text| + 1] + text + [0]
  }

  /** Instruction::emit. */
  function Emit(i: Instr): seq<nat> {
    match i
    case Plain(op, args) => [OpCode(op)] + RefBytes(args)
    case StoreInt(to, val) => [STORE_INT, RefByte(to), val % 250, val / 250 % 256]
    case Test(reg, jump) => [TEST, RefByte(reg), jump]
    case Jmp(jump) => [JMP, jump]
    case Return => [RETURN]
    case LoadString(to, text) => [LOAD_STRING, RefByte(to)] + Counted(text)
    case Capture(to, name, arity) => [CAPTURE, RefByte(to)] + Counted(FullName(name, arity))
    case Call(to, name, arity, regs) =>
      [CALL, RefByte(to)] + Counted(FullName(name, arity)) + [arity] + RefBytes(regs)
    case CallLocal(to, fun, regs) => [CALL_LOCAL, RefByte(to), RefByte(fun), |regs|] + RefBytes(regs)
    case MakeTuple(to, size, regs) => [TUPLE, RefByte(to), size] + RefBytes(regs)
    case MakeList(to, size, regs) => [LIST, RefByte(to), size] + RefBytes(regs)
    case AnonFn(to, jump, arity, upvals) => [ANON_FN, RefByte(to), jump, arity, |upvals|] + RefBytes(upvals)
  }

  function EmitAll(code: seq<Instr>): seq<nat> {
    if code == [] then [] else Emit(code[0]) + EmitAll(code[1..])
  }

  /** Instruction::byte_size: what an instruction is taken to occupy once loaded. */
  function ByteSize(i: Instr): nat {
    match i
    case Plain(op, _) => 1 + Operands(op)
    case StoreInt(_, _) => 4
    case Test(_, _) => 3
    case Jmp(_) => 2
    case Return => 1
    case LoadString(_, _) => 3
    case Capture(_, _, _) => 4
    case Call(_, _, _, regs) => 4 + |regs|
    case CallLocal(_, _, regs) => 4 + |regs|
    case MakeTuple(_, _, regs) => 3 + |regs|
    case MakeList(_, _, regs) => 3 + |regs|
    case AnonFn(_, _, _, upvals) => 5 + |upvals|
  }

  /** byte_size_of. */
  function ByteSizeOf(code: seq<Instr>): nat {
    if code == [] then 0 else ByteSize(code[0]) + ByteSizeOf(code[1..])
  }

  lemma {:induction false} ByteSizeOfConcat(a: seq<Instr>, b: seq<Instr>)
    ensures ByteSizeOf(a + b) == ByteSizeOf(a) + ByteSizeOf(b)
  {
    if a == [] {
      assert a + b == b;
    } else {
      assert (a + b)[1..] == a[1..] + b;
      ByteSizeOfConcat(a[1..], b);
    }
  }

  lemma {:induction false} EmitAllConcat(a: seq<Instr>, b: seq<Instr>)
    ensures EmitAll(a + b) == EmitAll(a) + EmitAll(b)
  {
    if a == [] {
      assert a + b == b;
    } else {
      assert (a + b)[1..] == a[1..] + b;
      EmitAllConcat(a[1..], b);
    }
  }

  // ---------- what fits in the byte format ----------

  predicate RefOk(v: VarRef) {
    match v
    case Register(reg) => reg < 100
    case Upvalue(idx) => idx < 128
  }

  predicate RefsOk(refs: seq<VarRef>) {
    forall k :: 0 <= k < |refs| ==> RefOk(refs[k])
  }

  /** A constant that can be stored: no zero byte, and a length that fits a byte. */
  predicate NameOk(n: Name) {
    |n| <= 254 && forall k :: 0 <= k < |n| ==> 0 < n[k] < 256
  }

  /** Every operand fits its field; the operand lists have the length announced. */
  predicate InstrOk(i: Instr) {
    match i
    case Plain(op, args) => |args| == Operands(op) && RefsOk(args)
    case StoreInt(to, val) => RefOk(to) && val < 65536
    case Test(reg, jump) => RefOk(reg) && jump < 256
    case Jmp(jump) => jump < 256
    case Return => true
    case LoadString(to, text) => RefOk(to) && NameOk(text)
    case Capture(to, name, arity) => RefOk(to) && NameOk(FullName(name, arity)) && arity < 256
    case Call(to, name, arity, regs) =>
      RefOk(to) && NameOk(FullName(name, arity)) && arity < 256 && arity == |regs| && RefsOk(regs)
    case CallLocal(to, fun, regs) => RefOk(to) && RefOk(fun) && |regs| < 256 && RefsOk(regs)
    case MakeTuple(to, size, regs) => RefOk(to) && size == |regs| < 256 && RefsOk(regs)
    case MakeList(to, size, regs) => RefOk(to) && size == |regs| < 256 && RefsOk(regs)
    case AnonFn(to, jump, arity, upvals) => RefOk(to) && jump < 256 && arity < 256 && |upvals| < 128 && RefsOk(upvals)
  }

  predicate CodeOk(code: seq<Instr>) {
    forall k :: 0 <= k < |code| ==> InstrOk(code[k])
  }

  /** The integer constant the VM reads back from the two bytes. */
  function ReadInt(low: nat, high: nat): nat {
    low + 256 * high
  }

  /** Two bytes joined are the number they are the digits of, in base 256. */
  lemma ReadIntJoins(n: nat)
    requires n < 65536
    ensures ReadInt(n % 256, n / 256) == n
  {}

  /** What becomes of a constant split by 250 and joined by 256. */
  lemma StoreIntReads(val: nat)
    requires val < 65536
    ensures val < 64000 ==> ReadInt(val % 250, val / 250 % 256) == val + 6 * (val / 250)
    ensures val >= 64000 ==> ReadInt(val % 250, val / 250 % 256) == val + 6 * (val / 250) - 65536
  {
    var q := val / 250;
    assert val == 250 * q + val % 250;
    if q >= 256 { assert q % 256 == q - 256; }
  }

  /** The compiler splits integers by 250, the VM joins them by 256: a constant
      survives exactly when it is below 250. */
  lemma StoreIntSurvives(val: nat)
    requires val < 65536
    ensures ReadInt(val % 250, val / 250 % 256) == val <==> val < 250
  {
    var q := val / 250;
    assert val == 250 * q + val % 250;
    if q >= 256 {
      assert q % 256 == q - 256;
    }
  }

  // ---------- the writer ----------

  /** The output of the compiler: bytes are only ever appended. */
  class Writer {
    var bytes: seq<nat>

    constructor ()
      ensures bytes == []
    {
      bytes := [];
    }

    method Write(more: seq<nat>)
      modifies this
      ensures bytes == old(bytes) + more
    {
      bytes := bytes + more;
    }

    /** The loops over operands. */
    method WriteRefs(refs: seq<VarRef>)
      modifies this
      ensures bytes == old(bytes) + RefBytes(refs)
    {
      for k := 0 to |refs|
        invariant bytes == old(bytes) + RefBytes(refs[..k])
      {
        assert RefBytes(refs[..k + 1]) == RefBytes(refs[..k]) + [RefByte(refs[k])];
        Write([RefByte(refs[k])]);
      }
      assert refs[..|refs|] == refs;
    }

    /** A name with its length in front and a zero byte behind. */
    method WriteCounted(text: Name)
      modifies this
      ensures bytes == old(bytes) + Counted(text)
    {
      Write([|text| + 1]);  // +1 accounts for the terminator
      Write(text);
      Write([0]);
      assert bytes == old(bytes) + Counted(text);
    }

    /** Instruction::emit. */
    method EmitInstr(i: Instr)
      modifies this
      ensures bytes == old(bytes) + Emit(i)
    {
      hide Counted, FullName, Decimal, RefBytes, OpCode, RefByte;
      match i {
        case Call(to, name, arity, regs) =>
          EmitCall(to, name, arity, regs);
        case Capture(to, name, arity) =>
          Write([CAPTURE, RefByte(to)]);
          WriteCounted(FullName(name, arity));
        case LoadString(to, text) =>
          Write([LOAD_STRING, RefByte(to)]);
          WriteCounted(text);
        case StoreInt(to, val) => Write([STORE_INT, RefByte(to), val % 250, val / 250 % 256]);
        case Test(reg, jump) => Write([TEST, RefByte(reg), jump]);
        case Jmp(jump) => Write([JMP, jump]);
        case Return => Write([RETURN]);
        case Plain(op, args) => EmitWithRefs(i, [OpCode(op)], args);
        case CallLocal(to, fun, regs) => EmitWithRefs(i, [CALL_LOCAL, RefByte(to), RefByte(fun), |regs|], regs);
        case MakeTuple(to, size, regs) => EmitWithRefs(i, [TUPLE, RefByte(to), size], regs);
        case MakeList(to, size, regs) => EmitWithRefs(i, [LIST, RefByte(to), size], regs);
        case AnonFn(to, jump, arity, upvals) => EmitWithRefs(i, [ANON_FN, RefByte(to), jump, arity, |upvals|], upvals);
      }
    }

    /** The instructions that end in a loop over operands. */
    method EmitWithRefs(ghost i: Instr, fixed: seq<nat>, refs: seq<VarRef>)
      requires Emit(i) == fixed + RefBytes(refs)
      modifies this
      ensures bytes == old(bytes) + Emit(i)
    {
      hide Emit, RefBytes;
      Write(fixed);
      WriteRefs(refs);
    }

    method EmitCall(to: VarRef, name: Name, arity: nat, regs: seq<VarRef>)
      modifies this
      ensures bytes == old(bytes) + Emit(Call(to, name, arity, regs))
    {
      hide Counted, FullName, Decimal, RefBytes;
      Write([CALL, RefByte(to)]);
      WriteCounted(FullName(name, arity));
      Write([arity]);
      WriteRefs(regs);
      ghost var text := Counted(FullName(name, arity));
      assert Emit(Call(to, name, arity, regs)) == [CALL, RefByte(to)] + text + [arity] + RefBytes(regs);
    }

    /** Function::emit: the header with the function's name, then its code. */
    method EmitFunction(name: Name, arity: nat, code: seq<Instr>)
      modifies this
      ensures bytes == old(bytes) + FunctionBytes(name, arity, code)
    {
      hide Emit, Counted, FullName, Decimal;
      ghost var header := [PUB_FN] + Counted(FullName(name, arity));
      Write([PUB_FN]);
      WriteCounted(FullName(name, arity));
      assert bytes == old(bytes) + header;
      for k := 0 to |code|
        invariant bytes == old(bytes) + header + EmitAll(code[..k])
      {
        EmitAllSnoc(code, k);
        EmitInstr(code[k]);
      }
      assert code[..|code|] == code;
    }

    /** Module::emit. */
    method EmitModule(fs: seq<Fun>)
      modifies this
      ensures bytes == old(bytes) + ModuleBytes(fs)
    {
      hide FunctionBytes;
      for k := 0 to |fs|
        invariant bytes == old(bytes) + ModuleBytes(fs[..k])
      {
        ModuleBytesSnoc(fs, k);
        EmitFunction(fs[k].name, fs[k].arity, fs[k].code);
      }
      assert fs[..|fs|] == fs;
    }
  }

  lemma EmitAllSnoc(code: seq<Instr>, k: nat)
    requires k < |code|
    ensures EmitAll(code[..k + 1]) == EmitAll(code[..k]) + Emit(code[k])
  {
    assert code[..k + 1] == code[..k] + [code[k]];
    EmitAllConcat(code[..k], [code[k]]);
    assert EmitAll([code[k]]) == Emit(code[k]) + EmitAll([]);
  }

  function FunctionBytes(name: Name, arity: nat, code: seq<Instr>): seq<nat> {
    [PUB_FN] + Counted(FullName(name, arity)) + EmitAll(code)
  }

  /** A compiled function. */
  datatype Fun = Fun(name: Name, arity: nat, code: seq<Instr>)

  function Full(f: Fun): Name {
    FullName(f.name, f.arity)
  }

  /** Module::emit. */
  function ModuleBytes(fs: seq<Fun>): seq<nat> {
    if fs == [] then [] else FunctionBytes(fs[0].name, fs[0].arity, fs[0].code) + ModuleBytes(fs[1..])
  }

  lemma {:induction false} ModuleBytesConcat(a: seq<Fun>, b: seq<Fun>)
    ensures ModuleBytes(a + b) == ModuleBytes(a) + ModuleBytes(b)
  {
    hide FunctionBytes;
    if a == [] {
      assert a + b == b;
    } else {
      assert (a + b)[1..] == a[1..] + b;
      ModuleBytesConcat(a[1..], b);
    }
  }

  lemma ModuleBytesSnoc(fs: seq<Fun>, k: nat)
    requires k < |fs|
    ensures ModuleBytes(fs[..k + 1]) == ModuleBytes(fs[..k]) + FunctionBytes(fs[k].name, fs[k].arity, fs[k].code)
  {
    hide FunctionBytes;
    assert fs[..k + 1] == fs[..k] + [fs[k]];
    ModuleBytesConcat(fs[..k], [fs[k]]);
    assert ModuleBytes([fs[k]]) == FunctionBytes(fs[k].name, fs[k].arity, fs[k].code) + ModuleBytes([]);
  }
}
