/**
 Reading instructions back from the code array, and the proof that what was
 emitted and loaded is read back as it was, with names turned into ids.
 */
module Decode {
  import opened Seqs
  import opened Bytecode
  import opened Loader

  /** A loaded instruction: functions and strings are ids. */
  type Loaded = InstrOf<nat>

  /** get_var's reading of an operand byte. */
  function RefOf(byte: nat): VarRef {
    if byte >= 128 then Upvalue(byte - 128) else Register(byte)
  }

  function RefsOf(bytes: seq<nat>): (r: seq<VarRef>)
    ensures |r| == |bytes|
  {
    seq(|bytes|, k requires 0 <= k < |bytes| => RefOf(bytes[k]))
  }

  /** The operation with a given opcode. */
  function OpOf(code: nat): Option<Op> {
    match code
    case 0x00 => Some(Exit)
    case 0x02 => Some(Print)
    case 0x03 => Some(Add)
    case 0x04 => Some(Sub)
    case 0x07 => Some(Mov)
    case 0x0a => Some(TupleNth)
    case 0x0d => Some(StoreTrue)
    case 0x0e => Some(StoreFalse)
    case 0x10 => Some(Eq)
    case 0x11 => Some(NotEq)
    case 0x12 => Some(Not)
    case 0x13 => Some(StoreNil)
    case 0x14 => Some(GreaterThan)
    case 0x16 => Some(FilePwd)
    case 0x17 => Some(Concat)
    case 0x18 => Some(FileLs)
    case 0x1b => Some(ListNth)
    case 0x1c => Some(ListCount)
    case 0x1d => Some(ListSlice)
    case 0x1e => Some(StringSlice)
    case 0x1f => Some(CodeLoad)
    case 0x20 => Some(FunctionName)
    case 0x21 => Some(StringCount)
    case 0x22 => Some(StringContains)
    case 0x23 => Some(ToString)
    case 0x25 => Some(GcCollect)
    case _ => None
  }

  lemma OpCodeRoundTrip(op: Op)
    ensures OpOf(OpCode(op)) == Some(op)
  {}

  /** The instruction at `ip` and the position behind it. */
  function Fetch(code: seq<nat>, ip: nat): (r: Option<(Loaded, nat)>)
    ensures r.Some? ==> ip < r.value.1 <= |code|
  {
    if ip >= |code| then None
    else if OpOf(code[ip]).Some? then
      var op := OpOf(code[ip]).value;
      var next := ip + 1 + Operands(op);
      if next > |code| then None else Some((Plain(op, RefsOf(code[ip + 1..next])), next))
    else if code[ip] == RETURN then Some((Return, ip + 1))
    else if ip + 2 > |code| then None
    else if code[ip] == JMP then Some((Jmp(code[ip + 1]), ip + 2))
    else if ip + 3 > |code| then None
    else
      var to := RefOf(code[ip + 1]);
      if code[ip] == TEST then Some((Test(to, code[ip + 2]), ip + 3))
      else if code[ip] == LOAD_STRING then Some((LoadString(to, code[ip + 2]), ip + 3))
      else if code[ip] == CAPTURE then Some((Capture(to, code[ip + 2], 0), ip + 3))
      else if code[ip] == TUPLE || code[ip] == LIST then
        var size := code[ip + 2];
        if ip + 3 + size > |code| then None else
          var regs := RefsOf(code[ip + 3..ip + 3 + size]);
          Some((if code[ip] == TUPLE then MakeTuple(to, size, regs) else MakeList(to, size, regs), ip + 3 + size))
      else if ip + 4 > |code| then None
      else if code[ip] == STORE_INT then Some((StoreInt(to, ReadInt(code[ip + 2], code[ip + 3])), ip + 4))
      else if code[ip] == CALL || code[ip] == CALL_LOCAL then
        var arity := code[ip + 3];
        if ip + 4 + arity > |code| then None else
          var regs := RefsOf(code[ip + 4..ip + 4 + arity]);
          Some((if code[ip] == CALL then Call(to, code[ip + 2], arity, regs)
              else CallLocal(to, RefOf(code[ip + 2]), regs),
                ip + 4 + arity))
      else if ip + 5 > |code| || code[ip] != ANON_FN then None
      else
        var upvals := code[ip + 4];
        if ip + 5 + upvals > |code| then None else
          Some((AnonFn(to, code[ip + 2], code[ip + 3], RefsOf(code[ip + 5..ip + 5 + upvals])), ip + 5 + upvals))
  }

  /** An emitted instruction as it is found after loading.  The arity of a capture
      is part of the captured name. */
  function Resolve(i: Instr, names: seq<Name>, strings: seq<Name>): Loaded {
    match i
    case Plain(op, args) => Plain(op, args)
    case StoreInt(to, val) => StoreInt(to, ReadInt(val % 250, val / 250 % 256))
    case Test(reg, jump) => Test(reg, jump)
    case Jmp(jump) => Jmp(jump)
    case Return => Return
    case LoadString(to, text) => LoadString(to, Id(strings, text))
    case Capture(to, name, arity) => Capture(to, Id(names, FullName(name, arity)) % 256, 0)
    case Call(to, name, arity, regs) => Call(to, Id(names, FullName(name, arity)), arity, regs)
    case CallLocal(to, fun, regs) => CallLocal(to, fun, regs)
    case MakeTuple(to, size, regs) => MakeTuple(to, size, regs)
    case MakeList(to, size, regs) => MakeList(to, size, regs)
    case AnonFn(to, jump, arity, upvals) => AnonFn(to, jump, arity, upvals)
  }

  /** What an instruction refers to is in the pools. */
  predicate Known(i: Instr, names: seq<Name>, strings: seq<Name>) {
    match i
    case LoadString(_, text) => text in strings
    case Capture(_, name, arity) => FullName(name, arity) in names
    case Call(_, name, arity, _) => FullName(name, arity) in names
    case _ => true
  }

  /** Nothing is lost: different instructions are read back differently. */
  lemma ResolveInjective(i: Instr, j: Instr, names: seq<Name>, strings: seq<Name>)
    requires InstrOk(i) && InstrOk(j) && |names| < 256
    requires Known(i, names, strings) && Known(j, names, strings)
    requires (i.StoreInt? ==> i.val < 250) && (j.StoreInt? ==> j.val < 250)
    requires Resolve(i, names, strings) == Resolve(j, names, strings)
    ensures i == j
  {
    hide Id, FullName;
    match i
    case StoreInt(to, val) => StoreIntSurvives(val); StoreIntSurvives(j.val);
    case LoadString(_, text) => IdInjective(strings, text, j.text);
    case Capture(_, name, arity) =>
      var a, b := FullName(name, arity), FullName(j.name, j.arity);
      IdIsPosition(names, a);
      IdIsPosition(names, b);
      IdInjective(names, a, b);
      FullNameInjective(name, arity, j.name, j.arity);
    case Call(_, name, arity, _) =>
      IdInjective(names, FullName(name, arity), FullName(j.name, j.arity));
      FullNameInjective(name, arity, j.name, j.arity);
    case _ =>
  }

  lemma RefRoundTrip(v: VarRef)
    requires RefOk(v)
    ensures RefOf(RefByte(v)) == v
  {}

  lemma RefsRoundTrip(refs: seq<VarRef>)
    requires RefsOk(refs)
    ensures RefsOf(RefBytes(refs)) == refs
  {
    forall k | 0 <= k < |refs| ensures RefsOf(RefBytes(refs))[k] == refs[k] {
      RefRoundTrip(refs[k]);
    }
  }

  lemma FixedAt(code: seq<nat>, ip: nat, bytes: seq<nat>)
    requires HoldsAt(code, ip, bytes) && bytes != []
    ensures ip + |bytes| <= |code| && code[ip] == bytes[0]
    ensures |bytes| > 1 ==> code[ip + 1] == bytes[1]
    ensures |bytes| > 2 ==> code[ip + 2] == bytes[2]
    ensures |bytes| > 3 ==> code[ip + 3] == bytes[3]
    ensures |bytes| > 4 ==> code[ip + 4] == bytes[4]
  {
    var end := ip + |bytes|;
    SliceAt(code, ip, end, 0);
    if |bytes| > 1 { SliceAt(code, ip, end, 1); }
    if |bytes| > 2 { SliceAt(code, ip, end, 2); }
    if |bytes| > 3 { SliceAt(code, ip, end, 3); }
    if |bytes| > 4 { SliceAt(code, ip, end, 4); }
  }

  /** Operands behind a fixed part. */
  lemma OperandsAt(code: seq<nat>, ip: nat, fixed: seq<nat>, refs: seq<VarRef>)
    requires HoldsAt(code, ip, fixed + RefBytes(refs)) && RefsOk(refs) && fixed != []
    ensures ip + |fixed| + |refs| <= |code| && code[ip] == fixed[0]
    ensures |fixed| > 1 ==> code[ip + 1] == fixed[1]
    ensures |fixed| > 2 ==> code[ip + 2] == fixed[2]
    ensures |fixed| > 3 ==> code[ip + 3] == fixed[3]
    ensures |fixed| > 4 ==> code[ip + 4] == fixed[4]
    ensures RefsOf(code[ip + |fixed|..ip + |fixed| + |refs|]) == refs
  {
    HoldsParts(code, ip, fixed, RefBytes(refs));
    RefsRoundTrip(refs);
    FixedAt(code, ip, fixed);
  }

  /** Instructions that end in a list of operands. */
  predicate Listed(i: Instr) {
    i.Plain? || i.Call? || i.CallLocal? || i.MakeTuple? || i.MakeList? || i.AnonFn?
  }

  lemma NoOps()
    ensures OpOf(CALL).None? && OpOf(TUPLE).None? && OpOf(LIST).None? && OpOf(CALL_LOCAL).None? && OpOf(ANON_FN).None?
  {}

  lemma FetchListed(code: seq<nat>, ip: nat, i: Instr, names: seq<Name>, strings: seq<Name>)
    requires Listed(i) && InstrOk(i) && HoldsAt(code, ip, LoadedBytes(i, names, strings))
    ensures Fetch(code, ip) == Some((Resolve(i, names, strings), ip + |LoadedBytes(i, names, strings)|))
  {
    hide HoldsAt, RefsOf, RefBytes, Id, FullName, RefOf, RefByte, OpOf, OpCode;
    NoOps();
    match i
    case Plain(op, args) =>
      OperandsAt(code, ip, [OpCode(op)], args);
      OpCodeRoundTrip(op);
    case Call(to, name, arity, regs) =>
      RefRoundTrip(to);
      OperandsAt(code, ip, [CALL, RefByte(to), Id(names, FullName(name, arity)), arity], regs);
    case CallLocal(to, fun, regs) =>
      RefRoundTrip(to);
      RefRoundTrip(fun);
      OperandsAt(code, ip, [CALL_LOCAL, RefByte(to), RefByte(fun), |regs|], regs);
    case MakeTuple(to, size, regs) =>
      RefRoundTrip(to);
      OperandsAt(code, ip, [TUPLE, RefByte(to), size], regs);
    case MakeList(to, size, regs) =>
      RefRoundTrip(to);
      OperandsAt(code, ip, [LIST, RefByte(to), size], regs);
    case AnonFn(to, jump, arity, upvals) =>
      RefRoundTrip(to);
      OperandsAt(code, ip, [ANON_FN, RefByte(to), jump, arity, |upvals|], upvals);
  }

  /** Reading back a loaded instruction. */
  lemma FetchLoaded(code: seq<nat>, ip: nat, i: Instr, names: seq<Name>, strings: seq<Name>)
    requires InstrOk(i) && HoldsAt(code, ip, LoadedBytes(i, names, strings))
    ensures Fetch(code, ip) == Some((Resolve(i, names, strings), ip + |LoadedBytes(i, names, strings)|))
  {
    hide HoldsAt, RefsOf, RefBytes, Id, FullName, RefOf, RefByte;
    if Listed(i) {
      FetchListed(code, ip, i, names, strings);
    } else {
      var bytes := LoadedBytes(i, names, strings);
      match i
      case StoreInt(to, val) => RefRoundTrip(to); FixedAt(code, ip, bytes);
      case Test(reg, jump) => RefRoundTrip(reg); FixedAt(code, ip, bytes);
      case LoadString(to, text) => RefRoundTrip(to); FixedAt(code, ip, bytes);
      case Capture(to, name, arity) => RefRoundTrip(to); FixedAt(code, ip, bytes);
      case Jmp(jump) => FixedAt(code, ip, bytes);
      case Return => FixedAt(code, ip, bytes);
    }
  }

  function ResolveAll(code: seq<Instr>, names: seq<Name>, strings: seq<Name>): seq<Loaded> {
    if code == [] then [] else [Resolve(code[0], names, strings)] + ResolveAll(code[1..], names, strings)
  }

  /** The next n instructions, one behind the other. */
  function FetchAll(code: seq<nat>, ip: nat, n: nat): Option<seq<Loaded>>
    decreases n
  {
    if n == 0 then Some([])
    else
      match Fetch(code, ip)
      case None => None
      case Some((i, next)) =>
        match FetchAll(code, next, n - 1)
        case None => None
        case Some(rest) => Some([i] + rest)
  }

  /** The constant that the machine reads for one in the source. */
  lemma FetchConstant(code: seq<nat>, ip: nat, to: VarRef, val: nat, names: seq<Name>, strings: seq<Name>)
    requires InstrOk(StoreInt(to, val)) && HoldsAt(code, ip, LoadedBytes(StoreInt(to, val), names, strings))
    ensures Fetch(code, ip)
         == Some((StoreInt(to, val + 6 * (val / 250) - if val < 64000 then 0 else 65536), ip + 4))
  {
    hide HoldsAt, Fetch;
    FetchLoaded(code, ip, StoreInt(to, val), names, strings);
    StoreIntReads(val);
  }

  /** Emitting, loading and reading undo each other. */
  lemma {:induction false} FetchAllLoaded(code: seq<nat>, ip: nat, prog: seq<Instr>, names: seq<Name>,
      strings: seq<Name>)
    requires CodeOk(prog) && HoldsAt(code, ip, LoadedAll(prog, names, strings))
    ensures FetchAll(code, ip, |prog|) == Some(ResolveAll(prog, names, strings))
    decreases |prog|
  {
    hide Fetch, HoldsAt, LoadedBytes, Resolve;
    if prog != [] {
      var b := LoadedBytes(prog[0], names, strings);
      HoldsParts(code, ip, b, LoadedAll(prog[1..], names, strings));
      FetchLoaded(code, ip, prog[0], names, strings);
      FetchAllLoaded(code, ip + |b|, prog[1..], names, strings);
    }
  }

  /** A compiled module, emitted, loaded and read back at its function table. */
  lemma ModuleRoundTrip(fs: seq<Fun>, st: LoadState) returns (r: LoadState)
    requires ModuleOk(fs) && DistinctFuns(fs)
    requires PoolOk(ModuleNames(fs, st.names)) && PoolOk(ModuleStrings(fs, st.strings))
    ensures LoadFrom(ModuleBytes(fs), 0, st) == Some(r)
    ensures forall k :: 0 <= k < |fs| ==>
              var id := Id(r.names, Full(fs[k]));
              id in r.functions
              && FetchAll(r.code, r.functions[id], |fs[k].code|) == Some(ResolveAll(fs[k].code, r.names, r.strings))
  {
    hide *;
    r := EmitThenLoad(fs, st);
    forall k | 0 <= k < |fs|
      ensures FetchAll(r.code, r.functions[Id(r.names, Full(fs[k]))], |fs[k].code|)
           == Some(ResolveAll(fs[k].code, r.names, r.strings))
    {
      FunOf(fs, k);
      FetchAllLoaded(r.code, r.functions[Id(r.names, Full(fs[k]))], fs[k].code, r.names, r.strings);
    }
  }

  lemma FunOf(fs: seq<Fun>, k: nat)
    requires ModuleOk(fs) && k < |fs|
    ensures CodeOk(fs[k].code)
  {
    assert FunOk(fs[k]);
  }
}
