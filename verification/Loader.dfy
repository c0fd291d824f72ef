/**
 Loading emitted bytes: operands are copied, names and strings are replaced by
 interned ids, and each function header records where its code starts.
 */
module Loader {
  import opened Seqs
  import opened Bytecode

  /** What loading adds to: the code array, the two intern pools and the function
      table (by the id of the function's full name). */
  datatype LoadState = LoadState(code: seq<nat>, names: seq<Name>, strings: seq<Name>, functions: map<nat, nat>)

  const MAX_FUNCTIONS: nat := 255

  // ---------- interning ----------

  /** The id of a name: its position in the pool, counted from 1; 0 when absent. */
  function Id(pool: seq<Name>, name: Name): nat {
    if pool == [] then 0
    else if pool[|pool| - 1] == name then |pool|
    else Id(pool[..|pool| - 1], name)
  }

  /** strings_intern: a known name keeps its id, a new one gets the next. */
  function Intern(pool: seq<Name>, name: Name): seq<Name> {
    if name in pool then pool else pool + [name]
  }

  ghost predicate Distinct(pool: seq<Name>) {
    forall i, j :: 0 <= i < j < |pool| ==> pool[i] != pool[j]
  }

  lemma {:induction false} IdIsPosition(pool: seq<Name>, name: Name)
    ensures name in pool <==> Id(pool, name) > 0
    ensures Id(pool, name) <= |pool|
    ensures Id(pool, name) > 0 ==> pool[Id(pool, name) - 1] == name
  {
    if pool != [] {
      IdIsPosition(pool[..|pool| - 1], name);
      assert pool == pool[..|pool| - 1] + [pool[|pool| - 1]];
    }
  }

  /** Interning is injective, and ids once given never change. */
  lemma InternKeepsIds(pool: seq<Name>, name: Name, other: Name)
    requires Distinct(pool)
    ensures Distinct(Intern(pool, name)) && name in Intern(pool, name)
    ensures other in pool ==> Id(Intern(pool, name), other) == Id(pool, other)
    ensures other in Intern(pool, name) && Id(Intern(pool, name), other) == Id(Intern(pool, name), name)
        ==> other == name
  {
    IdIsPosition(Intern(pool, name), name);
    IdIsPosition(Intern(pool, name), other);
    IdIsPosition(pool, other);
    if name !in pool { assert (pool + [name])[..|pool|] == pool; }
  }

  ghost predicate Extends(pool: seq<Name>, more: seq<Name>) {
    |pool| <= |more| && more[..|pool|] == pool
  }

  lemma ExtendsKeepsIds(pool: seq<Name>, more: seq<Name>, name: Name)
    requires Extends(pool, more) && Distinct(more) && name in pool
    ensures Id(more, name) == Id(pool, name)
  {
    IdIsPosition(pool, name);
    IdIsPosition(more, name);
    assert more[Id(pool, name) - 1] == pool[Id(pool, name) - 1];
  }

  // ---------- one instruction ----------

  /** The instructions whose bytes are copied as they are, by their length. */
  function FixedLength(op: nat): nat {
    match op
    case 0x06 => 1  // RETURN
    case 0x00 | 0x02 | 0x16 | 0x0d | 0x0e | 0x13 | 0x08 | 0x25 => 2  // among them JMP
    case 0x07 | 0x18 | 0x12 | 0x1c | 0x21 | 0x1f | 0x0f | 0x20 | 0x23 => 3  // among them TEST
    case 0x0a | 0x01 | 0x03 | 0x04 | 0x10 | 0x11 | 0x14 | 0x1b | 0x17 | 0x22 => 4  // among them STORE_INT
    case 0x1d | 0x1e => 5
    case _ => 0
  }

  /** A C string: the bytes before the first zero. */
  function CString(buffer: seq<nat>): Name {
    if buffer == [] || buffer[0] == 0 then [] else [buffer[0]] + CString(buffer[1..])
  }

  /** What one round of the loader's loop does at `pos`: the new state and
      position, or nothing when it stops with an error or reads past the end. */
  function LoadStep(bytes: seq<nat>, pos: nat, st: LoadState): (r: Option<(LoadState, nat)>)
    requires pos < |bytes|
    ensures r.Some? ==> pos < r.value.1 <= |bytes|
  {
    var op := bytes[pos];
    if FixedLength(op) > 0 then CopyStep(bytes, pos, st, FixedLength(op))
    else if op == TUPLE || op == LIST then
      if pos + 3 > |bytes| then None else CopyStep(bytes, pos, st, 3 + bytes[pos + 2])
    else if op == ANON_FN then
      if pos + 5 > |bytes| then None else CopyStep(bytes, pos, st, 5 + bytes[pos + 4])
    else if op == CALL_LOCAL then
      if pos + 4 > |bytes| then None else CopyStep(bytes, pos, st, 4 + bytes[pos + 3])
    else if op == CAPTURE then
      if pos + 3 > |bytes| || pos + 3 + bytes[pos + 2] > |bytes| then None else
        var name := CString(bytes[pos + 3..pos + 3 + bytes[pos + 2]]);
        var names := Intern(st.names, name);
        Some((st.(code := st.code + [op, bytes[pos + 1], Id(names, name) % 256], names := names),
              pos + 3 + bytes[pos + 2]))
    else if op == PUB_FN then
      if pos + 2 > |bytes| || pos + 2 + bytes[pos + 1] > |bytes| then None else
        var name := CString(bytes[pos + 2..pos + 2 + bytes[pos + 1]]);
        var names := Intern(st.names, name);
        var id := Id(names, name);
        if id >= MAX_FUNCTIONS then None else
          Some((st.(names := names, functions := st.functions[id := |st.code|]), pos + 2 + bytes[pos + 1]))
    else if op == LOAD_STRING then
      if pos + 3 > |bytes| || pos + 3 + bytes[pos + 2] > |bytes| then None else
        var text := CString(bytes[pos + 3..pos + 3 + bytes[pos + 2]]);
        var strings := Intern(st.strings, text);
        var id := Id(strings, text);
        if id >= 255 then None else
          Some((st.(code := st.code + [op, bytes[pos + 1], id], strings := strings), pos + 3 + bytes[pos + 2]))
    else if op == CALL then
      if pos + 3 > |bytes| || pos + 4 + bytes[pos + 2] > |bytes| then None else
        var behind := pos + 3 + bytes[pos + 2];
        var name := CString(bytes[pos + 3..behind]);
        var names := Intern(st.names, name);
        var id := Id(names, name);
        var arity := bytes[behind];
        if id >= MAX_FUNCTIONS || behind + 1 + arity > |bytes| then None else
          Some((st.(code := st.code + [op, bytes[pos + 1], id, arity] + bytes[behind + 1..behind + 1 + arity],
                    names := names),
                behind + 1 + arity))
    else None
  }

  function CopyStep(bytes: seq<nat>, pos: nat, st: LoadState, n: nat): (r: Option<(LoadState, nat)>)
    requires pos < |bytes| && n > 0
    ensures r.Some? ==> pos < r.value.1 <= |bytes|
  {
    if pos + n > |bytes| then None
    else Some((st.(code := st.code + bytes[pos..pos + n]), pos + n))
  }

  /** owl_load_module. */
  function LoadFrom(bytes: seq<nat>, pos: nat, st: LoadState): Option<LoadState>
    decreases |bytes| - pos
  {
    if pos >= |bytes| then Some(st)
    else
      match LoadStep(bytes, pos, st)
      case None => None
      case Some((st', pos')) => LoadFrom(bytes, pos', st')
  }

  // ---------- emit and load undo each other ----------

  /** The pools after an instruction's names were interned. */
  function NamesAfter(i: Instr, names: seq<Name>): seq<Name> {
    match i
    case Capture(_, name, arity) => Intern(names, FullName(name, arity))
    case Call(_, name, arity, _) => Intern(names, FullName(name, arity))
    case _ => names
  }

  function StringsAfter(i: Instr, strings: seq<Name>): seq<Name> {
    match i
    case LoadString(_, text) => Intern(strings, text)
    case _ => strings
  }

  function Interned(i: Instr, st: LoadState): LoadState {
    st.(names := NamesAfter(i, st.names), strings := StringsAfter(i, st.strings))
  }

  /** The bytes an instruction occupies once loaded. */
  function LoadedBytes(i: Instr, names: seq<Name>, strings: seq<Name>): seq<nat> {
    match i
    case LoadString(to, text) => [LOAD_STRING, RefByte(to), Id(strings, text)]
    case Capture(to, name, arity) => [CAPTURE, RefByte(to), Id(names, FullName(name, arity)) % 256]
    case Call(to, name, arity, regs) =>
      [CALL, RefByte(to), Id(names, FullName(name, arity)), arity] + RefBytes(regs)
    case _ => Emit(i)
  }

  function LoadedAll(code: seq<Instr>, names: seq<Name>, strings: seq<Name>): seq<nat> {
    if code == [] then [] else LoadedBytes(code[0], names, strings) + LoadedAll(code[1..], names, strings)
  }

  /** byte_size is right for every instruction but Capture, which it takes to be
      one byte longer than what the loader stores. */
  lemma ByteSizeIsLoadedSize(i: Instr, names: seq<Name>, strings: seq<Name>)
    requires InstrOk(i)
    ensures |LoadedBytes(i, names, strings)| == if i.Capture? then ByteSize(i) - 1 else ByteSize(i)
  {}

  predicate NoCapture(code: seq<Instr>) {
    forall k :: 0 <= k < |code| ==> !code[k].Capture?
  }

  function Captures(code: seq<Instr>): nat {
    if code == [] then 0 else (if code[0].Capture? then 1 else 0) + Captures(code[1..])
  }

  /** Sizes, and with them jumps over the code, are exact if and only if the code
      captures no function; each capture adds one byte too many. */
  lemma {:induction false} ByteSizeOfIsLoadedSize(code: seq<Instr>, names: seq<Name>, strings: seq<Name>)
    requires CodeOk(code)
    ensures ByteSizeOf(code) == |LoadedAll(code, names, strings)| + Captures(code)
    ensures ByteSizeOf(code) == |LoadedAll(code, names, strings)| <==> NoCapture(code)
  {
    hide InstrOk, LoadedBytes, ByteSize;
    if code != [] {
      ByteSizeIsLoadedSize(code[0], names, strings);
      ByteSizeOfIsLoadedSize(code[1..], names, strings);
      if NoCapture(code[1..]) && !code[0].Capture? {
        forall k | 0 <= k < |code| ensures !code[k].Capture? { if k > 0 { assert code[k] == code[1..][k - 1]; } }
      }
      if NoCapture(code) {
        forall k | 0 <= k < |code[1..]| ensures !code[1..][k].Capture? { assert code[1..][k] == code[k + 1]; }
      }
    }
  }

  lemma {:induction false} LoadedAllConcat(a: seq<Instr>, b: seq<Instr>, names: seq<Name>, strings: seq<Name>)
    ensures LoadedAll(a + b, names, strings) == LoadedAll(a, names, strings) + LoadedAll(b, names, strings)
  {
    if a == [] {
      assert a + b == b;
    } else {
      assert (a + b)[1..] == a[1..] + b;
      LoadedAllConcat(a[1..], b, names, strings);
    }
  }

  lemma {:induction false} CStringOfCounted(name: Name, rest: seq<nat>)
    requires forall k :: 0 <= k < |name| ==> 0 < name[k]
    ensures CString(name + [0] + rest) == name
  {
    var buffer := name + [0] + rest;
    if name != [] {
      assert buffer[1..] == name[1..] + [0] + rest;
      CStringOfCounted(name[1..], rest);
    }
  }

  /** Reading back a counted string inside a longer byte sequence. */
  lemma CountedAt(bytes: seq<nat>, pos: nat, name: Name)
    requires NameOk(name) && pos + |Counted(name)| <= |bytes|
    requires bytes[pos..pos + |Counted(name)|] == Counted(name)
    ensures bytes[pos] == |name| + 1
    ensures CString(bytes[pos + 1..pos + 1 + bytes[pos]]) == name
  {
    var c := Counted(name);
    assert bytes[pos] == bytes[pos..pos + |c|][0];
    assert bytes[pos + 1..pos + 1 + |name| + 1] == c[1..] == name + [0] + [];
    CStringOfCounted(name, []);
  }

  ghost predicate PoolsFit(st: LoadState) {
    |st.names| < 255 && |st.strings| < 255
  }

  /** An instruction that names nothing is copied as it stands. */
  predicate Copied(i: Instr) {
    !i.LoadString? && !i.Capture? && !i.Call?
  }

  lemma LoadEmittedCopy(i: Instr, bytes: seq<nat>, pos: nat, st: LoadState)
    requires InstrOk(i) && Copied(i)
    requires pos + |Emit(i)| <= |bytes| && bytes[pos..pos + |Emit(i)|] == Emit(i)
    ensures |Emit(i)| > 0 && pos < |bytes|
    ensures LoadStep(bytes, pos, st) == Some((st.(code := st.code + Emit(i)), pos + |Emit(i)|))
  {
    hide RefByte, LoadStep, FixedLength, OpCode, Operands, RefBytes;
    var e := Emit(i);
    SliceAt(bytes, pos, pos + |e|, 0);
    FixedKinds();
    match i
    case CallLocal(to, fun, regs) =>
      assert |e| == 4 + |regs| && e[3] == |regs|;
      SliceAt(bytes, pos, pos + |e|, 3);
      LoadCounted(bytes, pos, st, 4);
    case MakeTuple(to, size, regs) =>
      assert |e| == 3 + size && e[2] == size;
      SliceAt(bytes, pos, pos + |e|, 2);
      LoadCounted(bytes, pos, st, 3);
    case MakeList(to, size, regs) =>
      assert |e| == 3 + size && e[2] == size;
      SliceAt(bytes, pos, pos + |e|, 2);
      LoadCounted(bytes, pos, st, 3);
    case AnonFn(to, jump, arity, upvals) =>
      assert |e| == 5 + |upvals| && e[4] == |upvals|;
      SliceAt(bytes, pos, pos + |e|, 4);
      LoadCounted(bytes, pos, st, 5);
    case Plain(op, args) =>
      FixedPlain(op);
      LoadFixed(bytes, pos, st, |e|);
    case StoreInt(to, val) => LoadFixed(bytes, pos, st, 4);
    case Test(reg, jump) => LoadFixed(bytes, pos, st, 3);
    case Jmp(jump) => LoadFixed(bytes, pos, st, 2);
    case Return => LoadFixed(bytes, pos, st, 1);
  }

  lemma FixedKinds()
    ensures FixedLength(STORE_INT) == 4 && FixedLength(TEST) == 3 && FixedLength(JMP) == 2 && FixedLength(RETURN) == 1
  {}

  lemma FixedPlain(op: Op)
    ensures FixedLength(OpCode(op)) == 1 + Operands(op)
  {}

  lemma LoadFixed(bytes: seq<nat>, pos: nat, st: LoadState, n: nat)
    requires pos + n <= |bytes| && n > 0 && FixedLength(bytes[pos]) == n
    ensures LoadStep(bytes, pos, st) == Some((st.(code := st.code + bytes[pos..pos + n]), pos + n))
  {
    hide CString, Id, Intern, FixedLength;
  }

  /** The instructions whose last fixed byte counts the operands behind it. */
  lemma LoadCounted(bytes: seq<nat>, pos: nat, st: LoadState, fixed: nat)
    requires pos + fixed <= |bytes| && fixed >= 1 && pos + fixed + bytes[pos + fixed - 1] <= |bytes|
    requires if bytes[pos] == TUPLE || bytes[pos] == LIST then fixed == 3
             else if bytes[pos] == CALL_LOCAL then fixed == 4 else bytes[pos] == ANON_FN && fixed == 5
    ensures var n := fixed + bytes[pos + fixed - 1];
            LoadStep(bytes, pos, st) == Some((st.(code := st.code + bytes[pos..pos + n]), pos + n))
  {
    hide CString, Id, Intern;
  }

  /** Loading an emitted instruction. */
  lemma LoadEmitted(i: Instr, bytes: seq<nat>, pos: nat, st: LoadState)
    requires InstrOk(i) && PoolsFit(Interned(i, st))
    requires pos + |Emit(i)| <= |bytes| && bytes[pos..pos + |Emit(i)|] == Emit(i)
    ensures |Emit(i)| > 0 && pos < |bytes|
    ensures var st' := Interned(i, st);
            LoadStep(bytes, pos, st)
            == Some((st'.(code := st.code + LoadedBytes(i, st'.names, st'.strings)), pos + |Emit(i)|))
  {
    hide LoadStep, Counted, FullName, RefBytes, OpCode, RefByte, Id, Intern;
    if Copied(i) {
      LoadEmittedCopy(i, bytes, pos, st);
    } else {
      match i
      case LoadString(to, text) => LoadEmittedString(to, text, bytes, pos, st);
      case Capture(to, name, arity) => LoadEmittedCapture(to, name, arity, bytes, pos, st);
      case Call(to, name, arity, regs) =>
        LoadEmittedCall(to, name, arity, regs, bytes, pos, st);
        assert |Emit(i)| == 2 + |Counted(FullName(name, arity))| + 1 + |regs|;
        var st' := Interned(i, st);
        assert LoadedBytes(i, st'.names, st'.strings)
            == [CALL, RefByte(to), Id(st'.names, FullName(name, arity)), arity] + RefBytes(regs);
    }
  }

  lemma LoadEmittedString(to: VarRef, text: Name, bytes: seq<nat>, pos: nat, st: LoadState)
    requires InstrOk(LoadString(to, text)) && PoolsFit(Interned(LoadString(to, text), st))
    requires var e := Emit(LoadString(to, text)); pos + |e| <= |bytes| && bytes[pos..pos + |e|] == e
    ensures pos < |bytes|
    ensures var st' := Interned(LoadString(to, text), st);
            LoadStep(bytes, pos, st)
            == Some((st'.(code := st.code + [LOAD_STRING, RefByte(to), Id(st'.strings, text)]),
                     pos + 2 + |Counted(text)|))
  {
    hide CString, Id, Intern, RefByte, FullName;
    var e, c := Emit(LoadString(to, text)), Counted(text);
    SliceOfSlice(bytes, pos, pos + |e|, 2, 2 + |c|);
    assert e[2..2 + |c|] == c;
    CountedAt(bytes, pos + 2, text);
    SliceAt(bytes, pos, pos + |e|, 0);
    SliceAt(bytes, pos, pos + |e|, 1);
    assert bytes[pos] == e[0] && bytes[pos + 1] == e[1];
    IdIsPosition(Intern(st.strings, text), text);
  }

  lemma LoadEmittedCapture(to: VarRef, name: Name, arity: nat, bytes: seq<nat>, pos: nat, st: LoadState)
    requires InstrOk(Capture(to, name, arity))
    requires var e := Emit(Capture(to, name, arity)); pos + |e| <= |bytes| && bytes[pos..pos + |e|] == e
    ensures pos < |bytes|
    ensures var full := FullName(name, arity);
            var st' := Interned(Capture(to, name, arity), st);
            LoadStep(bytes, pos, st)
            == Some((st'.(code := st.code + [CAPTURE, RefByte(to), Id(st'.names, full) % 256]),
                     pos + 2 + |Counted(full)|))
  {
    hide CString, Id, Intern, RefByte, FullName;
    var e, full := Emit(Capture(to, name, arity)), FullName(name, arity);
    var c := Counted(full);
    SliceOfSlice(bytes, pos, pos + |e|, 2, 2 + |c|);
    assert e[2..2 + |c|] == c;
    CountedAt(bytes, pos + 2, full);
    SliceAt(bytes, pos, pos + |e|, 0);
    SliceAt(bytes, pos, pos + |e|, 1);
    assert bytes[pos] == e[0] && bytes[pos + 1] == e[1];
  }

  lemma LoadEmittedCall(to: VarRef, name: Name, arity: nat, regs: seq<VarRef>, bytes: seq<nat>, pos: nat, st: LoadState)
    requires InstrOk(Call(to, name, arity, regs)) && PoolsFit(Interned(Call(to, name, arity, regs), st))
    requires var e := Emit(Call(to, name, arity, regs)); pos + |e| <= |bytes| && bytes[pos..pos + |e|] == e
    ensures pos < |bytes|
    ensures var full := FullName(name, arity);
            var st' := Interned(Call(to, name, arity, regs), st);
            LoadStep(bytes, pos, st)
            == Some((st'.(code := st.code + ([CALL, RefByte(to), Id(st'.names, full), arity] + RefBytes(regs))),
                     pos + 2 + |Counted(full)| + 1 + |regs|))
  {
    hide FullName, RefBytes, RefByte, CString, Id, Counted;
    var e, full := Emit(Call(to, name, arity, regs)), FullName(name, arity);
    var c := Counted(full);
    CallLayout(RefByte(to), c, arity, RefBytes(regs), bytes, pos);
    CountedAt(bytes, pos + 2, full);
    IdIsPosition(Intern(st.names, full), full);
    assert (st.code + [CALL, RefByte(to), Id(Intern(st.names, full), full), arity]) + RefBytes(regs)
        == st.code + ([CALL, RefByte(to), Id(Intern(st.names, full), full), arity] + RefBytes(regs));
    assert |c| == |full| + 2 by { LengthOfCounted(full); }
  }

  lemma LengthOfCounted(text: Name)
    ensures |Counted(text)| == |text| + 2
  {}

  /** Where the parts of an emitted call are. */
  lemma CallLayout(to: nat, c: seq<nat>, arity: nat, args: seq<nat>, bytes: seq<nat>, pos: nat)
    requires var e := [CALL, to] + c + [arity] + args; pos + |e| <= |bytes| && bytes[pos..pos + |e|] == e
    ensures bytes[pos] == CALL && bytes[pos + 1] == to
    ensures bytes[pos + 2..pos + 2 + |c|] == c
    ensures bytes[pos + 2 + |c|] == arity
    ensures bytes[pos + 3 + |c|..pos + 3 + |c| + |args|] == args
  {
    var e := [CALL, to] + c + [arity] + args;
    assert bytes[pos] == e[0] && bytes[pos + 1] == e[1];
    assert e[2..2 + |c|] == c;
    SliceOfSlice(bytes, pos, pos + |e|, 2, 2 + |c|);
    assert bytes[pos + 2 + |c|] == e[2 + |c|];
    assert bytes[pos + 3 + |c|..pos + 3 + |c| + |args|] == e[3 + |c|..] == args;
  }

  // ---------- a whole module ----------

  function NamesAfterAll(code: seq<Instr>, names: seq<Name>): seq<Name> {
    if code == [] then names else NamesAfterAll(code[1..], NamesAfter(code[0], names))
  }

  function StringsAfterAll(code: seq<Instr>, strings: seq<Name>): seq<Name> {
    if code == [] then strings else StringsAfterAll(code[1..], StringsAfter(code[0], strings))
  }

  function ModuleNames(fs: seq<Fun>, names: seq<Name>): seq<Name> {
    if fs == [] then names
    else ModuleNames(fs[1..], NamesAfterAll(fs[0].code, Intern(names, Full(fs[0]))))
  }

  function ModuleStrings(fs: seq<Fun>, strings: seq<Name>): seq<Name> {
    if fs == [] then strings else ModuleStrings(fs[1..], StringsAfterAll(fs[0].code, strings))
  }

  function ModuleCode(fs: seq<Fun>, names: seq<Name>, strings: seq<Name>): seq<nat> {
    if fs == [] then [] else LoadedAll(fs[0].code, names, strings) + ModuleCode(fs[1..], names, strings)
  }

  /** The function table after loading a module at code position `start`. */
  function ModuleTable(fs: seq<Fun>, names: seq<Name>, strings: seq<Name>, start: nat,
      table: map<nat, nat>): map<nat, nat>
  {
    if fs == [] then table
    else ModuleTable(fs[1..], names, strings, start + |LoadedAll(fs[0].code, names, strings)|,
                     table[Id(names, Full(fs[0])) := start])
  }

  predicate FunOk(f: Fun) {
    NameOk(Full(f)) && CodeOk(f.code)
  }

  predicate ModuleOk(fs: seq<Fun>) {
    forall k :: 0 <= k < |fs| ==> FunOk(fs[k])
  }

  /** Pools as they are kept: without repetition, and within a byte. */
  ghost predicate PoolOk(pool: seq<Name>) {
    Distinct(pool) && |pool| < 255
  }

  lemma InternExtends(pool: seq<Name>, name: Name)
    ensures Extends(pool, Intern(pool, name))
    ensures Distinct(pool) ==> Distinct(Intern(pool, name))
  {}

  lemma ExtendsTrans(a: seq<Name>, b: seq<Name>, c: seq<Name>)
    requires Extends(a, b) && Extends(b, c)
    ensures Extends(a, c)
  {
    assert c[..|a|] == c[..|b|][..|a|];
  }

  lemma StepExtends(i: Instr, names: seq<Name>, strings: seq<Name>)
    ensures Extends(names, NamesAfter(i, names)) && Extends(strings, StringsAfter(i, strings))
    ensures Distinct(names) ==> Distinct(NamesAfter(i, names))
    ensures Distinct(strings) ==> Distinct(StringsAfter(i, strings))
  {}

  lemma {:induction false} CodeExtends(code: seq<Instr>, names: seq<Name>, strings: seq<Name>)
    ensures Extends(names, NamesAfterAll(code, names)) && Extends(strings, StringsAfterAll(code, strings))
    ensures Distinct(names) ==> Distinct(NamesAfterAll(code, names))
    ensures Distinct(strings) ==> Distinct(StringsAfterAll(code, strings))
  {
    if code != [] {
      var n, s := NamesAfter(code[0], names), StringsAfter(code[0], strings);
      StepExtends(code[0], names, strings);
      CodeExtends(code[1..], n, s);
      ExtendsTrans(names, n, NamesAfterAll(code, names));
      ExtendsTrans(strings, s, StringsAfterAll(code, strings));
    }
  }

  /** Pools only ever grow: loading a module keeps every id given before. */
  lemma {:induction false} ModuleExtends(fs: seq<Fun>, names: seq<Name>, strings: seq<Name>)
    ensures Extends(names, ModuleNames(fs, names)) && Extends(strings, ModuleStrings(fs, strings))
    ensures Distinct(names) ==> Distinct(ModuleNames(fs, names))
    ensures Distinct(strings) ==> Distinct(ModuleStrings(fs, strings))
  {
    if fs != [] {
      var n0 := Intern(names, Full(fs[0]));
      var n, s := NamesAfterAll(fs[0].code, n0), StringsAfterAll(fs[0].code, strings);
      InternExtends(names, Full(fs[0]));
      CodeExtends(fs[0].code, n0, strings);
      ModuleExtends(fs[1..], n, s);
      ExtendsTrans(n0, n, ModuleNames(fs, names));
      ExtendsTrans(names, n0, ModuleNames(fs, names));
      ExtendsTrans(strings, s, ModuleStrings(fs, strings));
    }
  }

  /** An instruction loaded early has the ids of the final pools. */
  lemma LoadedUnderFinalPools(i: Instr, names: seq<Name>, strings: seq<Name>, finalNames: seq<Name>,
      finalStrings: seq<Name>)
    requires Extends(NamesAfter(i, names), finalNames) && Distinct(finalNames)
    requires Extends(StringsAfter(i, strings), finalStrings) && Distinct(finalStrings)
    ensures LoadedBytes(i, NamesAfter(i, names), StringsAfter(i, strings)) == LoadedBytes(i, finalNames, finalStrings)
  {
    hide Id, FullName, Extends, Distinct, RefBytes;
    match i
    case Capture(_, name, arity) => ExtendsKeepsIds(NamesAfter(i, names), finalNames, FullName(name, arity));
    case Call(_, name, arity, _) => ExtendsKeepsIds(NamesAfter(i, names), finalNames, FullName(name, arity));
    case LoadString(_, text) => ExtendsKeepsIds(StringsAfter(i, strings), finalStrings, text);
    case _ =>
  }

  /** Loading the emitted code of a function. */
  lemma {:induction false} LoadEmittedCode(code: seq<Instr>, bytes: seq<nat>, pos: nat, st: LoadState,
      names: seq<Name>, strings: seq<Name>)
    requires CodeOk(code) && PoolOk(names) && PoolOk(strings)
    requires Extends(NamesAfterAll(code, st.names), names) && Extends(StringsAfterAll(code, st.strings), strings)
    requires pos + |EmitAll(code)| <= |bytes| && bytes[pos..pos + |EmitAll(code)|] == EmitAll(code)
    ensures LoadFrom(bytes, pos, st)
         == LoadFrom(bytes, pos + |EmitAll(code)|,
                     LoadState(st.code + LoadedAll(code, names, strings), NamesAfterAll(code, st.names),
                               StringsAfterAll(code, st.strings), st.functions))
  {
    hide Emit, LoadedBytes, NamesAfter, StringsAfter, Extends, Distinct, InstrOk, LoadStep;
    if code == [] {
      assert st.code + [] == st.code;
    } else {
      var i, e, rest := code[0], Emit(code[0]), EmitAll(code[1..]);
      var st' := Interned(i, st);
      CodeExtends(code[1..], st'.names, st'.strings);
      ExtendsTrans(st'.names, NamesAfterAll(code, st.names), names);
      ExtendsTrans(st'.strings, StringsAfterAll(code, st.strings), strings);
      PoolsFitFrom(st', names, strings);
      SliceOfSlice(bytes, pos, pos + |e| + |rest|, 0, |e|);
      SliceOfSlice(bytes, pos, pos + |e| + |rest|, |e|, |e| + |rest|);
      assert (e + rest)[0..|e|] == e && (e + rest)[|e|..|e| + |rest|] == rest;
      LoadEmitted(i, bytes, pos, st);
      LoadedUnderFinalPools(i, st.names, st.strings, names, strings);
      var next := st'.(code := st.code + LoadedBytes(i, names, strings));
      LoadEmittedCode(code[1..], bytes, pos + |e|, next, names, strings);
      assert st.code + LoadedBytes(i, names, strings) + LoadedAll(code[1..], names, strings)
          == st.code + LoadedAll(code, names, strings);
    }
  }

  lemma PoolsFitFrom(st: LoadState, names: seq<Name>, strings: seq<Name>)
    requires Extends(st.names, names) && Extends(st.strings, strings) && PoolOk(names) && PoolOk(strings)
    ensures PoolsFit(st)
  {}

  /** Loading a function header: its table entry is where its code will start. */
  lemma LoadEmittedHeader(f: Fun, bytes: seq<nat>, pos: nat, st: LoadState)
    requires NameOk(Full(f)) && |Intern(st.names, Full(f))| < 255
    requires var h := [PUB_FN] + Counted(Full(f)); pos + |h| <= |bytes| && bytes[pos..pos + |h|] == h
    ensures pos < |bytes|
    ensures var names := Intern(st.names, Full(f));
            LoadStep(bytes, pos, st)
            == Some((st.(names := names, functions := st.functions[Id(names, Full(f)) := |st.code|]),
                     pos + 1 + |Counted(Full(f))|))
  {
    hide CString, Id, FullName, Intern;
    var h, c := [PUB_FN] + Counted(Full(f)), Counted(Full(f));
    SliceOfSlice(bytes, pos, pos + |h|, 1, |h|);
    assert h[1..|h|] == c;
    CountedAt(bytes, pos + 1, Full(f));
    assert bytes[pos] == bytes[pos..pos + |h|][0] == h[0];
    IdIsPosition(Intern(st.names, Full(f)), Full(f));
  }

  /** Loading one emitted function. */
  lemma LoadEmittedFun(f: Fun, bytes: seq<nat>, pos: nat, st: LoadState, names: seq<Name>, strings: seq<Name>)
    requires FunOk(f) && PoolOk(names) && PoolOk(strings)
    requires Extends(NamesAfterAll(f.code, Intern(st.names, Full(f))), names)
    requires Extends(StringsAfterAll(f.code, st.strings), strings)
    requires var e := FunctionBytes(f.name, f.arity, f.code); pos + |e| <= |bytes| && bytes[pos..pos + |e|] == e
    ensures LoadFrom(bytes, pos, st)
         == LoadFrom(bytes, pos + |FunctionBytes(f.name, f.arity, f.code)|,
                     LoadState(st.code + LoadedAll(f.code, names, strings),
                               NamesAfterAll(f.code, Intern(st.names, Full(f))),
                               StringsAfterAll(f.code, st.strings),
                               st.functions[Id(names, Full(f)) := |st.code|]))
  {
    hide Counted, FullName, Extends, Distinct, LoadStep, LoadedAll, EmitAll, NamesAfterAll, StringsAfterAll, CodeOk;
    var h, e := [PUB_FN] + Counted(Full(f)), EmitAll(f.code);
    var n0 := Intern(st.names, Full(f));
    CodeExtends(f.code, n0, st.strings);
    ExtendsTrans(n0, NamesAfterAll(f.code, n0), names);
    assert h + e == FunctionBytes(f.name, f.arity, f.code);
    SliceOfSlice(bytes, pos, pos + |h| + |e|, 0, |h|);
    SliceOfSlice(bytes, pos, pos + |h| + |e|, |h|, |h| + |e|);
    assert (h + e)[0..|h|] == h && (h + e)[|h|..|h| + |e|] == e;
    PrefixFits(n0, names);
    LoadEmittedHeader(f, bytes, pos, st);
    ExtendsKeepsIds(n0, names, Full(f));
    var st1 := st.(names := n0, functions := st.functions[Id(n0, Full(f)) := |st.code|]);
    LoadEmittedCode(f.code, bytes, pos + |h|, st1, names, strings);
  }

  /** Loading an emitted module: the code of its functions in order with every
      name replaced by its id, and a table entry for each. */
  lemma {:induction false} LoadEmittedModule(fs: seq<Fun>, bytes: seq<nat>, pos: nat, st: LoadState, names: seq<Name>,
      strings: seq<Name>)
    requires ModuleOk(fs) && PoolOk(names) && PoolOk(strings)
    requires Extends(ModuleNames(fs, st.names), names) && Extends(ModuleStrings(fs, st.strings), strings)
    requires pos + |ModuleBytes(fs)| <= |bytes| && bytes[pos..pos + |ModuleBytes(fs)|] == ModuleBytes(fs)
    ensures LoadFrom(bytes, pos, st)
         == LoadFrom(bytes, pos + |ModuleBytes(fs)|,
                     LoadState(st.code + ModuleCode(fs, names, strings), ModuleNames(fs, st.names),
                               ModuleStrings(fs, st.strings),
                               ModuleTable(fs, names, strings, |st.code|, st.functions)))
  {
    hide FunctionBytes, Full, Extends, Distinct, LoadFrom, LoadedAll, NamesAfterAll, StringsAfterAll, FunOk;
    if fs == [] {
      assert st.code + [] == st.code;
    } else {
      var f := fs[0];
      var e, rest := FunctionBytes(f.name, f.arity, f.code), ModuleBytes(fs[1..]);
      var n1, s1 := NamesAfterAll(f.code, Intern(st.names, Full(f))), StringsAfterAll(f.code, st.strings);
      ModuleExtends(fs[1..], n1, s1);
      ExtendsTrans(n1, ModuleNames(fs, st.names), names);
      ExtendsTrans(s1, ModuleStrings(fs, st.strings), strings);
      SliceOfSlice(bytes, pos, pos + |e + rest|, 0, |e|);
      SliceOfSlice(bytes, pos, pos + |e + rest|, |e|, |e + rest|);
      assert (e + rest)[0..|e|] == e && (e + rest)[|e|..|e + rest|] == rest;
      LoadEmittedFun(f, bytes, pos, st, names, strings);
      var loaded := LoadedAll(f.code, names, strings);
      var st2 := LoadState(st.code + loaded, n1, s1, st.functions[Id(names, Full(f)) := |st.code|]);
      LoadEmittedModule(fs[1..], bytes, pos + |e|, st2, names, strings);
      assert st.code + loaded + ModuleCode(fs[1..], names, strings) == st.code + ModuleCode(fs, names, strings);
    }
  }

  lemma PrefixFits(pool: seq<Name>, more: seq<Name>)
    requires Extends(pool, more) && PoolOk(more)
    ensures |pool| < 255
  {}

  // ---------- what a loaded module provides ----------

  ghost predicate HoldsAt(code: seq<nat>, at: nat, piece: seq<nat>) {
    at + |piece| <= |code| && code[at..at + |piece|] == piece
  }

  lemma HoldsParts(code: seq<nat>, at: nat, a: seq<nat>, b: seq<nat>)
    requires HoldsAt(code, at, a + b)
    ensures HoldsAt(code, at, a) && HoldsAt(code, at + |a|, b)
  {
    SliceOfSlice(code, at, at + |a + b|, 0, |a|);
    SliceOfSlice(code, at, at + |a + b|, |a|, |a + b|);
    assert (a + b)[0..|a|] == a && (a + b)[|a|..|a + b|] == b;
  }

  lemma IdInjective(pool: seq<Name>, a: Name, b: Name)
    requires a in pool && b in pool && Id(pool, a) == Id(pool, b)
    ensures a == b
  {
    IdIsPosition(pool, a);
    IdIsPosition(pool, b);
  }

  ghost predicate DistinctFuns(fs: seq<Fun>) {
    forall i, j :: 0 <= i < j < |fs| ==> Full(fs[i]) != Full(fs[j])
  }

  lemma InExtends(pool: seq<Name>, more: seq<Name>, name: Name)
    requires Extends(pool, more) && name in pool
    ensures name in more
  {
    var k :| 0 <= k < |pool| && pool[k] == name;
    assert more[k] == more[..|pool|][k];
  }

  /** Every function of the module gets its name into the pool. */
  lemma {:induction false} ModuleNamesHold(fs: seq<Fun>, names: seq<Name>, k: nat)
    requires k < |fs|
    ensures Full(fs[k]) in ModuleNames(fs, names)
  {
    hide Full;
    var n0 := Intern(names, Full(fs[0]));
    var n := NamesAfterAll(fs[0].code, n0);
    if k == 0 {
      CodeExtends(fs[0].code, n0, []);
      ModuleExtends(fs[1..], n, []);
      InExtends(n0, n, Full(fs[0]));
      InExtends(n, ModuleNames(fs, names), Full(fs[0]));
    } else {
      ModuleNamesHold(fs[1..], n, k - 1);
    }
  }

  /** Loading a module does not touch the entries of other functions. */
  lemma {:induction false} ModuleTableKeeps(fs: seq<Fun>, names: seq<Name>, strings: seq<Name>, start: nat,
      table: map<nat, nat>, id: nat)
    requires forall k :: 0 <= k < |fs| ==> Id(names, Full(fs[k])) != id
    ensures var t := ModuleTable(fs, names, strings, start, table);
            (id in t <==> id in table) && (id in t ==> t[id] == table[id])
  {
    if fs != [] {
      assert Id(names, Full(fs[0])) != id;
      ModuleTableKeeps(fs[1..], names, strings, start + |LoadedAll(fs[0].code, names, strings)|,
                       table[Id(names, Full(fs[0])) := start], id);
    }
  }

  /** Each table entry is the position of the function's first instruction. */
  lemma {:induction false} ModuleTableAt(fs: seq<Fun>, names: seq<Name>, strings: seq<Name>, code: seq<nat>,
      start: nat, table: map<nat, nat>, k: nat)
    requires k < |fs| && DistinctFuns(fs) && forall j :: 0 <= j < |fs| ==> Full(fs[j]) in names
    requires HoldsAt(code, start, ModuleCode(fs, names, strings))
    ensures var t := ModuleTable(fs, names, strings, start, table);
            var id := Id(names, Full(fs[k]));
            id in t && HoldsAt(code, t[id], LoadedAll(fs[k].code, names, strings))
  {
    hide Full, LoadedAll, Id, HoldsAt;
    var loaded := LoadedAll(fs[0].code, names, strings);
    HoldsParts(code, start, loaded, ModuleCode(fs[1..], names, strings));
    var next := table[Id(names, Full(fs[0])) := start];
    if k == 0 {
      forall j | 0 <= j < |fs[1..]| ensures Id(names, Full(fs[1..][j])) != Id(names, Full(fs[0])) {
        if Id(names, Full(fs[1..][j])) == Id(names, Full(fs[0])) {
          IdInjective(names, Full(fs[j + 1]), Full(fs[0]));
        }
      }
      ModuleTableKeeps(fs[1..], names, strings, start + |loaded|, next, Id(names, Full(fs[0])));
    } else {
      ModuleTableAt(fs[1..], names, strings, code, start + |loaded|, next, k - 1);
    }
  }

  lemma LoadWhole(fs: seq<Fun>, st: LoadState) returns (r: LoadState)
    requires ModuleOk(fs)
    requires PoolOk(ModuleNames(fs, st.names)) && PoolOk(ModuleStrings(fs, st.strings))
    ensures LoadFrom(ModuleBytes(fs), 0, st) == Some(r)
    ensures r.names == ModuleNames(fs, st.names) && r.strings == ModuleStrings(fs, st.strings)
    ensures r.code == st.code + ModuleCode(fs, r.names, r.strings)
    ensures r.functions == ModuleTable(fs, r.names, r.strings, |st.code|, st.functions)
  {
    hide *;
    var names, strings := ModuleNames(fs, st.names), ModuleStrings(fs, st.strings);
    var bytes := ModuleBytes(fs);
    assert bytes[0..0 + |bytes|] == bytes;
    SelfExtends(names);
    SelfExtends(strings);
    LoadEmittedModule(fs, bytes, 0, st, names, strings);
    r := LoadState(st.code + ModuleCode(fs, names, strings), names, strings,
                   ModuleTable(fs, names, strings, |st.code|, st.functions));
    LoadedToEnd(bytes, r);
  }

  lemma SelfExtends(pool: seq<Name>)
    ensures Extends(pool, pool)
  {}

  lemma LoadedToEnd(bytes: seq<nat>, st: LoadState)
    ensures LoadFrom(bytes, |bytes|, st) == Some(st)
  {}

  /** Emitting a module and loading it: the result, and where each function is. */
  lemma EmitThenLoad(fs: seq<Fun>, st: LoadState) returns (r: LoadState)
    requires ModuleOk(fs) && DistinctFuns(fs)
    requires PoolOk(ModuleNames(fs, st.names)) && PoolOk(ModuleStrings(fs, st.strings))
    ensures LoadFrom(ModuleBytes(fs), 0, st) == Some(r)
    ensures Extends(st.names, r.names) && Extends(st.strings, r.strings) && PoolOk(r.names) && PoolOk(r.strings)
    ensures r.code == st.code + ModuleCode(fs, r.names, r.strings)
    ensures forall k :: 0 <= k < |fs| ==>
              var id := Id(r.names, Full(fs[k]));
              id in r.functions && HoldsAt(r.code, r.functions[id], LoadedAll(fs[k].code, r.names, r.strings))
    ensures forall id :: (forall k :: 0 <= k < |fs| ==> Id(r.names, Full(fs[k])) != id) ==>
              (id in r.functions <==> id in st.functions) && (id in r.functions ==> r.functions[id] == st.functions[id])
  {
    hide HoldsAt, Distinct, Full, Id, ModuleTable, LoadFrom, ModuleBytes, ModuleOk, ModuleNames, ModuleStrings;
    var names, strings := ModuleNames(fs, st.names), ModuleStrings(fs, st.strings);
    var code := ModuleCode(fs, names, strings);
    r := LoadWhole(fs, st);
    ModuleExtends(fs, st.names, st.strings);
    forall j | 0 <= j < |fs| ensures Full(fs[j]) in names { ModuleNamesHold(fs, st.names, j); }
    AtEnd(st.code, code);
    forall k | 0 <= k < |fs|
      ensures var id := Id(r.names, Full(fs[k]));
              id in r.functions && HoldsAt(r.code, r.functions[id], LoadedAll(fs[k].code, r.names, r.strings))
    {
      ModuleTableAt(fs, names, strings, r.code, |st.code|, st.functions, k);
    }
    forall id: nat | forall k :: 0 <= k < |fs| ==> Id(r.names, Full(fs[k])) != id
      ensures (id in r.functions <==> id in st.functions) && (id in r.functions ==> r.functions[id] == st.functions[id])
    {
      ModuleTableKeeps(fs, names, strings, |st.code|, st.functions, id);
    }
  }

  lemma AtEnd(code: seq<nat>, piece: seq<nat>)
    ensures HoldsAt(code + piece, |code|, piece)
  {}

  // ---------- the scanner ----------

  /** owl_load_module as it runs: a scanner over the bytes, appending to the VM's
      code, pools and function table. */
  class ModuleLoader {
    const bytes: seq<nat>
    var index: nat
    var code: seq<nat>
    var names: seq<Name>
    var strings: seq<Name>
    var functions: map<nat, nat>

    constructor (bytes: seq<nat>, st: LoadState)
      ensures this.bytes == bytes && index == 0 && State() == st
    {
      this.bytes := bytes;
      index := 0;
      code, names, strings, functions := st.code, st.names, st.strings, st.functions;
    }

    function State(): LoadState
      reads this
    {
      LoadState(code, names, strings, functions)
    }

    /** Copies the next n bytes to the code. */
    method CopyBytes(n: nat) returns (ok: bool)
      modifies `index, `code
      ensures ok <==> old(index) + n <= |bytes|
      ensures ok ==> index == old(index) + n && code == old(code) + bytes[old(index)..index]
    {
      if index + n > |bytes| { return false; }
      ghost var from := index;
      for k := 0 to n
        invariant index == from + k && code == old(code) + bytes[from..index]
      {
        assert bytes[from..index + 1] == bytes[from..index] + [bytes[index]];
        code := code + [bytes[index]];
        index := index + 1;
      }
      ok := true;
    }

    /** Reads a counted string: its length at `index`, then its bytes. */
    method ReadCounted() returns (ok: bool, text: Name)
      modifies `index
      ensures ok <==> old(index) < |bytes| && old(index) + 1 + bytes[old(index)] <= |bytes|
      ensures ok ==> index == old(index) + 1 + bytes[old(index)] && text == CString(bytes[old(index) + 1..index])
    {
      text := [];
      if index >= |bytes| || index + 1 + bytes[index] > |bytes| { return false, text; }
      var size := bytes[index];
      text := CString(bytes[index + 1..index + 1 + size]);
      index := index + 1 + size;
      ok := true;
    }

    /** One round of the loop. */
    method LoadOne() returns (ok: bool)
      requires index < |bytes|
      modifies `index, `code, `names, `strings, `functions
      ensures LoadStep(bytes, old(index), old(State())) == if ok then Some((State(), index)) else None
    {
      hide Id, Intern, CString;
      var op := bytes[index];
      if FixedLength(op) > 0 {
        ok := CopyBytes(FixedLength(op));
      } else if op == TUPLE || op == LIST {
        if index + 3 > |bytes| { return false; }
        ok := CopyBytes(3 + bytes[index + 2]);
      } else if op == ANON_FN {
        if index + 5 > |bytes| { return false; }
        ok := CopyBytes(5 + bytes[index + 4]);
      } else if op == CALL_LOCAL {
        if index + 4 > |bytes| { return false; }
        ok := CopyBytes(4 + bytes[index + 3]);
      } else if op == CAPTURE {
        ok := LoadCapture();
      } else if op == PUB_FN {
        ok := LoadHeader();
      } else if op == LOAD_STRING {
        ok := LoadText();
      } else if op == CALL {
        ok := LoadCall();
      } else {
        ok := false;
      }
    }

    method LoadCapture() returns (ok: bool)
      requires index < |bytes| && bytes[index] == CAPTURE
      modifies `index, `code, `names
      ensures LoadStep(bytes, old(index), old(State())) == if ok then Some((State(), index)) else None
    {
      hide Id, Intern, CString;
      if index + 3 > |bytes| { return false; }
      var to := bytes[index + 1];
      index := index + 2;
      var name;
      ok, name := ReadCounted();
      if !ok { return; }
      names := Intern(names, name);
      code := code + [CAPTURE, to, Id(names, name) % 256];
    }

    method LoadHeader() returns (ok: bool)
      requires index < |bytes| && bytes[index] == PUB_FN
      modifies `index, `names, `functions
      ensures LoadStep(bytes, old(index), old(State())) == if ok then Some((State(), index)) else None
    {
      hide Id, Intern, CString;
      index := index + 1;
      var name;
      ok, name := ReadCounted();
      if !ok { return; }
      names := Intern(names, name);
      var id := Id(names, name);
      if id >= MAX_FUNCTIONS { return false; }
      functions := functions[id := |code|];
    }

    method LoadText() returns (ok: bool)
      requires index < |bytes| && bytes[index] == LOAD_STRING
      modifies `index, `code, `strings
      ensures LoadStep(bytes, old(index), old(State())) == if ok then Some((State(), index)) else None
    {
      hide Id, Intern, CString;
      if index + 3 > |bytes| { return false; }
      var to := bytes[index + 1];
      index := index + 2;
      var text;
      ok, text := ReadCounted();
      if !ok { return; }
      strings := Intern(strings, text);
      var id := Id(strings, text);
      if id >= 255 { return false; }
      code := code + [LOAD_STRING, to, id];
    }

    method LoadCall() returns (ok: bool)
      requires index < |bytes| && bytes[index] == CALL
      modifies `index, `code, `names
      ensures LoadStep(bytes, old(index), old(State())) == if ok then Some((State(), index)) else None
    {
      hide Id, Intern, CString;
      if index + 3 > |bytes| { return false; }
      var to := bytes[index + 1];
      index := index + 2;
      var name;
      ok, name := ReadCounted();
      if !ok || index >= |bytes| { return false; }
      names := Intern(names, name);
      var id := Id(names, name);
      if id >= MAX_FUNCTIONS { return false; }
      var arity := bytes[index];
      code := code + [CALL, to, id, arity];
      index := index + 1;
      ok := CopyBytes(arity);
    }

    /** The whole loop. */
    method Load() returns (ok: bool)
      requires index == 0
      modifies `index, `code, `names, `strings, `functions
      ensures LoadFrom(bytes, 0, old(State())) == if ok then Some(State()) else None
    {
      hide LoadStep;
      ok := true;
      while ok && index < |bytes|
        invariant LoadFrom(bytes, 0, old(State())) == if ok then LoadFrom(bytes, index, State()) else None
        decreases ok, |bytes| - index
      {
        ghost var from := index;
        ok := LoadOne();
      }
    }
  }
}
