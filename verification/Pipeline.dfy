/**
 The whole way: a module is compiled, its bytes are loaded, and running a function
 gives the value the source has.
 */
module Pipeline {
  import opened Seqs
  import opened Ast
  import opened Bytecode
  import opened Loader
  import opened Decode
  import opened Vm
  import opened Codegen
  import opened Scopes
  import opened Semantics
  import opened Relation
  import opened Fragment
  import opened Frames
  import opened Simulation

  // ---------- loading puts every reference into the pools ----------

  lemma KnownExtends(i: Instr, names: seq<Name>, strings: seq<Name>, more: seq<Name>, moreStrings: seq<Name>)
    requires Known(i, names, strings) && Extends(names, more) && Extends(strings, moreStrings)
    ensures Known(i, more, moreStrings)
  {
    hide Extends, FullName;
    match i
    case Capture(_, name, arity) => InExtends(names, more, FullName(name, arity));
    case Call(_, name, arity, _) => InExtends(names, more, FullName(name, arity));
    case LoadString(_, text) => InExtends(strings, moreStrings, text);
    case _ =>
  }

  lemma KnownAfterOne(i: Instr, names: seq<Name>, strings: seq<Name>)
    ensures Known(i, NamesAfter(i, names), StringsAfter(i, strings))
  {}

  lemma {:induction false} KnownAfterAll(code: seq<Instr>, names: seq<Name>, strings: seq<Name>, k: nat)
    requires k < |code|
    ensures Known(code[k], NamesAfterAll(code, names), StringsAfterAll(code, strings))
    decreases code
  {
    hide Known, NamesAfter, StringsAfter;
    var n, s := NamesAfter(code[0], names), StringsAfter(code[0], strings);
    CodeExtends(code[1..], n, s);
    if k == 0 {
      KnownAfterOne(code[0], names, strings);
      KnownExtends(code[0], n, s, NamesAfterAll(code, names), StringsAfterAll(code, strings));
    } else {
      KnownAfterAll(code[1..], n, s, k - 1);
    }
  }

  lemma {:induction false} KnownInModule(fs: seq<Fun>, names: seq<Name>, strings: seq<Name>, i: nat, k: nat)
    requires i < |fs| && k < |fs[i].code|
    ensures Known(fs[i].code[k], ModuleNames(fs, names), ModuleStrings(fs, strings))
    decreases fs
  {
    hide Known, Full, NamesAfterAll, StringsAfterAll;
    var n0 := Intern(names, Full(fs[0]));
    var n, s := NamesAfterAll(fs[0].code, n0), StringsAfterAll(fs[0].code, strings);
    ModuleExtends(fs[1..], n, s);
    if i == 0 {
      KnownAfterAll(fs[0].code, n0, strings, k);
      KnownExtends(fs[0].code[k], n, s, ModuleNames(fs, names), ModuleStrings(fs, strings));
    } else {
      KnownInModule(fs[1..], n, s, i - 1, k);
    }
  }

  // ---------- a module as a program ----------

  function FullOfDef(mod: string, f: FunDef): Name {
    FullName(QualifiedName(mod, f.name), |f.params|)
  }

  /** The functions of a module under their full names. */
  function DefsOf(mod: string, fs: seq<FunDef>): map<Name, (string, FunDef)> {
    if fs == [] then map[] else DefsOf(mod, fs[1..])[FullOfDef(mod, fs[0]) := (mod, fs[0])]
  }

  datatype Module = Module(name: string, funs: seq<FunDef>)

  /** The functions of several modules. */
  function AllDefs(mods: seq<Module>): map<Name, (string, FunDef)> {
    if mods == [] then map[]
    else
      var n := |mods| - 1;
      AllDefs(mods[..n]) + DefsOf(mods[n].name, mods[n].funs)
  }

  function ProgramOf(mods: seq<Module>, checked: bool): Program {
    Program(AllDefs(mods), checked)
  }

  lemma {:induction false} ProgramEntry(mod: string, fs: seq<FunDef>, full: Name) returns (k: nat)
    requires full in DefsOf(mod, fs)
    ensures k < |fs| && full == FullOfDef(mod, fs[k]) && DefsOf(mod, fs)[full] == (mod, fs[k])
    decreases fs
  {
    if full == FullOfDef(mod, fs[0]) {
      k := 0;
    } else {
      k := ProgramEntry(mod, fs[1..], full);
      k := k + 1;
    }
  }

  lemma {:induction false} GeneratedAt(mod: string, fs: seq<FunDef>, k: nat)
    requires k < |fs| && GenModule(mod, fs).Some?
    ensures |GenModule(mod, fs).value| == |fs|
    ensures GenFunction(fs[k], mod) == Some(GenModule(mod, fs).value[k])
    decreases fs
  {
    hide GenFunction;
    if k > 0 { GeneratedAt(mod, fs[1..], k - 1); }
    else if |fs| > 1 { GeneratedAt(mod, fs[1..], 0); }
  }

  /** Every function of the module lies in the fragment. */
  ghost predicate InFragment(fs: seq<FunDef>, globals: set<string>) {
    forall k :: 0 <= k < |fs| ==>
      (forall x :: x in fs[k].params ==> x !in globals)
      && BlockOk(fs[k].body, Entry({}, fs[k].params, globals, false), true)
  }

  // ---------- several modules ----------

  /** A module compiles and fits the byte format. */
  ghost predicate Generated(m: Module) {
    && GenModule(m.name, m.funs).Some?
    && ModuleOk(GenModule(m.name, m.funs).value) && DistinctFuns(GenModule(m.name, m.funs).value)
  }

  /** The pools after loading. */
  function NamesOf(mods: seq<Module>): seq<Name> {
    if mods == [] then []
    else
      var n := |mods| - 1;
      var funs := GenModule(mods[n].name, mods[n].funs);
      if funs.None? then NamesOf(mods[..n]) else ModuleNames(funs.value, NamesOf(mods[..n]))
  }

  function StringsOf(mods: seq<Module>): seq<Name> {
    if mods == [] then []
    else
      var n := |mods| - 1;
      var funs := GenModule(mods[n].name, mods[n].funs);
      if funs.None? then StringsOf(mods[..n]) else ModuleStrings(funs.value, StringsOf(mods[..n]))
  }

  /** Modules of the fragment with different names that compile and fit the pools
      together. */
  ghost predicate Loadable(mods: seq<Module>, globals: set<string>) {
    && (forall i :: 0 <= i < |mods| ==> Generated(mods[i]) && InFragment(mods[i].funs, globals) && '.' !in mods[i].name)
    && (forall i, j :: 0 <= i < j < |mods| ==> mods[i].name != mods[j].name)
    && PoolOk(NamesOf(mods)) && PoolOk(StringsOf(mods))
  }

  const NOTHING_LOADED: LoadState := LoadState([], [], [], map[])

  /** The modules emitted and loaded one after the other. */
  function LoadAll(mods: seq<Module>): Option<LoadState> {
    if mods == [] then Some(NOTHING_LOADED)
    else
      var n := |mods| - 1;
      var funs, st := GenModule(mods[n].name, mods[n].funs), LoadAll(mods[..n]);
      if funs.None? || st.None? then None else LoadFrom(ModuleBytes(funs.value), 0, st.value)
  }

  function WorldOf(r: LoadState, mods: seq<Module>, globals: set<string>, checked: bool): World {
    World(Machine(r.code, r.strings, r.functions, checked), r.names, ProgramOf(mods, checked), globals)
  }

  /** Compiling and loading modules gives a machine that holds the program. */
  lemma {:induction false} CompileAndLoad(mods: seq<Module>, globals: set<string>, checked: bool)
      returns (r: LoadState)
    requires Loadable(mods, globals)
    ensures LoadAll(mods) == Some(r) && r.names == NamesOf(mods) && r.strings == StringsOf(mods)
    ensures Holding(WorldOf(r, mods, globals, checked))
    decreases |mods|
  {
    hide GenModule, ModuleBytes, LoadFrom, InFragment, Holding, ModuleOk, PoolOk, ModuleNames, ModuleStrings,
        DistinctFuns;
    if mods == [] {
      r := NOTHING_LOADED;
      NothingHeld(globals, checked);
    } else {
      var n := |mods| - 1;
      var m, front := mods[n], mods[..n];
      var funs := GenModule(m.name, m.funs).value;
      PoolsGrow(funs, NamesOf(front), StringsOf(front));
      var st := CompileAndLoad(front, globals, checked);
      r := EmitThenLoad(funs, st);
      var whole := LoadWhole(funs, st);
      HoldingLoaded(mods, globals, checked, st, r);
    }
  }

  lemma NothingHeld(globals: set<string>, checked: bool)
    ensures Holding(WorldOf(NOTHING_LOADED, [], globals, checked))
  {}

  /** A single module. */
  lemma OneModule(m: Module, globals: set<string>)
    requires Generated(m) && InFragment(m.funs, globals) && '.' !in m.name
    requires PoolOk(ModuleNames(GenModule(m.name, m.funs).value, []))
    requires PoolOk(ModuleStrings(GenModule(m.name, m.funs).value, []))
    ensures Loadable([m], globals) && AllDefs([m]) == DefsOf(m.name, m.funs)
  {
    hide GenModule, ModuleNames, ModuleStrings, DefsOf;
    assert [m][..0] == [] && [m][0] == m;
    assert NamesOf([]) == [] && StringsOf([]) == [] && AllDefs([]) == map[];
    assert map[] + DefsOf(m.name, m.funs) == DefsOf(m.name, m.funs);
  }

  /** Pools that fit fitted before. */
  lemma PoolsGrow(funs: seq<Fun>, names: seq<Name>, strings: seq<Name>)
    requires PoolOk(ModuleNames(funs, names)) && PoolOk(ModuleStrings(funs, strings))
    ensures PoolOk(names) && PoolOk(strings)
  {
    ModuleExtends(funs, names, strings);
    PoolShrinks(names, ModuleNames(funs, names));
    PoolShrinks(strings, ModuleStrings(funs, strings));
  }

  lemma PoolShrinks(pool: seq<Name>, more: seq<Name>)
    requires Extends(pool, more) && PoolOk(more)
    ensures PoolOk(pool)
  {
    forall i, j | 0 <= i < j < |pool| ensures pool[i] != pool[j] {
      assert pool[i] == more[i] && pool[j] == more[j];
    }
  }

  /** One more module. */
  lemma HoldingLoaded(mods: seq<Module>, globals: set<string>, checked: bool, st: LoadState, r: LoadState)
    requires mods != [] && Loadable(mods, globals)
    requires st.names == NamesOf(mods[..|mods| - 1]) && st.strings == StringsOf(mods[..|mods| - 1])
    requires Holding(WorldOf(st, mods[..|mods| - 1], globals, checked))
    requires Extends(st.names, r.names) && Extends(st.strings, r.strings) && st.code <= r.code
    requires r.names == NamesOf(mods) && r.strings == StringsOf(mods)
    requires var m := mods[|mods| - 1];
             var funs := GenModule(m.name, m.funs).value;
             && (forall k :: 0 <= k < |funs| ==>
                   var id := Id(r.names, Full(funs[k]));
                   id in r.functions && HoldsAt(r.code, r.functions[id], LoadedAll(funs[k].code, r.names, r.strings)))
             && (forall id :: (forall k :: 0 <= k < |funs| ==> Id(r.names, Full(funs[k])) != id) ==>
                   (id in r.functions <==> id in st.functions)
                   && (id in r.functions ==> r.functions[id] == st.functions[id]))
    ensures Holding(WorldOf(r, mods, globals, checked))
  {
    hide GenModule, InFragment, FunctionAt, PoolOk, ModuleNames, ModuleStrings, FullOfDef, Id, Full, LoadedAll, HoldsAt,
        DefsOf, ModuleOk, DistinctFuns, Extends;
    var n := |mods| - 1;
    var m, front := mods[n], mods[..n];
    var w, w0 := WorldOf(r, mods, globals, checked), WorldOf(st, front, globals, checked);
    var funs := GenModule(m.name, m.funs).value;
    forall j | 0 <= j < |funs| ensures Full(funs[j]) in r.names { ModuleNamesHold(funs, st.names, j); }
    forall full | full in w.p.defs ensures FunctionAt(w, full) {
      if full in DefsOf(m.name, m.funs) {
        var k := ProgramEntry(m.name, m.funs, full);
        FunctionLoaded(m, globals, k, st, w);
      } else {
        assert FunctionAt(w0, full);
        var i, k := SomeEntry(front, full);
        OtherNames(mods, i, k);
        FunctionStays(w0, w, full, funs);
      }
    }
  }

  /** Where a function of the program comes from. */
  lemma {:induction false} SomeEntry(mods: seq<Module>, full: Name) returns (i: nat, k: nat)
    requires full in AllDefs(mods)
    ensures i < |mods| && k < |mods[i].funs| && full == FullOfDef(mods[i].name, mods[i].funs[k])
    ensures AllDefs(mods)[full] == (mods[i].name, mods[i].funs[k])
    decreases |mods|
  {
    hide DefsOf, FullOfDef;
    var n := |mods| - 1;
    if full in DefsOf(mods[n].name, mods[n].funs) {
      i := n;
      k := ProgramEntry(mods[n].name, mods[n].funs, full);
    } else {
      i, k := SomeEntry(mods[..n], full);
    }
  }

  /** No function of the last module has the name of one of another module. */
  lemma OtherNames(mods: seq<Module>, i: nat, k: nat)
    requires i < |mods| - 1 && k < |mods[i].funs| && Generated(mods[|mods| - 1])
    requires '.' !in mods[i].name && '.' !in mods[|mods| - 1].name && mods[i].name != mods[|mods| - 1].name
    ensures var m := mods[|mods| - 1];
            forall j :: 0 <= j < |GenModule(m.name, m.funs).value| ==>
              Full(GenModule(m.name, m.funs).value[j]) != FullOfDef(mods[i].name, mods[i].funs[k])
  {
    hide GenModule, FullName, QualifiedName;
    var m, g := mods[|mods| - 1], mods[i].funs[k];
    var funs := GenModule(m.name, m.funs).value;
    forall j | 0 <= j < |funs| ensures Full(funs[j]) != FullOfDef(mods[i].name, g) {
      if m.funs == [] { NoFunctions(m.name); } else { GeneratedAt(m.name, m.funs, 0); }
      GeneratedAt(m.name, m.funs, j);
      DifferentModules(m.name, m.funs[j], mods[i].name, g);
    }
  }

  lemma NoFunctions(mod: string)
    ensures GenModule(mod, []) == Some([])
  {}

  /** Functions of different modules have different full names. */
  lemma DifferentModules(mod: string, f: FunDef, mod': string, g: FunDef)
    requires '.' !in mod && '.' !in mod' && mod != mod'
    ensures FullOfDef(mod, f) != FullOfDef(mod', g)
  {
    hide FullName, QualifiedName;
    if FullOfDef(mod, f) == FullOfDef(mod', g) {
      FullNameInjective(QualifiedName(mod, f.name), |f.params|, QualifiedName(mod', g.name), |g.params|);
      QualifiedNameInjective(mod, f.name, mod', g.name);
      assert false;
    }
  }

  /** A function that was there is still there, behind the same entry. */
  lemma FunctionStays(w0: World, w: World, full: Name, funs: seq<Fun>)
    requires full in w0.p.defs && full in w.p.defs && w0.p.defs[full] == w.p.defs[full] && FunctionAt(w0, full)
    requires Extends(w0.names, w.names) && Extends(w0.m.strings, w.m.strings) && w0.m.code <= w.m.code
    requires PoolOk(w.names) && PoolOk(w.m.strings) && w0.globals == w.globals
    requires forall j :: 0 <= j < |funs| ==> Full(funs[j]) in w.names && Full(funs[j]) != full
    requires forall id :: (forall k :: 0 <= k < |funs| ==> Id(w.names, Full(funs[k])) != id) ==>
               (id in w.m.functions <==> id in w0.m.functions)
               && (id in w.m.functions ==> w.m.functions[id] == w0.m.functions[id])
    ensures FunctionAt(w, full)
  {
    hide BlockOk, GenBody, Id, LoadedAll, Known, Distinct, HoldsAt, CodeOk, Full, Extends;
    var (mod, def) := w.p.defs[full];
    var code := GenBody(def.params, def.body, None, mod).value.code;
    InExtends(w0.names, w.names, full);
    ExtendsKeepsIds(w0.names, w.names, full);
    var id := Id(w.names, full);
    forall k | 0 <= k < |funs| ensures Id(w.names, Full(funs[k])) != id {
      if Id(w.names, Full(funs[k])) == id { IdInjective(w.names, Full(funs[k]), full); }
    }
    CodeStays(w0, w, w0.m.functions[id], code);
  }

  lemma CodeStays(w0: World, w: World, at: nat, code: seq<Instr>)
    requires CodeAt(w0, at, code) && w0.m.code <= w.m.code && PoolOk(w.names) && PoolOk(w.m.strings)
    requires Extends(w0.names, w.names) && Extends(w0.m.strings, w.m.strings)
    ensures CodeAt(w, at, code)
  {
    hide Known, LoadedAll, Extends, CodeOk;
    forall k | 0 <= k < |code| ensures Known(code[k], w.names, w.m.strings) {
      KnownExtends(code[k], w0.names, w0.m.strings, w.names, w.m.strings);
    }
    LoadedStays(code, w0, w);
    assert w.m.code == w0.m.code + w.m.code[|w0.m.code|..];
    HoldsLonger(w0.m.code, w.m.code[|w0.m.code|..], at, LoadedAll(code, w0.names, w0.m.strings));
  }

  lemma {:induction false} LoadedStays(code: seq<Instr>, w0: World, w: World)
    requires forall k :: 0 <= k < |code| ==> Known(code[k], w0.names, w0.m.strings)
    requires Extends(w0.names, w.names) && Extends(w0.m.strings, w.m.strings)
    requires PoolOk(w.names) && PoolOk(w.m.strings)
    ensures LoadedAll(code, w.names, w.m.strings) == LoadedAll(code, w0.names, w0.m.strings)
    decreases |code|
  {
    hide Known, LoadedBytes, Extends;
    if code != [] {
      BytesStay(code[0], w0, w);
      LoadedStays(code[1..], w0, w);
    }
  }

  lemma BytesStay(i: Instr, w0: World, w: World)
    requires Known(i, w0.names, w0.m.strings)
    requires Extends(w0.names, w.names) && Extends(w0.m.strings, w.m.strings)
    requires PoolOk(w.names) && PoolOk(w.m.strings)
    ensures LoadedBytes(i, w.names, w.m.strings) == LoadedBytes(i, w0.names, w0.m.strings)
  {
    hide Extends, FullName, Id, Distinct;
    match i
    case Capture(_, name, arity) => ExtendsKeepsIds(w0.names, w.names, FullName(name, arity));
    case Call(_, name, arity, _) => ExtendsKeepsIds(w0.names, w.names, FullName(name, arity));
    case LoadString(_, text) => ExtendsKeepsIds(w0.m.strings, w.m.strings, text);
    case _ =>
  }

  lemma FunctionLoaded(m: Module, globals: set<string>, k: nat, st: LoadState, w: World)
    requires Generated(m) && InFragment(m.funs, globals) && k < |m.funs| && w.globals == globals
    requires var full := FullOfDef(m.name, m.funs[k]); full in w.p.defs && w.p.defs[full] == (m.name, m.funs[k])
    requires w.names == ModuleNames(GenModule(m.name, m.funs).value, st.names)
        && w.m.strings == ModuleStrings(GenModule(m.name, m.funs).value, st.strings)
    requires forall j :: 0 <= j < |GenModule(m.name, m.funs).value| ==>
               var f := GenModule(m.name, m.funs).value[j];
               var id := Id(w.names, Full(f));
               id in w.m.functions && HoldsAt(w.m.code, w.m.functions[id], LoadedAll(f.code, w.names, w.m.strings))
    ensures FunctionAt(w, FullOfDef(m.name, m.funs[k]))
  {
    hide GenModule, BlockOk, HoldsAt, Id, LoadedAll, Known, Distinct, ModuleNames, ModuleStrings, GenBody, FullName,
        CodeOk, NameOk;
    var funs := GenModule(m.name, m.funs).value;
    GeneratedAt(m.name, m.funs, k);
    var f := funs[k];
    assert FunOk(f);
    assert Full(f) == FullOfDef(m.name, m.funs[k]);
    ModuleNamesHold(funs, st.names, k);
    forall j | 0 <= j < |f.code| ensures Known(f.code[j], w.names, w.m.strings) {
      KnownInModule(funs, st.names, st.strings, k, j);
    }
    assert CodeAt(w, w.m.functions[Id(w.names, Full(f))], f.code);
  }

  /** A call enters the function of the module it names, whatever functions of the same
      name other modules have. */
  lemma CallEnters(w: World, mods: seq<Module>, i: nat, k: nat, to: nat, args: seq<VarRef>, st: State)
    requires Holding(w) && w.p.defs == AllDefs(mods) && i < |mods| && k < |mods[i].funs| && to < REGISTER_COUNT
    requires forall j :: 0 <= j < |mods| ==> '.' !in mods[j].name
    requires forall j, l :: 0 <= j < l < |mods| ==> mods[j].name != mods[l].name
    requires FullOfDef(mods[i].name, mods[i].funs[k]) in AllDefs(mods)
    requires |args| == |mods[i].funs[k].params|
    requires Shape(st) && st.current + 1 < STACK_DEPTH && |args| < REGISTER_COUNT
    requires GetVars(st.(upvals := []), args).Some?
    requires CodeAt(w, st.ip, [Call(Register(to), QualifiedName(mods[i].name, mods[i].funs[k].name), |args|, args)])
    ensures Step(w.m, st).Some?
    ensures var (mod, def) := w.p.defs[FullOfDef(mods[i].name, mods[i].funs[k])];
            var b := GenBody(def.params, def.body, None, mod);
            && mod == mods[i].name && def in mods[i].funs && def.name == mods[i].funs[k].name
            && |def.params| == |args|
            && b.Some? && CodeAt(w, Step(w.m, st).value.ip, b.value.code)
  {
    hide GenBody, BlockOk, CodeAt, FullName, QualifiedName, Id, Distinct, GetVars, AllDefs;
    var name := QualifiedName(mods[i].name, mods[i].funs[k].name);
    var full := FullOfDef(mods[i].name, mods[i].funs[k]);
    assert FunctionAt(w, full);
    var j, l := SomeEntry(mods, full);
    FullNameInjective(name, |args|, QualifiedName(mods[j].name, mods[j].funs[l].name), |mods[j].funs[l].params|);
    QualifiedNameInjective(mods[i].name, mods[i].funs[k].name, mods[j].name, mods[j].funs[l].name);
    StepAt(w, Call(Register(to), name, |args|, args), st);
  }

  /** A call `other.name(...)` is compiled, in any module, to the arguments and a call of
      that name in that module. */
  lemma CallNamesModule(other: string, name: string, args: seq<Expr>, out: nat, s: Scope, mod: string)
    requires name !in OPERATORS && name != "&&" && name != "||"
    requires Gen(Apply(Some(other), name, args), out, s, mod).Some?
    ensures var a := GenArgs(args, s, mod);
            && a.Some?
            && Gen(Apply(Some(other), name, args), out, s, mod).value.code
               == a.value.code + [Call(Register(out), QualifiedName(other, name), |args|,
                                       Popped(a.value.scope, |args|).0)]
  {
    hide GenArgs, Search, Primitive, OPERATORS;
    OperatorsArePrimitives(name);
  }

  /** So the function of the module that is named is entered, compiled code and loaded
      modules together. */
  lemma ModuleCallEnters(w: World, mods: seq<Module>, i: nat, k: nat, def: FunDef, args: seq<Expr>, out: nat,
      s: Scope, mod: string, a: Output, call: Output, start: nat, st: State)
    requires Holding(w) && Serves(w, mods, i, k) && def == mods[i].funs[k] && |def.params| == |args|
    requires def.name !in OPERATORS && def.name != "&&" && def.name != "||"
    requires GenArgs(args, s, mod) == Some(a)
    requires Gen(Apply(Some(mods[i].name), def.name, args), out, s, mod) == Some(call)
    requires CodeAt(w, start, call.code) && st.ip == start + Size(w, a.code)
    requires out < REGISTER_COUNT && |args| < REGISTER_COUNT && st.current + 1 < STACK_DEPTH && Shape(st)
    requires GetVars(st.(upvals := []), Popped(a.scope, |args|).0).Some?
    ensures Step(w.m, st).Some? && Enters(w, mods[i], def.name, |args|, Step(w.m, st).value.ip)
  {
    hide GenArgs, Gen, CodeAt, Holding, QualifiedName, AllDefs, GetVars, Step, Size, GenBody, OPERATORS, Primitive,
        Shape;
    CallNamesModule(mods[i].name, def.name, args, out, s, mod);
    var locs := Popped(a.scope, |args|).0;
    CodeParts(w, start, a.code, [Call(Register(out), QualifiedName(mods[i].name, def.name), |args|, locs)]);
    CallEnters(w, mods, i, k, out, locs, st);
    assert FunctionEntered(w, mods[i].name, w.p.defs[FullOfDef(mods[i].name, def)].1, Step(w.m, st).value.ip);
  }

  /** The modules of a program, told apart by their names, and a function of one. */
  ghost predicate Serves(w: World, mods: seq<Module>, i: nat, k: nat) {
    && w.p.defs == AllDefs(mods) && i < |mods| && k < |mods[i].funs|
    && (forall j :: 0 <= j < |mods| ==> '.' !in mods[j].name)
    && (forall j, l :: 0 <= j < l < |mods| ==> mods[j].name != mods[l].name)
    && FullOfDef(mods[i].name, mods[i].funs[k]) in AllDefs(mods)
  }

  /** A function of the module with this name and arity. */
  ghost predicate Enters(w: World, m: Module, name: string, arity: nat, ip: nat) {
    exists def :: def in m.funs && def.name == name && |def.params| == arity && FunctionEntered(w, m.name, def, ip)
  }

  /** At this position is the code of a function of this module. */
  ghost predicate FunctionEntered(w: World, mod: string, def: FunDef, ip: nat) {
    var b := GenBody(def.params, def.body, None, mod);
    b.Some? && CodeAt(w, ip, b.value.code)
  }

  // ---------- running a function ----------

  /** The code that vm_run_function puts behind everything: a call, and the end. */
  function StartCode(id: nat): seq<nat> {
    [CALL, 0, id, 0, 0x00, 0]
  }

  /** More code behind the program changes nothing for it. */
  lemma HoldingAppended(w: World, more: seq<nat>)
    requires Holding(w)
    ensures Holding(w.(m := w.m.(code := w.m.code + more)))
  {
    hide BlockOk, GenBody, Id, LoadedAll, Known, Distinct, HoldsAt, CodeOk;
    var w' := w.(m := w.m.(code := w.m.code + more));
    forall full | full in w'.p.defs ensures FunctionAt(w', full) {
      assert FunctionAt(w, full);
      var (mod, def) := w.p.defs[full];
      HoldsLonger(w.m.code, more, w.m.functions[Id(w.names, full)],
                  LoadedAll(GenBody(def.params, def.body, None, mod).value.code, w.names, w.m.strings));
    }
  }

  lemma HoldsLonger(code: seq<nat>, more: seq<nat>, at: nat, piece: seq<nat>)
    requires HoldsAt(code, at, piece)
    ensures HoldsAt(code + more, at, piece)
  {
    assert (code + more)[at..at + |piece|] == code[at..at + |piece|];
  }

  /** vm_run_function: the call returns with the function's value in register 0 of
      the first frame, and the machine stands at the exit. */
  lemma RunFunction(w: World, full: Name, k: nat) returns (n: nat)
    requires Holding(w) && full in w.p.defs && k + 1 < STACK_DEPTH
    requires CallVal(w.p, k, FnVal(full), []).Some?
    ensures var start := StartCode(Id(w.names, full));
            var m := w.m.(code := w.m.code + start);
            var s := Fresh(|w.m.code|);
            && Steps(m, s, n).Some?
            && var t := Steps(m, s, n).value;
               t.current == 0 && t.ip == s.ip + 4
               && Rel(w.(m := m), CallVal(w.p, k, FnVal(full), []).value, Regs(t)[0])
  {
    hide Rel, CallVal, BlockOk, GenBody, Distinct, Steps, Holding;
    var id := Id(w.names, full);
    var m := w.m.(code := w.m.code + StartCode(id));
    var w' := w.(m := m);
    var s := Fresh(|w.m.code|);
    HoldingAppended(w, StartCode(id));
    FunctionIsAt(w', full);
    var none: seq<Value> := [];
    var f := FunV(m.functions[id], []);
    StartStep(m, s, id, |w.m.code|);
    var u := EnterGives(s, m.functions[id], none, 0, [], s.ip + 4, none);
    OneStep(w', s);
    assert w'.p == w.p;
    var n1 := SimulateInvoke(w', k, FnVal(full), [], u);
    StepsAdd(m, s, 1, n1);
    n := 1 + n1;
  }

  lemma FunctionIsAt(w: World, full: Name)
    requires Holding(w) && full in w.p.defs
    ensures Id(w.names, full) in w.m.functions
    ensures Rel(w, FnVal(full), FunV(w.m.functions[Id(w.names, full)], []))
  {
    assert FunctionAt(w, full);
  }

  lemma StartFetch(m: Machine, at: nat, id: nat)
    requires at + 6 == |m.code| && m.code[at..] == StartCode(id)
    ensures Fetch(m.code, at) == Some((Call(Register(0), id, 0, []), at + 4))
  {
    assert m.code[at] == m.code[at..][0] && m.code[at + 1] == m.code[at..][1];
    assert m.code[at + 2] == m.code[at..][2] && m.code[at + 3] == m.code[at..][3];
    assert RefsOf(m.code[at + 4..at + 4]) == [];
  }

  lemma StartStep(m: Machine, s: State, id: nat, at: nat)
    requires Shape(s) && s.ip == at && at + 6 == |m.code| && m.code[at..] == StartCode(id) && id in m.functions
    ensures GetVars(s.(upvals := []), []) == Some([])
    ensures Step(m, s) == Enter(s, m.functions[id], [], Register(0), [], at + 4)
  {
    StartFetch(m, at, id);
  }

  /** From source to result: whatever value the source gives to a function of the
      modules, compiling, emitting, loading and running gives it too. */
  lemma CompiledProgramRuns(mods: seq<Module>, globals: set<string>, full: Name, k: nat, checked: bool)
      returns (r: LoadState, n: nat)
    requires Loadable(mods, globals) && k + 1 < STACK_DEPTH
    requires CallVal(ProgramOf(mods, checked), k, FnVal(full), []).Some?
    ensures LoadAll(mods) == Some(r)
    ensures var m := Machine(r.code + StartCode(Id(r.names, full)), r.strings, r.functions, checked);
            && Steps(m, Fresh(|r.code|), n).Some?
            && var t := Steps(m, Fresh(|r.code|), n).value;
               t.current == 0 && t.ip == |r.code| + 4
               && Rel(World(m, r.names, ProgramOf(mods, checked), globals),
                      CallVal(ProgramOf(mods, checked), k, FnVal(full), []).value, Regs(t)[0])
  {
    CalledIsDefined(ProgramOf(mods, checked), k, full);
    hide LoadAll, CallVal, Rel, Loadable, Steps, StartCode, AllDefs, Id, Holding;
    r := CompileAndLoad(mods, globals, checked);
    n := RunFunction(WorldOf(r, mods, globals, checked), full, k);
  }

  lemma CalledIsDefined(p: Program, k: nat, full: Name)
    requires CallVal(p, k, FnVal(full), []).Some?
    ensures full in p.defs
  {}
}
