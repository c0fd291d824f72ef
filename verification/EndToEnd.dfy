/**
 From source to result on the interpreter with its real lists.
 */
module EndToEnd {
  import opened Seqs
  import opened Ast
  import opened Bytecode
  import opened Loader
  import opened Decode
  import opened Vm
  import opened Codegen
  import opened Semantics
  import opened Relation
  import opened Vectors
  import opened Cells
  import opened CellSteps
  import opened Interpreter
  import opened Simulation
  import opened Pipeline
  import opened Sliceless

  /** A result stands for a source value by way of a value of the step function. */
  ghost predicate Means(w: World, v: Val, c: Cell, x: Value) {
    Rel(w, v, x) && Stands(c, x)
  }

  /** The machine that vm_run_function starts. */
  function Started(r: LoadState, id: nat, checked: bool): Machine {
    Machine(r.code + StartCode(id), r.strings, r.functions, checked)
  }

  /** No state that the cells come to is at a concat of lists that would break. */
  ghost predicate NeverUnsafe(m: Machine, c: CellState)
    requires Shape(c)
  {
    forall k: nat :: CellRun(m, c, k).Some? ==> !UnsafeAt(m, CellRun(m, c, k).value)
  }

  /** The state after n steps over cells is at the exit, with a result. */
  ghost predicate EndsWith(m: Machine, c: CellState, n: nat, result: Cell)
    requires Shape(c)
  {
    && CellRun(m, c, n).Some?
    && var d := CellRun(m, c, n).value;
       d.ip < |m.code| && m.code[d.ip] == EXIT && GetVar(d, Register(0)) == Some(result)
  }

  /** Modules are compiled, emitted and loaded, and a function of theirs is run.  Where
      the source has a value, the interpreter ends with it in register 0 if and only if
      no state it comes to is at a concat of lists that, as they are held there, would
      break; and otherwise it stops at one.  It comes to none when the checked source has
      a value, as it always has in programs that take no slices. */
  method RunProgram(mods: seq<Module>, full: Name, ghost globals: set<string>, ghost k: nat)
    returns (result: Option<Cell>, ghost x: Value, ghost n: nat)
    requires Loadable(mods, globals) && k + 1 < STACK_DEPTH
    requires CallVal(ProgramOf(mods, false), k, FnVal(full), []).Some?
    ensures LoadAll(mods).Some?
    ensures var p := ProgramOf(mods, false);
            var r := LoadAll(mods).value;
            var m := Started(r, Id(r.names, full), false);
            var c := FreshCells(|r.code|);
            && (result.Some? <==> NeverUnsafe(m, c))
            && (if result.Some?
                then EndsWith(m, c, n, result.value)
                     && Means(World(m, r.names, p, globals), CallVal(p, k, FnVal(full), []).value, result.value, x)
                else CellRun(m, c, n).Some? && UnsafeAt(m, CellRun(m, c, n).value))
    ensures CallVal(ProgramOf(mods, true), k, FnVal(full), []).Some? ==> result.Some?
    ensures Uncut(ProgramOf(mods, false)) ==> result.Some?
  {
    hide LoadAll, CallVal, Rel, Loadable, Steps, StartCode, Id, Stands, AllDefs, UnsafeAt, Stand, CellRun, Clear,
        NeverUnsafe, FreshCells, Shape, Uncut;
    ghost var p := ProgramOf(mods, false);
    ghost var steps;
    ghost var loaded;
    if Uncut(p) { UncutSafe(mods, k, full); }
    ghost var safe := CallVal(ProgramOf(mods, true), k, FnVal(full), []).Some?;
    if safe {
      CheckedCall(p, k, FnVal(full), []);
      loaded, steps := CompiledProgramRuns(mods, globals, full, k, true);
      CheckedSteps(Started(loaded, Id(loaded.names, full), false), Fresh(|loaded.code|), steps);
    } else {
      loaded, steps := CompiledProgramRuns(mods, globals, full, k, false);
    }
    var r := LoadAll(mods).value;
    var m := Started(r, Id(r.names, full), false);
    var vm := new VirtualMachine(m, |r.code|);
    ghost var c, s := vm.Now(), Fresh(|r.code|);
    StartCodeEnds(r.code, Id(r.names, full));
    StandShape(c, s);
    var ok;
    ok, n := vm.RunToExit(steps, s);
    x := Zero;
    result := None;
    if ok {
      n := steps;
      ghost var d, t := vm.Now(), Steps(m, s, n).value;
      StandShape(d, t);
      VarStands(d, t, Register(0));
      result, x := vm.Register0(), GetVar(t, Register(0)).value;
      if safe {
        SameRel(World(Started(r, Id(r.names, full), true), r.names, ProgramOf(mods, true), globals),
                World(m, r.names, p, globals), CallVal(p, k, FnVal(full), []).value, x);
      }
    }
    ClearForGood(m, c, steps);
  }

  lemma UncutSafe(mods: seq<Module>, k: nat, full: Name)
    requires Uncut(ProgramOf(mods, false)) && CallVal(ProgramOf(mods, false), k, FnVal(full), []).Some?
    ensures CallVal(ProgramOf(mods, true), k, FnVal(full), []).Some?
  {
    hide CallVal, AllDefs;
    SameCall(ProgramOf(mods, false), k, FnVal(full), []);
  }

  /** At the exit the way is over. */
  lemma ClearForGood(m: Machine, c: CellState, n: nat)
    requires Shape(c)
    requires Clear(m, c, n) ==> CellRun(m, c, n).Some? && CellRun(m, c, n).value.ip < |m.code|
                                && m.code[CellRun(m, c, n).value.ip] == EXIT
    ensures Clear(m, c, n) <==> NeverUnsafe(m, c)
  {
    hide CellStep, UnsafeAt;
    if Clear(m, c, n) {
      var d := CellRun(m, c, n).value;
      NothingAtExit(m, d);
      assert CellRun(m, c, n + 1) == None;
      forall k: nat | CellRun(m, c, k).Some? ensures !UnsafeAt(m, CellRun(m, c, k).value) {
        if k > n { RunStops(m, c, n + 1, k); }
      }
    }
  }

  lemma NothingAtExit(m: Machine, c: CellState)
    requires Shape(c) && c.ip < |m.code| && m.code[c.ip] == EXIT
    ensures CellStep(m, c) == None && !UnsafeAt(m, c)
  {
    hide GetVars;
  }

  lemma StartCodeEnds(code: seq<nat>, id: nat)
    ensures |code + StartCode(id)| == |code| + 6 && (code + StartCode(id))[|code| + 4] == EXIT
  {}
}
