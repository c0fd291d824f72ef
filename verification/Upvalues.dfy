/**
 A compiled program that reads an upvalue behind a call, outside the fragment of the
 correctness theorem:

   fn one() { 1 }
   y = 40
   () -> { one(); y }

 The source means 40; the compiled function has no result.
 */
module Upvalues {
  import opened Seqs
  import opened Ast
  import opened Bytecode
  import opened Loader
  import opened Decode
  import opened Vm
  import opened Codegen
  import opened Semantics
  import opened Relation
  import opened Frames
  import opened Simulation
  import opened Example

  function ThenY(): seq<Expr> {
    [Apply(None, "one", []), Ident("y")]
  }

  function CallOne(mod: string): Instr {
    Call(Register(0), QualifiedName(mod, "one"), 0, [])
  }

  function MoveY(): Instr {
    Plain(Mov, [Register(0), Upvalue(0)])
  }

  function Inner(varCount: nat, upvals: seq<VarRef>): Scope {
    Scope(varCount, map[], upvals, Some(ScopeY(1)))
  }

  lemma OneCompiles(mod: string)
    ensures GenBody([], [IntLit(1)], None, mod) == Some(Output([StoreInt(Register(0), 1), Return],
        Scope(0, map[], [], None)))
  {
    var s := Scope(0, map[], [], None);
    var one := Output([StoreInt(Register(0), 1)], s);
    assert Gen(IntLit(1), 0, s, mod) == Some(one);
    GenOne(IntLit(1), 0, s, mod, one);
    assert NewScope([], None) == Some(s);
    assert one.code + [Return] == [StoreInt(Register(0), 1), Return];
  }

  lemma ThenYCompiles(mod: string)
    ensures GenBody([], ThenY(), Some(ScopeY(1)), mod)
         == Some(Output([CallOne(mod), MoveY(), Return], Inner(0, [Register(1)])))
  {
    var s, t := Inner(0, []), Inner(0, [Register(1)]);
    assert GenArgs([], s, mod) == Some(Output([], s));
    assert Popped(s, 0).0 == [] && Popped(s, 0) == ([], s);
    assert "one" != "y" && Search(ScopeY(1), "one") == (None, ScopeY(1)) && Search(s, "one") == (None, s);
    var call := Output([CallOne(mod)], s);
    assert ApplyOp(None, "one", 0, [], s, mod) == Some(call);
    GenApply("one", [], 0, s, mod, Output([], s), call);
    assert [] + call.code == call.code;
    assert Search(ScopeY(1), "y") == (Some(Register(1)), ScopeY(1));
    assert [] + [Register(1)] == [Register(1)];
    assert Search(s, "y") == (Some(Upvalue(0)), t);
    var move := Output([MoveY()], t);
    assert Gen(Ident("y"), 0, s, mod) == Some(move);
    GenOne(Ident("y"), 0, s, mod, move);
    GenItemsCons(ThenY()[0], [Ident("y")], 0, s, mod, call, move);
    assert [ThenY()[0]] + [Ident("y")] == ThenY();
    assert NewScope([], Some(ScopeY(1))) == Some(s);
    hide Gen, GenItems;
    assert call.code + move.code + [Return] == [CallOne(mod), MoveY(), Return];
  }

  /** What the body means where y is 40. */
  lemma ThenYMeans40(p: Program, mod: string)
    requires p.defs == map[FullOf(None, mod, "one", 0) := (mod, FunDef("one", [], [IntLit(1)]))]
    ensures EvalBody(p, 1, mod, [Binding("y", IntVal(40))], ThenY()) == Some(IntVal(40))
  {
    var env, full := [Binding("y", IntVal(40))], FullOf(None, mod, "one", 0);
    assert env[..0] == [] && Lookup(env, "y") == Some(IntVal(40));
    assert "one" !in Names(env) by {
      assert forall b :: b in env ==> b.name == "y";
      assert "one" != "y";
    }
    assert Bind([], []) == [];
    assert Eval(p, 0, mod, [], IntLit(1)) == Some(IntVal(1));
    ItemsLast(p, 0, mod, [], IntLit(1), IntVal(1));
    assert CallVal(p, 0, FnVal(full), []) == Some(IntVal(1));
    assert EvalArgs(p, 1, mod, env, []) == Some([]);
    assert Eval(p, 1, mod, env, ThenY()[0]) == Some(IntVal(1));
    assert Eval(p, 1, mod, env, Ident("y")) == Some(IntVal(40));
    ItemsLast(p, 1, mod, env, Ident("y"), IntVal(40));
    assert ThenY()[1..] == [Ident("y")];
    assert EvalItem(p, 1, mod, env, ThenY()[0]) == Some(IntVal(1));
  }

  /** Running it on any machine that holds the two compiled functions: behind the call
      the upvalue is gone, and the next instruction has no result. */
  lemma UpvalueGone(w: World, mod: string, u: State)
    requires Shape(u) && u.current + 1 < STACK_DEPTH && |u.upvals| == 1
    requires CodeAt(w, u.ip, [CallOne(mod), MoveY(), Return])
    requires var id := Id(w.names, FullName(QualifiedName(mod, "one"), 0));
             id in w.m.functions && CodeAt(w, w.m.functions[id], [StoreInt(Register(0), 1), Return])
    ensures Steps(w.m, u, 3).Some? && MatchedCall(w.m, u, 3) && Steps(w.m, u, 3).value.upvals == []
    ensures Steps(w.m, u, 4) == None
  {
    hide CodeAt, Size, Exec, Step;
    var name := QualifiedName(mod, "one");
    var at := w.m.functions[Id(w.names, FullName(name, 0))];
    var call, store, move := CallOne(mod), StoreInt(Register(0), 1), MoveY();
    assert [call, move, Return] == [call] + [move, Return] && [move, Return] == [move] + [Return];
    assert [store, Return] == [store] + [Return];
    CodeParts(w, u.ip, [call], [move, Return]);
    CodeParts(w, u.ip + Size(w, [call]), [move], [Return]);
    CodeParts(w, at, [store], [Return]);
    var u1 := CallStep(w, mod, u, at);
    var u2 := StoreStep(w, u1);
    var u3 := ReturnsTo(w, u, u1, u2);
    MoveFails(w, u3);
    assert Steps(w.m, u3, 0) == Some(u3) && Steps(w.m, u2, 1) == Some(u3);
    assert Steps(w.m, u1, 2) == Some(u3) && Steps(w.m, u, 3) == Some(u3);
    assert Steps(w.m, u, 1) == Steps(w.m, u1, 0) == Some(u1);
    assert Steps(w.m, u, 2) == Steps(w.m, u1, 1) == Steps(w.m, u2, 0) == Some(u2);
    assert Steps(w.m, u3, 1) == None;
    StepsAdd(w.m, u, 3, 1);
  }

  /** Where the compiled bodies are loaded, the source means 40 and the run has no result,
      because the call lost the upvalue. */
  lemma SourceAndRunDiffer(w: World, mod: string, u: State, p: Program, body: Output, one: Output)
    requires GenBody([], ThenY(), Some(ScopeY(1)), mod) == Some(body)
    requires GenBody([], [IntLit(1)], None, mod) == Some(one)
    requires Shape(u) && u.current + 1 < STACK_DEPTH && |u.upvals| == 1 && CodeAt(w, u.ip, body.code)
    requires var id := Id(w.names, FullName(QualifiedName(mod, "one"), 0));
             id in w.m.functions && CodeAt(w, w.m.functions[id], one.code)
    requires p.defs == map[FullOf(None, mod, "one", 0) := (mod, FunDef("one", [], [IntLit(1)]))]
    ensures EvalBody(p, 1, mod, [Binding("y", IntVal(40))], ThenY()) == Some(IntVal(40))
    ensures MatchedCall(w.m, u, 3) && Steps(w.m, u, 3).value.upvals == [] && Steps(w.m, u, 4) == None
  {
    hide GenBody, EvalBody, CodeAt, Steps, MatchedCall;
    OneCompiles(mod);
    ThenYCompiles(mod);
    ThenYMeans40(p, mod);
    UpvalueGone(w, mod, u);
  }

  lemma CallStep(w: World, mod: string, u: State, at: nat) returns (u1: State)
    requires Shape(u) && u.current + 1 < STACK_DEPTH && CodeAt(w, u.ip, [CallOne(mod)])
    requires var id := Id(w.names, FullName(QualifiedName(mod, "one"), 0));
             id in w.m.functions && w.m.functions[id] == at
    ensures Step(w.m, u) == Some(u1) && Shape(u1) && u1.current == u.current + 1 && u1.ip == at && u1.upvals == []
    ensures u1.frames[u1.current].retAddress == u.ip + Size(w, [CallOne(mod)]) && u1.frames[u1.current].retRegister == 0
  {
    hide CodeAt, Size, Exec, Step, Enter;
    var name := QualifiedName(mod, "one");
    StepAt(w, CallOne(mod), u);
    var next := u.ip + Size(w, [CallOne(mod)]);
    ExecCall(w, u, 0, name, [], next);
    assert GetVars(u.(upvals := []), []) == Some([]);
    u1 := EnterGives(u, at, [], 0, [], next, []);
  }

  lemma StoreStep(w: World, u: State) returns (v: State)
    requires Shape(u) && CodeAt(w, u.ip, [StoreInt(Register(0), 1)])
    ensures Step(w.m, u) == Some(v) && Shape(v) && v.current == u.current && v.upvals == u.upvals
    ensures v.ip == u.ip + Size(w, [StoreInt(Register(0), 1)])
    ensures v.frames[v.current].retAddress == u.frames[u.current].retAddress
    ensures v.frames[v.current].retRegister == u.frames[u.current].retRegister
  {
    hide CodeAt, Size, Step;
    StepAt(w, StoreInt(Register(0), 1), u);
    StoreIntSurvives(1);
    v := Step(w.m, u).value;
  }

  lemma ReturnsTo(w: World, u: State, u1: State, u2: State) returns (u3: State)
    requires Shape(u2) && CodeAt(w, u2.ip, [Return]) && u2.current == u1.current == u.current + 1
    requires u2.upvals == u1.upvals && u2.frames[u2.current].retRegister == 0
    ensures Step(w.m, u2) == Some(u3) && Shape(u3) && u3.current == u.current && u3.upvals == u1.upvals
    ensures u3.ip == u2.frames[u2.current].retAddress
  {
    hide CodeAt, Size, Step;
    StepAt(w, Return, u2);
    u3 := Leave(u2, NoRegisters()).value;
  }

  lemma MoveFails(w: World, u: State)
    requires Shape(u) && CodeAt(w, u.ip, [MoveY()]) && u.upvals == []
    ensures Step(w.m, u) == None
  {
    hide CodeAt, Size, Step;
    StepAt(w, MoveY(), u);
    assert [Register(0), Upvalue(0)][1..] == [Upvalue(0)];
    assert GetVar(u, [Upvalue(0)][0]).None?;
  }
}
