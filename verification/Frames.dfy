/**
 Where a running function finds its variables, and what running a piece of its
 code may change.
 */
module Frames {
  import opened Seqs
  import opened Ast
  import opened Bytecode
  import opened Loader
  import opened Decode
  import opened Vm
  import opened Codegen
  import opened Scopes
  import opened Semantics
  import opened Relation
  import opened Fragment

  function Regs<V>(st: Config<V>): seq<V>
    requires Shape(st)
  {
    st.frames[st.current].regs
  }

  /** The variable x of the running function has the value v: in a register, or in
      every upvalue of the finished function that was captured under that name. */
  ghost predicate Holds(w: World, x: string, v: Val, env: map<string, VarRef>, last: Scope, st: State)
    requires Shape(st)
  {
    if x in env then
      env[x].Register? && env[x].reg < REGISTER_COUNT && Rel(w, v, Regs(st)[env[x].reg])
    else
      last.parent.Some? ==>
        forall j :: 0 <= j < |last.upvals| && j < |st.upvals| && Ref(last.parent.value, x) == Some(last.upvals[j]) ==>
          Rel(w, v, st.upvals[j])
  }

  /** Every variable that can be read has its value.  `last` is the scope of the
      function once all of it is compiled. */
  ghost predicate Match(w: World, vars: seq<Binding>, sight: Sight, env: map<string, VarRef>, last: Scope, st: State)
    requires Shape(st)
  {
    forall x :: x in sight.locals ==> x in Names(vars) && Holds(w, x, Lookup(vars, x).value, env, last, st)
  }

  /** What can be read is what there is: all variables as long as the upvalues of the
      running function are the machine's, and behind a call the function's own. */
  ghost predicate Fits(w: World, vars: seq<Binding>, sight: Sight, env: map<string, VarRef>, last: Scope, st: State) {
    && sight.globals == w.globals && (sight.nested <==> last.parent.Some?)
    && (forall x :: x in sight.own ==> x in env)
    && (if sight.nested && !sight.clean then sight.locals <= sight.own
        else sight.locals == Names(vars) && (sight.nested ==> |st.upvals| == |last.upvals|))
  }

  /** The variables are visible to the compiler, and no global function's name is
      taken by a variable. */
  ghost predicate Visible(vars: seq<Binding>, s: Scope, globals: set<string>) {
    && (forall x :: x in Names(vars) ==> Exists(s, x))
    && (forall x :: x in globals ==> !Exists(s, x))
  }

  /** Compiling with `out` as destination is about to begin, and the machine is
      about to run the result. */
  ghost predicate Ready(w: World, vars: seq<Binding>, sight: Sight, s: Scope, last: Scope, out: nat, st: State) {
    && Shape(st) && ScopeOk(s) && InUse(s) && out <= s.varCount
    && (forall x :: x in s.env ==> s.env[x] != Register(out))
    && Visible(vars, s, w.globals) && Match(w, vars, sight, s.env, last, st) && Fits(w, vars, sight, s.env, last, st)
  }

  /** Registers up to `limit`, except `out`, and the frames below are untouched;
      so is the way back. */
  ghost predicate Keeps(st: State, t: State, limit: nat, out: nat) {
    && Shape(st) && Shape(t) && t.current == st.current
    && (forall r :: 0 <= r <= limit && r < REGISTER_COUNT && r != out ==> Regs(t)[r] == Regs(st)[r])
    && (forall j :: 0 <= j < st.current ==> t.frames[j] == st.frames[j])
    && t.frames[st.current].retAddress == st.frames[st.current].retAddress
    && t.frames[st.current].retRegister == st.frames[st.current].retRegister
  }

  /** The outcome of running an expression.  Only a call changes the upvalues. */
  ghost predicate After(w: World, st: State, t: State, ip: nat, limit: nat, out: nat, v: Val, called: bool) {
    && Keeps(st, t, limit, out) && t.ip == ip
    && out < REGISTER_COUNT && Rel(w, v, Regs(t)[out])
    && (!called ==> t.upvals == st.upvals)
  }

  lemma KeepsTrans(st: State, t: State, u: State, limit: nat, out: nat)
    requires Keeps(st, t, limit, out) && Keeps(t, u, limit, out)
    ensures Keeps(st, u, limit, out)
  {}

  /** Changing only registers above the limit is no change below it. */
  lemma KeepsWeaken(st: State, t: State, limit: nat, out: nat, limit': nat, out': nat)
    requires Keeps(st, t, limit, out) && limit' <= limit && (out == out' || limit' < out)
    ensures Keeps(st, t, limit', out')
  {}

  lemma KeepsSelf(st: State, ip: nat, limit: nat, out: nat)
    requires Shape(st)
    ensures Keeps(st, st.(ip := ip), limit, out)
  {}

  /** Variables keep their values when only `out` and registers past the limit change;
      behind a call, those that are not upvalues. */
  lemma MatchKept(w: World, vars: seq<Binding>, sight: Sight, s: Scope, last: Scope, st: State, t: State, limit: nat,
      out: nat, called: bool)
    requires Keeps(st, t, limit, out) && Match(w, vars, sight, s.env, last, st) && InUse(s) && s.varCount <= limit
    requires Fits(w, vars, sight, s.env, last, st)
    requires forall x :: x in s.env ==> s.env[x] != Register(out)
    requires !called ==> t.upvals == st.upvals
    ensures Match(w, vars, Later(sight, called), s.env, last, t) && Fits(w, vars, Later(sight, called), s.env, last, t)
  {
    forall x | x in Later(sight, called).locals ensures x in Names(vars)
        && Holds(w, x, Lookup(vars, x).value, s.env, last, t) {
      assert Holds(w, x, Lookup(vars, x).value, s.env, last, st);
    }
  }

  /** ... also in a scope with more names, none of which hides a variable. */
  lemma MatchMore(w: World, vars: seq<Binding>, sight: Sight, s: Scope, t: Scope, last: Scope, st: State)
    requires Shape(st) && Match(w, vars, sight, s.env, last, st) && Evolves(s, t) && Visible(vars, s, w.globals)
    ensures Match(w, vars, sight, t.env, last, st)
  {
    forall x | x in sight.locals ensures x in Names(vars) && Holds(w, x, Lookup(vars, x).value, t.env, last, st) {
      assert Holds(w, x, Lookup(vars, x).value, s.env, last, st);
      assert Exists(s, x);
    }
  }

  lemma VisibleMore(vars: seq<Binding>, s: Scope, t: Scope, globals: set<string>)
    requires Visible(vars, s, globals) && Evolves(s, t) && Adds(s, t, globals)
    ensures Visible(vars, t, globals)
  {
    forall x | x in Names(vars) ensures Exists(t, x) { ExistsEvolves(s, t, x); }
    forall x | x in globals ensures !Exists(t, x) {
      if x !in t.env && s.parent.Some? { ExistsGrown(s.parent.value, t.parent.value, x); }
    }
  }

  /** Ready for the next piece of code, in the scope the first one left. */
  lemma ReadyNext(w: World, vars: seq<Binding>, sight: Sight, s: Scope, s': Scope, last: Scope, out: nat, st: State,
      t: State, called: bool)
    requires Ready(w, vars, sight, s, last, out, st) && Evolves(s, s') && Adds(s, s', w.globals)
    requires Keeps(st, t, s.varCount, out) && (!called ==> t.upvals == st.upvals)
    ensures Ready(w, vars, Later(sight, called), s', last, out, t)
  {
    MatchKept(w, vars, sight, s, last, st, t, s.varCount, out, called);
    MatchMore(w, vars, Later(sight, called), s, s', last, t);
    VisibleMore(vars, s, s', w.globals);
  }

  /** Ready for an operand in a fresh register. */
  lemma ReadyPushed(w: World, vars: seq<Binding>, sight: Sight, s: Scope, last: Scope, out: nat, st: State)
    requires Ready(w, vars, sight, s, last, out, st) && Push(s).Some?
    ensures var s1 := Push(s).value; Ready(w, vars, sight, s1, last, s1.varCount, st)
  {
    var s1 := Push(s).value;
    PushOk(s);
    forall x ensures Exists(s1, x) == Exists(s, x) {}
  }

  /** A variable bound to a fresh register. */
  lemma ReadyBound(w: World, vars: seq<Binding>, sight: Sight, s: Scope, name: string, v: Val, reg: nat, last: Scope,
      out: nat, t: State)
    requires Ready(w, vars, sight, s, last, reg, t) && reg == s.varCount && !Exists(s, name) && name !in w.globals
    requires reg < REGISTER_COUNT && Rel(w, v, Regs(t)[reg]) && out < reg
    requires forall x :: x in s.env ==> s.env[x] != Register(out)
    ensures Ready(w, vars + [Binding(name, v)], Bound(sight, name), s.(env := s.env[name := Register(reg)]), last,
        out, t)
  {
    hide Rel, Holds, Names, Exists, ScopeOk;
    var s1 := s.(env := s.env[name := Register(reg)]);
    var more := vars + [Binding(name, v)];
    InsertedOk(s, name, reg);
    assert more[..|more| - 1] == vars;
    NamesSnoc(vars, name, v);
    forall x ensures Exists(s1, x) <==> Exists(s, x) || x == name { InsertedExists(s, name, reg, x); }
    forall x | x in Bound(sight, name).locals ensures x in Names(more)
        && Holds(w, x, Lookup(more, x).value, s1.env, last, t) {
      if x != name { assert Holds(w, x, Lookup(vars, x).value, s.env, last, t); }
      HoldsInserted(w, x, Lookup(more, x).value, s, name, v, reg, last, t);
    }
  }

  lemma InsertedOk(s: Scope, name: string, reg: nat)
    requires ScopeOk(s)
    ensures ScopeOk(s.(env := s.env[name := Register(reg)]))
  {
    OkInside(s, s.(env := s.env[name := Register(reg)]));
  }

  lemma InsertedExists(s: Scope, name: string, reg: nat, x: string)
    ensures Exists(s.(env := s.env[name := Register(reg)]), x) <==> Exists(s, x) || x == name
  {}

  lemma HoldsInserted(w: World, x: string, u: Val, s: Scope, name: string, v: Val, reg: nat, last: Scope, t: State)
    requires Shape(t) && (if x == name then u == v else Holds(w, x, u, s.env, last, t))
    requires reg < REGISTER_COUNT && Rel(w, v, Regs(t)[reg])
    ensures Holds(w, x, u, s.env[name := Register(reg)], last, t)
  {
    hide Rel;
  }

  lemma NamesSnoc(vars: seq<Binding>, name: string, v: Val)
    ensures Names(vars + [Binding(name, v)]) == Names(vars) + {name}
  {
    var more := vars + [Binding(name, v)];
    forall x | x in Names(vars) ensures x in Names(more) {
      var b :| b in vars && b.name == x;
      assert b in more;
    }
    assert Binding(name, v) in more;
  }

  // ---------- reading variables ----------

  /** The reference a name has in a later scope reads the variable. */
  lemma ReadsRef(w: World, vars: seq<Binding>, sight: Sight, s: Scope, t: Scope, last: Scope, out: nat, st: State,
      name: string)
    requires Ready(w, vars, sight, s, last, out, st) && name in sight.locals
    requires t.env == s.env && ScopeOk(t) && Grown(t, last) && Ref(t, name).Some?
    ensures GetVar(st, Ref(t, name).value).Some?
    ensures Rel(w, Lookup(vars, name).value, GetVar(st, Ref(t, name).value).value)
  {
    hide Rel;
    assert Holds(w, name, Lookup(vars, name).value, s.env, last, st);
    if name !in s.env {
      RefStable(t.parent.value, last.parent.value, name);
      var j := Ref(t, name).value.idx;
      assert t.upvals[j] == last.upvals[j];
    }
  }

  /** A variable reference of the compiled code reads the variable. */
  lemma ReadsVariable(w: World, vars: seq<Binding>, sight: Sight, s: Scope, last: Scope, out: nat, st: State,
      name: string)
    requires Ready(w, vars, sight, s, last, out, st) && name in sight.locals
    requires Grown(Search(s, name).1, last)
    ensures var (found, t) := Search(s, name);
            && found.Some? && GetVar(st, found.value).Some?
            && Rel(w, Lookup(vars, name).value, GetVar(st, found.value).value)
  {
    hide Rel, Match, GetVar;
    SearchFinds(s, name);
    ReadsRef(w, vars, sight, s, Search(s, name).1, last, out, st, name);
  }

  /** What a closure captures can be read. */
  lemma CapturesReadable(w: World, vars: seq<Binding>, sight: Sight, s: Scope, child: Scope, last: Scope, out: nat,
      st: State)
    requires Ready(w, vars, sight, s, last, out, st) && ScopeOk(child) && child.parent.Some?
        && Grown(child.parent.value, last)
    requires RefsOk(child.upvals) && (sight.nested ==> sight.clean)
    ensures GetVars(st, child.upvals).Some?
  {
    forall k | 0 <= k < |child.upvals| ensures GetVar(st, child.upvals[k]).Some? {
      assert RefOk(child.upvals[k]);
    }
  }

  /** The values of consecutive registers. */
  lemma ReadsRegisters<V>(st: Config<V>, base: nat, n: nat) returns (xs: seq<V>)
    requires Shape(st) && (n == 0 || base + n < REGISTER_COUNT)
    ensures |xs| == n && forall i :: 0 <= i < n ==> xs[i] == Regs(st)[base + 1 + i]
    ensures GetVars(st, seq(n, i requires 0 <= i < n => Register(base + 1 + i))) == Some(xs)
  {
    var refs: seq<VarRef> := seq(n, i requires 0 <= i < n => Register(base + 1 + i));
    xs := GetVars(st, refs).value;
    forall i | 0 <= i < n ensures xs[i] == Regs(st)[base + 1 + i] {
      assert GetVar(st, refs[i]) == Some(xs[i]);
    }
  }

  /** Some of the variables read. */
  lemma {:induction false} GetVarsPrefix<V>(st: Config<V>, refs: seq<VarRef>, n: nat)
    requires Shape(st) && n <= |refs| && GetVars(st, refs).Some?
    ensures GetVars(st, refs[..n]) == Some(GetVars(st, refs).value[..n])
    decreases refs
  {
    hide GetVar;
    if n == |refs| {
      assert refs[..n] == refs && GetVars(st, refs).value[..n] == GetVars(st, refs).value;
    } else {
      var front := refs[..|refs| - 1];
      GetVarsPrefix(st, front, n);
      assert front[..n] == refs[..n];
      var vals := GetVars(st, front).value;
      assert GetVars(st, refs).value == vals + [GetVar(st, refs[|refs| - 1]).value];
      assert (vals + [GetVar(st, refs[|refs| - 1]).value])[..n] == vals[..n];
    }
  }

  /** Storing a result. */
  lemma StoresResult(w: World, st: State, out: nat, v: Val, x: Value, next: nat, limit: nat, called: bool)
    requires Shape(st) && out < REGISTER_COUNT && Rel(w, v, x)
    ensures SetReg(st, Register(out), x, next).Some?
    ensures After(w, st, SetReg(st, Register(out), x, next).value, next, limit, out, v, called)
  {}
}
