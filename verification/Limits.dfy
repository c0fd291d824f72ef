/**
 What the compiler takes: the registers, names and byte lengths that decide whether it
 gives code, read off the source expression.
 */
module Limits {
  import opened Seqs
  import opened Ast
  import opened Bytecode
  import opened Codegen
  import opened Scopes

  /** A register of one of the functions around each other, the outermost at level 0. */
  datatype Place = Place(level: nat, reg: nat)

  /** What is known where an expression stands: how deep its function lies, the registers
      taken there, and where each visible name lives. */
  datatype View = View(level: nat, count: nat, names: map<string, Place>)

  /** One register more. */
  function Taken(v: View): View {
    v.(count := v.count + 1)
  }

  /** The view at the start of a function at this level. */
  function Entered(params: seq<string>, level: nat, names: map<string, Place>): View {
    View(level, |params|, names + ParamNames(params, level))
  }

  /** Arguments live in the registers from 1 on. */
  function ParamNames(params: seq<string>, level: nat): map<string, Place> {
    map x | x in params :: Place(level, LastIndex(params, x) + 1)
  }

  function LastIndex(params: seq<string>, x: string): (i: nat)
    requires x in params
    ensures i < |params| && params[i] == x && x !in params[i + 1..]
  {
    if params[|params| - 1] == x then |params| - 1 else LastIndex(params[..|params| - 1], x)
  }

  /** The operators with an opcode of their own, by the number of operands. */
  function OperandsOf(name: string): Option<nat> {
    if name in {"file_pwd", "gc_collect"} then Some(0)
    else if name in {"!", "exit", "print", "file_ls", "list_count", "string_count", "code_load", "function_name",
                     "term_to_string"} then Some(1)
    else if name in {"+", "++", "-", "==", "!=", ">", "tuple_nth", "list_nth", "string_contains"} then Some(2)
    else if name in {"list_slice", "string_slice"} then Some(3)
    else None
  }

  // ---------- what an expression takes and reads ----------

  /** The view behind an expression: a let binds its name, an if and a let keep a
      register, operands give theirs back. */
  function After(e: Expr, v: View): (w: View)
    ensures w.level == v.level && w.count >= v.count
    decreases e, 0
  {
    match e
    case Let(name, right) =>
      var w := After(right, Taken(v));
      w.(names := w.names[name := Place(v.level, v.count + 1)])
    case Apply(_, name, args) =>
      if name == "&&" || name == "||" then
        if |args| < 2 then v else After(args[1], After(args[0], v))
      else
        Released(AfterOperands(args, v), |args|)
    case TupleLit(elems) => Released(AfterOperands(elems, v), |elems|)
    case ListLit(elems) => Released(AfterOperands(elems, v), |elems|)
    case If(cond, body, elseBody) => After(cond, Taken(AfterItems(elseBody, AfterItems(body, v))))
    case _ => v
  }

  function Released(v: View, n: nat): View
    requires n <= v.count
  {
    v.(count := v.count - n)
  }

  function AfterOperands(es: seq<Expr>, v: View): (w: View)
    ensures w.level == v.level && w.count >= v.count + |es|
    decreases es, 0
  {
    if es == [] then v else AfterOperands(es[1..], After(es[0], Taken(v)))
  }

  function AfterItems(es: seq<Expr>, v: View): (w: View)
    ensures w.level == v.level && w.count >= v.count
    decreases es, 0
  {
    if es == [] then v else AfterItems(es[1..], After(es[0], v))
  }

  function Lives(v: View, name: string): set<Place> {
    if name in v.names then {v.names[name]} else {}
  }

  /** The registers an expression reads by name, at any level. */
  function Reads(e: Expr, v: View): set<Place>
    decreases e, 0
  {
    match e
    case Ident(name) => Lives(v, name)
    case Let(_, right) => Reads(right, Taken(v))
    case Apply(_, name, args) =>
      if name == "&&" || name == "||" then
        if |args| < 2 then {} else Reads(args[0], v) + Reads(args[1], After(args[0], v))
      else
        OperandReads(args, v) + if OperandsOf(name).Some? then {} else Lives(AfterOperands(args, v), name)
    case TupleLit(elems) => OperandReads(elems, v)
    case ListLit(elems) => OperandReads(elems, v)
    case If(cond, body, elseBody) =>
      var (t, f) := (AfterItems(body, v), AfterItems(elseBody, AfterItems(body, v)));
      ItemReads(body, v) + ItemReads(elseBody, t) + Reads(cond, Taken(f))
    case Lambda(params, body) => ItemReads(body, Entered(params, v.level + 1, v.names))
    case _ => {}
  }

  function OperandReads(es: seq<Expr>, v: View): set<Place>
    decreases es, 0
  {
    if es == [] then {} else Reads(es[0], Taken(v)) + OperandReads(es[1..], After(es[0], Taken(v)))
  }

  function ItemReads(es: seq<Expr>, v: View): set<Place>
    decreases es, 0
  {
    if es == [] then {} else Reads(es[0], v) + ItemReads(es[1..], After(es[0], v))
  }

  /** The registers of functions further out, each captured once. */
  function Outer(places: set<Place>, level: nat): set<Place> {
    set p | p in places && p.level < level
  }

  // ---------- lengths and limits ----------

  /** The bytes of an expression once loaded. */
  function Length(e: Expr, v: View): nat
    decreases e, 0
  {
    match e
    case IntLit(_) => 4
    case TrueLit => 2
    case FalseLit => 2
    case NilLit => 2
    case StrLit(_) => 3
    case CaptureFn(_, _, _) => 4
    case Ident(_) => 3
    case Let(_, right) => Length(right, Taken(v))
    case Apply(_, name, args) =>
      if name == "&&" then if |args| < 2 then 0 else Length(args[0], v) + 5 + Length(args[1], After(args[0], v))
      else if name == "||" then if |args| < 2 then 0 else Length(args[0], v) + 3 + Length(args[1], After(args[0], v))
      else
        OperandsLength(args, v)
        + if OperandsOf(name).None? then 4 + |args|
          else if name == "exit" || name == "print" then 2
          else 2 + OperandsOf(name).value
    case TupleLit(elems) => OperandsLength(elems, v) + 3 + |elems|
    case ListLit(elems) => OperandsLength(elems, v) + 3 + |elems|
    case If(cond, body, elseBody) =>
      var (t, f) := (AfterItems(body, v), AfterItems(elseBody, AfterItems(body, v)));
      Length(cond, Taken(f)) + 5 + BlockLength(elseBody, t) + BlockLength(body, v)
    case Lambda(params, body) =>
      var w := Entered(params, v.level + 1, v.names);
      5 + |Outer(ItemReads(body, w), w.level)| + BlockLength(body, w) + 1
  }

  function OperandsLength(es: seq<Expr>, v: View): nat
    decreases es, 0
  {
    if es == [] then 0 else Length(es[0], Taken(v)) + OperandsLength(es[1..], After(es[0], Taken(v)))
  }

  /** An empty block stores nil. */
  function BlockLength(es: seq<Expr>, v: View): nat
    decreases es, 1
  {
    if es == [] then 2 else ItemsLength(es, v)
  }

  function ItemsLength(es: seq<Expr>, v: View): nat
    decreases es, 0
  {
    if es == [] then 0 else Length(es[0], v) + ItemsLength(es[1..], After(es[0], v))
  }

  /** The compiler takes an expression: integers fit 16 bits, names that stand alone are
      visible and names that are bound are new, operators have their operands, there are at
      most 255 registers, and what a jump leads over, with the jump itself, has at most 255
      bytes. */
  predicate Fits(e: Expr, v: View)
    decreases e, 0
  {
    match e
    case IntLit(val) => val <= 65535
    case Ident(name) => name in v.names
    case Let(name, right) => name !in v.names && v.count < 255 && Fits(right, Taken(v))
    case Apply(_, name, args) =>
      if name == "&&" || name == "||" then
        && |args| >= 2 && Fits(args[0], v) && Fits(args[1], After(args[0], v))
        && Length(args[1], After(args[0], v)) + 1 <= 255
      else
        OperandsFit(args, v) && (OperandsOf(name).Some? ==> |args| >= OperandsOf(name).value)
    case TupleLit(elems) => OperandsFit(elems, v)
    case ListLit(elems) => OperandsFit(elems, v)
    case If(cond, body, elseBody) =>
      var (t, f) := (AfterItems(body, v), AfterItems(elseBody, AfterItems(body, v)));
      && ItemsFit(body, v) && ItemsFit(elseBody, t) && f.count < 255 && Fits(cond, Taken(f))
      && BlockLength(body, v) + 1 <= 255 && BlockLength(elseBody, t) + 2 + 1 <= 255
    case Lambda(params, body) =>
      var w := Entered(params, v.level + 1, v.names);
      |params| <= 255 && ItemsFit(body, w) && BlockLength(body, w) + 1 + 1 <= 255
    case _ => true
  }

  predicate OperandsFit(es: seq<Expr>, v: View)
    decreases es, 0
  {
    es == [] || (v.count < 255 && Fits(es[0], Taken(v)) && OperandsFit(es[1..], After(es[0], Taken(v))))
  }

  predicate ItemsFit(es: seq<Expr>, v: View)
    decreases es, 0
  {
    es == [] || (Fits(es[0], v) && ItemsFit(es[1..], After(es[0], v)))
  }

  /** A function of a module. */
  predicate FunctionFits(f: FunDef) {
    |f.params| <= 255 && ItemsFit(f.body, Entered(f.params, 0, map[]))
  }

  lemma {:induction false} LengthPositive(e: Expr, v: View)
    requires Fits(e, v)
    ensures Length(e, v) > 0
    decreases e
  {
    hide After, Reads, Outer;
    match e
    case Let(_, right) => LengthPositive(right, Taken(v));
    case _ =>
  }

  // ---------- the scopes of the code generator, as views ----------

  function Depth(s: Scope): nat {
    if s.parent.None? then 0 else 1 + Depth(s.parent.value)
  }

  function Visible(s: Scope): map<string, Place> {
    (if s.parent.None? then map[] else Visible(s.parent.value))
    + OwnNames(s.env, Depth(s))
  }

  function OwnNames(env: map<string, VarRef>, level: nat): map<string, Place> {
    map x | x in env && env[x].Register? :: Place(level, env[x].reg)
  }

  function ViewOf(s: Scope): View {
    View(Depth(s), s.varCount, Visible(s))
  }

  /** The register that a reference leads to. */
  function Leads(s: Scope, r: VarRef): Place {
    match r
    case Register(reg) => Place(Depth(s), reg)
    case Upvalue(i) =>
      if s.parent.Some? && i < |s.upvals| then Leads(s.parent.value, s.upvals[i]) else Place(Depth(s), 0)
  }

  /** The registers a function has captured. */
  function Held(s: Scope): set<Place> {
    if s.parent.None? then {} else set i | 0 <= i < |s.upvals| :: Leads(s.parent.value, s.upvals[i])
  }

  predicate RefIn(s: Scope, r: VarRef) {
    r.Upvalue? ==> r.idx < |s.upvals|
  }

  /** From s to t every function around has captured what it had to of these registers. */
  ghost predicate Captures(s: Scope, t: Scope, places: set<Place>)
    decreases s
  {
    && Held(t) == Held(s) + Outer(places, Depth(s))
    && (s.parent.Some? <==> t.parent.Some?)
    && (s.parent.Some? ==> Captures(s.parent.value, t.parent.value, places))
  }

  lemma {:induction false} VisibleExists(s: Scope, name: string)
    requires ScopeOk(s)
    ensures name in Visible(s) <==> Exists(s, name)
    ensures name in Visible(s) ==> Visible(s)[name].level <= Depth(s)
    decreases s
  {
    if s.parent.Some? { VisibleExists(s.parent.value, name); }
  }

  lemma {:induction false} LeadsInside(s: Scope, r: VarRef)
    requires ScopeOk(s) && RefIn(s, r)
    ensures Leads(s, r).level <= Depth(s)
    ensures r.Upvalue? ==> Leads(s, r).level < Depth(s)
    decreases s
  {
    if r.Upvalue? { LeadsInside(s.parent.value, s.upvals[r.idx]); }
  }

  /** Different references lead to different registers. */
  lemma {:induction false} LeadsApart(s: Scope, a: VarRef, b: VarRef)
    requires ScopeOk(s) && RefIn(s, a) && RefIn(s, b) && Leads(s, a) == Leads(s, b)
    ensures a == b
    decreases s
  {
    LeadsInside(s, a);
    LeadsInside(s, b);
    if a.Upvalue? { LeadsApart(s.parent.value, s.upvals[a.idx], s.upvals[b.idx]); }
  }

  lemma {:induction false} HeldSize(s: Scope)
    requires ScopeOk(s)
    ensures |Held(s)| == |s.upvals|
  {
    if s.parent.Some? {
      var p := s.parent.value;
      var places := seq(|s.upvals|, i requires 0 <= i < |s.upvals| => Leads(p, s.upvals[i]));
      forall i, j | 0 <= i < j < |places| ensures places[i] != places[j] {
        if places[i] == places[j] { LeadsApart(p, s.upvals[i], s.upvals[j]); }
      }
      DistinctSize(places);
      assert forall i :: 0 <= i < |places| ==> places[i] == Leads(p, s.upvals[i]);
      assert forall q :: q in Held(s) <==> exists i :: 0 <= i < |places| && places[i] == q;
      assert Held(s) == set i | 0 <= i < |places| :: places[i];
    }
  }

  lemma {:induction false} DistinctSize(a: seq<Place>)
    requires forall i, j :: 0 <= i < j < |a| ==> a[i] != a[j]
    ensures |set i | 0 <= i < |a| :: a[i]| == |a|
  {
    if a != [] {
      var n := |a| - 1;
      DistinctSize(a[..n]);
      assert (set i | 0 <= i < |a| :: a[i]) == (set i | 0 <= i < n :: a[..n][i]) + {a[n]};
    }
  }

  lemma {:induction false} LeadsStays(s: Scope, t: Scope, r: VarRef)
    requires ScopeOk(s) && Grown(s, t) && RefIn(s, r)
    ensures Depth(t) == Depth(s) && Leads(t, r) == Leads(s, r)
    decreases s
  {
    if s.parent.Some? {
      LeadsStays(s.parent.value, t.parent.value, Register(0));
      if r.Upvalue? { LeadsStays(s.parent.value, t.parent.value, s.upvals[r.idx]); }
    }
  }

  lemma {:induction false} CapturesNone(s: Scope, places: set<Place>)
    requires forall p :: p in places ==> p.level >= Depth(s)
    ensures Captures(s, s, places)
    decreases s
  {
    if s.parent.Some? { CapturesNone(s.parent.value, places); }
  }

  lemma {:induction false} CapturesDepth(s: Scope, t: Scope, a: set<Place>)
    requires Captures(s, t, a)
    ensures Depth(s) == Depth(t)
    decreases s
  {
    if s.parent.Some? { CapturesDepth(s.parent.value, t.parent.value, a); }
  }

  lemma {:induction false} CapturesThen(s: Scope, t: Scope, u: Scope, a: set<Place>, b: set<Place>)
    requires Captures(s, t, a) && Captures(t, u, b)
    ensures Captures(s, u, a + b)
    decreases s
  {
    hide Held;
    CapturesDepth(s, t, a);
    if s.parent.Some? { CapturesThen(s.parent.value, t.parent.value, u.parent.value, a, b); }
  }

  /** Registers and names of the function itself do not matter. */
  lemma CapturesInside(s: Scope, t: Scope, s1: Scope, t1: Scope, a: set<Place>)
    requires Captures(s, t, a)
    requires s1.upvals == s.upvals && s1.parent == s.parent && t1.upvals == t.upvals && t1.parent == t.parent
    ensures Captures(s1, t1, a)
  {
    hide Leads;
  }

  /** What a lookup does: it finds the visible names, and captures the register a name
      lives in, in every function on the way. */
  ghost predicate Looks(s: Scope, name: string, found: Option<VarRef>, t: Scope) {
    && (found.Some? <==> name in Visible(s))
    && (found.Some? ==> RefIn(t, found.value) && Leads(t, found.value) == Visible(s)[name])
    && Visible(t) == Visible(s) && Captures(s, t, Lives(ViewOf(s), name))
  }

  lemma {:induction false} SearchCaptures(s: Scope, name: string)
    requires ScopeOk(s)
    ensures var (found, t) := Search(s, name); Looks(s, name, found, t)
    decreases s
  {
    hide Looks, ScopeOk;
    if name in s.env {
      FoundHere(s, name);
    } else if s.parent.None? {
      NotFound(s, name);
    } else {
      var p := s.parent.value;
      OkOutside(s);
      SearchCaptures(p, name);
      SearchFinds(p, name);
      var (found, q) := Search(p, name);
      VisibleExists(p, name);
      if found.None? { NotFound(s, name); } else { FoundOutside(s, name, q, found.value); }
    }
  }

  lemma OkOutside(s: Scope)
    requires ScopeOk(s) && s.parent.Some?
    ensures ScopeOk(s.parent.value)
  {}

  lemma FoundHere(s: Scope, name: string)
    requires ScopeOk(s) && name in s.env
    ensures Looks(s, name, Some(s.env[name]), s)
  {
    CapturesNone(s, Lives(ViewOf(s), name));
  }

  lemma NotFound(s: Scope, name: string)
    requires name !in s.env && (s.parent.Some? ==> name !in Visible(s.parent.value))
    ensures Looks(s, name, None, s)
  {
    CapturesNone(s, {});
  }

  lemma FoundOutside(s: Scope, name: string, q: Scope, r: VarRef)
    requires ScopeOk(s) && name !in s.env && s.parent.Some? && Looks(s.parent.value, name, Some(r), q)
    requires Grown(s.parent.value, q) && s.parent.value.env == q.env
    ensures var (v, t) := PushUpval(s.(parent := Some(q)), r); Looks(s, name, Some(v), t)
  {
    hide Leads, Held, Search, Exists, Visible, ScopeOk, PushUpval;
    var p := s.parent.value;
    OkOutside(s);
    VisibleExists(p, name);
    CapturesDepth(p, q, Lives(ViewOf(p), name));
    PushCaptures(s, q, r, Visible(p)[name]);
    PushShape(s.(parent := Some(q)), r);
    SameNames(s, PushUpval(s.(parent := Some(q)), r).1, name);
    assert Outer({Visible(p)[name]}, Depth(s)) == {Visible(p)[name]};
  }

  lemma PushShape(s: Scope, r: VarRef)
    ensures var (v, t) := PushUpval(s, r); RefIn(t, v) && t.env == s.env && t.parent == s.parent
  {}

  lemma SameNames(s: Scope, t: Scope, name: string)
    requires s.parent.Some? && t.parent.Some? && t.env == s.env && name !in s.env
    requires Visible(t.parent.value) == Visible(s.parent.value) && Depth(t) == Depth(s)
    ensures Visible(t) == Visible(s)
    ensures name in Visible(s) <==> name in Visible(s.parent.value)
    ensures name in Visible(s) ==> Visible(s)[name] == Visible(s.parent.value)[name]
  {}

  lemma PushCaptures(s: Scope, q: Scope, r: VarRef, place: Place)
    requires s.parent.Some? && ScopeOk(s) && Grown(s.parent.value, q) && RefIn(q, r) && Leads(q, r) == place
    requires place.level < Depth(s) && s.parent.value.env == q.env
    ensures var (v, t) := PushUpval(s.(parent := Some(q)), r);
            Leads(t, v) == place && Held(t) == Held(s) + {place}
  {
    var p := s.parent.value;
    var (v, t) := PushUpval(s.(parent := Some(q)), r);
    forall i | 0 <= i < |s.upvals| ensures Leads(q, t.upvals[i]) == Leads(p, s.upvals[i]) {
      LeadsStays(p, q, s.upvals[i]);
    }
    if r !in s.upvals { IndexOfLast(s.upvals, r); }
    assert t.upvals[v.idx] == r;
    forall x ensures x in Held(t) <==> x in Held(s) + {place} {
      if x in Held(t) {
        var i :| 0 <= i < |t.upvals| && Leads(q, t.upvals[i]) == x;
        if i < |s.upvals| { assert Leads(p, s.upvals[i]) in Held(s); }
      }
      if x in Held(s) {
        var i :| 0 <= i < |s.upvals| && Leads(p, s.upvals[i]) == x;
        assert Leads(q, t.upvals[i]) in Held(t);
      }
    }
  }

  lemma {:induction false} VisibleAround(s: Scope, t: Scope)
    requires Around(s) == Around(t) && s.env == t.env
    ensures Visible(s) == Visible(t) && Depth(s) == Depth(t)
    decreases s
  {
    AroundSplit(s, t);
    if s.parent.Some? { VisibleAround(s.parent.value, t.parent.value); }
  }

  // ---------- the code generator ----------

  /** Code is given exactly when it should be; with the length, the view behind it and the
      captured registers as stated. */
  ghost predicate Meets(r: Option<Output>, s: Scope, fits: bool, after: View, length: nat, places: set<Place>) {
    && (r.Some? <==> fits)
    && (r.Some? ==>
          && ByteSizeOf(r.value.code) == length && ViewOf(r.value.scope) == after
          && ScopeOk(r.value.scope) && Captures(s, r.value.scope, places))
  }

  lemma Nothing(s: Scope)
    requires ScopeOk(s)
    ensures Meets(Some(Output([], s)), s, true, ViewOf(s), 0, {})
  {
    hide Visible;
    CapturesNone(s, {});
  }

  lemma OneMore(r: Output, i: Instr, s: Scope, after: View, length: nat, places: set<Place>)
    requires Meets(Some(r), s, true, after, length, places)
    ensures Meets(Some(Output(r.code + [i], r.scope)), s, true, after, length + ByteSize(i), places)
  {
    hide ScopeOk, Captures, ViewOf;
    ByteSizeOfConcat(r.code, [i]);
  }

  lemma One(i: Instr, s: Scope)
    requires ScopeOk(s)
    ensures Meets(Some(Output([i], s)), s, true, ViewOf(s), ByteSize(i), {})
  {
    hide Meets, ViewOf, ScopeOk;
    Nothing(s);
    OneMore(Output([], s), i, s, ViewOf(s), 0, {});
    assert [] + [i] == [i];
  }

  lemma InTurn(a: Output, b: Output, s: Scope, v: View, m: nat, p: set<Place>, w: View, n: nat, q: set<Place>)
    requires Meets(Some(a), s, true, v, m, p) && Meets(Some(b), a.scope, true, w, n, q)
    ensures Meets(Some(Output(a.code + b.code, b.scope)), s, true, w, m + n, p + q)
  {
    hide ScopeOk, Captures, ViewOf;
    ByteSizeOfConcat(a.code, b.code);
    CapturesThen(s, a.scope, b.scope, p, q);
  }

  /** The register counter has no part in names and captures. */
  lemma Recounted(r: Output, s: Scope, s1: Scope, n: nat, after: View, length: nat, places: set<Place>)
    requires Meets(Some(r), s1, true, after, length, places) && s1 == s.(varCount := s1.varCount)
    ensures Meets(Some(Output(r.code, r.scope.(varCount := n))), s, true, after.(count := n), length, places)
  {
    CapturesInside(s1, r.scope, s, r.scope.(varCount := n), places);
    OkInside(r.scope, r.scope.(varCount := n));
    VisibleAround(r.scope, r.scope.(varCount := n));
  }

  /** Operands are given back, and an instruction follows. */
  lemma Finished(a: Output, i: Instr, s: Scope, n: nat, w: View, length: nat, places: set<Place>)
    requires Meets(Some(a), s, true, w, length, places) && n <= w.count
    ensures n <= a.scope.varCount
    ensures Meets(Some(Output(a.code + [i], Popped(a.scope, n).1)), s, true, Released(w, n), length + ByteSize(i),
                  places)
  {
    hide ScopeOk, Captures, Visible;
    Recounted(a, s, s, a.scope.varCount - n, w, length, places);
    OneMore(Output(a.code, Popped(a.scope, n).1), i, s, Released(w, n), length, places);
  }

  /** The compiler gives code for an expression exactly when it fits, and the code has
      the length that was read off the expression. */
  lemma {:induction false} GenFits(e: Expr, out: nat, s: Scope, mod: string)
    requires ScopeOk(s)
    ensures var v := ViewOf(s); Meets(Gen(e, out, s, mod), s, Fits(e, v), After(e, v), Length(e, v), Reads(e, v))
    decreases e, 1
  {
    hide ViewOf, ScopeOk, Captures, Search, Exists, Branch, ApplyOp, Around, ByteSizeOf;
    match e
    case IntLit(val) => One(StoreInt(Register(out), val), s);
    case TrueLit => One(Plain(StoreTrue, [Register(out)]), s);
    case FalseLit => One(Plain(StoreFalse, [Register(out)]), s);
    case NilLit => One(Plain(StoreNil, [Register(out)]), s);
    case StrLit(text) => One(LoadString(Register(out), Text(text)), s);
    case CaptureFn(callee, name, arity) =>
      One(Capture(Register(out), QualifiedName(callee.GetOr(mod), name), arity), s);
    case Ident(name) => IdentFits(e, out, s, mod);
    case Let(_, _) => LetFits(e, out, s, mod);
    case Apply(_, name, _) =>
      if name == "&&" || name == "||" { ShortFits(e, out, s, mod); } else { ApplyFits(e, out, s, mod); }
    case TupleLit(elems) => TupleFits(e, out, s, mod);
    case ListLit(elems) => ListFits(e, out, s, mod);
    case If(_, _, _) => IfFits(e, out, s, mod);
    case Lambda(_, _) => LambdaFits(e, out, s, mod);
  }

  lemma IdentFits(e: Expr, out: nat, s: Scope, mod: string)
    requires e.Ident? && ScopeOk(s)
    ensures var v := ViewOf(s); Meets(Gen(e, out, s, mod), s, Fits(e, v), After(e, v), Length(e, v), Reads(e, v))
  {
    hide Captures, Visible, ScopeOk, Depth, Search, Exists;
    SearchLooks(s, e.name);
    var (found, t) := Search(s, e.name);
    if found.Some? {
      var i := Plain(Mov, [Register(out), found.value]);
      One(i, s);
      One(i, t);
    }
  }

  /** The lookup, for the view. */
  lemma SearchLooks(s: Scope, name: string)
    requires ScopeOk(s)
    ensures var (found, t) := Search(s, name);
            && (found.Some? <==> name in ViewOf(s).names) && ViewOf(t) == ViewOf(s)
            && ScopeOk(t) && Captures(s, t, Lives(ViewOf(s), name))
  {
    hide Visible, Search;
    SearchCaptures(s, name);
    SearchFinds(s, name);
    CapturesDepth(s, Search(s, name).1, Lives(ViewOf(s), name));
  }

  lemma {:induction false} LetFits(e: Expr, out: nat, s: Scope, mod: string)
    requires e.Let? && ScopeOk(s)
    ensures var v := ViewOf(s); Meets(Gen(e, out, s, mod), s, Fits(e, v), After(e, v), Length(e, v), Reads(e, v))
    decreases e, 0
  {
    hide Captures, Visible, ScopeOk, Depth, Exists, Around;
    var Let(name, right) := e;
    var v := ViewOf(s);
    VisibleExists(s, name);
    if name !in v.names && Push(s).Some? {
      var s1 := Push(s).value;
      PushOk(s);
      PushView(s);
      GenFits(right, s1.varCount, s1, mod);
      var r := Gen(right, s1.varCount, s1, mod);
      if r.Some? {
        Recounted(r.value, s, s1, r.value.scope.varCount, After(right, Taken(v)), Length(right, Taken(v)),
                  Reads(right, Taken(v)));
        NameBound(r.value, s, name, s1.varCount, After(right, Taken(v)), Length(right, Taken(v)),
                  Reads(right, Taken(v)));
      }
    }
  }

  lemma PushView(s: Scope)
    ensures Push(s).Some? <==> ViewOf(s).count < 255
    ensures Push(s).Some? ==> ViewOf(Push(s).value) == Taken(ViewOf(s))
  {
    if Push(s).Some? { VisibleAround(s, Push(s).value); }
  }

  lemma NameBound(r: Output, s: Scope, name: string, reg: nat, w: View, length: nat, places: set<Place>)
    requires Meets(Some(r), s, true, w, length, places)
    ensures Meets(Some(Output(r.code, r.scope.(env := r.scope.env[name := Register(reg)]))), s, true,
                  w.(names := w.names[name := Place(w.level, reg)]), length, places)
  {
    hide Captures, Visible;
    var t := r.scope.(env := r.scope.env[name := Register(reg)]);
    CapturesInside(s, r.scope, s, t, places);
    OkInside(r.scope, t);
    VisibleBound(r.scope, name, reg);
  }

  lemma VisibleBound(s: Scope, name: string, reg: nat)
    ensures Visible(s.(env := s.env[name := Register(reg)])) == Visible(s)[name := Place(Depth(s), reg)]
  {
    var t := s.(env := s.env[name := Register(reg)]);
    assert OwnNames(t.env, Depth(s)) == OwnNames(s.env, Depth(s))[name := Place(Depth(s), reg)];
  }

  lemma {:induction false} OperandsMeet(es: seq<Expr>, s: Scope, mod: string)
    requires ScopeOk(s)
    ensures var v := ViewOf(s);
            Meets(GenArgs(es, s, mod), s, OperandsFit(es, v), AfterOperands(es, v), OperandsLength(es, v),
                  OperandReads(es, v))
    decreases es, 0
  {
    hide Gen, Captures, Fits, After, Length, Reads, ViewOf, ScopeOk, ByteSizeOf, Around;
    Nothing(s);
    PushView(s);
    if es != [] && Push(s).Some? {
      var v := ViewOf(s);
      var s1 := Push(s).value;
      PushOk(s);
      GenFits(es[0], s1.varCount, s1, mod);
      var first := Gen(es[0], s1.varCount, s1, mod);
      if first.Some? {
        var w := After(es[0], Taken(v));
        var t := first.value.scope;
        Recounted(first.value, s, s1, t.varCount, w, Length(es[0], Taken(v)), Reads(es[0], Taken(v)));
        ViewCount(t);
        OperandsMeet(es[1..], t, mod);
        var rest := GenArgs(es[1..], t, mod);
        if rest.Some? {
          InTurn(first.value, rest.value, s, w, Length(es[0], Taken(v)), Reads(es[0], Taken(v)),
                 AfterOperands(es[1..], w), OperandsLength(es[1..], w), OperandReads(es[1..], w));
        }
      }
    }
  }

  lemma ViewCount(s: Scope)
    ensures ViewOf(s).count == s.varCount
  {}

  lemma {:induction false} TupleFits(e: Expr, out: nat, s: Scope, mod: string)
    requires e.TupleLit? && ScopeOk(s)
    ensures var v := ViewOf(s); Meets(Gen(e, out, s, mod), s, Fits(e, v), After(e, v), Length(e, v), Reads(e, v))
    decreases e, 0
  {
    hide Captures, ScopeOk, ViewOf, Around, GenArgs, ByteSizeOf, OperandsLength, OperandReads, OperandsFit;
    var v, n := ViewOf(s), |e.elems|;
    OperandsMeet(e.elems, s, mod);
    var a := GenArgs(e.elems, s, mod);
    if a.Some? {
      Finished(a.value, MakeTuple(Register(out), n, Popped(a.value.scope, n).0), s, n, AfterOperands(e.elems, v),
               OperandsLength(e.elems, v), OperandReads(e.elems, v));
    }
  }

  lemma {:induction false} ListFits(e: Expr, out: nat, s: Scope, mod: string)
    requires e.ListLit? && ScopeOk(s)
    ensures var v := ViewOf(s); Meets(Gen(e, out, s, mod), s, Fits(e, v), After(e, v), Length(e, v), Reads(e, v))
    decreases e, 0
  {
    hide Captures, ScopeOk, ViewOf, Around, GenArgs, ByteSizeOf, OperandsLength, OperandReads, OperandsFit;
    var v, n := ViewOf(s), |e.elems|;
    OperandsMeet(e.elems, s, mod);
    var a := GenArgs(e.elems, s, mod);
    if a.Some? {
      Finished(a.value, MakeList(Register(out), n, Popped(a.value.scope, n).0), s, n, AfterOperands(e.elems, v),
               OperandsLength(e.elems, v), OperandReads(e.elems, v));
    }
  }

  /** The operators, with their operands and the bytes of their instruction. */
  lemma OperatorSizes(name: string)
    ensures Primitive(name).Some? <==> OperandsOf(name).Some?
    ensures Primitive(name).Some? ==>
              var (op, n, ret) := Primitive(name).value;
              n == OperandsOf(name).value
              && 1 + Operands(op) == if name == "exit" || name == "print" then 2 else 2 + n
  {}

  lemma {:induction false} ApplyFits(e: Expr, out: nat, s: Scope, mod: string)
    requires e.Apply? && e.name != "&&" && e.name != "||" && ScopeOk(s)
    ensures var v := ViewOf(s); Meets(Gen(e, out, s, mod), s, Fits(e, v), After(e, v), Length(e, v), Reads(e, v))
    decreases e, 0
  {
    hide Captures, ScopeOk, ViewOf, Around, GenArgs, ByteSizeOf, OperandsLength, OperandReads, OperandsFit,
        OperandsOf, Primitive, Search;
    var Apply(callee, name, args) := e;
    var v, n := ViewOf(s), |args|;
    OperandsMeet(args, s, mod);
    var a := GenArgs(args, s, mod);
    OperatorSizes(name);
    if a.Some? {
      var (w, len, places) := (AfterOperands(args, v), OperandsLength(args, v), OperandReads(args, v));
      ViewCount(a.value.scope);
      var (locs, s1) := Popped(a.value.scope, n);
      var op := ApplyOp(callee, name, out, locs, s1, mod);
      if OperandsOf(name).Some? {
        OperatorCode(callee, name, out, locs, s1, mod);
        if op.Some? {
          assert op.value.code == [op.value.code[0]] && places + {} == places;
          Finished(a.value, op.value.code[0], s, n, w, len, places);
        }
      } else {
        Recounted(a.value, s, s, w.count - n, w, len, places);
        ViewCount(s1);
        CallMeets(callee, name, out, locs, s1, mod);
        InTurn(Output(a.value.code, s1), op.value, s, Released(w, n), len, places,
               Released(w, n), 4 + n, Lives(Released(w, n), name));
        assert Lives(Released(w, n), name) == Lives(w, name);
      }
    }
  }

  lemma OperatorCode(callee: Option<string>, name: string, out: nat, args: seq<VarRef>, s: Scope, mod: string)
    requires OperandsOf(name).Some?
    ensures var r := ApplyOp(callee, name, out, args, s, mod);
            && (r.Some? <==> |args| >= OperandsOf(name).value)
            && (r.Some? ==>
                  && r.value.scope == s && |r.value.code| == 1
                  && ByteSize(r.value.code[0])
                     == if name == "exit" || name == "print" then 2 else 2 + OperandsOf(name).value)
  {
    hide Primitive, OperandsOf, Operands, Around, Search;
    OperatorSizes(name);
  }

  lemma SizeOfOne(i: Instr)
    ensures ByteSizeOf([]) == 0 && ByteSizeOf([i]) == ByteSize(i)
  {
    assert ByteSizeOf([i]) == ByteSize(i) + ByteSizeOf([]);
  }

  lemma CallMeets(callee: Option<string>, name: string, out: nat, args: seq<VarRef>, s: Scope, mod: string)
    requires Primitive(name).None? && ScopeOk(s)
    ensures Meets(ApplyOp(callee, name, out, args, s, mod), s, true, ViewOf(s), 4 + |args|, Lives(ViewOf(s), name))
  {
    hide Captures, ScopeOk, ViewOf, Around, Search, Primitive;
    SearchLooks(s, name);
    var r := ApplyOp(callee, name, out, args, s, mod).value;
    assert r.code == [r.code[0]];
    SizeOfOne(r.code[0]);
  }

  /** The branch that is laid out, if both parts are not too long. */
  lemma BranchFits(reg: nat, t: seq<Instr>, f: seq<Instr>)
    ensures var long := if ByteSizeOf(t) > 0 then ByteSizeOf(f) + 2 else ByteSizeOf(f);
            var r := Branch(reg, t, f);
            && (r.Some? <==> ByteSizeOf(t) + 1 <= 255 && long + 1 <= 255)
            && (r.Some? ==> ByteSizeOf(r.value) == 3 + long + ByteSizeOf(t))
  {
    var over := ByteSizeOf(t) + 1;
    ByteSizeOfConcat(f, [Jmp(over)]);
    assert ByteSizeOf([Jmp(over)]) == 2 + ByteSizeOf([]);
    var r := Branch(reg, t, f);
    if r.Some? {
      var els := if ByteSizeOf(t) > 0 then f + [Jmp(over)] else f;
      ByteSizeOfConcat([r.value[0]], els);
      ByteSizeOfConcat([r.value[0]] + els, t);
    }
  }

  lemma {:induction false} ShortFits(e: Expr, out: nat, s: Scope, mod: string)
    requires e.Apply? && (e.name == "&&" || e.name == "||") && ScopeOk(s)
    ensures var v := ViewOf(s); Meets(Gen(e, out, s, mod), s, Fits(e, v), After(e, v), Length(e, v), Reads(e, v))
    decreases e, 0
  {
    hide Captures, ScopeOk, ViewOf, Around, ByteSizeOf, Branch;
    var v, args := ViewOf(s), e.args;
    if |args| >= 2 {
      GenFits(args[0], out, s, mod);
      var l := Gen(args[0], out, s, mod);
      if l.Some? {
        var w := After(args[0], v);
        GenFits(args[1], out, l.value.scope, mod);
        var r := Gen(args[1], out, l.value.scope, mod);
        if r.Some? {
          LengthPositive(args[1], w);
          SizeOfOne(Return);
          BranchFits(out, r.value.code, []);
          BranchFits(out, [], r.value.code);
          var branch := if e.name == "&&" then Branch(out, r.value.code, []) else Branch(out, [], r.value.code);
          if branch.Some? {
            InTurn(l.value, Output(branch.value, r.value.scope), s, w, Length(args[0], v), Reads(args[0], v),
                   After(args[1], w), ByteSizeOf(branch.value), Reads(args[1], w));
          }
        }
      }
    }
  }

  lemma {:induction false} BlockMeets(es: seq<Expr>, out: nat, s: Scope, mod: string)
    requires ScopeOk(s)
    ensures var v := ViewOf(s);
            Meets(GenBlock(es, out, s, mod), s, ItemsFit(es, v), AfterItems(es, v), BlockLength(es, v),
                  ItemReads(es, v))
    decreases es, 1
  {
    hide Captures, ScopeOk, ViewOf, Around, ByteSizeOf;
    if es == [] { One(Plain(StoreNil, [Register(out)]), s); } else { ItemsMeet(es, out, s, mod); }
  }

  lemma {:induction false} ItemsMeet(es: seq<Expr>, out: nat, s: Scope, mod: string)
    requires ScopeOk(s)
    ensures var v := ViewOf(s);
            Meets(GenItems(es, out, s, mod), s, ItemsFit(es, v), AfterItems(es, v), ItemsLength(es, v),
                  ItemReads(es, v))
    decreases es, 0
  {
    hide Gen, Captures, Fits, After, Length, Reads, ViewOf, ScopeOk, ByteSizeOf, Around;
    Nothing(s);
    if es != [] {
      var v := ViewOf(s);
      GenFits(es[0], out, s, mod);
      var first := Gen(es[0], out, s, mod);
      if first.Some? {
        var w, t := After(es[0], v), first.value.scope;
        ItemsMeet(es[1..], out, t, mod);
        var rest := GenItems(es[1..], out, t, mod);
        if rest.Some? {
          InTurn(first.value, rest.value, s, w, Length(es[0], v), Reads(es[0], v),
                 AfterItems(es[1..], w), ItemsLength(es[1..], w), ItemReads(es[1..], w));
        }
      }
    }
  }

  lemma {:induction false} ItemsPositive(es: seq<Expr>, v: View)
    requires ItemsFit(es, v)
    ensures BlockLength(es, v) > 0
  {
    hide After;
    if es != [] { LengthPositive(es[0], v); }
  }

  lemma {:induction false} IfFits(e: Expr, out: nat, s: Scope, mod: string)
    requires e.If? && ScopeOk(s)
    ensures var v := ViewOf(s); Meets(Gen(e, out, s, mod), s, Fits(e, v), After(e, v), Length(e, v), Reads(e, v))
    decreases e, 0
  {
    hide Captures, ScopeOk, ViewOf, Around, ByteSizeOf, Branch, GenBlock, BlockLength, ItemReads, AfterItems, ItemsFit;
    var If(cond, body, elseBody) := e;
    var v := ViewOf(s);
    BlockMeets(body, out, s, mod);
    var t := GenBlock(body, out, s, mod);
    if t.Some? {
      var (vt, mt, pt) := (AfterItems(body, v), BlockLength(body, v), ItemReads(body, v));
      BlockMeets(elseBody, out, t.value.scope, mod);
      var f := GenBlock(elseBody, out, t.value.scope, mod);
      if f.Some? {
        var (vf, mf, pf) := (AfterItems(elseBody, vt), BlockLength(elseBody, vt), ItemReads(elseBody, vt));
        PushView(f.value.scope);
        if Push(f.value.scope).Some? {
          var s1 := Push(f.value.scope).value;
          PushOk(f.value.scope);
          GenFits(cond, s1.varCount, s1, mod);
          var c := Gen(cond, s1.varCount, s1, mod);
          if c.Some? {
            var (vc, mc, pc) := (After(cond, Taken(vf)), Length(cond, Taken(vf)), Reads(cond, Taken(vf)));
            ItemsPositive(body, v);
            BranchFits(s1.varCount, t.value.code, f.value.code);
            var branch := Branch(s1.varCount, t.value.code, f.value.code);
            if branch.Some? {
              ConditionMeets(s, t.value, f.value, c.value, branch.value, vt, mt, pt, vf, mf, pf, vc, mc, pc);
            }
          }
        }
      }
    }
  }

  lemma ConditionMeets(s: Scope, t: Output, f: Output, c: Output, branch: seq<Instr>,
      vt: View, mt: nat, pt: set<Place>, vf: View, mf: nat, pf: set<Place>, vc: View, mc: nat, pc: set<Place>)
    requires Push(f.scope).Some?
    requires Meets(Some(t), s, true, vt, mt, pt) && Meets(Some(f), t.scope, true, vf, mf, pf)
    requires Meets(Some(c), Push(f.scope).value, true, vc, mc, pc)
    ensures Meets(Some(Output(c.code + branch, c.scope)), s, true, vc, mc + ByteSizeOf(branch), pt + pf + pc)
  {
    hide Captures, ScopeOk, Visible, Depth, ByteSizeOf;
    Recounted(c, f.scope, Push(f.scope).value, c.scope.varCount, vc, mc, pc);
    CapturesThen(s, t.scope, f.scope, pt, pf);
    CapturesThen(s, f.scope, c.scope, pt + pf, pc);
    ByteSizeOfConcat(c.code, branch);
  }

  lemma {:induction false} LambdaFits(e: Expr, out: nat, s: Scope, mod: string)
    requires e.Lambda? && ScopeOk(s)
    ensures var v := ViewOf(s); Meets(Gen(e, out, s, mod), s, Fits(e, v), After(e, v), Length(e, v), Reads(e, v))
    decreases e, 0
  {
    hide Captures, ScopeOk, Visible, Around, ByteSizeOf, BlockLength, ItemReads, ItemsFit, GenBlock, Held, Outer,
        AfterItems, Entered;
    var Lambda(params, body) := e;
    var v := ViewOf(s);
    if |params| <= 255 {
      var s0 := NewScope(params, Some(s)).value;
      var w := Entered(params, v.level + 1, v.names);
      EnteredView(params, Some(s));
      BlockMeets(body, 0, s0, mod);
      var b := GenBlock(body, 0, s0, mod);
      if b.Some? {
        BodyMeets(s0, s, b.value.scope, ItemReads(body, w));
        ByteSizeOfConcat(b.value.code, [Return]);
        SizeOfOne(Return);
        var code, upvals := b.value.code + [Return], b.value.scope.upvals;
        var i := AnonFn(Register(out), ByteSizeOf(code) + 1, |params|, upvals);
        ByteSizeOfConcat([i], code);
        SizeOfOne(i);
      }
    }
  }

  lemma {:induction false} ParamPlaces(params: seq<string>)
    ensures forall x :: x in ParamEnv(params) <==> x in params
    ensures forall x :: x in params ==> ParamEnv(params)[x] == Register(LastIndex(params, x) + 1)
  {
    if params != [] {
      ParamPlaces(params[..|params| - 1]);
      assert params == params[..|params| - 1] + [params[|params| - 1]];
    }
  }

  function NamesAround(parent: Option<Scope>): map<string, Place> {
    if parent.None? then map[] else Visible(parent.value)
  }

  lemma EnteredView(params: seq<string>, parent: Option<Scope>)
    requires |params| <= 255 && (parent.Some? ==> ScopeOk(parent.value))
    ensures var t := NewScope(params, parent).value;
            ScopeOk(t) && Held(t) == {} && ViewOf(t) == Entered(params, Depth(t), NamesAround(parent))
  {
    hide ParamEnv, LastIndex, OwnNames, ParamNames;
    ParamPlaces(params);
    ParamsVisible(params, Depth(NewScope(params, parent).value));
  }

  lemma ParamsVisible(params: seq<string>, level: nat)
    ensures OwnNames(ParamEnv(params), level) == ParamNames(params, level)
  {
    hide ParamEnv, LastIndex;
    ParamPlaces(params);
  }

  /** The nested function has captured what it reads of the functions around. */
  lemma BodyMeets(s0: Scope, s: Scope, b: Scope, places: set<Place>)
    requires s0.parent == Some(s) && Held(s0) == {} && ScopeOk(b) && Captures(s0, b, places)
    requires Around(s0) == Around(b)
    ensures b.parent.Some? && |b.upvals| == |Outer(places, Depth(s) + 1)|
    ensures ScopeOk(b.parent.value) && Captures(s, b.parent.value, places) && ViewOf(b.parent.value) == ViewOf(s)
  {
    HeldSize(b);
    AroundSplit(s0, b);
    VisibleAround(s, b.parent.value);
  }

  // ---------- functions and modules ----------

  /** A function is compiled exactly when it fits, and its code has the length read off
      it, with the return. */
  lemma FunctionCompiles(f: FunDef, mod: string)
    ensures GenFunction(f, mod).Some? <==> FunctionFits(f)
    ensures GenFunction(f, mod).Some? ==>
              ByteSizeOf(GenFunction(f, mod).value.code) == BlockLength(f.body, Entered(f.params, 0, map[])) + 1
  {
    hide Captures, ScopeOk, ViewOf, Visible, Around, ByteSizeOf, BlockLength, GenBlock, ItemsFit;
    if |f.params| <= 255 {
      var s := NewScope(f.params, None).value;
      EnteredView(f.params, None);
      BlockMeets(f.body, 0, s, mod);
      var b := GenBlock(f.body, 0, s, mod);
      if b.Some? {
        var w := Entered(f.params, 0, map[]);
        OneMore(b.value, Return, s, AfterItems(f.body, w), BlockLength(f.body, w), ItemReads(f.body, w));
      }
    }
  }

  /** A module is compiled exactly when all of its functions fit. */
  lemma {:induction false} ModuleCompiles(mod: string, fs: seq<FunDef>)
    ensures GenModule(mod, fs).Some? <==> forall i :: 0 <= i < |fs| ==> FunctionFits(fs[i])
  {
    hide GenFunction, FunctionFits;
    if fs != [] {
      FunctionCompiles(fs[0], mod);
      ModuleCompiles(mod, fs[1..]);
      assert forall i :: 1 <= i < |fs| ==> fs[i] == fs[1..][i - 1];
      assert forall i :: 0 <= i < |fs[1..]| ==> fs[1..][i] == fs[i + 1];
    }
  }
}
