/**
 Whole runs of the list operations against the plain-sequence model.
 */
module ListRuns {
  import opened Seqs
  import opened Nodes
  import opened Lookup
  import opened Vectors
  import opened Slice

  /** A program of list operations. */
  datatype ListExpr<T> =
    | NewList
    | PushTo(list: ListExpr<T>, elt: T)
    | Append(left: ListExpr<T>, right: ListExpr<T>)
    | Cut(list: ListExpr<T>, from: nat, to: nat)

  /** What the program means. */
  function Meaning<T>(e: ListExpr<T>): seq<T> {
    match e
    case NewList => []
    case PushTo(list, elt) => Meaning(list) + [elt]
    case Append(left, right) => Meaning(left) + Meaning(right)
    case Cut(list, from, to) => SliceOf(Meaning(list), from, to)
  }

  /** Only pushes and concats. */
  predicate Built<T>(e: ListExpr<T>) {
    match e
    case NewList => true
    case PushTo(list, _) => Built(list)
    case Append(left, right) => Built(left) && Built(right)
    case Cut(_, _, _) => false
  }

  /** Any number of slices of a list built by pushes and concats. */
  predicate CutOfBuilt<T>(e: ListExpr<T>) {
    Built(e) || (e.Cut? && CutOfBuilt(e.list))
  }

  /** A part of the program. */
  predicate Within<T(==)>(part: ListExpr<T>, e: ListExpr<T>) {
    part == e ||
    match e
    case NewList => false
    case PushTo(list, _) => Within(part, list)
    case Append(left, right) => Within(part, left) || Within(part, right)
    case Cut(list, _, _) => Within(part, list)
  }

  /** How a run ends: with a list, or before a push or a concat that would break the
      list it is applied to. */
  datatype Outcome<T> =
    | Done(list: Rrb<T>)
    | UnsafePush(list: Rrb<T>, elt: T)
    | UnsafeAppend(left: Rrb<T>, right: Rrb<T>)

  /** A list with the tree invariant, which stands for `s`. */
  ghost predicate Represents<T>(v: Rrb<T>, s: seq<T>) {
    Valid(v, Exact) && Valid(v, Indexable) && Contents(v) == s
  }

  /** A run that does not end in a list stopped at the operation `at` of the program
      e, on the right arguments, because the guard of that operation failed. */
  ghost predicate StopsAt<T>(r: Outcome<T>, at: ListExpr<T>, e: ListExpr<T>) {
    Within(at, e) &&
    match r
    case Done(_) => false
    case UnsafePush(v, elt) => at.PushTo? && at.elt == elt && Represents(v, Meaning(at.list)) && !PushSafe(v)
    case UnsafeAppend(l, r) =>
      at.Append? && Represents(l, Meaning(at.left)) && Represents(r, Meaning(at.right)) && !ConcatSafe(l, r)
  }

  lemma StopsAbove<T>(r: Outcome<T>, at: ListExpr<T>, part: ListExpr<T>, e: ListExpr<T>)
    requires StopsAt(r, at, part) && Within(part, e)
    ensures StopsAt(r, at, e)
  {
    WithinTrans(at, part, e);
  }

  lemma {:induction false} WithinTrans<T>(a: ListExpr<T>, b: ListExpr<T>, c: ListExpr<T>)
    requires Within(a, b) && Within(b, c)
    ensures Within(a, c)
    decreases c
  {
    if b != c {
      match c
      case PushTo(list, _) => WithinTrans(a, b, list);
      case Append(left, right) => if Within(b, left) { WithinTrans(a, b, left); } else { WithinTrans(a, b, right); }
      case Cut(list, _, _) => WithinTrans(a, b, list);
    }
  }

  /** Any program of pushes, concats and slices, in any order: unless it comes to an
      unsafe push or concat, the list equals the sequence model, and so does every
      lookup.  Pushes and concats alone never do, nor do slices of what they built. */
  method Run<T>(e: ListExpr<T>) returns (r: Outcome<T>, ghost at: ListExpr<T>)
    ensures r.Done? ==> Represents(r.list, Meaning(e))
    ensures r.Done? ==> forall i: nat :: NthOf(r.list, i) == if i < |Meaning(e)| then Some(Meaning(e)[i]) else None
    ensures !r.Done? ==> StopsAt(r, at, e)
    ensures Built(e) ==> r.Done? && Valid(r.list, Strong)
    ensures CutOfBuilt(e) ==> r.Done?
    decreases e
  {
    hide Valid, Contents, PushSafe, ConcatSafe, NthOf;
    match e {
      case NewList =>
        EmptyIsStrong<T>();
        r := Done(Empty());
        at := e;
      case PushTo(list, elt) =>
        r, at := Run(list);
        if r.Done? {
          r := PushStep(r.list, elt, Built(list), list);
          at := e;
        } else {
          StopsAbove(r, at, list, e);
        }
      case Append(left, right) =>
        var l, r';
        l, at := Run(left);
        if !l.Done? {
          StopsAbove(l, at, left, e);
          r := l;
        } else {
          r', at := Run(right);
          if !r'.Done? {
            StopsAbove(r', at, right, e);
            r := r';
          } else {
            r := AppendStep(l.list, r'.list, Built(e), left, right);
            at := e;
          }
        }
      case Cut(list, from, to) =>
        r, at := Run(list);
        if r.Done? {
          var v := SliceList(r.list, from, to);
          r := Done(v);
        } else {
          StopsAbove(r, at, list, e);
        }
    }
    if r.Done? { LookupsAgree(r.list, Meaning(e)); }
  }

  lemma EmptyIsStrong<T>()
    ensures Valid(Empty<T>(), Strong) && Represents(Empty<T>(), [])
  {}

  lemma LookupsAgree<T>(v: Rrb<T>, s: seq<T>)
    requires Represents(v, s)
    ensures HeaderOk(v) && forall i: nat :: NthOf(v, i) == if i < |s| then Some(s[i]) else None
  {
    hide NthOf, Contents;
    NthIsIndexing(v, 0);
    forall i: nat ensures NthOf(v, i) == if i < |s| then Some(s[i]) else None { NthIsIndexing(v, i); }
  }

  method PushStep<T>(v: Rrb<T>, elt: T, ghost strong: bool, ghost list: ListExpr<T>) returns (r: Outcome<T>)
    requires Represents(v, Meaning(list)) && (strong ==> Valid(v, Strong))
    ensures r.Done? ==> Represents(r.list, Meaning(list) + [elt])
    ensures !r.Done? ==> StopsAt(r, PushTo(list, elt), PushTo(list, elt))
    ensures strong ==> r.Done? && Valid(r.list, Strong)
  {
    if strong { StrongIsSafe(v); }
    if PushSafe(v) {
      var w := Push(v, elt);
      r := Done(w);
    } else {
      r := UnsafePush(v, elt);
    }
  }

  method AppendStep<T>(v: Rrb<T>, w: Rrb<T>, ghost strong: bool, ghost left: ListExpr<T>, ghost right: ListExpr<T>)
    returns (r: Outcome<T>)
    requires Represents(v, Meaning(left)) && Represents(w, Meaning(right))
    requires strong ==> Valid(v, Strong) && Valid(w, Strong)
    ensures r.Done? ==> Represents(r.list, Meaning(left) + Meaning(right))
    ensures !r.Done? ==> StopsAt(r, Append(left, right), Append(left, right))
    ensures strong ==> r.Done? && Valid(r.list, Strong)
  {
    if strong { StrongConcatSafe(v, w); }
    if ConcatSafe(v, w) {
      var x := Concat(v, w, if strong then Strong else Exact);
      if strong { ValidWeaken(x, Strong, Exact); }
      SafeKeepsLeft(v, w);
      r := Done(x);
    } else {
      r := UnsafeAppend(v, w);
    }
  }

  lemma SafeKeepsLeft<T>(v: Rrb<T>, w: Rrb<T>)
    requires Valid(v, Exact) && Valid(w, Exact) && Valid(v, Indexable) && ConcatSafe(v, w)
    ensures !DropsLeftTree(v, w)
  {
    RootedIsNotEmpty(v, Exact);
    RootedIsNotEmpty(w, Exact);
  }
}
