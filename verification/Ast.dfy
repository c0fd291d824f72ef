/** The syntax tree the compiler works on. */
module Ast {
  import opened Seqs

  datatype Expr =
    | IntLit(val: nat)
    | TrueLit
    | FalseLit
    | NilLit
    | StrLit(text: string)
    | Ident(name: string)
    | Let(name: string, right: Expr)
    | Apply(mod: Option<string>, name: string, args: seq<Expr>)
    | If(cond: Expr, body: seq<Expr>, elseBody: seq<Expr>)
    | TupleLit(elems: seq<Expr>)
    | ListLit(elems: seq<Expr>)
    | CaptureFn(mod: Option<string>, name: string, arity: nat)
    | Lambda(params: seq<string>, body: seq<Expr>)

  /** A named function of a module. */
  datatype FunDef = FunDef(name: string, params: seq<string>, body: seq<Expr>)
}
