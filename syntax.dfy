/** Expressions and literals of the lambda calculus being typed. */
module Syntax {

  /** `LInt` carries its value; the value of a float literal never affects
      typing and is not modelled. */
  datatype Lit = LInt(i: int) | LFloat

  datatype Expr =
    | EVar(name: string)
    | ELit(lit: Lit)
    | EAbs(x: string, body: Expr)
    | EApp(fn: Expr, arg: Expr)
    | ELet(x: string, bound: Expr, body: Expr)
}
