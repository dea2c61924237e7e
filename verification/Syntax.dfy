/** The query closures that the compiler accepts, as a small expression tree. */
module Syntax {

  type Ident = string

  datatype Kind = Pg | Sqlite

  datatype Cmp =
    | Eq | Ne | Lt | Gt | Le | Ge
    | Like | ILike | NotLike | NotILike | Glob
    | Contains | Overlaps
    | RegexMatch | RegexIMatch | NotRegexMatch | NotRegexIMatch
    | FtsMatch | LtreeDescOf | LtreeAncOf

  datatype ArithOp = Add | Mul

  datatype BinOp = Arith(arith: ArithOp) | And | Or | Compare(cmp: Cmp) | OtherOp

  datatype Literal = Number(digits: string) | Truth(value: bool) | Str(chars: string)

  datatype Func = ToTsvector | ToTsquery | PlaintoTsquery | TsRank | ArrayLength | Cardinality

  function Arity(f: Func): nat
  {
    match f
    case TsRank | ArrayLength => 2
    case _ => 1
  }

  datatype AggFn = Sum | Avg | Min | Max

  /** Method names; `Operator` stands for `like`, `ilike`, `descendant_of` and the like. */
  datatype MethodName =
    | IsSome | IsNone
    | In | NotIn | Fts | Operator(op: Cmp)
    | Count | Fold(agg: AggFn)
    | FilterRows
    | OtherMethod

  datatype Relation = Table(path: string) | Cte(name: Ident)

  datatype Expr =
    | Path(id: Ident)
    | Field(base: Expr, column: string)
    | Lit(value: Literal)
    | Binary(op: BinOp, left: Expr, right: Expr)
    | Not(operand: Expr)
    | Reference(target: Expr)
    | Paren(inner: Expr)
    | Block(tail: seq<Expr>)
    | Exists(negate: bool, sources: seq<Expr>)
    | Apply(func: Func, args: seq<Expr>)
    | Filter(table: string, args: seq<Expr>)
    | Joined(closure: Expr)
    | Closure(params: seq<Ident>, body: Expr)
    | Method(receiver: Expr, name: MethodName, args: seq<Expr>)
    | OtherExpr

  /** A call in the Rust sense: a path applied to arguments. */
  predicate IsCall(e: Expr)
  {
    e.Exists? || e.Apply? || e.Filter?
  }

  /** Strips blocks that hold a single tail expression. */
  function Unbrace(e: Expr): (r: Expr)
    ensures r == e || r < e
    ensures r.Block? ==> |r.tail| != 1
  {
    if e.Block? && |e.tail| == 1 then Unbrace(e.tail[0]) else e
  }

  /** Operators that a backend refuses. */
  predicate Rejected(kind: Kind, name: MethodName)
  {
    match kind
    case Pg => name == Operator(Glob)
    case Sqlite =>
      || name.In? || name.NotIn? || name.Fts?
      || (name.Operator? && name.op in {
             ILike, NotILike, Contains, Overlaps, RegexMatch, RegexIMatch,
             NotRegexMatch, NotRegexIMatch, LtreeDescOf, LtreeAncOf })
  }
}
