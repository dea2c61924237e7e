/**
 SQL conditions: the tree a condition denotes, the lexemes it is written with, and what it
 evaluates to under three-valued logic.
 */
module SqlText {
  import Syntax

  type Ident = Syntax.Ident
  type Relation = Syntax.Relation
  type Literal = Syntax.Literal

  datatype Word =
    | SELECT | FROM | AS | WHERE | AND | OR | NOT | EXISTS | IS | NULL | ANY | ALL | COUNT | TRUE | FALSE

  datatype Tok =
    | LParen | RParen | Comma
    | Kw(word: Word)
    | Op(cmp: Syntax.Cmp)
    | Sign(arith: Syntax.ArithOp)
    | Alias(alias: string)
    | DotColumn(column: string)
    | Rel(relation: Relation)
    | Digits(digits: string)
    | Quote(chars: string)
    | FuncName(func: Syntax.Func)
    | AggName(agg: Syntax.AggFn)
    | Capture(param: Ident)
    | CastLtree

  datatype Node =
    | Column(alias: string, column: string)
    | Param(param: Ident)
    | Cast(inner: Node)
    | Lit(value: Literal)
    | Arith(op: Syntax.ArithOp, left: Node, right: Node)
    | Call(func: Syntax.Func, args: seq<Node>)
    | CountRows(rel: Relation, alias: string, cond: Node)
    | FoldRows(agg: Syntax.AggFn, arg: Node, rel: Relation, alias: string, cond: Node)
    | And(left: Node, right: Node)
    | Or(left: Node, right: Node)
    | Not(inner: Node)
    | Compare(cmp: Syntax.Cmp, left: Node, right: Node)
    | IsNull(inner: Node)
    | IsNotNull(inner: Node)
    | AnyOf(left: Node, list: Node)
    | NoneOf(left: Node, list: Node)
    | Exists(rel: Relation, alias: string, cond: Node)

  /** Two operators share the spelling `@>`. */
  function Spelling(op: Syntax.Cmp): Syntax.Cmp
  {
    if op.LtreeAncOf? then Syntax.Contains else op
  }

  function LitTok(v: Literal): Tok
  {
    match v
    case Number(digits) => Digits(digits)
    case Truth(b) => Kw(if b then TRUE else FALSE)
    case Str(chars) => Quote(chars)
  }

  /** `relation AS alias WHERE` */
  function Base(rel: Relation, alias: string): seq<Tok>
  {
    [Rel(rel), Kw(AS), Alias(alias), Kw(WHERE)]
  }

  function ExistsHead(rel: Relation, alias: string): seq<Tok>
  {
    [Kw(EXISTS), LParen, Kw(SELECT), Digits("1"), Kw(FROM)] + Base(rel, alias)
  }

  const COUNT_STAR: seq<Tok> := [Kw(COUNT), LParen, Sign(Syntax.Mul), RParen]

  function Print(n: Node): seq<Tok>
  {
    match n
    case Column(alias, column) => [Alias(alias), DotColumn(column)]
    case Param(param) => [Capture(param)]
    case Cast(inner) => Print(inner) + [CastLtree]
    case Lit(v) => [LitTok(v)]
    case Arith(op, l, r) => [LParen] + Print(l) + [Sign(op)] + Print(r) + [RParen]
    case Call(f, args) => [FuncName(f), LParen] + PrintArgs(args) + [RParen]
    case CountRows(rel, alias, cond) =>
      [LParen, Kw(SELECT)] + COUNT_STAR + [Kw(FROM)] + Base(rel, alias) + Print(cond) + [RParen]
    case FoldRows(agg, arg, rel, alias, cond) =>
      [LParen, Kw(SELECT)] + ([AggName(agg), LParen] + Print(arg) + [RParen]) + [Kw(FROM)]
      + Base(rel, alias) + Print(cond) + [RParen]
    case And(l, r) => [LParen] + Print(l) + [RParen, Kw(AND), LParen] + Print(r) + [RParen]
    case Or(l, r) => [LParen] + Print(l) + [RParen, Kw(OR), LParen] + Print(r) + [RParen]
    case Not(inner) => [Kw(NOT)] + Print(inner)
    case Compare(op, l, r) => Print(l) + [Op(op)] + Print(r)
    case IsNull(inner) => Print(inner) + [Kw(IS), Kw(NULL)]
    case IsNotNull(inner) => Print(inner) + [Kw(IS), Kw(NOT), Kw(NULL)]
    case AnyOf(l, list) => Print(l) + [Op(Syntax.Eq), Kw(ANY), LParen] + Print(list) + [RParen]
    case NoneOf(l, list) => Print(l) + [Op(Syntax.Ne), Kw(ALL), LParen] + Print(list) + [RParen]
    case Exists(rel, alias, cond) => ExistsHead(rel, alias) + Print(cond) + [RParen]
  }

  function PrintArgs(args: seq<Node>): seq<Tok>
  {
    if args == [] then []
    else if |args| == 1 then Print(args[0])
    else Print(args[0]) + [Comma] + PrintArgs(args[1..])
  }

  /** Nodes that stand where a value is expected; every one of them is written as one atom. */
  predicate IsScalar(n: Node)
  {
    match n
    case Column(_, _) => true
    case Param(_) => true
    case Cast(inner) => inner.Param?
    case Lit(_) => true
    case Arith(_, l, r) => IsScalar(l) && IsScalar(r)
    case Call(_, args) => args != [] && forall i :: 0 <= i < |args| ==> IsScalar(args[i])
    case CountRows(_, _, cond) => IsCondition(cond)
    case FoldRows(_, arg, _, _, cond) => IsScalar(arg) && IsCondition(cond)
    case _ => false
  }

  /** Nodes that stand where a truth value is expected; in SQLite a number is one. */
  predicate IsCondition(n: Node)
  {
    match n
    case And(l, r) => IsCondition(l) && IsCondition(r)
    case Or(l, r) => IsCondition(l) && IsCondition(r)
    case Not(inner) => inner.Exists? && IsCondition(inner)
    case Compare(_, l, r) => IsScalar(l) && IsScalar(r)
    case IsNull(inner) => IsScalar(inner)
    case IsNotNull(inner) => IsScalar(inner)
    case AnyOf(l, list) => IsScalar(l) && list.Param?
    case NoneOf(l, list) => IsScalar(l) && list.Param?
    case Exists(_, _, cond) => IsCondition(cond)
    case Lit(v) => !v.Str?
    case _ => false
  }

  // ---- values ----

  datatype Value = Null | Bool(b: bool) | Num(n: int) | Text(s: string)

  type Row = map<string, Value>

  /** The tables, the bound parameters, and the scalar operations nothing here depends on. */
  datatype Model = Model(
    rows: Relation -> seq<Row>,
    param: Ident -> Value,
    number: string -> Value,
    ltree: Value -> Value,
    arith: (Syntax.ArithOp, Value, Value) -> Value,
    compare: (Syntax.Cmp, Value, Value) -> Value,
    apply: (Syntax.Func, seq<Value>) -> Value,
    fold: (Syntax.AggFn, seq<Value>) -> Value,
    member: (Value, Value) -> Value,
    absent: (Value, Value) -> Value)

  function Cell(row: Row, column: string): Value
  {
    if column in row then row[column] else Null
  }

  function LitValue(m: Model, v: Literal): Value
  {
    match v
    case Number(digits) => m.number(digits)
    case Truth(b) => Bool(b)
    case Str(chars) => Text(chars)
  }

  function And3(a: Value, b: Value): (r: Value)
    ensures r == Bool(true) <==> a == Bool(true) && b == Bool(true)
    ensures r == Bool(false) <==> a == Bool(false) || b == Bool(false)
    ensures r.Null? || r.Bool?
  {
    if a == Bool(false) || b == Bool(false) then Bool(false)
    else if a == Bool(true) && b == Bool(true) then Bool(true)
    else Null
  }

  function Not3(a: Value): Value
  {
    if a.Bool? then Bool(!a.b) else Null
  }

  function Or3(a: Value, b: Value): (r: Value)
    ensures r == Bool(true) <==> a == Bool(true) || b == Bool(true)
    ensures r == Bool(false) <==> a == Bool(false) && b == Bool(false)
    ensures r.Null? || r.Bool?
  {
    Not3(And3(Not3(a), Not3(b)))
  }

  /** A comparison with NULL is NULL; truth values compare as truth values. */
  function CompareValues(m: Model, op: Syntax.Cmp, a: Value, b: Value): (r: Value)
    ensures a.Null? || b.Null? ==> r != Bool(true) && r != Bool(false)
    ensures op.Eq? && a.Bool? && b.Bool? ==> (r == Bool(true) <==> a == b)
  {
    if a.Null? || b.Null? then Null
    else if op.Eq? && a.Bool? && b.Bool? then Bool(a.b == b.b)
    else m.compare(op, a, b)
  }

  type Env = map<string, Row>

  ghost function Eval(m: Model, n: Node, env: Env): Value
    decreases n, 1, 0
  {
    match n
    case Column(alias, column) => if alias in env then Cell(env[alias], column) else Null
    case Param(p) => m.param(p)
    case Cast(inner) => m.ltree(Eval(m, inner, env))
    case Lit(v) => LitValue(m, v)
    case Arith(op, l, r) => m.arith(op, Eval(m, l, env), Eval(m, r, env))
    case Call(f, args) => m.apply(f, EvalArgs(m, n, args, env))
    case CountRows(rel, alias, cond) => Num(|Matching(m, cond, alias, m.rows(rel), env)|)
    case FoldRows(agg, arg, rel, alias, cond) =>
      m.fold(agg, Project(m, arg, alias, Matching(m, cond, alias, m.rows(rel), env), env))
    case And(l, r) => And3(Eval(m, l, env), Eval(m, r, env))
    case Or(l, r) => Or3(Eval(m, l, env), Eval(m, r, env))
    case Not(inner) => Not3(Eval(m, inner, env))
    case Compare(op, l, r) => CompareValues(m, op, Eval(m, l, env), Eval(m, r, env))
    case IsNull(inner) => Bool(Eval(m, inner, env).Null?)
    case IsNotNull(inner) => Bool(!Eval(m, inner, env).Null?)
    case AnyOf(l, list) => m.member(Eval(m, l, env), Eval(m, list, env))
    case NoneOf(l, list) => m.absent(Eval(m, l, env), Eval(m, list, env))
    case Exists(rel, alias, cond) => Bool(Matching(m, cond, alias, m.rows(rel), env) != [])
  }

  ghost function EvalArgs(m: Model, parent: Node, args: seq<Node>, env: Env): (r: seq<Value>)
    requires forall i :: 0 <= i < |args| ==> args[i] < parent
    ensures |r| == |args|
    decreases parent, 0, |args|
  {
    if args == [] then [] else [Eval(m, args[0], env)] + EvalArgs(m, parent, args[1..], env)
  }

  /** The rows under which the condition is true, in table order. */
  ghost function Matching(m: Model, cond: Node, alias: string, rows: seq<Row>, env: Env): seq<Row>
    decreases cond, 2, |rows|
  {
    if rows == [] then []
    else
      (if Eval(m, cond, env[alias := rows[0]]) == Bool(true) then [rows[0]] else [])
      + Matching(m, cond, alias, rows[1..], env)
  }

  ghost function Project(m: Model, arg: Node, alias: string, rows: seq<Row>, env: Env): (r: seq<Value>)
    ensures |r| == |rows|
    decreases arg, 2, |rows|
  {
    if rows == [] then [] else [Eval(m, arg, env[alias := rows[0]])] + Project(m, arg, alias, rows[1..], env)
  }
}
