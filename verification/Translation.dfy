/**
 Which condition tree a query closure stands for, and which closures are refused. The buffer
 writer of PredicateWriter is proved against these functions.
 */
module Translation {
  import opened Wrappers
  import opened Syntax
  import opened QueryScope
  import T = SqlText

  datatype Error =
    | WrongArity | NotAColumn | NotAParameter | ColumnPair | BadOperator | BadBlock
    | BadSource | JoinedSource | BadClosure | BadAggregate | BackendRefuses | NotAPredicate

  /** The function parameters that may be captured, the CTE names, and the backend. */
  datatype Context = Context(params: seq<Ident>, ctes: set<Ident>, kind: Kind)

  datatype Lambda = Lambda(param: Ident, body: Expr)

  /** The rows a subquery ranges over, and the condition on them. */
  datatype Source = Source(rel: Relation, param: Ident, body: Expr)

  datatype AggShape = CountShape | FoldShape(agg: AggFn, lambda: Lambda)

  function ClosureOne(e: Expr): (r: Result<Lambda, Error>)
    ensures r.Ok? ==> r.value.body < e
  {
    if e.Closure? && |e.params| == 1 then Ok(Lambda(e.params[0], Unbrace(e.body))) else Err(BadClosure)
  }

  /** `Table::filter(|t| ...)` */
  function ParseCall(e: Expr): (r: Result<Source, Error>)
    ensures r.Ok? ==> r.value.body < e
  {
    if !e.Filter? then Err(BadSource)
    else if |e.args| != 1 then Err(WrongArity)
    else
      match ClosureOne(e.args[0])
      case Err(x) => Err(x)
      case Ok(lambda) => Ok(Source(Table(e.table), lambda.param, lambda.body))
  }

  /** A source inside `exists`: a filtered table, a CTE, a filtered CTE, or a refused join. */
  function ParseChain(cx: Context, source: Expr): (r: Result<Source, Error>)
    ensures r.Ok? ==> r.value.body < source || r.value.body.Lit?
  {
    var e := Unbrace(source);
    if e.Path? && e.id in cx.ctes then Ok(Source(Cte(e.id), "__cte", Lit(Truth(true))))
    else if IsCall(e) then ParseCall(e)
    else if e.Method? && e.name.FilterRows? then
      if |e.args| != 1 then Err(WrongArity)
      else if e.receiver.Path? && e.receiver.id in cx.ctes then
        match ClosureOne(e.args[0])
        case Err(x) => Err(x)
        case Ok(lambda) => Ok(Source(Cte(e.receiver.id), lambda.param, lambda.body))
      else Err(JoinedSource)
    else Err(BadSource)
  }

  function ParseAggregate(name: MethodName, args: seq<Expr>): (r: Result<Option<AggShape>, Error>)
    ensures r.Ok? && r.value.Some? && r.value.value.FoldShape? ==> |args| == 1 && r.value.value.lambda.body < args[0]
  {
    match name
    case Count => Ok(if args == [] then Some(CountShape) else None)
    case Fold(agg) =>
      if |args| != 1 then Ok(None)
      else
        (match ClosureOne(args[0])
         case Err(x) => Err(x)
         case Ok(lambda) => Ok(Some(FoldShape(agg, lambda))))
    case _ => Ok(None)
  }

  function Resolved(cx: Context, e: Expr): Result<Ident, Error>
  {
    if e.Path? && e.id in cx.params then Ok(e.id) else Err(NotAParameter)
  }

  /** As Resolved, below one `&`. */
  function ResolvedRef(cx: Context, e: Expr): Result<Ident, Error>
  {
    Resolved(cx, if e.Reference? then e.target else e)
  }

  /** A value expression; None when the expression is not one. */
  function Scalar(scope: Scope, e: Expr, capturing: bool, cx: Context): (r: Result<Option<T.Node>, Error>)
    ensures r.Ok? && r.value.Some? ==> T.IsScalar(r.value.value)
    decreases e, 1
  {
    var column := ColumnRef(scope, e);
    if column.Some? then Ok(Some(T.Column(column.value.0, column.value.1)))
    else
      match e
      case Path(id) => Ok(if capturing && id in cx.params then Some(T.Param(id)) else None)
      case Binary(op, left, right) =>
        if !op.Arith? then Ok(None)
        else
          var l :- Scalar(scope, left, capturing, cx);
          if l.None? then Ok(None)
          else
            var r :- Scalar(scope, right, capturing, cx);
            Ok(if r.None? then None else Some(T.Arith(op.arith, l.value, r.value)))
      case Apply(f, args) =>
        if |args| != Arity(f) then Ok(None)
        else
          var ns :- Scalars(scope, e, args, capturing, cx);
          Ok(if ns.None? then None else Some(T.Call(f, ns.value)))
      case Paren(inner) => Scalar(scope, inner, capturing, cx)
      case Method(receiver, name, args) =>
        if (name.Count? || name.Fold?) && IsCall(receiver) then
          var shape :- ParseAggregate(name, args);
          if shape.None? || !capturing then Ok(None)
          else
            var n :- Aggregate(scope, e, receiver, shape.value, cx);
            Ok(Some(n))
        else Ok(None)
      case Lit(v) => Ok(Some(T.Lit(Written(cx.kind, v))))
      case _ => Ok(None)
  }

  function Scalars(scope: Scope, parent: Expr, args: seq<Expr>, capturing: bool, cx: Context)
    : (r: Result<Option<seq<T.Node>>, Error>)
    requires forall i :: 0 <= i < |args| ==> args[i] < parent
    ensures r.Ok? && r.value.Some? ==>
              |r.value.value| == |args| && forall i :: 0 <= i < |args| ==> T.IsScalar(r.value.value[i])
    decreases parent, 0, |args|
  {
    if args == [] then Ok(Some([]))
    else
      var n :- Scalar(scope, args[0], capturing, cx);
      if n.None? then Ok(None)
      else
        var ns :- Scalars(scope, parent, args[1..], capturing, cx);
        Ok(if ns.None? then None else Some([n.value] + ns.value))
  }

  /** `Table::filter(|t| ...).count()` and its kin. An error in WHERE comes before one in the aggregate. */
  function Aggregate(scope: Scope, parent: Expr, receiver: Expr, shape: AggShape, cx: Context)
    : (r: Result<T.Node, Error>)
    requires receiver < parent && (shape.FoldShape? ==> shape.lambda.body < parent)
    ensures r.Ok? ==> T.IsScalar(r.value)
    decreases parent, 0
  {
    var source :- ParseCall(receiver);
    var alias := Qualifier(scope.depth + 1, 0);
    var cond :- Condition(Nested(scope, [source.param]), source.body, true, cx);
    match shape
    case CountShape => Ok(T.CountRows(source.rel, alias, cond))
    case FoldShape(agg, lambda) =>
      var arg :- Scalar(Nested(scope, [lambda.param]), lambda.body, true, cx);
      if arg.None? then Err(BadAggregate) else Ok(T.FoldRows(agg, arg.value, source.rel, alias, cond))
  }

  function Required(n: Result<Option<T.Node>, Error>): (r: Result<T.Node, Error>)
    ensures r.Ok? ==> n.Ok? && n.value == Some(r.value)
  {
    if n.Err? then Err(n.error) else if n.value.None? then Err(NotAColumn) else Ok(n.value.value)
  }

  /** How a backend writes a literal: SQLite has the numbers one and zero for truth values. */
  function Written(kind: Kind, v: Literal): Literal
  {
    if v.Truth? && kind.Sqlite? then Number(if v.value then "1" else "0") else v
  }

  /** A boolean column compared with a truth value. */
  function TruthTest(kind: Kind, n: Result<Option<T.Node>, Error>, truth: bool): Result<T.Node, Error>
  {
    var column :- Required(n);
    Ok(T.Compare(Eq, column, T.Lit(Written(kind, Truth(truth)))))
  }

  /** Whether an expression mentions a column of some row in scope. */
  predicate HasColumn(scope: Scope, e: Expr)
    decreases e
  {
    || ColumnRef(scope, e).Some?
    || (match e
        case Binary(op, left, right) => op.Arith? && (HasColumn(scope, left) || HasColumn(scope, right))
        case Paren(inner) => HasColumn(scope, inner)
        case Apply(_, args) => exists i :: 0 <= i < |args| && HasColumn(scope, args[i])
        case Method(receiver, name, args) =>
          && (name.Count? || name.Fold?)
          && (HasColumn(scope, receiver) || exists i :: 0 <= i < |args| && HasColumn(scope, args[i]))
        case _ => false)
  }

  function ParamNode(op: Cmp, id: Ident): T.Node
  {
    if op.LtreeDescOf? || op.LtreeAncOf? then T.Cast(T.Param(id)) else T.Param(id)
  }

  function LitCondition(kind: Kind, v: Literal): Result<T.Node, Error>
  {
    if v.Truth? then Ok(T.Lit(Written(kind, v))) else Err(NotAPredicate)
  }

  /** A predicate. `columns` permits comparing a column with a column. */
  function Condition(scope: Scope, e: Expr, columns: bool, cx: Context): (r: Result<T.Node, Error>)
    ensures r.Ok? ==> T.IsCondition(r.value)
    decreases e, 2
  {
    match e
    case Exists(negate, sources) =>
      if |sources| != 1 then Err(WrongArity) else ExistsOf(scope, e, sources[0], negate, cx)
    case Binary(op, left, right) =>
      (match op
       case And =>
         var l :- Condition(scope, left, columns, cx);
         var r :- Condition(scope, right, columns, cx);
         Ok(T.And(l, r))
       case Or =>
         var l :- Condition(scope, left, columns, cx);
         var r :- Condition(scope, right, columns, cx);
         Ok(T.Or(l, r))
       case Compare(cmp) =>
         var l :- Required(Scalar(scope, left, true, cx));
         var r :- Scalar(scope, right, false, cx);
         if r.Some? then
           if !columns && HasColumn(scope, left) && HasColumn(scope, right) then Err(ColumnPair)
           else Ok(T.Compare(T.Spelling(cmp), l, r.value))
         else
           var id :- Resolved(cx, right);
           Ok(T.Compare(T.Spelling(cmp), l, ParamNode(cmp, id)))
       case _ => Err(BadOperator))
    case Lit(v) => LitCondition(cx.kind, v)
    case Field(_, _) =>
      TruthTest(cx.kind, Scalar(scope, e, false, cx), true)
    case Not(operand) =>
      TruthTest(cx.kind, Scalar(scope, operand, false, cx), false)
    case Paren(inner) => Condition(scope, inner, columns, cx)
    case Block(tail) => if |tail| == 1 then Condition(scope, tail[0], columns, cx) else Err(BadBlock)
    case Method(receiver, name, args) =>
      var right := if |args| == 1 then Scalar(scope, args[0], true, cx) else Ok(None);
      MethodCondition(
        name, Required(Scalar(scope, receiver, false, cx)), Required(Scalar(scope, receiver, true, cx)), right, args, cx)
    case _ => Err(NotAPredicate)
  }

  /** The right side of a text-search match: an expression, or else a parameter. */
  function OrParameter(n: Result<Option<T.Node>, Error>, arg: Expr, cx: Context): (r: Result<T.Node, Error>)
    ensures r.Ok? ==> r.value.Param? || n == Ok(Some(r.value))
  {
    var value :- n;
    if value.Some? then Ok(value.value)
    else
      var id :- ResolvedRef(cx, arg);
      Ok(T.Param(id))
  }

  /** Conditions written as methods, given what the receiver and a single argument are as values. */
  function MethodCondition(
    name: MethodName, column: Result<T.Node, Error>, left: Result<T.Node, Error>, right: Result<Option<T.Node>, Error>,
    args: seq<Expr>, cx: Context
  ): (r: Result<T.Node, Error>)
    requires column.Ok? ==> T.IsScalar(column.value)
    requires left.Ok? ==> T.IsScalar(left.value)
    requires right.Ok? && right.value.Some? ==> T.IsScalar(right.value.value)
    ensures r.Ok? ==> T.IsCondition(r.value)
  {
    if name.IsSome? || name.IsNone? then
      if args != [] then Err(WrongArity) else NullCondition(column, name)
    else if name.In? || name.NotIn? || name.Fts? || name.Operator? then
      if |args| != 1 then Err(WrongArity) else OperationCondition(name, left, right, args[0], cx)
    else Err(NotAPredicate)
  }

  function NullCondition(n: Result<T.Node, Error>, name: MethodName): Result<T.Node, Error>
  {
    var value :- n;
    Ok(if name.IsSome? then T.IsNotNull(value) else T.IsNull(value))
  }

  /** The operators written as methods of one argument; only a text search takes a value expression there. */
  function OperationCondition(
    name: MethodName, left: Result<T.Node, Error>, right: Result<Option<T.Node>, Error>, arg: Expr, cx: Context
  ): Result<T.Node, Error>
  {
    var n :- left;
    if Rejected(cx.kind, name) then Err(BackendRefuses)
    else if name.Fts? then
      var value :- OrParameter(right, arg, cx);
      Ok(T.Compare(FtsMatch, n, value))
    else
      var id :- ResolvedRef(cx, arg);
      Ok(OperationNode(name, n, id))
  }

  function OperationNode(name: MethodName, n: T.Node, id: Ident): T.Node
  {
    match name
    case In => T.AnyOf(n, T.Param(id))
    case NotIn => T.NoneOf(n, T.Param(id))
    case Operator(op) => T.Compare(T.Spelling(op), n, ParamNode(op, id))
    case _ => T.Param(id)
  }

  function Existence(rel: Relation, alias: string, cond: T.Node, negate: bool): T.Node
  {
    var n := T.Exists(rel, alias, cond);
    if negate then T.Not(n) else n
  }

  function ExistsOf(scope: Scope, parent: Expr, source: Expr, negate: bool, cx: Context): (r: Result<T.Node, Error>)
    requires source < parent && parent.Exists?
    ensures r.Ok? ==> T.IsCondition(r.value)
    decreases parent, 0
  {
    var s :- ParseChain(cx, source);
    var cond :- if s.body.Lit? then LitCondition(cx.kind, s.body.value) else Condition(Nested(scope, [s.param]), s.body, true, cx);
    Ok(Existence(s.rel, Qualifier(scope.depth + 1, 0), cond, negate))
  }
}
