/**
 What a query closure means in the host language: row variables are bound lexically and the
 tables are iterated directly. Compiling keeps that meaning.
 */
module Meaning {
  import opened Wrappers
  import opened Syntax
  import opened QueryScope
  import opened Translation
  import T = SqlText
  import SqlReader

  type Rows = map<Ident, T.Row>

  /** A boolean column used as a predicate, or negated; what is no truth value is compared as such. */
  function TruthOf(m: T.Model, v: T.Value, truth: bool): T.Value
  {
    if v.Bool? then (if truth then v else T.Not3(v))
    else T.CompareValues(m, Eq, v, T.Bool(truth))
  }

  function ParamMeaning(m: T.Model, e: Expr): T.Value
  {
    if e.Path? then m.param(e.id)
    else if e.Reference? && e.target.Path? then m.param(e.target.id)
    else T.Null
  }

  ghost function ScalarMeaning(m: T.Model, e: Expr, env: Rows, cx: Context): T.Value
    decreases e, 1, 0
  {
    match e
    case Field(base, column) => if base.Path? && base.id in env then T.Cell(env[base.id], column) else T.Null
    case Path(id) => m.param(id)
    case Lit(v) => T.LitValue(m, v)
    case Binary(op, l, r) =>
      if op.Arith? then m.arith(op.arith, ScalarMeaning(m, l, env, cx), ScalarMeaning(m, r, env, cx)) else T.Null
    case Apply(f, args) => m.apply(f, ScalarMeanings(m, e, args, env, cx))
    case Paren(inner) => ScalarMeaning(m, inner, env, cx)
    case Block(tail) => if |tail| == 1 then ScalarMeaning(m, tail[0], env, cx) else T.Null
    case Method(receiver, name, args) =>
      var rows := TableRows(m, receiver, env, cx);
      if name.Count? && args == [] then T.Num(|rows|)
      else if name.Fold? && |args| == 1 && args[0].Closure? && |args[0].params| == 1 then
        m.fold(name.agg, Values(m, args[0].body, args[0].params[0], rows, env, cx))
      else T.Null
    case _ => T.Null
  }

  /** `Table::filter(|x| body)`: the rows of the table on which the closure is true. */
  ghost function TableRows(m: T.Model, e: Expr, env: Rows, cx: Context): seq<T.Row>
    decreases e, 0, 0
  {
    if e.Filter? && |e.args| == 1 && e.args[0].Closure? && |e.args[0].params| == 1 then
      Selected(m, e.args[0].body, e.args[0].params[0], m.rows(Table(e.table)), env, cx)
    else []
  }

  /** What `exists` looks at: a filtered table, all rows of a CTE, or those on which a closure is true. */
  ghost function SourceRows(m: T.Model, e: Expr, env: Rows, cx: Context): seq<T.Row>
    decreases e, 1, 0
  {
    match e
    case Block(tail) => if |tail| == 1 then SourceRows(m, tail[0], env, cx) else []
    case Path(id) => if id in cx.ctes then m.rows(Cte(id)) else []
    case Filter(_, _) => TableRows(m, e, env, cx)
    case Method(receiver, FilterRows, args) =>
      if receiver.Path? && receiver.id in cx.ctes && |args| == 1 && args[0].Closure? && |args[0].params| == 1 then
        Selected(m, args[0].body, args[0].params[0], m.rows(Cte(receiver.id)), env, cx)
      else []
    case _ => []
  }

  ghost function ScalarMeanings(m: T.Model, parent: Expr, args: seq<Expr>, env: Rows, cx: Context): seq<T.Value>
    requires forall i :: 0 <= i < |args| ==> args[i] < parent
    decreases parent, 0, |args|
  {
    if args == [] then []
    else [ScalarMeaning(m, args[0], env, cx)] + ScalarMeanings(m, parent, args[1..], env, cx)
  }

  /** The rows on which the closure `|x| body` is true. */
  ghost function Selected(m: T.Model, body: Expr, x: Ident, rows: seq<T.Row>, env: Rows, cx: Context): seq<T.Row>
    decreases body, 3, |rows|
  {
    if rows == [] then []
    else
      (if PredMeaning(m, body, env[x := rows[0]], cx) == T.Bool(true) then [rows[0]] else [])
      + Selected(m, body, x, rows[1..], env, cx)
  }

  ghost function Values(m: T.Model, body: Expr, x: Ident, rows: seq<T.Row>, env: Rows, cx: Context): seq<T.Value>
    decreases body, 3, |rows|
  {
    if rows == [] then []
    else [ScalarMeaning(m, body, env[x := rows[0]], cx)] + Values(m, body, x, rows[1..], env, cx)
  }

  ghost function PredMeaning(m: T.Model, e: Expr, env: Rows, cx: Context): T.Value
    decreases e, 2, 0
  {
    match e
    case Exists(negate, sources) =>
      if |sources| != 1 then T.Null else T.Bool((SourceRows(m, sources[0], env, cx) != []) != negate)
    case Binary(op, l, r) =>
      (match op
       case And => T.And3(PredMeaning(m, l, env, cx), PredMeaning(m, r, env, cx))
       case Or => T.Or3(PredMeaning(m, l, env, cx), PredMeaning(m, r, env, cx))
       case Compare(cmp) => T.CompareValues(m, cmp, ScalarMeaning(m, l, env, cx), Operand(m, cmp, r, env, cx))
       case _ => T.Null)
    case Lit(v) => T.LitValue(m, v)
    case Field(_, _) => TruthOf(m, ScalarMeaning(m, e, env, cx), true)
    case Not(operand) => TruthOf(m, ScalarMeaning(m, operand, env, cx), false)
    case Paren(inner) => PredMeaning(m, inner, env, cx)
    case Block(tail) => if |tail| == 1 then PredMeaning(m, tail[0], env, cx) else T.Null
    case Method(receiver, name, args) =>
      var v := ScalarMeaning(m, receiver, env, cx);
      if name.IsSome? then T.Bool(!v.Null?)
      else if name.IsNone? then T.Bool(v.Null?)
      else if |args| != 1 then T.Null
      else OperationMeaning(m, name, v, args[0], MatchOperand(m, args[0], env, cx))
    case _ => T.Null
  }

  /** Operators written as methods; `searched` is what a text search compares with. */
  function OperationMeaning(m: T.Model, name: MethodName, v: T.Value, arg: Expr, searched: T.Value): T.Value
  {
    match name
    case In => m.member(v, ParamMeaning(m, arg))
    case NotIn => m.absent(v, ParamMeaning(m, arg))
    case Fts => T.CompareValues(m, FtsMatch, v, searched)
    case Operator(op) => T.CompareValues(m, op, v, CastOperand(m, op, arg))
    case _ => T.Null
  }

  function CastOperand(m: T.Model, op: Cmp, arg: Expr): T.Value
  {
    var v := ParamMeaning(m, arg);
    if op.LtreeDescOf? || op.LtreeAncOf? then m.ltree(v) else v
  }

  /** The right side of `==`, `<` and the like: a value, or a parameter. */
  ghost function Operand(m: T.Model, cmp: Cmp, e: Expr, env: Rows, cx: Context): T.Value
    decreases e, 2, 0
  {
    if e.Path? then CastOperand(m, cmp, e) else ScalarMeaning(m, e, env, cx)
  }

  ghost function MatchOperand(m: T.Model, e: Expr, env: Rows, cx: Context): T.Value
    decreases e, 2, 0
  {
    if e.Reference? then ParamMeaning(m, e) else ScalarMeaning(m, e, env, cx)
  }

  // ---- truth values ----

  /** Where truth values are written as numbers, the database reads one as true and zero as false. */
  ghost predicate SpellsTruth(m: T.Model, kind: Kind)
  {
    kind.Sqlite? ==> m.number("1") == T.Bool(true) && m.number("0") == T.Bool(false)
  }

  /** That is exactly what it takes for every literal to mean what it meant in the closure. */
  lemma WrittenMeans(m: T.Model, kind: Kind)
    ensures SpellsTruth(m, kind) <==> forall v: Literal :: T.LitValue(m, Written(kind, v)) == T.LitValue(m, v)
  {
    if forall v: Literal :: T.LitValue(m, Written(kind, v)) == T.LitValue(m, v) {
      assert T.LitValue(m, Written(kind, Truth(true))) == T.Bool(true);
      assert T.LitValue(m, Written(kind, Truth(false))) == T.Bool(false);
    }
  }

  /** PostgreSQL has one operator `@>`, and it means what the closure asks for. */
  ghost predicate SharesSpelling(m: T.Model)
  {
    forall a: T.Value, b: T.Value :: !a.Null? && !b.Null? ==> m.compare(LtreeAncOf, a, b) == m.compare(Contains, a, b)
  }

  /** That is exactly what it takes for every operator to mean what it meant in the closure. */
  lemma SpellingMeans(m: T.Model)
    ensures SharesSpelling(m) <==>
            forall op: Cmp, a: T.Value, b: T.Value :: T.CompareValues(m, T.Spelling(op), a, b) == T.CompareValues(m, op, a, b)
  {
    if forall op: Cmp, a: T.Value, b: T.Value :: T.CompareValues(m, T.Spelling(op), a, b) == T.CompareValues(m, op, a, b) {
      forall a: T.Value, b: T.Value | !a.Null? && !b.Null? ensures m.compare(LtreeAncOf, a, b) == m.compare(Contains, a, b) {
        assert T.CompareValues(m, T.Spelling(LtreeAncOf), a, b) == T.CompareValues(m, LtreeAncOf, a, b);
      }
    }
  }

  lemma OperatorMeans(m: T.Model, op: Cmp, a: T.Value, b: T.Value)
    requires SharesSpelling(m)
    ensures T.CompareValues(m, T.Spelling(op), a, b) == T.CompareValues(m, op, a, b)
  {
  }

  /** The database reads literals and operators as they are meant. */
  ghost predicate Understands(m: T.Model, kind: Kind)
  {
    SpellsTruth(m, kind) && SharesSpelling(m)
  }

  lemma LiteralMeans(m: T.Model, kind: Kind, v: Literal, sql: T.Env)
    requires Understands(m, kind)
    ensures T.Eval(m, T.Lit(Written(kind, v)), sql) == T.LitValue(m, v)
  {
    WrittenMeans(m, kind);
  }

  // ---- scopes and environments ----

  /** Every variable in scope has its row, and the alias it resolves to has the same row. */
  ghost predicate Agrees(scope: Scope, env: Rows, sql: T.Env)
  {
    && Layered(scope)
    && forall x: Ident ::
         var alias := Resolve(scope, x);
         && (alias.Some? <==> x in env)
         && (alias.Some? ==> alias.value in sql && sql[alias.value] == env[x])
  }

  lemma AgreesAt(scope: Scope, env: Rows, sql: T.Env, x: Ident)
    requires Agrees(scope, env, sql)
    ensures Resolve(scope, x).Some? <==> x in env
    ensures x in env ==> Resolve(scope, x).value in sql && sql[Resolve(scope, x).value] == env[x]
  {
  }

  /** Binding a row to a new variable and naming its table one level deeper keep them in step. */
  lemma EnterNested(scope: Scope, env: Rows, sql: T.Env, x: Ident, row: T.Row)
    requires Agrees(scope, env, sql)
    ensures Agrees(Nested(scope, [x]), env[x := row], sql[Qualifier(scope.depth + 1, 0) := row])
  {
    var inner := Nested(scope, [x]);
    var alias := Qualifier(scope.depth + 1, 0);
    NestedIsLayered(scope, [x]);
    forall y: Ident
      ensures Resolve(inner, y).Some? <==> y in env[x := row]
      ensures Resolve(inner, y).Some? ==>
                && Resolve(inner, y).value in sql[alias := row]
                && sql[alias := row][Resolve(inner, y).value] == env[x := row][y]
    {
      ResolveNested(scope, x, y);
      AgreesAt(scope, env, sql, y);
      if x != y && Resolve(scope, y).Some? {
        DeeperIsFresh(scope, scope.depth + 1, 0, y);
      }
    }
  }

  /** Where a variable is bound first. */
  function IndexOf(idents: seq<Ident>, x: Ident): (i: nat)
    requires x in idents
    ensures i < |idents| && idents[i] == x && forall k :: 0 <= k < i ==> idents[k] != x
  {
    if idents[0] == x then 0 else 1 + IndexOf(idents[1..], x)
  }

  /** The rows of a query at the top of a statement, by variable. */
  ghost function BindRows(idents: seq<Ident>, rows: seq<T.Row>): Rows
    requires |idents| == |rows|
  {
    map x | x in idents :: rows[IndexOf(idents, x)]
  }

  ghost predicate Aliased(depth: nat, rows: seq<T.Row>, sql: T.Env)
  {
    forall i: nat | i < |rows| :: Qualifier(depth, i) in sql && sql[Qualifier(depth, i)] == rows[i]
  }

  /** A scope made from bindings agrees with the rows those bindings get. */
  lemma BindingsAgree(depth: nat, idents: seq<Ident>, rows: seq<T.Row>, sql: T.Env)
    requires |idents| == |rows| && Aliased(depth, rows, sql)
    ensures Agrees(ForBindings(depth, idents), BindRows(idents, rows), sql)
  {
    forall x: Ident
      ensures var alias := Resolve(ForBindings(depth, idents), x);
              && (alias.Some? <==> x in idents)
              && (alias.Some? ==> alias.value in sql && sql[alias.value] == rows[IndexOf(idents, x)])
    {
      BindingAgrees(depth, idents, rows, sql, x);
    }
  }

  lemma BindingAgrees(depth: nat, idents: seq<Ident>, rows: seq<T.Row>, sql: T.Env, x: Ident)
    requires |idents| == |rows| && Aliased(depth, rows, sql)
    ensures var alias := Resolve(ForBindings(depth, idents), x);
            && (alias.Some? <==> x in idents)
            && (alias.Some? ==> alias.value in sql && sql[alias.value] == rows[IndexOf(idents, x)])
  {
    TopResolves(depth, idents, x);
    if Find(Bindings(depth, idents), x).Some? {
      var i := FindIsQualifier(Bindings(depth, idents), depth, 0, x);
      FirstIsIndexOf(depth, idents, x, i);
    } else {
      BoundIsFound(depth, idents, x);
    }
  }

  lemma TopResolves(depth: nat, idents: seq<Ident>, x: Ident)
    ensures Resolve(ForBindings(depth, idents), x) == Find(Bindings(depth, idents), x)
  {
  }

  lemma FirstIsIndexOf(depth: nat, idents: seq<Ident>, x: Ident, i: nat)
    requires var vars := Bindings(depth, idents);
             i < |vars| && vars[i].ident == x && forall k :: 0 <= k < i ==> vars[k].ident != x
    ensures x in idents && IndexOf(idents, x) == i
  {
    var vars := Bindings(depth, idents);
    assert idents[i] == x;
    var j := IndexOf(idents, x);
    assert vars[j].ident == x;
  }

  lemma BoundIsFound(depth: nat, idents: seq<Ident>, x: Ident)
    ensures x in idents ==> Find(Bindings(depth, idents), x).Some?
  {
    if x in idents {
      assert Bindings(depth, idents)[IndexOf(idents, x)].ident == x;
    }
  }

  // ---- compiling keeps the meaning ----

  lemma {:induction false} ScalarPreserved(
    m: T.Model, scope: Scope, e: Expr, capturing: bool, cx: Context, env: Rows, sql: T.Env, n: T.Node
  )
    requires Scalar(scope, e, capturing, cx) == Ok(Some(n)) && Agrees(scope, env, sql)
    requires Understands(m, cx.kind)
    ensures T.Eval(m, n, sql) == ScalarMeaning(m, e, env, cx)
    decreases e, 1, 0
  {
    if ColumnRef(scope, e).Some? {
      AgreesAt(scope, env, sql, e.base.id);
      return;
    }
    match e
    case Binary(op, l, r) =>
      ScalarPreserved(m, scope, l, capturing, cx, env, sql, n.left);
      ScalarPreserved(m, scope, r, capturing, cx, env, sql, n.right);
    case Apply(f, args) =>
      ScalarsPreserved(m, scope, e, args, capturing, cx, env, sql, n, n.args);
    case Paren(inner) =>
      ScalarPreserved(m, scope, inner, capturing, cx, env, sql, n);
    case Method(receiver, name, args) =>
      AggregatePreserved(m, scope, e, ParseAggregate(name, args).value.value, cx, env, sql, n);
    case Lit(v) =>
      LiteralMeans(m, cx.kind, v, sql);
    case _ =>
  }

  lemma ScalarsSplit(scope: Scope, parent: Expr, args: seq<Expr>, capturing: bool, cx: Context, ns: seq<T.Node>)
    requires args != [] && forall i :: 0 <= i < |args| ==> args[i] < parent
    requires Scalars(scope, parent, args, capturing, cx) == Ok(Some(ns))
    ensures ns != [] && Scalar(scope, args[0], capturing, cx) == Ok(Some(ns[0]))
    ensures Scalars(scope, parent, args[1..], capturing, cx) == Ok(Some(ns[1..]))
  {
    var rest := Scalars(scope, parent, args[1..], capturing, cx).value.value;
    assert ns == [ns[0]] + rest;
    assert ns[1..] == rest;
  }

  lemma {:induction false} ScalarsPreserved(
    m: T.Model, scope: Scope, parent: Expr, args: seq<Expr>, capturing: bool, cx: Context,
    env: Rows, sql: T.Env, node: T.Node, ns: seq<T.Node>
  )
    requires forall i :: 0 <= i < |args| ==> args[i] < parent
    requires forall i :: 0 <= i < |ns| ==> ns[i] < node
    requires Scalars(scope, parent, args, capturing, cx) == Ok(Some(ns)) && Agrees(scope, env, sql)
    requires Understands(m, cx.kind)
    ensures T.EvalArgs(m, node, ns, sql) == ScalarMeanings(m, parent, args, env, cx)
    decreases parent, 0, |args|
  {
    if args != [] {
      ScalarsSplit(scope, parent, args, capturing, cx, ns);
      ScalarPreserved(m, scope, args[0], capturing, cx, env, sql, ns[0]);
      ScalarsPreserved(m, scope, parent, args[1..], capturing, cx, env, sql, node, ns[1..]);
    }
  }

  /** The parts of a compiled aggregate. */
  lemma AggregateSplits(scope: Scope, e: Expr, receiver: Expr, shape: AggShape, cx: Context, n: T.Node)
    requires receiver < e && (shape.FoldShape? ==> shape.lambda.body < e)
    requires Aggregate(scope, e, receiver, shape, cx) == Ok(n)
    ensures ParseCall(receiver).Ok? && (n.CountRows? || n.FoldRows?) && n.FoldRows? == shape.FoldShape?
    ensures var s := ParseCall(receiver).value;
            && n.rel == s.rel && n.alias == Qualifier(scope.depth + 1, 0)
            && Condition(Nested(scope, [s.param]), s.body, true, cx) == Ok(n.cond)
    ensures shape.FoldShape? ==>
      n.agg == shape.agg && Scalar(Nested(scope, [shape.lambda.param]), shape.lambda.body, true, cx) == Ok(Some(n.arg))
  {
  }

  lemma {:induction false} AggregatePreserved(
    m: T.Model, scope: Scope, e: Expr, shape: AggShape, cx: Context, env: Rows, sql: T.Env, n: T.Node
  )
    requires e.Method? && ParseAggregate(e.name, e.args) == Ok(Some(shape))
    requires Aggregate(scope, e, e.receiver, shape, cx) == Ok(n) && Agrees(scope, env, sql)
    requires Understands(m, cx.kind)
    ensures T.Eval(m, n, sql) == ScalarMeaning(m, e, env, cx)
    decreases e, 0, 0
  {
    AggregateSplits(scope, e, e.receiver, shape, cx, n);
    var s := ParseCall(e.receiver).value;
    MatchingPreserved(m, scope, s.body, s.param, m.rows(s.rel), cx, env, sql, n.cond);
    CallSelects(m, e.receiver, env, cx);
    var kept := TableRows(m, e.receiver, env, cx);
    if shape.FoldShape? {
      ProjectPreserved(m, scope, shape.lambda.body, shape.lambda.param, kept, cx, env, sql, n.arg);
      ValuesUnbrace(m, e.args[0].body, shape.lambda.param, kept, env, cx);
      FoldMeans(m, e, env, cx, sql, n, kept);
    } else {
      CountMeans(m, e, env, cx, sql, n, kept);
    }
  }

  lemma CountMeans(m: T.Model, e: Expr, env: Rows, cx: Context, sql: T.Env, n: T.Node, kept: seq<T.Row>)
    requires e.Method? && e.name.Count? && e.args == [] && n.CountRows?
    requires kept == TableRows(m, e.receiver, env, cx) == T.Matching(m, n.cond, n.alias, m.rows(n.rel), sql)
    ensures T.Eval(m, n, sql) == ScalarMeaning(m, e, env, cx)
  {
  }

  lemma FoldMeans(m: T.Model, e: Expr, env: Rows, cx: Context, sql: T.Env, n: T.Node, kept: seq<T.Row>)
    requires e.Method? && e.name.Fold? && |e.args| == 1 && e.args[0].Closure? && |e.args[0].params| == 1
    requires n.FoldRows? && n.agg == e.name.agg
    requires kept == TableRows(m, e.receiver, env, cx) == T.Matching(m, n.cond, n.alias, m.rows(n.rel), sql)
    requires T.Project(m, n.arg, n.alias, kept, sql) == Values(m, e.args[0].body, e.args[0].params[0], kept, env, cx)
    ensures T.Eval(m, n, sql) == ScalarMeaning(m, e, env, cx)
  {
  }

  /** Parsing a filtered table gives the relation and the condition that its syntax says. */
  lemma CallSelects(m: T.Model, e: Expr, env: Rows, cx: Context)
    requires ParseCall(e).Ok?
    ensures var s := ParseCall(e).value;
            TableRows(m, e, env, cx) == Selected(m, s.body, s.param, m.rows(s.rel), env, cx)
  {
    CallShape(e);
    var s := ParseCall(e).value;
    SelectedUnbrace(m, e.args[0].body, s.param, m.rows(s.rel), env, cx);
  }

  /** What a filtered table looks like. */
  lemma CallShape(e: Expr)
    requires ParseCall(e).Ok?
    ensures e.Filter? && |e.args| == 1 && e.args[0].Closure? && |e.args[0].params| == 1
    ensures ParseCall(e).value == Source(Table(e.table), e.args[0].params[0], Unbrace(e.args[0].body))
  {
  }

  // ---- blocks around a body change nothing ----

  lemma {:induction false} PredUnbrace(m: T.Model, e: Expr, env: Rows, cx: Context)
    ensures PredMeaning(m, Unbrace(e), env, cx) == PredMeaning(m, e, env, cx)
    ensures ScalarMeaning(m, Unbrace(e), env, cx) == ScalarMeaning(m, e, env, cx)
    decreases e
  {
    if e.Block? && |e.tail| == 1 {
      PredUnbrace(m, e.tail[0], env, cx);
    }
  }

  lemma {:induction false} SelectedUnbrace(m: T.Model, body: Expr, x: Ident, rows: seq<T.Row>, env: Rows, cx: Context)
    ensures Selected(m, Unbrace(body), x, rows, env, cx) == Selected(m, body, x, rows, env, cx)
    decreases |rows|
  {
    if rows != [] {
      PredUnbrace(m, body, env[x := rows[0]], cx);
      SelectedUnbrace(m, body, x, rows[1..], env, cx);
    }
  }

  lemma {:induction false} ValuesUnbrace(m: T.Model, body: Expr, x: Ident, rows: seq<T.Row>, env: Rows, cx: Context)
    ensures Values(m, Unbrace(body), x, rows, env, cx) == Values(m, body, x, rows, env, cx)
    decreases |rows|
  {
    if rows != [] {
      PredUnbrace(m, body, env[x := rows[0]], cx);
      ValuesUnbrace(m, body, x, rows[1..], env, cx);
    }
  }

  lemma {:induction false} SourceUnbrace(m: T.Model, e: Expr, env: Rows, cx: Context)
    ensures SourceRows(m, Unbrace(e), env, cx) == SourceRows(m, e, env, cx)
    decreases e
  {
    if e.Block? && |e.tail| == 1 {
      SourceUnbrace(m, e.tail[0], env, cx);
    }
  }

  /** A constant condition selects everything or nothing. */
  lemma {:induction false} SelectedConstant(m: T.Model, v: Literal, x: Ident, rows: seq<T.Row>, env: Rows, cx: Context)
    ensures Selected(m, Lit(v), x, rows, env, cx) == if T.LitValue(m, v) == T.Bool(true) then rows else []
    decreases |rows|
  {
    if rows != [] {
      SelectedConstant(m, v, x, rows[1..], env, cx);
    }
  }

  /** Parsing a source gives the relation and the condition that its syntax says. */
  lemma SourceSelects(m: T.Model, e: Expr, env: Rows, cx: Context)
    requires ParseChain(cx, e).Ok?
    ensures var s := ParseChain(cx, e).value;
            SourceRows(m, e, env, cx) == Selected(m, s.body, s.param, m.rows(s.rel), env, cx)
  {
    var u, s := Unbrace(e), ParseChain(cx, e).value;
    SourceUnbrace(m, e, env, cx);
    if u.Path? {
      SelectedConstant(m, Truth(true), s.param, m.rows(s.rel), env, cx);
    } else if u.Filter? {
      CallSelects(m, u, env, cx);
    } else {
      SelectedUnbrace(m, u.args[0].body, s.param, m.rows(s.rel), env, cx);
    }
  }

  lemma {:induction false} MatchingPreserved(
    m: T.Model, scope: Scope, body: Expr, x: Ident, rows: seq<T.Row>, cx: Context, env: Rows, sql: T.Env, cond: T.Node
  )
    requires Condition(Nested(scope, [x]), body, true, cx) == Ok(cond) && Agrees(scope, env, sql)
    requires Understands(m, cx.kind)
    ensures T.Matching(m, cond, Qualifier(scope.depth + 1, 0), rows, sql) == Selected(m, body, x, rows, env, cx)
    decreases body, 3, |rows|
  {
    if rows != [] {
      EnterNested(scope, env, sql, x, rows[0]);
      PredicatePreserved(
        m, Nested(scope, [x]), body, true, cx, env[x := rows[0]], sql[Qualifier(scope.depth + 1, 0) := rows[0]], cond);
      MatchingPreserved(m, scope, body, x, rows[1..], cx, env, sql, cond);
    }
  }

  lemma {:induction false} ProjectPreserved(
    m: T.Model, scope: Scope, body: Expr, x: Ident, rows: seq<T.Row>, cx: Context, env: Rows, sql: T.Env, arg: T.Node
  )
    requires Scalar(Nested(scope, [x]), body, true, cx) == Ok(Some(arg)) && Agrees(scope, env, sql)
    requires Understands(m, cx.kind)
    ensures T.Project(m, arg, Qualifier(scope.depth + 1, 0), rows, sql) == Values(m, body, x, rows, env, cx)
    decreases body, 3, |rows|
  {
    if rows != [] {
      EnterNested(scope, env, sql, x, rows[0]);
      ScalarPreserved(
        m, Nested(scope, [x]), body, true, cx, env[x := rows[0]], sql[Qualifier(scope.depth + 1, 0) := rows[0]], arg);
      ProjectPreserved(m, scope, body, x, rows[1..], cx, env, sql, arg);
    }
  }

  lemma TruthTestMeans(m: T.Model, kind: Kind, column: T.Node, truth: bool, sql: T.Env)
    requires Understands(m, kind)
    ensures T.Eval(m, T.Compare(Eq, column, T.Lit(Written(kind, Truth(truth)))), sql)
         == TruthOf(m, T.Eval(m, column, sql), truth)
  {
    LiteralMeans(m, kind, Truth(truth), sql);
  }

  /**
   The condition that a closure compiles to has, under the generated aliases, the value that
   the closure has on the rows bound to its variables: for every table content, through any
   nesting of subqueries.
   */
  lemma {:induction false} PredicatePreserved(
    m: T.Model, scope: Scope, e: Expr, columns: bool, cx: Context, env: Rows, sql: T.Env, n: T.Node
  )
    requires Condition(scope, e, columns, cx) == Ok(n) && Agrees(scope, env, sql)
    requires Understands(m, cx.kind)
    ensures T.Eval(m, n, sql) == PredMeaning(m, e, env, cx)
    decreases e, 2, 0
  {
    match e
    case Exists(negate, sources) =>
      ExistsPreserved(m, scope, e, cx, env, sql, n);
    case Binary(op, l, r) =>
      if op.And? || op.Or? {
        PredicatePreserved(m, scope, l, columns, cx, env, sql, n.left);
        PredicatePreserved(m, scope, r, columns, cx, env, sql, n.right);
      } else {
        ComparePreserved(m, scope, e, columns, cx, env, sql, n);
      }
    case Field(_, _) =>
      ScalarPreserved(m, scope, e, false, cx, env, sql, n.left);
      TruthTestMeans(m, cx.kind, n.left, true, sql);
    case Not(operand) =>
      ScalarPreserved(m, scope, operand, false, cx, env, sql, n.left);
      TruthTestMeans(m, cx.kind, n.left, false, sql);
    case Paren(inner) =>
      PredicatePreserved(m, scope, inner, columns, cx, env, sql, n);
    case Block(tail) =>
      PredicatePreserved(m, scope, tail[0], columns, cx, env, sql, n);
    case Method(receiver, name, args) =>
      MethodPreserved(m, scope, e, cx, env, sql, n);
    case Lit(v) =>
      LiteralMeans(m, cx.kind, v, sql);
    case _ =>
  }

  lemma {:induction false} ComparePreserved(
    m: T.Model, scope: Scope, e: Expr, columns: bool, cx: Context, env: Rows, sql: T.Env, n: T.Node
  )
    requires e.Binary? && e.op.Compare?
    requires Condition(scope, e, columns, cx) == Ok(n) && Agrees(scope, env, sql)
    requires Understands(m, cx.kind)
    ensures T.Eval(m, n, sql) == PredMeaning(m, e, env, cx)
    decreases e, 0, 0
  {
    ScalarPreserved(m, scope, e.left, true, cx, env, sql, n.left);
    var right := Scalar(scope, e.right, false, cx);
    if right.value.Some? {
      assert !e.right.Path?;
      ScalarPreserved(m, scope, e.right, false, cx, env, sql, n.right);
    } else {
      assert e.right.Path?;
      ParamNodeMeans(m, e.op.cmp, e.right.id, sql);
    }
    assert T.Eval(m, n.right, sql) == Operand(m, e.op.cmp, e.right, env, cx);
    OperatorMeans(m, e.op.cmp, T.Eval(m, n.left, sql), T.Eval(m, n.right, sql));
  }

  lemma ParamNodeMeans(m: T.Model, op: Cmp, id: Ident, sql: T.Env)
    ensures T.Eval(m, ParamNode(op, id), sql) ==
            if op.LtreeDescOf? || op.LtreeAncOf? then m.ltree(m.param(id)) else m.param(id)
  {
    assert T.Eval(m, T.Param(id), sql) == m.param(id);
  }

  lemma ResolvedRefMeans(m: T.Model, cx: Context, e: Expr)
    requires ResolvedRef(cx, e).Ok?
    ensures ParamMeaning(m, e) == m.param(ResolvedRef(cx, e).value)
  {
  }

  lemma OperationMeans(m: T.Model, name: MethodName, left: T.Node, id: Ident, arg: Expr, sql: T.Env, searched: T.Value)
    requires name.In? || name.NotIn? || name.Operator?
    requires ParamMeaning(m, arg) == m.param(id) && SharesSpelling(m)
    ensures T.Eval(m, OperationNode(name, left, id), sql)
         == OperationMeaning(m, name, T.Eval(m, left, sql), arg, searched)
  {
    if name.Operator? {
      CastMeans(m, name.op, left, id, arg, sql);
    } else {
      ListMeans(m, name, left, id, arg, sql, searched);
    }
  }

  lemma ListMeans(m: T.Model, name: MethodName, left: T.Node, id: Ident, arg: Expr, sql: T.Env, searched: T.Value)
    requires (name.In? || name.NotIn?) && ParamMeaning(m, arg) == m.param(id)
    ensures T.Eval(m, OperationNode(name, left, id), sql)
         == OperationMeaning(m, name, T.Eval(m, left, sql), arg, searched)
  {
    assert T.Eval(m, T.Param(id), sql) == m.param(id);
  }

  lemma CastMeans(m: T.Model, op: Cmp, left: T.Node, id: Ident, arg: Expr, sql: T.Env)
    requires ParamMeaning(m, arg) == m.param(id) && SharesSpelling(m)
    ensures T.Eval(m, T.Compare(T.Spelling(op), left, ParamNode(op, id)), sql)
         == T.CompareValues(m, op, T.Eval(m, left, sql), CastOperand(m, op, arg))
  {
    ParamNodeMeans(m, op, id, sql);
    OperatorMeans(m, op, T.Eval(m, left, sql), CastOperand(m, op, arg));
  }

  lemma {:induction false} MethodPreserved(
    m: T.Model, scope: Scope, e: Expr, cx: Context, env: Rows, sql: T.Env, n: T.Node
  )
    requires e.Method? && (|e.args| == 1 ==> e.args[0] < e)
    requires var column, left := Required(Scalar(scope, e.receiver, false, cx)), Required(Scalar(scope, e.receiver, true, cx));
             var right := if |e.args| == 1 then Scalar(scope, e.args[0], true, cx) else Ok(None);
             MethodCondition(e.name, column, left, right, e.args, cx) == Ok(n) && Agrees(scope, env, sql)
    requires Understands(m, cx.kind)
    ensures T.Eval(m, n, sql) == PredMeaning(m, e, env, cx)
    decreases e, 0, 1
  {
    if e.name.IsSome? || e.name.IsNone? {
      ScalarPreserved(m, scope, e.receiver, false, cx, env, sql, n.inner);
    } else {
      OperationPreserved(m, scope, e, cx, env, sql, n);
    }
  }

  /** The parts of a compiled operation. */
  lemma OperationSplits(
    name: MethodName, left: Result<T.Node, Error>, right: Result<Option<T.Node>, Error>, arg: Expr, cx: Context, n: T.Node
  )
    requires name.In? || name.NotIn? || name.Fts? || name.Operator?
    requires OperationCondition(name, left, right, arg, cx) == Ok(n)
    ensures (n.Compare? || n.AnyOf? || n.NoneOf?) && left == Ok(n.left)
    ensures name.Fts? ==> n.Compare? && n.cmp == FtsMatch && OrParameter(right, arg, cx) == Ok(n.right)
    ensures !name.Fts? ==> ResolvedRef(cx, arg).Ok? && n == OperationNode(name, n.left, ResolvedRef(cx, arg).value)
  {
  }

  lemma {:induction false} OperationPreserved(
    m: T.Model, scope: Scope, e: Expr, cx: Context, env: Rows, sql: T.Env, n: T.Node
  )
    requires e.Method? && |e.args| == 1 && (e.name.In? || e.name.NotIn? || e.name.Fts? || e.name.Operator?)
    requires var left, right := Required(Scalar(scope, e.receiver, true, cx)), Scalar(scope, e.args[0], true, cx);
             OperationCondition(e.name, left, right, e.args[0], cx) == Ok(n) && Agrees(scope, env, sql)
    requires Understands(m, cx.kind)
    ensures T.Eval(m, n, sql) == OperationMeaning(
              m, e.name, ScalarMeaning(m, e.receiver, env, cx), e.args[0], MatchOperand(m, e.args[0], env, cx))
    decreases e, 0, 0
  {
    OperationSplits(e.name, Required(Scalar(scope, e.receiver, true, cx)), Scalar(scope, e.args[0], true, cx), e.args[0], cx, n);
    ScalarPreserved(m, scope, e.receiver, true, cx, env, sql, n.left);
    if e.name.Fts? {
      MatchPreserved(m, scope, e.args[0], cx, env, sql, n.right);
    } else {
      ResolvedRefMeans(m, cx, e.args[0]);
      OperationMeans(m, e.name, n.left, ResolvedRef(cx, e.args[0]).value, e.args[0], sql, MatchOperand(m, e.args[0], env, cx));
    }
  }

  lemma {:induction false} MatchPreserved(
    m: T.Model, scope: Scope, arg: Expr, cx: Context, env: Rows, sql: T.Env, n: T.Node
  )
    requires OrParameter(Scalar(scope, arg, true, cx), arg, cx) == Ok(n) && Agrees(scope, env, sql)
    requires Understands(m, cx.kind)
    ensures T.Eval(m, n, sql) == MatchOperand(m, arg, env, cx)
    decreases arg, 2, 0
  {
    if Scalar(scope, arg, true, cx).value.Some? {
      assert !arg.Reference?;
      ScalarPreserved(m, scope, arg, true, cx, env, sql, n);
    } else {
      ResolvedRefMeans(m, cx, arg);
      assert arg.Reference?;
    }
  }

  /** A constant condition keeps what the closure selects. */
  lemma ConstantPreserved(m: T.Model, scope: Scope, s: Source, cx: Context, env: Rows, sql: T.Env, cond: T.Node)
    requires s.body.Lit? && LitCondition(cx.kind, s.body.value) == Ok(cond) && Understands(m, cx.kind)
    ensures T.Matching(m, cond, Qualifier(scope.depth + 1, 0), m.rows(s.rel), sql)
         == Selected(m, s.body, s.param, m.rows(s.rel), env, cx)
  {
    var alias := Qualifier(scope.depth + 1, 0);
    ConstantMatching(m, Written(cx.kind, s.body.value), alias, m.rows(s.rel), sql);
    LiteralMeans(m, cx.kind, s.body.value, sql);
    SelectedConstant(m, s.body.value, s.param, m.rows(s.rel), env, cx);
  }

  lemma ExistenceMeans(
    m: T.Model, rel: Relation, alias: string, cond: T.Node, negate: bool, sql: T.Env, kept: seq<T.Row>
  )
    requires T.Matching(m, cond, alias, m.rows(rel), sql) == kept
    ensures T.Eval(m, Existence(rel, alias, cond, negate), sql) == T.Bool((kept != []) != negate)
  {
    assert T.Eval(m, T.Exists(rel, alias, cond), sql) == T.Bool(kept != []);
  }

  lemma {:induction false} ExistsPreserved(
    m: T.Model, scope: Scope, e: Expr, cx: Context, env: Rows, sql: T.Env, n: T.Node
  )
    requires e.Exists? && |e.sources| == 1
    requires ExistsOf(scope, e, e.sources[0], e.negate, cx) == Ok(n) && Agrees(scope, env, sql)
    requires Understands(m, cx.kind)
    ensures T.Eval(m, n, sql) == PredMeaning(m, e, env, cx)
    decreases e, 0, 1
  {
    var s := ParseChain(cx, e.sources[0]).value;
    var cond := (if e.negate then n.inner else n).cond;
    SourceSelects(m, e.sources[0], env, cx);
    if s.body.Lit? {
      ConstantPreserved(m, scope, s, cx, env, sql, cond);
    } else {
      MatchingPreserved(m, scope, s.body, s.param, m.rows(s.rel), cx, env, sql, cond);
    }
    ExistenceMeans(
      m, s.rel, Qualifier(scope.depth + 1, 0), cond, e.negate, sql, SourceRows(m, e.sources[0], env, cx));
  }

  lemma {:induction false} ConstantMatching(m: T.Model, v: Literal, alias: string, rows: seq<T.Row>, sql: T.Env)
    ensures T.Matching(m, T.Lit(v), alias, rows, sql) == if T.LitValue(m, v) == T.Bool(true) then rows else []
  {
    if rows != [] {
      ConstantMatching(m, v, alias, rows[1..], sql);
    }
  }

  /**
   From the closure to the value the database computes: the text that BuildInto appends, read
   with SQL precedence and evaluated under the aliases of the top-level tables, has the value
   of the closure on the rows of those tables.
   */
  lemma CompiledTextMeansClosure(
    m: T.Model, depth: nat, idents: seq<Ident>, rows: seq<T.Row>, e: Expr, columns: bool, cx: Context,
    sql: T.Env, rest: seq<T.Tok>
  )
    requires |idents| == |rows| && Aliased(depth, rows, sql) && SqlReader.Closed(rest)
    requires Understands(m, cx.kind)
    requires Condition(ForBindings(depth, idents), e, columns, cx).Ok?
    ensures var text := T.Print(Condition(ForBindings(depth, idents), e, columns, cx).value);
            var read := SqlReader.ReadOr(text + rest);
            && read.Got? && read.rest == rest
            && T.Eval(m, read.node, sql) == PredMeaning(m, e, BindRows(idents, rows), cx)
  {
    var scope := ForBindings(depth, idents);
    var n := Condition(scope, e, columns, cx).value;
    SqlReader.ReadPrinted(n, rest);
    BindingsAgree(depth, idents, rows, sql);
    PredicatePreserved(m, scope, e, columns, cx, BindRows(idents, rows), sql, n);
  }
}
