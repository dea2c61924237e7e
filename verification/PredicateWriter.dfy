/**
 The predicate compiler as the repository runs it: recursive methods that append to one shared
 buffer and cut it back when an expression turns out not to be one they support.
 */
module PredicateWriter {
  import opened Sequences
  import opened Wrappers
  import opened Syntax
  import opened QueryScope
  import opened Translation
  import T = SqlText

  /** The buffer that SQL parts are pushed onto. */
  class Sql {
    var parts: seq<T.Tok>

    constructor ()
      ensures parts == []
    {
      parts := [];
    }

    method Push(tokens: seq<T.Tok>)
      modifies this
      ensures parts == old(parts) + tokens
    {
      parts := parts + tokens;
    }

    method Truncate(len: nat)
      requires len <= |parts|
      modifies this
      ensures parts == old(parts)[..len]
    {
      parts := parts[..len];
    }
  }

  type Text = seq<T.Tok>

  /** Appended the text of `n`, or reported its error; either way only appended. */
  ghost predicate Wrote(r: Result<(), Error>, n: Result<T.Node, Error>, before: Text, after: Text)
  {
    && before <= after
    && (n.Err? ==> r == Err(n.error))
    && (n.Ok? ==> r == Ok(()) && after == before + T.Print(n.value))
  }

  /** As Wrote, with `false` for an expression that is not a value. */
  ghost predicate WroteMaybe(r: Result<bool, Error>, n: Result<Option<T.Node>, Error>, before: Text, after: Text)
  {
    && before <= after
    && (n.Err? ==> r == Err(n.error))
    && (n.Ok? ==> r == Ok(n.value.Some?))
    && (n.Ok? && n.value.Some? ==> after == before + T.Print(n.value.value))
  }

  /** Appends a value expression and says whether it was one. On a refusal some parts remain. */
  method WriteExpr(scope: Scope, e: Expr, capturing: bool, cx: Context, sql: Sql) returns (r: Result<bool, Error>)
    modifies sql
    ensures WroteMaybe(r, Scalar(scope, e, capturing, cx), old(sql.parts), sql.parts)
    decreases e, 1
  {
    var column := ColumnRef(scope, e);
    if column.Some? {
      sql.Push([T.Alias(column.value.0), T.DotColumn(column.value.1)]);
      return Ok(true);
    }
    match e
    case Path(id) =>
      if capturing && id in cx.params {
        sql.Push([T.Capture(id)]);
        return Ok(true);
      }
      return Ok(false);
    case Binary(op, left, right) =>
      if !op.Arith? {
        return Ok(false);
      }
      r := WriteArith(scope, e, capturing, cx, sql);
    case Apply(f, args) =>
      if |args| != Arity(f) {
        return Ok(false);
      }
      r := WriteCall(scope, e, capturing, cx, sql);
    case Paren(inner) =>
      r := WriteExpr(scope, inner, capturing, cx, sql);
    case Method(receiver, name, args) =>
      if (name.Count? || name.Fold?) && IsCall(receiver) {
        var shape := ParseAggregate(name, args);
        if shape.Err? {
          return Err(shape.error);
        }
        if shape.value.None? || !capturing {
          return Ok(false);
        }
        var done := WriteAggregate(scope, e, receiver, shape.value.value, cx, sql);
        if done.Err? {
          return Err(done.error);
        }
        return Ok(true);
      }
      return Ok(false);
    case Lit(v) =>
      sql.Push([T.LitTok(Written(cx.kind, v))]);
      return Ok(true);
    case _ =>
      return Ok(false);
  }

  method WriteArith(scope: Scope, e: Expr, capturing: bool, cx: Context, sql: Sql) returns (r: Result<bool, Error>)
    requires e.Binary? && e.op.Arith? && ColumnRef(scope, e).None?
    modifies sql
    ensures WroteMaybe(r, Scalar(scope, e, capturing, cx), old(sql.parts), sql.parts)
    decreases e, 0
  {
    ghost var start := sql.parts;
    sql.Push([T.LParen]);
    r := WriteExpr(scope, e.left, capturing, cx, sql);
    if r != Ok(true) {
      return;
    }
    ghost var l := Scalar(scope, e.left, capturing, cx).value.value;
    sql.Push([T.Sign(e.op.arith)]);
    r := WriteExpr(scope, e.right, capturing, cx, sql);
    if r != Ok(true) {
      return;
    }
    ghost var n := Scalar(scope, e.right, capturing, cx).value.value;
    sql.Push([T.RParen]);
    Assoc6(start, [T.LParen], T.Print(l), [T.Sign(e.op.arith)], T.Print(n), [T.RParen]);
  }

  method WriteCall(scope: Scope, e: Expr, capturing: bool, cx: Context, sql: Sql) returns (r: Result<bool, Error>)
    requires e.Apply? && |e.args| == Arity(e.func) && ColumnRef(scope, e).None?
    modifies sql
    ensures WroteMaybe(r, Scalar(scope, e, capturing, cx), old(sql.parts), sql.parts)
    decreases e, 0, 1
  {
    ghost var start := sql.parts;
    sql.Push([T.FuncName(e.func), T.LParen]);
    ghost var base := sql.parts;
    ghost var done: seq<T.Node> := [];
    var index := 0;
    CallFollowsArgs(scope, e, capturing, cx);
    NoArgsDone(scope, e, capturing, cx);
    while index < |e.args|
      invariant ArgsDone(scope, e, capturing, cx, index, done) && sql.parts == base + T.PrintArgs(done)
    {
      r, done := WriteArg(scope, e, index, capturing, cx, sql, base, done);
      if r.Err? || !r.value {
        return;
      }
      index := index + 1;
    }
    AllArgsDone(scope, e, capturing, cx, done);
    sql.Push([T.RParen]);
    Assoc4(start, [T.FuncName(e.func), T.LParen], T.PrintArgs(done), [T.RParen]);
    return Ok(true);
  }

  /** The first arguments are translated; what becomes of the others decides the rest. */
  ghost predicate ArgsDone(scope: Scope, e: Expr, capturing: bool, cx: Context, index: nat, done: seq<T.Node>)
    requires e.Apply?
  {
    && index <= |e.args| && |done| == index
    && Continues(Scalars(scope, e, e.args, capturing, cx), done, Scalars(scope, e, e.args[index..], capturing, cx))
  }

  lemma NoArgsDone(scope: Scope, e: Expr, capturing: bool, cx: Context)
    requires e.Apply?
    ensures ArgsDone(scope, e, capturing, cx, 0, []) && T.PrintArgs([]) == []
  {
    assert e.args[0..] == e.args;
    AllContinues(Scalars(scope, e, e.args, capturing, cx));
  }

  lemma AllArgsDone(scope: Scope, e: Expr, capturing: bool, cx: Context, done: seq<T.Node>)
    requires e.Apply? && ArgsDone(scope, e, capturing, cx, |e.args|, done)
    ensures Scalars(scope, e, e.args, capturing, cx) == Ok(Some(done))
  {
    assert e.args[|e.args|..] == [];
    assert done + [] == done;
  }

  lemma NextArgDone(scope: Scope, e: Expr, capturing: bool, cx: Context, index: nat, done: seq<T.Node>)
    requires e.Apply? && ArgsDone(scope, e, capturing, cx, index, done) && index < |e.args|
    ensures var n := Scalar(scope, e.args[index], capturing, cx);
            && (n.Err? ==> Scalars(scope, e, e.args, capturing, cx) == Err(n.error))
            && (n == Ok(None) ==> Scalars(scope, e, e.args, capturing, cx) == Ok(None))
            && (n.Ok? && n.value.Some? ==> ArgsDone(scope, e, capturing, cx, index + 1, done + [n.value.value]))
  {
    var n := Scalar(scope, e.args[index], capturing, cx);
    ArgsStep(scope, e, index, capturing, cx);
    if n.Ok? && n.value.Some? {
      ContinuesStep(
        Scalars(scope, e, e.args, capturing, cx), done, n.value.value, Scalars(scope, e, e.args[index + 1..], capturing, cx));
    }
  }

  /** One argument, after a comma unless it is the first. */
  method WriteArg(
    scope: Scope, e: Expr, index: nat, capturing: bool, cx: Context, sql: Sql, ghost base: Text, ghost done: seq<T.Node>
  ) returns (r: Result<bool, Error>, ghost after: seq<T.Node>)
    requires e.Apply? && index < |e.args| && ArgsDone(scope, e, capturing, cx, index, done)
    requires sql.parts == base + T.PrintArgs(done)
    modifies sql
    ensures base <= sql.parts
    ensures r.Err? ==> Scalars(scope, e, e.args, capturing, cx) == Err(r.error)
    ensures r.Ok? && !r.value ==> Scalars(scope, e, e.args, capturing, cx) == Ok(None)
    ensures r.Ok? && r.value ==>
      ArgsDone(scope, e, capturing, cx, index + 1, after) && sql.parts == base + T.PrintArgs(after)
    decreases e, 0, 0
  {
    after := done;
    ghost var comma := if done == [] then [] else [T.Comma];
    if index > 0 {
      sql.Push([T.Comma]);
    }
    assert sql.parts == base + T.PrintArgs(done) + comma;
    NextArgDone(scope, e, capturing, cx, index, done);
    r := WriteExpr(scope, e.args[index], capturing, cx, sql);
    if r == Ok(true) {
      ghost var n := Scalar(scope, e.args[index], capturing, cx).value.value;
      PrintArgsSnoc(done, n);
      Assoc4(base, T.PrintArgs(done), comma, T.Print(n));
      after := done + [n];
    }
  }

  lemma CallFollowsArgs(scope: Scope, e: Expr, capturing: bool, cx: Context)
    requires e.Apply? && |e.args| == Arity(e.func) && ColumnRef(scope, e).None?
    ensures var ns := Scalars(scope, e, e.args, capturing, cx);
            && (ns.Err? ==> Scalar(scope, e, capturing, cx) == Err(ns.error))
            && (ns == Ok(None) ==> Scalar(scope, e, capturing, cx) == Ok(None))
            && (ns.Ok? && ns.value.Some? ==> Scalar(scope, e, capturing, cx) == Ok(Some(T.Call(e.func, ns.value.value))))
  {
  }

  /** The translation of all arguments, given that of the first ones and of the others. */
  ghost predicate Continues(
    all: Result<Option<seq<T.Node>>, Error>, done: seq<T.Node>, rest: Result<Option<seq<T.Node>>, Error>
  )
  {
    && (rest.Err? ==> all == rest)
    && (rest == Ok(None) ==> all == rest)
    && (rest.Ok? && rest.value.Some? ==> all == Ok(Some(done + rest.value.value)))
  }

  lemma AllContinues(all: Result<Option<seq<T.Node>>, Error>)
    ensures Continues(all, [], all)
  {
    if all.Ok? && all.value.Some? {
      assert [] + all.value.value == all.value.value;
    }
  }

  lemma ContinuesStep(
    all: Result<Option<seq<T.Node>>, Error>, done: seq<T.Node>, n: T.Node, rest: Result<Option<seq<T.Node>>, Error>
  )
    requires Continues(all, done, if rest.Ok? && rest.value.Some? then Ok(Some([n] + rest.value.value)) else rest)
    ensures Continues(all, done + [n], rest)
  {
    if rest.Ok? && rest.value.Some? {
      assert done + ([n] + rest.value.value) == done + [n] + rest.value.value;
    }
  }

  lemma ArgsStep(scope: Scope, e: Expr, index: nat, capturing: bool, cx: Context)
    requires e.Apply? && index < |e.args|
    ensures var n := Scalar(scope, e.args[index], capturing, cx);
            var rest := Scalars(scope, e, e.args[index + 1..], capturing, cx);
            Scalars(scope, e, e.args[index..], capturing, cx) ==
            if n.Err? then Err(n.error)
            else if n.value.None? then Ok(None)
            else if rest.Ok? && rest.value.Some? then Ok(Some([n.value.value] + rest.value.value))
            else rest
  {
    assert e.args[index..][1..] == e.args[index + 1..];
  }

  lemma {:induction false} PrintArgsSnoc(done: seq<T.Node>, n: T.Node)
    ensures T.PrintArgs(done + [n]) ==
            T.PrintArgs(done) + (if done == [] then [] else [T.Comma]) + T.Print(n)
    decreases |done|
  {
    if |done| > 0 {
      assert (done + [n])[1..] == done[1..] + [n];
      PrintArgsSnoc(done[1..], n);
    } else {
      assert done + [n] == [n];
    }
  }

  /** Appends a value expression, or leaves the buffer exactly as it was. */
  method ParseInto(scope: Scope, e: Expr, capturing: bool, cx: Context, sql: Sql) returns (r: Result<bool, Error>)
    modifies sql
    ensures WroteMaybe(r, Scalar(scope, e, capturing, cx), old(sql.parts), sql.parts)
    ensures r == Ok(false) ==> sql.parts == old(sql.parts)
    decreases e, 2
  {
    var start := |sql.parts|;
    r := WriteExpr(scope, e, capturing, cx, sql);
    if r == Ok(false) {
      sql.Truncate(start);
    }
  }

  method WriteAggregate(scope: Scope, parent: Expr, receiver: Expr, shape: AggShape, cx: Context, sql: Sql)
    returns (r: Result<(), Error>)
    requires receiver < parent && (shape.FoldShape? ==> shape.lambda.body < parent)
    modifies sql
    ensures Wrote(r, Aggregate(scope, parent, receiver, shape, cx), old(sql.parts), sql.parts)
    decreases parent, 0, 1
  {
    var source := ParseCall(receiver);
    if source.Err? {
      return Err(source.error);
    }
    var s := source.value;
    ghost var start := sql.parts;
    sql.Push([T.LParen, T.Kw(T.SELECT)]);
    ghost var head;
    var aggregate;
    head, aggregate := WriteAggregateHead(scope, parent, shape, cx, sql);
    r := WriteFrom(scope, parent, s, cx, sql);
    if r.Err? {
      return;
    }
    if aggregate.Err? {
      return aggregate;
    }
    sql.Push([T.RParen]);
    AggregatePrints(start, head, T.Base(s.rel, Qualifier(scope.depth + 1, 0)), T.Print(SourceCondition(scope, s, cx).value));
    AggregateIs(scope, parent, receiver, shape, cx, head);
  }

  /** The aggregate as it is written, given its head. */
  lemma AggregateIs(scope: Scope, parent: Expr, receiver: Expr, shape: AggShape, cx: Context, head: Text)
    requires receiver < parent && (shape.FoldShape? ==> shape.lambda.body < parent)
    requires ParseCall(receiver).Ok? && SourceCondition(scope, ParseCall(receiver).value, cx).Ok?
    requires shape.CountShape? ==> head == T.COUNT_STAR
    requires shape.FoldShape? ==>
               var arg := Scalar(Nested(scope, [shape.lambda.param]), shape.lambda.body, true, cx);
               && arg.Ok? && arg.value.Some?
               && head == [T.AggName(shape.agg), T.LParen] + T.Print(arg.value.value) + [T.RParen]
    ensures var s := ParseCall(receiver).value;
            var n := Aggregate(scope, parent, receiver, shape, cx);
            && n.Ok?
            && T.Print(n.value) == [T.LParen, T.Kw(T.SELECT)] + head + [T.Kw(T.FROM)]
               + T.Base(s.rel, Qualifier(scope.depth + 1, 0)) + T.Print(SourceCondition(scope, s, cx).value) + [T.RParen]
  {
  }

  function SourceCondition(scope: Scope, s: Source, cx: Context): Result<T.Node, Error>
  {
    Condition(Nested(scope, [s.param]), s.body, true, cx)
  }

  lemma AggregatePrints(start: Text, head: Text, base: Text, cond: Text)
    ensures start + [T.LParen, T.Kw(T.SELECT)] + head + ([T.Kw(T.FROM)] + base + cond) + [T.RParen]
         == start + ([T.LParen, T.Kw(T.SELECT)] + head + [T.Kw(T.FROM)] + base + cond + [T.RParen])
  {
    var open := [T.LParen, T.Kw(T.SELECT)];
    Assoc4(start + open + head, [T.Kw(T.FROM)], base, cond);
    Assoc6(start, open, head, [T.Kw(T.FROM)], base, cond);
    Assoc(start, open + head + [T.Kw(T.FROM)] + base + cond, [T.RParen]);
  }

  /** `FROM relation AS alias WHERE condition` */
  method WriteFrom(scope: Scope, parent: Expr, s: Source, cx: Context, sql: Sql) returns (r: Result<(), Error>)
    requires s.body < parent
    modifies sql
    ensures old(sql.parts) <= sql.parts
    ensures var cond := SourceCondition(scope, s, cx);
            && (cond.Err? ==> r == Err(cond.error))
            && (cond.Ok? ==>
                  var text := [T.Kw(T.FROM)] + T.Base(s.rel, Qualifier(scope.depth + 1, 0)) + T.Print(cond.value);
                  r == Ok(()) && sql.parts == old(sql.parts) + text)
    decreases parent, 0, 0
  {
    ghost var start := sql.parts;
    var base := T.Base(s.rel, Qualifier(scope.depth + 1, 0));
    sql.Push([T.Kw(T.FROM)]);
    sql.Push(base);
    r := BuildInto(Nested(scope, [s.param]), s.body, true, cx, sql);
    if r.Ok? {
      Assoc4(start, [T.Kw(T.FROM)], base, T.Print(SourceCondition(scope, s, cx).value));
    }
  }

  /** The aggregate itself; an error in it is reported only after the WHERE clause. */
  method WriteAggregateHead(scope: Scope, parent: Expr, shape: AggShape, cx: Context, sql: Sql)
    returns (ghost head: Text, r: Result<(), Error>)
    requires shape.FoldShape? ==> shape.lambda.body < parent
    modifies sql
    ensures old(sql.parts) <= sql.parts
    ensures shape.CountShape? ==> r.Ok? && head == T.COUNT_STAR
    ensures shape.FoldShape? ==>
              var arg := Scalar(Nested(scope, [shape.lambda.param]), shape.lambda.body, true, cx);
              && (arg.Err? ==> r == Err(arg.error))
              && (arg == Ok(None) ==> r == Err(BadAggregate))
              && (arg.Ok? && arg.value.Some? ==>
                    r.Ok? && head == [T.AggName(shape.agg), T.LParen] + T.Print(arg.value.value) + [T.RParen])
    ensures r.Ok? ==> sql.parts == old(sql.parts) + head
    decreases parent, 0, 0
  {
    head, r := T.COUNT_STAR, Ok(());
    match shape {
      case CountShape =>
        sql.Push(T.COUNT_STAR);
      case FoldShape(agg, lambda) =>
        ghost var start := sql.parts;
        sql.Push([T.AggName(agg), T.LParen]);
        var arg := ParseInto(Nested(scope, [lambda.param]), lambda.body, true, cx, sql);
        if arg.Err? {
          r := Err(arg.error);
        } else if !arg.value {
          r := Err(BadAggregate);
        } else {
          ghost var n := Scalar(Nested(scope, [lambda.param]), lambda.body, true, cx).value.value;
          sql.Push([T.RParen]);
          head := [T.AggName(agg), T.LParen] + T.Print(n) + [T.RParen];
          Assoc4(start, [T.AggName(agg), T.LParen], T.Print(n), [T.RParen]);
        }
    }
  }

  method WriteExists(scope: Scope, parent: Expr, source: Expr, negate: bool, cx: Context, sql: Sql)
    returns (r: Result<(), Error>)
    requires source < parent && parent.Exists?
    modifies sql
    ensures Wrote(r, ExistsOf(scope, parent, source, negate, cx), old(sql.parts), sql.parts)
    decreases parent, 0
  {
    var chain := ParseChain(cx, source);
    if chain.Err? {
      return Err(chain.error);
    }
    var s := chain.value;
    var alias := Qualifier(scope.depth + 1, 0);
    ghost var start := sql.parts;
    var head := (if negate then [T.Kw(T.NOT)] else []) + T.ExistsHead(s.rel, alias);
    sql.Push(head);
    if s.body.Lit? {
      r := WriteLit(cx.kind, s.body.value, sql);
    } else {
      r := BuildInto(Nested(scope, [s.param]), s.body, true, cx, sql);
    }
    if r.Ok? {
      ghost var cond :=
        (if s.body.Lit? then LitCondition(cx.kind, s.body.value) else Condition(Nested(scope, [s.param]), s.body, true, cx)).value;
      sql.Push([T.RParen]);
      Assoc4(start, head, T.Print(cond), [T.RParen]);
      ExistsPrints(s.rel, alias, cond, negate);
    }
  }

  lemma ExistsPrints(rel: Relation, alias: string, cond: T.Node, negate: bool)
    ensures var head := (if negate then [T.Kw(T.NOT)] else []) + T.ExistsHead(rel, alias);
            head + T.Print(cond) + [T.RParen] == T.Print(Existence(rel, alias, cond, negate))
  {
    var n := T.Exists(rel, alias, cond);
    assert T.Print(n) == T.ExistsHead(rel, alias) + T.Print(cond) + [T.RParen];
    if negate {
      assert T.Print(T.Not(n)) == [T.Kw(T.NOT)] + T.Print(n);
      Assoc4([T.Kw(T.NOT)], T.ExistsHead(rel, alias), T.Print(cond), [T.RParen]);
    } else {
      NoMore(T.ExistsHead(rel, alias));
    }
  }

  method WriteLit(kind: Kind, v: Literal, sql: Sql) returns (r: Result<(), Error>)
    modifies sql
    ensures Wrote(r, LitCondition(kind, v), old(sql.parts), sql.parts)
  {
    if !v.Truth? {
      return Err(NotAPredicate);
    }
    sql.Push([T.LitTok(Written(kind, v))]);
    return Ok(());
  }

  /** Appends the text of a predicate. */
  method BuildInto(scope: Scope, e: Expr, columns: bool, cx: Context, sql: Sql) returns (r: Result<(), Error>)
    modifies sql
    ensures Wrote(r, Condition(scope, e, columns, cx), old(sql.parts), sql.parts)
    decreases e, 5
  {
    match e
    case Exists(negate, sources) =>
      if |sources| != 1 {
        return Err(WrongArity);
      }
      r := WriteExists(scope, e, sources[0], negate, cx, sql);
    case Binary(op, left, right) =>
      match op {
        case And => r := WriteJunction(scope, e, columns, cx, sql);
        case Or => r := WriteJunction(scope, e, columns, cx, sql);
        case Compare(_) => r := WriteCompare(scope, e, columns, cx, sql);
        case _ => r := Err(BadOperator);
      }
    case Lit(v) =>
      r := WriteLit(cx.kind, v, sql);
    case Field(_, _) =>
      r := WriteTruthTest(scope, e, true, cx, sql);
    case Not(operand) =>
      r := WriteTruthTest(scope, operand, false, cx, sql);
    case Paren(inner) =>
      r := BuildInto(scope, inner, columns, cx, sql);
    case Block(tail) =>
      if |tail| != 1 {
        return Err(BadBlock);
      }
      r := BuildInto(scope, tail[0], columns, cx, sql);
    case Method(receiver, name, args) =>
      r := WriteMethod(scope, receiver, name, args, e, cx, sql);
    case _ =>
      r := Err(NotAPredicate);
  }

  method WriteJunction(scope: Scope, e: Expr, columns: bool, cx: Context, sql: Sql) returns (r: Result<(), Error>)
    requires e.Binary? && (e.op.And? || e.op.Or?)
    modifies sql
    ensures Wrote(r, Condition(scope, e, columns, cx), old(sql.parts), sql.parts)
    decreases e, 0
  {
    ghost var start := sql.parts;
    var wrap := [T.RParen, T.Kw(if e.op.And? then T.AND else T.OR), T.LParen];
    sql.Push([T.LParen]);
    r := BuildInto(scope, e.left, columns, cx, sql);
    if r.Err? {
      return;
    }
    ghost var l := Condition(scope, e.left, columns, cx).value;
    sql.Push(wrap);
    r := BuildInto(scope, e.right, columns, cx, sql);
    if r.Err? {
      return;
    }
    ghost var n := Condition(scope, e.right, columns, cx).value;
    sql.Push([T.RParen]);
    Assoc6(start, [T.LParen], T.Print(l), wrap, T.Print(n), [T.RParen]);
  }

  /** The operand of a construct that cannot do without one. */
  method WriteRequired(scope: Scope, e: Expr, capturing: bool, cx: Context, sql: Sql) returns (r: Result<(), Error>)
    modifies sql
    ensures Wrote(r, Required(Scalar(scope, e, capturing, cx)), old(sql.parts), sql.parts)
    decreases e, 3
  {
    var done := ParseInto(scope, e, capturing, cx, sql);
    if done.Err? {
      return Err(done.error);
    }
    return if done.value then Ok(()) else Err(NotAColumn);
  }

  method WriteTruthTest(scope: Scope, e: Expr, truth: bool, cx: Context, sql: Sql) returns (r: Result<(), Error>)
    modifies sql
    ensures Wrote(r, TruthTest(cx.kind, Scalar(scope, e, false, cx), truth), old(sql.parts), sql.parts)
    decreases e, 4
  {
    r := WriteRequired(scope, e, false, cx, sql);
    if r.Ok? {
      sql.Push([T.Op(Eq)]);
      sql.Push([T.LitTok(Written(cx.kind, Truth(truth)))]);
    }
  }

  method WriteParam(op: Cmp, id: Ident, sql: Sql)
    modifies sql
    ensures sql.parts == old(sql.parts) + T.Print(ParamNode(op, id))
  {
    sql.Push([T.Capture(id)]);
    if op.LtreeDescOf? || op.LtreeAncOf? {
      sql.Push([T.CastLtree]);
    }
  }

  method WriteCompare(scope: Scope, e: Expr, columns: bool, cx: Context, sql: Sql) returns (r: Result<(), Error>)
    requires e.Binary? && e.op.Compare?
    modifies sql
    ensures Wrote(r, Condition(scope, e, columns, cx), old(sql.parts), sql.parts)
    decreases e, 0
  {
    ghost var start := sql.parts;
    r := WriteRequired(scope, e.left, true, cx, sql);
    if r.Err? {
      return;
    }
    ghost var l := Required(Scalar(scope, e.left, true, cx)).value;
    var op := T.Spelling(e.op.cmp);
    sql.Push([T.Op(op)]);
    var right := ParseInto(scope, e.right, false, cx, sql);
    if right.Err? {
      return Err(right.error);
    }
    if right.value {
      if !columns && HasColumn(scope, e.left) && HasColumn(scope, e.right) {
        return Err(ColumnPair);
      }
      Assoc4(start, T.Print(l), [T.Op(op)], T.Print(Scalar(scope, e.right, false, cx).value.value));
      return Ok(());
    }
    var id := Resolved(cx, e.right);
    if id.Err? {
      return Err(id.error);
    }
    WriteParam(e.op.cmp, id.value, sql);
    Assoc4(start, T.Print(l), [T.Op(op)], T.Print(ParamNode(e.op.cmp, id.value)));
    return Ok(());
  }

  method WriteMethod(
    scope: Scope, receiver: Expr, name: MethodName, args: seq<Expr>, parent: Expr, cx: Context, sql: Sql
  ) returns (r: Result<(), Error>)
    requires receiver < parent && forall i :: 0 <= i < |args| ==> args[i] < parent
    modifies sql
    ensures var column, left := Required(Scalar(scope, receiver, false, cx)), Required(Scalar(scope, receiver, true, cx));
            var right := if |args| == 1 then Scalar(scope, args[0], true, cx) else Ok(None);
            Wrote(r, MethodCondition(name, column, left, right, args, cx), old(sql.parts), sql.parts)
    decreases parent, 1
  {
    if name.IsSome? || name.IsNone? {
      if args != [] {
        return Err(WrongArity);
      }
      r := WriteNullTest(scope, receiver, name, cx, sql);
      return;
    }
    if !(name.In? || name.NotIn? || name.Fts? || name.Operator?) {
      return Err(NotAPredicate);
    }
    if |args| != 1 {
      return Err(WrongArity);
    }
    r := WriteOperation(scope, receiver, name, args[0], parent, cx, sql);
  }

  method WriteOperation(scope: Scope, receiver: Expr, name: MethodName, arg: Expr, parent: Expr, cx: Context, sql: Sql)
    returns (r: Result<(), Error>)
    requires receiver < parent && arg < parent && (name.In? || name.NotIn? || name.Fts? || name.Operator?)
    modifies sql
    ensures var left, right := Required(Scalar(scope, receiver, true, cx)), Scalar(scope, arg, true, cx);
            Wrote(r, OperationCondition(name, left, right, arg, cx), old(sql.parts), sql.parts)
    decreases parent, 0, 1
  {
    ghost var start := sql.parts;
    r := WriteRequired(scope, receiver, true, cx, sql);
    if r.Err? {
      return;
    }
    ghost var n := Required(Scalar(scope, receiver, true, cx)).value;
    if Rejected(cx.kind, name) {
      return Err(BackendRefuses);
    }
    if name.Fts? {
      r := WriteSearch(scope, name, arg, parent, cx, sql, start, n);
    } else {
      r := WriteListed(scope, name, arg, cx, sql, start, n);
    }
  }

  method WriteSearch(
    scope: Scope, name: MethodName, arg: Expr, parent: Expr, cx: Context, sql: Sql, ghost start: Text, ghost n: T.Node
  ) returns (r: Result<(), Error>)
    requires arg < parent && name.Fts? && !Rejected(cx.kind, name) && sql.parts == start + T.Print(n)
    modifies sql
    ensures Wrote(r, OperationCondition(name, Ok(n), Scalar(scope, arg, true, cx), arg, cx), start, sql.parts)
    decreases parent, 0, 0
  {
    r := WriteMatch(scope, arg, cx, sql);
    ghost var right := Scalar(scope, arg, true, cx);
    SearchFollows(name, n, right, arg, cx);
    SearchWritten(r, OrParameter(right, arg, cx), n, start, sql.parts);
  }

  /** The receiver's text, then the operator with its right side, is the text of the search. */
  lemma SearchWritten(
    r: Result<(), Error>, value: Result<T.Node, Error>, n: T.Node, start: Text, after: Text
  )
    requires start + T.Print(n) <= after && (value.Err? ==> r == Err(value.error))
    requires value.Ok? ==> r == Ok(()) && after == start + T.Print(n) + [T.Op(FtsMatch)] + T.Print(value.value)
    ensures start <= after && (value.Ok? ==> after == start + T.Print(T.Compare(FtsMatch, n, value.value)))
  {
    assert start <= start + T.Print(n);
    if value.Ok? {
      Assoc4(start, T.Print(n), [T.Op(FtsMatch)], T.Print(value.value));
    }
  }

  lemma SearchFollows(name: MethodName, n: T.Node, right: Result<Option<T.Node>, Error>, arg: Expr, cx: Context)
    requires name.Fts? && !Rejected(cx.kind, name)
    ensures var value := OrParameter(right, arg, cx);
            && (value.Err? ==> OperationCondition(name, Ok(n), right, arg, cx) == Err(value.error))
            && (value.Ok? ==> OperationCondition(name, Ok(n), right, arg, cx) == Ok(T.Compare(FtsMatch, n, value.value)))
  {
  }

  method WriteListed(scope: Scope, name: MethodName, arg: Expr, cx: Context, sql: Sql, ghost start: Text, ghost n: T.Node)
    returns (r: Result<(), Error>)
    requires (name.In? || name.NotIn? || name.Operator?) && !Rejected(cx.kind, name) && sql.parts == start + T.Print(n)
    modifies sql
    ensures Wrote(r, OperationCondition(name, Ok(n), Scalar(scope, arg, true, cx), arg, cx), start, sql.parts)
  {
    var id := ResolvedRef(cx, arg);
    if id.Err? {
      return Err(id.error);
    }
    WriteOperator(name, id.value, sql);
    Assoc(start, T.Print(n), OperatorText(name, id.value));
    OperatorPrints(name, n, id.value);
    return Ok(());
  }

  method WriteNullTest(scope: Scope, receiver: Expr, name: MethodName, cx: Context, sql: Sql) returns (r: Result<(), Error>)
    modifies sql
    ensures Wrote(r, NullCondition(Required(Scalar(scope, receiver, false, cx)), name), old(sql.parts), sql.parts)
    decreases receiver, 4
  {
    r := WriteRequired(scope, receiver, false, cx, sql);
    if r.Ok? {
      sql.Push(if name.IsSome? then [T.Kw(T.IS), T.Kw(T.NOT), T.Kw(T.NULL)] else [T.Kw(T.IS), T.Kw(T.NULL)]);
    }
  }

  function OperatorText(name: MethodName, id: Ident): Text
  {
    match name
    case Operator(op) => [T.Op(T.Spelling(op))] + T.Print(ParamNode(op, id))
    case In => [T.Op(Eq), T.Kw(T.ANY), T.LParen] + [T.Capture(id)] + [T.RParen]
    case _ => [T.Op(Ne), T.Kw(T.ALL), T.LParen] + [T.Capture(id)] + [T.RParen]
  }

  lemma OperatorPrints(name: MethodName, n: T.Node, id: Ident)
    requires name.In? || name.NotIn? || name.Operator?
    ensures T.Print(n) + OperatorText(name, id) == T.Print(OperationNode(name, n, id))
  {
    if name.Operator? {
      Assoc(T.Print(n), [T.Op(T.Spelling(name.op))], T.Print(ParamNode(name.op, id)));
    } else {
      assert T.Print(T.Param(id)) == [T.Capture(id)];
      var open := if name.In? then [T.Op(Eq), T.Kw(T.ANY), T.LParen] else [T.Op(Ne), T.Kw(T.ALL), T.LParen];
      Assoc4(T.Print(n), open, [T.Capture(id)], [T.RParen]);
    }
  }

  method WriteOperator(name: MethodName, id: Ident, sql: Sql)
    requires name.In? || name.NotIn? || name.Operator?
    modifies sql
    ensures sql.parts == old(sql.parts) + OperatorText(name, id)
  {
    ghost var start := sql.parts;
    if name.Operator? {
      sql.Push([T.Op(T.Spelling(name.op))]);
      WriteParam(name.op, id, sql);
      Assoc(start, [T.Op(T.Spelling(name.op))], T.Print(ParamNode(name.op, id)));
    } else {
      var open := if name.In? then [T.Op(Eq), T.Kw(T.ANY), T.LParen] else [T.Op(Ne), T.Kw(T.ALL), T.LParen];
      sql.Push(open);
      sql.Push([T.Capture(id)]);
      sql.Push([T.RParen]);
      Assoc4(start, open, [T.Capture(id)], [T.RParen]);
    }
  }

  /** The right side of a text-search match. */
  method WriteMatch(scope: Scope, arg: Expr, cx: Context, sql: Sql) returns (r: Result<(), Error>)
    modifies sql
    ensures old(sql.parts) <= sql.parts
    ensures var right := OrParameter(Scalar(scope, arg, true, cx), arg, cx);
            && (right.Err? ==> r == Err(right.error))
            && (right.Ok? ==> r == Ok(()) && sql.parts == old(sql.parts) + [T.Op(FtsMatch)] + T.Print(right.value))
    decreases arg, 3
  {
    sql.Push([T.Op(FtsMatch)]);
    var right := ParseInto(scope, arg, true, cx, sql);
    if right.Err? {
      return Err(right.error);
    }
    if !right.value {
      var id := ResolvedRef(cx, arg);
      if id.Err? {
        return Err(id.error);
      }
      sql.Push([T.Capture(id.value)]);
    }
    return Ok(());
  }
}
