/**
 Which closures compile: a grammar over the closure alone, which mentions no SQL. The compiler
 accepts exactly what is in it.
 */
module Acceptance {
  import opened Wrappers
  import opened Syntax
  import opened QueryScope
  import opened Translation
  import T = SqlText
  import Meaning
  import SqlReader

  function Names(idents: seq<Ident>): set<Ident>
  {
    set x | x in idents
  }

  predicate IsParameter(cx: Context, e: Expr)
  {
    e.Path? && e.id in cx.params
  }

  predicate IsParameterRef(cx: Context, e: Expr)
  {
    IsParameter(cx, e) || (e.Reference? && IsParameter(cx, e.target))
  }

  predicate OneVariable(e: Expr)
  {
    e.Closure? && |e.params| == 1
  }

  /** A value, where `names` are the row variables in scope. Parameters and aggregates only on a left side. */
  predicate IsValue(names: set<Ident>, e: Expr, leftSide: bool, cx: Context)
    decreases e, 1
  {
    match e
    case Field(base, _) => base.Path? && base.id in names
    case Path(_) => leftSide && IsParameter(cx, e)
    case Lit(_) => true
    case Paren(inner) => IsValue(names, inner, leftSide, cx)
    case Binary(op, left, right) => op.Arith? && IsValue(names, left, leftSide, cx) && IsValue(names, right, leftSide, cx)
    case Apply(f, args) => |args| == Arity(f) && forall i :: 0 <= i < |args| ==> IsValue(names, args[i], leftSide, cx)
    case Method(receiver, Count, args) => leftSide && args == [] && IsFiltered(names, receiver, cx)
    case Method(receiver, Fold(_), args) =>
      && leftSide && |args| == 1 && OneVariable(args[0]) && IsFiltered(names, receiver, cx)
      && IsValue(names + {args[0].params[0]}, Unbrace(args[0].body), true, cx)
    case _ => false
  }

  /** `Table::filter(|x| condition)` */
  predicate IsFiltered(names: set<Ident>, e: Expr, cx: Context)
    decreases e, 0
  {
    e.Filter? && |e.args| == 1 && OneVariable(e.args[0])
    && IsCondition(names + {e.args[0].params[0]}, Unbrace(e.args[0].body), true, cx)
  }

  predicate IsSource(names: set<Ident>, e: Expr, cx: Context)
    decreases e, 1
  {
    match e
    case Block(tail) => |tail| == 1 && IsSource(names, tail[0], cx)
    case Path(id) => id in cx.ctes
    case Filter(_, _) => IsFiltered(names, e, cx)
    case Method(receiver, FilterRows, args) =>
      && |args| == 1 && OneVariable(args[0]) && receiver.Path? && receiver.id in cx.ctes
      && IsCondition(names + {args[0].params[0]}, Unbrace(args[0].body), true, cx)
    case _ => false
  }

  /** Whether a value has a column in it, outside its subqueries. */
  predicate IsColumned(e: Expr)
  {
    match e
    case Field(_, _) => true
    case Paren(inner) => IsColumned(inner)
    case Binary(_, left, right) => IsColumned(left) || IsColumned(right)
    case Apply(_, args) => exists i :: 0 <= i < |args| && IsColumned(args[i])
    case _ => false
  }

  /** A condition. Columns compare with columns inside subqueries and joins only, where `pairs` holds. */
  predicate IsCondition(names: set<Ident>, e: Expr, pairs: bool, cx: Context)
    decreases e, 2
  {
    match e
    case Lit(v) => v.Truth?
    case Field(_, _) => IsValue(names, e, false, cx)
    case Not(operand) => IsValue(names, operand, false, cx)
    case Paren(inner) => IsCondition(names, inner, pairs, cx)
    case Block(tail) => |tail| == 1 && IsCondition(names, tail[0], pairs, cx)
    case Exists(_, sources) => |sources| == 1 && IsSource(names, sources[0], cx)
    case Binary(op, left, right) =>
      (match op
       case And | Or => IsCondition(names, left, pairs, cx) && IsCondition(names, right, pairs, cx)
       case Compare(_) =>
         && IsValue(names, left, true, cx)
         && (IsParameter(cx, right)
             || (IsValue(names, right, false, cx) && (pairs || !(IsColumned(left) && IsColumned(right)))))
       case _ => false)
    case Method(receiver, name, args) =>
      (match name
       case IsSome | IsNone => args == [] && IsValue(names, receiver, false, cx)
       case In | NotIn | Operator(_) =>
         !Rejected(cx.kind, name) && |args| == 1 && IsValue(names, receiver, true, cx) && IsParameterRef(cx, args[0])
       case Fts =>
         && !Rejected(cx.kind, name) && |args| == 1 && IsValue(names, receiver, true, cx)
         && (IsParameterRef(cx, args[0]) || IsValue(names, args[0], true, cx))
       case _ => false)
    case _ => false
  }

  // ---- the compiler accepts exactly that ----

  ghost predicate Knows(scope: Scope, names: set<Ident>)
  {
    forall x: Ident :: x in names <==> Resolve(scope, x).Some?
  }

  lemma KnowsNested(scope: Scope, names: set<Ident>, x: Ident)
    requires Knows(scope, names)
    ensures Knows(Nested(scope, [x]), names + {x})
  {
    forall y: Ident ensures y in names + {x} <==> Resolve(Nested(scope, [x]), y).Some? {
      ResolveNested(scope, x, y);
    }
  }

  predicate IsSome<V>(r: Result<Option<V>, Error>)
  {
    r.Ok? && r.value.Some?
  }

  lemma {:induction false} ValueCompiles(scope: Scope, names: set<Ident>, e: Expr, leftSide: bool, cx: Context)
    requires Knows(scope, names)
    ensures IsSome(Scalar(scope, e, leftSide, cx)) <==> IsValue(names, e, leftSide, cx)
    decreases e, 1, 0
  {
    if e.Paren? {
      ValueCompiles(scope, names, e.inner, leftSide, cx);
    } else if e.Binary? {
      ValueCompiles(scope, names, e.left, leftSide, cx);
      ValueCompiles(scope, names, e.right, leftSide, cx);
    } else if e.Apply? {
      ValuesCompile(scope, names, e, e.args, leftSide, cx);
    } else if e.Method? {
      MethodValueCompiles(scope, names, e, leftSide, cx);
    } else {
      LeafCompiles(scope, names, e, leftSide, cx);
    }
  }

  lemma LeafCompiles(scope: Scope, names: set<Ident>, e: Expr, leftSide: bool, cx: Context)
    requires Knows(scope, names) && !e.Paren? && !e.Binary? && !e.Apply? && !e.Method?
    ensures IsSome(Scalar(scope, e, leftSide, cx)) <==> IsValue(names, e, leftSide, cx)
  {
  }

  lemma {:induction false} MethodValueCompiles(scope: Scope, names: set<Ident>, e: Expr, leftSide: bool, cx: Context)
    requires Knows(scope, names) && e.Method?
    ensures IsSome(Scalar(scope, e, leftSide, cx)) <==> IsValue(names, e, leftSide, cx)
    decreases e, 0, 1
  {
    if (e.name.Count? || e.name.Fold?) && leftSide && IsSome(ParseAggregate(e.name, e.args)) {
      AggregateCompiles(scope, names, e, e.receiver, ParseAggregate(e.name, e.args).value.value, cx);
    }
  }

  lemma {:induction false} ValuesCompile(
    scope: Scope, names: set<Ident>, parent: Expr, args: seq<Expr>, leftSide: bool, cx: Context
  )
    requires Knows(scope, names) && forall i :: 0 <= i < |args| ==> args[i] < parent
    ensures IsSome(Scalars(scope, parent, args, leftSide, cx)) <==>
            forall i :: 0 <= i < |args| ==> IsValue(names, args[i], leftSide, cx)
    decreases parent, 0, |args|
  {
    if args != [] {
      ValueCompiles(scope, names, args[0], leftSide, cx);
      ValuesCompile(scope, names, parent, args[1..], leftSide, cx);
      assert args == [args[0]] + args[1..];
    }
  }

  lemma {:induction false} AggregateCompiles(
    scope: Scope, names: set<Ident>, parent: Expr, receiver: Expr, shape: AggShape, cx: Context
  )
    requires receiver < parent && (shape.FoldShape? ==> shape.lambda.body < parent)
    requires Knows(scope, names)
    ensures Aggregate(scope, parent, receiver, shape, cx).Ok? <==>
            && IsFiltered(names, receiver, cx)
            && (shape.FoldShape? ==> IsValue(names + {shape.lambda.param}, shape.lambda.body, true, cx))
    decreases parent, 0, 0
  {
    if ParseCall(receiver).Ok? {
      var s := ParseCall(receiver).value;
      KnowsNested(scope, names, s.param);
      ConditionCompiles(Nested(scope, [s.param]), names + {s.param}, s.body, true, cx);
    }
    if shape.FoldShape? {
      KnowsNested(scope, names, shape.lambda.param);
      ValueCompiles(Nested(scope, [shape.lambda.param]), names + {shape.lambda.param}, shape.lambda.body, true, cx);
    }
  }

  lemma {:induction false} ColumnedCompiles(scope: Scope, names: set<Ident>, e: Expr, leftSide: bool, cx: Context)
    requires Knows(scope, names) && IsValue(names, e, leftSide, cx)
    ensures HasColumn(scope, e) <==> IsColumned(e)
  {
    match e
    case Paren(inner) => ColumnedCompiles(scope, names, inner, leftSide, cx);
    case Binary(_, left, right) =>
      ColumnedCompiles(scope, names, left, leftSide, cx);
      ColumnedCompiles(scope, names, right, leftSide, cx);
    case Apply(_, args) =>
      forall i | 0 <= i < |args| ensures HasColumn(scope, args[i]) <==> IsColumned(args[i]) {
        ColumnedCompiles(scope, names, args[i], leftSide, cx);
      }
    case _ =>
  }

  /** A closure compiles if and only if it is in the grammar. */
  lemma {:induction false} ConditionCompiles(scope: Scope, names: set<Ident>, e: Expr, pairs: bool, cx: Context)
    requires Knows(scope, names)
    ensures Condition(scope, e, pairs, cx).Ok? <==> IsCondition(names, e, pairs, cx)
    decreases e, 2, 0
  {
    match e
    case Field(_, _) => ValueCompiles(scope, names, e, false, cx);
    case Not(operand) => ValueCompiles(scope, names, operand, false, cx);
    case Paren(inner) => ConditionCompiles(scope, names, inner, pairs, cx);
    case Block(tail) => if |tail| == 1 { ConditionCompiles(scope, names, tail[0], pairs, cx); }
    case Exists(negate, sources) => if |sources| == 1 { SourceCompiles(scope, names, e, sources[0], negate, cx); }
    case Binary(op, left, right) =>
      if op.And? || op.Or? {
        ConditionCompiles(scope, names, left, pairs, cx);
        ConditionCompiles(scope, names, right, pairs, cx);
      } else if op.Compare? {
        CompareCompiles(scope, names, e, pairs, cx);
      }
    case Method(_, _, _) => MethodCompiles(scope, names, e, pairs, cx);
    case _ =>
  }

  lemma {:induction false} MethodCompiles(scope: Scope, names: set<Ident>, e: Expr, pairs: bool, cx: Context)
    requires Knows(scope, names) && e.Method?
    ensures Condition(scope, e, pairs, cx).Ok? <==> IsCondition(names, e, pairs, cx)
    decreases e, 0, 0
  {
    ValueCompiles(scope, names, e.receiver, false, cx);
    ValueCompiles(scope, names, e.receiver, true, cx);
    if |e.args| == 1 {
      ValueCompiles(scope, names, e.args[0], true, cx);
    }
  }

  lemma {:induction false} CompareCompiles(scope: Scope, names: set<Ident>, e: Expr, pairs: bool, cx: Context)
    requires Knows(scope, names) && e.Binary? && e.op.Compare?
    ensures Condition(scope, e, pairs, cx).Ok? <==> IsCondition(names, e, pairs, cx)
    decreases e, 0, 0
  {
    ValueCompiles(scope, names, e.left, true, cx);
    ValueCompiles(scope, names, e.right, false, cx);
    if IsValue(names, e.left, true, cx) && IsValue(names, e.right, false, cx) {
      ColumnedCompiles(scope, names, e.left, true, cx);
      ColumnedCompiles(scope, names, e.right, false, cx);
    }
  }

  lemma {:induction false} SourceUnbraced(names: set<Ident>, e: Expr, cx: Context)
    ensures IsSource(names, Unbrace(e), cx) == IsSource(names, e, cx)
  {
    if e.Block? && |e.tail| == 1 {
      SourceUnbraced(names, e.tail[0], cx);
    }
  }

  lemma {:induction false} SourceCompiles(
    scope: Scope, names: set<Ident>, parent: Expr, source: Expr, negate: bool, cx: Context
  )
    requires Knows(scope, names) && source < parent && parent.Exists?
    ensures ExistsOf(scope, parent, source, negate, cx).Ok? <==> IsSource(names, source, cx)
    decreases parent, 0, 0
  {
    SourceUnbraced(names, source, cx);
    var u, chain := Unbrace(source), ParseChain(cx, source);
    if chain.Ok? && !u.Path? {
      var s := chain.value;
      KnowsNested(scope, names, s.param);
      ConditionCompiles(Nested(scope, [s.param]), names + {s.param}, s.body, true, cx);
    }
  }

  /** How many arguments the functions take. */
  lemma Arities(f: Func)
    ensures Arity(f) == 2 <==> f.TsRank? || f.ArrayLength?
    ensures Arity(f) == 1 <==> f.ToTsvector? || f.ToTsquery? || f.PlaintoTsquery? || f.Cardinality?
  {
  }

  /** Method operators by backend: PostgreSQL has all but GLOB; SQLite has the comparisons, LIKE and GLOB. */
  lemma BackendOperators(name: MethodName)
    ensures !Rejected(Pg, name) <==> name != Operator(Glob)
    ensures !Rejected(Sqlite, name) <==>
            match name
            case In | NotIn | Fts => false
            case Operator(op) =>
              op.Eq? || op.Ne? || op.Lt? || op.Gt? || op.Le? || op.Ge? || op.Like? || op.NotLike? || op.Glob? || op.FtsMatch?
            case _ => true
  {
  }

  /** Operators written as methods of one argument. */
  predicate TakesOne(name: MethodName)
  {
    name.In? || name.NotIn? || name.Fts? || name.Operator?
  }

  /** Why an operator written as a method is refused whose receiver is in order: the backend, then the argument. */
  lemma OperatorRefused(scope: Scope, names: set<Ident>, e: Expr, pairs: bool, cx: Context)
    requires Knows(scope, names) && e.Method? && TakesOne(e.name) && |e.args| == 1 && IsValue(names, e.receiver, true, cx)
    ensures Rejected(cx.kind, e.name) ==> Condition(scope, e, pairs, cx) == Err(BackendRefuses)
    ensures !Rejected(cx.kind, e.name) && !e.name.Fts? && !IsParameterRef(cx, e.args[0]) ==>
      Condition(scope, e, pairs, cx) == Err(NotAParameter)
  {
    ValueCompiles(scope, names, e.receiver, true, cx);
  }

  /** Why a comparison is refused whose left side is in order. */
  lemma CompareRefused(scope: Scope, names: set<Ident>, e: Expr, pairs: bool, cx: Context)
    requires Knows(scope, names) && e.Binary? && e.op.Compare? && IsValue(names, e.left, true, cx)
    ensures IsValue(names, e.right, false, cx) && IsColumned(e.left) && IsColumned(e.right) && !pairs ==>
      Condition(scope, e, pairs, cx) == Err(ColumnPair)
    ensures e.right.Path? && !IsParameter(cx, e.right) ==> Condition(scope, e, pairs, cx) == Err(NotAParameter)
  {
    ValueCompiles(scope, names, e.left, true, cx);
    ColumnedCompiles(scope, names, e.left, true, cx);
    ValueCompiles(scope, names, e.right, false, cx);
    if IsValue(names, e.right, false, cx) {
      ColumnedCompiles(scope, names, e.right, false, cx);
    }
  }

  /** Why a closure is refused whatever its parts are. */
  lemma ShapeRefused(scope: Scope, e: Expr, pairs: bool, cx: Context)
    ensures e.Block? && |e.tail| != 1 ==> Condition(scope, e, pairs, cx) == Err(BadBlock)
    ensures e.Binary? && (e.op.Arith? || e.op.OtherOp?) ==> Condition(scope, e, pairs, cx) == Err(BadOperator)
    ensures e.Exists? && |e.sources| != 1 ==> Condition(scope, e, pairs, cx) == Err(WrongArity)
    ensures e.Method? && TakesOne(e.name) && |e.args| != 1 ==> Condition(scope, e, pairs, cx) == Err(WrongArity)
    ensures e.Method? && (e.name.IsSome? || e.name.IsNone?) && e.args != [] ==>
      Condition(scope, e, pairs, cx) == Err(WrongArity)
    ensures (e.Lit? && !e.value.Truth?) || e.Path? || e.Apply? || e.Filter? || e.Joined? || e.Closure?
            || e.Reference? || e.OtherExpr? ==>
      Condition(scope, e, pairs, cx) == Err(NotAPredicate)
  {
  }

  /** Why a source of `exists` is refused: joins and anything that is no source, whatever the closure is. */
  lemma SourceRefused(cx: Context, e: Expr)
    ensures e.Method? && e.name.FilterRows? && |e.args| == 1 && !(e.receiver.Path? && e.receiver.id in cx.ctes) ==>
      ParseChain(cx, e) == Err(JoinedSource)
    ensures (e.Method? && e.name.FilterRows? && |e.args| != 1) || (e.Filter? && |e.args| != 1) ==>
      ParseChain(cx, e) == Err(WrongArity)
    ensures e.Filter? && |e.args| == 1 && !OneVariable(e.args[0]) ==> ParseChain(cx, e) == Err(BadClosure)
    ensures (e.Path? && e.id !in cx.ctes) || e.Field? || e.Lit? || e.Binary? || e.Exists? || e.Apply? ==>
      ParseChain(cx, e) == Err(BadSource)
  {
  }

  /** Every closure of the grammar compiles to text with the closure's value, and no other closure compiles. */
  lemma AcceptedTextMeansClosure(
    m: T.Model, depth: nat, idents: seq<Ident>, rows: seq<T.Row>, e: Expr, pairs: bool, cx: Context,
    sql: T.Env, rest: seq<T.Tok>
  )
    requires |idents| == |rows| && Meaning.Aliased(depth, rows, sql) && SqlReader.Closed(rest)
    requires Meaning.Understands(m, cx.kind)
    ensures var compiled := Condition(ForBindings(depth, idents), e, pairs, cx);
            && (compiled.Ok? <==> IsCondition(Names(idents), e, pairs, cx))
            && (compiled.Ok? ==>
                  var read := SqlReader.ReadOr(T.Print(compiled.value) + rest);
                  && read.Got? && read.rest == rest
                  && T.Eval(m, read.node, sql) == Meaning.PredMeaning(m, e, Meaning.BindRows(idents, rows), cx))
  {
    var scope, names := ForBindings(depth, idents), Names(idents);
    forall x: Ident ensures x in names <==> Resolve(scope, x).Some? {
      Meaning.BindingsAgree(depth, idents, rows, sql);
      Meaning.AgreesAt(scope, Meaning.BindRows(idents, rows), sql, x);
    }
    ConditionCompiles(scope, names, e, pairs, cx);
    if Condition(scope, e, pairs, cx).Ok? {
      Meaning.CompiledTextMeansClosure(m, depth, idents, rows, e, pairs, cx, sql, rest);
    }
  }
}
