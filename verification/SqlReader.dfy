/**
 A reader for SQL conditions with the operator precedence of both backends: OR binds weakest,
 then AND, NOT, comparisons and IS, addition, multiplication. Its main result is that the
 text of a condition reads back as the condition.
 */
module SqlReader {
  import opened Sequences
  import opened SqlText
  import Syntax

  datatype Read = Fail | Got(node: Node, rest: seq<Tok>)
  datatype ReadList = FailList | GotList(nodes: seq<Node>, rest: seq<Tok>)

  predicate Starts(ts: seq<Tok>, head: seq<Tok>)
  {
    head <= ts
  }

  function ReadOr(ts: seq<Tok>): (r: Read)
    ensures r.Got? ==> |r.rest| < |ts|
    decreases |ts|, 6
  {
    match ReadAnd(ts)
    case Fail => Fail
    case Got(n, rest) => OrTail(n, rest)
  }

  function OrTail(acc: Node, ts: seq<Tok>): (r: Read)
    ensures r.Got? ==> |r.rest| <= |ts|
    decreases |ts|, 7
  {
    if ts == [] || ts[0] != Kw(OR) then Got(acc, ts)
    else
      match ReadAnd(ts[1..])
      case Fail => Fail
      case Got(n, rest) => OrTail(Or(acc, n), rest)
  }

  function ReadAnd(ts: seq<Tok>): (r: Read)
    ensures r.Got? ==> |r.rest| < |ts|
    decreases |ts|, 5
  {
    match ReadNot(ts)
    case Fail => Fail
    case Got(n, rest) => AndTail(n, rest)
  }

  function AndTail(acc: Node, ts: seq<Tok>): (r: Read)
    ensures r.Got? ==> |r.rest| <= |ts|
    decreases |ts|, 7
  {
    if ts == [] || ts[0] != Kw(AND) then Got(acc, ts)
    else
      match ReadNot(ts[1..])
      case Fail => Fail
      case Got(n, rest) => AndTail(And(acc, n), rest)
  }

  function ReadNot(ts: seq<Tok>): (r: Read)
    ensures r.Got? ==> |r.rest| < |ts|
    decreases |ts|, 4
  {
    if ts != [] && ts[0] == Kw(NOT) then
      match ReadNot(ts[1..])
      case Fail => Fail
      case Got(n, rest) => Got(Not(n), rest)
    else ReadComparison(ts)
  }

  function ReadComparison(ts: seq<Tok>): (r: Read)
    ensures r.Got? ==> |r.rest| < |ts|
    decreases |ts|, 3
  {
    match ReadSum(ts)
    case Fail => Fail
    case Got(l, rest) => ComparisonTail(l, rest)
  }

  function ComparisonTail(l: Node, ts: seq<Tok>): (r: Read)
    ensures r.Got? ==> |r.rest| <= |ts|
    decreases |ts|, 7
  {
    if Starts(ts, [Kw(IS), Kw(NULL)]) then Got(IsNull(l), ts[2..])
    else if Starts(ts, [Kw(IS), Kw(NOT), Kw(NULL)]) then Got(IsNotNull(l), ts[3..])
    else if Starts(ts, [Op(Syntax.Eq), Kw(ANY), LParen]) then
      match ReadOr(ts[3..])
      case Fail => Fail
      case Got(list, rest) =>
        if rest != [] && rest[0] == RParen then Got(AnyOf(l, list), rest[1..]) else Fail
    else if Starts(ts, [Op(Syntax.Ne), Kw(ALL), LParen]) then
      match ReadOr(ts[3..])
      case Fail => Fail
      case Got(list, rest) =>
        if rest != [] && rest[0] == RParen then Got(NoneOf(l, list), rest[1..]) else Fail
    else if ts != [] && ts[0].Op? then
      match ReadSum(ts[1..])
      case Fail => Fail
      case Got(right, rest) => Got(Compare(ts[0].cmp, l, right), rest)
    else Got(l, ts)
  }

  function ReadSum(ts: seq<Tok>): (r: Read)
    ensures r.Got? ==> |r.rest| < |ts|
    decreases |ts|, 2
  {
    match ReadProduct(ts)
    case Fail => Fail
    case Got(l, rest) => SumTail(l, rest)
  }

  function SumTail(acc: Node, ts: seq<Tok>): (r: Read)
    ensures r.Got? ==> |r.rest| <= |ts|
    decreases |ts|, 7
  {
    if ts == [] || ts[0] != Sign(Syntax.Add) then Got(acc, ts)
    else
      match ReadProduct(ts[1..])
      case Fail => Fail
      case Got(n, rest) => SumTail(Arith(Syntax.Add, acc, n), rest)
  }

  function ReadProduct(ts: seq<Tok>): (r: Read)
    ensures r.Got? ==> |r.rest| < |ts|
    decreases |ts|, 1
  {
    match ReadAtom(ts)
    case Fail => Fail
    case Got(l, rest) => ProductTail(l, rest)
  }

  function ProductTail(acc: Node, ts: seq<Tok>): (r: Read)
    ensures r.Got? ==> |r.rest| <= |ts|
    decreases |ts|, 7
  {
    if ts == [] || ts[0] != Sign(Syntax.Mul) then Got(acc, ts)
    else
      match ReadAtom(ts[1..])
      case Fail => Fail
      case Got(n, rest) => ProductTail(Arith(Syntax.Mul, acc, n), rest)
  }

  function ReadAtom(ts: seq<Tok>): (r: Read)
    ensures r.Got? ==> |r.rest| < |ts|
    decreases |ts|, 0
  {
    if ts == [] then Fail
    else
      match ts[0]
      case Alias(alias) =>
        if |ts| > 1 && ts[1].DotColumn? then Got(Column(alias, ts[1].column), ts[2..]) else Fail
      case Capture(p) =>
        if |ts| > 1 && ts[1] == CastLtree then Got(Cast(Param(p)), ts[2..]) else Got(Param(p), ts[1..])
      case Digits(d) => Got(Lit(Syntax.Number(d)), ts[1..])
      case Quote(chars) => Got(Lit(Syntax.Str(chars)), ts[1..])
      case FuncName(f) =>
        if |ts| > 1 && ts[1] == LParen then
          match ReadArgs(ts[2..])
          case FailList => Fail
          case GotList(args, rest) => Got(Call(f, args), rest)
        else Fail
      case LParen =>
        if |ts| > 1 && ts[1] == Kw(SELECT) then ReadSubquery(ts[2..])
        else
          (match ReadOr(ts[1..])
           case Fail => Fail
           case Got(n, rest) => if rest != [] && rest[0] == RParen then Got(n, rest[1..]) else Fail)
      case Kw(word) =>
        (match word
         case TRUE => Got(Lit(Syntax.Truth(true)), ts[1..])
         case FALSE => Got(Lit(Syntax.Truth(false)), ts[1..])
         case EXISTS =>
           if Starts(ts, [Kw(EXISTS), LParen, Kw(SELECT), Digits("1"), Kw(FROM)]) then
             match ReadRows(ts[5..])
             case NoRows => Fail
             case Rows(rel, alias, cond, rest) => Got(Exists(rel, alias, cond), rest)
           else Fail
         case _ => Fail)
      case _ => Fail
  }

  function ReadArgs(ts: seq<Tok>): (r: ReadList)
    ensures r.GotList? ==> |r.rest| < |ts|
    decreases |ts|, 7
  {
    match ReadOr(ts)
    case Fail => FailList
    case Got(n, rest) =>
      if rest != [] && rest[0] == RParen then GotList([n], rest[1..])
      else if rest != [] && rest[0] == Comma then
        match ReadArgs(rest[1..])
        case FailList => FailList
        case GotList(ns, more) => GotList([n] + ns, more)
      else FailList
  }

  /** After `(SELECT`: an aggregate and the rows it ranges over. */
  function ReadSubquery(ts: seq<Tok>): (r: Read)
    ensures r.Got? ==> |r.rest| < |ts|
    decreases |ts|, 7
  {
    if Starts(ts, [Kw(COUNT), LParen, Sign(Syntax.Mul), RParen, Kw(FROM)]) then
      match ReadRows(ts[5..])
      case NoRows => Fail
      case Rows(rel, alias, cond, rest) => Got(CountRows(rel, alias, cond), rest)
    else if |ts| > 1 && ts[0].AggName? && ts[1] == LParen then
      match ReadOr(ts[2..])
      case Fail => Fail
      case Got(arg, more) =>
        if Starts(more, [RParen, Kw(FROM)]) then
          match ReadRows(more[2..])
          case NoRows => Fail
          case Rows(rel, alias, cond, rest) => Got(FoldRows(ts[0].agg, arg, rel, alias, cond), rest)
        else Fail
    else Fail
  }

  datatype ReadFrom = NoRows | Rows(rel: Relation, alias: string, cond: Node, rest: seq<Tok>)

  /** `relation AS alias WHERE condition )` */
  function ReadRows(ts: seq<Tok>): (r: ReadFrom)
    ensures r.Rows? ==> |r.rest| < |ts|
    decreases |ts|, 7
  {
    if |ts| > 3 && ts[0].Rel? && ts[1] == Kw(AS) && ts[2].Alias? && ts[3] == Kw(WHERE) then
      match ReadOr(ts[4..])
      case Fail => NoRows
      case Got(cond, rest) =>
        if rest != [] && rest[0] == RParen then Rows(ts[0].relation, ts[2].alias, cond, rest[1..]) else NoRows
    else NoRows
  }

  // ---- reading what was printed ----

  /** Tokens that may continue an operand. */
  predicate Continues(t: Tok)
  {
    t.Op? || t.Sign? || t == Kw(IS) || t == CastLtree
  }

  /** Nothing after this point belongs to the comparison before it. */
  predicate Stops(ts: seq<Tok>)
  {
    ts == [] || !Continues(ts[0])
  }

  /** Nothing after this point belongs to the condition before it. */
  predicate Closed(ts: seq<Tok>)
  {
    Stops(ts) && (ts == [] || (ts[0] != Kw(AND) && ts[0] != Kw(OR)))
  }

  predicate NoSign(ts: seq<Tok>)
  {
    ts == [] || (!ts[0].Sign? && ts[0] != CastLtree)
  }

  lemma SumOfAtom(ts: seq<Tok>, n: Node, rest: seq<Tok>)
    requires ReadAtom(ts) == Got(n, rest) && NoSign(rest)
    ensures ReadSum(ts) == Got(n, rest)
  {
    assert ReadProduct(ts) == ProductTail(n, rest) == Got(n, rest);
    assert SumTail(n, rest) == Got(n, rest);
  }

  lemma NotOfSum(ts: seq<Tok>, n: Node, rest: seq<Tok>)
    requires ts != [] && ts[0] != Kw(NOT)
    requires ReadSum(ts) == Got(n, rest) && Stops(rest)
    ensures ReadNot(ts) == Got(n, rest)
  {
    assert ComparisonTail(n, rest) == Got(n, rest);
    assert ReadComparison(ts) == Got(n, rest);
  }

  lemma NotOfAtom(ts: seq<Tok>, n: Node, rest: seq<Tok>)
    requires ts != [] && ts[0] != Kw(NOT)
    requires ReadAtom(ts) == Got(n, rest) && Stops(rest)
    ensures ReadNot(ts) == Got(n, rest)
  {
    SumOfAtom(ts, n, rest);
    NotOfSum(ts, n, rest);
  }

  lemma OrOfNot(ts: seq<Tok>, n: Node, rest: seq<Tok>)
    requires ReadNot(ts) == Got(n, rest) && Closed(rest)
    ensures ReadOr(ts) == Got(n, rest)
  {
    assert ReadAnd(ts) == AndTail(n, rest) == Got(n, rest);
    assert OrTail(n, rest) == Got(n, rest);
  }

  // ---- text with a continuation ----

  /** The text of `n` followed by `rest`, associated so that reading can follow it. */
  function Then(n: Node, rest: seq<Tok>): (ts: seq<Tok>)
    decreases n
  {
    match n
    case Column(alias, column) => [Alias(alias), DotColumn(column)] + rest
    case Param(param) => [Capture(param)] + rest
    case Cast(inner) => Then(inner, [CastLtree] + rest)
    case Lit(v) => [LitTok(v)] + rest
    case Arith(op, l, r) => [LParen] + Then(l, [Sign(op)] + Then(r, [RParen] + rest))
    case Call(f, args) => [FuncName(f), LParen] + ThenArgs(n, args, [RParen] + rest)
    case CountRows(rel, alias, cond) =>
      [LParen, Kw(SELECT)] + (COUNT_STAR + [Kw(FROM)]) + (Base(rel, alias) + Then(cond, [RParen] + rest))
    case FoldRows(agg, arg, rel, alias, cond) =>
      [LParen, Kw(SELECT), AggName(agg), LParen]
      + Then(arg, [RParen, Kw(FROM)] + (Base(rel, alias) + Then(cond, [RParen] + rest)))
    case And(l, r) => [LParen] + Then(l, [RParen, Kw(AND), LParen] + Then(r, [RParen] + rest))
    case Or(l, r) => [LParen] + Then(l, [RParen, Kw(OR), LParen] + Then(r, [RParen] + rest))
    case Not(inner) => [Kw(NOT)] + Then(inner, rest)
    case Compare(op, l, r) => Then(l, [Op(op)] + Then(r, rest))
    case IsNull(inner) => Then(inner, [Kw(IS), Kw(NULL)] + rest)
    case IsNotNull(inner) => Then(inner, [Kw(IS), Kw(NOT), Kw(NULL)] + rest)
    case AnyOf(l, list) => Then(l, [Op(Syntax.Eq), Kw(ANY), LParen] + Then(list, [RParen] + rest))
    case NoneOf(l, list) => Then(l, [Op(Syntax.Ne), Kw(ALL), LParen] + Then(list, [RParen] + rest))
    case Exists(rel, alias, cond) =>
      [Kw(EXISTS), LParen, Kw(SELECT), Digits("1"), Kw(FROM)] + (Base(rel, alias) + Then(cond, [RParen] + rest))
  }

  function ThenArgs(parent: Node, args: seq<Node>, rest: seq<Tok>): seq<Tok>
    requires forall i :: 0 <= i < |args| ==> args[i] < parent
    decreases parent, |args|
  {
    if args == [] then rest
    else if |args| == 1 then Then(args[0], rest)
    else Then(args[0], [Comma] + ThenArgs(parent, args[1..], rest))
  }

  lemma FoldText(
    a: seq<Tok>, b: seq<Tok>, x: seq<Tok>, c: seq<Tok>, d: seq<Tok>, e: seq<Tok>, y: seq<Tok>, f: seq<Tok>
  )
    ensures a + (b + x + c) + d + e + y + f == (a + b) + x + ((c + d) + (e + y + f))
  {
    assert a + (b + x + c) == (a + b) + x + c;
    var p := (a + b) + x;
    Inward(p, c, d, e + y + f);
    Assoc(c, d, e + y + f);
    Inward(p + c + d, e, y, f);
    Inward(p + c + d, e, y + f, []);
  }

  lemma {:induction false} ThenIsPrint(n: Node, rest: seq<Tok>)
    ensures Then(n, rest) == Print(n) + rest
    decreases n, 1
  {
    match n
    case Cast(inner) =>
      ThenIsPrint(inner, [CastLtree] + rest);
      Assoc(Print(inner), [CastLtree], rest);
    case Call(f, args) =>
      ThenIsPrintArgs(n, args, [RParen] + rest);
      Inward([FuncName(f), LParen], PrintArgs(args), [RParen], rest);
    case CountRows(_, _, _) => ThenRows(n, rest);
    case FoldRows(_, _, _, _, _) => ThenRows(n, rest);
    case Exists(_, _, _) => ThenRows(n, rest);
    case Arith(op, l, r) =>
      ThenBoth(n, l, [Sign(op)], r, rest);
      Wrapped(Print(l), [Sign(op)], Print(r), [RParen], rest);
    case And(l, r) =>
      ThenBoth(n, l, [RParen, Kw(AND), LParen], r, rest);
      Wrapped(Print(l), [RParen, Kw(AND), LParen], Print(r), [RParen], rest);
    case Or(l, r) =>
      ThenBoth(n, l, [RParen, Kw(OR), LParen], r, rest);
      Wrapped(Print(l), [RParen, Kw(OR), LParen], Print(r), [RParen], rest);
    case Not(inner) =>
      ThenIsPrint(inner, rest);
      Assoc([Kw(NOT)], Print(inner), rest);
    case Compare(op, l, r) =>
      ThenIsPrint(r, rest);
      ThenIsPrint(l, [Op(op)] + Then(r, rest));
      Inward(Print(l), [Op(op)], Print(r), rest);
    case IsNull(inner) =>
      ThenIsPrint(inner, [Kw(IS), Kw(NULL)] + rest);
      Assoc(Print(inner), [Kw(IS), Kw(NULL)], rest);
    case IsNotNull(inner) =>
      ThenIsPrint(inner, [Kw(IS), Kw(NOT), Kw(NULL)] + rest);
      Assoc(Print(inner), [Kw(IS), Kw(NOT), Kw(NULL)], rest);
    case AnyOf(l, list) => ThenBoth(n, l, [Op(Syntax.Eq), Kw(ANY), LParen], list, rest);
    case NoneOf(l, list) => ThenBoth(n, l, [Op(Syntax.Ne), Kw(ALL), LParen], list, rest);
    case _ =>
  }

  /** Two operands, `sep` between them and a closing parenthesis after them. */
  lemma {:induction false} ThenBoth(parent: Node, l: Node, sep: seq<Tok>, r: Node, rest: seq<Tok>)
    requires l < parent && r < parent
    ensures Then(l, sep + Then(r, [RParen] + rest)) == (Print(l) + sep + Print(r) + [RParen]) + rest
    decreases parent, 0
  {
    ThenIsPrint(r, [RParen] + rest);
    ThenIsPrint(l, sep + Then(r, [RParen] + rest));
    Inward(Print(l), sep, Print(r), [RParen] + rest);
    Assoc(Print(l) + sep + Print(r), [RParen], rest);
  }

  /** The same in parentheses. */
  lemma Wrapped(a: seq<Tok>, x: seq<Tok>, b: seq<Tok>, y: seq<Tok>, rest: seq<Tok>)
    ensures [LParen] + ((a + x + b + y) + rest) == ([LParen] + a + x + b + y) + rest
  {
    var open := [LParen];
    Assoc(open, a, x);
    Assoc(open, a + x, b);
    Assoc(open, a + x + b, y);
    Assoc(open, a + x + b + y, rest);
  }

  lemma {:induction false} ThenRows(n: Node, rest: seq<Tok>)
    requires n.CountRows? || n.FoldRows? || n.Exists?
    ensures Then(n, rest) == Print(n) + rest
    decreases n, 0
  {
    var tail := Base(n.rel, n.alias) + Print(n.cond) + [RParen];
    ThenIsPrint(n.cond, [RParen] + rest);
    Inward(Base(n.rel, n.alias), Print(n.cond), [RParen], rest);
    var more := Base(n.rel, n.alias) + Then(n.cond, [RParen] + rest);
    assert more == tail + rest;
    match n
    case CountRows(rel, alias, cond) =>
      var head := [LParen, Kw(SELECT)] + (COUNT_STAR + [Kw(FROM)]);
      assert Print(n) == head + tail;
      Assoc(head, tail, rest);
    case FoldRows(agg, arg, rel, alias, cond) =>
      var head := [LParen, Kw(SELECT), AggName(agg), LParen];
      var mid := [RParen, Kw(FROM)];
      ThenIsPrint(arg, mid + more);
      FoldText([LParen, Kw(SELECT)], [AggName(agg), LParen], Print(arg), [RParen], [Kw(FROM)], Base(rel, alias), Print(cond), [RParen]);
      assert [LParen, Kw(SELECT)] + [AggName(agg), LParen] == head && [RParen] + [Kw(FROM)] == mid;
      Inward(head, Print(arg), mid + tail, rest);
      Assoc(mid, tail, rest);
    case Exists(rel, alias, cond) =>
      var head := [Kw(EXISTS), LParen, Kw(SELECT), Digits("1"), Kw(FROM)];
      assert Print(n) == head + tail;
      Assoc(head, tail, rest);
  }

  lemma {:induction false} ThenIsPrintArgs(parent: Node, args: seq<Node>, rest: seq<Tok>)
    requires forall i :: 0 <= i < |args| ==> args[i] < parent
    ensures ThenArgs(parent, args, rest) == PrintArgs(args) + rest
    decreases parent, 0, |args|
  {
    if |args| == 1 {
      ThenIsPrint(args[0], rest);
    } else if |args| > 1 {
      ThenIsPrintArgs(parent, args[1..], rest);
      ThenIsPrint(args[0], [Comma] + ThenArgs(parent, args[1..], rest));
      Inward(Print(args[0]), [Comma], PrintArgs(args[1..]), rest);
    }
  }

  // ---- one construct after the other: what its parts read as decides what it reads as ----

  /** `ts` begins with the text of an operand. */
  predicate OperandHead(ts: seq<Tok>)
  {
    ts != [] && ts[0] != Kw(SELECT) && ts[0] != Kw(NOT) && ts[0] != Kw(ANY) && ts[0] != Kw(ALL)
  }

  lemma ScalarHead(n: Node, rest: seq<Tok>)
    requires IsScalar(n)
    ensures OperandHead(Then(n, rest))
  {
    if n.Cast? { assert Then(n.inner, [CastLtree] + rest)[0] == Capture(n.inner.param); }
  }

  lemma ConditionHead(n: Node, rest: seq<Tok>)
    requires IsCondition(n)
    ensures Then(n, rest) != [] && Then(n, rest)[0] != Kw(SELECT)
  {
    match n
    case Compare(op, l, r) => ScalarHead(l, [Op(op)] + Then(r, rest));
    case IsNull(l) => ScalarHead(l, [Kw(IS), Kw(NULL)] + rest);
    case IsNotNull(l) => ScalarHead(l, [Kw(IS), Kw(NOT), Kw(NULL)] + rest);
    case AnyOf(l, list) => ScalarHead(l, [Op(Syntax.Eq), Kw(ANY), LParen] + Then(list, [RParen] + rest));
    case NoneOf(l, list) => ScalarHead(l, [Op(Syntax.Ne), Kw(ALL), LParen] + Then(list, [RParen] + rest));
    case _ =>
  }

  lemma AtomOfParens(n: Node, inner: seq<Tok>, rest: seq<Tok>)
    requires inner != [] && inner[0] != Kw(SELECT)
    requires ReadOr(inner) == Got(n, [RParen] + rest)
    ensures ReadAtom([LParen] + inner) == Got(n, rest)
  {
    assert ([LParen] + inner)[1..] == inner;
    assert ([RParen] + rest)[1..] == rest;
  }

  lemma OrOfArith(op: Syntax.ArithOp, l: Node, r: Node, ts: seq<Tok>, right: seq<Tok>, rest: seq<Tok>)
    requires OperandHead(ts) && Closed(rest)
    requires ReadAtom(ts) == Got(l, [Sign(op)] + right) && ReadAtom(right) == Got(r, rest)
    ensures ReadOr(ts) == Got(Arith(op, l, r), rest)
  {
    var after := [Sign(op)] + right;
    var n := Arith(op, l, r);
    assert after[1..] == right;
    if op.Mul? {
      assert ProductTail(n, rest) == Got(n, rest);
      assert ReadProduct(ts) == ProductTail(l, after) == Got(n, rest);
      assert SumTail(n, rest) == Got(n, rest);
    } else {
      assert ReadProduct(ts) == ProductTail(l, after) == Got(l, after);
      assert ReadProduct(right) == ProductTail(r, rest) == Got(r, rest);
      assert SumTail(n, rest) == Got(n, rest);
      assert SumTail(l, after) == Got(n, rest);
    }
    NotOfSum(ts, n, rest);
    OrOfNot(ts, n, rest);
  }

  lemma NotOfCompare(op: Syntax.Cmp, l: Node, r: Node, ts: seq<Tok>, right: seq<Tok>, rest: seq<Tok>)
    requires OperandHead(ts) && OperandHead(right) && Stops(rest)
    requires ReadAtom(ts) == Got(l, [Op(op)] + right) && ReadAtom(right) == Got(r, rest)
    ensures ReadNot(ts) == Got(Compare(op, l, r), rest)
  {
    var after := [Op(op)] + right;
    SumOfAtom(ts, l, after);
    SumOfAtom(right, r, rest);
    assert after[1..] == right && after[1] == right[0];
    assert ComparisonTail(l, after) == Got(Compare(op, l, r), rest);
    assert ReadComparison(ts) == Got(Compare(op, l, r), rest);
  }

  lemma NotOfIsNull(l: Node, ts: seq<Tok>, rest: seq<Tok>)
    requires OperandHead(ts) && ReadAtom(ts) == Got(l, [Kw(IS), Kw(NULL)] + rest)
    ensures ReadNot(ts) == Got(IsNull(l), rest)
  {
    var after := [Kw(IS), Kw(NULL)] + rest;
    SumOfAtom(ts, l, after);
    assert after[2..] == rest && after[0] == Kw(IS) && after[1] == Kw(NULL);
    assert ComparisonTail(l, after) == Got(IsNull(l), rest);
    assert ReadComparison(ts) == Got(IsNull(l), rest);
  }

  lemma NotOfIsNotNull(l: Node, ts: seq<Tok>, rest: seq<Tok>)
    requires OperandHead(ts) && ReadAtom(ts) == Got(l, [Kw(IS), Kw(NOT), Kw(NULL)] + rest)
    ensures ReadNot(ts) == Got(IsNotNull(l), rest)
  {
    var after := [Kw(IS), Kw(NOT), Kw(NULL)] + rest;
    SumOfAtom(ts, l, after);
    assert after[3..] == rest && after[0] == Kw(IS) && after[1] == Kw(NOT) && after[2] == Kw(NULL);
    assert ComparisonTail(l, after) == Got(IsNotNull(l), rest);
    assert ReadComparison(ts) == Got(IsNotNull(l), rest);
  }

  lemma OrOfParam(list: Node, rest: seq<Tok>)
    requires list.Param?
    ensures ReadOr(Then(list, [RParen] + rest)) == Got(list, [RParen] + rest)
  {
    var tail := [RParen] + rest;
    var ts := Then(list, tail);
    assert ts[1..] == tail && ts[1] == RParen;
    NotOfAtom(ts, list, tail);
    OrOfNot(ts, list, tail);
  }

  lemma NotOfAnyOf(l: Node, list: Node, ts: seq<Tok>, rest: seq<Tok>)
    requires OperandHead(ts) && list.Param?
    requires ReadAtom(ts) == Got(l, [Op(Syntax.Eq), Kw(ANY), LParen] + Then(list, [RParen] + rest))
    ensures ReadNot(ts) == Got(AnyOf(l, list), rest)
  {
    var head := [Op(Syntax.Eq), Kw(ANY), LParen];
    var after := head + Then(list, [RParen] + rest);
    SumOfAtom(ts, l, after);
    OrOfParam(list, rest);
    assert after[3..] == Then(list, [RParen] + rest) && head <= after && after[0] == head[0];
    assert ([RParen] + rest)[1..] == rest;
    assert ComparisonTail(l, after) == Got(AnyOf(l, list), rest);
    assert ReadComparison(ts) == Got(AnyOf(l, list), rest);
  }

  lemma NotOfNoneOf(l: Node, list: Node, ts: seq<Tok>, rest: seq<Tok>)
    requires OperandHead(ts) && list.Param?
    requires ReadAtom(ts) == Got(l, [Op(Syntax.Ne), Kw(ALL), LParen] + Then(list, [RParen] + rest))
    ensures ReadNot(ts) == Got(NoneOf(l, list), rest)
  {
    var head := [Op(Syntax.Ne), Kw(ALL), LParen];
    var after := head + Then(list, [RParen] + rest);
    SumOfAtom(ts, l, after);
    OrOfParam(list, rest);
    assert after[3..] == Then(list, [RParen] + rest) && head <= after && after[0] == head[0];
    assert ([RParen] + rest)[1..] == rest;
    assert ComparisonTail(l, after) == Got(NoneOf(l, list), rest);
    assert ReadComparison(ts) == Got(NoneOf(l, list), rest);
  }

  lemma RowsOfCondition(rel: Relation, alias: string, cond: Node, rest: seq<Tok>)
    requires ReadOr(Then(cond, [RParen] + rest)) == Got(cond, [RParen] + rest)
    ensures ReadRows(Base(rel, alias) + Then(cond, [RParen] + rest)) == Rows(rel, alias, cond, rest)
  {
    var ts := Base(rel, alias) + Then(cond, [RParen] + rest);
    assert ts[4..] == Then(cond, [RParen] + rest);
    assert ([RParen] + rest)[1..] == rest;
  }

  lemma AtomOfCount(rel: Relation, alias: string, cond: Node, more: seq<Tok>, rest: seq<Tok>)
    requires ReadRows(more) == Rows(rel, alias, cond, rest)
    ensures ReadAtom([LParen, Kw(SELECT)] + (COUNT_STAR + [Kw(FROM)]) + more) == Got(CountRows(rel, alias, cond), rest)
  {
    var body := COUNT_STAR + [Kw(FROM)] + more;
    var ts := [LParen, Kw(SELECT)] + (COUNT_STAR + [Kw(FROM)]) + more;
    assert ts[2..] == body && body[5..] == more && [Kw(COUNT), LParen, Sign(Syntax.Mul), RParen, Kw(FROM)] <= body;
    assert ReadSubquery(body) == Got(CountRows(rel, alias, cond), rest);
  }

  lemma AtomOfFold(agg: Syntax.AggFn, arg: Node, rel: Relation, alias: string, cond: Node, inner: seq<Tok>, more: seq<Tok>, rest: seq<Tok>)
    requires ReadRows(more) == Rows(rel, alias, cond, rest)
    requires ReadOr(inner) == Got(arg, [RParen, Kw(FROM)] + more)
    ensures ReadAtom([LParen, Kw(SELECT), AggName(agg), LParen] + inner) == Got(FoldRows(agg, arg, rel, alias, cond), rest)
  {
    var ts := [LParen, Kw(SELECT), AggName(agg), LParen] + inner;
    var body := [AggName(agg), LParen] + inner;
    var close := [RParen, Kw(FROM)] + more;
    assert ts[2..] == body && body[2..] == inner;
    assert close[2..] == more && [RParen, Kw(FROM)] <= close;
    assert body[0] == AggName(agg) && body[1] == LParen;
    assert !Starts(body, [Kw(COUNT), LParen, Sign(Syntax.Mul), RParen, Kw(FROM)]) by {
      assert [Kw(COUNT), LParen, Sign(Syntax.Mul), RParen, Kw(FROM)][0] == Kw(COUNT);
    }
    assert ReadSubquery(body) == Got(FoldRows(agg, arg, rel, alias, cond), rest);
  }

  lemma AtomOfExists(rel: Relation, alias: string, cond: Node, more: seq<Tok>, rest: seq<Tok>)
    requires ReadRows(more) == Rows(rel, alias, cond, rest)
    ensures ReadAtom([Kw(EXISTS), LParen, Kw(SELECT), Digits("1"), Kw(FROM)] + more) == Got(Exists(rel, alias, cond), rest)
  {
    var ts := [Kw(EXISTS), LParen, Kw(SELECT), Digits("1"), Kw(FROM)] + more;
    assert ts[5..] == more;
  }

  lemma AtomOfCall(f: Syntax.Func, args: seq<Node>, inner: seq<Tok>, rest: seq<Tok>)
    requires ReadArgs(inner) == GotList(args, rest)
    ensures ReadAtom([FuncName(f), LParen] + inner) == Got(Call(f, args), rest)
  {
    assert ([FuncName(f), LParen] + inner)[2..] == inner;
  }

  lemma OrOfAnd(l: Node, r: Node, left: seq<Tok>, right: seq<Tok>, rest: seq<Tok>)
    requires Closed(rest)
    requires ReadNot(left) == Got(l, [Kw(AND)] + right) && ReadNot(right) == Got(r, rest)
    ensures ReadOr(left) == Got(And(l, r), rest)
  {
    var after := [Kw(AND)] + right;
    var n := And(l, r);
    assert after[1..] == right;
    assert AndTail(n, rest) == Got(n, rest);
    assert AndTail(l, after) == Got(n, rest);
    assert ReadAnd(left) == Got(n, rest);
    assert OrTail(n, rest) == Got(n, rest);
  }

  lemma OrOfOr(l: Node, r: Node, left: seq<Tok>, right: seq<Tok>, rest: seq<Tok>)
    requires Closed(rest)
    requires ReadNot(left) == Got(l, [Kw(OR)] + right) && ReadNot(right) == Got(r, rest)
    ensures ReadOr(left) == Got(Or(l, r), rest)
  {
    var after := [Kw(OR)] + right;
    var n := Or(l, r);
    assert after[1..] == right;
    assert ReadAnd(left) == AndTail(l, after) == Got(l, after);
    assert ReadAnd(right) == AndTail(r, rest) == Got(r, rest);
    assert OrTail(n, rest) == Got(n, rest);
    assert OrTail(l, after) == Got(n, rest);
  }

  // ---- and the induction that puts them together ----

  /** The text of a scalar is one atom, whatever follows. */
  lemma {:induction false} ReadScalar(n: Node, rest: seq<Tok>)
    requires IsScalar(n) && (rest == [] || rest[0] != CastLtree)
    ensures ReadAtom(Then(n, rest)) == Got(n, rest)
    ensures OperandHead(Then(n, rest))
    decreases n, 1
  {
    ScalarHead(n, rest);
    match n
    case Arith(op, l, r) =>
      var tail := [RParen] + rest;
      var right := Then(r, tail);
      ReadScalar(r, tail);
      ReadScalar(l, [Sign(op)] + right);
      var inner := Then(l, [Sign(op)] + right);
      OrOfArith(op, l, r, inner, right, tail);
      AtomOfParens(n, inner, rest);
    case Call(f, args) =>
      ReadThenArgs(n, args, rest);
      AtomOfCall(f, args, ThenArgs(n, args, [RParen] + rest), rest);
    case CountRows(rel, alias, cond) =>
      ReadCondition(cond, [RParen] + rest);
      RowsOfCondition(rel, alias, cond, rest);
      AtomOfCount(rel, alias, cond, Base(rel, alias) + Then(cond, [RParen] + rest), rest);
    case FoldRows(agg, arg, rel, alias, cond) =>
      ReadCondition(cond, [RParen] + rest);
      RowsOfCondition(rel, alias, cond, rest);
      var more := Base(rel, alias) + Then(cond, [RParen] + rest);
      ReadCondition(arg, [RParen, Kw(FROM)] + more);
      AtomOfFold(agg, arg, rel, alias, cond, Then(arg, [RParen, Kw(FROM)] + more), more, rest);
    case _ => ReadLeaf(n, rest);
  }

  lemma ReadCast(param: Ident, rest: seq<Tok>)
    ensures ReadAtom(Then(Cast(Param(param)), rest)) == Got(Cast(Param(param)), rest)
  {
    var cast := [CastLtree] + rest;
    assert Then(Param(param), cast) == [Capture(param)] + cast;
    assert Then(Cast(Param(param)), rest) == Then(Param(param), cast);
    var ts := [Capture(param)] + cast;
    assert ts[0] == Capture(param) && ts[1] == CastLtree && ts[2..] == rest;
  }

  lemma ReadColumn(alias: string, column: string, rest: seq<Tok>)
    ensures ReadAtom(Then(Column(alias, column), rest)) == Got(Column(alias, column), rest)
  {
    assert ([Alias(alias), DotColumn(column)] + rest)[2..] == rest;
  }

  lemma ReadLeaf(n: Node, rest: seq<Tok>)
    requires n.Column? || n.Param? || n.Lit? || (n.Cast? && n.inner.Param?)
    requires rest == [] || rest[0] != CastLtree
    ensures ReadAtom(Then(n, rest)) == Got(n, rest)
  {
    if n.Cast? {
      ReadCast(n.inner.param, rest);
    } else if n.Column? {
      ReadColumn(n.alias, n.column, rest);
    } else {
      assert Then(n, rest)[1..] == rest;
    }
  }

  lemma {:induction false} ReadThenArgs(parent: Node, args: seq<Node>, rest: seq<Tok>)
    requires args != [] && forall i :: 0 <= i < |args| ==> args[i] < parent && IsScalar(args[i])
    ensures ReadArgs(ThenArgs(parent, args, [RParen] + rest)) == GotList(args, rest)
    decreases parent, 0, |args|
  {
    var tail := [RParen] + rest;
    if |args| == 1 {
      ReadCondition(args[0], tail);
      assert tail[1..] == rest;
      assert args == [args[0]];
    } else {
      var more := ThenArgs(parent, args[1..], tail);
      ReadCondition(args[0], [Comma] + more);
      assert ([Comma] + more)[1..] == more;
      ReadThenArgs(parent, args[1..], rest);
      assert args == [args[0]] + args[1..];
    }
  }

  /** The text of a condition other than AND and OR is one operand of AND. */
  lemma {:induction false} ReadFactor(n: Node, rest: seq<Tok>)
    requires IsCondition(n) && !n.And? && !n.Or? && Stops(rest)
    ensures ReadNot(Then(n, rest)) == Got(n, rest)
    decreases n, 2
  {
    var ts := Then(n, rest);
    match n
    case Not(inner) =>
      ReadFactor(inner, rest);
      assert ts[1..] == Then(inner, rest);
    case Compare(op, l, r) =>
      ReadScalar(r, rest);
      ReadScalar(l, [Op(op)] + Then(r, rest));
      NotOfCompare(op, l, r, ts, Then(r, rest), rest);
    case IsNull(inner) =>
      ReadScalar(inner, [Kw(IS), Kw(NULL)] + rest);
      NotOfIsNull(inner, ts, rest);
    case IsNotNull(inner) =>
      ReadScalar(inner, [Kw(IS), Kw(NOT), Kw(NULL)] + rest);
      NotOfIsNotNull(inner, ts, rest);
    case AnyOf(l, list) =>
      ReadScalar(l, [Op(Syntax.Eq), Kw(ANY), LParen] + Then(list, [RParen] + rest));
      NotOfAnyOf(l, list, ts, rest);
    case NoneOf(l, list) =>
      ReadScalar(l, [Op(Syntax.Ne), Kw(ALL), LParen] + Then(list, [RParen] + rest));
      NotOfNoneOf(l, list, ts, rest);
    case Exists(rel, alias, cond) =>
      ReadCondition(cond, [RParen] + rest);
      RowsOfCondition(rel, alias, cond, rest);
      AtomOfExists(rel, alias, cond, Base(rel, alias) + Then(cond, [RParen] + rest), rest);
      NotOfAtom(ts, n, rest);
    case Lit(v) =>
      ReadLeaf(n, rest);
      NotOfAtom(ts, n, rest);
  }

  /** The text of a condition, or of a scalar, reads back as what it was printed from. */
  lemma {:induction false} ReadCondition(n: Node, rest: seq<Tok>)
    requires (IsCondition(n) || IsScalar(n)) && Closed(rest)
    ensures ReadOr(Then(n, rest)) == Got(n, rest)
    decreases n, 3
  {
    var ts := Then(n, rest);
    if n.And? {
      ReadAndText(n.left, n.right, rest);
    } else if n.Or? {
      ReadOrText(n.left, n.right, rest);
    } else {
      if IsCondition(n) {
        ReadFactor(n, rest);
      } else {
        ReadScalar(n, rest);
        NotOfAtom(ts, n, rest);
      }
      OrOfNot(ts, n, rest);
    }
  }

  /** The seam between two operands, cut where the reader cuts it. */
  lemma Seam(word: Word, z: seq<Tok>)
    ensures [RParen, Kw(word), LParen] + z == [RParen] + ([Kw(word)] + ([LParen] + z))
  {
  }

  lemma {:induction false} ReadAndText(l: Node, r: Node, rest: seq<Tok>)
    requires IsCondition(l) && IsCondition(r) && Closed(rest)
    ensures ReadOr(Then(And(l, r), rest)) == Got(And(l, r), rest)
    decreases And(l, r), 2
  {
    var right := [LParen] + Then(r, [RParen] + rest);
    ReadParens(r, rest);
    ReadParens(l, [Kw(AND)] + right);
    Seam(AND, Then(r, [RParen] + rest));
    OrOfAnd(l, r, [LParen] + Then(l, [RParen] + ([Kw(AND)] + right)), right, rest);
  }

  lemma {:induction false} ReadOrText(l: Node, r: Node, rest: seq<Tok>)
    requires IsCondition(l) && IsCondition(r) && Closed(rest)
    ensures ReadOr(Then(Or(l, r), rest)) == Got(Or(l, r), rest)
    decreases Or(l, r), 2
  {
    var right := [LParen] + Then(r, [RParen] + rest);
    ReadParens(r, rest);
    ReadParens(l, [Kw(OR)] + right);
    Seam(OR, Then(r, [RParen] + rest));
    OrOfOr(l, r, [LParen] + Then(l, [RParen] + ([Kw(OR)] + right)), right, rest);
  }

  lemma {:induction false} ReadParens(n: Node, rest: seq<Tok>)
    requires IsCondition(n) && Stops(rest)
    ensures ReadNot([LParen] + Then(n, [RParen] + rest)) == Got(n, rest)
    decreases n, 4
  {
    var inner := Then(n, [RParen] + rest);
    ReadCondition(n, [RParen] + rest);
    ConditionHead(n, [RParen] + rest);
    AtomOfParens(n, inner, rest);
    NotOfAtom([LParen] + inner, n, rest);
  }

  /**
   Printing loses nothing: the text of a condition, followed by anything that cannot extend it,
   is read back as exactly that condition and exactly that remainder.
   */
  lemma ReadPrinted(n: Node, rest: seq<Tok>)
    requires IsCondition(n) && Closed(rest)
    ensures ReadOr(Print(n) + rest) == Got(n, rest)
  {
    ThenIsPrint(n, rest);
    ReadCondition(n, rest);
  }
}
