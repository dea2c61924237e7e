/**
 The WHERE clause of a joined UPDATE or DELETE: all ON conditions and the filter, glued with
 AND and no parentheses. It is their conjunction exactly when none of them is a top-level `||`.
 */
module JoinedWhere {
  import opened Sequences
  import opened Wrappers
  import opened SqlText
  import opened SqlReader
  import Syntax
  import Meaning
  import QueryScope
  import Translation

  type Texts = seq<seq<Tok>>

  function Printed(nodes: seq<Node>): (r: Texts)
    ensures |r| == |nodes| && forall i :: 0 <= i < |r| ==> r[i] == Print(nodes[i])
  {
    seq(|nodes|, i requires 0 <= i < |nodes| => Print(nodes[i]))
  }

  function Glued(ons: Texts, filter: seq<Tok>): seq<Tok>
  {
    if ons == [] then filter else ons[0] + [Kw(AND)] + Glued(ons[1..], filter)
  }

  lemma {:induction false} GluedSnoc(ons: Texts, on: seq<Tok>, filter: seq<Tok>)
    ensures Glued(ons + [on], filter) == Glued(ons, on + [Kw(AND)] + filter)
    decreases |ons|
  {
    if ons == [] {
      assert (ons + [on])[1..] == [];
    } else {
      assert (ons + [on])[1..] == ons[1..] + [on];
      GluedSnoc(ons[1..], on, filter);
    }
  }

  lemma {:induction false} GluedAppends(ons: Texts, a: seq<Tok>, b: seq<Tok>)
    ensures Glued(ons, a + b) == Glued(ons, a) + b
    decreases |ons|
  {
    if ons != [] {
      GluedAppends(ons[1..], a, b);
      Inward(ons[0], [Kw(AND)], Glued(ons[1..], a), b);
      Assoc(ons[0], [Kw(AND)], Glued(ons[1..], a) + b);
    }
  }

  /** Appends the clause the way `build` and `delete` do: one join after the other, then the filter. */
  method AppendWhere(sql: seq<Tok>, joins: Texts, filter: seq<Tok>) returns (r: seq<Tok>)
    ensures r == sql + [Kw(WHERE)] + Glued(joins, filter)
  {
    r := sql + [Kw(WHERE)];
    ghost var head := r;
    var index := 0;
    assert joins[..0] == [];
    assert r == head + Glued(joins[..0], []);
    while index < |joins|
      invariant index <= |joins|
      invariant r == head + Glued(joins[..index], [])
    {
      ghost var before := r;
      r := r + joins[index];
      r := r + [Kw(AND)];
      assert joins[..index + 1] == joins[..index] + [joins[index]];
      GluedSnoc(joins[..index], joins[index], []);
      var piece := joins[index] + [Kw(AND)] + [];
      assert [] + piece == piece;
      GluedAppends(joins[..index], [], piece);
      Assoc(head, Glued(joins[..index], []), piece);
      assert r == before + piece;
      index := index + 1;
    }
    assert joins[..|joins|] == joins;
    assert [] + filter == filter;
    GluedAppends(joins, [], filter);
    Assoc(head, Glued(joins, []), filter);
    r := r + filter;
  }

  // ---- the clause as a chain of operands and connectives ----

  /** An operand as it is written: in parentheses, or bare. */
  datatype Factor = Factor(node: Node, parens: bool)

  /** The connectives and operands that follow the first operand. */
  datatype Links = Done | More(isOr: bool, factor: Factor, tail: Links)

  function Append(a: Links, b: Links): Links
  {
    match a
    case Done => b
    case More(isOr, f, tail) => More(isOr, f, Append(tail, b))
  }

  predicate Proper(f: Factor)
  {
    IsCondition(f.node) && (!f.parens ==> !f.node.And? && !f.node.Or?)
  }

  /** The text of an operand, followed by `rest`. */
  function FactorThen(f: Factor, rest: seq<Tok>): seq<Tok>
  {
    if f.parens then [LParen] + Then(f.node, [RParen] + rest) else Then(f.node, rest)
  }

  function LinksThen(links: Links, rest: seq<Tok>): seq<Tok>
  {
    match links
    case Done => rest
    case More(isOr, f, tail) => [Kw(if isOr then OR else AND)] + FactorThen(f, LinksThen(tail, rest))
  }

  function FirstOf(part: Node): Factor
  {
    if part.And? || part.Or? then Factor(part.left, true) else Factor(part, false)
  }

  function LinksOf(part: Node): Links
  {
    if part.And? || part.Or? then More(part.Or?, Factor(part.right, true), Done) else Done
  }

  /** The connectives after the first operand of a nonempty list of parts. */
  function ChainOf(parts: seq<Node>): Links
    requires parts != []
  {
    if |parts| == 1 then LinksOf(parts[0])
    else Append(LinksOf(parts[0]), More(false, FirstOf(parts[1]), ChainOf(parts[1..])))
  }

  function PartsText(parts: seq<Node>): seq<Tok>
    requires parts != []
  {
    if |parts| == 1 then Print(parts[0]) else Print(parts[0]) + [Kw(AND)] + PartsText(parts[1..])
  }

  function PartsThen(parts: seq<Node>, rest: seq<Tok>): seq<Tok>
    requires parts != []
  {
    if |parts| == 1 then Then(parts[0], rest) else Then(parts[0], [Kw(AND)] + PartsThen(parts[1..], rest))
  }

  lemma {:induction false} PartsThenIsText(parts: seq<Node>, rest: seq<Tok>)
    requires parts != []
    ensures PartsThen(parts, rest) == PartsText(parts) + rest
    decreases |parts|
  {
    if |parts| == 1 {
      ThenIsPrint(parts[0], rest);
    } else {
      PartsThenIsText(parts[1..], rest);
      ThenIsPrint(parts[0], [Kw(AND)] + PartsThen(parts[1..], rest));
      Inward(Print(parts[0]), [Kw(AND)], PartsText(parts[1..]), rest);
    }
  }

  lemma {:induction false} AppendThen(a: Links, b: Links, rest: seq<Tok>)
    ensures LinksThen(Append(a, b), rest) == LinksThen(a, LinksThen(b, rest))
  {
    if a.More? {
      AppendThen(a.tail, b, rest);
    }
  }

  lemma AndThen(l: Node, r: Node, rest: seq<Tok>)
    ensures Then(And(l, r), rest) == FactorThen(Factor(l, true), [Kw(AND)] + FactorThen(Factor(r, true), rest))
  {
    Seam(AND, Then(r, [RParen] + rest));
  }

  lemma OrThen(l: Node, r: Node, rest: seq<Tok>)
    ensures Then(Or(l, r), rest) == FactorThen(Factor(l, true), [Kw(OR)] + FactorThen(Factor(r, true), rest))
  {
    Seam(OR, Then(r, [RParen] + rest));
  }

  lemma PartThen(part: Node, rest: seq<Tok>)
    ensures Then(part, rest) == FactorThen(FirstOf(part), LinksThen(LinksOf(part), rest))
  {
    if part.And? {
      AndThen(part.left, part.right, rest);
      assert part == And(part.left, part.right);
    } else if part.Or? {
      OrThen(part.left, part.right, rest);
      assert part == Or(part.left, part.right);
    }
  }

  lemma {:induction false} PartsThenIsChain(parts: seq<Node>, rest: seq<Tok>)
    requires parts != []
    ensures PartsThen(parts, rest) == FactorThen(FirstOf(parts[0]), LinksThen(ChainOf(parts), rest))
    decreases |parts|
  {
    if |parts| == 1 {
      PartThen(parts[0], rest);
    } else {
      PartsThenIsChain(parts[1..], rest);
      var next := More(false, FirstOf(parts[1]), ChainOf(parts[1..]));
      assert LinksThen(next, rest) == [Kw(AND)] + PartsThen(parts[1..], rest);
      PartThen(parts[0], LinksThen(next, rest));
      AppendThen(LinksOf(parts[0]), next, rest);
    }
  }

  // ---- reading a chain ----

  function Size(links: Links): nat
  {
    match links
    case Done => 0
    case More(_, _, tail) => 1 + Size(tail)
  }

  /** Takes the operands up to the next OR. */
  function AndRun(acc: Node, links: Links): (r: (Node, Links))
    ensures r.1.Done? || r.1.isOr
    ensures Size(r.1) <= Size(links)
    decreases Size(links)
  {
    match links
    case Done => (acc, links)
    case More(isOr, f, tail) => if isOr then (acc, links) else AndRun(And(acc, f.node), tail)
  }

  function OrRun(acc: Node, links: Links): Node
    decreases Size(links)
  {
    match links
    case Done => acc
    case More(_, f, tail) =>
      var run := AndRun(f.node, tail);
      OrRun(Or(acc, run.0), run.1)
  }

  function Tree(first: Factor, links: Links): Node
  {
    var run := AndRun(first.node, links);
    OrRun(run.0, run.1)
  }

  predicate AllProper(links: Links)
  {
    links.More? ==> Proper(links.factor) && AllProper(links.tail)
  }

  lemma LinksStop(links: Links, rest: seq<Tok>)
    requires Closed(rest)
    ensures Stops(LinksThen(links, rest))
    ensures links.More? ==> LinksThen(links, rest)[0] == Kw(if links.isOr then OR else AND)
  {
  }

  lemma ReadProper(f: Factor, rest: seq<Tok>)
    requires Proper(f) && Stops(rest)
    ensures ReadNot(FactorThen(f, rest)) == Got(f.node, rest)
  {
    if f.parens {
      ReadParens(f.node, rest);
    } else {
      ReadFactor(f.node, rest);
    }
  }

  lemma {:induction false} AndTailRuns(acc: Node, links: Links, rest: seq<Tok>)
    requires AllProper(links) && Closed(rest)
    ensures var run := AndRun(acc, links);
            AndTail(acc, LinksThen(links, rest)) == Got(run.0, LinksThen(run.1, rest)) && AllProper(run.1)
    decreases Size(links)
  {
    LinksStop(links, rest);
    if links.More? && !links.isOr {
      var more := LinksThen(links.tail, rest);
      LinksStop(links.tail, rest);
      ReadProper(links.factor, more);
      assert LinksThen(links, rest)[1..] == FactorThen(links.factor, more);
      AndTailRuns(And(acc, links.factor.node), links.tail, rest);
    }
  }

  lemma {:induction false} OrTailRuns(acc: Node, links: Links, rest: seq<Tok>)
    requires AllProper(links) && Closed(rest) && (links.More? ==> links.isOr)
    ensures OrTail(acc, LinksThen(links, rest)) == Got(OrRun(acc, links), rest)
    decreases Size(links)
  {
    LinksStop(links, rest);
    if links.More? {
      var ts := FactorThen(links.factor, LinksThen(links.tail, rest));
      LinksStop(links.tail, rest);
      ReadProper(links.factor, LinksThen(links.tail, rest));
      assert LinksThen(links, rest)[1..] == ts;
      AndTailRuns(links.factor.node, links.tail, rest);
      var run := AndRun(links.factor.node, links.tail);
      assert ReadAnd(ts) == Got(run.0, LinksThen(run.1, rest));
      OrTailRuns(Or(acc, run.0), run.1, rest);
    }
  }

  lemma ChainReads(first: Factor, links: Links, rest: seq<Tok>)
    requires Proper(first) && AllProper(links) && Closed(rest)
    ensures ReadOr(FactorThen(first, LinksThen(links, rest))) == Got(Tree(first, links), rest)
  {
    var more := LinksThen(links, rest);
    var ts := FactorThen(first, more);
    LinksStop(links, rest);
    ReadProper(first, more);
    AndTailRuns(first.node, links, rest);
    var run := AndRun(first.node, links);
    assert ReadAnd(ts) == Got(run.0, LinksThen(run.1, rest));
    OrTailRuns(run.0, run.1, rest);
  }

  lemma {:induction false} AppendProper(a: Links, b: Links)
    requires AllProper(a) && AllProper(b)
    ensures AllProper(Append(a, b))
  {
    if a.More? {
      AppendProper(a.tail, b);
    }
  }

  lemma {:induction false} ChainIsProper(parts: seq<Node>)
    requires parts != [] && forall i :: 0 <= i < |parts| ==> IsCondition(parts[i])
    ensures Proper(FirstOf(parts[0])) && AllProper(ChainOf(parts))
    decreases |parts|
  {
    if |parts| > 1 {
      ChainIsProper(parts[1..]);
      assert parts[1..][0] == parts[1];
      AppendProper(LinksOf(parts[0]), More(false, FirstOf(parts[1]), ChainOf(parts[1..])));
    }
  }

  // ---- what the clause means ----

  /** The conjuncts of a condition. */
  function Conjuncts(n: Node): (r: seq<Node>)
    ensures r != []
  {
    if n.And? then Conjuncts(n.left) + Conjuncts(n.right) else [n]
  }

  function AllConjuncts(parts: seq<Node>): (r: seq<Node>)
    ensures |r| >= |parts|
  {
    if parts == [] then [] else Conjuncts(parts[0]) + AllConjuncts(parts[1..])
  }

  function LinkConjuncts(links: Links): seq<Node>
  {
    match links
    case Done => []
    case More(_, f, tail) => Conjuncts(f.node) + LinkConjuncts(tail)
  }

  predicate NoOr(links: Links)
  {
    links.More? ==> !links.isOr && NoOr(links.tail)
  }

  lemma {:induction false} AndRunConjuncts(acc: Node, links: Links)
    requires NoOr(links)
    ensures AndRun(acc, links).1.Done?
    ensures Conjuncts(AndRun(acc, links).0) == Conjuncts(acc) + LinkConjuncts(links)
    decreases links
  {
    match links
    case Done => assert Conjuncts(acc) + [] == Conjuncts(acc);
    case More(_, f, tail) =>
      AndRunConjuncts(And(acc, f.node), tail);
      Assoc(Conjuncts(acc), Conjuncts(f.node), LinkConjuncts(tail));
  }

  lemma {:induction false} AppendConjuncts(a: Links, b: Links)
    ensures LinkConjuncts(Append(a, b)) == LinkConjuncts(a) + LinkConjuncts(b)
    ensures NoOr(Append(a, b)) <==> NoOr(a) && NoOr(b)
  {
    match a
    case Done => assert [] + LinkConjuncts(b) == LinkConjuncts(b);
    case More(_, f, tail) =>
      AppendConjuncts(tail, b);
      Assoc(Conjuncts(f.node), LinkConjuncts(tail), LinkConjuncts(b));
  }

  predicate NoTopOr(parts: seq<Node>)
  {
    forall i :: 0 <= i < |parts| ==> !parts[i].Or?
  }

  lemma PartConjuncts(part: Node)
    requires !part.Or?
    ensures NoOr(LinksOf(part))
    ensures Conjuncts(FirstOf(part).node) + LinkConjuncts(LinksOf(part)) == Conjuncts(part)
  {
    if part.And? {
      assert LinkConjuncts(LinksOf(part)) == Conjuncts(part.right) + [] == Conjuncts(part.right);
    }
  }

  lemma {:induction false} ChainConjuncts(parts: seq<Node>)
    requires parts != [] && NoTopOr(parts)
    ensures NoOr(ChainOf(parts))
    ensures Conjuncts(FirstOf(parts[0]).node) + LinkConjuncts(ChainOf(parts)) == AllConjuncts(parts)
    decreases |parts|
  {
    PartConjuncts(parts[0]);
    if |parts| == 1 {
      assert parts[1..] == [];
      assert Conjuncts(parts[0]) + [] == Conjuncts(parts[0]);
    } else {
      var next := More(false, FirstOf(parts[1]), ChainOf(parts[1..]));
      ChainConjuncts(parts[1..]);
      AppendConjuncts(LinksOf(parts[0]), next);
      Assoc(Conjuncts(FirstOf(parts[0]).node), LinkConjuncts(LinksOf(parts[0])), LinkConjuncts(next));
    }
  }

  lemma {:induction false} OrRunIsOr(acc: Node, links: Links)
    requires links.More? || acc.Or?
    ensures OrRun(acc, links).Or?
    decreases Size(links)
  {
    if links.More? {
      var run := AndRun(links.factor.node, links.tail);
      OrRunIsOr(Or(acc, run.0), run.1);
    }
  }

  lemma {:induction false} AndRunKeepsOr(acc: Node, links: Links)
    requires !NoOr(links)
    ensures AndRun(acc, links).1.More?
    decreases links
  {
    if !links.isOr {
      AndRunKeepsOr(And(acc, links.factor.node), links.tail);
    }
  }

  lemma {:induction false} ChainHasOr(parts: seq<Node>)
    requires parts != [] && !NoTopOr(parts)
    ensures !NoOr(ChainOf(parts))
    decreases |parts|
  {
    if |parts| > 1 {
      var next := More(false, FirstOf(parts[1]), ChainOf(parts[1..]));
      AppendConjuncts(LinksOf(parts[0]), next);
      if !parts[0].Or? {
        assert !NoTopOr(parts[1..]) by {
          var i :| 0 <= i < |parts| && parts[i].Or?;
          assert parts[1..][i - 1] == parts[i];
        }
        ChainHasOr(parts[1..]);
      }
    }
  }

  /**
   With at least one join, the clause reads back as the conjunction of its parts, each conjunct
   in its place, if and only if no part is a top-level OR.
   */
  lemma ReadsAsConjunction(parts: seq<Node>, rest: seq<Tok>)
    requires |parts| >= 2 && Closed(rest)
    requires forall i :: 0 <= i < |parts| ==> IsCondition(parts[i])
    ensures var read := ReadOr(PartsText(parts) + rest);
            && read.Got? && read.rest == rest
            && (Conjuncts(read.node) == AllConjuncts(parts) <==> NoTopOr(parts))
  {
    var first, links := FirstOf(parts[0]), ChainOf(parts);
    PartsThenIsText(parts, rest);
    PartsThenIsChain(parts, rest);
    ChainIsProper(parts);
    ChainReads(first, links, rest);
    if NoTopOr(parts) {
      ChainConjuncts(parts);
      AndRunConjuncts(first.node, links);
    } else {
      ChainHasOr(parts);
      AndRunKeepsOr(first.node, links);
      OrRunIsOr(AndRun(first.node, links).0, AndRun(first.node, links).1);
    }
  }

  lemma {:induction false} TrueConjuncts(m: Model, n: Node, env: Env)
    ensures Eval(m, n, env) == Bool(true) <==>
            forall c <- Conjuncts(n) :: Eval(m, c, env) == Bool(true)
  {
    if n.And? {
      TrueConjuncts(m, n.left, env);
      TrueConjuncts(m, n.right, env);
      assert forall c :: c in Conjuncts(n) <==> c in Conjuncts(n.left) || c in Conjuncts(n.right);
    }
  }

  lemma {:induction false} TrueParts(m: Model, parts: seq<Node>, env: Env)
    ensures (forall c <- AllConjuncts(parts) :: Eval(m, c, env) == Bool(true)) <==>
            (forall p <- parts :: Eval(m, p, env) == Bool(true))
    decreases |parts|
  {
    if parts != [] {
      TrueConjuncts(m, parts[0], env);
      TrueParts(m, parts[1..], env);
      assert forall p :: p in parts <==> p == parts[0] || p in parts[1..];
    }
  }

  /** Without a top-level OR the clause selects exactly the rows that satisfy every part. */
  lemma SelectsConjunction(m: Model, parts: seq<Node>, env: Env, rest: seq<Tok>)
    requires |parts| >= 2 && Closed(rest) && NoTopOr(parts)
    requires forall i :: 0 <= i < |parts| ==> IsCondition(parts[i])
    ensures var read := ReadOr(PartsText(parts) + rest);
            && read.Got? && read.rest == rest
            && (Eval(m, read.node, env) == Bool(true) <==> forall p <- parts :: Eval(m, p, env) == Bool(true))
  {
    ReadsAsConjunction(parts, rest);
    TrueConjuncts(m, ReadOr(PartsText(parts) + rest).node, env);
    TrueParts(m, parts, env);
  }

  /** With one, the text reads as this. */
  lemma RejectedRowText(yes: Node, no: Node)
    requires yes.Lit? && no.Lit? && IsCondition(yes) && IsCondition(no)
    ensures ReadOr(PartsText([Or(yes, no), no])) == Got(Or(yes, And(no, no)), [])
  {
    var parts := [Or(yes, no), no];
    var first, links := FirstOf(parts[0]), ChainOf(parts);
    RejectedRowChain(yes, no);
    PartsThenIsText(parts, []);
    PartsThenIsChain(parts, []);
    ChainIsProper(parts);
    ChainReads(first, links, []);
    assert PartsText(parts) + [] == PartsText(parts);
    RejectedRowTree(yes, no);
  }

  lemma RejectedRowChain(yes: Node, no: Node)
    requires yes.Lit? && no.Lit?
    ensures FirstOf(Or(yes, no)) == Factor(yes, true)
    ensures ChainOf([Or(yes, no), no]) == More(true, Factor(no, true), More(false, Factor(no, false), Done))
  {
    var parts := [Or(yes, no), no];
    assert parts[1..] == [no];
    assert ChainOf(parts[1..]) == LinksOf(no) == Done;
    assert LinksOf(parts[0]) == More(true, Factor(no, true), Done);
    assert FirstOf(parts[1]) == Factor(no, false);
    var next := More(false, Factor(no, false), Done);
    assert Append(More(true, Factor(no, true), Done), next) == More(true, Factor(no, true), Append(Done, next));
  }

  lemma RejectedRowTree(yes: Node, no: Node)
    ensures Tree(Factor(yes, true), More(true, Factor(no, true), More(false, Factor(no, false), Done)))
         == Or(yes, And(no, no))
  {
    var links := More(true, Factor(no, true), More(false, Factor(no, false), Done));
    assert AndRun(yes, links) == (yes, links);
    assert AndRun(no, More(false, Factor(no, false), Done)) == AndRun(And(no, no), Done) == (And(no, no), Done);
    assert OrRun(yes, links) == OrRun(Or(yes, And(no, no)), Done) == Or(yes, And(no, no));
  }

  /** With one, a row that the filter rejects is selected: ON `true || false`, filter `false`. */
  lemma TopOrSelectsRejectedRow(m: Model, scope: QueryScope.Scope, cx: Translation.Context, rows: Meaning.Rows, env: Env)
    requires Meaning.Understands(m, cx.kind)
    ensures var yes, no := Syntax.Lit(Syntax.Truth(true)), Syntax.Lit(Syntax.Truth(false));
            var on := Syntax.Binary(Syntax.BinOp.Or, yes, no);
            var joined, filter := Translation.Condition(scope, on, true, cx), Translation.Condition(scope, no, false, cx);
            && Meaning.PredMeaning(m, no, rows, cx) == Bool(false)
            && joined.Ok? && filter.Ok?
            && var read := ReadOr(PartsText([joined.value, filter.value]));
            && read.Got? && read.rest == [] && Eval(m, read.node, env) == Bool(true)
  {
    var yes, no := Translation.Written(cx.kind, Syntax.Truth(true)), Translation.Written(cx.kind, Syntax.Truth(false));
    RejectedRowText(Lit(yes), Lit(no));
    Meaning.LiteralMeans(m, cx.kind, Syntax.Truth(true), env);
    Meaning.LiteralMeans(m, cx.kind, Syntax.Truth(false), env);
    assert Eval(m, And(Lit(no), Lit(no)), env) == Bool(false);
  }

  /** A top-level `||`, which parentheses and blocks around it do not hide. */
  predicate TopOr(e: Syntax.Expr)
  {
    match e
    case Binary(op, _, _) => op.Or?
    case Paren(inner) => TopOr(inner)
    case Block(tail) => |tail| == 1 && TopOr(tail[0])
    case _ => false
  }

  /** Whether a closure compiles to a top-level OR can be read off the closure. */
  lemma {:induction false} TopOrCompiles(scope: QueryScope.Scope, e: Syntax.Expr, columns: bool, cx: Translation.Context)
    requires Translation.Condition(scope, e, columns, cx).Ok?
    ensures Translation.Condition(scope, e, columns, cx).value.Or? <==> TopOr(e)
    decreases e
  {
    match e
    case Paren(inner) => TopOrCompiles(scope, inner, columns, cx);
    case Block(tail) => TopOrCompiles(scope, tail[0], columns, cx);
    case _ =>
  }

  lemma {:induction false} GluedIsParts(ons: seq<Node>, filter: Node)
    ensures Glued(Printed(ons), Print(filter)) == PartsText(ons + [filter])
    decreases |ons|
  {
    var texts := Printed(ons);
    if ons != [] {
      GluedIsParts(ons[1..], filter);
      assert texts[1..] == seq(|ons[1..]|, i requires 0 <= i < |ons[1..]| => Print(ons[1..][i]));
      assert (ons + [filter])[1..] == ons[1..] + [filter];
    }
  }

  // ---- from closures to selected rows ----

  /** An ON or filter closure. It binds the first tables of the statement; only ON may compare two columns. */
  datatype Clause = Clause(idents: seq<Syntax.Ident>, body: Syntax.Expr, columns: bool)

  function Compiled(depth: nat, clause: Clause, cx: Translation.Context): Result<Node, Translation.Error>
  {
    Translation.Condition(QueryScope.ForBindings(depth, clause.idents), clause.body, clause.columns, cx)
  }

  /** What the closure says about one row of every table. */
  ghost function Says(m: Model, clause: Clause, rows: seq<Row>, cx: Translation.Context): Value
    requires |clause.idents| <= |rows|
  {
    Meaning.PredMeaning(m, clause.body, Meaning.BindRows(clause.idents, rows[..|clause.idents|]), cx)
  }

  lemma ClauseMeans(m: Model, depth: nat, clause: Clause, rows: seq<Row>, cx: Translation.Context, env: Env)
    requires |clause.idents| <= |rows| && Meaning.Aliased(depth, rows, env) && Meaning.Understands(m, cx.kind)
    requires Compiled(depth, clause, cx).Ok?
    ensures Eval(m, Compiled(depth, clause, cx).value, env) == Says(m, clause, rows, cx)
  {
    var bound := rows[..|clause.idents|];
    var scope := QueryScope.ForBindings(depth, clause.idents);
    Meaning.BindingsAgree(depth, clause.idents, bound, env);
    Meaning.PredicatePreserved(
      m, scope, clause.body, clause.columns, cx, Meaning.BindRows(clause.idents, bound), env, Compiled(depth, clause, cx).value);
  }

  lemma ConjunctionReads(m: Model, nodes: seq<Node>, env: Env, rest: seq<Tok>)
    requires nodes != [] && Closed(rest) && (|nodes| > 1 ==> NoTopOr(nodes))
    requires forall i :: 0 <= i < |nodes| ==> IsCondition(nodes[i])
    ensures var read := ReadOr(PartsText(nodes) + rest);
            && read.Got? && read.rest == rest
            && (Eval(m, read.node, env) == Bool(true) <==> forall n <- nodes :: Eval(m, n, env) == Bool(true))
  {
    if |nodes| == 1 {
      ReadPrinted(nodes[0], rest);
    } else {
      SelectsConjunction(m, nodes, env, rest);
    }
  }

  /**
   A joined UPDATE or DELETE none of whose closures is a top-level `||` changes exactly the rows
   on which every ON closure and the filter closure are true. Without joins the filter may be any.
   */
  lemma JoinedTextMeansClosures(
    m: Model, depth: nat, clauses: seq<Clause>, nodes: seq<Node>, rows: seq<Row>, cx: Translation.Context, env: Env,
    rest: seq<Tok>
  )
    requires clauses != [] && |nodes| == |clauses| && Closed(rest)
    requires Meaning.Aliased(depth, rows, env) && Meaning.Understands(m, cx.kind)
    requires forall c <- clauses :: |c.idents| <= |rows|
    requires forall i :: 0 <= i < |clauses| ==> Compiled(depth, clauses[i], cx) == Ok(nodes[i])
    requires |clauses| > 1 ==> forall c <- clauses :: !TopOr(c.body)
    ensures var ons, filter := nodes[..|nodes| - 1], nodes[|nodes| - 1];
            var text := Glued(Printed(ons), Print(filter));
            var read := ReadOr(text + rest);
            && read.Got? && read.rest == rest
            && (Eval(m, read.node, env) == Bool(true) <==> forall c <- clauses :: Says(m, c, rows, cx) == Bool(true))
  {
    var ons, filter := nodes[..|nodes| - 1], nodes[|nodes| - 1];
    GluedIsParts(ons, filter);
    Last(nodes);
    AllProperConditions(depth, clauses, nodes, cx);
    ConjunctionReads(m, nodes, env, rest);
    AllSay(m, depth, clauses, nodes, rows, cx, env);
  }

  lemma AllProperConditions(depth: nat, clauses: seq<Clause>, nodes: seq<Node>, cx: Translation.Context)
    requires |nodes| == |clauses|
    requires forall i :: 0 <= i < |clauses| ==> Compiled(depth, clauses[i], cx) == Ok(nodes[i])
    ensures forall i :: 0 <= i < |nodes| ==> IsCondition(nodes[i])
    ensures (forall c <- clauses :: !TopOr(c.body)) ==> NoTopOr(nodes)
  {
    forall i | 0 <= i < |nodes|
      ensures IsCondition(nodes[i]) && (nodes[i].Or? <==> TopOr(clauses[i].body))
    {
      var clause := clauses[i];
      TopOrCompiles(QueryScope.ForBindings(depth, clause.idents), clause.body, clause.columns, cx);
    }
  }

  lemma AllSay(
    m: Model, depth: nat, clauses: seq<Clause>, nodes: seq<Node>, rows: seq<Row>, cx: Translation.Context, env: Env
  )
    requires |nodes| == |clauses| && Meaning.Aliased(depth, rows, env) && Meaning.Understands(m, cx.kind)
    requires forall c <- clauses :: |c.idents| <= |rows|
    requires forall i :: 0 <= i < |clauses| ==> Compiled(depth, clauses[i], cx) == Ok(nodes[i])
    ensures (forall n <- nodes :: Eval(m, n, env) == Bool(true)) <==>
            (forall c <- clauses :: Says(m, c, rows, cx) == Bool(true))
  {
    forall i | 0 <= i < |nodes| ensures Eval(m, nodes[i], env) == Says(m, clauses[i], rows, cx) {
      ClauseMeans(m, depth, clauses[i], rows, cx, env);
    }
    if forall n <- nodes :: Eval(m, n, env) == Bool(true) {
      forall c | c in clauses ensures Says(m, c, rows, cx) == Bool(true) {
        var i :| 0 <= i < |clauses| && clauses[i] == c;
        assert nodes[i] in nodes;
      }
    }
    if forall c <- clauses :: Says(m, c, rows, cx) == Bool(true) {
      forall n | n in nodes ensures Eval(m, n, env) == Bool(true) {
        var i :| 0 <= i < |nodes| && nodes[i] == n;
        assert clauses[i] in clauses;
      }
    }
  }
}
