/**
 Set-operation queries: collecting the method chain, printing it for two dialects, and reading
 the text back with each dialect's own precedence.
 */
module SetOps {
  import opened Sequences
  import opened Wrappers
  import SqlText
  import SqlReader
  import Syntax

  type Node = SqlText.Node
  type Relation = SqlText.Relation

  datatype SetOp = Union | UnionAll | Intersect | IntersectAll | Except | ExceptAll

  type Dialect = Syntax.Kind

  /** One branch: its table, whether its source has joins, its alias, and its filter unless that is `true`. */
  datatype Branch = Branch(table: Relation, joined: bool, alias: string, filter: Option<Node>)

  datatype Link = Link(op: SetOp, branch: Branch)

  datatype SetQuery = SetQuery(first: Branch, links: seq<Link>)

  /** A further operand of a set operation: its operator and the text of its branch. */
  datatype Piece = Piece(op: SetOp, body: seq<Tok>)

  datatype Chain = Chain(first: seq<Tok>, links: seq<Piece>)

  function Pieces(links: seq<Link>): (r: seq<Piece>)
    ensures |r| == |links| && forall i :: 0 <= i < |r| ==> r[i] == Piece(links[i].op, Body(links[i].branch))
  {
    seq(|links|, i requires 0 <= i < |links| => Piece(links[i].op, Body(links[i].branch)))
  }

  /** The texts of the branches of a query. */
  function ChainOf(query: SetQuery): Chain
  {
    Chain(Body(query.first), Pieces(query.links))
  }

  // ---- the source chain ----

  /**
   A query expression. `Block` is a block with this tail, which a source may stand in. `Source` is
   anything else but a set operation; its branch is `None` if it is malformed, as in parentheses.
   */
  datatype Query =
    | Source(branch: Option<Branch>)
    | Block(inner: Query)
    | Step(receiver: Query, op: SetOp, args: seq<Query>)

  datatype ChainError = TakesOneArgument(op: SetOp) | NotASource

  function ParseChain(q: Query): (r: Result<Branch, ChainError>)
    ensures r.Err? ==> r.error == NotASource
  {
    match q
    case Source(branch) => if branch.Some? then Ok(branch.value) else Err(NotASource)
    case Block(inner) => ParseChain(inner)
    case Step(_, _, _) => Err(NotASource)
  }

  /** A set operation over leaves of some kind: branches, or their texts. */
  datatype Tree<L> = Leaf(body: L) | Combine(op: SetOp, left: Tree<L>, right: Tree<L>)

  type TextTree = Tree<seq<Tok>>

  /** What the chain says, one method call at a time: everything before the call is its left operand. */
  function Denotes(q: Query): Option<Tree<Branch>>
  {
    if q.Step? then
      if |q.args| != 1 then None
      else
        var left, right := Denotes(q.receiver), ParseChain(q.args[0]);
        if left.Some? && right.Ok? then Some(Combine(q.op, left.value, Leaf(right.value))) else None
    else
      var branch := ParseChain(q);
      if branch.Ok? then Some(Leaf(branch.value)) else None
  }

  /** The branches combined from left to right. */
  function FoldBranches(first: Branch, links: seq<Link>): Tree<Branch>
  {
    if links == [] then Leaf(first)
    else
      var last := links[|links| - 1];
      Combine(last.op, FoldBranches(first, links[..|links| - 1]), Leaf(last.branch))
  }

  function Fold(first: seq<Tok>, links: seq<Piece>): TextTree
  {
    if links == [] then Leaf(first)
    else
      var last := links[|links| - 1];
      Combine(last.op, Fold(first, links[..|links| - 1]), Leaf(last.body))
  }

  /** The calls of the chain from its first operand outwards. */
  function Calls(q: Query): seq<(SetOp, Query)>
  {
    if q.Step? && |q.args| == 1 then Calls(q.receiver) + [(q.op, q.args[0])] else []
  }

  /** The call nearest the end of the chain whose argument count is wrong, or what the chain starts from. */
  function Start(q: Query): Query
  {
    if q.Step? && |q.args| == 1 then Start(q.receiver) else q
  }

  predicate AllSources(calls: seq<(SetOp, Query)>)
  {
    forall i :: 0 <= i < |calls| ==> ParseChain(calls[i].1).Ok?
  }

  lemma {:induction false} DenotesByCalls(q: Query)
    ensures Denotes(q).Some? <==> ParseChain(Start(q)).Ok? && AllSources(Calls(q))
  {
    if q.Step? && |q.args| == 1 {
      DenotesByCalls(q.receiver);
      var calls, inner := Calls(q), Calls(q.receiver);
      if AllSources(calls) {
        forall i | 0 <= i < |inner| ensures ParseChain(inner[i].1).Ok? {
          assert calls[i] == inner[i];
        }
        assert calls[|inner|] == (q.op, q.args[0]);
      }
    }
  }

  predicate Parsed(calls: seq<(SetOp, Query)>, links: seq<Link>)
  {
    |links| == |calls| &&
    forall i :: 0 <= i < |links| ==> links[i].op == calls[i].0 && ParseChain(calls[i].1) == Ok(links[i].branch)
  }

  lemma {:induction false} FoldIsDenoted(q: Query, first: Branch, links: seq<Link>)
    requires ParseChain(Start(q)) == Ok(first) && Parsed(Calls(q), links)
    ensures Denotes(q) == Some(FoldBranches(first, links))
  {
    if q.Step? && |q.args| == 1 {
      var last := |links| - 1;
      assert Calls(q)[..last] == Calls(q.receiver);
      assert Parsed(Calls(q.receiver), links[..last]) by {
        forall i | 0 <= i < last
          ensures links[..last][i].op == Calls(q.receiver)[i].0
          ensures ParseChain(Calls(q.receiver)[i].1) == Ok(links[..last][i].branch)
        {
          assert Calls(q)[i] == Calls(q.receiver)[i];
        }
      }
      FoldIsDenoted(q.receiver, first, links[..last]);
      assert Calls(q)[last] == (q.op, q.args[0]);
    }
  }

  function Reversed<T>(s: seq<T>): (r: seq<T>)
    ensures |r| == |s| && forall i :: 0 <= i < |r| ==> r[i] == s[|s| - 1 - i]
  {
    if s == [] then [] else Reversed(s[1..]) + [s[0]]
  }

  /** Collects the calls from the outside in, then reverses them. */
  method CollectCalls(q: Query) returns (current: Query, calls: seq<(SetOp, Query)>, bad: Option<SetOp>)
    ensures current == Start(q) && calls == Calls(q)
    ensures bad == if Start(q).Step? then Some(Start(q).op) else None
  {
    var links: seq<(SetOp, Query)> := [];
    current := q;
    bad := None;
    while current.Step? && bad.None?
      invariant Start(current) == Start(q)
      invariant Calls(q) == Calls(current) + Reversed(links)
      invariant bad.Some? ==> current.Step? && |current.args| != 1 && bad == Some(current.op)
      decreases bad.None?, current
    {
      if |current.args| != 1 {
        bad := Some(current.op);
      } else {
        var link := (current.op, current.args[0]);
        assert Reversed(links + [link]) == [link] + Reversed(links);
        assert Calls(current.receiver) + ([link] + Reversed(links))
            == (Calls(current.receiver) + [link]) + Reversed(links);
        links := links + [link];
        current := current.receiver;
      }
    }
    assert Calls(current) == [];
    calls := Reversed(links);
    assert [] + calls == calls;
  }

  /**
   The chain is accepted exactly when it denotes a tree, and folding what comes back, left to
   right, is that tree.
   */
  method ParseSet(q: Query) returns (r: Result<SetQuery, ChainError>)
    ensures r.Ok? <==> Denotes(q).Some?
    ensures r.Ok? ==> Denotes(q) == Some(FoldBranches(r.value.first, r.value.links))
    ensures Start(q).Step? ==> r == Err(TakesOneArgument(Start(q).op))
    ensures r.Err? && !Start(q).Step? ==> r.error == NotASource
  {
    DenotesByCalls(q);
    var current, calls, bad := CollectCalls(q);
    if bad.Some? {
      return Err(TakesOneArgument(bad.value));
    }
    var first := ParseChain(current);
    if first.Err? {
      return Err(first.error);
    }
    var parsed: seq<Link> := [];
    for index := 0 to |calls|
      invariant Parsed(calls[..index], parsed)
    {
      var branch := ParseChain(calls[index].1);
      if branch.Err? {
        return Err(branch.error);
      }
      parsed := parsed + [Link(calls[index].0, branch.value)];
    }
    assert calls[..|calls|] == calls;
    FoldIsDenoted(q, first.value, parsed);
    r := Ok(SetQuery(first.value, parsed));
  }

  // ---- which sets of branches are accepted ----

  datatype BranchError = TableDiffers(index: nat) | Joined(index: nat)

  function BranchAt(query: SetQuery, i: nat): Branch
    requires i <= |query.links|
  {
    if i == 0 then query.first else query.links[i - 1].branch
  }

  /** Reports the first branch, counted from 1, that has another table or a join. */
  method ValidateBranches(query: SetQuery) returns (r: Option<BranchError>)
    ensures r.None? <==>
      forall i :: 0 <= i <= |query.links| ==> BranchAt(query, i).table == query.first.table && !BranchAt(query, i).joined
    ensures r.Some? ==>
      && 1 <= r.value.index <= |query.links| + 1
      && (r.value.TableDiffers? ==> BranchAt(query, r.value.index - 1).table != query.first.table)
      && (r.value.Joined? ==>
            BranchAt(query, r.value.index - 1).table == query.first.table && BranchAt(query, r.value.index - 1).joined)
      && forall i :: 0 <= i < r.value.index - 1 ==>
           BranchAt(query, i).table == query.first.table && !BranchAt(query, i).joined
  {
    for index := 0 to |query.links| + 1
      invariant forall i :: 0 <= i < index ==> BranchAt(query, i).table == query.first.table && !BranchAt(query, i).joined
    {
      var branch := BranchAt(query, index);
      if branch.table != query.first.table {
        return Some(TableDiffers(index + 1));
      }
      if branch.joined {
        return Some(Joined(index + 1));
      }
    }
    r := None;
  }

  // ---- text ----

  datatype Tok =
    | Part(lexeme: SqlText.Tok)
    | Columns(table: Relation)
    | Operator(op: SetOp)
    | Trailer

  const OPEN := Part(SqlText.LParen)
  const CLOSE := Part(SqlText.RParen)
  const SELECT := Part(SqlText.Kw(SqlText.SELECT))

  function Parts(ts: seq<SqlText.Tok>): (r: seq<Tok>)
    ensures |r| == |ts| && forall i :: 0 <= i < |r| ==> r[i] == Part(ts[i])
  {
    seq(|ts|, i requires 0 <= i < |ts| => Part(ts[i]))
  }

  /** What stands between SELECT and the end of a branch. */
  function Body(b: Branch): seq<Tok>
  {
    [Columns(b.table)]
    + Parts([SqlText.Kw(SqlText.FROM), SqlText.Rel(b.table), SqlText.Kw(SqlText.AS), SqlText.Alias(b.alias)])
    + (if b.filter.Some? then Parts([SqlText.Kw(SqlText.WHERE)] + SqlText.Print(b.filter.value)) else [])
  }

  function BranchText(d: Dialect, b: seq<Tok>): seq<Tok>
  {
    if d.Pg? then [OPEN, SELECT] + b + [CLOSE] else [SELECT] + b
  }

  function Opens(n: nat): seq<Tok>
  {
    if n == 0 then [] else [OPEN] + Opens(n - 1)
  }

  function LinksText(d: Dialect, links: seq<Piece>, groups: nat): seq<Tok>
  {
    if links == [] then []
    else
      var last := links[|links| - 1];
      LinksText(d, links[..|links| - 1], groups) + LinkText(d, last, groups, |links|)
  }

  function Groups(d: Dialect, links: seq<Piece>): nat
  {
    if d.Pg? && links != [] then |links| - 1 else 0
  }

  function Text(d: Dialect, query: Chain): seq<Tok>
  {
    var groups := Groups(d, query.links);
    Opens(groups) + BranchText(d, query.first) + LinksText(d, query.links, groups)
  }

  lemma {:induction false} OpensSnoc(n: nat)
    ensures Opens(n) + [OPEN] == Opens(n + 1)
  {
    if n > 0 {
      OpensSnoc(n - 1);
      assert [OPEN] + Opens(n - 1) + [OPEN] == [OPEN] + (Opens(n - 1) + [OPEN]);
    }
  }

  method WriteOpens(groups: nat) returns (sql: seq<Tok>)
    ensures sql == Opens(groups)
  {
    sql := [];
    for i := 0 to groups
      invariant sql == Opens(i)
    {
      OpensSnoc(i);
      sql := sql + [OPEN];
    }
  }

  method WriteBranch(d: Dialect, sql: seq<Tok>, b: seq<Tok>) returns (r: seq<Tok>)
    ensures r == sql + BranchText(d, b)
  {
    r := sql + (if d.Pg? then [OPEN, SELECT] else [SELECT]);
    r := r + b;
    r := r + (if d.Pg? then [CLOSE] else []);
  }

  function LinkText(d: Dialect, link: Piece, groups: nat, index: nat): seq<Tok>
  {
    [Operator(link.op)] + BranchText(d, link.body) + (if index <= groups then [CLOSE] else [])
  }

  method WriteLink(d: Dialect, sql: seq<Tok>, link: Piece, groups: nat, index: nat) returns (r: seq<Tok>)
    ensures r == sql + LinkText(d, link, groups, index)
  {
    r := sql + [Operator(link.op)];
    r := WriteBranch(d, r, link.body);
    Assoc4(sql, [Operator(link.op)], BranchText(d, link.body), if index <= groups then [CLOSE] else []);
    NoMore(r);
    if index <= groups {
      r := r + [CLOSE];
    }
  }

  lemma LinksTextNext(d: Dialect, links: seq<Piece>, groups: nat, index: nat)
    requires index < |links|
    ensures LinksText(d, links[..index + 1], groups)
         == LinksText(d, links[..index], groups) + LinkText(d, links[index], groups, index + 1)
  {
    assert links[..index + 1][..index] == links[..index];
  }

  /** The text up to a number of links. */
  function TextUpTo(d: Dialect, query: Chain, index: nat): seq<Tok>
    requires index <= |query.links|
    decreases index
  {
    var groups := Groups(d, query.links);
    if index == 0 then Opens(groups) + BranchText(d, query.first)
    else TextUpTo(d, query, index - 1) + LinkText(d, query.links[index - 1], groups, index)
  }

  lemma NoLinksText(d: Dialect, links: seq<Piece>, head: seq<Tok>, groups: nat)
    ensures head + LinksText(d, links[..0], groups) == head
  {
    assert links[..0] == [];
    assert LinksText(d, [], groups) == [];
  }

  lemma OneMoreLink(d: Dialect, links: seq<Piece>, index: nat, head: seq<Tok>, groups: nat, text: seq<Tok>)
    requires index < |links| && text == head + LinksText(d, links[..index], groups)
    ensures text + LinkText(d, links[index], groups, index + 1) == head + LinksText(d, links[..index + 1], groups)
  {
    var before, piece := LinksText(d, links[..index], groups), LinkText(d, links[index], groups, index + 1);
    LinksTextNext(d, links, groups, index);
    Assoc(head, before, piece);
  }

  lemma TextUpToStart(d: Dialect, query: Chain, head: seq<Tok>, groups: nat)
    requires groups == Groups(d, query.links) && head == Opens(groups) + BranchText(d, query.first)
    ensures TextUpTo(d, query, 0) == head + LinksText(d, query.links[..0], groups)
  {
    NoLinksText(d, query.links, head, groups);
  }

  lemma {:induction false} TextUpToIsText(d: Dialect, query: Chain, index: nat, head: seq<Tok>, groups: nat)
    requires index <= |query.links| && groups == Groups(d, query.links)
    requires head == Opens(groups) + BranchText(d, query.first)
    ensures TextUpTo(d, query, index) == head + LinksText(d, query.links[..index], groups)
    decreases index
  {
    if index == 0 {
      TextUpToStart(d, query, head, groups);
    } else {
      TextUpToIsText(d, query, index - 1, head, groups);
      TextUpToNext(d, query, index - 1, head, groups);
    }
  }

  lemma TextUpToNext(d: Dialect, query: Chain, index: nat, head: seq<Tok>, groups: nat)
    requires index < |query.links| && groups == Groups(d, query.links)
    requires TextUpTo(d, query, index) == head + LinksText(d, query.links[..index], groups)
    ensures TextUpTo(d, query, index + 1) == head + LinksText(d, query.links[..index + 1], groups)
  {
    var text := TextUpTo(d, query, index);
    OneMoreLink(d, query.links, index, head, groups, text);
    TextUpToStep(d, query, index);
  }

  lemma TextUpToStep(d: Dialect, query: Chain, index: nat)
    requires index < |query.links|
    ensures TextUpTo(d, query, index + 1)
         == TextUpTo(d, query, index) + LinkText(d, query.links[index], Groups(d, query.links), index + 1)
  {
  }

  /** The operators that the keyword table of a dialect has an entry for. */
  predicate HasKeyword(d: Dialect, op: SetOp): (r: bool)
    ensures r <==> d.Pg? || Supported(op)
  {
    d.Pg? || (!op.IntersectAll? && !op.ExceptAll?)
  }

  predicate Writable(d: Dialect, links: seq<Piece>)
  {
    forall i :: 0 <= i < |links| ==> HasKeyword(d, links[i].op)
  }

  predicate WritableTo(d: Dialect, links: seq<Piece>, n: nat)
    requires n <= |links|
  {
    forall k :: 0 <= k < n ==> HasKeyword(d, links[k].op)
  }

  /** `op` is the first operator without a keyword. */
  ghost predicate FirstUnwritable(d: Dialect, links: seq<Piece>, op: SetOp)
  {
    !HasKeyword(d, op) && exists i :: 0 <= i < |links| && links[i].op == op && WritableTo(d, links, i)
  }

  lemma Unwritable(d: Dialect, links: seq<Piece>, i: nat)
    requires i < |links| && WritableTo(d, links, i) && !HasKeyword(d, links[i].op)
    ensures FirstUnwritable(d, links, links[i].op) && !Writable(d, links)
  {
  }

  method WriteLinkAt(d: Dialect, query: Chain, sql: seq<Tok>, groups: nat, index: nat) returns (r: seq<Tok>)
    requires index < |query.links| && sql == TextUpTo(d, query, index) && groups == Groups(d, query.links)
    ensures r == TextUpTo(d, query, index + 1)
  {
    r := WriteLink(d, sql, query.links[index], groups, index + 1);
    TextUpToStep(d, query, index);
  }

  method WriteLinks(d: Dialect, query: Chain, head: seq<Tok>, groups: nat) returns (r: Result<seq<Tok>, SetOp>)
    requires head == TextUpTo(d, query, 0) && groups == Groups(d, query.links)
    ensures r.Ok? <==> Writable(d, query.links)
    ensures r.Ok? ==> r.value == TextUpTo(d, query, |query.links|)
    ensures r.Err? ==> FirstUnwritable(d, query.links, r.error)
  {
    var sql := head;
    for index := 0 to |query.links|
      invariant WritableTo(d, query.links, index)
      invariant sql == TextUpTo(d, query, index)
    {
      if !HasKeyword(d, query.links[index].op) {
        Unwritable(d, query.links, index);
        return Err(query.links[index].op);
      }
      sql := WriteLinkAt(d, query, sql, groups, index);
    }
    r := Ok(sql);
  }

  /** Refused exactly when an operator has no keyword in the dialect. */
  method Build(d: Dialect, query: SetQuery) returns (r: Result<seq<Tok>, SetOp>)
    ensures r.Ok? <==> Writable(d, ChainOf(query).links)
    ensures r.Ok? ==> r.value == Text(d, ChainOf(query))
    ensures r.Err? ==> FirstUnwritable(d, ChainOf(query).links, r.error)
    ensures r.Ok? && Filtered(query) ==>
              ReadStatement(d, r.value) == Some((ChosenTree(FoldBranches(query.first, query.links)), []))
  {
    var chain := ChainOf(query);
    var groups := Groups(d, chain.links);
    var sql := WriteOpens(groups);
    sql := WriteBranch(d, sql, chain.first);
    r := WriteLinks(d, chain, sql, groups);
    TextUpToIsText(d, chain, |chain.links|, Opens(groups) + BranchText(d, chain.first), groups);
    assert chain.links[..|chain.links|] == chain.links;
    if r.Ok? && Filtered(query) {
      StatementReads(d, query, []);
      NoMore(r.value);
    }
  }

  // ---- the body of a branch ends where it should ----

  /** Ends a branch when no parenthesis of the branch is open. */
  predicate Ends(t: Tok)
  {
    t == CLOSE || t.Operator? || t.Trailer?
  }

  function Deeper(t: Tok, depth: nat): nat
    requires depth > 0 || t != CLOSE
  {
    if t == OPEN then depth + 1 else if t == CLOSE then depth - 1 else depth
  }

  /** The number of lexemes that belong to the branch. */
  function Scan(ts: seq<Tok>, depth: nat): (n: nat)
    ensures n <= |ts|
    decreases |ts|
  {
    if ts == [] || (depth == 0 && Ends(ts[0])) then 0 else 1 + Scan(ts[1..], Deeper(ts[0], depth))
  }

  /** Closes every parenthesis it opens, and ends the branch nowhere. */
  predicate Balanced(ts: seq<Tok>, depth: nat)
    decreases |ts|
  {
    if ts == [] then depth == 0
    else !(depth == 0 && Ends(ts[0])) && Balanced(ts[1..], Deeper(ts[0], depth))
  }

  predicate Stopped(rest: seq<Tok>)
  {
    rest == [] || Ends(rest[0])
  }

  lemma {:induction false} ScanStops(body: seq<Tok>, depth: nat, rest: seq<Tok>)
    requires Balanced(body, depth) && Stopped(rest)
    ensures Scan(body + rest, depth) == |body|
    decreases |body|
  {
    if body == [] {
      assert body + rest == rest;
    } else {
      assert (body + rest)[1..] == body[1..] + rest;
      ScanStops(body[1..], Deeper(body[0], depth), rest);
    }
  }

  predicate Level(ts: seq<SqlText.Tok>, depth: nat)
  {
    Balanced(Parts(ts), depth)
  }

  lemma Opened(rest: seq<SqlText.Tok>, depth: nat)
    ensures Level([SqlText.LParen] + rest, depth) == Level(rest, depth + 1)
  {
    assert Parts([SqlText.LParen] + rest)[1..] == Parts(rest);
  }

  lemma Shut(rest: seq<SqlText.Tok>, depth: nat)
    ensures Level([SqlText.RParen] + rest, depth + 1) == Level(rest, depth)
  {
    assert Parts([SqlText.RParen] + rest)[1..] == Parts(rest);
  }

  predicate NoParens(ts: seq<SqlText.Tok>)
  {
    forall i :: 0 <= i < |ts| ==> !ts[i].LParen? && !ts[i].RParen?
  }

  lemma {:induction false} Flat(plain: seq<SqlText.Tok>, rest: seq<SqlText.Tok>, depth: nat)
    requires NoParens(plain)
    ensures Level(plain + rest, depth) == Level(rest, depth)
    decreases |plain|
  {
    if plain == [] {
      assert plain + rest == rest;
    } else {
      assert Parts(plain + rest)[1..] == Parts(plain[1..] + rest);
      Flat(plain[1..], rest, depth);
    }
  }

  /** Writing a condition or a scalar leaves the nesting as it was. */
  lemma {:induction false} PrintKeepsLevel(n: Node, rest: seq<SqlText.Tok>, depth: nat)
    ensures Level(SqlReader.Then(n, rest), depth) == Level(rest, depth)
    decreases n, 1
  {
    var end := [SqlText.RParen] + rest;
    match n
    case Column(alias, column) => Flat([SqlText.Alias(alias), SqlText.DotColumn(column)], rest, depth);
    case Param(param) => Flat([SqlText.Capture(param)], rest, depth);
    case Cast(inner) =>
      PrintKeepsLevel(inner, [SqlText.CastLtree] + rest, depth);
      Flat([SqlText.CastLtree], rest, depth);
    case Lit(v) => Flat([SqlText.LitTok(v)], rest, depth);
    case Arith(op, l, r) =>
      InParens(n, l, [SqlText.Sign(op)], r, rest, depth);
    case And(l, r) => Junction(n, l, SqlText.AND, r, rest, depth);
    case Or(l, r) => Junction(n, l, SqlText.OR, r, rest, depth);
    case Not(inner) =>
      PrintKeepsLevel(inner, rest, depth);
      Flat([SqlText.Kw(SqlText.NOT)], SqlReader.Then(inner, rest), depth);
    case Compare(op, l, r) =>
      PrintKeepsLevel(l, [SqlText.Op(op)] + SqlReader.Then(r, rest), depth);
      Flat([SqlText.Op(op)], SqlReader.Then(r, rest), depth);
      PrintKeepsLevel(r, rest, depth);
    case IsNull(inner) =>
      var words := [SqlText.Kw(SqlText.IS), SqlText.Kw(SqlText.NULL)];
      PrintKeepsLevel(inner, words + rest, depth);
      Flat(words, rest, depth);
    case IsNotNull(inner) =>
      var words := [SqlText.Kw(SqlText.IS), SqlText.Kw(SqlText.NOT), SqlText.Kw(SqlText.NULL)];
      PrintKeepsLevel(inner, words + rest, depth);
      Flat(words, rest, depth);
    case _ => GroupKeepsLevel(n, rest, depth);
  }

  lemma {:induction false} InParens(n: Node, l: Node, plain: seq<SqlText.Tok>, r: Node, rest: seq<SqlText.Tok>, depth: nat)
    requires l < n && r < n && NoParens(plain)
    ensures Level([SqlText.LParen] + SqlReader.Then(l, plain + SqlReader.Then(r, [SqlText.RParen] + rest)), depth)
         == Level(rest, depth)
    decreases n, 0
  {
    var right := SqlReader.Then(r, [SqlText.RParen] + rest);
    Opened(SqlReader.Then(l, plain + right), depth);
    PrintKeepsLevel(l, plain + right, depth + 1);
    Flat(plain, right, depth + 1);
    PrintKeepsLevel(r, [SqlText.RParen] + rest, depth + 1);
    Shut(rest, depth);
  }

  lemma {:induction false} Junction(n: Node, l: Node, word: SqlText.Word, r: Node, rest: seq<SqlText.Tok>, depth: nat)
    requires l < n && r < n
    ensures Level([SqlText.LParen]
                  + SqlReader.Then(l, [SqlText.RParen, SqlText.Kw(word), SqlText.LParen]
                                      + SqlReader.Then(r, [SqlText.RParen] + rest)), depth)
         == Level(rest, depth)
    decreases n, 0
  {
    var right := SqlReader.Then(r, [SqlText.RParen] + rest);
    var seam := [SqlText.RParen, SqlText.Kw(word), SqlText.LParen] + right;
    SqlReader.Seam(word, right);
    Opened(SqlReader.Then(l, seam), depth);
    PrintKeepsLevel(l, seam, depth + 1);
    Shut([SqlText.Kw(word)] + ([SqlText.LParen] + right), depth);
    Flat([SqlText.Kw(word)], [SqlText.LParen] + right, depth);
    Opened(right, depth);
    PrintKeepsLevel(r, [SqlText.RParen] + rest, depth + 1);
    Shut(rest, depth);
  }

  /** A group opened by `plain (`, an operand, and a closing parenthesis. */
  lemma Group(plain: seq<SqlText.Tok>, text: seq<SqlText.Tok>, depth: nat)
    requires NoParens(plain)
    ensures Level(plain + [SqlText.LParen] + text, depth) == Level(text, depth + 1)
  {
    assert plain + [SqlText.LParen] + text == plain + ([SqlText.LParen] + text);
    Flat(plain, [SqlText.LParen] + text, depth);
    Opened(text, depth);
  }

  lemma {:induction false} RowsKeepLevel(n: Node, rel: Relation, alias: string, cond: Node, rest: seq<SqlText.Tok>, depth: nat)
    requires cond < n
    ensures Level(SqlText.Base(rel, alias) + SqlReader.Then(cond, [SqlText.RParen] + rest), depth + 1) == Level(rest, depth)
    decreases n, 0, 0
  {
    Flat(SqlText.Base(rel, alias), SqlReader.Then(cond, [SqlText.RParen] + rest), depth + 1);
    PrintKeepsLevel(cond, [SqlText.RParen] + rest, depth + 1);
    Shut(rest, depth);
  }

  lemma {:induction false} GroupKeepsLevel(n: Node, rest: seq<SqlText.Tok>, depth: nat)
    requires n.Call? || n.CountRows? || n.FoldRows? || n.AnyOf? || n.NoneOf? || n.Exists?
    ensures Level(SqlReader.Then(n, rest), depth) == Level(rest, depth)
    decreases n, 0, 2
  {
    var end := [SqlText.RParen] + rest;
    match n
    case Call(f, args) =>
      var text := SqlReader.ThenArgs(n, args, end);
      assert [SqlText.FuncName(f)] + [SqlText.LParen] + text == [SqlText.FuncName(f), SqlText.LParen] + text;
      Group([SqlText.FuncName(f)], text, depth);
      ArgsKeepLevel(n, args, end, depth + 1);
      Shut(rest, depth);
    case CountRows(rel, alias, cond) => CountKeepsLevel(n, rel, alias, cond, rest, depth);
    case FoldRows(agg, arg, rel, alias, cond) => FoldKeepsLevel(n, agg, arg, rel, alias, cond, rest, depth);
    case AnyOf(l, list) =>
      var words := [SqlText.Op(Syntax.Eq), SqlText.Kw(SqlText.ANY)];
      assert words + [SqlText.LParen] == [SqlText.Op(Syntax.Eq), SqlText.Kw(SqlText.ANY), SqlText.LParen];
      ListKeepsLevel(n, l, words, list, rest, depth);
    case NoneOf(l, list) =>
      var words := [SqlText.Op(Syntax.Ne), SqlText.Kw(SqlText.ALL)];
      assert words + [SqlText.LParen] == [SqlText.Op(Syntax.Ne), SqlText.Kw(SqlText.ALL), SqlText.LParen];
      ListKeepsLevel(n, l, words, list, rest, depth);
    case Exists(rel, alias, cond) =>
      var rows := SqlText.Base(rel, alias) + SqlReader.Then(cond, end);
      var words := [SqlText.Kw(SqlText.SELECT), SqlText.Digits("1"), SqlText.Kw(SqlText.FROM)];
      assert [SqlText.Kw(SqlText.EXISTS)] + [SqlText.LParen] + (words + rows) == SqlReader.Then(n, rest);
      Group([SqlText.Kw(SqlText.EXISTS)], words + rows, depth);
      Flat(words, rows, depth + 1);
      RowsKeepLevel(n, rel, alias, cond, rest, depth);
  }

  lemma {:induction false} ListKeepsLevel(n: Node, l: Node, plain: seq<SqlText.Tok>, list: Node, rest: seq<SqlText.Tok>, depth: nat)
    requires l < n && list < n && NoParens(plain)
    ensures Level(SqlReader.Then(l, plain + [SqlText.LParen] + SqlReader.Then(list, [SqlText.RParen] + rest)), depth)
         == Level(rest, depth)
    decreases n, 0, 1
  {
    var inner := SqlReader.Then(list, [SqlText.RParen] + rest);
    PrintKeepsLevel(l, plain + [SqlText.LParen] + inner, depth);
    Group(plain, inner, depth);
    PrintKeepsLevel(list, [SqlText.RParen] + rest, depth + 1);
    Shut(rest, depth);
  }

  lemma CountText(rel: Relation, alias: string, cond: Node, rest: seq<SqlText.Tok>)
    ensures var rows := SqlText.Base(rel, alias) + SqlReader.Then(cond, [SqlText.RParen] + rest);
            SqlReader.Then(SqlText.CountRows(rel, alias, cond), rest)
            == [SqlText.LParen] + ([SqlText.Kw(SqlText.SELECT), SqlText.Kw(SqlText.COUNT)] + [SqlText.LParen]
               + ([SqlText.Sign(Syntax.Mul)] + ([SqlText.RParen] + ([SqlText.Kw(SqlText.FROM)] + rows))))
  {
  }

  lemma {:induction false} CountKeepsLevel(n: Node, rel: Relation, alias: string, cond: Node, rest: seq<SqlText.Tok>, depth: nat)
    requires cond < n && n == SqlText.CountRows(rel, alias, cond)
    ensures Level(SqlReader.Then(n, rest), depth) == Level(rest, depth)
    decreases n, 0, 1
  {
    var rows := SqlText.Base(rel, alias) + SqlReader.Then(cond, [SqlText.RParen] + rest);
    var words := [SqlText.Kw(SqlText.SELECT), SqlText.Kw(SqlText.COUNT)];
    var star := [SqlText.Sign(Syntax.Mul)];
    var after := [SqlText.Kw(SqlText.FROM)] + rows;
    CountText(rel, alias, cond, rest);
    CountOpens(words, star, after, depth);
    Flat([SqlText.Kw(SqlText.FROM)], rows, depth + 1);
    RowsKeepLevel(n, rel, alias, cond, rest, depth);
  }

  lemma CountOpens(words: seq<SqlText.Tok>, star: seq<SqlText.Tok>, after: seq<SqlText.Tok>, depth: nat)
    requires NoParens(words) && NoParens(star)
    ensures Level([SqlText.LParen] + (words + [SqlText.LParen] + (star + ([SqlText.RParen] + after))), depth)
         == Level(after, depth + 1)
  {
    Opened(words + [SqlText.LParen] + (star + ([SqlText.RParen] + after)), depth);
    Group(words, star + ([SqlText.RParen] + after), depth + 1);
    Flat(star, [SqlText.RParen] + after, depth + 2);
    Shut(after, depth + 1);
  }

  lemma FoldText(agg: Syntax.AggFn, arg: Node, rel: Relation, alias: string, cond: Node, rest: seq<SqlText.Tok>)
    ensures var rows := SqlText.Base(rel, alias) + SqlReader.Then(cond, [SqlText.RParen] + rest);
            SqlReader.Then(SqlText.FoldRows(agg, arg, rel, alias, cond), rest)
            == [SqlText.LParen] + ([SqlText.Kw(SqlText.SELECT), SqlText.AggName(agg)] + [SqlText.LParen]
               + SqlReader.Then(arg, [SqlText.RParen, SqlText.Kw(SqlText.FROM)] + rows))
  {
  }

  lemma {:induction false} FoldKeepsLevel(
    n: Node, agg: Syntax.AggFn, arg: Node, rel: Relation, alias: string, cond: Node, rest: seq<SqlText.Tok>, depth: nat
  )
    requires cond < n && arg < n && n == SqlText.FoldRows(agg, arg, rel, alias, cond)
    ensures Level(SqlReader.Then(n, rest), depth) == Level(rest, depth)
    decreases n, 0, 1
  {
    var rows := SqlText.Base(rel, alias) + SqlReader.Then(cond, [SqlText.RParen] + rest);
    var words := [SqlText.Kw(SqlText.SELECT), SqlText.AggName(agg)];
    var close := [SqlText.RParen, SqlText.Kw(SqlText.FROM)] + rows;
    FoldText(agg, arg, rel, alias, cond, rest);
    FoldOpens(words, SqlReader.Then(arg, close), depth);
    PrintKeepsLevel(arg, close, depth + 2);
    ShutFrom(rows, depth);
    RowsKeepLevel(n, rel, alias, cond, rest, depth);
  }

  lemma FoldOpens(words: seq<SqlText.Tok>, text: seq<SqlText.Tok>, depth: nat)
    requires NoParens(words)
    ensures Level([SqlText.LParen] + (words + [SqlText.LParen] + text), depth) == Level(text, depth + 2)
  {
    Opened(words + [SqlText.LParen] + text, depth);
    Group(words, text, depth + 1);
  }

  lemma ShutFrom(rows: seq<SqlText.Tok>, depth: nat)
    ensures Level([SqlText.RParen, SqlText.Kw(SqlText.FROM)] + rows, depth + 2) == Level(rows, depth + 1)
  {
    var from := [SqlText.Kw(SqlText.FROM)] + rows;
    assert [SqlText.RParen, SqlText.Kw(SqlText.FROM)] + rows == [SqlText.RParen] + from;
    Shut(from, depth + 1);
    Flat([SqlText.Kw(SqlText.FROM)], rows, depth + 1);
  }

  lemma {:induction false} ArgsKeepLevel(parent: Node, args: seq<Node>, rest: seq<SqlText.Tok>, depth: nat)
    requires forall i :: 0 <= i < |args| ==> args[i] < parent
    ensures Level(SqlReader.ThenArgs(parent, args, rest), depth) == Level(rest, depth)
    decreases parent, 0, 1, |args|
  {
    if |args| == 1 {
      PrintKeepsLevel(args[0], rest, depth);
    } else if |args| > 1 {
      var more := SqlReader.ThenArgs(parent, args[1..], rest);
      PrintKeepsLevel(args[0], [SqlText.Comma] + more, depth);
      Flat([SqlText.Comma], more, depth);
      ArgsKeepLevel(parent, args[1..], rest, depth);
    }
  }

  lemma PartsAppend(a: seq<SqlText.Tok>, b: seq<SqlText.Tok>)
    ensures Parts(a + b) == Parts(a) + Parts(b)
  {
  }

  /** So a branch ends exactly where its filter does, whatever the filter is. */
  lemma BodyIsBalanced(b: Branch)
    ensures Balanced(Body(b), 0)
  {
    var words := [SqlText.Kw(SqlText.FROM), SqlText.Rel(b.table), SqlText.Kw(SqlText.AS), SqlText.Alias(b.alias)];
    var filter := if b.filter.Some? then [SqlText.Kw(SqlText.WHERE)] + SqlText.Print(b.filter.value) else [];
    PartsAppend(words, filter);
    Assoc([Columns(b.table)], Parts(words), Parts(filter));
    assert Body(b) == [Columns(b.table)] + Parts(words + filter);
    assert Body(b)[1..] == Parts(words + filter);
    Flat(words, filter, 0);
    assert Level([], 0);
    if b.filter.Some? {
      Flat([SqlText.Kw(SqlText.WHERE)], SqlText.Print(b.filter.value), 0);
      SqlReader.ThenIsPrint(b.filter.value, []);
      assert SqlText.Print(b.filter.value) + [] == SqlText.Print(b.filter.value);
      PrintKeepsLevel(b.filter.value, [], 0);
    }
  }

  // ---- reading a branch ----

  /** What a branch selects: rows of a table under an alias, all of them or those its filter keeps. */
  datatype Selection = Selection(table: Relation, alias: string, filter: Option<Node>)

  function Chosen(b: Branch): Selection
  {
    Selection(b.table, b.alias, b.filter)
  }

  function ChosenTree(t: Tree<Branch>): Tree<Selection>
  {
    match t
    case Leaf(branch) => Leaf(Chosen(branch))
    case Combine(op, l, r) => Combine(op, ChosenTree(l), ChosenTree(r))
  }

  function Lexemes(ts: seq<Tok>): seq<SqlText.Tok>
    requires forall t <- ts :: t.Part?
  {
    seq(|ts|, i requires 0 <= i < |ts| => ts[i].lexeme)
  }

  /** The columns of a table FROM that table AS an alias; then nothing, or WHERE and a condition. */
  function ReadBranch(body: seq<Tok>): Option<Selection>
  {
    if |body| < 5 || !body[0].Columns? || exists t <- body[1..] :: !t.Part? then None
    else
      var head, more := Lexemes(body[1..5]), Lexemes(body[5..]);
      if head[0] != SqlText.Kw(SqlText.FROM) || head[1] != SqlText.Rel(body[0].table)
         || head[2] != SqlText.Kw(SqlText.AS) || !head[3].Alias? then None
      else if more == [] then Some(Selection(body[0].table, head[3].alias, None))
      else if more[0] != SqlText.Kw(SqlText.WHERE) then None
      else
        var read := SqlReader.ReadOr(more[1..]);
        if read.Got? && read.rest == [] then Some(Selection(body[0].table, head[3].alias, Some(read.node))) else None
  }

  /** Filters are what predicates compile to. */
  predicate IsFilter(filter: Option<Node>)
  {
    filter.Some? ==> SqlText.IsCondition(filter.value)
  }

  predicate Filtered(query: SetQuery)
  {
    IsFilter(query.first.filter) && forall i :: 0 <= i < |query.links| ==> IsFilter(query.links[i].branch.filter)
  }

  /** A branch reads back as its table, its alias, and its filter or no filter. */
  lemma BodyReads(b: Branch)
    requires IsFilter(b.filter)
    ensures ReadBranch(Body(b)) == Some(Chosen(b))
  {
    var body := Body(b);
    var filter := if b.filter.Some? then [SqlText.Kw(SqlText.WHERE)] + SqlText.Print(b.filter.value) else [];
    assert Lexemes(body[5..]) == filter;
    if b.filter.Some? {
      assert filter[1..] == SqlText.Print(b.filter.value) + [];
      SqlReader.ReadPrinted(b.filter.value, []);
    }
  }

  function ReadLeaves(t: TextTree): Option<Tree<Selection>>
  {
    match t
    case Leaf(body) => (var s :- ReadBranch(body); Some(Leaf(s)))
    case Combine(op, l, r) =>
      var left :- ReadLeaves(l);
      var right :- ReadLeaves(r);
      Some(Combine(op, left, right))
  }

  /** A statement read with the precedence of its dialect, down to the filters of its branches. */
  function ReadStatement(d: Dialect, ts: seq<Tok>): Option<(Tree<Selection>, seq<Tok>)>
  {
    var read := if d.Pg? then ReadUnion(ts) else ReadCompound(ts);
    if read.Lost? then None
    else
      var t :- ReadLeaves(read.tree);
      Some((t, read.rest))
  }

  lemma {:induction false} LeavesRead(first: Branch, links: seq<Link>)
    requires Filtered(SetQuery(first, links))
    ensures ReadLeaves(Fold(Body(first), Pieces(links))) == Some(ChosenTree(FoldBranches(first, links)))
    decreases |links|
  {
    if links == [] {
      BodyReads(first);
    } else {
      var n := |links| - 1;
      LeavesRead(first, links[..n]);
      BodyReads(links[n].branch);
      FoldLast(first, links);
    }
  }

  lemma FoldLast(first: Branch, links: seq<Link>)
    requires links != []
    ensures var n := |links| - 1;
            Fold(Body(first), Pieces(links))
            == Combine(links[n].op, Fold(Body(first), Pieces(links[..n])), Leaf(Body(links[n].branch)))
  {
    assert Pieces(links)[..|links| - 1] == Pieces(links[..|links| - 1]);
  }

  // ---- reading: PostgreSQL, where INTERSECT binds tighter ----

  datatype Read = Got(tree: TextTree, rest: seq<Tok>) | Lost

  predicate Tight(op: SetOp)
  {
    op.Intersect? || op.IntersectAll?
  }

  function ReadUnion(ts: seq<Tok>): (r: Read)
    ensures r.Got? ==> |r.rest| < |ts|
    decreases |ts|, 3
  {
    var left := ReadIntersect(ts);
    if left.Got? then UnionTail(left.tree, left.rest) else Lost
  }

  function UnionTail(acc: TextTree, ts: seq<Tok>): (r: Read)
    ensures r.Got? ==> |r.rest| <= |ts|
    decreases |ts|, 2
  {
    if ts != [] && ts[0].Operator? && !Tight(ts[0].op) then
      var right := ReadIntersect(ts[1..]);
      if right.Got? then UnionTail(Combine(ts[0].op, acc, right.tree), right.rest) else Lost
    else Got(acc, ts)
  }

  function ReadIntersect(ts: seq<Tok>): (r: Read)
    ensures r.Got? ==> |r.rest| < |ts|
    decreases |ts|, 1
  {
    var left := ReadPrimary(ts);
    if left.Got? then IntersectTail(left.tree, left.rest) else Lost
  }

  function IntersectTail(acc: TextTree, ts: seq<Tok>): (r: Read)
    ensures r.Got? ==> |r.rest| <= |ts|
    decreases |ts|, 0
  {
    if ts != [] && ts[0].Operator? && Tight(ts[0].op) then
      var right := ReadPrimary(ts[1..]);
      if right.Got? then IntersectTail(Combine(ts[0].op, acc, right.tree), right.rest) else Lost
    else Got(acc, ts)
  }

  function ReadPrimary(ts: seq<Tok>): (r: Read)
    ensures r.Got? ==> |r.rest| < |ts|
    decreases |ts|, 0
  {
    if ts == [] then Lost
    else if ts[0] == OPEN then
      var inner := ReadUnion(ts[1..]);
      if inner.Got? && inner.rest != [] && inner.rest[0] == CLOSE then Got(inner.tree, inner.rest[1..]) else Lost
    else ReadSelect(ts)
  }

  function ReadSelect(ts: seq<Tok>): (r: Read)
    ensures r.Got? ==> |r.rest| < |ts|
  {
    if ts != [] && ts[0] == SELECT then
      var n := Scan(ts[1..], 0);
      Got(Leaf(ts[1..][..n]), ts[1..][n..])
    else Lost
  }

  // ---- reading: SQLite, one level, no parentheses, no INTERSECT ALL or EXCEPT ALL ----

  predicate Supported(op: SetOp)
  {
    op.Union? || op.UnionAll? || op.Intersect? || op.Except?
  }

  function ReadCompound(ts: seq<Tok>): Read
  {
    var left := ReadSelect(ts);
    if left.Got? then CompoundTail(left.tree, left.rest) else Lost
  }

  function CompoundTail(acc: TextTree, ts: seq<Tok>): Read
    decreases |ts|
  {
    if ts != [] && ts[0].Operator? && Supported(ts[0].op) then
      var right := ReadSelect(ts[1..]);
      if right.Got? then CompoundTail(Combine(ts[0].op, acc, right.tree), right.rest) else Lost
    else Got(acc, ts)
  }

  // ---- text with a continuation ----

  /** A tree with parentheses around every branch and every combination. */
  function GroupThen(t: TextTree, rest: seq<Tok>): seq<Tok>
  {
    match t
    case Leaf(body) => [OPEN, SELECT] + (body + ([CLOSE] + rest))
    case Combine(op, l, r) => [OPEN] + GroupThen(l, [Operator(op)] + GroupThen(r, [CLOSE] + rest))
  }

  predicate SoundLeaves(t: TextTree)
  {
    match t
    case Leaf(body) => Balanced(body, 0)
    case Combine(_, l, r) => SoundLeaves(l) && SoundLeaves(r)
  }

  lemma SelectReads(body: seq<Tok>, rest: seq<Tok>)
    requires Balanced(body, 0) && Stopped(rest)
    ensures ReadSelect([SELECT] + (body + rest)) == Got(Leaf(body), rest)
  {
    ScanStops(body, 0, rest);
    assert ([SELECT] + (body + rest))[1..] == body + rest;
  }

  predicate Finished(rest: seq<Tok>)
  {
    rest == [] || rest[0] == CLOSE || rest[0].Trailer?
  }

  /** A primary in parentheses, and nothing to combine it with, is that primary. */
  lemma ParensRead(t: TextTree, ts: seq<Tok>, rest: seq<Tok>)
    requires ReadUnion(ts) == Got(t, [CLOSE] + rest)
    ensures ReadPrimary([OPEN] + ts) == Got(t, rest)
  {
    assert ([OPEN] + ts)[1..] == ts && ([CLOSE] + rest)[1..] == rest;
  }

  lemma AloneReads(t: TextTree, ts: seq<Tok>, rest: seq<Tok>)
    requires Finished(rest) && ReadPrimary(ts) == Got(t, rest)
    ensures ReadUnion(ts) == Got(t, rest)
  {
    assert ReadIntersect(ts) == IntersectTail(t, rest) == Got(t, rest);
    assert UnionTail(t, rest) == Got(t, rest);
  }

  lemma OpenSelect(text: seq<Tok>)
    ensures [OPEN, SELECT] + text == [OPEN] + ([SELECT] + text)
  {
  }

  lemma LeafReads(body: seq<Tok>, rest: seq<Tok>)
    requires Balanced(body, 0)
    ensures ReadPrimary(GroupThen(Leaf(body), rest)) == Got(Leaf(body), rest)
  {
    var end := [CLOSE] + rest;
    var ts := [SELECT] + (body + end);
    SelectReads(body, end);
    AloneReads(Leaf(body), ts, end);
    ParensRead(Leaf(body), ts, rest);
    OpenSelect(body + end);
  }

  lemma PairReads(op: SetOp, l: TextTree, r: TextTree, ts: seq<Tok>, right: seq<Tok>, rest: seq<Tok>)
    requires Finished(rest)
    requires ReadPrimary(ts) == Got(l, [Operator(op)] + right) && ReadPrimary(right) == Got(r, rest)
    ensures ReadUnion(ts) == Got(Combine(op, l, r), rest)
  {
    var after, both := [Operator(op)] + right, Combine(op, l, r);
    assert after[1..] == right;
    assert IntersectTail(both, rest) == Got(both, rest) && UnionTail(both, rest) == Got(both, rest);
    if Tight(op) {
      assert IntersectTail(l, after) == Got(both, rest);
    } else {
      assert IntersectTail(l, after) == Got(l, after);
      assert ReadIntersect(right) == IntersectTail(r, rest) == Got(r, rest);
      assert UnionTail(l, after) == Got(both, rest);
    }
  }

  /** Full parentheses make precedence irrelevant. */
  lemma {:induction false} GroupReads(t: TextTree, rest: seq<Tok>)
    requires SoundLeaves(t)
    ensures ReadPrimary(GroupThen(t, rest)) == Got(t, rest)
    decreases t
  {
    match t
    case Leaf(body) => LeafReads(body, rest);
    case Combine(op, l, r) =>
      var end := [CLOSE] + rest;
      var right := GroupThen(r, end);
      var ts := GroupThen(l, [Operator(op)] + right);
      GroupReads(r, end);
      GroupReads(l, [Operator(op)] + right);
      PairReads(op, l, r, ts, right, end);
      ParensRead(t, ts, rest);
  }

  lemma BranchThenText(b: seq<Tok>, rest: seq<Tok>)
    ensures BranchText(Syntax.Pg, b) + rest == GroupThen(Leaf(b), rest)
  {
    Assoc([OPEN, SELECT] + b, [CLOSE], rest);
    Assoc([OPEN, SELECT], b, [CLOSE] + rest);
  }

  predicate Sound(first: seq<Tok>, links: seq<Piece>)
  {
    Balanced(first, 0) && SoundPieces(links)
  }

  predicate SoundPieces(links: seq<Piece>)
  {
    forall i :: 0 <= i < |links| ==> Balanced(links[i].body, 0)
  }

  lemma ChainIsSound(query: SetQuery)
    ensures Sound(ChainOf(query).first, ChainOf(query).links)
  {
    BodyIsBalanced(query.first);
    var chain := ChainOf(query);
    forall i | 0 <= i < |chain.links| ensures Balanced(chain.links[i].body, 0) {
      BodyIsBalanced(query.links[i].branch);
    }
  }

  lemma {:induction false} FoldIsSound(first: seq<Tok>, links: seq<Piece>)
    requires Sound(first, links)
    ensures SoundLeaves(Fold(first, links))
    decreases |links|
  {
    if links != [] {
      FoldIsSound(first, links[..|links| - 1]);
    }
  }

  lemma LastPiece(head: seq<Tok>, op: SetOp, b: seq<Tok>, close: seq<Tok>, rest: seq<Tok>)
    ensures head + ([Operator(op)] + BranchText(Syntax.Pg, b) + close) + rest
         == head + ([Operator(op)] + GroupThen(Leaf(b), close + rest))
  {
    var text := BranchText(Syntax.Pg, b);
    BranchThenText(b, close + rest);
    Assoc(head, [Operator(op)] + text + close, rest);
    Assoc([Operator(op)] + text, close, rest);
    Assoc([Operator(op)], text, close + rest);
  }

  /** The leading parentheses and the closing ones after each branch group the branches to the left. */
  lemma {:induction false} PrintedGroups(first: seq<Tok>, links: seq<Piece>, groups: nat, rest: seq<Tok>)
    requires |links| <= groups
    ensures Opens(|links|) + BranchText(Syntax.Pg, first) + LinksText(Syntax.Pg, links, groups) + rest
         == GroupThen(Fold(first, links), rest)
    decreases |links|
  {
    var text := BranchText(Syntax.Pg, first);
    if links == [] {
      assert [] + text + [] == text;
      BranchThenText(first, rest);
    } else {
      var n := |links| - 1;
      var last, inner := links[n], links[..n];
      var piece := [Operator(last.op)] + BranchText(Syntax.Pg, last.body) + [CLOSE];
      var more := [Operator(last.op)] + GroupThen(Leaf(last.body), [CLOSE] + rest);
      var head := Opens(n) + text + LinksText(Syntax.Pg, inner, groups);
      PrintedGroups(first, inner, groups, more);
      LastPiece(head, last.op, last.body, [CLOSE], rest);
      Assoc(Opens(n) + text, LinksText(Syntax.Pg, inner, groups), piece);
      Deep(Opens(n), text, LinksText(Syntax.Pg, links, groups), rest);
    }
  }

  lemma Deep(a: seq<Tok>, b: seq<Tok>, c: seq<Tok>, rest: seq<Tok>)
    ensures ([OPEN] + a) + b + c + rest == [OPEN] + (a + b + c + rest)
  {
  }

  /** The whole text: the branches before the last one in groups, then the last one. */
  lemma PgTextGroups(query: Chain, rest: seq<Tok>)
    requires query.links != []
    ensures var n := |query.links| - 1;
            Text(Syntax.Pg, query) + rest
            == GroupThen(Fold(query.first, query.links[..n]),
                         [Operator(query.links[n].op)] + GroupThen(Leaf(query.links[n].body), rest))
  {
    var n := |query.links| - 1;
    var first, last, inner := query.first, query.links[n], query.links[..n];
    var before, piece := LinksText(Syntax.Pg, inner, n), [Operator(last.op)] + BranchText(Syntax.Pg, last.body) + [];
    PrintedGroups(first, inner, n, [Operator(last.op)] + GroupThen(Leaf(last.body), rest));
    LastPiece(Opens(n) + BranchText(Syntax.Pg, first) + before, last.op, last.body, [], rest);
    assert [] + rest == rest;
    Assoc(Opens(n) + BranchText(Syntax.Pg, first), before, piece);
  }

  lemma OneBranchReads(query: Chain, rest: seq<Tok>)
    requires query.links == [] && Finished(rest) && Sound(query.first, query.links)
    ensures ReadUnion(Text(Syntax.Pg, query) + rest) == Got(Fold(query.first, query.links), rest)
  {
    var leaf := Leaf(query.first);
    BranchThenText(query.first, rest);
    assert Text(Syntax.Pg, query) == BranchText(Syntax.Pg, query.first);
    GroupReads(leaf, rest);
    AloneReads(leaf, BranchText(Syntax.Pg, query.first) + rest, rest);
  }

  lemma LinkedReads(query: Chain, rest: seq<Tok>)
    requires query.links != [] && Finished(rest) && Sound(query.first, query.links)
    ensures ReadUnion(Text(Syntax.Pg, query) + rest) == Got(Fold(query.first, query.links), rest)
  {
    var n := |query.links| - 1;
    var last, left := query.links[n], Fold(query.first, query.links[..n]);
    var leaf := Leaf(last.body);
    var right := GroupThen(leaf, rest);
    FoldIsSound(query.first, query.links[..n]);
    PgTextGroups(query, rest);
    GroupReads(left, [Operator(last.op)] + right);
    GroupReads(leaf, rest);
    PairReads(last.op, left, leaf, GroupThen(left, [Operator(last.op)] + right), right, rest);
  }

  lemma PgReadsPieces(query: SetQuery, rest: seq<Tok>)
    requires Finished(rest)
    ensures var chain := ChainOf(query);
            ReadUnion(Text(Syntax.Pg, chain) + rest) == Got(Fold(chain.first, chain.links), rest)
  {
    ChainIsSound(query);
    if query.links == [] {
      OneBranchReads(ChainOf(query), rest);
    } else {
      LinkedReads(ChainOf(query), rest);
    }
  }

  // ---- the text without grouping parentheses ----

  function BranchThen(d: Dialect, b: seq<Tok>, rest: seq<Tok>): seq<Tok>
  {
    if d.Pg? then GroupThen(Leaf(b), rest) else [SELECT] + (b + rest)
  }

  function FlatThen(d: Dialect, links: seq<Piece>, rest: seq<Tok>): seq<Tok>
  {
    if links == [] then rest
    else [Operator(links[0].op)] + BranchThen(d, links[0].body, FlatThen(d, links[1..], rest))
  }

  lemma BranchThenIsText(d: Dialect, b: seq<Tok>, rest: seq<Tok>)
    ensures BranchText(d, b) + rest == BranchThen(d, b, rest)
  {
    if d.Pg? {
      BranchThenText(b, rest);
    } else {
      Assoc([SELECT], b, rest);
    }
  }

  lemma {:induction false} FlatSnoc(d: Dialect, links: seq<Piece>, last: Piece, rest: seq<Tok>)
    ensures FlatThen(d, links + [last], rest)
         == FlatThen(d, links, [Operator(last.op)] + BranchThen(d, last.body, rest))
    decreases |links|
  {
    if links == [] {
      assert (links + [last])[1..] == [];
    } else {
      assert (links + [last])[1..] == links[1..] + [last];
      FlatSnoc(d, links[1..], last, rest);
    }
  }

  lemma {:induction false} LinksAreFlat(d: Dialect, links: seq<Piece>, rest: seq<Tok>)
    ensures LinksText(d, links, 0) + rest == FlatThen(d, links, rest)
    decreases |links|
  {
    if links != [] {
      var n := |links| - 1;
      var last, inner := links[n], links[..n];
      var more := [Operator(last.op)] + BranchThen(d, last.body, rest);
      assert inner + [last] == links;
      var piece := [Operator(last.op)] + BranchText(d, last.body);
      LinksAreFlat(d, inner, more);
      FlatSnoc(d, inner, last, rest);
      BranchThenIsText(d, last.body, rest);
      Assoc([Operator(last.op)], BranchText(d, last.body), rest);
      Assoc(LinksText(d, inner, 0), piece, rest);
      assert piece + [] == piece;
    }
  }

  /** The left-to-right fold, taken from the front. */
  function FoldFrom(acc: TextTree, links: seq<Piece>): TextTree
    decreases |links|
  {
    if links == [] then acc
    else FoldFrom(Combine(links[0].op, acc, Leaf(links[0].body)), links[1..])
  }

  lemma {:induction false} FoldFromSnoc(acc: TextTree, links: seq<Piece>, last: Piece)
    ensures FoldFrom(acc, links + [last]) == Combine(last.op, FoldFrom(acc, links), Leaf(last.body))
    decreases |links|
  {
    if links == [] {
      assert (links + [last])[1..] == [];
    } else {
      assert (links + [last])[1..] == links[1..] + [last];
      FoldFromSnoc(Combine(links[0].op, acc, Leaf(links[0].body)), links[1..], last);
    }
  }

  lemma {:induction false} FoldBothWays(first: seq<Tok>, links: seq<Piece>)
    ensures Fold(first, links) == FoldFrom(Leaf(first), links)
    decreases |links|
  {
    if links != [] {
      var n := |links| - 1;
      assert links[..n] + [links[n]] == links;
      FoldBothWays(first, links[..n]);
      FoldFromSnoc(Leaf(first), links[..n], links[n]);
    }
  }

  lemma FlatStops(d: Dialect, links: seq<Piece>, rest: seq<Tok>)
    requires Finished(rest)
    ensures Stopped(FlatThen(d, links, rest))
    ensures links != [] ==> FlatThen(d, links, rest)[0] == Operator(links[0].op)
    ensures links != [] ==> FlatThen(d, links, rest)[1..] == BranchThen(d, links[0].body, FlatThen(d, links[1..], rest))
  {
  }

  lemma CompoundStep(acc: TextTree, link: Piece, more: seq<Tok>)
    requires Stopped(more) && Balanced(link.body, 0) && HasKeyword(Syntax.Sqlite, link.op)
    ensures CompoundTail(acc, [Operator(link.op)] + BranchThen(Syntax.Sqlite, link.body, more))
         == CompoundTail(Combine(link.op, acc, Leaf(link.body)), more)
  {
    var branch := BranchThen(Syntax.Sqlite, link.body, more);
    assert ([Operator(link.op)] + branch)[1..] == branch;
    SelectReads(link.body, more);
  }

  lemma {:induction false} CompoundReads(acc: TextTree, links: seq<Piece>, rest: seq<Tok>)
    requires Finished(rest) && SoundPieces(links) && Writable(Syntax.Sqlite, links)
    ensures CompoundTail(acc, FlatThen(Syntax.Sqlite, links, rest)) == Got(FoldFrom(acc, links), rest)
    decreases |links|
  {
    FlatStops(Syntax.Sqlite, links, rest);
    if links != [] {
      var link, more := links[0], FlatThen(Syntax.Sqlite, links[1..], rest);
      FlatStops(Syntax.Sqlite, links[1..], rest);
      CompoundStep(acc, link, more);
      CompoundReads(Combine(link.op, acc, Leaf(link.body)), links[1..], rest);
    }
  }

  lemma SqliteReadsPieces(query: SetQuery, rest: seq<Tok>)
    requires Finished(rest) && Writable(Syntax.Sqlite, ChainOf(query).links)
    ensures var chain := ChainOf(query);
            ReadCompound(Text(Syntax.Sqlite, chain) + rest) == Got(Fold(chain.first, chain.links), rest)
  {
    ChainIsSound(query);
    CompoundText(ChainOf(query), rest);
    FoldBothWays(ChainOf(query).first, ChainOf(query).links);
    CompoundReads(Leaf(ChainOf(query).first), ChainOf(query).links, rest);
  }

  /**
   A PostgreSQL set-operation query of any length reads back, under the grammar in which
   INTERSECT binds tighter, as the left-to-right fold of its branches: each with its table, its
   alias and its filter.
   */
  lemma PgReadsFold(query: SetQuery, rest: seq<Tok>)
    requires Finished(rest) && Filtered(query)
    ensures ReadStatement(Syntax.Pg, Text(Syntax.Pg, ChainOf(query)) + rest)
         == Some((ChosenTree(FoldBranches(query.first, query.links)), rest))
  {
    PgReadsPieces(query, rest);
    LeavesRead(query.first, query.links);
  }

  /** Whatever is written for SQLite, with no parentheses at all, reads back as the same fold. */
  lemma SqliteReadsFold(query: SetQuery, rest: seq<Tok>)
    requires Finished(rest) && Filtered(query) && Writable(Syntax.Sqlite, ChainOf(query).links)
    ensures ReadStatement(Syntax.Sqlite, Text(Syntax.Sqlite, ChainOf(query)) + rest)
         == Some((ChosenTree(FoldBranches(query.first, query.links)), rest))
  {
    SqliteReadsPieces(query, rest);
    LeavesRead(query.first, query.links);
  }

  lemma StatementReads(d: Dialect, query: SetQuery, rest: seq<Tok>)
    requires Finished(rest) && Filtered(query) && Writable(d, ChainOf(query).links)
    ensures ReadStatement(d, Text(d, ChainOf(query)) + rest)
         == Some((ChosenTree(FoldBranches(query.first, query.links)), rest))
  {
    if d.Pg? {
      PgReadsFold(query, rest);
    } else {
      SqliteReadsFold(query, rest);
    }
  }

  /** A chain that is parsed and written for PostgreSQL, and for which SQLite has no text. */
  lemma SqliteLacksAll(a: Branch, b: Branch, op: SetOp)
    requires op.IntersectAll? || op.ExceptAll?
    ensures var q := Step(Source(Some(a)), op, [Source(Some(b))]);
            var links := Pieces([Link(op, b)]);
            && Denotes(q) == Some(FoldBranches(a, [Link(op, b)]))
            && Writable(Syntax.Pg, links) && !Writable(Syntax.Sqlite, links)
  {
    var q, links := Step(Source(Some(a)), op, [Source(Some(b))]), Pieces([Link(op, b)]);
    assert ParseChain(q.args[0]) == Ok(b) && Denotes(q.receiver) == Some(Leaf(a));
    assert links[0] == Piece(op, Body(b));
    assert FoldBranches(a, [Link(op, b)]) == Combine(op, Leaf(a), Leaf(b));
  }

  lemma CompoundText(query: Chain, rest: seq<Tok>)
    requires Finished(rest) && Balanced(query.first, 0)
    ensures ReadCompound(Text(Syntax.Sqlite, query) + rest)
         == CompoundTail(Leaf(query.first), FlatThen(Syntax.Sqlite, query.links, rest))
  {
    SqliteTextIsFlat(query, rest);
    FlatStops(Syntax.Sqlite, query.links, rest);
    SelectReads(query.first, FlatThen(Syntax.Sqlite, query.links, rest));
  }

  lemma SqliteTextIsFlat(query: Chain, rest: seq<Tok>)
    ensures Text(Syntax.Sqlite, query) + rest == [SELECT] + (query.first + FlatThen(Syntax.Sqlite, query.links, rest))
  {
    var links := LinksText(Syntax.Sqlite, query.links, 0);
    NoMore(BranchText(Syntax.Sqlite, query.first) + links);
    Assoc(BranchText(Syntax.Sqlite, query.first), links, rest);
    LinksAreFlat(Syntax.Sqlite, query.links, rest);
    BranchThenIsText(Syntax.Sqlite, query.first, FlatThen(Syntax.Sqlite, query.links, rest));
  }

  // ---- when PostgreSQL could do without the grouping parentheses ----

  function TightRun(acc: TextTree, links: seq<Piece>): (r: (TextTree, seq<Piece>))
    ensures |r.1| <= |links| && (r.1 != [] ==> !Tight(r.1[0].op))
    decreases |links|
  {
    if links != [] && Tight(links[0].op)
    then TightRun(Combine(links[0].op, acc, Leaf(links[0].body)), links[1..])
    else (acc, links)
  }

  /** How PostgreSQL groups ungrouped branches. */
  function LooseRun(acc: TextTree, links: seq<Piece>): TextTree
    decreases |links|
  {
    if links == [] then acc
    else
      var run := TightRun(Leaf(links[0].body), links[1..]);
      LooseRun(Combine(links[0].op, acc, run.0), run.1)
  }

  function Regrouped(first: seq<Tok>, links: seq<Piece>): TextTree
  {
    var run := TightRun(Leaf(first), links);
    LooseRun(run.0, run.1)
  }

  lemma {:induction false} TightReads(acc: TextTree, links: seq<Piece>, rest: seq<Tok>)
    requires SoundPieces(links)
    requires Finished(rest)
    ensures var run := TightRun(acc, links);
            IntersectTail(acc, FlatThen(Syntax.Pg, links, rest)) == Got(run.0, FlatThen(Syntax.Pg, run.1, rest))
    decreases |links|
  {
    FlatStops(Syntax.Pg, links, rest);
    if links != [] && Tight(links[0].op) {
      var leaf, more := Leaf(links[0].body), FlatThen(Syntax.Pg, links[1..], rest);
      GroupReads(leaf, more);
      TightReads(Combine(links[0].op, acc, leaf), links[1..], rest);
    }
  }

  lemma {:induction false} LooseReads(acc: TextTree, links: seq<Piece>, rest: seq<Tok>)
    requires SoundPieces(links)
    requires Finished(rest) && (links != [] ==> !Tight(links[0].op))
    ensures UnionTail(acc, FlatThen(Syntax.Pg, links, rest)) == Got(LooseRun(acc, links), rest)
    decreases |links|
  {
    FlatStops(Syntax.Pg, links, rest);
    if links != [] {
      var leaf, more := Leaf(links[0].body), FlatThen(Syntax.Pg, links[1..], rest);
      GroupReads(leaf, more);
      TightReads(leaf, links[1..], rest);
      var run := TightRun(leaf, links[1..]);
      assert ReadIntersect(GroupThen(leaf, more)) == Got(run.0, FlatThen(Syntax.Pg, run.1, rest));
      TightRunSound(leaf, links[1..]);
      LooseReads(Combine(links[0].op, acc, run.0), run.1, rest);
    }
  }

  /** INTERSECT somewhere after UNION or EXCEPT. */
  predicate TightAfterLoose(links: seq<Piece>)
  {
    exists i, j :: 0 <= i < j < |links| && !Tight(links[i].op) && Tight(links[j].op)
  }

  predicate AnyTight(links: seq<Piece>)
  {
    exists j :: 0 <= j < |links| && Tight(links[j].op)
  }

  /** Every right operand is a single branch. */
  predicate LeftDeep(t: TextTree)
  {
    t.Combine? ==> t.right.Leaf? && LeftDeep(t.left)
  }

  lemma {:induction false} FoldIsLeftDeep(acc: TextTree, links: seq<Piece>)
    ensures LeftDeep(acc) ==> LeftDeep(FoldFrom(acc, links))
    decreases |links|
  {
    if links != [] {
      FoldIsLeftDeep(Combine(links[0].op, acc, Leaf(links[0].body)), links[1..]);
    }
  }

  lemma AnyTightTail(links: seq<Piece>)
    requires links != []
    ensures AnyTight(links) <==> Tight(links[0].op) || AnyTight(links[1..])
    ensures TightAfterLoose(links) <==> (!Tight(links[0].op) && AnyTight(links[1..])) || TightAfterLoose(links[1..])
  {
    var tail := links[1..];
    if j :| 0 <= j < |links| && Tight(links[j].op) {
      assert j > 0 ==> tail[j - 1] == links[j];
    }
    if j :| 0 <= j < |tail| && Tight(tail[j].op) {
      assert links[j + 1] == tail[j];
    }
    if i, j :| 0 <= i < j < |links| && !Tight(links[i].op) && Tight(links[j].op) {
      assert tail[j - 1] == links[j];
      assert i > 0 ==> tail[i - 1] == links[i];
    }
    if i, j :| 0 <= i < j < |tail| && !Tight(tail[i].op) && Tight(tail[j].op) {
      assert links[i + 1] == tail[i] && links[j + 1] == tail[j];
    }
  }

  lemma {:induction false} TightRunPrefix(acc: TextTree, links: seq<Piece>)
    ensures AnyTight(TightRun(acc, links).1) <==> TightAfterLoose(links)
    ensures FoldFrom(acc, links) == FoldFrom(TightRun(acc, links).0, TightRun(acc, links).1)
    ensures !AnyTight(links) ==> TightRun(acc, links) == (acc, links)
    decreases |links|
  {
    if links != [] {
      AnyTightTail(links);
      if Tight(links[0].op) {
        TightRunPrefix(Combine(links[0].op, acc, Leaf(links[0].body)), links[1..]);
      } else if TightAfterLoose(links[1..]) {
        var i, j :| 0 <= i < j < |links[1..]| && !Tight(links[1..][i].op) && Tight(links[1..][j].op);
        assert AnyTight(links[1..]);
      }
    }
  }

  lemma {:induction false} LooseRunFolds(acc: TextTree, links: seq<Piece>)
    requires !AnyTight(links)
    ensures LooseRun(acc, links) == FoldFrom(acc, links)
    decreases |links|
  {
    if links != [] {
      AnyTightTail(links);
      TightRunPrefix(Leaf(links[0].body), links[1..]);
      LooseRunFolds(Combine(links[0].op, acc, Leaf(links[0].body)), links[1..]);
    }
  }

  lemma {:induction false} LooseRunStaysDeep(acc: TextTree, links: seq<Piece>)
    requires !LeftDeep(acc)
    ensures !LeftDeep(LooseRun(acc, links))
    decreases |links|
  {
    if links != [] {
      var run := TightRun(Leaf(links[0].body), links[1..]);
      LooseRunStaysDeep(Combine(links[0].op, acc, run.0), run.1);
    }
  }

  lemma {:induction false} TightRunCombines(acc: TextTree, links: seq<Piece>)
    ensures acc.Combine? || (links != [] && Tight(links[0].op)) ==> TightRun(acc, links).0.Combine?
    decreases |links|
  {
    if links != [] && Tight(links[0].op) {
      TightRunCombines(Combine(links[0].op, acc, Leaf(links[0].body)), links[1..]);
    }
  }

  lemma {:induction false} LooseRunDiffers(acc: TextTree, links: seq<Piece>)
    requires AnyTight(links) && !Tight(links[0].op)
    ensures !LeftDeep(LooseRun(acc, links))
    decreases |links|
  {
    AnyTightTail(links);
    var leaf, tail := Leaf(links[0].body), links[1..];
    var run := TightRun(leaf, tail);
    var both := Combine(links[0].op, acc, run.0);
    TightRunCombines(leaf, tail);
    if Tight(tail[0].op) {
      LooseRunStaysDeep(both, run.1);
    } else {
      assert run == (leaf, tail);
      LooseRunDiffers(both, tail);
    }
  }

  /**
   Without the grouping parentheses PostgreSQL reads the fold if and only if no INTERSECT
   follows a UNION or EXCEPT, so the parentheses cannot be dropped in general.
   */
  lemma PgNeedsGroups(query: SetQuery, rest: seq<Tok>)
    requires Finished(rest)
    ensures var chain := ChainOf(query);
            var flat := BranchText(Syntax.Pg, chain.first) + LinksText(Syntax.Pg, chain.links, 0);
            ReadUnion(flat + rest) == Got(Fold(chain.first, chain.links), rest) <==> !TightAfterLoose(chain.links)
  {
    var chain := ChainOf(query);
    ChainIsSound(query);
    FlatReads(chain, rest);
    var leaf, run := Leaf(chain.first), TightRun(Leaf(chain.first), chain.links);
    FoldBothWays(chain.first, chain.links);
    TightRunPrefix(leaf, chain.links);
    if TightAfterLoose(chain.links) {
      LooseRunDiffers(run.0, run.1);
      FoldIsLeftDeep(leaf, chain.links);
    } else {
      LooseRunFolds(run.0, run.1);
    }
  }

  lemma FlatReads(query: Chain, rest: seq<Tok>)
    requires Finished(rest) && Sound(query.first, query.links)
    ensures var flat := BranchText(Syntax.Pg, query.first) + LinksText(Syntax.Pg, query.links, 0);
            ReadUnion(flat + rest) == Got(Regrouped(query.first, query.links), rest)
  {
    var leaf, more := Leaf(query.first), FlatThen(Syntax.Pg, query.links, rest);
    Assoc(BranchText(Syntax.Pg, query.first), LinksText(Syntax.Pg, query.links, 0), rest);
    LinksAreFlat(Syntax.Pg, query.links, rest);
    BranchThenIsText(Syntax.Pg, query.first, more);
    GroupReads(leaf, more);
    TightReads(leaf, query.links, rest);
    var run := TightRun(leaf, query.links);
    TightRunSound(leaf, query.links);
    LooseReads(run.0, run.1, rest);
  }

  lemma {:induction false} TightRunSound(acc: TextTree, links: seq<Piece>)
    requires SoundPieces(links)
    ensures SoundPieces(TightRun(acc, links).1)
    decreases |links|
  {
    if links != [] && Tight(links[0].op) {
      TightRunSound(Combine(links[0].op, acc, Leaf(links[0].body)), links[1..]);
    }
  }

  // ---- parentheses ----

  /** Never closes what is not open, and leaves nothing open. */
  predicate Paired(ts: seq<Tok>, depth: nat)
    decreases |ts|
  {
    if ts == [] then depth == 0
    else !(depth == 0 && ts[0] == CLOSE) && Paired(ts[1..], Deeper(ts[0], depth))
  }

  lemma {:induction false} PairedBody(body: seq<Tok>, inner: nat, depth: nat, rest: seq<Tok>)
    requires Balanced(body, inner)
    ensures Paired(body + rest, inner + depth) == Paired(rest, depth)
    decreases |body|
  {
    if body == [] {
      assert body + rest == rest;
    } else {
      assert (body + rest)[1..] == body[1..] + rest;
      PairedBody(body[1..], Deeper(body[0], inner), depth, rest);
    }
  }

  lemma PairedStep(t: Tok, rest: seq<Tok>, depth: nat)
    requires depth > 0 || t != CLOSE
    ensures Paired([t] + rest, depth) == Paired(rest, Deeper(t, depth))
  {
    assert ([t] + rest)[1..] == rest;
  }

  lemma {:induction false} PairedGroup(t: TextTree, rest: seq<Tok>, depth: nat)
    requires SoundLeaves(t)
    ensures Paired(GroupThen(t, rest), depth) == Paired(rest, depth)
    decreases t
  {
    var end := [CLOSE] + rest;
    PairedStep(CLOSE, rest, depth + 1);
    match t
    case Leaf(body) =>
      OpenSelect(body + end);
      PairedStep(OPEN, [SELECT] + (body + end), depth);
      PairedStep(SELECT, body + end, depth + 1);
      PairedBody(body, 0, depth + 1, end);
    case Combine(op, l, r) =>
      var right := GroupThen(r, end);
      PairedGroup(r, end, depth + 1);
      PairedStep(Operator(op), right, depth + 1);
      PairedGroup(l, [Operator(op)] + right, depth + 1);
      PairedStep(OPEN, GroupThen(l, [Operator(op)] + right), depth);
  }

  lemma PairedSelect(body: seq<Tok>, more: seq<Tok>)
    requires Balanced(body, 0) && Paired(more, 0)
    ensures Paired([SELECT] + (body + more), 0)
  {
    PairedBody(body, 0, 0, more);
    PairedStep(SELECT, body + more, 0);
  }

  lemma {:induction false} PairedFlat(links: seq<Piece>)
    requires SoundPieces(links)
    ensures Paired(FlatThen(Syntax.Sqlite, links, []), 0)
    decreases |links|
  {
    if links != [] {
      var more := FlatThen(Syntax.Sqlite, links[1..], []);
      var body := links[0].body;
      PairedFlat(links[1..]);
      PairedSelect(body, more);
      PairedStep(Operator(links[0].op), [SELECT] + (body + more), 0);
    }
  }

  lemma PairedPg(query: Chain)
    requires query.links != [] && Sound(query.first, query.links)
    ensures Paired(Text(Syntax.Pg, query) + [], 0)
  {
    var n := |query.links| - 1;
    var last, left := query.links[n], Fold(query.first, query.links[..n]);
    var right := GroupThen(Leaf(last.body), []);
    PgTextGroups(query, []);
    FoldIsSound(query.first, query.links[..n]);
    PairedGroup(left, [Operator(last.op)] + right, 0);
    PairedStep(Operator(last.op), right, 0);
    PairedGroup(Leaf(last.body), [], 0);
  }

  lemma PairedSqlite(query: Chain)
    requires Sound(query.first, query.links)
    ensures Paired(Text(Syntax.Sqlite, query) + [], 0)
  {
    SqliteTextIsFlat(query, []);
    PairedFlat(query.links);
    PairedSelect(query.first, FlatThen(Syntax.Sqlite, query.links, []));
  }

  /** Parentheses balance in both dialects. */
  lemma TextIsPaired(d: Dialect, query: SetQuery)
    ensures Paired(Text(d, ChainOf(query)), 0)
  {
    var chain := ChainOf(query);
    ChainIsSound(query);
    assert Text(d, chain) + [] == Text(d, chain);
    if d.Sqlite? {
      PairedSqlite(chain);
    } else if chain.links != [] {
      PairedPg(chain);
    } else {
      assert Text(d, chain) == BranchText(d, chain.first) + [];
      BranchThenText(chain.first, []);
      PairedGroup(Leaf(chain.first), [], 0);
    }
  }
}
