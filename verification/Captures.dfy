/**
 Bound parameters: numbering them while SQL is rendered, clause by clause and not in text order,
 and supplying their values. Every number written denotes the parameter it was written for.
 */
module Captures {
  import opened Sequences
  import opened Wrappers
  import opened QueryScope
  import Syntax
  import T = SqlText

  /** A Rust identifier; `r#type` and `type` are the same parameter. */
  datatype Ident = Ident(name: string, raw: bool)

  datatype Type = Ltree | OtherType(text: string)

  datatype Bound = Limit | Offset

  datatype Lexeme = Sql(tok: T.Tok) | Word(text: string)

  /** A part of compiled SQL: fixed text, or a parameter that has no number yet. */
  datatype Part = Token(lexeme: Lexeme) | Capture(ident: Ident)

  /** A part of rendered SQL. */
  datatype Out = Fixed(lexeme: Lexeme) | Mark(chars: string)

  /** What does not change while a query function is compiled. */
  datatype Env = Env(kind: Syntax.Kind, ids: seq<Ident>, types: seq<Type>)

  // ---- captures ----

  /** The first position with this name, or the length if there is none. */
  function IndexOf(idents: seq<Ident>, name: string): (i: nat)
    ensures i <= |idents|
    ensures i < |idents| ==> idents[i].name == name
    ensures forall k :: 0 <= k < i ==> idents[k].name != name
  {
    if idents == [] || idents[0].name == name then 0 else 1 + IndexOf(idents[1..], name)
  }

  ghost predicate Distinct(captures: seq<Ident>)
  {
    forall i, j :: 0 <= i < j < |captures| ==> captures[i].name != captures[j].name
  }

  function Interned(captures: seq<Ident>, ident: Ident): (r: seq<Ident>)
    ensures captures <= r && IndexOf(r, ident.name) < |r|
    ensures Distinct(captures) ==> Distinct(r)
  {
    if IndexOf(captures, ident.name) < |captures| then captures
    else
      assert (captures + [ident])[|captures|] == ident;
      captures + [ident]
  }

  function InternedPart(captures: seq<Ident>, part: Part): (r: seq<Ident>)
    ensures captures <= r && (Distinct(captures) ==> Distinct(r))
  {
    if part.Capture? then Interned(captures, part.ident) else captures
  }

  function InternedAll(captures: seq<Ident>, parts: seq<Part>): (r: seq<Ident>)
    ensures captures <= r && (Distinct(captures) ==> Distinct(r))
  {
    if parts == [] then captures else InternedPart(InternedAll(captures, parts[..|parts| - 1]), parts[|parts| - 1])
  }

  predicate Covers(captures: seq<Ident>, parts: seq<Part>)
  {
    forall i :: 0 <= i < |parts| && parts[i].Capture? ==> IndexOf(captures, parts[i].ident.name) < |captures|
  }

  lemma Kept(captures: seq<Ident>, more: seq<Ident>, name: string)
    requires captures <= more && IndexOf(captures, name) < |captures|
    ensures IndexOf(more, name) == IndexOf(captures, name)
  {
    var i := IndexOf(captures, name);
    assert more[i] == captures[i];
    assert forall k :: 0 <= k < i ==> more[k] == captures[k];
    var j := IndexOf(more, name);
    assert j < |captures| ==> more[j] == captures[j];
  }

  lemma CoversMore(captures: seq<Ident>, more: seq<Ident>, parts: seq<Part>)
    requires captures <= more && Covers(captures, parts)
    ensures Covers(more, parts)
  {
    forall i | 0 <= i < |parts| && parts[i].Capture? ensures IndexOf(more, parts[i].ident.name) < |more| {
      Kept(captures, more, parts[i].ident.name);
    }
  }

  lemma {:induction false} InternedCovers(captures: seq<Ident>, parts: seq<Part>)
    ensures Covers(InternedAll(captures, parts), parts)
    decreases |parts|
  {
    if parts != [] {
      var n := |parts| - 1;
      var before := InternedAll(captures, parts[..n]);
      InternedCovers(captures, parts[..n]);
      CoversMore(before, InternedPart(before, parts[n]), parts[..n]);
      CoversLast(InternedPart(before, parts[n]), parts[..n], parts[n]);
      assert parts[..n] + [parts[n]] == parts;
    }
  }

  /** Nothing but the parameters of the text is added, and nothing is ever dropped or moved. */
  lemma {:induction false} InternedAdds(captures: seq<Ident>, parts: seq<Part>)
    ensures captures <= InternedAll(captures, parts)
    ensures forall ident <- InternedAll(captures, parts) :: ident in captures || Capture(ident) in parts
    decreases |parts|
  {
    if parts != [] {
      InternedAdds(captures, parts[..|parts| - 1]);
    }
  }

  lemma CoversLast(captures: seq<Ident>, parts: seq<Part>, part: Part)
    requires Covers(captures, parts) && (part.Capture? ==> IndexOf(captures, part.ident.name) < |captures|)
    ensures Covers(captures, parts + [part])
  {
  }

  // ---- placeholders ----

  /** The parameter with this name is declared as ltree. */
  predicate IsLtree(env: Env, name: string): (r: bool)
    ensures r <==> exists at :: 0 <= at < |env.ids| && at < |env.types| && env.types[at].Ltree?
                      && env.ids[at].name == name && forall k :: 0 <= k < at ==> env.ids[k].name != name
  {
    var at := IndexOf(env.ids, name);
    at < |env.ids| && at < |env.types| && env.types[at].Ltree?
  }

  function Placeholder(env: Env, captures: seq<Ident>, index: nat): string
    requires index < |captures|
  {
    match env.kind
    case Pg => "$" + Decimal(index + 1) + (if IsLtree(env, captures[index].name) then "::ltree" else "")
    case Sqlite => "?" + Decimal(index + 1)
  }

  function Shown(env: Env, captures: seq<Ident>, part: Part): Out
    requires part.Capture? ==> IndexOf(captures, part.ident.name) < |captures|
  {
    match part
    case Token(lexeme) => Fixed(lexeme)
    case Capture(ident) => Mark(Placeholder(env, captures, IndexOf(captures, ident.name)))
  }

  /** Text as it must look once the captures are final. */
  function ShownAll(env: Env, captures: seq<Ident>, parts: seq<Part>): (r: seq<Out>)
    requires Covers(captures, parts)
    ensures |r| == |parts| && forall i :: 0 <= i < |r| ==> r[i] == Shown(env, captures, parts[i])
  {
    seq(|parts|, i requires 0 <= i < |parts| => Shown(env, captures, parts[i]))
  }

  /** Rendering more never changes a number that is already written. */
  lemma NumbersAreFinal(env: Env, captures: seq<Ident>, more: seq<Ident>, parts: seq<Part>)
    requires captures <= more && Covers(captures, parts)
    ensures Covers(more, parts) && ShownAll(env, more, parts) == ShownAll(env, captures, parts)
  {
    CoversMore(captures, more, parts);
    forall i | 0 <= i < |parts| && parts[i].Capture?
      ensures IndexOf(more, parts[i].ident.name) == IndexOf(captures, parts[i].ident.name)
    {
      Kept(captures, more, parts[i].ident.name);
    }
  }

  lemma ShownAppend(env: Env, captures: seq<Ident>, a: seq<Part>, b: seq<Part>)
    requires Covers(captures, a) && Covers(captures, b)
    ensures Covers(captures, a + b)
    ensures ShownAll(env, captures, a + b) == ShownAll(env, captures, a) + ShownAll(env, captures, b)
  {
  }

  // ---- reading placeholders ----

  predicate IsDigit(c: char)
  {
    '0' <= c <= '9'
  }

  function Digits(s: string): (r: string)
    ensures |r| <= |s|
  {
    if s == "" || !IsDigit(s[0]) then "" else [s[0]] + Digits(s[1..])
  }

  /** The number a placeholder holds, and whether it is cast to ltree. */
  function ReadMark(kind: Syntax.Kind, chars: string): Option<(int, bool)>
  {
    if chars == "" || chars[0] != (if kind.Pg? then '$' else '?') then None
    else
      var digits := Digits(chars[1..]);
      var cast := chars[1..][|digits|..];
      if digits == "" || (cast != "" && (kind.Sqlite? || cast != "::ltree")) then None
      else Some((DecimalValue(digits), cast != ""))
  }

  lemma {:induction false} DigitsOf(s: string, rest: string)
    requires forall i :: 0 <= i < |s| ==> IsDigit(s[i])
    requires rest == "" || !IsDigit(rest[0])
    ensures Digits(s + rest) == s
    decreases |s|
  {
    if s == "" {
      assert s + rest == rest;
    } else {
      assert (s + rest)[1..] == s[1..] + rest;
      DigitsOf(s[1..], rest);
    }
  }

  lemma PlaceholderReads(env: Env, captures: seq<Ident>, index: nat)
    requires index < |captures|
    ensures ReadMark(env.kind, Placeholder(env, captures, index))
         == Some((index + 1, env.kind.Pg? && IsLtree(env, captures[index].name)))
  {
    var chars, number := Placeholder(env, captures, index), Decimal(index + 1);
    var cast := if env.kind.Pg? && IsLtree(env, captures[index].name) then "::ltree" else "";
    assert chars[1..] == number + cast;
    DigitsOf(number, cast);
    assert (number + cast)[|number|..] == cast;
    DecimalReads(index + 1);
  }

  /** The parameter a rendered part denotes, by the final captures; `None` for a bad placeholder. */
  function Denoted(kind: Syntax.Kind, captures: seq<Ident>, out: Out): Option<Part>
  {
    match out
    case Fixed(lexeme) => Some(Token(lexeme))
    case Mark(chars) =>
      var number := ReadMark(kind, chars);
      if number.Some? && 1 <= number.value.0 <= |captures| then Some(Capture(captures[number.value.0 - 1])) else None
  }

  predicate SamePart(a: Part, b: Part)
  {
    a == b || (a.Capture? && b.Capture? && a.ident.name == b.ident.name)
  }

  /** Placeholder k denotes final capture k - 1, and that is the parameter it was written for. */
  lemma ShownDenotes(env: Env, captures: seq<Ident>, parts: seq<Part>, i: nat)
    requires Covers(captures, parts) && i < |parts|
    ensures var denoted := Denoted(env.kind, captures, ShownAll(env, captures, parts)[i]);
            denoted.Some? && SamePart(denoted.value, parts[i])
  {
    if parts[i].Capture? {
      PlaceholderReads(env, captures, IndexOf(captures, parts[i].ident.name));
    }
  }

  // ---- any run of renders ----

  /** What each step writes, rendered one after the other, and the captures at the end. */
  function Run(env: Env, captures: seq<Ident>, steps: seq<seq<Part>>): (r: (seq<seq<Out>>, seq<Ident>))
    ensures |r.0| == |steps| && captures <= r.1
    ensures Distinct(captures) ==> Distinct(r.1)
    decreases |steps|
  {
    if steps == [] then ([], captures)
    else
      var after := InternedAll(captures, steps[0]);
      InternedCovers(captures, steps[0]);
      var rest := Run(env, after, steps[1..]);
      ([ShownAll(env, after, steps[0])] + rest.0, rest.1)
  }

  /**
   Over any sequence of renders, whatever is emitted anywhere denotes, by the captures of the
   finished statement, exactly what it was rendered from.
   */
  lemma {:induction false} RunDenotes(env: Env, captures: seq<Ident>, steps: seq<seq<Part>>, step: nat, i: nat)
    requires step < |steps| && i < |steps[step]|
    ensures var run := Run(env, captures, steps);
            && |run.0[step]| == |steps[step]|
            && Denoted(env.kind, run.1, run.0[step][i]).Some?
            && SamePart(Denoted(env.kind, run.1, run.0[step][i]).value, steps[step][i])
    decreases |steps|
  {
    var after := InternedAll(captures, steps[0]);
    InternedCovers(captures, steps[0]);
    if step == 0 {
      var last := Run(env, captures, steps).1;
      NumbersAreFinal(env, after, last, steps[0]);
      ShownDenotes(env, last, steps[0], i);
    } else {
      RunDenotes(env, after, steps[1..], step - 1, i);
    }
  }

  // ---- the compiler's state ----

  datatype Integer = Literal(text: string) | Param(ident: Ident)

  function IntegerText(i: Integer): seq<Part>
  {
    match i
    case Literal(text) => [Token(Word(text))]
    case Param(ident) => [Capture(ident)]
  }

  /** A parameter used as a bound. */
  type Use = (Ident, Bound)

  function UsesOf(value: Integer, bound: Bound): seq<Use>
  {
    if value.Param? then [(value.ident, bound)] else []
  }

  /** What the first entry for this name says. */
  function BoundOf(marks: seq<Use>, name: string): Option<Bound>
  {
    if marks == [] then None
    else if marks[0].0.name == name then Some(marks[0].1)
    else BoundOf(marks[1..], name)
  }

  function Marked(marks: seq<Use>, use: Use): seq<Use>
  {
    if BoundOf(marks, use.0.name).None? then marks + [use] else marks
  }

  /** The marks after these uses, one after the other. */
  function MarkedAll(marks: seq<Use>, uses: seq<Use>): seq<Use>
    decreases |uses|
  {
    if uses == [] then marks else Marked(MarkedAll(marks, uses[..|uses| - 1]), uses[|uses| - 1])
  }

  lemma {:induction false} BoundAppend(a: seq<Use>, b: seq<Use>, name: string)
    ensures BoundOf(a + b, name) == if BoundOf(a, name).Some? then BoundOf(a, name) else BoundOf(b, name)
    decreases |a|
  {
    if a == [] {
      assert a + b == b;
    } else {
      assert (a + b)[1..] == a[1..] + b;
      BoundAppend(a[1..], b, name);
    }
  }

  /** The first use of a parameter as a bound decides its role; later uses and other parameters change nothing. */
  lemma {:induction false} FirstUseDecides(marks: seq<Use>, uses: seq<Use>, name: string)
    ensures BoundOf(MarkedAll(marks, uses), name)
         == if BoundOf(marks, name).Some? then BoundOf(marks, name) else BoundOf(uses, name)
    decreases |uses|
  {
    if uses != [] {
      var init, last := uses[..|uses| - 1], uses[|uses| - 1];
      FirstUseDecides(marks, init, name);
      assert init + [last] == uses;
      BoundAppend(init, [last], name);
      BoundAppend(MarkedAll(marks, init), [last], name);
    }
  }

  lemma {:induction false} MarkedAppend(marks: seq<Use>, a: seq<Use>, b: seq<Use>)
    ensures MarkedAll(marks, a + b) == MarkedAll(MarkedAll(marks, a), b)
    decreases |b|
  {
    if b == [] {
      assert a + b == a;
    } else {
      assert (a + b)[..|a + b| - 1] == a + b[..|b| - 1];
      MarkedAppend(marks, a, b[..|b| - 1]);
    }
  }

  /** An expression of a list, with DESC after it or not. */
  datatype Item = Item(sql: seq<Part>, desc: bool)

  datatype Shape = Group | Order(desc: bool)

  datatype WindowPart = WindowPart(sql: seq<Part>, shape: Shape)

  datatype Head =
    | Keyword(word: string)
    | Call(word: string, sql: seq<Part>)
    | Shift(open: string, sql: seq<Part>, offset: Integer)

  datatype LimitClause = NoLimit | One | AtMost(value: Integer)

  datatype Qualify = Qualify(clauses: seq<Item>, limit: LimitClause, offset: Option<Integer>, locks: seq<Lexeme>)

  datatype Assign = Assign(column: string, value: seq<Part>)

  function HeadUses(head: Head): seq<Use>
  {
    if head.Shift? then UsesOf(head.offset, Offset) else []
  }

  function LimitUses(limit: LimitClause): seq<Use>
  {
    if limit.AtMost? then UsesOf(limit.value, Limit) else []
  }

  function OffsetUses(offset: Option<Integer>): seq<Use>
  {
    if offset.Some? then UsesOf(offset.value, Offset) else []
  }

  /**
   What a query notes about its bounds: a parameter that has no role yet gets that of LIMIT, or else
   that of OFFSET; a window function's offset is an OFFSET.
   */
  lemma BoundsNoted(marks: seq<Use>, limit: LimitClause, offset: Option<Integer>, name: string)
    ensures BoundOf(MarkedAll(marks, LimitUses(limit) + OffsetUses(offset)), name) ==
            if BoundOf(marks, name).Some? then BoundOf(marks, name)
            else if limit.AtMost? && limit.value.Param? && limit.value.ident.name == name then Some(Limit)
            else if offset.Some? && offset.value.Param? && offset.value.ident.name == name then Some(Offset)
            else None
  {
    FirstUseDecides(marks, LimitUses(limit) + OffsetUses(offset), name);
    BoundAppend(LimitUses(limit), OffsetUses(offset), name);
  }

  lemma HeadNoted(marks: seq<Use>, head: Head, name: string)
    ensures BoundOf(MarkedAll(marks, HeadUses(head)), name) ==
            if BoundOf(marks, name).Some? then BoundOf(marks, name)
            else if head.Shift? && head.offset.Param? && head.offset.ident.name == name then Some(Offset)
            else None
  {
    FirstUseDecides(marks, HeadUses(head), name);
  }

  function W(text: string): seq<Part>
  {
    [Token(Word(text))]
  }

  function ItemText(item: Item): seq<Part>
  {
    item.sql + (if item.desc then W(" DESC") else [])
  }

  function Joined(items: seq<Item>): seq<Part>
  {
    if items == [] then []
    else
      var n := |items| - 1;
      Joined(items[..n]) + (if n > 0 then W(", ") else []) + ItemText(items[n])
  }

  function Groups(parts: seq<WindowPart>): (r: seq<Item>)
    ensures forall i :: 0 <= i < |r| ==> !r[i].desc
  {
    if parts == [] then []
    else
      var n := |parts| - 1;
      Groups(parts[..n]) + (if parts[n].shape.Group? then [Item(parts[n].sql, false)] else [])
  }

  function Orders(parts: seq<WindowPart>): seq<Item>
  {
    if parts == [] then []
    else
      var n := |parts| - 1;
      Orders(parts[..n]) + (if parts[n].shape.Order? then [Item(parts[n].sql, parts[n].shape.desc)] else [])
  }

  /** PARTITION BY all groups, then ORDER BY all orders, in whatever order the chain gives them. */
  function SpecText(parts: seq<WindowPart>): seq<Part>
  {
    ClausesText(Groups(parts), Orders(parts))
  }

  function ClausesText(groups: seq<Item>, orders: seq<Item>): seq<Part>
  {
    if orders == [] then GroupsText(groups)
    else GroupsText(groups) + (if groups != [] then W(" ") else []) + W("ORDER BY ") + Joined(orders)
  }

  function GroupsText(groups: seq<Item>): seq<Part>
  {
    if groups == [] then [] else W("PARTITION BY ") + Joined(groups)
  }

  function HeadText(head: Head): seq<Part>
  {
    match head
    case Keyword(word) => W(word)
    case Call(word, sql) => W(word) + sql + W(") OVER (")
    case Shift(open, sql, offset) => W(open) + sql + W(", ") + IntegerText(offset) + W(") OVER (")
  }

  function LimitText(kind: Syntax.Kind, q: Qualify): seq<Part>
  {
    match q.limit
    case NoLimit => if kind.Sqlite? && q.offset.Some? then W(" LIMIT ") + W("-1") else []
    case One => W(" LIMIT ") + W("1")
    case AtMost(value) => W(" LIMIT ") + IntegerText(value)
  }

  function Tokens(lexemes: seq<Lexeme>): (r: seq<Part>)
    ensures |r| == |lexemes| && forall i :: 0 <= i < |r| ==> r[i] == Token(lexemes[i])
  {
    seq(|lexemes|, i requires 0 <= i < |lexemes| => Token(lexemes[i]))
  }

  function OrderText(clauses: seq<Item>): seq<Part>
  {
    if clauses == [] then [] else W(" ORDER BY ") + Joined(clauses)
  }

  function QualifyText(kind: Syntax.Kind, q: Qualify): seq<Part>
  {
    OrderText(q.clauses) + LimitText(kind, q)
    + (if q.offset.Some? then W(" OFFSET ") + IntegerText(q.offset.value) else [])
    + Tokens(q.locks)
  }

  /** The text `outs` is `parts`, under these captures and every later one. */
  ghost predicate Renders(env: Env, captures: seq<Ident>, parts: seq<Part>, outs: seq<Out>)
  {
    Covers(captures, parts) && outs == ShownAll(env, captures, parts)
  }

  lemma RendersMore(env: Env, captures: seq<Ident>, more: seq<Ident>, parts: seq<Part>, outs: seq<Out>)
    requires captures <= more && Renders(env, captures, parts, outs)
    ensures Renders(env, more, parts, outs)
  {
    NumbersAreFinal(env, captures, more, parts);
  }

  lemma RendersBoth(
    env: Env, captures: seq<Ident>, a: seq<Part>, x: seq<Out>, b: seq<Part>, y: seq<Out>
  )
    requires Renders(env, captures, a, x) && Renders(env, captures, b, y)
    ensures Renders(env, captures, a + b, x + y)
  {
    ShownAppend(env, captures, a, b);
  }

  /** No parameter is marked twice. */
  ghost predicate Once(marks: seq<Use>)
  {
    forall i, j :: 0 <= i < j < |marks| ==> marks[i].0.name != marks[j].0.name
  }

  lemma {:induction false} Unmarked(marks: seq<Use>, name: string)
    ensures BoundOf(marks, name).None? <==> forall i :: 0 <= i < |marks| ==> marks[i].0.name != name
    decreases |marks|
  {
    if marks != [] {
      Unmarked(marks[1..], name);
      assert marks == [marks[0]] + marks[1..];
    }
  }

  class State {
    const env: Env
    var captures: seq<Ident>
    var nonnegative: seq<Use>

    ghost predicate Valid()
      reads this
    {
      && Distinct(captures)
      && Once(nonnegative)
    }

    constructor (env: Env)
      ensures Valid() && this.env == env && captures == [] && nonnegative == []
    {
      this.env := env;
      captures := [];
      nonnegative := [];
    }

    method Intern(ident: Ident) returns (index: nat)
      requires Valid()
      modifies this`captures
      ensures Valid() && captures == Interned(old(captures), ident)
      ensures index == IndexOf(captures, ident.name) < |captures|
    {
      index := 0;
      while index < |captures| && captures[index].name != ident.name
        invariant index <= |captures|
        invariant forall k :: 0 <= k < index ==> captures[k].name != ident.name
      {
        index := index + 1;
      }
      if index == |captures| {
        captures := captures + [ident];
      }
    }

    /** Appends one part to text already rendered. */
    method RenderPart(part: Part, ghost done: seq<Part>, tokens: seq<Out>) returns (r: seq<Out>)
      requires Valid() && Renders(env, captures, done, tokens)
      modifies this`captures
      ensures Valid() && captures == InternedPart(old(captures), part)
      ensures Renders(env, captures, done + [part], r)
    {
      match part
      case Token(lexeme) =>
        r := [Fixed(lexeme)];
        RendersBoth(env, captures, done, tokens, [part], r);
        r := tokens + r;
      case Capture(ident) =>
        ghost var before := captures;
        var index := Intern(ident);
        RendersMore(env, before, captures, done, tokens);
        r := [Mark(Placeholder(env, captures, index))];
        RendersBoth(env, captures, done, tokens, [part], r);
        r := tokens + r;
    }

    /** Numbers every parameter and returns text that stays right. */
    method Render(parts: seq<Part>) returns (tokens: seq<Out>)
      requires Valid()
      modifies this`captures
      ensures Valid() && captures == InternedAll(old(captures), parts)
      ensures Renders(env, captures, parts, tokens)
    {
      tokens := [];
      for at := 0 to |parts|
        invariant Valid() && captures == InternedAll(old(captures), parts[..at])
        invariant Renders(env, captures, parts[..at], tokens)
      {
        tokens := RenderPart(parts[at], parts[..at], tokens);
        InternedNext(old(captures), parts, at);
      }
      assert parts[..|parts|] == parts;
    }

    /** A LIMIT or OFFSET value; a parameter used here is bound as one that must not be negative. */
    method RenderInteger(value: Integer, bound: Bound) returns (token: seq<Out>)
      requires Valid()
      modifies this
      ensures Valid() && captures == InternedAll(old(captures), IntegerText(value))
      ensures Renders(env, captures, IntegerText(value), token)
      ensures nonnegative == MarkedAll(old(nonnegative), UsesOf(value, bound))
    {
      match value
      case Literal(text) =>
        token := [Fixed(Word(text))];
        assert IntegerText(value)[..0] == [];
      case Param(ident) =>
        assert IntegerText(value)[..0] == [];
        assert UsesOf(value, bound)[..0] == [];
        var index := Intern(ident);
        MarkNonnegative(ident, bound);
        token := [Mark(Placeholder(env, captures, index))];
    }

    /** A parameter gets a mark when it has none; the marks of the others stay what they are. */
    method MarkNonnegative(ident: Ident, bound: Bound)
      requires Valid()
      modifies this`nonnegative
      ensures Valid() && nonnegative == Marked(old(nonnegative), (ident, bound))
      ensures forall name: string ::
        var before := BoundOf(old(nonnegative), name);
        BoundOf(nonnegative, name) == if name == ident.name && before.None? then Some(bound) else before
    {
      Unmarked(nonnegative, ident.name);
      forall name: string
        ensures BoundOf(nonnegative + [(ident, bound)], name) ==
          if BoundOf(nonnegative, name).Some? then BoundOf(nonnegative, name)
          else if name == ident.name then Some(bound) else None
      {
        BoundAppend(nonnegative, [(ident, bound)], name);
      }
      if forall i :: 0 <= i < |nonnegative| ==> nonnegative[i].0.name != ident.name {
        nonnegative := nonnegative + [(ident, bound)];
      }
    }

    /** Renders every item in turn; each keeps its meaning while later ones are numbered. */
    method RenderItems(items: seq<Item>) returns (outs: seq<seq<Out>>)
      requires Valid()
      modifies this`captures
      ensures Valid() && captures == InternedItems(old(captures), items)
      ensures RendersEach(env, captures, items, outs)
    {
      outs := [];
      for at := 0 to |items|
        invariant Valid() && captures == InternedItems(old(captures), items[..at])
        invariant RendersEach(env, captures, items[..at], outs)
      {
        assert items[..at + 1] == items[..at] + [items[at]];
        ghost var before := captures;
        var tokens := Render(items[at].sql);
        RendersEachMore(env, before, captures, items[..at], outs);
        outs := outs + [tokens];
      }
      assert items[..|items|] == items;
    }

    /** Renders while the lists already rendered stay right. */
    method RenderBeside(
      sql: seq<Part>, ghost group: seq<Item>, groups: seq<seq<Out>>, ghost order: seq<Item>, orders: seq<seq<Out>>
    ) returns (tokens: seq<Out>)
      requires Valid() && RendersEach(env, captures, group, groups) && RendersEach(env, captures, order, orders)
      modifies this`captures
      ensures Valid() && captures == InternedAll(old(captures), sql) && Renders(env, captures, sql, tokens)
      ensures RendersEach(env, captures, group, groups) && RendersEach(env, captures, order, orders)
    {
      ghost var before := captures;
      tokens := Render(sql);
      RendersEachMore(env, before, captures, group, groups);
      RendersEachMore(env, before, captures, order, orders);
    }

    /** PARTITION BY and ORDER BY: numbered in chain order, written groups first. */
    method RenderSpec(parts: seq<WindowPart>) returns (output: seq<Out>)
      requires Valid()
      modifies this`captures
      ensures Valid() && captures == InternedSpec(old(captures), parts)
      ensures Renders(env, captures, SpecText(parts), output)
    {
      var groups: seq<seq<Out>>, orders: seq<seq<Out>>, order: seq<Item> := [], [], [];
      ghost var group: seq<Item> := [];
      for at := 0 to |parts|
        invariant Valid() && captures == InternedSpec(old(captures), parts[..at])
        invariant group == Groups(parts[..at]) && order == Orders(parts[..at])
        invariant RendersEach(env, captures, group, groups) && RendersEach(env, captures, order, orders)
      {
        SpecNext(old(captures), parts, at);
        var sql := RenderBeside(parts[at].sql, group, groups, order, orders);
        if parts[at].shape.Group? {
          group, groups := group + [Item(parts[at].sql, false)], groups + [sql];
        } else {
          order, orders := order + [Item(parts[at].sql, parts[at].shape.desc)], orders + [sql];
        }
      }
      assert parts[..|parts|] == parts;
      output := WriteSpec(env, captures, groups, seq(|order|, i requires 0 <= i < |order| => order[i].desc), orders, group, order);
    }

    method RenderHead(head: Head) returns (output: seq<Out>)
      requires Valid()
      modifies this
      ensures Valid() && old(captures) <= captures
      ensures Renders(env, captures, HeadText(head), output)
      ensures nonnegative == MarkedAll(old(nonnegative), HeadUses(head))
    {
      match head
      case Keyword(word) =>
        output := [Fixed(Word(word))];
      case Call(word, sql) =>
        var tokens := Render(sql);
        output := [Fixed(Word(word))];
        RendersBoth(env, captures, W(word), output, sql, tokens);
        output := PutWord(env, captures, W(word) + sql, output + tokens, ") OVER (");
      case Shift(open, sql, offset) =>
        var tokens := Render(sql);
        ghost var before := captures;
        output := [Fixed(Word(open))];
        RendersBoth(env, captures, W(open), output, sql, tokens);
        output := PutWord(env, captures, W(open) + sql, output + tokens, ", ");
        var number := RenderInteger(offset, Offset);
        ghost var parts := W(open) + sql + W(", ");
        RendersMore(env, before, captures, parts, output);
        RendersBoth(env, captures, parts, output, IntegerText(offset), number);
        output := PutWord(env, captures, parts + IntegerText(offset), output + number, ") OVER (");
    }

    method RenderWindow(head: Head, parts: seq<WindowPart>) returns (value: seq<Out>)
      requires Valid()
      modifies this
      ensures Valid() && old(captures) <= captures
      ensures Renders(env, captures, HeadText(head) + SpecText(parts) + W(")"), value)
      ensures nonnegative == MarkedAll(old(nonnegative), HeadUses(head))
    {
      value := RenderHead(head);
      ghost var before := captures;
      var spec := RenderSpec(parts);
      RendersMore(env, before, captures, HeadText(head), value);
      RendersBoth(env, captures, HeadText(head), value, SpecText(parts), spec);
      value := PutWord(env, captures, HeadText(head) + SpecText(parts), value + spec, ")");
    }

    /** SQLite has no OFFSET without a LIMIT, so it gets the one that limits nothing. */
    method RenderLimit(q: Qualify) returns (value: seq<Out>)
      requires Valid()
      modifies this
      ensures Valid() && captures == InternedAll(old(captures), LimitText(env.kind, q))
      ensures Renders(env, captures, LimitText(env.kind, q), value)
      ensures nonnegative == MarkedAll(old(nonnegative), LimitUses(q.limit))
    {
      InternedWords(captures, LimitText(env.kind, q));
      match q.limit
      case NoLimit =>
        value := if env.kind.Sqlite? && q.offset.Some? then [Fixed(Word(" LIMIT ")), Fixed(Word("-1"))] else [];
      case One =>
        value := [Fixed(Word(" LIMIT ")), Fixed(Word("1"))];
      case AtMost(limit) =>
        InternedAppend(captures, W(" LIMIT "), IntegerText(limit));
        InternedWords(captures, W(" LIMIT "));
        var number := RenderInteger(limit, Limit);
        value := [Fixed(Word(" LIMIT "))];
        RendersBoth(env, captures, W(" LIMIT "), value, IntegerText(limit), number);
        value := value + number;
    }

    method RenderOrder(clauses: seq<Item>) returns (value: seq<Out>)
      requires Valid()
      modifies this`captures
      ensures Valid() && captures == InternedItems(old(captures), clauses)
      ensures Renders(env, captures, OrderText(clauses), value)
    {
      value := [];
      var outs := RenderItems(clauses);
      if clauses != [] {
        value := [Fixed(Word(" ORDER BY "))];
        var descs := seq(|clauses|, i requires 0 <= i < |clauses| => clauses[i].desc);
        var list := WriteJoined(env, captures, descs, outs, clauses);
        RendersBoth(env, captures, W(" ORDER BY "), value, Joined(clauses), list);
        value := value + list;
      }
    }

    method RenderQualify(q: Qualify) returns (value: seq<Out>)
      requires Valid()
      modifies this
      ensures Valid() && old(captures) <= captures
      ensures Renders(env, captures, QualifyText(env.kind, q), value)
      ensures nonnegative == MarkedAll(old(nonnegative), LimitUses(q.limit) + OffsetUses(q.offset))
    {
      MarkedAppend(nonnegative, LimitUses(q.limit), OffsetUses(q.offset));
      value := RenderOrder(q.clauses);
      ghost var parts := OrderText(q.clauses);
      ghost var before := captures;
      var limit := RenderLimit(q);
      RendersMore(env, before, captures, parts, value);
      RendersBoth(env, captures, parts, value, LimitText(env.kind, q), limit);
      value := value + limit;
      parts := parts + LimitText(env.kind, q);
      value := RenderOffset(q.offset, parts, value);
      parts := parts + (if q.offset.Some? then W(" OFFSET ") + IntegerText(q.offset.value) else []);
      var locks := seq(|q.locks|, i requires 0 <= i < |q.locks| => Fixed(q.locks[i]));
      assert Renders(env, captures, Tokens(q.locks), locks);
      RendersBoth(env, captures, parts, value, Tokens(q.locks), locks);
      value := value + locks;
    }

    /** Appends the OFFSET clause, if there is one, to text already rendered. */
    method RenderOffset(offset: Option<Integer>, ghost parts: seq<Part>, outs: seq<Out>) returns (value: seq<Out>)
      requires Valid() && Renders(env, captures, parts, outs)
      modifies this
      ensures Valid() && old(captures) <= captures
      ensures Renders(env, captures, parts + (if offset.Some? then W(" OFFSET ") + IntegerText(offset.value) else []), value)
      ensures nonnegative == MarkedAll(old(nonnegative), OffsetUses(offset))
    {
      value := outs;
      if offset.Some? {
        value := PutWord(env, captures, parts, value, " OFFSET ");
        ghost var before := captures;
        var number := RenderInteger(offset.value, Offset);
        RendersMore(env, before, captures, parts + W(" OFFSET "), value);
        RendersBoth(env, captures, parts + W(" OFFSET "), value, IntegerText(offset.value), number);
        value := value + number;
        Assoc(parts, W(" OFFSET "), IntegerText(offset.value));
      } else {
        NoMore(parts);
      }
    }

    /** `column = value` pairs with commas between them. */
    method RenderAssigns(assigns: seq<Assign>) returns (value: seq<Out>)
      requires Valid()
      modifies this`captures
      ensures Valid() && captures == InternedAll(old(captures), AssignsText(assigns))
      ensures Renders(env, captures, AssignsText(assigns), value)
    {
      value := [];
      for at := 0 to |assigns|
        invariant Valid() && captures == InternedAll(old(captures), AssignsText(assigns[..at]))
        invariant Renders(env, captures, AssignsText(assigns[..at]), value)
      {
        assert assigns[..at + 1][..at] == assigns[..at];
        ghost var parts, before := AssignsText(assigns[..at]), captures;
        var tokens := Render(assigns[at].value);
        RendersMore(env, before, captures, parts, value);
        if at > 0 {
          value := PutWord(env, captures, parts, value, ", ");
          parts := parts + W(", ");
        }
        value := PutWord(env, captures, parts, value, assigns[at].column + " = ");
        parts := parts + W(assigns[at].column + " = ");
        RendersBoth(env, captures, parts, value, assigns[at].value, tokens);
        value := value + tokens;
        InternedAppend(old(captures), parts, assigns[at].value);
        InternedAssign(old(captures), AssignsText(assigns[..at]), at, assigns[at]);
      }
      assert assigns[..|assigns|] == assigns;
    }

    /**
     UPDATE with joins: the filter is numbered before the assignments that precede it in the
     text, and a parameter in an ON condition is refused.
     */
    method RenderUpdate(
      base: seq<Lexeme>, assigns: seq<Assign>, from: seq<Lexeme>, ons: seq<seq<Part>>, filter: seq<Part>
    ) returns (r: Result<seq<Out>, Ident>)
      requires Valid()
      modifies this`captures
      ensures Valid() && old(captures) <= captures
      ensures r.Ok? <==> forall i :: 0 <= i < |ons| ==> NoCapture(ons[i])
      ensures r.Err? ==> captures == old(captures) && exists k: nat ::
        k < |ons| && FirstCapture(ons[k], r.error) && forall i :: 0 <= i < k ==> NoCapture(ons[i])
      ensures r.Ok? ==> captures == InternedAll(InternedAll(old(captures), filter), AssignsText(assigns))
      ensures r.Ok? ==> Renders(env, captures, UpdateText(base, assigns, from, ons, filter), r.value)
    {
      var joins := [];
      ghost var glued: seq<Part> := [];
      for at := 0 to |ons|
        invariant Valid() && captures == old(captures)
        invariant forall i :: 0 <= i < at ==> NoCapture(ons[i])
        invariant glued == OnsText(ons[..at]) && Renders(env, captures, glued, joins)
      {
        assert ons[..at + 1][..at] == ons[..at];
        var tokens := JoinTokens(ons[at]);
        if tokens.Err? {
          return Err(tokens.error);
        }
        assert Renders(env, captures, ons[at], tokens.value);
        RendersBoth(env, captures, glued, joins, ons[at], tokens.value);
        joins := PutWord(env, captures, glued + ons[at], joins + tokens.value, " AND ");
        glued := glued + ons[at] + W(" AND ");
      }
      assert ons[..|ons|] == ons;
      ghost var first := captures;
      var where := Render(filter);
      RendersMore(env, first, captures, glued, joins);
      RendersBoth(env, captures, glued, joins, filter, where);
      joins := joins + where;
      ghost var second := captures;
      var sets := RenderAssigns(assigns);
      RendersMore(env, second, captures, glued + filter, joins);
      var head := Lexemes([Word("UPDATE ")] + base + [Word(" SET ")]);
      var tail := Lexemes(from + [Word(" WHERE ")]);
      RendersBoth(env, captures, Tokens([Word("UPDATE ")] + base + [Word(" SET ")]), head, AssignsText(assigns), sets);
      RendersBoth(env, captures, Tokens(from + [Word(" WHERE ")]), tail, glued + filter, joins);
      RendersBoth(env, captures, Tokens([Word("UPDATE ")] + base + [Word(" SET ")]) + AssignsText(assigns), head + sets,
                  Tokens(from + [Word(" WHERE ")]) + (glued + filter), tail + joins);
      r := Ok(head + sets + (tail + joins));
    }

    /** Bulk UPDATE: the arrays are numbered first and written between the assignments and the filter. */
    method RenderEach(base: seq<Lexeme>, data: seq<Ident>, assigns: seq<Assign>, names: string, filter: seq<Part>)
      returns (sql: seq<Out>)
      requires Valid()
      modifies this`captures
      ensures Valid()
      ensures captures
           == InternedAll(InternedAll(InternedAll(old(captures), ArraysText(data)), AssignsText(assigns)), filter)
      ensures Renders(env, captures, EachText(base, data, assigns, names, filter), sql)
    {
      var params := Render(ArraysText(data));
      ghost var first := captures;
      var sets := RenderAssigns(assigns);
      ghost var second := captures;
      var where := Render(filter);
      RendersMore(env, first, captures, ArraysText(data), params);
      RendersMore(env, second, captures, AssignsText(assigns), sets);
      ghost var open, from, close :=
        Tokens([Word("UPDATE ")] + base + [Word(" SET ")]), W(" FROM unnest("),
        Tokens([Word(") AS __d("), Word(names), Word(")"), Word(" WHERE ")]);
      sql := Lexemes([Word("UPDATE ")] + base + [Word(" SET ")]);
      RendersBoth(env, captures, open, sql, AssignsText(assigns), sets);
      sql := PutWord(env, captures, open + AssignsText(assigns), sql + sets, " FROM unnest(");
      RendersBoth(env, captures, open + AssignsText(assigns) + from, sql, ArraysText(data), params);
      sql := sql + params;
      var alias := Lexemes([Word(") AS __d("), Word(names), Word(")"), Word(" WHERE ")]);
      RendersBoth(env, captures, open + AssignsText(assigns) + from + ArraysText(data), sql, close, alias);
      RendersBoth(env, captures, open + AssignsText(assigns) + from + ArraysText(data) + close, sql + alias, filter, where);
      sql := sql + alias + where;
    }
  }

  function InternedItems(captures: seq<Ident>, items: seq<Item>): (r: seq<Ident>)
    ensures captures <= r && (Distinct(captures) ==> Distinct(r))
  {
    if items == [] then captures
    else InternedAll(InternedItems(captures, items[..|items| - 1]), items[|items| - 1].sql)
  }

  /** The captures after a window specification: in the order of its chain of calls. */
  function InternedSpec(captures: seq<Ident>, parts: seq<WindowPart>): (r: seq<Ident>)
    ensures captures <= r && (Distinct(captures) ==> Distinct(r))
  {
    if parts == [] then captures
    else InternedAll(InternedSpec(captures, parts[..|parts| - 1]), parts[|parts| - 1].sql)
  }

  lemma SpecNext(captures: seq<Ident>, parts: seq<WindowPart>, at: nat)
    requires at < |parts|
    ensures var part := parts[at];
            && InternedSpec(captures, parts[..at + 1]) == InternedAll(InternedSpec(captures, parts[..at]), part.sql)
            && Groups(parts[..at + 1]) == Groups(parts[..at]) + (if part.shape.Group? then [Item(part.sql, false)] else [])
            && Orders(parts[..at + 1])
               == Orders(parts[..at]) + (if part.shape.Order? then [Item(part.sql, part.shape.desc)] else [])
  {
    assert parts[..at + 1][..at] == parts[..at];
  }

  ghost predicate RendersEach(env: Env, captures: seq<Ident>, items: seq<Item>, outs: seq<seq<Out>>)
  {
    |outs| == |items| && forall i :: 0 <= i < |items| ==> Renders(env, captures, items[i].sql, outs[i])
  }

  lemma RendersEachMore(env: Env, captures: seq<Ident>, more: seq<Ident>, items: seq<Item>, outs: seq<seq<Out>>)
    requires captures <= more && RendersEach(env, captures, items, outs)
    ensures RendersEach(env, more, items, outs)
  {
    forall i | 0 <= i < |items| ensures Renders(env, more, items[i].sql, outs[i]) {
      RendersMore(env, captures, more, items[i].sql, outs[i]);
    }
  }

  lemma InternedNext(captures: seq<Ident>, parts: seq<Part>, at: nat)
    requires at < |parts|
    ensures parts[..at + 1] == parts[..at] + [parts[at]]
    ensures InternedAll(captures, parts[..at + 1]) == InternedPart(InternedAll(captures, parts[..at]), parts[at])
  {
    assert parts[..at + 1][..at] == parts[..at];
  }

  lemma {:induction false} InternedWords(captures: seq<Ident>, parts: seq<Part>)
    ensures (forall i :: 0 <= i < |parts| ==> parts[i].Token?) ==> InternedAll(captures, parts) == captures
    decreases |parts|
  {
    if parts != [] && forall i :: 0 <= i < |parts| ==> parts[i].Token? {
      InternedWords(captures, parts[..|parts| - 1]);
    }
  }

  lemma {:induction false} InternedAppend(captures: seq<Ident>, a: seq<Part>, b: seq<Part>)
    ensures InternedAll(captures, a + b) == InternedAll(InternedAll(captures, a), b)
    decreases |b|
  {
    if b == [] {
      assert a + b == a;
    } else {
      assert (a + b)[..|a + b| - 1] == a + b[..|b| - 1];
      InternedAppend(captures, a, b[..|b| - 1]);
    }
  }

  function AssignsText(assigns: seq<Assign>): seq<Part>
  {
    if assigns == [] then []
    else
      var n := |assigns| - 1;
      AssignsText(assigns[..n]) + (if n > 0 then W(", ") else []) + W(assigns[n].column + " = ") + assigns[n].value
  }

  lemma InternedAssign(captures: seq<Ident>, parts: seq<Part>, at: nat, assign: Assign)
    ensures InternedAll(captures, parts + (if at > 0 then W(", ") else []) + W(assign.column + " = "))
         == InternedAll(captures, parts)
  {
    var comma := if at > 0 then W(", ") else [];
    InternedAppend(captures, parts, comma);
    InternedWords(InternedAll(captures, parts), comma);
    InternedAppend(captures, parts + comma, W(assign.column + " = "));
    InternedWords(InternedAll(captures, parts), W(assign.column + " = "));
  }

  predicate NoCapture(parts: seq<Part>)
  {
    forall i :: 0 <= i < |parts| ==> parts[i].Token?
  }

  /** `ident` is the first parameter in the text. */
  ghost predicate FirstCapture(parts: seq<Part>, ident: Ident)
  {
    exists i :: 0 <= i < |parts| && parts[i] == Capture(ident) && forall k :: 0 <= k < i ==> parts[k].Token?
  }

  /** Every ON condition, each followed by AND. */
  function OnsText(ons: seq<seq<Part>>): seq<Part>
  {
    if ons == [] then [] else OnsText(ons[..|ons| - 1]) + ons[|ons| - 1] + W(" AND ")
  }

  function UpdateText(
    base: seq<Lexeme>, assigns: seq<Assign>, from: seq<Lexeme>, ons: seq<seq<Part>>, filter: seq<Part>
  ): seq<Part>
  {
    Tokens([Word("UPDATE ")] + base + [Word(" SET ")]) + AssignsText(assigns)
    + (Tokens(from + [Word(" WHERE ")]) + (OnsText(ons) + filter))
  }

  function ArraysText(data: seq<Ident>): seq<Part>
  {
    if data == [] then []
    else ArraysText(data[..|data| - 1]) + (if |data| > 1 then W(",") else []) + [Capture(data[|data| - 1])]
  }

  function EachText(base: seq<Lexeme>, data: seq<Ident>, assigns: seq<Assign>, names: string, filter: seq<Part>): seq<Part>
  {
    Tokens([Word("UPDATE ")] + base + [Word(" SET ")]) + AssignsText(assigns)
    + W(" FROM unnest(") + ArraysText(data) + Tokens([Word(") AS __d("), Word(names), Word(")"), Word(" WHERE ")]) + filter
  }

  function Lexemes(lexemes: seq<Lexeme>): (r: seq<Out>)
    ensures |r| == |lexemes|
    ensures forall env, captures :: Renders(env, captures, Tokens(lexemes), r)
  {
    seq(|lexemes|, i requires 0 <= i < |lexemes| => Fixed(lexemes[i]))
  }

  /** ON conditions take no parameters. */
  method JoinTokens(parts: seq<Part>) returns (r: Result<seq<Out>, Ident>)
    ensures r.Ok? <==> NoCapture(parts)
    ensures r.Err? ==> FirstCapture(parts, r.error)
    ensures r.Ok? ==> |r.value| == |parts| && forall i :: 0 <= i < |parts| ==> r.value[i] == Fixed(parts[i].lexeme)
  {
    var tokens := [];
    for at := 0 to |parts|
      invariant |tokens| == at && NoCapture(parts[..at])
      invariant forall i :: 0 <= i < at ==> parts[i].Token? && tokens[i] == Fixed(parts[i].lexeme)
    {
      if parts[at].Capture? {
        return Err(parts[at].ident);
      }
      tokens := tokens + [Fixed(parts[at].lexeme)];
    }
    r := Ok(tokens);
  }

  /** Appends fixed text. */
  method PutWord(env: Env, ghost captures: seq<Ident>, ghost parts: seq<Part>, outs: seq<Out>, text: string)
    returns (r: seq<Out>)
    requires Renders(env, captures, parts, outs)
    ensures r == outs + [Fixed(Word(text))] && Renders(env, captures, parts + W(text), r)
  {
    r := outs + [Fixed(Word(text))];
    RendersBoth(env, captures, parts, outs, W(text), [Fixed(Word(text))]);
  }

  /** Items with commas between them. */
  method WriteJoined(env: Env, ghost captures: seq<Ident>, descs: seq<bool>, outs: seq<seq<Out>>, ghost items: seq<Item>)
    returns (r: seq<Out>)
    requires |descs| == |items| && forall i :: 0 <= i < |items| ==> descs[i] == items[i].desc
    requires RendersEach(env, captures, items, outs)
    ensures Renders(env, captures, Joined(items), r)
  {
    r := [];
    for at := 0 to |outs|
      invariant Renders(env, captures, Joined(items[..at]), r)
    {
      ghost var done := items[..at + 1];
      assert done[..at] == items[..at] && done[at] == items[at];
      ghost var parts := Joined(items[..at]);
      if at > 0 {
        r := PutWord(env, captures, parts, r, ", ");
        parts := parts + W(", ");
      }
      RendersBoth(env, captures, parts, r, items[at].sql, outs[at]);
      r := r + outs[at];
      parts := parts + items[at].sql;
      if descs[at] {
        r := PutWord(env, captures, parts, r, " DESC");
      }
      Assoc(Joined(items[..at]) + (if at > 0 then W(", ") else []), items[at].sql, if descs[at] then W(" DESC") else []);
      NoMore(Joined(items[..at]));
      NoMore(r);
    }
    assert items[..|items|] == items;
  }

  method WriteSpec(
    env: Env, ghost captures: seq<Ident>, groups: seq<seq<Out>>, descs: seq<bool>, orders: seq<seq<Out>>,
    ghost group: seq<Item>, ghost order: seq<Item>
  ) returns (output: seq<Out>)
    requires RendersEach(env, captures, group, groups) && RendersEach(env, captures, order, orders)
    requires forall i :: 0 <= i < |group| ==> !group[i].desc
    requires |descs| == |order| && forall i :: 0 <= i < |order| ==> descs[i] == order[i].desc
    ensures Renders(env, captures, ClausesText(group, order), output)
  {
    output := [];
    ghost var parts: seq<Part> := [];
    if groups != [] {
      output := [Fixed(Word("PARTITION BY "))];
      var list := WriteJoined(env, captures, seq(|groups|, _ => false), groups, group);
      RendersBoth(env, captures, W("PARTITION BY "), output, Joined(group), list);
      output := output + list;
      parts := W("PARTITION BY ") + Joined(group);
    }
    if orders != [] {
      if output != [] {
        output := PutWord(env, captures, parts, output, " ");
        parts := parts + W(" ");
      }
      output := PutWord(env, captures, parts, output, "ORDER BY ");
      var list := WriteJoined(env, captures, descs, orders, order);
      RendersBoth(env, captures, parts + W("ORDER BY "), output, Joined(order), list);
      output := output + list;
    }
  }

  // ---- supplying the values ----

  datatype Role = Plain(ty: Type) | Checked(bound: Bound)

  /** SQLite's bind list: pairs nested to the right. */
  datatype Binds = Unit | Pair(capture: Ident, role: Role, rest: Binds)

  function Count(binds: Binds): nat
  {
    if binds.Unit? then 0 else 1 + Count(binds.rest)
  }

  function At(binds: Binds, k: nat): (Ident, Role)
    requires k < Count(binds)
  {
    if k == 0 then (binds.capture, binds.role) else At(binds.rest, k - 1)
  }

  predicate Known(ids: seq<Ident>, captures: seq<Ident>)
  {
    forall k :: 0 <= k < |captures| ==> IndexOf(ids, captures[k].name) < |ids|
  }

  /** The role of a parameter: what it was first used as, or a plain value of its declared type. */
  function RoleOf(env: Env, checks: seq<Use>, name: string): Role
    requires |env.ids| == |env.types| && IndexOf(env.ids, name) < |env.ids|
  {
    var bound := BoundOf(checks, name);
    if bound.Some? then Checked(bound.value) else Plain(env.types[IndexOf(env.ids, name)])
  }

  ghost predicate Supplies(env: Env, captures: seq<Ident>, checks: seq<Use>, binds: Binds)
    requires |env.ids| == |env.types| && Known(env.ids, captures)
  {
    && Count(binds) == |captures|
    && forall k :: 0 <= k < |captures| ==> At(binds, k) == (captures[k], RoleOf(env, checks, captures[k].name))
  }

  lemma SuppliesNext(env: Env, captures: seq<Ident>, checks: seq<Use>, binds: Binds)
    requires |env.ids| == |env.types| && captures != [] && Known(env.ids, captures) && Known(env.ids, captures[1..])
    requires Supplies(env, captures[1..], checks, binds)
    ensures Supplies(env, captures, checks, Pair(captures[0], RoleOf(env, checks, captures[0].name), binds))
  {
    var all := Pair(captures[0], RoleOf(env, checks, captures[0].name), binds);
    forall k | 0 <= k < |captures| ensures At(all, k) == (captures[k], RoleOf(env, checks, captures[k].name)) {
      if k > 0 {
        assert At(all, k) == At(binds, k - 1);
        assert captures[k] == captures[1..][k - 1];
      }
    }
  }

  /** The last capture that is no parameter of the function, and so the first one met from the end. */
  ghost predicate LastUnknown(ids: seq<Ident>, captures: seq<Ident>, k: nat)
  {
    && k < |captures| && IndexOf(ids, captures[k].name) == |ids|
    && forall i :: k < i < |captures| ==> IndexOf(ids, captures[i].name) < |ids|
  }

  /** Built from the last capture back, so that position k holds capture k. */
  method SqliteBinds(env: Env, captures: seq<Ident>, checks: seq<Use>) returns (r: Result<Binds, Ident>)
    requires |env.ids| == |env.types|
    ensures r.Ok? <==> Known(env.ids, captures)
    ensures r.Ok? ==> Supplies(env, captures, checks, r.value)
    ensures r.Err? ==> exists k: nat :: LastUnknown(env.ids, captures, k) && r.error == captures[k]
  {
    var value := Unit;
    var at: nat := |captures|;
    while at > 0
      invariant at <= |captures| && Known(env.ids, captures[at..])
      invariant forall i :: at <= i < |captures| ==> IndexOf(env.ids, captures[i].name) < |env.ids|
      invariant Supplies(env, captures[at..], checks, value)
    {
      at := at - 1;
      assert captures[at..][1..] == captures[at + 1..];
      assert captures[at] == captures[at..][0];
      if IndexOf(env.ids, captures[at].name) == |env.ids| {
        assert LastUnknown(env.ids, captures, at);
        return Err(captures[at]);
      }
      assert Known(env.ids, captures[at..]) by {
        assert forall k :: 0 < k < |captures[at..]| ==> captures[at..][k] == captures[at + 1..][k - 1];
      }
      SuppliesNext(env, captures[at..], checks, value);
      value := Pair(captures[at], RoleOf(env, checks, captures[at].name), value);
    }
    assert captures[0..] == captures;
    r := Ok(value);
  }

  /**
   SQLite checks exactly the parameters that some LIMIT or OFFSET of the statement uses, each as
   what it is first used as, and binds every other one plainly.
   */
  lemma BoundsAreChecked(env: Env, captures: seq<Ident>, uses: seq<Use>, binds: Binds, k: nat)
    requires |env.ids| == |env.types| && Known(env.ids, captures) && k < |captures|
    requires Supplies(env, captures, MarkedAll([], uses), binds)
    ensures k < Count(binds) && At(binds, k).0 == captures[k]
    ensures var first := BoundOf(uses, captures[k].name);
            && (first.Some? ==> At(binds, k).1 == Checked(first.value))
            && (first.None? ==> At(binds, k).1 == Plain(env.types[IndexOf(env.ids, captures[k].name)]))
  {
    FirstUseDecides([], uses, captures[k].name);
  }

  datatype BindError = TooMany(count: nat) | Unknown(ident: Ident)

  const MAX_PARAMS: nat := 0x7fff

  ghost predicate FirstUnknown(ids: seq<Ident>, captures: seq<Ident>, k: nat)
  {
    && k < |captures| && IndexOf(ids, captures[k].name) == |ids|
    && forall i :: 0 <= i < k ==> IndexOf(ids, captures[i].name) < |ids|
  }

  /** PostgreSQL: the argument written at each position, as an index into the function's parameters. */
  method PgBinds(env: Env, captures: seq<Ident>) returns (r: Result<seq<nat>, BindError>)
    ensures r.Ok? <==> |captures| <= 32767 && Known(env.ids, captures)
    ensures |captures| > 32767 ==> r == Err(TooMany(|captures|))
    ensures |captures| <= 32767 && r.Err? ==> exists k: nat :: FirstUnknown(env.ids, captures, k) && r.error == Unknown(captures[k])
    ensures r.Ok? ==> |r.value| == |captures|
    ensures r.Ok? ==> forall k :: 0 <= k < |captures| ==>
      r.value[k] < |env.ids| && env.ids[r.value[k]].name == captures[k].name
  {
    if |captures| > MAX_PARAMS {
      return Err(TooMany(|captures|));
    }
    var calls: seq<nat> := [];
    for at := 0 to |captures|
      invariant |calls| == at
      invariant forall k :: 0 <= k < at ==> IndexOf(env.ids, captures[k].name) < |env.ids|
      invariant forall k :: 0 <= k < at ==> calls[k] < |env.ids| && env.ids[calls[k]].name == captures[k].name
    {
      var index := IndexOf(env.ids, captures[at].name);
      if index == |env.ids| {
        assert FirstUnknown(env.ids, captures, at);
        return Err(Unknown(captures[at]));
      }
      calls := calls + [index];
    }
    r := Ok(calls);
  }
}
