/**
 From closure to bound statement: rendered SQL, with its placeholders replaced by the values that
 the bind list holds at those positions, means what the closure says.
 */
module BoundQuery {
  import opened Sequences
  import opened Wrappers
  import opened Captures
  import JoinedWhere
  import Meaning
  import QueryScope
  import SqlReader
  import Syntax
  import T = SqlText
  import Translation

  /** A lexeme of SQL; of the clause words, those that stand in a condition or begin one. */
  function Spelling(lexeme: Lexeme): Option<T.Tok>
  {
    match lexeme
    case Sql(tok) => Some(tok)
    case Word(text) =>
      if text == " AND " then Some(T.Kw(T.AND))
      else if text == " OR " then Some(T.Kw(T.OR))
      else if text == " WHERE " then Some(T.Kw(T.WHERE))
      else None
  }

  /** The lexeme each part stands for, parameters by name. */
  function Spelled(part: Part): (t: Option<T.Tok>)
  {
    match part
    case Token(lexeme) => Spelling(lexeme)
    case Capture(ident) => Some(T.Capture(ident.name))
  }

  ghost predicate Spells(parts: seq<Part>, text: seq<T.Tok>)
  {
    |parts| == |text| && forall i :: 0 <= i < |parts| ==> Spelled(parts[i]) == Some(text[i])
  }

  /** What the database sees in place of a rendered part when bind position k holds parameter `names[k]`. */
  function Received(kind: Syntax.Kind, names: seq<string>, out: Out): Option<T.Tok>
  {
    match out
    case Fixed(lexeme) => Spelling(lexeme)
    case Mark(chars) =>
      var number := ReadMark(kind, chars);
      if number.Some? && 1 <= number.value.0 <= |names| then Some(T.Capture(names[number.value.0 - 1])) else None
  }

  ghost predicate Receives(kind: Syntax.Kind, names: seq<string>, outs: seq<Out>, text: seq<T.Tok>)
  {
    |outs| == |text| && forall i :: 0 <= i < |outs| ==> Received(kind, names, outs[i]) == Some(text[i])
  }

  /** The bind list holds the parameter of capture k at position k. */
  predicate InOrder(captures: seq<Ident>, names: seq<string>)
  {
    |names| == |captures| && forall k :: 0 <= k < |captures| ==> names[k] == captures[k].name
  }

  lemma RenderedIsReceived(env: Env, captures: seq<Ident>, names: seq<string>, parts: seq<Part>, text: seq<T.Tok>, outs: seq<Out>)
    requires InOrder(captures, names) && Spells(parts, text) && Renders(env, captures, parts, outs)
    ensures Receives(env.kind, names, outs, text)
  {
    forall i | 0 <= i < |outs| ensures Received(env.kind, names, outs[i]) == Some(text[i]) {
      if parts[i].Capture? {
        PlaceholderReads(env, captures, IndexOf(captures, parts[i].ident.name));
      }
    }
  }

  /**
   A compiled predicate, rendered anywhere in a statement and whatever is rendered after it, is
   received as a condition that has the closure's value.
   */
  lemma BoundTextMeansClosure(
    m: T.Model, depth: nat, idents: seq<Syntax.Ident>, rows: seq<T.Row>, e: Syntax.Expr, columns: bool,
    cx: Translation.Context, sql: T.Env, rest: seq<T.Tok>,
    env: Env, captures: seq<Ident>, more: seq<Ident>, names: seq<string>, parts: seq<Part>, outs: seq<Out>
  )
    requires |idents| == |rows| && Meaning.Aliased(depth, rows, sql) && SqlReader.Closed(rest)
    requires env.kind == cx.kind && Meaning.Understands(m, cx.kind)
    requires Translation.Condition(QueryScope.ForBindings(depth, idents), e, columns, cx).Ok?
    requires Spells(parts, T.Print(Translation.Condition(QueryScope.ForBindings(depth, idents), e, columns, cx).value))
    requires captures <= more && Renders(env, captures, parts, outs) && InOrder(more, names)
    ensures var text := T.Print(Translation.Condition(QueryScope.ForBindings(depth, idents), e, columns, cx).value);
            var read := SqlReader.ReadOr(text + rest);
            && Receives(env.kind, names, outs, text)
            && read.Got? && read.rest == rest
            && T.Eval(m, read.node, sql) == Meaning.PredMeaning(m, e, Meaning.BindRows(idents, rows), cx)
  {
    var text := T.Print(Translation.Condition(QueryScope.ForBindings(depth, idents), e, columns, cx).value);
    RendersMore(env, captures, more, parts, outs);
    RenderedIsReceived(env, more, names, parts, text, outs);
    Meaning.CompiledTextMeansClosure(m, depth, idents, rows, e, columns, cx, sql, rest);
  }

  // ---- the statement of a joined UPDATE ----

  lemma SpellsBoth(a: seq<Part>, x: seq<T.Tok>, b: seq<Part>, y: seq<T.Tok>)
    requires Spells(a, x) && Spells(b, y)
    ensures Spells(a + b, x + y)
  {
  }

  ghost predicate SpellsEach(ons: seq<seq<Part>>, texts: JoinedWhere.Texts)
  {
    |ons| == |texts| && forall i :: 0 <= i < |ons| ==> Spells(ons[i], texts[i])
  }

  lemma OnSpelled(on: seq<Part>, text: seq<T.Tok>, tail: seq<Part>, end: seq<T.Tok>)
    requires Spells(on, text) && Spells(tail, end)
    ensures Spells(on + W(" AND ") + tail, text + [T.Kw(T.AND)] + end)
  {
    SpellsBoth(on, text, W(" AND "), [T.Kw(T.AND)]);
    SpellsBoth(on + W(" AND "), text + [T.Kw(T.AND)], tail, end);
  }

  /** ON conditions and filter are written as the clause that is read as their conjunction. */
  lemma {:induction false} OnsSpelled(ons: seq<seq<Part>>, texts: JoinedWhere.Texts, tail: seq<Part>, end: seq<T.Tok>)
    requires SpellsEach(ons, texts) && Spells(tail, end)
    ensures Spells(OnsText(ons) + tail, JoinedWhere.Glued(texts, end))
    decreases |ons|
  {
    if ons == [] {
      assert [] + tail == tail;
    } else {
      var n := |ons| - 1;
      var more, after := ons[n] + W(" AND ") + tail, texts[n] + [T.Kw(T.AND)] + end;
      OnSpelled(ons[n], texts[n], tail, end);
      OnsSpelled(ons[..n], texts[..n], more, after);
      JoinedWhere.GluedSnoc(texts[..n], texts[n], end);
      Last(texts);
      Assoc(OnsText(ons[..n]), ons[n], W(" AND "));
      Assoc(OnsText(ons[..n]), ons[n] + W(" AND "), tail);
    }
  }

  /** The text has WHERE and then `text`, as the database sees it, at its end. */
  ghost predicate EndsAs(kind: Syntax.Kind, names: seq<string>, outs: seq<Out>, text: seq<T.Tok>)
  {
    var at := |outs| - |text|;
    0 < at && outs[at - 1] == Fixed(Word(" WHERE ")) && Receives(kind, names, outs[at..], text)
  }

  lemma TailRenders(env: Env, captures: seq<Ident>, head: seq<Part>, lexeme: Lexeme, tail: seq<Part>, outs: seq<Out>)
    requires Renders(env, captures, head + [Token(lexeme)] + tail, outs)
    ensures |outs| == |head| + 1 + |tail| && outs[|head|] == Fixed(lexeme)
    ensures Renders(env, captures, tail, outs[|head| + 1..])
  {
    var text, n := head + [Token(lexeme)] + tail, |head| + 1;
    assert text[n - 1] == Token(lexeme);
    forall i | 0 <= i < |tail| ensures tail[i] == text[n + i] && outs[n..][i] == Shown(env, captures, text[n + i]) {
    }
  }

  lemma UpdateSplits(base: seq<Lexeme>, assigns: seq<Assign>, from: seq<Lexeme>, ons: seq<seq<Part>>, filter: seq<Part>)
    ensures UpdateText(base, assigns, from, ons, filter)
         == Tokens([Word("UPDATE ")] + base + [Word(" SET ")]) + AssignsText(assigns) + Tokens(from)
            + [Token(Word(" WHERE "))] + (OnsText(ons) + filter)
  {
    var head := Tokens([Word("UPDATE ")] + base + [Word(" SET ")]) + AssignsText(assigns);
    assert Tokens(from + [Word(" WHERE ")]) == Tokens(from) + [Token(Word(" WHERE "))];
    Assoc4(head, Tokens(from), [Token(Word(" WHERE "))], OnsText(ons) + filter);
    Assoc(Tokens(from), [Token(Word(" WHERE "))], OnsText(ons) + filter);
  }

  /** The WHERE clause of a rendered UPDATE is received as the clause that `JoinedWhere` reads. */
  lemma UpdateIsReceived(
    env: Env, captures: seq<Ident>, more: seq<Ident>, names: seq<string>, base: seq<Lexeme>, assigns: seq<Assign>,
    from: seq<Lexeme>, ons: seq<seq<Part>>, texts: JoinedWhere.Texts, filter: seq<Part>, end: seq<T.Tok>, outs: seq<Out>
  )
    requires SpellsEach(ons, texts) && Spells(filter, end)
    requires Renders(env, captures, UpdateText(base, assigns, from, ons, filter), outs)
    requires captures <= more && InOrder(more, names)
    ensures EndsAs(env.kind, names, outs, JoinedWhere.Glued(texts, end))
  {
    var where := OnsText(ons) + filter;
    var head := Tokens([Word("UPDATE ")] + base + [Word(" SET ")]) + AssignsText(assigns) + Tokens(from);
    OnsSpelled(ons, texts, filter, end);
    UpdateSplits(base, assigns, from, ons, filter);
    TailRenders(env, captures, head, Word(" WHERE "), where, outs);
    TailIsReceived(env, captures, more, names, where, JoinedWhere.Glued(texts, end), outs, |head| + 1);
  }

  lemma TailIsReceived(
    env: Env, captures: seq<Ident>, more: seq<Ident>, names: seq<string>, parts: seq<Part>, text: seq<T.Tok>,
    outs: seq<Out>, at: nat
  )
    requires 0 < at <= |outs| && outs[at - 1] == Fixed(Word(" WHERE ")) && Spells(parts, text)
    requires Renders(env, captures, parts, outs[at..]) && captures <= more && InOrder(more, names)
    ensures EndsAs(env.kind, names, outs, text)
  {
    RendersMore(env, captures, more, parts, outs[at..]);
    RenderedIsReceived(env, more, names, parts, text, outs[at..]);
  }

  /**
   The UPDATE that `RenderUpdate` returns, received under the bind list: what follows its WHERE is
   true of exactly the rows on which every ON closure and the filter closure are true.
   */
  lemma JoinedUpdateMeansClosures(
    m: T.Model, depth: nat, clauses: seq<JoinedWhere.Clause>, nodes: seq<T.Node>, rows: seq<T.Row>,
    cx: Translation.Context, sql: T.Env, rest: seq<T.Tok>,
    env: Env, captures: seq<Ident>, more: seq<Ident>, names: seq<string>,
    base: seq<Lexeme>, assigns: seq<Assign>, from: seq<Lexeme>, ons: seq<seq<Part>>, filter: seq<Part>, outs: seq<Out>
  )
    requires clauses != [] && |nodes| == |clauses| && SqlReader.Closed(rest)
    requires Meaning.Aliased(depth, rows, sql) && env.kind == cx.kind && Meaning.Understands(m, cx.kind)
    requires forall c <- clauses :: |c.idents| <= |rows|
    requires forall i :: 0 <= i < |clauses| ==> JoinedWhere.Compiled(depth, clauses[i], cx) == Ok(nodes[i])
    requires |clauses| > 1 ==> forall c <- clauses :: !JoinedWhere.TopOr(c.body)
    requires SpellsEach(ons, JoinedWhere.Printed(nodes[..|nodes| - 1]))
    requires Spells(filter, T.Print(nodes[|nodes| - 1]))
    requires Renders(env, captures, UpdateText(base, assigns, from, ons, filter), outs)
    requires captures <= more && InOrder(more, names)
    ensures var text := JoinedWhere.Glued(JoinedWhere.Printed(nodes[..|nodes| - 1]), T.Print(nodes[|nodes| - 1]));
            var read := SqlReader.ReadOr(text + rest);
            && EndsAs(env.kind, names, outs, text)
            && read.Got? && read.rest == rest
            && (T.Eval(m, read.node, sql) == T.Bool(true) <==>
                forall c <- clauses :: JoinedWhere.Says(m, c, rows, cx) == T.Bool(true))
  {
    var n := |nodes| - 1;
    UpdateIsReceived(
      env, captures, more, names, base, assigns, from, ons, JoinedWhere.Printed(nodes[..n]), filter, T.Print(nodes[n]), outs);
    JoinedWhere.JoinedTextMeansClosures(m, depth, clauses, nodes, rows, cx, sql, rest);
  }

  /** The SQLite bind list is in order. */
  lemma SqliteInOrder(env: Env, captures: seq<Ident>, checks: seq<Use>, binds: Binds)
    requires |env.ids| == |env.types| && Known(env.ids, captures) && Supplies(env, captures, checks, binds)
    ensures InOrder(captures, seq(Count(binds), k requires 0 <= k < Count(binds) => At(binds, k).0.name))
  {
  }

  /** And so is the PostgreSQL one, given by positions in the function's parameter list. */
  lemma PgInOrder(env: Env, captures: seq<Ident>, calls: seq<nat>)
    requires |calls| == |captures| && forall k :: 0 <= k < |calls| ==> calls[k] < |env.ids|
    requires forall k :: 0 <= k < |captures| ==> env.ids[calls[k]].name == captures[k].name
    ensures InOrder(captures, seq(|calls|, k requires 0 <= k < |calls| => env.ids[calls[k]].name))
  {
  }
}
