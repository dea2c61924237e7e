/**
 Reading the clause texts of Captures back: lists, ORDER BY, LIMIT, OFFSET, windows, assignments,
 and the two forms of UPDATE. What is written is what it was written from.
 */
module Clauses {
  import opened Sequences
  import opened Wrappers
  import opened Captures
  import Syntax

  function Mark(text: string): Part
  {
    Token(Word(text))
  }

  predicate IsWord(part: Part)
  {
    part.Token? && part.lexeme.Word?
  }

  predicate StartsWith(ts: seq<Part>, text: string)
  {
    ts != [] && ts[0] == Mark(text)
  }

  /** Compiled expressions are lexemes and parameters; clause words come from the clauses only. */
  predicate Bare(sql: seq<Part>)
  {
    forall i :: 0 <= i < |sql| ==> !IsWord(sql[i])
  }

  predicate BareItems(items: seq<Item>)
  {
    forall i :: 0 <= i < |items| ==> Bare(items[i].sql)
  }

  /** The number of parts before the first clause word. */
  function Span(ts: seq<Part>): (n: nat)
    ensures n <= |ts|
  {
    if ts == [] || IsWord(ts[0]) then 0 else 1 + Span(ts[1..])
  }

  lemma {:induction false} SpanOf(sql: seq<Part>, rest: seq<Part>)
    requires Bare(sql) && (rest == [] || IsWord(rest[0]))
    ensures Span(sql + rest) == |sql| && (sql + rest)[..|sql|] == sql && (sql + rest)[|sql|..] == rest
  {
    if sql == [] {
      NoMore(rest);
    } else {
      SpanOf(sql[1..], rest);
      assert (sql + rest)[1..] == sql[1..] + rest;
    }
  }

  lemma WordThen(text: string, rest: seq<Part>)
    ensures StartsWith(W(text) + rest, text) && (W(text) + rest)[1..] == rest
  {
  }

  // ---- lists ----

  /** An expression, DESC or not, and what follows. */
  function ReadItem(ts: seq<Part>): (r: (Item, seq<Part>))
    ensures |r.1| <= |ts|
  {
    var sql, more := ts[..Span(ts)], ts[Span(ts)..];
    if StartsWith(more, " DESC") then (Item(sql, true), more[1..]) else (Item(sql, false), more)
  }

  /** Items with commas between them. */
  function ReadList(ts: seq<Part>): (r: (seq<Item>, seq<Part>))
    decreases |ts|
  {
    var first := ReadItem(ts);
    if StartsWith(first.1, ", ") then
      var rest := ReadList(first.1[1..]);
      ([first.0] + rest.0, rest.1)
    else ([first.0], first.1)
  }

  /** Ends a list. */
  predicate Ended(rest: seq<Part>)
  {
    rest == [] || (IsWord(rest[0]) && rest[0] != Mark(", ") && rest[0] != Mark(" DESC"))
  }

  lemma ItemReads(item: Item, rest: seq<Part>)
    requires Bare(item.sql) && (Ended(rest) || StartsWith(rest, ", "))
    ensures ReadItem(ItemText(item) + rest) == (item, rest)
  {
    if item.desc {
      Assoc(item.sql, W(" DESC"), rest);
      WordThen(" DESC", rest);
      SpanOf(item.sql, W(" DESC") + rest);
    } else {
      NoMore(item.sql);
      SpanOf(item.sql, rest);
    }
  }

  function JoinedThen(items: seq<Item>, rest: seq<Part>): seq<Part>
    requires items != []
  {
    if |items| == 1 then ItemText(items[0]) + rest
    else ItemText(items[0]) + (W(", ") + JoinedThen(items[1..], rest))
  }

  lemma {:induction false} JoinedThenSnoc(items: seq<Item>, last: Item, rest: seq<Part>)
    requires items != []
    ensures JoinedThen(items + [last], rest) == JoinedThen(items, W(", ") + (ItemText(last) + rest))
    decreases |items|
  {
    assert (items + [last])[1..] == items[1..] + [last];
    if |items| == 1 {
      assert items[1..] + [last] == [last];
    } else {
      JoinedThenSnoc(items[1..], last, rest);
    }
  }

  lemma {:induction false} JoinedIsThen(items: seq<Item>, rest: seq<Part>)
    requires items != []
    ensures Joined(items) + rest == JoinedThen(items, rest)
    decreases |items|
  {
    var n := |items| - 1;
    var last := ItemText(items[n]);
    Last(items);
    if n == 0 {
      assert Joined(items[..0]) == [];
      NoMore(last);
    } else {
      JoinedIsThen(items[..n], W(", ") + (last + rest));
      JoinedThenSnoc(items[..n], items[n], rest);
      Inward(Joined(items[..n]), W(", "), last, rest);
    }
  }

  lemma {:induction false} ListReads(items: seq<Item>, rest: seq<Part>)
    requires items != [] && BareItems(items) && Ended(rest)
    ensures ReadList(JoinedThen(items, rest)) == (items, rest)
    decreases |items|
  {
    if |items| == 1 {
      ItemReads(items[0], rest);
      assert [items[0]] == items;
    } else {
      ListReads(items[1..], rest);
      NextItemReads(items[0], JoinedThen(items[1..], rest), items[1..], rest);
      assert [items[0]] + items[1..] == items;
    }
  }

  lemma NextItemReads(item: Item, more: seq<Part>, items: seq<Item>, rest: seq<Part>)
    requires Bare(item.sql) && ReadList(more) == (items, rest)
    ensures ReadList(ItemText(item) + (W(", ") + more)) == ([item] + items, rest)
  {
    WordThen(", ", more);
    ItemReads(item, W(", ") + more);
  }

  /** A written list reads back as its items, in order, each with its direction. */
  lemma JoinedReads(items: seq<Item>, rest: seq<Part>)
    requires items != [] && BareItems(items) && Ended(rest)
    ensures ReadList(Joined(items) + rest) == (items, rest)
  {
    JoinedIsThen(items, rest);
    ListReads(items, rest);
  }

  // ---- ORDER BY, LIMIT, OFFSET ----

  /** A keyword and a list, or nothing. */
  function ReadListAfter(ts: seq<Part>, word: string): (seq<Item>, seq<Part>)
  {
    if StartsWith(ts, word) then ReadList(ts[1..]) else ([], ts)
  }

  function ReadInteger(part: Part): Integer
    requires IsWord(part) || part.Capture?
  {
    if part.Capture? then Param(part.ident) else Literal(part.lexeme.text)
  }

  /** A keyword and one number or parameter, or nothing. */
  function ReadBound(ts: seq<Part>, word: string): (Option<Integer>, seq<Part>)
  {
    if StartsWith(ts, word) && |ts| > 1 && (IsWord(ts[1]) || ts[1].Capture?) then (Some(ReadInteger(ts[1])), ts[2..])
    else (None, ts)
  }

  /** How many rows at most, after skipping how many. */
  datatype Window = Window(order: seq<Item>, limit: Option<Integer>, offset: Option<Integer>, rest: seq<Part>)

  /** SQLite knows OFFSET only after LIMIT, and there a limit of -1 limits nothing. */
  function ReadQualify(kind: Syntax.Kind, ts: seq<Part>): Option<Window>
  {
    var (order, afterOrder) := ReadListAfter(ts, " ORDER BY ");
    var (limit, afterLimit) := ReadBound(afterOrder, " LIMIT ");
    var (offset, rest) := ReadBound(afterLimit, " OFFSET ");
    if kind.Sqlite? && offset.Some? && limit.None? then None
    else Some(Window(order, if kind.Sqlite? && limit == Some(Literal("-1")) then None else limit, offset, rest))
  }

  lemma BoundReads(word: string, value: Integer, rest: seq<Part>)
    ensures ReadBound(W(word) + IntegerText(value) + rest, word) == (Some(value), rest)
  {
    var ts := W(word) + IntegerText(value) + rest;
    assert ts[0] == Mark(word) && ts[1] == IntegerText(value)[0] && ts[2..] == rest;
  }

  lemma OrderReads(clauses: seq<Item>, rest: seq<Part>)
    requires BareItems(clauses) && Ended(rest) && !StartsWith(rest, " ORDER BY ")
    ensures ReadListAfter(OrderText(clauses) + rest, " ORDER BY ") == (clauses, rest)
  {
    if clauses == [] {
      NoMore(rest);
    } else {
      Assoc(W(" ORDER BY "), Joined(clauses), rest);
      WordThen(" ORDER BY ", Joined(clauses) + rest);
      JoinedReads(clauses, rest);
    }
  }

  function OffsetText(offset: Option<Integer>): seq<Part>
  {
    if offset.Some? then W(" OFFSET ") + IntegerText(offset.value) else []
  }

  /** The bound that a LIMIT clause stands for. */
  function LimitOf(limit: LimitClause): Option<Integer>
  {
    match limit
    case NoLimit => None
    case One => Some(Literal("1"))
    case AtMost(value) => Some(value)
  }

  lemma OffsetReads(offset: Option<Integer>, rest: seq<Part>)
    requires !StartsWith(rest, " OFFSET ")
    ensures ReadBound(OffsetText(offset) + rest, " OFFSET ") == (offset, rest)
  {
    if offset.Some? {
      BoundReads(" OFFSET ", offset.value, rest);
    } else {
      NoMore(rest);
    }
  }

  lemma LimitReads(kind: Syntax.Kind, q: Qualify, rest: seq<Part>)
    requires !StartsWith(rest, " LIMIT ")
    ensures var idle := q.limit.NoLimit? && kind.Sqlite? && q.offset.Some?;
            ReadBound(LimitText(kind, q) + rest, " LIMIT ")
            == (if idle then Some(Literal("-1")) else LimitOf(q.limit), rest)
  {
    match q.limit
    case NoLimit =>
      BoundReads(" LIMIT ", Literal("-1"), rest);
      NoMore(rest);
    case One => BoundReads(" LIMIT ", Literal("1"), rest);
    case AtMost(value) => BoundReads(" LIMIT ", value, rest);
  }

  /** What may follow the bounds: nothing, or a locking clause. */
  predicate Locking(locks: seq<Lexeme>)
  {
    locks == [] || (locks[0].Word? && locks[0].text !in {", ", " DESC", " ORDER BY ", " LIMIT ", " OFFSET "})
  }

  /** The order, the limit and the offset of a query are read from its text, in either dialect. */
  lemma QualifyReads(kind: Syntax.Kind, q: Qualify)
    requires BareItems(q.clauses) && Locking(q.locks)
    requires q.limit.AtMost? ==> q.limit.value != Literal("-1")
    ensures ReadQualify(kind, QualifyText(kind, q)) == Some(Window(q.clauses, LimitOf(q.limit), q.offset, Tokens(q.locks)))
  {
    var limit, offset, locks := LimitText(kind, q), OffsetText(q.offset), Tokens(q.locks);
    QualifyIsNested(kind, q);
    AfterOrder(kind, q);
    OrderReads(q.clauses, limit + (offset + locks));
    LimitReads(kind, q, offset + locks);
    OffsetReads(q.offset, locks);
  }

  lemma QualifyIsNested(kind: Syntax.Kind, q: Qualify)
    ensures QualifyText(kind, q)
         == OrderText(q.clauses) + (LimitText(kind, q) + (OffsetText(q.offset) + Tokens(q.locks)))
  {
    var order, limit, offset, locks := OrderText(q.clauses), LimitText(kind, q), OffsetText(q.offset), Tokens(q.locks);
    Assoc4(order, limit, offset, locks);
    Assoc(limit, offset, locks);
  }

  lemma AfterOrder(kind: Syntax.Kind, q: Qualify)
    requires Locking(q.locks)
    ensures var rest := LimitText(kind, q) + (OffsetText(q.offset) + Tokens(q.locks));
            Ended(rest) && !StartsWith(rest, " ORDER BY ")
    ensures !StartsWith(OffsetText(q.offset) + Tokens(q.locks), " LIMIT ") && !StartsWith(Tokens(q.locks), " OFFSET ")
  {
    NoMore(Tokens(q.locks));
    NoMore(OffsetText(q.offset) + Tokens(q.locks));
  }

  // ---- windows ----

  /** Groups, then orders: what a window divides by, and what it sorts by. */
  function ReadSpec(ts: seq<Part>): (seq<Item>, seq<Item>, seq<Part>)
  {
    var (groups, more) := ReadListAfter(ts, "PARTITION BY ");
    var (orders, rest) := ReadListAfter(if groups != [] && StartsWith(more, " ") then more[1..] else more, "ORDER BY ");
    (groups, orders, rest)
  }

  function ReadHead(ts: seq<Part>): Option<(Head, seq<Part>)>
  {
    if ts == [] || !IsWord(ts[0]) then None
    else
      var word, n := ts[0].lexeme.text, Span(ts[1..]);
      var sql, more := ts[1..][..n], ts[1..][n..];
      if n == 0 then Some((Keyword(word), more))
      else if StartsWith(more, ") OVER (") then Some((Call(word, sql), more[1..]))
      else
        var (offset, rest) := ReadBound(more, ", ");
        if offset.Some? && StartsWith(rest, ") OVER (") then Some((Shift(word, sql, offset.value), rest[1..])) else None
  }

  predicate BareHead(head: Head)
  {
    match head
    case Keyword(_) => true
    case Call(_, sql) => sql != [] && Bare(sql)
    case Shift(_, sql, _) => sql != [] && Bare(sql)
  }

  lemma HeadReads(head: Head, rest: seq<Part>)
    requires BareHead(head) && (rest == [] || IsWord(rest[0]))
    ensures ReadHead(HeadText(head) + rest) == Some((head, rest))
  {
    match head
    case Keyword(word) =>
      WordThen(word, rest);
      SpanOf([], rest);
      NoMore(rest);
    case Call(word, sql) => CallReads(word, sql, rest);
    case Shift(open, sql, offset) =>
      ShiftText(open, sql, offset, rest);
      ShiftReads(open, sql, offset, rest);
  }

  lemma CallReads(word: string, sql: seq<Part>, rest: seq<Part>)
    requires sql != [] && Bare(sql)
    ensures ReadHead(HeadText(Call(word, sql)) + rest) == Some((Call(word, sql), rest))
  {
    var close := W(") OVER (") + rest;
    Inward(W(word), sql, W(") OVER ("), rest);
    WordThen(word, sql + close);
    SpanOf(sql, close);
    WordThen(") OVER (", rest);
  }

  lemma ShiftReads(open: string, sql: seq<Part>, offset: Integer, rest: seq<Part>)
    requires sql != [] && Bare(sql)
    ensures ReadHead(W(open) + (sql + (W(", ") + IntegerText(offset) + (W(") OVER (") + rest))))
         == Some((Shift(open, sql, offset), rest))
  {
    var close := W(") OVER (") + rest;
    var middle := W(", ") + IntegerText(offset) + close;
    assert middle[0] == Mark(", ");
    WordThen(open, sql + middle);
    SpanOf(sql, middle);
    BoundReads(", ", offset, close);
    WordThen(") OVER (", rest);
  }

  lemma ShiftText(open: string, sql: seq<Part>, offset: Integer, rest: seq<Part>)
    ensures HeadText(Shift(open, sql, offset)) + rest
         == W(open) + (sql + (W(", ") + IntegerText(offset) + (W(") OVER (") + rest)))
  {
    var a, c, d := W(open), W(", "), IntegerText(offset);
    Inward(a + sql + c, d, W(") OVER ("), rest);
    Assoc(a + sql, c, d + (W(") OVER (") + rest));
    Assoc(a, sql, c + (d + (W(") OVER (") + rest)));
    Assoc(c, d, W(") OVER (") + rest);
  }

  lemma GroupsRead(groups: seq<Item>, rest: seq<Part>)
    requires BareItems(groups) && Ended(rest) && !StartsWith(rest, "PARTITION BY ")
    ensures ReadListAfter(GroupsText(groups) + rest, "PARTITION BY ") == (groups, rest)
  {
    if groups == [] {
      NoMore(rest);
    } else {
      Assoc(W("PARTITION BY "), Joined(groups), rest);
      WordThen("PARTITION BY ", Joined(groups) + rest);
      JoinedReads(groups, rest);
    }
  }

  lemma SortsRead(orders: seq<Item>, rest: seq<Part>)
    requires orders != [] && BareItems(orders) && Ended(rest)
    ensures ReadListAfter(W("ORDER BY ") + Joined(orders) + rest, "ORDER BY ") == (orders, rest)
  {
    Assoc(W("ORDER BY "), Joined(orders), rest);
    WordThen("ORDER BY ", Joined(orders) + rest);
    JoinedReads(orders, rest);
  }

  /** Ends a window specification. */
  predicate Shut(rest: seq<Part>)
  {
    StartsWith(rest, ")")
  }

  lemma ClausesRead(groups: seq<Item>, orders: seq<Item>, rest: seq<Part>)
    requires BareItems(groups) && BareItems(orders) && Shut(rest)
    ensures ReadSpec(ClausesText(groups, orders) + rest) == (groups, orders, rest)
  {
    var sort := W("ORDER BY ") + Joined(orders) + rest;
    if orders == [] {
      GroupsRead(groups, rest);
    } else if groups == [] {
      assert ClausesText(groups, orders) + rest == [] + sort;
      GroupsRead(groups, sort);
      SortsRead(orders, rest);
    } else {
      var space := W(" ");
      WordThen(" ", sort);
      Assoc(GroupsText(groups) + space, W("ORDER BY "), Joined(orders));
      Inward(GroupsText(groups), space, W("ORDER BY ") + Joined(orders), rest);
      GroupsRead(groups, space + sort);
      SortsRead(orders, rest);
    }
  }

  predicate BareParts(parts: seq<WindowPart>)
  {
    forall i :: 0 <= i < |parts| ==> Bare(parts[i].sql)
  }

  lemma {:induction false} PartsAreBare(parts: seq<WindowPart>)
    requires BareParts(parts)
    ensures BareItems(Groups(parts)) && BareItems(Orders(parts))
    decreases |parts|
  {
    if parts != [] {
      PartsAreBare(parts[..|parts| - 1]);
    }
  }

  /** The groups and the orders of a chain of window calls are those of its parts, in order. */
  lemma {:induction false} PartsSeparate(a: seq<WindowPart>, b: seq<WindowPart>)
    ensures Groups(a + b) == Groups(a) + Groups(b) && Orders(a + b) == Orders(a) + Orders(b)
    decreases |b|
  {
    if b == [] {
      NoMore(a);
    } else {
      assert (a + b)[..|a + b| - 1] == a + b[..|b| - 1];
      PartsSeparate(a, b[..|b| - 1]);
    }
  }

  lemma OnePart(part: WindowPart)
    ensures part.shape.Group? ==> Groups([part]) == [Item(part.sql, false)] && Orders([part]) == []
    ensures part.shape.Order? ==> Groups([part]) == [] && Orders([part]) == [Item(part.sql, part.shape.desc)]
  {
    assert [part][..0] == [];
  }

  /** A window reads back: its function with its arguments, what it divides by, what it sorts by. */
  lemma WindowReads(head: Head, parts: seq<WindowPart>)
    requires BareHead(head) && BareParts(parts)
    ensures var spec := SpecText(parts) + W(")");
            && ReadHead(HeadText(head) + SpecText(parts) + W(")")) == Some((head, spec))
            && ReadSpec(spec) == (Groups(parts), Orders(parts), W(")"))
  {
    PartsAreBare(parts);
    Assoc(HeadText(head), SpecText(parts), W(")"));
    HeadReads(head, SpecText(parts) + W(")"));
    ClausesRead(Groups(parts), Orders(parts), W(")"));
  }

  // ---- assignments ----

  /** The column of `column = `. */
  function ReadColumn(word: string): Option<string>
  {
    if |word| >= 3 && word[|word| - 3..] == " = " then Some(word[..|word| - 3]) else None
  }

  function ReadAssigns(ts: seq<Part>): Option<(seq<Assign>, seq<Part>)>
    decreases |ts|
  {
    if ts == [] || !IsWord(ts[0]) then None
    else
      var column :- ReadColumn(ts[0].lexeme.text);
      var value, more := ts[1..][..Span(ts[1..])], ts[1..][Span(ts[1..])..];
      if StartsWith(more, ", ") then
        var rest :- ReadAssigns(more[1..]);
        Some(([Assign(column, value)] + rest.0, rest.1))
      else Some(([Assign(column, value)], more))
  }

  function AssignThen(a: Assign, rest: seq<Part>): seq<Part>
  {
    W(a.column + " = ") + (a.value + rest)
  }

  function AssignsThen(assigns: seq<Assign>, rest: seq<Part>): seq<Part>
    requires assigns != []
  {
    if |assigns| == 1 then AssignThen(assigns[0], rest)
    else AssignThen(assigns[0], W(", ") + AssignsThen(assigns[1..], rest))
  }

  lemma {:induction false} AssignsThenSnoc(assigns: seq<Assign>, last: Assign, rest: seq<Part>)
    requires assigns != []
    ensures AssignsThen(assigns + [last], rest) == AssignsThen(assigns, W(", ") + AssignThen(last, rest))
    decreases |assigns|
  {
    assert (assigns + [last])[1..] == assigns[1..] + [last];
    if |assigns| == 1 {
      assert assigns[1..] + [last] == [last];
    } else {
      AssignsThenSnoc(assigns[1..], last, rest);
    }
  }

  lemma {:induction false} AssignsIsThen(assigns: seq<Assign>, rest: seq<Part>)
    requires assigns != []
    ensures AssignsText(assigns) + rest == AssignsThen(assigns, rest)
    decreases |assigns|
  {
    var n := |assigns| - 1;
    var last := assigns[n];
    Last(assigns);
    if n == 0 {
      assert AssignsText(assigns[..0]) == [];
      NoMore(W(last.column + " = "));
      Assoc(W(last.column + " = "), last.value, rest);
    } else {
      AssignsIsThen(assigns[..n], W(", ") + AssignThen(last, rest));
      AssignsThenSnoc(assigns[..n], last, rest);
      Inward(AssignsText(assigns[..n]) + W(", "), W(last.column + " = "), last.value, rest);
      Assoc(AssignsText(assigns[..n]), W(", "), AssignThen(last, rest));
    }
  }

  predicate BareAssigns(assigns: seq<Assign>)
  {
    forall i :: 0 <= i < |assigns| ==> Bare(assigns[i].value)
  }

  lemma AssignReads(a: Assign, rest: seq<Part>)
    requires Bare(a.value) && (rest == [] || IsWord(rest[0]))
    ensures var ts := AssignThen(a, rest);
            && ts != [] && IsWord(ts[0]) && ReadColumn(ts[0].lexeme.text) == Some(a.column)
            && ts[1..][..Span(ts[1..])] == a.value && ts[1..][Span(ts[1..])..] == rest
  {
    WordThen(a.column + " = ", a.value + rest);
    SpanOf(a.value, rest);
  }

  lemma LastAssignReads(a: Assign, rest: seq<Part>)
    requires Bare(a.value) && Ended(rest)
    ensures ReadAssigns(AssignThen(a, rest)) == Some(([a], rest))
  {
    AssignReads(a, rest);
  }

  lemma NextAssignReads(a: Assign, more: seq<Part>, assigns: seq<Assign>, rest: seq<Part>)
    requires Bare(a.value) && ReadAssigns(more) == Some((assigns, rest))
    ensures ReadAssigns(AssignThen(a, W(", ") + more)) == Some(([a] + assigns, rest))
  {
    AssignReads(a, W(", ") + more);
    WordThen(", ", more);
  }

  lemma {:induction false} AssignsThenRead(assigns: seq<Assign>, rest: seq<Part>)
    requires assigns != [] && BareAssigns(assigns) && Ended(rest)
    ensures ReadAssigns(AssignsThen(assigns, rest)) == Some((assigns, rest))
    decreases |assigns|
  {
    if |assigns| == 1 {
      LastAssignReads(assigns[0], rest);
      assert [assigns[0]] == assigns;
    } else {
      AssignsThenRead(assigns[1..], rest);
      NextAssignReads(assigns[0], AssignsThen(assigns[1..], rest), assigns[1..], rest);
      assert [assigns[0]] + assigns[1..] == assigns;
    }
  }

  /** Every column is assigned its own value. */
  lemma AssignsRead(assigns: seq<Assign>, rest: seq<Part>)
    requires assigns != [] && BareAssigns(assigns) && Ended(rest)
    ensures ReadAssigns(AssignsText(assigns) + rest) == Some((assigns, rest))
  {
    AssignsIsThen(assigns, rest);
    AssignsThenRead(assigns, rest);
  }

  // ---- UPDATE ----

  /** What stands before the first such word, and what after it. */
  function ReadUntil(ts: seq<Part>, text: string): Option<(seq<Lexeme>, seq<Part>)>
  {
    if ts == [] || !ts[0].Token? then None
    else if ts[0] == Mark(text) then Some(([], ts[1..]))
    else
      var rest :- ReadUntil(ts[1..], text);
      Some(([ts[0].lexeme] + rest.0, rest.1))
  }

  lemma {:induction false} UntilReads(lexemes: seq<Lexeme>, text: string, rest: seq<Part>)
    requires Word(text) !in lexemes
    ensures ReadUntil(Tokens(lexemes) + (W(text) + rest), text) == Some((lexemes, rest))
  {
    var ts := Tokens(lexemes) + (W(text) + rest);
    WordThen(text, rest);
    if lexemes == [] {
      NoMore(W(text) + rest);
    } else {
      assert Tokens(lexemes)[1..] == Tokens(lexemes[1..]);
      assert ts[1..] == Tokens(lexemes[1..]) + (W(text) + rest);
      UntilReads(lexemes[1..], text, rest);
      assert [lexemes[0]] + lexemes[1..] == lexemes;
    }
  }

  datatype Update = Update(base: seq<Lexeme>, assigns: seq<Assign>, from: seq<Lexeme>, where: seq<Part>)

  /** `UPDATE base SET assignments from WHERE condition` */
  function ReadUpdate(ts: seq<Part>): Option<Update>
  {
    if !StartsWith(ts, "UPDATE ") then None
    else
      var base :- ReadUntil(ts[1..], " SET ");
      var assigns :- ReadAssigns(base.1);
      var from :- ReadUntil(assigns.1, " WHERE ");
      Some(Update(base.0, assigns.0, from.0, from.1))
  }

  lemma OpenText(base: seq<Lexeme>, rest: seq<Part>)
    ensures Tokens([Word("UPDATE ")] + base + [Word(" SET ")]) + rest
         == W("UPDATE ") + (Tokens(base) + (W(" SET ") + rest))
  {
    assert Tokens([Word("UPDATE ")] + base + [Word(" SET ")]) == W("UPDATE ") + Tokens(base) + W(" SET ");
    Inward(W("UPDATE "), Tokens(base), W(" SET "), rest);
  }

  lemma OpenReads(base: seq<Lexeme>, rest: seq<Part>)
    requires Word(" SET ") !in base
    ensures var ts := Tokens([Word("UPDATE ")] + base + [Word(" SET ")]) + rest;
            StartsWith(ts, "UPDATE ") && ReadUntil(ts[1..], " SET ") == Some((base, rest))
  {
    OpenText(base, rest);
    WordThen("UPDATE ", Tokens(base) + (W(" SET ") + rest));
    UntilReads(base, " SET ", rest);
  }

  /** FROM and its tables, or nothing. */
  predicate IsFrom(from: seq<Lexeme>)
  {
    Word(" WHERE ") !in from && (from == [] || (from[0].Word? && from[0].text != ", " && from[0].text != " DESC"))
  }

  lemma FromReads(from: seq<Lexeme>, rest: seq<Part>)
    requires IsFrom(from)
    ensures var ts := Tokens(from + [Word(" WHERE ")]) + rest;
            Ended(ts) && ReadUntil(ts, " WHERE ") == Some((from, rest))
  {
    assert Tokens(from + [Word(" WHERE ")]) == Tokens(from) + W(" WHERE ");
    Assoc(Tokens(from), W(" WHERE "), rest);
    UntilReads(from, " WHERE ", rest);
  }

  /** An UPDATE reads back: the table, its assignments, the joined tables, and the whole condition. */
  lemma UpdateReads(base: seq<Lexeme>, assigns: seq<Assign>, from: seq<Lexeme>, ons: seq<seq<Part>>, filter: seq<Part>)
    requires Word(" SET ") !in base && assigns != [] && BareAssigns(assigns) && IsFrom(from)
    ensures ReadUpdate(UpdateText(base, assigns, from, ons, filter))
         == Some(Update(base, assigns, from, OnsText(ons) + filter))
  {
    var open := Tokens([Word("UPDATE ")] + base + [Word(" SET ")]);
    var tail := Tokens(from + [Word(" WHERE ")]) + (OnsText(ons) + filter);
    FromReads(from, OnsText(ons) + filter);
    AssignsRead(assigns, tail);
    Assoc(open, AssignsText(assigns), tail);
    OpenReads(base, AssignsText(assigns) + tail);
  }

  // ---- bulk UPDATE ----

  function ReadArrays(ts: seq<Part>): (r: (seq<Ident>, seq<Part>))
    decreases |ts|
  {
    if ts == [] || !ts[0].Capture? then ([], ts)
    else if StartsWith(ts[1..], ",") then
      var rest := ReadArrays(ts[2..]);
      ([ts[0].ident] + rest.0, rest.1)
    else ([ts[0].ident], ts[1..])
  }

  function ArraysThen(data: seq<Ident>, rest: seq<Part>): seq<Part>
    requires data != []
  {
    if |data| == 1 then [Capture(data[0])] + rest else [Capture(data[0])] + (W(",") + ArraysThen(data[1..], rest))
  }

  lemma {:induction false} ArraysThenSnoc(data: seq<Ident>, last: Ident, rest: seq<Part>)
    requires data != []
    ensures ArraysThen(data + [last], rest) == ArraysThen(data, W(",") + ([Capture(last)] + rest))
    decreases |data|
  {
    assert (data + [last])[1..] == data[1..] + [last];
    if |data| == 1 {
      assert data[1..] + [last] == [last];
    } else {
      ArraysThenSnoc(data[1..], last, rest);
    }
  }

  lemma {:induction false} ArraysIsThen(data: seq<Ident>, rest: seq<Part>)
    requires data != []
    ensures ArraysText(data) + rest == ArraysThen(data, rest)
    decreases |data|
  {
    var n := |data| - 1;
    var last := [Capture(data[n])];
    Last(data);
    if n == 0 {
      assert ArraysText(data[..0]) == [];
      NoMore(last);
    } else {
      ArraysIsThen(data[..n], W(",") + (last + rest));
      ArraysThenSnoc(data[..n], data[n], rest);
      Inward(ArraysText(data[..n]), W(","), last, rest);
    }
  }

  lemma {:induction false} ArraysThenRead(data: seq<Ident>, rest: seq<Part>)
    requires data != [] && !StartsWith(rest, ",")
    ensures ReadArrays(ArraysThen(data, rest)) == (data, rest)
    decreases |data|
  {
    var ts := ArraysThen(data, rest);
    if |data| == 1 {
      assert ts[1..] == rest && [data[0]] == data;
    } else {
      var more := ArraysThen(data[1..], rest);
      assert ts[1..] == W(",") + more;
      WordThen(",", more);
      assert ts[2..] == more;
      ArraysThenRead(data[1..], rest);
      assert [data[0]] + data[1..] == data;
    }
  }

  datatype Each = Each(
    base: seq<Lexeme>, assigns: seq<Assign>, arrays: seq<Ident>, names: Lexeme, where: seq<Part>)

  /** `UPDATE base SET assignments FROM unnest(arrays) AS __d(names) WHERE condition` */
  function ReadEach(ts: seq<Part>): Option<Each>
  {
    if !StartsWith(ts, "UPDATE ") then None
    else
      var base :- ReadUntil(ts[1..], " SET ");
      var assigns :- ReadAssigns(base.1);
      if !StartsWith(assigns.1, " FROM unnest(") then None
      else
        var (arrays, more) := ReadArrays(assigns.1[1..]);
        if |more| >= 4 && more[0] == Mark(") AS __d(") && more[1].Token? && more[2] == Mark(")") && more[3] == Mark(" WHERE ")
        then Some(Each(base.0, assigns.0, arrays, more[1].lexeme, more[4..])) else None
  }

  lemma EachIsNested(base: seq<Lexeme>, data: seq<Ident>, assigns: seq<Assign>, names: string, filter: seq<Part>)
    ensures var close := Tokens([Word(") AS __d("), Word(names), Word(")"), Word(" WHERE ")]);
            EachText(base, data, assigns, names, filter)
            == Tokens([Word("UPDATE ")] + base + [Word(" SET ")])
               + (AssignsText(assigns) + (W(" FROM unnest(") + (ArraysText(data) + (close + filter))))
  {
    var close := Tokens([Word(") AS __d("), Word(names), Word(")"), Word(" WHERE ")]);
    var open := Tokens([Word("UPDATE ")] + base + [Word(" SET ")]);
    Inward(open + AssignsText(assigns) + W(" FROM unnest("), ArraysText(data), close, filter);
    Inward(open, AssignsText(assigns), W(" FROM unnest("), ArraysText(data) + (close + filter));
  }

  /** A bulk UPDATE reads back: every assignment, every array in order, and the condition. */
  lemma EachReads(base: seq<Lexeme>, data: seq<Ident>, assigns: seq<Assign>, names: string, filter: seq<Part>)
    requires Word(" SET ") !in base && assigns != [] && BareAssigns(assigns) && data != []
    ensures ReadEach(EachText(base, data, assigns, names, filter)) == Some(Each(base, assigns, data, Word(names), filter))
  {
    var close := Tokens([Word(") AS __d("), Word(names), Word(")"), Word(" WHERE ")]);
    var arrays := ArraysText(data) + (close + filter);
    var from := W(" FROM unnest(") + arrays;
    EachIsNested(base, data, assigns, names, filter);
    OpenReads(base, AssignsText(assigns) + from);
    WordThen(" FROM unnest(", arrays);
    AssignsRead(assigns, from);
    ArraysIsThen(data, close + filter);
    ArraysThenRead(data, close + filter);
    assert (close + filter)[4..] == filter;
  }
}
