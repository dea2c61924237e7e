/**
 Quoting of names and strings, and reading them back with the rules of ISO/IEC 9075-2, sections
 5.2 (delimited identifiers) and 5.3 (character string literals).
 */
module Quoting {
  import opened Sequences
  import opened Wrappers

  // ---- reading ----

  /** The content up to the closing delimiter, doubled delimiters taken as one, and what follows. */
  function ReadTail(text: string, delimiter: char): Option<(string, string)>
    decreases |text|
  {
    if text == "" then None
    else if text[0] != delimiter then
      var (content, rest) :- ReadTail(text[1..], delimiter);
      Some(([text[0]] + content, rest))
    else if |text| > 1 && text[1] == delimiter then
      var (content, rest) :- ReadTail(text[2..], delimiter);
      Some(([delimiter] + content, rest))
    else Some(("", text[1..]))
  }

  /** A delimited identifier, or a string literal. */
  function ReadDelimited(text: string, delimiter: char): Option<(string, string)>
  {
    if text == "" || text[0] != delimiter then None else ReadTail(text[1..], delimiter)
  }

  /** Delimited identifiers with dots between them. */
  function ReadChain(text: string): Option<(seq<string>, string)>
    decreases |text|
  {
    var (name, rest) :- ReadName(text);
    if |rest| > 1 && rest[0] == '.' && rest[1] == '"' then
      var (names, after) :- ReadChain(rest[1..]);
      Some(([name] + names, after))
    else Some(([name], rest))
  }

  function ReadName(text: string): (r: Option<(string, string)>)
    ensures r.Some? ==> |r.value.1| < |text|
  {
    var r := ReadDelimited(text, '"');
    if r.Some? && |r.value.1| < |text| then r else None
  }

  // ---- writing ----

  function Doubled(s: string, delimiter: char): string
  {
    if s == "" then ""
    else (if s[0] == delimiter then [delimiter, delimiter] else [s[0]]) + Doubled(s[1..], delimiter)
  }

  function Delimited(s: string, delimiter: char): string
  {
    [delimiter] + Doubled(s, delimiter) + [delimiter]
  }

  /** What goes between the outer quotes: quotes doubled, and a dot closes one name and opens the next. */
  function Inside(s: string): string
  {
    if s == "" then "" else Piece(s[0]) + Inside(s[1..])
  }

  function Piece(c: char): string
  {
    if c == '"' then "\"\"" else if c == '.' then "\".\"" else [c]
  }

  lemma {:induction false} InsideAppend(a: string, b: string)
    ensures Inside(a + b) == Inside(a) + Inside(b)
    decreases |a|
  {
    if a == "" {
      assert a + b == b;
    } else {
      assert (a + b)[1..] == a[1..] + b;
      InsideAppend(a[1..], b);
      Assoc(Piece(a[0]), Inside(a[1..]), Inside(b));
    }
  }

  lemma {:induction false} InsidePlain(s: string)
    requires forall i :: 0 <= i < |s| ==> s[i] != '"' && s[i] != '.'
    ensures Inside(s) == s
    decreases |s|
  {
    if s != "" {
      InsidePlain(s[1..]);
    }
  }

  lemma InsideStep(s: string, start: nat, end: nat)
    requires start <= end < |s| && forall i :: start <= i < end ==> s[i] != '"' && s[i] != '.'
    ensures Inside(s[..end + 1]) == Inside(s[..start]) + s[start..end] + Piece(s[end])
  {
    assert s[..end + 1] == s[..start] + (s[start..end] + [s[end]]);
    InsideAppend(s[..start], s[start..end] + [s[end]]);
    InsideAppend(s[start..end], [s[end]]);
    InsidePlain(s[start..end]);
    assert [s[end]][1..] == "" && Inside([s[end]]) == Piece(s[end]);
    Assoc(Inside(s[..start]), s[start..end], Piece(s[end]));
  }

  /** Copies stretches without special characters, and each special character in its quoted form. */
  method Quoted(s: string) returns (quoted: string)
    ensures quoted == "\"" + Inside(s) + "\""
  {
    quoted := "\"";
    var start := 0;
    for end := 0 to |s|
      invariant start <= end
      invariant quoted == "\"" + Inside(s[..start])
      invariant forall i :: start <= i < end ==> s[i] != '"' && s[i] != '.'
    {
      if s[end] == '"' || s[end] == '.' {
        InsideStep(s, start, end);
        Assoc("\"", Inside(s[..start]), s[start..end]);
        Assoc("\"", Inside(s[..start]) + s[start..end], Piece(s[end]));
        quoted := quoted + s[start..end];
        quoted := quoted + (if s[end] == '.' then "\".\"" else "\"\"");
        start := end + 1;
      }
    }
    assert s == s[..start] + s[start..];
    InsideAppend(s[..start], s[start..]);
    InsidePlain(s[start..]);
    Assoc("\"", Inside(s[..start]), s[start..]);
    quoted := quoted + s[start..];
    quoted := quoted + "\"";
  }

  /** Parts of `s` between occurrences of `at`. */
  function Split(s: string, at: char): (r: seq<string>)
    ensures r != []
  {
    if s == "" then [""]
    else
      var r := Split(s[1..], at);
      if s[0] == at then [""] + r else [[s[0]] + r[0]] + r[1..]
  }

  function Rejoin(parts: seq<string>, glue: string): string
    requires parts != []
  {
    if |parts| == 1 then parts[0] else parts[0] + glue + Rejoin(parts[1..], glue)
  }

  lemma RejoinFirst(head: string, parts: seq<string>, glue: string)
    requires parts != []
    ensures Rejoin([head + parts[0]] + parts[1..], glue) == head + Rejoin(parts, glue)
  {
    var all := [head + parts[0]] + parts[1..];
    if |parts| > 1 {
      assert all[1..] == parts[1..];
      Assoc(head, parts[0], glue);
      Assoc(head, parts[0] + glue, Rejoin(parts[1..], glue));
    }
  }

  lemma {:induction false} SplitRejoins(s: string, at: char)
    ensures Rejoin(Split(s, at), [at]) == s
    decreases |s|
  {
    if s != "" {
      var r := Split(s[1..], at);
      SplitRejoins(s[1..], at);
      if s[0] == at {
        assert ([""] + r)[1..] == r;
      } else {
        RejoinFirst([s[0]], r, [at]);
      }
    }
  }

  lemma {:induction false} SplitDoubles(s: string, delimiter: char)
    ensures Rejoin(Split(s, delimiter), [delimiter, delimiter]) == Doubled(s, delimiter)
    decreases |s|
  {
    if s != "" {
      var r, glue := Split(s[1..], delimiter), [delimiter, delimiter];
      SplitDoubles(s[1..], delimiter);
      if s[0] == delimiter {
        assert ([""] + r)[1..] == r;
      } else {
        RejoinFirst([s[0]], r, glue);
      }
    }
  }

  /** Savepoint and channel names: the parts between quotes, with doubled quotes between them. */
  method WriteName(command: string, name: string) returns (out: string)
    ensures out == command + " " + Delimited(name, '"')
  {
    out := command + " \"";
    var parts := Split(name, '"');
    out := out + parts[0];
    ghost var head := command + " \"";
    var last := parts[0];
    for i := 1 to |parts|
      invariant out == head + Rejoin(parts[..i], "\"\"")
    {
      RejoinSnoc(parts[..i], parts[i], "\"\"");
      assert parts[..i + 1] == parts[..i] + [parts[i]];
      Assoc(head, Rejoin(parts[..i], "\"\""), "\"\"");
      Assoc(head, Rejoin(parts[..i], "\"\"") + "\"\"", parts[i]);
      out := out + "\"\"";
      out := out + parts[i];
    }
    assert parts[..|parts|] == parts;
    SplitDoubles(name, '"');
    out := out + "\"";
    assert out == command + " " + Delimited(name, '"');
  }

  lemma {:induction false} RejoinSnoc(parts: seq<string>, last: string, glue: string)
    requires parts != []
    ensures Rejoin(parts + [last], glue) == Rejoin(parts, glue) + glue + last
    decreases |parts|
  {
    var all := parts + [last];
    if |parts| == 1 {
      assert all[1..] == [last];
    } else {
      assert all[1..] == parts[1..] + [last];
      RejoinSnoc(parts[1..], last, glue);
      var inner := Rejoin(parts[1..], glue);
      Assoc(parts[0] + glue, inner, glue);
      Assoc(parts[0] + glue, inner + glue, last);
    }
  }

  // ---- quoting undone ----

  lemma {:induction false} DoubledReads(s: string, delimiter: char, rest: string)
    requires rest == "" || rest[0] != delimiter
    ensures ReadTail(Doubled(s, delimiter) + ([delimiter] + rest), delimiter) == Some((s, rest))
    decreases |s|
  {
    var text := Doubled(s, delimiter) + ([delimiter] + rest);
    if s == "" {
      assert text == [delimiter] + rest && text[1..] == rest;
    } else {
      DoubledReads(s[1..], delimiter, rest);
      var tail := Doubled(s[1..], delimiter) + ([delimiter] + rest);
      if s[0] == delimiter {
        assert text == [delimiter, delimiter] + tail && text[2..] == tail;
        assert [delimiter] + s[1..] == s;
      } else {
        assert text == [s[0]] + tail && text[1..] == tail;
        assert [s[0]] + s[1..] == s;
      }
    }
  }

  /** A rendered string literal, and a quoted savepoint or channel name, read back as what they were. */
  lemma DelimitedReads(s: string, delimiter: char, rest: string)
    requires rest == "" || rest[0] != delimiter
    ensures ReadDelimited(Delimited(s, delimiter) + rest, delimiter) == Some((s, rest))
  {
    var text := Delimited(s, delimiter) + rest;
    assert text[1..] == Doubled(s, delimiter) + ([delimiter] + rest);
    DoubledReads(s, delimiter, rest);
  }

  /** Names as they are written one after the other. */
  function Chain(names: seq<string>, rest: string): string
    requires names != []
  {
    if |names| == 1 then Delimited(names[0], '"') + rest
    else Delimited(names[0], '"') + ("." + Chain(names[1..], rest))
  }

  lemma ChainStarts(names: seq<string>, rest: string)
    requires names != []
    ensures Chain(names, rest) != "" && Chain(names, rest)[0] == '"'
  {
  }

  lemma {:induction false} ChainReads(names: seq<string>, rest: string)
    requires names != [] && (rest == "" || (rest[0] != '"' && rest[0] != '.'))
    ensures ReadChain(Chain(names, rest)) == Some((names, rest))
    decreases |names|
  {
    if |names| == 1 {
      DelimitedReads(names[0], '"', rest);
      assert names == [names[0]];
    } else {
      ChainStarts(names[1..], rest);
      ChainReads(names[1..], rest);
      NextNameReads(names[0], Chain(names[1..], rest), names[1..], rest);
      assert names == [names[0]] + names[1..];
    }
  }

  lemma NextNameReads(name: string, more: string, names: seq<string>, rest: string)
    requires more != "" && more[0] == '"' && ReadChain(more) == Some((names, rest))
    ensures ReadChain(Delimited(name, '"') + ("." + more)) == Some(([name] + names, rest))
  {
    var after := "." + more;
    DelimitedReads(name, '"', after);
    assert after[1..] == more;
  }

  lemma DelimitedFirst(c: char, name: string, tail: string)
    requires c != '.'
    ensures Delimited([c] + name, '"') + tail == "\"" + Piece(c) + (Delimited(name, '"') + tail)[1..]
  {
    var inside := Doubled(name, '"');
    assert ([c] + name)[1..] == name;
    assert Doubled([c] + name, '"') == Piece(c) + inside;
    assert (Delimited(name, '"') + tail)[1..] == inside + "\"" + tail;
  }

  lemma ChainFirst(c: char, names: seq<string>, rest: string)
    requires names != [] && c != '.'
    ensures Chain([[c] + names[0]] + names[1..], rest) == "\"" + Piece(c) + Chain(names, rest)[1..]
  {
    var all := [[c] + names[0]] + names[1..];
    assert all[1..] == names[1..];
    DelimitedFirst(c, names[0], if |names| == 1 then rest else "." + Chain(names[1..], rest));
  }

  /** The quoted form after its first quote, and what follows it. */
  function Opened(s: string, rest: string): string
  {
    if s == "" then "\"" + rest else Piece(s[0]) + Opened(s[1..], rest)
  }

  lemma {:induction false} OpenedIsInside(s: string, rest: string)
    ensures "\"" + Inside(s) + "\"" + rest == "\"" + Opened(s, rest)
    decreases |s|
  {
    if s != "" {
      OpenedIsInside(s[1..], rest);
      Unquote(Inside(s[1..]), rest, Opened(s[1..], rest));
      Assoc(Piece(s[0]), Inside(s[1..]), "\"" + rest);
      Requote(Inside(s), rest);
    } else {
      Requote("", rest);
    }
  }

  lemma Requote(text: string, rest: string)
    ensures "\"" + text + "\"" + rest == "\"" + (text + ("\"" + rest))
  {
  }

  lemma Unquote(text: string, rest: string, inner: string)
    requires "\"" + text + "\"" + rest == "\"" + inner
    ensures text + ("\"" + rest) == inner
  {
    Requote(text, rest);
    assert inner == ("\"" + inner)[1..];
    assert text + ("\"" + rest) == ("\"" + (text + ("\"" + rest)))[1..];
  }

  lemma DotPiece(tail: string)
    ensures "\"" + (Piece('.') + tail) == "\"\"" + ("." + ("\"" + tail))
  {
  }

  lemma {:induction false} QuotedIsChain(s: string, rest: string)
    ensures "\"" + Opened(s, rest) == Chain(Split(s, '.'), rest)
    decreases |s|
  {
    if s == "" {
      assert Delimited("", '"') == "\"\"";
    } else {
      QuotedIsChain(s[1..], rest);
      if s[0] == '.' {
        DotChain(Split(s[1..], '.'), Opened(s[1..], rest), rest);
      } else {
        LetterChain(s[0], Split(s[1..], '.'), Opened(s[1..], rest), rest);
      }
    }
  }

  lemma DotChain(names: seq<string>, tail: string, rest: string)
    requires names != [] && "\"" + tail == Chain(names, rest)
    ensures "\"" + (Piece('.') + tail) == Chain([""] + names, rest)
  {
    assert ([""] + names)[1..] == names;
    assert Delimited("", '"') == "\"\"";
    DotPiece(tail);
  }

  lemma LetterChain(c: char, names: seq<string>, tail: string, rest: string)
    requires names != [] && c != '.' && "\"" + tail == Chain(names, rest)
    ensures "\"" + (Piece(c) + tail) == Chain([[c] + names[0]] + names[1..], rest)
  {
    ChainFirst(c, names, rest);
    assert ("\"" + tail)[1..] == tail;
    Assoc("\"", Piece(c), tail);
  }

  /** The quoted form of a dotted name is read back as its parts, whatever characters they have. */
  lemma QuotedReads(s: string, rest: string)
    requires rest == "" || (rest[0] != '"' && rest[0] != '.')
    ensures ReadChain("\"" + Inside(s) + "\"" + rest) == Some((Split(s, '.'), rest))
  {
    OpenedIsInside(s, rest);
    QuotedIsChain(s, rest);
    ChainReads(Split(s, '.'), rest);
  }

  /** So no two names are quoted alike. */
  lemma QuotedIsInjective(a: string, b: string)
    requires "\"" + Inside(a) + "\"" == "\"" + Inside(b) + "\""
    ensures a == b
  {
    var none: string := "";
    assert "\"" + Inside(a) + "\"" + none == "\"" + Inside(a) + "\"";
    assert "\"" + Inside(b) + "\"" + none == "\"" + Inside(b) + "\"";
    QuotedReads(a, none);
    QuotedReads(b, none);
    SplitRejoins(a, '.');
    SplitRejoins(b, '.');
  }
}
