/** Row variables in scope, the table aliases they stand for, and how names are resolved. */
module QueryScope {
  import opened Wrappers
  import opened Syntax

  // ---- aliases ----

  function Digit(d: nat): char
    requires d < 10
  {
    '0' + d as char
  }

  function Decimal(n: nat): (s: string)
    ensures s != [] && forall i :: 0 <= i < |s| ==> '0' <= s[i] <= '9'
  {
    if n < 10 then [Digit(n)] else Decimal(n / 10) + [Digit(n % 10)]
  }

  function DecimalValue(s: string): int
  {
    if s == [] then 0 else 10 * DecimalValue(s[..|s| - 1]) + (s[|s| - 1] as int - '0' as int)
  }

  lemma {:induction false} DecimalReads(n: nat)
    ensures DecimalValue(Decimal(n)) == n
  {
    var s := Decimal(n);
    if n < 10 {
      assert s == [Digit(n)] && s[..0] == [];
    } else {
      DecimalReads(n / 10);
      assert s[..|s| - 1] == Decimal(n / 10);
    }
  }

  /** The alias of the table at position `index` of the query at nesting depth `depth`. */
  function Qualifier(depth: nat, index: nat): string
  {
    "q" + Decimal(depth) + "_" + Decimal(index)
  }

  /** `q`, the level, an underscore and the position; a level or position below ten is one digit. */
  lemma QualifierText(depth: nat, index: nat)
    requires depth < 10 && index < 10
    ensures Qualifier(depth, index) == ['q', "0123456789"[depth], '_', "0123456789"[index]]
    ensures Qualifier(10 + depth, index) == ['q', '1', "0123456789"[depth], '_', "0123456789"[index]]
  {
    assert forall d :: 0 <= d < 10 ==> "0123456789"[d] == Digit(d);
    assert Decimal(10 + depth) == Decimal(1) + [Digit(depth)];
  }

  /** What precedes the first underscore. */
  function Before(s: string): string
  {
    if s == "" || s[0] == '_' then "" else [s[0]] + Before(s[1..])
  }

  lemma {:induction false} BeforeUnderscore(a: string, b: string)
    requires forall i :: 0 <= i < |a| ==> a[i] != '_'
    ensures Before(a + "_" + b) == a
  {
    var s := a + "_" + b;
    if a != "" {
      assert s[1..] == a[1..] + "_" + b;
      BeforeUnderscore(a[1..], b);
    }
  }

  lemma SplitAt(a: string, b: string, c: string, d: string)
    requires a + "_" + b == c + "_" + d
    requires forall i :: 0 <= i < |a| ==> a[i] != '_'
    requires forall i :: 0 <= i < |c| ==> c[i] != '_'
    ensures a == c && b == d
  {
    BeforeUnderscore(a, b);
    BeforeUnderscore(c, d);
    assert b == (a + "_" + b)[|a| + 1..];
  }

  /** Different places get different aliases. */
  lemma QualifierInjective(d: nat, i: nat, e: nat, j: nat)
    requires Qualifier(d, i) == Qualifier(e, j)
    ensures d == e && i == j
  {
    var a, b := "q" + Decimal(d), "q" + Decimal(e);
    SplitAt(a, Decimal(i), b, Decimal(j));
    assert a[1..] == Decimal(d) && b[1..] == Decimal(e);
    DecimalReads(d);
    DecimalReads(e);
    DecimalReads(i);
    DecimalReads(j);
  }

  // ---- scopes ----

  datatype Var = Var(ident: Ident, alias: string)

  datatype Scope = Scope(vars: seq<Var>, depth: nat, outer: Option<Scope>)

  function Bindings(depth: nat, idents: seq<Ident>): (vars: seq<Var>)
    ensures |vars| == |idents|
    ensures forall i :: 0 <= i < |vars| ==> vars[i] == Var(idents[i], Qualifier(depth, i))
  {
    seq(|idents|, i requires 0 <= i < |idents| => Var(idents[i], Qualifier(depth, i)))
  }

  /** The scope of a query at the top of a statement. */
  function ForBindings(depth: nat, idents: seq<Ident>): Scope
  {
    Scope(Bindings(depth, idents), depth, None)
  }

  /** The scope of a subquery: its aliases live one level deeper, and it sees everything outside. */
  function Nested(parent: Scope, idents: seq<Ident>): Scope
  {
    Scope(Bindings(parent.depth + 1, idents), parent.depth + 1, Some(parent))
  }

  function Find(vars: seq<Var>, x: Ident): (r: Option<string>)
    ensures r.Some? <==> exists i :: 0 <= i < |vars| && vars[i].ident == x
  {
    if vars == [] then None
    else if vars[0].ident == x then Some(vars[0].alias)
    else Find(vars[1..], x)
  }

  /** Inner variables shadow outer ones; among the variables of one query the first wins. */
  function Resolve(scope: Scope, x: Ident): Option<string>
    decreases scope
  {
    var local := Find(scope.vars, x);
    if local.Some? then local
    else if scope.outer.Some? then Resolve(scope.outer.value, x)
    else None
  }

  /** `variable.column`, when the variable is in scope. */
  function ColumnRef(scope: Scope, e: Expr): Option<(string, string)>
  {
    if e.Field? && e.base.Path? then
      var alias :- Resolve(scope, e.base.id);
      Some((alias, e.column))
    else None
  }

  /** Every alias was made for its own level, and levels count up from the outside in. */
  ghost predicate Layered(scope: Scope)
    decreases scope
  {
    && (forall i :: 0 <= i < |scope.vars| ==> scope.vars[i].alias == Qualifier(scope.depth, i))
    && (scope.outer.Some? ==> scope.outer.value.depth < scope.depth && Layered(scope.outer.value))
  }

  lemma {:induction false} FindIsQualifier(vars: seq<Var>, depth: nat, from: nat, x: Ident) returns (i: nat)
    requires forall k :: 0 <= k < |vars| ==> vars[k].alias == Qualifier(depth, from + k)
    requires Find(vars, x).Some?
    ensures Find(vars, x) == Some(Qualifier(depth, i))
    ensures from <= i < from + |vars| && vars[i - from].ident == x
    ensures forall k :: 0 <= k < i - from ==> vars[k].ident != x
    decreases |vars|
  {
    if vars[0].ident == x {
      i := from;
    } else {
      i := FindIsQualifier(vars[1..], depth, from + 1, x);
    }
  }

  /** Nothing in scope can be hidden by the alias of a deeper level. */
  lemma {:induction false} DeeperIsFresh(scope: Scope, depth: nat, index: nat, x: Ident)
    requires Layered(scope) && scope.depth < depth && Resolve(scope, x).Some?
    ensures Resolve(scope, x).value != Qualifier(depth, index)
    decreases scope
  {
    if Find(scope.vars, x).Some? {
      var i := FindIsQualifier(scope.vars, scope.depth, 0, x);
      if Qualifier(scope.depth, i) == Qualifier(depth, index) {
        QualifierInjective(scope.depth, i, depth, index);
      }
    } else {
      DeeperIsFresh(scope.outer.value, depth, index, x);
    }
  }

  lemma ResolveNested(scope: Scope, x: Ident, y: Ident)
    ensures Resolve(Nested(scope, [x]), y) ==
            if x == y then Some(Qualifier(scope.depth + 1, 0)) else Resolve(scope, y)
  {
    var inner := Nested(scope, [x]);
    assert inner.vars[0] == Var(x, Qualifier(scope.depth + 1, 0));
    assert Find(inner.vars[1..], y).None?;
  }

  lemma NestedIsLayered(parent: Scope, idents: seq<Ident>)
    requires Layered(parent)
    ensures Layered(Nested(parent, idents))
  {
  }

  /** Two variables in scope that share an alias are the same binding of the same name. */
  lemma {:induction false} AliasesNeverClash(scope: Scope, x: Ident, y: Ident)
    requires Layered(scope)
    requires Resolve(scope, x).Some? && Resolve(scope, x) == Resolve(scope, y)
    ensures x == y
    decreases scope
  {
    var fx, fy := Find(scope.vars, x), Find(scope.vars, y);
    if fx.None? && fy.None? {
      AliasesNeverClash(scope.outer.value, x, y);
    } else if fx.Some? {
      LocalNeverClashes(scope, x, y);
    } else {
      LocalNeverClashes(scope, y, x);
    }
  }

  lemma LocalNeverClashes(scope: Scope, x: Ident, y: Ident)
    requires Layered(scope) && Find(scope.vars, x).Some?
    requires Resolve(scope, y).Some? && Resolve(scope, x) == Resolve(scope, y)
    ensures x == y
  {
    if Find(scope.vars, y).Some? {
      SameLayer(scope.vars, scope.depth, x, y);
    } else {
      var i := FindIsQualifier(scope.vars, scope.depth, 0, x);
      DeeperIsFresh(scope.outer.value, scope.depth, i, y);
    }
  }

  lemma SameLayer(vars: seq<Var>, depth: nat, x: Ident, y: Ident)
    requires forall k :: 0 <= k < |vars| ==> vars[k].alias == Qualifier(depth, k)
    requires Find(vars, x).Some? && Find(vars, x) == Find(vars, y)
    ensures x == y
  {
    var i := FindIsQualifier(vars, depth, 0, x);
    var j := FindIsQualifier(vars, depth, 0, y);
    QualifierInjective(depth, i, depth, j);
  }
}
