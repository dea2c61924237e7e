/**
 The canonical ordering algorithm of section 3.11 of the Unicode Standard (D108, D109),
 stated as the standard states it: adjacent reorderable pairs are exchanged until none is
 left. `Order` is an insertion sort that the executable code is compared with; the main
 result is that it is the one and only outcome of the exchanges.
 */
module CanonicalOrder {

  /** A canonical combining class is one byte wide. */
  type Class = n: nat | n < 256

  /** The combining-class table is a parameter: nothing depends on its contents. */
  type Classes = char -> Class

  /** D108: a higher nonzero class directly before a lower nonzero class. */
  predicate Reorderable(ccc: Classes, s: seq<char>, i: nat)
  {
    i + 1 < |s| && ccc(s[i]) > ccc(s[i + 1]) > 0
  }

  predicate Ordered(ccc: Classes, s: seq<char>)
  {
    forall i: nat | i + 1 < |s| :: !Reorderable(ccc, s, i)
  }

  function Exchange(s: seq<char>, i: nat): (t: seq<char>)
    requires i + 1 < |s|
  {
    s[..i] + [s[i + 1], s[i]] + s[i + 2..]
  }

  /** `path` lists the reorderable pairs exchanged, in turn, on the way from `s` to `t`. */
  ghost predicate Leads(ccc: Classes, s: seq<char>, path: seq<nat>, t: seq<char>)
    decreases |path|
  {
    if path == [] then
      s == t
    else
      Reorderable(ccc, s, path[0]) && Leads(ccc, Exchange(s, path[0]), path[1..], t)
  }

  /** D109: `t` is reached from `s` by exchanges and has no reorderable pair left. */
  ghost predicate IsCanonicalOrderOf(ccc: Classes, s: seq<char>, t: seq<char>)
  {
    Ordered(ccc, t) && exists path :: Leads(ccc, s, path, t)
  }

  /** Moves `c` left past the higher classes at the end of `d`; a starter never moves. */
  function Insert(ccc: Classes, d: seq<char>, c: char): (r: seq<char>)
    ensures |r| == |d| + 1
  {
    if d == [] then [c]
    else
      var last := d[|d| - 1];
      if ccc(last) > ccc(c) > 0 then Insert(ccc, d[..|d| - 1], c) + [last] else d + [c]
  }

  function Order(ccc: Classes, s: seq<char>): (r: seq<char>)
    ensures |r| == |s|
  {
    if s == [] then []
    else Insert(ccc, Order(ccc, s[..|s| - 1]), s[|s| - 1])
  }

  lemma OrderSnoc(ccc: Classes, s: seq<char>, c: char)
    ensures Order(ccc, s + [c]) == Insert(ccc, Order(ccc, s), c)
  {
    assert (s + [c])[..|s|] == s;
  }

  // ---- Order is an outcome of the exchanges ----

  lemma {:induction false} InsertKeepsOrdered(ccc: Classes, d: seq<char>, c: char)
    requires Ordered(ccc, d)
    ensures Ordered(ccc, Insert(ccc, d, c))
    ensures d != [] ==>
              var r := Insert(ccc, d, c);
              r[|d|] == c || (r[|d|] == d[|d| - 1] && ccc(d[|d| - 1]) > ccc(c) > 0)
  {
    if d != [] {
      var n := |d| - 1;
      if ccc(d[n]) > ccc(c) > 0 {
        var e := d[..n];
        assert Ordered(ccc, e) by {
          forall i: nat | i + 1 < |e| ensures !Reorderable(ccc, e, i) {
            assert !Reorderable(ccc, d, i);
          }
        }
        InsertKeepsOrdered(ccc, e, c);
        var m := Insert(ccc, e, c);
        var r := m + [d[n]];
        forall i: nat | i + 1 < |r| ensures !Reorderable(ccc, r, i) {
          if i + 1 < |m| {
            assert !Reorderable(ccc, m, i);
          } else if e != [] {
            assert !Reorderable(ccc, d, n - 1);
          }
        }
      } else {
        var r := d + [c];
        forall i: nat | i + 1 < |r| ensures !Reorderable(ccc, r, i) {
          if i + 1 < |d| {
            assert !Reorderable(ccc, d, i);
          }
        }
      }
    }
  }

  lemma {:induction false} OrderIsOrdered(ccc: Classes, s: seq<char>)
    ensures Ordered(ccc, Order(ccc, s))
  {
    if s != [] {
      OrderIsOrdered(ccc, s[..|s| - 1]);
      InsertKeepsOrdered(ccc, Order(ccc, s[..|s| - 1]), s[|s| - 1]);
    }
  }

  lemma {:induction false} LeadsTrans(ccc: Classes, s: seq<char>, p: seq<nat>, t: seq<char>, q: seq<nat>, u: seq<char>)
    requires Leads(ccc, s, p, t) && Leads(ccc, t, q, u)
    ensures Leads(ccc, s, p + q, u)
    decreases |p|
  {
    if p == [] {
      assert p + q == q;
    } else {
      LeadsTrans(ccc, Exchange(s, p[0]), p[1..], t, q, u);
      assert (p + q)[1..] == p[1..] + q;
    }
  }

  /** Exchanges inside `s` are exchanges inside `s + tail`. */
  lemma {:induction false} LeadsUnderTail(ccc: Classes, s: seq<char>, p: seq<nat>, t: seq<char>, tail: seq<char>)
    requires Leads(ccc, s, p, t)
    ensures Leads(ccc, s + tail, p, t + tail)
    decreases |p|
  {
    if p != [] {
      LeadsUnderTail(ccc, Exchange(s, p[0]), p[1..], t, tail);
      assert Reorderable(ccc, s + tail, p[0]);
      assert Exchange(s + tail, p[0]) == Exchange(s, p[0]) + tail;
    }
  }

  lemma {:induction false} InsertIsReached(ccc: Classes, d: seq<char>, c: char) returns (path: seq<nat>)
    ensures Leads(ccc, d + [c], path, Insert(ccc, d, c))
  {
    path := [];
    if d != [] {
      var n := |d| - 1;
      if ccc(d[n]) > ccc(c) > 0 {
        var rest := InsertIsReached(ccc, d[..n], c);
        var s := d + [c];
        var once := d[..n] + [c] + [d[n]];
        assert Exchange(s, n) == once;
        LeadsUnderTail(ccc, d[..n] + [c], rest, Insert(ccc, d[..n], c), [d[n]]);
        path := [n] + rest;
        assert path[1..] == rest;
        assert Reorderable(ccc, s, n);
      }
    }
  }

  lemma {:induction false} OrderIsReached(ccc: Classes, s: seq<char>) returns (path: seq<nat>)
    ensures Leads(ccc, s, path, Order(ccc, s))
  {
    path := [];
    if s != [] {
      var n := |s| - 1;
      var init := s[..n];
      var p := OrderIsReached(ccc, init);
      LeadsUnderTail(ccc, init, p, Order(ccc, init), [s[n]]);
      assert s == init + [s[n]];
      var q := InsertIsReached(ccc, Order(ccc, init), s[n]);
      LeadsTrans(ccc, s, p, Order(ccc, init) + [s[n]], q, Order(ccc, s));
      path := p + q;
    }
  }

  // ---- and it is the only one ----

  lemma {:induction false} InsertsCommute(ccc: Classes, d: seq<char>, a: char, b: char)
    requires ccc(a) > ccc(b) > 0
    ensures Insert(ccc, Insert(ccc, d, a), b) == Insert(ccc, Insert(ccc, d, b), a)
  {
    if d != [] {
      var n := |d| - 1;
      var last := d[n];
      var e := d[..n];
      if ccc(last) > ccc(a) {
        InsertsCommute(ccc, e, a, b);
        assert (Insert(ccc, e, a) + [last])[..|d|] == Insert(ccc, e, a);
        assert (Insert(ccc, e, b) + [last])[..|d|] == Insert(ccc, e, b);
      } else {
        assert (d + [a])[..|d|] == d;
        if ccc(last) > ccc(b) {
          assert (Insert(ccc, e, b) + [last])[|d|] == last;
        }
      }
    } else {
      assert ([a])[..0] == [];
    }
  }

  /** Exchanging one reorderable pair does not change the insertion order. */
  lemma {:induction false} ExchangeKeepsOrder(ccc: Classes, s: seq<char>, i: nat)
    requires Reorderable(ccc, s, i)
    ensures Order(ccc, Exchange(s, i)) == Order(ccc, s)
    decreases |s|
  {
    var n := |s| - 1;
    if i + 1 == n {
      ExchangeAtEnd(ccc, s[..i], s[i], s[i + 1]);
      ExchangeLast(s, i);
    } else {
      ExchangeKeepsOrder(ccc, s[..n], i);
      ExchangeInFront(s, i);
      OrderSnoc(ccc, s[..n], s[n]);
      OrderSnoc(ccc, Exchange(s[..n], i), s[n]);
    }
  }

  lemma ExchangeLast(s: seq<char>, i: nat)
    requires i + 2 == |s|
    ensures s == s[..i] + [s[i]] + [s[i + 1]] && Exchange(s, i) == s[..i] + [s[i + 1]] + [s[i]]
  {
  }

  lemma ExchangeInFront(s: seq<char>, i: nat)
    requires i + 2 < |s|
    ensures var n := |s| - 1;
            s == s[..n] + [s[n]] && Exchange(s, i) == Exchange(s[..n], i) + [s[n]]
  {
  }

  lemma ExchangeAtEnd(ccc: Classes, p: seq<char>, a: char, b: char)
    requires ccc(a) > ccc(b) > 0
    ensures Order(ccc, p + [b] + [a]) == Order(ccc, p + [a] + [b])
  {
    OrderSnoc(ccc, p, a);
    OrderSnoc(ccc, p + [a], b);
    OrderSnoc(ccc, p, b);
    OrderSnoc(ccc, p + [b], a);
    InsertsCommute(ccc, Order(ccc, p), a, b);
  }

  lemma {:induction false} OrderedIsFixed(ccc: Classes, s: seq<char>)
    requires Ordered(ccc, s)
    ensures Order(ccc, s) == s
  {
    if s != [] {
      var n := |s| - 1;
      assert Ordered(ccc, s[..n]) by {
        forall i: nat | i + 1 < n ensures !Reorderable(ccc, s[..n], i) {
          assert !Reorderable(ccc, s, i);
        }
      }
      OrderedIsFixed(ccc, s[..n]);
      if n > 0 {
        assert !Reorderable(ccc, s, n - 1);
      }
    }
  }

  lemma {:induction false} LeadsKeepsOrder(ccc: Classes, s: seq<char>, path: seq<nat>, t: seq<char>)
    requires Leads(ccc, s, path, t)
    ensures Order(ccc, t) == Order(ccc, s)
    decreases |path|
  {
    if path != [] {
      ExchangeKeepsOrder(ccc, s, path[0]);
      LeadsKeepsOrder(ccc, Exchange(s, path[0]), path[1..], t);
    }
  }

  /**
   D109 is deterministic: whichever reorderable pairs are exchanged, and in whichever order,
   the outcome without reorderable pairs is exactly `Order`.
   */
  lemma CanonicalOrderIsUnique(ccc: Classes, s: seq<char>, t: seq<char>)
    ensures IsCanonicalOrderOf(ccc, s, t) <==> t == Order(ccc, s)
  {
    if IsCanonicalOrderOf(ccc, s, t) {
      var path :| Leads(ccc, s, path, t);
      LeadsKeepsOrder(ccc, s, path, t);
      OrderedIsFixed(ccc, t);
    }
    if t == Order(ccc, s) {
      OrderIsOrdered(ccc, s);
      var path := OrderIsReached(ccc, s);
    }
  }

  // ---- segments ----

  /** A starter is a barrier: what precedes it and what it begins are ordered apart. */
  lemma {:induction false} InsertAfterStarter(ccc: Classes, d: seq<char>, e: seq<char>, c: char)
    requires e != [] && ccc(e[0]) == 0
    ensures Insert(ccc, d + e, c) == d + Insert(ccc, e, c)
    ensures Insert(ccc, e, c)[0] == e[0]
    decreases |e|
  {
    var n := |e| - 1;
    assert (d + e)[|d + e| - 1] == e[n];
    if ccc(e[n]) > ccc(c) > 0 {
      InsertAfterStarter(ccc, d, e[..n], c);
      assert (d + e)[..|d + e| - 1] == d + e[..n];
    }
  }

  lemma {:induction false} OrderSplitsAtStarter(ccc: Classes, s: seq<char>, e: seq<char>)
    requires e != [] && ccc(e[0]) == 0
    ensures Order(ccc, s + e) == Order(ccc, s) + Order(ccc, e)
    ensures Order(ccc, e)[0] == e[0]
    decreases |e|
  {
    var n := |e| - 1;
    assert s + e == (s + e[..n]) + [e[n]];
    OrderSnoc(ccc, s + e[..n], e[n]);
    if n == 0 {
      assert s + e[..n] == s;
      var d := Order(ccc, s);
      assert Insert(ccc, d, e[0]) == d + [e[0]];
      assert e[..0] == [];
      assert Order(ccc, e) == Insert(ccc, [], e[0]) == [e[0]];
    } else {
      OrderSplitsAtStarter(ccc, s, e[..n]);
      InsertAfterStarter(ccc, Order(ccc, s), Order(ccc, e[..n]), e[n]);
    }
  }
}
