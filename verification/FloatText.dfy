/**
 Float text: the grammar, and a diagnosis of text outside it that names the exact byte at which
 the text stopped being the beginning of a float, or the end at which something is missing.
 */
module FloatText {
  import opened Wrappers
  import opened IntegerText
  import opened Utf8

  type Text = seq<Byte>

  // ---- the grammar ----

  predicate IsSign(b: Byte)
  {
    b == PLUS || b == MINUS
  }

  predicate IsExp(b: Byte)
  {
    b == 'e' as int || b == 'E' as int
  }

  const DOT: Byte := '.' as int

  function Lower(b: Byte): Byte
  {
    if 'A' as int <= b <= 'Z' as int then b + 32 else b
  }

  function Bytes(s: string): (r: Text)
    requires forall i :: 0 <= i < |s| ==> s[i] < 128 as char
    ensures |r| == |s| && forall i :: 0 <= i < |r| ==> r[i] == s[i] as int
  {
    seq(|s|, i requires 0 <= i < |s| => s[i] as int)
  }

  const INFINITY: string := "infinity"
  const NAN: string := "nan"

  /** Spells `word`, in any case. */
  predicate Spells(s: Text, word: string)
  {
    |s| == |word| && forall i :: 0 <= i < |s| ==> Lower(s[i]) == word[i] as int
  }

  predicate Named(s: Text)
  {
    Spells(s, "inf") || Spells(s, "infinity") || Spells(s, "nan")
  }

  /** The bytes that the grammar is made of. */
  lemma Alphabet(b: Byte)
    ensures IsSign(b) <==> b < 128 && b as char in "+-"
    ensures IsExp(b) <==> b < 128 && b as char in "eE"
    ensures b == DOT <==> b < 128 && b as char in "."
  {
  }

  /** Capital letters have small ones, and nothing else does. */
  lemma SmallLetters(b: Byte, i: nat)
    requires i < 26
    ensures b == "ABCDEFGHIJKLMNOPQRSTUVWXYZ"[i] as int ==> Lower(b) == "abcdefghijklmnopqrstuvwxyz"[i] as int
    ensures Lower(b) != b ==> 'A' as int <= b <= 'Z' as int
  {
    var upper, lower := "ABCDEFGHIJKLMNOPQRSTUVWXYZ", "abcdefghijklmnopqrstuvwxyz";
    assert forall k :: 0 <= k < 26 ==> upper[k] as int == 'A' as int + k && lower[k] as int == 'a' as int + k;
  }

  predicate Digits1(s: Text)
  {
    s != [] && AllDigits(s)
  }

  /** Digits with at most one point among or around them, and at least one digit. */
  predicate Mantissa(s: Text)
  {
    || Digits1(s)
    || exists i :: 0 <= i < |s| && s[i] == DOT && AllDigits(s[..i]) && AllDigits(s[i + 1..]) && |s| > 1
  }

  predicate Power10(s: Text)
  {
    Digits1(s) || (s != [] && IsSign(s[0]) && Digits1(s[1..]))
  }

  predicate Exponent(s: Text)
  {
    s == [] || (IsExp(s[0]) && Power10(s[1..]))
  }

  predicate Decimal(s: Text)
  {
    exists i :: 0 <= i <= |s| && Mantissa(s[..i]) && Exponent(s[i..])
  }

  predicate IsFloat(s: Text)
  {
    || Named(s) || Decimal(s)
    || (s != [] && IsSign(s[0]) && (Named(s[1..]) || Decimal(s[1..])))
  }

  /** The beginning of some float. */
  ghost predicate Completable(s: Text)
  {
    exists t :: IsFloat(s + t)
  }

  // ---- the same grammar, one byte at a time ----

  datatype Phase =
    | Start | Signed | Whole | Point | Fraction | Exp | ExpSign | ExpDigits
    | Word(word: string, read: nat)
    | Dead

  function Unnamed(unsigned: bool, b: Byte): Phase
  {
    if Lower(b) == 'i' as int then Word(INFINITY, 1)
    else if Lower(b) == 'n' as int then Word(NAN, 1)
    else if IsDigit(b) then Whole
    else if b == DOT then Point
    else if unsigned && IsSign(b) then Signed
    else Dead
  }

  function Step(p: Phase, b: Byte): Phase
  {
    match p
    case Start => Unnamed(true, b)
    case Signed => Unnamed(false, b)
    case Whole => if IsDigit(b) then Whole else if b == DOT then Fraction else if IsExp(b) then Exp else Dead
    case Point => if IsDigit(b) then Fraction else Dead
    case Fraction => if IsDigit(b) then Fraction else if IsExp(b) then Exp else Dead
    case Exp => if IsDigit(b) then ExpDigits else if IsSign(b) then ExpSign else Dead
    case ExpSign => if IsDigit(b) then ExpDigits else Dead
    case ExpDigits => if IsDigit(b) then ExpDigits else Dead
    case Word(word, read) =>
      if read < |word| && Lower(b) == word[read] as int then Word(word, read + 1) else Dead
    case Dead => Dead
  }

  function Run(p: Phase, s: Text): Phase
    decreases |s|
  {
    if s == [] then p else Run(Step(p, s[0]), s[1..])
  }

  predicate Final(p: Phase)
  {
    p.Whole? || p.Fraction? || p.ExpDigits? || (p.Word? && WordEnds(p.word, p.read))
  }

  predicate Sane(p: Phase)
  {
    p.Word? ==> (p.word == INFINITY || p.word == NAN) && 1 <= p.read <= |p.word|
  }

  // ---- what each phase still accepts ----

  lemma {:induction false} AcceptsExpDigits(s: Text)
    ensures Final(Run(ExpDigits, s)) <==> AllDigits(s)
    decreases |s|
  {
    if s != [] {
      if IsDigit(s[0]) {
        AcceptsExpDigits(s[1..]);
        TailDigits(s);
      } else {
        DeadStays(s[1..]);
      }
    }
  }

  lemma TailDigits(s: Text)
    requires s != []
    ensures AllDigits(s) <==> IsDigit(s[0]) && AllDigits(s[1..])
  {
    if IsDigit(s[0]) && AllDigits(s[1..]) {
      forall i | 0 <= i < |s| ensures IsDigit(s[i]) {
        assert i > 0 ==> s[i] == s[1..][i - 1];
      }
    }
  }

  lemma {:induction false} DeadStays(s: Text)
    ensures Run(Dead, s) == Dead
    decreases |s|
  {
    if s != [] {
      DeadStays(s[1..]);
    }
  }

  lemma AcceptsExpSign(s: Text)
    ensures Final(Run(ExpSign, s)) <==> Digits1(s)
  {
    if s != [] {
      TailDigits(s);
      AcceptsExpDigits(s[1..]);
      DeadStays(s[1..]);
    }
  }

  lemma AcceptsExp(s: Text)
    ensures Final(Run(Exp, s)) <==> Power10(s)
  {
    if s != [] {
      TailDigits(s);
      AcceptsExpDigits(s[1..]);
      AcceptsExpSign(s[1..]);
      DeadStays(s[1..]);
    }
  }

  /** Digits, then an exponent or nothing. */
  predicate FractionRest(s: Text)
  {
    exists i :: 0 <= i <= |s| && AllDigits(s[..i]) && Exponent(s[i..])
  }

  lemma FractionRestStep(s: Text)
    requires s != []
    ensures FractionRest(s) <==> (IsDigit(s[0]) && FractionRest(s[1..])) || Exponent(s)
  {
    if FractionRest(s) {
      var i :| 0 <= i <= |s| && AllDigits(s[..i]) && Exponent(s[i..]);
      if i > 0 {
        assert s[..i][0] == s[0];
        assert s[1..][..i - 1] == s[..i][1..] && s[1..][i - 1..] == s[i..];
      } else {
        assert s[0..] == s;
      }
    }
    if IsDigit(s[0]) && FractionRest(s[1..]) {
      var i :| 0 <= i <= |s| - 1 && AllDigits(s[1..][..i]) && Exponent(s[1..][i..]);
      TailDigits(s[..i + 1]);
      assert s[..i + 1][1..] == s[1..][..i] && s[i + 1..] == s[1..][i..];
    }
    if Exponent(s) {
      assert s[..0] == [] && s[0..] == s;
    }
  }

  lemma {:induction false} AcceptsFraction(s: Text)
    ensures Final(Run(Fraction, s)) <==> FractionRest(s)
    decreases |s|
  {
    if s == [] {
      assert s[..0] == s && Exponent(s[0..]);
    } else {
      FractionRestStep(s);
      AcceptsFraction(s[1..]);
      AcceptsExp(s[1..]);
      DeadStays(s[1..]);
    }
  }

  lemma Slide(s: Text, i: nat)
    requires i < |s|
    ensures s[..i + 1][1..] == s[1..][..i] && s[i + 1..] == s[1..][i..]
  {
  }

  lemma DigitsJoin(s: Text, i: nat)
    requires i < |s| && IsDigit(s[0]) && AllDigits(s[1..][..i])
    ensures AllDigits(s[..i + 1])
  {
    Slide(s, i);
    TailDigits(s[..i + 1]);
  }

  /** Digits, the point, and what may follow it. */
  predicate PointRest(s: Text)
  {
    exists i :: 0 <= i < |s| && AllDigits(s[..i]) && s[i] == DOT && FractionRest(s[i + 1..])
  }

  /** What may follow at least one digit before the point. */
  predicate WholeRest(s: Text)
  {
    FractionRest(s) || PointRest(s)
  }

  lemma PointRestLater(s: Text)
    requires PointRest(s) && s[0] != DOT
    ensures IsDigit(s[0]) && PointRest(s[1..])
  {
    var i :| 0 <= i < |s| && AllDigits(s[..i]) && s[i] == DOT && FractionRest(s[i + 1..]);
    PointAt(s, i);
  }

  lemma PointRestEarlier(s: Text)
    requires s != [] && IsDigit(s[0]) && PointRest(s[1..])
    ensures PointRest(s)
  {
    var t := s[1..];
    var i :| 0 <= i < |t| && AllDigits(t[..i]) && t[i] == DOT && FractionRest(t[i + 1..]);
    DigitsJoin(s, i);
    Slide(s, i + 1);
    assert s[i + 1] == DOT;
  }

  lemma FirstIsDigit(s: Text, i: nat)
    requires i <= |s| && AllDigits(s[..i])
    ensures i > 0 ==> IsDigit(s[0])
  {
    if i > 0 {
      assert s[..i][0] == s[0];
    }
  }

  lemma PointRestHere(s: Text)
    requires s != [] && s[0] == DOT
    ensures PointRest(s) <==> FractionRest(s[1..])
  {
    assert AllDigits(s[..0]);
    if PointRest(s) {
      var i :| 0 <= i < |s| && AllDigits(s[..i]) && s[i] == DOT && FractionRest(s[i + 1..]);
      FirstIsDigit(s, i);
    }
  }

  lemma WholeRestStep(s: Text)
    requires s != []
    ensures WholeRest(s) <==> (IsDigit(s[0]) && WholeRest(s[1..])) || (s[0] == DOT && FractionRest(s[1..])) || Exponent(s)
  {
    FractionRestStep(s);
    if s[0] == DOT {
      PointRestHere(s);
    } else {
      if PointRest(s) {
        PointRestLater(s);
      }
      if IsDigit(s[0]) && PointRest(s[1..]) {
        PointRestEarlier(s);
      }
    }
  }

  lemma {:induction false} AcceptsWhole(s: Text)
    ensures Final(Run(Whole, s)) <==> WholeRest(s)
    decreases |s|
  {
    if s == [] {
      assert s[..0] == s && Exponent(s[0..]);
      assert FractionRest(s);
    } else {
      WholeRestStep(s);
      AcceptsWhole(s[1..]);
      AcceptsFraction(s[1..]);
      AcceptsExp(s[1..]);
      DeadStays(s[1..]);
    }
  }

  /** A decimal starts with a digit, or with a point and a digit. */
  lemma DecimalStarts(s: Text)
    ensures Decimal(s) <==> DecimalHead(s)
  {
    if Decimal(s) {
      DecimalSplits(s);
    }
    if DecimalHead(s) {
      if IsDigit(s[0]) {
        WholeJoins(s);
      } else {
        PointJoins(s);
      }
    }
  }

  predicate DecimalHead(s: Text)
  {
    s != [] && ((IsDigit(s[0]) && WholeRest(s[1..]))
                || (s[0] == DOT && |s| > 1 && IsDigit(s[1]) && FractionRest(s[1..])))
  }

  lemma DecimalSplits(s: Text)
    requires Decimal(s)
    ensures DecimalHead(s)
  {
    var i :| 0 <= i <= |s| && Mantissa(s[..i]) && Exponent(s[i..]);
    var m := s[..i];
    if Digits1(m) {
      var t := s[1..];
      TailDigits(m);
      assert t[..i - 1] == m[1..] && t[i - 1..] == s[i..];
      assert FractionRest(t);
    } else {
      var j :| 0 <= j < |m| && m[j] == DOT && AllDigits(m[..j]) && AllDigits(m[j + 1..]) && |m| > 1;
      PointSplits(s, i, j);
    }
  }

  /** A part of a beginning, seen from the whole. */
  lemma Cut(s: Text, i: nat, j: nat)
    requires j <= i <= |s|
    ensures s[..i][..j] == s[..j]
    ensures s[..i][j..] == s[j..][..i - j] && s[i..] == s[j..][i - j..]
  {
  }

  lemma FractionAfter(s: Text, i: nat, j: nat)
    requires j < i <= |s| && Exponent(s[i..]) && AllDigits(s[..i][j + 1..])
    ensures FractionRest(s[j + 1..])
  {
    Cut(s, i, j + 1);
  }

  lemma PointAt(s: Text, j: nat)
    requires 0 < j < |s| && s[j] == DOT && AllDigits(s[..j]) && FractionRest(s[j + 1..])
    ensures IsDigit(s[0]) && PointRest(s[1..])
  {
    FirstIsDigit(s, j);
    Slide(s, j - 1);
    Slide(s, j);
    TailDigits(s[..j]);
  }

  lemma PointSplits(s: Text, i: nat, j: nat)
    requires j < i <= |s| && 1 < i && s[j] == DOT && Exponent(s[i..])
    requires AllDigits(s[..i][..j]) && AllDigits(s[..i][j + 1..])
    ensures DecimalHead(s)
  {
    FractionAfter(s, i, j);
    if j > 0 {
      Cut(s, i, j);
      PointAt(s, j);
    } else {
      assert s[..i][1..][0] == s[1];
    }
  }

  lemma MakeDecimal(s: Text, i: nat)
    requires i <= |s| && Mantissa(s[..i]) && Exponent(s[i..])
    ensures Decimal(s)
  {
  }

  lemma WholeJoins(s: Text)
    requires s != [] && IsDigit(s[0]) && WholeRest(s[1..])
    ensures Decimal(s)
  {
    var t := s[1..];
    if FractionRest(t) {
      var i :| 0 <= i <= |t| && AllDigits(t[..i]) && Exponent(t[i..]);
      DigitsJoin(s, i);
      Slide(s, i);
      MakeDecimal(s, i + 1);
    } else {
      PointAfterDigits(s);
    }
  }

  lemma PointAfterDigits(s: Text)
    requires s != [] && IsDigit(s[0]) && PointRest(s[1..])
    ensures Decimal(s)
  {
    var t := s[1..];
    var j :| 0 <= j < |t| && AllDigits(t[..j]) && t[j] == DOT && FractionRest(t[j + 1..]);
    PointAfter(s, j);
  }

  lemma PointAfter(s: Text, j: nat)
    requires j + 1 < |s| && IsDigit(s[0]) && AllDigits(s[1..][..j]) && s[j + 1] == DOT && FractionRest(s[1..][j + 1..])
    ensures Decimal(s)
  {
    DigitsJoin(s, j);
    Slide(s, j + 1);
    FractionJoins(s, j + 1);
  }

  lemma FractionJoins(s: Text, point: nat)
    requires 0 < point < |s| && AllDigits(s[..point]) && s[point] == DOT && FractionRest(s[point + 1..])
    ensures Decimal(s)
  {
    var u := s[point + 1..];
    var i :| 0 <= i <= |u| && AllDigits(u[..i]) && Exponent(u[i..]);
    FractionJoin(s, point, i);
  }

  lemma FractionJoin(s: Text, point: nat, i: nat)
    requires 0 < point < |s| && AllDigits(s[..point]) && s[point] == DOT && point + 1 + i <= |s|
    requires AllDigits(s[point + 1..][..i]) && Exponent(s[point + 1..][i..])
    ensures Decimal(s)
  {
    var end := point + 1 + i;
    Cut(s, end, point);
    Cut(s, end, point + 1);
    assert s[..end][point] == DOT;
    MakeMantissa(s[..end], point);
    MakeDecimal(s, end);
  }

  lemma MakeMantissa(m: Text, point: nat)
    requires 0 < point < |m| && m[point] == DOT && AllDigits(m[..point]) && AllDigits(m[point + 1..])
    ensures Mantissa(m)
  {
  }

  lemma DigitIsNoExponent(t: Text, i: nat)
    requires t != [] && IsDigit(t[0]) && i <= |t| && Exponent(t[i..])
    ensures i > 0
  {
    assert t[0..] == t;
  }

  lemma PointJoins(s: Text)
    requires |s| > 1 && s[0] == DOT && IsDigit(s[1]) && FractionRest(s[1..])
    ensures Decimal(s)
  {
    var t := s[1..];
    var i :| 0 <= i <= |t| && AllDigits(t[..i]) && Exponent(t[i..]);
    DigitIsNoExponent(t, i);
    var m := s[..i + 1];
    assert m[..0] == [] && m[1..] == t[..i] && s[i + 1..] == t[i..];
    MakeDecimal(s, i + 1);
  }

  lemma AcceptsPoint(s: Text)
    ensures Final(Run(Point, s)) <==> s != [] && IsDigit(s[0]) && FractionRest(s)
  {
    if s != [] {
      FractionRestStep(s);
      AcceptsFraction(s[1..]);
      DeadStays(s[1..]);
    }
  }

  /** The rest of a word. */
  predicate WordRest(word: string, read: nat, s: Text)
  {
    read + |s| <= |word| && forall i :: 0 <= i < |s| ==> Lower(s[i]) == word[read + i] as int
  }

  lemma WordRestStep(word: string, read: nat, s: Text)
    requires s != []
    ensures WordRest(word, read, s) <==>
      read < |word| && Lower(s[0]) == word[read] as int && WordRest(word, read + 1, s[1..])
  {
    var t := s[1..];
    if read < |word| && Lower(s[0]) == word[read] as int && WordRest(word, read + 1, t) {
      forall i | 0 <= i < |s| ensures Lower(s[i]) == word[read + i] as int {
        assert i > 0 ==> s[i] == t[i - 1];
      }
    }
    if WordRest(word, read, s) {
      forall i | 0 <= i < |t| ensures Lower(t[i]) == word[read + 1 + i] as int {
        assert t[i] == s[i + 1];
      }
    }
  }

  predicate WordEnds(word: string, length: nat)
  {
    length == |word| || (word == INFINITY && length == 3)
  }

  lemma {:induction false} AcceptsWord(word: string, read: nat, s: Text)
    requires word == INFINITY || word == NAN
    ensures Final(Run(Word(word, read), s)) <==> WordRest(word, read, s) && WordEnds(word, read + |s|)
    decreases |s|
  {
    if s != [] {
      WordRestStep(word, read, s);
      AcceptsWord(word, read + 1, s[1..]);
      DeadStays(s[1..]);
    }
  }

  lemma NamedWords(s: Text)
    requires s != []
    ensures Named(s) <==>
      || (Lower(s[0]) == 'i' as int && WordRest(INFINITY, 1, s[1..]) && (|s| == 8 || |s| == 3))
      || (Lower(s[0]) == 'n' as int && WordRest(NAN, 1, s[1..]) && |s| == 3)
  {
    var t := s[1..];
    assert forall i :: 0 < i < |s| ==> s[i] == t[i - 1];
    assert forall i :: 0 <= i < 3 ==> "inf"[i] == INFINITY[i];
  }

  lemma AcceptsLetter(unsigned: bool, s: Text)
    requires s != [] && (Lower(s[0]) == 'i' as int || Lower(s[0]) == 'n' as int)
    ensures Final(Run(Unnamed(unsigned, s[0]), s[1..])) <==> Named(s)
    ensures !DecimalHead(s)
  {
    NamedWords(s);
    AcceptsWord(if Lower(s[0]) == 'i' as int then INFINITY else NAN, 1, s[1..]);
  }

  lemma AcceptsOther(unsigned: bool, s: Text)
    requires s != [] && !(unsigned && IsSign(s[0])) && Lower(s[0]) != 'i' as int && Lower(s[0]) != 'n' as int
    ensures Final(Run(Unnamed(unsigned, s[0]), s[1..])) <==> DecimalHead(s)
    ensures !Named(s)
  {
    NamedWords(s);
    if IsDigit(s[0]) {
      AcceptsWhole(s[1..]);
    } else if s[0] == DOT {
      AcceptsPoint(s[1..]);
    } else {
      DeadStays(s[1..]);
    }
  }

  lemma AcceptsUnnamed(unsigned: bool, s: Text)
    requires s != [] && !(unsigned && IsSign(s[0]))
    ensures Final(Run(Unnamed(unsigned, s[0]), s[1..])) <==> Named(s) || DecimalHead(s)
  {
    if Lower(s[0]) == 'i' as int || Lower(s[0]) == 'n' as int {
      AcceptsLetter(unsigned, s);
    } else {
      AcceptsOther(unsigned, s);
    }
  }

  /** A float by the first byte of its number. */
  predicate FloatHead(s: Text)
  {
    || Named(s) || DecimalHead(s)
    || (s != [] && IsSign(s[0]) && (Named(s[1..]) || DecimalHead(s[1..])))
  }

  lemma FloatStarts(s: Text)
    ensures IsFloat(s) <==> FloatHead(s)
  {
    DecimalStarts(s);
    if s != [] {
      DecimalStarts(s[1..]);
    }
  }

  lemma AcceptsSigned(s: Text)
    requires s != [] && IsSign(s[0])
    ensures Final(Run(Start, s)) <==> FloatHead(s)
  {
    var t := s[1..];
    NamedWords(s);
    if t != [] {
      AcceptsUnnamed(false, t);
    }
  }

  /** The automaton accepts exactly the floats. */
  lemma AcceptsFloats(s: Text)
    ensures Final(Run(Start, s)) <==> IsFloat(s)
  {
    FloatStarts(s);
    if s != [] {
      if IsSign(s[0]) {
        AcceptsSigned(s);
      } else {
        AcceptsUnnamed(true, s);
      }
    }
  }

  // ---- prefixes ----

  lemma {:induction false} RunAppend(p: Phase, a: Text, b: Text)
    ensures Run(p, a + b) == Run(Run(p, a), b)
    decreases |a|
  {
    if a == [] {
      assert a + b == b;
    } else {
      assert (a + b)[1..] == a[1..] + b;
      RunAppend(Step(p, a[0]), a[1..], b);
    }
  }

  lemma RunNext(p: Phase, s: Text, at: nat)
    requires at < |s|
    ensures Run(p, s[..at + 1]) == Step(Run(p, s[..at]), s[at])
  {
    assert s[..at + 1] == s[..at] + [s[at]];
    RunAppend(p, s[..at], [s[at]]);
    var one := [s[at]];
    assert one[1..] == [];
    assert Run(Run(p, s[..at]), one) == Step(Run(p, s[..at]), s[at]);
  }

  lemma {:induction false} RunSane(p: Phase, s: Text)
    requires Sane(p)
    ensures Sane(Run(p, s))
    decreases |s|
  {
    if s != [] {
      RunSane(Step(p, s[0]), s[1..]);
    }
  }

  lemma FinishWord(word: string, read: nat) returns (t: Text)
    requires (word == INFINITY || word == NAN) && read <= |word|
    ensures Final(Run(Word(word, read), t))
  {
    t := Bytes(word[read..]);
    forall i | 0 <= i < |t| ensures Lower(t[i]) == word[read + i] as int {
      assert t[i] == word[read + i] as int;
    }
    AcceptsWord(word, read, t);
  }

  /** Every phase but the dead one can still be finished. */
  lemma Finish(p: Phase) returns (t: Text)
    requires Sane(p) && !p.Dead?
    ensures Final(Run(p, t))
  {
    if Final(p) {
      t := [];
    } else if p.Word? {
      t := FinishWord(p.word, p.read);
    } else {
      t := Bytes("0");
      assert IsDigit(t[0]) && t[1..] == [];
      assert Run(p, t) == Step(p, t[0]);
    }
  }

  /** So a text begins a float exactly when the automaton is not dead after it. */
  lemma CompletableIsAlive(s: Text)
    ensures Completable(s) <==> !Run(Start, s).Dead?
  {
    RunSane(Start, s);
    if Completable(s) {
      var t :| IsFloat(s + t);
      AcceptsFloats(s + t);
      RunAppend(Start, s, t);
      DeadStays(t);
    }
    if !Run(Start, s).Dead? {
      var t := Finish(Run(Start, s));
      RunAppend(Start, s, t);
      AcceptsFloats(s + t);
    }
  }

  // ---- the diagnosis ----

  /** The report is right about `s`. */
  ghost predicate Exact(s: Text, report: Option<Invalid>)
  {
    match report
    case None => IsFloat(s)
    case Some(BadByte(at, actual)) =>
      at < |s| && s[at] == actual && Completable(s[..at]) && !Completable(s[..at + 1])
    case Some(Missing(at)) => at == |s| && Completable(s) && !IsFloat(s)
    case _ => false
  }

  lemma ReportEnd(s: Text)
    requires !Run(Start, s).Dead?
    ensures Final(Run(Start, s)) ==> Exact(s, None)
    ensures !Final(Run(Start, s)) ==> Exact(s, Some(Missing(|s|)))
  {
    AcceptsFloats(s);
    CompletableIsAlive(s);
  }

  lemma ReportByte(s: Text, at: nat)
    requires at < |s| && !Run(Start, s[..at]).Dead? && Step(Run(Start, s[..at]), s[at]).Dead?
    ensures Exact(s, Some(BadByte(at, s[at])))
  {
    RunNext(Start, s, at);
    CompletableIsAlive(s[..at]);
    CompletableIsAlive(s[..at + 1]);
  }

  function Body(s: Text): Text
  {
    if s != [] && IsSign(s[0]) then s[1..] else s
  }

  /** All of the body, or all of the word, agreed. */
  method WordCause(bytes: Text, body: Text, start: nat, word: string, terminal: nat) returns (r: Option<Invalid>)
    requires start <= |bytes| && body == bytes[start..] && body != []
    requires (word == INFINITY || word == NAN) && terminal == 3
    requires |body| <= |word| ==> Run(Start, bytes) == Word(word, |body|)
    requires |body| > |word| ==> Run(Start, bytes[..start + |word|]) == Word(word, |word|)
    ensures Exact(bytes, r)
  {
    if |body| == terminal || |body| == |word| {
      ReportEnd(bytes);
      return None;
    }
    if |body| < |word| {
      ReportEnd(bytes);
      return Some(Missing(start + |body|));
    }
    assert body[|word|] == bytes[start + |word|];
    ReportByte(bytes, start + |word|);
    r := Some(BadByte(start + |word|, body[|word|]));
  }

  lemma NamedNext(bytes: Text, start: nat, offset: nat, word: string)
    requires start + offset < |bytes| && offset < |word| && (word == INFINITY || word == NAN)
    requires Run(Start, bytes[..start + offset]) == if offset > 0 then Word(word, offset) else if start == 0 then Start else Signed
    requires offset == 0 ==> Lower(bytes[start]) == word[0] as int
    ensures if Lower(bytes[start + offset]) == word[offset] as int
            then Run(Start, bytes[..start + offset + 1]) == Word(word, offset + 1)
            else Step(Run(Start, bytes[..start + offset]), bytes[start + offset]).Dead?
  {
    RunNext(Start, bytes, start + offset);
  }

  /** A word, compared byte by byte; `terminal` is the length of its short form. */
  method NamedCause(bytes: Text, body: Text, start: nat, word: string, terminal: nat) returns (r: Option<Invalid>)
    requires start <= 1 && start <= |bytes| && body == bytes[start..] && body != []
    requires (word == INFINITY || word == NAN) && terminal == 3 && Lower(body[0]) == word[0] as int
    requires Run(Start, bytes[..start]) == (if start == 0 then Start else Signed)
    ensures Exact(bytes, r)
  {
    var offset := 0;
    while offset < |body| && offset < |word|
      invariant offset <= |body| && offset <= |word|
      invariant Run(Start, bytes[..start + offset])
             == (if offset > 0 then Word(word, offset) else if start == 0 then Start else Signed)
    {
      assert body[offset] == bytes[start + offset];
      NamedNext(bytes, start, offset, word);
      if Lower(body[offset]) != word[offset] as int {
        ReportByte(bytes, start + offset);
        return Some(BadByte(start + offset, body[offset]));
      }
      offset := offset + 1;
    }
    assert bytes[..|bytes|] == bytes;
    r := WordCause(bytes, body, start, word, terminal);
  }

  /** The phase after the bytes before `cursor`. */
  function PhaseAt(bytes: Text, cursor: nat): Phase
    requires cursor <= |bytes|
  {
    Run(Start, bytes[..cursor])
  }

  predicate Stays(p: Phase)
  {
    p.Whole? || p.Fraction? || p.ExpDigits?
  }

  /** Skips digits from a phase whose digits lead to `on` and stay there. */
  method SkipDigits(bytes: Text, from: nat, ghost on: Phase) returns (cursor: nat)
    requires from <= |bytes| && Stays(on)
    requires forall b: Byte :: IsDigit(b) ==> Step(PhaseAt(bytes, from), b) == on
    ensures from <= cursor <= |bytes| && (cursor < |bytes| ==> !IsDigit(bytes[cursor]))
    ensures forall k :: from <= k < cursor ==> IsDigit(bytes[k])
    ensures PhaseAt(bytes, cursor) == (if cursor == from then PhaseAt(bytes, from) else on)
  {
    cursor := from;
    while cursor < |bytes| && IsDigit(bytes[cursor])
      invariant from <= cursor <= |bytes| && forall k :: from <= k < cursor ==> IsDigit(bytes[k])
      invariant PhaseAt(bytes, cursor) == (if cursor == from then PhaseAt(bytes, from) else on)
    {
      RunNext(Start, bytes, cursor);
      cursor := cursor + 1;
    }
  }

  /** What is wrong at the cursor: the byte there, or the end. */
  method Here(bytes: Text, cursor: nat) returns (r: Invalid)
    requires cursor <= |bytes| && !PhaseAt(bytes, cursor).Dead? && !Final(PhaseAt(bytes, cursor))
    requires cursor < |bytes| ==> Step(PhaseAt(bytes, cursor), bytes[cursor]).Dead?
    ensures Exact(bytes, Some(r))
  {
    if cursor < |bytes| {
      ReportByte(bytes, cursor);
      r := BadByte(cursor, bytes[cursor]);
    } else {
      assert bytes[..|bytes|] == bytes;
      ReportEnd(bytes);
      r := Missing(cursor);
    }
  }

  /** Digits up to `point`, and if the mantissa goes on there, the point and more digits; `digits` in all. */
  predicate MantissaSpans(bytes: Text, start: nat, point: nat, cursor: nat, digits: nat)
  {
    && start <= point <= cursor <= |bytes|
    && (forall k :: start <= k < point ==> IsDigit(bytes[k]))
    && (forall k :: point < k < cursor ==> IsDigit(bytes[k]))
    && (point < cursor ==> bytes[point] == DOT)
    && digits == cursor - start - if point < cursor then 1 else 0
  }

  method MantissaEnd(bytes: Text, start: nat) returns (cursor: nat, digits: nat, ghost point: nat)
    requires start < |bytes| && (PhaseAt(bytes, start).Start? || PhaseAt(bytes, start).Signed?)
    requires Lower(bytes[start]) != 'i' as int && Lower(bytes[start]) != 'n' as int
    requires PhaseAt(bytes, start).Start? ==> !IsSign(bytes[start])
    ensures MantissaSpans(bytes, start, point, cursor, digits)
    ensures cursor < |bytes| ==> !IsDigit(bytes[cursor]) && (point == cursor ==> bytes[cursor] != DOT)
    ensures digits > 0 ==> PhaseAt(bytes, cursor) == if point < cursor then Fraction else Whole
    ensures digits == 0 ==> !PhaseAt(bytes, cursor).Dead? && !Final(PhaseAt(bytes, cursor))
    ensures digits == 0 && cursor < |bytes| ==> Step(PhaseAt(bytes, cursor), bytes[cursor]).Dead?
  {
    cursor := SkipDigits(bytes, start, Whole);
    digits := cursor - start;
    point := cursor;
    if cursor < |bytes| && bytes[cursor] == DOT {
      RunNext(Start, bytes, cursor);
      var from := cursor + 1;
      cursor := SkipDigits(bytes, from, Fraction);
      digits := digits + (cursor - from);
    }
  }

  /** Past the sign of an exponent, if it has one. */
  method ExponentStart(bytes: Text, from: nat) returns (cursor: nat)
    requires from <= |bytes| && PhaseAt(bytes, from).Exp?
    ensures from <= cursor <= |bytes| && (PhaseAt(bytes, cursor).Exp? || PhaseAt(bytes, cursor).ExpSign?)
    ensures cursor < |bytes| && PhaseAt(bytes, cursor).Exp? ==> !IsSign(bytes[cursor])
  {
    cursor := from;
    if cursor < |bytes| && IsSign(bytes[cursor]) {
      RunNext(Start, bytes, cursor);
      cursor := cursor + 1;
    }
  }

  /** Nothing can follow a finished number but its end. */
  method Leftover(bytes: Text, cursor: nat) returns (r: Option<Invalid>)
    requires cursor <= |bytes| && Stays(PhaseAt(bytes, cursor))
    requires cursor < |bytes| ==> Step(PhaseAt(bytes, cursor), bytes[cursor]).Dead?
    ensures Exact(bytes, r)
  {
    if cursor < |bytes| {
      ReportByte(bytes, cursor);
      return Some(BadByte(cursor, bytes[cursor]));
    }
    assert bytes[..|bytes|] == bytes;
    ReportEnd(bytes);
    r := None;
  }

  method ExponentCause(bytes: Text, from: nat) returns (r: Option<Invalid>)
    requires from <= |bytes| && PhaseAt(bytes, from).Exp?
    ensures Exact(bytes, r)
  {
    var exponent := ExponentStart(bytes, from);
    var cursor := SkipDigits(bytes, exponent, ExpDigits);
    if cursor == exponent {
      var error := Here(bytes, cursor);
      return Some(error);
    }
    r := Leftover(bytes, cursor);
  }

  method DecimalCause(bytes: Text, start: nat) returns (r: Option<Invalid>)
    requires start < |bytes| && (PhaseAt(bytes, start).Start? || PhaseAt(bytes, start).Signed?)
    requires Lower(bytes[start]) != 'i' as int && Lower(bytes[start]) != 'n' as int
    requires PhaseAt(bytes, start).Start? ==> !IsSign(bytes[start])
    ensures Exact(bytes, r)
  {
    var cursor, digits, _ := MantissaEnd(bytes, start);
    if digits == 0 {
      var error := Here(bytes, cursor);
      return Some(error);
    }
    if cursor < |bytes| && IsExp(bytes[cursor]) {
      RunNext(Start, bytes, cursor);
      r := ExponentCause(bytes, cursor + 1);
    } else {
      r := Leftover(bytes, cursor);
    }
  }

  /**
   No cause exactly for floats; a byte, the first that no float can have there; or the end, when
   the whole input begins a float without being one.
   */
  method FloatCause(bytes: Text) returns (r: Option<Invalid>)
    requires Body(bytes) != []
    ensures Exact(bytes, r)
  {
    var body := Body(bytes);
    var start := |bytes| - |body|;
    assert bytes[..0] == [];
    if start == 1 {
      RunNext(Start, bytes, 0);
    }
    var first := Lower(body[0]);
    assert body[0] == bytes[start];
    if first == 'i' as int {
      r := NamedCause(bytes, body, start, INFINITY, 3);
    } else if first == 'n' as int {
      r := NamedCause(bytes, body, start, NAN, 3);
    } else {
      r := DecimalCause(bytes, start);
    }
  }

  /** A report determines itself: two exact reports on the same text are the same. */
  lemma ExactIsUnique(s: Text, a: Option<Invalid>, b: Option<Invalid>)
    requires Exact(s, a) && Exact(s, b)
    ensures a == b
  {
    Ends(s, a);
    Ends(s, b);
    if a.Some? && b.Some? && a.value.BadByte? && b.value.BadByte? {
      Alive(s, a.value.offset, b.value.offset);
      Alive(s, b.value.offset, a.value.offset);
    }
  }

  lemma Ends(s: Text, report: Option<Invalid>)
    requires Exact(s, report)
    ensures report.Some? && report.value.BadByte? <==> !Completable(s)
  {
    assert s[..|s|] == s;
    if report.Some? && report.value.BadByte? {
      StillDead(s, report.value.offset + 1, |s|);
    } else if report.None? {
      AcceptsFloats(s);
      CompletableIsAlive(s);
    }
  }

  lemma StillDead(s: Text, i: nat, j: nat)
    requires i <= j <= |s|
    ensures Completable(s[..j]) ==> Completable(s[..i])
  {
    CompletableIsAlive(s[..i]);
    CompletableIsAlive(s[..j]);
    assert s[..j] == s[..i] + s[i..j];
    RunAppend(Start, s[..i], s[i..j]);
    DeadStays(s[i..j]);
  }

  lemma Alive(s: Text, i: nat, j: nat)
    requires i < |s| && j < |s|
    ensures i < j && Completable(s[..j]) ==> Completable(s[..i + 1])
  {
    if i < j {
      StillDead(s, i + 1, j);
    }
  }

  // ---- UTF-8 comes first ----

  datatype ParseError = Malformed(invalid: Invalid) | NotFloat(cause: Option<Invalid>)

  /** The whole check; the numeric value is not modelled. */
  method ParseFloat(bytes: Text) returns (r: Result<(), ParseError>)
    ensures r.Ok? <==> IsFloat(bytes)
    ensures bytes == [] ==> r == Err(Malformed(Empty))
    ensures r.Err? && r.error.NotFloat? ==> r.error.cause.Some? && Exact(bytes, r.error.cause)
    ensures bytes != [] && r.Err? && r.error.Malformed? ==>
      if Body(bytes) == [] then Exact(bytes, Some(r.error.invalid))
      else ValidUpTo(bytes) < |bytes| && r.error.invalid == BadByte(ValidUpTo(bytes), bytes[ValidUpTo(bytes)])
  {
    if bytes == [] {
      return Err(Malformed(Empty));
    }
    if Body(bytes) == [] {
      assert bytes[..1] == bytes && bytes[..0] == [];
      RunNext(Start, bytes, 0);
      ReportEnd(bytes);
      return Err(Malformed(Missing(1)));
    }
    var valid := ValidUpTo(bytes);
    if valid < |bytes| {
      HighByteEnds(bytes, valid);
      return Err(Malformed(BadByte(valid, bytes[valid])));
    }
    var cause := FloatCause(bytes);
    if IsFloat(bytes) {
      return Ok(());
    }
    r := Err(NotFloat(cause));
  }

  lemma HighByteKills(p: Phase, b: Byte)
    requires Sane(p) && b >= 0x80
    ensures Step(p, b).Dead?
  {
    assert forall i :: 0 <= i < 8 ==> INFINITY[i] as int < 0x80;
    assert forall i :: 0 <= i < 3 ==> NAN[i] as int < 0x80;
    assert Lower(b) == b;
  }

  lemma HighByteEnds(s: Text, at: nat)
    requires at < |s| && s[at] >= 0x80
    ensures !Completable(s[..at + 1]) && !IsFloat(s)
  {
    var head, rest := s[..at + 1], s[at + 1..];
    RunNext(Start, s, at);
    RunSane(Start, s[..at]);
    HighByteKills(Run(Start, s[..at]), s[at]);
    CompletableIsAlive(head);
    assert s == head + rest;
  }

  lemma ExactAtHighByte(s: Text, at: nat)
    requires at < |s| && s[at] >= 0x80
    ensures Exact(s, Some(BadByte(at, s[at]))) <==> !PhaseAt(s, at).Dead?
  {
    HighByteEnds(s, at);
    CompletableIsAlive(s[..at]);
  }

  /**
   Because UTF-8 is checked first, the byte reported for text that is not UTF-8 is the exact one
   if and only if the automaton, run over what comes before it, is not dead: a test on the input alone.
   */
  lemma Utf8ReportIsExact(s: Text, at: nat)
    requires at == ValidUpTo(s) && at < |s|
    ensures Exact(s, Some(BadByte(at, s[at]))) <==> !PhaseAt(s, at).Dead?
  {
    ExactAtHighByte(s, at);
  }

  /** `x` and then a stray byte: the report points past the byte at fault. */
  lemma Utf8ReportCanBeLate()
    ensures var s := [0x78, 0xff];
            ValidUpTo(s) == 1 && Exact(s, Some(BadByte(0, 0x78))) && !Exact(s, Some(BadByte(1, 0xff)))
  {
    var s: Text := [0x78, 0xff];
    assert s[1..] == [0xff];
    assert SequenceLength(s) == 1 && SequenceLength(s[1..]) == 0;
    assert s[..0] == [];
    ReportByte(s, 0);
    ExactAtHighByte(s, 1);
  }
}
