/** A reader for the LaTeX-like text the engines render, used as the
    partner of every renderer: it parses the text with the usual precedence
    of `\times` over `+` and `-` (both left-associative), fractions
    `\frac{a}{b}`, `\sin(a)`, `\cos(a)`, parentheses and decimal numbers, and
    computes the integer the text denotes (module Arith). The round-trip
    lemmas of the engines say that reading a rendered tree gives the value of
    the tree. */
module Reading {

  import opened Wrappers
  import opened Numbers
  import opened Arith

  const PLUS := " + "
  const MINUS := " - "
  const TIMES := " \\times "
  const FRAC_OPEN := "\\frac{"
  const FRAC_MID := "}{"
  const FRAC_CLOSE := "}"
  const SIN_OPEN := "\\sin("
  const COS_OPEN := "\\cos("
  const OPEN := "("
  const CLOSE := ")"

  /** What a parse recognised, and the text after it. */
  datatype Parsed = Parsed(value: Option<int>, rest: string)

  /** The reading of a whole text: either it is not an expression, or it is
      one and denotes `value`. */
  datatype Reading = Malformed | Reads(value: Option<int>)

  predicate StartsWith(s: string, p: string) {
    |p| <= |s| && s[..|p|] == p
  }

  /** The number of leading digits of `s`. */
  function DigitRun(s: string): (k: nat)
    ensures k <= |s|
    ensures forall i :: 0 <= i < k ==> IsDigit(s[i])
    ensures k < |s| ==> !IsDigit(s[k])
    decreases |s|
  {
    if s != [] && IsDigit(s[0]) then 1 + DigitRun(s[1..]) else 0
  }

  function ParseNumber(s: string): (r: Option<Parsed>)
    ensures r.Some? ==> |r.value.rest| < |s|
  {
    var k := DigitRun(s);
    if k == 0 then None else Some(Parsed(Some(DigitsValue(s[..k])), s[k..]))
  }

  /** number | "-" number */
  function ParseSigned(s: string): (r: Option<Parsed>)
    requires s != []
    ensures r.Some? ==> |r.value.rest| < |s|
  {
    if s[0] == '-' then
      match ParseNumber(s[1..])
      case None => None
      case Some(p) => Some(Parsed(SubV(Some(0), p.value), p.rest))
    else ParseNumber(s)
  }

  /** expr := term { (" + " | " - ") term } */
  function ParseExpr(s: string): (r: Option<Parsed>)
    ensures r.Some? ==> |r.value.rest| < |s|
    decreases |s|, 2
  {
    match ParseTerm(s)
    case None => None
    case Some(p) => ExprTail(p.value, p.rest)
  }

  function ExprTail(acc: Option<int>, s: string): (r: Option<Parsed>)
    ensures r.Some? ==> |r.value.rest| <= |s|
    decreases |s|, 0
  {
    if StartsWith(s, PLUS) then
      match ParseTerm(s[|PLUS|..])
      case None => None
      case Some(p) => ExprTail(AddV(acc, p.value), p.rest)
    else if StartsWith(s, MINUS) then
      match ParseTerm(s[|MINUS|..])
      case None => None
      case Some(p) => ExprTail(SubV(acc, p.value), p.rest)
    else Some(Parsed(acc, s))
  }

  /** term := factor { " \times " factor } */
  function ParseTerm(s: string): (r: Option<Parsed>)
    ensures r.Some? ==> |r.value.rest| < |s|
    decreases |s|, 1
  {
    match ParseFactor(s)
    case None => None
    case Some(p) => TermTail(p.value, p.rest)
  }

  function TermTail(acc: Option<int>, s: string): (r: Option<Parsed>)
    ensures r.Some? ==> |r.value.rest| <= |s|
    decreases |s|, 0
  {
    if StartsWith(s, TIMES) then
      match ParseFactor(s[|TIMES|..])
      case None => None
      case Some(p) => TermTail(MulV(acc, p.value), p.rest)
    else Some(Parsed(acc, s))
  }

  /** factor := number | "-" number | "(" expr ")" | "\frac{" expr "}{" expr "}"
                | "\sin(" expr ")" | "\cos(" expr ")" */
  function ParseFactor(s: string): (r: Option<Parsed>)
    ensures r.Some? ==> |r.value.rest| < |s|
    decreases |s|, 0
  {
    if s == [] then None
    else if IsDigit(s[0]) || s[0] == '-' then ParseSigned(s)
    else if StartsWith(s, OPEN) then
      match ParseExpr(s[|OPEN|..])
      case None => None
      case Some(p) =>
        if StartsWith(p.rest, CLOSE) then Some(Parsed(p.value, p.rest[|CLOSE|..])) else None
    else if StartsWith(s, FRAC_OPEN) then
      match ParseExpr(s[|FRAC_OPEN|..])
      case None => None
      case Some(top) =>
        if !StartsWith(top.rest, FRAC_MID) then None
        else
          match ParseExpr(top.rest[|FRAC_MID|..])
          case None => None
          case Some(bottom) =>
            if StartsWith(bottom.rest, FRAC_CLOSE)
            then Some(Parsed(FracV(top.value, bottom.value), bottom.rest[|FRAC_CLOSE|..]))
            else None
    else if StartsWith(s, SIN_OPEN) then
      match ParseExpr(s[|SIN_OPEN|..])
      case None => None
      case Some(p) =>
        if StartsWith(p.rest, CLOSE) then Some(Parsed(SinV(p.value), p.rest[|CLOSE|..])) else None
    else if StartsWith(s, COS_OPEN) then
      match ParseExpr(s[|COS_OPEN|..])
      case None => None
      case Some(p) =>
        if StartsWith(p.rest, CLOSE) then Some(Parsed(CosV(p.value), p.rest[|CLOSE|..])) else None
    else None
  }

  function Read(s: string): Reading {
    match ParseExpr(s)
    case Some(p) => if p.rest == [] then Reads(p.value) else Malformed
    case None => Malformed
  }

  /** `rest` cannot continue a number. */
  predicate EndsFactor(rest: string) {
    rest == [] || !IsDigit(rest[0])
  }

  /** `rest` cannot continue a product. */
  predicate EndsTerm(rest: string) {
    EndsFactor(rest) && !StartsWith(rest, TIMES)
  }

  /** `rest` cannot continue a sum or difference. */
  predicate EndsExpr(rest: string) {
    EndsTerm(rest) && !StartsWith(rest, PLUS) && !StartsWith(rest, MINUS)
  }

  lemma Associative(a: string, b: string, c: string)
    ensures (a + b) + c == a + (b + c)
  {
  }

  lemma Assoc3(a: string, b: string, c: string, rest: string)
    ensures a + b + c + rest == a + (b + (c + rest))
  {
  }

  lemma Assoc5(a: string, b: string, c: string, d: string, e: string, rest: string)
    ensures a + b + c + d + e + rest == a + (b + (c + (d + (e + rest))))
  {
  }

  lemma PrefixFacts(p: string, x: string)
    ensures StartsWith(p + x, p) && (p + x)[|p|..] == x
  {
    assert (p + x)[..|p|] == p;
  }

  /** What may follow each piece of rendered text. */
  lemma StopFacts(x: string)
    ensures EndsExpr([]) && EndsExpr(CLOSE + x) && EndsExpr(FRAC_CLOSE + x) && EndsExpr(FRAC_MID + x)
    ensures EndsTerm(PLUS + x) && EndsTerm(MINUS + x)
    ensures EndsFactor(TIMES + x)
  {
    assert (CLOSE + x)[0] == ')';
    assert (FRAC_CLOSE + x)[0] == '}';
    assert (FRAC_MID + x)[0] == '}';
    assert (PLUS + x)[1] == '+';
    assert (MINUS + x)[1] == '-';
    assert (TIMES + x)[0] == ' ';
  }

  /** Which branch of `ParseFactor` each opening piece selects. */
  lemma OpenFacts(x: string)
    ensures (OPEN + x)[0] == '('
    ensures (FRAC_OPEN + x)[0] == '\\' && !StartsWith(FRAC_OPEN + x, OPEN)
    ensures (SIN_OPEN + x)[0] == '\\' && !StartsWith(SIN_OPEN + x, OPEN) && !StartsWith(SIN_OPEN + x, FRAC_OPEN)
    ensures (COS_OPEN + x)[0] == '\\' && !StartsWith(COS_OPEN + x, OPEN) && !StartsWith(COS_OPEN + x, FRAC_OPEN)
      && !StartsWith(COS_OPEN + x, SIN_OPEN)
    ensures !StartsWith(MINUS + x, PLUS)
  {
    assert (FRAC_OPEN + x)[0] == '\\';
    assert (SIN_OPEN + x)[1] == 's';
    assert (COS_OPEN + x)[1] == 'c';
    assert (MINUS + x)[1] == '-';
  }

  lemma {:induction false} DigitRunOver(ds: string, rest: string)
    requires forall i :: 0 <= i < |ds| ==> IsDigit(ds[i])
    requires EndsFactor(rest)
    ensures DigitRun(ds + rest) == |ds|
    decreases |ds|
  {
    if ds != [] {
      assert (ds + rest)[1..] == ds[1..] + rest;
      DigitRunOver(ds[1..], rest);
    }
  }

  /** A rendered natural number reads back as itself. */
  lemma NumberReads(n: nat, rest: string)
    requires EndsFactor(rest)
    ensures ParseNumber(NatToString(n) + rest) == Some(Parsed(Some(n), rest))
  {
    var ds := NatToString(n);
    DigitRunOver(ds, rest);
    assert (ds + rest)[..|ds|] == ds;
    assert (ds + rest)[|ds|..] == rest;
    DigitsValueOfNatToString(n);
  }

  /** A minus sign followed by a rendered natural number reads back as the
      negated number. */
  lemma NegativeReads(m: nat, rest: string)
    requires EndsFactor(rest)
    ensures ParseSigned("-" + (NatToString(m) + rest)) == Some(Parsed(Some(-(m as int)), rest))
  {
    NumberReads(m, rest);
    assert ("-" + (NatToString(m) + rest))[1..] == NatToString(m) + rest;
  }

  /** A rendered natural number reads back as itself. */
  lemma NaturalReads(n: nat, rest: string)
    requires EndsFactor(rest)
    ensures NatToString(n) + rest != []
    ensures ParseSigned(NatToString(n) + rest) == Some(Parsed(Some(n), rest))
  {
    NumberReads(n, rest);
    var x := NatToString(n) + rest;
    assert x[0] == NatToString(n)[0];
  }

  lemma SignedFactor(x: string)
    requires x != [] && (IsDigit(x[0]) || x[0] == '-')
    ensures ParseFactor(x) == ParseSigned(x)
  {
  }

  lemma SignedReads(n: int, rest: string)
    requires EndsFactor(rest)
    ensures IntToString(n) + rest != []
    ensures ParseSigned(IntToString(n) + rest) == Some(Parsed(Some(n), rest))
  {
    if n < 0 {
      NegativeReads(-n, rest);
      Associative("-", NatToString(-n), rest);
    } else {
      NaturalReads(n, rest);
    }
  }

  /** A rendered integer, negative or not, reads back as itself. */
  lemma IntReads(n: int, rest: string)
    requires EndsFactor(rest)
    ensures ParseFactor(IntToString(n) + rest) == Some(Parsed(Some(n), rest))
  {
    SignedReads(n, rest);
    var x := IntToString(n) + rest;
    assert x[0] == IntToString(n)[0];
    SignedFactor(x);
  }

  // One step of each parsing function, in the form the round-trip proofs
  // use them.

  lemma ExprStep(x: string, p: Parsed)
    requires ParseTerm(x) == Some(p)
    ensures ParseExpr(x) == ExprTail(p.value, p.rest)
  {
  }

  lemma ExprTailPlus(acc: Option<int>, x: string, p: Parsed)
    requires ParseTerm(x) == Some(p)
    ensures ExprTail(acc, PLUS + x) == ExprTail(AddV(acc, p.value), p.rest)
  {
    PrefixFacts(PLUS, x);
  }

  lemma ExprTailMinus(acc: Option<int>, x: string, p: Parsed)
    requires ParseTerm(x) == Some(p)
    ensures ExprTail(acc, MINUS + x) == ExprTail(SubV(acc, p.value), p.rest)
  {
    PrefixFacts(MINUS, x);
    OpenFacts(x);
  }

  lemma ExprTailStop(acc: Option<int>, x: string)
    requires EndsExpr(x)
    ensures ExprTail(acc, x) == Some(Parsed(acc, x))
  {
  }

  lemma TermStep(x: string, p: Parsed)
    requires ParseFactor(x) == Some(p)
    ensures ParseTerm(x) == TermTail(p.value, p.rest)
  {
  }

  lemma TermTailTimes(acc: Option<int>, x: string, p: Parsed)
    requires ParseFactor(x) == Some(p)
    ensures TermTail(acc, TIMES + x) == TermTail(MulV(acc, p.value), p.rest)
  {
    PrefixFacts(TIMES, x);
  }

  lemma TermTailStop(acc: Option<int>, x: string)
    requires EndsTerm(x)
    ensures TermTail(acc, x) == Some(Parsed(acc, x))
  {
  }

  lemma ParenFactor(x: string, v: Option<int>, y: string)
    requires ParseExpr(x) == Some(Parsed(v, CLOSE + y))
    ensures ParseFactor(OPEN + x) == Some(Parsed(v, y))
  {
    OpenFacts(x);
    PrefixFacts(OPEN, x);
    PrefixFacts(CLOSE, y);
  }

  lemma FracFactor(x: string, a: Option<int>, y: string, b: Option<int>, z: string)
    requires ParseExpr(x) == Some(Parsed(a, FRAC_MID + y))
    requires ParseExpr(y) == Some(Parsed(b, FRAC_CLOSE + z))
    ensures ParseFactor(FRAC_OPEN + x) == Some(Parsed(FracV(a, b), z))
  {
    OpenFacts(x);
    PrefixFacts(FRAC_OPEN, x);
    PrefixFacts(FRAC_MID, y);
    PrefixFacts(FRAC_CLOSE, z);
  }

  lemma SinFactor(x: string, v: Option<int>, y: string)
    requires ParseExpr(x) == Some(Parsed(v, CLOSE + y))
    ensures ParseFactor(SIN_OPEN + x) == Some(Parsed(SinV(v), y))
  {
    OpenFacts(x);
    PrefixFacts(SIN_OPEN, x);
    PrefixFacts(CLOSE, y);
  }

  lemma CosFactor(x: string, v: Option<int>, y: string)
    requires ParseExpr(x) == Some(Parsed(v, CLOSE + y))
    ensures ParseFactor(COS_OPEN + x) == Some(Parsed(CosV(v), y))
  {
    OpenFacts(x);
    PrefixFacts(COS_OPEN, x);
    PrefixFacts(CLOSE, y);
  }

  /** `(l + r)`, once `l` and `r` are read as factors. */
  lemma ParenSumReads(l: string, a: Option<int>, r: string, b: Option<int>, rest: string)
    requires ParseFactor(l + (PLUS + (r + (CLOSE + rest)))) == Some(Parsed(a, PLUS + (r + (CLOSE + rest))))
    requires ParseFactor(r + (CLOSE + rest)) == Some(Parsed(b, CLOSE + rest))
    ensures ParseFactor(OPEN + (l + (PLUS + (r + (CLOSE + rest))))) == Some(Parsed(AddV(a, b), rest))
  {
    var tail := CLOSE + rest;
    var y := r + tail;
    var x := l + (PLUS + y);
    StopFacts(rest);
    StopFacts(y);
    TermStep(y, Parsed(b, tail));
    TermTailStop(b, tail);
    TermStep(x, Parsed(a, PLUS + y));
    TermTailStop(a, PLUS + y);
    ExprStep(x, Parsed(a, PLUS + y));
    ExprTailPlus(a, y, Parsed(b, tail));
    ExprTailStop(AddV(a, b), tail);
    ParenFactor(x, AddV(a, b), rest);
  }

  /** `(l - r)`, once `l` and `r` are read as factors. */
  lemma ParenDifferenceReads(l: string, a: Option<int>, r: string, b: Option<int>, rest: string)
    requires ParseFactor(l + (MINUS + (r + (CLOSE + rest)))) == Some(Parsed(a, MINUS + (r + (CLOSE + rest))))
    requires ParseFactor(r + (CLOSE + rest)) == Some(Parsed(b, CLOSE + rest))
    ensures ParseFactor(OPEN + (l + (MINUS + (r + (CLOSE + rest))))) == Some(Parsed(SubV(a, b), rest))
  {
    var tail := CLOSE + rest;
    var y := r + tail;
    var x := l + (MINUS + y);
    StopFacts(rest);
    StopFacts(y);
    TermStep(y, Parsed(b, tail));
    TermTailStop(b, tail);
    TermStep(x, Parsed(a, MINUS + y));
    TermTailStop(a, MINUS + y);
    ExprStep(x, Parsed(a, MINUS + y));
    ExprTailMinus(a, y, Parsed(b, tail));
    ExprTailStop(SubV(a, b), tail);
    ParenFactor(x, SubV(a, b), rest);
  }

  /** `(l \\times r)`, once `l` and `r` are read as factors. */
  lemma ParenProductReads(l: string, a: Option<int>, r: string, b: Option<int>, rest: string)
    requires ParseFactor(l + (TIMES + (r + (CLOSE + rest)))) == Some(Parsed(a, TIMES + (r + (CLOSE + rest))))
    requires ParseFactor(r + (CLOSE + rest)) == Some(Parsed(b, CLOSE + rest))
    ensures ParseFactor(OPEN + (l + (TIMES + (r + (CLOSE + rest))))) == Some(Parsed(MulV(a, b), rest))
  {
    var tail := CLOSE + rest;
    var y := r + tail;
    var x := l + (TIMES + y);
    StopFacts(rest);
    StopFacts(y);
    TermStep(x, Parsed(a, TIMES + y));
    TermTailTimes(a, y, Parsed(b, tail));
    TermTailStop(MulV(a, b), tail);
    ExprStep(x, Parsed(MulV(a, b), tail));
    ExprTailStop(MulV(a, b), tail);
    ParenFactor(x, MulV(a, b), rest);
  }

  /** A text read as one factor with nothing after it reads as a whole. */
  lemma WholeFactorReads(s: string, v: Option<int>)
    requires ParseFactor(s + []) == Some(Parsed(v, []))
    ensures Read(s) == Reads(v)
  {
    StopFacts([]);
    assert s + [] == s;
    TermStep(s, Parsed(v, []));
    TermTailStop(v, []);
    ExprStep(s, Parsed(v, []));
    ExprTailStop(v, []);
  }
}
