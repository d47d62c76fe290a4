/** The text `format_node` renders reads back, with the usual precedence
    and left-associativity of the operators, as the value of the tree: the
    parentheses it inserts are exactly enough. */
module EngineText {

  import opened Wrappers
  import opened Numbers
  import opened Arith
  import opened Reading
  import opened Outcomes
  import opened Engine

  /** The text of a child in a slot that admits precedence `prec`. */
  function Wrap(c: MathNode, s: string, prec: int): string {
    if Precedence(c.op) > prec then OPEN + s + CLOSE else s
  }

  // The pieces of the text of each kind of node.

  lemma SumPieces(t: MathNode, s: string)
    requires FormatNode(t) == Ok(s) && t.op == Add
    ensures |t.children| >= 2 && FormatNode(t.children[0]).Ok? && FormatNode(t.children[1]).Ok?
    ensures s == FormatNode(t.children[0]).value + PLUS + FormatNode(t.children[1]).value
    ensures Value(t) == AddV(Value(t.children[0]), Value(t.children[1]))
  {
  }

  lemma DifferencePieces(t: MathNode, s: string)
    requires FormatNode(t) == Ok(s) && t.op == Sub
    ensures |t.children| >= 2 && FormatNode(t.children[0]).Ok? && FormatNode(t.children[1]).Ok?
    ensures s == FormatNode(t.children[0]).value + MINUS + Wrap(t.children[1], FormatNode(t.children[1]).value, 0)
    ensures Value(t) == SubV(Value(t.children[0]), Value(t.children[1]))
  {
    DifferenceText(t, s);
    ChildSlot(t, 0, 2);
    ChildSlot(t, 1, 0);
  }

  lemma DifferenceText(t: MathNode, s: string)
    requires FormatNode(t) == Ok(s) && t.op == Sub
    ensures FormatChild(t, 0, 2).Ok? && FormatChild(t, 1, 0).Ok?
    ensures s == FormatChild(t, 0, 2).value + MINUS + FormatChild(t, 1, 0).value
  {
  }

  lemma ProductPieces(t: MathNode, s: string)
    requires FormatNode(t) == Ok(s) && t.op == Mul
    ensures |t.children| >= 2 && FormatNode(t.children[0]).Ok? && FormatNode(t.children[1]).Ok?
    ensures s == Wrap(t.children[0], FormatNode(t.children[0]).value, 1) + TIMES
      + Wrap(t.children[1], FormatNode(t.children[1]).value, 1)
    ensures Value(t) == MulV(Value(t.children[0]), Value(t.children[1]))
  {
    ProductText(t, s);
    ChildSlot(t, 0, 1);
    ChildSlot(t, 1, 1);
  }

  lemma ProductText(t: MathNode, s: string)
    requires FormatNode(t) == Ok(s) && t.op == Mul
    ensures FormatChild(t, 0, 1).Ok? && FormatChild(t, 1, 1).Ok?
    ensures s == FormatChild(t, 0, 1).value + TIMES + FormatChild(t, 1, 1).value
  {
  }

  /** A slot formats when the child exists and formats, and then holds the
      child's text, wrapped exactly when the child binds more loosely than
      the slot admits. */
  lemma ChildSlot(t: MathNode, i: nat, prec: int)
    requires FormatChild(t, i, prec).Ok?
    ensures i < |t.children| && FormatNode(t.children[i]).Ok?
    ensures FormatChild(t, i, prec).value == Wrap(t.children[i], FormatNode(t.children[i]).value, prec)
  {
  }

  lemma FractionPieces(t: MathNode, s: string)
    requires FormatNode(t) == Ok(s) && t.op == Div
    ensures |t.children| >= 2 && FormatNode(t.children[0]).Ok? && FormatNode(t.children[1]).Ok?
    ensures s == FRAC_OPEN + FormatNode(t.children[0]).value + FRAC_MID + FormatNode(t.children[1]).value + FRAC_CLOSE
    ensures Value(t) == FracV(Value(t.children[0]), Value(t.children[1]))
  {
  }

  lemma TrigPieces(t: MathNode, s: string)
    requires FormatNode(t) == Ok(s) && IsTrig(t.op)
    ensures |t.children| >= 1 && FormatNode(t.children[0]).Ok?
    ensures s == (if t.op == Sin then SIN_OPEN else COS_OPEN) + FormatNode(t.children[0]).value + CLOSE
    ensures Value(t) == (if t.op == Sin then SinV(Value(t.children[0])) else CosV(Value(t.children[0])))
  {
    TrigText(t, s);
  }

  lemma TrigText(t: MathNode, s: string)
    requires FormatNode(t) == Ok(s) && IsTrig(t.op)
    ensures |t.children| >= 1 && FormatNode(t.children[0]).Ok?
    ensures s == (if t.op == Sin then SIN_OPEN else COS_OPEN) + FormatNode(t.children[0]).value + CLOSE
  {
  }

  /** A formatted tree of precedence 0 is read as one factor. */
  lemma FactorReads(t: MathNode, s: string, rest: string)
    requires FormatNode(t) == Ok(s) && Precedence(t.op) == 0 && EndsFactor(rest)
    ensures ParseFactor(s + rest) == Some(Parsed(Value(t), rest))
    decreases t, 1
  {
    match t.op
    case Const(c) => IntReads(c.value, rest);
    case Div => FracReads(t, s, rest);
    case Sin => TrigReads(t, s, rest);
    case Cos => TrigReads(t, s, rest);
  }

  lemma FracReads(t: MathNode, s: string, rest: string)
    requires FormatNode(t) == Ok(s) && t.op == Div && EndsFactor(rest)
    ensures ParseFactor(s + rest) == Some(Parsed(Value(t), rest))
    decreases t, 0
  {
    FractionPieces(t, s);
    var c0, c1 := t.children[0], t.children[1];
    var l, r := FormatNode(c0).value, FormatNode(c1).value;
    var tail := FRAC_CLOSE + rest;
    var mid := FRAC_MID + (r + tail);
    Assoc5(FRAC_OPEN, l, FRAC_MID, r, FRAC_CLOSE, rest);
    StopFacts(r + tail);
    StopFacts(rest);
    ExprReads(c0, l, mid);
    ExprTailStop(Value(c0), mid);
    ExprReads(c1, r, tail);
    ExprTailStop(Value(c1), tail);
    FracFactor(l + mid, Value(c0), r + tail, Value(c1), rest);
  }

  lemma TrigReads(t: MathNode, s: string, rest: string)
    requires FormatNode(t) == Ok(s) && IsTrig(t.op) && EndsFactor(rest)
    ensures ParseFactor(s + rest) == Some(Parsed(Value(t), rest))
    decreases t, 0
  {
    TrigPieces(t, s);
    var c0 := t.children[0];
    var inner := FormatNode(c0).value;
    var tail := CLOSE + rest;
    StopFacts(rest);
    ExprReads(c0, inner, tail);
    ExprTailStop(Value(c0), tail);
    if t.op == Sin {
      Assoc3(SIN_OPEN, inner, CLOSE, rest);
      SinFactor(inner + tail, Value(c0), rest);
    } else {
      Assoc3(COS_OPEN, inner, CLOSE, rest);
      CosFactor(inner + tail, Value(c0), rest);
    }
  }

  /** A formatted tree of precedence at most 1 is read as one term. */
  lemma TermReads(t: MathNode, s: string, rest: string)
    requires FormatNode(t) == Ok(s) && Precedence(t.op) <= 1 && EndsFactor(rest)
    ensures ParseTerm(s + rest) == TermTail(Value(t), rest)
    decreases t, 2
  {
    if t.op == Mul {
      ProductPieces(t, s);
      var c0, c1 := t.children[0], t.children[1];
      var s0, s1 := FormatNode(c0).value, FormatNode(c1).value;
      var l, r := Wrap(c0, s0, 1), Wrap(c1, s1, 1);
      Assoc3(l, TIMES, r, rest);
      StopFacts(r + rest);
      TermSlotReads(c0, s0, l, TIMES + (r + rest));
      TimesTail(Value(c0), c1, s1, r, rest);
    } else {
      FactorReads(t, s, rest);
      TermStep(s + rest, Parsed(Value(t), rest));
    }
  }

  /** A formatted tree is read as one expression, whatever follows it that
      cannot continue a term. */
  lemma ExprReads(t: MathNode, s: string, rest: string)
    requires FormatNode(t) == Ok(s) && EndsTerm(rest)
    ensures ParseExpr(s + rest) == ExprTail(Value(t), rest)
    decreases t, 3
  {
    if t.op == Add {
      SumPieces(t, s);
      var c0, c1 := t.children[0], t.children[1];
      var l, r := FormatNode(c0).value, FormatNode(c1).value;
      Assoc3(l, PLUS, r, rest);
      StopFacts(r + rest);
      ExprReads(c0, l, PLUS + (r + rest));
      PlusTail(Value(c0), c1, r, rest);
    } else if t.op == Sub {
      DifferencePieces(t, s);
      var c0, c1 := t.children[0], t.children[1];
      var l, s1 := FormatNode(c0).value, FormatNode(c1).value;
      var r := Wrap(c1, s1, 0);
      Assoc3(l, MINUS, r, rest);
      StopFacts(r + rest);
      ExprReads(c0, l, MINUS + (r + rest));
      MinusTail(Value(c0), c1, s1, r, rest);
    } else {
      TermReads(t, s, rest);
      TermTailStop(Value(t), rest);
      ExprStep(s + rest, Parsed(Value(t), rest));
    }
  }

  /** A formatted tree in parentheses is read as one factor. */
  lemma ParenReads(t: MathNode, s: string, rest: string)
    requires FormatNode(t) == Ok(s) && EndsFactor(rest)
    ensures ParseFactor(OPEN + s + CLOSE + rest) == Some(Parsed(Value(t), rest))
    decreases t, 4
  {
    Assoc3(OPEN, s, CLOSE, rest);
    StopFacts(rest);
    ExprReads(t, s, CLOSE + rest);
    ExprTailStop(Value(t), CLOSE + rest);
    ParenFactor(s + (CLOSE + rest), Value(t), rest);
  }

  /** The text of a slot admitting precedence 0 is read as one factor. */
  lemma FactorSlotReads(t: MathNode, s: string, slot: string, rest: string)
    requires FormatNode(t) == Ok(s) && slot == Wrap(t, s, 0) && EndsFactor(rest)
    ensures ParseFactor(slot + rest) == Some(Parsed(Value(t), rest))
    decreases t, 5
  {
    if Precedence(t.op) > 0 {
      ParenReads(t, s, rest);
    } else {
      FactorReads(t, s, rest);
    }
  }

  /** The text of a slot admitting precedence 1 is read as one term. */
  lemma TermSlotReads(t: MathNode, s: string, slot: string, rest: string)
    requires FormatNode(t) == Ok(s) && slot == Wrap(t, s, 1) && EndsFactor(rest)
    ensures ParseTerm(slot + rest) == TermTail(Value(t), rest)
    decreases t, 5
  {
    if Precedence(t.op) > 1 {
      ParenReads(t, s, rest);
      TermStep(slot + rest, Parsed(Value(t), rest));
    } else {
      TermReads(t, s, rest);
    }
  }

  /** `\times` and the right operand of a product multiply what was read
      before them. */
  lemma TimesTail(acc: Option<int>, t: MathNode, s: string, slot: string, rest: string)
    requires FormatNode(t) == Ok(s) && slot == Wrap(t, s, 1) && EndsFactor(rest)
    ensures TermTail(acc, TIMES + (slot + rest)) == TermTail(MulV(acc, Value(t)), rest)
    decreases t, 6
  {
    if t.op == Mul {
      ProductPieces(t, s);
      var c0, c1 := t.children[0], t.children[1];
      var s0, s1 := FormatNode(c0).value, FormatNode(c1).value;
      var l, r := Wrap(c0, s0, 1), Wrap(c1, s1, 1);
      Assoc3(l, TIMES, r, rest);
      StopFacts(r + rest);
      TimesTail(acc, c0, s0, l, TIMES + (r + rest));
      TimesTail(MulV(acc, Value(c0)), c1, s1, r, rest);
      MulAssoc(acc, Value(c0), Value(c1));
    } else {
      if Precedence(t.op) > 1 {
        ParenReads(t, s, rest);
      } else {
        FactorReads(t, s, rest);
      }
      TermTailTimes(acc, slot + rest, Parsed(Value(t), rest));
    }
  }

  lemma AddAssoc(a: Option<int>, b: Option<int>, c: Option<int>)
    ensures AddV(AddV(a, b), c) == AddV(a, AddV(b, c))
    ensures SubV(AddV(a, b), c) == AddV(a, SubV(b, c))
  {
  }

  lemma MulAssoc(a: Option<int>, b: Option<int>, c: Option<int>)
    ensures MulV(MulV(a, b), c) == MulV(a, MulV(b, c))
  {
    if a.Some? && b.Some? && c.Some? {
      assert (a.value * b.value) * c.value == a.value * (b.value * c.value);
    }
  }

  /** ` + ` and the right operand of a sum add to what was read before
      them. */
  lemma PlusTail(acc: Option<int>, t: MathNode, s: string, rest: string)
    requires FormatNode(t) == Ok(s) && EndsTerm(rest)
    ensures ExprTail(acc, PLUS + (s + rest)) == ExprTail(AddV(acc, Value(t)), rest)
    decreases t, 3
  {
    if t.op == Add {
      SumPieces(t, s);
      var c0, c1 := t.children[0], t.children[1];
      var l, r := FormatNode(c0).value, FormatNode(c1).value;
      Assoc3(l, PLUS, r, rest);
      StopFacts(r + rest);
      PlusTail(acc, c0, l, PLUS + (r + rest));
      PlusTail(AddV(acc, Value(c0)), c1, r, rest);
      AddAssoc(acc, Value(c0), Value(c1));
    } else if t.op == Sub {
      DifferencePieces(t, s);
      var c0, c1 := t.children[0], t.children[1];
      var l, s1 := FormatNode(c0).value, FormatNode(c1).value;
      var r := Wrap(c1, s1, 0);
      Assoc3(l, MINUS, r, rest);
      StopFacts(r + rest);
      PlusTail(acc, c0, l, MINUS + (r + rest));
      MinusTail(AddV(acc, Value(c0)), c1, s1, r, rest);
      AddAssoc(acc, Value(c0), Value(c1));
    } else {
      TermReads(t, s, rest);
      TermTailStop(Value(t), rest);
      ExprTailPlus(acc, s + rest, Parsed(Value(t), rest));
    }
  }

  /** ` - ` and the right operand of a difference, always a factor,
      subtract from what was read before them. */
  lemma MinusTail(acc: Option<int>, t: MathNode, s: string, slot: string, rest: string)
    requires FormatNode(t) == Ok(s) && slot == Wrap(t, s, 0) && EndsTerm(rest)
    ensures ExprTail(acc, MINUS + (slot + rest)) == ExprTail(SubV(acc, Value(t)), rest)
    decreases t, 6
  {
    FactorSlotReads(t, s, slot, rest);
    TermStep(slot + rest, Parsed(Value(t), rest));
    TermTailStop(Value(t), rest);
    ExprTailMinus(acc, slot + rest, Parsed(Value(t), rest));
  }

  /** The round trip: the text of every tree that formats reads back as the
      value of the tree. */
  lemma FormatReads(t: MathNode)
    requires FormatNode(t).Ok?
    ensures Read(FormatNode(t).value) == Reads(Value(t))
  {
    var s := FormatNode(t).value;
    StopFacts([]);
    ExprReads(t, s, []);
    assert s + [] == s;
  }
}
