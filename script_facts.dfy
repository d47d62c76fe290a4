/** What the prototype scripts guarantee: the shape and the depth of the
    tree they grow, the depth the JavaScript copy fails to bound, that
    evaluation hits its target, and that the printed text reads as the
    answer. */
module ScriptFacts {

  import opened Wrappers
  import opened Random
  import opened Numbers
  import opened Arith
  import opened Outcomes
  import opened Reading
  import opened Script

  /** The shape `expandNode` gives a new node at level `d` when the
      limit is `maxDepth`: every node has no value; a node with an operator
      has its two children, one level down; a node without has none; no
      node is below `maxDepth`, and one at `maxDepth` has no operator. */
  predicate Grown(t: Node, d: int, maxDepth: int)
    decreases t
  {
    && t.depth == At(d) && d <= maxDepth && t.value == None
    && (d == maxDepth ==> t.op == None)
    && (t.op == None ==> t.left == None && t.right == None)
    && (t.op != None ==>
         && t.left.Some? && Grown(t.left.value, d + 1, maxDepth)
         && t.right.Some? && Grown(t.right.value, d + 1, maxDepth))
  }

  /** The number of levels of a tree. */
  function Height(t: Node): (h: nat)
    ensures h >= 1
    decreases t
  {
    var l := if t.left.Some? then Height(t.left.value) else 0;
    var r := if t.right.Some? then Height(t.right.value) else 0;
    1 + if l < r then r else l
  }

  /** Expanding a new node at a level no deeper than `maxDepth` grows a
      tree of that shape. */
  lemma {:induction false} ExpandGrows(d: int, maxDepth: int, rs: Draws)
    requires d <= maxDepth
    ensures Grown(Expand(NewNode(At(d)), maxDepth, rs).0, d, maxDepth)
    decreases |rs|, 1
  {
    if d != maxDepth {
      var rs1 := Script.TsEngine.Choose(OPS, rs).1;
      var left := Grow(NewNode(At(d + 1)), maxDepth, rs1);
      GrowGrows(d + 1, maxDepth, rs1);
      GrowGrows(d + 1, maxDepth, left.1);
    }
  }

  lemma {:induction false} GrowGrows(d: int, maxDepth: int, rs: Draws)
    requires d <= maxDepth
    ensures Grown(Grow(NewNode(At(d)), maxDepth, rs).0, d, maxDepth)
    decreases |rs|, 0
  {
    var flip := Script.TsEngine.Flip(rs);
    if flip.0 {
      ExpandGrows(d, maxDepth, flip.1);
    }
  }

  /** A tree of that shape has no more levels than lie between `d` and
      `maxDepth`. */
  lemma {:induction false} GrownHeight(t: Node, d: int, maxDepth: int)
    requires Grown(t, d, maxDepth)
    ensures Height(t) <= maxDepth - d + 1
    decreases t
  {
    if t.op != None {
      GrownHeight(t.left.value, d + 1, maxDepth);
      GrownHeight(t.right.value, d + 1, maxDepth);
    }
  }

  /** With the root at depth 1, as `unsolver.ts` creates it, the tree has
      at most `maxDepth` levels. */
  lemma TypeScriptBounded(maxDepth: int, rs: Draws)
    requires maxDepth >= 1
    ensures Height(Expand(NewNode(RootLevel(TypeScript)), maxDepth, rs).0) <= maxDepth
  {
    ExpandGrows(1, maxDepth, rs);
    GrownHeight(Expand(NewNode(At(1)), maxDepth, rs).0, 1, maxDepth);
  }

  /** The draws that take operator `+` and a left child, `k` times over. */
  function LeftChain(k: nat): Draws {
    if k == 0 then [] else [0, 1] + LeftChain(k - 1)
  }

  /** With the root at depth `undefined`, as `unsolver.js` creates it, the
      depth test never holds: whatever `maxDepth`, the draws of `LeftChain(k)`
      grow a tree of `k + 2` levels. */
  lemma {:induction false} JavaScriptUnbounded(k: nat, maxDepth: int)
    ensures
      var grown := Expand(NewNode(RootLevel(JavaScript)), maxDepth, LeftChain(k));
      Height(grown.0) == k + 2 && grown.1 == []
  {
    var leaf := NewNode(NotANumber);
    assert Grow(leaf, maxDepth, []) == (leaf, []);
    if k > 0 {
      JavaScriptUnbounded(k - 1, maxDepth);
      var rs := LeftChain(k);
      assert rs[0] == 0 && rs[1..] == [1] + LeftChain(k - 1);
      assert Next([1] + LeftChain(k - 1)) == (1, LeftChain(k - 1));
      assert Reduce(1, 2) == 1;
    }
  }

  /** The example of `JavaScriptUnbounded` at the script's own depth 3: the
      tree has four levels. */
  lemma JavaScriptPassesDepth()
    ensures Height(Expand(NewNode(RootLevel(JavaScript)), DEPTH, LeftChain(2)).0) == 4
  {
    JavaScriptUnbounded(2, DEPTH);
  }

  /** A tree as `expandNode` leaves it, whatever the depths: every node with
      an operator has its two children. */
  predicate Expanded(t: Node)
    decreases t
  {
    t.op != None ==>
      && t.left.Some? && Expanded(t.left.value)
      && t.right.Some? && Expanded(t.right.value)
  }

  lemma {:induction false} ExpandExpanded(node: Node, maxDepth: int, rs: Draws)
    requires node.op == None
    ensures Expanded(Expand(node, maxDepth, rs).0)
    decreases |rs|, 1
  {
    if node.depth != At(maxDepth) {
      var rs1 := Script.TsEngine.Choose(OPS, rs).1;
      var child := NewNode(Below(node.depth));
      var left := Grow(child, maxDepth, rs1);
      GrowExpanded(child, maxDepth, rs1);
      GrowExpanded(child, maxDepth, left.1);
    }
  }

  lemma {:induction false} GrowExpanded(child: Node, maxDepth: int, rs: Draws)
    requires child.op == None
    ensures Expanded(Grow(child, maxDepth, rs).0)
    decreases |rs|, 0
  {
    var flip := Script.TsEngine.Flip(rs);
    if flip.0 {
      ExpandExpanded(child, maxDepth, flip.1);
    }
  }

  /** A tree as evaluation leaves it: every node with an operator has its
      two children, and every node without holds a value of at least 1. */
  predicate Evaluated(t: Node)
    decreases t
  {
    if t.op == None then t.value.Some? && t.value.value >= 1
    else
      && t.left.Some? && Evaluated(t.left.value)
      && t.right.Some? && Evaluated(t.right.value)
  }

  /** The headline property: evaluating an expanded tree at a target of at
      least 1 succeeds, leaves only positive values, and the tree then
      denotes exactly the target. */
  lemma {:induction false} EvaluateHits(t: Node, v: int, rs: Draws)
    requires Expanded(t) && v >= 1
    ensures Evaluate(t, v, rs).Ok?
    ensures Evaluated(Evaluate(t, v, rs).value.0)
    ensures Value(Evaluate(t, v, rs).value.0) == Some(v)
    decreases t, 1
  {
    match t.op
    case None =>
    case Some(Plus) =>
      if v > 1 {
        var split := Uniform(1, v - 1, rs);
        EvaluatePairHits(t, split.0, v - split.0, split.1);
      }
    case Some(Minus) =>
      var split := Uniform(v + 1, v * 2, rs);
      EvaluatePairHits(t, split.0, split.0 - v, split.1);
    case Some(Times) =>
      EvaluatePairHits(t, v, 1, rs);
  }

  /** Both children of an expanded operator node are evaluated at positive
      targets and denote them. */
  lemma {:induction false} EvaluatePairHits(t: Node, a: int, b: int, rs: Draws)
    requires Expanded(t) && t.op != None && a >= 1 && b >= 1
    ensures EvaluatePair(t, a, b, rs).Ok?
    ensures
      var e := EvaluatePair(t, a, b, rs).value.0;
      && e.op == t.op && e.left.Some? && e.right.Some?
      && Evaluated(e.left.value) && Value(e.left.value) == Some(a)
      && Evaluated(e.right.value) && Value(e.right.value) == Some(b)
    decreases t, 0
  {
    EvaluateHits(t.left.value, a, rs);
    var first := Evaluate(t.left.value, a, rs).value;
    EvaluateHits(t.right.value, b, first.1);
  }

  /** A `+` node below target 2 becomes the constant 1, so at a target
      below 1 it misses. */
  lemma PlusBelowTwo(t: Node, v: int, rs: Draws)
    requires t.op == Some(Plus) && v <= 1
    ensures Evaluate(t, v, rs).Ok?
    ensures Evaluate(t, v, rs).value.0.op == None
    ensures Value(Evaluate(t, v, rs).value.0) == Some(1)
  {
  }

  /** The text between the two children of an operator node. */
  function Infix(op: Op): string {
    match op
    case Plus => PLUS
    case Minus => MINUS
    case Times => TIMES
  }

  /** An operator node is formatted as its children's texts around the
      operator, in parentheses. */
  lemma NodePieces(t: Node, s: string)
    requires Format(t) == Ok(s) && t.op != None
    ensures t.left.Some? && Format(t.left.value).Ok?
    ensures t.right.Some? && Format(t.right.value).Ok?
    ensures s == OPEN + Format(t.left.value).value + Infix(t.op.value) + Format(t.right.value).value + CLOSE
  {
    var l, r := Format(t.left.value).value, Format(t.right.value).value;
    var op := OpText(t.op.value);
    assert Infix(t.op.value) == " " + op + " ";
    Associative(OPEN + l, " " + op, " ");
    Associative(OPEN + l, " ", op);
  }

  /** A formatted evaluated tree is read as one factor, whatever follows it
      that cannot continue a number. */
  lemma {:induction false} FactorReads(t: Node, rest: string)
    requires Evaluated(t) && EndsFactor(rest)
    ensures Format(t).Ok?
    ensures ParseFactor(Format(t).value + rest) == Some(Parsed(Value(t), rest))
    decreases t
  {
    if t.op == None {
      IntReads(t.value.value, rest);
    } else {
      var op := t.op.value;
      var c0, c1 := t.left.value, t.right.value;
      StopFacts(rest);
      FactorReads(c1, CLOSE + rest);
      var y := Format(c1).value + (CLOSE + rest);
      StopFacts(y);
      FactorReads(c0, Infix(op) + y);
      NodeText(t, rest);
      match op
      case Plus => ParenSumReads(Format(c0).value, Value(c0), Format(c1).value, Value(c1), rest);
      case Minus => ParenDifferenceReads(Format(c0).value, Value(c0), Format(c1).value, Value(c1), rest);
      case Times => ParenProductReads(Format(c0).value, Value(c0), Format(c1).value, Value(c1), rest);
    }
  }

  /** The text of an operator node followed by `rest`, nested to the right. */
  lemma NodeText(t: Node, rest: string)
    requires Format(t).Ok? && t.op != None
    ensures t.left.Some? && Format(t.left.value).Ok?
    ensures t.right.Some? && Format(t.right.value).Ok?
    ensures Format(t).value + rest
      == OPEN + (Format(t.left.value).value + (Infix(t.op.value) + (Format(t.right.value).value + (CLOSE + rest))))
  {
    NodePieces(t, Format(t).value);
    Assoc5(OPEN, Format(t.left.value).value, Infix(t.op.value), Format(t.right.value).value, CLOSE, rest);
  }

  /** The round trip: the text printed for an evaluated tree reads as the
      number the tree denotes. */
  lemma FormatReads(t: Node)
    requires Evaluated(t)
    ensures Format(t).Ok?
    ensures Read(Format(t).value) == Reads(Value(t))
  {
    StopFacts([]);
    FactorReads(t, []);
    WholeFactorReads(Format(t).value, Value(t));
  }

  /** Both scripts, for every answer of at least 1, every depth and every
      draw, print a text that reads as the answer. */
  lemma EquationReadsAnswer(answer: int, maxDepth: int, variant: Variant, rs: Draws)
    requires answer >= 1
    ensures Equation(answer, maxDepth, variant, rs).Ok?
    ensures Read(Equation(answer, maxDepth, variant, rs).value) == Reads(Some(answer))
  {
    var grown := Expand(NewNode(RootLevel(variant)), maxDepth, rs);
    ExpandExpanded(NewNode(RootLevel(variant)), maxDepth, rs);
    EvaluateHits(grown.0, answer, grown.1);
    FormatReads(Evaluate(grown.0, answer, grown.1).value.0);
  }

  /** The scripts as they stand print a text that reads as 42. */
  lemma RunReadsAnswer(variant: Variant, rs: Draws)
    ensures Run(variant, rs).Ok?
    ensures Read(Run(variant, rs).value) == Reads(Some(ANSWER))
  {
    EquationReadsAnswer(ANSWER, DEPTH, variant, rs);
  }

  /** With depth 1 the TypeScript root is never expanded and the script
      prints the answer itself. */
  lemma TypeScriptDepthOne(answer: int, rs: Draws)
    ensures Equation(answer, 1, TypeScript, rs) == Ok(IntToString(answer))
  {
  }

  /** With depth 1 the JavaScript root is expanded anyway: with every draw
      0 it becomes `+` and the script prints `(1 + 41)`. */
  lemma JavaScriptDepthOne()
    ensures Equation(42, 1, JavaScript, []) == Ok("(1 + 41)")
  {
    var leaf := NewNode(NotANumber);
    assert Grow(leaf, 1, []) == (leaf, []);
    assert Script.TsEngine.Choose(OPS, []) == (Some(Plus), []);
    var root := Node(Some(Plus), None, Some(leaf), Some(leaf), NotANumber);
    assert Expand(NewNode(NotANumber), 1, []) == (root, []);
    assert Uniform(1, 41, []) == (1, []);
    var one, fortyOne := leaf.(value := Some(1)), leaf.(value := Some(41));
    assert Evaluate(leaf, 1, []) == Ok((one, []));
    assert Evaluate(leaf, 41, []) == Ok((fortyOne, []));
    var evaluated := root.(left := Some(one), right := Some(fortyOne));
    assert Evaluate(root, 42, []) == Ok((evaluated, []));
    assert IntToString(1) == "1" && IntToString(41) == "41";
    assert Format(one) == Ok("1") && Format(fortyOne) == Ok("41");
    assert "(" + "1" + " " + OpText(Plus) + " " + "41" + ")" == "(1 + 41)";
  }
}
