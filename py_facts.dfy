/** What `init.py` guarantees: the shape and the depth of the tree it
    grows, that evaluation hits a target of at least 1 and raises below
    it, and that the one line it prints reads as the answer. */
module PyFacts {

  import opened Wrappers
  import opened Random
  import opened Numbers
  import opened Arith
  import opened Outcomes
  import opened Reading
  import opened Py

  /** The shape `expand_node` gives a new node at depth `d` when the limit
      is `maxDepth`: every node has no value; a node with an operator has
      its two children, one level down; a node without has none; a node at
      `maxDepth` has no operator, and the children of a node at depth 11 or
      more are never expanded. */
  predicate Grown(t: Node, d: int, maxDepth: int)
    decreases t
  {
    && t.depth == d && t.value == None
    && (d == maxDepth ==> t.op == None)
    && (t.op == None ==> t.left == None && t.right == None)
    && (t.op != None ==>
         && t.left.Some? && Grown(t.left.value, d + 1, maxDepth)
         && t.right.Some? && Grown(t.right.value, d + 1, maxDepth)
         && (d >= 11 ==> t.left.value.op == None && t.right.value.op == None))
  }

  /** The greatest depth of a node of the tree. */
  function Deepest(t: Node): (m: int)
    ensures m >= t.depth
    decreases t
  {
    var l := if t.left.Some? then Deepest(t.left.value) else t.depth;
    var r := if t.right.Some? then Deepest(t.right.value) else t.depth;
    if l < t.depth && r < t.depth then t.depth else if l < r then r else l
  }

  lemma {:induction false} ExpandGrows(d: int, maxDepth: int, rs: Draws)
    ensures Grown(Expand(NewNode(d), maxDepth, rs).0, d, maxDepth)
    decreases Room(d), 1
  {
    if d != maxDepth {
      var rs1 := Index(|OPS|, rs).1;
      var left := Grow(d, maxDepth, rs1);
      GrowGrows(d, maxDepth, rs1);
      GrowGrows(d, maxDepth, left.1);
    }
  }

  /** A child of a node at depth `d` is grown at depth `d + 1`, and left
      unexpanded when `d` is 11 or more. */
  lemma {:induction false} GrowGrows(d: int, maxDepth: int, rs: Draws)
    ensures Grown(Grow(d, maxDepth, rs).0, d + 1, maxDepth)
    ensures d >= 11 ==> Grow(d, maxDepth, rs).0.op == None
    decreases Room(d), 0
  {
    var roll := RandInt(1, 10, rs);
    if roll.0.value >= d {
      ExpandGrows(d + 1, maxDepth, roll.1);
    }
  }

  /** From a node at depth 11 or less no node is deeper than 12, whatever
      the maximum depth. */
  lemma {:induction false} GrownWithinTwelve(t: Node, d: int, maxDepth: int)
    requires Grown(t, d, maxDepth) && d <= 11
    ensures Deepest(t) <= 12
    decreases t
  {
    if t.op != None {
      if d <= 10 {
        GrownWithinTwelve(t.left.value, d + 1, maxDepth);
        GrownWithinTwelve(t.right.value, d + 1, maxDepth);
      }
    }
  }

  /** From a node no deeper than `maxDepth` no node is deeper than
      `maxDepth`. */
  lemma {:induction false} GrownWithinLimit(t: Node, d: int, maxDepth: int)
    requires Grown(t, d, maxDepth) && d <= maxDepth
    ensures Deepest(t) <= maxDepth
    decreases t
  {
    if t.op != None {
      GrownWithinLimit(t.left.value, d + 1, maxDepth);
      GrownWithinLimit(t.right.value, d + 1, maxDepth);
    }
  }

  /** The tree grown from `Node()` reaches neither below depth 12 nor,
      when `DEPTH` is at least 1, below `DEPTH`. */
  lemma ExpandBounded(maxDepth: int, rs: Draws)
    ensures Deepest(Expand(NewNode(1), maxDepth, rs).0) <= 12
    ensures maxDepth >= 1 ==> Deepest(Expand(NewNode(1), maxDepth, rs).0) <= maxDepth
  {
    ExpandGrows(1, maxDepth, rs);
    var t := Expand(NewNode(1), maxDepth, rs).0;
    GrownWithinTwelve(t, 1, maxDepth);
    if maxDepth >= 1 {
      GrownWithinLimit(t, 1, maxDepth);
    }
  }

  /** A tree of that shape: every node with an operator has its two
      children. */
  predicate Expanded(t: Node)
    decreases t
  {
    t.op != None ==>
      && t.left.Some? && Expanded(t.left.value)
      && t.right.Some? && Expanded(t.right.value)
  }

  lemma {:induction false} GrownExpanded(t: Node, d: int, maxDepth: int)
    requires Grown(t, d, maxDepth)
    ensures Expanded(t)
    decreases t
  {
    if t.op != None {
      GrownExpanded(t.left.value, d + 1, maxDepth);
      GrownExpanded(t.right.value, d + 1, maxDepth);
    }
  }

  /** A tree as evaluation leaves it: every node with an operator has its
      two children, and every node without holds a value of at least 1. */
  predicate Evaluated(t: Node)
    decreases t
  {
    if t.op == None then t.value.Some? && t.value.value >= 1
    else
      && t.left.Some? && Evaluated(t.left.value)
      && t.right.Some? && Evaluated(t.right.value)
  }

  /** Evaluating an expanded tree at a target of at least 1 succeeds,
      leaves only positive values, and the tree then denotes exactly the
      target. */
  lemma {:induction false} EvaluateHits(t: Node, v: int, rs: Draws)
    requires Expanded(t) && v >= 1
    ensures Evaluate(t, v, rs).Ok?
    ensures Evaluated(Evaluate(t, v, rs).value.0)
    ensures Value(Evaluate(t, v, rs).value.0) == Some(v)
    decreases t, 1
  {
    match t.op
    case None =>
    case Some(Plus) =>
      if v > 1 {
        var split := RandInt(1, v - 1, rs);
        EvaluatePairHits(t, split.0.value, v - split.0.value, split.1);
      }
    case Some(Minus) =>
      var split := RandInt(v + 1, v * 2, rs);
      EvaluatePairHits(t, split.0.value, split.0.value - v, split.1);
  }

  lemma {:induction false} EvaluatePairHits(t: Node, a: int, b: int, rs: Draws)
    requires Expanded(t) && t.op != None && a >= 1 && b >= 1
    ensures EvaluatePair(t, a, b, rs).Ok?
    ensures
      var e := EvaluatePair(t, a, b, rs).value.0;
      && e.op == t.op && e.left.Some? && e.right.Some?
      && Evaluated(e.left.value) && Value(e.left.value) == Some(a)
      && Evaluated(e.right.value) && Value(e.right.value) == Some(b)
    decreases t, 0
  {
    EvaluateHits(t.left.value, a, rs);
    var first := Evaluate(t.left.value, a, rs).value;
    EvaluateHits(t.right.value, b, first.1);
  }

  /** A `-` node raises `ValueError` exactly at targets below 1, where
      `randint(value + 1, value * 2)` has an empty range. */
  lemma MinusRaises(t: Node, v: int, rs: Draws)
    requires t.op == Some(Minus)
    ensures Evaluate(t, v, rs) == Raised(ValueError) <==> v < 1
  {
    if v >= 1 {
      NoValueError(t, v, rs);
    }
  }

  /** No target of at least 1 leads a node of any tree to an empty range:
      every child is evaluated at a target of at least 1 as well. */
  lemma {:induction false} NoValueError(t: Node, v: int, rs: Draws)
    requires v >= 1
    ensures Evaluate(t, v, rs) != Raised(ValueError)
    decreases t, 1
  {
    match t.op
    case None =>
    case Some(Plus) =>
      if v > 1 {
        var split := RandInt(1, v - 1, rs);
        NoValueErrorPair(t, split.0.value, v - split.0.value, split.1);
      }
    case Some(Minus) =>
      var split := RandInt(v + 1, v * 2, rs);
      NoValueErrorPair(t, split.0.value, split.0.value - v, split.1);
  }

  lemma {:induction false} NoValueErrorPair(t: Node, a: int, b: int, rs: Draws)
    requires a >= 1 && b >= 1
    ensures EvaluatePair(t, a, b, rs) != Raised(ValueError)
    decreases t, 0
  {
    if t.left.Some? {
      NoValueError(t.left.value, a, rs);
      var first := Evaluate(t.left.value, a, rs);
      if first.Ok? && t.right.Some? {
        NoValueError(t.right.value, b, first.value.1);
      }
    }
  }

  /** At depth 2 or more `print_node` prints nothing and returns the text
      of an evaluated tree, and that text reads as the number the tree
      denotes, whatever follows it that cannot continue a number. */
  lemma {:induction false} TextReads(t: Node, depth: int, rest: string)
    requires Evaluated(t) && depth >= 2 && EndsFactor(rest)
    ensures PrintNode(t, depth).Ok?
    ensures PrintNode(t, depth).value.printed == [] && PrintNode(t, depth).value.returned.Some?
    ensures ParseFactor(PrintNode(t, depth).value.returned.value + rest) == Some(Parsed(Value(t), rest))
    decreases t
  {
    if t.op == None {
      IntReads(t.value.value, rest);
    } else {
      var c0, c1 := t.left.value, t.right.value;
      StopFacts(rest);
      TextReads(c1, depth + 1, CLOSE + rest);
      var r := PrintNode(c1, depth + 1).value.returned.value;
      var y := r + (CLOSE + rest);
      StopFacts(y);
      var infix := if t.op == Some(Plus) then PLUS else MINUS;
      TextReads(c0, depth + 1, infix + y);
      var l := PrintNode(c0, depth + 1).value.returned.value;
      NodeText(t, depth, l, r, rest);
      if t.op == Some(Plus) {
        ParenSumReads(l, Value(c0), r, Value(c1), rest);
      } else {
        ParenDifferenceReads(l, Value(c0), r, Value(c1), rest);
      }
    }
  }

  /** The text of an operator node, followed by `rest`, nested to the
      right. */
  lemma NodeText(t: Node, depth: int, l: string, r: string, rest: string)
    requires t.op != None && t.left.Some? && t.right.Some? && depth >= 2
    requires PrintNode(t.left.value, depth + 1) == Ok(Shown([], Some(l)))
    requires PrintNode(t.right.value, depth + 1) == Ok(Shown([], Some(r)))
    ensures PrintNode(t, depth) == Ok(Shown([], Some(OPEN + l + (if t.op == Some(Plus) then PLUS else MINUS) + r + CLOSE)))
    ensures OPEN + l + (if t.op == Some(Plus) then PLUS else MINUS) + r + CLOSE + rest
      == OPEN + (l + ((if t.op == Some(Plus) then PLUS else MINUS) + (r + (CLOSE + rest))))
  {
    var op := OpText(t.op.value);
    var infix := if t.op == Some(Plus) then PLUS else MINUS;
    assert infix == " " + op + " ";
    assert ShownText(Some(l)) == l && ShownText(Some(r)) == r;
    var none: seq<string> := [];
    assert none + none == none;
    Associative(OPEN + l, " " + op, " ");
    Associative(OPEN + l, " ", op);
    assert "(" + l + " " + op + " " + r + ")" == OPEN + l + infix + r + CLOSE;
    Assoc5(OPEN, l, infix, r, CLOSE, rest);
  }

  /** At depth 1 `print_node` prints the text of an evaluated tree as its
      one line, returns `None`, and that line reads as the number the tree
      denotes. */
  lemma PrintReads(t: Node)
    requires Evaluated(t)
    ensures PrintNode(t, 1).Ok?
    ensures |PrintNode(t, 1).value.printed| == 1 && PrintNode(t, 1).value.returned == None
    ensures Read(PrintNode(t, 1).value.printed[0]) == Reads(Value(t))
  {
    StopFacts([]);
    TextReads(t, 2, []);
    var s := PrintNode(t, 2).value.returned.value;
    SameTextAtDepthOne(t, s);
    WholeFactorReads(s, Value(t));
  }

  /** At depth 1 the text is the one a deeper call returns. */
  lemma SameTextAtDepthOne(t: Node, s: string)
    requires PrintNode(t, 2) == Ok(Shown([], Some(s)))
    ensures PrintNode(t, 1) == Ok(Shown([s], None))
  {
    if t.op != None {
      DepthIrrelevant(t.left.value, 2, 3);
      DepthIrrelevant(t.right.value, 2, 3);
    }
    var none: seq<string> := [];
    assert none + [ShownText(Some(s))] == [s];
  }

  /** Below depth 1 the depth passed to `print_node` changes nothing. */
  lemma {:induction false} DepthIrrelevant(t: Node, d: int, e: int)
    requires d >= 2 && e >= 2
    ensures PrintNode(t, d) == PrintNode(t, e)
    decreases t
  {
    if t.op != None && t.left.Some? {
      DepthIrrelevant(t.left.value, d + 1, e + 1);
      if t.right.Some? {
        DepthIrrelevant(t.right.value, d + 1, e + 1);
      }
    }
  }

  /** For every answer of at least 1, every maximum depth and every draw
      the script prints one line, and it reads as the answer. */
  lemma ProgramPrintsAnswer(answer: int, maxDepth: int, rs: Draws)
    requires answer >= 1
    ensures Program(answer, maxDepth, rs).Ok?
    ensures |Program(answer, maxDepth, rs).value| == 1
    ensures Read(Program(answer, maxDepth, rs).value[0]) == Reads(Some(answer))
  {
    var grown := Expand(NewNode(1), maxDepth, rs);
    ExpandGrows(1, maxDepth, rs);
    GrownExpanded(grown.0, 1, maxDepth);
    EvaluateHits(grown.0, answer, grown.1);
    PrintReads(Evaluate(grown.0, answer, grown.1).value.0);
  }

  /** Answer 0 with depth 2: the root draws `-` and the script raises
      `ValueError`. */
  lemma AnswerZeroRaises()
    ensures Program(0, 2, [1]) == Raised(ValueError)
  {
    var leaf := NewNode(2);
    assert RandInt(1, 10, []) == (Some(1), []);
    assert Grow(1, 2, []) == (leaf, []);
    assert Index(2, [1]) == (1, []);
    var root := Node(Some(Minus), None, Some(leaf), Some(leaf), 1);
    assert Expand(NewNode(1), 2, [1]) == (root, []);
    assert RandInt(1, 0, []).0 == None;
  }
}
