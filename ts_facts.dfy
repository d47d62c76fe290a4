/** What the TypeScript engine of `src/unsolver.ts` guarantees, and where
    its two defects show: the shape of an expanded tree, the exactness of
    evaluation (in both revisions), and the text of the formatter, which
    reads back as the value of the tree once the Add case renders its right
    child. The text is related to the Rust engine's through a translation
    of trees, so the reading proof of module EngineText is reused. */
module TsFacts {

  import opened Wrappers
  import opened Random
  import opened Numbers
  import opened Arith
  import opened Outcomes
  import opened Reading
  import opened TsEngine
  import Engine
  import EngineFacts
  import EngineText

  /** The shape of a tree grown by expansion towards `maxDepth` from `ops`:
      no node is deeper than `maxDepth` and one at `maxDepth` is a leaf
      constant; every operator is a constant or one of `ops`, or
      `undefined` when `ops` is empty; each node has the children its
      operator needs, one level further down; no value is set yet. */
  predicate Grown(t: MathNode, maxDepth: int, ops: seq<MathOp>)
    decreases t
  {
    && t.depth <= maxDepth
    && t.value == None
    && (t.depth == maxDepth ==> t.op == Some(Const) && t.children == [])
    && (t.op == None ==> ops == [])
    && (t.op.Some? ==> t.op.value == Const || t.op.value in ops)
    && |t.children| == ChildCount(t.op)
    && forall i :: 0 <= i < |t.children| ==>
         t.children[i].depth == t.depth + 1 && Grown(t.children[i], maxDepth, ops)
  }

  /** Expanding a new node whose depth is at most `maxDepth` grows a tree
      of that shape and keeps the node's depth. */
  lemma {:induction false} ExpandGrows(node: MathNode, maxDepth: int, ops: seq<MathOp>, rs: Draws)
    requires node == NewNode(node.depth) && node.depth <= maxDepth
    ensures Grown(Expand(node, maxDepth, ops, rs).0, maxDepth, ops)
    ensures Expand(node, maxDepth, ops, rs).0.depth == node.depth
    decreases |rs|, 1
  {
    if node.depth != maxDepth {
      var (op, rs1) := Choose(ops, rs);
      FillGrows([], 0, ChildCount(op), node.depth + 1, maxDepth, ops, rs1);
    }
  }

  lemma {:induction false} FillGrows(children: seq<MathNode>, i: nat, count: nat, depth: int, maxDepth: int, ops: seq<MathOp>, rs: Draws)
    requires |children| == i <= count && depth <= maxDepth
    requires forall j :: 0 <= j < i ==> children[j].depth == depth && Grown(children[j], maxDepth, ops)
    ensures
      var kids := Fill(children, i, count, depth, maxDepth, ops, rs).0;
      |kids| == count && forall j :: 0 <= j < count ==> kids[j].depth == depth && Grown(kids[j], maxDepth, ops)
    decreases |rs|, 0, count - i
  {
    if i < count {
      var (heads, rs1) := Flip(rs);
      var (child, rs2) := if heads then Expand(NewNode(depth), maxDepth, ops, rs1) else (NewNode(depth), rs1);
      if heads {
        ExpandGrows(NewNode(depth), maxDepth, ops, rs1);
      }
      FillGrows(Put(children, i, child), i + 1, count, depth, maxDepth, ops, rs2);
    }
  }

  /** A tree of the shape expansion gives for operators without `Sin` and
      `Cos`: every constant has no value yet and every other node is binary
      with its two children. */
  predicate Fresh(t: MathNode)
    decreases t
  {
    match t.op
    case None => false
    case Some(op) =>
      if op == Const then t.value == None
      else IsBinary(op) && |t.children| == 2 && Fresh(t.children[0]) && Fresh(t.children[1])
  }

  /** A non-empty list of operators without `Sin` and `Cos`. */
  predicate ArithmeticOps(ops: seq<MathOp>) {
    ops != [] && forall op :: op in ops ==> !IsTrig(op)
  }

  /** Expanding a new node with arithmetic operators gives a fresh tree,
      whatever the maximum depth. */
  lemma {:induction false} ExpandFresh(node: MathNode, maxDepth: int, ops: seq<MathOp>, rs: Draws)
    requires node == NewNode(node.depth) && ArithmeticOps(ops)
    ensures Fresh(Expand(node, maxDepth, ops, rs).0)
    decreases |rs|, 1
  {
    if node.depth != maxDepth {
      var (op, rs1) := Choose(ops, rs);
      FillFresh([], 0, ChildCount(op), node.depth + 1, maxDepth, ops, rs1);
    }
  }

  lemma {:induction false} FillFresh(children: seq<MathNode>, i: nat, count: nat, depth: int, maxDepth: int, ops: seq<MathOp>, rs: Draws)
    requires |children| == i <= count && ArithmeticOps(ops)
    requires forall j :: 0 <= j < i ==> Fresh(children[j])
    ensures
      var kids := Fill(children, i, count, depth, maxDepth, ops, rs).0;
      |kids| == count && forall j :: 0 <= j < count ==> Fresh(kids[j])
    decreases |rs|, 0, count - i
  {
    if i < count {
      var (heads, rs1) := Flip(rs);
      var (child, rs2) := if heads then Expand(NewNode(depth), maxDepth, ops, rs1) else (NewNode(depth), rs1);
      if heads {
        ExpandFresh(NewNode(depth), maxDepth, ops, rs1);
      }
      FillFresh(Put(children, i, child), i + 1, count, depth, maxDepth, ops, rs2);
    }
  }

  /** The Rust operator a node stands for: a constant holding an integer
      stands for that integer, any other constant (no value, NaN) and an
      `undefined` operator for an empty constant. */
  function EngineOp(op: Option<MathOp>, value: Option<JsNumber>): (r: Engine.MathOp)
    ensures op.Some? && op.value != Const ==> Engine.Precedence(r) == Precedence(op)
  {
    match op
    case None => Engine.Const(None)
    case Some(o) =>
      match o
      case Const => if value.Some? && value.value.Num? then Engine.Const(Some(value.value.n)) else Engine.Const(None)
      case Add => Engine.Add
      case Sub => Engine.Sub
      case Mul => Engine.Mul
      case Div => Engine.Div
      case Sin => Engine.Sin
      case Cos => Engine.Cos
  }

  /** The Rust tree of the same shape. */
  function ToEngine(t: MathNode): (e: Engine.MathNode)
    ensures e.op == EngineOp(t.op, t.value) && e.depth == t.depth && |e.children| == |t.children|
    ensures forall i {:trigger e.children[i]} :: 0 <= i < |t.children| ==> e.children[i] == ToEngine(t.children[i])
    decreases t
  {
    Engine.MathNode(EngineOp(t.op, t.value), seq(|t.children|, i requires 0 <= i < |t.children| => ToEngine(t.children[i])), t.depth)
  }

  /** The integer a tree denotes (`None` when it denotes none): the value of
      the Rust tree of the same shape. */
  function Value(t: MathNode): Option<int> {
    Engine.Value(ToEngine(t))
  }

  /** A tree as evaluation leaves it: every constant it reaches holds an
      integer of at least 1, and every other node it reaches is binary with
      its two children. */
  predicate Evaluated(t: MathNode)
    decreases t
  {
    match t.op
    case None => false
    case Some(op) =>
      if op == Const then t.value.Some? && t.value.value.Num? && t.value.value.n >= 1
      else IsBinary(op) && |t.children| == 2 && Evaluated(t.children[0]) && Evaluated(t.children[1])
  }

  /** An evaluation that succeeds, leaving an evaluated tree that denotes
      `v`. */
  predicate Reaches(r: Outcome<(MathNode, Draws)>, v: Option<int>) {
    r.Ok? && Evaluated(r.value.0) && Value(r.value.0) == v
  }

  /** Evaluating a fresh tree at a target of at least 1 succeeds, in both
      revisions, leaves only positive integer constants, and the tree then
      denotes exactly the target. */
  lemma {:induction false} EvaluateFresh(t: MathNode, v: int, rs: Draws, rev: Revision)
    requires Fresh(t) && v >= 1
    ensures Evaluate(t, Num(v), rs, rev).Ok?
    ensures Evaluated(Evaluate(t, Num(v), rs, rev).value.0)
    ensures Value(Evaluate(t, Num(v), rs, rev).value.0) == Some(v)
    decreases t, 3
  {
    match t.op.value
    case Const =>
    case Add => SumFresh(t, v, rs, rev);
    case Sub => DifferenceFresh(t, v, rs, rev);
    case Mul => ProductFresh(t, v, rs, rev);
    case Div => FractionFresh(t, v, rs, rev);
  }

  lemma {:induction false} SumFresh(t: MathNode, v: int, rs: Draws, rev: Revision)
    requires Fresh(t) && t.op == Some(Add) && v >= 1
    ensures Reaches(EvaluateAdd(t, Num(v), rs, rev), Some(v))
    decreases t, 2
  {
    if v > 1 {
      var split := AddSplit(v, rs);
      EvaluatePairFresh(t, split.0, split.1, split.2, rev);
      PairEvaluated(EvaluatePair(t, Num(split.0), Num(split.1), split.2, rev).value.0);
      PairValue(EvaluatePair(t, Num(split.0), Num(split.1), split.2, rev).value.0, split.0, split.1);
    } else {
      var c := t.(op := Some(Const), value := Some(Num(1)));
      assert ToEngine(c).op == Engine.Const(Some(1));
    }
  }

  lemma {:induction false} DifferenceFresh(t: MathNode, v: int, rs: Draws, rev: Revision)
    requires Fresh(t) && t.op == Some(Sub) && v >= 1
    ensures Reaches(EvaluateSub(t, Num(v), rs, rev), Some(v))
    decreases t, 2
  {
    var split := SubSplit(Num(v), rs);
    EvaluatePairFresh(t, split.0.n, split.1.n, split.2, rev);
    var x := EvaluatePair(t, split.0, split.1, split.2, rev).value.0;
    PairEvaluated(x);
    PairValue(x, split.0.n, split.1.n);
  }

  lemma {:induction false} ProductFresh(t: MathNode, v: int, rs: Draws, rev: Revision)
    requires Fresh(t) && t.op == Some(Mul) && v >= 1
    ensures Reaches(EvaluateMul(t, Num(v), rs, rev), Some(v))
    decreases t, 2
  {
    var split := MulSplit(Num(v), rs, rev);
    if split.0.Some? {
      var (left, right) := split.0.value;
      EvaluatePairFresh(t, left, right, split.1, rev);
      PairEvaluated(EvaluatePair(t, Num(left), Num(right), split.1, rev).value.0);
      PairValue(EvaluatePair(t, Num(left), Num(right), split.1, rev).value.0, left, right);
    }
  }

  lemma {:induction false} FractionFresh(t: MathNode, v: int, rs: Draws, rev: Revision)
    requires Fresh(t) && t.op == Some(Div) && v >= 1
    ensures Reaches(EvaluateDiv(t, Num(v), rs, rev), Some(v))
    decreases t, 2
  {
    var split := DivSplit(Num(v));
    var top, bottom := split.0.n, split.1.n;
    EvaluatePairFresh(t, top, bottom, rs, rev);
    PairEvaluated(EvaluatePair(t, Num(top), Num(bottom), rs, rev).value.0);
    PairValue(EvaluatePair(t, Num(top), Num(bottom), rs, rev).value.0, top, bottom);
    ExactQuotient(v, bottom);
  }

  /** A binary node with two evaluated children is evaluated. */
  lemma PairEvaluated(t: MathNode)
    requires t.op.Some? && IsBinary(t.op.value) && |t.children| == 2
    requires Evaluated(t.children[0]) && Evaluated(t.children[1])
    ensures Evaluated(t)
  {
  }

  /** A binary node denotes its operator applied to what its two children
      denote. */
  lemma PairValue(t: MathNode, a: int, b: int)
    requires t.op.Some? && IsBinary(t.op.value) && |t.children| == 2
    requires Value(t.children[0]) == Some(a) && Value(t.children[1]) == Some(b)
    ensures t.op == Some(Add) ==> Value(t) == Some(a + b)
    ensures t.op == Some(Sub) ==> Value(t) == Some(a - b)
    ensures t.op == Some(Mul) ==> Value(t) == Some(a * b)
    ensures t.op == Some(Div) ==> Value(t) == FracV(Some(a), Some(b))
  {
    var e := ToEngine(t);
    assert e.children[0] == ToEngine(t.children[0]) && e.children[1] == ToEngine(t.children[1]);
  }

  /** Both children of a fresh binary node are evaluated successfully at
      positive targets, and keep the values they are given. */
  lemma {:induction false} EvaluatePairFresh(node: MathNode, left: int, right: int, rs: Draws, rev: Revision)
    requires Fresh(node) && node.op != Some(Const) && left >= 1 && right >= 1
    ensures EvaluatePair(node, Num(left), Num(right), rs, rev).Ok?
    ensures
      var t := EvaluatePair(node, Num(left), Num(right), rs, rev).value.0;
      && t.op == node.op && |t.children| == 2
      && Evaluated(t.children[0]) && Value(t.children[0]) == Some(left)
      && Evaluated(t.children[1]) && Value(t.children[1]) == Some(right)
    decreases node, 0
  {
    EvaluateFresh(node.children[0], left, rs, rev);
    var first := Evaluate(node.children[0], Num(left), rs, rev).value;
    EvaluateFresh(node.children[1], right, first.1, rev);
  }

  /** An evaluated tree formats to a string, in both revisions. */
  lemma {:induction false} EvaluatedFormats(t: MathNode, rev: Revision)
    requires Evaluated(t)
    ensures FormatNode(t, rev).Ok? && FormatNode(t, rev).value.Some?
    decreases t
  {
    if t.op != Some(Const) {
      EvaluatedFormats(t.children[0], rev);
      EvaluatedFormats(t.children[1], rev);
    }
  }

  /** A tree whose text the intended formatter can produce without
      `undefined` or `NaN`: every node it reaches has an operator and
      every constant it reaches an integer. */
  predicate Plain(t: MathNode)
    decreases t
  {
    match t.op
    case None => false
    case Some(op) =>
      if op == Const then t.value.Some? && t.value.value.Num?
      else forall i :: 0 <= i < |t.children| ==> Plain(t.children[i])
  }

  lemma {:induction false} EvaluatedIsPlain(t: MathNode)
    requires Evaluated(t)
    ensures Plain(t) && EngineFacts.Evaluated(ToEngine(t))
    decreases t
  {
    if t.op != Some(Const) {
      EvaluatedIsPlain(t.children[0]);
      EvaluatedIsPlain(t.children[1]);
    }
  }

  /** A Rust formatting result as the TypeScript one: text is text, and the
      panic on an absent child is the `TypeError` on `undefined`. */
  function Translate(o: Outcome<string>): Outcome<Option<string>> {
    match o
    case Ok(s) => Ok(Some(s))
    case Err(m) => Err(m)
    case Raised(_) => Raised(TypeError)
  }

  /** On plain trees the intended formatter writes exactly what the Rust
      `format_node` writes for the tree of the same shape. */
  lemma {:induction false} FormatAgrees(t: MathNode)
    requires Plain(t)
    ensures FormatNode(t, Intended) == Translate(Engine.FormatNode(ToEngine(t)))
    decreases t, 2
  {
    var op := t.op.value;
    if op == Add || op == Mul || op == Sub {
      BinaryAgrees(t);
    } else if op == Div {
      FractionAgrees(t);
    } else if op != Const {
      TrigAgrees(t);
    }
  }

  lemma {:induction false} BinaryAgrees(t: MathNode)
    requires Plain(t) && (t.op == Some(Add) || t.op == Some(Sub) || t.op == Some(Mul))
    ensures FormatNode(t, Intended) == Translate(Engine.FormatNode(ToEngine(t)))
    decreases t, 1
  {
    ChildAgrees(t, 0, Precedence(t.op));
    ChildAgrees(t, 1, Precedence(t.op));
    ChildAgrees(t, 1, 0);
  }

  lemma {:induction false} FractionAgrees(t: MathNode)
    requires Plain(t) && t.op == Some(Div)
    ensures FormatNode(t, Intended) == Translate(Engine.FormatNode(ToEngine(t)))
    decreases t, 1
  {
    ChildAgrees(t, 0, 10000);
    ChildAgrees(t, 1, 10000);
  }

  lemma {:induction false} TrigAgrees(t: MathNode)
    requires Plain(t) && (t.op == Some(Sin) || t.op == Some(Cos))
    ensures FormatNode(t, Intended) == Translate(Engine.FormatNode(ToEngine(t)))
    decreases t, 1
  {
    ChildAgrees(t, 0, 10000);
  }

  lemma {:induction false} ChildAgrees(t: MathNode, index: nat, prec: int)
    requires Plain(t) && t.op != Some(Const)
    ensures FormatChild(t, index, prec, Intended) == Translate(Engine.FormatChild(ToEngine(t), index, prec))
    decreases t, 0
  {
    if index < |t.children| {
      var child := t.children[index];
      FormatAgrees(child);
      if child.op == Some(Const) {
        assert Engine.Precedence(ToEngine(child).op) == 0 == Precedence(child.op);
      }
    }
  }

  /** The round trip of the intended formatter: the text of a plain tree
      reads back as the value the tree denotes. */
  lemma FormatReads(t: MathNode, s: string)
    requires Plain(t) && FormatNode(t, Intended) == Ok(Some(s))
    ensures Read(s) == Reads(Value(t))
  {
    FormatAgrees(t);
    EngineText.FormatReads(ToEngine(t));
  }

  /** The intended `getEquation`: for every answer of at least 1, every
      depth, every non-empty list of arithmetic operators and every draw,
      the equation is a string that reads as the answer. */
  lemma EquationReadsAnswer(answer: int, depth: int, ops: seq<MathOp>, rs: Draws)
    requires answer >= 1 && ArithmeticOps(ops)
    ensures Equation(answer, depth, ops, rs, Intended).Ok?
    ensures Equation(answer, depth, ops, rs, Intended).value.Some?
    ensures Read(Equation(answer, depth, ops, rs, Intended).value.value) == Reads(Some(answer))
  {
    var (root, rs1) := Expand(NewNode(1), depth, ops, rs);
    ExpandFresh(NewNode(1), depth, ops, rs);
    EvaluateFresh(root, answer, rs1, Intended);
    var evaluated := Evaluate(root, Num(answer), rs1, Intended).value.0;
    EvaluatedIsPlain(evaluated);
    EvaluatedFormats(evaluated, Intended);
    FormatReads(evaluated, FormatNode(evaluated, Intended).value.value);
  }

  /** `getEquation` as written still produces a string for every answer of
      at least 1, and the tree behind it denotes the answer. */
  lemma EquationAsWrittenDenotesAnswer(answer: int, depth: int, ops: seq<MathOp>, rs: Draws)
    requires answer >= 1 && ArithmeticOps(ops)
    ensures Equation(answer, depth, ops, rs, AsWritten).Ok?
    ensures Equation(answer, depth, ops, rs, AsWritten).value.Some?
    ensures
      var (root, rs1) := Expand(NewNode(1), depth, ops, rs);
      Value(Evaluate(root, Num(answer), rs1, AsWritten).value.0) == Some(answer)
  {
    var (root, rs1) := Expand(NewNode(1), depth, ops, rs);
    ExpandFresh(NewNode(1), depth, ops, rs);
    EvaluateFresh(root, answer, rs1, AsWritten);
    EvaluatedFormats(Evaluate(root, Num(answer), rs1, AsWritten).value.0, AsWritten);
  }

  /** A constant holding `n`, at depth 2. */
  function Leaf(n: int): MathNode {
    MathNode(Some(Const), Some(Num(n)), [], 2)
  }

  /** The Add case as written renders its left child twice: target 3 on an
      Add node with the draw 0 becomes `1 + 2`, whose text as written is
      `1 + 1` and reads as 2. As intended the text is `1 + 2`. */
  lemma AddRendersLeftTwice()
    ensures
      var node := MathNode(Some(Add), None, [NewNode(2), NewNode(2)], 1);
      var t := MathNode(Some(Add), None, [Leaf(1), Leaf(2)], 1);
      && Evaluate(node, Num(3), [0], AsWritten) == Ok((t, []))
      && Value(t) == Some(3)
      && FormatNode(t, AsWritten) == Ok(Some("1 + 1"))
      && Read("1 + 1") == Reads(Some(2))
      && FormatNode(t, Intended) == Ok(Some("1 + 2"))
  {
    AddAtThree();
    AddTexts();
    var twice := MathNode(Some(Add), None, [Leaf(1), Leaf(1)], 1);
    FormatReads(twice, "1 + 1");
  }

  lemma AddAtThree()
    ensures
      var node := MathNode(Some(Add), None, [NewNode(2), NewNode(2)], 1);
      Evaluate(node, Num(3), [0], AsWritten) == Ok((MathNode(Some(Add), None, [Leaf(1), Leaf(2)], 1), []))
  {
    var node := MathNode(Some(Add), None, [NewNode(2), NewNode(2)], 1);
    assert AddSplit(3, [0]) == (1, 2, []);
    assert EvaluateAdd(node, Num(3), [0], AsWritten) == EvaluatePair(node, Num(1), Num(2), [], AsWritten);
    PairOfLeaves(Add, 1, 2, [], AsWritten);
  }

  /** Two fresh leaves below a node at depth 1 take the targets they are
      handed, without a draw. */
  lemma PairOfLeaves(op: MathOp, a: int, b: int, rs: Draws, rev: Revision)
    ensures
      var node := MathNode(Some(op), None, [NewNode(2), NewNode(2)], 1);
      EvaluatePair(node, Num(a), Num(b), rs, rev) == Ok((MathNode(Some(op), None, [Leaf(a), Leaf(b)], 1), rs))
  {
    var node := MathNode(Some(op), None, [NewNode(2), NewNode(2)], 1);
    assert Evaluate(NewNode(2), Num(a), rs, rev) == Ok((Leaf(a), rs));
    assert Evaluate(NewNode(2), Num(b), rs, rev) == Ok((Leaf(b), rs));
    assert node.children[0 := Leaf(a)][1 := Leaf(b)] == [Leaf(a), Leaf(b)];
  }

  lemma AddTexts()
    ensures FormatNode(MathNode(Some(Add), None, [Leaf(1), Leaf(2)], 1), AsWritten) == Ok(Some("1 + 1"))
    ensures FormatNode(MathNode(Some(Add), None, [Leaf(1), Leaf(2)], 1), Intended) == Ok(Some("1 + 2"))
    ensures FormatNode(MathNode(Some(Add), None, [Leaf(1), Leaf(1)], 1), Intended) == Ok(Some("1 + 1"))
  {
    var t := MathNode(Some(Add), None, [Leaf(1), Leaf(2)], 1);
    var twice := MathNode(Some(Add), None, [Leaf(1), Leaf(1)], 1);
    assert IntToString(1) == "1" && IntToString(2) == "2";
    assert "1" + " " + "+" + " " + "1" == "1 + 1";
    assert "1" + " " + "+" + " " + "2" == "1 + 2";
    assert FormatChild(t, 0, 2, AsWritten) == Ok(Some("1"));
    assert FormatChild(t, 0, 2, Intended) == Ok(Some("1"));
    assert FormatChild(t, 1, 2, Intended) == Ok(Some("2"));
    assert FormatChild(twice, 1, 2, Intended) == Ok(Some("1"));
  }

  /** Mul as written asks for two divisors: target 4, whose only divisor is
      2, degrades a Mul node to the constant 4. As intended it splits into
      `2 \times 2`. */
  lemma MulAtFourDegrades(rs: Draws)
    ensures Divisors(4) == [2]
    ensures
      var node := MathNode(Some(Mul), None, [NewNode(2), NewNode(2)], 1);
      Evaluate(node, Num(4), rs, AsWritten) == Ok((node.(op := Some(Const), value := Some(Num(4))), rs))
    ensures
      var node := MathNode(Some(Mul), None, [NewNode(2), NewNode(2)], 1);
      var r := Evaluate(node, Num(4), rs, Intended);
      r.Ok? && r.value.0.op == Some(Mul) && r.value.0.children == [Leaf(2), Leaf(2)]
  {
    DivisorsOfFour();
    MulAtFourSplits(rs);
  }

  lemma DivisorsOfFour()
    ensures Divisors(4) == [2]
  {
    assert DivisorsBelow(4, 3) == [2];
  }

  lemma MulAtFourSplits(rs: Draws)
    requires Divisors(4) == [2]
    ensures
      var node := MathNode(Some(Mul), None, [NewNode(2), NewNode(2)], 1);
      var r := Evaluate(node, Num(4), rs, Intended);
      r.Ok? && r.value.0.op == Some(Mul) && r.value.0.children == [Leaf(2), Leaf(2)]
  {
    var node := MathNode(Some(Mul), None, [NewNode(2), NewNode(2)], 1);
    FourSplitsEvenly(rs);
    var rs1 := MulSplit(Num(4), rs, Intended).1;
    assert EvaluateMul(node, Num(4), rs, Intended) == EvaluatePair(node, Num(2), Num(2), rs1, Intended);
    PairOfLeaves(Mul, 2, 2, rs1, Intended);
  }

  lemma FourSplitsEvenly(rs: Draws)
    requires Divisors(4) == [2]
    ensures MulSplit(Num(4), rs, Intended).0 == Some((2, 2))
  {
    var r := MulSplit(Num(4), rs, Intended).0;
    assert r.value.0 == 2;
    assert 2 * r.value.1 == 4;
  }

  /** With no operator enabled and a depth other than 1, `choose` gives the
      root the operator `undefined`, and evaluation throws. */
  lemma EmptyOpsThrow(answer: int, depth: int, rs: Draws, rev: Revision)
    requires depth != 1
    ensures Equation(answer, depth, [], rs, rev) == Raised(TypeError)
  {
    var none: seq<MathOp> := [];
    var (op, rs1) := Choose(none, rs);
    assert Fill([], 0, ChildCount(op), 2, depth, [], rs1).0 == [];
  }

  /** `Sin` and `Cos` hand `Math.asin` and `Math.acos` of their target to
      their child: NaN for a target of 2 or more, so a trig node never
      denotes such a target. */
  lemma TrigMissesTarget(t: MathNode, v: int, rs: Draws, rev: Revision)
    requires t.op == Some(Sin) || t.op == Some(Cos)
    requires v >= 2
    ensures Evaluate(t, Num(v), rs, rev) == EvaluateFirst(t, NaN, rs, rev)
    ensures Evaluate(t, Num(v), rs, rev).Ok? ==> Value(Evaluate(t, Num(v), rs, rev).value.0) != Some(v)
  {
  }

  /** With `Sin` only and depth 2, target 2 renders as `\sin(NaN)`. */
  lemma SineOfTwo(rs: Draws, rev: Revision)
    ensures Equation(2, 2, [Sin], rs, rev) == Ok(Some("\\sin(NaN)"))
  {
    var (op, rs1) := Choose([Sin], rs);
    assert op == Some(Sin);
    var (heads, rs2) := Flip(rs1);
    assert Expand(NewNode(2), 2, [Sin], rs2) == (NewNode(2), rs2);
    assert Put([], 0, NewNode(2)) == [NewNode(2)];
    assert Fill([NewNode(2)], 1, 1, 2, 2, [Sin], rs2) == ([NewNode(2)], rs2);
    var (kids, rest) := Fill([], 0, 1, 2, 2, [Sin], rs1);
    assert kids == [NewNode(2)];
    var root := MathNode(Some(Sin), None, [NewNode(2)], 1);
    assert Expand(NewNode(1), 2, [Sin], rs) == (root, rest);
    var leaf := MathNode(Some(Const), Some(NaN), [], 2);
    assert root.children[0 := leaf] == [leaf];
    var evaluated := MathNode(Some(Sin), None, [leaf], 1);
    assert Evaluate(root, Num(2), rest, rev) == Ok((evaluated, rest));
    assert FormatChild(evaluated, 0, 10000, rev) == Ok(Some("NaN"));
    assert "\\" + "sin" + "(" + "NaN" + ")" == "\\sin(NaN)";
  }
}
