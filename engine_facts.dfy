/** What the three phases of the Rust engine guarantee: the shape of an
    expanded tree, the success and the exactness of evaluating it, and that
    an evaluated tree can be formatted. */
module EngineFacts {

  import opened Wrappers
  import opened Random
  import opened Arith
  import opened Outcomes
  import opened Engine

  /** The shape of a tree grown by expansion towards `maxDepth` from `ops`:
      no node is deeper than `maxDepth` and one at `maxDepth` is an empty
      leaf; every operator is an empty constant or one of `ops`; every node
      has the children its operator needs, one level further down. */
  predicate Grown(t: MathNode, maxDepth: int, ops: seq<MathOp>)
    decreases t
  {
    && t.depth <= maxDepth
    && (t.depth == maxDepth ==> t.op == Const(None) && t.children == [])
    && (t.op == Const(None) || t.op in ops)
    && |t.children| == ChildCount(t.op)
    && forall i :: 0 <= i < |t.children| ==>
         t.children[i].depth == t.depth + 1 && Grown(t.children[i], maxDepth, ops)
  }

  /** No Div node has a Div child. */
  predicate NoStackedDiv(t: MathNode)
    decreases t
  {
    forall i :: 0 <= i < |t.children| ==>
      (t.op == Div ==> t.children[i].op != Div) && NoStackedDiv(t.children[i])
  }

  /** Expanding a new node whose depth is at most `maxDepth` grows a tree of
      that shape and keeps the node's depth. */
  lemma {:induction false} ExpandGrows(node: MathNode, maxDepth: int, ops: seq<MathOp>, settings: EngineFlags, rs: Draws)
    requires node.op == Const(None) && node.children == [] && node.depth <= maxDepth
    ensures Grown(Expand(node, maxDepth, ops, settings, rs).0, maxDepth, ops)
    ensures Expand(node, maxDepth, ops, settings, rs).0.depth == node.depth
    decreases |rs|, 1
  {
    if node.depth != maxDepth {
      var chosen := ChooseOp(FilterOps(ops, settings), rs);
      var flags := settings.(divisionParent := chosen.0 == Div);
      ExpandChildrenGrow(ChildCount(chosen.0), node.depth + 1, maxDepth, ops, flags, chosen.1);
    }
  }

  lemma {:induction false} ExpandChildrenGrow(count: nat, depth: int, maxDepth: int, ops: seq<MathOp>, settings: EngineFlags, rs: Draws)
    requires depth <= maxDepth
    ensures forall i :: 0 <= i < count ==>
      ExpandChildren(count, depth, maxDepth, ops, settings, rs).0[i].depth == depth
      && Grown(ExpandChildren(count, depth, maxDepth, ops, settings, rs).0[i], maxDepth, ops)
    decreases |rs|, 0, count
  {
    if count > 0 {
      var before := ExpandChildren(count - 1, depth, maxDepth, ops, settings, rs);
      ExpandChildrenGrow(count - 1, depth, maxDepth, ops, settings, rs);
      var coin := Coin(before.1);
      if coin.0 {
        ExpandGrows(NewNode(depth), maxDepth, ops, settings, coin.1);
      }
    }
  }

  /** Unless stacked division is allowed, expansion puts no Div right below
      a Div, nor at the root when the parent is a Div. */
  lemma {:induction false} ExpandSeparatesDiv(node: MathNode, maxDepth: int, ops: seq<MathOp>, settings: EngineFlags, rs: Draws)
    requires node.op == Const(None) && node.children == [] && !settings.allowStackedDivision
    ensures NoStackedDiv(Expand(node, maxDepth, ops, settings, rs).0)
    ensures settings.divisionParent ==> Expand(node, maxDepth, ops, settings, rs).0.op != Div
    decreases |rs|, 1
  {
    if node.depth != maxDepth {
      var chosen := ChooseOp(FilterOps(ops, settings), rs);
      var flags := settings.(divisionParent := chosen.0 == Div);
      ExpandChildrenSeparateDiv(ChildCount(chosen.0), node.depth + 1, maxDepth, ops, flags, chosen.1);
    }
  }

  lemma {:induction false} ExpandChildrenSeparateDiv(count: nat, depth: int, maxDepth: int, ops: seq<MathOp>, settings: EngineFlags, rs: Draws)
    requires !settings.allowStackedDivision
    ensures forall i :: 0 <= i < count ==>
      NoStackedDiv(ExpandChildren(count, depth, maxDepth, ops, settings, rs).0[i])
      && (settings.divisionParent ==> ExpandChildren(count, depth, maxDepth, ops, settings, rs).0[i].op != Div)
    decreases |rs|, 0, count
  {
    if count > 0 {
      var before := ExpandChildren(count - 1, depth, maxDepth, ops, settings, rs);
      ExpandChildrenSeparateDiv(count - 1, depth, maxDepth, ops, settings, rs);
      var coin := Coin(before.1);
      if coin.0 {
        ExpandSeparatesDiv(NewNode(depth), maxDepth, ops, settings, coin.1);
      }
    }
  }

  /** The Div filter looks one level up only: with stacked division off, a
      Div can still sit two levels below a Div. */
  lemma StackedDivTwoLevelsDown()
    ensures
      var t := Expand(NewNode(1), 4, [Div, Add], NewFlags(), [0, 1, 0, 1, 0, 0, 0, 0]).0;
      t.op == Div && t.children[0].op == Add && t.children[0].children[0].op == Div
  {
    var ops := [Div, Add];
    DivBelowAdd();
    var grandchild := Expand(NewNode(3), 4, ops, EngineFlags(false, false), [0, 0, 0, 0]);
    var inner := ExpandChildren(1, 3, 4, ops, EngineFlags(false, false), [1, 0, 0, 0, 0]);
    assert inner.0 == [grandchild.0];
    var child := Expand(NewNode(2), 4, ops, EngineFlags(false, true), [0, 1, 0, 0, 0, 0]);
    assert FilterOps(ops, EngineFlags(false, true)) == [Add];
    assert child.0.op == Add && child.0.children[0] == grandchild.0;
    var outer := ExpandChildren(1, 2, 4, ops, EngineFlags(false, true), [1, 0, 1, 0, 0, 0, 0]);
    assert outer.0 == [child.0];
  }

  lemma DivBelowAdd()
    ensures Expand(NewNode(3), 4, [Div, Add], EngineFlags(false, false), [0, 0, 0, 0]).0.op == Div
  {
  }

  /** A tree of the shape expansion gives, for operators without `Sin`,
      `Cos` or valued constants: every constant is empty and every inner
      node is binary with its two children. */
  predicate Fresh(t: MathNode)
    decreases t
  {
    && (t.op.Const? ==> t.op == Const(None))
    && !IsTrig(t.op)
    && |t.children| == ChildCount(t.op)
    && forall i :: 0 <= i < |t.children| ==> Fresh(t.children[i])
  }

  /** The operators the toggles of `unsolver-lib/src/lib.rs` can enable. */
  predicate ArithmeticOps(ops: seq<MathOp>) {
    forall op :: op in ops ==> IsBinary(op)
  }

  /** Expanding a new node with arithmetic operators only gives a fresh
      tree, whatever the maximum depth: the depth guard matters for the
      size of the tree, not for its shape. */
  lemma {:induction false} ExpandFresh(node: MathNode, maxDepth: int, ops: seq<MathOp>, settings: EngineFlags, rs: Draws)
    requires node.op == Const(None) && node.children == [] && ArithmeticOps(ops)
    ensures Fresh(Expand(node, maxDepth, ops, settings, rs).0)
    decreases |rs|, 1
  {
    if node.depth != maxDepth {
      var chosen := ChooseOp(FilterOps(ops, settings), rs);
      var flags := settings.(divisionParent := chosen.0 == Div);
      ExpandChildrenFresh(ChildCount(chosen.0), node.depth + 1, maxDepth, ops, flags, chosen.1);
    }
  }

  lemma {:induction false} ExpandChildrenFresh(count: nat, depth: int, maxDepth: int, ops: seq<MathOp>, settings: EngineFlags, rs: Draws)
    requires ArithmeticOps(ops)
    ensures forall i :: 0 <= i < count ==> Fresh(ExpandChildren(count, depth, maxDepth, ops, settings, rs).0[i])
    decreases |rs|, 0, count
  {
    if count > 0 {
      var before := ExpandChildren(count - 1, depth, maxDepth, ops, settings, rs);
      ExpandChildrenFresh(count - 1, depth, maxDepth, ops, settings, rs);
      var coin := Coin(before.1);
      if coin.0 {
        ExpandFresh(NewNode(depth), maxDepth, ops, settings, coin.1);
      }
    }
  }

  /** A tree as evaluation leaves it: every constant it reaches holds a
      value of at least 1, and every binary node it reaches has its two
      children. */
  predicate Evaluated(t: MathNode)
    decreases t
  {
    match t.op
    case Const(c) => c.Some? && c.value >= 1
    case Sin => false
    case Cos => false
    case _ => |t.children| == 2 && Evaluated(t.children[0]) && Evaluated(t.children[1])
  }

  /** The headline property: evaluating a fresh tree at a target of at
      least 1 succeeds, leaves only positive constants, and the tree then
      denotes exactly the target. */
  lemma {:induction false} EvaluateFresh(t: MathNode, v: int, rs: Draws)
    requires Fresh(t) && v >= 1
    ensures Evaluate(t, v, rs).Ok?
    ensures Evaluated(Evaluate(t, v, rs).value.0)
    ensures Value(Evaluate(t, v, rs).value.0) == Some(v)
    decreases t, 1
  {
    match t.op
    case Add =>
      if v > 1 {
        var split := AddSplit(v, rs);
        EvaluatePairFresh(t, split.0, split.1, split.2);
      }
    case Sub =>
      var split := SubSplit(v, rs);
      EvaluatePairFresh(t, split.0, split.1, split.2);
    case Mul =>
      var split := MulSplit(v, rs);
      if split.0.Some? {
        EvaluatePairFresh(t, split.0.value.0, split.0.value.1, split.1);
      }
    case Div =>
      var split := DivSplit(v);
      EvaluatePairFresh(t, split.0, split.1, rs);
      ExactQuotient(v, split.1);
    case Const(_) =>
  }

  /** Both children of a fresh binary node are evaluated successfully at
      positive targets, and keep the values they are given. */
  lemma {:induction false} EvaluatePairFresh(node: MathNode, left: int, right: int, rs: Draws)
    requires Fresh(node) && IsBinary(node.op) && left >= 1 && right >= 1
    ensures EvaluatePair(node, left, right, rs).Ok?
    ensures
      var t := EvaluatePair(node, left, right, rs).value.0;
      && |t.children| == 2
      && Evaluated(t.children[0]) && Value(t.children[0]) == Some(left)
      && Evaluated(t.children[1]) && Value(t.children[1]) == Some(right)
    decreases node, 0
  {
    EvaluateFresh(node.children[0], left, rs);
    var first := Evaluate(node.children[0], left, rs).value;
    EvaluateFresh(node.children[1], right, first.1);
  }

  /** A tree as evaluation leaves it at any target: every constant it
      reaches holds a value, and every binary node it reaches has its two
      children. */
  predicate Filled(t: MathNode)
    decreases t
  {
    match t.op
    case Const(c) => c.Some?
    case Sin => false
    case Cos => false
    case _ => |t.children| == 2 && Filled(t.children[0]) && Filled(t.children[1])
  }

  /** At any target, zero and negative ones included, evaluating a fresh
      tree either fills it or panics dividing by zero: it never ends with
      the error message of an already valued constant. */
  lemma {:induction false} EvaluateFills(t: MathNode, v: int, rs: Draws)
    requires Fresh(t)
    ensures
      var r := Evaluate(t, v, rs);
      r == Raised(DivisionByZero) || (r.Ok? && Filled(r.value.0))
    decreases t, 1
  {
    match t.op
    case Add =>
      if v > 1 {
        var split := AddSplit(v, rs);
        EvaluatePairFills(t, split.0, split.1, split.2);
      }
    case Sub =>
      if v != 0 {
        var split := SubSplit(v, rs);
        EvaluatePairFills(t, split.0, split.1, split.2);
      }
    case Mul =>
      var split := MulSplit(v, rs);
      if split.0.Some? {
        EvaluatePairFills(t, split.0.value.0, split.0.value.1, split.1);
      }
    case Div =>
      var split := DivSplit(v);
      EvaluatePairFills(t, split.0, split.1, rs);
    case Const(_) =>
  }

  lemma {:induction false} EvaluatePairFills(node: MathNode, left: int, right: int, rs: Draws)
    requires Fresh(node) && IsBinary(node.op)
    ensures
      var r := EvaluatePair(node, left, right, rs);
      || r == Raised(DivisionByZero)
      || (r.Ok? && |r.value.0.children| == 2 && Filled(r.value.0.children[0]) && Filled(r.value.0.children[1]))
    decreases node, 0
  {
    EvaluateFills(node.children[0], left, rs);
    var first := Evaluate(node.children[0], left, rs);
    if first.Ok? {
      EvaluateFills(node.children[1], right, first.value.1);
    }
  }

  /** A filled tree formats without reaching an empty constant or a
      missing child. */
  lemma {:induction false} FilledFormats(t: MathNode)
    requires Filled(t)
    ensures FormatNode(t).Ok?
    decreases t
  {
    if !t.op.Const? {
      FilledFormats(t.children[0]);
      FilledFormats(t.children[1]);
    }
  }

  lemma {:induction false} EvaluatedIsFilled(t: MathNode)
    requires Evaluated(t)
    ensures Filled(t)
    decreases t
  {
    if !t.op.Const? {
      EvaluatedIsFilled(t.children[0]);
      EvaluatedIsFilled(t.children[1]);
    }
  }

  /** An evaluated tree formats. */
  lemma EvaluatedFormats(t: MathNode)
    requires Evaluated(t)
    ensures FormatNode(t).Ok?
  {
    EvaluatedIsFilled(t);
    FilledFormats(t);
  }

  /** `Sin` and `Cos` hand target 0 to their child whatever their own
      target, so the result does not depend on the target, and a trig node
      never denotes a target of 2 or more. */
  lemma TrigIgnoresTarget(t: MathNode, v: int, w: int, rs: Draws)
    requires IsTrig(t.op)
    ensures Evaluate(t, v, rs) == Evaluate(t, w, rs)
    ensures Evaluate(t, v, rs).Ok? && v >= 2 ==> Value(Evaluate(t, v, rs).value.0) != Some(v)
  {
  }

  /** A Sub node right below `Sin` or `Cos` receives target 0 and panics on
      its `% value`. */
  lemma SubUnderTrigPanics(t: MathNode, v: int, rs: Draws)
    requires IsTrig(t.op) && |t.children| >= 1 && t.children[0].op == Sub
    ensures Evaluate(t, v, rs) == Raised(DivisionByZero)
  {
    assert Evaluate(t.children[0], 0, rs) == Raised(DivisionByZero);
  }
}
