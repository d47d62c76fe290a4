/** The Rust engine of `unsolver-lib/src/lib.rs` (the one the web page calls)
    and of `rust/src/main.rs` (the same engine with the stub operators `Sin`
    and `Cos`). An equation is grown in three phases:

    - expansion grows the shape of a tree, choosing an operator for each
      inner node from the enabled ones, down to a maximum depth;
    - evaluation pushes the target value down the tree, each operator
      choosing values for its children from which it is recomposed, and
      each empty constant receiving the value that reaches it;
    - formatting renders the tree as LaTeX-like text, with parentheses where
      the precedence of a child demands them.

    The source updates one exclusively owned tree in place (`&mut MathNode`);
    here each phase takes the tree and returns the updated tree. The random
    generator is the list of draws of module Random. */
module Engine {

  import opened Wrappers
  import opened Random
  import opened Numbers
  import opened Outcomes
  import opened Arith

  /** An operator; a constant that has not been assigned a value yet holds
      `None`. `Sin` and `Cos` exist in `rust/src/main.rs` only. */
  datatype MathOp = Const(constant: Option<int>) | Add | Sub | Mul | Div | Sin | Cos

  datatype MathNode = MathNode(op: MathOp, children: seq<MathNode>, depth: int)

  datatype EngineFlags = EngineFlags(allowStackedDivision: bool, divisionParent: bool)

  /** `EngineFlags::new()`. */
  function NewFlags(): (f: EngineFlags)
    ensures !f.allowStackedDivision && !f.divisionParent
  {
    EngineFlags(false, false)
  }

  /** An operator that never needs parentheses around it. */
  predicate IsAtom(op: MathOp) {
    op.Const? || op == Div || op == Sin || op == Cos
  }

  predicate IsBinary(op: MathOp) {
    op == Add || op == Sub || op == Mul || op == Div
  }

  predicate IsTrig(op: MathOp) {
    op == Sin || op == Cos
  }

  /** Binding strength: a higher value binds more loosely. */
  function Precedence(op: MathOp): (p: int)
    ensures 0 <= p <= 2
    ensures p == 0 <==> IsAtom(op)
    ensures p == 1 <==> op == Mul
    ensures p == 2 <==> op == Add || op == Sub
  {
    match op
    case Const(_) => 0
    case Sin => 0
    case Cos => 0
    case Div => 0
    case Mul => 1
    case Add => 2
    case Sub => 2
  }

  /** The `Display` text of an operator; `None` stands for `Err(Error)`. */
  function Display(op: MathOp): (r: Option<string>)
    ensures r.None? <==> op == Div || op == Const(None)
    ensures op.Const? && op.constant.Some? ==> r == Some(IntToString(op.constant.value))
  {
    match op
    case Const(c) => if c.Some? then Some(IntToString(c.value)) else None
    case Add => Some("+")
    case Sub => Some("-")
    case Mul => Some("\\times")
    case Sin => Some("sin")
    case Cos => Some("cos")
    case Div => None
  }

  /** `MathNode::new(depth)`: an empty constant without children. */
  function NewNode(depth: int): (r: MathNode)
    ensures r.op == Const(None) && r.children == [] && r.depth == depth
  {
    MathNode(Const(None), [], depth)
  }

  /** The operators that may be chosen under `settings`: every one of `ops`,
      in order, except `Div` right below a `Div` unless stacked division is
      allowed. */
  function FilterOps(ops: seq<MathOp>, settings: EngineFlags): (r: seq<MathOp>)
    ensures forall op :: op in r <==> op in ops && !(op == Div && settings.divisionParent && !settings.allowStackedDivision)
    ensures |r| <= |ops|
  {
    if ops == [] then []
    else
      var keep := !(ops[0] == Div && settings.divisionParent && !settings.allowStackedDivision);
      (if keep then [ops[0]] else []) + FilterOps(ops[1..], settings)
  }

  /** `filtered.choose(rng).unwrap_or(&Const(None))`; `choose` draws only
      from a non-empty slice. */
  function ChooseOp(ops: seq<MathOp>, rs: Draws): (r: (MathOp, Draws))
    ensures ops == [] ==> r == (Const(None), rs)
    ensures ops != [] ==> r.0 in ops
    ensures |r.1| <= |rs|
  {
    if ops == [] then (Const(None), rs)
    else
      var (i, rest) := Index(|ops|, rs);
      (ops[i], rest)
  }

  /** The number of children an operator gets on expansion. */
  function ChildCount(op: MathOp): (n: nat)
    ensures n == 2 <==> IsBinary(op)
    ensures n == 1 <==> IsTrig(op)
    ensures n == 0 <==> op.Const?
  {
    if IsBinary(op) then 2 else if IsTrig(op) then 1 else 0
  }

  /** Expansion of `node` towards `maxDepth` (`expand_node`): the result
      and the draws left. A node at `maxDepth` is left alone; any other
      node gets an operator and one new child per slot, each expanded
      further on a coin flip. */
  function Expand(node: MathNode, maxDepth: int, ops: seq<MathOp>, settings: EngineFlags, rs: Draws): (r: (MathNode, Draws))
    ensures |r.1| <= |rs|
    decreases |rs|, 1
  {
    if node.depth == maxDepth then (node, rs)
    else
      var (op, rs1) := ChooseOp(FilterOps(ops, settings), rs);
      var flags := settings.(divisionParent := op == Div);
      var (kids, rs2) := ExpandChildren(ChildCount(op), node.depth + 1, maxDepth, ops, flags, rs1);
      (node.(op := op, children := node.children + kids), rs2)
  }

  /** The first `count` children of one expansion, at `depth`. */
  function ExpandChildren(count: nat, depth: int, maxDepth: int, ops: seq<MathOp>, settings: EngineFlags, rs: Draws): (r: (seq<MathNode>, Draws))
    ensures |r.0| == count
    ensures |r.1| <= |rs|
    decreases |rs|, 0, count
  {
    if count == 0 then ([], rs)
    else
      var (kids, rs1) := ExpandChildren(count - 1, depth, maxDepth, ops, settings, rs);
      var (heads, rs2) := Coin(rs1);
      if heads then
        var (child, rs3) := Expand(NewNode(depth), maxDepth, ops, settings, rs2);
        (kids + [child], rs3)
      else (kids + [NewNode(depth)], rs2)
  }

  /** `expand_node`, with its loop that pushes the new children. */
  method ExpandNode(node: MathNode, maxDepth: int, ops: seq<MathOp>, settings: EngineFlags, rs: Draws)
    returns (result: MathNode, rest: Draws)
    ensures (result, rest) == Expand(node, maxDepth, ops, settings, rs)
    decreases |rs|, 1
  {
    if node.depth == maxDepth {
      return node, rs;
    }
    var filtered := FilterOps(ops, settings);
    var (op, rs1) := ChooseOp(filtered, rs);
    var draws := rs1;
    var flags := settings.(divisionParent := op == Div);
    var childCount := ChildCount(op);
    var children := node.children;
    var i := 0;
    assert children[|node.children|..] == [];
    while i < childCount
      invariant i <= childCount
      invariant |children| == |node.children| + i && children[..|node.children|] == node.children
      invariant (children[|node.children|..], draws) == ExpandChildren(i, node.depth + 1, maxDepth, ops, flags, rs1)
      invariant |draws| <= |rs|
    {
      var child := NewNode(node.depth + 1);
      var flip := Coin(draws);
      var heads := flip.0;
      draws := flip.1;
      if heads {
        child, draws := ExpandNode(child, maxDepth, ops, flags, draws);
      }
      children := children + [child];
      i := i + 1;
      assert children[|node.children|..] == children[|node.children|..|children| - 1] + [child];
    }
    assert children == node.children + children[|node.children|..];
    result := node.(op := op, children := children);
    rest := draws;
  }

  /** Where Add puts its left part: `1 + draw % (value - 1)`. */
  function AddSplit(value: int, rs: Draws): (r: (int, int, Draws))
    requires value > 1
    ensures 1 <= r.0 <= value - 1 && 1 <= r.1 <= value - 1
    ensures r.0 + r.1 == value
  {
    var (d, rest) := Next(rs);
    var left := 1 + d % (value - 1);
    (left, value - left, rest)
  }

  /** Sub: `left = value + 1 + draw % value` (Rust's `%` on a non-negative
      dividend keeps it in `[0, |value|)`), `right = left - value`. */
  function SubSplit(value: int, rs: Draws): (r: (int, int, Draws))
    requires value != 0
    ensures r.0 - r.1 == value
    ensures value >= 1 ==> value + 1 <= r.0 <= 2 * value && 1 <= r.1 <= value
  {
    var (d, rest) := Next(rs);
    var left := value + 1 + d % (if value < 0 then -value else value);
    (left, left - value, rest)
  }

  /** Mul: a divisor of `value` in `[2, value)` chosen at random, and the
      quotient; `None` when there is no such divisor (no draw is made). */
  function MulSplit(value: int, rs: Draws): (r: (Option<(int, int)>, Draws))
    ensures r.0.Some? <==> Divisors(value) != []
    ensures r.0.Some? ==> r.0.value.0 in Divisors(value)
    ensures r.0.Some? ==> r.0.value.0 * r.0.value.1 == value && r.0.value.0 >= 2 && r.0.value.1 >= 2
    ensures r.0.None? ==> r.1 == rs
  {
    var divisors := Divisors(value);
    if divisors == [] then (None, rs)
    else
      var (i, rest) := Index(|divisors|, rs);
      var left := divisors[i];
      assert left in divisors;
      QuotientAtLeastTwo(value, left);
      (Some((left, value / left)), rest)
  }

  lemma QuotientAtLeastTwo(value: int, left: int)
    requires 2 <= left < value && value % left == 0
    ensures left * (value / left) == value && value / left >= 2
  {
    var q := value / left;
    assert value == left * q;
    ProductAtMost(left, q);
  }

  /** `(value as f64).sqrt().ceil() as i32`: the square root of a negative
      number is NaN, and the cast turns NaN into 0. */
  function SqrtCast(value: int): (r: nat)
    ensures value >= 1 ==> r >= 1 && r * r >= value
    ensures value <= 0 ==> r == 0
  {
    if value < 0 then 0 else CeilSqrt(value)
  }

  /** Local arithmetic helper of QuotientAtLeastTwo. */
  lemma ProductAtMost(a: nat, b: int)
    ensures b <= 1 ==> a * b <= a
  {
    if b <= 1 { assert a * b == a * (b - 1) + a; }
  }

  /** Local arithmetic helper of DivSplit. */
  lemma ProductAtLeast(a: int, b: nat)
    ensures a >= 1 ==> a * b >= b
  {
    if a >= 1 { assert a * b == (a - 1) * b + b; }
  }

  /** Div: `bottom = ceil(sqrt(value)) + 1` and `top = value * bottom`. */
  function DivSplit(value: int): (r: (int, int))
    ensures r.0 == value * r.1
    ensures r.1 >= 1
    ensures value >= 1 ==> r.1 >= 2 && r.0 >= 2
  {
    var bottom := SqrtCast(value) + 1;
    ProductAtLeast(value, bottom);
    (value * bottom, bottom)
  }

  /** `after` is `before` with some operators turned into constants: each
      node keeps its depth and its number of children, and an operator only
      ever changes into a constant. */
  predicate Reshaped(before: MathNode, after: MathNode) {
    after.depth == before.depth && |after.children| == |before.children|
    && (after.op == before.op || after.op.Const?)
  }

  /** `evaluate_node`: the tree with `value` pushed down, or the error or
      panic the source ends with. */
  function Evaluate(node: MathNode, value: int, rs: Draws): (r: Outcome<(MathNode, Draws)>)
    ensures node.op.Const? && node.op.constant.Some? ==> r.Err?
    ensures r.Ok? ==> Reshaped(node, r.value.0) && |r.value.1| <= |rs|
    decreases node, 1
  {
    match node.op
    case Add =>
      if value > 1 then
        var (left, right, rs1) := AddSplit(value, rs);
        EvaluatePair(node, left, right, rs1)
      else Ok((node.(op := Const(Some(1))), rs))
    case Sub =>
      if value == 0 then Raised(DivisionByZero)
      else
        var (left, right, rs1) := SubSplit(value, rs);
        EvaluatePair(node, left, right, rs1)
    case Mul =>
      var (split, rs1) := MulSplit(value, rs);
      if split.Some? then EvaluatePair(node, split.value.0, split.value.1, rs1)
      else Ok((node.(op := Const(Some(value))), rs1))
    case Div =>
      var (top, bottom) := DivSplit(value);
      EvaluatePair(node, top, bottom, rs)
    case Sin => EvaluateFirst(node, 0, rs)
    case Cos => EvaluateFirst(node, 0, rs)
    case Const(c) =>
      if c.None? then Ok((node.(op := Const(Some(value))), rs))
      else Err("Constant nodes with vaules should not be evaluated")
  }

  /** Evaluating `children[0]` at `left`, then `children[1]` at `right`. */
  function EvaluatePair(node: MathNode, left: int, right: int, rs: Draws): (r: Outcome<(MathNode, Draws)>)
    ensures r.Ok? ==> r.value.0.op == node.op && Reshaped(node, r.value.0) && |r.value.1| <= |rs|
    decreases node, 0
  {
    if |node.children| < 1 then Raised(IndexOutOfBounds)
    else
      var first :- Evaluate(node.children[0], left, rs);
      if |node.children| < 2 then Raised(IndexOutOfBounds)
      else
        var second :- Evaluate(node.children[1], right, first.1);
        Ok((node.(children := node.children[0 := first.0][1 := second.0]), second.1))
  }

  /** Evaluating `children[0]` at `inner`. */
  function EvaluateFirst(node: MathNode, inner: int, rs: Draws): (r: Outcome<(MathNode, Draws)>)
    ensures r.Ok? ==> r.value.0.op == node.op && Reshaped(node, r.value.0) && |r.value.1| <= |rs|
    decreases node, 0
  {
    if |node.children| < 1 then Raised(IndexOutOfBounds)
    else
      var first :- Evaluate(node.children[0], inner, rs);
      Ok((node.(children := node.children[0 := first.0]), first.1))
  }

  /** `format_node`: the LaTeX-like text of a tree. */
  function FormatNode(node: MathNode): Outcome<string>
    decreases node, 1
  {
    var thisPrec := Precedence(node.op);
    match node.op
    case Const(c) =>
      if c.Some? then Ok(IntToString(c.value)) else Err("Cannot format empy constant")
    case Add =>
      var left :- FormatChild(node, 0, thisPrec);
      var right :- FormatChild(node, 1, thisPrec);
      Ok(left + " " + Display(node.op).value + " " + right)
    case Mul =>
      var left :- FormatChild(node, 0, thisPrec);
      var right :- FormatChild(node, 1, thisPrec);
      Ok(left + " " + Display(node.op).value + " " + right)
    case Sub =>
      var left :- FormatChild(node, 0, thisPrec);
      var right :- FormatChild(node, 1, 0);
      Ok(left + " " + Display(node.op).value + " " + right)
    case Sin =>
      var inner :- FormatChild(node, 0, 10000);
      Ok("\\" + Display(node.op).value + "(" + inner + ")")
    case Cos =>
      var inner :- FormatChild(node, 0, 10000);
      Ok("\\" + Display(node.op).value + "(" + inner + ")")
    case Div =>
      var left :- FormatChild(node, 0, 10000);
      var right :- FormatChild(node, 1, 10000);
      Ok("\\frac{" + left + "}{" + right + "}")
  }

  /** The `format_child` closure: child `index` formatted, in parentheses
      exactly when it binds more loosely than `prec` allows. */
  function FormatChild(node: MathNode, index: nat, prec: int): Outcome<string>
    decreases node, 0
  {
    if index < |node.children| then
      var formatted :- FormatNode(node.children[index]);
      if Precedence(node.children[index].op) > prec then Ok("(" + formatted + ")") else Ok(formatted)
    else Raised(IndexOutOfBounds)
  }

  /** The integer a tree denotes, read as arithmetic (`None` when it denotes
      no integer). A constant stands for its value; a node without enough
      children denotes nothing. */
  function Value(t: MathNode): Option<int>
    decreases t
  {
    match t.op
    case Const(c) => c
    case Add => if |t.children| < 2 then None else AddV(Value(t.children[0]), Value(t.children[1]))
    case Sub => if |t.children| < 2 then None else SubV(Value(t.children[0]), Value(t.children[1]))
    case Mul => if |t.children| < 2 then None else MulV(Value(t.children[0]), Value(t.children[1]))
    case Div => if |t.children| < 2 then None else FracV(Value(t.children[0]), Value(t.children[1]))
    case Sin => if |t.children| < 1 then None else SinV(Value(t.children[0]))
    case Cos => if |t.children| < 1 then None else CosV(Value(t.children[0]))
  }
}
