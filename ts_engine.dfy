/** The TypeScript engine of `src/unsolver.ts`, used by the first version of
    the web page: the same three phases as the Rust engine, over JavaScript
    objects and numbers.

    Where it differs from the Rust engine:
    - `choose` on an empty list yields `undefined`, which becomes the
      operator of the node, and the evaluation of such a node throws a
      `TypeError` (there is no handler for it);
    - a missing child is `undefined` too, and reaching it throws;
    - there is no stacked-division filter;
    - Mul splits only when there are at least two divisors, the Sub and Div
      formulas work on every number, and Sin and Cos pass on `Math.asin`
      and `Math.acos` of their target;
    - formatting returns `undefined` for a node without operator, and the
      Add case renders its left child twice.

    The two defects (the number of divisors Mul asks for and the child the
    Add case renders on its right) are modelled both as written and as
    evidently intended, selected by a `Revision`. */
module TsEngine {

  import opened Wrappers
  import opened Random
  import opened Numbers
  import opened Outcomes
  import Engine

  /** The `MathOp` enum. */
  datatype MathOp = Const | Add | Sub | Mul | Div | Sin | Cos

  /** A JavaScript number as far as the engine can produce one from an
      integer target: an integer, or NaN. */
  datatype JsNumber = Num(n: int) | NaN

  /** A `MathNode` object. `op` is `None` when it holds `undefined` (the
      result of `choose` on no operators); `value` is `None` while the
      optional field is absent. */
  datatype MathNode = MathNode(op: Option<MathOp>, value: Option<JsNumber>, children: seq<MathNode>, depth: int)

  /** The source as written, or with its two defects corrected. */
  datatype Revision = AsWritten | Intended

  /** The string value of each member of the enum. */
  function OpText(op: MathOp): string {
    match op
    case Const => ""
    case Add => "+"
    case Sub => "-"
    case Mul => "\\times"
    case Div => "frac"
    case Sin => "sin"
    case Cos => "cos"
  }

  predicate IsBinary(op: MathOp) {
    op == Add || op == Sub || op == Mul || op == Div
  }

  predicate IsTrig(op: MathOp) {
    op == Sin || op == Cos
  }

  /** `newNode(depth)`: a constant without value and without children. */
  function NewNode(depth: int): (r: MathNode)
    ensures r.op == Some(Const) && r.value == None && r.children == [] && r.depth == depth
  {
    MathNode(Some(Const), None, [], depth)
  }

  /** `choose`: the element at `random(0, choices.length - 1)`. A draw is
      taken even from an empty list, whose element 0 is `undefined`. */
  function Choose<T(==)>(choices: seq<T>, rs: Draws): (r: (Option<T>, Draws))
    ensures choices == [] ==> r.0 == None
    ensures choices != [] ==> r.0.Some? && r.0.value in choices
    ensures r.1 == Next(rs).1
  {
    var (index, rest) := Uniform(0, |choices| - 1, rs);
    (if 0 <= index < |choices| then Some(choices[index]) else None, rest)
  }

  /** `random(0, 1) == 1`, the coin of the expansion loop. */
  function Flip(rs: Draws): (r: (bool, Draws))
    ensures |r.1| <= |rs|
    ensures r.0 ==> |r.1| < |rs|
  {
    var (x, rest) := Uniform(0, 1, rs);
    (x == 1, rest)
  }

  /** The `child_count` the `switch` of `expandNode` sets. */
  function ChildCount(op: Option<MathOp>): (n: nat)
    ensures n == 2 <==> op.Some? && IsBinary(op.value)
    ensures n == 1 <==> op.Some? && IsTrig(op.value)
    ensures n == 0 <==> op == None || op == Some(Const)
  {
    match op
    case None => 0
    case Some(o) => if IsBinary(o) then 2 else if IsTrig(o) then 1 else 0
  }

  /** `children[i] = x` on an array of length at least `i`: the element is
      replaced, or appended when `i` is the length. */
  function Put(children: seq<MathNode>, i: nat, x: MathNode): (r: seq<MathNode>)
    requires i <= |children|
    ensures |r| == if i < |children| then |children| else i + 1
    ensures r[i] == x
    ensures forall j :: 0 <= j < |children| && j != i ==> r[j] == children[j]
  {
    if i < |children| then children[i := x] else children + [x]
  }

  /** `expandNode`: a node at `maxDepth` is left alone; any other node gets
      an operator chosen from `ops` and, for each child slot, a new child
      one level down, expanded further on a coin flip. */
  function Expand(node: MathNode, maxDepth: int, ops: seq<MathOp>, rs: Draws): (r: (MathNode, Draws))
    ensures |r.1| <= |rs|
    decreases |rs|, 1
  {
    if node.depth == maxDepth then (node, rs)
    else
      var (op, rs1) := Choose(ops, rs);
      var (children, rs2) := Fill(node.children, 0, ChildCount(op), node.depth + 1, maxDepth, ops, rs1);
      (node.(op := op, children := children), rs2)
  }

  /** Slots `i` to `count - 1` of the expansion loop, filled in order. */
  function Fill(children: seq<MathNode>, i: nat, count: nat, depth: int, maxDepth: int, ops: seq<MathOp>, rs: Draws): (r: (seq<MathNode>, Draws))
    requires i <= |children| && i <= count
    ensures |r.1| <= |rs|
    decreases |rs|, 0, count - i
  {
    if i == count then (children, rs)
    else
      var (heads, rs1) := Flip(rs);
      var (child, rs2) := if heads then Expand(NewNode(depth), maxDepth, ops, rs1) else (NewNode(depth), rs1);
      Fill(Put(children, i, child), i + 1, count, depth, maxDepth, ops, rs2)
  }

  /** `expandNode`, with its `for` loop over the child slots. */
  method ExpandNode(node: MathNode, maxDepth: int, ops: seq<MathOp>, rs: Draws) returns (result: MathNode, rest: Draws)
    ensures (result, rest) == Expand(node, maxDepth, ops, rs)
    decreases |rs|, 1
  {
    if node.depth == maxDepth {
      return node, rs;
    }
    var chosen := Choose(ops, rs);
    var op := chosen.0;
    var draws := chosen.1;
    var childCount := ChildCount(op);
    var children := node.children;
    for i := 0 to childCount
      invariant i <= |children| && |draws| <= |rs|
      invariant Fill(children, i, childCount, node.depth + 1, maxDepth, ops, draws)
             == Fill(node.children, 0, childCount, node.depth + 1, maxDepth, ops, chosen.1)
    {
      ghost var before := children;
      children := Put(children, i, NewNode(node.depth + 1));
      var flip := Flip(draws);
      draws := flip.1;
      if flip.0 {
        var grown;
        grown, draws := ExpandNode(children[i], maxDepth, ops, draws);
        children := children[i := grown];
      }
      assert children == Put(before, i, children[i]);
    }
    result := node.(op := op, children := children);
    rest := draws;
  }

  /** The number of divisors Mul needs before it splits:
      `divisors.length > 1` as written, any divisor at all as intended. */
  function MulThreshold(rev: Revision): nat {
    if rev == AsWritten then 1 else 0
  }

  /** The child the Add case formats on its right: `formatChild(0)` as
      written, child 1 as intended. */
  function AddRightChild(rev: Revision): nat {
    if rev == AsWritten then 0 else 1
  }

  /** Add: `left = random(1, value - 1)` and `right = value - left`. */
  function AddSplit(value: int, rs: Draws): (r: (int, int, Draws))
    requires value > 1
    ensures 1 <= r.0 <= value - 1 && 1 <= r.1 <= value - 1
    ensures r.0 + r.1 == value
  {
    var (left, rest) := Uniform(1, value - 1, rs);
    (left, value - left, rest)
  }

  /** Sub: `left = random(value + 1, value * 2)` and `right = left - value`;
      on NaN both are NaN. */
  function SubSplit(value: JsNumber, rs: Draws): (r: (JsNumber, JsNumber, Draws))
    ensures value == NaN ==> r.0 == NaN && r.1 == NaN
    ensures value.Num? ==> r.0.Num? && r.1.Num? && r.0.n - r.1.n == value.n
    ensures value.Num? && value.n >= 1 ==> value.n + 1 <= r.0.n <= 2 * value.n && 1 <= r.1.n <= value.n
    ensures value == Num(0) ==> r.0 == Num(1) && r.1 == Num(1)
  {
    match value
    case NaN => (NaN, NaN, Next(rs).1)
    case Num(v) =>
      var (left, rest) := Uniform(v + 1, v * 2, rs);
      (Num(left), Num(left - v), rest)
  }

  /** Mul: a divisor chosen from `getDivisors(value)` when there are more
      than `MulThreshold(rev)` of them, and the quotient; `None` when the
      node degrades (no draw is made then). `getDivisors(NaN)` is empty. */
  function MulSplit(value: JsNumber, rs: Draws, rev: Revision): (r: (Option<(int, int)>, Draws))
    ensures r.0.Some? <==> value.Num? && |Divisors(value.n)| > MulThreshold(rev)
    ensures r.0.Some? ==> r.0.value.0 in Divisors(value.n)
    ensures r.0.Some? ==> r.0.value.0 * r.0.value.1 == value.n && r.0.value.0 >= 2 && r.0.value.1 >= 2
    ensures r.0.None? ==> r.1 == rs
  {
    if value.NaN? then (None, rs)
    else
      var divisors := Divisors(value.n);
      if |divisors| > MulThreshold(rev) then
        var (chosen, rest) := Choose(divisors, rs);
        var left := chosen.value;
        Engine.QuotientAtLeastTwo(value.n, left);
        (Some((left, value.n / left)), rest)
      else (None, rs)
  }

  /** Div: `bottom = Math.ceil(Math.sqrt(value)) + 1`, `top = value * bottom`;
      the square root of a negative number or of NaN is NaN. */
  function DivSplit(value: JsNumber): (r: (JsNumber, JsNumber))
    ensures value.Num? && value.n >= 0 ==> r.1.Num? && r.1.n >= 1 && r.0 == Num(value.n * r.1.n)
    ensures value.Num? && value.n >= 1 ==> r.1.n >= 2 && r.0.n >= 2
    ensures value == NaN || (value.Num? && value.n < 0) ==> r == (NaN, NaN)
  {
    match value
    case NaN => (NaN, NaN)
    case Num(v) =>
      if v < 0 then (NaN, NaN)
      else
        var bottom := CeilSqrt(v) + 1;
        Engine.ProductAtLeast(v, bottom);
        (Num(v * bottom), Num(bottom))
  }

  /** `Math.asin` on the numbers a target can be: 0 at 0, NaN outside
      `[-1, 1]`; `None` at 1 and -1, whose arcsine is not an integer. */
  function Arcsine(value: JsNumber): (r: Option<JsNumber>)
    ensures r == Some(Num(0)) <==> value == Num(0)
    ensures r == None <==> value == Num(1) || value == Num(-1)
  {
    match value
    case NaN => Some(NaN)
    case Num(v) => if v == 0 then Some(Num(0)) else if v == 1 || v == -1 then None else Some(NaN)
  }

  /** `Math.acos` on the numbers a target can be: 0 at 1, NaN outside
      `[-1, 1]`; `None` at 0 and -1, whose arccosine is not an integer. */
  function Arccosine(value: JsNumber): (r: Option<JsNumber>)
    ensures r == Some(Num(0)) <==> value == Num(1)
    ensures r == None <==> value == Num(0) || value == Num(-1)
  {
    match value
    case NaN => Some(NaN)
    case Num(v) => if v == 1 then Some(Num(0)) else if v == 0 || v == -1 then None else Some(NaN)
  }

  /** `evaluateNode`: the handler `evals` holds for the operator, applied
      to the node; an `undefined` operator has no handler, and calling it
      throws. */
  function Evaluate(node: MathNode, value: JsNumber, rs: Draws, rev: Revision): (r: Outcome<(MathNode, Draws)>)
    ensures node.op == None ==> r == Raised(TypeError)
    ensures r.Ok? ==> r.value.0.depth == node.depth && |r.value.0.children| == |node.children|
    ensures r.Ok? ==> |r.value.1| <= |rs|
    decreases node, 2
  {
    match node.op
    case None => Raised(TypeError)
    case Some(op) =>
      match op
      case Const => Ok((node.(value := Some(value)), rs))
      case Add => EvaluateAdd(node, value, rs, rev)
      case Sub => EvaluateSub(node, value, rs, rev)
      case Mul => EvaluateMul(node, value, rs, rev)
      case Div => EvaluateDiv(node, value, rs, rev)
      case Sin => EvaluateTrig(node, Arcsine(value), rs, rev)
      case Cos => EvaluateTrig(node, Arccosine(value), rs, rev)
  }

  /** The Add handler: split a target above 1, else become the constant 1
      (the children stay, unvisited). */
  function EvaluateAdd(node: MathNode, value: JsNumber, rs: Draws, rev: Revision): (r: Outcome<(MathNode, Draws)>)
    ensures r.Ok? ==> r.value.0.depth == node.depth && |r.value.0.children| == |node.children| && |r.value.1| <= |rs|
    ensures !(value.Num? && value.n > 1) ==> r == Ok((node.(op := Some(Const), value := Some(Num(1))), rs))
    decreases node, 1
  {
    if value.Num? && value.n > 1 then
      var (left, right, rs1) := AddSplit(value.n, rs);
      EvaluatePair(node, Num(left), Num(right), rs1, rev)
    else Ok((node.(op := Some(Const), value := Some(Num(1))), rs))
  }

  /** The Sub handler. */
  function EvaluateSub(node: MathNode, value: JsNumber, rs: Draws, rev: Revision): (r: Outcome<(MathNode, Draws)>)
    ensures r.Ok? ==> r.value.0.depth == node.depth && |r.value.0.children| == |node.children| && |r.value.1| <= |rs|
    ensures r.Ok? ==> r.value.0.op == node.op
    decreases node, 1
  {
    var (left, right, rs1) := SubSplit(value, rs);
    EvaluatePair(node, left, right, rs1, rev)
  }

  /** The Mul handler: split when `MulSplit` finds a divisor, else become
      the constant `value` (the children stay, unvisited). */
  function EvaluateMul(node: MathNode, value: JsNumber, rs: Draws, rev: Revision): (r: Outcome<(MathNode, Draws)>)
    ensures r.Ok? ==> r.value.0.depth == node.depth && |r.value.0.children| == |node.children| && |r.value.1| <= |rs|
    ensures MulSplit(value, rs, rev).0.None? ==> r == Ok((node.(op := Some(Const), value := Some(value)), rs))
    decreases node, 1
  {
    var (split, rs1) := MulSplit(value, rs, rev);
    if split.Some? then EvaluatePair(node, Num(split.value.0), Num(split.value.1), rs1, rev)
    else Ok((node.(op := Some(Const), value := Some(value)), rs1))
  }

  /** The Div handler. */
  function EvaluateDiv(node: MathNode, value: JsNumber, rs: Draws, rev: Revision): (r: Outcome<(MathNode, Draws)>)
    ensures r.Ok? ==> r.value.0.depth == node.depth && |r.value.0.children| == |node.children| && |r.value.1| <= |rs|
    ensures r.Ok? ==> r.value.0.op == node.op
    decreases node, 1
  {
    var (top, bottom) := DivSplit(value);
    EvaluatePair(node, top, bottom, rs, rev)
  }

  /** The Sin and Cos handlers, given `Math.asin` or `Math.acos` of the
      target. `Err` marks a run this model does not follow: an angle that
      is not an integer. */
  function EvaluateTrig(node: MathNode, angle: Option<JsNumber>, rs: Draws, rev: Revision): (r: Outcome<(MathNode, Draws)>)
    ensures r.Ok? ==> r.value.0.depth == node.depth && |r.value.0.children| == |node.children| && |r.value.1| <= |rs|
    ensures r.Ok? ==> r.value.0.op == node.op
    ensures angle == None ==> r.Err?
    decreases node, 1
  {
    if angle.None? then Err("non-integer angle")
    else EvaluateFirst(node, angle.value, rs, rev)
  }

  /** `evaluateNode(node.children[0], left)`, then the same for child 1;
      an absent child is `undefined`, whose `op` throws. */
  function EvaluatePair(node: MathNode, left: JsNumber, right: JsNumber, rs: Draws, rev: Revision): (r: Outcome<(MathNode, Draws)>)
    ensures r.Ok? ==> r.value.0.op == node.op && r.value.0.value == node.value
    ensures r.Ok? ==> r.value.0.depth == node.depth && |r.value.0.children| == |node.children| && |r.value.1| <= |rs|
    decreases node, 0
  {
    if |node.children| < 1 then Raised(TypeError)
    else
      var first :- Evaluate(node.children[0], left, rs, rev);
      if |node.children| < 2 then Raised(TypeError)
      else
        var second :- Evaluate(node.children[1], right, first.1, rev);
        Ok((node.(children := node.children[0 := first.0][1 := second.0]), second.1))
  }

  /** `evaluateNode(node.children[0], inner)`. */
  function EvaluateFirst(node: MathNode, inner: JsNumber, rs: Draws, rev: Revision): (r: Outcome<(MathNode, Draws)>)
    ensures r.Ok? ==> r.value.0.op == node.op && r.value.0.value == node.value
    ensures r.Ok? ==> r.value.0.depth == node.depth && |r.value.0.children| == |node.children| && |r.value.1| <= |rs|
    decreases node, 0
  {
    if |node.children| < 1 then Raised(TypeError)
    else
      var first :- Evaluate(node.children[0], inner, rs, rev);
      Ok((node.(children := node.children[0 := first.0]), first.1))
  }

  /** `precedence`: a higher value binds more loosely; `undefined` takes
      the `default` branch. */
  function Precedence(op: Option<MathOp>): (p: int)
    ensures 0 <= p <= 3
    ensures p == 0 <==> op.Some? && (op.value == Const || op.value == Div || IsTrig(op.value))
    ensures p == 1 <==> op == Some(Mul)
    ensures p == 2 <==> op == Some(Add) || op == Some(Sub)
    ensures p == 3 <==> op == None
  {
    match op
    case None => 3
    case Some(o) =>
      match o
      case Mul => 1
      case Add => 2
      case Sub => 2
      case _ => 0
  }

  /** A template literal's text of an optional number: `undefined` when
      absent. */
  function NumberText(value: Option<JsNumber>): string {
    match value
    case None => "undefined"
    case Some(NaN) => "NaN"
    case Some(Num(n)) => IntToString(n)
  }

  /** A template literal's text of a string that may be `undefined`. */
  function Interpolate(s: Option<string>): string {
    if s.Some? then s.value else "undefined"
  }

  /** `formatNode`: the text of a tree, or `undefined` (`None`) for a node
      without operator, or the `TypeError` thrown on an absent child. */
  function FormatNode(node: MathNode, rev: Revision): Outcome<Option<string>>
    decreases node, 1
  {
    var thisPrec := Precedence(node.op);
    match node.op
    case None => Ok(None)
    case Some(op) =>
      match op
      case Const => Ok(Some(NumberText(node.value)))
      case Add =>
        var left :- FormatChild(node, 0, thisPrec, rev);
        var right :- FormatChild(node, AddRightChild(rev), thisPrec, rev);
        Ok(Some(Interpolate(left) + " " + OpText(op) + " " + Interpolate(right)))
      case Sub =>
        var left :- FormatChild(node, 0, thisPrec, rev);
        var right :- FormatChild(node, 1, 0, rev);
        Ok(Some(Interpolate(left) + " " + OpText(op) + " " + Interpolate(right)))
      case Mul =>
        var left :- FormatChild(node, 0, thisPrec, rev);
        var right :- FormatChild(node, 1, thisPrec, rev);
        Ok(Some(Interpolate(left) + " " + OpText(op) + " " + Interpolate(right)))
      case Sin =>
        var inner :- FormatChild(node, 0, 10000, rev);
        Ok(Some("\\" + OpText(op) + "(" + Interpolate(inner) + ")"))
      case Cos =>
        var inner :- FormatChild(node, 0, 10000, rev);
        Ok(Some("\\" + OpText(op) + "(" + Interpolate(inner) + ")"))
      case Div =>
        var left :- FormatChild(node, 0, 10000, rev);
        var right :- FormatChild(node, 1, 10000, rev);
        Ok(Some("\\frac{" + Interpolate(left) + "}{" + Interpolate(right) + "}"))
  }

  /** The `formatChild` closure: child `index` formatted, in parentheses
      when it binds more loosely than `prec` allows. */
  function FormatChild(node: MathNode, index: nat, prec: int, rev: Revision): Outcome<Option<string>>
    decreases node, 0
  {
    if index < |node.children| then
      var formatted :- FormatNode(node.children[index], rev);
      if Precedence(node.children[index].op) > prec then Ok(Some("(" + Interpolate(formatted) + ")"))
      else Ok(formatted)
    else Raised(TypeError)
  }

  /** `getEquation`: the result of `formatNode` on the tree grown from a
      root at depth 1 and evaluated at the answer, or the exception. */
  function Equation(answer: int, depth: int, ops: seq<MathOp>, rs: Draws, rev: Revision): Outcome<Option<string>> {
    var (root, rs1) := Expand(NewNode(1), depth, ops, rs);
    var evaluated :- Evaluate(root, Num(answer), rs1, rev);
    FormatNode(evaluated.0, rev)
  }

  method GetEquation(answer: int, depth: int, ops: seq<MathOp>, rs: Draws, rev: Revision) returns (r: Outcome<Option<string>>)
    ensures r == Equation(answer, depth, ops, rs, rev)
  {
    var root, rest := ExpandNode(NewNode(1), depth, ops, rs);
    var evaluated :- Evaluate(root, Num(answer), rest, rev);
    r := FormatNode(evaluated.0, rev);
  }
}
