/** The two prototypes at the root of the repository, `unsolver.ts` and its
    JavaScript copy `unsolver.js`: a script with three operators and nodes
    with a left and a right child, which grows a tree towards depth 3,
    evaluates it at the answer 42 and prints it fully parenthesised.

    The two files differ in one place that matters: `newNode` of
    `unsolver.ts` gives its depth parameter the default 1, while that of
    `unsolver.js` has no default, so there the root created by `newNode()`
    has depth `undefined`. Both are modelled, selected by a `Variant`. */
module Script {

  import opened Wrappers
  import opened Random
  import opened Numbers
  import opened Arith
  import opened Outcomes
  import TsEngine

  datatype Op = Plus | Minus | Times

  /** The global `ops`. */
  const OPS: seq<Op> := [Plus, Minus, Times]

  /** The globals `answer` and `depth` the script runs with. */
  const ANSWER := 42
  const DEPTH := 3

  /** A `depth` field: a number, or a value that is none (`undefined`, or
      the NaN that `undefined + 1` gives), which equals no number and stays
      NaN when 1 is added. */
  datatype Level = At(n: int) | NotANumber

  /** `depth + 1`. */
  function Below(d: Level): Level {
    match d
    case At(n) => At(n + 1)
    case NotANumber => NotANumber
  }

  /** Which of the two files. */
  datatype Variant = TypeScript | JavaScript

  /** The depth of the root `newNode()` creates. */
  function RootLevel(variant: Variant): Level {
    match variant
    case TypeScript => At(1)
    case JavaScript => NotANumber
  }

  /** A `MathNode` object: `None` stands for an absent optional field. */
  datatype Node = Node(op: Option<Op>, value: Option<int>, left: Option<Node>, right: Option<Node>, depth: Level)

  /** `newNode(depth)`: the object `{ depth }`. */
  function NewNode(depth: Level): Node {
    Node(None, None, None, None, depth)
  }

  /** `expandNode`: a node at `maxDepth` is left alone; any other gets an
      operator chosen from `ops` and a new left and then a new right child
      one level down, each expanded further when `random(0, 1)` is 1. */
  function Expand(node: Node, maxDepth: int, rs: Draws): (r: (Node, Draws))
    ensures |r.1| <= |rs|
    decreases |rs|, 1
  {
    if node.depth == At(maxDepth) then (node, rs)
    else
      var (op, rs1) := TsEngine.Choose(OPS, rs);
      var (left, rs2) := Grow(NewNode(Below(node.depth)), maxDepth, rs1);
      var (right, rs3) := Grow(NewNode(Below(node.depth)), maxDepth, rs2);
      (node.(op := op, left := Some(left), right := Some(right)), rs3)
  }

  /** A new child, expanded on a coin flip. */
  function Grow(child: Node, maxDepth: int, rs: Draws): (r: (Node, Draws))
    ensures |r.1| <= |rs|
    decreases |rs|, 0
  {
    var (heads, rs1) := TsEngine.Flip(rs);
    if heads then Expand(child, maxDepth, rs1) else (child, rs1)
  }

  /** `evaluateNode(node, value)`: `+` splits a target above 1 at
      `random(1, value - 1)` and turns any other target into the constant
      1; `-` takes its left value from `random(value + 1, value * 2)`; `*`
      gives its children the target and 1; a node without operator takes
      the target as its value. Evaluating a missing child reads a property
      of `undefined` and throws. */
  function Evaluate(node: Node, v: int, rs: Draws): (r: Outcome<(Node, Draws)>)
    decreases node, 1
  {
    match node.op
    case None => Ok((node.(value := Some(v)), rs))
    case Some(Plus) =>
      if v > 1 then
        var (left, rs1) := Uniform(1, v - 1, rs);
        EvaluatePair(node, left, v - left, rs1)
      else Ok((node.(op := None, value := Some(1)), rs))
    case Some(Minus) =>
      var (left, rs1) := Uniform(v + 1, v * 2, rs);
      EvaluatePair(node, left, left - v, rs1)
    case Some(Times) => EvaluatePair(node, v, 1, rs)
  }

  /** The left child evaluated at `a`, then the right child at `b`. */
  function EvaluatePair(node: Node, a: int, b: int, rs: Draws): (r: Outcome<(Node, Draws)>)
    decreases node, 0
  {
    if node.left.None? then Raised(TypeError)
    else
      var first :- Evaluate(node.left.value, a, rs);
      if node.right.None? then Raised(TypeError)
      else
        var second :- Evaluate(node.right.value, b, first.1);
        Ok((node.(left := Some(first.0), right := Some(second.0)), second.1))
  }

  /** `renderOp`. */
  function OpText(op: Op): string {
    match op
    case Plus => "+"
    case Minus => "-"
    case Times => "\\times"
  }

  /** How a number field prints: its digits, or `undefined` when absent. */
  function ValueText(value: Option<int>): string {
    match value
    case Some(n) => IntToString(n)
    case None => "undefined"
  }

  /** `formatNode`: a node without operator shows its value, any other
      `(left op right)`; formatting a missing child throws. The second
      parameter of `formatNode` is passed on but never used. */
  function Format(node: Node): (r: Outcome<string>)
    decreases node
  {
    match node.op
    case None => Ok(ValueText(node.value))
    case Some(op) =>
      if node.left.None? then Raised(TypeError)
      else
        var l :- Format(node.left.value);
        if node.right.None? then Raised(TypeError)
        else
          var r :- Format(node.right.value);
          Ok("(" + l + " " + OpText(op) + " " + r + ")")
  }

  /** The number a tree denotes: a node without operator its value, any
      other the operation on its two children. */
  function Value(t: Node): Option<int>
    decreases t
  {
    match t.op
    case None => t.value
    case Some(op) =>
      if t.left.None? || t.right.None? then None
      else
        var a, b := Value(t.left.value), Value(t.right.value);
        match op
        case Plus => AddV(a, b)
        case Minus => SubV(a, b)
        case Times => MulV(a, b)
  }

  /** The three statements that end the script, for an answer and a depth:
      expand the root, evaluate it at the answer and format it; the text
      `console.log` prints, or the exception that stops the script. */
  function Equation(answer: int, maxDepth: int, variant: Variant, rs: Draws): Outcome<string> {
    var (root, rs1) := Expand(NewNode(RootLevel(variant)), maxDepth, rs);
    var evaluated :- Evaluate(root, answer, rs1);
    Format(evaluated.0)
  }

  /** The script as it stands, with `answer` 42 and `depth` 3. */
  function Run(variant: Variant, rs: Draws): Outcome<string> {
    Equation(ANSWER, DEPTH, variant, rs)
  }
}
