/** The Python prototype `init.py`: two operators, nodes with a left and a
    right child, an expansion that also stops on a ten-sided die, and a
    printer that prints the whole tree at depth 1 and hands the text of a
    subtree back to its parent. The answer and the maximum depth the two
    `input()` loops read are parameters. */
module Py {

  import opened Wrappers
  import opened Random
  import opened Numbers
  import opened Arith
  import opened Outcomes

  datatype Op = Plus | Minus

  /** The global `ops`. */
  const OPS: seq<Op> := [Plus, Minus]

  /** An instance of class `Node`: `None` stands for an attribute that
      holds `None`. */
  datatype Node = Node(op: Option<Op>, value: Option<int>, left: Option<Node>, right: Option<Node>, depth: int)

  /** `Node(depth)`. */
  function NewNode(depth: int): Node {
    Node(None, None, None, None, depth)
  }

  /** The depth below which a die of `randint(1, 10)` can still reach: the
      measure of the expansion. */
  function Room(depth: int): nat {
    if depth <= 11 then 11 - depth else 0
  }

  /** `expand_node`: a node at `DEPTH` is left alone; any other gets an
      operator from `random.choice(ops)` and a new left and then a new
      right child one level down, each expanded further when
      `random.randint(1, 10)` reaches the depth of the parent. */
  function Expand(node: Node, maxDepth: int, rs: Draws): (r: (Node, Draws))
    decreases Room(node.depth), 1
  {
    if node.depth == maxDepth then (node, rs)
    else
      var (index, rs1) := Index(|OPS|, rs);
      var (left, rs2) := Grow(node.depth, maxDepth, rs1);
      var (right, rs3) := Grow(node.depth, maxDepth, rs2);
      (node.(op := Some(OPS[index]), left := Some(left), right := Some(right)), rs3)
  }

  /** A new child of a node at `depth`, expanded when the die reaches
      `depth`. */
  function Grow(depth: int, maxDepth: int, rs: Draws): (r: (Node, Draws))
    decreases Room(depth), 0
  {
    var (roll, rs1) := RandInt(1, 10, rs);
    if roll.value >= depth then Expand(NewNode(depth + 1), maxDepth, rs1)
    else (NewNode(depth + 1), rs1)
  }

  /** `evaluate_node(node, value)`: `+` splits a target above 1 at
      `randint(1, value - 1)` and turns any other target into the constant
      1; `-` takes its left value from `randint(value + 1, value * 2)`,
      which raises `ValueError` when that range is empty; a node without
      operator takes the target as its value. A missing child is `None`,
      and evaluating it reads an attribute of `None`. */
  function Evaluate(node: Node, v: int, rs: Draws): (r: Outcome<(Node, Draws)>)
    decreases node, 1
  {
    match node.op
    case None => Ok((node.(value := Some(v)), rs))
    case Some(Plus) =>
      if v > 1 then
        var (left, rs1) := RandInt(1, v - 1, rs);
        EvaluatePair(node, left.value, v - left.value, rs1)
      else Ok((node.(op := None, value := Some(1)), rs))
    case Some(Minus) =>
      var (left, rs1) := RandInt(v + 1, v * 2, rs);
      if left.None? then Raised(ValueError)
      else EvaluatePair(node, left.value, left.value - v, rs1)
  }

  /** The left child evaluated at `a`, then the right child at `b`. */
  function EvaluatePair(node: Node, a: int, b: int, rs: Draws): (r: Outcome<(Node, Draws)>)
    decreases node, 0
  {
    if node.left.None? then Raised(AttributeError)
    else
      var first :- Evaluate(node.left.value, a, rs);
      if node.right.None? then Raised(AttributeError)
      else
        var second :- Evaluate(node.right.value, b, first.1);
        Ok((node.(left := Some(first.0), right := Some(second.0)), second.1))
  }

  function OpText(op: Op): string {
    match op
    case Plus => "+"
    case Minus => "-"
  }

  /** `str` of an attribute that holds a number or `None`. */
  function ValueText(value: Option<int>): string {
    match value
    case Some(n) => IntToString(n)
    case None => "None"
  }

  /** What a call of `print_node` did: the lines it printed, in order, and
      the text it returned (`None` for a call that returned `None`). */
  datatype Shown = Shown(printed: seq<string>, returned: Option<string>)

  /** `str` of what `print_node` returned. */
  function ShownText(returned: Option<string>): string {
    match returned
    case Some(s) => s
    case None => "None"
  }

  /** `print_node(node, depth)`: the text of a node without operator is
      its value, that of any other `(left op right)` from its children at
      `depth + 1`; at depth 1 the text is printed and `None` returned, at
      any other depth the text is returned. A missing child is `None`. */
  function PrintNode(node: Node, depth: int): (r: Outcome<Shown>)
    decreases node
  {
    var s :- (match node.op
      case None => Ok(Shown([], Some(ValueText(node.value))))
      case Some(op) =>
        if node.left.None? then Raised(AttributeError)
        else
          var l :- PrintNode(node.left.value, depth + 1);
          if node.right.None? then Raised(AttributeError)
          else
            var r :- PrintNode(node.right.value, depth + 1);
            Ok(Shown(l.printed + r.printed,
              Some("(" + ShownText(l.returned) + " " + OpText(op) + " " + ShownText(r.returned) + ")"))));
    if depth == 1 then Ok(Shown(s.printed + [ShownText(s.returned)], None)) else Ok(s)
  }

  /** The number a tree denotes: a node without operator its value, any
      other the operation on its two children. */
  function Value(t: Node): Option<int>
    decreases t
  {
    match t.op
    case None => t.value
    case Some(op) =>
      if t.left.None? || t.right.None? then None
      else
        var a, b := Value(t.left.value), Value(t.right.value);
        match op
        case Plus => AddV(a, b)
        case Minus => SubV(a, b)
  }

  /** The last three statements of the script, once `ANSWER` and `DEPTH`
      are read: expand `Node()`, evaluate it at the answer and print it;
      the lines printed, or the exception that stops the script. */
  function Program(answer: int, maxDepth: int, rs: Draws): Outcome<seq<string>> {
    var (root, rs1) := Expand(NewNode(1), maxDepth, rs);
    var evaluated :- Evaluate(root, answer, rs1);
    var shown :- PrintNode(evaluated.0, 1);
    Ok(shown.printed)
  }
}
