/** `get_equation` of `unsolver-lib/src/lib.rs`, the function the web page
    calls: configure from the toggles, grow a tree from a root at depth 1,
    evaluate it at the answer and format it. The function returns a string
    in every case: the equation, or the message of the error that stopped
    it. */
module Lib {

  import opened Wrappers
  import opened Random
  import opened Numbers
  import opened Reading
  import opened Outcomes
  import opened Engine
  import opened EngineFacts
  import opened EngineText
  import opened Toggles

  /** The string `get_equation` returns (`Ok`), or the panic that ends it
      (`Raised`); it never ends with `Err`. */
  function Equation(answer: int, depth: int, names: seq<string>, rs: Draws): (r: Outcome<string>)
    ensures !r.Err?
  {
    var (ops, flags) := Configure(names, false);
    var (root, rs1) := Expand(NewNode(1), depth, ops, flags, rs);
    match Evaluate(root, answer, rs1)
    case Err(message) => Ok(message)
    case Raised(fault) => Raised(fault)
    case Ok(evaluated) =>
      match FormatNode(evaluated.0)
      case Ok(tex) => Ok(tex)
      case Err(message) => Ok(message)
      case Raised(fault) => Raised(fault)
  }

  method GetEquation(answer: int, depth: int, names: seq<string>, rs: Draws) returns (r: Outcome<string>)
    ensures r == Equation(answer, depth, names, rs)
  {
    var ops, flags := ReadToggles(names, false);
    var root, rest := ExpandNode(NewNode(1), depth, ops, flags, rs);
    var evaluated := Evaluate(root, answer, rest);
    if evaluated.Err? {
      return Ok(evaluated.message);
    } else if evaluated.Raised? {
      return Raised(evaluated.fault);
    }
    var tex := FormatNode(evaluated.value.0);
    if tex.Err? {
      return Ok(tex.message);
    }
    return tex;
  }

  /** For every answer of at least 1, every depth, every list of toggles and
      every draw, the equation is produced and its text reads as the
      answer. */
  lemma EquationReadsAnswer(answer: int, depth: int, names: seq<string>, rs: Draws)
    requires answer >= 1
    ensures Equation(answer, depth, names, rs).Ok?
    ensures Read(Equation(answer, depth, names, rs).value) == Reads(Some(answer))
  {
    var (ops, flags) := Configure(names, false);
    var (root, rs1) := Expand(NewNode(1), depth, ops, flags, rs);
    ExpandFresh(NewNode(1), depth, ops, flags, rs);
    EvaluateFresh(root, answer, rs1);
    var evaluated := Evaluate(root, answer, rs1).value.0;
    EvaluatedFormats(evaluated);
    FormatReads(evaluated);
  }

  /** `get_equation` never returns an error message: whatever the answer
      (zero and negative ones included), the depth, the toggles and the
      draws, evaluating the grown tree never ends in `Err`, and formatting
      an evaluated tree never does either. The string returned is the
      formatted equation, unless evaluation panics dividing by zero. */
  lemma NoErrorMessage(answer: int, depth: int, names: seq<string>, rs: Draws)
    ensures
      var config := Configure(names, false);
      var grown := Expand(NewNode(1), depth, config.0, config.1, rs);
      var e := Evaluate(grown.0, answer, grown.1);
      || (e == Raised(DivisionByZero) && Equation(answer, depth, names, rs) == Raised(DivisionByZero))
      || (e.Ok? && FormatNode(e.value.0).Ok? && Equation(answer, depth, names, rs) == Ok(FormatNode(e.value.0).value))
  {
    var config := Configure(names, false);
    var grown := Expand(NewNode(1), depth, config.0, config.1, rs);
    ExpandFresh(NewNode(1), depth, config.0, config.1, rs);
    EvaluateFills(grown.0, answer, grown.1);
    var e := Evaluate(grown.0, answer, grown.1);
    if e.Ok? {
      FilledFormats(e.value.0);
    }
  }

  /** The root is never parenthesised: with only multiplication enabled,
      depth 2 and the draws that pick the divisor 2, answer 6 gives
      `2 \times 3`. */
  lemma ProductOfSix()
    ensures Equation(6, 2, ["allowMul"], [0, 0, 0, 0]) == Ok("2 \\times 3")
  {
    MulToggle();
    SixGrows();
    SixSplits();
    SixText();
  }

  lemma MulToggle()
    ensures Configure(["allowMul"], false) == ([Mul], EngineFlags(false, false))
  {
    assert ["allowMul"][..0] == [];
    assert Configure([], false) == ([], EngineFlags(false, false));
    assert SettingOf("allowMul", false) == Enable(Mul);
    var names := ["allowMul"];
    assert names[|names| - 1] == "allowMul" && names[..|names| - 1] == [];
    var none: seq<MathOp> := [];
    assert none + [Mul] == [Mul];
  }

  lemma SixGrows()
    ensures Expand(NewNode(1), 2, [Mul], EngineFlags(false, false), [0, 0, 0, 0]) == (MathNode(Mul, [NewNode(2), NewNode(2)], 1), [0])
  {
    var flags := EngineFlags(false, false);
    assert FilterOps([Mul], flags) == [Mul];
    assert ChooseOp([Mul], [0, 0, 0, 0]) == (Mul, [0, 0, 0]);
    assert Coin([0, 0, 0]) == (false, [0, 0]);
    assert Coin([0, 0]) == (false, [0]);
    var none := ExpandChildren(0, 2, 2, [Mul], flags, [0, 0, 0]);
    assert none == ([], [0, 0, 0]);
    var one := ExpandChildren(1, 2, 2, [Mul], flags, [0, 0, 0]);
    assert one == (none.0 + [NewNode(2)], [0, 0]);
    var two := ExpandChildren(2, 2, 2, [Mul], flags, [0, 0, 0]);
    assert two == (one.0 + [NewNode(2)], [0]);
    assert NewNode(1).children + two.0 == [NewNode(2), NewNode(2)];
  }

  lemma SixSplits()
    ensures Evaluate(MathNode(Mul, [NewNode(2), NewNode(2)], 1), 6, [0])
      == Ok((MathNode(Mul, [MathNode(Const(Some(2)), [], 2), MathNode(Const(Some(3)), [], 2)], 1), []))
  {
    assert DivisorsBelow(6, 3) == [2];
    assert DivisorsBelow(6, 6) == [2, 3];
    assert Index(2, [0]) == (0, []);
    assert MulSplit(6, [0]) == (Some((2, 3)), []);
    var node := MathNode(Mul, [NewNode(2), NewNode(2)], 1);
    assert Evaluate(NewNode(2), 2, []) == Ok((MathNode(Const(Some(2)), [], 2), []));
    assert Evaluate(NewNode(2), 3, []) == Ok((MathNode(Const(Some(3)), [], 2), []));
    assert node.children[0 := MathNode(Const(Some(2)), [], 2)][1 := MathNode(Const(Some(3)), [], 2)]
      == [MathNode(Const(Some(2)), [], 2), MathNode(Const(Some(3)), [], 2)];
  }

  lemma SixText()
    ensures FormatNode(MathNode(Mul, [MathNode(Const(Some(2)), [], 2), MathNode(Const(Some(3)), [], 2)], 1)) == Ok("2 \\times 3")
  {
    var t := MathNode(Mul, [MathNode(Const(Some(2)), [], 2), MathNode(Const(Some(3)), [], 2)], 1);
    assert IntToString(2) == "2" && IntToString(3) == "3";
    assert FormatChild(t, 0, 1) == Ok("2");
    assert FormatChild(t, 1, 1) == Ok("3");
    assert "2" + " " + "\\times" + " " + "3" == "2 \\times 3";
  }

  /** With depth 1 the root is never expanded, and without any operator it
      stays an empty constant: either way the equation is the answer
      itself. */
  lemma EquationOfLeaf(answer: int, depth: int, names: seq<string>, rs: Draws)
    requires depth == 1 || Configure(names, false).0 == []
    ensures Equation(answer, depth, names, rs) == Ok(IntToString(answer))
  {
    var (ops, flags) := Configure(names, false);
    var (root, rs1) := Expand(NewNode(1), depth, ops, flags, rs);
    assert root == NewNode(1) by {
      if depth != 1 {
        assert FilterOps(ops, flags) == [];
      }
    }
  }

  /** A Sub node at target 0 divides by zero: with only subtraction enabled
      and depth 2 the root is Sub, and answer 0 panics. */
  lemma SubtractionAtZeroPanics(rs: Draws)
    ensures Equation(0, 2, ["allowSub"], rs) == Raised(DivisionByZero)
  {
    var (ops, flags) := Configure(["allowSub"], false);
    assert ["allowSub"][..0] == [];
    assert ops == [Sub];
    var (root, rs1) := Expand(NewNode(1), 2, ops, flags, rs);
    assert root.op == Sub;
  }
}
