/** `get_equation` of `rust/src/main.rs`: the library's pipeline with the
    `Sin` and `Cos` toggles, returning `Err` with the message instead of the
    message itself. */
module Cli {

  import opened Wrappers
  import opened Random
  import opened Numbers
  import opened Reading
  import opened Outcomes
  import opened Engine
  import opened EngineFacts
  import opened EngineText
  import opened Toggles

  /** The `Result` `get_equation` returns, or the panic that ends it. */
  function Equation(answer: int, depth: int, names: seq<string>, rs: Draws): Outcome<string> {
    var (ops, flags) := Configure(names, true);
    var (root, rs1) := Expand(NewNode(1), depth, ops, flags, rs);
    var evaluated :- Evaluate(root, answer, rs1);
    FormatNode(evaluated.0)
  }

  method GetEquation(answer: int, depth: int, names: seq<string>, rs: Draws) returns (r: Outcome<string>)
    ensures r == Equation(answer, depth, names, rs)
  {
    var ops, flags := ReadToggles(names, true);
    var root, rest := ExpandNode(NewNode(1), depth, ops, flags, rs);
    var evaluated :- Evaluate(root, answer, rest);
    r := FormatNode(evaluated.0);
  }

  /** Without the trig toggles the equation reads as the answer, for every
      answer of at least 1, every depth and every draw. */
  lemma EquationReadsAnswer(answer: int, depth: int, names: seq<string>, rs: Draws)
    requires answer >= 1 && "allowSin" !in names && "allowCos" !in names
    ensures Equation(answer, depth, names, rs).Ok?
    ensures Read(Equation(answer, depth, names, rs).value) == Reads(Some(answer))
  {
    var (ops, flags) := Configure(names, true);
    forall op | op in ops
      ensures IsBinary(op)
    {
      var i :| 0 <= i < |names| && CliSetting(names[i]) == Enable(op);
      assert names[i] in names;
    }
    var (root, rs1) := Expand(NewNode(1), depth, ops, flags, rs);
    ExpandFresh(NewNode(1), depth, ops, flags, rs);
    EvaluateFresh(root, answer, rs1);
    var evaluated := Evaluate(root, answer, rs1).value.0;
    EvaluatedFormats(evaluated);
    FormatReads(evaluated);
  }

  /** With trig toggles an equation may miss its answer: with `Sin` only and
      depth 2, every answer gives `\sin(0)`, which reads as 0. */
  lemma SineMissesAnswer(answer: int, rs: Draws)
    ensures Equation(answer, 2, ["allowSin"], rs) == Ok("\\sin(0)")
    ensures Read("\\sin(0)") == Reads(Some(0))
  {
    var (ops, flags) := Configure(["allowSin"], true);
    assert ["allowSin"][..0] == [];
    assert ops == [Sin];
    var (op, rs1) := ChooseOp(FilterOps(ops, flags), rs);
    assert op == Sin;
    var below := flags.(divisionParent := false);
    assert ExpandChildren(0, 2, 2, ops, below, rs1) == ([], rs1);
    var (heads, rs2) := Coin(rs1);
    assert Expand(NewNode(2), 2, ops, below, rs2) == (NewNode(2), rs2);
    var (kids, rest) := ExpandChildren(1, 2, 2, ops, below, rs1);
    assert kids == [NewNode(2)];
    var root := MathNode(Sin, [NewNode(2)], 1);
    assert Expand(NewNode(1), 2, ops, flags, rs) == (root, rest);
    var leaf := MathNode(Const(Some(0)), [], 2);
    assert Evaluate(NewNode(2), 0, rest) == Ok((leaf, rest));
    var evaluated := MathNode(Sin, [leaf], 1);
    assert root.children[0 := leaf] == [leaf];
    assert EvaluateFirst(root, 0, rest) == Ok((evaluated, rest));
    assert Evaluate(root, answer, rest) == Ok((evaluated, rest));
    assert IntToString(0) == "0";
    assert FormatNode(leaf) == Ok("0");
    assert FormatChild(evaluated, 0, 10000) == Ok("0");
    assert Display(Sin) == Some("sin");
    assert "\\" + "sin" + "(" + "0" + ")" == "\\sin(0)";
    assert FormatNode(evaluated) == Ok("\\sin(0)");
    FormatReads(evaluated);
  }
}
