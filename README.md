# unsolver: a verified model of an equation generator

The unsolver takes an answer (an integer) and a maximum depth, and it
produces a LaTeX expression that evaluates to the answer. It works in
three steps:

1. **Expand.** It grows a random tree of operators down to the depth.
2. **Evaluate.** It walks the tree top-down. Each node splits the target
   value it is given into targets for its children, and leaves take their
   target as their constant.
3. **Format.** It renders the tree as text. The Rust and TypeScript
   engines wrap an operand of Add or Mul in parentheses when it binds
   more loosely than its parent. They wrap the right operand of Sub
   whenever it is not an atom (a constant, a fraction or a trigonometric
   call), so a product there prints as `a - (b \times c)`. The prototypes
   wrap every operator node.

The repository holds the same engine several times over:

| source | language | modules |
|---|---|---|
| `unsolver-lib/src/lib.rs` | Rust library | `Engine`, `Lib` |
| `rust/src/main.rs` | Rust command-line copy, adds `Sin` and `Cos` | `Engine` (shared), `Cli` |
| `src/unsolver.ts` | TypeScript port | `TsEngine` |
| `unsolver.ts` and `unsolver.js` | two early script prototypes | `Script` |
| `init.py` | Python prototype | `Py` |

Each is modelled on its own terms:

- Trees are datatype values: the old tree goes in and the new tree comes out.
- Randomness is a finite sequence of draws (`Random.Draws`). Each language's
  sampling formula is written out. An exhausted source yields 0.
- An outcome is a value (`Ok`), a returned error message (`Err`), or a
  panic or exception (`Raised`) naming its kind.

**What is proved.** Every engine is proved correct against an independent
reader: the module `Reading`, a precedence parser and evaluator for the
LaTeX text.

- For every answer of at least 1, the text printed is proved to read
  back as the answer in these cases:
  - the Rust library, and the command-line copy without `Sin` and `Cos`;
  - both script prototypes and the Python prototype, at every depth;
  - the TypeScript port in its corrected revision (Add's right operand
    and the Mul threshold), with only arithmetic operators enabled, at
    least one.
- The TypeScript port as written prints its Add node's left operand
  twice (see "## Findings"). For it, the model proves that the evaluated
  tree still denotes the answer; the text need not read back
  (TsFacts.AddRendersLeftTwice).
- The library's `get_equation` never returns an error message. The string
  is always the formatted equation, unless evaluation panics dividing by
  zero.
- Structural invariants of expansion are proved too: depth bounds;
  division never directly under division unless stacked division is
  enabled; node shapes.
- Each engine's evaluation rules are proved: bounds of the splits, and
  which targets raise or degrade.
- The loops of the source (the child loops of `expand_node` and
  `expandNode`, the toggle loop of `get_equation`, `getDivisors`) are
  Dafny methods proved equal to the functions that specify them.

**Parentheses at the root.** `format_node`
(`unsolver-lib/src/lib.rs:156-191`) never wraps the root. Take answer 6,
depth 2, only `allowMul`, and the draws that choose the divisor 2: the
result is `2 \times 3`, with no outer parentheses (Lib.ProductOfSix).

## Model

| member | source | states |
|---|---|---|
| Random.Next | unsolver-lib/src/lib.rs:98 | one draw is consumed when there is one; an exhausted source yields 0 and stays empty |
| Random.ReduceIsRemainder | unsolver-lib/src/lib.rs:110 | the remainder used to reduce a draw agrees with `%` for non-negative draws |
| Random.Coin | unsolver-lib/src/lib.rs:98 | `rand::random::<bool>()`: a coin that shows true has consumed a draw |
| Random.Index | unsolver-lib/src/lib.rs:84-86 | `choose` on a non-empty slice picks an index below its length |
| Random.Uniform | src/unsolver.ts:1-3 | `random(a, b)` lies between `a` and `b` when `a <= b`, and in the mirrored range otherwise |
| Random.RandInt | init.py:45 | `random.randint(a, b)` gives a value in `[a, b]` exactly when `a <= b`, and otherwise fails (the ValueError) |
| Numbers.DivisorsBelow | src/unsolver.ts:10-20 | membership: `i` is listed iff `2 <= i < k` and `i` divides `n`; the list ascends |
| Numbers.Divisors | src/unsolver.ts:10-20 | the proper divisors of `n` other than 1, ascending, membership both ways |
| Numbers.GetDivisors | src/unsolver.ts:10-20 | the `getDivisors` loop returns exactly `Divisors(n)` |
| Numbers.CeilSqrt | unsolver-lib/src/lib.rs:140 | the least `r` with `r * r >= n` |
| Numbers.IntToString | unsolver-lib/src/lib.rs:170 | `to_string` of an integer: non-empty, all digits when non-negative, a leading `-` otherwise |
| Numbers.DigitsValueOfNatToString | unsolver-lib/src/lib.rs:170 | the digits of `n` read back as `n` |
| Arith.FracV | unsolver-lib/src/lib.rs:183-187 | a fraction denotes a number exactly when the denominator is non-zero and divides the numerator |
| Arith.ExactQuotient | unsolver-lib/src/lib.rs:138-144 | the fraction `(v * b) / b` denotes `v` |
| Engine.Precedence | unsolver-lib/src/lib.rs:31-37 | 0 for constants and division, 1 for Mul, 2 for Add and Sub, both directions |
| Engine.Display | unsolver-lib/src/lib.rs:40-50 | Display fails exactly for Div and an empty constant; a constant shows its digits |
| Engine.FilterOps | unsolver-lib/src/lib.rs:73-82 | an operator survives iff it was allowed and is not a Div under a Div parent with stacked division off |
| Engine.ChooseOp | unsolver-lib/src/lib.rs:84-86 | no operators leave the empty constant without a draw; otherwise the choice is one of them |
| Engine.Expand | unsolver-lib/src/lib.rs:68-104 | `expand_node` as a function: it consumes draws and never adds any; its shape is EngineFacts.ExpandGrows and ExpandSeparatesDiv |
| Engine.ChildCount | rust/src/main.rs:93-97 | two children exactly for binary operators, one for Sin and Cos, none for constants |
| Engine.ExpandChildren | unsolver-lib/src/lib.rs:95-103 | the child loop makes exactly `count` children |
| Engine.ExpandNode | unsolver-lib/src/lib.rs:68-104 | the imperative `expand_node`, with its child loop, computes `Expand` |
| Engine.AddSplit | unsolver-lib/src/lib.rs:108-118 | both parts lie in `[1, value - 1]` and sum to the target |
| Engine.SubSplit | unsolver-lib/src/lib.rs:119-125 | the parts differ by the target; for a positive target the left part lies in `[v + 1, 2v]` |
| Engine.MulSplit | unsolver-lib/src/lib.rs:126-137 | a split exists iff the target has a divisor; the left factor is a divisor, both factors are at least 2, and their product is the target |
| Engine.QuotientAtLeastTwo | unsolver-lib/src/lib.rs:129-133 | the cofactor of a proper divisor is at least 2 and completes the product |
| Engine.SqrtCast | unsolver-lib/src/lib.rs:140 | the ceiling square root cast to an integer: at least 1 with square at least the target for positive targets |
| Engine.DivSplit | unsolver-lib/src/lib.rs:138-144 | the numerator is the target times the denominator; for a positive target both are at least 2 |
| Engine.Evaluate | unsolver-lib/src/lib.rs:106-154 | a valued constant is the error `Err`; success keeps the node's shape |
| Engine.EvaluatePair | unsolver-lib/src/lib.rs:106-154 | evaluating both children keeps the operator and the shape |
| Engine.EvaluateFirst | rust/src/main.rs:149-156 | evaluating the one child of Sin or Cos keeps the operator and the shape |
| EngineFacts.ExpandGrows | unsolver-lib/src/lib.rs:68-104 | an expanded tree respects the maximum depth and uses only allowed operators |
| EngineFacts.ExpandChildrenGrow | unsolver-lib/src/lib.rs:95-103 | every child the loop makes is grown one level down |
| EngineFacts.ExpandSeparatesDiv | unsolver-lib/src/lib.rs:73-88 | with stacked division off, no Div has a Div child |
| EngineFacts.ExpandChildrenSeparateDiv | unsolver-lib/src/lib.rs:88-103 | under a Div parent, no child of the loop is a Div |
| EngineFacts.StackedDivTwoLevelsDown | unsolver-lib/src/lib.rs:73-88 | the filter looks one level up only: a Div can sit two levels below a Div |
| EngineFacts.ExpandFresh | unsolver-lib/src/lib.rs:68-104 | with arithmetic operators only, expansion leaves every constant empty and every inner node binary |
| EngineFacts.ExpandChildrenFresh | unsolver-lib/src/lib.rs:95-103 | the same for each child the loop makes |
| EngineFacts.EvaluateFresh | unsolver-lib/src/lib.rs:106-154 | on an expanded tree and a target of at least 1, evaluation succeeds, leaves only positive constants, and the tree denotes the target (Engine.Value) |
| EngineFacts.EvaluatePairFresh | unsolver-lib/src/lib.rs:106-154 | the two children of a binary node denote the two parts of the split |
| EngineFacts.EvaluatedFormats | unsolver-lib/src/lib.rs:156-191 | an evaluated tree always formats |
| EngineFacts.EvaluateFills | unsolver-lib/src/lib.rs:106-154 | at every target, evaluating a grown tree either fills every constant or panics dividing by zero; the `Err` of a valued constant is unreachable |
| EngineFacts.FilledFormats | unsolver-lib/src/lib.rs:156-191 | a tree whose constants all hold values formats without the empty-constant `Err` |
| EngineFacts.TrigIgnoresTarget | rust/src/main.rs:149-156 | Sin and Cos pass 0 down, so their outcome is the same at every target; the second clause, that they never denote a target of at least 2, follows from the range of sine and cosine alone |
| EngineFacts.SubUnderTrigPanics | rust/src/main.rs:149-156 | a Sub under Sin or Cos divides by zero (`% 0`) and panics |
| EngineText.FormatReads | unsolver-lib/src/lib.rs:156-191 | `format_node` (Engine.FormatNode): every text it produces reads back as the value the tree denotes (Engine.Value) |
| EngineText.ExprReads | unsolver-lib/src/lib.rs:171-181 | any formatted tree, followed by a suitable rest, parses as an expression of the tree's value |
| EngineText.TermReads | unsolver-lib/src/lib.rs:171-176 | a formatted product, or anything of higher binding, parses as a term |
| EngineText.FactorReads | unsolver-lib/src/lib.rs:170 | a constant parses as a factor |
| EngineText.FracReads | unsolver-lib/src/lib.rs:183-187 | `\frac{..}{..}` parses as a factor of the fraction's value |
| EngineText.TrigReads | rust/src/main.rs:195-199 | `\sin(..)` and `\cos(..)` parse as a factor of the trigonometric value |
| EngineText.ParenReads | unsolver-lib/src/lib.rs:162-166 | a parenthesised child parses as a factor of its value |
| EngineText.ChildSlot | unsolver-lib/src/lib.rs:159-167 | the `format_child` closure (Engine.FormatChild): child `i` formatted, in parentheses exactly when its precedence exceeds the slot's |
| Toggles.Configure | unsolver-lib/src/lib.rs:198-207 | the toggle match, through Toggles.LibSetting: an operator is enabled iff some toggle names it; stacked division iff `allowStackedDiv` is given; unknown toggles change nothing |
| Toggles.ReadToggles | unsolver-lib/src/lib.rs:198-207 | the toggle loop computes `Configure` |
| Toggles.TrigTogglesOnlyInCli | rust/src/main.rs:214-225 | Toggles.CliSetting adds `allowSin` and `allowCos`: they enable Sin and Cos in the command-line copy, while the library leaves no operator enabled for them |
| Lib.Equation | unsolver-lib/src/lib.rs:213-220 | `get_equation` hands back an error message as its string, so `Err` is never the outcome; that no message ever arises is Lib.NoErrorMessage |
| Lib.NoErrorMessage | unsolver-lib/src/lib.rs:209-220 | for every answer (zero and negative included), depth, toggle list and draws, neither `evaluate_node` nor `format_node` returns `Err`: the string is the formatted equation, or the run panics dividing by zero |
| Lib.ProductOfSix | unsolver-lib/src/lib.rs:156-191 | the root is never wrapped: answer 6 with only `allowMul`, depth 2 and the divisor 2 prints `2 \times 3` |
| Lib.GetEquation | unsolver-lib/src/lib.rs:194-221 | the imperative `get_equation` computes `Equation` |
| Lib.EquationReadsAnswer | unsolver-lib/src/lib.rs:194-221 | for an answer of at least 1, whatever the toggles, depth and draws, the equation reads back as the answer |
| Lib.EquationOfLeaf | unsolver-lib/src/lib.rs:209-220 | at depth 1, or with no operator enabled, the equation is the answer's digits |
| Lib.SubtractionAtZeroPanics | unsolver-lib/src/lib.rs:119-125 | the answer 0 with Sub allowed at depth 2 panics on `% 0` |
| Cli.GetEquation | rust/src/main.rs:210-232 | the imperative `get_equation` with Sin and Cos toggles computes `Equation` |
| Cli.EquationReadsAnswer | rust/src/main.rs:210-232 | `get_equation` of the command-line copy (Cli.Equation): without `allowSin` and `allowCos`, the equation reads back as the answer |
| Cli.SineMissesAnswer | rust/src/main.rs:149-152 | with only `allowSin` at depth 2, every answer yields `\sin(0)`, which reads 0 |
| TsEngine.Choose | src/unsolver.ts:5-8 | an empty choice list gives `undefined`; otherwise the choice is a member |
| TsEngine.Flip | src/unsolver.ts:69 | a flip that shows 1 has consumed a draw |
| TsEngine.ChildCount | src/unsolver.ts:50-65 | two children for binary operators, one for Sin and Cos, none for a constant or an undefined operator |
| TsEngine.Expand | src/unsolver.ts:43-73 | `expandNode` as a function: it consumes draws and never adds any; its shape is TsFacts.ExpandGrows |
| TsEngine.Fill | src/unsolver.ts:67-72 | the child loop as a function: it consumes draws and never adds any; its shape is TsFacts.FillGrows |
| TsEngine.Put | src/unsolver.ts:68 | assigning `children[i]` replaces that slot, or appends at the end, and leaves the others alone |
| TsEngine.ExpandNode | src/unsolver.ts:43-73 | the imperative `expandNode`, with its child loop, computes `Expand` |
| TsEngine.AddSplit | src/unsolver.ts:77-88 | both parts lie in `[1, value - 1]` and sum to the target |
| TsEngine.SubSplit | src/unsolver.ts:90-96 | the parts differ by the target; NaN stays NaN; for 0 both parts are 1 |
| TsEngine.MulSplit | src/unsolver.ts:98-113 | a split exists iff the divisor count exceeds the revision's threshold; both factors are at least 2 and their product is the target |
| TsEngine.DivSplit | src/unsolver.ts:115-121 | for a non-negative target, the numerator is the target times a denominator of at least 1; for a negative target or NaN, NaN |
| TsEngine.Arcsine | src/unsolver.ts:123-126 | `Math.asin` on an integer: 0 exactly at 0; undefined in the model exactly at 1 and -1 (irrational angles) |
| TsEngine.Arccosine | src/unsolver.ts:128-131 | `Math.acos` on an integer: 0 exactly at 1; undefined in the model exactly at 0 and -1 |
| TsEngine.Evaluate | src/unsolver.ts:137-139 | an undefined operator throws a TypeError (no entry in `evals`); success keeps depth and children count |
| TsEngine.EvaluateAdd | src/unsolver.ts:77-88 | a target of at most 1, or NaN, turns the node into the constant 1 |
| TsEngine.EvaluateSub | src/unsolver.ts:90-96 | success keeps the operator and the shape |
| TsEngine.EvaluateMul | src/unsolver.ts:98-113 | without a split, the node becomes the constant target |
| TsEngine.EvaluateDiv | src/unsolver.ts:115-121 | success keeps the operator and the shape |
| TsEngine.EvaluateTrig | src/unsolver.ts:123-131 | an angle the model cannot state is a failure; success keeps the operator |
| TsEngine.EvaluatePair | src/unsolver.ts:82-83 | evaluating both children keeps operator, value and shape |
| TsEngine.EvaluateFirst | src/unsolver.ts:125 | evaluating the one child keeps operator, value and shape |
| TsEngine.Precedence | src/unsolver.ts:142-157 | 0 for constants, Div, Sin and Cos; 1 for Mul; 2 for Add and Sub; 3 (the fall-through) for an undefined operator |
| TsEngine.GetEquation | src/unsolver.ts:204-209 | the imperative `getEquation` computes `Equation` |
| TsFacts.ExpandGrows | src/unsolver.ts:43-73 | an expanded tree respects the maximum depth and uses only allowed operators |
| TsFacts.FillGrows | src/unsolver.ts:67-72 | every child the loop makes is grown one level down |
| TsFacts.ExpandFresh | src/unsolver.ts:43-73 | with arithmetic operators only, every leaf is a valueless constant and every inner node is binary |
| TsFacts.FillFresh | src/unsolver.ts:67-72 | the same for each child the loop makes |
| TsFacts.ToEngine | src/unsolver.ts:142-157 | the translation to the Rust tree keeps depth, shape and precedence |
| TsFacts.EvaluateFresh | src/unsolver.ts:77-139 | on an expanded tree and a target of at least 1, evaluation succeeds in both revisions and the tree denotes the target |
| TsFacts.SumFresh | src/unsolver.ts:77-88 | an Add node reaches its target |
| TsFacts.DifferenceFresh | src/unsolver.ts:90-96 | a Sub node reaches its target |
| TsFacts.ProductFresh | src/unsolver.ts:98-113 | a Mul node reaches its target, split or degraded |
| TsFacts.FractionFresh | src/unsolver.ts:115-121 | a Div node reaches its target |
| TsFacts.PairValue | src/unsolver.ts:77-121 | a binary node over two valued children denotes their sum, difference, product or fraction |
| TsFacts.EvaluatePairFresh | src/unsolver.ts:82-83 | both children denote the parts they were handed |
| TsFacts.EvaluatedFormats | src/unsolver.ts:159-202 | an evaluated tree formats to a string in both revisions |
| TsFacts.EvaluatedIsPlain | src/unsolver.ts:159-202 | an evaluated tree uses only constructs the Rust formatter shares |
| TsFacts.FormatAgrees | src/unsolver.ts:159-202 | corrected, `formatNode` (TsEngine.FormatNode) prints exactly what Rust's `format_node` prints for the same tree |
| TsFacts.BinaryAgrees | src/unsolver.ts:173-190 | the same for Add, Sub and Mul nodes |
| TsFacts.FractionAgrees | src/unsolver.ts:196-199 | the same for Div nodes |
| TsFacts.TrigAgrees | src/unsolver.ts:191-195 | the same for Sin and Cos nodes |
| TsFacts.ChildAgrees | src/unsolver.ts:160-169 | `formatChild` (TsEngine.FormatChild) agrees with Rust's child formatting |
| TsFacts.FormatReads | src/unsolver.ts:159-202 | every text the corrected formatter prints reads back as the tree's value |
| TsFacts.EquationReadsAnswer | src/unsolver.ts:204-209 | corrected, `getEquation` (TsEngine.Equation) with a non-empty arithmetic operator list reads back as every answer of at least 1 |
| TsFacts.EquationAsWrittenDenotesAnswer | src/unsolver.ts:204-209 | as written, the evaluated tree still denotes the answer and formats; only the text is wrong |
| TsFacts.AddRendersLeftTwice | src/unsolver.ts:173-178 | as written, target 3 with draw 0 gives the tree `1 + 2`, printed `1 + 1`, which reads 2 |
| TsFacts.AddTexts | src/unsolver.ts:173-178 | TsEngine.AddRightChild: as written Add prints child 0 on both sides (`1 + 1`), corrected child 1 on the right (`1 + 2`) |
| TsFacts.MulAtFourDegrades | src/unsolver.ts:98-113 | as written, target 4 (one divisor) degrades a Mul node to the constant 4; corrected it splits into two 2s |
| TsFacts.MulAtFourSplits | src/unsolver.ts:98-113 | corrected, a Mul node at target 4 splits into the leaves 2 and 2 |
| TsFacts.FourSplitsEvenly | src/unsolver.ts:103 | with the corrected Mul threshold (TsEngine.MulThreshold), target 4 with its one divisor splits into 2 and 2 |
| TsFacts.EmptyOpsThrow | src/unsolver.ts:137-139 | with no operators and depth other than 1, `getEquation` throws a TypeError |
| TsFacts.TrigMissesTarget | src/unsolver.ts:123-131 | Sin and Cos at a target of at least 2 evaluate their child at the angle NaN, whatever the target; that they never denote the target follows from the range of sine and cosine alone |
| TsFacts.SineOfTwo | src/unsolver.ts:123-126 | `getEquation(2, 2, [Sin])` prints `\sin(NaN)` |
| Script.Expand | unsolver.ts:29-45 | expansion consumes draws and never adds any |
| Script.Grow | unsolver.ts:35-43 | a child is expanded only on a draw of 1 |
| ScriptFacts.Height | unsolver.ts:29-45 | the number of levels of a tree, the measure that ScriptFacts.GrownHeight, TypeScriptBounded and JavaScriptUnbounded bound; its own contract says only that a tree has at least one level |
| ScriptFacts.ExpandGrows | unsolver.ts:29-45 | from a node at depth `d`, expansion stops at `maxDepth` |
| ScriptFacts.GrowGrows | unsolver.ts:35-43 | the same for a child grown on a coin flip |
| ScriptFacts.GrownHeight | unsolver.ts:29-45 | a tree grown from depth `d` has at most `maxDepth - d + 1` levels |
| ScriptFacts.TypeScriptBounded | unsolver.ts:20-30 | with the root at depth 1, the tree has at most `maxDepth` levels |
| ScriptFacts.JavaScriptUnbounded | unsolver.js:12-22 | with the root at depth `undefined`, suitable draws grow `k + 2` levels whatever `maxDepth` |
| ScriptFacts.JavaScriptPassesDepth | unsolver.js:16-22 | at the script's depth 3, a tree of 4 levels is possible |
| ScriptFacts.ExpandExpanded | unsolver.ts:29-45 | every operator node gets both children |
| ScriptFacts.GrowExpanded | unsolver.ts:35-43 | the same for grown children |
| ScriptFacts.EvaluateHits | unsolver.ts:47-86 | `evaluateNode` (Script.Evaluate) at a target of at least 1 succeeds, fills every leaf, and the tree denotes the target |
| ScriptFacts.EvaluatePairHits | unsolver.ts:63-78 | the two child calls of `evaluateNode` (Script.EvaluatePair): both children denote the parts they were handed |
| ScriptFacts.PlusBelowTwo | unsolver.ts:56-59 | `+` at a target of at most 1 becomes the constant 1 |
| ScriptFacts.NodePieces | unsolver.ts:97-105 | an operator node prints as `(left op right)` |
| ScriptFacts.FactorReads | unsolver.ts:97-105 | every formatted subtree parses as a factor of its value |
| ScriptFacts.FormatReads | unsolver.ts:97-105 | every text `formatNode` (Script.Format) prints reads back as the tree's value (Script.Value) |
| ScriptFacts.EquationReadsAnswer | unsolver.ts:107-109 | the script's last three statements (Script.Equation): for either file and every answer of at least 1, the printed text reads back as the answer |
| ScriptFacts.RunReadsAnswer | unsolver.ts:24-27 | with answer 42 and depth 3 (Script.Run), the script prints a text that reads 42 |
| ScriptFacts.TypeScriptDepthOne | unsolver.ts:29-31 | at depth 1 the TypeScript script prints only the answer |
| ScriptFacts.JavaScriptDepthOne | unsolver.js:19-22 | at depth 1 the JavaScript script still expands: 42 with no draws prints `(1 + 41)` |
| PyFacts.Deepest | init.py:7-13 | the greatest node depth of a tree, the measure that PyFacts.GrownWithinTwelve, GrownWithinLimit and ExpandBounded bound; its own contract says only that it is at least the root's depth |
| PyFacts.ExpandGrows | init.py:38-50 | `expand_node` (Py.Expand) grows a tree in which no node holds a value, an operator node has both children one level down, a node at `maxDepth` has no operator, and the children of a node at depth 11 or more are not expanded |
| PyFacts.GrowGrows | init.py:44-50 | one child of `expand_node` (Py.Grow) is grown one level down, and a child of a node at depth 11 or more is never expanded |
| PyFacts.GrownWithinTwelve | init.py:45 | no node lies deeper than 12, whatever the maximum depth |
| PyFacts.GrownWithinLimit | init.py:39-40 | no node lies deeper than the maximum depth when the root is not below it |
| PyFacts.ExpandBounded | init.py:38-50 | from the root, depth is at most 12, and at most `DEPTH` when `DEPTH >= 1` |
| PyFacts.GrownExpanded | init.py:38-50 | every operator node gets both children |
| PyFacts.EvaluateHits | init.py:53-71 | `evaluate_node` (Py.Evaluate) at a target of at least 1 succeeds, fills every leaf, and the tree denotes the target |
| PyFacts.EvaluatePairHits | init.py:58-69 | the two child calls of `evaluate_node` (Py.EvaluatePair): both children denote the parts they were handed |
| PyFacts.MinusRaises | init.py:64-69 | a `-` node raises ValueError exactly when its target is below 1 |
| PyFacts.NoValueError | init.py:53-71 | a target of at least 1 never raises ValueError anywhere below |
| PyFacts.TextReads | init.py:74-83 | below depth 1, `print_node` prints nothing and returns a text that parses as the subtree's value |
| PyFacts.PrintReads | init.py:74-83 | `print_node` (Py.PrintNode) at depth 1 prints one line, returns None, and the line reads back as the tree's value (Py.Value) |
| PyFacts.DepthIrrelevant | init.py:74-83 | below depth 1, the depth passed to `print_node` changes nothing |
| PyFacts.SameTextAtDepthOne | init.py:80-83 | at depth 1 the line printed is the text returned at depth 2 |
| PyFacts.ProgramPrintsAnswer | init.py:86-88 | the script's last three statements (Py.Program): for every answer of at least 1, one line is printed, and it reads back as the answer |
| PyFacts.AnswerZeroRaises | init.py:64-69 | the answer 0 with a `-` root raises ValueError |

## Left out

- Console and terminal I/O are not modelled: `println!` and `main`'s
  argument handling in `rust/src/main.rs:234-250`, `console.log`, and the
  `input()` loops of `init.py:16-32` that retry until a number is given.
  The answer and the depth are parameters instead. Python's `print` is
  modelled as the list of lines printed.
- The Rust message printed for an unknown toggle (`unsolver-lib/src/lib.rs:205`)
  is I/O. The model keeps only its effect, which is that nothing changes.
- Random generators (`thread_rng`, `Math.random`, Python's `random`) become
  a sequence of natural-number draws. Each sampling formula is written out
  over one draw. The probabilities are not modelled.
- Rust `i32` overflow is not modelled. This covers `value * 2`,
  `value * bottom`, and `abs()` of `i32::MIN` in the draws. Integers are
  unbounded, and a Rust draw is taken to be the non-negative `abs()`
  result.
- JavaScript numbers are not modelled as IEEE doubles. Integers are exact
  beyond 2^53, and `Math.floor(Math.random() * n)` is modelled as an exact
  index.
- Floating point square root, `asin` and `acos` are not modelled as floats.
  The `f64` square root cast in `unsolver-lib/src/lib.rs:140` becomes an
  exact integer ceiling square root. `Math.asin` and `Math.acos` are stated
  only where they give the integer 0 or NaN. Any other angle is an
  undefined value in the model, not a float.
- TsEngine.Arcsine: states only the integer results, not the irrational
  angles `Math.asin` returns for 1 and -1. TsEngine.Arccosine is stated the
  same way.
- In-place mutation and aliasing are not modelled. `&mut MathNode` and the
  JavaScript and Python objects are updated in place in the source, but
  each tree is owned by one caller only, so old-tree-in, new-tree-out loses
  nothing observable.
- The unused `depth` parameter of `formatNode` in `src/unsolver.ts`,
  `unsolver.ts` and `unsolver.js` is dropped, because it never affects the
  text.
- The web user interface and the WebAssembly binding attributes are not
  part of this model.
- Lib.EquationReadsAnswer and Cli.EquationReadsAnswer: the read-back is
  proved for answers of at least 1 only, where every split hands its
  children positive targets. At 0, Sub divides by zero
  (Lib.SubtractionAtZeroPanics). Negative answers are not covered.
- TsEngine.Equation: takes the answer as an integer. `getEquation` accepts
  any JavaScript number, and a fractional or NaN answer is not modelled.
- Engine.Expand, TsEngine.Expand and TsEngine.Fill: their contracts state
  only that draws are consumed. The shape they build is stated by
  EngineFacts.ExpandGrows, EngineFacts.ExpandSeparatesDiv,
  TsFacts.ExpandGrows and TsFacts.FillGrows.
- Script.Expand and Script.Grow: their contracts state only that draws are
  consumed. The shape they build is stated by ScriptFacts.ExpandGrows and
  ScriptFacts.JavaScriptUnbounded.

## Findings

| source | as written | input that shows it | evidently intended | confidence | as-written member | corrected member |
|---|---|---|---|---|---|---|
| src/unsolver.ts:175 | the Add case formats child 0 on both sides of `+` | target 3 on an Add node with draw 0: the tree `1 + 2` prints as `1 + 1`, which reads 2 | format child 1 on the right, as `unsolver-lib/src/lib.rs:173` does | not executed; high | TsFacts.AddRendersLeftTwice | TsFacts.EquationReadsAnswer |
| src/unsolver.ts:103 | Mul splits only when the target has more than one divisor | target 4, whose only divisor is 2: the Mul node degrades to the constant 4 | split whenever a divisor exists, as `unsolver-lib/src/lib.rs:129` does | not executed; medium | TsFacts.MulAtFourDegrades | TsFacts.MulAtFourSplits |
| unsolver.js:12 | `newNode` has no default depth, so the root of `newNode()` has depth `undefined` and the depth test never holds | depth 1, answer 42, no draws: prints `(1 + 41)` instead of `42`; the draws `0,1,0,1` give 4 levels at depth 3 | default depth 1, as `unsolver.ts:20` has | not executed; high | ScriptFacts.JavaScriptUnbounded | ScriptFacts.TypeScriptBounded |
