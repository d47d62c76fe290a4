/** The arithmetic that an expression denotes, over `Option<int>`: `None`
    stands for "not an integer" (a fraction that does not divide exactly, a
    division by zero, the sine or cosine of a non-zero integer, or a part
    that has no value at all). */
module Arith {

  import opened Wrappers

  function AddV(a: Option<int>, b: Option<int>): Option<int> {
    if a.Some? && b.Some? then Some(a.value + b.value) else None
  }

  function SubV(a: Option<int>, b: Option<int>): Option<int> {
    if a.Some? && b.Some? then Some(a.value - b.value) else None
  }

  function MulV(a: Option<int>, b: Option<int>): Option<int> {
    if a.Some? && b.Some? then Some(a.value * b.value) else None
  }

  /** `\frac{a}{b}`: an integer exactly when `b` divides `a`. */
  function FracV(a: Option<int>, b: Option<int>): (r: Option<int>)
    ensures r.Some? <==> a.Some? && b.Some? && b.value != 0 && a.value % b.value == 0
  {
    if a.Some? && b.Some? && b.value != 0 && a.value % b.value == 0 then Some(a.value / b.value) else None
  }

  /** `\sin(a)`: the sine of an integer is an integer only at 0. */
  function SinV(a: Option<int>): Option<int> {
    if a == Some(0) then Some(0) else None
  }

  /** `\cos(a)`: the cosine of an integer is an integer only at 0. */
  function CosV(a: Option<int>): Option<int> {
    if a == Some(0) then Some(1) else None
  }

  /** The exact quotient the Div policy relies on. */
  lemma ExactQuotient(v: int, b: int)
    requires b > 0
    ensures FracV(Some(v * b), Some(b)) == Some(v)
  {
    var q, m := (v * b) / b, (v * b) % b;
    assert v * b == b * q + m && 0 <= m < b;
    assert b * (v - q) == m;
    MultipleBounds(b, v - q);
  }

  /** Local arithmetic helper of ExactQuotient. */
  lemma MultipleBounds(b: int, k: int)
    requires b > 0
    ensures k >= 1 ==> b * k >= b
    ensures k <= -1 ==> b * k <= -b
  {
    if k >= 1 { assert b * k == b * (k - 1) + b; }
    if k <= -1 { assert b * k == b * (k + 1) - b; }
  }
}
