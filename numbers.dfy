/** Integer helpers shared by the engines: the divisor list of the Mul
    policy, the ceiling square root of the Div policy, and the decimal text
    of a number. */
module Numbers {

  /** The divisors of `n` that lie in `[2, k)`, ascending. */
  function DivisorsBelow(n: int, k: int): (ds: seq<int>)
    ensures forall i :: i in ds <==> 2 <= i < k && n % i == 0
    ensures forall j, l :: 0 <= j < l < |ds| ==> ds[j] < ds[l]
    ensures forall j :: 0 <= j < |ds| ==> 2 <= ds[j] < k
    decreases k
  {
    if k <= 2 then []
    else DivisorsBelow(n, k - 1) + (if n % (k - 1) == 0 then [k - 1] else [])
  }

  /** The non-trivial divisors of `n`: every `i` with `2 <= i < n` that
      divides `n`, in ascending order (Rust's
      `(2..value).filter(|i| value % i == 0)`). For `n <= 3` there are none. */
  function Divisors(n: int): (ds: seq<int>)
    ensures forall i :: i in ds <==> 2 <= i < n && n % i == 0
    ensures forall j, l :: 0 <= j < l < |ds| ==> ds[j] < ds[l]
  {
    DivisorsBelow(n, n)
  }

  /** `getDivisors` of the TypeScript engine: the same list, built by a loop
      that pushes each `i` in `[2, n)` with `n % i == 0`. */
  method GetDivisors(n: int) returns (divisors: seq<int>)
    ensures divisors == Divisors(n)
  {
    divisors := [];
    var i := 2;
    while i < n
      invariant 2 <= i
      invariant i <= n || i == 2
      invariant divisors == DivisorsBelow(n, i)
    {
      if n % i == 0 {
        divisors := divisors + [i];
      }
      i := i + 1;
    }
  }

  /** Local arithmetic helper of the ceiling square root. */
  lemma SquareAtLeast(x: nat)
    ensures x * x >= x
  {
    if x > 0 { assert x * x == x * (x - 1) + x; }
  }

  /** The least `r >= lo` with `r * r >= n`. */
  function CeilSqrtFrom(n: nat, lo: nat): (r: nat)
    requires lo == 0 || (lo - 1) * (lo - 1) < n
    ensures r * r >= n && (r == 0 || (r - 1) * (r - 1) < n)
    decreases n - lo
  {
    if lo * lo >= n then lo
    else
      SquareAtLeast(lo);
      CeilSqrtFrom(n, lo + 1)
  }

  /** `sqrt(n).ceil()` computed exactly: the least `r` with `r * r >= n`.
      For every `i32` the double-precision square root rounds to the same
      ceiling, so this is what the sources compute. */
  function CeilSqrt(n: nat): (r: nat)
    ensures r * r >= n
    ensures r == 0 || (r - 1) * (r - 1) < n
    ensures n >= 1 ==> r >= 1
  {
    CeilSqrtFrom(n, 0)
  }

  predicate IsDigit(c: char) {
    '0' as int <= c as int <= '9' as int
  }

  function DigitChar(d: nat): (c: char)
    requires d < 10
    ensures IsDigit(c) && c as int - '0' as int == d
  {
    (d + '0' as int) as char
  }

  /** The decimal digits of `n`, most significant first. */
  function NatToString(n: nat): (s: string)
    ensures |s| > 0
    ensures forall i :: 0 <= i < |s| ==> IsDigit(s[i])
    decreases n
  {
    if n < 10 then [DigitChar(n)] else NatToString(n / 10) + [DigitChar(n % 10)]
  }

  /** The decimal text of an integer, as `to_string()` in Rust, template
      literals in TypeScript and `str` in Python write it. */
  function IntToString(n: int): (s: string)
    ensures |s| > 0
    ensures n >= 0 ==> forall i :: 0 <= i < |s| ==> IsDigit(s[i])
    ensures n < 0 ==> s[0] == '-'
  {
    if n < 0 then "-" + NatToString(-n) else NatToString(n)
  }

  /** The number denoted by a string of digits. */
  function DigitsValue(s: string): (v: nat)
    requires forall i :: 0 <= i < |s| ==> IsDigit(s[i])
    decreases |s|
  {
    if s == [] then 0
    else
      assert IsDigit(s[|s| - 1]);
      DigitsValue(s[..|s| - 1]) * 10 + (s[|s| - 1] as int - '0' as int)
  }

  /** Reading the digits back gives the number. */
  lemma {:induction false} DigitsValueOfNatToString(n: nat)
    ensures DigitsValue(NatToString(n)) == n
    decreases n
  {
    if n >= 10 {
      DigitsValueOfNatToString(n / 10);
      var s := NatToString(n);
      assert s[..|s| - 1] == NatToString(n / 10);
    }
  }
}
