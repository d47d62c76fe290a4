/** The random source, abstracted as the list of draws it will produce.

    Every call the source makes to its generator (`rand::random`, `choose`,
    `Math.random`, `random.randint`, `random.choice`) consumes one draw, a
    natural number; each language's own formula turns the draw into the
    value it asks for. A run that terminates consumes finitely many draws,
    so a finite list describes it; once the list is exhausted every further
    draw is 0. Every theorem of the model holds for every list of draws. */
module Random {

  import opened Wrappers

  type Draws = seq<nat>

  /** The next draw and the draws after it. */
  function Next(rs: Draws): (r: (nat, Draws))
    ensures |r.1| <= |rs|
    ensures rs != [] ==> |r.1| == |rs| - 1
    ensures rs == [] ==> r == (0, [])
  {
    if rs == [] then (0, []) else (rs[0], rs[1..])
  }

  /** `d % n` for a draw `d`, written as repeated subtraction. */
  function Reduce(d: nat, n: nat): (r: nat)
    requires n > 0
    ensures r < n
    decreases d
  {
    if d < n then d else Reduce(d - n, n)
  }

  lemma {:induction false} ReduceIsRemainder(d: nat, n: nat)
    requires n > 0
    ensures Reduce(d, n) == d % n
    decreases d
  {
    if d >= n {
      ReduceIsRemainder(d - n, n);
      RemainderShift(d - n, n);
    }
  }

  /** Adding the divisor leaves the remainder as it is. */
  lemma RemainderShift(d: nat, n: nat)
    requires n > 0
    ensures (d + n) % n == d % n
  {
    var q, r := d / n, d % n;
    var q', r' := (d + n) / n, (d + n) % n;
    assert n * (q + 1) == n * q + n;
    assert n * (q + 1 - q') == r' - r;
    OnlyZeroMultiple(n, q + 1 - q');
  }

  /** The only multiple of `n` strictly between `-n` and `n` is 0. */
  lemma OnlyZeroMultiple(n: int, k: int)
    requires n > 0 && -n < n * k < n
    ensures k == 0
  {
  }

  /** A fair coin: heads when the draw is odd. An exhausted source shows
      tails, so a run of heads always consumes the source. */
  function Coin(rs: Draws): (r: (bool, Draws))
    ensures |r.1| <= |rs|
    ensures r.0 ==> |r.1| < |rs|
  {
    var (d, rest) := Next(rs);
    (d % 2 == 1, rest)
  }

  /** A uniform index into a non-empty slice of length `n`. */
  function Index(n: nat, rs: Draws): (r: (nat, Draws))
    requires n > 0
    ensures r.0 < n && |r.1| <= |rs|
  {
    var (d, rest) := Next(rs);
    (d % n, rest)
  }

  /** `a + Math.floor(Math.random() * (b - a + 1))`, the `random(a, b)` helper
      of the TypeScript and JavaScript engines. When `b < a` the product is
      non-positive and the helper still returns a number in `[b + 1, a]`. */
  function Uniform(a: int, b: int, rs: Draws): (r: (int, Draws))
    ensures a <= b ==> a <= r.0 <= b
    ensures b < a ==> b + 1 <= r.0 <= a
    ensures |r.1| <= |rs|
  {
    var (d, rest) := Next(rs);
    var n := b - a + 1;
    (if n > 0 then a + Reduce(d, n) else a - Reduce(d, 1 - n), rest)
  }

  /** Python's `random.randint(a, b)`: `None` stands for the `ValueError`
      it raises on an empty range. */
  function RandInt(a: int, b: int, rs: Draws): (r: (Option<int>, Draws))
    ensures r.0.Some? <==> a <= b
    ensures r.0.Some? ==> a <= r.0.value <= b
    ensures |r.1| <= |rs|
  {
    if b < a then (None, rs)
    else
      var (d, rest) := Next(rs);
      (Some(a + Reduce(d, b - a + 1)), rest)
  }
}
