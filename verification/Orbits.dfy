/** The number theory behind the block exchange of `permute_args`: the walk "add `step` modulo `size`"
    started anywhere visits exactly the residue class of its start modulo gcd(step, size), each
    position once, and then closes. */
module Orbits {

  ghost predicate Divides(d: int, x: int) {
    exists q :: Multiple(q, d) == x
  }

  function Multiple(q: int, d: int): int {
    q * d
  }

  /** `g` is the greatest common divisor of `a` and `b`: a common divisor that every common divisor divides. */
  ghost predicate IsGcd(g: int, a: int, b: int) {
    && g > 0
    && Divides(g, a)
    && Divides(g, b)
    && forall d :: Divides(d, a) && Divides(d, b) ==> Divides(d, g)
  }

  lemma DividesCombination(d: int, x: int, y: int, u: int, v: int)
    requires Divides(d, x) && Divides(d, y)
    ensures Divides(d, u * x + v * y)
  {
    var p :| Multiple(p, d) == x;
    var q :| Multiple(q, d) == y;
    assert Multiple(u * p + v * q, d) == u * (p * d) + v * (q * d);
  }

  /** Euclid's step keeps the set of common divisors. */
  lemma GcdStep(g: int, a: int, b: int)
    requires b > 0
    requires IsGcd(g, b, a % b)
    ensures IsGcd(g, a, b)
  {
    var q, r := a / b, a % b;
    assert a == q * b + 1 * r;
    DividesCombination(g, b, r, q, 1);
    forall d | Divides(d, a) && Divides(d, b)
      ensures Divides(d, g)
    {
      DividesCombination(d, a, b, 1, -q);
      assert 1 * a + -q * b == r;
    }
  }

  lemma GcdBase(a: int, b: int)
    requires b > 0 && a % b == 0
    ensures IsGcd(b, a, b)
  {
    assert Multiple(a / b, b) == a;
    assert Multiple(1, b) == b;
  }

  /** Bezout coefficients of a pair with a positive second member. */
  lemma Bezout(a: int, b: int) returns (g: int, u: int, v: int)
    requires a >= 0 && b > 0
    ensures IsGcd(g, a, b) && u * a + v * b == g
    decreases b
  {
    if a % b == 0 {
      GcdBase(a, b);
      g, u, v := b, 0, 1;
    } else {
      var u', v';
      g, u', v' := Bezout(b, a % b);
      GcdStep(g, a, b);
      u, v := v', u' - v' * (a / b);
      BezoutStep(a, b, u', v');
    }
  }

  lemma BezoutStep(a: int, b: int, u: int, v: int)
    requires b > 0
    ensures v * a + (u - v * (a / b)) * b == u * b + v * (a % b)
  {
    var q := a / b;
    assert a == q * b + a % b;
    assert v * a == v * (q * b) + v * (a % b);
    assert (u - v * q) * b == u * b - v * q * b;
  }

  lemma GcdUnique(g: int, h: int, a: int, b: int)
    requires IsGcd(g, a, b) && IsGcd(h, a, b)
    ensures g == h
  {
    var p :| Multiple(p, g) == h;
    var q :| Multiple(q, h) == g;
    assert p > 0 && q > 0;
    assert h >= g by { assert p * g >= 1 * g; }
    assert g >= h by { assert q * h >= 1 * h; }
  }

  /** One step of the walk: `size - step` positions back when possible, otherwise `step` forward. */
  function Next(size: nat, step: nat, q: nat): (r: nat)
    requires q < size && 0 < step < size
    ensures r < size
  {
    if q >= size - step then q - (size - step) else q + step
  }

  /** Where the walk from `q` stands after `j` steps. */
  function Walk(size: nat, step: nat, q: nat, j: nat): (r: nat)
    requires q < size && 0 < step < size
    ensures r < size
  {
    if j == 0 then q else Next(size, step, Walk(size, step, q, j - 1))
  }

  /** How often the first `j` steps wrapped around. */
  ghost function Laps(size: nat, step: nat, q: nat, j: nat): nat
    requires q < size && 0 < step < size
  {
    if j == 0 then 0
    else Laps(size, step, q, j - 1) + (if Walk(size, step, q, j - 1) >= size - step then 1 else 0)
  }

  lemma OneMore(m: int, x: int)
    ensures (m + 1) * x == m * x + x
  {
  }

  lemma {:induction false} WalkClosedForm(size: nat, step: nat, q: nat, j: nat)
    requires q < size && 0 < step < size
    ensures Walk(size, step, q, j) == q + j * step - Laps(size, step, q, j) * size
  {
    if j != 0 {
      WalkClosedForm(size, step, q, j - 1);
      OneMore(j - 1, step);
      OneMore(Laps(size, step, q, j - 1), size);
    }
  }

  lemma MulBounds(m: int, size: nat)
    ensures m >= 1 ==> m * size >= size
    ensures m <= -1 ==> m * size <= -(size as int)
    ensures m == 0 ==> m * size == 0
  {
    if m >= 1 {
      assert m * size == (m - 1) * size + size;
    } else if m <= -1 {
      assert m * size == (m + 1) * size - size;
    }
  }

  /** Two positions of the circle that differ by a multiple of its size are the same. */
  lemma SamePosition(size: nat, x: nat, y: nat, m: int)
    requires x < size && y < size && x - y == m * size
    ensures x == y
  {
    MulBounds(m, size);
  }

  /** A walk whose size and step share the divisor `g`; `u` and `v` are Bezout coefficients. */
  ghost predicate Circle(size: nat, step: nat, g: nat, length: nat, turns: nat, u: int, v: int) {
    && 0 < step < size && 0 < g
    && size == length * g
    && step == turns * g
    && u * step + v * size == g
  }

  lemma SwapFactors(a: int, b: int, c: int)
    ensures a * (b * c) == b * (a * c) == (a * b) * c
  {
  }

  lemma CancelFactor(a: int, b: int, g: int)
    requires g > 0 && a * g == b * g
    ensures a == b
  {
  }

  /** If `d` steps amount to `m` laps then `d` is a multiple of the cycle length. */
  lemma LapsAreWholeCycles(size: nat, step: nat, g: nat, length: nat, u: int, v: int, d: int, m: int)
    requires g > 0 && size == length * g && u * step + v * size == g && d * step == m * size
    ensures d == (u * m + d * v) * length
  {
    var w := u * m + d * v;
    calc {
      d * g;
      d * (u * step + v * size);
      d * (u * step) + d * (v * size);
      { SwapFactors(d, u, step); SwapFactors(d, v, size); }
      u * (d * step) + (d * v) * size;
      { SwapFactors(u, m, size); }
      (u * m) * size + (d * v) * size;
      w * size;
      { SwapFactors(w, length, g); }
      (w * length) * g;
    }
    CancelFactor(d, w * length, g);
  }

  lemma WalkInjective(size: nat, step: nat, g: nat, length: nat, turns: nat, u: int, v: int,
                      q: nat, i: nat, j: nat)
    requires Circle(size, step, g, length, turns, u, v)
    requires q < size && i < j < length
    ensures Walk(size, step, q, i) != Walk(size, step, q, j)
  {
    WalkClosedForm(size, step, q, i);
    WalkClosedForm(size, step, q, j);
    var d, m := j - i, Laps(size, step, q, j) - Laps(size, step, q, i);
    Distribute(j, i, step);
    Distribute(Laps(size, step, q, j), Laps(size, step, q, i), size);
    if d * step == m * size {
      LapsAreWholeCycles(size, step, g, length, u, v, d, m);
      MulBounds(u * m + d * v, length);
    }
  }

  lemma Distribute(a: int, b: int, c: int)
    ensures (a - b) * c == a * c - b * c
  {
  }

  lemma CycleLength(size: nat, step: nat, g: nat, length: nat, turns: nat)
    requires size == length * g && step == turns * g
    ensures length * step == turns * size
  {
    SwapFactors(length, turns, g);
  }

  lemma WalkCloses(size: nat, step: nat, g: nat, length: nat, turns: nat, u: int, v: int, q: nat)
    requires Circle(size, step, g, length, turns, u, v)
    requires q < size
    ensures Walk(size, step, q, length) == q
  {
    WalkClosedForm(size, step, q, length);
    CycleLength(size, step, g, length, turns);
    Distribute(turns, Laps(size, step, q, length), size);
    SamePosition(size, Walk(size, step, q, length), q, turns - Laps(size, step, q, length));
  }

  lemma WalkStaysInClass(size: nat, step: nat, g: nat, length: nat, turns: nat, u: int, v: int, q: nat, j: nat)
    requires Circle(size, step, g, length, turns, u, v)
    requires q < size
    ensures Walk(size, step, q, j) % g == q % g
  {
    WalkClosedForm(size, step, q, j);
    var l := Laps(size, step, q, j);
    SwapFactors(j, turns, g);
    SwapFactors(l, length, g);
    Distribute(j * turns, l * length, g);
    ModShift(q, j * turns - l * length, g);
  }

  lemma ModShift(x: int, m: int, g: nat)
    requires g > 0
    ensures (x + m * g) % g == x % g
  {
    var q := x / g;
    assert x == q * g + x % g;
    Distribute(q, -m, g);
    ModUnique(x + m * g, q + m, x % g, g);
  }

  lemma ModUnique(x: int, q: int, r: int, g: nat)
    requires g > 0 && x == q * g + r && 0 <= r < g
    ensures x % g == r && x / g == q
  {
    var q' := x / g;
    assert x == q' * g + x % g;
    Distribute(q, q', g);
    MulBounds(q - q', g);
  }

  lemma CoverAlgebra(size: nat, step: nat, g: nat, length: nat, turns: nat, u: int, v: int, t: int, w: int, l: int)
    requires size == length * g && step == turns * g && u * step + v * size == g
    ensures t * g - (t * u - w * length) * step + l * size == (t * v + w * turns + l) * size
  {
    calc {
      t * g;
      t * (u * step) + t * (v * size);
      { SwapFactors(t, u, step); SwapFactors(t, v, size); }
      (t * u) * step + (t * v) * size;
    }
    Distribute(t * u, w * length, step);
    assert (w * length) * step == (w * turns) * size by {
      SwapFactors(w, length, step);
      CycleLength(size, step, g, length, turns);
      SwapFactors(w, turns, size);
    }
    Distribute(t * v, -(w * turns), size);
    Distribute(t * v + w * turns, -l, size);
  }

  lemma SameClass(x: nat, y: nat, g: nat) returns (t: int)
    requires g > 0 && x % g == y % g
    ensures y - x == t * g
  {
    t := y / g - x / g;
    Distribute(y / g, x / g, g);
  }

  lemma Reduce(x: int, length: nat) returns (j: nat, w: int)
    requires length > 0
    ensures j < length && j == x - w * length
  {
    j, w := x % length, x / length;
  }

  /** Every position of the start's residue class is met before the walk closes. */
  lemma WalkCovers(size: nat, step: nat, g: nat, length: nat, turns: nat, u: int, v: int, q: nat, target: nat)
    returns (j: nat)
    requires Circle(size, step, g, length, turns, u, v)
    requires q < size && target < size && q % g == target % g
    ensures j < length && Walk(size, step, q, j) == target
  {
    var t := SameClass(q, target, g);
    MulBounds(length, g);
    var w;
    j, w := Reduce(t * u, length);
    WalkClosedForm(size, step, q, j);
    var l := Laps(size, step, q, j);
    CoverAlgebra(size, step, g, length, turns, u, v, t, w, l);
    SamePosition(size, target, Walk(size, step, q, j), t * v + w * turns + l);
  }
}
