/** Exactly when the linear map of the pose springs stays bounded from every start
    (packages/avatar-sdk/src/behavior-state-machine.ts). */
module SpringStability {
  import opened SpringArithmetic
  import opened SpringEnergy

  // ----- Stability of a linear map -----

  predicate Small(s: Pair, bound: real) { Abs(s.y) <= bound && Abs(s.p) <= bound }

  ghost predicate StaysWithin(a: real, b: real, s: Pair, bound: real) {
    forall n: nat :: Small(Iterate(a, b, s, n), bound)
  }

  ghost predicate BoundedFrom(a: real, b: real, s: Pair) {
    exists bound: real :: StaysWithin(a, b, s, bound)
  }

  /** No start makes the substepped spring run away. */
  ghost predicate Stable(a: real, b: real) {
    forall s: Pair :: BoundedFrom(a, b, s)
  }

  // ----- Inside the range -----

  function EnergyBound(factor: real, margin: real, energy: real): real
    requires margin > 0.0
  {
    1.0 + factor * energy / margin
  }

  lemma SquareBounded(margin: real, x: real, factor: real, e: real, e0: real)
    requires margin > 0.0 && factor >= 0.0 && margin * (x * x) <= factor * e && e <= e0
    ensures Abs(x) <= EnergyBound(factor, margin, e0)
  {
    var limit := factor * e0;
    MulMono(factor, e, e0);
    BelowQuotient(margin, x * x, limit, limit / margin);
    BoundFromSquare(x, limit / margin);
  }

  lemma BelowQuotient(margin: real, square: real, limit: real, quotient: real)
    requires margin > 0.0 && margin * square <= limit && quotient == limit / margin
    ensures square <= quotient
  {
    MulDivide(margin, limit);
    MulCancel(margin, square, quotient);
  }

  lemma EnergyBoundsDistances(k: real, a: real, margin: real, s: Pair, t: Pair)
    requires 0.0 < k < 1.0 && margin > 0.0 && margin == 4.0 * (1.0 - k) * (1.0 - k) - a * a
    requires Energy(k, a, t) <= Energy(k, a, s)
    ensures Small(t, EnergyBound(4.0 * (1.0 - k), margin, Energy(k, a, s)))
  {
    EnergyBoundsBoth(k, a, t);
    SquareBounded(margin, t.y, 4.0 * (1.0 - k), Energy(k, a, t), Energy(k, a, s));
    SquareBounded(margin, t.p, 4.0 * (1.0 - k), Energy(k, a, t), Energy(k, a, s));
  }

  lemma InsideStays(k: real, a: real, b: real, margin: real, s: Pair, bound: real)
    requires 0.0 < k < 1.0 && margin > 0.0 && margin == 4.0 * (1.0 - k) * (1.0 - k) - a * a
    requires b == 1.0 - 2.0 * k && bound == EnergyBound(4.0 * (1.0 - k), margin, Energy(k, a, s))
    ensures StaysWithin(a, b, s, bound)
  {
    forall n: nat
      ensures Small(Iterate(a, b, s, n), bound)
    {
      EnergyNeverGrows(k, a, s, n);
      EnergyBoundsDistances(k, a, margin, s, Iterate(a, b, s, n));
    }
  }

  lemma StableInside(k: real, a: real, b: real, margin: real)
    requires 0.0 < k < 1.0 && margin > 0.0 && margin == 4.0 * (1.0 - k) * (1.0 - k) - a * a
    requires b == 1.0 - 2.0 * k
    ensures Stable(a, b)
  {
    forall s: Pair
      ensures BoundedFrom(a, b, s)
    {
      InsideStays(k, a, b, margin, s, EnergyBound(4.0 * (1.0 - k), margin, Energy(k, a, s)));
    }
  }

  // ----- At the end of the range -----

  lemma Contract(b: real, x: real, z: real)
    requires -1.0 <= b <= 1.0 && z == b * x
    ensures Abs(z) <= Abs(x)
  {
    if x >= 0.0 {
      MulMono(x, b, 1.0);
      MulMono(x, 0.0 - 1.0, b);
      assert x * b == z;
    } else {
      MulMono(0.0 - x, b, 1.0);
      MulMono(0.0 - x, 0.0 - 1.0, b);
      Negate(x, b);
      assert x * b == z;
    }
  }

  function Lead(b: real, s: Pair): real { s.y + b * s.p }

  function Total(s: Pair): real { s.y + s.p }

  lemma EdgeStep(a: real, b: real, u: Pair)
    requires a == 0.0 - 1.0 - b
    ensures Lead(b, Next(a, b, u)) == 0.0 - Lead(b, u)
    ensures Total(Next(a, b, u)) == 0.0 - b * Total(u)
  {
    assert a * u.y == 0.0 - u.y - b * u.y;
    assert b * (u.y + u.p) == b * u.y + b * u.p;
  }

  /** One combination of the distances only changes sign, another never grows. */
  predicate EdgeKept(b: real, lead: real, total: real, t: Pair) {
    Abs(Lead(b, t)) <= lead && Abs(Total(t)) <= total
  }

  lemma EdgeKeptByStep(a: real, b: real, lead: real, total: real, u: Pair, t: Pair)
    requires a == 0.0 - 1.0 - b && -1.0 <= b < 1.0 && EdgeKept(b, lead, total, u) && t == Next(a, b, u)
    ensures EdgeKept(b, lead, total, t)
  {
    EdgeStep(a, b, u);
    Contract(b, Total(u), b * Total(u));
  }

  lemma {:induction false} EdgeInvariants(a: real, b: real, s: Pair, n: nat)
    requires a == 0.0 - 1.0 - b && -1.0 <= b < 1.0
    ensures EdgeKept(b, Abs(Lead(b, s)), Abs(Total(s)), Iterate(a, b, s, n))
  {
    if n > 0 {
      EdgeInvariants(a, b, s, n - 1);
      EdgeKeptByStep(a, b, Abs(Lead(b, s)), Abs(Total(s)), Iterate(a, b, s, n - 1), Iterate(a, b, s, n));
    }
  }

  function EdgeBound(b: real, lead: real, total: real): real
    requires b < 1.0
  {
    (lead + total) / (1.0 - b) + total
  }

  lemma SolveForLag(f: real, p: real, total: real)
    requires f > 0.0 && Abs(f * p) <= total
    ensures Abs(p) <= total / f
  {
    MulDivide(f, total);
    MulCancel(f, p, total / f);
    Negate(f, total / f);
    MulCancel(f, 0.0 - total / f, p);
  }

  lemma LagFromLead(b: real, t: Pair)
    ensures (1.0 - b) * t.p == Total(t) - Lead(b, t)
  {}

  lemma EdgeBoundsDistances(b: real, lead: real, total: real, t: Pair)
    requires b < 1.0 && EdgeKept(b, lead, total, t)
    ensures Small(t, EdgeBound(b, lead, total))
  {
    LagFromLead(b, t);
    SolveForLag(1.0 - b, t.p, lead + total);
  }

  lemma EdgeStays(a: real, b: real, s: Pair, bound: real)
    requires a == 0.0 - 1.0 - b && -1.0 <= b < 1.0
    requires bound == EdgeBound(b, Abs(Lead(b, s)), Abs(Total(s)))
    ensures StaysWithin(a, b, s, bound)
  {
    forall n: nat
      ensures Small(Iterate(a, b, s, n), bound)
    {
      EdgeInvariants(a, b, s, n);
      EdgeBoundsDistances(b, Abs(Lead(b, s)), Abs(Total(s)), Iterate(a, b, s, n));
    }
  }

  lemma StableAtEdge(a: real, b: real)
    requires a == 0.0 - 1.0 - b && -1.0 <= b < 1.0
    ensures Stable(a, b)
  {
    forall s: Pair
      ensures BoundedFrom(a, b, s)
    {
      EdgeStays(a, b, s, EdgeBound(b, Abs(Lead(b, s)), Abs(Total(s))));
    }
  }

  // ----- Beyond the range -----

  /** Distances of opposite sign, both at least `m` in size. */
  predicate Opposed(s: Pair, m: real) {
    (s.y <= 0.0 - m && s.p >= m) || (s.y >= m && s.p <= 0.0 - m)
  }

  lemma WeightedSum(alpha: real, beta: real, c: real, x: real, y: real, m: real)
    requires alpha > 0.0 && beta > 0.0 && c == alpha + beta && x >= m && y >= m
    ensures alpha * x + beta * y >= c * m
  {
    MulMono(alpha, m, x);
    MulMono(beta, m, y);
    Distribute(m, alpha, beta);
    assert m * c == m * (alpha + beta);
  }

  /** The sizes after one and after two substeps. */
  lemma SizesGrow(alpha: real, beta: real, c: real, x: real, y: real, m: real, x1: real, x2: real)
    requires alpha > 0.0 && beta > 0.0 && c == alpha + beta && c > 1.0 && m > 0.0 && x >= m && y >= m
    requires x1 == alpha * x + beta * y && x2 == alpha * x1 + beta * x
    ensures x1 >= c * m && x2 >= c * m
  {
    WeightedSum(alpha, beta, c, x, y, m);
    MulMono(m, 1.0, c);
    WeightedSum(alpha, beta, c, x1, x, m);
  }

  lemma NextBySigns(alpha: real, beta: real, s: Pair)
    ensures Next(0.0 - alpha, 0.0 - beta, s).y == alpha * (0.0 - s.y) + beta * s.p
    ensures 0.0 - Next(0.0 - alpha, 0.0 - beta, s).y == alpha * s.y + beta * (0.0 - s.p)
  {
    Negate(alpha, s.y);
    Negate(beta, s.p);
  }

  /** Two substeps multiply opposed distances by at least c = alpha + beta. */
  lemma OpposedGrows(alpha: real, beta: real, c: real, s: Pair, m: real, t: Pair, u: Pair)
    requires alpha > 0.0 && beta > 0.0 && c == alpha + beta && c > 1.0 && m > 0.0 && Opposed(s, m)
    requires t == Next(0.0 - alpha, 0.0 - beta, s) && u == Next(0.0 - alpha, 0.0 - beta, t)
    ensures Opposed(u, c * m)
  {
    NextBySigns(alpha, beta, s);
    NextBySigns(alpha, beta, t);
    if s.y <= 0.0 - m {
      SizesGrow(alpha, beta, c, 0.0 - s.y, s.p, m, t.y, 0.0 - u.y);
    } else {
      SizesGrow(alpha, beta, c, s.y, 0.0 - s.p, m, 0.0 - t.y, u.y);
    }
  }

  function Reach(g: real, n: nat): real { 1.0 + (n as real) * g }

  lemma ReachGrows(g: real, c: real, n: nat)
    requires g > 0.0 && c == 1.0 + g
    ensures Reach(g, n) >= 1.0
    ensures c * Reach(g, n) >= Reach(g, n + 1)
  {
    var x := (n as real) * g;
    ProductNonNegative(n as real, g);
    ProductNonNegative(g, x);
    assert ((n + 1) as real) * g == x + g;
    Distribute(c, 1.0, x);
    assert c * x == x + g * x;
  }

  lemma OpposedWeaker(s: Pair, m: real, n: real)
    requires Opposed(s, m) && n <= m
    ensures Opposed(s, n)
  {}

  lemma OpposedAdvances(alpha: real, beta: real, c: real, s: Pair, t: Pair, u: Pair, m: real, m1: real)
    requires alpha > 0.0 && beta > 0.0 && c == alpha + beta && c > 1.0 && m > 0.0 && Opposed(s, m) && m1 <= c * m
    requires t == Next(0.0 - alpha, 0.0 - beta, s) && u == Next(0.0 - alpha, 0.0 - beta, t)
    ensures Opposed(u, m1)
  {
    OpposedGrows(alpha, beta, c, s, m, t, u);
    OpposedWeaker(u, c * m, m1);
  }

  lemma OpposedExtends(alpha: real, beta: real, s: Pair, n: nat, m: real, m1: real)
    requires alpha > 0.0 && beta > 0.0 && alpha + beta > 1.0 && m > 0.0 && m1 <= (alpha + beta) * m
    requires Opposed(Iterate(0.0 - alpha, 0.0 - beta, s, n), m)
    ensures Opposed(Iterate(0.0 - alpha, 0.0 - beta, s, n + 2), m1)
  {
    TwoMore(0.0 - alpha, 0.0 - beta, s, n);
    var earlier := Iterate(0.0 - alpha, 0.0 - beta, s, n);
    OpposedAdvances(alpha, beta, alpha + beta, earlier, Next(0.0 - alpha, 0.0 - beta, earlier),
                    Iterate(0.0 - alpha, 0.0 - beta, s, n + 2), m, m1);
  }

  lemma OpposedStep(alpha: real, beta: real, g: real, s: Pair, n: nat, m: nat, reach: real, next: real)
    requires alpha > 0.0 && beta > 0.0 && g > 0.0 && alpha + beta == 1.0 + g
    requires reach == Reach(g, n) && next == Reach(g, n + 1) && Opposed(Iterate(0.0 - alpha, 0.0 - beta, s, m), reach)
    ensures Opposed(Iterate(0.0 - alpha, 0.0 - beta, s, m + 2), next)
  {
    ReachGrows(g, alpha + beta, n);
    OpposedExtends(alpha, beta, s, m, reach, next);
  }

  lemma {:induction false} OpposedForever(alpha: real, beta: real, g: real, s: Pair, n: nat)
    requires alpha > 0.0 && beta > 0.0 && g > 0.0 && alpha + beta == 1.0 + g && Opposed(s, 1.0)
    ensures Opposed(Iterate(0.0 - alpha, 0.0 - beta, s, 2 * n), Reach(g, n))
  {
    if n > 0 {
      OpposedForever(alpha, beta, g, s, n - 1);
      OpposedStep(alpha, beta, g, s, n - 1, 2 * (n - 1), Reach(g, n - 1), Reach(g, n));
    }
  }

  lemma TwoMore(a: real, b: real, s: Pair, n: nat)
    ensures Iterate(a, b, s, n + 2) == Next(a, b, Next(a, b, Iterate(a, b, s, n)))
  {
    assert Iterate(a, b, s, n + 2) == Next(a, b, Iterate(a, b, s, n + 1));
  }

  lemma PassesAnyBound(g: real, bound: real) returns (n: nat)
    requires g > 0.0 && bound >= 0.0
    ensures Reach(g, n) > bound
  {
    n := (bound / g).Floor + 1;
    MulMono(g, bound / g, n as real);
    MulDivide(g, bound);
  }

  lemma UnstableBeyond(a: real, b: real, s: Pair)
    requires a < 0.0 && b < 0.0 && (0.0 - a) + (0.0 - b) > 1.0 && s == Pair(-1.0, 1.0)
    ensures !BoundedFrom(a, b, s)
  {
    var alpha, beta := 0.0 - a, 0.0 - b;
    var g := alpha + beta - 1.0;
    forall bound: real
      ensures !StaysWithin(a, b, s, bound)
    {
      var n := PassesAnyBound(g, Abs(bound));
      OpposedForever(alpha, beta, g, s, n);
      assert !Small(Iterate(a, b, s, 2 * n), bound);
    }
  }

  // ----- The exact condition -----

  lemma MarginFactored(k: real, left: real)
    requires left == 4.0 - 4.0 * k - k * k
    ensures 4.0 * (1.0 - k) * (1.0 - k) - A(k) * A(k) == (k * k) * left
  {}

  lemma MarginPositive(k: real, kk: real, left: real)
    requires kk == k * k && kk > 0.0 && left > 0.0 && left == 4.0 - 4.0 * k - kk
    ensures 4.0 * (1.0 - k) * (1.0 - k) - A(k) * A(k) > 0.0
  {
    MarginFactored(k, left);
    assert (k * k) * left == kk * left;
    ProductPositive(kk, left, kk * left);
  }

  lemma BeyondSigns(k: real, kk: real)
    requires 0.0 < k && kk == k * k && kk + 4.0 * k > 4.0
    ensures A(k) < 0.0 && B(k) < 0.0 && (0.0 - A(k)) + (0.0 - B(k)) > 1.0
  {
    if k >= 1.0 {
      MulMono(k, 1.0, k);
    } else {
      MulMono(k, k, 1.0);
    }
  }

  lemma StableBelow(k: real, kk: real)
    requires 0.0 < k && kk == k * k && kk > 0.0 && kk + 4.0 * k < 4.0
    ensures Stable(A(k), B(k))
  {
    MarginPositive(k, kk, 4.0 - 4.0 * k - kk);
    StableInside(k, A(k), B(k), 4.0 * (1.0 - k) * (1.0 - k) - A(k) * A(k));
  }

  /** The substepped spring stays bounded from every start if and only if
      k * k + 4 * k <= 4, that is k <= 2 * sqrt(2) - 2, for k = omega * h. */
  lemma StableExactly(k: real)
    requires 0.0 < k
    ensures Stable(A(k), B(k)) <==> k * k + 4.0 * k <= 4.0
  {
    var kk := k * k;
    ProductPositive(k, k, kk);
    if kk + 4.0 * k < 4.0 {
      StableBelow(k, kk);
    } else if kk + 4.0 * k == 4.0 {
      StableAtEdge(A(k), B(k));
    } else {
      BeyondSigns(k, kk);
      UnstableBeyond(A(k), B(k), Pair(-1.0, 1.0));
    }
  }
}
