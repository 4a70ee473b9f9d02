/** The pose springs when their target moves, and how fast they come to it when it
    does not (packages/avatar-sdk/src/behavior-state-machine.ts). */
module SpringTargets {
  import opened SpringArithmetic
  import opened SpringIntegrator
  import opened SpringFrames

  // ----- Value and lead -----

  /** The value, and the value plus velocity over frequency: where a critically
      damped spring is heading. */
  datatype Lead = Lead(x: real, z: real)

  function Mean(p: real, q: real, r: real, x: real, z: real, t: real): real { p * x + q * z + r * t }

  /** A substep with k = omega * h and kk = k * k: what value, lead and target weigh
      in the new value and in the new lead. */
  function Step(k: real, kk: real, s: Lead, target: real): Lead {
    Lead(Mean(1.0 - k + kk, k - 2.0 * kk, kk, s.x, s.z, target),
         Mean(kk, 1.0 - k - 2.0 * kk, k + kk, s.x, s.z, target))
  }

  function LeadOf(m: Motion, omega: real): Lead
    requires omega > 0.0
  {
    Lead(m.value, m.value + m.velocity / omega)
  }

  function LeadAt(s: Swing, target: real): Lead { Lead(target + s.y, target + s.y + s.w) }

  lemma NextLeads(k: real, s: Swing, target: real)
    ensures LeadAt(Next(k, s), target) == Step(k, k * k, LeadAt(s, target), target)
  {}

  lemma LeadFromSwing(m: Motion, target: real, omega: real)
    requires omega > 0.0
    ensures LeadOf(m, omega) == LeadAt(SwingOf(m, target, omega), target)
  {}

  lemma LeadsFollow(m: Motion, m1: Motion, target: real, omega: real, k: real)
    requires omega > 0.0 && SwingOf(m1, target, omega) == Next(k, SwingOf(m, target, omega))
    ensures LeadOf(m1, omega) == Step(k, k * k, LeadOf(m, omega), target)
  {
    LeadFromSwing(m, target, omega);
    LeadFromSwing(m1, target, omega);
    NextLeads(k, SwingOf(m, target, omega), target);
  }

  lemma SubstepLeads(m: Motion, target: real, omega: real, h: real, k: real)
    requires omega > 0.0 && k == omega * h
    ensures LeadOf(Substep(m, target, omega, h), omega) == Step(k, k * k, LeadOf(m, omega), target)
  {
    hide Step, LeadOf, Substep;
    SubstepSwings(m, target, omega, h);
    LeadsFollow(m, Substep(m, target, omega, h), target, omega, k);
  }

  // ----- Between the targets -----

  predicate In(lo: real, hi: real, x: real) { lo <= x <= hi }

  predicate Between(lo: real, hi: real, s: Lead) { In(lo, hi, s.x) && In(lo, hi, s.z) }

  /** A substep leaves no interval that holds value, lead and target. */
  ghost predicate KeepsBetween(k: real) {
    forall lo, hi, s: Lead, target :: Between(lo, hi, s) && In(lo, hi, target) ==> Between(lo, hi, Step(k, k * k, s, target))
  }

  lemma MeanAtLeast(a: real, b: real, c: real, x: real, y: real, z: real, lo: real)
    requires a >= 0.0 && b >= 0.0 && c >= 0.0 && lo <= x && lo <= y && lo <= z
    ensures a * x + b * y + c * z >= (a + b + c) * lo
  {
    ProductNonNegative(a, x - lo);
    ProductNonNegative(b, y - lo);
    ProductNonNegative(c, z - lo);
  }

  lemma WeightedMean(a: real, b: real, c: real, x: real, y: real, z: real, lo: real, hi: real)
    requires a >= 0.0 && b >= 0.0 && c >= 0.0 && a + b + c == 1.0
    requires In(lo, hi, x) && In(lo, hi, y) && In(lo, hi, z)
    ensures In(lo, hi, Mean(a, b, c, x, y, z))
  {
    MeanAtLeast(a, b, c, x, y, z, lo);
    MeanAtLeast(a, b, c, 0.0 - x, 0.0 - y, 0.0 - z, 0.0 - hi);
  }

  lemma SquareUnder(k: real, kk: real, most: real)
    requires 0.0 < k <= most && kk == k * k
    ensures 0.0 < kk <= most * k
  {
    ProductPositive(k, k, kk);
    MulMono(k, k, most);
  }

  lemma StaysBetween(k: real, kk: real, lo: real, hi: real, s: Lead, target: real)
    requires 0.0 < k && 2.0 * k <= 1.0 && kk == k * k && Between(lo, hi, s) && In(lo, hi, target)
    ensures Between(lo, hi, Step(k, kk, s, target))
  {
    hide Mean;
    SquareUnder(k, kk, 0.5);
    WeightedMean(1.0 - k + kk, k - 2.0 * kk, kk, s.x, s.z, target, lo, hi);
    WeightedMean(kk, 1.0 - k - 2.0 * kk, k + kk, s.x, s.z, target, lo, hi);
  }

  /** With a longer substep the value overshoots a target it stands at while it
      moves away from it. */
  lemma Overshoots(k: real, kk: real)
    requires 2.0 * k > 1.0 && kk == k * k
    ensures !In(0.0, 1.0, Step(k, kk, Lead(1.0, 0.0), 1.0).x)
  {
    ProductPositive(k, 2.0 * k - 1.0, k * (2.0 * k - 1.0));
    assert k * (2.0 * k - 1.0) == 2.0 * kk - k;
  }

  /** Value and lead never leave the range of the targets, once they are in it, if and
      only if k is at most one half. */
  lemma KeepsBetweenExactly(k: real)
    requires k > 0.0
    ensures KeepsBetween(k) <==> 2.0 * k <= 1.0
  {
    if 2.0 * k <= 1.0 {
      forall lo, hi, s: Lead, target | Between(lo, hi, s) && In(lo, hi, target)
        ensures Between(lo, hi, Step(k, k * k, s, target))
      {
        StaysBetween(k, k * k, lo, hi, s, target);
      }
    } else {
      Overshoots(k, k * k);
      assert Between(0.0, 1.0, Lead(1.0, 0.0)) && In(0.0, 1.0, 1.0);
      assert !Between(0.0, 1.0, Step(k, k * k, Lead(1.0, 0.0), 1.0));
    }
  }

  // ----- Bounded targets -----

  lemma AbsProduct(p: real, x: real, bound: real)
    requires Abs(x) <= bound
    ensures Abs(p * x) <= Abs(p) * bound
  {
    if p >= 0.0 {
      MulMono(p, x, bound);
      MulMono(p, 0.0 - bound, x);
      Negate(p, bound);
    } else {
      MulMono(0.0 - p, x, bound);
      MulMono(0.0 - p, 0.0 - bound, x);
      Negate(0.0 - p, bound);
      Negate(p, x);
    }
  }

  lemma SumWithin(x: real, y: real, z: real, a: real, b: real, c: real)
    requires Abs(x) <= a && Abs(y) <= b && Abs(z) <= c
    ensures Abs(x + y + z) <= a + b + c
  {}

  /** Factors that weigh at most one in all. */
  lemma ThreeTerms(p: real, q: real, r: real, x: real, z: real, t: real, a: real)
    requires a >= 0.0 && Abs(x) <= a && Abs(z) <= a && Abs(t) <= a / 6.0 && Abs(p) + Abs(q) + Abs(r) / 6.0 <= 1.0
    ensures Abs(Mean(p, q, r, x, z, t)) <= a
  {
    hide Abs;
    AbsProduct(p, x, a);
    AbsProduct(q, z, a);
    AbsProduct(r, t, a / 6.0);
    SharesOf(Abs(p), Abs(q), Abs(r), a);
    SumWithin(p * x, q * z, r * t, Abs(p) * a, Abs(q) * a, Abs(r) * (a / 6.0));
  }

  lemma SharesOf(p: real, q: real, r: real, a: real)
    requires a >= 0.0 && p + q + r / 6.0 <= 1.0
    ensures p * a + q * a + r * (a / 6.0) <= a
  {
    MulMono(a, p + q + r / 6.0, 1.0);
    assert a * (p + q + r / 6.0) == p * a + q * a + r * (a / 6.0);
  }

  predicate Inside(a: real, s: Lead) { Abs(s.x) <= a && Abs(s.z) <= a }

  lemma LongFactors(k: real, kk: real)
    requires 0.5 < k <= 0.63 && 0.5 * k <= kk <= 0.63 * k
    ensures Abs(1.0 - k + kk) + Abs(k - 2.0 * kk) + Abs(kk) / 6.0 <= 1.0
    ensures Abs(kk) + Abs(1.0 - k - 2.0 * kk) + Abs(k + kk) / 6.0 <= 1.0
  {}

  lemma LongStepInside(k: real, kk: real, a: real, s: Lead, target: real)
    requires 0.5 < k <= 0.63 && 0.5 * k <= kk <= 0.63 * k && a >= 0.0 && Inside(a, s) && Abs(target) <= a / 6.0
    ensures Inside(a, Step(k, kk, s, target))
  {
    hide Abs, Mean;
    LongFactors(k, kk);
    ThreeTerms(1.0 - k + kk, k - 2.0 * kk, kk, s.x, s.z, target, a);
    ThreeTerms(kk, 1.0 - k - 2.0 * kk, k + kk, s.x, s.z, target, a);
  }

  lemma ShortStepInside(k: real, kk: real, a: real, s: Lead, target: real)
    requires 0.0 < k <= 0.5 && kk == k * k && Inside(a, s) && Abs(target) <= a
    ensures Inside(a, Step(k, kk, s, target))
  {
    StaysBetween(k, kk, 0.0 - a, a, s, target);
  }

  lemma StaysInside(k: real, kk: real, a: real, s: Lead, target: real)
    requires 0.0 < k <= 0.63 && kk == k * k && Inside(a, s) && Abs(target) <= a / 6.0
    ensures Inside(a, Step(k, kk, s, target))
  {
    if k <= 0.5 {
      ShortStepInside(k, kk, a, s, target);
    } else {
      SquareUnder(k, kk, 0.63);
      MulMono(k, 0.5, k);
      LongStepInside(k, kk, a, s, target);
    }
  }

  // ----- Frames that each have their own target -----

  datatype Leg = Leg(delta: real, target: real)

  function Chase(m: Motion, omega: real, legs: seq<Leg>): Motion {
    if legs == [] then m
    else
      var last := legs[|legs| - 1];
      Frame(Chase(m, omega, legs[..|legs| - 1]), last.target, omega, last.delta)
  }

  lemma {:induction false} SubstepsBetween(m: Motion, target: real, omega: real, h: real, k: real, n: nat, lo: real, hi: real)
    requires omega > 0.0 && k == omega * h && KeepsBetween(k) && Between(lo, hi, LeadOf(m, omega)) && In(lo, hi, target)
    ensures Between(lo, hi, LeadOf(Substeps(m, target, omega, h, n), omega))
  {
    hide Substep, Step, LeadOf;
    if n > 0 {
      var before := Substeps(m, target, omega, h, n - 1);
      SubstepsBetween(m, target, omega, h, k, n - 1, lo, hi);
      SubstepLeads(before, target, omega, h, k);
      assert Between(lo, hi, Step(k, k * k, LeadOf(before, omega), target));
    }
  }

  lemma {:induction false} ChaseBetween(m: Motion, omega: real, legs: seq<Leg>, lo: real, hi: real)
    requires omega > 0.0 && (forall delta: real :: delta > 0.0 ==> KeepsBetween(StepAngle(omega, delta)))
    requires Between(lo, hi, LeadOf(m, omega)) && forall i :: 0 <= i < |legs| ==> In(lo, hi, legs[i].target)
    ensures Between(lo, hi, LeadOf(Chase(m, omega, legs), omega))
    decreases |legs|
  {
    if legs != [] {
      var earlier, last := legs[..|legs| - 1], legs[|legs| - 1];
      ChaseBetween(m, omega, earlier, lo, hi);
      if last.delta > 0.0 {
        SubstepsBetween(Chase(m, omega, earlier), last.target, omega, SubstepLength(last.delta),
                        StepAngle(omega, last.delta), SubstepCount(last.delta), lo, hi);
      }
    }
  }

  lemma SlowAngle(channel: Channel, pi: real, omega: real, delta: real)
    requires channel !in {EyeX, EyeY, EyeOpen} && 3.14 < pi < 3.15 && omega == pi * 2.0 * Response(channel) && delta > 0.0
    ensures 0.0 < StepAngle(omega, delta) <= 0.5
  {
    SubstepsFillFrame(delta);
    FrequencyTimesStep(pi, Response(channel), 8.0, SubstepLength(delta), LONGEST_SUBSTEP);
  }

  lemma SlowChannelKeepsBetween(channel: Channel, pi: real, omega: real, delta: real)
    requires channel !in {EyeX, EyeY, EyeOpen} && 3.14 < pi < 3.15 && omega == pi * 2.0 * Response(channel) && delta > 0.0
    ensures KeepsBetween(StepAngle(omega, delta))
  {
    hide Step, StepAngle;
    SlowAngle(channel, pi, omega, delta);
    KeepsBetweenExactly(StepAngle(omega, delta));
  }

  /** All channels but the eyes, outside interrupted mode: over frames of any lengths,
      towards targets that move as they like, the value never leaves a range that
      holds all targets, the value and the lead it started with. */
  lemma SlowChannelsStayBetween(channel: Channel, pi: real, omega: real, m: Motion, legs: seq<Leg>, lo: real, hi: real)
    requires channel !in {EyeX, EyeY, EyeOpen} && 3.14 < pi < 3.15 && omega == pi * 2.0 * Response(channel) && omega > 0.0
    requires Between(lo, hi, LeadOf(m, omega)) && forall i :: 0 <= i < |legs| ==> In(lo, hi, legs[i].target)
    ensures In(lo, hi, Chase(m, omega, legs).value)
  {
    forall delta: real | delta > 0.0
      ensures KeepsBetween(StepAngle(omega, delta))
    {
      SlowChannelKeepsBetween(channel, pi, omega, delta);
    }
    ChaseBetween(m, omega, legs, lo, hi);
  }

  lemma {:induction false} SubstepsInside(m: Motion, target: real, omega: real, h: real, k: real, n: nat, a: real)
    requires omega > 0.0 && k == omega * h && 0.0 < k <= 0.63
    requires Inside(a, LeadOf(m, omega)) && Abs(target) <= a / 6.0
    ensures Inside(a, LeadOf(Substeps(m, target, omega, h, n), omega))
  {
    hide Substep, Step, LeadOf, Abs;
    if n > 0 {
      var before := Substeps(m, target, omega, h, n - 1);
      SubstepsInside(m, target, omega, h, k, n - 1, a);
      SubstepLeads(before, target, omega, h, k);
      StaysInside(k, k * k, a, LeadOf(before, omega), target);
    }
  }

  lemma FrameInside(response: real, pi: real, omega: real, m: Motion, leg: Leg, a: real)
    requires 2.1 <= response <= 12.0 && 3.14 < pi < 3.15 && omega == pi * 2.0 * response && omega > 0.0
    requires Inside(a, LeadOf(m, omega)) && Abs(leg.target) <= a / 6.0
    ensures Inside(a, LeadOf(Frame(m, leg.target, omega, leg.delta), omega))
  {
    if leg.delta > 0.0 {
      StepAngleSmall(response, pi, omega, leg.delta);
      SubstepsInside(m, leg.target, omega, SubstepLength(leg.delta), StepAngle(omega, leg.delta), SubstepCount(leg.delta), a);
    }
  }

  /** Every channel but eyeOpen, over frames of any lengths: while the targets stay
      within a sixth of the value's bound, the value stays within that bound. */
  lemma {:induction false} ChannelsFollowTargets(channel: Channel, interrupted: bool, pi: real, omega: real, m: Motion,
                                                 legs: seq<Leg>, a: real)
    requires channel != EyeOpen && 3.14 < pi < 3.15 && omega == pi * 2.0 * ResponseIn(channel, interrupted) && omega > 0.0
    requires Inside(a, LeadOf(m, omega)) && forall i :: 0 <= i < |legs| ==> Abs(legs[i].target) <= a / 6.0
    ensures Inside(a, LeadOf(Chase(m, omega, legs), omega))
    decreases |legs|
  {
    if legs != [] {
      hide LeadOf, Abs;
      var earlier, last := legs[..|legs| - 1], legs[|legs| - 1];
      ChannelsFollowTargets(channel, interrupted, pi, omega, m, earlier, a);
      FrameInside(ResponseIn(channel, interrupted), pi, omega, Chase(m, omega, earlier), last, a);
    }
  }

  // ----- A target that stays -----

  /** Distances of value and lead from the target. */
  predicate Around(a: real, s: Lead, target: real) { Abs(s.x - target) <= a && Abs(s.z - target) <= 0.8 * a }

  lemma MeanFromTarget(p: real, q: real, r: real, y: real, d: real, target: real)
    requires p + q + r == 1.0
    ensures Mean(p, q, r, target + y, target + d, target) == target + Mean(p, q, 0.0, y, d, 0.0)
  {
    assert r == 1.0 - p - q;
  }

  lemma TwoTerms(p: real, q: real, y: real, d: real, a: real, share: real)
    requires a >= 0.0 && Abs(y) <= a && Abs(d) <= 0.8 * a && Abs(p) + 0.8 * Abs(q) <= share
    ensures Abs(Mean(p, q, 0.0, y, d, 0.0)) <= share * a
  {
    assert Abs(0.0) <= 0.0;
    hide Abs;
    AbsProduct(p, y, a);
    AbsProduct(q, d, 0.8 * a);
    PairOfShares(Abs(p), Abs(q), a, share);
    SumWithin(p * y, q * d, 0.0, Abs(p) * a, Abs(q) * (0.8 * a), 0.0);
  }

  lemma PairOfShares(p: real, q: real, a: real, share: real)
    requires a >= 0.0 && p + 0.8 * q <= share
    ensures p * a + q * (0.8 * a) <= share * a
  {
    MulMono(a, p + 0.8 * q, share);
    assert a * (p + 0.8 * q) == p * a + q * (0.8 * a);
  }

  lemma CloserFactors(k: real, kk: real)
    requires 0.0 < k <= 0.63 && 0.0 < kk <= 0.63 * k && (if k <= 0.5 then kk <= 0.5 * k else 0.5 * k <= kk)
    ensures Abs(1.0 - k + kk) + 0.8 * Abs(k - 2.0 * kk) <= 1.0 - k / 10.0
    ensures Abs(kk) + 0.8 * Abs(1.0 - k - 2.0 * kk) <= 0.8 * (1.0 - k / 10.0)
  {}

  lemma CloserBy(k: real, kk: real, a: real, y: real, d: real, target: real)
    requires 0.0 < k <= 0.63 && 0.0 < kk <= 0.63 * k && (if k <= 0.5 then kk <= 0.5 * k else 0.5 * k <= kk)
    requires a >= 0.0 && Abs(y) <= a && Abs(d) <= 0.8 * a
    ensures Around((1.0 - k / 10.0) * a, Step(k, kk, Lead(target + y, target + d), target), target)
  {
    hide Abs, Mean;
    CloserFactors(k, kk);
    MeanFromTarget(1.0 - k + kk, k - 2.0 * kk, kk, y, d, target);
    MeanFromTarget(kk, 1.0 - k - 2.0 * kk, k + kk, y, d, target);
    TwoTerms(1.0 - k + kk, k - 2.0 * kk, y, d, a, 1.0 - k / 10.0);
    TwoTerms(kk, 1.0 - k - 2.0 * kk, y, d, a, 0.8 * (1.0 - k / 10.0));
    assert (0.8 * (1.0 - k / 10.0)) * a == 0.8 * ((1.0 - k / 10.0) * a);
  }

  /** One substep takes at least a tenth of k off both distances. */
  lemma ComesCloser(k: real, kk: real, a: real, closer: real, s: Lead, target: real)
    requires 0.0 < k <= 0.63 && kk == k * k && Around(a, s, target) && closer == (1.0 - k / 10.0) * a
    ensures Around(closer, Step(k, kk, s, target), target)
  {
    SquareUnder(k, kk, if k <= 0.5 then 0.5 else 0.63);
    if k > 0.5 {
      MulMono(k, 0.5, k);
    }
    CloserBy(k, kk, a, s.x - target, s.z - target, target);
  }

  lemma BoundFalls(b: real, g: real, c: real, closer: real)
    requires b >= 0.0 && g >= 1.0 && 0.0 <= c <= 1.0 && closer == (1.0 - c) * b
    ensures 0.0 <= closer && closer * (g + c) <= b * g
  {
    ProductNonNegative(b, c);
    ProductNonNegative(1.0 - c, b);
    ProductNonNegative(b * c, g + c - 1.0);
    assert ((1.0 - c) * b) * (g + c) == b * g - (b * c) * (g + c - 1.0);
  }

  /** The bound b that is left, times the progress g so far, has not grown. */
  predicate Closing(b: real, g: real, start: real, s: Lead, target: real) {
    b >= 0.0 && g >= 1.0 && b * g <= start && Around(b, s, target)
  }

  lemma ClosingStep(b: real, g: real, start: real, k: real, kk: real, s: Lead, target: real) returns (c: real)
    requires 0.0 < k <= 0.63 && kk == k * k && Closing(b, g, start, s, target)
    ensures Closing(c, g + k / 10.0, start, Step(k, kk, s, target), target)
  {
    hide Abs, Step;
    c := (1.0 - k / 10.0) * b;
    ComesCloser(k, kk, b, c, s, target);
    BoundFalls(b, g, k / 10.0, c);
  }

  lemma OneMore(n: nat, x: real)
    requires n > 0
    ensures (n - 1) as real * x + x == n as real * x
  {}

  lemma {:induction false} SubstepsClose(b: real, g: real, start: real, m: Motion, target: real, omega: real, h: real,
                                         k: real, n: nat) returns (c: real)
    requires omega > 0.0 && k == omega * h && 0.0 < k <= 0.63 && Closing(b, g, start, LeadOf(m, omega), target)
    ensures Closing(c, g + n as real * (k / 10.0), start, LeadOf(Substeps(m, target, omega, h, n), omega), target)
  {
    hide Substep, Step, LeadOf, Abs;
    if n == 0 {
      c := b;
    } else {
      var before := Substeps(m, target, omega, h, n - 1);
      var c0 := SubstepsClose(b, g, start, m, target, omega, h, k, n - 1);
      c := ClosingStep(c0, g + (n - 1) as real * (k / 10.0), start, k, k * k, LeadOf(before, omega), target);
      SubstepLeads(before, target, omega, h, k);
      OneMore(n, k / 10.0);
    }
  }

  /** The time that passes: frames without any do not count. */
  function Total(deltas: seq<real>): real {
    if deltas == [] then 0.0
    else
      var last := deltas[|deltas| - 1];
      Total(deltas[..|deltas| - 1]) + (if last > 0.0 then last else 0.0)
  }

  /** What the distance is divided by, at least. */
  function Progress(omega: real, deltas: seq<real>): real { 1.0 + omega * Total(deltas) / 10.0 }

  lemma ProgressOfFrame(omega: real, deltas: seq<real>)
    requires deltas != []
    ensures var earlier, last := deltas[..|deltas| - 1], deltas[|deltas| - 1];
      Progress(omega, deltas) == if last > 0.0 then Progress(omega, earlier) + omega * last / 10.0 else Progress(omega, earlier)
  {
    Distribute(omega, Total(deltas[..|deltas| - 1]), deltas[|deltas| - 1]);
  }

  lemma AnglesOfFrame(n: real, h: real, omega: real, delta: real)
    requires n * h == delta
    ensures n * ((omega * h) / 10.0) == omega * delta / 10.0
  {
    assert n * (omega * h) == omega * (n * h);
  }

  lemma FrameCloses(b: real, g: real, g1: real, start: real, response: real, pi: real, omega: real, m: Motion,
                    target: real, delta: real) returns (c: real)
    requires 2.1 <= response <= 12.0 && 3.14 < pi < 3.15 && omega == pi * 2.0 * response && omega > 0.0 && delta > 0.0
    requires Closing(b, g, start, LeadOf(m, omega), target) && g1 == g + omega * delta / 10.0
    ensures Closing(c, g1, start, LeadOf(Frame(m, target, omega, delta), omega), target)
  {
    hide Substeps, SubstepCount, SubstepLength, LeadOf, Abs;
    StepAngleSmall(response, pi, omega, delta);
    SubstepsFillFrame(delta);
    AnglesOfFrame(SubstepCount(delta) as real, SubstepLength(delta), omega, delta);
    c := SubstepsClose(b, g, start, m, target, omega, SubstepLength(delta), StepAngle(omega, delta), SubstepCount(delta));
  }

  /** A bound on both distances. */
  function Spread(s: Lead, target: real): real { Abs(s.x - target) + 1.25 * Abs(s.z - target) }

  lemma ClosingStarts(s: Lead, target: real)
    ensures Closing(Spread(s, target), 1.0, Spread(s, target), s, target)
  {}

  lemma {:induction false} FramesClose(response: real, pi: real, omega: real, m: Motion, target: real, deltas: seq<real>)
    returns (c: real)
    requires 2.1 <= response <= 12.0 && 3.14 < pi < 3.15 && omega == pi * 2.0 * response && omega > 0.0
    ensures Closing(c, Progress(omega, deltas), Spread(LeadOf(m, omega), target),
                    LeadOf(Frames(m, target, omega, deltas), omega), target)
    decreases |deltas|
  {
    if deltas == [] {
      c := Spread(LeadOf(m, omega), target);
      ClosingStarts(LeadOf(m, omega), target);
    } else {
      hide LeadOf, Frame, Spread, Abs, Progress;
      var earlier, last := deltas[..|deltas| - 1], deltas[|deltas| - 1];
      c := FramesClose(response, pi, omega, m, target, earlier);
      ProgressOfFrame(omega, deltas);
      if last > 0.0 {
        c := FrameCloses(c, Progress(omega, earlier), Progress(omega, deltas), Spread(LeadOf(m, omega), target),
                         response, pi, omega, Frames(m, target, omega, earlier), target, last);
      } else {
        FrameStays(Frames(m, target, omega, earlier), target, omega, last);
      }
    }
  }

  lemma FrameStays(m: Motion, target: real, omega: real, delta: real)
    requires delta <= 0.0
    ensures Frame(m, target, omega, delta) == m
  {}

  lemma ClosedIn(c: real, progress: real, near: real, start: real, s: Lead, target: real)
    requires Closing(c, progress, start, s, target) && near * progress >= start
    ensures Around(near, s, target)
  {
    if c > near {
      ProductPositive(progress, c - near, progress * (c - near));
      Distribute(progress, c, near);
    }
  }

  /** Every channel but eyeOpen comes to a target that stays, and comes to rest there:
      value and lead are within any distance of it once enough time has passed,
      however the time is cut into frames. */
  lemma ReachesTarget(channel: Channel, interrupted: bool, pi: real, omega: real, m: Motion, target: real,
                      deltas: seq<real>, near: real)
    requires channel != EyeOpen && 3.14 < pi < 3.15 && omega == pi * 2.0 * ResponseIn(channel, interrupted) && omega > 0.0
    requires near * Progress(omega, deltas) >= Spread(LeadOf(m, omega), target)
    ensures Around(near, LeadOf(Frames(m, target, omega, deltas), omega), target)
  {
    hide Spread, Progress, Frames, Abs, LeadOf;
    var c := FramesClose(ResponseIn(channel, interrupted), pi, omega, m, target, deltas);
    ClosedIn(c, Progress(omega, deltas), near, Spread(LeadOf(m, omega), target),
             LeadOf(Frames(m, target, omega, deltas), omega), target);
  }
}
