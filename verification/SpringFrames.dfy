/** The pose springs over frames of different lengths: one energy that no substep
    raises, whatever its length (packages/avatar-sdk/src/behavior-state-machine.ts). */
module SpringFrames {
  import opened SpringArithmetic
  import opened SpringIntegrator

  // ----- One substep on distance and scaled speed -----

  /** Distance to the target, and velocity divided by the frequency. */
  datatype Swing = Swing(y: real, w: real)

  function Energy(s: Swing): real { s.y * s.y + s.w * s.w }

  /** A substep with k = omega * h. */
  function Next(k: real, s: Swing): Swing {
    var w := s.w - k * (s.y + 2.0 * s.w);
    Swing(s.y + k * w, w)
  }

  /** What a substep takes away, up to a factor of k, in terms of the new speed ... */
  function Loss(k: real, y: real, w: real, w1: real): real {
    (y + 2.0 * w) * (w + w1) - w1 * (2.0 * y + k * w1)
  }

  lemma DifferenceOfSquares(x: real, z: real, d: real)
    requires x - z == d
    ensures x * x - z * z == d * (x + z)
  {}

  lemma MulAssociates(f: real, x: real, z: real)
    ensures (f * x) * z == f * (x * z)
  {}

  lemma EnergyDrops(k: real, s: Swing)
    ensures Energy(s) - Energy(Next(k, s)) == k * Loss(k, s.y, s.w, Next(k, s).w)
  {
    var y, w, u, y1, w1 := s.y, s.w, s.y + 2.0 * s.w, Next(k, s).y, Next(k, s).w;
    DifferenceOfSquares(w, w1, k * u);
    DifferenceOfSquares(y1, y, k * w1);
    MulAssociates(k, u, w + w1);
    MulAssociates(k, w1, 2.0 * y + k * w1);
    Distribute(k, u * (w + w1), w1 * (2.0 * y + k * w1));
  }

  /** ... and as a quadratic form with these coefficients. */
  function Alpha(k: real): real { k * (1.0 - k * k) }

  function Beta(k: real): real { 2.0 * (k * k) * (1.0 - 2.0 * k) }

  function Gamma(k: real): real { 4.0 - 5.0 * k + 4.0 * (k * k) - 4.0 * (k * k * k) }

  function Form(k: real, y: real, w: real): real { Alpha(k) * (y * y) + Beta(k) * (y * w) + Gamma(k) * (w * w) }

  lemma LossIsForm(k: real, y: real, w: real)
    ensures Loss(k, y, w, w - k * (y + 2.0 * w)) == Form(k, y, w)
  {}

  /** The form is a square and a multiple of 4 - 5 k. */
  lemma Discriminant(k: real)
    ensures 4.0 * Alpha(k) * Gamma(k) - Beta(k) * Beta(k) == 4.0 * k * (4.0 - 5.0 * k)
  {}

  lemma CompleteDrop(a: real, b: real, c: real, y: real, w: real)
    ensures 4.0 * a * (a * (y * y) + b * (y * w) + c * (w * w))
         == (2.0 * a * y + b * w) * (2.0 * a * y + b * w) + (4.0 * a * c - b * b) * (w * w)
  {}

  lemma LossNonNegative(k: real, y: real, w: real)
    requires 0.0 < k && 5.0 * k <= 4.0
    ensures Form(k, y, w) >= 0.0
  {
    var a, b, c := Alpha(k), Beta(k), Gamma(k);
    MulMono(k, k, 0.8);
    ProductPositive(k, 1.0 - k * k, a);
    ProductNonNegative(4.0 * k, 4.0 - 5.0 * k);
    Discriminant(k);
    CompleteDrop(a, b, c, y, w);
    SquareNonNegative(2.0 * a * y + b * w);
    SquareNonNegative(w);
    ProductNonNegative(4.0 * a * c - b * b, w * w);
    if Form(k, y, w) < 0.0 {
      ProductPositive(4.0 * a, 0.0 - Form(k, y, w), 4.0 * a * (0.0 - Form(k, y, w)));
      Negate(4.0 * a, Form(k, y, w));
    }
  }

  ghost predicate NeverRaises(k: real) { forall s: Swing :: Energy(Next(k, s)) <= Energy(s) }

  /** Past four fifths some state gains energy in one substep. */
  lemma SomeGain(k: real) returns (s: Swing)
    requires 5.0 * k > 4.0
    ensures Form(k, s.y, s.w) < 0.0
  {
    var a, b, c := Alpha(k), Beta(k), Gamma(k);
    if k == 1.0 {
      s := Swing(0.0, 1.0);
    } else if k > 1.0 {
      s := Swing(1.0, 0.0);
      MulMono(k, 1.0, k);
      ProductPositive(k, k * k - 1.0, k * (k * k - 1.0));
      Negate(k, k * k - 1.0);
    } else {
      s := Swing(0.0 - b, 2.0 * a);
      MulMono(k, k, 1.0);
      ProductPositive(k, 1.0 - k * k, a);
      GainAt(k, a, b, c);
    }
  }

  lemma GainAt(k: real, a: real, b: real, c: real)
    requires 5.0 * k > 4.0 && a > 0.0 && a == Alpha(k) && b == Beta(k) && c == Gamma(k)
    ensures Form(k, 0.0 - b, 2.0 * a) < 0.0
  {
    var y, w := 0.0 - b, 2.0 * a;
    Discriminant(k);
    CompleteDrop(a, b, c, y, w);
    assert 2.0 * a * y + b * w == 0.0;
    ProductPositive(4.0 * k, 5.0 * k - 4.0, 4.0 * k * (5.0 * k - 4.0));
    Negate(4.0 * k, 5.0 * k - 4.0);
    ProductPositive(w, w, w * w);
    ProductPositive(b * b - 4.0 * a * c, w * w, (b * b - 4.0 * a * c) * (w * w));
    if Form(k, y, w) >= 0.0 {
      ProductNonNegative(4.0 * a, Form(k, y, w));
    }
  }

  /** No substep of this length raises the energy of any state: this holds if and
      only if five times k is at most four. */
  lemma NeverRaisesExactly(k: real)
    requires k > 0.0
    ensures NeverRaises(k) <==> 5.0 * k <= 4.0
  {
    if 5.0 * k <= 4.0 {
      forall s: Swing
        ensures Energy(Next(k, s)) <= Energy(s)
      {
        NoGain(k, s);
      }
    } else {
      var s := SomeGain(k);
      Gain(k, s);
      assert !(Energy(Next(k, s)) <= Energy(s));
    }
  }

  lemma NoGain(k: real, s: Swing)
    requires 0.0 < k && 5.0 * k <= 4.0
    ensures Energy(Next(k, s)) <= Energy(s)
  {
    EnergyDrops(k, s);
    LossIsForm(k, s.y, s.w);
    LossNonNegative(k, s.y, s.w);
    ProductNonNegative(k, Form(k, s.y, s.w));
  }

  lemma Gain(k: real, s: Swing)
    requires 0.0 < k && Form(k, s.y, s.w) < 0.0
    ensures Energy(Next(k, s)) > Energy(s)
  {
    EnergyDrops(k, s);
    LossIsForm(k, s.y, s.w);
    Negate(k, Form(k, s.y, s.w));
    ProductPositive(k, 0.0 - Form(k, s.y, s.w), k * (0.0 - Form(k, s.y, s.w)));
  }

  // ----- Frames -----

  function SwingOf(m: Motion, target: real, omega: real): Swing
    requires omega > 0.0
  {
    Swing(m.value - target, m.velocity / omega)
  }

  lemma SubstepSwings(m: Motion, target: real, omega: real, h: real)
    requires omega > 0.0
    ensures SwingOf(Substep(m, target, omega, h), target, omega) == Next(omega * h, SwingOf(m, target, omega))
  {
    var y, w, k := m.value - target, m.velocity / omega, omega * h;
    var next := Substep(m, target, omega, h);
    MulDivide(omega, m.velocity);
    MulDivide(omega, next.velocity);
    var w1 := w - k * (y + 2.0 * w);
    assert next.velocity == omega * w1 by {
      assert (omega * omega * (0.0 - y)) * h == 0.0 - omega * (k * y);
      assert (2.0 * omega * m.velocity) * h == omega * (k * (2.0 * w));
    }
    SameFactor(omega, next.velocity / omega, w1);
    assert next.velocity * h == k * w1;
  }

  lemma SameFactor(f: real, x: real, y: real)
    requires f > 0.0 && f * x == f * y
    ensures x == y
  {
    MulCancel(f, x, y);
    MulCancel(f, y, x);
  }

  /** What a frame does to a channel: nothing without time. */
  function Frame(m: Motion, target: real, omega: real, delta: real): Motion {
    if delta <= 0.0 then m else Substeps(m, target, omega, SubstepLength(delta), SubstepCount(delta))
  }

  function Frames(m: Motion, target: real, omega: real, deltas: seq<real>): Motion {
    if deltas == [] then m
    else Frame(Frames(m, target, omega, deltas[..|deltas| - 1]), target, omega, deltas[|deltas| - 1])
  }

  lemma {:induction false} SubstepsNeverRaise(m: Motion, target: real, omega: real, h: real, k: real, n: nat)
    requires omega > 0.0 && k == omega * h && NeverRaises(k)
    ensures Energy(SwingOf(Substeps(m, target, omega, h, n), target, omega)) <= Energy(SwingOf(m, target, omega))
  {
    if n > 0 {
      SubstepsNeverRaise(m, target, omega, h, k, n - 1);
      SubstepSwings(Substeps(m, target, omega, h, n - 1), target, omega, h);
    }
  }

  /** The substeps of a frame of this length raise no energy. */
  ghost predicate Calm(omega: real, delta: real) { NeverRaises(StepAngle(omega, delta)) }

  function StepAngle(omega: real, delta: real): real { omega * SubstepLength(delta) }

  lemma {:induction false} FramesNeverRaise(m: Motion, target: real, omega: real, deltas: seq<real>)
    requires omega > 0.0 && forall delta: real :: delta > 0.0 ==> Calm(omega, delta)
    ensures Energy(SwingOf(Frames(m, target, omega, deltas), target, omega)) <= Energy(SwingOf(m, target, omega))
    decreases |deltas|
  {
    if deltas != [] {
      var earlier, delta := deltas[..|deltas| - 1], deltas[|deltas| - 1];
      FramesNeverRaise(m, target, omega, earlier);
      if delta > 0.0 {
        assert Calm(omega, delta);
        SubstepsNeverRaise(Frames(m, target, omega, earlier), target, omega, SubstepLength(delta), StepAngle(omega, delta),
                           SubstepCount(delta));
      }
    }
  }

  lemma StepAngleSmall(response: real, pi: real, omega: real, delta: real)
    requires 2.1 <= response <= 12.0 && 3.14 < pi < 3.15 && omega == pi * 2.0 * response && delta > 0.0
    ensures 0.0 < StepAngle(omega, delta) <= 0.63 && omega > 0.0
  {
    SubstepsFillFrame(delta);
    FrequencyTimesStep(pi, response, 12.0, SubstepLength(delta), LONGEST_SUBSTEP);
    ProductPositive(pi * 2.0, response, omega);
  }

  lemma ChannelIsCalm(response: real, pi: real, omega: real, delta: real)
    requires 2.1 <= response <= 12.0 && 3.14 < pi < 3.15 && omega == pi * 2.0 * response && delta > 0.0
    ensures Calm(omega, delta)
  {
    StepAngleSmall(response, pi, omega, delta);
    NeverRaisesExactly(StepAngle(omega, delta));
  }

  lemma CalmChannel(response: real, pi: real, omega: real)
    requires 2.1 <= response <= 12.0 && 3.14 < pi < 3.15 && omega == pi * 2.0 * response
    ensures omega > 0.0 && forall delta: real :: delta > 0.0 ==> Calm(omega, delta)
  {
    StepAngleSmall(response, pi, omega, 1.0);
    forall delta: real | delta > 0.0
      ensures Calm(omega, delta)
    {
      ChannelIsCalm(response, pi, omega, delta);
    }
  }

  /** Over any frames, however uneven their lengths, every channel but eyeOpen stays
      within its first energy: neither its distance to the target nor its velocity
      over the frequency is ever larger. */
  lemma OtherChannelsStayNear(channel: Channel, interrupted: bool, pi: real, omega: real, m: Motion, target: real,
                              deltas: seq<real>)
    requires channel != EyeOpen && 3.14 < pi < 3.15 && omega == pi * 2.0 * ResponseIn(channel, interrupted)
    ensures omega > 0.0
    ensures var first, last := SwingOf(m, target, omega), SwingOf(Frames(m, target, omega, deltas), target, omega);
      last.y * last.y <= Energy(first) && last.w * last.w <= Energy(first) && Energy(last) <= Energy(first)
  {
    CalmChannel(ResponseIn(channel, interrupted), pi, omega);
    FramesNeverRaise(m, target, omega, deltas);
    EnergyBoundsBoth(SwingOf(Frames(m, target, omega, deltas), target, omega));
  }

  lemma EnergyBoundsBoth(s: Swing)
    ensures s.y * s.y <= Energy(s) && s.w * s.w <= Energy(s)
  {
    SquareNonNegative(s.y);
    SquareNonNegative(s.w);
  }
}
