/** The critically damped spring of the avatar's pose channels, over the reals:
    when its sub-stepped integration stays bounded, and which channels are in
    that range (packages/avatar-sdk/src/behavior-state-machine.ts). */
module SpringIntegrator {
  import opened SpringArithmetic
  import opened SpringEnergy
  import opened SpringStability

  // ----- One substep -----

  datatype Motion = Motion(value: real, velocity: real)

  function Substep(m: Motion, target: real, omega: real, h: real): Motion {
    var acceleration := omega * omega * (target - m.value) - 2.0 * omega * m.velocity;
    var velocity := m.velocity + acceleration * h;
    Motion(m.value + velocity * h, velocity)
  }

  function Substeps(m: Motion, target: real, omega: real, h: real, n: nat): Motion {
    if n == 0 then m else Substep(Substeps(m, target, omega, h, n - 1), target, omega, h)
  }

  function PairOf(m: Motion, target: real, h: real): Pair {
    Pair(m.value - target, m.value - target - h * m.velocity)
  }

  /** The integrator is this linear map: its value and velocity can be read off
      the pair. */
  lemma SubstepIsLinear(m: Motion, target: real, omega: real, h: real)
    ensures PairOf(Substep(m, target, omega, h), target, h)
         == Next(A(omega * h), B(omega * h), PairOf(m, target, h))
  {
    var y, v, k := m.value - target, m.velocity, omega * h;
    var next := Substep(m, target, omega, h);
    var hv := h * v;
    assert h * next.velocity == hv - k * k * y - 2.0 * k * hv by {
      assert next.velocity == v + (omega * omega * (0.0 - y) - 2.0 * omega * v) * h;
      assert h * ((omega * omega * (0.0 - y)) * h) == 0.0 - k * k * y;
      assert h * ((2.0 * omega * v) * h) == 2.0 * k * hv;
    }
    assert next.value - target == y + h * next.velocity;
    assert A(k) * y - B(k) * (y - hv) == y + (hv - k * k * y - 2.0 * k * hv);
  }

  lemma {:induction false} SubstepsAreIterates(m: Motion, target: real, omega: real, h: real, n: nat)
    ensures PairOf(Substeps(m, target, omega, h, n), target, h)
         == Iterate(A(omega * h), B(omega * h), PairOf(m, target, h), n)
  {
    if n > 0 {
      SubstepsAreIterates(m, target, omega, h, n - 1);
      SubstepIsLinear(Substeps(m, target, omega, h, n - 1), target, omega, h);
    }
  }

  // ----- The same for value and velocity -----

  predicate Near(m: Motion, target: real, h: real, bound: real) {
    Abs(m.value - target) <= bound && Abs(h * m.velocity) <= bound
  }

  ghost predicate StaysNear(m: Motion, target: real, omega: real, h: real, bound: real) {
    forall n: nat :: Near(Substeps(m, target, omega, h, n), target, h, bound)
  }

  ghost predicate SettlesFrom(m: Motion, target: real, omega: real, h: real) {
    exists bound: real :: StaysNear(m, target, omega, h, bound)
  }

  /** Around a fixed target, from any value and velocity, the spring stays within
      some distance of the target and within some speed. */
  ghost predicate SpringStable(omega: real, h: real) {
    forall m: Motion, target: real :: SettlesFrom(m, target, omega, h)
  }

  lemma NearFromSmall(m: Motion, target: real, h: real, bound: real)
    requires Small(PairOf(m, target, h), bound)
    ensures Near(m, target, h, 2.0 * bound)
  {}

  lemma SmallFromNear(m: Motion, target: real, h: real, bound: real)
    requires Near(m, target, h, bound)
    ensures Small(PairOf(m, target, h), 2.0 * bound)
  {}

  lemma NearFromStable(m: Motion, target: real, omega: real, h: real)
    requires BoundedFrom(A(omega * h), B(omega * h), PairOf(m, target, h))
    ensures SettlesFrom(m, target, omega, h)
  {
    var bound: real :| StaysWithin(A(omega * h), B(omega * h), PairOf(m, target, h), bound);
    var twice := 2.0 * bound;
    forall n: nat
      ensures Near(Substeps(m, target, omega, h, n), target, h, twice)
    {
      SubstepsAreIterates(m, target, omega, h, n);
      assert Small(Iterate(A(omega * h), B(omega * h), PairOf(m, target, h), n), bound);
      NearFromSmall(Substeps(m, target, omega, h, n), target, h, bound);
    }
    assert StaysNear(m, target, omega, h, twice);
  }

  lemma StableFromNear(m: Motion, target: real, omega: real, h: real)
    requires SettlesFrom(m, target, omega, h)
    ensures BoundedFrom(A(omega * h), B(omega * h), PairOf(m, target, h))
  {
    var bound: real :| StaysNear(m, target, omega, h, bound);
    var twice, a, b := 2.0 * bound, A(omega * h), B(omega * h);
    forall n: nat
      ensures Small(Iterate(a, b, PairOf(m, target, h), n), twice)
    {
      SubstepsAreIterates(m, target, omega, h, n);
      assert Near(Substeps(m, target, omega, h, n), target, h, bound);
      SmallFromNear(Substeps(m, target, omega, h, n), target, h, bound);
    }
    assert StaysWithin(a, b, PairOf(m, target, h), twice);
  }

  lemma MotionOfPair(s: Pair, h: real) returns (m: Motion)
    requires h > 0.0
    ensures PairOf(m, 0.0, h) == s
  {
    m := Motion(s.y, (s.y - s.p) / h);
    MulDivide(h, s.y - s.p);
  }

  /** The integrator is stable if and only if k * k + 4 * k <= 4 for k = omega * h. */
  lemma SpringStableExactly(omega: real, h: real, k: real)
    requires h > 0.0 && k == omega * h && k > 0.0
    ensures SpringStable(omega, h) <==> k * k + 4.0 * k <= 4.0
  {
    StableExactly(k);
    if Stable(A(k), B(k)) {
      forall m: Motion, target: real
        ensures SettlesFrom(m, target, omega, h)
      {
        assert BoundedFrom(A(k), B(k), PairOf(m, target, h));
        NearFromStable(m, target, omega, h);
      }
    }
    if SpringStable(omega, h) {
      forall s: Pair
        ensures BoundedFrom(A(k), B(k), s)
      {
        var m := MotionOfPair(s, h);
        StableFromNear(m, 0.0, omega, h);
      }
    }
  }

  // ----- The channels and the substep rule -----

  datatype Channel = HeadYaw | HeadPitch | HeadRoll | BodyYaw | BodyPitch | BodyRoll
                   | EyeX | EyeY | EyeOpen | BrowLift | MouthForm | Breath

  function Response(channel: Channel): real {
    match channel
    case HeadYaw => 4.2
    case HeadPitch => 4.6
    case HeadRoll => 4.0
    case BodyYaw => 2.2
    case BodyPitch => 2.4
    case BodyRoll => 2.1
    case EyeX => 12.0
    case EyeY => 12.0
    case EyeOpen => 18.0
    case BrowLift => 7.0
    case MouthForm => 8.0
    case Breath => 2.1
  }

  /** Interrupted mode raises slow channels to a response of 10. */
  function ResponseIn(channel: Channel, interrupted: bool): real {
    if interrupted && Response(channel) < 10.0 then 10.0 else Response(channel)
  }

  const LONGEST_SUBSTEP: real := 1.0 / 120.0

  function Ceiling(x: real): int {
    if x == x.Floor as real then x.Floor else x.Floor + 1
  }

  function SubstepCount(delta: real): (n: nat)
    ensures n >= 1
  {
    var n := Ceiling(delta / LONGEST_SUBSTEP);
    if n < 1 then 1 else n
  }

  function SubstepLength(delta: real): real { delta / SubstepCount(delta) as real }

  lemma ShareOfFrame(n: real, h: real, delta: real)
    requires n > 0.0 && n * h == delta && 0.0 < delta && 120.0 * delta <= n
    ensures 0.0 < h <= 1.0 / 120.0
  {
    MulCancel(n, h, 1.0 / 120.0);
    if h <= 0.0 {
      MulMono(n, h, 0.0);
    }
  }

  /** The substeps of a frame are never longer than 1/120 of a second and
      together last exactly the frame. */
  lemma SubstepsFillFrame(delta: real)
    requires delta > 0.0
    ensures 0.0 < SubstepLength(delta) <= LONGEST_SUBSTEP
    ensures SubstepCount(delta) as real * SubstepLength(delta) == delta
  {
    var n := SubstepCount(delta) as real;
    var h := SubstepLength(delta);
    MulDivide(n, delta);
    assert n >= 120.0 * delta;
    ShareOfFrame(n, h, delta);
  }

  /** Every channel but eyeOpen is stable at every frame time, interrupted or not. */
  lemma OtherChannelsStable(channel: Channel, interrupted: bool, pi: real, delta: real)
    requires channel != EyeOpen && 3.14 < pi < 3.15 && delta > 0.0
    ensures SpringStable(pi * 2.0 * ResponseIn(channel, interrupted), SubstepLength(delta))
  {
    var response, h := ResponseIn(channel, interrupted), SubstepLength(delta);
    SubstepsFillFrame(delta);
    assert 2.1 <= response <= 12.0;
    FrequencyTimesStep(pi, response, 12.0, h, LONGEST_SUBSTEP);
    SmallProductStable(pi * 2.0 * response, h, (pi * 2.0 * response) * h);
  }

  lemma FrequencyTimesStep(pi: real, response: real, most: real, h: real, longest: real)
    requires 0.0 < pi < 3.15 && 0.0 < response <= most && 0.0 < h <= longest
    ensures 0.0 < (pi * 2.0 * response) * h <= 6.3 * most * longest
  {
    var omega := pi * 2.0 * response;
    MulMono(response, pi * 2.0, 6.3);
    ProductPositive(pi * 2.0, response, omega);
    ProductPositive(omega, h, omega * h);
    MulMono(omega, h, longest);
    MulMono(longest, omega, 6.3 * most);
    assert omega * longest == longest * omega;
  }

  lemma SmallProductStable(omega: real, h: real, k: real)
    requires h > 0.0 && k == omega * h && 0.0 < k <= 0.8
    ensures SpringStable(omega, h)
  {
    SpringStableExactly(omega, h, k);
    MulMono(k, k, 0.8);
  }

  /** eyeOpen is not: at 60 frames a second its substep is 1/120 of a second,
      past the end of the range, in every mode. */
  lemma EyeOpenUnstableAtSixtyFrames(interrupted: bool, pi: real)
    requires 3.14 < pi < 3.15
    ensures !SpringStable(pi * 2.0 * ResponseIn(EyeOpen, interrupted), SubstepLength(1.0 / 60.0))
  {
    var k := (pi * 2.0 * 18.0) * (1.0 / 120.0);
    assert SubstepCount(1.0 / 60.0) == 2;
    SpringStableExactly(pi * 2.0 * 18.0, SubstepLength(1.0 / 60.0), k);
    MulMono(k, 0.94, k);
  }

  // ----- The integrator -----

  class SpringState {
    var value: real
    var velocity: real

    constructor (start: real)
      ensures value == start && velocity == 0.0
    {
      value, velocity := start, 0.0;
    }

    function Now(): Motion
      reads this
    {
      Motion(value, velocity)
    }

    /** integrateSpring: nothing without time, otherwise the counted substeps of
        equal length. */
    method Integrate(target: real, response: real, deltaSeconds: real, pi: real)
      modifies this
      ensures deltaSeconds <= 0.0 ==> Now() == old(Now())
      ensures var h, n := SubstepLength(deltaSeconds), SubstepCount(deltaSeconds);
        deltaSeconds > 0.0 ==> Now() == Substeps(old(Now()), target, pi * 2.0 * response, h, n)
    {
      if deltaSeconds <= 0.0 {
        return;
      }
      var steps := SubstepCount(deltaSeconds);
      var stepSeconds := deltaSeconds / steps as real;
      var omega := pi * 2.0 * response;
      var step := 0;
      while step < steps
        invariant 0 <= step <= steps
        invariant Now() == Substeps(old(Now()), target, omega, stepSeconds, step)
      {
        Advance(target, omega, stepSeconds);
        step := step + 1;
      }
    }

    /** The body of the substep loop. */
    method Advance(target: real, omega: real, stepSeconds: real)
      modifies this
      ensures Now() == Substep(old(Now()), target, omega, stepSeconds)
    {
      var acceleration := omega * omega * (target - value) - 2.0 * omega * velocity;
      velocity := velocity + acceleration * stepSeconds;
      value := value + velocity * stepSeconds;
    }
  }
}
