/** What the spring computes, said without its own functions: the equation it
    follows, how many substeps a frame takes and how fast each channel is
    (packages/avatar-sdk/src/behavior-state-machine.ts). */
module SpringRules {
  import opened SpringArithmetic
  import opened SpringIntegrator

  /** One substep is a difference step of x'' + 2 * omega * x' + omega^2 * (x - target) = 0,
      the spring without overshoot: the change of speed follows from the old value and
      speed, the change of value from the new speed. Resting on the target it rests. */
  lemma SubstepFollowsEquation(m: Motion, target: real, omega: real, h: real)
    requires h > 0.0
    ensures var after := Substep(m, target, omega, h);
      var speed, pull := (after.value - m.value) / h, (after.velocity - m.velocity) / h;
      && speed == after.velocity
      && pull + 2.0 * omega * m.velocity + omega * omega * (m.value - target) == 0.0
    ensures Substep(m, target, omega, h) == m <==> m.velocity == 0.0 && omega * omega * (m.value - target) == 0.0
  {
    var after := Substep(m, target, omega, h);
    var pull := omega * omega * (target - m.value) - 2.0 * omega * m.velocity;
    assert after.velocity - m.velocity == pull * h;
    assert after.value - m.value == after.velocity * h;
    DivideMul(pull, h);
    DivideMul(after.velocity, h);
    Opposite(omega * omega, target - m.value);
    if after == m {
      assert pull == 0.0 && after.velocity == 0.0;
    }
    if m.velocity == 0.0 && omega * omega * (m.value - target) == 0.0 {
      assert pull == 0.0;
    }
  }

  lemma Opposite(a: real, x: real)
    ensures a * x == -(a * -x)
  {}

  lemma DivideMul(x: real, h: real)
    requires h > 0.0
    ensures (x * h) / h == x
  {}

  /** A frame takes the fewest equal substeps that are no longer than 1/120 of a second. */
  lemma FewestSubsteps(delta: real, n: nat)
    requires delta > 0.0 && n > 0
    ensures delta / n as real <= 1.0 / 120.0 <==> SubstepCount(delta) <= n
  {
    var count, share := n as real, delta / n as real;
    MulDivide(count, delta);
    assert share <= 1.0 / 120.0 <==> 120.0 * delta <= count by {
      if share <= 1.0 / 120.0 {
        MulMono(count, share, 1.0 / 120.0);
      }
      if 120.0 * delta <= count {
        MulCancel(count, share, 1.0 / 120.0);
      }
    }
  }

  /** Which channels follow their target faster, and by how much the extremes differ:
      the eyelid is fastest, body roll and breath are slowest. */
  lemma FasterChannels()
    ensures Response(Breath) == Response(BodyRoll) == 2.1
    ensures Response(BodyRoll) < Response(BodyYaw) < Response(BodyPitch)
    ensures Response(BodyYaw) - Response(BodyRoll) == 0.1 && Response(BodyPitch) - Response(BodyYaw) == 0.2
    ensures Response(BodyPitch) < Response(HeadRoll) < Response(HeadYaw) < Response(HeadPitch)
    ensures Response(HeadRoll) == 4.0
    ensures Response(HeadYaw) - Response(HeadRoll) == 0.2 && Response(HeadPitch) - Response(HeadRoll) == 0.6
    ensures Response(HeadPitch) < Response(BrowLift) < Response(MouthForm) < Response(EyeX) == Response(EyeY)
    ensures Response(BrowLift) == 7.0 && Response(MouthForm) == 8.0 && Response(EyeX) == 12.0
    ensures Response(EyeY) < Response(EyeOpen) == 18.0
  {}

  /** Interrupted, nobody is slower than 10: head, body, brow, mouth and breath move up
      to exactly that, the eyes stay as fast as they are. */
  lemma InterruptedQuickens(channel: Channel)
    ensures ResponseIn(channel, false) == Response(channel) <= ResponseIn(channel, true)
    ensures ResponseIn(channel, true) >= 10.0
    ensures ResponseIn(channel, true) == Response(channel) <==> channel in {EyeX, EyeY, EyeOpen}
    ensures ResponseIn(channel, true) == 10.0 <==> channel !in {EyeX, EyeY, EyeOpen}
  {}
}
