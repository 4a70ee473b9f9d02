/** Which of the cues promoted in one pass is still active when the pass ends
    (packages/avatar-sdk/src/cue-scheduler.ts). */
module CuePromotion {
  import opened Wrappers
  import opened AvatarCapabilities
  import opened CueScheduling

  /** The layers when the pass comes to the j-th queued cue. */
  function ActiveAt(active: ActiveMap, q: seq<ScheduledCue>, now: real, j: nat): ActiveMap
    requires j <= |q|
  {
    Promote(active, q[..j], now).active
  }

  function AfterFirst(active: ActiveMap, q: seq<ScheduledCue>, now: real): ActiveMap
    requires q != []
  {
    if Blocked(active, q[0]) then active else active[q[0].layer := Restart(q[0], now)]
  }

  lemma {:induction false} PassSplits(active: ActiveMap, q: seq<ScheduledCue>, now: real, j: nat)
    requires j <= |q|
    ensures Promote(active, q, now).active == Promote(ActiveAt(active, q, now, j), q[j..], now).active
    decreases |q|
  {
    if j == 0 {
      assert q[..0] == [] && q[0..] == q;
    } else {
      var next := AfterFirst(active, q, now);
      PassSplits(next, q[1..], now, j - 1);
      assert q[..j][0] == q[0] && q[..j][1..] == q[1..][..j - 1] && q[1..][j - 1..] == q[j..];
    }
  }

  /** The k-th cue behind `c` can take its layer: same layer, same priority, and no
      motion to wait for when its turn comes. */
  predicate CanTakeOver(active: ActiveMap, q: seq<ScheduledCue>, now: real, c: ScheduledCue, k: nat)
    requires k < |q|
  {
    q[k].layer == c.layer && Priority(q[k]) == Priority(c) && !MustWaitForMotion(ActiveAt(active, q, now, k), q[k])
  }

  /** The cues behind `c` in a sorted queue. */
  ghost predicate Behind(c: ScheduledCue, q: seq<ScheduledCue>) {
    forall k :: 0 <= k < |q| ==> Priority(q[k]) <= Priority(c) && q[k].sequence != c.sequence
  }

  lemma ActiveAtNext(active: ActiveMap, q: seq<ScheduledCue>, now: real, k: nat)
    requires 0 < k <= |q|
    ensures ActiveAt(active, q, now, k) == ActiveAt(AfterFirst(active, q, now), q[1..], now, k - 1)
  {
    assert q[..k][0] == q[0] && q[..k][1..] == q[1..][..k - 1];
  }

  lemma CanTakeOverNext(active: ActiveMap, q: seq<ScheduledCue>, now: real, c: ScheduledCue, k: nat)
    requires 0 < k < |q|
    ensures CanTakeOver(active, q, now, c, k) <==> CanTakeOver(AfterFirst(active, q, now), q[1..], now, c, k - 1)
  {
    ActiveAtNext(active, q, now, k);
  }

  ghost predicate SomeTakesOver(active: ActiveMap, q: seq<ScheduledCue>, now: real, c: ScheduledCue) {
    exists k :: 0 <= k < |q| && CanTakeOver(active, q, now, c, k)
  }

  lemma SomeTakesOverNext(active: ActiveMap, q: seq<ScheduledCue>, now: real, c: ScheduledCue)
    requires q != []
    ensures SomeTakesOver(active, q, now, c) <==>
            CanTakeOver(active, q, now, c, 0) || SomeTakesOver(AfterFirst(active, q, now), q[1..], now, c)
  {
    forall k | 0 < k < |q|
      ensures CanTakeOver(active, q, now, c, k) <==> CanTakeOver(AfterFirst(active, q, now), q[1..], now, c, k - 1)
    {
      CanTakeOverNext(active, q, now, c, k);
    }
    if SomeTakesOver(AfterFirst(active, q, now), q[1..], now, c) {
      var k :| 0 <= k < |q[1..]| && CanTakeOver(AfterFirst(active, q, now), q[1..], now, c, k);
      assert CanTakeOver(active, q, now, c, k + 1);
    }
  }

  /** Once it is replaced, `c` does not come back. */
  lemma NotComingBack(active: ActiveMap, q: seq<ScheduledCue>, now: real, c: ScheduledCue)
    requires c.layer in active && active[c.layer].sequence != c.sequence && Behind(c, q)
    ensures var end := Promote(active, q, now).active; c.layer in end ==> end[c.layer] != c
  {
    if c.layer in Promote(active, q, now).active {
      PassActiveOrigin(active, q, now, c.layer);
    }
  }

  lemma {:induction false} StaysInLayer(active: ActiveMap, q: seq<ScheduledCue>, now: real, c: ScheduledCue)
    requires c.layer in active && active[c.layer] == c && Behind(c, q)
    ensures var end := Promote(active, q, now).active;
      c.layer in end && end[c.layer] == c <==> !Interruptible(c) || !SomeTakesOver(active, q, now, c)
    decreases |q|
  {
    if q != [] {
      var next := AfterFirst(active, q, now);
      SomeTakesOverNext(active, q, now, c);
      assert q[..0] == [] && ActiveAt(active, q, now, 0) == active;
      if !Blocked(active, q[0]) && q[0].layer == c.layer {
        NotComingBack(next, q[1..], now, c);
      } else {
        StaysInLayer(next, q[1..], now, c);
      }
    }
  }

  lemma BehindFrom(q: seq<ScheduledCue>, sequence: nat, i: nat, c: ScheduledCue)
    requires QueueOk(q, sequence) && i < |q| && c.sequence == q[i].sequence && Priority(c) == Priority(q[i])
    ensures Behind(c, q[i + 1..])
  {
    var rest := q[i + 1..];
    forall k | 0 <= k < |rest|
      ensures Priority(rest[k]) <= Priority(c) && rest[k].sequence != c.sequence
    {
      assert rest[k] == q[i + 1 + k] && Before(q[i], q[i + 1 + k]);
    }
  }

  /** Of the cues promoted in one pass over a sorted queue, this one is active when
      the pass ends if and only if it is not interruptible, or no cue behind it in
      the queue has its layer and its priority and no motion to wait for when its
      turn comes. Otherwise it is replaced within the pass that starts it. */
  lemma SurvivesExactly(active: ActiveMap, q: seq<ScheduledCue>, sequence: nat, now: real, i: nat)
    requires QueueOk(q, sequence) && i < |q| && !Blocked(ActiveAt(active, q, now, i), q[i])
    ensures var c, end := Restart(q[i], now), Promote(active, q, now).active;
      c.layer in end && end[c.layer] == c <==>
        !Interruptible(c) || !SomeTakesOver(ActiveAt(active, q, now, i)[c.layer := c], q[i + 1..], now, c)
  {
    var c, here := Restart(q[i], now), ActiveAt(active, q, now, i);
    PassSplits(active, q, now, i);
    assert q[i..][0] == q[i] && q[i..][1..] == q[i + 1..];
    BehindFrom(q, sequence, i, c);
    StaysInLayer(here[c.layer := c], q[i + 1..], now, c);
  }

  /** Two interruptible cues of one layer and one priority wait for nothing: both are
      promoted, and only the later one is active when the pass ends. */
  lemma FirstOfTwoIsLost(x: ScheduledCue, y: ScheduledCue, now: real)
    requires x.layer == y.layer && Priority(x) == Priority(y) && x.sequence < y.sequence
    requires Interruptible(x) && x.cue.startAnchor == y.cue.startAnchor == Some("immediate")
    ensures var p := Promote(map[], [x, y], now);
      p.promoted == [Restart(x, now), Restart(y, now)] && p.kept == [] && p.active == map[x.layer := Restart(y, now)]
  {
    assert [x, y][1..] == [y] && [y][1..] == [];
    var first := map[x.layer := Restart(x, now)];
    assert !Blocked(map[], x) && !Blocked(first, y);
    assert Promote(first, [y], now).promoted == [Restart(y, now)] + [];
    assert first[y.layer := Restart(y, now)] == map[x.layer := Restart(y, now)];
  }
}
