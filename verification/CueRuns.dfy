/** What holds over whole runs of the cue scheduler, beyond the invariant:
    motion lifecycle, when the queue can be left unsettled, what may end a
    non-interruptible cue, and what an unchanged revision means. */
module CueRuns {
  import opened Wrappers
  import opened AvatarCapabilities
  import opened CueScheduling

  /** In every run the motion callback alternates started and ended for the same
      cue, the gesture slot holds exactly the motion left open, and no motion
      was ever replaced while non-interruptible. */
  lemma MotionLifecycle(cfg: Config, ops: seq<Operation>, i: nat)
    requires i < |Run(cfg, ops).events|
    ensures var st := Run(cfg, ops);
      && (st.events[i].MotionStarted? <==> i % 2 == 0)
      && (i % 2 == 1 ==> st.events[i - 1] == MotionStarted(st.events[i].cue))
      && (Gesture in st.active <==> |st.events| % 2 == 1)
      && (Gesture in st.active ==> st.events[|st.events| - 1] == MotionStarted(st.active[Gesture]))
      && (st.events[i].MotionEnded? && st.events[i].reason == Replaced ==> Interruptible(st.events[i].cue))
  {
    RunKeepsInvariant(cfg, ops);
    var st := Run(cfg, ops);
    TraceAlternates(st.events, Playing(st.active), i);
    TraceAlternates(st.events, Playing(st.active), |st.events| - 1);
  }

  /** Why a cue that refuses interruption may nevertheless leave its layer. */
  predicate MayEnd(st: State, op: Operation, layer: Layer)
    requires layer in st.active
  {
    var c := st.active[layer];
    match op
    case OpSchedule(_, _) => false
    case OpTick(now) => IsExpired(c, now)
    case OpInvalidate(g, _) => OfGeneration(c, g)
    case OpMotionEnded(id, _) => layer == Gesture && c.cue.cueId == id
    case OpClear(cleared, _) => cleared == layer
    case OpReset => true
  }

  lemma {:induction false} PassKeepsNonInterruptible(active: ActiveMap, q: seq<ScheduledCue>, nowMs: real, layer: Layer)
    requires layer in active && !Interruptible(active[layer])
    ensures layer in Promote(active, q, nowMs).active
    ensures Promote(active, q, nowMs).active[layer] == active[layer]
    decreases |q|
  {
    if q != [] {
      var next := if Blocked(active, q[0]) then active else active[q[0].layer := Restart(q[0], nowMs)];
      PassKeepsNonInterruptible(next, q[1..], nowMs, layer);
    }
  }

  /** A non-interruptible cue is never ended by replacement, by an interrupt or
      by promotion: it leaves only by expiry, invalidation of its generation,
      an explicit end or clear of its layer, or a reset. */
  lemma NonInterruptibleStays(cfg: Config, st: State, op: Operation, layer: Layer)
    requires Inv(cfg, st)
    requires layer in st.active && !Interruptible(st.active[layer]) && !MayEnd(st, op, layer)
    ensures layer in Step(cfg, st, op).active && Step(cfg, st, op).active[layer] == st.active[layer]
  {
    match op
    case OpSchedule(cue, now) =>
      if !Stale(st, cue) {
        var (c, st1) := Admitted(cfg, st, cue, now);
        assert layer in st1.active && st1.active[layer] == st.active[layer];
      }
    case OpTick(now) =>
      PassKeepsNonInterruptible(KeepActive(st.active, c => IsExpired(c, now)), KeepQueued(st.queued, c => false), now, layer);
    case OpInvalidate(g, now) =>
      PassKeepsNonInterruptible(KeepActive(st.active, c => OfGeneration(c, g)),
                                KeepQueued(st.queued, c => OfGeneration(c, g)), now, layer);
    case OpMotionEnded(id, now) =>
      if Gesture in st.active && st.active[Gesture].cue.cueId == id {
        PassKeepsNonInterruptible(st.active - {Gesture}, st.queued, now, layer);
      }
    case OpClear(cleared, now) =>
      if cleared in st.active {
        PassKeepsNonInterruptible(st.active - {cleared}, st.queued, now, layer);
      }
    case OpReset =>
  }

  /** A scheduled cue of a live generation is never silently lost: it becomes
      active exactly when nothing blocks it, otherwise it joins the queue, and it
      is dropped only from a full queue, with a warning. */
  lemma ScheduledCueIsPlaced(cfg: Config, st: State, cue: AvatarCue, nowMs: real)
    requires Inv(cfg, st) && !Stale(st, cue)
    ensures var (c, before) := Admitted(cfg, st, cue, nowMs);
      var next := Schedule(cfg, st, cue, nowMs);
      if !Blocked(before.active, c) then
        next.active == before.active[c.layer := c] && next.queued == before.queued
      else
        && next.active == before.active
        && (|before.queued| < cfg.maxQueueSize ==> multiset(next.queued) == multiset(before.queued) + multiset{c})
        && (|before.queued| >= cfg.maxQueueSize ==>
              next.queued == before.queued
              && (cfg.maxWarnings > 0 ==>
                    next.warnings != [] && next.warnings[|next.warnings| - 1] == Warning("avatar.cue_queue_full", cue.cueId)))
  {
    var (c, before) := Admitted(cfg, st, cue, nowMs);
    EnqueueLosesNothing(cfg, before, c);
    assert c.cue.cueId == cue.cueId;
  }

  /** Queueing adds exactly this cue, or drops it with a warning when the queue is full. */
  lemma EnqueueLosesNothing(cfg: Config, st: State, c: ScheduledCue)
    ensures var next := Enqueue(cfg, st, c);
      && next.active == st.active
      && (|st.queued| < cfg.maxQueueSize ==> multiset(next.queued) == multiset(st.queued) + multiset{c})
      && (|st.queued| >= cfg.maxQueueSize ==>
            next.queued == st.queued
            && (cfg.maxWarnings > 0 ==>
                  next.warnings != [] && next.warnings[|next.warnings| - 1] == Warning("avatar.cue_queue_full", c.cue.cueId)))
  {
    InsertSortedHolds(st.queued, c);
  }

  // ----- When the queue is settled -----

  predicate IsInterrupt(cue: AvatarCue) { cue.kind == OverrideCue && cue.name == "interrupt" }

  predicate InterruptsBy(st: State, op: Operation) {
    op.OpSchedule? && IsInterrupt(op.cue) && !Stale(st, op.cue)
  }

  lemma PlaceSettles(cfg: Config, st: State, c: ScheduledCue)
    requires Settled(st)
    ensures Settled(Place(cfg, st, c))
  {
    var r := Place(cfg, st, c);
    if Blocked(st.active, c) {
      InsertSortedHolds(st.queued, c);
      forall i | 0 <= i < |r.queued|
        ensures Blocked(r.active, r.queued[i])
      {
        assert r.queued[i] in r.queued;
      }
    } else {
      forall i | 0 <= i < |st.queued|
        ensures Blocked(st.active[c.layer := c], st.queued[i])
      {
        assert Restart(c, c.startsAtMs).cue == c.cue;
        BlockedStable(st.active, c, c.startsAtMs, st.queued[i]);
      }
    }
  }

  /** Scheduling an ordinary cue, and every other operation, leaves a settled
      queue settled; a tick and an invalidation settle any queue. */
  lemma SettledKept(cfg: Config, st: State, op: Operation)
    requires Inv(cfg, st)
    requires (Settled(st) && !InterruptsBy(st, op)) || op.OpTick? || op.OpInvalidate? || op.OpReset?
    ensures Settled(Step(cfg, st, op))
  {
    match op
    case OpSchedule(cue, now) =>
      if !Stale(st, cue) {
        var (c, st1) := Admitted(cfg, st, cue, now);
        PlaceSettles(cfg, st1, c);
      }
    case OpTick(now) =>
      PromoteSettles(KeepActive(st.active, c => IsExpired(c, now)), KeepQueued(st.queued, c => false), now);
    case OpInvalidate(g, now) => InvalidateKeepsInvariant(cfg, st, g, now);
    case OpMotionEnded(id, now) => EndLayerKeepsInvariant(cfg, st, Gesture, Expired, now);
    case OpClear(layer, now) => EndLayerKeepsInvariant(cfg, st, layer, Invalidated, now);
    case OpReset =>
  }

  /** What still holds back a queued cue once the interruptible cues are gone:
      a non-interruptible motion it waits for, a non-interruptible cue on its
      layer, or the interrupt itself. */
  predicate HeldThroughInterrupt(active: ActiveMap, interrupt: ScheduledCue, q: ScheduledCue) {
    || (q.cue.startAnchor == Some("after_current_motion") && Gesture in active && !Interruptible(active[Gesture]))
    || (q.layer in active && !Interruptible(active[q.layer]))
    || (q.layer == Override
        && !Blocked(KeepActive(active, Interruptible), interrupt)
        && (!Interruptible(interrupt) || Priority(q) < Priority(interrupt)))
  }

  /** An interrupt clears layers but runs no promotion pass, so it leaves the
      queue settled exactly when every queued non-interruptible cue is still
      held back; otherwise such a cue waits for the next tick. */
  lemma SettledAfterInterrupt(cfg: Config, st: State, cue: AvatarCue, nowMs: real)
    requires Inv(cfg, st)
    requires IsInterrupt(cue) && !Stale(st, cue)
    ensures Settled(Schedule(cfg, st, cue, nowMs)) <==>
      forall i :: 0 <= i < |st.queued| && !Interruptible(st.queued[i]) ==>
        HeldThroughInterrupt(st.active, Admitted(cfg, st, cue, nowMs).0, st.queued[i])
  {
    var (c, st1) := Admitted(cfg, st, cue, nowMs);
    var r := Schedule(cfg, st, cue, nowMs);
    KeepQueuedIsSubsequence(st.queued, Interruptible);
    InsertSortedHolds(st1.queued, c);
    forall q | q in st1.queued
      ensures Blocked(r.active, q) <==> HeldThroughInterrupt(st.active, c, q)
    {
      BlockedAfterInterrupt(cfg, st, st1, c, q);
    }
    if Settled(r) {
      forall i | 0 <= i < |st.queued| && !Interruptible(st.queued[i])
        ensures HeldThroughInterrupt(st.active, c, st.queued[i])
      {
        assert st.queued[i] in st1.queued;
        assert st.queued[i] in r.queued;
      }
    }
    if forall i :: 0 <= i < |st.queued| && !Interruptible(st.queued[i]) ==> HeldThroughInterrupt(st.active, c, st.queued[i]) {
      forall i | 0 <= i < |r.queued|
        ensures Blocked(r.active, r.queued[i])
      {
        assert r.queued[i] in r.queued;
        if r.queued[i] in st1.queued {
          assert r.queued[i] in st.queued;
        }
      }
    }
  }

  lemma BlockedAfterInterrupt(cfg: Config, st: State, st1: State, c: ScheduledCue, q: ScheduledCue)
    requires Inv(cfg, st)
    requires c.layer == Override && st1.active == KeepActive(st.active, Interruptible)
    ensures Blocked(Place(cfg, st1, c).active, q) <==> HeldThroughInterrupt(st.active, c, q)
  {
    var active := Place(cfg, st1, c).active;
    assert Gesture in active <==> Gesture in st.active && !Interruptible(st.active[Gesture]);
    if q.layer != Override || Blocked(st1.active, c) {
      assert q.layer in active <==> q.layer in st.active && !Interruptible(st.active[q.layer]);
    } else {
      assert active[Override] == c;
    }
  }

  function Motion(name: string, interruptible: bool, anchor: string): AvatarCue {
    AvatarCue(name, None, MotionCue, name, None, Some(anchor), None, None, Some(interruptible))
  }

  const PLAYING := OpSchedule(Motion("a", true, "immediate"), 0.0)
  const WAITING := OpSchedule(Motion("b", false, "after_current_motion"), 1.0)
  const STOP := OpSchedule(AvatarCue("stop", None, OverrideCue, "interrupt", None, None, None, None, None), 2.0)

  lemma WaitingMotion(cfg: Config)
    requires {"a", "b"} <= cfg.capabilities.motions && cfg.maxQueueSize >= 1
    ensures var st := Run(cfg, [PLAYING, WAITING]);
      && st.invalid == {} && |st.queued| == 1
      && st.queued[0].layer == Gesture && !Interruptible(st.queued[0])
      && Gesture in st.active && Interruptible(st.active[Gesture]) && Override !in st.active
  {
    assert [PLAYING, WAITING][..1] == [PLAYING] && [PLAYING][..0] == [];
    assert Run(cfg, []) == INITIAL;
    var st := Run(cfg, [PLAYING]);
    assert st == Schedule(cfg, INITIAL, PLAYING.cue, 0.0);
    assert Run(cfg, [PLAYING, WAITING]) == Schedule(cfg, st, WAITING.cue, 1.0);
  }

  /** A queued motion that nothing on its layer holds back starts at a tick. */
  lemma TickStarts(st: State, now: real)
    requires |st.queued| == 1 && st.queued[0].layer == Gesture && Gesture !in st.active
    ensures var next := Tick(st, now);
      && next.queued == [] && Gesture in next.active && next.active[Gesture] == Restart(st.queued[0], now)
      && next.revision == st.revision + 1
  {
    var kept := KeepActive(st.active, c => IsExpired(c, now));
    KeepNothing(st.queued);
    var started := Restart(st.queued[0], now);
    assert Gesture !in kept && !Blocked(kept, st.queued[0]) && st.queued[1..] == [];
    assert Promote(kept[Gesture := started], st.queued[1..], now) == Pass(kept[Gesture := started], [], [], []);
    assert Promote(kept, st.queued, now).kept == [] && Promote(kept, st.queued, now).promoted == [started] + [];
    assert Promote(kept, st.queued, now).active == kept[Gesture := started];
  }

  lemma WaitsBehindInterrupt(cfg: Config, st: State, cue: AvatarCue, now: real)
    requires |st.queued| == 1 && st.queued[0].layer == Gesture && !Interruptible(st.queued[0])
    requires Gesture in st.active && Interruptible(st.active[Gesture])
    requires IsInterrupt(cue) && !Stale(st, cue) && Admitted(cfg, st, cue, now).0.layer == Override
    requires Override !in st.active
    ensures var next := Schedule(cfg, st, cue, now);
      next.queued == st.queued && Gesture !in next.active
  {
    var (c, st1) := Admitted(cfg, st, cue, now);
    assert st1.queued == KeepQueued(st.queued, Interruptible);
    assert st.queued[1..] == [] && KeepQueued(st.queued[1..], Interruptible) == [];
    assert !Blocked(st1.active, c) by {
      assert Override !in st1.active && Gesture !in st1.active;
    }
  }

  /** One motion waits, and nothing on its layer holds it back any more. */
  lemma UnsettledByStop(cfg: Config, st: State, next: State)
    requires {"a", "b"} <= cfg.capabilities.motions && cfg.maxQueueSize >= 1
    requires st == Run(cfg, [PLAYING, WAITING]) && next == Schedule(cfg, st, STOP.cue, 2.0)
    ensures !Settled(next) && |next.queued| == 1 && next.queued[0].layer == Gesture && Gesture !in next.active
  {
    WaitingMotion(cfg);
    RunKeepsInvariant(cfg, [PLAYING, WAITING]);
    WaitsBehindInterrupt(cfg, st, STOP.cue, 2.0);
    SettledAfterInterrupt(cfg, st, STOP.cue, 2.0);
  }

  lemma RunNext(cfg: Config, ops: seq<Operation>)
    requires ops != []
    ensures Run(cfg, ops) == Step(cfg, Run(cfg, ops[..|ops| - 1]), ops[|ops| - 1])
  {}

  /** The unsettled case is reachable: a motion is playing, a non-interruptible
      one waits for it, and an interrupt arrives. The waiting motion has nothing
      to wait for any more, but starts only at the next tick. */
  lemma InterruptCanUnsettle(cfg: Config, now: real)
    requires {"a", "b"} <= cfg.capabilities.motions && cfg.maxQueueSize >= 1
    ensures var st := Run(cfg, [PLAYING, WAITING, STOP]);
      && !Settled(st) && |st.queued| == 1 && Gesture !in st.active
      && Gesture in Tick(st, now).active && Tick(st, now).active[Gesture] == Restart(st.queued[0], now)
      && Settled(Tick(st, now))
  {
    hide Tick, Schedule, Restart, Blocked;
    var ops := [PLAYING, WAITING, STOP];
    assert ops[..2] == [PLAYING, WAITING];
    var next := Run(cfg, ops);
    RunNext(cfg, ops);
    UnsettledByStop(cfg, Run(cfg, [PLAYING, WAITING]), next);
    TickStarts(next, now);
  }

  // ----- What an invalidation removes and forbids -----

  ghost predicate NoneOf(active: ActiveMap, queued: seq<ScheduledCue>, generation: string) {
    && (forall layer :: layer in active ==> !OfGeneration(active[layer], generation))
    && (forall i :: 0 <= i < |queued| ==> !OfGeneration(queued[i], generation))
  }

  lemma {:induction false} PassKeepsNone(active: ActiveMap, q: seq<ScheduledCue>, now: real, generation: string)
    requires NoneOf(active, q, generation)
    ensures NoneOf(Promote(active, q, now).active, Promote(active, q, now).kept, generation)
    decreases |q|
  {
    if q != [] {
      var next := if Blocked(active, q[0]) then active else active[q[0].layer := Restart(q[0], now)];
      assert !OfGeneration(Restart(q[0], now), generation);
      PassKeepsNone(next, q[1..], now, generation);
    }
  }

  /** Invalidating a generation takes every one of its cues off the layers and out
      of the queue, for the empty generation too; its later cues are refused if
      and only if its name is not empty. */
  lemma InvalidatedIsGone(st: State, generation: string, now: real)
    ensures var next := InvalidateGeneration(st, generation, now);
      && NoneOf(next.active, next.queued, generation)
      && (forall cue: AvatarCue :: cue.generationId == Some(generation) ==> (Stale(next, cue) <==> generation != ""))
  {
    var mine := (c: ScheduledCue) => OfGeneration(c, generation);
    var active, queued := KeepActive(st.active, mine), KeepQueued(st.queued, mine);
    KeepQueuedIsSubsequence(st.queued, mine);
    forall i | 0 <= i < |queued|
      ensures !OfGeneration(queued[i], generation)
    {
      assert queued[i] in queued;
    }
    PassKeepsNone(active, queued, now, generation);
  }

  // ----- Published revisions -----

  /** A revision that did not move means that nothing a listener can see in
      the layers or the queue moved either. */
  lemma RevisionTracksChange(cfg: Config, st: State, op: Operation)
    ensures var next := Step(cfg, st, op);
      && st.revision <= next.revision <= st.revision + 1
      && (next.revision == st.revision ==> next.active == st.active && next.queued == st.queued && next.events == st.events)
  {
    match op
    case OpTick(now) =>
      KeepNothing(st.queued);
      var kept := KeepActive(st.active, c => IsExpired(c, now));
      if kept == st.active && Promote(kept, st.queued, now).promoted == [] {
        PassWithoutPromotion(kept, st.queued, now);
        NothingDropped(st.active, c => IsExpired(c, now), Expired);
      }
    case OpInvalidate(g, now) =>
      var mine := (c: ScheduledCue) => OfGeneration(c, g);
      var kept := KeepActive(st.active, mine);
      if kept == st.active && KeepQueued(st.queued, mine) == st.queued && Promote(kept, st.queued, now).promoted == [] {
        PassWithoutPromotion(kept, st.queued, now);
        NothingDropped(st.active, mine, Invalidated);
      }
    case _ =>
  }

  lemma {:induction false} PassWithoutPromotion(active: ActiveMap, q: seq<ScheduledCue>, nowMs: real)
    requires Promote(active, q, nowMs).promoted == []
    ensures Promote(active, q, nowMs) == Pass(active, q, [], [])
    decreases |q|
  {
    if q != [] {
      assert q == [q[0]] + q[1..];
      PassWithoutPromotion(active, q[1..], nowMs);
    }
  }

  lemma NothingDropped(active: ActiveMap, drop: ScheduledCue -> bool, reason: EndReason)
    requires KeepActive(active, drop) == active
    ensures DropEvents(active, drop, reason) == []
  {
    if Gesture in active {
      assert Gesture in KeepActive(active, drop);
    }
  }
}
