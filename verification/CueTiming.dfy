/** How long cues of the scheduler last: a cue that had to wait is timed for its
    whole duration when it starts, and a tick leaves nothing expired behind
    (packages/avatar-sdk/src/cue-scheduler.ts). */
module CueTiming {
  import opened Wrappers
  import opened AvatarCapabilities
  import opened CueScheduling

  /** What a cue asks for, or the default of its kind; None lasts until replaced. */
  function Length(cue: AvatarCue): Option<nat> {
    if cue.durationMs.Some? then cue.durationMs else DefaultDuration(cue.kind)
  }

  /** The cue ends its whole length after its latest start. */
  predicate Timed(c: ScheduledCue) {
    match Length(c.cue)
    case None => c.expiresAtMs == None
    case Some(d) => c.expiresAtMs == Some(c.startsAtMs + d as real)
  }

  ghost predicate AllTimed(active: ActiveMap, queued: seq<ScheduledCue>) {
    (forall layer :: layer in active ==> Timed(active[layer])) && (forall c :: c in queued ==> Timed(c))
  }

  lemma RestartTimed(c: ScheduledCue, nowMs: real)
    requires Timed(c)
    ensures Timed(Restart(c, nowMs)) && Restart(c, nowMs).startsAtMs == nowMs
  {}

  lemma {:induction false} PassKeepsTimed(active: ActiveMap, q: seq<ScheduledCue>, nowMs: real)
    requires AllTimed(active, q)
    ensures var p := Promote(active, q, nowMs); AllTimed(p.active, p.kept)
    decreases |q|
  {
    if q != [] {
      assert q[0] in q && forall c :: c in q[1..] ==> c in q;
      RestartTimed(q[0], nowMs);
      if Blocked(active, q[0]) {
        PassKeepsTimed(active, q[1..], nowMs);
      } else {
        PassKeepsTimed(active[q[0].layer := Restart(q[0], nowMs)], q[1..], nowMs);
      }
    }
  }

  lemma {:induction false} KeptAreQueued(q: seq<ScheduledCue>, drop: ScheduledCue -> bool)
    ensures forall c :: c in KeepQueued(q, drop) ==> c in q
  {
    if q != [] {
      KeptAreQueued(q[1..], drop);
    }
  }

  lemma DropAndPromoteKeepsTimed(st: State, dropActive: ScheduledCue -> bool, dropQueued: ScheduledCue -> bool,
                                 reason: EndReason, nowMs: real)
    requires AllTimed(st.active, st.queued)
    ensures var t := DropAndPromote(st, dropActive, dropQueued, reason, nowMs); AllTimed(t.active, t.queued)
  {
    KeptAreQueued(st.queued, dropQueued);
    PassKeepsTimed(KeepActive(st.active, dropActive), KeepQueued(st.queued, dropQueued), nowMs);
  }

  lemma CreatedTimed(cue: AvatarCue, layer: Layer, sequence: nat, nowMs: real)
    ensures Timed(CreateScheduled(cue, layer, sequence, nowMs))
  {}

  lemma AdmittedTimed(cfg: Config, st: State, cue: AvatarCue, nowMs: real)
    requires AllTimed(st.active, st.queued)
    ensures var (c, st1) := Admitted(cfg, st, cue, nowMs); Timed(c) && AllTimed(st1.active, st1.queued)
  {
    var r := cfg.capabilities.Resolve(cue);
    CreatedTimed(r.cue, r.layer, st.sequence, nowMs);
    KeptAreQueued(st.queued, Interruptible);
  }

  lemma PlaceKeepsTimed(cfg: Config, st: State, c: ScheduledCue)
    requires AllTimed(st.active, st.queued) && Timed(c)
    ensures AllTimed(Place(cfg, st, c).active, Place(cfg, st, c).queued)
  {
    InsertSortedHolds(st.queued, c);
    forall x | x in InsertSorted(st.queued, c)
      ensures x in st.queued || x == c
    {
      assert x in multiset(InsertSorted(st.queued, c));
    }
  }

  lemma ScheduleKeepsTimed(cfg: Config, st: State, cue: AvatarCue, nowMs: real)
    requires AllTimed(st.active, st.queued)
    ensures var t := Schedule(cfg, st, cue, nowMs); AllTimed(t.active, t.queued)
  {
    if !Stale(st, cue) {
      AdmittedTimed(cfg, st, cue, nowMs);
      var (c, st1) := Admitted(cfg, st, cue, nowMs);
      PlaceKeepsTimed(cfg, st1, c);
    }
  }

  lemma EndLayerKeepsTimed(st: State, layer: Layer, reason: EndReason, nowMs: real)
    requires AllTimed(st.active, st.queued)
    ensures var t := EndLayer(st, layer, reason, nowMs); AllTimed(t.active, t.queued)
  {
    PassKeepsTimed(st.active - {layer}, st.queued, nowMs);
  }

  lemma StepKeepsTimed(cfg: Config, st: State, op: Operation)
    requires AllTimed(st.active, st.queued)
    ensures AllTimed(Step(cfg, st, op).active, Step(cfg, st, op).queued)
  {
    match op
    case OpSchedule(cue, now) => ScheduleKeepsTimed(cfg, st, cue, now);
    case OpTick(now) => DropAndPromoteKeepsTimed(st, c => IsExpired(c, now), c => false, Expired, now);
    case OpInvalidate(g, now) =>
      DropAndPromoteKeepsTimed(st.(invalid := st.invalid + {g}), c => OfGeneration(c, g), c => OfGeneration(c, g), Invalidated, now);
    case OpMotionEnded(_, now) => EndLayerKeepsTimed(st, Gesture, Expired, now);
    case OpClear(layer, now) => EndLayerKeepsTimed(st, layer, Invalidated, now);
    case OpReset =>
  }

  /** In every run every active and every queued cue ends its whole length after
      its latest start. */
  lemma {:induction false} RunKeepsTimed(cfg: Config, ops: seq<Operation>)
    ensures AllTimed(Run(cfg, ops).active, Run(cfg, ops).queued)
  {
    if ops != [] {
      RunKeepsTimed(cfg, ops[..|ops| - 1]);
      StepKeepsTimed(cfg, Run(cfg, ops[..|ops| - 1]), ops[|ops| - 1]);
    }
  }

  /** An active cue after a pass was active before or starts now. */
  lemma {:induction false} PassStarts(active: ActiveMap, q: seq<ScheduledCue>, nowMs: real, layer: Layer)
    requires layer in Promote(active, q, nowMs).active
    ensures var c := Promote(active, q, nowMs).active[layer];
      (layer in active && c == active[layer]) || c.startsAtMs == nowMs
    decreases |q|
  {
    if q != [] {
      if Blocked(active, q[0]) {
        PassStarts(active, q[1..], nowMs, layer);
      } else {
        PassStarts(active[q[0].layer := Restart(q[0], nowMs)], q[1..], nowMs, layer);
      }
    }
  }

  lemma DropAndPromoteStarts(st: State, dropActive: ScheduledCue -> bool, dropQueued: ScheduledCue -> bool,
                             reason: EndReason, nowMs: real, layer: Layer)
    requires layer in DropAndPromote(st, dropActive, dropQueued, reason, nowMs).active
    ensures var c := DropAndPromote(st, dropActive, dropQueued, reason, nowMs).active[layer];
      c.startsAtMs == nowMs || !dropActive(c)
  {
    PassStarts(KeepActive(st.active, dropActive), KeepQueued(st.queued, dropQueued), nowMs, layer);
  }

  lemma TickStarts(st: State, nowMs: real, layer: Layer)
    requires layer in Tick(st, nowMs).active
    ensures Tick(st, nowMs).active[layer].startsAtMs == nowMs || !IsExpired(Tick(st, nowMs).active[layer], nowMs)
  {
    DropAndPromoteStarts(st, c => IsExpired(c, nowMs), c => false, Expired, nowMs, layer);
  }

  lemma ExpiredAtStart(c: ScheduledCue, nowMs: real)
    requires Timed(c) && IsExpired(c, nowMs) && c.startsAtMs == nowMs
    ensures Length(c.cue) == Some(0)
  {}

  lemma TickKeepsTimed(cfg: Config, st: State, nowMs: real, layer: Layer)
    requires AllTimed(st.active, st.queued) && layer in Tick(st, nowMs).active
    ensures Timed(Tick(st, nowMs).active[layer])
  {
    StepKeepsTimed(cfg, st, OpTick(nowMs));
  }

  /** After a tick the only active cues that have expired are cues of length zero
      which this very tick took from the queue; the next tick removes them. */
  lemma TickLeavesNothingExpired(cfg: Config, ops: seq<Operation>, nowMs: real, layer: Layer)
    ensures var active := Tick(Run(cfg, ops), nowMs).active;
      layer in active && IsExpired(active[layer], nowMs) ==>
        active[layer].startsAtMs == nowMs && Length(active[layer].cue) == Some(0)
  {
    var active := Tick(Run(cfg, ops), nowMs).active;
    if layer in active && IsExpired(active[layer], nowMs) {
      RunKeepsTimed(cfg, ops);
      TickKeepsTimed(cfg, Run(cfg, ops), nowMs, layer);
      TickStarts(Run(cfg, ops), nowMs, layer);
      ExpiredAtStart(active[layer], nowMs);
    }
  }
}
