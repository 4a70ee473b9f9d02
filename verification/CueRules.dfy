/** What the scheduler does in terms of the fields of a cue: what it becomes when it
    is scheduled, what holds it back, the order of the queue, and why and when a
    cue leaves (packages/avatar-sdk/src/cue-scheduler.ts, capability-registry.ts). */
module CueRules {
  import opened Wrappers
  import opened AvatarCapabilities
  import opened CueScheduling
  import opened CueRuns

  // ----- What a cue becomes -----

  predicate Known(capabilities: Capabilities, cue: AvatarCue) {
    || (cue.kind == StateCue && cue.name in capabilities.states)
    || (cue.kind == ExpressionCue && cue.name in capabilities.expressions)
    || (cue.kind == MotionCue && cue.name in capabilities.motions)
    || (cue.kind == GazeCue && cue.name in capabilities.gazeTargets)
    || (cue.kind == SpeechCue && cue.name == "speaking" && capabilities.supportsLipsync)
    || (cue.kind == OverrideCue && cue.name == "interrupt")
  }

  predicate OnLayer(kind: CueKind, layer: Layer) {
    && (layer == Attention <==> kind == StateCue) && (layer == Emotion <==> kind == ExpressionCue)
    && (layer == Gesture <==> kind == MotionCue) && (layer == Gaze <==> kind == GazeCue)
    && (layer == Speech <==> kind == SpeechCue) && (layer == Override <==> kind == OverrideCue)
  }

  /** Without a duration of its own an expression lasts 1500, a motion 1200 and an
      override 350 milliseconds; states, gazes and speech last until replaced. */
  predicate Lasts(c: ScheduledCue) {
    match (c.cue.durationMs, c.expiresAtMs)
    case (Some(d), Some(end)) => end == c.startsAtMs + d as real
    case (None, Some(end)) =>
      || (c.cue.kind == ExpressionCue && end == c.startsAtMs + 1500.0)
      || (c.cue.kind == MotionCue && end == c.startsAtMs + 1200.0)
      || (c.cue.kind == OverrideCue && end == c.startsAtMs + 350.0)
    case (None, None) => c.cue.kind in {StateCue, GazeCue, SpeechCue}
    case (Some(_), None) => false
  }

  predicate Filled(c: ScheduledCue) {
    c.cue.intensity.Some? && c.cue.startAnchor.Some? && c.cue.priority.Some? && c.cue.interruptible.Some?
  }

  /** The cue that is scheduled keeps what it came with; what is missing becomes full
      intensity, an immediate start, priority 50 and interruptible. A cue the avatar
      does not know becomes an idle or neutral state, of 800 milliseconds if it had
      no duration. */
  predicate Becomes(capabilities: Capabilities, cue: AvatarCue, c: ScheduledCue) {
    && c.cue.cueId == cue.cueId && c.cue.generationId == cue.generationId
    && Filled(c) && OnLayer(c.cue.kind, c.layer)
    && (if Known(capabilities, cue) then
          c.cue.kind == cue.kind && c.cue.name == cue.name && c.cue.durationMs == cue.durationMs
        else
          && c.cue.kind == StateCue && c.cue.name == (if "idle" in capabilities.states then "idle" else "neutral")
          && c.cue.durationMs.Some? && c.cue.durationMs.value == (if cue.durationMs.Some? then cue.durationMs.value else 800))
    && c.cue.intensity.value == (if cue.intensity.Some? then cue.intensity.value else 1.0)
    && c.cue.startAnchor.value == (if cue.startAnchor.Some? then cue.startAnchor.value else "immediate")
    && c.cue.priority.value == (if cue.priority.Some? then cue.priority.value else 50)
    && c.cue.interruptible.value == (if cue.interruptible.Some? then cue.interruptible.value else true)
  }

  lemma AdmittedBecomes(cfg: Config, st: State, cue: AvatarCue, nowMs: real)
    ensures var c := Admitted(cfg, st, cue, nowMs).0;
      && Becomes(cfg.capabilities, cue, c) && Lasts(c) && c.sequence == st.sequence && c.startsAtMs == nowMs
  {}

  // ----- Every cue of every run is filled in -----

  ghost predicate AllFilled(active: ActiveMap, queued: seq<ScheduledCue>) {
    && (forall layer :: layer in active ==> Filled(active[layer]) && OnLayer(active[layer].cue.kind, active[layer].layer))
    && (forall c :: c in queued ==> Filled(c) && OnLayer(c.cue.kind, c.layer))
  }

  lemma {:induction false} PassKeepsFilled(active: ActiveMap, q: seq<ScheduledCue>, nowMs: real)
    requires AllFilled(active, q)
    ensures AllFilled(Promote(active, q, nowMs).active, Promote(active, q, nowMs).kept)
    decreases |q|
  {
    if q != [] {
      assert q[0] in q && forall c :: c in q[1..] ==> c in q;
      PassKeepsFilled(if Blocked(active, q[0]) then active else active[q[0].layer := Restart(q[0], nowMs)], q[1..], nowMs);
    }
  }

  lemma DropAndPromoteKeepsFilled(st: State, dropActive: ScheduledCue -> bool, dropQueued: ScheduledCue -> bool,
                                  reason: EndReason, nowMs: real)
    requires AllFilled(st.active, st.queued)
    ensures var t := DropAndPromote(st, dropActive, dropQueued, reason, nowMs); AllFilled(t.active, t.queued)
  {
    KeepQueuedIsSubsequence(st.queued, dropQueued);
    PassKeepsFilled(KeepActive(st.active, dropActive), KeepQueued(st.queued, dropQueued), nowMs);
  }

  lemma PlaceKeepsFilled(cfg: Config, st: State, c: ScheduledCue)
    requires AllFilled(st.active, st.queued) && Filled(c) && OnLayer(c.cue.kind, c.layer)
    ensures AllFilled(Place(cfg, st, c).active, Place(cfg, st, c).queued)
  {
    InsertSortedHolds(st.queued, c);
  }

  lemma AdmittedKeepsFilled(cfg: Config, st: State, cue: AvatarCue, nowMs: real)
    requires AllFilled(st.active, st.queued)
    ensures var st1 := Admitted(cfg, st, cue, nowMs).1; AllFilled(st1.active, st1.queued)
  {
    KeepQueuedIsSubsequence(st.queued, Interruptible);
  }

  lemma ScheduleKeepsFilled(cfg: Config, st: State, cue: AvatarCue, nowMs: real)
    requires AllFilled(st.active, st.queued)
    ensures var t := Schedule(cfg, st, cue, nowMs); AllFilled(t.active, t.queued)
  {
    AdmittedBecomes(cfg, st, cue, nowMs);
    AdmittedKeepsFilled(cfg, st, cue, nowMs);
    var (c, st1) := Admitted(cfg, st, cue, nowMs);
    PlaceKeepsFilled(cfg, st1, c);
  }

  lemma StepKeepsFilled(cfg: Config, st: State, op: Operation)
    requires AllFilled(st.active, st.queued)
    ensures AllFilled(Step(cfg, st, op).active, Step(cfg, st, op).queued)
  {
    match op
    case OpSchedule(cue, now) => ScheduleKeepsFilled(cfg, st, cue, now);
    case OpTick(now) => DropAndPromoteKeepsFilled(st, c => IsExpired(c, now), c => false, Expired, now);
    case OpInvalidate(g, now) =>
      DropAndPromoteKeepsFilled(st.(invalid := st.invalid + {g}), c => OfGeneration(c, g), c => OfGeneration(c, g), Invalidated, now);
    case OpMotionEnded(_, now) => PassKeepsFilled(st.active - {Gesture}, st.queued, now);
    case OpClear(layer, now) => PassKeepsFilled(st.active - {layer}, st.queued, now);
    case OpReset =>
  }

  lemma {:induction false} RunIsFilled(cfg: Config, ops: seq<Operation>)
    ensures AllFilled(Run(cfg, ops).active, Run(cfg, ops).queued)
  {
    if ops != [] {
      RunIsFilled(cfg, ops[..|ops| - 1]);
      StepKeepsFilled(cfg, Run(cfg, ops[..|ops| - 1]), ops[|ops| - 1]);
    }
  }

  // ----- What holds a cue back -----

  /** A cue that asks for it waits for the motion that plays; and it does not replace
      a cue of its layer that refuses interruption or has a higher priority. */
  predicate HeldBack(active: ActiveMap, c: ScheduledCue) {
    || (c.cue.startAnchor == Some("after_current_motion") && Gesture in active)
    || (c.layer in active && active[c.layer].cue.interruptible == Some(false))
    || (c.layer in active && Exceeds(active[c.layer].cue.priority, c.cue.priority))
  }

  predicate Exceeds(a: Option<int>, b: Option<int>) { a.Some? && b.Some? && a.value > b.value }

  lemma BlockedExactly(active: ActiveMap, c: ScheduledCue)
    requires Filled(c) && (c.layer in active ==> Filled(active[c.layer]))
    ensures Blocked(active, c) <==> HeldBack(active, c)
  {}

  // ----- The order of the queue -----

  /** In every run the queue is ordered by priority, the highest first, and cues of one
      priority by the number they got when they were scheduled. */
  lemma QueueInOrder(cfg: Config, ops: seq<Operation>, i: nat, j: nat)
    requires i < j < |Run(cfg, ops).queued|
    ensures var q := Run(cfg, ops).queued;
      && q[i].cue.priority.Some? && q[j].cue.priority.Some?
      && (q[i].cue.priority.value > q[j].cue.priority.value
          || (q[i].cue.priority.value == q[j].cue.priority.value && q[i].sequence < q[j].sequence))
  {
    RunIsFilled(cfg, ops);
    RunKeepsInvariant(cfg, ops);
    var q := Run(cfg, ops).queued;
    assert q[i] in q && q[j] in q && Before(q[i], q[j]);
  }

  /** A later cue has a larger number: the counter moves with every cue that is
      scheduled and with nothing else, and no cue has reached it. */
  lemma NumbersCount(cfg: Config, ops: seq<Operation>, op: Operation)
    ensures var st, next := Run(cfg, ops), Step(cfg, Run(cfg, ops), op);
      && next.sequence == st.sequence + (if op.OpSchedule? && Accepted(st, op.cue) then 1 else 0)
      && (forall i :: 0 <= i < |st.queued| ==> st.queued[i].sequence < st.sequence)
      && (forall layer :: layer in st.active ==> st.active[layer].sequence < st.sequence)
  {
    RunKeepsInvariant(cfg, ops);
  }

  predicate Accepted(st: State, cue: AvatarCue) {
    cue.generationId.None? || cue.generationId.value == "" || cue.generationId.value !in st.invalid
  }

  predicate WaitsForMotion(c: ScheduledCue) { c.layer == Gesture && c.cue.startAnchor == Some("after_current_motion") }

  /** The motion that plays has gone: a pass starts the first queued cue of the gesture
      layer, and no other that waits for the motion to end. */
  lemma {:induction false} OneMotionStarts(active: ActiveMap, q: seq<ScheduledCue>, now: real, i: nat, j: nat)
    requires i < j < |q| && WaitsForMotion(q[i]) && WaitsForMotion(q[j])
    ensures q[j] in Promote(active, q, now).kept
    ensures Gesture !in active && (forall k :: 0 <= k < i ==> q[k].layer != Gesture) ==> Restart(q[i], now) in Promote(active, q, now).promoted
    decreases |q|
  {
    var next := if Blocked(active, q[0]) then active else active[q[0].layer := Restart(q[0], now)];
    if i > 0 {
      OneMotionStarts(next, q[1..], now, i - 1, j - 1);
    } else {
      StillWaits(next, q[1..], now, j - 1);
    }
  }

  lemma {:induction false} StillWaits(active: ActiveMap, q: seq<ScheduledCue>, now: real, j: nat)
    requires j < |q| && WaitsForMotion(q[j]) && Gesture in active
    ensures q[j] in Promote(active, q, now).kept
    decreases |q|
  {
    if j > 0 {
      StillWaits(if Blocked(active, q[0]) then active else active[q[0].layer := Restart(q[0], now)], q[1..], now, j - 1);
    }
  }

  /** Of two queued motions of one priority that wait for the motion that plays, the
      one scheduled later never starts when that motion ends; the one scheduled first
      starts unless another queued motion is before it. */
  lemma FirstScheduledStarts(cfg: Config, ops: seq<Operation>, i: nat, j: nat, now: real)
    requires i < |Run(cfg, ops).queued| && j < |Run(cfg, ops).queued| && Gesture in Run(cfg, ops).active
    requires var q := Run(cfg, ops).queued;
      WaitsForMotion(q[i]) && WaitsForMotion(q[j]) && q[i].cue.priority == q[j].cue.priority && q[i].sequence < q[j].sequence
    ensures var st := Run(cfg, ops);
      var next := NotifyMotionEnded(st, st.active[Gesture].cue.cueId, now);
      && st.queued[j] in next.queued
      && ((forall k :: 0 <= k < |st.queued| && st.queued[k].layer == Gesture ==> k >= i) ==>
            MotionStarted(Restart(st.queued[i], now)) in next.events)
  {
    var st := Run(cfg, ops);
    RunKeepsInvariant(cfg, ops);
    assert j < i ==> Before(st.queued[j], st.queued[i]);
    var active := st.active - {Gesture};
    OneMotionStarts(active, st.queued, now, i, j);
    if forall k :: 0 <= k < |st.queued| && st.queued[k].layer == Gesture ==> k >= i {
      PromotedMotionIsTold(active, st.queued, now, Restart(st.queued[i], now));
    }
  }

  lemma {:induction false} PromotedMotionIsTold(active: ActiveMap, q: seq<ScheduledCue>, now: real, c: ScheduledCue)
    requires c in Promote(active, q, now).promoted && c.layer == Gesture
    ensures MotionStarted(c) in Promote(active, q, now).events
    decreases |q|
  {
    if Blocked(active, q[0]) {
      PromotedMotionIsTold(active, q[1..], now, c);
    } else {
      var x := Restart(q[0], now);
      if c == x {
        assert MotionStarted(c) in ActivationEvents(active, x);
      } else {
        PromotedMotionIsTold(active[x.layer := x], q[1..], now, c);
      }
    }
  }

  // ----- What leaves a layer -----

  predicate IsStop(cue: AvatarCue) { cue.kind == OverrideCue && cue.name == "interrupt" }

  /** The operation itself takes this active cue off its layer. */
  predicate Goes(st: State, op: Operation, c: ScheduledCue) {
    match op
    case OpSchedule(cue, _) => Accepted(st, cue) && IsStop(cue) && c.cue.interruptible != Some(false)
    case OpTick(now) => c.expiresAtMs.Some? && c.expiresAtMs.value <= now
    case OpInvalidate(generation, _) => c.cue.generationId.Some? && c.cue.generationId.value == generation
    case OpMotionEnded(id, _) => c.layer == Gesture && c.cue.cueId == id
    case OpClear(layer, _) => c.layer == layer
    case OpReset => true
  }

  /** Another cue may have taken the layer of this one. */
  predicate Replaces(c: ScheduledCue, other: ScheduledCue) {
    c.cue.interruptible == Some(true) && other.sequence != c.sequence && !Exceeds(c.cue.priority, other.cue.priority)
  }

  ghost predicate Fresh(active: ActiveMap, q: seq<ScheduledCue>) { AllFilled(active, q) && Apart(active, q) && NumbersDiffer(q) }

  ghost predicate NumbersDiffer(q: seq<ScheduledCue>) { forall i, j :: 0 <= i < j < |q| ==> q[i].sequence != q[j].sequence }

  lemma FreshNext(active: ActiveMap, q: seq<ScheduledCue>, now: real)
    requires q != [] && Fresh(active, q)
    ensures Fresh(if Blocked(active, q[0]) then active else active[q[0].layer := Restart(q[0], now)], q[1..])
  {
    assert q[0] in q && forall c :: c in q[1..] ==> c in q;
  }

  lemma MayReplace(active: ActiveMap, c: ScheduledCue)
    requires Filled(c) && !Blocked(active, c) && c.layer in active && Filled(active[c.layer])
    requires c.sequence != active[c.layer].sequence
    ensures Replaces(active[c.layer], c)
  {
    var before := active[c.layer];
    BlockedExactly(active, c);
    assert !before.cue.interruptible.value ==> before.cue.interruptible == Some(false);
    assert before.cue.interruptible.value ==> before.cue.interruptible == Some(true);
  }

  lemma {:induction false} PassReplaces(active: ActiveMap, q: seq<ScheduledCue>, now: real, layer: Layer)
    requires Fresh(active, q) && layer in active
    ensures var after := Promote(active, q, now).active;
      layer in after && (after[layer] == active[layer] || Replaces(active[layer], after[layer]))
    decreases |q|
  {
    if q != [] {
      var next := if Blocked(active, q[0]) then active else active[q[0].layer := Restart(q[0], now)];
      FreshNext(active, q, now);
      PassReplaces(next, q[1..], now, layer);
      PassKeepsFilled(next, q[1..], now);
      if next[layer] != active[layer] {
        MayReplace(active, Restart(q[0], now));
        NewSequence(next, q[1..], now, layer, active[layer].sequence);
      }
    }
  }

  /** No cue of this number is left to come. */
  lemma NewSequence(active: ActiveMap, q: seq<ScheduledCue>, now: real, layer: Layer, sequence: nat)
    requires layer in active && active[layer].sequence != sequence && forall k :: 0 <= k < |q| ==> q[k].sequence != sequence
    ensures layer in Promote(active, q, now).active ==> Promote(active, q, now).active[layer].sequence != sequence
  {
    if layer in Promote(active, q, now).active {
      PassActiveOrigin(active, q, now, layer);
    }
  }

  lemma GoneFromLayer(active: ActiveMap, q: seq<ScheduledCue>, now: real, layer: Layer, sequence: nat)
    requires layer !in active && forall k :: 0 <= k < |q| ==> q[k].sequence != sequence
    ensures layer in Promote(active, q, now).active ==> Promote(active, q, now).active[layer].sequence != sequence
  {
    if layer in Promote(active, q, now).active {
      PassActiveOrigin(active, q, now, layer);
    }
  }

  /** What one pass makes of a layer: its cue, if it went before the pass, does not
      come back; else it stays or is replaced. */
  lemma PassLeaves(active: ActiveMap, without: ActiveMap, q: seq<ScheduledCue>, now: real, layer: Layer)
    requires Fresh(active, q) && layer in active && without == map l | l in active && l in without :: active[l]
    ensures var after := Promote(without, q, now).active;
      if layer in without then layer in after && (after[layer] == active[layer] || Replaces(active[layer], after[layer]))
      else layer in after ==> after[layer].sequence != active[layer].sequence
  {
    if layer in without {
      PassReplaces(without, q, now, layer);
    } else {
      GoneFromLayer(without, q, now, layer, active[layer].sequence);
    }
  }

  lemma QueueStaysFresh(active: ActiveMap, q: seq<ScheduledCue>, drop: ScheduledCue -> bool)
    requires Fresh(active, q)
    ensures Fresh(active, KeepQueued(q, drop))
  {
    KeepQueuedIsSubsequence(q, drop);
    var small := KeepQueued(q, drop);
    var at: seq<nat> :| Embeds(at, small, q);
  }

  ghost predicate LeavesAs(st: State, next: State, op: Operation, layer: Layer)
    requires layer in st.active
  {
    if Goes(st, op, st.active[layer]) then
      layer in next.active ==> next.active[layer].sequence != st.active[layer].sequence
    else
      layer in next.active && (next.active[layer] == st.active[layer] || Replaces(st.active[layer], next.active[layer]))
  }

  lemma PlaceLeaves(cfg: Config, st: State, c: ScheduledCue, layer: Layer)
    requires AllFilled(st.active, st.queued) && Filled(c) && layer in st.active && st.active[layer].sequence != c.sequence
    ensures var after := Place(cfg, st, c).active;
      layer in after && (after[layer] == st.active[layer] || Replaces(st.active[layer], after[layer]))
  {
    if layer == c.layer && !Blocked(st.active, c) {
      MayReplace(st.active, c);
    }
  }

  lemma PlaceElsewhere(cfg: Config, st: State, c: ScheduledCue, layer: Layer)
    requires layer !in st.active
    ensures var after := Place(cfg, st, c).active; layer in after ==> after[layer] == c
  {}

  lemma AdmittedLeaves(cfg: Config, st: State, cue: AvatarCue, now: real, layer: Layer)
    requires AllFilled(st.active, st.queued) && layer in st.active && Accepted(st, cue)
    ensures var st1 := Admitted(cfg, st, cue, now).1;
      if Goes(st, OpSchedule(cue, now), st.active[layer]) then layer !in st1.active
      else layer in st1.active && st1.active[layer] == st.active[layer]
  {}

  lemma ScheduleLeaves(cfg: Config, st: State, cue: AvatarCue, now: real, layer: Layer)
    requires Inv(cfg, st) && AllFilled(st.active, st.queued) && layer in st.active
    ensures LeavesAs(st, Schedule(cfg, st, cue, now), OpSchedule(cue, now), layer)
  {
    if Accepted(st, cue) {
      AdmittedBecomes(cfg, st, cue, now);
      AdmittedKeepsFilled(cfg, st, cue, now);
      AdmittedLeaves(cfg, st, cue, now, layer);
      var (c, st1) := Admitted(cfg, st, cue, now);
      assert st.active[layer].sequence < c.sequence;
      hide Admitted, Place, Filled, AllFilled;
      if layer in st1.active {
        PlaceLeaves(cfg, st1, c, layer);
      } else {
        PlaceElsewhere(cfg, st1, c, layer);
      }
    }
  }

  lemma TickLeaves(cfg: Config, st: State, now: real, layer: Layer)
    requires Inv(cfg, st) && AllFilled(st.active, st.queued) && layer in st.active
    ensures LeavesAs(st, Tick(st, now), OpTick(now), layer)
  {
    hide Promote, Filled, OnLayer, Replaces;
    KeepNothing(st.queued);
    PassLeaves(st.active, KeepActive(st.active, c => IsExpired(c, now)), st.queued, now, layer);
  }

  lemma InvalidateLeaves(cfg: Config, st: State, g: string, now: real, layer: Layer)
    requires Inv(cfg, st) && AllFilled(st.active, st.queued) && layer in st.active
    ensures LeavesAs(st, InvalidateGeneration(st, g, now), OpInvalidate(g, now), layer)
  {
    hide Promote, Filled, OnLayer;
    QueueStaysFresh(st.active, st.queued, c => OfGeneration(c, g));
    PassLeaves(st.active, KeepActive(st.active, c => OfGeneration(c, g)), KeepQueued(st.queued, c => OfGeneration(c, g)), now, layer);
  }

  lemma StepLeaves(cfg: Config, st: State, op: Operation, layer: Layer)
    requires Inv(cfg, st) && AllFilled(st.active, st.queued) && layer in st.active
    ensures LeavesAs(st, Step(cfg, st, op), op, layer)
  {
    hide Promote, Filled, OnLayer, Tick, InvalidateGeneration, Schedule;
    match op
    case OpSchedule(cue, now) => ScheduleLeaves(cfg, st, cue, now, layer);
    case OpTick(now) => TickLeaves(cfg, st, now, layer);
    case OpInvalidate(g, now) => InvalidateLeaves(cfg, st, g, now, layer);
    case OpMotionEnded(_, now) => PassLeaves(st.active, st.active - {Gesture}, st.queued, now, layer);
    case OpClear(cleared, now) => PassLeaves(st.active, st.active - {cleared}, st.queued, now, layer);
    case OpReset =>
  }

  /** In every run an active cue leaves its layer if the operation takes it off;
      otherwise it stays, or an interruptible one is replaced by a cue of at least its
      priority. */
  lemma ActiveLeavesExactly(cfg: Config, ops: seq<Operation>, op: Operation, layer: Layer)
    requires layer in Run(cfg, ops).active
    ensures LeavesAs(Run(cfg, ops), Step(cfg, Run(cfg, ops), op), op, layer)
  {
    RunIsFilled(cfg, ops);
    RunKeepsInvariant(cfg, ops);
    StepLeaves(cfg, Run(cfg, ops), op, layer);
  }

  // ----- Why a motion ended -----

  function ReasonOf(op: Operation): EndReason {
    match op
    case OpTick(_) => Expired
    case OpMotionEnded(_, _) => Expired
    case _ => Invalidated
  }

  predicate EndsAs(told: seq<MotionEvent>, first: EndReason, rest: EndReason) {
    forall k :: 0 <= k < |told| && told[k].MotionEnded? ==> told[k].reason == if k == 0 then first else rest
  }

  lemma {:induction false} PassOnlyReplaces(active: ActiveMap, q: seq<ScheduledCue>, now: real)
    ensures EndsAs(Promote(active, q, now).events, Replaced, Replaced)
    decreases |q|
  {
    if q != [] {
      PassOnlyReplaces(if Blocked(active, q[0]) then active else active[q[0].layer := Restart(q[0], now)], q[1..], now);
    }
  }

  /** The motion that is taken off, then what the rest of the operation tells. */
  lemma ToldAfterDrop(active: ActiveMap, drop: ScheduledCue -> bool, reason: EndReason, rest: seq<MotionEvent>)
    requires Gesture in active ==> active[Gesture].layer == Gesture
    requires EndsAs(rest, Replaced, Replaced)
    ensures EndsAs(DropEvents(active, drop, reason) + rest, if Gesture in active && drop(active[Gesture]) then reason else Replaced, Replaced)
  {}

  predicate TellsWhy(st: State, next: State, op: Operation) {
    var first := if Gesture in st.active && Goes(st, op, st.active[Gesture]) then ReasonOf(op) else Replaced;
    st.events <= next.events && EndsAs(next.events[|st.events|..], first, Replaced)
  }

  lemma ScheduleTells(cfg: Config, st: State, cue: AvatarCue, now: real)
    requires Gesture in st.active ==> st.active[Gesture].layer == Gesture
    ensures TellsWhy(st, Schedule(cfg, st, cue, now), OpSchedule(cue, now))
  {
    if Accepted(st, cue) {
      AdmittedBecomes(cfg, st, cue, now);
      var (c, st1) := Admitted(cfg, st, cue, now);
      AdmittedTells(cfg, st, cue, now);
      PlaceTells(cfg, st1, c);
    }
  }

  lemma AdmittedTells(cfg: Config, st: State, cue: AvatarCue, now: real)
    requires Accepted(st, cue)
    ensures Admitted(cfg, st, cue, now).1.events == st.events + if IsStop(cue) then DropEvents(st.active, Interruptible, Invalidated) else []
  {}

  lemma PlaceTells(cfg: Config, st: State, c: ScheduledCue)
    ensures Place(cfg, st, c).events == st.events || Place(cfg, st, c).events == st.events + ActivationEvents(st.active, c)
    ensures EndsAs(ActivationEvents(st.active, c), Replaced, Replaced)
  {}

  lemma DropAndPromoteTells(st: State, dropActive: ScheduledCue -> bool, dropQueued: ScheduledCue -> bool, reason: EndReason,
                            now: real)
    requires Gesture in st.active ==> st.active[Gesture].layer == Gesture
    ensures var next := DropAndPromote(st, dropActive, dropQueued, reason, now);
      && st.events <= next.events
      && EndsAs(next.events[|st.events|..], if Gesture in st.active && dropActive(st.active[Gesture]) then reason else Replaced, Replaced)
  {
    var rest := Promote(KeepActive(st.active, dropActive), KeepQueued(st.queued, dropQueued), now).events;
    PassOnlyReplaces(KeepActive(st.active, dropActive), KeepQueued(st.queued, dropQueued), now);
    ToldAfterDrop(st.active, dropActive, reason, rest);
    var next := DropAndPromote(st, dropActive, dropQueued, reason, now);
    assert next.events[|st.events|..] == DropEvents(st.active, dropActive, reason) + rest;
  }

  lemma EndLayerTells(st: State, layer: Layer, reason: EndReason, now: real)
    requires layer in st.active && st.active[layer].layer == layer && (Gesture in st.active ==> st.active[Gesture].layer == Gesture)
    ensures var next := EndLayer(st, layer, reason, now);
      && st.events <= next.events
      && EndsAs(next.events[|st.events|..], if layer == Gesture then reason else Replaced, Replaced)
  {
    var rest := Promote(st.active - {layer}, st.queued, now).events;
    PassOnlyReplaces(st.active - {layer}, st.queued, now);
    var next := EndLayer(st, layer, reason, now);
    assert next.events[|st.events|..] == EndedEvents(st.active[layer], reason) + rest;
  }

  lemma StepTells(cfg: Config, st: State, op: Operation)
    requires Inv(cfg, st)
    ensures TellsWhy(st, Step(cfg, st, op), op)
  {
    match op
    case OpSchedule(cue, now) => ScheduleTells(cfg, st, cue, now);
    case OpTick(now) => DropAndPromoteTells(st, c => IsExpired(c, now), c => false, Expired, now);
    case OpInvalidate(g, now) =>
      DropAndPromoteTells(st.(invalid := st.invalid + {g}), c => OfGeneration(c, g), c => OfGeneration(c, g), Invalidated, now);
    case OpMotionEnded(id, now) =>
      if Gesture in st.active && st.active[Gesture].cue.cueId == id {
        EndLayerTells(st, Gesture, Expired, now);
      }
    case OpClear(layer, now) =>
      if layer in st.active {
        EndLayerTells(st, layer, Invalidated, now);
      }
    case OpReset => ToldAfterDrop(st.active, c => true, Invalidated, []);
  }

  lemma TellsAt(st: State, next: State, op: Operation, k: nat)
    requires TellsWhy(st, next, op) && |st.events| <= k < |next.events| && next.events[k].MotionEnded?
    ensures next.events[k].reason ==
            if k == |st.events| && Gesture in st.active && Goes(st, op, st.active[Gesture]) then ReasonOf(op) else Replaced
  {
    assert next.events[|st.events|..][k - |st.events|] == next.events[k];
  }

  /** The callback is told that a motion expired by a tick and by its own end, that it
      was invalidated by an invalidation, a clear, a reset and an interrupt, and of any
      other motion that it was replaced. */
  lemma EndsSayWhy(cfg: Config, ops: seq<Operation>, op: Operation, k: nat)
    requires var st, next := Run(cfg, ops), Step(cfg, Run(cfg, ops), op);
      |st.events| <= k < |next.events| && next.events[k].MotionEnded?
    ensures var st, next := Run(cfg, ops), Step(cfg, Run(cfg, ops), op);
      && st.events <= next.events
      && next.events[k].reason ==
         if k == |st.events| && Gesture in st.active && Goes(st, op, st.active[Gesture]) then ReasonOf(op) else Replaced
  {
    hide Step, Run, Inv, Goes, ReasonOf;
    RunKeepsInvariant(cfg, ops);
    StepTells(cfg, Run(cfg, ops), op);
    TellsAt(Run(cfg, ops), Step(cfg, Run(cfg, ops), op), op, k);
  }

  // ----- Where a scheduled cue goes -----

  function LatestOf(warnings: seq<Warning>, limit: nat): seq<Warning> {
    if |warnings| <= limit then warnings else warnings[|warnings| - limit..]
  }

  /** What an interrupt leaves before it is placed itself; other cues leave all. */
  ghost predicate Left(st: State, cue: AvatarCue, active: ActiveMap, queued: seq<ScheduledCue>) {
    && (forall layer :: layer in active <==> layer in st.active && (IsStop(cue) ==> st.active[layer].cue.interruptible == Some(false)))
    && (forall layer :: layer in active ==> active[layer] == st.active[layer])
    && SubsequenceOf(queued, st.queued)
    && (forall c :: c in queued <==> c in st.queued && (IsStop(cue) ==> c.cue.interruptible == Some(false)))
  }

  lemma {:induction false} SubsequenceSelf(q: seq<ScheduledCue>)
    ensures SubsequenceOf(q, q)
  {
    KeepQueuedIsSubsequence(q, c => false);
    KeepNothing(q);
  }

  lemma AdmittedDrops(cfg: Config, st: State, cue: AvatarCue, now: real)
    ensures var st1 := Admitted(cfg, st, cue, now).1;
      && st1.active == (if IsStop(cue) then KeepActive(st.active, Interruptible) else st.active)
      && st1.queued == (if IsStop(cue) then KeepQueued(st.queued, Interruptible) else st.queued)
  {}

  lemma StopLeaves(st: State, cue: AvatarCue)
    requires IsStop(cue)
    ensures Left(st, cue, KeepActive(st.active, Interruptible), KeepQueued(st.queued, Interruptible))
  {
    KeepQueuedIsSubsequence(st.queued, Interruptible);
  }

  lemma OthersLeave(st: State, cue: AvatarCue)
    requires !IsStop(cue)
    ensures Left(st, cue, st.active, st.queued)
  {
    SubsequenceSelf(st.queued);
  }

  lemma AdmittedLeavesBehind(cfg: Config, st: State, cue: AvatarCue, now: real)
    ensures Left(st, cue, Admitted(cfg, st, cue, now).1.active, Admitted(cfg, st, cue, now).1.queued)
  {
    hide Admitted, SubsequenceOf;
    AdmittedDrops(cfg, st, cue, now);
    if IsStop(cue) {
      StopLeaves(st, cue);
    } else {
      OthersLeave(st, cue);
    }
  }

  /** What the scheduler warns of when it takes a cue. */
  function TakenWarnings(cfg: Config, cue: AvatarCue, dropped: bool): seq<Warning> {
    (if Known(cfg.capabilities, cue) then [] else [Warning("avatar.capability_missing", cue.cueId)])
    + (if dropped then [Warning("avatar.cue_queue_full", cue.cueId)] else [])
  }

  /** A cue that nothing holds back becomes the active cue of its layer; one that is
      held back is queued, or dropped from a full queue. */
  ghost predicate Placed(cfg: Config, st: State, cue: AvatarCue, c: ScheduledCue, active: ActiveMap, queued: seq<ScheduledCue>,
                         next: State) {
    var full := |queued| >= cfg.maxQueueSize;
    && (if HeldBack(active, c) then
          next.active == active && (if full then next.queued == queued else multiset(next.queued) == multiset(queued) + multiset{c})
        else next.active == active[c.layer := c] && next.queued == queued)
    && next.warnings == LatestOf(st.warnings + TakenWarnings(cfg, cue, HeldBack(active, c) && full), cfg.maxWarnings)
    && next.sequence == st.sequence + 1 && next.revision == st.revision + 1 && next.invalid == st.invalid
  }

  lemma WarnOne(earlier: seq<Warning>, w: Warning, limit: nat)
    ensures Warn(LatestOf(earlier, limit), w, limit) == LatestOf(earlier + [w], limit)
  {
    if |earlier| > limit {
      assert (earlier + [w])[|earlier| + 1 - limit..] == (LatestOf(earlier, limit) + [w])[1..];
    }
  }

  lemma WarnIsLatest(cfg: Config, st: State, cue: AvatarCue, dropped: bool)
    requires |st.warnings| <= cfg.maxWarnings
    ensures var first := if Known(cfg.capabilities, cue) then st.warnings
                         else Warn(st.warnings, Warning("avatar.capability_missing", cue.cueId), cfg.maxWarnings);
      (if dropped then Warn(first, Warning("avatar.cue_queue_full", cue.cueId), cfg.maxWarnings) else first)
      == LatestOf(st.warnings + TakenWarnings(cfg, cue, dropped), cfg.maxWarnings)
  {
    var unknown, full := Warning("avatar.capability_missing", cue.cueId), Warning("avatar.cue_queue_full", cue.cueId);
    WarnOne(st.warnings, unknown, cfg.maxWarnings);
    WarnOne(st.warnings, full, cfg.maxWarnings);
    WarnOne(st.warnings + [unknown], full, cfg.maxWarnings);
    assert st.warnings + [] == st.warnings && st.warnings + [unknown] + [full] == st.warnings + [unknown, full];
    assert [unknown] + [] == [unknown] && [] + [full] == [full] && [unknown] + [full] == [unknown, full];
  }

  lemma PlaceIs(cfg: Config, st: State, c: ScheduledCue)
    requires Filled(c) && (c.layer in st.active ==> Filled(st.active[c.layer]))
    ensures var next, full := Place(cfg, st, c), |st.queued| >= cfg.maxQueueSize;
      && (if HeldBack(st.active, c) then
            next.active == st.active && (if full then next.queued == st.queued else multiset(next.queued) == multiset(st.queued) + multiset{c})
          else next.active == st.active[c.layer := c] && next.queued == st.queued)
      && next.warnings == (if HeldBack(st.active, c) && full then Warn(st.warnings, Warning("avatar.cue_queue_full", c.cue.cueId), cfg.maxWarnings)
                           else st.warnings)
      && next.sequence == st.sequence && next.invalid == st.invalid
  {
    BlockedExactly(st.active, c);
    InsertSortedHolds(st.queued, c);
  }

  lemma AdmittedRest(cfg: Config, st: State, cue: AvatarCue, now: real)
    ensures var st1 := Admitted(cfg, st, cue, now).1;
      && st1.sequence == st.sequence + 1 && st1.invalid == st.invalid && st1.revision == st.revision
      && st1.warnings == (if Known(cfg.capabilities, cue) then st.warnings
                          else Warn(st.warnings, Warning("avatar.capability_missing", cue.cueId), cfg.maxWarnings))
  {}

  /** In every run: scheduling a cue of a live generation. */
  lemma ScheduledExactly(cfg: Config, ops: seq<Operation>, cue: AvatarCue, now: real)
    returns (c: ScheduledCue, active: ActiveMap, queued: seq<ScheduledCue>)
    requires Accepted(Run(cfg, ops), cue)
    ensures Becomes(cfg.capabilities, cue, c) && Lasts(c) && c.startsAtMs == now && c.sequence == Run(cfg, ops).sequence
    ensures Left(Run(cfg, ops), cue, active, queued)
    ensures Placed(cfg, Run(cfg, ops), cue, c, active, queued, Schedule(cfg, Run(cfg, ops), cue, now))
  {
    var st := Run(cfg, ops);
    RunIsFilled(cfg, ops);
    RunKeepsInvariant(cfg, ops);
    AdmittedBecomes(cfg, st, cue, now);
    AdmittedLeavesBehind(cfg, st, cue, now);
    AdmittedRest(cfg, st, cue, now);
    var (c', st1) := Admitted(cfg, st, cue, now);
    c, active, queued := c', st1.active, st1.queued;
    PlaceIs(cfg, st1, c);
    WarnIsLatest(cfg, st, cue, HeldBack(active, c) && |queued| >= cfg.maxQueueSize);
  }

  /** A cue of an invalidated generation changes nothing but the warnings. */
  lemma StaleOnlyWarns(cfg: Config, ops: seq<Operation>, cue: AvatarCue, now: real)
    requires !Accepted(Run(cfg, ops), cue)
    ensures var st := Run(cfg, ops);
      Schedule(cfg, st, cue, now) ==
        st.(warnings := LatestOf(st.warnings + [Warning("avatar.stale_generation_cue", cue.cueId)], cfg.maxWarnings))
  {
    RunKeepsInvariant(cfg, ops);
  }

  // ----- The other operations -----

  /** A cue that comes out of the queue: the same cue on the same layer, starting now
      with the length it had. */
  predicate Resumes(q: ScheduledCue, c: ScheduledCue, now: real) {
    && c.cue == q.cue && c.layer == q.layer && c.sequence == q.sequence && c.startsAtMs == now
    && (c.expiresAtMs.Some? <==> q.expiresAtMs.Some?)
    && (c.expiresAtMs.Some? && q.expiresAtMs.value >= q.startsAtMs ==> c.expiresAtMs.value - now == q.expiresAtMs.value - q.startsAtMs)
    && (c.expiresAtMs.Some? && q.expiresAtMs.value < q.startsAtMs ==> c.expiresAtMs.value == now)
  }

  lemma {:induction false} PassTakesFromQueue(active: ActiveMap, q: seq<ScheduledCue>, now: real, layer: Layer)
    requires layer in Promote(active, q, now).active
    ensures var c := Promote(active, q, now).active[layer];
      (layer in active && c == active[layer]) || exists k :: 0 <= k < |q| && Resumes(q[k], c, now) && c.layer == layer
    decreases |q|
  {
    if q != [] {
      var next := if Blocked(active, q[0]) then active else active[q[0].layer := Restart(q[0], now)];
      PassTakesFromQueue(next, q[1..], now, layer);
      var c := Promote(active, q, now).active[layer];
      assert Resumes(q[0], Restart(q[0], now), now);
      if k :| 0 <= k < |q[1..]| && Resumes(q[1..][k], c, now) && c.layer == layer {
        assert q[k + 1] == q[1..][k];
      }
    }
  }

  /** The operation takes this queued cue out without starting it. */
  predicate Discards(op: Operation, c: ScheduledCue) {
    (op.OpInvalidate? && c.cue.generationId.Some? && c.cue.generationId.value == op.generation) || op.OpReset?
  }

  function NowOf(op: Operation): real
    requires !op.OpReset?
  {
    op.nowMs
  }

  /** Which of the operations beside `Schedule` let queued cues start. */
  predicate Promotes(st: State, op: Operation) {
    || op.OpTick? || op.OpInvalidate?
    || (op.OpMotionEnded? && Gesture in st.active && st.active[Gesture].cue.cueId == op.cueId)
    || (op.OpClear? && op.layer in st.active)
  }

  ghost predicate QueueAfter(st: State, next: State, op: Operation) {
    && SubsequenceOf(next.queued, st.queued)
    && (forall c :: c in next.queued ==> !Discards(op, c) && (Promotes(st, op) ==> HeldBack(next.active, c)))
    && (!Promotes(st, op) && !op.OpReset? ==> next.queued == st.queued && next.active == st.active)
    && (forall layer :: layer in next.active ==>
          || (layer in st.active && next.active[layer] == st.active[layer])
          || (Promotes(st, op) && exists k :: 0 <= k < |st.queued| && Resumes(st.queued[k], next.active[layer], NowOf(op)) && !Discards(op, st.queued[k])))
  }

  lemma PromotedQueue(active: ActiveMap, before: ActiveMap, q: seq<ScheduledCue>, queue: seq<ScheduledCue>, now: real)
    requires AllFilled(active, q) && SubsequenceOf(q, queue)
    requires forall layer :: layer in active ==> layer in before && active[layer] == before[layer]
    ensures var p := Promote(active, q, now);
      && SubsequenceOf(p.kept, queue)
      && (forall c :: c in p.kept ==> c in q && HeldBack(p.active, c))
      && (forall layer :: layer in p.active ==>
            || (layer in before && p.active[layer] == before[layer])
            || exists k :: 0 <= k < |q| && Resumes(q[k], p.active[layer], now))
  {
    var p := Promote(active, q, now);
    PromoteConserves(active, q, now);
    PromoteSettles(active, q, now);
    PassKeepsFilled(active, q, now);
    SubsequenceThrough(p.kept, q, queue);
    SubsequenceIn(p.kept, q);
    forall c | c in p.kept
      ensures HeldBack(p.active, c)
    {
      BlockedExactly(p.active, c);
    }
    forall layer | layer in p.active && !(layer in before && p.active[layer] == before[layer])
      ensures exists k :: 0 <= k < |q| && Resumes(q[k], p.active[layer], now)
    {
      PassTakesFromQueue(active, q, now, layer);
    }
  }

  lemma SubsequenceThrough(a: seq<ScheduledCue>, b: seq<ScheduledCue>, c: seq<ScheduledCue>)
    requires SubsequenceOf(a, b) && SubsequenceOf(b, c)
    ensures SubsequenceOf(a, c)
  {
    var at: seq<nat> :| Embeds(at, a, b);
    var on: seq<nat> :| Embeds(on, b, c);
    var through := seq(|at|, (i: nat) requires i < |at| => on[at[i]]);
    assert Embeds(through, a, c);
  }

  lemma SubsequenceIn(a: seq<ScheduledCue>, b: seq<ScheduledCue>)
    requires SubsequenceOf(a, b)
    ensures forall c :: c in a ==> c in b
  {
    var at: seq<nat> :| Embeds(at, a, b);
  }

  lemma TickQueue(st: State, now: real)
    requires AllFilled(st.active, st.queued)
    ensures QueueAfter(st, Tick(st, now), OpTick(now))
  {
    hide Filled, OnLayer, HeldBack, Resumes, Promote, SubsequenceOf;
    SubsequenceSelf(st.queued);
    KeepNothing(st.queued);
    PromotedQueue(KeepActive(st.active, c => IsExpired(c, now)), st.active, st.queued, st.queued, now);
  }

  lemma OthersKept(queued: seq<ScheduledCue>, g: string, now: real)
    ensures forall c :: c in KeepQueued(queued, x => OfGeneration(x, g)) ==> c in queued && !Discards(OpInvalidate(g, now), c)
  {
    KeepQueuedIsSubsequence(queued, x => OfGeneration(x, g));
  }

  lemma InvalidateQueue(st: State, g: string, now: real)
    requires AllFilled(st.active, st.queued)
    ensures QueueAfter(st, InvalidateGeneration(st, g, now), OpInvalidate(g, now))
  {
    hide Filled, OnLayer, HeldBack, Resumes, Promote, Discards, SubsequenceOf, OfGeneration;
    var mine := (c: ScheduledCue) => OfGeneration(c, g);
    var q := KeepQueued(st.queued, mine);
    KeepQueuedIsSubsequence(st.queued, mine);
    OthersKept(st.queued, g, now);
    PromotedQueue(KeepActive(st.active, mine), st.active, q, st.queued, now);
    assert forall k :: 0 <= k < |q| ==> q[k] in q;
  }

  lemma NothingDiscarded(op: Operation)
    requires !op.OpReset? && !op.OpInvalidate?
    ensures forall c :: !Discards(op, c)
  {}

  lemma EndLayerQueue(st: State, layer: Layer, reason: EndReason, now: real, op: Operation)
    requires AllFilled(st.active, st.queued) && layer in st.active
    requires Promotes(st, op) && !op.OpReset? && !op.OpInvalidate? && NowOf(op) == now
    ensures QueueAfter(st, EndLayer(st, layer, reason, now), op)
  {
    hide Filled, OnLayer, HeldBack, Resumes, Promote, SubsequenceOf, Discards, Promotes;
    SubsequenceSelf(st.queued);
    NothingDiscarded(op);
    PromotedQueue(st.active - {layer}, st.active, st.queued, st.queued, now);
  }

  lemma StepQueue(cfg: Config, st: State, op: Operation)
    requires AllFilled(st.active, st.queued) && !op.OpSchedule?
    ensures QueueAfter(st, Step(cfg, st, op), op)
  {
    hide Filled, OnLayer, HeldBack, Resumes, Promote, AllFilled;
    match op
    case OpTick(now) => TickQueue(st, now);
    case OpInvalidate(g, now) => InvalidateQueue(st, g, now);
    case OpMotionEnded(id, now) =>
      SubsequenceSelf(st.queued);
      if Gesture in st.active && st.active[Gesture].cue.cueId == id {
        EndLayerQueue(st, Gesture, Expired, now, op);
      }
    case OpClear(layer, now) =>
      SubsequenceSelf(st.queued);
      if layer in st.active {
        EndLayerQueue(st, layer, Invalidated, now, op);
      }
    case OpReset => assert Embeds([], [], st.queued);
  }

  /** In every run, the operations beside `Schedule`: the queue keeps its order; what
      stays in it is held back by what is active, if queued cues were let start; and
      what is active was so before or comes out of the queue. */
  lemma QueueAfterExactly(cfg: Config, ops: seq<Operation>, op: Operation)
    requires !op.OpSchedule?
    ensures QueueAfter(Run(cfg, ops), Step(cfg, Run(cfg, ops), op), op)
  {
    RunIsFilled(cfg, ops);
    StepQueue(cfg, Run(cfg, ops), op);
  }

  /** No queued cue is lost: it stays, is discarded by the operation, or starts. */
  lemma QueuedIsNotLost(cfg: Config, st: State, op: Operation, c: ScheduledCue)
    requires c in st.queued && Promotes(st, op) && !Discards(op, c)
    ensures c in Step(cfg, st, op).queued || exists x :: x in Started(st, op) && Resumes(c, x, NowOf(op))
  {
    match op
    case OpTick(now) => TickIsNotLost(st, now, c);
    case OpInvalidate(g, now) => InvalidatedIsNotLost(st, g, now, c);
    case OpMotionEnded(id, now) => EndedIsNotLost(st, id, now, c);
    case OpClear(layer, now) => ClearedIsNotLost(st, layer, now, c);
  }

  /** The cues that the pass of this operation starts. */
  function Started(st: State, op: Operation): seq<ScheduledCue> {
    match op
    case OpTick(now) => Promote(KeepActive(st.active, c => IsExpired(c, now)), KeepQueued(st.queued, c => false), now).promoted
    case OpInvalidate(g, now) =>
      Promote(KeepActive(st.active, c => OfGeneration(c, g)), KeepQueued(st.queued, c => OfGeneration(c, g)), now).promoted
    case OpMotionEnded(_, now) => Promote(st.active - {Gesture}, st.queued, now).promoted
    case OpClear(layer, now) => Promote(st.active - {layer}, st.queued, now).promoted
    case _ => []
  }

  lemma TickIsNotLost(st: State, now: real, c: ScheduledCue)
    requires c in st.queued
    ensures c in Tick(st, now).queued || exists x :: x in Started(st, OpTick(now)) && Resumes(c, x, now)
  {
    KeepNothing(st.queued);
    KeptOrPromoted(KeepActive(st.active, x => IsExpired(x, now)), st.queued, now, c);
  }

  lemma EndedIsNotLost(st: State, id: string, now: real, c: ScheduledCue)
    requires c in st.queued && Gesture in st.active && st.active[Gesture].cue.cueId == id
    ensures c in NotifyMotionEnded(st, id, now).queued || exists x :: x in Started(st, OpMotionEnded(id, now)) && Resumes(c, x, now)
  {
    KeptOrPromoted(st.active - {Gesture}, st.queued, now, c);
  }

  lemma ClearedIsNotLost(st: State, layer: Layer, now: real, c: ScheduledCue)
    requires c in st.queued && layer in st.active
    ensures c in ClearLayer(st, layer, now).queued || exists x :: x in Started(st, OpClear(layer, now)) && Resumes(c, x, now)
  {
    KeptOrPromoted(st.active - {layer}, st.queued, now, c);
  }

  lemma InvalidatedIsNotLost(st: State, g: string, now: real, c: ScheduledCue)
    requires c in st.queued && !OfGeneration(c, g)
    ensures c in InvalidateGeneration(st, g, now).queued
            || exists x :: x in Started(st, OpInvalidate(g, now)) && Resumes(c, x, now)
  {
    var mine := (x: ScheduledCue) => OfGeneration(x, g);
    KeepQueuedIsSubsequence(st.queued, mine);
    KeptOrPromoted(KeepActive(st.active, mine), KeepQueued(st.queued, mine), now, c);
  }

  lemma {:induction false} KeptOrPromoted(active: ActiveMap, q: seq<ScheduledCue>, now: real, c: ScheduledCue)
    requires c in q
    ensures c in Promote(active, q, now).kept || exists x :: x in Promote(active, q, now).promoted && Resumes(c, x, now)
    decreases |q|
  {
    var p := Promote(active, q, now);
    var next := if Blocked(active, q[0]) then active else active[q[0].layer := Restart(q[0], now)];
    if c == q[0] {
      if !Blocked(active, c) {
        assert Restart(c, now) in p.promoted && Resumes(c, Restart(c, now), now);
      }
    } else {
      assert q == [q[0]] + q[1..];
      KeptOrPromoted(next, q[1..], now, c);
      if x :| x in Promote(next, q[1..], now).promoted && Resumes(c, x, now) {
        assert x in p.promoted;
      }
    }
  }

  /** What no operation but these touches, and when the revision moves. */
  lemma OnlyTheseChange(cfg: Config, ops: seq<Operation>, op: Operation)
    ensures var st, next := Run(cfg, ops), Step(cfg, Run(cfg, ops), op);
      && next.invalid == (if op.OpReset? then {} else if op.OpInvalidate? then st.invalid + {op.generation} else st.invalid)
      && (!op.OpSchedule? ==> next.warnings == st.warnings)
  {}

  lemma {:induction false} PromotedShortens(active: ActiveMap, q: seq<ScheduledCue>, now: real)
    ensures |Promote(active, q, now).kept| + |Promote(active, q, now).promoted| == |q|
    decreases |q|
  {
    if q != [] {
      PromotedShortens(if Blocked(active, q[0]) then active else active[q[0].layer := Restart(q[0], now)], q[1..], now);
    }
  }

  lemma DroppedLayer(active: ActiveMap, drop: ScheduledCue -> bool) returns (layer: Layer)
    requires KeepActive(active, drop) != active
    ensures layer in active && drop(active[layer])
  {
    assert (forall l :: l in active ==> !drop(active[l])) ==> KeepActive(active, drop) == active;
    layer :| layer in active && drop(active[layer]);
  }

  lemma TickMoves(cfg: Config, ops: seq<Operation>, now: real)
    ensures var st, next := Run(cfg, ops), Tick(Run(cfg, ops), now);
      next.revision != st.revision ==> next.active != st.active || next.queued != st.queued
  {
    var st, drop := Run(cfg, ops), (c: ScheduledCue) => IsExpired(c, now);
    KeepNothing(st.queued);
    PromotedShortens(KeepActive(st.active, drop), st.queued, now);
    if KeepActive(st.active, drop) != st.active {
      var layer := DroppedLayer(st.active, drop);
      ActiveLeavesExactly(cfg, ops, OpTick(now), layer);
    }
  }

  lemma InvalidateMoves(cfg: Config, ops: seq<Operation>, g: string, now: real)
    ensures var st, next := Run(cfg, ops), InvalidateGeneration(Run(cfg, ops), g, now);
      next.revision != st.revision ==> next.active != st.active || next.queued != st.queued
  {
    var st, drop := Run(cfg, ops), (c: ScheduledCue) => OfGeneration(c, g);
    var q := KeepQueued(st.queued, drop);
    KeepQueuedIsSubsequence(st.queued, drop);
    PromotedShortens(KeepActive(st.active, drop), q, now);
    if KeepActive(st.active, drop) != st.active {
      var layer := DroppedLayer(st.active, drop);
      ActiveLeavesExactly(cfg, ops, OpInvalidate(g, now), layer);
    } else if q != st.queued {
      SubsequenceShorter(q, st.queued);
    } else {
      assert InvalidateGeneration(st, g, now).revision != st.revision ==> Promote(KeepActive(st.active, drop), q, now).promoted != [];
    }
  }

  lemma EndLayerMoves(cfg: Config, ops: seq<Operation>, op: Operation, layer: Layer)
    requires layer in Run(cfg, ops).active
    requires (op.OpClear? && op.layer == layer)
             || (op.OpMotionEnded? && layer == Gesture && op.cueId == Run(cfg, ops).active[Gesture].cue.cueId)
    ensures Step(cfg, Run(cfg, ops), op).active != Run(cfg, ops).active
  {
    hide Step;
    RunKeepsInvariant(cfg, ops);
    ActiveLeavesExactly(cfg, ops, op, layer);
  }

  lemma SubsequenceShorter(a: seq<ScheduledCue>, b: seq<ScheduledCue>)
    requires SubsequenceOf(a, b) && a != b
    ensures |a| < |b|
  {
    var at: seq<nat> :| Embeds(at, a, b);
    EmbedLength(at, |b|);
    if |a| == |b| {
      EmbedAll(at, |b|);
    }
  }

  lemma {:induction false} EmbedAll(at: seq<nat>, n: nat)
    requires |at| == n && (forall i :: 0 <= i < |at| ==> at[i] < n) && forall i, j :: 0 <= i < j < |at| ==> at[i] < at[j]
    ensures forall i :: 0 <= i < |at| ==> at[i] == i
  {
    if n > 0 {
      EmbedLength(at[..n - 1], at[n - 1]);
      EmbedAll(at[..n - 1], n - 1);
    }
  }

  /** The revision moves, by one, with every cue of a live generation, with a reset,
      and with any other operation if and only if the layers or the queue changed. */
  lemma RevisionMovesExactly(cfg: Config, ops: seq<Operation>, op: Operation)
    ensures var st, next := Run(cfg, ops), Step(cfg, Run(cfg, ops), op);
      var moves := if op.OpSchedule? then Accepted(st, op.cue) else op.OpReset? || next.active != st.active || next.queued != st.queued;
      next.revision == st.revision + if moves then 1 else 0
  {
    RevisionTracksChange(cfg, Run(cfg, ops), op);
    match op
    case OpTick(now) => TickMoves(cfg, ops, now);
    case OpInvalidate(g, now) => InvalidateMoves(cfg, ops, g, now);
    case OpClear(layer, now) =>
      if layer in Run(cfg, ops).active {
        EndLayerMoves(cfg, ops, op, layer);
      }
    case OpMotionEnded(id, now) =>
      if Gesture in Run(cfg, ops).active && Run(cfg, ops).active[Gesture].cue.cueId == id {
        EndLayerMoves(cfg, ops, op, Gesture);
      }
    case _ =>
  }
}
