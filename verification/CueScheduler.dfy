/** The cue scheduler: an object whose fields its methods update, with in-place
    removal loops.  Each method is proved to perform the
    transition of the same name in `CueScheduling`
    (packages/avatar-sdk/src/cue-scheduler.ts). */
module CueSchedulerObject {
  import opened Wrappers
  import opened AvatarCapabilities
  import opened CueScheduling

  datatype Snapshot = Snapshot(revision: nat, active: ActiveMap, queued: seq<ScheduledCue>, warnings: seq<Warning>)

  class CueScheduler {
    const config: Config
    var active: ActiveMap
    var queued: seq<ScheduledCue>
    var invalidGenerations: set<string>
    var warnings: seq<Warning>
    var revision: nat
    var sequence: nat
    /** What the motion callback has been told, oldest first. */
    var lifecycle: seq<MotionEvent>

    ghost function Model(): State
      reads this
    {
      State(active, queued, invalidGenerations, warnings, revision, sequence, lifecycle)
    }

    ghost predicate Valid()
      reads this
    {
      Inv(config, Model())
    }

    constructor (capabilities: Capabilities, maxQueueSize: nat, maxWarnings: nat)
      ensures Valid() && Model() == INITIAL
      ensures config == Config(capabilities, maxQueueSize, maxWarnings)
    {
      config := Config(capabilities, maxQueueSize, maxWarnings);
      active, queued, invalidGenerations, warnings := map[], [], {}, [];
      revision, sequence, lifecycle := 0, 0, [];
    }

    method Schedule(cue: AvatarCue, nowMs: real) returns (s: Snapshot)
      requires Valid()
      modifies this
      ensures Valid()
      ensures Model() == CueScheduling.Schedule(config, old(Model()), cue, nowMs)
      ensures s == Snapshot(revision, active, queued, warnings)
    {
      ScheduleKeepsInvariant(config, Model(), cue, nowMs);
      if cue.generationId.Some? && cue.generationId.value != "" && cue.generationId.value in invalidGenerations {
        PushWarning(Warning("avatar.stale_generation_cue", cue.cueId));
      } else {
        Admit(cue, nowMs);
      }
      s := TakeSnapshot();
    }

    method Tick(nowMs: real) returns (s: Snapshot)
      requires Valid()
      modifies this
      ensures Valid()
      ensures Model() == CueScheduling.Tick(old(Model()), nowMs)
      ensures s == Snapshot(revision, active, queued, warnings)
    {
      StepKeepsInvariant(config, Model(), OpTick(nowMs));
      KeepNothing(queued);
      var changed := RemoveActiveWhere(c => IsExpired(c, nowMs), Expired);
      var promoted := PromoteQueued(nowMs);
      changed := promoted || changed;
      if changed {
        revision := revision + 1;
      }
      s := TakeSnapshot();
    }

    method InvalidateGeneration(generation: string, nowMs: real) returns (s: Snapshot)
      requires Valid()
      modifies this
      ensures Valid()
      ensures Model() == CueScheduling.InvalidateGeneration(old(Model()), generation, nowMs)
      ensures s == Snapshot(revision, active, queued, warnings)
    {
      StepKeepsInvariant(config, Model(), OpInvalidate(generation, nowMs));
      invalidGenerations := invalidGenerations + {generation};
      var changed := RemoveActiveWhere(c => OfGeneration(c, generation), Invalidated);
      var removed := RemoveQueuedWhere(c => OfGeneration(c, generation));
      var promoted := PromoteQueued(nowMs);
      changed := promoted || removed || changed;
      if changed {
        revision := revision + 1;
      }
      s := TakeSnapshot();
    }

    method NotifyMotionEnded(cueId: string, nowMs: real) returns (s: Snapshot)
      requires Valid()
      modifies this
      ensures Valid()
      ensures Model() == CueScheduling.NotifyMotionEnded(old(Model()), cueId, nowMs)
      ensures s == Snapshot(revision, active, queued, warnings)
    {
      StepKeepsInvariant(config, Model(), OpMotionEnded(cueId, nowMs));
      if Gesture in active && active[Gesture].cue.cueId == cueId {
        EndActive(Gesture, Expired, nowMs);
      }
      s := TakeSnapshot();
    }

    method ClearLayer(layer: Layer, nowMs: real) returns (s: Snapshot)
      requires Valid()
      modifies this
      ensures Valid()
      ensures Model() == CueScheduling.ClearLayer(old(Model()), layer, nowMs)
      ensures s == Snapshot(revision, active, queued, warnings)
    {
      StepKeepsInvariant(config, Model(), OpClear(layer, nowMs));
      if layer in active {
        EndActive(layer, Invalidated, nowMs);
      }
      s := TakeSnapshot();
    }

    method Reset() returns (s: Snapshot)
      requires Valid()
      modifies this
      ensures Valid()
      ensures Model() == CueScheduling.Reset(old(Model()))
      ensures s == Snapshot(revision, active, queued, warnings)
    {
      StepKeepsInvariant(config, Model(), OpReset);
      var _ := RemoveActiveWhere(c => true, Invalidated);
      active, queued, invalidGenerations := map[], [], {};
      revision := revision + 1;
      s := TakeSnapshot();
    }

    method TakeSnapshot() returns (s: Snapshot)
      ensures s == Snapshot(revision, active, queued, warnings)
    {
      s := Snapshot(revision, active, queued, warnings);
    }

    // ----- Private parts -----

    /** The part of `Schedule` that runs for a cue of a live generation. */
    method Admit(cue: AvatarCue, nowMs: real)
      requires forall layer :: layer in active ==> active[layer].layer == layer
      requires !Stale(Model(), cue)
      modifies this
      ensures Model() == CueScheduling.Schedule(config, old(Model()), cue, nowMs)
    {
      var resolution := config.capabilities.Resolve(cue);
      if resolution.warning.Some? {
        PushWarning(resolution.warning.value);
      }
      var scheduled := CreateScheduled(resolution.cue, resolution.layer, sequence, nowMs);
      sequence := sequence + 1;
      if scheduled.cue.kind == OverrideCue && scheduled.cue.name == "interrupt" {
        InterruptActiveCues();
      }
      PlaceScheduled(scheduled);
      revision := revision + 1;
    }

    method PlaceScheduled(c: ScheduledCue)
      modifies this
      ensures Model() == Place(config, old(Model()), c)
    {
      if MustWaitForMotion(active, c) || !CanReplaceActive(active, c) {
        Enqueue(c);
      } else {
        Activate(c);
      }
    }

    /** The common tail of `NotifyMotionEnded` and `ClearLayer`. */
    method EndActive(layer: Layer, reason: EndReason, nowMs: real)
      requires layer in active
      modifies this
      ensures Model() == EndLayer(old(Model()), layer, reason, nowMs)
    {
      var ended := active[layer];
      active := active - {layer};
      EmitMotionEnded(ended, reason);
      var _ := PromoteQueued(nowMs);
      revision := revision + 1;
    }


    method PushWarning(w: Warning)
      modifies this`warnings
      ensures warnings == Warn(old(warnings), w, config.maxWarnings)
    {
      warnings := warnings + [w];
      if |warnings| > config.maxWarnings {
        warnings := warnings[1..];
      }
    }

    method EmitMotionEnded(c: ScheduledCue, reason: EndReason)
      modifies this`lifecycle
      ensures lifecycle == old(lifecycle) + EndedEvents(c, reason)
    {
      if c.layer == Gesture {
        lifecycle := lifecycle + [MotionEnded(c, reason)];
      }
    }

    method Activate(c: ScheduledCue)
      modifies this`active, this`lifecycle
      ensures active == old(active)[c.layer := c]
      ensures lifecycle == old(lifecycle) + ActivationEvents(old(active), c)
    {
      if c.layer in active {
        EmitMotionEnded(active[c.layer], Replaced);
      }
      active := active[c.layer := c];
      if c.layer == Gesture {
        lifecycle := lifecycle + [MotionStarted(c)];
      }
    }

    /** Push and sort: the insertion point is found by walking past every cue
        that is ordered before the new one. */
    method Enqueue(c: ScheduledCue)
      modifies this`queued, this`warnings
      ensures old(|queued|) >= config.maxQueueSize ==>
        queued == old(queued) && warnings == Warn(old(warnings), Warning("avatar.cue_queue_full", c.cue.cueId), config.maxWarnings)
      ensures old(|queued|) < config.maxQueueSize ==>
        queued == InsertSorted(old(queued), c) && warnings == old(warnings)
    {
      if |queued| >= config.maxQueueSize {
        PushWarning(Warning("avatar.cue_queue_full", c.cue.cueId));
        return;
      }
      var at := 0;
      while at < |queued| && Before(queued[at], c)
        invariant 0 <= at <= |queued|
        invariant InsertSorted(queued, c) == queued[..at] + InsertSorted(queued[at..], c)
      {
        assert queued[..at + 1] == queued[..at] + [queued[at]];
        assert queued[at..][1..] == queued[at + 1..];
        at := at + 1;
      }
      queued := queued[..at] + [c] + queued[at..];
    }

    /** The deletion loop over the layer map, in whatever order it is visited. */
    method RemoveActiveWhere(drop: ScheduledCue -> bool, reason: EndReason) returns (changed: bool)
      requires forall layer :: layer in active ==> active[layer].layer == layer
      modifies this`active, this`lifecycle
      ensures active == KeepActive(old(active), drop)
      ensures lifecycle == old(lifecycle) + DropEvents(old(active), drop, reason)
      ensures changed <==> active != old(active)
    {
      changed := false;
      var unvisited := active.Keys;
      ghost var before := active;
      while unvisited != {}
        invariant unvisited <= before.Keys
        invariant active == map layer | layer in before && (layer in unvisited || !drop(before[layer])) :: before[layer]
        invariant lifecycle == old(lifecycle) + (if Gesture in unvisited then [] else DropEvents(before, drop, reason))
        invariant changed <==> exists layer :: layer in before && layer !in unvisited && drop(before[layer])
        decreases unvisited
      {
        var layer :| layer in unvisited;
        unvisited := unvisited - {layer};
        var scheduled := active[layer];
        if drop(scheduled) {
          active := active - {layer};
          EmitMotionEnded(scheduled, reason);
          changed := true;
        }
      }
    }

    /** The backward splice loop over the queue. */
    method RemoveQueuedWhere(drop: ScheduledCue -> bool) returns (changed: bool)
      modifies this`queued
      ensures queued == KeepQueued(old(queued), drop)
      ensures changed <==> queued != old(queued)
    {
      changed := false;
      var index := |queued|;
      ghost var before := queued;
      while index > 0
        invariant 0 <= index <= |before|
        invariant |queued| >= index && queued[..index] == before[..index]
        invariant queued[index..] == KeepQueued(before[index..], drop)
        invariant changed <==> |queued| < |before|
        invariant |queued| <= |before|
      {
        index := index - 1;
        assert before[index..] == [before[index]] + before[index + 1..];
        assert queued[index] == queued[..index + 1][index] == before[index];
        if drop(queued[index]) {
          queued := queued[..index] + queued[index + 1..];
          changed := true;
        }
      }
      KeepQueuedShorter(before, drop);
    }

    method InterruptActiveCues()
      requires forall layer :: layer in active ==> active[layer].layer == layer
      modifies this`active, this`queued, this`lifecycle
      ensures active == KeepActive(old(active), Interruptible)
      ensures queued == KeepQueued(old(queued), Interruptible)
      ensures lifecycle == old(lifecycle) + DropEvents(old(active), Interruptible, Invalidated)
    {
      var _ := RemoveActiveWhere(Interruptible, Invalidated);
      var _ := RemoveQueuedWhere(Interruptible);
    }

    /** The promotion loop: an index that only moves past blocked cues. */
    method PromoteQueued(nowMs: real) returns (changed: bool)
      modifies this`active, this`queued, this`lifecycle
      ensures var p := Promote(old(active), old(queued), nowMs);
        && active == p.active && queued == p.kept
        && lifecycle == old(lifecycle) + p.events
        && (changed <==> p.promoted != [])
    {
      changed := false;
      var index := 0;
      ghost var whole := Promote(active, queued, nowMs);
      ghost var promoted := [];
      ghost var emitted := [];
      while index < |queued|
        invariant 0 <= index <= |queued|
        invariant lifecycle == old(lifecycle) + emitted
        invariant changed <==> promoted != []
        invariant Continues(whole, queued[..index], promoted, emitted, Promote(active, queued[index..], nowMs))
        decreases |queued| - index
      {
        var candidate := queued[index];
        ghost var head, tail := queued[..index], queued[index..];
        assert tail[0] == candidate && tail[1..] == queued[index + 1..];
        if MustWaitForMotion(active, candidate) || !CanReplaceActive(active, candidate) {
          PassSkips(whole, head, promoted, emitted, active, tail, nowMs);
          assert queued[..index + 1] == head + [candidate];
          index := index + 1;
          continue;
        }
        var restarted := Restart(candidate, nowMs);
        PassTakes(whole, head, promoted, emitted, active, tail, nowMs);
        promoted, emitted := promoted + [restarted], emitted + ActivationEvents(active, restarted);
        queued := queued[..index] + queued[index + 1..];
        assert queued[..index] == head && queued[index..] == tail[1..];
        Activate(restarted);
        changed := true;
      }
    }
  }

  /** A pass that has kept, promoted and emitted so much and has `rest` to come. */
  ghost predicate Continues(whole: Pass, kept: seq<ScheduledCue>, promoted: seq<ScheduledCue>,
                            events: seq<MotionEvent>, rest: Pass) {
    && whole.active == rest.active
    && whole.kept == kept + rest.kept
    && whole.promoted == promoted + rest.promoted
    && whole.events == events + rest.events
  }

  lemma PassSkips(whole: Pass, kept: seq<ScheduledCue>, promoted: seq<ScheduledCue>, events: seq<MotionEvent>,
                  active: ActiveMap, tail: seq<ScheduledCue>, nowMs: real)
    requires tail != [] && Blocked(active, tail[0])
    requires Continues(whole, kept, promoted, events, Promote(active, tail, nowMs))
    ensures Continues(whole, kept + [tail[0]], promoted, events, Promote(active, tail[1..], nowMs))
  {}

  lemma PassTakes(whole: Pass, kept: seq<ScheduledCue>, promoted: seq<ScheduledCue>, events: seq<MotionEvent>,
                  active: ActiveMap, tail: seq<ScheduledCue>, nowMs: real)
    requires tail != [] && !Blocked(active, tail[0])
    requires Continues(whole, kept, promoted, events, Promote(active, tail, nowMs))
    ensures var c := Restart(tail[0], nowMs);
      Continues(whole, kept, promoted + [c], events + ActivationEvents(active, c),
                Promote(active[c.layer := c], tail[1..], nowMs))
  {}

  lemma {:induction false} KeepQueuedShorter(q: seq<ScheduledCue>, drop: ScheduledCue -> bool)
    ensures |KeepQueued(q, drop)| <= |q|
    ensures |KeepQueued(q, drop)| == |q| ==> KeepQueued(q, drop) == q
  {
    if q != [] {
      KeepQueuedShorter(q[1..], drop);
    }
  }
}
