/** The scheduler's transitions as functions on a state value, and what every
    run of them keeps.  `CueScheduler` is the mutable class proved against them
    (packages/avatar-sdk/src/cue-scheduler.ts). */
module CueScheduling {
  import opened Wrappers
  import opened AvatarCapabilities

  datatype ScheduledCue = ScheduledCue(
    cue: AvatarCue,
    layer: Layer,
    sequence: nat,
    startsAtMs: real,
    expiresAtMs: Option<real>)

  datatype EndReason = Expired | Replaced | Invalidated

  datatype MotionEvent = MotionStarted(cue: ScheduledCue) | MotionEnded(cue: ScheduledCue, reason: EndReason)

  type ActiveMap = map<Layer, ScheduledCue>

  datatype Config = Config(capabilities: Capabilities, maxQueueSize: nat, maxWarnings: nat)

  datatype State = State(
    active: ActiveMap,
    queued: seq<ScheduledCue>,
    invalid: set<string>,
    warnings: seq<Warning>,
    revision: nat,
    sequence: nat,
    events: seq<MotionEvent>)

  const INITIAL := State(map[], [], {}, [], 0, 0, [])

  // ----- Reading a cue -----

  function Priority(s: ScheduledCue): int { s.cue.priority.GetOr(50) }

  predicate Interruptible(s: ScheduledCue) { s.cue.interruptible != Some(false) }

  function DefaultDuration(kind: CueKind): Option<nat> {
    match kind
    case StateCue | GazeCue | SpeechCue => None
    case ExpressionCue => Some(1500)
    case MotionCue => Some(1200)
    case OverrideCue => Some(350)
  }

  function CreateScheduled(cue: AvatarCue, layer: Layer, sequence: nat, nowMs: real): ScheduledCue {
    var duration := if cue.durationMs.Some? then cue.durationMs else DefaultDuration(cue.kind);
    ScheduledCue(
      cue.(intensity := Some(cue.intensity.GetOr(1.0)),
           interruptible := Some(cue.interruptible.GetOr(true)),
           priority := Some(cue.priority.GetOr(50)),
           startAnchor := Some(cue.startAnchor.GetOr("immediate"))),
      layer, sequence, nowMs,
      if duration.None? then None else Some(nowMs + duration.value as real))
  }

  function Max(a: real, b: real): real { if a < b then b else a }

  /** A promoted cue keeps its identity and its length, and starts now. */
  function Restart(c: ScheduledCue, nowMs: real): ScheduledCue {
    c.(startsAtMs := nowMs,
       expiresAtMs := if c.expiresAtMs.None? then None
                      else Some(nowMs + Max(0.0, c.expiresAtMs.value - c.startsAtMs)))
  }

  predicate IsExpired(c: ScheduledCue, nowMs: real) {
    c.expiresAtMs.Some? && c.expiresAtMs.value <= nowMs
  }

  // ----- What a cue has to wait for -----

  predicate MustWaitForMotion(active: ActiveMap, c: ScheduledCue) {
    c.cue.startAnchor == Some("after_current_motion") && Gesture in active
  }

  predicate CanReplaceActive(active: ActiveMap, c: ScheduledCue) {
    c.layer in active ==>
      Interruptible(active[c.layer]) && Priority(c) >= Priority(active[c.layer])
  }

  predicate Blocked(active: ActiveMap, c: ScheduledCue) {
    MustWaitForMotion(active, c) || !CanReplaceActive(active, c)
  }

  // ----- Pieces of a transition -----

  function EndedEvents(c: ScheduledCue, reason: EndReason): seq<MotionEvent> {
    if c.layer == Gesture then [MotionEnded(c, reason)] else []
  }

  function ActivationEvents(active: ActiveMap, c: ScheduledCue): seq<MotionEvent> {
    (if c.layer in active then EndedEvents(active[c.layer], Replaced) else [])
    + (if c.layer == Gesture then [MotionStarted(c)] else [])
  }

  function KeepActive(active: ActiveMap, drop: ScheduledCue -> bool): ActiveMap {
    map layer | layer in active && !drop(active[layer]) :: active[layer]
  }

  function DropEvents(active: ActiveMap, drop: ScheduledCue -> bool, reason: EndReason): seq<MotionEvent> {
    if Gesture in active && drop(active[Gesture]) then EndedEvents(active[Gesture], reason) else []
  }

  function KeepQueued(queued: seq<ScheduledCue>, drop: ScheduledCue -> bool): seq<ScheduledCue> {
    if queued == [] then []
    else if drop(queued[0]) then KeepQueued(queued[1..], drop)
    else [queued[0]] + KeepQueued(queued[1..], drop)
  }

  function Warn(warnings: seq<Warning>, w: Warning, limit: nat): seq<Warning> {
    if |warnings| + 1 > limit then (warnings + [w])[1..] else warnings + [w]
  }

  /** The order the queue is sorted by: higher priority first, then older first. */
  predicate Before(a: ScheduledCue, b: ScheduledCue) {
    Priority(a) > Priority(b) || (Priority(a) == Priority(b) && a.sequence < b.sequence)
  }

  ghost predicate Sorted(q: seq<ScheduledCue>) {
    forall i, j :: 0 <= i < j < |q| ==> Before(q[i], q[j])
  }

  /** Where a push followed by the sort puts a cue (see `SortedPermutationUnique`). */
  function InsertSorted(q: seq<ScheduledCue>, c: ScheduledCue): seq<ScheduledCue> {
    if q == [] then [c]
    else if Before(q[0], c) then [q[0]] + InsertSorted(q[1..], c)
    else [c] + q
  }

  datatype Pass = Pass(active: ActiveMap, kept: seq<ScheduledCue>, promoted: seq<ScheduledCue>, events: seq<MotionEvent>)

  /** One left-to-right pass over the queue, promoting whatever is not blocked. */
  function Promote(active: ActiveMap, queued: seq<ScheduledCue>, nowMs: real): (p: Pass)
    decreases |queued|
  {
    if queued == [] then Pass(active, [], [], [])
    else if Blocked(active, queued[0]) then
      var rest := Promote(active, queued[1..], nowMs);
      rest.(kept := [queued[0]] + rest.kept)
    else
      var c := Restart(queued[0], nowMs);
      var rest := Promote(active[c.layer := c], queued[1..], nowMs);
      rest.(promoted := [c] + rest.promoted, events := ActivationEvents(active, c) + rest.events)
  }

  function PromoteIn(st: State, nowMs: real): State {
    var p := Promote(st.active, st.queued, nowMs);
    st.(active := p.active, queued := p.kept, events := st.events + p.events)
  }

  // ----- The public operations -----

  predicate Stale(st: State, cue: AvatarCue) {
    cue.generationId.Some? && cue.generationId.value != "" && cue.generationId.value in st.invalid
  }

  function Interrupt(st: State): State {
    st.(active := KeepActive(st.active, Interruptible),
        queued := KeepQueued(st.queued, Interruptible),
        events := st.events + DropEvents(st.active, Interruptible, Invalidated))
  }

  function Enqueue(cfg: Config, st: State, c: ScheduledCue): State {
    if |st.queued| >= cfg.maxQueueSize then
      st.(warnings := Warn(st.warnings, Warning("avatar.cue_queue_full", c.cue.cueId), cfg.maxWarnings))
    else
      st.(queued := InsertSorted(st.queued, c))
  }

  function Activate(st: State, c: ScheduledCue): State {
    st.(active := st.active[c.layer := c], events := st.events + ActivationEvents(st.active, c))
  }

  function Place(cfg: Config, st: State, c: ScheduledCue): State {
    if Blocked(st.active, c) then Enqueue(cfg, st, c) else Activate(st, c)
  }

  /** The cue as it will be scheduled, and the state in which it is placed. */
  function Admitted(cfg: Config, st: State, cue: AvatarCue, nowMs: real): (ScheduledCue, State) {
    var r := cfg.capabilities.Resolve(cue);
    var c := CreateScheduled(r.cue, r.layer, st.sequence, nowMs);
    var warned := if r.warning.None? then st.warnings else Warn(st.warnings, r.warning.value, cfg.maxWarnings);
    var st1 := st.(warnings := warned, sequence := st.sequence + 1);
    (c, if c.cue.kind == OverrideCue && c.cue.name == "interrupt" then Interrupt(st1) else st1)
  }

  function Schedule(cfg: Config, st: State, cue: AvatarCue, nowMs: real): State {
    if Stale(st, cue) then
      st.(warnings := Warn(st.warnings, Warning("avatar.stale_generation_cue", cue.cueId), cfg.maxWarnings))
    else
      var (c, st1) := Admitted(cfg, st, cue, nowMs);
      var st2 := Place(cfg, st1, c);
      st2.(revision := st.revision + 1)
  }

  function DropAndPromote(st: State, dropActive: ScheduledCue -> bool, dropQueued: ScheduledCue -> bool,
                          reason: EndReason, nowMs: real): State {
    var st1 := st.(active := KeepActive(st.active, dropActive),
                   queued := KeepQueued(st.queued, dropQueued),
                   events := st.events + DropEvents(st.active, dropActive, reason));
    PromoteIn(st1, nowMs)
  }

  function Tick(st: State, nowMs: real): State {
    var expired := (c: ScheduledCue) => IsExpired(c, nowMs);
    var changed := KeepActive(st.active, expired) != st.active
                   || Promote(KeepActive(st.active, expired), st.queued, nowMs).promoted != [];
    var st1 := DropAndPromote(st, expired, c => false, Expired, nowMs);
    st1.(revision := if changed then st.revision + 1 else st.revision)
  }

  predicate OfGeneration(c: ScheduledCue, generation: string) { c.cue.generationId == Some(generation) }

  function InvalidateGeneration(st: State, generation: string, nowMs: real): State {
    var mine := (c: ScheduledCue) => OfGeneration(c, generation);
    var changed := KeepActive(st.active, mine) != st.active || KeepQueued(st.queued, mine) != st.queued
                   || Promote(KeepActive(st.active, mine), KeepQueued(st.queued, mine), nowMs).promoted != [];
    var st1 := DropAndPromote(st.(invalid := st.invalid + {generation}), mine, mine, Invalidated, nowMs);
    st1.(revision := if changed then st.revision + 1 else st.revision)
  }

  function EndLayer(st: State, layer: Layer, reason: EndReason, nowMs: real): State {
    if layer !in st.active then st
    else
      var st1 := st.(active := st.active - {layer}, events := st.events + EndedEvents(st.active[layer], reason));
      PromoteIn(st1, nowMs).(revision := st.revision + 1)
  }

  function NotifyMotionEnded(st: State, cueId: string, nowMs: real): State {
    if Gesture in st.active && st.active[Gesture].cue.cueId == cueId
    then EndLayer(st, Gesture, Expired, nowMs)
    else st
  }

  function ClearLayer(st: State, layer: Layer, nowMs: real): State {
    EndLayer(st, layer, Invalidated, nowMs)
  }

  function Reset(st: State): State {
    st.(active := map[], queued := [], invalid := {}, revision := st.revision + 1,
        events := st.events + DropEvents(st.active, c => true, Invalidated))
  }

  datatype Operation =
    | OpSchedule(cue: AvatarCue, nowMs: real)
    | OpTick(nowMs: real)
    | OpInvalidate(generation: string, nowMs: real)
    | OpMotionEnded(cueId: string, nowMs: real)
    | OpClear(layer: Layer, nowMs: real)
    | OpReset

  function Step(cfg: Config, st: State, op: Operation): State {
    match op
    case OpSchedule(cue, now) => Schedule(cfg, st, cue, now)
    case OpTick(now) => Tick(st, now)
    case OpInvalidate(g, now) => InvalidateGeneration(st, g, now)
    case OpMotionEnded(id, now) => NotifyMotionEnded(st, id, now)
    case OpClear(layer, now) => ClearLayer(st, layer, now)
    case OpReset => Reset(st)
  }

  function Run(cfg: Config, ops: seq<Operation>): State {
    if ops == [] then INITIAL else Step(cfg, Run(cfg, ops[..|ops| - 1]), ops[|ops| - 1])
  }

  // ----- The invariant -----

  /** The event trace is a run of started/ended pairs, and `playing` is the
      motion it leaves open. */
  ghost predicate TraceLeaves(events: seq<MotionEvent>, playing: Option<ScheduledCue>)
    decreases |events|
  {
    if events == [] then playing == None
    else
      var before := events[..|events| - 1];
      match events[|events| - 1]
      case MotionStarted(c) => playing == Some(c) && TraceLeaves(before, None)
      case MotionEnded(c, _) => playing == None && TraceLeaves(before, Some(c))
  }

  ghost predicate NoForcedEnd(events: seq<MotionEvent>) {
    forall i :: 0 <= i < |events| && events[i].MotionEnded? && events[i].reason == Replaced
      ==> Interruptible(events[i].cue)
  }

  function Playing(active: ActiveMap): Option<ScheduledCue> {
    if Gesture in active then Some(active[Gesture]) else None
  }

  ghost predicate ActiveOk(active: ActiveMap, sequence: nat) {
    && (forall layer :: layer in active ==> active[layer].layer == layer && active[layer].sequence < sequence)
    && (forall a, b :: a in active && b in active && a != b ==> active[a].sequence != active[b].sequence)
  }

  ghost predicate QueueOk(queued: seq<ScheduledCue>, sequence: nat) {
    && Sorted(queued)
    && (forall i :: 0 <= i < |queued| ==> queued[i].sequence < sequence)
    && (forall i, j :: 0 <= i < j < |queued| ==> queued[i].sequence != queued[j].sequence)
  }

  ghost predicate Apart(active: ActiveMap, queued: seq<ScheduledCue>) {
    forall layer, i :: layer in active && 0 <= i < |queued| ==> active[layer].sequence != queued[i].sequence
  }

  predicate Live(invalid: set<string>, c: ScheduledCue) {
    c.cue.generationId.Some? && c.cue.generationId.value != "" ==> c.cue.generationId.value !in invalid
  }

  ghost predicate AllLive(active: ActiveMap, queued: seq<ScheduledCue>, invalid: set<string>) {
    && (forall layer :: layer in active ==> Live(invalid, active[layer]))
    && (forall i :: 0 <= i < |queued| ==> Live(invalid, queued[i]))
  }

  ghost predicate Inv(cfg: Config, st: State) {
    && |st.queued| <= cfg.maxQueueSize
    && |st.warnings| <= cfg.maxWarnings
    && ActiveOk(st.active, st.sequence)
    && QueueOk(st.queued, st.sequence)
    && Apart(st.active, st.queued)
    && AllLive(st.active, st.queued, st.invalid)
    && TraceLeaves(st.events, Playing(st.active))
    && NoForcedEnd(st.events)
  }

  /** Nothing in the queue could be activated. */
  ghost predicate Settled(st: State) {
    forall i :: 0 <= i < |st.queued| ==> Blocked(st.active, st.queued[i])
  }

  // ----- The queue -----

  ghost predicate SubsequenceOf(small: seq<ScheduledCue>, big: seq<ScheduledCue>) {
    exists at: seq<nat> :: Embeds(at, small, big)
  }

  ghost predicate Embeds(at: seq<nat>, small: seq<ScheduledCue>, big: seq<ScheduledCue>) {
    && |at| == |small|
    && (forall i :: 0 <= i < |at| ==> at[i] < |big| && big[at[i]] == small[i])
    && (forall i, j :: 0 <= i < j < |at| ==> at[i] < at[j])
  }

  lemma EmbedSkip(x: ScheduledCue, small: seq<ScheduledCue>, rest: seq<ScheduledCue>)
    requires SubsequenceOf(small, rest)
    ensures SubsequenceOf(small, [x] + rest)
  {
    var at: seq<nat> :| Embeds(at, small, rest);
    var shifted := seq(|at|, (i: nat) requires i < |at| => at[i] + 1);
    assert Embeds(shifted, small, [x] + rest);
  }

  lemma EmbedTake(x: ScheduledCue, small: seq<ScheduledCue>, rest: seq<ScheduledCue>)
    requires SubsequenceOf(small, rest)
    ensures SubsequenceOf([x] + small, [x] + rest)
  {
    var at: seq<nat> :| Embeds(at, small, rest);
    var shifted := [0] + seq(|at|, (i: nat) requires i < |at| => at[i] + 1);
    assert Embeds(shifted, [x] + small, [x] + rest);
  }

  lemma SubsequenceKeeps(cfgSequence: nat, active: ActiveMap, invalid: set<string>, small: seq<ScheduledCue>,
          big: seq<ScheduledCue>)
    requires SubsequenceOf(small, big)
    ensures |small| <= |big|
    ensures QueueOk(big, cfgSequence) ==> QueueOk(small, cfgSequence)
    ensures Apart(active, big) ==> Apart(active, small)
    ensures AllLive(active, big, invalid) ==> AllLive(active, small, invalid)
    ensures forall c :: c in small ==> c in big
  {
    var at: seq<nat> :| Embeds(at, small, big);
    EmbedLength(at, |big|);
  }

  lemma {:induction false} EmbedLength(at: seq<nat>, n: nat)
    requires forall i :: 0 <= i < |at| ==> at[i] < n
    requires forall i, j :: 0 <= i < j < |at| ==> at[i] < at[j]
    ensures |at| <= n
  {
    if at != [] {
      EmbedLength(at[..|at| - 1], at[|at| - 1]);
    }
  }

  lemma {:induction false} KeepQueuedIsSubsequence(q: seq<ScheduledCue>, drop: ScheduledCue -> bool)
    ensures SubsequenceOf(KeepQueued(q, drop), q)
    ensures forall c :: c in KeepQueued(q, drop) <==> c in q && !drop(c)
  {
    if q == [] {
      assert Embeds([], [], q);
    } else {
      KeepQueuedIsSubsequence(q[1..], drop);
      assert q == [q[0]] + q[1..];
      if drop(q[0]) {
        EmbedSkip(q[0], KeepQueued(q[1..], drop), q[1..]);
      } else {
        EmbedTake(q[0], KeepQueued(q[1..], drop), q[1..]);
      }
    }
  }

  lemma {:induction false} KeepNothing(q: seq<ScheduledCue>)
    ensures KeepQueued(q, c => false) == q
  {
    if q != [] {
      KeepNothing(q[1..]);
    }
  }

  /** A push and the sort put the new cue in its place: the result holds exactly
      the old cues and the new one ... */
  lemma {:induction false} InsertSortedHolds(q: seq<ScheduledCue>, c: ScheduledCue)
    ensures multiset(InsertSorted(q, c)) == multiset(q) + multiset{c}
    ensures |InsertSorted(q, c)| == |q| + 1
    ensures forall x :: x in InsertSorted(q, c) <==> x in q || x == c
  {
    if q != [] {
      assert q == [q[0]] + q[1..];
      if Before(q[0], c) {
        InsertSortedHolds(q[1..], c);
      }
    }
  }

  /** ... and is sorted. */
  lemma {:induction false} InsertSortedSorted(q: seq<ScheduledCue>, c: ScheduledCue)
    requires Sorted(q)
    requires forall i :: 0 <= i < |q| ==> q[i].sequence != c.sequence
    ensures Sorted(InsertSorted(q, c))
  {
    if q == [] {
    } else if Before(q[0], c) {
      InsertSortedSorted(q[1..], c);
      var r := InsertSorted(q[1..], c);
      forall k | 0 <= k < |r|
        ensures Before(q[0], r[k])
      {
        InsertSortedHolds(q[1..], c);
        assert r[k] in r;
      }
    } else {
      assert Before(c, q[0]);
      forall k | 0 <= k < |q|
        ensures Before(c, q[k])
      {
        assert k == 0 || Before(q[0], q[k]);
      }
    }
  }

  /** The order is strict on distinct sequence numbers, so there is only one
      sorted arrangement: `InsertSorted` is what any sort would produce. */
  lemma {:induction false} SortedPermutationUnique(p: seq<ScheduledCue>, q: seq<ScheduledCue>)
    requires Sorted(p) && Sorted(q)
    requires multiset(p) == multiset(q)
    ensures p == q
  {
    if p == [] {
      assert |multiset(q)| == 0;
    } else {
      assert |multiset(q)| == |q|;
      assert p[0] in multiset(p) && q[0] in multiset(q);
      assert p[0] in q && q[0] in p;
      assert p[0] == q[0];
      assert p == [p[0]] + p[1..] && q == [q[0]] + q[1..];
      assert multiset(p[1..]) == multiset(p) - multiset{p[0]};
      assert multiset(q[1..]) == multiset(q) - multiset{q[0]};
      SortedPermutationUnique(p[1..], q[1..]);
    }
  }

  // ----- The promotion pass -----

  /** Activating a cue that was allowed to start never unblocks another one. */
  lemma BlockedStable(active: ActiveMap, x: ScheduledCue, nowMs: real, c: ScheduledCue)
    requires !Blocked(active, x) && Blocked(active, c)
    ensures Blocked(active[x.layer := Restart(x, nowMs)], c)
  {}

  lemma {:induction false} PassKeepsBlocked(active: ActiveMap, q: seq<ScheduledCue>, nowMs: real, c: ScheduledCue)
    requires Blocked(active, c)
    ensures Blocked(Promote(active, q, nowMs).active, c)
    decreases |q|
  {
    if q == [] {
    } else if Blocked(active, q[0]) {
      PassKeepsBlocked(active, q[1..], nowMs, c);
    } else {
      var x := Restart(q[0], nowMs);
      BlockedStable(active, q[0], nowMs, c);
      PassKeepsBlocked(active[x.layer := x], q[1..], nowMs, c);
    }
  }

  /** One pass is a fixpoint: every cue left in the queue is blocked by what is
      active when the pass ends. */
  lemma {:induction false} PromoteSettles(active: ActiveMap, q: seq<ScheduledCue>, nowMs: real)
    ensures forall c :: c in Promote(active, q, nowMs).kept ==> Blocked(Promote(active, q, nowMs).active, c)
    decreases |q|
  {
    if q == [] {
    } else if Blocked(active, q[0]) {
      PromoteSettles(active, q[1..], nowMs);
      PassKeepsBlocked(active, q[1..], nowMs, q[0]);
    } else {
      var x := Restart(q[0], nowMs);
      PromoteSettles(active[x.layer := x], q[1..], nowMs);
    }
  }

  /** A second pass over what is left changes nothing. */
  lemma {:induction false} PromoteNothing(active: ActiveMap, q: seq<ScheduledCue>, nowMs: real)
    requires forall c :: c in q ==> Blocked(active, c)
    ensures Promote(active, q, nowMs) == Pass(active, q, [], [])
    decreases |q|
  {
    if q != [] {
      assert q == [q[0]] + q[1..];
      PromoteNothing(active, q[1..], nowMs);
    }
  }

  function Sequences(q: seq<ScheduledCue>): seq<nat> {
    seq(|q|, (i: nat) requires i < |q| => q[i].sequence)
  }

  lemma SequencesCons(q: seq<ScheduledCue>)
    requires q != []
    ensures Sequences(q) == [q[0].sequence] + Sequences(q[1..])
  {}

  /** No cue is lost or duplicated by a pass: what was queued is what was
      promoted and what is kept, and the kept ones keep their order. */
  lemma {:induction false} PromoteConserves(active: ActiveMap, q: seq<ScheduledCue>, nowMs: real)
    ensures var p := Promote(active, q, nowMs);
      && SubsequenceOf(p.kept, q)
      && multiset(Sequences(q)) == multiset(Sequences(p.kept)) + multiset(Sequences(p.promoted))
    decreases |q|
  {
    if q == [] {
      assert Embeds([], [], q);
    } else {
      assert q == [q[0]] + q[1..];
      SequencesCons(q);
      var p := Promote(active, q, nowMs);
      if Blocked(active, q[0]) {
        var r := Promote(active, q[1..], nowMs);
        PromoteConserves(active, q[1..], nowMs);
        EmbedTake(q[0], r.kept, q[1..]);
        SequencesCons(p.kept);
        assert p.kept[1..] == r.kept;
      } else {
        var x := Restart(q[0], nowMs);
        var r := Promote(active[x.layer := x], q[1..], nowMs);
        PromoteConserves(active[x.layer := x], q[1..], nowMs);
        EmbedSkip(q[0], r.kept, q[1..]);
        SequencesCons(p.promoted);
        assert p.promoted[1..] == r.promoted;
      }
    }
  }

  /** In a sorted queue one pass only ever fills a layer at one priority: a
      later promotion into the same layer has exactly the priority of the
      earlier one it replaces. */
  lemma {:induction false} PromotedShareLayerPriority(active: ActiveMap, q: seq<ScheduledCue>, nowMs: real, i: nat, j: nat)
    requires Sorted(q)
    requires i < j < |Promote(active, q, nowMs).promoted|
    requires Promote(active, q, nowMs).promoted[i].layer == Promote(active, q, nowMs).promoted[j].layer
    ensures Priority(Promote(active, q, nowMs).promoted[i]) == Priority(Promote(active, q, nowMs).promoted[j])
    decreases |q|
  {
    if Blocked(active, q[0]) {
      PromotedShareLayerPriority(active, q[1..], nowMs, i, j);
    } else {
      var x := Restart(q[0], nowMs);
      var next := active[x.layer := x];
      if i > 0 {
        PromotedShareLayerPriority(next, q[1..], nowMs, i - 1, j - 1);
      } else {
        PromotedAtLeast(next, q[1..], nowMs, j - 1, x.layer);
        PromotedFromQueue(next, q[1..], nowMs, j - 1);
      }
    }
  }

  lemma {:induction false} PromotedFromQueue(active: ActiveMap, q: seq<ScheduledCue>, nowMs: real, j: nat)
    requires j < |Promote(active, q, nowMs).promoted|
    ensures exists k :: 0 <= k < |q| && Promote(active, q, nowMs).promoted[j] == Restart(q[k], nowMs)
    decreases |q|
  {
    if Blocked(active, q[0]) {
      PromotedFromQueue(active, q[1..], nowMs, j);
      var k :| 0 <= k < |q[1..]| && Promote(active, q, nowMs).promoted[j] == Restart(q[1..][k], nowMs);
      assert q[1..][k] == q[k + 1];
    } else if j == 0 {
      assert Promote(active, q, nowMs).promoted[0] == Restart(q[0], nowMs);
    } else {
      var x := Restart(q[0], nowMs);
      PromotedFromQueue(active[x.layer := x], q[1..], nowMs, j - 1);
      var k :| 0 <= k < |q[1..]| && Promote(active[x.layer := x], q[1..], nowMs).promoted[j - 1] == Restart(q[1..][k], nowMs);
      assert q[1..][k] == q[k + 1];
    }
  }

  lemma {:induction false} PromotedAtLeast(active: ActiveMap, q: seq<ScheduledCue>, nowMs: real, j: nat, layer: Layer)
    requires layer in active
    requires j < |Promote(active, q, nowMs).promoted|
    requires Promote(active, q, nowMs).promoted[j].layer == layer
    ensures Priority(Promote(active, q, nowMs).promoted[j]) >= Priority(active[layer])
    decreases |q|
  {
    if Blocked(active, q[0]) {
      PromotedAtLeast(active, q[1..], nowMs, j, layer);
    } else if j > 0 {
      var x := Restart(q[0], nowMs);
      PromotedAtLeast(active[x.layer := x], q[1..], nowMs, j - 1, layer);
    }
  }

  // ----- Traces -----

  lemma {:induction false} TraceAppend(events: seq<MotionEvent>, playing: Option<ScheduledCue>, e: MotionEvent)
    requires TraceLeaves(events, playing)
    requires if e.MotionStarted? then playing == None else playing == Some(e.cue)
    ensures TraceLeaves(events + [e], if e.MotionStarted? then Some(e.cue) else None)
  {
    assert (events + [e])[..|events|] == events;
  }

  lemma ActivationTrace(events: seq<MotionEvent>, active: ActiveMap, c: ScheduledCue)
    requires TraceLeaves(events, Playing(active))
    requires Gesture in active ==> active[Gesture].layer == Gesture
    requires c.layer in active ==> active[c.layer].layer == c.layer
    ensures TraceLeaves(events + ActivationEvents(active, c), Playing(active[c.layer := c]))
  {
    if c.layer == Gesture {
      if Gesture in active {
        TraceAppend(events, Playing(active), MotionEnded(active[Gesture], Replaced));
        TraceAppend(events + [MotionEnded(active[Gesture], Replaced)], None, MotionStarted(c));
        assert events + ActivationEvents(active, c)
            == events + [MotionEnded(active[Gesture], Replaced)] + [MotionStarted(c)];
      } else {
        TraceAppend(events, None, MotionStarted(c));
        assert ActivationEvents(active, c) == [MotionStarted(c)];
      }
    } else {
      assert ActivationEvents(active, c) == [];
      assert events + [] == events;
    }
  }

  lemma ActivationForcesNothing(events: seq<MotionEvent>, active: ActiveMap, c: ScheduledCue)
    requires NoForcedEnd(events) && !Blocked(active, c)
    ensures NoForcedEnd(events + ActivationEvents(active, c))
  {
    var ev := ActivationEvents(active, c);
    assert NoForcedEnd(ev);
    forall i | 0 <= i < |events + ev| && (events + ev)[i].MotionEnded? && (events + ev)[i].reason == Replaced
      ensures Interruptible((events + ev)[i].cue)
    {
      assert (events + ev)[i] == if i < |events| then events[i] else ev[i - |events|];
    }
  }

  lemma DropTrace(events: seq<MotionEvent>, active: ActiveMap, drop: ScheduledCue -> bool, reason: EndReason)
    requires TraceLeaves(events, Playing(active))
    requires Gesture in active ==> active[Gesture].layer == Gesture
    ensures TraceLeaves(events + DropEvents(active, drop, reason), Playing(KeepActive(active, drop)))
  {
    if Gesture in active && drop(active[Gesture]) {
      TraceAppend(events, Playing(active), MotionEnded(active[Gesture], reason));
    } else {
      assert events + [] == events;
    }
  }

  /** Read off the trace: every even position starts a motion and the next
      position, if there is one, ends exactly that motion. */
  lemma {:induction false} TraceAlternates(events: seq<MotionEvent>, playing: Option<ScheduledCue>, i: nat)
    requires TraceLeaves(events, playing)
    requires i < |events|
    ensures events[i].MotionStarted? <==> i % 2 == 0
    ensures i % 2 == 1 ==> events[i - 1] == MotionStarted(events[i].cue)
    ensures playing.Some? <==> |events| % 2 == 1
    decreases |events|
  {
    var n := |events| - 1;
    var before := events[..n];
    var left := if events[n].MotionStarted? then None else Some(events[n].cue);
    assert TraceLeaves(before, left);
    if n > 0 {
      TraceAlternates(before, left, if i < n then i else n - 1);
    }
  }

  // ----- Every operation keeps the invariant -----

  /** The parts of the invariant a pass touches. */
  ghost predicate PassInv(active: ActiveMap, q: seq<ScheduledCue>, sequence: nat, invalid: set<string>,
          events: seq<MotionEvent>) {
    && ActiveOk(active, sequence) && QueueOk(q, sequence) && Apart(active, q)
    && AllLive(active, q, invalid)
    && TraceLeaves(events, Playing(active)) && NoForcedEnd(events)
  }

  lemma PassInvTail(active: ActiveMap, q: seq<ScheduledCue>, sequence: nat, invalid: set<string>, events: seq<MotionEvent>)
    requires q != [] && PassInv(active, q, sequence, invalid, events)
    ensures PassInv(active, q[1..], sequence, invalid, events)
  {}

  lemma PassInvActivate(active: ActiveMap, q: seq<ScheduledCue>, nowMs: real, sequence: nat, invalid: set<string>,
          events: seq<MotionEvent>)
    requires q != [] && PassInv(active, q, sequence, invalid, events) && !Blocked(active, q[0])
    ensures var c := Restart(q[0], nowMs);
      PassInv(active[c.layer := c], q[1..], sequence, invalid, events + ActivationEvents(active, c))
  {
    var c := Restart(q[0], nowMs);
    ActivationTrace(events, active, c);
    ActivationForcesNothing(events, active, c);
  }

  lemma PassInvHead(active: ActiveMap, q: seq<ScheduledCue>, kept: seq<ScheduledCue>, sequence: nat,
          invalid: set<string>, events: seq<MotionEvent>)
    requires q != [] && PassInv(active, kept, sequence, invalid, events)
    requires QueueOk(q, sequence) && Live(invalid, q[0])
    requires forall c :: c in kept ==> c in q[1..]
    requires forall layer :: layer in active ==> active[layer].sequence != q[0].sequence
    ensures PassInv(active, [q[0]] + kept, sequence, invalid, events)
  {
    forall i | 0 <= i < |kept|
      ensures Before(q[0], kept[i]) && kept[i].sequence != q[0].sequence
    {
      assert kept[i] in q[1..];
      var k :| 0 <= k < |q[1..]| && q[1..][k] == kept[i];
      assert q[k + 1] == kept[i];
    }
  }

  lemma {:induction false} PassKeepsInvariant(active: ActiveMap, q: seq<ScheduledCue>, nowMs: real,
                                              sequence: nat, invalid: set<string>, events: seq<MotionEvent>)
    requires PassInv(active, q, sequence, invalid, events)
    ensures var p := Promote(active, q, nowMs);
      PassInv(p.active, p.kept, sequence, invalid, events + p.events) && |p.kept| <= |q|
    decreases |q|
  {
    var p := Promote(active, q, nowMs);
    if q == [] {
      assert events + [] == events;
    } else if Blocked(active, q[0]) {
      var r := Promote(active, q[1..], nowMs);
      PassInvTail(active, q, sequence, invalid, events);
      PassKeepsInvariant(active, q[1..], nowMs, sequence, invalid, events);
      PromoteConserves(active, q[1..], nowMs);
      SubsequenceKeeps(sequence, active, invalid, r.kept, q[1..]);
      KeptHeadApart(active, q, nowMs);
      PassInvHead(r.active, q, r.kept, sequence, invalid, events + r.events);
    } else {
      var c := Restart(q[0], nowMs);
      var ev := ActivationEvents(active, c);
      PassInvActivate(active, q, nowMs, sequence, invalid, events);
      PassKeepsInvariant(active[c.layer := c], q[1..], nowMs, sequence, invalid, events + ev);
      assert events + p.events == (events + ev) + Promote(active[c.layer := c], q[1..], nowMs).events;
    }
  }

  /** The active cues after a pass are old active cues or cues taken from the queue. */
  lemma {:induction false} PassActiveOrigin(active: ActiveMap, q: seq<ScheduledCue>, nowMs: real, layer: Layer)
    requires layer in Promote(active, q, nowMs).active
    ensures (layer in active && Promote(active, q, nowMs).active[layer] == active[layer])
      || exists k :: 0 <= k < |q| && Promote(active, q, nowMs).active[layer].sequence == q[k].sequence
    decreases |q|
  {
    if q != [] {
      var next := if Blocked(active, q[0]) then active else active[q[0].layer := Restart(q[0], nowMs)];
      var p := Promote(next, q[1..], nowMs);
      assert p.active == Promote(active, q, nowMs).active;
      PassActiveOrigin(next, q[1..], nowMs, layer);
      if layer in next && p.active[layer] == next[layer] {
        if layer !in active || next[layer] != active[layer] {
          assert p.active[layer].sequence == q[0].sequence;
        }
      } else {
        var k :| 0 <= k < |q[1..]| && p.active[layer].sequence == q[1..][k].sequence;
        assert q[1..][k] == q[k + 1];
      }
    }
  }

  lemma KeptHeadApart(active: ActiveMap, q: seq<ScheduledCue>, nowMs: real)
    requires q != []
    requires Apart(active, q)
    requires forall i, j :: 0 <= i < j < |q| ==> q[i].sequence != q[j].sequence
    ensures forall layer :: layer in Promote(active, q[1..], nowMs).active ==>
      Promote(active, q[1..], nowMs).active[layer].sequence != q[0].sequence
  {
    var p := Promote(active, q[1..], nowMs);
    forall layer | layer in p.active
      ensures p.active[layer].sequence != q[0].sequence
    {
      PassActiveOrigin(active, q[1..], nowMs, layer);
    }
  }

  lemma DropKeepsInvariant(cfg: Config, st: State, dropActive: ScheduledCue -> bool, dropQueued: ScheduledCue -> bool,
          reason: EndReason)
    requires Inv(cfg, st)
    requires reason != Replaced
    ensures Inv(cfg, st.(active := KeepActive(st.active, dropActive),
                         queued := KeepQueued(st.queued, dropQueued),
                         events := st.events + DropEvents(st.active, dropActive, reason)))
  {
    KeepQueuedIsSubsequence(st.queued, dropQueued);
    SubsequenceKeeps(st.sequence, st.active, st.invalid, KeepQueued(st.queued, dropQueued), st.queued);
    DropTrace(st.events, st.active, dropActive, reason);
  }

  lemma PromoteKeepsInvariant(cfg: Config, st: State, nowMs: real)
    requires Inv(cfg, st)
    ensures Inv(cfg, PromoteIn(st, nowMs)) && Settled(PromoteIn(st, nowMs))
  {
    PassKeepsInvariant(st.active, st.queued, nowMs, st.sequence, st.invalid, st.events);
    PromoteSettles(st.active, st.queued, nowMs);
  }

  lemma PlaceKeepsInvariant(cfg: Config, st: State, c: ScheduledCue)
    requires Inv(cfg, st.(sequence := c.sequence)) && st.sequence == c.sequence + 1
    requires Live(st.invalid, c)
    ensures Inv(cfg, Place(cfg, st, c))
  {
    if Blocked(st.active, c) {
      EnqueueKeepsInvariant(cfg, st, c);
    } else {
      ActivateKeepsInvariant(cfg, st, c);
    }
  }

  lemma ActivateKeepsInvariant(cfg: Config, st: State, c: ScheduledCue)
    requires Inv(cfg, st.(sequence := c.sequence)) && st.sequence == c.sequence + 1
    requires Live(st.invalid, c) && !Blocked(st.active, c)
    ensures Inv(cfg, Activate(st, c))
  {
    ActivationTrace(st.events, st.active, c);
    ActivationForcesNothing(st.events, st.active, c);
    ActivationOwnsLayer(st.active, c);
  }

  lemma ActivationOwnsLayer(active: ActiveMap, c: ScheduledCue)
    requires ActiveOk(active, c.sequence)
    ensures ActiveOk(active[c.layer := c], c.sequence + 1)
  {}

  lemma EnqueueKeepsInvariant(cfg: Config, st: State, c: ScheduledCue)
    requires Inv(cfg, st.(sequence := c.sequence)) && st.sequence == c.sequence + 1
    requires Live(st.invalid, c)
    ensures Inv(cfg, Enqueue(cfg, st, c))
  {
    if |st.queued| < cfg.maxQueueSize {
      InsertSortedHolds(st.queued, c);
      InsertedQueueOk(st.queued, c);
      var r := InsertSorted(st.queued, c);
      forall i | 0 <= i < |r|
        ensures Live(st.invalid, r[i])
        ensures forall layer :: layer in st.active ==> st.active[layer].sequence != r[i].sequence
      {
        assert r[i] in r;
      }
    }
  }

  lemma InsertedQueueOk(q: seq<ScheduledCue>, c: ScheduledCue)
    requires QueueOk(q, c.sequence)
    ensures QueueOk(InsertSorted(q, c), c.sequence + 1)
  {
    InsertSortedHolds(q, c);
    InsertSortedSorted(q, c);
    var r := InsertSorted(q, c);
    forall i | 0 <= i < |r|
      ensures r[i].sequence < c.sequence + 1
    {
      assert r[i] in r;
    }
    SortedDistinctSequences(q, c);
  }

  lemma {:induction false} SortedDistinctSequences(q: seq<ScheduledCue>, c: ScheduledCue)
    requires QueueOk(q, c.sequence)
    ensures forall i, j :: 0 <= i < j < |InsertSorted(q, c)| ==> InsertSorted(q, c)[i].sequence != InsertSorted(q, c)[j].sequence
  {
    if q != [] && Before(q[0], c) {
      SortedDistinctSequences(q[1..], c);
      InsertSortedHolds(q[1..], c);
      var r := InsertSorted(q[1..], c);
      forall k | 0 <= k < |r|
        ensures r[k].sequence != q[0].sequence
      {
        assert r[k] in r;
      }
    }
  }

  lemma ScheduleKeepsInvariant(cfg: Config, st: State, cue: AvatarCue, nowMs: real)
    requires Inv(cfg, st)
    ensures Inv(cfg, Schedule(cfg, st, cue, nowMs))
  {
    if !Stale(st, cue) {
      var r := cfg.capabilities.Resolve(cue);
      var (c, st1) := Admitted(cfg, st, cue, nowMs);
      var warned := if r.warning.None? then st.warnings else Warn(st.warnings, r.warning.value, cfg.maxWarnings);
      assert Inv(cfg, st.(warnings := warned));
      if c.cue.kind == OverrideCue && c.cue.name == "interrupt" {
        DropKeepsInvariant(cfg, st.(warnings := warned), Interruptible, Interruptible, Invalidated);
      }
      PlaceKeepsInvariant(cfg, st1, c);
    }
  }

  lemma EndLayerKeepsInvariant(cfg: Config, st: State, layer: Layer, reason: EndReason, nowMs: real)
    requires Inv(cfg, st)
    requires reason != Replaced
    ensures Inv(cfg, EndLayer(st, layer, reason, nowMs))
    ensures layer in st.active ==> Settled(EndLayer(st, layer, reason, nowMs))
  {
    if layer in st.active {
      var st1 := st.(active := st.active - {layer}, events := st.events + EndedEvents(st.active[layer], reason));
      if layer == Gesture {
        TraceAppend(st.events, Playing(st.active), MotionEnded(st.active[layer], reason));
      } else {
        assert st.events + [] == st.events;
      }
      assert Inv(cfg, st1);
      PromoteKeepsInvariant(cfg, st1, nowMs);
    }
  }

  /** The invalidated generation is gone before it is forbidden. */
  lemma InvalidateKeepsInvariant(cfg: Config, st: State, generation: string, nowMs: real)
    requires Inv(cfg, st)
    ensures Inv(cfg, InvalidateGeneration(st, generation, nowMs))
    ensures Settled(InvalidateGeneration(st, generation, nowMs))
  {
    var mine := (c: ScheduledCue) => OfGeneration(c, generation);
    DropKeepsInvariant(cfg, st, mine, mine, Invalidated);
    KeepQueuedIsSubsequence(st.queued, mine);
    var st1 := st.(active := KeepActive(st.active, mine), queued := KeepQueued(st.queued, mine),
                   events := st.events + DropEvents(st.active, mine, Invalidated),
                   invalid := st.invalid + {generation});
    forall i | 0 <= i < |st1.queued|
      ensures Live(st1.invalid, st1.queued[i])
    {
      assert st1.queued[i] in KeepQueued(st.queued, mine);
    }
    PromoteKeepsInvariant(cfg, st1, nowMs);
  }

  /** Every public operation keeps the scheduler invariant. */
  lemma StepKeepsInvariant(cfg: Config, st: State, op: Operation)
    requires Inv(cfg, st)
    ensures Inv(cfg, Step(cfg, st, op))
  {
    match op
    case OpSchedule(cue, now) => ScheduleKeepsInvariant(cfg, st, cue, now);
    case OpTick(now) =>
      DropKeepsInvariant(cfg, st, c => IsExpired(c, now), c => false, Expired);
      PromoteKeepsInvariant(cfg, st.(active := KeepActive(st.active, c => IsExpired(c, now)),
                                     queued := KeepQueued(st.queued, c => false),
                                     events := st.events + DropEvents(st.active, c => IsExpired(c, now), Expired)), now);
    case OpInvalidate(g, now) => InvalidateKeepsInvariant(cfg, st, g, now);
    case OpMotionEnded(id, now) => EndLayerKeepsInvariant(cfg, st, Gesture, Expired, now);
    case OpClear(layer, now) => EndLayerKeepsInvariant(cfg, st, layer, Invalidated, now);
    case OpReset =>
      DropTrace(st.events, st.active, c => true, Invalidated);
      assert KeepActive(st.active, c => true) == map[];
  }

  /** ... and therefore it holds after every run. */
  lemma {:induction false} RunKeepsInvariant(cfg: Config, ops: seq<Operation>)
    ensures Inv(cfg, Run(cfg, ops))
    decreases |ops|
  {
    if ops != [] {
      RunKeepsInvariant(cfg, ops[..|ops| - 1]);
      StepKeepsInvariant(cfg, Run(cfg, ops[..|ops| - 1]), ops[|ops| - 1]);
    }
  }
}
