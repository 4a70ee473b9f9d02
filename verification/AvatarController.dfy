/** The controller's buffer of cues that arrive before the renderer is ready,
    and its drain into the scheduler (packages/avatar-sdk/src/controller.ts). */
module AvatarControllerBuffer {
  import opened Wrappers
  import opened AvatarCapabilities
  import opened CueScheduling
  import opened CueSchedulerObject

  datatype Status = Idle | Loading | Ready | Error | Disposed

  function Push(buffer: seq<AvatarCue>, cue: AvatarCue, limit: nat): seq<AvatarCue> {
    (if |buffer| >= limit && buffer != [] then buffer[1..] else buffer) + [cue]
  }

  function PushAll(cues: seq<AvatarCue>, limit: nat): seq<AvatarCue> {
    if cues == [] then [] else Push(PushAll(cues[..|cues| - 1], limit), cues[|cues| - 1], limit)
  }

  function Capacity(limit: nat): nat { if limit == 0 then 1 else limit }

  /** The buffer is the most recent cues in order of arrival.  It is bounded by
      the configured limit only when that limit is not zero: with zero one cue
      is still kept, because the oldest is dropped before the new one is added. */
  lemma {:induction false} BufferKeepsLatest(cues: seq<AvatarCue>, limit: nat)
    ensures PushAll(cues, limit) ==
      if |cues| <= Capacity(limit) then cues else cues[|cues| - Capacity(limit)..]
    ensures |PushAll(cues, limit)| <= limit <==> cues == [] || limit > 0
    decreases |cues|
  {
    if cues != [] {
      hide PushAll, Push;
      var earlier := cues[..|cues| - 1];
      BufferKeepsLatest(earlier, limit);
      PushNext(cues, limit);
      LatestNext(cues, limit, earlier, PushAll(earlier, limit));
    }
  }

  lemma PushNext(cues: seq<AvatarCue>, limit: nat)
    requires cues != []
    ensures PushAll(cues, limit) == Push(PushAll(cues[..|cues| - 1], limit), cues[|cues| - 1], limit)
  {}

  /** The latest cues, one cue later. */
  lemma LatestNext(cues: seq<AvatarCue>, limit: nat, earlier: seq<AvatarCue>, kept: seq<AvatarCue>)
    requires cues != [] && earlier == cues[..|cues| - 1]
    requires kept == if |earlier| <= Capacity(limit) then earlier else earlier[|earlier| - Capacity(limit)..]
    ensures Push(kept, cues[|cues| - 1], limit) ==
      if |cues| <= Capacity(limit) then cues else cues[|cues| - Capacity(limit)..]
  {
    assert cues == earlier + [cues[|cues| - 1]];
  }

  // ----- The controller's own warnings -----

  const MAX_NOTICES: nat := 32
  const FULL := "avatar.pre_ready_queue_full"

  datatype Notice = Notice(code: string, cueId: Option<string>)

  function Notify(notices: seq<Notice>, notice: Notice): seq<Notice> {
    if |notices| + 1 > MAX_NOTICES then (notices + [notice])[1..] else notices + [notice]
  }

  /** A full buffer is reported with the cue that is dropped, if there is one. */
  function Reported(notices: seq<Notice>, buffer: seq<AvatarCue>, limit: nat): seq<Notice> {
    if |buffer| < limit then notices
    else Notify(notices, Notice(FULL, if buffer == [] then None else Some(buffer[0].cueId)))
  }

  function NoticesOf(cues: seq<AvatarCue>, limit: nat): seq<Notice> {
    if cues == [] then []
    else
      var earlier := cues[..|cues| - 1];
      Reported(NoticesOf(earlier, limit), PushAll(earlier, limit), limit)
  }

  function Latest(notices: seq<Notice>): seq<Notice> {
    if |notices| <= MAX_NOTICES then notices else notices[|notices| - MAX_NOTICES..]
  }

  function Named(cues: seq<AvatarCue>): seq<Notice> {
    if cues == [] then [] else Named(cues[..|cues| - 1]) + [Notice(FULL, Some(cues[|cues| - 1].cueId))]
  }

  /** With a limit of zero the first cue is reported although none is dropped. */
  function Early(cues: seq<AvatarCue>, limit: nat): seq<Notice> {
    if limit == 0 && cues != [] then [Notice(FULL, None)] else []
  }

  lemma LatestNotify(notices: seq<Notice>, notice: Notice)
    ensures Notify(Latest(notices), notice) == Latest(notices + [notice])
  {}

  /** The cues that have been dropped. */
  function Dropped(cues: seq<AvatarCue>, limit: nat): seq<AvatarCue> {
    if |cues| <= Capacity(limit) then [] else cues[..|cues| - Capacity(limit)]
  }

  lemma DroppedNext(cues: seq<AvatarCue>, limit: nat, earlier: seq<AvatarCue>, buffer: seq<AvatarCue>)
    requires cues != [] && earlier == cues[..|cues| - 1] && buffer == PushAll(earlier, limit)
    ensures Dropped(cues, limit) == Dropped(earlier, limit) + if |buffer| < limit || buffer == [] then [] else [buffer[0]]
    ensures Early(cues, limit) == Early(earlier, limit) + if |buffer| >= limit && buffer == [] then [Notice(FULL, None)] else []
    ensures |buffer| < limit || buffer == [] ==> Dropped(earlier, limit) == []
  {
    BufferKeepsLatest(earlier, limit);
  }

  lemma NamedSnoc(cues: seq<AvatarCue>, cue: AvatarCue)
    ensures Named(cues + [cue]) == Named(cues) + [Notice(FULL, Some(cue.cueId))]
  {
    assert (cues + [cue])[..|cues|] == cues;
  }

  lemma ReportedIs(cues: seq<AvatarCue>, limit: nat, earlier: seq<AvatarCue>, buffer: seq<AvatarCue>)
    requires cues != [] && earlier == cues[..|cues| - 1] && buffer == PushAll(earlier, limit)
    ensures Reported(Latest(Early(earlier, limit) + Named(Dropped(earlier, limit))), buffer, limit)
         == Latest(Early(cues, limit) + Named(Dropped(cues, limit)))
  {
    var dropped := Dropped(earlier, limit);
    var said := Early(earlier, limit) + Named(dropped);
    DroppedNext(cues, limit, earlier, buffer);
    if |buffer| < limit {
    } else if buffer == [] {
      LatestNotify(said, Notice(FULL, None));
      assert Named(dropped) == [];
    } else {
      LatestNotify(said, Notice(FULL, Some(buffer[0].cueId)));
      NamedSnoc(dropped, buffer[0]);
      assert Early(cues, limit) + Named(dropped + [buffer[0]]) == said + [Notice(FULL, Some(buffer[0].cueId))];
    }
  }

  /** No cue is lost silently: every cue that came before the renderer was ready is
      in the buffer or was named, in order, by a warning; the latest 32 warnings
      are kept. */
  lemma {:induction false} DroppedAreNamed(cues: seq<AvatarCue>, limit: nat)
    ensures cues == Dropped(cues, limit) + PushAll(cues, limit)
    ensures NoticesOf(cues, limit) == Latest(Early(cues, limit) + Named(Dropped(cues, limit)))
    decreases |cues|
  {
    BufferKeepsLatest(cues, limit);
    if cues != [] {
      var earlier := cues[..|cues| - 1];
      DroppedAreNamed(earlier, limit);
      ReportedIs(cues, limit, earlier, PushAll(earlier, limit));
    }
  }

  lemma {:induction false} NamedAt(cues: seq<AvatarCue>)
    ensures |Named(cues)| == |cues|
    ensures forall k :: 0 <= k < |cues| ==> Named(cues)[k] == Notice("avatar.pre_ready_queue_full", Some(cues[k].cueId))
  {
    if cues != [] {
      NamedAt(cues[..|cues| - 1]);
    }
  }

  lemma DroppedAt(cues: seq<AvatarCue>, limit: nat)
    requires limit > 0
    ensures |Dropped(cues, limit)| == if |cues| <= limit then 0 else |cues| - limit
    ensures forall j :: 0 <= j < |Dropped(cues, limit)| ==> Dropped(cues, limit)[j] == cues[j]
  {}

  lemma LatestAt(notices: seq<Notice>, k: int)
    ensures |Latest(notices)| == if |notices| > 32 then 32 else |notices|
    ensures 0 <= k < |Latest(notices)| ==> Latest(notices)[k] == notices[|notices| - |Latest(notices)| + k]
  {}

  /** The warnings of a buffer with room: one for each cue but the last `limit` ones, in
      order, and of these the last 32. */
  lemma NoticesAt(cues: seq<AvatarCue>, limit: nat, k: int)
    requires limit > 0
    ensures var n, notices := |cues| - limit, NoticesOf(cues, limit);
      && |notices| == (if n < 0 then 0 else if n > 32 then 32 else n)
      && (0 <= k < |notices| ==> notices[k] == Notice("avatar.pre_ready_queue_full", Some(cues[n - |notices| + k].cueId)))
  {
    hide Named, NoticesOf, PushAll, Latest, Dropped;
    var dropped := Dropped(cues, limit);
    DroppedAreNamed(cues, limit);
    NamedAt(dropped);
    LatestAt(Named(dropped), k);
    DroppedAt(cues, limit);
    assert [] + Named(dropped) == Named(dropped);
    assert NoticesOf(cues, limit) == Latest(Named(dropped));
  }

  function ScheduleAll(cfg: Config, st: State, cues: seq<AvatarCue>, nowMs: real): State
    decreases |cues|
  {
    if cues == [] then st
    else ScheduleAll(cfg, CueScheduling.Schedule(cfg, st, cues[0], nowMs), cues[1..], nowMs)
  }

  lemma {:induction false} ScheduleAllSnoc(cfg: Config, st: State, cues: seq<AvatarCue>, cue: AvatarCue, nowMs: real)
    ensures ScheduleAll(cfg, st, cues + [cue], nowMs)
         == CueScheduling.Schedule(cfg, ScheduleAll(cfg, st, cues, nowMs), cue, nowMs)
    decreases |cues|
  {
    if cues == [] {
      assert ([] + [cue])[1..] == [];
    } else {
      assert (cues + [cue])[1..] == cues[1..] + [cue];
      ScheduleAllSnoc(cfg, CueScheduling.Schedule(cfg, st, cues[0], nowMs), cues[1..], cue, nowMs);
    }
  }

  class AvatarController {
    const scheduler: CueScheduler
    const maxPreReadyCues: nat
    var status: Status
    var preReadyCues: seq<AvatarCue>
    var notices: seq<Notice>

    constructor (scheduler: CueScheduler, maxPreReadyCues: nat)
      ensures this.scheduler == scheduler && this.maxPreReadyCues == maxPreReadyCues
      ensures status == Idle && preReadyCues == [] && notices == []
    {
      this.scheduler, this.maxPreReadyCues := scheduler, maxPreReadyCues;
      status, preReadyCues, notices := Idle, [], [];
    }

    method Report(notice: Notice)
      modifies this`notices
      ensures notices == Notify(old(notices), notice)
    {
      notices := notices + [notice];
      if |notices| > MAX_NOTICES {
        notices := notices[1..];
      }
    }

    method ApplyCue(cue: AvatarCue, nowMs: real)
      requires scheduler.Valid()
      modifies this`preReadyCues, this`notices, scheduler
      ensures scheduler.Valid()
      ensures old(status) == Ready ==>
        && preReadyCues == old(preReadyCues) && notices == old(notices)
        && scheduler.Model() == CueScheduling.Schedule(scheduler.config, old(scheduler.Model()), cue, nowMs)
      ensures old(status) != Ready ==>
        && preReadyCues == Push(old(preReadyCues), cue, maxPreReadyCues)
        && notices == Reported(old(notices), old(preReadyCues), maxPreReadyCues)
        && scheduler.Model() == old(scheduler.Model())
    {
      if status != Ready {
        if |preReadyCues| >= maxPreReadyCues {
          var dropped := None;
          if preReadyCues != [] {
            dropped, preReadyCues := Some(preReadyCues[0].cueId), preReadyCues[1..];
          }
          Report(Notice(FULL, dropped));
        }
        preReadyCues := preReadyCues + [cue];
        return;
      }
      var _ := scheduler.Schedule(cue, nowMs);
    }

    /** Once the renderer has loaded, every buffered cue is scheduled in order at
        one instant; a failed load is reported with the code of its error and keeps
        the buffer for the next attempt. */
    method Load(failure: Option<string>, nowMs: real) returns (loaded: bool)
      requires scheduler.Valid()
      modifies this, scheduler
      ensures scheduler.Valid()
      ensures loaded <==> old(status) != Disposed && failure.None?
      ensures !loaded ==> preReadyCues == old(preReadyCues) && scheduler.Model() == old(scheduler.Model())
      ensures old(status) == Disposed ==> status == Disposed && notices == old(notices)
      ensures old(status) != Disposed && failure.Some? ==>
        status == Error && notices == Notify(old(notices), Notice(failure.value, None))
      ensures loaded ==>
        && status == Ready && preReadyCues == [] && notices == old(notices)
        && scheduler.Model() == ScheduleAll(scheduler.config, old(scheduler.Model()), old(preReadyCues), nowMs)
    {
      if status == Disposed {
        return false;
      }
      status := Loading;
      if failure.Some? {
        status := Error;
        Report(Notice(failure.value, None));
        return false;
      }
      status := Ready;
      var cues := preReadyCues;
      preReadyCues := [];
      Drain(cues, nowMs);
      loaded := true;
    }

    method Drain(cues: seq<AvatarCue>, nowMs: real)
      requires scheduler.Valid()
      modifies scheduler
      ensures scheduler.Valid()
      ensures scheduler.Model() == ScheduleAll(scheduler.config, old(scheduler.Model()), cues, nowMs)
    {
      ghost var before := scheduler.Model();
      for i := 0 to |cues|
        invariant scheduler.Valid()
        invariant scheduler.Model() == ScheduleAll(scheduler.config, before, cues[..i], nowMs)
      {
        ScheduleAllSnoc(scheduler.config, before, cues[..i], cues[i], nowMs);
        assert cues[..i + 1] == cues[..i] + [cues[i]];
        var _ := scheduler.Schedule(cues[i], nowMs);
      }
      assert cues[..|cues|] == cues;
    }
  }
}
