/** The single slot that OAuth flows share: prepare, the expiry timer, cancel and
    receive interleave at their lock sections
    (apps/desktop/src-tauri/src/google_oauth.rs). */
module OAuthSlot {
  import opened Wrappers

  /** `taken`: a receive holds the flow's listener. */
  datatype Flow = Flow(id: nat, taken: bool)

  /** Values sent to a flow's cancel channel: 1 and 2 in the program. */
  datatype Signal = Cancelled | Expired

  datatype Outcome = Code | WasCancelled | TimedOut | Rejected

  /** `reserved`: identifiers drawn but not installed; `receivers`: receives that
      hold a listener, with the outcome once it is decided; `finished`: receives
      that returned. */
  datatype State = State(
    next: nat,
    reserved: set<nat>,
    slot: Option<Flow>,
    signals: map<nat, Signal>,
    timers: set<nat>,
    receivers: map<nat, Option<Outcome>>,
    finished: map<nat, Outcome>)

  datatype Event =
    | Reserve
    | Install(id: nat)
    | Expire(id: nat)
    | Cancel(id: nat)
    | CancelAll
    | Receive(id: nat, urlValid: bool)
    | Decide(id: nat, answer: Outcome)
    | Finish(id: nat)

  predicate Holds(s: State, id: nat) { s.slot.Some? && s.slot.value.id == id }

  /** slot.take() and the cancel channel of the flow that was there. */
  function TakeAndSignal(s: State, signal: Signal): State {
    if s.slot.None? then s else s.(slot := None, signals := s.signals[s.slot.value.id := signal])
  }

  /** prepare's lock section: the previous flow is told, the new one installed with
      its timer. */
  function InstallStep(s: State, id: nat): State {
    if id !in s.reserved then s
    else
      var t := TakeAndSignal(s, Cancelled);
      t.(slot := Some(Flow(id, false)), reserved := s.reserved - {id}, timers := s.timers + {id})
  }

  /** A timer ends the flow only while it still holds the slot. */
  function ExpireStep(s: State, id: nat): State {
    if id !in s.timers then s
    else
      var t := if Holds(s, id) then TakeAndSignal(s, Expired) else s;
      t.(timers := s.timers - {id})
  }

  /** receive's first lock section: the right flow, a valid address, and a listener
      that nobody took. */
  function ReceiveStep(s: State, id: nat, urlValid: bool): State {
    if Holds(s, id) && urlValid && !s.slot.value.taken then
      s.(slot := Some(Flow(id, true)), receivers := s.receivers[id := None])
    else s
  }

  /** The wait ends: a signal comes before a callback. `answer` is what happened
      otherwise. */
  function DecideStep(s: State, id: nat, answer: Outcome): State {
    if id !in s.receivers || s.receivers[id].Some? then s
    else
      var outcome :=
        if answer == Rejected || id !in s.signals then answer
        else if s.signals[id] == Expired then TimedOut
        else WasCancelled;
      s.(receivers := s.receivers[id := Some(outcome)])
  }

  /** receive's last lock section clears the slot only if it is still its own. */
  function FinishStep(s: State, id: nat): State {
    if id !in s.receivers || s.receivers[id].None? then s
    else
      s.(slot := if Holds(s, id) then None else s.slot,
         receivers := s.receivers - {id},
         finished := s.finished[id := s.receivers[id].value])
  }

  function Step(s: State, e: Event): State {
    match e
    case Reserve => s.(next := s.next + 1, reserved := s.reserved + {s.next})
    case Install(id) => InstallStep(s, id)
    case Expire(id) => ExpireStep(s, id)
    case Cancel(id) => if Holds(s, id) then TakeAndSignal(s, Cancelled) else s
    case CancelAll => TakeAndSignal(s, Cancelled)
    case Receive(id, urlValid) => ReceiveStep(s, id, urlValid)
    case Decide(id, answer) => DecideStep(s, id, answer)
    case Finish(id) => FinishStep(s, id)
  }

  function Run(s: State, events: seq<Event>): State {
    if events == [] then s else Step(Run(s, events[..|events| - 1]), events[|events| - 1])
  }

  const EMPTY: State := State(1, {}, None, map[], {}, map[], map[])

  // ----- What every interleaving keeps -----

  /** Not drawn yet, or drawn and not installed: nothing knows this identifier. */
  predicate Unused(s: State, id: nat) {
    id !in s.signals && id !in s.timers && id !in s.receivers && id !in s.finished && !Holds(s, id)
  }

  ghost predicate Fresh(s: State) {
    && (forall id :: id >= s.next ==> Unused(s, id))
    && (forall id :: id in s.reserved ==> id < s.next && Unused(s, id))
  }

  /** The flow in the slot was not told to stop and has a running timer; its
      listener is taken exactly when a receive works on it. */
  ghost predicate SlotSound(s: State) {
    s.slot.Some? ==>
      var flow := s.slot.value;
      && flow.id !in s.signals && flow.id !in s.finished && flow.id in s.timers
      && (flow.taken <==> flow.id in s.receivers)
  }

  /** No wake-up is lost: a receive whose flow is gone was told so. */
  ghost predicate NoLostSignal(s: State) {
    forall id :: id in s.receivers ==> Holds(s, id) || id in s.signals
  }

  ghost predicate OneReceiveEach(s: State) {
    forall id :: id in s.receivers ==> id !in s.finished
  }

  ghost predicate Sound(s: State) {
    Fresh(s) && SlotSound(s) && NoLostSignal(s) && OneReceiveEach(s)
  }

  lemma TakeKeepsSound(s: State, signal: Signal)
    requires Sound(s)
    ensures Sound(TakeAndSignal(s, signal))
  {
    forall id | Unused(s, id)
      ensures Unused(TakeAndSignal(s, signal), id)
    {}
  }

  lemma ReserveKeepsSound(s: State)
    requires Sound(s)
    ensures Sound(Step(s, Reserve))
  {
    forall other | Unused(s, other)
      ensures Unused(Step(s, Reserve), other)
    {}
  }

  lemma InstallKeepsSound(s: State, id: nat)
    requires Sound(s)
    ensures Sound(InstallStep(s, id))
  {
    if id in s.reserved {
      TakeKeepsSound(s, Cancelled);
      forall other | Unused(TakeAndSignal(s, Cancelled), other) && other != id
        ensures Unused(InstallStep(s, id), other)
      {}
    }
  }

  lemma ExpireKeepsSound(s: State, id: nat)
    requires Sound(s)
    ensures Sound(ExpireStep(s, id))
  {
    TakeKeepsSound(s, Expired);
    forall other | Unused(s, other)
      ensures Unused(ExpireStep(s, id), other)
    {}
  }

  lemma ReceiveKeepsSound(s: State, id: nat, urlValid: bool)
    requires Sound(s)
    ensures Sound(ReceiveStep(s, id, urlValid))
  {
    forall other | Unused(s, other)
      ensures Unused(ReceiveStep(s, id, urlValid), other)
    {}
  }

  lemma DecideKeepsSound(s: State, id: nat, answer: Outcome)
    requires Sound(s)
    ensures Sound(DecideStep(s, id, answer))
  {
    forall other | Unused(s, other)
      ensures Unused(DecideStep(s, id, answer), other)
    {}
  }

  lemma FinishKeepsSound(s: State, id: nat)
    requires Sound(s)
    ensures Sound(FinishStep(s, id))
  {
    forall other | Unused(s, other)
      ensures Unused(FinishStep(s, id), other)
    {}
  }

  lemma StepKeepsSound(s: State, e: Event)
    requires Sound(s)
    ensures Sound(Step(s, e))
  {
    match e
    case Reserve => ReserveKeepsSound(s);
    case Install(id) => InstallKeepsSound(s, id);
    case Expire(id) => ExpireKeepsSound(s, id);
    case Cancel(_) => TakeKeepsSound(s, Cancelled);
    case CancelAll => TakeKeepsSound(s, Cancelled);
    case Receive(id, urlValid) => ReceiveKeepsSound(s, id, urlValid);
    case Decide(id, answer) => DecideKeepsSound(s, id, answer);
    case Finish(id) => FinishKeepsSound(s, id);
  }

  /** Whatever the interleaving, the slot's flow is alive, timed and owned by at
      most one receive, and every other waiting receive has been told to stop. */
  lemma {:induction false} RunIsSound(events: seq<Event>)
    ensures Sound(Run(EMPTY, events))
  {
    if events != [] {
      RunIsSound(events[..|events| - 1]);
      StepKeepsSound(Run(EMPTY, events[..|events| - 1]), events[|events| - 1]);
    }
  }

  function Subject(e: Event): Option<nat> {
    match e
    case Expire(id) => Some(id)
    case Cancel(id) => Some(id)
    case Receive(id, _) => Some(id)
    case Decide(id, _) => Some(id)
    case Finish(id) => Some(id)
    case _ => None
  }

  /** A timer, a cancel or a receive of one flow never takes another flow out of
      the slot, however late it comes. */
  lemma OthersKeepTheSlot(s: State, e: Event)
    requires s.slot.Some? && Subject(e).Some? && !Holds(s, Subject(e).value)
    ensures Step(s, e).slot == s.slot
  {}

  /** After a new flow is installed, every receive of an older flow ends without a
      code: it has been signalled, and a signal comes before a callback. */
  lemma SupersededNeverSucceeds(events: seq<Event>, id: nat, older: nat, answer: Outcome)
    requires var s := Run(EMPTY, events);
      id in s.reserved && older in s.receivers && s.receivers[older].None?
    ensures var t := Step(Step(Run(EMPTY, events), Install(id)), Decide(older, answer));
      older in t.receivers && t.receivers[older].Some? && t.receivers[older].value != Code
  {
    var s := Run(EMPTY, events);
    RunIsSound(events);
    StepKeepsSound(s, Install(id));
  }

  // ----- Signals are final -----

  /** A receive that was told to stop before its outcome was decided. */
  ghost predicate Doomed(s: State, id: nat) {
    && id in s.signals
    && (id in s.receivers ==> s.receivers[id] != Some(Code))
    && (id in s.finished ==> s.finished[id] != Code)
  }

  lemma StepKeepsDoomed(s: State, e: Event, id: nat)
    requires Sound(s) && Doomed(s, id)
    ensures Doomed(Step(s, e), id)
  {}

  lemma {:induction false} DoomedStays(s: State, events: seq<Event>, id: nat)
    requires Sound(s) && Doomed(s, id)
    ensures Sound(Run(s, events)) && Doomed(Run(s, events), id)
  {
    if events != [] {
      DoomedStays(s, events[..|events| - 1], id);
      StepKeepsSound(Run(s, events[..|events| - 1]), events[|events| - 1]);
      StepKeepsDoomed(Run(s, events[..|events| - 1]), events[|events| - 1], id);
    }
  }

  /** A flow cancelled or expired before its outcome is decided never yields a
      code in any continuation. */
  lemma SignalledNeverYieldsCode(before: seq<Event>, after: seq<Event>, id: nat)
    requires Doomed(Run(EMPTY, before), id)
    ensures var s := Run(Run(EMPTY, before), after);
      id in s.finished ==> s.finished[id] != Code
  {
    RunIsSound(before);
    DoomedStays(Run(EMPTY, before), after, id);
  }

  // ----- The shared state -----

  class OAuthState {
    var next: nat
    var reserved: set<nat>
    var slot: Option<Flow>
    var signals: map<nat, Signal>
    var timers: set<nat>
    var receivers: map<nat, Option<Outcome>>
    var finished: map<nat, Outcome>

    ghost function Now(): State
      reads this
    {
      State.State(next, reserved, slot, signals, timers, receivers, finished)
    }

    ghost predicate Valid()
      reads this
    {
      Sound(Now())
    }

    constructor ()
      ensures Valid() && Now() == EMPTY
    {
      next, reserved, slot := 1, {}, None;
      signals, timers, receivers, finished := map[], {}, map[], map[];
    }

    predicate Owns(id: nat)
      reads this
      ensures Owns(id) == Holds(Now(), id)
    {
      slot.Some? && slot.value.id == id
    }

    /** Empties the slot and tells the flow that was there. */
    method Take(signal: Signal)
      requires Valid()
      modifies this`slot, this`signals
      ensures Valid() && Now() == TakeAndSignal(old(Now()), signal)
      ensures slot.None? && (old(slot).Some? ==> old(slot).value.id in signals && old(slot).value.id !in old(signals))
    {
      TakeKeepsSound(Now(), signal);
      if slot.Some? {
        signals := signals[slot.value.id := signal];
        slot := None;
      }
    }

    /** No identifier is drawn twice. */
    method DrawId() returns (id: nat)
      requires Valid()
      modifies this`next, this`reserved
      ensures Valid() && Now() == Step(old(Now()), Reserve)
      ensures id in reserved && Unused(Now(), id) && id !in old(reserved)
    {
      ReserveKeepsSound(Now());
      id := next;
      next := id + 1;
      reserved := reserved + {id};
    }

    /** The new flow is alone in the slot with its timer, and every receive that is
        still going on has been told to stop. */
    method Prepare(id: nat)
      requires Valid() && id in reserved
      modifies this`slot, this`signals, this`reserved, this`timers
      ensures Valid() && Now() == Step(old(Now()), Install(id))
      ensures Owns(id) && !slot.value.taken && id in timers && id !in signals
      ensures forall older :: older in receivers ==> older in signals
    {
      InstallKeepsSound(Now(), id);
      Take(Cancelled);
      slot := Some(Flow(id, false));
      reserved := reserved - {id};
      timers := timers + {id};
    }

    /** A late timer leaves a newer flow alone. */
    method TimerFires(id: nat)
      requires Valid() && id in timers
      modifies this`slot, this`signals, this`timers
      ensures Valid() && Now() == Step(old(Now()), Expire(id))
      ensures if old(Owns(id)) then slot.None? && id in signals && signals[id] == Expired
              else slot == old(slot) && signals == old(signals)
    {
      ExpireKeepsSound(Now(), id);
      if Owns(id) {
        Take(Expired);
      }
      timers := timers - {id};
    }

    /** A late cancel leaves a newer flow alone. */
    method CancelFlow(id: nat)
      requires Valid()
      modifies this`slot, this`signals
      ensures Valid() && Now() == Step(old(Now()), Cancel(id))
      ensures !Owns(id) && (old(Owns(id)) ==> id in signals && signals[id] == Cancelled)
      ensures !old(Owns(id)) ==> slot == old(slot) && signals == old(signals)
    {
      StepKeepsSound(Now(), Cancel(id));
      if Owns(id) {
        Take(Cancelled);
      }
    }

    /** Afterwards every receive that is still going on has been told to stop. */
    method CancelAll()
      requires Valid()
      modifies this`slot, this`signals
      ensures Valid() && Now() == Step(old(Now()), Event.CancelAll)
      ensures slot.None? && forall id :: id in receivers ==> id in signals
    {
      Take(Cancelled);
    }

    /** Only one receive gets the listener of a flow. */
    method BeginReceive(id: nat, urlValid: bool) returns (begun: bool)
      requires Valid()
      modifies this`slot, this`receivers
      ensures Valid() && Now() == Step(old(Now()), Receive(id, urlValid))
      ensures begun <==> old(Owns(id)) && urlValid && !old(slot).value.taken
      ensures begun ==> id !in old(receivers) && id in receivers && id !in signals
    {
      ReceiveKeepsSound(Now(), id, urlValid);
      if !Owns(id) || !urlValid || slot.value.taken {
        return false;
      }
      slot := Some(Flow(id, true));
      receivers := receivers[id := None];
      return true;
    }

    /** The wait of a receive: one that was told to stop yields no code. */
    method Await(id: nat, answer: Outcome) returns (outcome: Outcome)
      requires Valid() && id in receivers && receivers[id].None?
      modifies this`receivers
      ensures Valid() && Now() == Step(old(Now()), Decide(id, answer))
      ensures id in receivers && receivers[id] == Some(outcome)
      ensures id in signals ==> outcome != Code
      ensures outcome == Code ==> answer == Code && Owns(id)
    {
      DecideKeepsSound(Now(), id, answer);
      outcome := answer;
      if answer != Rejected && id in signals {
        outcome := if signals[id] == Expired then TimedOut else WasCancelled;
      }
      receivers := receivers[id := Some(outcome)];
    }

    /** Clears the slot only if it is still this flow's. */
    method EndReceive(id: nat) returns (outcome: Outcome)
      requires Valid() && id in receivers && receivers[id].Some?
      modifies this`slot, this`receivers, this`finished
      ensures Valid() && Now() == Step(old(Now()), Finish(id)) && outcome == old(receivers[id].value)
      ensures !Owns(id) && (slot == old(slot) || old(Owns(id)))
      ensures id !in receivers && id !in old(finished)
    {
      FinishKeepsSound(Now(), id);
      outcome := receivers[id].value;
      if Owns(id) {
        slot := None;
      }
      receivers := receivers - {id};
      finished := finished[id := outcome];
    }
  }
}
