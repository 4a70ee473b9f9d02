/** What one event does to the shared OAuth slot, flow by flow
    (apps/desktop/src-tauri/src/google_oauth.rs). */
module OAuthRules {
  import opened Wrappers
  import opened OAuthSlot

  predicate InSlot(s: State, id: nat) { s.slot == Some(Flow(id, false)) || s.slot == Some(Flow(id, true)) }

  /** A flow is told to stop while it is in the slot: by its timer, by its own cancel, by
      a cancel of all, and by the flow that takes its place. */
  predicate IsTold(s: State, e: Event, id: nat) {
    && InSlot(s, id)
    && match e
       case Expire(other) => other == id && id in s.timers
       case Cancel(other) => other == id
       case CancelAll => true
       case Install(newer) => newer in s.reserved
       case _ => false
  }

  /** In every run each flow is told at most once, and only a timer tells that it expired. */
  lemma ToldExactly(events: seq<Event>, e: Event, id: nat)
    ensures var s := Run(EMPTY, events);
      var t := Step(s, e);
      && (IsTold(s, e, id) ==> id !in s.signals)
      && (id in t.signals <==> id in s.signals || IsTold(s, e, id))
      && (id in t.signals ==>
            t.signals[id] == if id in s.signals then s.signals[id] else if e.Expire? then Expired else Cancelled)
  {
    RunIsSound(events);
  }

  /** A receive gets the listener of the flow in the slot, once. */
  predicate Listens(s: State, e: Event, id: nat) {
    s.slot == Some(Flow(id, false)) && e == Receive(id, true)
  }

  /** A receive ends that has its outcome. */
  predicate Ends(s: State, e: Event, id: nat) {
    e == Finish(id) && id in s.receivers && s.receivers[id].Some?
  }

  /** Who is in the slot afterwards. */
  lemma SlotExactly(events: seq<Event>, e: Event)
    ensures var s := Run(EMPTY, events);
      var t := Step(s, e);
      if e.Install? && e.id in s.reserved then t.slot == Some(Flow(e.id, false))
      else if exists id :: InSlot(s, id) && (IsTold(s, e, id) || Ends(s, e, id)) then t.slot == None
      else if exists id :: Listens(s, e, id) then t.slot == Some(Flow(s.slot.value.id, true))
      else t.slot == s.slot
  {
    var s := Run(EMPTY, events);
    assert s.slot.Some? ==> InSlot(s, s.slot.value.id);
    assert forall id :: InSlot(s, id) ==> id == s.slot.value.id;
    assert e.Receive? ==> (Listens(s, e, e.id) <==> exists id :: Listens(s, e, id));
  }

  /** Identifiers count up from one; a drawn one waits until it is installed, and an
      installed flow has a timer until that fires. */
  lemma IdentifiersCount(events: seq<Event>, e: Event)
    ensures Run(EMPTY, []).next == 1 && Run(EMPTY, []).slot == None
    ensures var s := Run(EMPTY, events);
      var t := Step(s, e);
      && t.next == s.next + (if e == Reserve then 1 else 0)
      && (forall id :: id in t.reserved <==> (id in s.reserved && e != Install(id)) || (e == Reserve && id == s.next))
      && (forall id :: id in t.timers <==> (id in s.timers && e != Expire(id)) || (e == Install(id) && id in s.reserved))
  {}

  /** What a receive that is asked for its outcome says: a refused callback is a refusal;
      otherwise a flow that was told to stop says so, and only one that was not says what
      came. */
  function Answer(s: State, id: nat, answer: Outcome): Outcome {
    if answer == Rejected then Rejected
    else if id in s.signals then match s.signals[id] { case Expired => TimedOut case Cancelled => WasCancelled }
    else answer
  }

  lemma EndExactly(s: State, e: Event, id: nat)
    requires Sound(s)
    ensures var t := Step(s, e);
      && (id in t.finished <==> id in s.finished || Ends(s, e, id))
      && (id in t.finished ==> t.finished[id] == if Ends(s, e, id) then s.receivers[id].value else s.finished[id])
  {}

  lemma WaitExactly(s: State, e: Event, id: nat)
    requires Sound(s)
    ensures var t := Step(s, e);
      && (id in t.receivers <==> (id in s.receivers && !Ends(s, e, id)) || Listens(s, e, id))
      && (id in t.receivers ==>
            t.receivers[id] == if Listens(s, e, id) then None
                               else if s.receivers[id].None? && e.Decide? && e.id == id then Some(Answer(s, id, e.answer))
                               else s.receivers[id])
  {}

  /** In every run a receive goes from waiting to its outcome to its end, and nothing else
      moves it. */
  lemma ReceiveExactly(events: seq<Event>, e: Event, id: nat)
    ensures var s := Run(EMPTY, events);
      var t := Step(s, e);
      && (id in t.receivers <==> (id in s.receivers && !Ends(s, e, id)) || Listens(s, e, id))
      && (id in t.receivers ==>
            t.receivers[id] == if Listens(s, e, id) then None
                               else if s.receivers[id].None? && e.Decide? && e.id == id then Some(Answer(s, id, e.answer))
                               else s.receivers[id])
      && (id in t.finished <==> id in s.finished || Ends(s, e, id))
      && (id in t.finished ==> t.finished[id] == if Ends(s, e, id) then s.receivers[id].value else s.finished[id])
  {
    hide Step, Run, Sound, Ends, Listens, Answer;
    RunIsSound(events);
    WaitExactly(Run(EMPTY, events), e, id);
    EndExactly(Run(EMPTY, events), e, id);
  }
}
