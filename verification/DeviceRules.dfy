/** The device commands in terms of what is stored and what is answered: which check
    refuses a request, what a request that reaches the calendar leaves behind, how
    long its answer lasts, and what every other command changes
    (apps/desktop/src-tauri/src/assistant_device.rs). */
module DeviceRules {
  import opened Checks
  import opened Wrappers
  import opened DeviceJournal

  // ----- The checks of a request -----

  /** Every check in order; a request that is known is answered from its entry. */
  ghost function ChecksOf(b: Binding, p: Payload, now: real): seq<Check<Reply>> {
    [Check(|p.requestId| == 36, Failed("invalid_operation")),
     Check(p.requestId !in b.journal, if p.requestId in b.journal then Done(b.journal[p.requestId]) else Gone),
     Check(|b.journal| < 200, Failed("device_result_queue_full")),
     Check(p.expiresAt.Some? && now < p.expiresAt.value <= now + 301.0, Failed("operation_expired")),
     Check(p.action in {"list", "create", "update", "complete", "delete"} && p.deviceId == b.deviceId, Failed("invalid_operation")),
     Check(exists source :: source in b.sources && Selects(source, p), Failed("source_not_selected")),
     Check(p.size <= 8192, Failed("operation_too_large"))]
  }

  predicate Selects(source: Source, p: Payload) {
    source.id == p.calendarId && source.resource == p.resource && (p.action != "list" ==> source.writable)
  }

  lemma SelectedMeans(b: Binding, p: Payload)
    ensures Allowed(b, p) <==> exists source :: source in b.sources && Selects(source, p)
  {
    if Allowed(b, p) {
      var i :| 0 <= i < |b.sources| && b.sources[i].id == p.calendarId && b.sources[i].resource == p.resource
               && (p.action == "list" || b.sources[i].writable);
      assert Selects(b.sources[i], p);
    }
    if source :| source in b.sources && Selects(source, p) {
      var i :| 0 <= i < |b.sources| && b.sources[i] == source;
    }
  }

  /** A request is let through if and only if every check holds ... */
  lemma LetThroughExactly(b: Binding, p: Payload, now: real)
    ensures Admission(b, p, now).None? <==> AllHold(ChecksOf(b, p, now))
  {
    SelectedMeans(b, p);
    var checks := ChecksOf(b, p, now);
    assert AllHold(checks) ==> checks[0].holds && checks[1].holds && checks[2].holds && checks[3].holds && checks[4].holds
                               && checks[5].holds && checks[6].holds;
  }

  /** ... and otherwise the first one that fails answers it. */
  lemma FirstFailingRefuses(b: Binding, p: Payload, now: real, k: int)
    requires FirstFailing(ChecksOf(b, p, now), k)
    ensures Admission(b, p, now) == Some(ChecksOf(b, p, now)[k].refusal)
  {
    SelectedMeans(b, p);
    var checks := ChecksOf(b, p, now);
    assert (k > 0 ==> checks[0].holds) && (k > 1 ==> checks[1].holds) && (k > 2 ==> checks[2].holds);
    assert (k > 3 ==> checks[3].holds) && (k > 4 ==> checks[4].holds) && (k > 5 ==> checks[5].holds);
  }

  // ----- A request that is let through -----

  const OUTCOME_UNCERTAIN := "{\"error\":\"apple_write_outcome_uncertain\"}"

  /** Nothing stored but this entry moved. */
  predicate OnlyEntryMoved(st: Store, next: Store, server: string, id: string) {
    && server in st.disk && server in next.disk
    && next.disk - {server} == st.disk - {server}
    && next.disk[server].(journal := map[]) == st.disk[server].(journal := map[])
    && next.disk[server].journal - {id} == st.disk[server].journal - {id}
  }

  predicate HasEntry(st: Store, server: string, id: string, entry: string) {
    server in st.disk && id in st.disk[server].journal && st.disk[server].journal[id] == entry
  }

  predicate HasNone(st: Store, server: string, id: string) { server in st.disk && id !in st.disk[server].journal }

  /** The calendar was called once. A result whose save landed is the entry of the
      request; if the process died in the call, or the save did not land, a write
      keeps the uncertain marker and a list has no entry. The result is answered
      only if it was saved. */
  predicate Performed(st: Store, next: Store, r: Reply, server: string, p: Payload, env: Environment) {
    var id, isWrite := p.requestId, p.action != "list";
    && OnlyEntryMoved(st, next, server, id)
    && match env.native
       case Died =>
         && next.log == st.log + [NativeCall(server, id, isWrite, None)] && r == Gone
         && (if isWrite then HasEntry(next, server, id, OUTCOME_UNCERTAIN) else HasNone(next, server, id))
       case Returned(result) =>
         && next.log == st.log + [NativeCall(server, id, isWrite, Some(result))]
         && match env.lastSave
            case Saved => r == Done(result) && HasEntry(next, server, id, result)
            case DiedAfter => r == Gone && HasEntry(next, server, id, result)
            case Refused =>
              r == Failed("device_save_failed")
              && (if isWrite then HasEntry(next, server, id, OUTCOME_UNCERTAIN) else HasNone(next, server, id))
            case DiedBefore =>
              r == Gone && (if isWrite then HasEntry(next, server, id, OUTCOME_UNCERTAIN) else HasNone(next, server, id))
  }

  /** A write whose marker was not saved does not reach the calendar. */
  predicate NotMarked(st: Store, next: Store, r: Reply, server: string, p: Payload, env: Environment) {
    && next.log == st.log
    && (env.firstSave == DiedAfter ==>
          OnlyEntryMoved(st, next, server, p.requestId) && HasEntry(next, server, p.requestId, OUTCOME_UNCERTAIN))
    && (env.firstSave != DiedAfter ==> next == st)
    && r == if env.firstSave == Refused then Failed("device_save_failed") else Gone
  }

  /** All that `execute` does for a paired device. */
  ghost predicate ExecuteIs(st: Store, next: Store, r: Reply, server: string, p: Payload, env: Environment)
    requires server in st.disk
  {
    var checks := ChecksOf(st.disk[server], p, env.now);
    if AllHold(checks) then
      if p.action == "list" || env.firstSave == Saved then Performed(st, next, r, server, p, env)
      else NotMarked(st, next, r, server, p, env)
    else next == st && exists k :: FirstFailing(checks, k) && r == checks[k].refusal
  }

  lemma EntryMoves(st: Store, server: string, id: string, entry: string, next: Store)
    requires server in st.disk && next.disk == WithEntry(st.disk, server, id, entry)
    ensures OnlyEntryMoved(st, next, server, id) && HasEntry(next, server, id, entry)
  {}

  lemma NativePerforms(st: Store, before: Store, server: string, p: Payload, env: Environment)
    requires server in before.disk && before.log == st.log
    requires if p.action == "list" then before == st && HasNone(st, server, p.requestId)
             else OnlyEntryMoved(st, before, server, p.requestId) && HasEntry(before, server, p.requestId, OUTCOME_UNCERTAIN)
    ensures var (next, r) := PerformNative(before, before.disk, server, p, env); Performed(st, next, r, server, p, env)
  {
    if env.native.Returned? {
      var called := before.log + [NativeCall(server, p.requestId, p.action != "list", Some(env.native.result))];
      assert called + [] == called;
      EntryMoves(before, server, p.requestId, env.native.result,
                 Store(WithEntry(before.disk, server, p.requestId, env.native.result), called));
    }
  }

  lemma AdmittedExecutes(st: Store, server: string, p: Payload, env: Environment)
    requires server in st.disk && p.requestId !in st.disk[server].journal
    ensures var (next, r) := ExecuteAdmitted(st, server, p, env);
      if p.action == "list" || env.firstSave == Saved then Performed(st, next, r, server, p, env)
      else NotMarked(st, next, r, server, p, env)
  {
    assert st.log + [] == st.log;
    var marked := Store(WithEntry(st.disk, server, p.requestId, UNCERTAIN), st.log);
    EntryMoves(st, server, p.requestId, UNCERTAIN, marked);
    NativePerforms(st, if p.action == "list" then st else marked, server, p, env);
  }

  /** What `execute` answers and leaves, for any request and any faults. */
  lemma ExecuteExactly(st: Store, server: string, p: Payload, env: Environment)
    requires server in st.disk
    ensures var (next, r) := Run(st, server, Execute(p), env); ExecuteIs(st, next, r, server, p, env)
  {
    var checks := ChecksOf(st.disk[server], p, env.now);
    LetThroughExactly(st.disk[server], p, env.now);
    if AllHold(checks) {
      assert checks[1].holds;
      AdmittedExecutes(st, server, p, env);
    } else {
      var k := SomeFirst(checks);
      FirstFailingRefuses(st.disk[server], p, env.now, k);
    }
  }

  // ----- The answer stays -----

  /** A request with an entry is answered from it, whatever else it asks for, and
      nothing happens. */
  lemma KnownIsRepeated(st: Store, server: string, id: string, entry: string, p: Payload, env: Environment)
    requires HasEntry(st, server, id, entry) && p.requestId == id && |id| == 36
    ensures Run(st, server, Execute(p), env) == (st, Done(entry))
  {}

  predicate ForgetsEntry(step: Step, server: string, id: string) {
    step.server == server && (step.command == Forget || step.command == ForgetResult(id))
  }

  lemma EntryStaysStep(st: Store, step: Step, server: string, id: string, entry: string)
    requires HasEntry(st, server, id, entry) && !ForgetsEntry(step, server, id)
    ensures HasEntry(Run(st, step.server, step.command, step.env).0, server, id, entry)
  {
    if step.command.Execute? && step.server in st.disk {
      ExecuteExactly(st, step.server, step.command.payload, step.env);
      var next := Run(st, step.server, step.command, step.env).0;
      if step.server == server && step.command.payload.requestId == id {
        assert !ChecksOf(st.disk[server], step.command.payload, step.env.now)[1].holds;
      } else if step.server == server {
        assert next != st ==> id in next.disk[server].journal - {step.command.payload.requestId};
      } else {
        assert next != st ==> server in next.disk - {step.server};
      }
    }
  }

  /** What later commands make of the store. */
  function Then(st: Store, steps: seq<Step>): Store {
    if steps == [] then st
    else
      var last := steps[|steps| - 1];
      Run(Then(st, steps[..|steps| - 1]), last.server, last.command, last.env).0
  }

  lemma {:induction false} AfterIsThen(steps: seq<Step>)
    ensures After(steps) == Then(Store(map[], []), steps)
  {
    if steps != [] {
      AfterIsThen(steps[..|steps| - 1]);
    }
  }

  lemma {:induction false} EntryStays(st: Store, steps: seq<Step>, server: string, id: string, entry: string)
    requires HasEntry(st, server, id, entry) && forall k :: 0 <= k < |steps| ==> !ForgetsEntry(steps[k], server, id)
    ensures HasEntry(Then(st, steps), server, id, entry)
  {
    if steps != [] {
      EntryStays(st, steps[..|steps| - 1], server, id, entry);
      EntryStaysStep(Then(st, steps[..|steps| - 1]), steps[|steps| - 1], server, id, entry);
    }
  }

  lemma LetThroughHasId(b: Binding, p: Payload, now: real)
    requires AllHold(ChecksOf(b, p, now))
    ensures |p.requestId| == 36
  {
    assert ChecksOf(b, p, now)[0].holds;
  }

  /** After any run: a request that passes every check, whose marker was saved if it
      writes, whose native call returned and whose result landed, is answered with
      that result by every later request of its identifier, until it or its server
      is forgotten. */
  lemma ResultIsRepeated(steps: seq<Step>, server: string, p: Payload, env: Environment, later: seq<Step>, again: Payload,
                         env2: Environment)
    requires server in After(steps).disk && AllHold(ChecksOf(After(steps).disk[server], p, env.now))
    requires (p.action == "list" || env.firstSave == Saved) && env.native.Returned? && env.lastSave in {Saved, DiedAfter}
    requires again.requestId == p.requestId && forall k :: 0 <= k < |later| ==> !ForgetsEntry(later[k], server, p.requestId)
    ensures var st := Then(Run(After(steps), server, Execute(p), env).0, later);
      Run(st, server, Execute(again), env2) == (st, Done(env.native.result))
  {
    hide Run, After, Then, ChecksOf;
    var st := After(steps);
    ExecuteExactly(st, server, p, env);
    LetThroughHasId(st.disk[server], p, env.now);
    var next := Run(st, server, Execute(p), env).0;
    EntryStays(next, later, server, p.requestId, env.native.result);
    KnownIsRepeated(Then(next, later), server, p.requestId, env.native.result, again, env2);
  }

  /** A write that died in the native call, or whose result did not land, is answered
      with the uncertain marker. */
  lemma UncertainIsRepeated(steps: seq<Step>, server: string, p: Payload, env: Environment, later: seq<Step>, again: Payload,
                            env2: Environment)
    requires server in After(steps).disk && AllHold(ChecksOf(After(steps).disk[server], p, env.now))
    requires p.action != "list" && (env.firstSave == Saved || env.firstSave == DiedAfter)
    requires env.firstSave == DiedAfter || env.native.Died? || env.lastSave in {Refused, DiedBefore}
    requires again.requestId == p.requestId && forall k :: 0 <= k < |later| ==> !ForgetsEntry(later[k], server, p.requestId)
    ensures var st := Then(Run(After(steps), server, Execute(p), env).0, later);
      Run(st, server, Execute(again), env2) == (st, Done(OUTCOME_UNCERTAIN))
  {
    hide Run, After, Then, ChecksOf;
    var st := After(steps);
    ExecuteExactly(st, server, p, env);
    LetThroughHasId(st.disk[server], p, env.now);
    var next := Run(st, server, Execute(p), env).0;
    EntryStays(next, later, server, p.requestId, OUTCOME_UNCERTAIN);
    KnownIsRepeated(Then(next, later), server, p.requestId, OUTCOME_UNCERTAIN, again, env2);
  }

  // ----- The other commands -----

  /** Only this binding moved, and nothing was logged but `logged`. */
  predicate OnlyBindingMoved(st: Store, next: Store, server: string, logged: seq<Effect>) {
    && server in st.disk && server in next.disk && next.disk - {server} == st.disk - {server}
    && next.log == st.log + logged
  }

  /** Pairing takes a device identifier of 36 characters and a secret of 32 to 128,
      for a server that is not paired, and starts with nothing. */
  lemma PairExactly(st: Store, server: string, deviceId: string, secret: string, env: Environment)
    requires env.lastSave == Saved
    ensures var (next, r) := Run(st, server, Pair(deviceId, secret), env);
      if |deviceId| != 36 || |secret| < 32 || |secret| > 128 then next == st && r == Failed("invalid_device")
      else if server in st.disk then next == st && r == Failed("unpair_current_device_first")
      else
        && r == Done("ok") && next.log == st.log && next.disk.Keys == st.disk.Keys + {server} && next.disk - {server} == st.disk
        && var b := next.disk[server];
           && b.deviceId == deviceId && b.secret == secret && b.sources == [] && b.sourceRevision == 0
           && b.journal == map[] && b.presented == [] && b.receipts == [] && b.actions == map[]
  {}

  lemma ForgetExactly(st: Store, server: string, env: Environment)
    requires env.lastSave == Saved
    ensures Run(st, server, Forget, env) == (Store(st.disk - {server}, st.log + [ForgotServer(server)]), Done("ok"))
  {}

  /** Every other command needs a paired device. */
  lemma NotPaired(st: Store, server: string, command: Command, env: Environment)
    requires server !in st.disk && !command.Pair? && !command.Forget?
    ensures Run(st, server, command, env) == (st, Failed("device_not_paired"))
  {}

  /** The sources are those that were found again; the revision says that they may
      have changed. */
  lemma SelectExactly(st: Store, server: string, found: Option<seq<Source>>, env: Environment)
    requires server in st.disk && env.lastSave == Saved
    ensures var (next, r) := Run(st, server, Select(found), env);
      if found.None? then next == st && r == Failed("invalid_sources")
      else
        && r == Done("ok") && OnlyBindingMoved(st, next, server, [])
        && next.disk[server].sources == found.value && next.disk[server].sourceRevision == st.disk[server].sourceRevision + 1
        && next.disk[server].(sources := [], sourceRevision := 0) == st.disk[server].(sources := [], sourceRevision := 0)
  {
    assert st.log + [] == st.log;
  }

  /** A new delivery is the last of at most a thousand presented ones, and of at most
      ten thousand receipts. */
  lemma PresentExactly(st: Store, server: string, id: string, env: Environment)
    requires server in st.disk && env.lastSave == Saved
    ensures var b, (next, r) := st.disk[server], Run(st, server, Present(id), env);
      if |id| != 36 then next == st && r == Failed("invalid_delivery")
      else if id in b.presented then next == st && r == First(false)
      else if |b.receipts| >= 10000 then next == st && r == Failed("presentation_receipt_queue_full")
      else
        && r == First(true) && OnlyBindingMoved(st, next, server, [Recorded(server, id)])
        && next.disk[server].receipts == b.receipts + [id]
        && next.disk[server].presented == (if |b.presented| < 1000 then b.presented + [id] else b.presented[1..] + [id])
        && next.disk[server].(presented := [], receipts := []) == b.(presented := [], receipts := [])
  {
    var b := st.disk[server];
    assert |b.presented| >= 1000 ==> (b.presented + [id])[1..] == b.presented[1..] + [id];
  }

  /** A decision is taken for a presented delivery; the same one again changes nothing,
      and the other one is a conflict. */
  lemma QueueExactly(st: Store, server: string, id: string, decision: Decision, env: Environment)
    requires server in st.disk && env.lastSave == Saved
    ensures var b, (next, r) := st.disk[server], Run(st, server, QueueAction(id, decision), env);
      if |id| != 36 || id !in b.presented then next == st && r == Failed("delivery_not_presented")
      else if id in b.actions then next == st && r == if b.actions[id].action == decision then Done("ok") else Failed("delivery_action_conflict")
      else if |b.actions| >= 1000 then next == st && r == Failed("delivery_action_queue_full")
      else
        && r == Done("ok") && OnlyBindingMoved(st, next, server, [])
        && id in next.disk[server].actions && next.disk[server].actions[id].action == decision && !next.disk[server].actions[id].rejected
        && next.disk[server].actions - {id} == b.actions - {id}
        && next.disk[server].(actions := map[]) == b.(actions := map[])
  {
    assert st.log + [] == st.log && st.disk[server := st.disk[server]] == st.disk;
  }

  /** A rejection marks the decision and keeps it. */
  lemma RejectExactly(st: Store, server: string, id: string, env: Environment)
    requires server in st.disk && env.lastSave == Saved
    ensures var b, (next, r) := st.disk[server], Run(st, server, RejectAction(id), env);
      if id !in b.actions then next == st && r == Failed("delivery_action_missing")
      else
        && r == Done("ok") && OnlyBindingMoved(st, next, server, [])
        && id in next.disk[server].actions
        && next.disk[server].actions[id].rejected && next.disk[server].actions[id].action == b.actions[id].action
        && next.disk[server].actions - {id} == b.actions - {id}
        && next.disk[server].(actions := map[]) == b.(actions := map[])
  {
    assert st.log + [] == st.log;
  }

  /** What is forgotten is gone, and nothing else is. */
  lemma ForgettingExactly(st: Store, server: string, id: string, env: Environment)
    requires server in st.disk && env.lastSave == Saved
    ensures var b, (next, r) := st.disk[server], Run(st, server, ForgetAction(id), env);
      && r == Done("ok") && OnlyBindingMoved(st, next, server, [])
      && next.disk[server].actions == b.actions - {id} && next.disk[server].(actions := map[]) == b.(actions := map[])
    ensures var b, (next, r) := st.disk[server], Run(st, server, ForgetResult(id), env);
      && r == Done("ok") && OnlyBindingMoved(st, next, server, [ForgotResult(server, id)])
      && next.disk[server].journal == b.journal - {id} && next.disk[server].(journal := map[]) == b.(journal := map[])
    ensures var b, (next, r) := st.disk[server], Run(st, server, ForgetPresentation(id), env);
      && r == Done("ok") && OnlyBindingMoved(st, next, server, [])
      && multiset(next.disk[server].receipts) == multiset(b.receipts)[id := 0]
      && next.disk[server].(receipts := []) == b.(receipts := [])
  {
    assert st.log + [] == st.log;
    WithoutAll(st.disk[server].receipts, id);
  }

  lemma {:induction false} WithoutAll(receipts: seq<string>, id: string)
    ensures multiset(Without(receipts, id)) == multiset(receipts)[id := 0]
  {
    if receipts != [] {
      assert receipts == [receipts[0]] + receipts[1..];
      WithoutAll(receipts[1..], id);
    }
  }

  /** What `retain` keeps stays in its order: the first part, then the second. */
  lemma {:induction false} WithoutParts(a: seq<string>, b: seq<string>, id: string)
    ensures Without(a + b, id) == Without(a, id) + Without(b, id)
    ensures forall x :: Without([x], id) == if x == id then [] else [x]
    decreases |a|
  {
    if a == [] {
      assert a + b == b;
    } else {
      assert (a + b)[1..] == a[1..] + b;
      WithoutParts(a[1..], b, id);
    }
  }

  /** A notification is saved as nothing; a failed one is refused. */
  lemma NotifyExactly(st: Store, server: string, shown: bool, env: Environment)
    requires server in st.disk && env.lastSave == Saved
    ensures Run(st, server, Notify(shown), env) == (st, if shown then Done("ok") else Failed("notification_failed"))
  {
    assert st.log + [] == st.log && st.disk[server := st.disk[server]] == st.disk;
  }

  /** The other ends of a save, for every command but `execute`: only a crash after
      the rename leaves what a save would, and only what would have been answered
      without saving is answered as ever. */
  lemma OtherSaves(st: Store, server: string, command: Command, env: Environment)
    requires !command.Execute?
    ensures var (next, r) := Run(st, server, command, env);
      var (saved, answer) := Run(st, server, command, env.(lastSave := Saved));
      && (env.lastSave in {Refused, DiedBefore} ==> next == st)
      && (env.lastSave in {Saved, DiedAfter} ==> next == saved)
      && r == (if answer.Failed? || answer == First(false) || env.lastSave == Saved then answer
               else if env.lastSave == Refused then Failed("device_save_failed") else Gone)
  {}
}
