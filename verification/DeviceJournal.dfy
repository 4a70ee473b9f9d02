/** The device binding store: what each command does to the stored bindings and
    to the native calendar, with a fault possible at every save and native call
    (apps/desktop/src-tauri/src/assistant_device.rs).

    The whole command runs under one lock and reads the file first, so nothing
    but the file survives between commands. */
module DeviceJournal {
  import opened Wrappers

  const UNCERTAIN := "{\"error\":\"apple_write_outcome_uncertain\"}"
  const MAX_RESULTS: nat := 200
  const MAX_PRESENTED: nat := 1000
  const MAX_RECEIPTS: nat := 10000
  const MAX_ACTIONS: nat := 1000

  datatype Source = Source(id: string, resource: string, writable: bool)

  datatype Decision = Stop | Snooze

  datatype ActionRecord = ActionRecord(action: Decision, rejected: bool)

  datatype Binding = Binding(
    deviceId: string,
    secret: string,
    sources: seq<Source>,
    sourceRevision: nat,
    journal: map<string, string>,
    presented: seq<string>,
    receipts: seq<string>,
    actions: map<string, ActionRecord>)

  type Bindings = map<string, Binding>

  datatype Payload = Payload(
    requestId: string,
    expiresAt: Option<real>,
    action: string,
    deviceId: string,
    calendarId: string,
    resource: string,
    size: nat)

  /** How a save ends: done, refused with the old file in place, or cut off by a
      crash just before or just after the atomic rename. */
  datatype SaveOutcome = Saved | Refused | DiedBefore | DiedAfter

  /** A native call returns something, or the process dies while it runs. */
  datatype NativeOutcome = Returned(result: string) | Died

  datatype Environment = Environment(now: real, firstSave: SaveOutcome, native: NativeOutcome, lastSave: SaveOutcome)

  datatype Reply = Done(value: string) | First(first: bool) | Failed(code: string) | Gone

  /** What happened outside the file, oldest first. */
  datatype Effect =
    | NativeCall(server: string, id: string, isWrite: bool, result: Option<string>)
    | ForgotServer(server: string)
    | ForgotResult(server: string, id: string)
    | Recorded(server: string, id: string)

  datatype Store = Store(disk: Bindings, log: seq<Effect>)

  datatype Command =
    | Pair(deviceId: string, secret: string)
    | Forget
    | Select(found: Option<seq<Source>>)
    | Present(id: string)
    | QueueAction(id: string, decision: Decision)
    | RejectAction(id: string)
    | ForgetAction(id: string)
    | ForgetResult(id: string)
    | ForgetPresentation(id: string)
    | Notify(shown: bool)
    | Execute(payload: Payload)

  // ----- Saving -----

  predicate Landed(save: SaveOutcome) { save == Saved || save == DiedAfter }

  predicate Dead(save: SaveOutcome) { save == DiedBefore || save == DiedAfter }

  /** Writes the bindings and, if they landed, logs what that means. */
  function Persist(st: Store, bindings: Bindings, meaning: seq<Effect>, save: SaveOutcome): Store {
    if Landed(save) then Store(bindings, st.log + meaning) else st
  }

  function AfterSave(save: SaveOutcome, reply: Reply): Reply {
    if Dead(save) then Gone else if save == Refused then Failed("device_save_failed") else reply
  }

  // ----- Presentations and actions -----

  function RecordPresentation(b: Binding, id: string): (r: Result<(Binding, bool), string>) {
    if |id| != 36 then Err("invalid_delivery")
    else if id in b.presented then Ok((b, false))
    else if |b.receipts| >= MAX_RECEIPTS then Err("presentation_receipt_queue_full")
    else
      var presented := b.presented + [id];
      Ok((b.(presented := if |presented| > MAX_PRESENTED then presented[1..] else presented,
             receipts := b.receipts + [id]), true))
  }

  function QueueDecision(b: Binding, id: string, decision: Decision): Result<Binding, string> {
    if |id| != 36 || id !in b.presented then Err("delivery_not_presented")
    else if id in b.actions then
      if b.actions[id].action == decision then Ok(b) else Err("delivery_action_conflict")
    else if |b.actions| >= MAX_ACTIONS then Err("delivery_action_queue_full")
    else Ok(b.(actions := b.actions[id := ActionRecord(decision, false)]))
  }

  function Without(receipts: seq<string>, id: string): seq<string> {
    if receipts == [] then []
    else if receipts[0] == id then Without(receipts[1..], id)
    else [receipts[0]] + Without(receipts[1..], id)
  }

  // ----- Execute -----

  predicate IsWrite(p: Payload) { p.action != "list" }

  predicate Allowed(b: Binding, p: Payload) {
    exists i :: 0 <= i < |b.sources|
      && b.sources[i].id == p.calendarId && b.sources[i].resource == p.resource
      && (p.action == "list" || b.sources[i].writable)
  }

  /** The checks of `execute`, in order; a known id answers with its entry. */
  function Admission(b: Binding, p: Payload, now: real): Option<Reply> {
    if |p.requestId| != 36 then Some(Failed("invalid_operation"))
    else if p.requestId in b.journal then Some(Done(b.journal[p.requestId]))
    else if |b.journal| >= MAX_RESULTS then Some(Failed("device_result_queue_full"))
    else if p.expiresAt.None? || p.expiresAt.value <= now || p.expiresAt.value > now + 301.0 then Some(Failed("operation_expired"))
    else if p.action !in {"list", "create", "update", "complete", "delete"} || p.deviceId != b.deviceId then Some(Failed("invalid_operation"))
    else if !Allowed(b, p) then Some(Failed("source_not_selected"))
    else if p.size > 8192 then Some(Failed("operation_too_large"))
    else None
  }

  function WithEntry(bindings: Bindings, server: string, id: string, entry: string): Bindings
    requires server in bindings
  {
    bindings[server := bindings[server].(journal := bindings[server].journal[id := entry])]
  }

  /** The native call and the save of its result. */
  function PerformNative(st: Store, bindings: Bindings, server: string, p: Payload, env: Environment): (Store, Reply)
    requires server in bindings
  {
    match env.native
    case Died => (st.(log := st.log + [NativeCall(server, p.requestId, IsWrite(p), None)]), Gone)
    case Returned(result) =>
      var called := st.(log := st.log + [NativeCall(server, p.requestId, IsWrite(p), Some(result))]);
      (Persist(called, WithEntry(bindings, server, p.requestId, result), [], env.lastSave),
       AfterSave(env.lastSave, Done(result)))
  }

  /** A write first saves the uncertain marker, and goes no further unless that
      save succeeded. */
  function ExecuteAdmitted(st: Store, server: string, p: Payload, env: Environment): (Store, Reply)
    requires server in st.disk
  {
    if !IsWrite(p) then PerformNative(st, st.disk, server, p, env)
    else
      var marked := WithEntry(st.disk, server, p.requestId, UNCERTAIN);
      var saved := Persist(st, marked, [], env.firstSave);
      if env.firstSave != Saved then (saved, AfterSave(env.firstSave, Done("")))
      else PerformNative(saved, marked, server, p, env)
  }

  // ----- One command -----

  function Put(st: Store, server: string, b: Binding, meaning: seq<Effect>, save: SaveOutcome, reply: Reply): (Store,
          Reply) {
    (Persist(st, st.disk[server := b], meaning, save), AfterSave(save, reply))
  }

  function Run(st: Store, server: string, command: Command, env: Environment): (Store, Reply) {
    if command.Pair? then
      if |command.deviceId| != 36 || !(32 <= |command.secret| <= 128) then (st, Failed("invalid_device"))
      else if server in st.disk then (st, Failed("unpair_current_device_first"))
      else Put(st, server, Binding(command.deviceId, command.secret, [], 0, map[], [], [], map[]), [], env.lastSave, Done("ok"))
    else if command.Forget? then
      (Persist(st, st.disk - {server}, [ForgotServer(server)], env.lastSave), AfterSave(env.lastSave, Done("ok")))
    else if server !in st.disk then (st, Failed("device_not_paired"))
    else
      var b := st.disk[server];
      match command
      case Select(found) =>
        if found.None? then (st, Failed("invalid_sources"))
        else Put(st, server, b.(sourceRevision := b.sourceRevision + 1, sources := found.value), [], env.lastSave, Done("ok"))
      case Present(id) =>
        var r := RecordPresentation(b, id);
        if r.Err? then (st, Failed(r.error))
        else if !r.value.1 then (st, First(false))
        else Put(st, server, r.value.0, [Recorded(server, id)], env.lastSave, First(true))
      case QueueAction(id, decision) =>
        var r := QueueDecision(b, id, decision);
        if r.Err? then (st, Failed(r.error)) else Put(st, server, r.value, [], env.lastSave, Done("ok"))
      case RejectAction(id) =>
        if id !in b.actions then (st, Failed("delivery_action_missing"))
        else Put(st, server, b.(actions := b.actions[id := b.actions[id].(rejected := true)]), [], env.lastSave, Done("ok"))
      case ForgetAction(id) =>
        Put(st, server, b.(actions := b.actions - {id}), [], env.lastSave, Done("ok"))
      case ForgetResult(id) =>
        Put(st, server, b.(journal := b.journal - {id}), [ForgotResult(server, id)], env.lastSave, Done("ok"))
      case ForgetPresentation(id) =>
        Put(st, server, b.(receipts := Without(b.receipts, id)), [], env.lastSave, Done("ok"))
      case Notify(shown) =>
        if !shown then (st, Failed("notification_failed")) else Put(st, server, b, [], env.lastSave, Done("ok"))
      case Execute(p) =>
        var early := Admission(b, p, env.now);
        if early.Some? then (st, early.value) else ExecuteAdmitted(st, server, p, env)
      case _ => (st, Failed("invalid_device_action"))
  }

  datatype Step = Step(server: string, command: Command, env: Environment)

  const EMPTY := Store(map[], [])

  function After(steps: seq<Step>): Store {
    if steps == [] then EMPTY
    else
      var last := steps[|steps| - 1];
      Run(After(steps[..|steps| - 1]), last.server, last.command, last.env).0
  }
}
