/** The device command handler: it reads the bindings, changes them in place and
    saves them.  `disk` is the file, `log` records what reached the
    calendar and what was forgotten; each command is proved to perform
    `DeviceJournal.Run` and to keep both invariants of the store
    (apps/desktop/src-tauri/src/assistant_device.rs). */
module DeviceStoreObject {
  import opened Wrappers
  import opened DeviceJournal
  import opened DeviceJournalSafety
  import opened DeviceRules

  class DeviceStore {
    var disk: Bindings
    var log: seq<Effect>

    ghost function Model(): Store
      reads this
    {
      Store(disk, log)
    }

    /** Every request is written at most once, and every list of presented
        deliveries holds the latest ones. */
    ghost predicate Valid()
      reads this
    {
      StoreOk(Model())
    }

    constructor ()
      ensures Valid() && Model() == EMPTY
    {
      disk, log := map[], [];
    }

    /** Write a temporary file and rename it over the bindings. */
    method Save(bindings: Bindings, meaning: seq<Effect>, outcome: SaveOutcome) returns (saved: bool)
      modifies this
      ensures Model() == Persist(old(Model()), bindings, meaning, outcome)
      ensures saved <==> outcome == Saved
    {
      if outcome == Saved || outcome == DiedAfter {
        disk, log := bindings, log + meaning;
      }
      saved := outcome == Saved;
    }

    method SaveAndReply(bindings: Bindings, meaning: seq<Effect>, outcome: SaveOutcome, reply: Reply) returns (r: Reply)
      modifies this
      ensures Model() == Persist(old(Model()), bindings, meaning, outcome)
      ensures r == AfterSave(outcome, reply)
    {
      var saved := Save(bindings, meaning, outcome);
      r := if saved then reply else AfterSave(outcome, reply);
    }

    method Pair(server: string, deviceId: string, secret: string, env: Environment) returns (r: Reply)
      requires Valid()
      modifies this
      ensures Valid() && (Model(), r) == Run(old(Model()), server, DeviceJournal.Pair(deviceId, secret), env)
      ensures old(server in disk) ==> Model() == old(Model())
      ensures r == Done("ok") ==> server in disk && disk == old(disk)[server := disk[server]] && disk[server].journal == map[]
    {
      RunKeepsStore(Model(), server, DeviceJournal.Pair(deviceId, secret), env);
      var bindings := disk;
      if |deviceId| != 36 || !(32 <= |secret| <= 128) {
        return Failed("invalid_device");
      }
      if server in bindings {
        return Failed("unpair_current_device_first");
      }
      bindings := bindings[server := Binding(deviceId, secret, [], 0, map[], [], [], map[])];
      r := SaveAndReply(bindings, [], env.lastSave, Done("ok"));
    }

    method Forget(server: string, env: Environment) returns (r: Reply)
      requires Valid()
      modifies this
      ensures Valid() && (Model(), r) == Run(old(Model()), server, DeviceJournal.Forget, env)
      ensures r == Done("ok") ==> server !in disk && forall id :: WritesOf(log, server, id) == []
    {
      RunKeepsStore(Model(), server, DeviceJournal.Forget, env);
      r := SaveAndReply(disk - {server}, [ForgotServer(server)], env.lastSave, Done("ok"));
    }

    method Present(server: string, id: string, env: Environment) returns (r: Reply)
      requires Valid()
      modifies this
      ensures Valid() && (Model(), r) == Run(old(Model()), server, DeviceJournal.Present(id), env)
      ensures var recorded := RecordedSince(old(log), server);
        && (r == First(true) ==> id !in Latest(recorded) && RecordedSince(log, server) == recorded + [id])
        && (r == First(false) ==> id in Latest(recorded) && Model() == old(Model()))
    {
      RunKeepsStore(Model(), server, DeviceJournal.Present(id), env);
      PresentMeans(Model(), server, id, env);
      if server !in disk {
        return Failed("device_not_paired");
      }
      var b := disk[server];
      if |id| != 36 {
        return Failed("invalid_delivery");
      }
      if id in b.presented {
        return First(false);
      }
      if |b.receipts| >= MAX_RECEIPTS {
        return Failed("presentation_receipt_queue_full");
      }
      var presented := b.presented + [id];
      if |presented| > MAX_PRESENTED {
        presented := presented[1..];
      }
      b := b.(presented := presented, receipts := b.receipts + [id]);
      r := SaveAndReply(disk[server := b], [Recorded(server, id)], env.lastSave, First(true));
    }

    method QueueAction(server: string, id: string, decision: Decision, env: Environment) returns (r: Reply)
      requires Valid()
      modifies this
      ensures Valid() && (Model(), r) == Run(old(Model()), server, DeviceJournal.QueueAction(id, decision), env)
      ensures r == Done("ok") ==>
        && server in disk && id in disk[server].actions && disk[server].actions[id].action == decision
        && id in Latest(RecordedSince(old(log), server))
      ensures old(server in disk && id in disk[server].actions) ==>
        server in disk && id in disk[server].actions && disk[server].actions[id] == old(disk[server].actions[id])
    {
      RunKeepsStore(Model(), server, DeviceJournal.QueueAction(id, decision), env);
      QueueMeans(Model(), server, id, decision, env);
      if server !in disk {
        return Failed("device_not_paired");
      }
      var b := disk[server];
      if |id| != 36 || id !in b.presented {
        return Failed("delivery_not_presented");
      }
      if id in b.actions {
        if b.actions[id].action != decision {
          return Failed("delivery_action_conflict");
        }
      } else {
        if |b.actions| >= MAX_ACTIONS {
          return Failed("delivery_action_queue_full");
        }
        b := b.(actions := b.actions[id := ActionRecord(decision, false)]);
      }
      r := SaveAndReply(disk[server := b], [], env.lastSave, Done("ok"));
    }

    method ForgetResult(server: string, id: string, env: Environment) returns (r: Reply)
      requires Valid()
      modifies this
      ensures Valid() && (Model(), r) == Run(old(Model()), server, DeviceJournal.ForgetResult(id), env)
      ensures r == Done("ok") ==> !InJournal(Model(), server, id) && WritesOf(log, server, id) == []
    {
      RunKeepsStore(Model(), server, DeviceJournal.ForgetResult(id), env);
      if server !in disk {
        return Failed("device_not_paired");
      }
      var b := disk[server];
      b := b.(journal := b.journal - {id});
      r := SaveAndReply(disk[server := b], [ForgotResult(server, id)], env.lastSave, Done("ok"));
    }

    /** `retain` on the receipts. */
    method ForgetPresentation(server: string, id: string, env: Environment) returns (r: Reply)
      requires Valid()
      modifies this
      ensures Valid() && (Model(), r) == Run(old(Model()), server, DeviceJournal.ForgetPresentation(id), env)
      ensures r == Done("ok") ==> server in disk && id !in disk[server].receipts
      ensures RecordedSince(log, server) == RecordedSince(old(log), server)
    {
      RunKeepsStore(Model(), server, DeviceJournal.ForgetPresentation(id), env);
      ForgetPresentationMeans(Model(), server, id, env);
      if server !in disk {
        return Failed("device_not_paired");
      }
      var b := disk[server];
      var kept: seq<string> := [];
      for i := 0 to |b.receipts|
        invariant kept + Without(b.receipts[i..], id) == Without(b.receipts, id)
      {
        assert b.receipts[i..][0] == b.receipts[i] && b.receipts[i..][1..] == b.receipts[i + 1..];
        if b.receipts[i] != id {
          kept := kept + [b.receipts[i]];
        }
      }
      assert kept == Without(b.receipts, id);
      b := b.(receipts := kept);
      r := SaveAndReply(disk[server := b], [], env.lastSave, Done("ok"));
    }

    /** The marker is saved before the native write, and the result after it. */
    method Execute(server: string, p: Payload, env: Environment) returns (r: Reply)
      requires Valid()
      modifies this
      ensures Valid() && (Model(), r) == Run(old(Model()), server, DeviceJournal.Execute(p), env)
      ensures |WritesOf(log, server, p.requestId)| <= 1
      ensures old(InJournal(Model(), server, p.requestId)) && |p.requestId| == 36 ==>
        Model() == old(Model()) && r == Done(old(disk[server].journal[p.requestId]))
      ensures log != old(log) ==> WritesOf(old(log), server, p.requestId) == []
      ensures old(server in disk) ==> ExecuteIs(old(Model()), Model(), r, server, p, env)
    {
      if server in disk {
        ExecuteExactly(Model(), server, p, env);
      }
      RunKeepsStore(Model(), server, DeviceJournal.Execute(p), env);
      ExecuteMeans(Model(), server, p, env);
      if server !in disk {
        return Failed("device_not_paired");
      }
      var bindings := disk;
      var b := bindings[server];
      var early := Admission(b, p, env.now);
      if early.Some? {
        return early.value;
      }
      if p.action != "list" {
        bindings := WithEntry(bindings, server, p.requestId, UNCERTAIN);
        var saved := Save(bindings, [], env.firstSave);
        if !saved {
          return AfterSave(env.firstSave, Done(""));
        }
      }
      match env.native {
        case Died =>
          log := log + [NativeCall(server, p.requestId, p.action != "list", None)];
          return Gone;
        case Returned(result) =>
          log := log + [NativeCall(server, p.requestId, p.action != "list", Some(result))];
          bindings := WithEntry(bindings, server, p.requestId, result);
          r := SaveAndReply(bindings, [], env.lastSave, Done(result));
      }
    }
  }
}
