/** At-most-once native writes, and the presentation and action queues, over every
    run of commands with faults. */
module DeviceJournalSafety {
  import opened Wrappers
  import opened DeviceJournal

  // ----- Reading the log -----

  predicate Forgets(e: Effect, server: string, id: string) {
    || (e.ForgotServer? && e.server == server)
    || (e.ForgotResult? && e.server == server && e.id == id)
  }

  predicate IsCallOf(e: Effect, server: string, id: string) {
    e.NativeCall? && e.server == server && e.id == id
  }

  /** The native calls for a request since it was last forgotten. */
  function Calls(log: seq<Effect>, server: string, id: string): seq<Effect> {
    if log == [] then []
    else
      var before := Calls(log[..|log| - 1], server, id);
      var e := log[|log| - 1];
      if Forgets(e, server, id) then [] else if IsCallOf(e, server, id) then before + [e] else before
  }

  function Writes(calls: seq<Effect>): seq<Effect> {
    if calls == [] then []
    else
      var before := Writes(calls[..|calls| - 1]);
      var e := calls[|calls| - 1];
      if e.NativeCall? && e.isWrite then before + [e] else before
  }

  function WritesOf(log: seq<Effect>, server: string, id: string): seq<Effect> { Writes(Calls(log, server, id)) }

  predicate InJournal(st: Store, server: string, id: string) {
    server in st.disk && id in st.disk[server].journal
  }

  /** A request without an entry has no write; a request with one has at most one,
      and the entry is the marker or what the native call returned. */
  ghost predicate EntryOk(st: Store, server: string, id: string) {
    var writes := WritesOf(st.log, server, id);
    if !InJournal(st, server, id) then writes == []
    else
      var entry := st.disk[server].journal[id];
      && |writes| <= 1
      && (entry == UNCERTAIN || if writes == [] then HasResult(Calls(st.log, server, id), entry) else IsResult(writes[0], entry))
  }

  predicate IsResult(e: Effect, entry: string) { e.NativeCall? && e.result == Some(entry) }

  predicate HasResult(calls: seq<Effect>, entry: string) {
    exists i :: 0 <= i < |calls| && calls[i].NativeCall? && calls[i].result == Some(entry)
  }

  ghost predicate JournalOk(st: Store) {
    forall server, id :: EntryOk(st, server, id)
  }

  lemma {:induction false} CallsOnly(log: seq<Effect>, server: string, id: string)
    ensures forall i :: 0 <= i < |Calls(log, server, id)| ==> IsCallOf(Calls(log, server, id)[i], server, id)
  {
    if log != [] {
      CallsOnly(log[..|log| - 1], server, id);
    }
  }

  lemma CallsSnoc(log: seq<Effect>, e: Effect, server: string, id: string)
    ensures Calls(log + [e], server, id) ==
      if Forgets(e, server, id) then [] else if IsCallOf(e, server, id) then Calls(log, server, id) + [e] else Calls(log, server, id)
    ensures WritesOf(log + [e], server, id) ==
      if Forgets(e, server, id) then []
      else if IsCallOf(e, server, id) && e.isWrite then WritesOf(log, server, id) + [e] else WritesOf(log, server, id)
  {
    assert (log + [e])[..|log|] == log;
    var calls := Calls(log, server, id);
    assert (calls + [e])[..|calls|] == calls;
  }

  lemma HasResultStays(calls: seq<Effect>, e: Effect, entry: string)
    requires HasResult(calls, entry) || (e.NativeCall? && e.result == Some(entry))
    ensures HasResult(calls + [e], entry)
  {
    if HasResult(calls, entry) {
      var i :| 0 <= i < |calls| && calls[i].NativeCall? && calls[i].result == Some(entry);
      assert (calls + [e])[i] == calls[i];
    } else {
      assert (calls + [e])[|calls|] == e;
    }
  }

  // ----- Execute -----

  /** Saving the marker keeps every entry in order; the request has no write yet. */
  lemma MarkerOk(st: Store, server: string, id: string)
    requires JournalOk(st) && server in st.disk && id !in st.disk[server].journal
    ensures JournalOk(st.(disk := WithEntry(st.disk, server, id, UNCERTAIN)))
  {
    var next := st.(disk := WithEntry(st.disk, server, id, UNCERTAIN));
    forall s, i
      ensures EntryOk(next, s, i)
    {
      assert EntryOk(st, s, i);
    }
  }

  /** A native call on a request that has no write so far, whose entry is missing
      (a list) or is the marker (a write). */
  lemma CalledOk(st: Store, server: string, id: string, isWrite: bool, result: Option<string>)
    requires JournalOk(st) && WritesOf(st.log, server, id) == []
    requires isWrite ==> InJournal(st, server, id) && st.disk[server].journal[id] == UNCERTAIN
    requires !isWrite ==> !InJournal(st, server, id)
    ensures JournalOk(st.(log := st.log + [NativeCall(server, id, isWrite, result)]))
  {
    var e := NativeCall(server, id, isWrite, result);
    var next := st.(log := st.log + [e]);
    forall s, i
      ensures EntryOk(next, s, i)
    {
      assert EntryOk(st, s, i);
      CallsSnoc(st.log, e, s, i);
      if (s, i) != (server, id) {
        assert Calls(next.log, s, i) == Calls(st.log, s, i);
      }
    }
  }

  /** An entry elsewhere does not notice a saved result. */
  lemma OtherEntryOk(st: Store, server: string, id: string, entry: string, s: string, i: string)
    requires server in st.disk && EntryOk(st, s, i) && (s != server || i != id)
    ensures EntryOk(st.(disk := WithEntry(st.disk, server, id, entry)), s, i)
  {
    var next := st.(disk := WithEntry(st.disk, server, id, entry));
    assert InJournal(next, s, i) <==> InJournal(st, s, i);
  }

  /** The result of the last logged call is a right entry for its request. */
  lemma OwnEntryOk(st: Store, before: seq<Effect>, server: string, id: string, isWrite: bool, result: string)
    requires server in st.disk && st.log == before + [NativeCall(server, id, isWrite, Some(result))]
    requires WritesOf(st.log, server, id) == if isWrite then [NativeCall(server, id, isWrite, Some(result))] else []
    ensures EntryOk(st.(disk := WithEntry(st.disk, server, id, result)), server, id)
  {
    CallsSnoc(before, NativeCall(server, id, isWrite, Some(result)), server, id);
    HasResultStays(Calls(before, server, id), NativeCall(server, id, isWrite, Some(result)), result);
  }

  /** Saving the result of the call that was just made. */
  lemma ResultOk(st: Store, before: seq<Effect>, server: string, id: string, isWrite: bool, result: string)
    requires JournalOk(st) && server in st.disk
    requires st.log == before + [NativeCall(server, id, isWrite, Some(result))]
    requires WritesOf(st.log, server, id) == if isWrite then [NativeCall(server, id, isWrite, Some(result))] else []
    ensures JournalOk(st.(disk := WithEntry(st.disk, server, id, result)))
  {
    OwnEntryOk(st, before, server, id, isWrite, result);
    forall s, i
      ensures EntryOk(st.(disk := WithEntry(st.disk, server, id, result)), s, i)
    {
      if s != server || i != id {
        assert EntryOk(st, s, i);
        OtherEntryOk(st, server, id, result, s, i);
      }
    }
  }

  lemma ResultSaveOk(st: Store, before: seq<Effect>, server: string, id: string, isWrite: bool, result: string,
                     save: SaveOutcome)
    requires JournalOk(st) && server in st.disk
    requires st.log == before + [NativeCall(server, id, isWrite, Some(result))]
    requires WritesOf(st.log, server, id) == if isWrite then [NativeCall(server, id, isWrite, Some(result))] else []
    ensures JournalOk(Persist(st, WithEntry(st.disk, server, id, result), [], save))
  {
    assert st.log + [] == st.log;
    ResultOk(st, before, server, id, isWrite, result);
  }

  /** The request has no write yet, and its entry is the marker (a write) or
      missing (a list). */
  ghost predicate MayCall(st: Store, server: string, id: string, isWrite: bool) {
    && JournalOk(st) && server in st.disk && WritesOf(st.log, server, id) == []
    && (if isWrite then InJournal(st, server, id) && st.disk[server].journal[id] == UNCERTAIN
        else !InJournal(st, server, id))
  }

  lemma ReturnedOk(st: Store, called: Store, server: string, id: string, isWrite: bool, result: string, save: SaveOutcome)
    requires MayCall(st, server, id, isWrite)
    requires called == st.(log := st.log + [NativeCall(server, id, isWrite, Some(result))])
    ensures JournalOk(Persist(called, WithEntry(st.disk, server, id, result), [], save))
  {
    CalledOk(st, server, id, isWrite, Some(result));
    CallsSnoc(st.log, NativeCall(server, id, isWrite, Some(result)), server, id);
    assert [] + [NativeCall(server, id, isWrite, Some(result))] == [NativeCall(server, id, isWrite, Some(result))];
    ResultSaveOk(called, st.log, server, id, isWrite, result, save);
  }

  lemma PerformNativeOk(st: Store, server: string, p: Payload, env: Environment)
    requires MayCall(st, server, p.requestId, IsWrite(p))
    ensures JournalOk(PerformNative(st, st.disk, server, p, env).0)
  {
    var isWrite := IsWrite(p);
    match env.native
    case Died => CalledOk(st, server, p.requestId, isWrite, None);
    case Returned(result) =>
      ReturnedOk(st, st.(log := st.log + [NativeCall(server, p.requestId, isWrite, Some(result))]),
                 server, p.requestId, isWrite, result, env.lastSave);
  }

  lemma ExecuteOk(st: Store, server: string, p: Payload, env: Environment)
    requires JournalOk(st) && server in st.disk && p.requestId !in st.disk[server].journal
    ensures JournalOk(ExecuteAdmitted(st, server, p, env).0)
  {
    assert EntryOk(st, server, p.requestId);
    if !IsWrite(p) {
      PerformNativeOk(st, server, p, env);
    } else {
      MarkerOk(st, server, p.requestId);
      var marked := WithEntry(st.disk, server, p.requestId, UNCERTAIN);
      var saved := Persist(st, marked, [], env.firstSave);
      assert Landed(env.firstSave) ==> saved == st.(disk := marked) by {
        assert st.log + [] == st.log;
      }
      if env.firstSave == Saved {
        PerformNativeOk(saved, server, p, env);
      }
    }
  }

  // ----- Every other command -----

  /** What a save of other bindings may do to the journals: it changes no entry,
      and drops exactly the entries that the logged effect forgets. */
  ghost predicate JournalsKept(st: Store, bindings: Bindings, meaning: seq<Effect>) {
    && |meaning| <= 1 && (forall e :: e in meaning ==> !e.NativeCall?)
    && forall server, id :: EntryKept(st, bindings, meaning, server, id)
  }

  ghost predicate EntryKept(st: Store, bindings: Bindings, meaning: seq<Effect>, server: string, id: string)
    requires |meaning| <= 1
  {
    var forgets := meaning != [] && Forgets(meaning[0], server, id);
    if InJournal(Store(bindings, []), server, id) then
      !forgets && InJournal(st, server, id) && bindings[server].journal[id] == st.disk[server].journal[id]
    else
      InJournal(st, server, id) ==> forgets
  }

  lemma QuietSaveOk(st: Store, bindings: Bindings, meaning: seq<Effect>, save: SaveOutcome)
    requires JournalOk(st) && JournalsKept(st, bindings, meaning)
    ensures JournalOk(Persist(st, bindings, meaning, save))
  {
    if Landed(save) {
      var next := Persist(st, bindings, meaning, save);
      forall server, id
        ensures EntryOk(next, server, id)
      {
        assert EntryOk(st, server, id) && EntryKept(st, bindings, meaning, server, id);
        if meaning == [] {
          assert st.log + [] == st.log;
        } else {
          assert meaning == [meaning[0]] && meaning[0] in meaning;
          CallsSnoc(st.log, meaning[0], server, id);
        }
      }
    }
  }

  /** Bindings that differ only in fields other than the journal. */
  lemma SameJournalKept(st: Store, server: string, b: Binding, meaning: seq<Effect>)
    requires JournalOk(st) && |meaning| <= 1 && forall e :: e in meaning ==> e.Recorded?
    requires if server in st.disk then b.journal == st.disk[server].journal else b.journal == map[]
    ensures JournalsKept(st, st.disk[server := b], meaning)
  {
    assert meaning != [] ==> meaning[0] in meaning;
  }

  /** Every command keeps the journal in order, whatever fails. */
  lemma RunKeepsJournal(st: Store, server: string, command: Command, env: Environment)
    requires JournalOk(st)
    ensures JournalOk(Run(st, server, command, env).0)
  {
    if command.Forget? {
      QuietSaveOk(st, st.disk - {server}, [ForgotServer(server)], env.lastSave);
    } else if command.Execute? {
      if server in st.disk && Admission(st.disk[server], command.payload, env.now).None? {
        ExecuteOk(st, server, command.payload, env);
      }
    } else if command.ForgetResult? {
      if server in st.disk {
        var b := st.disk[server];
        var meaning := [ForgotResult(server, command.id)];
        assert JournalsKept(st, st.disk[server := b.(journal := b.journal - {command.id})], meaning);
        QuietSaveOk(st, st.disk[server := b.(journal := b.journal - {command.id})], meaning, env.lastSave);
      }
    } else {
      OtherCommandsKeepJournal(st, server, command, env);
    }
  }

  lemma OtherCommandsKeepJournal(st: Store, server: string, command: Command, env: Environment)
    requires JournalOk(st) && !command.Forget? && !command.Execute? && !command.ForgetResult?
    ensures JournalOk(Run(st, server, command, env).0)
  {
    var next := Run(st, server, command, env).0;
    if next != st {
      var b := next.disk[server];
      var meaning := if command.Present? then [Recorded(server, command.id)] else [];
      assert next == Persist(st, st.disk[server := b], meaning, env.lastSave);
      SameJournalKept(st, server, b, meaning);
      QuietSaveOk(st, st.disk[server := b], meaning, env.lastSave);
    }
  }

  /** At-most-once native write: over every run, with a crash or a failed save at
      any point, a request reaches the native calendar at most once for writing
      while it is not forgotten; and its entry is the uncertain marker or the
      result of the call that was made. */
  lemma {:induction false} AtMostOneWrite(steps: seq<Step>, server: string, id: string)
    ensures var st := After(steps);
      var writes := WritesOf(st.log, server, id);
      && |writes| <= 1
      && (|writes| == 1 ==> InJournal(st, server, id))
      && (|writes| == 1 ==> st.disk[server].journal[id] == UNCERTAIN || IsResult(writes[0], st.disk[server].journal[id]))
    ensures JournalOk(After(steps))
    decreases |steps|
  {
    if steps == [] {
    } else {
      var last := steps[|steps| - 1];
      AtMostOneWrite(steps[..|steps| - 1], server, id);
      RunKeepsJournal(After(steps[..|steps| - 1]), last.server, last.command, last.env);
    }
    assert EntryOk(After(steps), server, id);
  }

  lemma RunAppends(st: Store, server: string, command: Command, env: Environment)
    ensures st.log <= Run(st, server, command, env).0.log
    ensures |Run(st, server, command, env).0.log| <= |st.log| + 1
  {}

  lemma {:induction false} NoWriteLeft(log: seq<Effect>, server: string, id: string, i: nat)
    requires i < |log| && IsCallOf(log[i], server, id) && log[i].isWrite
    requires WritesOf(log, server, id) == []
    ensures exists k :: i < k < |log| && Forgets(log[k], server, id)
    decreases |log|
  {
    var n := |log| - 1;
    assert log == log[..n] + [log[n]];
    CallsSnoc(log[..n], log[n], server, id);
    if !Forgets(log[n], server, id) {
      NoWriteLeft(log[..n], server, id, i);
      var k :| i < k < n && Forgets(log[..n][k], server, id);
      assert Forgets(log[k], server, id);
    }
  }

  lemma SecondWriteNeedsForget(log: seq<Effect>, e: Effect, server: string, id: string, i: nat)
    requires i < |log| && IsCallOf(log[i], server, id) && log[i].isWrite
    requires IsCallOf(e, server, id) && e.isWrite && |WritesOf(log + [e], server, id)| <= 1
    ensures exists k :: i < k < |log| && Forgets(log[k], server, id)
  {
    CallsSnoc(log, e, server, id);
    NoWriteLeft(log, server, id, i);
  }

  /** Said of the whole history: between two native writes for one request there
      is always an explicit forget. */
  lemma {:induction false} SecondWriteAfterForget(steps: seq<Step>, server: string, id: string, i: nat, j: nat)
    requires steps != [] && i < j < |After(steps).log|
    requires IsCallOf(After(steps).log[i], server, id) && After(steps).log[i].isWrite
    requires IsCallOf(After(steps).log[j], server, id) && After(steps).log[j].isWrite
    ensures exists k :: i < k < j && Forgets(After(steps).log[k], server, id)
    decreases |steps|
  {
    var before, log := AfterAppends(steps);
    var k;
    if j < |before| {
      assert steps[..|steps| - 1] != [];
      SecondWriteAfterForget(steps[..|steps| - 1], server, id, i, j);
      k :| i < k < j && Forgets(before[k], server, id);
    } else {
      AtMostOneWrite(steps, server, id);
      SecondWriteNeedsForget(before, log[j], server, id, i);
      k :| i < k < |before| && Forgets(before[k], server, id);
    }
    assert log[k] == before[k];
  }

  /** One command adds at most one effect to the log. */
  lemma AfterAppends(steps: seq<Step>) returns (before: seq<Effect>, log: seq<Effect>)
    requires steps != []
    ensures log == After(steps).log && before == After(steps[..|steps| - 1]).log
    ensures log == before || (log != [] && log == before + [log[|log| - 1]])
  {
    var last := steps[|steps| - 1];
    var st := After(steps[..|steps| - 1]);
    RunAppends(st, last.server, last.command, last.env);
    before, log := st.log, Run(st, last.server, last.command, last.env).0.log;
    LongerByOne(before, log);
  }

  lemma LongerByOne(before: seq<Effect>, log: seq<Effect>)
    requires before <= log && |log| <= |before| + 1
    ensures log == before || (log != [] && log == before + [log[|log| - 1]])
  {}

  /** What a payload and its binding must be for the calendar to be called. */
  ghost predicate Admissible(b: Binding, p: Payload, now: real) {
    && |p.requestId| == 36 && p.requestId !in b.journal && |b.journal| < MAX_RESULTS
    && p.expiresAt.Some? && now < p.expiresAt.value <= now + 301.0
    && p.deviceId == b.deviceId && p.size <= 8192
    && p.action in ["list", "create", "update", "complete", "delete"]
    && exists source :: source in b.sources && source.id == p.calendarId && source.resource == p.resource
                        && (p.action == "list" || source.writable)
  }

  lemma AdmissionMeans(b: Binding, p: Payload, now: real)
    ensures Admission(b, p, now).None? <==> Admissible(b, p, now)
  {
    assert Allowed(b, p) <==> exists source :: source in b.sources && source.id == p.calendarId
                                            && source.resource == p.resource && (p.action == "list" || source.writable) by {
      if Allowed(b, p) {
        var i :| 0 <= i < |b.sources| && b.sources[i].id == p.calendarId && b.sources[i].resource == p.resource
                 && (p.action == "list" || b.sources[i].writable);
        assert b.sources[i] in b.sources;
      }
    }
  }

  /** The calendar is called only for an unexpired request of this device on a
      selected source, writable if it writes; and a write only after its marker
      was saved. */
  lemma OnlyAdmissibleReachCalendar(st: Store, server: string, command: Command, env: Environment, log: seq<Effect>)
    requires log == Run(st, server, command, env).0.log && log != st.log && log[|log| - 1].NativeCall?
    ensures command.Execute? && server in st.disk && Admissible(st.disk[server], command.payload, env.now)
    ensures IsWrite(command.payload) ==> env.firstSave == Saved
  {
    RunAppends(st, server, command, env);
    if command.Execute? && server in st.disk {
      AdmissionMeans(st.disk[server], command.payload, env.now);
    }
  }

  // ----- Presentations -----

  function RecordedSince(log: seq<Effect>, server: string): seq<string> {
    if log == [] then []
    else
      var before := RecordedSince(log[..|log| - 1], server);
      var e := log[|log| - 1];
      if e.ForgotServer? && e.server == server then []
      else if e.Recorded? && e.server == server then before + [e.id]
      else before
  }

  function Latest(ids: seq<string>): seq<string> {
    if |ids| <= MAX_PRESENTED then ids else ids[|ids| - MAX_PRESENTED..]
  }

  /** The same delivery is recorded twice only with a full window in between. */
  ghost predicate Spaced(ids: seq<string>) {
    forall i, j :: 0 <= i < j < |ids| && ids[i] == ids[j] ==> j - i > MAX_PRESENTED
  }

  ghost predicate PresentedOk(st: Store, server: string) {
    var recorded := RecordedSince(st.log, server);
    && Spaced(recorded)
    && (if server in st.disk then
          st.disk[server].presented == Latest(recorded) && |st.disk[server].receipts| <= MAX_RECEIPTS
        else recorded == [])
  }

  lemma RecordedSnoc(log: seq<Effect>, e: Effect, server: string)
    ensures RecordedSince(log + [e], server) ==
      if e.ForgotServer? && e.server == server then []
      else if e.Recorded? && e.server == server then RecordedSince(log, server) + [e.id]
      else RecordedSince(log, server)
  {
    assert (log + [e])[..|log|] == log;
  }

  lemma LatestHas(ids: seq<string>, i: nat)
    requires i < |ids|
    ensures |ids| - i <= MAX_PRESENTED ==> ids[i] in Latest(ids)
  {
    if |ids| - i <= MAX_PRESENTED {
      assert Latest(ids)[|Latest(ids)| - (|ids| - i)] == ids[i];
    }
  }

  lemma SpacedSnoc(ids: seq<string>, id: string)
    requires Spaced(ids) && id !in Latest(ids)
    ensures Spaced(ids + [id])
    ensures Latest(ids + [id]) ==
      if |Latest(ids)| + 1 > MAX_PRESENTED then (Latest(ids) + [id])[1..] else Latest(ids) + [id]
  {
    forall i | 0 <= i < |ids| && ids[i] == id
      ensures |ids| - i > MAX_PRESENTED
    {
      LatestHas(ids, i);
    }
  }

  lemma {:induction false} WithoutShorter(receipts: seq<string>, id: string)
    ensures |Without(receipts, id)| <= |receipts|
    ensures forall r :: r in Without(receipts, id) <==> r in receipts && r != id
  {
    if receipts != [] {
      WithoutShorter(receipts[1..], id);
    }
  }

  /** Nothing about one server's presentations moved, except that receipts may
      have been forgotten; or the server is newly paired. */
  ghost predicate SamePresentations(st: Store, next: Store, server: string) {
    && RecordedSince(next.log, server) == RecordedSince(st.log, server)
    && (server in st.disk ==> server in next.disk)
    && (server in next.disk ==>
          if server in st.disk then
            next.disk[server].presented == st.disk[server].presented && |next.disk[server].receipts| <= |st.disk[server].receipts|
          else
            next.disk[server].presented == [] && next.disk[server].receipts == [])
  }

  lemma NativeKeepsPresentations(st: Store, bindings: Bindings, server: string, p: Payload, env: Environment, other: string)
    requires server in bindings && SamePresentations(st, Store(bindings, st.log), other)
    requires SamePresentations(st, st, other)
    ensures SamePresentations(st, PerformNative(st, bindings, server, p, env).0, other)
  {
    var result := if env.native.Died? then None else Some(env.native.result);
    RecordedSnoc(st.log, NativeCall(server, p.requestId, IsWrite(p), result), other);
    assert st.log + [NativeCall(server, p.requestId, IsWrite(p), result)] + [] == st.log + [NativeCall(server, p.requestId, IsWrite(p), result)];
  }

  lemma ExecuteKeepsPresentations(st: Store, server: string, p: Payload, env: Environment, other: string)
    requires server in st.disk
    ensures SamePresentations(st, ExecuteAdmitted(st, server, p, env).0, other)
  {
    assert st.log + [] == st.log;
    if !IsWrite(p) {
      NativeKeepsPresentations(st, st.disk, server, p, env, other);
    } else if env.firstSave == Saved {
      var marked := WithEntry(st.disk, server, p.requestId, UNCERTAIN);
      var saved := st.(disk := marked);
      assert Persist(st, marked, [], env.firstSave) == saved;
      NativeKeepsPresentations(saved, marked, server, p, env, other);
    }
  }

  lemma QuietKeepsPresentations(st: Store, server: string, command: Command, env: Environment, other: string)
    requires !command.Execute? && !command.Present? && !command.Forget?
    ensures SamePresentations(st, Run(st, server, command, env).0, other)
  {
    var next := Run(st, server, command, env).0;
    if command.ForgetPresentation? && server in st.disk {
      WithoutShorter(st.disk[server].receipts, command.id);
    }
    if command.ForgetResult? {
      RecordedSnoc(st.log, ForgotResult(server, command.id), other);
    }
    assert st.log + [] == st.log;
  }

  /** Recording one more delivery keeps the binding's list the latest ones. */
  lemma RecordedBinding(b: Binding, id: string, recorded: seq<string>)
    requires Spaced(recorded) && b.presented == Latest(recorded) && |b.receipts| <= MAX_RECEIPTS
    requires RecordPresentation(b, id).Ok? && RecordPresentation(b, id).value.1
    ensures Spaced(recorded + [id])
    ensures RecordPresentation(b, id).value.0.presented == Latest(recorded + [id])
    ensures |RecordPresentation(b, id).value.0.receipts| <= MAX_RECEIPTS
  {
    SpacedSnoc(recorded, id);
  }

  /** A saved recording of a delivery, for any server. */
  lemma RecordingKeepsPresented(st: Store, server: string, id: string, save: SaveOutcome, other: string)
    requires PresentedOk(st, server) && PresentedOk(st, other) && server in st.disk
    requires RecordPresentation(st.disk[server], id).Ok? && RecordPresentation(st.disk[server], id).value.1
    ensures PresentedOk(Persist(st, st.disk[server := RecordPresentation(st.disk[server], id).value.0],
                                [Recorded(server, id)], save), other)
  {
    RecordedSnoc(st.log, Recorded(server, id), other);
    RecordedBinding(st.disk[server], id, RecordedSince(st.log, server));
  }

  lemma PresentKeepsPresented(st: Store, server: string, id: string, env: Environment, other: string)
    requires PresentedOk(st, server) && PresentedOk(st, other)
    ensures PresentedOk(Run(st, server, Present(id), env).0, other)
  {
    if server in st.disk {
      var r := RecordPresentation(st.disk[server], id);
      if r.Ok? && r.value.1 {
        RecordingKeepsPresented(st, server, id, env.lastSave, other);
      }
    }
  }

  lemma SameKeepsPresented(st: Store, next: Store, server: string)
    requires PresentedOk(st, server) && SamePresentations(st, next, server)
    ensures PresentedOk(next, server)
  {}

  lemma ForgetKeepsPresented(st: Store, server: string, env: Environment, other: string)
    requires PresentedOk(st, other)
    ensures PresentedOk(Run(st, server, Forget, env).0, other)
  {
    RecordedSnoc(st.log, ForgotServer(server), other);
  }

  lemma ExecuteKeepsPresented(st: Store, server: string, p: Payload, env: Environment, other: string)
    requires PresentedOk(st, other)
    ensures PresentedOk(Run(st, server, Execute(p), env).0, other)
  {
    if server in st.disk && Admission(st.disk[server], p, env.now).None? {
      ExecuteKeepsPresentations(st, server, p, env, other);
      SameKeepsPresented(st, ExecuteAdmitted(st, server, p, env).0, other);
    }
  }

  lemma QuietKeepsPresented(st: Store, server: string, command: Command, env: Environment, other: string)
    requires PresentedOk(st, other) && !command.Execute? && !command.Present? && !command.Forget?
    ensures PresentedOk(Run(st, server, command, env).0, other)
  {
    QuietKeepsPresentations(st, server, command, env, other);
    SameKeepsPresented(st, Run(st, server, command, env).0, other);
  }

  /** Every command keeps the presented list equal to the latest recorded ids. */
  lemma RunKeepsPresented(st: Store, server: string, command: Command, env: Environment, other: string)
    requires PresentedOk(st, server) && PresentedOk(st, other)
    ensures PresentedOk(Run(st, server, command, env).0, other)
  {
    if command.Present? {
      PresentKeepsPresented(st, server, command.id, env, other);
    } else if command.Forget? {
      ForgetKeepsPresented(st, server, env, other);
    } else if command.Execute? {
      ExecuteKeepsPresented(st, server, command.payload, env, other);
    } else {
      QuietKeepsPresented(st, server, command, env, other);
    }
  }

  /** Over every run: the presented list is exactly the latest thousand recorded
      deliveries, and one delivery is recorded again only after a thousand
      others; receipts stay bounded. */
  lemma {:induction false} PresentedIsLatest(steps: seq<Step>, server: string)
    ensures PresentedOk(After(steps), server)
    decreases |steps|
  {
    if steps != [] {
      var last := steps[|steps| - 1];
      PresentedIsLatest(steps[..|steps| - 1], server);
      PresentedIsLatest(steps[..|steps| - 1], last.server);
      RunKeepsPresented(After(steps[..|steps| - 1]), last.server, last.command, last.env, server);
    }
  }

  /** Both invariants, for every server and request. */
  ghost predicate StoreOk(st: Store) { JournalOk(st) && forall server :: PresentedOk(st, server) }

  lemma RunKeepsStore(st: Store, server: string, command: Command, env: Environment)
    requires StoreOk(st)
    ensures StoreOk(Run(st, server, command, env).0)
  {
    RunKeepsJournal(st, server, command, env);
    forall other
      ensures PresentedOk(Run(st, server, command, env).0, other)
    {
      RunKeepsPresented(st, server, command, env, other);
    }
  }

  /** In one command: a delivery is called new exactly if it is not among the
      latest recorded ones, and then it is recorded. */
  lemma PresentMeans(st: Store, server: string, id: string, env: Environment)
    requires StoreOk(st)
    ensures var (next, r) := Run(st, server, Present(id), env);
      var recorded := RecordedSince(st.log, server);
      && (r == First(true) ==> id !in Latest(recorded) && RecordedSince(next.log, server) == recorded + [id])
      && (r == First(false) ==> id in Latest(recorded) && next == st)
  {
    assert PresentedOk(st, server);
    RecordedSnoc(st.log, Recorded(server, id), server);
  }

  /** A decision is taken up only for one of the latest deliveries. */
  lemma QueueMeans(st: Store, server: string, id: string, decision: Decision, env: Environment)
    requires StoreOk(st)
    ensures var (next, r) := Run(st, server, QueueAction(id, decision), env);
      r == Done("ok") ==>
        && id in Latest(RecordedSince(st.log, server))
        && server in next.disk && id in next.disk[server].actions && next.disk[server].actions[id].action == decision
  {
    assert PresentedOk(st, server);
  }

  lemma ForgetPresentationMeans(st: Store, server: string, id: string, env: Environment)
    ensures var (next, r) := Run(st, server, ForgetPresentation(id), env);
      && (r == Done("ok") ==> server in next.disk && id !in next.disk[server].receipts)
      && RecordedSince(next.log, server) == RecordedSince(st.log, server)
  {
    if server in st.disk {
      WithoutShorter(st.disk[server].receipts, id);
      assert st.log + [] == st.log;
    }
  }

  /** In one command: a request that is known is answered from its entry and
      nothing happens; one that reaches the calendar was not written before. */
  lemma ExecuteMeans(st: Store, server: string, p: Payload, env: Environment)
    requires StoreOk(st)
    ensures var (next, r) := Run(st, server, Execute(p), env);
      && |WritesOf(next.log, server, p.requestId)| <= 1
      && (InJournal(st, server, p.requestId) && |p.requestId| == 36 ==>
            next == st && r == Done(st.disk[server].journal[p.requestId]))
      && (next.log != st.log ==> WritesOf(st.log, server, p.requestId) == [])
  {
    var next := Run(st, server, Execute(p), env).0;
    RunKeepsJournal(st, server, Execute(p), env);
    assert EntryOk(next, server, p.requestId) && EntryOk(st, server, p.requestId);
  }

  // ----- Decisions -----

  /** A queued decision is never changed: it stays until it or its server is
      forgotten, and a rejection is never taken back. */
  lemma DecisionNeverChanges(st: Store, server: string, command: Command, env: Environment, s: string, id: string)
    requires s in st.disk && id in st.disk[s].actions
    ensures var next := Run(st, server, command, env).0;
      if s in next.disk && id in next.disk[s].actions then
        && next.disk[s].actions[id].action == st.disk[s].actions[id].action
        && (st.disk[s].actions[id].rejected ==> next.disk[s].actions[id].rejected)
      else
        s == server && (command.Forget? || command == ForgetAction(id))
  {}

  /** Only a delivery that was presented can be decided on. */
  lemma DecisionNeedsPresentation(b: Binding, id: string, decision: Decision)
    requires id !in b.actions
    ensures QueueDecision(b, id, decision).Ok? <==> |id| == 36 && id in b.presented && |b.actions| < MAX_ACTIONS
    ensures QueueDecision(b, id, decision).Ok? ==>
      QueueDecision(b, id, decision).value == b.(actions := b.actions[id := ActionRecord(decision, false)])
  {}
}
