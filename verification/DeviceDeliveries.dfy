/** When a presented delivery counts as new
    (apps/desktop/src-tauri/src/assistant_device.rs). */
module DeviceDeliveries {
  import opened DeviceJournal
  import opened DeviceJournalSafety

  /** The command reaches the list: a paired device, an id of the right length, a
      receipt queue with room, and a save that works. */
  predicate WithRoom(st: Store, server: string, id: string, env: Environment) {
    && server in st.disk && |id| == 36 && |st.disk[server].receipts| < MAX_RECEIPTS && env.lastSave == Saved
  }

  /** After any run: a delivery is called new if and only if it is not among the
      latest thousand that were recorded for this pairing. */
  lemma FirstExactly(steps: seq<Step>, server: string, id: string, env: Environment)
    requires WithRoom(After(steps), server, id, env)
    ensures var recorded := RecordedSince(After(steps).log, server);
      Run(After(steps), server, Present(id), env).1 == First(id !in Latest(recorded))
  {
    PresentedIsLatest(steps, server);
  }

  // ----- A delivery that is new twice -----

  /** Different identifiers of the right length. */
  function IdOf(n: nat): (id: string)
    requires n < 1600
    ensures |id| == 36
  {
    "00000000-0000-0000-0000-0000000000" + [('0' as int + n / 40) as char, ('0' as int + n % 40) as char]
  }

  lemma IdOfInjective(m: nat, n: nat)
    requires m < 1600 && n < 1600
    ensures IdOf(m) == IdOf(n) ==> m == n
  {
    assert IdOf(m)[34] as int == '0' as int + m / 40 && IdOf(m)[35] as int == '0' as int + m % 40;
    assert IdOf(n)[34] as int == '0' as int + n / 40 && IdOf(n)[35] as int == '0' as int + n % 40;
  }

  function Ids(n: nat): (ids: seq<string>)
    requires n <= 1600
    ensures |ids| == n && forall k :: 0 <= k < n ==> ids[k] == IdOf(k)
  {
    if n == 0 then [] else Ids(n - 1) + [IdOf(n - 1)]
  }

  const CALM := Environment(0.0, Saved, Died, Saved)

  /** Pair a device and present n different deliveries. */
  function Presenting(server: string, n: nat): seq<Step>
    requires n <= 1600
  {
    if n == 0 then [Step(server, Pair(IdOf(0), "0123456789abcdef0123456789abcdef"), CALM)]
    else Presenting(server, n - 1) + [Step(server, Present(IdOf(n - 1)), CALM)]
  }

  /** A new delivery is recorded and its receipt queued. */
  lemma PresentNew(st: Store, server: string, id: string)
    requires server in st.disk && |id| == 36 && |st.disk[server].receipts| < MAX_RECEIPTS
    requires id !in st.disk[server].presented
    ensures var next := Run(st, server, Present(id), CALM).0;
      && next.log == st.log + [Recorded(server, id)]
      && server in next.disk && next.disk[server].receipts == st.disk[server].receipts + [id]
  {}

  lemma IdIsNew(n: nat)
    requires n < 1600
    ensures IdOf(n) !in Ids(n)
  {
    var ids := Ids(n);
    forall k | 0 <= k < |ids|
      ensures ids[k] != IdOf(n)
    {
      IdOfInjective(k, n);
    }
  }

  lemma {:induction false} PresentingRecords(server: string, n: nat)
    requires n <= MAX_PRESENTED + 1
    ensures var st := After(Presenting(server, n));
      && server in st.disk && st.disk[server].receipts == Ids(n) && RecordedSince(st.log, server) == Ids(n)
  {
    if n == 0 {
      assert Presenting(server, 0)[..0] == [];
    } else {
      var earlier, id := Presenting(server, n - 1), IdOf(n - 1);
      PresentingRecords(server, n - 1);
      PresentedIsLatest(earlier, server);
      IdIsNew(n - 1);
      PresentNew(After(earlier), server, id);
      assert Presenting(server, n)[..|earlier|] == earlier;
      RecordedSnoc(After(earlier).log, Recorded(server, id), server);
    }
  }

  lemma FirstIsDropped(n: nat)
    requires n == MAX_PRESENTED + 1
    ensures IdOf(0) in Ids(n) && IdOf(0) !in Latest(Ids(n))
  {
    var ids, latest := Ids(n), Latest(Ids(n));
    assert ids[0] == IdOf(0);
    forall k | 0 <= k < |latest|
      ensures latest[k] != IdOf(0)
    {
      assert latest[k] == ids[k + 1];
      IdOfInjective(k + 1, 0);
    }
  }

  /** The first of a thousand and one deliveries is new again, although it was
      recorded and never forgotten. */
  lemma NewAgain(server: string, n: nat)
    requires n == MAX_PRESENTED + 1
    ensures var st := After(Presenting(server, n));
      && IdOf(0) in RecordedSince(st.log, server)
      && Run(st, server, Present(IdOf(0)), CALM).1 == First(true)
  {
    PresentingRecords(server, n);
    FirstIsDropped(n);
    FirstExactly(Presenting(server, n), server, IdOf(0), CALM);
  }
}
