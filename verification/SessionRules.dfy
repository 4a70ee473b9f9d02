/** The session recovery in terms of what the tool reports: how often each case
    occurred, which error it stops with, and the order of its rows
    (tools/windows/recover_runtime_database.py). */
module SessionRules {
  import opened Wrappers
  import opened Sorting
  import opened RecoverySessions

  // ----- Well-formed input -----

  predicate NamesSession(field: Field) { field.Text? && |field.text| >= 1 }

  predicate GoodReference(r: Reference) {
    && (r.session == Missing || NamesSession(r.session)) && (r.sourceSession == Missing || NamesSession(r.sourceSession))
  }

  predicate GoodEvent(e: Event) { NamesSession(e.session) && e.sequence.Some? && e.sequence.value >= 0 }

  lemma GoodExactly(r: Reference, e: Event)
    ensures ValidReference(r) <==> GoodReference(r)
    ensures ValidEvent(e) <==> GoodEvent(e)
  {}

  // ----- One identifier -----

  predicate OneRow(source: Source, id: string) { source.lookup(id).Rows? && |source.lookup(id).rows| == 1 }

  predicate NoRow(source: Source, id: string) { source.lookup(id).Rows? && source.lookup(id).rows == [] }

  predicate OnCorruptPage(source: Source, id: string) { source.lookup(id).CorruptPage? }

  /** The stored cursor is not the recovered one. */
  predicate Adjusts(source: Source, id: string, next: int) {
    OneRow(source, id) && source.lookup(id).rows[0].nextSequence != Some(next)
  }

  /** One past the largest sequence of the session, at least one. */
  function NextOf(m: map<string, int>, id: string): int { if id in m && m[id] >= 0 then m[id] + 1 else 1 }

  lemma NextExactly(m: map<string, int>, id: string)
    ensures RecoveredNext(m, id) == NextOf(m, id)
  {}

  predicate CanRecover(source: Source, id: string) {
    if OneRow(source, id) then source.lookup(id).rows[0].nextSequence.Some?
    else (NoRow(source, id) || OnCorruptPage(source, id)) && !source.ambiguous && source.rebuild(id).Some?
  }

  /** Why an identifier cannot be recovered. */
  function ErrorFor(source: Source, id: string): Error {
    if source.lookup(id).LookupFailed? then SessionLookupFailed(id)
    else if OneRow(source, id) then InvalidCursor(id)
    else if source.lookup(id).Rows? && |source.lookup(id).rows| > 1 then NotUnique(id)
    else if source.ambiguous then AmbiguousOwnership(id)
    else NotInferable(id)
  }

  function Tick(b: bool): nat { if b then 1 else 0 }

  lemma OneExactly(source: Source, id: string, next: int, acc: Recovery)
    ensures RecoverOne(id, next, source, acc).Ok? <==> CanRecover(source, id)
    ensures RecoverOne(id, next, source, acc).Err? ==> RecoverOne(id, next, source, acc).error == ErrorFor(source, id)
    ensures CanRecover(source, id) ==>
              var r := RecoverOne(id, next, source, acc).value;
              && r.copied == acc.copied + Tick(OneRow(source, id))
              && r.adjusted == acc.adjusted + Tick(Adjusts(source, id, next))
              && r.reconstructed == acc.reconstructed + Tick(!OneRow(source, id))
              && r.notFound == acc.notFound + Tick(NoRow(source, id))
              && r.corrupt == acc.corrupt + Tick(OnCorruptPage(source, id))
              && |r.rows| == |acc.rows| + 1 && r.rows[..|acc.rows|] == acc.rows
              && var row := r.rows[|acc.rows|];
                 && row.nextSequence == Some(next)
                 && (if OneRow(source, id) then row.id == source.lookup(id).rows[0].id && row.rest == source.lookup(id).rows[0].rest
                     else row.id == id && Some(row.rest) == source.rebuild(id))
  {}

  // ----- All identifiers -----

  function HowMany(ids: seq<string>, p: string -> bool): nat {
    if ids == [] then 0 else Tick(p(ids[0])) + HowMany(ids[1..], p)
  }

  /** The report counts the cases. */
  lemma {:induction false} CountersExactly(ids: seq<string>, m: map<string, int>, source: Source, acc: Recovery)
    requires RecoverAll(ids, m, source, acc).Ok?
    ensures var r := RecoverAll(ids, m, source, acc).value;
      && r.copied == acc.copied + HowMany(ids, id => OneRow(source, id))
      && r.adjusted == acc.adjusted + HowMany(ids, id => Adjusts(source, id, NextOf(m, id)))
      && r.reconstructed == acc.reconstructed + HowMany(ids, id => !OneRow(source, id))
      && r.notFound == acc.notFound + HowMany(ids, id => NoRow(source, id))
      && r.corrupt == acc.corrupt + HowMany(ids, id => OnCorruptPage(source, id))
    decreases |ids|
  {
    if ids != [] {
      NextExactly(m, ids[0]);
      OneExactly(source, ids[0], RecoveredNext(m, ids[0]), acc);
      CountersExactly(ids[1..], m, source, RecoverOne(ids[0], RecoveredNext(m, ids[0]), source, acc).value);
    }
  }

  /** It stops at the first identifier that cannot be recovered. */
  lemma {:induction false} FirstUnrecoverable(ids: seq<string>, m: map<string, int>, source: Source, acc: Recovery) returns (i: nat)
    requires RecoverAll(ids, m, source, acc).Err?
    ensures i < |ids| && !CanRecover(source, ids[i]) && forall k :: 0 <= k < i ==> CanRecover(source, ids[k])
    ensures RecoverAll(ids, m, source, acc).error == ErrorFor(source, ids[i])
    decreases |ids|
  {
    OneExactly(source, ids[0], RecoveredNext(m, ids[0]), acc);
    i := 0;
    if CanRecover(source, ids[0]) {
      i := FirstUnrecoverable(ids[1..], m, source, RecoverOne(ids[0], RecoveredNext(m, ids[0]), source, acc).value);
      i := i + 1;
    }
  }

  // ----- The whole step -----

  lemma {:induction false} BadReference(references: seq<Reference>, ids: seq<string>)
    ensures Required(references, ids).Err? ==> Required(references, ids).error == InvalidReference
    decreases |references|
  {
    if references != [] && AddReference(references[0], ids).Ok? {
      BadReference(references[1..], AddReference(references[0], ids).value);
    }
  }

  lemma {:induction false} BadEvent(events: seq<Event>, m: map<string, int>)
    ensures MaxSequences(events, m).Err? ==> MaxSequences(events, m).error == InvalidEvent
    decreases |events|
  {
    if events != [] && ValidEvent(events[0]) {
      var id := events[0].session.text;
      BadEvent(events[1..], m[id := Larger(Known(m, id, -1), events[0].sequence.value)]);
    }
  }

  /** The referenced session that is first in the order of strings among those that
      cannot be recovered. */
  ghost predicate FirstOfAll(references: seq<Reference>, events: seq<Event>, source: Source, id: string) {
    && Referenced(references, events, id) && !CanRecover(source, id)
    && forall other :: Referenced(references, events, other) && Before(other, id) ==> CanRecover(source, other)
  }

  ghost predicate StopsWith(references: seq<Reference>, events: seq<Event>, source: Source, error: Error) {
    if (exists r :: r in references && !GoodReference(r)) || (exists e :: e in events && !(e.session == Missing || NamesSession(e.session))) then
      error == InvalidReference
    else if exists e :: e in events && !GoodEvent(e) then error == InvalidEvent
    else exists id :: FirstOfAll(references, events, source, id) && error == ErrorFor(source, id)
  }

  /** Which error a failed recovery reports: a malformed reference before a malformed
      event, and both before any session. */
  lemma FailureExactly(references: seq<Reference>, events: seq<Event>, source: Source, printed: string -> string)
    requires RecoverSessions(references, events, source, printed).Err?
    ensures StopsWith(references, events, source, RecoverSessions(references, events, source, printed).error)
  {
    var all := references + EventReferences(events);
    RequiredAre(all, []);
    EventReferencesName(events, "");
    assert forall r :: r in all <==> r in references || r in EventReferences(events);
    BadReference(all, []);
    BadEvent(events, map[]);
    MaxSequencesDescribe([], events, map[]);
    if Required(all, []).Ok? && MaxSequences(events, map[]).Ok? {
      SessionFailure(references, events, source, Required(all, []).value, MaxSequences(events, map[]).value);
    }
  }

  lemma SessionFailure(references: seq<Reference>, events: seq<Event>, source: Source, ids: seq<string>, m: map<string, int>)
    requires Required(references + EventReferences(events), []) == Ok(ids) && RecoverAll(Sort(ids), m, source, NOTHING).Err?
    ensures exists id :: FirstOfAll(references, events, source, id) && RecoverAll(Sort(ids), m, source, NOTHING).error == ErrorFor(source, id)
  {
    var sorted := Sort(ids);
    RequiredAre(references + EventReferences(events), []);
    SortedIds(references, events, ids);
    SortAscending(ids);
    var i := FirstUnrecoverable(sorted, m, source, NOTHING);
    forall other | Referenced(references, events, other) && Before(other, sorted[i])
      ensures CanRecover(source, other)
    {
      var k :| 0 <= k < |sorted| && sorted[k] == other;
      BeforeIsAsymmetric(other, sorted[i]);
    }
    assert FirstOfAll(references, events, source, sorted[i]);
  }

  // ----- The order of the rows -----

  ghost predicate InPrintedOrder(rows: seq<Session>, printed: string -> string) {
    forall i, j :: 0 <= i < j < |rows| ==> !Before(printed(rows[j].id), printed(rows[i].id))
  }

  lemma {:induction false} InsertKeepsOrder(row: Session, rows: seq<Session>, printed: string -> string)
    requires InPrintedOrder(rows, printed)
    ensures InPrintedOrder(InsertRow(row, rows, printed), printed)
  {
    var r := InsertRow(row, rows, printed);
    if rows == [] {
    } else if Before(printed(rows[0].id), printed(row.id)) {
      var rest := InsertRow(row, rows[1..], printed);
      InsertKeepsOrder(row, rows[1..], printed);
      forall j | 0 <= j < |rest|
        ensures !Before(printed(rest[j].id), printed(rows[0].id))
      {
        assert rest[j] in multiset(rest);
        BeforeIsAsymmetric(printed(row.id), printed(rows[0].id));
      }
    } else {
      forall j | 0 <= j < |rows|
        ensures !Before(printed(rows[j].id), printed(row.id))
      {
        NotAfter(printed(rows[j].id), printed(rows[0].id), printed(row.id));
      }
    }
  }

  lemma NotAfter(a: string, b: string, c: string)
    requires !Before(b, c) && (a == b || !Before(a, b))
    ensures !Before(a, c)
  {
    BeforeIsTotal(a, b);
    if Before(a, c) && Before(b, a) {
      BeforeIsTransitive(b, a, c);
    }
  }

  /** The rows come in the order of the printed identifiers. */
  lemma {:induction false} SortedByPrintedId(rows: seq<Session>, printed: string -> string)
    ensures InPrintedOrder(SortRows(rows, printed), printed)
  {
    if rows != [] {
      SortedByPrintedId(rows[1..], printed);
      InsertKeepsOrder(rows[0], SortRows(rows[1..], printed), printed);
    }
  }
}
