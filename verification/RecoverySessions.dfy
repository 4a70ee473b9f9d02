/** Rebuilding the sessions table of a damaged database from the rows that refer
    to sessions (tools/windows/recover_runtime_database.py). */
module RecoverySessions {
  import opened Wrappers
  import opened Sorting

  /** A column value where a session identifier is expected. */
  datatype Field = Missing | Text(text: string) | NotText

  /** The two columns of any recovered row that may name a session. */
  datatype Reference = Reference(session: Field, sourceSession: Field)

  /** `sequence` is None when the stored value is not an integer. */
  datatype Event = Event(session: Field, sequence: Option<int>)

  datatype Session = Session(id: string, nextSequence: Option<int>, rest: string)

  /** What the damaged sessions table answers for one identifier. */
  datatype Lookup = Rows(rows: seq<Session>) | CorruptPage | LookupFailed

  /** `rebuild`: the inferred columns of a missing session, if they can be
      inferred; `ambiguous`: other participants or scenes make ownership unclear. */
  datatype Source = Source(lookup: string -> Lookup, ambiguous: bool, rebuild: string -> Option<string>)

  datatype Error =
    | InvalidReference | InvalidEvent
    | SessionLookupFailed(id: string) | InvalidCursor(id: string) | NotUnique(id: string)
    | AmbiguousOwnership(id: string) | NotInferable(id: string)

  datatype Recovery = Recovery(rows: seq<Session>, copied: nat, reconstructed: nat, adjusted: nat,
                               notFound: nat, corrupt: nat)

  const NOTHING: Recovery := Recovery([], 0, 0, 0, 0, 0)

  // ----- Which sessions are referenced -----

  function AddField(field: Field, ids: seq<string>): Result<seq<string>, Error> {
    match field
    case Missing => Ok(ids)
    case NotText => Err(InvalidReference)
    case Text(id) => if id == "" then Err(InvalidReference) else Ok(if id in ids then ids else ids + [id])
  }

  function AddReference(r: Reference, ids: seq<string>): Result<seq<string>, Error> {
    match AddField(r.session, ids)
    case Err(e) => Err(e)
    case Ok(more) => AddField(r.sourceSession, more)
  }

  function Required(references: seq<Reference>, ids: seq<string>): Result<seq<string>, Error>
    decreases |references|
  {
    if references == [] then Ok(ids)
    else
      match AddReference(references[0], ids)
      case Err(e) => Err(e)
      case Ok(more) => Required(references[1..], more)
  }

  predicate Names(r: Reference, id: string) { r.session == Text(id) || r.sourceSession == Text(id) }

  predicate ValidField(field: Field) { field.Missing? || (field.Text? && field.text != "") }

  predicate ValidReference(r: Reference) { ValidField(r.session) && ValidField(r.sourceSession) }

  lemma AddReferenceIs(r: Reference, ids: seq<string>)
    requires NoRepeats(ids)
    ensures AddReference(r, ids).Ok? <==> ValidReference(r)
    ensures AddReference(r, ids).Ok? ==>
              && NoRepeats(AddReference(r, ids).value)
              && forall id :: id in AddReference(r, ids).value <==> id in ids || Names(r, id)
  {}

  /** The required identifiers are those some row names, each once. */
  lemma {:induction false} RequiredAre(references: seq<Reference>, ids: seq<string>)
    requires NoRepeats(ids)
    ensures Required(references, ids).Ok? <==> forall r :: r in references ==> ValidReference(r)
    ensures Required(references, ids).Ok? ==>
              && NoRepeats(Required(references, ids).value)
              && forall id :: id in Required(references, ids).value <==>
                              id in ids || exists r :: r in references && Names(r, id)
    decreases |references|
  {
    if references != [] {
      assert forall r :: r in references <==> r == references[0] || r in references[1..];
      AddReferenceIs(references[0], ids);
      if AddReference(references[0], ids).Ok? {
        RequiredAre(references[1..], AddReference(references[0], ids).value);
      }
    }
  }

  // ----- The largest sequence of each session -----

  function Larger(a: int, b: int): int { if a >= b then a else b }

  function Known(m: map<string, int>, id: string, otherwise: int): int { if id in m then m[id] else otherwise }

  predicate ValidEvent(e: Event) {
    e.session.Text? && e.session.text != "" && e.sequence.Some? && e.sequence.value >= 0
  }

  function MaxSequences(events: seq<Event>, m: map<string, int>): Result<map<string, int>, Error>
    decreases |events|
  {
    if events == [] then Ok(m)
    else if !ValidEvent(events[0]) then Err(InvalidEvent)
    else
      var id := events[0].session.text;
      MaxSequences(events[1..], m[id := Larger(Known(m, id, -1), events[0].sequence.value)])
  }

  predicate EventOf(e: Event, id: string, sequence: int) { e.session == Text(id) && e.sequence == Some(sequence) }

  /** `sequence` is the largest of this session's events. */
  ghost predicate IsLargest(events: seq<Event>, id: string, sequence: int) {
    && (exists e :: e in events && EventOf(e, id, sequence))
    && (forall e, other :: e in events && EventOf(e, id, other) ==> other <= sequence)
  }

  ghost predicate HasEvent(events: seq<Event>, id: string) {
    exists e :: e in events && e.session == Text(id)
  }

  ghost predicate Describes(m: map<string, int>, events: seq<Event>) {
    && (forall e :: e in events ==> ValidEvent(e))
    && (forall id :: id in m <==> HasEvent(events, id))
    && (forall id :: id in m ==> IsLargest(events, id, m[id]))
  }

  lemma DescribesOneMore(m: map<string, int>, seen: seq<Event>, e: Event)
    requires Describes(m, seen) && ValidEvent(e)
    ensures Describes(m[e.session.text := Larger(Known(m, e.session.text, -1), e.sequence.value)], seen + [e])
  {
    var id := e.session.text;
    var all := seen + [e];
    var top := Larger(Known(m, id, -1), e.sequence.value);
    assert EventOf(e, id, e.sequence.value) && e in all;
    if id in m {
      var best :| best in seen && EventOf(best, id, m[id]);
      assert best in all;
    }
    assert IsLargest(all, id, top);
    forall other | other != id
      ensures HasEvent(all, other) <==> HasEvent(seen, other)
      ensures other in m ==> IsLargest(all, other, m[other])
    {
      if other in m {
        var best :| best in seen && EventOf(best, other, m[other]);
        assert best in all;
      }
    }
  }

  lemma {:induction false} MaxSequencesDescribe(seen: seq<Event>, events: seq<Event>, m: map<string, int>)
    requires Describes(m, seen)
    ensures MaxSequences(events, m).Ok? ==> Describes(MaxSequences(events, m).value, seen + events)
    ensures MaxSequences(events, m).Ok? <==> forall e :: e in events ==> ValidEvent(e)
    decreases |events|
  {
    if events == [] {
      assert seen + events == seen;
    } else {
      assert forall e :: e in events <==> e == events[0] || e in events[1..];
      if ValidEvent(events[0]) {
        var id := events[0].session.text;
        DescribesOneMore(m, seen, events[0]);
        assert seen + [events[0]] + events[1..] == seen + events;
        MaxSequencesDescribe(seen + [events[0]], events[1..],
                             m[id := Larger(Known(m, id, -1), events[0].sequence.value)]);
      }
    }
  }

  // ----- One session -----

  function RecoveredNext(m: map<string, int>, id: string): int { Larger(1, Known(m, id, 0) + 1) }

  /** The row of one session, and how it came about, added to the recovery. */
  function RecoverOne(id: string, next: int, source: Source, acc: Recovery): Result<Recovery, Error> {
    match source.lookup(id)
    case LookupFailed => Err(SessionLookupFailed(id))
    case CorruptPage => RebuildOne(id, next, source, acc.(corrupt := acc.corrupt + 1))
    case Rows(found) =>
      if |found| == 1 then
        if found[0].nextSequence.None? then Err(InvalidCursor(id))
        else
          Ok(acc.(rows := acc.rows + [found[0].(nextSequence := Some(next))], copied := acc.copied + 1,
                  adjusted := acc.adjusted + if found[0].nextSequence == Some(next) then 0 else 1))
      else if |found| > 1 then Err(NotUnique(id))
      else RebuildOne(id, next, source, acc.(notFound := acc.notFound + 1))
  }

  function RebuildOne(id: string, next: int, source: Source, acc: Recovery): Result<Recovery, Error> {
    if source.ambiguous then Err(AmbiguousOwnership(id))
    else
      match source.rebuild(id)
      case None => Err(NotInferable(id))
      case Some(rest) =>
        Ok(acc.(rows := acc.rows + [Session(id, Some(next), rest)], reconstructed := acc.reconstructed + 1))
  }

  function RecoverAll(ids: seq<string>, m: map<string, int>, source: Source, acc: Recovery): Result<Recovery, Error>
    decreases |ids|
  {
    if ids == [] then Ok(acc)
    else
      match RecoverOne(ids[0], RecoveredNext(m, ids[0]), source, acc)
      case Err(e) => Err(e)
      case Ok(next) => RecoverAll(ids[1..], m, source, next)
  }

  // ----- The whole step -----

  function InsertRow(row: Session, rows: seq<Session>, printed: string -> string): (r: seq<Session>)
    ensures multiset(r) == multiset(rows) + multiset{row}
  {
    if rows == [] || !Before(printed(rows[0].id), printed(row.id)) then [row] + rows
    else
      assert rows == [rows[0]] + rows[1..];
      [rows[0]] + InsertRow(row, rows[1..], printed)
  }

  /** The snapshot order: by the printed form of the identifier. */
  function SortRows(rows: seq<Session>, printed: string -> string): (r: seq<Session>)
    ensures multiset(r) == multiset(rows)
  {
    if rows == [] then []
    else
      assert rows == [rows[0]] + rows[1..];
      InsertRow(rows[0], SortRows(rows[1..], printed), printed)
  }

  function EventReferences(events: seq<Event>): (r: seq<Reference>)
    ensures |r| == |events|
  {
    seq(|events|, i requires 0 <= i < |events| => Reference(events[i].session, Missing))
  }

  function RecoverSessions(references: seq<Reference>, events: seq<Event>, source: Source,
                           printed: string -> string): Result<Recovery, Error> {
    match Required(references + EventReferences(events), [])
    case Err(e) => Err(e)
    case Ok(ids) =>
      match MaxSequences(events, map[])
      case Err(e) => Err(e)
      case Ok(m) =>
        match RecoverAll(Sort(ids), m, source, NOTHING)
        case Err(e) => Err(e)
        case Ok(r) => Ok(r.(rows := SortRows(r.rows, printed)))
  }

  // ----- As the tool runs it -----

  method CollectRequired(references: seq<Reference>) returns (r: Result<seq<string>, Error>)
    ensures r == Required(references, [])
  {
    var ids: seq<string> := [];
    var i := 0;
    while i < |references|
      invariant 0 <= i <= |references|
      invariant Required(references[i..], ids) == Required(references, [])
    {
      var more := AddReference(references[i], ids);
      if more.Err? {
        return Err(more.error);
      }
      ids := more.value;
      i := i + 1;
    }
    return Ok(ids);
  }

  method CollectMaxima(events: seq<Event>) returns (r: Result<map<string, int>, Error>)
    ensures r == MaxSequences(events, map[])
  {
    var maxima: map<string, int> := map[];
    var i := 0;
    while i < |events|
      invariant 0 <= i <= |events|
      invariant MaxSequences(events[i..], maxima) == MaxSequences(events, map[])
    {
      var e := events[i];
      if !ValidEvent(e) {
        return Err(InvalidEvent);
      }
      maxima := maxima[e.session.text := Larger(Known(maxima, e.session.text, -1), e.sequence.value)];
      i := i + 1;
    }
    return Ok(maxima);
  }

  /** The loop over the sorted identifiers. */
  method RecoverRows(ids: seq<string>, maxima: map<string, int>, source: Source) returns (r: Result<Recovery, Error>)
    ensures r == RecoverAll(ids, maxima, source, NOTHING)
  {
    var output: seq<Session> := [];
    var copied: nat, reconstructed: nat, adjusted: nat, notFound: nat, corrupt: nat := 0, 0, 0, 0, 0;
    var i := 0;
    while i < |ids|
      invariant 0 <= i <= |ids|
      invariant RecoverAll(ids[i..], maxima, source, Recovery(output, copied, reconstructed, adjusted, notFound, corrupt))
             == RecoverAll(ids, maxima, source, NOTHING)
    {
      var id := ids[i];
      i := i + 1;
      var found: seq<Session> := [];
      var lookupWasCorrupt := false;
      match source.lookup(id) {
        case LookupFailed =>
          return Err(SessionLookupFailed(id));
        case CorruptPage =>
          lookupWasCorrupt := true;
          corrupt := corrupt + 1;
        case Rows(rows) =>
          found := rows;
      }
      var recoveredNext := RecoveredNext(maxima, id);
      if |found| == 1 {
        if found[0].nextSequence.None? {
          return Err(InvalidCursor(id));
        }
        if found[0].nextSequence != Some(recoveredNext) {
          adjusted := adjusted + 1;
        }
        output := output + [found[0].(nextSequence := Some(recoveredNext))];
        copied := copied + 1;
        continue;
      }
      if |found| > 1 {
        return Err(NotUnique(id));
      }
      if !lookupWasCorrupt {
        notFound := notFound + 1;
      }
      if source.ambiguous {
        return Err(AmbiguousOwnership(id));
      }
      var rest := source.rebuild(id);
      if rest.None? {
        return Err(NotInferable(id));
      }
      output := output + [Session(id, Some(recoveredNext), rest.value)];
      reconstructed := reconstructed + 1;
    }
    return Ok(Recovery(output, copied, reconstructed, adjusted, notFound, corrupt));
  }

  /** _recover_sessions. */
  method RecoverSessionTable(references: seq<Reference>, events: seq<Event>, source: Source, printed: string -> string)
    returns (r: Result<Recovery, Error>)
    ensures r == RecoverSessions(references, events, source, printed)
  {
    var required := CollectRequired(references + EventReferences(events));
    if required.Err? {
      return Err(required.error);
    }
    var maxima := CollectMaxima(events);
    if maxima.Err? {
      return Err(maxima.error);
    }
    var recovered := RecoverRows(Sort(required.value), maxima.value, source);
    if recovered.Err? {
      return Err(recovered.error);
    }
    return Ok(recovered.value.(rows := SortRows(recovered.value.rows, printed)));
  }

  // ----- What is recovered -----

  /** The stored row with its cursor renewed, or the inferred row. */
  function RowFor(id: string, next: int, source: Source): Option<Session> {
    var answer := source.lookup(id);
    if answer.Rows? && |answer.rows| == 1 then
      if answer.rows[0].nextSequence.None? then None else Some(answer.rows[0].(nextSequence := Some(next)))
    else if source.ambiguous || answer.LookupFailed? || (answer.Rows? && |answer.rows| > 1) then None
    else
      match source.rebuild(id)
      case None => None
      case Some(rest) => Some(Session(id, Some(next), rest))
  }

  predicate Recoverable(id: string, source: Source) {
    match source.lookup(id)
    case LookupFailed => false
    case CorruptPage => !source.ambiguous && source.rebuild(id).Some?
    case Rows(found) =>
      if |found| == 1 then found[0].nextSequence.Some?
      else |found| == 0 && !source.ambiguous && source.rebuild(id).Some?
  }

  /** Each recovery is either a copy or a reconstruction, and reconstructions are
      the lookups that found nothing or hit a corrupt page. */
  ghost predicate CountsFit(acc: Recovery, r: Recovery, n: nat) {
    && (r.copied - acc.copied) + (r.reconstructed - acc.reconstructed) == n
    && (r.notFound - acc.notFound) + (r.corrupt - acc.corrupt) == r.reconstructed - acc.reconstructed
    && 0 <= r.adjusted - acc.adjusted <= r.copied - acc.copied
  }

  lemma RecoverOneIs(id: string, next: int, source: Source, acc: Recovery)
    ensures RowFor(id, next, source).Some? <==> Recoverable(id, source)
    ensures RecoverOne(id, next, source, acc).Ok? <==> Recoverable(id, source)
    ensures Recoverable(id, source) ==>
              && RecoverOne(id, next, source, acc).value.rows == acc.rows + [RowFor(id, next, source).value]
              && CountsFit(acc, RecoverOne(id, next, source, acc).value, 1)
  {}

  ghost predicate RowsFor(ids: seq<string>, m: map<string, int>, source: Source, rows: seq<Session>) {
    && |rows| == |ids|
    && forall i :: 0 <= i < |ids| ==> RowFor(ids[i], RecoveredNext(m, ids[i]), source) == Some(rows[i])
  }

  predicate AllRecoverable(ids: seq<string>, source: Source) { forall id :: id in ids ==> Recoverable(id, source) }

  lemma RowsForCons(ids: seq<string>, m: map<string, int>, source: Source, first: Session, rest: seq<Session>)
    requires ids != [] && RowFor(ids[0], RecoveredNext(m, ids[0]), source) == Some(first)
    requires RowsFor(ids[1..], m, source, rest)
    ensures RowsFor(ids, m, source, [first] + rest)
  {
    forall i | 0 < i < |ids|
      ensures RowFor(ids[i], RecoveredNext(m, ids[i]), source) == Some(([first] + rest)[i])
    {
      assert ids[1..][i - 1] == ids[i] && ([first] + rest)[i] == rest[i - 1];
    }
  }

  lemma {:induction false} RecoverAllIs(ids: seq<string>, m: map<string, int>, source: Source, acc: Recovery)
    returns (rows: seq<Session>)
    ensures RecoverAll(ids, m, source, acc).Ok? <==> AllRecoverable(ids, source)
    ensures AllRecoverable(ids, source) ==>
              && RowsFor(ids, m, source, rows)
              && RecoverAll(ids, m, source, acc).value.rows == acc.rows + rows
              && CountsFit(acc, RecoverAll(ids, m, source, acc).value, |ids|)
    decreases |ids|
  {
    rows := [];
    if ids == [] {
      assert acc.rows + rows == acc.rows;
    } else {
      var next := RecoveredNext(m, ids[0]);
      assert forall id :: id in ids <==> id == ids[0] || id in ids[1..];
      RecoverOneIs(ids[0], next, source, acc);
      if Recoverable(ids[0], source) {
        var first := RowFor(ids[0], next, source).value;
        var rest := RecoverAllIs(ids[1..], m, source, RecoverOne(ids[0], next, source, acc).value);
        rows := [first] + rest;
        if AllRecoverable(ids, source) {
          RowsForCons(ids, m, source, first, rest);
          assert acc.rows + [first] + rest == acc.rows + rows;
        }
      }
    }
  }

  // ----- The order of the rows does not matter -----

  ghost predicate DistinctIds(rows: seq<Session>) {
    forall i, j :: 0 <= i < j < |rows| ==> rows[i].id != rows[j].id
  }

  lemma SameRows(a: seq<Session>, b: seq<Session>)
    requires multiset(a) == multiset(b)
    ensures |a| == |b| && forall row :: row in a <==> row in b
  {
    assert |multiset(a)| == |multiset(b)|;
    forall row
      ensures row in a <==> row in b
    {
      assert row in multiset(a) <==> row in multiset(b);
    }
  }

  lemma {:induction false} InsertDistinct(row: Session, rows: seq<Session>, printed: string -> string)
    requires DistinctIds(rows) && forall other :: other in rows ==> other.id != row.id
    ensures DistinctIds(InsertRow(row, rows, printed))
  {
    if rows != [] && Before(printed(rows[0].id), printed(row.id)) {
      var rest := InsertRow(row, rows[1..], printed);
      InsertDistinct(row, rows[1..], printed);
      forall other | other in rest
        ensures other.id != rows[0].id
      {
        assert other in multiset(rest);
      }
    }
  }

  lemma {:induction false} SortDistinct(rows: seq<Session>, printed: string -> string)
    requires DistinctIds(rows)
    ensures DistinctIds(SortRows(rows, printed))
  {
    if rows != [] {
      SortDistinct(rows[1..], printed);
      SameRows(SortRows(rows[1..], printed), rows[1..]);
      InsertDistinct(rows[0], SortRows(rows[1..], printed), printed);
    }
  }

  lemma SortKeepsLength(rows: seq<Session>, printed: string -> string)
    ensures |SortRows(rows, printed)| == |rows|
  {
    SameRows(SortRows(rows, printed), rows);
  }

  // ----- The check of the written database -----

  /** MAX(event.sequence) of one session, NULL without events. */
  function MaxEvent(events: seq<Event>, id: string): Option<int> {
    if events == [] then None
    else
      var rest := MaxEvent(events[1..], id);
      if events[0].session != Text(id) || events[0].sequence.None? then rest
      else if rest.None? then events[0].sequence
      else Some(Larger(events[0].sequence.value, rest.value))
  }

  /** The sessions whose cursor is not one past their largest sequence. */
  function SequenceMismatches(rows: seq<Session>, events: seq<Event>): seq<string> {
    if rows == [] then []
    else (if rows[0].nextSequence == Some(MaxEvent(events, rows[0].id).GetOr(0) + 1) then [] else [rows[0].id])
         + SequenceMismatches(rows[1..], events)
  }

  lemma {:induction false} MaxEventIs(events: seq<Event>, id: string)
    requires forall e :: e in events ==> ValidEvent(e)
    ensures MaxEvent(events, id).Some? <==> HasEvent(events, id)
    ensures MaxEvent(events, id).Some? ==> IsLargest(events, id, MaxEvent(events, id).value)
  {
    if events != [] {
      assert events[0] in events;
      assert forall e :: e in events <==> e == events[0] || e in events[1..];
      MaxEventIs(events[1..], id);
      if events[0].session == Text(id) {
        assert EventOf(events[0], id, events[0].sequence.value);
      }
    }
  }

  /** The map of maxima and the database's MAX agree, so every recovered cursor is
      one past the largest recovered sequence. */
  lemma CursorIsMax(m: map<string, int>, events: seq<Event>, id: string)
    requires Describes(m, events)
    ensures RecoveredNext(m, id) == MaxEvent(events, id).GetOr(0) + 1
  {
    MaxEventIs(events, id);
    if id in m {
      var top := MaxEvent(events, id).value;
      var e :| e in events && EventOf(e, id, m[id]);
      var f :| f in events && EventOf(f, id, top);
    }
  }

  lemma {:induction false} NoMismatches(rows: seq<Session>, events: seq<Event>)
    requires forall row :: row in rows ==> row.nextSequence == Some(MaxEvent(events, row.id).GetOr(0) + 1)
    ensures SequenceMismatches(rows, events) == []
  {
    if rows != [] {
      assert rows[0] in rows;
      NoMismatches(rows[1..], events);
    }
  }

  // ----- Main results -----

  /** SQL returns rows of the session that was asked for. */
  ghost predicate AnswersTheQuestion(source: Source) {
    forall id :: source.lookup(id).Rows? ==> forall row :: row in source.lookup(id).rows ==> row.id == id
  }

  ghost predicate Referenced(references: seq<Reference>, events: seq<Event>, id: string) {
    (exists r :: r in references && Names(r, id)) || HasEvent(events, id)
  }

  lemma EventReferencesName(events: seq<Event>, id: string)
    ensures (exists r :: r in EventReferences(events) && Names(r, id)) <==> HasEvent(events, id)
    ensures (forall r :: r in EventReferences(events) ==> ValidReference(r)) <==>
            forall e :: e in events ==> ValidField(e.session)
  {
    var refs := EventReferences(events);
    forall e | e in events
      ensures Reference(e.session, Missing) in refs
    {
      var i :| 0 <= i < |events| && events[i] == e;
      assert refs[i] in refs;
    }
    forall r | r in refs
      ensures exists e :: e in events && r == Reference(e.session, Missing)
    {
      var i :| 0 <= i < |refs| && refs[i] == r;
      assert events[i] in events;
    }
    if HasEvent(events, id) {
      var e :| e in events && e.session == Text(id);
      assert Names(Reference(e.session, Missing), id);
    }
  }

  lemma RequiredAreReferenced(references: seq<Reference>, events: seq<Event>, ids: seq<string>, id: string)
    requires Required(references + EventReferences(events), []) == Ok(ids)
    ensures NoRepeats(ids) && (id in ids <==> Referenced(references, events, id))
  {
    var all := references + EventReferences(events);
    RequiredAre(all, []);
    EventReferencesName(events, id);
    assert forall r :: r in all <==> r in references || r in EventReferences(events);
  }

  /** Exactly the referenced sessions, each once, each with the cursor one past its
      largest recovered event (1 without events). */
  ghost predicate RecoveredWell(references: seq<Reference>, events: seq<Event>, rows: seq<Session>) {
    && DistinctIds(rows)
    && (forall id :: (exists row :: row in rows && row.id == id) <==> Referenced(references, events, id))
    && (forall row :: row in rows ==> row.nextSequence == Some(MaxEvent(events, row.id).GetOr(0) + 1))
  }

  lemma RowKeepsId(id: string, next: int, source: Source)
    requires AnswersTheQuestion(source) && RowFor(id, next, source).Some?
    ensures RowFor(id, next, source).value.id == id && RowFor(id, next, source).value.nextSequence == Some(next)
  {
    var answer := source.lookup(id);
    if answer.Rows? && |answer.rows| == 1 {
      assert answer.rows[0] in answer.rows;
    }
  }

  lemma RowsAreWell(references: seq<Reference>, events: seq<Event>, ids: seq<string>, m: map<string, int>,
                    source: Source, rows: seq<Session>)
    requires AnswersTheQuestion(source) && Describes(m, events) && NoRepeats(ids) && RowsFor(ids, m, source, rows)
    requires forall id :: id in ids <==> Referenced(references, events, id)
    ensures RecoveredWell(references, events, rows)
  {
    forall i | 0 <= i < |rows|
      ensures rows[i].id == ids[i] && rows[i].nextSequence == Some(MaxEvent(events, rows[i].id).GetOr(0) + 1)
    {
      RowKeepsId(ids[i], RecoveredNext(m, ids[i]), source);
      CursorIsMax(m, events, ids[i]);
    }
    forall id
      ensures (exists row :: row in rows && row.id == id) <==> id in ids
    {
      if id in ids {
        var i :| 0 <= i < |ids| && ids[i] == id;
        assert rows[i] in rows;
      }
    }
  }

  lemma SortedAreWell(references: seq<Reference>, events: seq<Event>, rows: seq<Session>, printed: string -> string)
    requires RecoveredWell(references, events, rows)
    ensures RecoveredWell(references, events, SortRows(rows, printed))
  {
    SortDistinct(rows, printed);
    SameRows(SortRows(rows, printed), rows);
  }

  /** The parts of a successful recovery: the identifiers, the maxima and the rows
      before they are sorted. */
  lemma RecoveryParts(references: seq<Reference>, events: seq<Event>, source: Source, printed: string -> string,
                      r: Recovery) returns (ids: seq<string>, m: map<string, int>, unsorted: Recovery)
    requires RecoverSessions(references, events, source, printed) == Ok(r)
    ensures Required(references + EventReferences(events), []) == Ok(ids)
    ensures MaxSequences(events, map[]) == Ok(m)
    ensures RecoverAll(Sort(ids), m, source, NOTHING) == Ok(unsorted)
    ensures r == unsorted.(rows := SortRows(unsorted.rows, printed))
  {
    ids := Required(references + EventReferences(events), []).value;
    m := MaxSequences(events, map[]).value;
    unsorted := RecoverAll(Sort(ids), m, source, NOTHING).value;
  }

  lemma SortedIds(references: seq<Reference>, events: seq<Event>, ids: seq<string>)
    requires Required(references + EventReferences(events), []) == Ok(ids)
    ensures NoRepeats(Sort(ids))
    ensures forall id :: id in Sort(ids) <==> Referenced(references, events, id)
  {
    RequiredAre(references + EventReferences(events), []);
    SortAscending(ids);
    AscendingDistinct(Sort(ids));
    SameMembers(Sort(ids), ids);
    forall id
      ensures id in ids <==> Referenced(references, events, id)
    {
      RequiredAreReferenced(references, events, ids, id);
    }
  }

  lemma MaximaDescribe(events: seq<Event>, m: map<string, int>)
    requires MaxSequences(events, map[]) == Ok(m)
    ensures Describes(m, events)
  {
    MaxSequencesDescribe([], events, map[]);
    assert [] + events == events;
  }

  lemma UnsortedAreWell(references: seq<Reference>, events: seq<Event>, source: Source, ids: seq<string>,
                        m: map<string, int>, r: Recovery)
    requires AnswersTheQuestion(source) && Describes(m, events) && NoRepeats(ids)
    requires forall id :: id in ids <==> Referenced(references, events, id)
    requires RecoverAll(ids, m, source, NOTHING) == Ok(r)
    ensures RecoveredWell(references, events, r.rows)
    ensures r.copied + r.reconstructed == |r.rows| && r.notFound + r.corrupt == r.reconstructed
  {
    var rows := RecoverAllIs(ids, m, source, NOTHING);
    assert NOTHING.rows + rows == rows;
    RowsAreWell(references, events, ids, m, source, rows);
  }

  lemma WellWithoutMismatches(references: seq<Reference>, events: seq<Event>, rows: seq<Session>)
    requires RecoveredWell(references, events, rows)
    ensures SequenceMismatches(rows, events) == []
  {
    NoMismatches(rows, events);
  }

  /** Whatever the damaged database held: the recovered sessions are exactly the
      referenced ones, the counters add up, and the check of the written database
      finds no wrong cursor. */
  lemma SessionsRecovered(references: seq<Reference>, events: seq<Event>, source: Source, printed: string -> string,
                          r: Recovery)
    requires AnswersTheQuestion(source) && RecoverSessions(references, events, source, printed) == Ok(r)
    ensures RecoveredWell(references, events, r.rows)
    ensures SequenceMismatches(r.rows, events) == []
    ensures r.copied + r.reconstructed == |r.rows| && r.notFound + r.corrupt == r.reconstructed
  {
    var ids, m, unsorted := RecoveryParts(references, events, source, printed, r);
    MaximaDescribe(events, m);
    SortedIds(references, events, ids);
    UnsortedAreWell(references, events, source, Sort(ids), m, unsorted);
    SortedAreWell(references, events, unsorted.rows, printed);
    SortKeepsLength(unsorted.rows, printed);
    WellWithoutMismatches(references, events, r.rows);
  }

  /** Recovery succeeds exactly when every reference and event is well formed and
      every referenced session can be looked up or inferred. */
  lemma RecoversExactly(references: seq<Reference>, events: seq<Event>, source: Source, printed: string -> string)
    ensures RecoverSessions(references, events, source, printed).Ok? <==>
            (&& (forall r :: r in references ==> ValidReference(r))
             && (forall e :: e in events ==> ValidEvent(e))
             && (forall id :: Referenced(references, events, id) ==> Recoverable(id, source)))
  {
    var all := references + EventReferences(events);
    RequiredAre(all, []);
    EventReferencesName(events, "");
    assert forall r :: r in all <==> r in references || r in EventReferences(events);
    MaxSequencesDescribe([], events, map[]);
    if Required(all, []).Ok? && MaxSequences(events, map[]).Ok? {
      var ids := Required(all, []).value;
      forall id
        ensures id in ids <==> Referenced(references, events, id)
      {
        RequiredAreReferenced(references, events, ids, id);
      }
      SameMembers(Sort(ids), ids);
      var rows := RecoverAllIs(Sort(ids), MaxSequences(events, map[]).value, source, NOTHING);
      assert AllRecoverable(Sort(ids), source) <==> forall id :: id in ids ==> Recoverable(id, source);
    }
  }
}
