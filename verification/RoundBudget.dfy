/** The journalled limit on provider rounds: every round is written down before
    it is sent, and the file is counted again at every start
    (tools/runtime_source_evaluation.py). */
module RoundBudget {
  import opened Wrappers

  // ----- The journal file -----

  /** One line of the file; a line that is not one JSON row stops the replay. */
  datatype Line = Started(id: string) | Finished(id: string) | Unreadable

  /** `open`: the last line has no line end yet. */
  datatype Journal = Journal(lines: seq<Line>, open: bool)

  /** A row to be written; `text` is what it carries of tool results and replies.
      JSON leaves these characters as they are. */
  datatype Row = Row(line: Line, text: string)

  /** Where splitlines() ends a line although JSON does not escape it: NEL, the
      line separator and the paragraph separator. */
  predicate Separator(c: char) { c == '\U{0085}' || c == '\U{2028}' || c == '\U{2029}' }

  predicate OneLine(row: Row) { forall i :: 0 <= i < |row.text| ==> !Separator(row.text[i]) }

  /** How far an append got. Only `Whole` lets the call return. */
  datatype Written = Nothing | Part | NoLineEnd | Whole

  /** Text appended behind an open line joins that line, and two rows on one line
      cannot be read; nor can the pieces of a row that a separator breaks. */
  function Append(journal: Journal, row: Row, written: Written): Journal {
    if written == Nothing then journal
    else if journal.open && journal.lines != [] then
      Journal(journal.lines[..|journal.lines| - 1] + [Unreadable], written != Whole)
    else
      Journal(journal.lines + [if written == Part || !OneLine(row) then Unreadable else row.line], written != Whole)
  }

  function Front(lines: seq<Line>): seq<Line>
    requires lines != []
  {
    lines[..|lines| - 1]
  }

  function Last(lines: seq<Line>): Line
    requires lines != []
  {
    lines[|lines| - 1]
  }

  function IdsOf(row: Line): set<string> { if row.Started? then {row.id} else {} }

  function StartedIds(lines: seq<Line>): set<string> {
    if lines == [] then {} else StartedIds(Front(lines)) + IdsOf(Last(lines))
  }

  function StartedCount(lines: seq<Line>): nat {
    if lines == [] then 0 else StartedCount(Front(lines)) + |IdsOf(Last(lines))|
  }

  /** No line is unreadable and no round was started twice. */
  predicate Replayable(lines: seq<Line>) {
    lines == []
    || (&& Replayable(Front(lines))
        && !Last(lines).Unreadable?
        && IdsOf(Last(lines)) !! StartedIds(Front(lines)))
  }

  lemma {:induction false} StartedIdsAre(lines: seq<Line>, id: string)
    ensures id in StartedIds(lines) <==> Started(id) in lines
  {
    if lines != [] {
      StartedIdsAre(Front(lines), id);
      assert lines == Front(lines) + [Last(lines)];
    }
  }

  predicate RowsFit(a: Line, b: Line) { a.Started? && b.Started? ==> a.id != b.id }

  lemma {:induction false} ReplayableMeans(lines: seq<Line>)
    ensures Replayable(lines) <==>
            (&& (forall i :: 0 <= i < |lines| ==> !lines[i].Unreadable?)
             && (forall i, j :: 0 <= i < j < |lines| ==> RowsFit(lines[i], lines[j])))
  {
    if lines != [] {
      var front, n := Front(lines), |lines| - 1;
      ReplayableMeans(front);
      assert forall i :: 0 <= i < n ==> front[i] == lines[i];
      if lines[n].Started? {
        StartedIdsAre(front, lines[n].id);
        assert lines[n].id in StartedIds(front) <==> exists i :: 0 <= i < n && !RowsFit(lines[i], lines[n]);
      }
    }
  }

  lemma Snoc(lines: seq<Line>, row: Line)
    ensures StartedCount(lines + [row]) == StartedCount(lines) + |IdsOf(row)|
    ensures StartedIds(lines + [row]) == StartedIds(lines) + IdsOf(row)
    ensures Replayable(lines + [row]) <==>
            Replayable(lines) && !row.Unreadable? && IdsOf(row) !! StartedIds(lines)
  {
    assert Front(lines + [row]) == lines;
  }

  lemma {:induction false} PrefixReplayable(lines: seq<Line>, i: nat)
    requires i <= |lines| && Replayable(lines)
    ensures Replayable(lines[..i])
  {
    if i < |lines| {
      PrefixReplayable(Front(lines), i);
      assert Front(lines)[..i] == lines[..i];
    } else {
      assert lines[..i] == lines;
    }
  }

  lemma NextLine(lines: seq<Line>, i: nat, before: seq<Line>, after: seq<Line>)
    requires i < |lines| && before == lines[..i] && after == lines[..i + 1]
    ensures StartedCount(after) == StartedCount(before) + |IdsOf(lines[i])|
    ensures StartedIds(after) == StartedIds(before) + IdsOf(lines[i])
    ensures Replayable(after) <==>
            Replayable(before) && !lines[i].Unreadable? && IdsOf(lines[i]) !! StartedIds(before)
    ensures Replayable(lines) ==> Replayable(after)
  {
    Snoc(before, lines[i]);
    assert before + [lines[i]] == after;
    if Replayable(lines) {
      PrefixReplayable(lines, i + 1);
    }
  }

  /** The first i lines are replayable and `started` are their rounds. */
  ghost predicate Counted(lines: seq<Line>, i: nat, started: set<string>) {
    && i <= |lines| && Replayable(lines[..i])
    && started == StartedIds(lines[..i]) && |started| == StartedCount(lines[..i])
  }

  lemma CountedNext(lines: seq<Line>, i: nat, started: set<string>)
    requires i < |lines| && Counted(lines, i, started)
    ensures lines[i].Unreadable? || (lines[i].Started? && lines[i].id in started) ==> Replayed(lines) == None
    ensures lines[i].Started? && lines[i].id !in started ==> Counted(lines, i + 1, started + {lines[i].id})
    ensures lines[i].Finished? ==> Counted(lines, i + 1, started)
  {
    NextLine(lines, i, lines[..i], lines[..i + 1]);
  }

  lemma CountedAll(lines: seq<Line>, started: set<string>)
    ensures Counted(lines, |lines|, started) ==> Replayed(lines) == Some(|started|)
  {
    assert lines[..|lines|] == lines;
  }

  /** The constructor's replay: a file with an unreadable line or a repeated round
      is refused, otherwise each started round counts once. */
  method Replay(lines: seq<Line>) returns (used: Option<nat>)
    ensures used == Replayed(lines)
  {
    var started: set<string> := {};
    var i := 0;
    while i < |lines|
      invariant 0 <= i <= |lines| && Counted(lines, i, started)
    {
      CountedNext(lines, i, started);
      match lines[i] {
        case Unreadable =>
          return None;
        case Started(id) =>
          if id in started {
            return None;
          }
          started := started + {id};
        case Finished(_) =>
      }
      i := i + 1;
    }
    CountedAll(lines, started);
    return Some(|started|);
  }

  // ----- The provider and its journal as steps -----

  /** `used`: the count in the running process, if there is one.
      `dispatched`: provider streams begun so far, over all processes. */
  datatype State = State(journal: Journal, used: Option<nat>, dispatched: nat)

  datatype Event =
    | Start
    | Stream(id: string, text: string, written: Written, returned: bool)
    | Finish(id: string, text: string, written: Written)
    | Crash

  function Replayed(lines: seq<Line>): Option<nat> {
    if Replayable(lines) then Some(StartedCount(lines)) else None
  }

  /** A stream is refused at the limit. Otherwise the round is written down; only
      when that append returns is it counted and sent. */
  function StreamStep(s: State, row: Row, written: Written, returned: bool, maximum: nat): State {
    if s.used.None? || s.used.value >= maximum then s
    else
      var after := s.(journal := Append(s.journal, row, written));
      if returned && written == Whole then
        after.(used := Some(s.used.value + 1), dispatched := s.dispatched + 1)
      else after
  }

  function Step(s: State, e: Event, maximum: nat): State {
    match e
    case Start => s.(used := Replayed(s.journal.lines))
    case Stream(id, text, written, returned) => StreamStep(s, Row(Started(id), text), written, returned, maximum)
    case Finish(id, text, written) =>
      if s.used.None? then s else s.(journal := Append(s.journal, Row(Finished(id), text), written))
    case Crash => s.(used := None)
  }

  function Run(s: State, events: seq<Event>, maximum: nat): State {
    if events == [] then s
    else Step(Run(s, events[..|events| - 1], maximum), events[|events| - 1], maximum)
  }

  function Fresh(journal: Journal): State { State(journal, None, 0) }

  // ----- The limit over all processes -----

  /** What is sent is within the limit, counted by the running process, and still
      counted by any later replay that succeeds. */
  ghost predicate WithinLimit(s: State, maximum: nat) {
    && s.dispatched <= maximum
    && (s.used.Some? ==> s.dispatched <= s.used.value)
    && (Replayable(s.journal.lines) ==> s.dispatched <= StartedCount(s.journal.lines))
  }

  /** An append never lowers the count of a file that can still be replayed. */
  lemma AppendKeepsCount(journal: Journal, row: Row, written: Written)
    ensures var after := Append(journal, row, written).lines;
      Replayable(after) ==>
        && Replayable(journal.lines)
        && StartedCount(after) >= StartedCount(journal.lines)
        && (written == Whole && row.line.Started? ==> StartedCount(after) == StartedCount(journal.lines) + 1)
  {
    if written == Nothing {
    } else if journal.open && journal.lines != [] {
      Snoc(Front(journal.lines), Unreadable);
    } else {
      Snoc(journal.lines, if written == Part || !OneLine(row) then Unreadable else row.line);
    }
  }

  lemma StepKeepsLimit(s: State, e: Event, maximum: nat)
    requires WithinLimit(s, maximum)
    ensures WithinLimit(Step(s, e, maximum), maximum)
  {
    match e
    case Start =>
    case Stream(id, text, written, _) => AppendKeepsCount(s.journal, Row(Started(id), text), written);
    case Finish(id, text, written) => AppendKeepsCount(s.journal, Row(Finished(id), text), written);
    case Crash =>
  }

  /** Over any starts, crashes and failed or torn appends, the streams ever sent
      stay within the limit. */
  lemma {:induction false} DispatchedWithinMaximum(journal: Journal, events: seq<Event>, maximum: nat)
    ensures WithinLimit(Run(Fresh(journal), events, maximum), maximum)
  {
    if events != [] {
      DispatchedWithinMaximum(journal, events[..|events| - 1], maximum);
      StepKeepsLimit(Run(Fresh(journal), events[..|events| - 1], maximum), events[|events| - 1], maximum);
    }
  }

  // ----- Runs without failed appends -----

  predicate Faultless(e: Event) {
    match e
    case Stream(_, _, written, returned) => written == Whole && returned
    case Finish(_, _, written) => written == Whole
    case _ => true
  }

  /** The count on disk is the count in the process is the number sent. */
  ghost predicate Exact(s: State) {
    && Replayable(s.journal.lines) && !s.journal.open
    && s.dispatched == StartedCount(s.journal.lines)
    && (s.used.Some? ==> s.used.value == s.dispatched)
  }

  function StreamIds(events: seq<Event>): set<string> {
    set e | e in events && e.Stream? :: e.id
  }

  /** Every request draws an identifier of its own. */
  predicate FreshIds(events: seq<Event>) {
    forall i, j :: 0 <= i < j < |events| && events[i].Stream? && events[j].Stream? ==> events[i].id != events[j].id
  }

  /** The row that a step writes, if it writes one. */
  function RowOf(s: State, e: Event, maximum: nat): Option<Row> {
    if e.Stream? && s.used.Some? && s.used.value < maximum then Some(Row(Started(e.id), e.text))
    else if e.Finish? && s.used.Some? then Some(Row(Finished(e.id), e.text))
    else None
  }

  /** No row written in this run holds a separator. */
  predicate RowsOnOneLine(s: State, events: seq<Event>, maximum: nat) {
    events == []
    || (&& RowsOnOneLine(s, events[..|events| - 1], maximum)
        && var row := RowOf(Run(s, events[..|events| - 1], maximum), events[|events| - 1], maximum);
           row.Some? ==> OneLine(row.value))
  }

  lemma WholeAppend(journal: Journal, row: Row)
    requires Replayable(journal.lines) && !journal.open && !row.line.Unreadable?
    requires IdsOf(row.line) !! StartedIds(journal.lines)
    ensures var after := Append(journal, row, Whole);
      && !after.open && (Replayable(after.lines) <==> OneLine(row))
      && StartedIds(after.lines) <= StartedIds(journal.lines) + IdsOf(row.line)
      && (OneLine(row) ==> StartedCount(after.lines) == StartedCount(journal.lines) + |IdsOf(row.line)|)
  {
    Snoc(journal.lines, if OneLine(row) then row.line else Unreadable);
  }

  /** An exact count stays exact over a faultless append, unless the row is broken. */
  lemma WholeAppendIsExact(s: State, row: Row, after: State)
    requires Exact(s) && s.used.Some? && !row.line.Unreadable? && IdsOf(row.line) !! StartedIds(s.journal.lines)
    requires after == State.State(Append(s.journal, row, Whole), Some(s.used.value + |IdsOf(row.line)|),
                                  s.dispatched + |IdsOf(row.line)|)
    ensures if OneLine(row) then Exact(after) else !Replayable(after.journal.lines)
    ensures StartedIds(after.journal.lines) <= StartedIds(s.journal.lines) + IdsOf(row.line)
  {
    WholeAppend(s.journal, row);
  }

  lemma FaultlessStepIsExact(s: State, e: Event, maximum: nat)
    requires Exact(s) && Faultless(e)
    requires e.Stream? ==> e.id !in StartedIds(s.journal.lines)
    ensures var row := RowOf(s, e, maximum);
      if row.Some? && !OneLine(row.value) then !Replayable(Step(s, e, maximum).journal.lines)
      else Exact(Step(s, e, maximum))
    ensures StartedIds(Step(s, e, maximum).journal.lines) <= StartedIds(s.journal.lines) + StreamIds([e])
  {
    var row := RowOf(s, e, maximum);
    if row.Some? {
      IdsOfRow(s, e, maximum);
      WholeAppendIsExact(s, row.value, Step(s, e, maximum));
    } else {
      assert Step(s, e, maximum).journal == s.journal;
    }
  }

  lemma IdsOfRow(s: State, e: Event, maximum: nat)
    requires RowOf(s, e, maximum).Some?
    ensures IdsOf(RowOf(s, e, maximum).value.line) <= StreamIds([e])
  {
    assert e in [e];
  }

  lemma StepStaysUnreadable(s: State, e: Event, maximum: nat)
    requires !Replayable(s.journal.lines)
    ensures !Replayable(Step(s, e, maximum).journal.lines)
  {
    match e
    case Start =>
    case Stream(id, text, written, _) => AppendKeepsCount(s.journal, Row(Started(id), text), written);
    case Finish(id, text, written) => AppendKeepsCount(s.journal, Row(Finished(id), text), written);
    case Crash =>
  }

  /** Without failed appends, however often the evaluation is stopped and resumed,
      the journal can be replayed if and only if no row written holds a separator,
      and then it replays to exactly the number of streams sent. */
  lemma {:induction false} FaultlessRunIsExact(events: seq<Event>, maximum: nat)
    requires (forall e :: e in events ==> Faultless(e)) && FreshIds(events)
    ensures var s, safe := Run(Fresh(Journal([], false)), events, maximum), RowsOnOneLine(Fresh(Journal([], false)), events, maximum);
      && (Replayable(s.journal.lines) <==> safe)
      && (safe ==> Exact(s) && StartedIds(s.journal.lines) <= StreamIds(events))
  {
    if events != [] {
      var n := |events| - 1;
      var earlier := events[..n];
      var s := Run(Fresh(Journal([], false)), earlier, maximum);
      assert events == earlier + [events[n]];
      FaultlessRunIsExact(earlier, maximum);
      FreshFront(events);
      if RowsOnOneLine(Fresh(Journal([], false)), earlier, maximum) {
        FaultlessStepIsExact(s, events[n], maximum);
      } else {
        StepStaysUnreadable(s, events[n], maximum);
      }
    }
  }

  lemma FreshFront(events: seq<Event>)
    requires FreshIds(events) && events != []
    ensures FreshIds(events[..|events| - 1])
    ensures var e := events[|events| - 1]; e.Stream? ==> e.id !in StreamIds(events[..|events| - 1])
  {
    var n := |events| - 1;
    var earlier := events[..n];
    assert forall i :: 0 <= i < n ==> earlier[i] == events[i];
    forall e | e in earlier && e.Stream?
      ensures events[n].Stream? ==> e.id != events[n].id
    {
      var i :| 0 <= i < n && earlier[i] == e;
      assert events[i] == e;
    }
  }

  /** One reply with a line separator, written without any fault, is enough that
      the next start is refused. */
  lemma SeparatorStopsResume(s: State, id: string, text: string, maximum: nat)
    requires Exact(s) && s.used.Some? && exists i :: 0 <= i < |text| && Separator(text[i])
    ensures Step(Step(s, Finish(id, text, Whole), maximum), Start, maximum).used == None
  {
    FaultlessStepIsExact(s, Finish(id, text, Whole), maximum);
  }

  // ----- What a failed append costs -----

  /** What a replay finds after one new round, for each way its append can end. */
  lemma ReplayedAppend(journal: Journal, row: Row, written: Written)
    requires Replayable(journal.lines) && !journal.open
    requires row.line.Started? && row.line.id !in StartedIds(journal.lines)
    ensures Replayed(Append(journal, row, written).lines) ==
            if written == Nothing then Some(StartedCount(journal.lines))
            else if written == Part || !OneLine(row) then None
            else Some(StartedCount(journal.lines) + 1)
  {
    var last := if written == Part || !OneLine(row) then Unreadable else row.line;
    if written != Nothing {
      assert Append(journal, row, written).lines == journal.lines + [last];
      Snoc(journal.lines, last);
    }
  }

  /** After one request and a restart: the count is exact if and only if nothing
      was written or the whole row went through; a round that was not sent is
      charged if and only if its row is complete although the append failed; and
      the journal is lost if and only if the row is cut or holds a separator. */
  lemma FailedAppendIsCharged(s: State, id: string, text: string, written: Written, returned: bool, maximum: nat)
    requires Exact(s) && s.used.Some? && s.used.value < maximum && id !in StartedIds(s.journal.lines)
    ensures var t := Step(Step(s, Stream(id, text, written, returned), maximum), Start, maximum);
      var safe := OneLine(Row(Started(id), text));
      && (t.used == Some(t.dispatched) <==> written == Nothing || (safe && written == Whole && returned))
      && (t.used == Some(t.dispatched + 1) <==> safe && (written == NoLineEnd || (written == Whole && !returned)))
      && (t.used == None <==> written == Part || (written != Nothing && !safe))
  {
    StreamLeaves(s, id, text, written, returned, maximum);
    ReplayedAppend(s.journal, Row(Started(id), text), written);
  }

  lemma StreamLeaves(s: State, id: string, text: string, written: Written, returned: bool, maximum: nat)
    requires s.used.Some? && s.used.value < maximum
    ensures var t := Step(s, Stream(id, text, written, returned), maximum);
      && t.journal == Append(s.journal, Row(Started(id), text), written)
      && t.dispatched == s.dispatched + if returned && written == Whole then 1 else 0
  {}

  /** An append that is cut off in the middle ends the evaluation for good: the
      journal is never replayable again, so no later process counts or sends. */
  lemma {:induction false} TornJournalStaysTorn(s: State, events: seq<Event>, maximum: nat)
    requires !Replayable(s.journal.lines) && s.used.None?
    ensures !Replayable(Run(s, events, maximum).journal.lines)
    ensures Run(s, events, maximum).used.None? && Run(s, events, maximum).dispatched == s.dispatched
  {
    if events != [] {
      TornJournalStaysTorn(s, events[..|events| - 1], maximum);
    }
  }

  lemma TornAppendIsUnreadable(journal: Journal, row: Row)
    ensures !Replayable(Append(journal, row, Part).lines)
  {
    if journal.open && journal.lines != [] {
      Snoc(Front(journal.lines), Unreadable);
    } else {
      Snoc(journal.lines, Unreadable);
    }
  }

  // ----- The provider -----

  class RecordedProvider {
    var journal: Journal
    var used: Option<nat>
    var dispatched: nat
    const maximum: nat

    /** What was sent, over all processes so far, is within the limit. */
    ghost predicate Valid()
      reads this
    {
      WithinLimit(Now(), maximum)
    }

    constructor (found: Journal, limit: nat)
      ensures Valid() && Now() == Fresh(found) && maximum == limit
    {
      journal, used, dispatched, maximum := found, None, 0, limit;
    }

    ghost function Now(): State
      reads this
    {
      State.State(journal, used, dispatched)
    }

    /** A process opens the journal and counts it. */
    method Open()
      requires Valid()
      modifies this
      ensures Valid() && Now() == Step(old(Now()), Start, maximum)
      ensures used.Some? ==> used.value >= dispatched
    {
      used := Replay(journal.lines);
    }

    method Write(row: Row, written: Written)
      modifies this
      ensures Now() == old(Now()).(journal := Append(old(journal), row, written))
    {
      journal := Append(journal, row, written);
    }

    /** One request: refused at the limit, else recorded, counted and sent. */
    method Stream(id: string, text: string, written: Written, returned: bool) returns (sent: bool)
      requires Valid()
      modifies this
      ensures Valid() && Now() == Step(old(Now()), Event.Stream(id, text, written, returned), maximum)
      ensures dispatched == old(dispatched) + (if sent then 1 else 0) && dispatched <= maximum
      ensures sent ==> old(dispatched) < maximum && journal != old(journal)
    {
      StepKeepsLimit(Now(), Event.Stream(id, text, written, returned), maximum);
      sent := false;
      if used.None? || used.value >= maximum {
        return;
      }
      Write(Row(Started(id), text), written);
      if !returned || written != Whole {
        return;
      }
      AppendChanges(old(journal), Row(Started(id), text));
      used := Some(used.value + 1);
      dispatched := dispatched + 1;
      sent := true;
    }

    method Finish(id: string, text: string, written: Written)
      requires Valid()
      modifies this`journal
      ensures Valid() && Now() == Step(old(Now()), Event.Finish(id, text, written), maximum)
      ensures Replayable(journal.lines) ==> StartedCount(journal.lines) >= dispatched
    {
      StepKeepsLimit(Now(), Event.Finish(id, text, written), maximum);
      if used.Some? {
        journal := Append(journal, Row(Finished(id), text), written);
      }
    }
  }

  lemma AppendChanges(journal: Journal, row: Row)
    ensures Append(journal, row, Whole) != journal
  {
    if journal.open && journal.lines != [] {
      assert !Append(journal, row, Whole).open;
    } else {
      assert |Append(journal, row, Whole).lines| == |journal.lines| + 1;
    }
  }
}
