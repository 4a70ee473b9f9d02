/** What one event does to the round journal, the running count and the number
    sent, said without the steps' own functions (tools/runtime_source_evaluation.py). */
module RoundRules {
  import opened Wrappers
  import opened RoundBudget

  /** NEL, line separator, paragraph separator. */
  predicate EndsLine(c: char) { c as int in {0x85, 0x2028, 0x2029} }

  predicate Breaks(text: string) { exists i :: 0 <= i < |text| && EndsLine(text[i]) }

  /** The line a row becomes: itself if its end reached the file and nothing in it
      ends a line, else one that cannot be read. */
  predicate Becomes(line: Line, row: Row, written: Written) {
    if written in {NoLineEnd, Whole} && !Breaks(row.text) then line == row.line else line == Unreadable
  }

  /** What an append leaves: nothing new, a spoilt last line, or one more line. The
      last line stays open unless the append was whole. */
  predicate AppendLeaves(before: Journal, row: Row, written: Written, after: Journal) {
    if written == Nothing then after == before
    else
      && after.lines != [] && (after.open <==> written in {Part, NoLineEnd})
      && var last := |after.lines| - 1;
         if before.open && before.lines != [] then
           |after.lines| == |before.lines| && after.lines[..last] == before.lines[..last] && after.lines[last] == Unreadable
         else
           after.lines[..last] == before.lines && Becomes(after.lines[last], row, written)
  }

  lemma AppendExactly(journal: Journal, row: Row, written: Written)
    ensures AppendLeaves(journal, row, written, Append(journal, row, written))
  {
    assert OneLine(row) <==> !Breaks(row.text) by {
      assert forall i :: 0 <= i < |row.text| ==> (Separator(row.text[i]) <==> EndsLine(row.text[i]));
    }
  }

  // ----- What a start counts -----

  /** The identifiers of the started rounds. */
  function Begun(lines: seq<Line>): set<string> {
    set i | 0 <= i < |lines| && lines[i].Started? :: lines[i].id
  }

  /** Every line can be read, and no round was started twice. */
  predicate Sound(lines: seq<Line>) {
    && Unreadable !in lines
    && forall i, j :: 0 <= i < j < |lines| && lines[i].Started? && lines[j].Started? ==> lines[i].id != lines[j].id
  }

  lemma BegunNext(front: seq<Line>, line: Line)
    ensures Begun(front + [line]) == Begun(front) + if line.Started? then {line.id} else {}
  {
    var lines := front + [line];
    assert forall i :: 0 <= i < |front| ==> lines[i] == front[i];
    assert lines[|front|] == line;
    forall id | id in Begun(front)
      ensures id in Begun(lines)
    {
      var i :| 0 <= i < |front| && front[i].Started? && front[i].id == id;
      assert lines[i].id == id;
    }
  }

  lemma {:induction false} CountBegun(lines: seq<Line>)
    requires Replayable(lines)
    ensures StartedIds(lines) == Begun(lines) && StartedCount(lines) == |Begun(lines)|
  {
    if lines != [] {
      hide Begun;
      var front, last := Front(lines), Last(lines);
      CountBegun(front);
      BegunNext(front, last);
      assert lines == front + [last];
    }
  }

  /** A start refuses the file exactly if it is not sound, and otherwise counts the
      different rounds in it. */
  lemma ReplayExactly(lines: seq<Line>)
    ensures Replayed(lines) == if Sound(lines) then Some(|Begun(lines)|) else None
  {
    ReplayableMeans(lines);
    assert Sound(lines) <==> Replayable(lines) by {
      assert forall i, j :: 0 <= i < j < |lines| ==>
        (RowsFit(lines[i], lines[j]) <==> (lines[i].Started? && lines[j].Started? ==> lines[i].id != lines[j].id));
    }
    if Replayable(lines) {
      CountBegun(lines);
    }
  }

  // ----- One event -----

  /** An event brings a row to the file: a started round while the running process
      has counted fewer than the maximum, a finished one while a process runs. */
  predicate Writes(s: State, e: Event, maximum: nat) {
    s.used.Some? && (e.Finish? || (e.Stream? && s.used.value < maximum))
  }

  /** A request is sent, and counted with it, if its row went through whole and the
      append returned; otherwise neither number moves. */
  predicate Goes(s: State, e: Event, maximum: nat) {
    e.Stream? && s.used.Some? && s.used.value < maximum && e.written == Whole && e.returned
  }

  /** Everything that one event may change. */
  predicate EventDoes(s: State, e: Event, maximum: nat, t: State) {
    && (t.dispatched == if Goes(s, e, maximum) then s.dispatched + 1 else s.dispatched)
    && (t.used == if e.Start? then (if Sound(s.journal.lines) then Some(|Begun(s.journal.lines)|) else None)
                  else if e.Crash? then None
                  else if Goes(s, e, maximum) then Some(s.used.value + 1)
                  else s.used)
    && (if Writes(s, e, maximum) then
          AppendLeaves(s.journal, Row(if e.Stream? then Started(e.id) else Finished(e.id), e.text), e.written, t.journal)
        else t.journal == s.journal)
  }

  lemma EventExactly(s: State, e: Event, maximum: nat)
    ensures EventDoes(s, e, maximum, Step(s, e, maximum))
  {
    hide Sound, Begun, Replayed, Append, AppendLeaves;
    ReplayExactly(s.journal.lines);
    if e.Stream? || e.Finish? {
      AppendExactly(s.journal, Row(if e.Stream? then Started(e.id) else Finished(e.id), e.text), e.written);
    }
  }

  /** From one state to the last, an event at a time. */
  ghost predicate IsRun(states: seq<State>, events: seq<Event>, maximum: nat) {
    && |states| == |events| + 1
    && forall i :: 0 <= i < |events| ==> EventDoes(states[i], events[i], maximum, states[i + 1])
  }

  lemma {:induction false} RunExactly(s: State, events: seq<Event>, maximum: nat) returns (states: seq<State>)
    ensures IsRun(states, events, maximum) && states[0] == s && states[|events|] == Run(s, events, maximum)
  {
    if events == [] {
      states := [s];
    } else {
      var n := |events| - 1;
      var earlier := RunExactly(s, events[..n], maximum);
      EventExactly(earlier[n], events[n], maximum);
      states := earlier + [Run(s, events, maximum)];
      forall i | 0 <= i < |events|
        ensures EventDoes(states[i], events[i], maximum, states[i + 1])
      {
        if i < n {
          assert events[..n][i] == events[i];
        }
      }
    }
  }
}
