/** Stopping and resuming an evaluation changes nothing that is asked: every run
    is compared with one that starts on an empty file and is never interrupted. */
module EvaluationResume {
  import opened Wrappers
  import opened EvaluationRunner

  const UNINTERRUPTED: nat -> Stop := k => Go

  // ----- The run that nothing interrupts -----

  function NextUp(cfg: Config, st: RunState, n: nat): RunState
    requires n < |cfg.slots|
  {
    if st.halted then st else TakeTurn(cfg, Seeded(cfg, st, n), n, Go)
  }

  /** The states it goes through. */
  function Trace(cfg: Config, n: nat): (states: seq<RunState>)
    requires n <= |cfg.slots|
    ensures |states| == n + 1
  {
    if n == 0 then [Start([])] else Trace(cfg, n - 1) + [NextUp(cfg, Trace(cfg, n - 1)[n - 1], n - 1)]
  }

  /** Where it stands after its first `n` slots, if it has not halted before. */
  function UpTo(cfg: Config, n: nat): RunState
    requires n <= |cfg.slots|
  {
    Trace(cfg, |cfg.slots|)[n]
  }

  lemma {:induction false} TraceNext(cfg: Config, m: nat, n: nat)
    requires m <= |cfg.slots| && n <= m
    ensures Trace(cfg, m)[0] == Start([])
    ensures n < m ==> Trace(cfg, m)[n + 1] == NextUp(cfg, Trace(cfg, m)[n], n)
  {
    if m > 0 {
      TraceNext(cfg, m - 1, if n < m then n else 0);
      if 0 < n == m - 1 {
        TraceNext(cfg, m - 1, 0);
      }
    }
  }

  lemma UpToStart(cfg: Config)
    ensures UpTo(cfg, 0) == Start([])
  {
    TraceNext(cfg, |cfg.slots|, 0);
  }

  lemma UpToNext(cfg: Config, n: nat, st: RunState) returns (next: RunState)
    requires n < |cfg.slots| && st == UpTo(cfg, n)
    ensures next == UpTo(cfg, n + 1) && (st.halted ==> next == st)
    ensures !st.halted ==> next == TakeTurn(cfg, Seeded(cfg, st, n), n, Go)
  {
    TraceNext(cfg, |cfg.slots|, n);
    next := NextUp(cfg, st, n);
  }

  lemma {:induction false} HaltedStays(cfg: Config, m: nat, n: nat, st: RunState)
    requires m <= n <= |cfg.slots| && st == UpTo(cfg, m) && st.halted
    ensures UpTo(cfg, n) == st
    decreases n - m
  {
    if m < n {
      var next := UpToNext(cfg, m, st);
      HaltedStays(cfg, m + 1, n, next);
    }
  }

  /** One more slot, seen from both ends of the run. */
  lemma FullRunStep(cfg: Config, n: nat, st: RunState, end: RunState) returns (next: RunState)
    requires n < |cfg.slots| && !st.halted && st == UpTo(cfg, n) && end == RunFrom(cfg, st, UNINTERRUPTED, n)
    ensures next == UpTo(cfg, n + 1)
    ensures if next.halted then next == end else end == RunFrom(cfg, next, UNINTERRUPTED, n + 1)
  {
    next := UpToNext(cfg, n, st);
    RunFromNext(cfg, st, UNINTERRUPTED, n, next);
  }

  lemma FullRun(cfg: Config)
    ensures Run(cfg, [], UNINTERRUPTED) == UpTo(cfg, |cfg.slots|)
  {
    UpToStart(cfg);
    var n, st, end := 0, Start([]), Run(cfg, [], UNINTERRUPTED);
    while n < |cfg.slots|
      invariant n <= |cfg.slots| && !st.halted && st == UpTo(cfg, n)
      invariant end == RunFrom(cfg, st, UNINTERRUPTED, n)
    {
      st := FullRunStep(cfg, n, st, end);
      n := n + 1;
      if st.halted {
        HaltedStays(cfg, n, |cfg.slots|, st);
        return;
      }
    }
  }

  lemma ReadAppended(lines: seq<Line>, key: string, reply: string, finish: string)
    requires ReadCompleted(lines).Some?
    ensures ReadCompleted(lines + [Record(key, reply, finish, true)]) ==
            Some(if finish in LISTED_FINISHES then ReadCompleted(lines).value[key := reply] else ReadCompleted(lines).value)
  {
    assert (lines + [Record(key, reply, finish, true)])[..|lines|] == lines;
  }

  // ----- One turn, spelled out -----

  function PromptAt(cfg: Config, st: RunState, n: nat): string
    requires n < |cfg.slots|
  {
    cfg.compile(cfg.slots[n].conversation, cfg.slots[n].turn, st.history)
  }

  function IssueAt(cfg: Config, st: RunState, n: nat): Issue
    requires n < |cfg.slots|
  {
    Issue(n, Key(cfg, n), PromptAt(cfg, st, n))
  }

  /** The key is in memory. */
  function Passed(cfg: Config, st: RunState, n: nat): RunState
    requires n < |cfg.slots| && Key(cfg, n) in st.completed
  {
    st.(history := st.history + Spoken(Key(cfg, n), cfg.slots[n].userText, st.completed[Key(cfg, n)]))
  }

  /** The slot is asked and gets this reply. */
  function Answered(cfg: Config, st: RunState, n: nat, reply: string, finish: string): RunState
    requires n < |cfg.slots|
  {
    RunState(st.lines + [Record(Key(cfg, n), reply, finish, true)], st.completed[Key(cfg, n) := reply],
             st.history + Spoken(Key(cfg, n), cfg.slots[n].userText, reply), st.issued + [IssueAt(cfg, st, n)], st.halted)
  }

  /** The run ends here. */
  function Halted(cfg: Config, st: RunState, n: nat, stop: Stop): RunState
    requires n < |cfg.slots|
  {
    st.(halted := true, issued := st.issued + if stop == StopBefore then [] else [IssueAt(cfg, st, n)])
  }

  /** A turn does one of three things. */
  datatype Turn = Pass | Answer(reply: string, finish: string) | Halt

  function TurnOf(cfg: Config, st: RunState, n: nat, stop: Stop): Turn
    requires n < |cfg.slots|
  {
    var response := cfg.provider(PromptAt(cfg, st, n));
    if Key(cfg, n) in st.completed then Pass
    else if stop == Go && Usable(response) then Answer(response.text, response.finish)
    else Halt
  }

  lemma TurnIs(cfg: Config, st: RunState, n: nat, stop: Stop)
    requires n < |cfg.slots|
    ensures TakeTurn(cfg, st, n, stop) ==
            match TurnOf(cfg, st, n, stop)
            case Pass => Passed(cfg, st, n)
            case Answer(reply, finish) => Answered(cfg, st, n, reply, finish)
            case Halt => Halted(cfg, st, n, stop)
  {}

  // ----- What the uninterrupted run leaves behind -----

  /** The answer to this prompt leaves no record that a later run reads. */
  predicate Forgotten(cfg: Config, prompt: string) {
    var response := cfg.provider(prompt);
    !(Usable(response) && response.finish in LISTED_FINISHES)
  }

  /** What a later run reads back. */
  function Saved(st: RunState): map<string, string> {
    if ReadCompleted(st.lines).Some? then ReadCompleted(st.lines).value else map[]
  }

  /** Of an issue: its key is in memory if it was answered, with the text of the
      answer, and read back later if it is not forgotten. */
  predicate RecordedIssue(cfg: Config, st: RunState, i: nat, n: nat)
    requires i < |st.issued|
  {
    var issue := st.issued[i];
    var response := cfg.provider(issue.prompt);
    && issue.slot < n <= |cfg.slots| && issue.key == Key(cfg, issue.slot)
    && (if Usable(response) then issue.key in st.completed && st.completed[issue.key] == response.text
        else st.halted && i + 1 == |st.issued| && issue.key !in st.completed)
    && (issue.key in Saved(st) <==> !Forgotten(cfg, issue.prompt))
  }

  predicate InOrder(issues: seq<Issue>, i: nat, j: nat)
    requires i < j < |issues|
  {
    issues[i].slot < issues[j].slot && issues[i].key != issues[j].key
  }

  ghost predicate AllInOrder(issues: seq<Issue>) { forall i, j :: 0 <= i < j < |issues| ==> InOrder(issues, i, j) }

  predicate AskedIfKnown(st: RunState, key: string) {
    key in st.completed ==> exists i :: 0 <= i < |st.issued| && st.issued[i].key == key
  }

  predicate Within(small: map<string, string>, big: map<string, string>) {
    forall key :: key in small ==> key in big && big[key] == small[key]
  }

  /** Slots are asked in order and no key twice, and every key in memory was asked. */
  ghost predicate Recorded(cfg: Config, st: RunState, n: nat) {
    && ReadCompleted(st.lines).Some? && Within(Saved(st), st.completed)
    && (forall i :: 0 <= i < |st.issued| ==> RecordedIssue(cfg, st, i, n))
    && AllInOrder(st.issued)
    && (forall key :: AskedIfKnown(st, key))
  }

  /** A new key was not asked before. */
  lemma OrderedNext(cfg: Config, st: RunState, n: nat, issue: Issue)
    requires n < |cfg.slots| && !st.halted && Recorded(cfg, st, n)
    requires issue.slot == n && issue.key == Key(cfg, n) && issue.key !in st.completed
    ensures AllInOrder(st.issued + [issue])
  {
    var issued := st.issued + [issue];
    forall i, j | 0 <= i < j < |issued|
      ensures InOrder(issued, i, j)
    {
      if j < |st.issued| {
        assert InOrder(st.issued, i, j);
      } else {
        assert RecordedIssue(cfg, st, i, n);
      }
    }
  }

  lemma KnownStayAsked(st: RunState, next: RunState, issue: Issue, key: string)
    requires next.issued == st.issued + [issue] && AskedIfKnown(st, key)
    requires key in next.completed ==> key in st.completed || key == issue.key
    ensures AskedIfKnown(next, key)
  {
    assert next.issued[|st.issued|] == issue;
    if key in next.completed && key != issue.key {
      var i :| 0 <= i < |st.issued| && st.issued[i].key == key;
      assert next.issued[i].key == key;
    }
  }

  /** A turn that asks, whatever the answer. */
  lemma AskedRecorded(cfg: Config, st: RunState, n: nat, next: RunState)
    requires n < |cfg.slots| && !st.halted && Recorded(cfg, st, n)
    requires next.issued == st.issued + [IssueAt(cfg, st, n)] && Key(cfg, n) !in st.completed
    requires Grown(st, next) && ReadCompleted(next.lines).Some? && Within(Saved(next), next.completed)
    requires forall key :: key != Key(cfg, n) ==> (key in next.completed <==> key in st.completed) && (key in Saved(next) <==> key in Saved(st))
    requires RecordedIssue(cfg, next, |st.issued|, n + 1)
    ensures Recorded(cfg, next, n + 1)
  {
    var m, issue := n + 1, IssueAt(cfg, st, n);
    OrderedNext(cfg, st, n, issue);
    forall i | 0 <= i < |next.issued|
      ensures RecordedIssue(cfg, next, i, m)
    {
      if i < |st.issued| {
        assert RecordedIssue(cfg, st, i, n) && InOrder(next.issued, i, |st.issued|);
      }
    }
    forall key
      ensures AskedIfKnown(next, key)
    {
      assert AskedIfKnown(st, key);
      KnownStayAsked(st, next, issue, key);
    }
  }

  lemma AnsweredRecorded(cfg: Config, st: RunState, n: nat, reply: string, finish: string)
    requires n < |cfg.slots| && !st.halted && Recorded(cfg, st, n) && TurnOf(cfg, st, n, Go) == Answer(reply, finish)
    ensures Recorded(cfg, Answered(cfg, st, n, reply, finish), n + 1)
  {
    var next := Answered(cfg, st, n, reply, finish);
    ReadAppended(st.lines, Key(cfg, n), reply, finish);
    AnsweredGrows(cfg, st, n, reply, finish);
    assert next.issued[|st.issued|] == IssueAt(cfg, st, n);
    assert RecordedIssue(cfg, next, |st.issued|, n + 1);
    AskedRecorded(cfg, st, n, next);
  }

  lemma HaltedRecorded(cfg: Config, st: RunState, n: nat)
    requires n < |cfg.slots| && !st.halted && Recorded(cfg, st, n) && TurnOf(cfg, st, n, Go) == Halt
    ensures Recorded(cfg, Halted(cfg, st, n, Go), n + 1)
  {
    AskedRecorded(cfg, st, n, Halted(cfg, st, n, Go));
  }

  lemma RecordedLater(cfg: Config, st: RunState, n: nat, history: seq<Entry>, m: nat)
    requires n <= m <= |cfg.slots| && Recorded(cfg, st, n)
    ensures Recorded(cfg, st.(history := history), m)
  {
    var next := st.(history := history);
    forall i | 0 <= i < |st.issued|
      ensures RecordedIssue(cfg, next, i, m)
    {
      assert RecordedIssue(cfg, st, i, n);
    }
    forall key
      ensures AskedIfKnown(next, key)
    {
      assert AskedIfKnown(st, key);
    }
  }

  lemma TurnRecorded(cfg: Config, st: RunState, n: nat)
    requires n < |cfg.slots| && !st.halted && Recorded(cfg, st, n)
    ensures Recorded(cfg, TakeTurn(cfg, st, n, Go), n + 1)
  {
    TurnIs(cfg, st, n, Go);
    match TurnOf(cfg, st, n, Go)
    case Pass => RecordedLater(cfg, st, n, Passed(cfg, st, n).history, n + 1);
    case Answer(reply, finish) => AnsweredRecorded(cfg, st, n, reply, finish);
    case Halt => HaltedRecorded(cfg, st, n);
  }

  /** What is remembered, saved and asked stays so. */
  predicate Grown(a: RunState, b: RunState) {
    Within(a.completed, b.completed) && Within(Saved(a), Saved(b)) && a.issued <= b.issued
  }

  lemma AnsweredGrows(cfg: Config, st: RunState, n: nat, reply: string, finish: string)
    requires n < |cfg.slots| && Key(cfg, n) !in st.completed
    requires ReadCompleted(st.lines).Some? && Within(Saved(st), st.completed)
    ensures Grown(st, Answered(cfg, st, n, reply, finish))
  {
    ReadAppended(st.lines, Key(cfg, n), reply, finish);
  }

  lemma TurnGrows(cfg: Config, st: RunState, n: nat)
    requires n < |cfg.slots| && ReadCompleted(st.lines).Some? && Within(Saved(st), st.completed)
    ensures Grown(st, TakeTurn(cfg, st, n, Go))
  {
    TurnIs(cfg, st, n, Go);
    var turn := TurnOf(cfg, st, n, Go);
    if turn.Answer? {
      AnsweredGrows(cfg, st, n, turn.reply, turn.finish);
    }
  }

  lemma RecordedStep(cfg: Config, n: nat, st: RunState) returns (next: RunState)
    requires n < |cfg.slots| && st == UpTo(cfg, n) && Recorded(cfg, st, n)
    ensures next == UpTo(cfg, n + 1) && Recorded(cfg, next, n + 1) && Grown(st, next)
  {
    next := UpToNext(cfg, n, st);
    if st.halted {
      RecordedLater(cfg, st, n, st.history, n + 1);
    } else {
      RecordedLater(cfg, st, n, Seeded(cfg, st, n).history, n);
      TurnRecorded(cfg, Seeded(cfg, st, n), n);
      TurnGrows(cfg, Seeded(cfg, st, n), n);
    }
  }

  lemma {:induction false} GrowsOn(cfg: Config, m: nat, n: nat, st: RunState, end: RunState)
    requires m <= n <= |cfg.slots| && st == UpTo(cfg, m) && end == UpTo(cfg, n) && Recorded(cfg, st, m)
    ensures Recorded(cfg, end, n) && Grown(st, end)
    decreases n - m
  {
    if m < n {
      var next := RecordedStep(cfg, m, st);
      GrowsOn(cfg, m + 1, n, next, end);
      GrownOn(st, next, end);
    }
  }

  lemma GrownOn(a: RunState, b: RunState, c: RunState)
    requires Grown(a, b) && Grown(b, c)
    ensures Grown(a, c)
  {}

  lemma StartRecorded(cfg: Config)
    ensures Recorded(cfg, Start([]), 0)
  {}

  /** The uninterrupted run asks every key at most once, remembers what was
      answered, and leaves a file that keeps exactly what is not forgotten; what it
      has asked, remembered and saved stays so. */
  lemma UpToGrows(cfg: Config, m: nat, n: nat)
    requires m <= n <= |cfg.slots|
    ensures Recorded(cfg, UpTo(cfg, m), m) && Recorded(cfg, UpTo(cfg, n), n) && Grown(UpTo(cfg, m), UpTo(cfg, n))
  {
    StartRecorded(cfg);
    UpToStart(cfg);
    GrowsOn(cfg, 0, m, Start([]), UpTo(cfg, m));
    GrowsOn(cfg, m, n, UpTo(cfg, m), UpTo(cfg, n));
  }

  // ----- A resumed run beside it -----

  /** The issues whose key was not read back. */
  function NotIn(issues: seq<Issue>, saved: map<string, string>): seq<Issue> {
    if issues == [] then []
    else
      var last := issues[|issues| - 1];
      NotIn(issues[..|issues| - 1], saved) + if last.key in saved then [] else [last]
  }

  lemma NotInSnoc(issues: seq<Issue>, last: Issue, saved: map<string, string>)
    ensures NotIn(issues + [last], saved) == if last.key in saved then NotIn(issues, saved) else NotIn(issues, saved) + [last]
  {
    assert (issues + [last])[..|issues|] == issues;
  }

  /** A run that read back `saved` stands where the uninterrupted run `u` does:
      memory holds both, and exactly the issues that were not read back were asked.
      The file reads as `kept`. */
  ghost predicate Beside(st: RunState, u: RunState, saved: map<string, string>, kept: map<string, string>) {
    && !st.halted && !u.halted && st.history == u.history
    && st.completed == saved + u.completed
    && st.issued == NotIn(u.issued, saved)
    && ReadCompleted(st.lines) == Some(kept)
  }

  lemma PassBeside(cfg: Config, st: RunState, u: RunState, n: nat, saved: map<string, string>, kept: map<string, string>)
    requires n < |cfg.slots| && Beside(st, u, saved, kept) && Key(cfg, n) in u.completed
    ensures Key(cfg, n) in st.completed && Beside(Passed(cfg, st, n), Passed(cfg, u, n), saved, kept)
  {}

  /** The slot was read back, and the uninterrupted run gets the same reply now. */
  lemma SkipBeside(cfg: Config, st: RunState, u: RunState, n: nat, saved: map<string, string>, kept: map<string, string>,
                   reply: string, finish: string)
    requires n < |cfg.slots| && Beside(st, u, saved, kept) && Key(cfg, n) !in u.completed
    requires Key(cfg, n) in saved && saved[Key(cfg, n)] == reply
    ensures Key(cfg, n) in st.completed && Beside(Passed(cfg, st, n), Answered(cfg, u, n, reply, finish), saved, kept)
  {
    NotInSnoc(u.issued, IssueAt(cfg, u, n), saved);
    assert saved + u.completed[Key(cfg, n) := reply] == saved + u.completed;
  }

  lemma AskBeside(cfg: Config, st: RunState, u: RunState, n: nat, saved: map<string, string>, kept: map<string, string>,
                  reply: string, finish: string)
    requires n < |cfg.slots| && Beside(st, u, saved, kept) && Key(cfg, n) !in u.completed && Key(cfg, n) !in saved
    ensures var kept' := if finish in LISTED_FINISHES then kept[Key(cfg, n) := reply] else kept;
      Beside(Answered(cfg, st, n, reply, finish), Answered(cfg, u, n, reply, finish), saved, kept')
  {
    NotInSnoc(u.issued, IssueAt(cfg, u, n), saved);
    ReadAppended(st.lines, Key(cfg, n), reply, finish);
    assert (saved + u.completed)[Key(cfg, n) := reply] == saved + u.completed[Key(cfg, n) := reply];
  }

  function Max(a: nat, b: nat): nat { if a < b then b else a }

  /** The resumed run started when the uninterrupted run's file of `m0` slots was
      read back, and stands before slot `n`. */
  ghost predicate Standing(cfg: Config, st: RunState, u: RunState, m0: nat, n: nat) {
    && m0 <= |cfg.slots| && n <= |cfg.slots| && u == UpTo(cfg, n)
    && Beside(st, u, Saved(UpTo(cfg, m0)), Saved(UpTo(cfg, Max(m0, n))))
  }

  /** It has ended with the slots before `n` passed, having asked what was missing
      among the issues of the first `asked` slots. */
  ghost predicate Ended(cfg: Config, st: RunState, m0: nat, n: nat, asked: nat) {
    && m0 <= |cfg.slots| && n <= asked <= n + 1 && asked <= |cfg.slots|
    && ReadCompleted(st.lines) == Some(Saved(UpTo(cfg, Max(m0, n))))
    && st.issued == NotIn(UpTo(cfg, asked).issued, Saved(UpTo(cfg, m0)))
  }

  /** How the two files and memories relate around slot `n`. */
  lemma Around(cfg: Config, m0: nat, n: nat, u: RunState, next: RunState)
    requires m0 <= |cfg.slots| && n < |cfg.slots| && u == UpTo(cfg, n) && next == UpTo(cfg, n + 1)
    ensures ReadCompleted(u.lines).Some?
    ensures m0 <= n ==> Within(Saved(UpTo(cfg, m0)), u.completed)
    ensures n < m0 ==> Grown(next, UpTo(cfg, m0)) && Within(Saved(UpTo(cfg, m0)), UpTo(cfg, m0).completed)
    ensures n < m0 && next.halted ==> UpTo(cfg, m0) == next
  {
    if m0 <= n {
      UpToGrows(cfg, m0, n);
    } else {
      UpToGrows(cfg, n, m0);
      UpToGrows(cfg, n + 1, m0);
      if next.halted {
        HaltedStays(cfg, n + 1, m0, next);
      }
    }
  }

  /** A slot that was read back and that `u` has not passed: `u` gets the reply
      that was saved, since the saved one comes from a later state of it. */
  lemma SavedReply(cfg: Config, u: RunState, n: nat, next: RunState, later: RunState) returns (reply: string, finish: string)
    requires n < |cfg.slots| && next == TakeTurn(cfg, u, n, Go) && Key(cfg, n) !in u.completed && Key(cfg, n) in Saved(later)
    requires Grown(next, later) && Within(Saved(later), later.completed) && (next.halted ==> later == next)
    ensures TurnOf(cfg, u, n, Go) == Answer(reply, finish) && Saved(later)[Key(cfg, n)] == reply
  {
    TurnIs(cfg, u, n, Go);
    assert TurnOf(cfg, u, n, Go).Answer?;
    reply, finish := TurnOf(cfg, u, n, Go).reply, TurnOf(cfg, u, n, Go).finish;
  }

  /** A slot that was not read back although the file covers it has a reply that is
      not read back. */
  lemma UnsavedReply(cfg: Config, u: RunState, n: nat, later: RunState, reply: string, finish: string)
    requires n < |cfg.slots| && ReadCompleted(u.lines).Some? && Key(cfg, n) !in Saved(later)
    requires Grown(Answered(cfg, u, n, reply, finish), later)
    ensures finish !in LISTED_FINISHES
  {
    ReadAppended(u.lines, Key(cfg, n), reply, finish);
  }

  /** A run that nothing interrupts ends where the uninterrupted one does. */
  ghost predicate EndedUnder(cfg: Config, st: RunState, stops: nat -> Stop, m0: nat, n: nat, asked: nat) {
    Ended(cfg, st, m0, n, asked) && (stops == UNINTERRUPTED ==> asked == |cfg.slots| || UpTo(cfg, asked).halted)
  }

  /** The three files of one slot: read back, before it and after it. */
  ghost predicate Files(cfg: Config, u: RunState, next: RunState, m0: nat, n: nat, base: RunState, kept: map<string, string>,
                        kept': map<string, string>) {
    && ReadCompleted(u.lines).Some?
    && (if n < m0 then
          && Grown(next, base) && Within(Saved(base), base.completed) && (next.halted ==> base == next)
          && kept == kept' == Saved(base)
        else
          Within(Saved(base), u.completed) && kept == Saved(u) && kept' == Saved(next))
  }

  /** What one slot of both runs has to leave: they go on side by side, or the
      resumed one has ended. */
  ghost predicate BothTaken(t: RunState, u: RunState, next: RunState, stop: Stop, saved: map<string, string>,
                            kept: map<string, string>, kept': map<string, string>) {
    if t.halted then
      && ReadCompleted(t.lines) == Some(kept) && (stop == Go ==> next.halted)
      && t.issued == NotIn(if stop == StopBefore then u.issued else next.issued, saved)
    else
      Beside(t, next, saved, kept')
  }

  lemma BothAsk(cfg: Config, st: RunState, u: RunState, n: nat, m0: nat, base: RunState, next: RunState,
                kept: map<string, string>, kept': map<string, string>, reply: string, finish: string)
    requires n < |cfg.slots| && Key(cfg, n) !in u.completed && Key(cfg, n) !in Saved(base)
    requires next == Answered(cfg, u, n, reply, finish)
    requires Beside(st, u, Saved(base), kept) && Files(cfg, u, next, m0, n, base, kept, kept')
    ensures Beside(Answered(cfg, st, n, reply, finish), next, Saved(base), kept')
  {
    AskBeside(cfg, st, u, n, Saved(base), kept, reply, finish);
    ReadAppended(u.lines, Key(cfg, n), reply, finish);
    if n < m0 {
      UnsavedReply(cfg, u, n, base, reply, finish);
    }
  }

  lemma BothHalt(cfg: Config, st: RunState, u: RunState, n: nat, stop: Stop, next: RunState, saved: map<string, string>,
                 kept: map<string, string>, kept': map<string, string>)
    requires n < |cfg.slots| && Beside(st, u, saved, kept) && Key(cfg, n) !in saved && Key(cfg, n) !in u.completed
    requires next.issued == u.issued + [IssueAt(cfg, u, n)] && (stop == Go ==> next.halted)
    ensures BothTaken(Halted(cfg, st, n, stop), u, next, stop, saved, kept, kept')
  {
    NotInSnoc(u.issued, IssueAt(cfg, u, n), saved);
  }

  lemma BothTurns(cfg: Config, st: RunState, u: RunState, n: nat, stop: Stop, m0: nat, base: RunState, next: RunState,
                  kept: map<string, string>, kept': map<string, string>)
    requires n < |cfg.slots| && next == TakeTurn(cfg, u, n, Go)
    requires Beside(st, u, Saved(base), kept) && Files(cfg, u, next, m0, n, base, kept, kept')
    ensures BothTaken(TakeTurn(cfg, st, n, stop), u, next, stop, Saved(base), kept, kept')
  {
    TurnIs(cfg, st, n, stop);
    TurnIs(cfg, u, n, Go);
    if Key(cfg, n) in u.completed {
      PassBeside(cfg, st, u, n, Saved(base), kept);
    } else if Key(cfg, n) in Saved(base) {
      var reply, finish := SavedReply(cfg, u, n, next, base);
      SkipBeside(cfg, st, u, n, Saved(base), kept, reply, finish);
    } else {
      var turn := TurnOf(cfg, u, n, Go);
      if stop == Go && turn.Answer? {
        BothAsk(cfg, st, u, n, m0, base, next, kept, kept', turn.reply, turn.finish);
      } else {
        BothHalt(cfg, st, u, n, stop, next, Saved(base), kept, kept');
      }
    }
  }

  lemma FilesAt(cfg: Config, m0: nat, n: nat, u: RunState, next: RunState)
    requires m0 <= |cfg.slots| && n < |cfg.slots| && u == UpTo(cfg, n) && next == UpTo(cfg, n + 1)
    ensures Files(cfg, Seeded(cfg, u, n), next, m0, n, UpTo(cfg, m0), Saved(UpTo(cfg, Max(m0, n))),
                  Saved(UpTo(cfg, Max(m0, n + 1))))
  {
    Around(cfg, m0, n, u, next);
  }

  lemma NextSlot(cfg: Config, st: RunState, u: RunState, stops: nat -> Stop, m0: nat, n: nat, end: RunState)
    returns (next: RunState, u': RunState, asked: nat)
    requires n < |cfg.slots| && Standing(cfg, st, u, m0, n) && end == RunFrom(cfg, st, stops, n)
    ensures if next.halted then EndedUnder(cfg, end, stops, m0, n, asked)
            else Standing(cfg, next, u', m0, n + 1) && end == RunFrom(cfg, next, stops, n + 1)
  {
    next := TakeTurn(cfg, Seeded(cfg, st, n), n, stops(n));
    asked := if stops(n) == StopBefore then n else n + 1;
    u' := UpToNext(cfg, n, u);
    FilesAt(cfg, m0, n, u, u');
    var kept, kept' := Saved(UpTo(cfg, Max(m0, n))), Saved(UpTo(cfg, Max(m0, n + 1)));
    BothTurns(cfg, Seeded(cfg, st, n), Seeded(cfg, u, n), n, stops(n), m0, UpTo(cfg, m0), u', kept, kept');
    RunFromNext(cfg, st, stops, n, next);
  }

  lemma StartStands(cfg: Config, lines: seq<Line>, m0: nat)
    requires m0 <= |cfg.slots| && ReadCompleted(lines) == Some(Saved(UpTo(cfg, m0)))
    ensures Standing(cfg, Start(lines), Start([]), m0, 0)
  {
    var saved := Saved(UpTo(cfg, m0));
    UpToStart(cfg);
    assert saved + map[] == saved;
  }

  lemma StandingAtEnd(cfg: Config, st: RunState, u: RunState, stops: nat -> Stop, m0: nat)
    requires Standing(cfg, st, u, m0, |cfg.slots|)
    ensures EndedUnder(cfg, st, stops, m0, |cfg.slots|, |cfg.slots|)
  {}

  lemma {:induction false} GoesOn(cfg: Config, st: RunState, u: RunState, stops: nat -> Stop, m0: nat, k: nat, end: RunState)
    returns (n: nat, asked: nat)
    requires k <= |cfg.slots| && Standing(cfg, st, u, m0, k) && end == RunFrom(cfg, st, stops, k)
    ensures EndedUnder(cfg, end, stops, m0, n, asked)
    decreases |cfg.slots| - k
  {
    if k == |cfg.slots| {
      StandingAtEnd(cfg, st, u, stops, m0);
      return k, k;
    }
    var next, u';
    n := k;
    next, u', asked := NextSlot(cfg, st, u, stops, m0, k, end);
    if !next.halted {
      n, asked := GoesOn(cfg, next, u', stops, m0, k + 1, end);
    }
  }

  /** One run on a file that reads as that of the uninterrupted run after `m0`
      slots: it asks, in order, exactly the issues of the uninterrupted run that
      were not read back, up to where it ends, and leaves such a file again. */
  lemma RunEnds(cfg: Config, lines: seq<Line>, stops: nat -> Stop, m0: nat) returns (n: nat, asked: nat)
    requires m0 <= |cfg.slots| && ReadCompleted(lines) == Some(Saved(UpTo(cfg, m0)))
    ensures EndedUnder(cfg, Run(cfg, lines, stops), stops, m0, n, asked)
  {
    StartStands(cfg, lines, m0);
    n, asked := GoesOn(cfg, Start(lines), Start([]), stops, m0, 0, Run(cfg, lines, stops));
  }

  // ----- Any sequence of stopped and resumed runs -----

  /** The results file after a sequence of runs, each stopped in its own way. */
  function FileAfter(cfg: Config, runs: seq<nat -> Stop>): seq<Line> {
    if runs == [] then []
    else
      var lines := FileAfter(cfg, runs[..|runs| - 1]);
      if ReadCompleted(lines).None? then lines else Run(cfg, lines, runs[|runs| - 1]).lines
  }

  /** What the last of these runs asks. */
  function AskedBy(cfg: Config, runs: seq<nat -> Stop>): seq<Issue>
    requires runs != []
  {
    var lines := FileAfter(cfg, runs[..|runs| - 1]);
    if ReadCompleted(lines).None? then [] else Run(cfg, lines, runs[|runs| - 1]).issued
  }

  /** After any sequence of stopped and resumed runs the file reads as that of the
      uninterrupted run after some number of slots. */
  lemma {:induction false} FileIsOfOneRun(cfg: Config, runs: seq<nat -> Stop>) returns (m: nat)
    ensures m <= |cfg.slots| && ReadCompleted(FileAfter(cfg, runs)) == Some(Saved(UpTo(cfg, m)))
    decreases |runs|
  {
    if runs == [] {
      UpToStart(cfg);
      m := 0;
    } else {
      var m0 := FileIsOfOneRun(cfg, runs[..|runs| - 1]);
      var n, asked := RunEnds(cfg, FileAfter(cfg, runs[..|runs| - 1]), runs[|runs| - 1], m0);
      m := Max(m0, n);
    }
  }

  lemma {:induction false} NotInAt(issues: seq<Issue>, saved: map<string, string>, k: nat)
    requires k < |NotIn(issues, saved)|
    ensures NotIn(issues, saved)[k] in issues && NotIn(issues, saved)[k].key !in saved
  {
    var front := issues[..|issues| - 1];
    if k < |NotIn(front, saved)| {
      NotInAt(front, saved, k);
    }
  }

  /** What a resumed run asks: in order, exactly those of the first issues of the
      uninterrupted run whose keys the file does not hold as completed. */
  lemma ResumeAsksMissing(cfg: Config, runs: seq<nat -> Stop>) returns (a: nat)
    requires runs != []
    ensures var saved, full := ReadCompleted(FileAfter(cfg, runs[..|runs| - 1])), Run(cfg, [], UNINTERRUPTED).issued;
      saved.Some? && a <= |full| && AskedBy(cfg, runs) == NotIn(full[..a], saved.value)
  {
    var m0 := FileIsOfOneRun(cfg, runs[..|runs| - 1]);
    var n, asked := RunEnds(cfg, FileAfter(cfg, runs[..|runs| - 1]), runs[|runs| - 1], m0);
    FullRun(cfg);
    UpToGrows(cfg, asked, |cfg.slots|);
    a := |UpTo(cfg, asked).issued|;
    assert UpTo(cfg, |cfg.slots|).issued[..a] == UpTo(cfg, asked).issued;
  }

  /** Everything asked in any sequence of stopped and resumed runs is asked by one
      uninterrupted run: the same slot with the same key and the same prompt. */
  lemma ResumeAsksTheSame(cfg: Config, runs: seq<nat -> Stop>, k: nat)
    requires runs != [] && k < |AskedBy(cfg, runs)|
    ensures AskedBy(cfg, runs)[k] in Run(cfg, [], UNINTERRUPTED).issued
  {
    var a := ResumeAsksMissing(cfg, runs);
    NotInAt(Run(cfg, [], UNINTERRUPTED).issued[..a], ReadCompleted(FileAfter(cfg, runs[..|runs| - 1])).value, k);
  }

  /** A slot whose key the file holds as completed is never asked again. */
  lemma CompletedIsNotAskedAgain(cfg: Config, runs: seq<nat -> Stop>, k: nat)
    requires runs != [] && k < |AskedBy(cfg, runs)|
    ensures ReadCompleted(FileAfter(cfg, runs[..|runs| - 1])).Some?
    ensures AskedBy(cfg, runs)[k].key !in ReadCompleted(FileAfter(cfg, runs[..|runs| - 1])).value
  {
    var a := ResumeAsksMissing(cfg, runs);
    NotInAt(Run(cfg, [], UNINTERRUPTED).issued[..a], ReadCompleted(FileAfter(cfg, runs[..|runs| - 1])).value, k);
  }

  // ----- The same place -----

  /** Every slot so far was asked at its own index. */
  ghost predicate Consecutive(st: RunState, n: nat) {
    && (!st.halted ==> |st.issued| == n)
    && forall i :: 0 <= i < |st.issued| ==> st.issued[i].slot == i
  }

  lemma ConsecutiveTurn(cfg: Config, st: RunState, n: nat)
    requires KeysDistinct(cfg) && n < |cfg.slots| && !st.halted && Recorded(cfg, st, n) && Consecutive(st, n)
    ensures Consecutive(TakeTurn(cfg, st, n, Go), n + 1)
  {
    TurnIs(cfg, st, n, Go);
    assert AskedIfKnown(st, Key(cfg, n));
    forall i | 0 <= i < |st.issued|
      ensures st.issued[i].key != Key(cfg, n)
    {
      assert RecordedIssue(cfg, st, i, n);
    }
  }

  lemma {:induction false} UpToConsecutive(cfg: Config, n: nat, st: RunState)
    requires KeysDistinct(cfg) && n <= |cfg.slots| && st == UpTo(cfg, n)
    ensures Consecutive(st, n)
  {
    UpToStart(cfg);
    if n > 0 {
      var earlier := UpTo(cfg, n - 1);
      UpToConsecutive(cfg, n - 1, earlier);
      var next := UpToNext(cfg, n - 1, earlier);
      if !earlier.halted {
        UpToGrows(cfg, n - 1, n - 1);
        RecordedLater(cfg, earlier, n - 1, Seeded(cfg, earlier, n - 1).history, n - 1);
        ConsecutiveTurn(cfg, Seeded(cfg, earlier, n - 1), n - 1);
      }
    }
  }

  /** If the keys of the slots differ, it is asked at the same place. */
  lemma ResumeAsksInPlace(cfg: Config, runs: seq<nat -> Stop>, k: nat)
    requires KeysDistinct(cfg) && runs != [] && k < |AskedBy(cfg, runs)|
    ensures var issue, full := AskedBy(cfg, runs)[k], Run(cfg, [], UNINTERRUPTED).issued;
      issue.slot < |full| && full[issue.slot] == issue
  {
    ResumeAsksTheSame(cfg, runs, k);
    FullRun(cfg);
    UpToConsecutive(cfg, |cfg.slots|, UpTo(cfg, |cfg.slots|));
  }

  // ----- What the file holds -----

  /** The file of the uninterrupted run after `n` slots holds exactly the keys of
      its issues that were answered with a listed finish reason, with the answers. */
  lemma FileMeans(cfg: Config, n: nat, key: string)
    requires n <= |cfg.slots|
    ensures var st := UpTo(cfg, n);
      && (key in Saved(st) <==> exists i :: 0 <= i < |st.issued| && KeptAs(cfg, st.issued[i], key))
      && (forall i :: 0 <= i < |st.issued| && KeptAs(cfg, st.issued[i], key) ==>
            key in Saved(st) && Saved(st)[key] == cfg.provider(st.issued[i].prompt).text)
  {
    var st := UpTo(cfg, n);
    UpToGrows(cfg, n, n);
    assert AskedIfKnown(st, key);
    if key in Saved(st) {
      var i :| 0 <= i < |st.issued| && st.issued[i].key == key;
      assert RecordedIssue(cfg, st, i, n) && KeptAs(cfg, st.issued[i], key);
    }
    forall i | 0 <= i < |st.issued| && KeptAs(cfg, st.issued[i], key)
      ensures key in Saved(st) && Saved(st)[key] == cfg.provider(st.issued[i].prompt).text
    {
      assert RecordedIssue(cfg, st, i, n);
    }
  }

  predicate KeptAs(cfg: Config, issue: Issue, key: string) { issue.key == key && !Forgotten(cfg, issue.prompt) }

  predicate Kept(cfg: Config, issues: seq<Issue>, i: nat)
    requires i < |issues|
  {
    !Forgotten(cfg, issues[i].prompt)
  }

  /** No reply that is not read back came before one that is. */
  ghost predicate NoGap(cfg: Config, issues: seq<Issue>) {
    forall i, j :: 0 <= i < j < |issues| && Kept(cfg, issues, j) ==> Kept(cfg, issues, i)
  }

  /** What is asked after slot `m` belongs to later slots. */
  lemma {:induction false} LaterSlots(cfg: Config, m: nat, n: nat, i: nat)
    requires m <= n <= |cfg.slots| && |UpTo(cfg, m).issued| <= i < |UpTo(cfg, n).issued|
    ensures UpTo(cfg, n).issued[i].slot >= m
  {
    if m < n {
      var st := UpTo(cfg, n - 1);
      var next := UpToNext(cfg, n - 1, st);
      if !st.halted {
        TurnIs(cfg, Seeded(cfg, st, n - 1), n - 1, Go);
      }
      if i < |st.issued| {
        LaterSlots(cfg, m, n - 1, i);
      }
    }
  }

  /** Of an issue before the first forgotten one, and of one after it. */
  lemma AtGap(cfg: Config, m: nat, p: nat, f: nat, i: nat)
    requires p <= m <= |cfg.slots| && f < |UpTo(cfg, m).issued| && UpTo(cfg, m).issued[f].slot == p
    requires i < |UpTo(cfg, m).issued|
    ensures UpTo(cfg, p).issued <= UpTo(cfg, m).issued && (i < f <==> i < |UpTo(cfg, p).issued|)
  {
    var st, early := UpTo(cfg, m), UpTo(cfg, p);
    UpToGrows(cfg, p, m);
    forall l | 0 <= l < |early.issued|
      ensures early.issued[l].slot < p
    {
      assert RecordedIssue(cfg, early, l, p);
    }
    if i < f {
      assert InOrder(st.issued, i, f);
      if i >= |early.issued| {
        LaterSlots(cfg, p, m, i);
      }
    } else if f < i {
      assert InOrder(st.issued, f, i);
    }
  }

  /** What is in the file: the keys of the first `f` issues, with their answers. */
  ghost predicate HoldsFirst(cfg: Config, m: map<string, string>, issues: seq<Issue>, f: nat) {
    && f <= |issues|
    && (forall i :: 0 <= i < f ==> AnswerIn(cfg, m, issues, i))
    && (forall key :: key in m ==> FirstHas(issues, f, key))
  }

  predicate AnswerIn(cfg: Config, m: map<string, string>, issues: seq<Issue>, i: nat)
    requires i < |issues|
  {
    var response := cfg.provider(issues[i].prompt);
    response.Response? && issues[i].key in m && m[issues[i].key] == response.text
  }

  predicate FirstHas(issues: seq<Issue>, f: nat, key: string)
    requires f <= |issues|
  {
    exists i :: 0 <= i < f && issues[i].key == key
  }

  lemma HoldsFirstOnce(cfg: Config, a: map<string, string>, b: map<string, string>, issues: seq<Issue>, f: nat)
    requires HoldsFirst(cfg, a, issues, f) && HoldsFirst(cfg, b, issues, f)
    ensures a == b
  {
    HoldsFirstWithin(cfg, a, b, issues, f);
    HoldsFirstWithin(cfg, b, a, issues, f);
  }

  lemma HoldsFirstWithin(cfg: Config, a: map<string, string>, b: map<string, string>, issues: seq<Issue>, f: nat)
    requires HoldsFirst(cfg, a, issues, f) && HoldsFirst(cfg, b, issues, f)
    ensures Within(a, b)
  {
    forall key | key in a
      ensures key in b && b[key] == a[key]
    {
      assert FirstHas(issues, f, key);
      var i :| 0 <= i < f && issues[i].key == key;
      assert AnswerIn(cfg, a, issues, i) && AnswerIn(cfg, b, issues, i);
    }
  }

  lemma SavedHoldsFirst(cfg: Config, m: nat, f: nat)
    requires m <= |cfg.slots| && f <= |UpTo(cfg, m).issued|
    requires forall i :: 0 <= i < |UpTo(cfg, m).issued| ==> (Kept(cfg, UpTo(cfg, m).issued, i) <==> i < f)
    ensures HoldsFirst(cfg, Saved(UpTo(cfg, m)), UpTo(cfg, m).issued, f)
  {
    var st := UpTo(cfg, m);
    UpToGrows(cfg, m, m);
    forall i | 0 <= i < f
      ensures AnswerIn(cfg, Saved(st), st.issued, i)
    {
      assert RecordedIssue(cfg, st, i, m) && Kept(cfg, st.issued, i);
    }
    forall key | key in Saved(st)
      ensures FirstHas(st.issued, f, key)
    {
      FileMeans(cfg, m, key);
      var i :| 0 <= i < |st.issued| && KeptAs(cfg, st.issued[i], key);
      assert Kept(cfg, st.issued, i);
    }
  }

  lemma MemoryHoldsFirst(cfg: Config, m: nat, issues: seq<Issue>)
    requires m <= |cfg.slots| && UpTo(cfg, m).issued <= issues
    requires forall i :: 0 <= i < |UpTo(cfg, m).issued| ==> Kept(cfg, issues, i)
    ensures HoldsFirst(cfg, UpTo(cfg, m).completed, issues, |UpTo(cfg, m).issued|)
  {
    var st := UpTo(cfg, m);
    UpToGrows(cfg, m, m);
    forall i | 0 <= i < |st.issued|
      ensures AnswerIn(cfg, st.completed, issues, i)
    {
      assert RecordedIssue(cfg, st, i, m) && Kept(cfg, issues, i);
    }
    forall key | key in st.completed
      ensures FirstHas(issues, |st.issued|, key)
    {
      assert AskedIfKnown(st, key);
      var i :| 0 <= i < |st.issued| && st.issued[i].key == key;
      assert issues[i].key == key;
    }
  }

  lemma NoGapIsPrefix(cfg: Config, m: nat) returns (p: nat)
    requires m <= |cfg.slots| && NoGap(cfg, UpTo(cfg, m).issued)
    ensures p <= |cfg.slots| && Saved(UpTo(cfg, m)) == UpTo(cfg, p).completed
  {
    var issues, f := UpTo(cfg, m).issued, 0;
    while f < |issues| && Kept(cfg, issues, f)
      invariant f <= |issues| && forall i :: 0 <= i < f ==> Kept(cfg, issues, i)
    {
      f := f + 1;
    }
    SavedHoldsFirst(cfg, m, f);
    p := m;
    UpToGrows(cfg, m, m);
    if f < |issues| {
      assert RecordedIssue(cfg, UpTo(cfg, m), f, m);
      p := issues[f].slot;
      AtGap(cfg, m, p, f, f);
      if f > 0 {
        AtGap(cfg, m, p, f, f - 1);
      }
    }
    MemoryHoldsFirst(cfg, p, issues);
    HoldsFirstOnce(cfg, Saved(UpTo(cfg, m)), UpTo(cfg, p).completed, issues, f);
  }

  lemma PrefixHasNoGap(cfg: Config, m: nat, p: nat)
    requires m <= |cfg.slots| && p <= |cfg.slots| && Saved(UpTo(cfg, m)) == UpTo(cfg, p).completed
    ensures NoGap(cfg, UpTo(cfg, m).issued)
  {
    var st, early := UpTo(cfg, m), UpTo(cfg, p);
    var all := UpTo(cfg, |cfg.slots|).issued;
    UpToGrows(cfg, m, |cfg.slots|);
    UpToGrows(cfg, p, |cfg.slots|);
    forall i, j | 0 <= i < j < |st.issued| && Kept(cfg, st.issued, j)
      ensures Kept(cfg, st.issued, i)
    {
      assert RecordedIssue(cfg, st, j, m) && RecordedIssue(cfg, st, i, m) && AskedIfKnown(early, st.issued[j].key);
      var l :| 0 <= l < |early.issued| && early.issued[l].key == st.issued[j].key;
      assert all[l] == early.issued[l] && all[j] == st.issued[j] && all[i] == st.issued[i];
      assert (l < j ==> InOrder(all, l, j)) && (j < l ==> InOrder(all, j, l));
      assert RecordedIssue(cfg, early, i, p);
    }
  }

  /** After any sequence of runs: the file holds what memory held at some slot of the
      uninterrupted run if and only if no reply that is not read back came before
      one that is. */
  lemma CompletedIsPrefixExactly(cfg: Config, runs: seq<nat -> Stop>) returns (m: nat)
    ensures m <= |cfg.slots| && ReadCompleted(FileAfter(cfg, runs)) == Some(Saved(UpTo(cfg, m)))
    ensures (exists p: nat :: p <= |cfg.slots| && Saved(UpTo(cfg, m)) == UpTo(cfg, p).completed)
            <==> NoGap(cfg, UpTo(cfg, m).issued)
  {
    m := FileIsOfOneRun(cfg, runs);
    if NoGap(cfg, UpTo(cfg, m).issued) {
      var p := NoGapIsPrefix(cfg, m);
    }
    forall p: nat | p <= |cfg.slots| && Saved(UpTo(cfg, m)) == UpTo(cfg, p).completed
      ensures NoGap(cfg, UpTo(cfg, m).issued)
    {
      PrefixHasNoGap(cfg, m, p);
    }
  }

  // ----- What a finished evaluation asks again -----

  function ForgottenOf(cfg: Config, issues: seq<Issue>): seq<Issue> {
    if issues == [] then []
    else
      var last := issues[|issues| - 1];
      ForgottenOf(cfg, issues[..|issues| - 1]) + if Forgotten(cfg, last.prompt) then [last] else []
  }

  lemma {:induction false} NotInIsForgotten(cfg: Config, issues: seq<Issue>, saved: map<string, string>)
    requires forall i :: 0 <= i < |issues| ==> (issues[i].key in saved <==> !Forgotten(cfg, issues[i].prompt))
    ensures NotIn(issues, saved) == ForgottenOf(cfg, issues)
  {
    if issues != [] {
      NotInIsForgotten(cfg, issues[..|issues| - 1], saved);
    }
  }

  /** A run that was not interrupted, followed by another: the second asks again,
      in order, exactly the issues whose reply was not usable or finished for an
      unlisted reason, although the first carried the latter on as answered. */
  lemma SecondRunAsksForgotten(cfg: Config)
    ensures var first := Run(cfg, [], UNINTERRUPTED);
      && ReadCompleted(first.lines).Some?
      && Run(cfg, first.lines, UNINTERRUPTED).issued == ForgottenOf(cfg, first.issued)
  {
    var all := |cfg.slots|;
    var first := UpTo(cfg, all);
    FullRun(cfg);
    UpToGrows(cfg, all, all);
    var n, asked := RunEnds(cfg, first.lines, UNINTERRUPTED, all);
    if asked < all {
      HaltedStays(cfg, asked, all, UpTo(cfg, asked));
    }
    forall i | 0 <= i < |first.issued|
      ensures first.issued[i].key in Saved(first) <==> !Forgotten(cfg, first.issued[i].prompt)
    {
      assert RecordedIssue(cfg, first, i, all);
    }
    NotInIsForgotten(cfg, first.issued, Saved(first));
  }

  // ----- What a prompt is compiled from -----

  /** The seed of the conversation and what was said in its turns before slot `n`. */
  function TurnsBefore(cfg: Config, memory: map<string, string>, n: nat): seq<Entry>
    requires n < |cfg.slots|
  {
    if cfg.slots[n].turn == 0 then cfg.slots[n].conversation.scenario.seedHistory
    else if n == 0 then []
    else
      var key := Key(cfg, n - 1);
      TurnsBefore(cfg, memory, n - 1) + Spoken(key, cfg.slots[n - 1].userText, if key in memory then memory[key] else "")
  }

  lemma SpokenNext(cfg: Config, st: RunState, next: RunState, n: nat, memory: map<string, string>)
    requires n + 1 < |cfg.slots| && next == TakeTurn(cfg, Seeded(cfg, st, n), n, Go) && !next.halted
    requires Seeded(cfg, st, n).history == TurnsBefore(cfg, memory, n) && Within(next.completed, memory)
    ensures Seeded(cfg, next, n + 1).history == TurnsBefore(cfg, memory, n + 1)
  {
    TurnIs(cfg, Seeded(cfg, st, n), n, Go);
    assert Key(cfg, n) in next.completed;
  }

  /** Every prompt of the uninterrupted run is compiled from the seed of its
      conversation and the turns before, with the replies it ends up remembering. */
  lemma {:induction false} PromptsFollowConversation(cfg: Config, n: nat)
    requires n < |cfg.slots| && !UpTo(cfg, n).halted
    ensures Seeded(cfg, UpTo(cfg, n), n).history == TurnsBefore(cfg, UpTo(cfg, |cfg.slots|).completed, n)
  {
    UpToStart(cfg);
    if n > 0 {
      var st := UpTo(cfg, n - 1);
      var next := UpToNext(cfg, n - 1, st);
      PromptsFollowConversation(cfg, n - 1);
      UpToGrows(cfg, n, |cfg.slots|);
      SpokenNext(cfg, st, next, n - 1, UpTo(cfg, |cfg.slots|).completed);
    }
  }
}
