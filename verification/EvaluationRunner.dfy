/** The stop/resume evaluation run: the slots in loop order, the results file,
    one run over them, and the reference run that was never interrupted
    (tools/evaluate_character_scenarios.py). */
module EvaluationRunner {
  import opened Text
  import opened Wrappers

  const LISTED_FINISHES: set<string> := {"stop", "length", "other"}

  datatype Role = User | Assistant

  datatype Entry = Entry(role: Role, text: string, generation: Option<string>)

  datatype Scenario = Scenario(id: string, seedHistory: seq<Entry>, userTexts: seq<string>)

  datatype Conversation = Conversation(variant: string, repeatIndex: nat, scenario: Scenario)

  datatype Response = NoTerminal | Response(text: string, finish: string)

  /** One turn of one conversation; `turn` counts from zero. */
  datatype Slot = Slot(conversation: Conversation, turn: nat, userText: string)

  /** Prompt compilation, the key function and the provider are deterministic and
      otherwise arbitrary.  The runner walks `SlotsOf(LoopOrder(...))`. */
  datatype Config = Config(
    slots: seq<Slot>,
    keyOf: (Conversation, nat) -> string,
    compile: (Conversation, nat, seq<Entry>) -> string,
    provider: string -> Response)

  // ----- Keys -----

  function Digit(d: nat): char
    requires d < 10
  {
    "0123456789"[d]
  }

  function Decimal(n: nat): string
    decreases n
  {
    if n < 10 then [Digit(n)] else Decimal(n / 10) + [Digit(n % 10)]
  }

  /** f"{scenario_id}:r{repeat_index}:t{turn_id}:{variant}" */
  function SampleKey(scenarioId: string, repeatIndex: nat, turnId: nat, variant: string): string {
    scenarioId + ":r" + Decimal(repeatIndex) + ":t" + Decimal(turnId) + ":" + variant
  }

  function SampleKeyOf(c: Conversation, turnId: nat): string {
    SampleKey(c.scenario.id, c.repeatIndex, turnId, c.variant)
  }

  // ----- Loop order -----

  function OverScenarios(variant: string, repeatIndex: nat, scenarios: seq<Scenario>): seq<Conversation> {
    seq(|scenarios|, (k: nat) requires k < |scenarios| => Conversation(variant, repeatIndex, scenarios[k]))
  }

  function OverRepeats(variant: string, repeats: nat, scenarios: seq<Scenario>): seq<Conversation> {
    if repeats == 0 then []
    else OverRepeats(variant, repeats - 1, scenarios) + OverScenarios(variant, repeats - 1, scenarios)
  }

  function LoopOrder(variants: seq<string>, repeats: nat, scenarios: seq<Scenario>): seq<Conversation> {
    if variants == [] then []
    else
      LoopOrder(variants[..|variants| - 1], repeats, scenarios)
      + OverRepeats(variants[|variants| - 1], repeats, scenarios)
  }

  function TurnsOf(c: Conversation): seq<Slot> {
    seq(|c.scenario.userTexts|, (t: nat) requires t < |c.scenario.userTexts| => Slot(c, t, c.scenario.userTexts[t]))
  }

  function SlotsOf(conversations: seq<Conversation>): seq<Slot> {
    if conversations == [] then []
    else SlotsOf(conversations[..|conversations| - 1]) + TurnsOf(conversations[|conversations| - 1])
  }

  /** Turn ids count from one. */
  function Key(cfg: Config, n: nat): string
    requires n < |cfg.slots|
  {
    cfg.keyOf(cfg.slots[n].conversation, cfg.slots[n].turn + 1)
  }

  ghost predicate KeysDistinct(cfg: Config) {
    forall a, b :: 0 <= a < b < |cfg.slots| ==> Key(cfg, a) != Key(cfg, b)
  }

  // ----- The results file -----

  /** A line that is blank, one that is not a complete record, or a record. */
  datatype Line = Blank | Unparsable | Record(key: string, reply: string, finish: string, snapshotValid: bool)

  /** Later records win; an unlisted finish reason is skipped; a record with an
      invalid input snapshot aborts the resume. */
  function ReadCompleted(lines: seq<Line>): Option<map<string, string>> {
    if lines == [] then Some(map[])
    else
      var before := ReadCompleted(lines[..|lines| - 1]);
      var line := lines[|lines| - 1];
      if before.None? || !line.Record? || line.finish !in LISTED_FINISHES then before
      else if !line.snapshotValid then None
      else Some(before.value[line.key := line.reply])
  }

  // ----- One run -----

  /** Why a run ends at a slot: a limit before dispatch, or a timeout,
      cancellation or crash after dispatch and before the record. */
  datatype Stop = Go | StopBefore | StopDuring

  datatype Issue = Issue(slot: nat, key: string, prompt: string)

  datatype RunState = RunState(
    lines: seq<Line>,
    completed: map<string, string>,
    history: seq<Entry>,
    issued: seq<Issue>,
    halted: bool)

  function Spoken(key: string, userText: string, reply: string): seq<Entry> {
    [Entry(User, userText, None), Entry(Assistant, reply, Some(key))]
  }

  predicate Usable(r: Response) { r.Response? && !BlankText(r.text) }

  function TakeTurn(cfg: Config, st: RunState, n: nat, stop: Stop): RunState
    requires n < |cfg.slots|
  {
    var key := Key(cfg, n);
    if key in st.completed then
      st.(history := st.history + Spoken(key, cfg.slots[n].userText, st.completed[key]))
    else if stop == StopBefore then st.(halted := true)
    else
      var prompt := cfg.compile(cfg.slots[n].conversation, cfg.slots[n].turn, st.history);
      var asked := st.(issued := st.issued + [Issue(n, key, prompt)]);
      var response := cfg.provider(prompt);
      if stop == StopDuring || !Usable(response) then asked.(halted := true)
      else
        asked.(lines := st.lines + [Record(key, response.text, response.finish, true)],
               completed := st.completed[key := response.text],
               history := st.history + Spoken(key, cfg.slots[n].userText, response.text))
  }

  /** Every conversation starts from its seed. */
  function Seeded(cfg: Config, st: RunState, n: nat): RunState
    requires n < |cfg.slots|
  {
    if cfg.slots[n].turn == 0 then st.(history := cfg.slots[n].conversation.scenario.seedHistory) else st
  }

  /** The rest of a run that stands before slot `n`. */
  function RunFrom(cfg: Config, st: RunState, stops: nat -> Stop, n: nat): RunState
    requires n <= |cfg.slots|
    decreases |cfg.slots| - n
  {
    if st.halted || n == |cfg.slots| then st
    else RunFrom(cfg, TakeTurn(cfg, Seeded(cfg, st, n), n, stops(n)), stops, n + 1)
  }

  function Start(lines: seq<Line>): RunState
    requires ReadCompleted(lines).Some?
  {
    RunState(lines, ReadCompleted(lines).value, [], [], false)
  }

  function Run(cfg: Config, lines: seq<Line>, stops: nat -> Stop): RunState
    requires ReadCompleted(lines).Some?
  {
    RunFrom(cfg, Start(lines), stops, 0)
  }

  // ----- The runner -----

  class Runner {
    const cfg: Config
    var lines: seq<Line>
    var completed: map<string, string>
    var issued: seq<Issue>

    constructor (cfg: Config)
      ensures this.cfg == cfg && lines == [] && completed == map[] && issued == []
    {
      this.cfg, this.lines, this.completed, this.issued := cfg, [], map[], [];
    }

    method ReadCompletedRecords() returns (r: Option<map<string, string>>)
      ensures r == ReadCompleted(lines)
    {
      var found: map<string, string> := map[];
      for i := 0 to |lines|
        invariant ReadCompleted(lines[..i]) == Some(found)
      {
        assert lines[..i + 1][..i] == lines[..i];
        var line := lines[i];
        if line.Record? && line.finish in LISTED_FINISHES {
          if !line.snapshotValid {
            assert ReadCompleted(lines[..i + 1]).None?;
            UnreadableStays(lines, i + 1);
            return None;
          }
          found := found[line.key := line.reply];
        }
      }
      assert lines[..|lines|] == lines;
      r := Some(found);
    }

    /** A run on the results file as it stands. */
    method Execute(stops: nat -> Stop) returns (resumed: bool)
      modifies this
      ensures resumed <==> ReadCompleted(old(lines)).Some?
      ensures !resumed ==> lines == old(lines) && issued == old(issued)
      ensures resumed ==>
        var r := Run(cfg, old(lines), stops);
        lines == r.lines && completed == r.completed && issued == old(issued) + r.issued
    {
      var saved := ReadCompletedRecords();
      if saved.None? {
        return false;
      }
      completed := saved.value;
      resumed := true;
      Walk(stops, Start(lines), issued);
    }

    /** The turn loop.  The nested loops over variants, repeats, scenarios and
        turns are walked as the slots they enumerate (`SlotsOf`, `LoopOrder`);
        the history starts again from the seed at every first turn. */
    method Walk(stops: nat -> Stop, ghost start: RunState, ghost earlier: seq<Issue>)
      requires Matches(start, earlier) && !start.halted && start.history == []
      modifies this
      ensures Matches(RunFrom(cfg, start, stops, 0), earlier)
    {
      ghost var now, whole := start, RunFrom(cfg, start, stops, 0);
      var history: seq<Entry> := [];
      for n := 0 to |cfg.slots|
        invariant Matches(now, earlier) && !now.halted && now.history == history
        invariant RunFrom(cfg, now, stops, n) == whole
      {
        if cfg.slots[n].turn == 0 {
          history := cfg.slots[n].conversation.scenario.seedHistory;
        }
        ghost var seeded := Seeded(cfg, now, n);
        var halted;
        history, halted := Ask(n, history, stops(n), seeded, earlier);
        RunFromNext(cfg, now, stops, n, TakeTurn(cfg, seeded, n, stops(n)));
        now := TakeTurn(cfg, seeded, n, stops(n));
        if halted {
          return;
        }
      }
    }

    ghost predicate Matches(st: RunState, earlier: seq<Issue>)
      reads this
    {
      lines == st.lines && completed == st.completed && issued == earlier + st.issued
    }

    method Ask(n: nat, history0: seq<Entry>, stop: Stop, ghost st: RunState, ghost earlier: seq<Issue>)
      returns (history: seq<Entry>, halted: bool)
      requires n < |cfg.slots|
      requires Matches(st, earlier) && !st.halted && st.history == history0
      modifies this
      ensures var next := TakeTurn(cfg, st, n, stop);
        Matches(next, earlier) && next.halted == halted && (!halted ==> next.history == history)
    {
      history, halted := history0, false;
      var key := Key(cfg, n);
      var userText := cfg.slots[n].userText;
      if key in completed {
        history := history + Spoken(key, userText, completed[key]);
        return;
      }
      if stop == StopBefore {
        return history, true;
      }
      var prompt := cfg.compile(cfg.slots[n].conversation, cfg.slots[n].turn, history);
      issued := issued + [Issue(n, key, prompt)];
      var response := cfg.provider(prompt);
      if stop == StopDuring || !Usable(response) {
        return history, true;
      }
      lines := lines + [Record(key, response.text, response.finish, true)];
      completed := completed[key := response.text];
      history := history + Spoken(key, userText, response.text);
    }
  }

  lemma RunFromNext(cfg: Config, st: RunState, stops: nat -> Stop, n: nat, next: RunState)
    requires n < |cfg.slots| && !st.halted && next == TakeTurn(cfg, Seeded(cfg, st, n), n, stops(n))
    ensures RunFrom(cfg, st, stops, n) == RunFrom(cfg, next, stops, n + 1)
    ensures next.halted ==> RunFrom(cfg, st, stops, n) == next
  {}

  lemma {:induction false} UnreadableStays(lines: seq<Line>, n: nat)
    requires n <= |lines| && ReadCompleted(lines[..n]).None?
    ensures ReadCompleted(lines).None?
    decreases |lines| - n
  {
    if n == |lines| {
      assert lines[..n] == lines;
    } else {
      assert lines[..n + 1][..n] == lines[..n];
      UnreadableStays(lines, n + 1);
    }
  }
}
