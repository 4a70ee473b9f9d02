/** The evaluation in terms of slots, entries and records: where each turn stands in
    the loop, what a prompt is compiled from, and what a run writes and reads back
    (tools/evaluate_character_scenarios.py). */
module EvaluationRules {
  import opened Text
  import opened Wrappers
  import opened EvaluationRunner
  import opened EvaluationKeys
  import opened EvaluationLoop

  // ----- The loop order -----

  /** How much `n` blocks are. */
  function Blocks(n: nat, block: nat): nat { if n == 0 then 0 else Blocks(n - 1, block) + block }

  lemma {:induction false} BlocksAre(n: nat, block: nat)
    ensures Blocks(n, block) == n * block
  {
    if n > 0 {
      BlocksAre(n - 1, block);
      assert n * block == (n - 1) * block + block;
    }
  }

  lemma {:induction false} RepeatAt(variant: string, repeats: nat, scenarios: seq<Scenario>, r: nat, s: nat)
    ensures |OverRepeats(variant, repeats, scenarios)| == Blocks(repeats, |scenarios|)
    ensures r < repeats && s < |scenarios| ==>
              && Blocks(r, |scenarios|) + s < Blocks(repeats, |scenarios|)
              && OverRepeats(variant, repeats, scenarios)[Blocks(r, |scenarios|) + s] == Conversation(variant, r, scenarios[s])
  {
    if repeats > 0 {
      RepeatAt(variant, repeats - 1, scenarios, r, s);
    }
  }

  lemma {:induction false} LoopLength(variants: seq<string>, repeats: nat, scenarios: seq<Scenario>, block: nat)
    requires block == Blocks(repeats, |scenarios|)
    ensures |LoopOrder(variants, repeats, scenarios)| == Blocks(|variants|, block)
  {
    if variants != [] {
      LoopLength(variants[..|variants| - 1], repeats, scenarios, block);
      RepeatAt(variants[|variants| - 1], repeats, scenarios, 0, 0);
    }
  }

  lemma {:induction false} BlockAt(variants: seq<string>, repeats: nat, scenarios: seq<Scenario>, block: nat, v: nat, k: nat)
    requires block == Blocks(repeats, |scenarios|) && v < |variants| && k < |OverRepeats(variants[v], repeats, scenarios)|
    requires |OverRepeats(variants[v], repeats, scenarios)| == block
    ensures Blocks(v, block) + k < |LoopOrder(variants, repeats, scenarios)|
    ensures LoopOrder(variants, repeats, scenarios)[Blocks(v, block) + k] == OverRepeats(variants[v], repeats, scenarios)[k]
  {
    hide OverRepeats;
    var n := |variants| - 1;
    LoopLength(variants[..n], repeats, scenarios, block);
    if v < n {
      BlockAt(variants[..n], repeats, scenarios, block, v, k);
    }
  }

  /** The conversations come variant by variant, for each variant repeat by repeat, and
      for each repeat in the order of the scenarios. */
  lemma ConversationAt(variants: seq<string>, repeats: nat, scenarios: seq<Scenario>, block: nat, v: nat, r: nat, s: nat, i: nat)
    requires block == repeats * |scenarios| && v < |variants| && r < repeats && s < |scenarios|
    requires i == v * block + (r * |scenarios| + s)
    ensures |LoopOrder(variants, repeats, scenarios)| == |variants| * block && i < |variants| * block
    ensures LoopOrder(variants, repeats, scenarios)[i] == Conversation(variants[v], r, scenarios[s])
  {
    BlocksAre(repeats, |scenarios|);
    BlocksAre(r, |scenarios|);
    BlocksAre(v, block);
    BlocksAre(|variants|, block);
    RepeatAt(variants[v], repeats, scenarios, r, s);
    LoopLength(variants, repeats, scenarios, block);
    BlockAt(variants, repeats, scenarios, block, v, Blocks(r, |scenarios|) + s);
  }

  /** Four slots for each conversation, one for each of its turns. */
  lemma {:induction false} SlotAt(conversations: seq<Conversation>, i: nat, t: nat)
    requires forall k :: 0 <= k < |conversations| ==> |conversations[k].scenario.userTexts| == 4
    ensures |SlotsOf(conversations)| == 4 * |conversations|
    ensures i < |conversations| && t < 4 ==>
              SlotsOf(conversations)[4 * i + t] == Slot(conversations[i], t, conversations[i].scenario.userTexts[t])
  {
    if conversations != [] {
      SlotAt(conversations[..|conversations| - 1], i, t);
    }
  }

  /** Every turn of the evaluation has this one place: its conversation is the i-th. */
  lemma LoopSlotAt(variants: seq<string>, repeats: nat, scenarios: seq<Scenario>, block: nat, v: nat, r: nat, s: nat, i: nat,
                   t: nat)
    requires Fixture(scenarios) && block == repeats * |scenarios|
    requires v < |variants| && r < repeats && s < |scenarios| && i == v * block + (r * |scenarios| + s) && t < 4
    ensures |LoopSlots(variants, repeats, scenarios)| == 4 * (|variants| * block) && i < |variants| * block
    ensures LoopSlots(variants, repeats, scenarios)[4 * i + t]
         == Slot(Conversation(variants[v], r, scenarios[s]), t, scenarios[s].userTexts[t])
  {
    hide SlotsOf, LoopOrder;
    ConversationAt(variants, repeats, scenarios, block, v, r, s, i);
    SlotInLoop(variants, repeats, scenarios, i, t);
  }

  lemma SlotInLoop(variants: seq<string>, repeats: nat, scenarios: seq<Scenario>, i: nat, t: nat)
    requires Fixture(scenarios) && t < 4
    ensures |LoopSlots(variants, repeats, scenarios)| == 4 * |LoopOrder(variants, repeats, scenarios)|
    ensures var order := LoopOrder(variants, repeats, scenarios);
      i < |order| ==>
        && |order[i].scenario.userTexts| == 4
        && LoopSlots(variants, repeats, scenarios)[4 * i + t] == Slot(order[i], t, order[i].scenario.userTexts[t])
  {
    var order := LoopOrder(variants, repeats, scenarios);
    LoopOrderIs(variants, repeats, scenarios);
    forall k | 0 <= k < |order|
      ensures |order[k].scenario.userTexts| == 4
    {
      assert order[k] in order;
    }
    SlotAt(order, i, t);
  }

  // ----- Keys -----

  function Value(digits: string): nat {
    if digits == [] then 0
    else 10 * Value(digits[..|digits| - 1]) + DigitValue(digits[|digits| - 1])
  }

  function DigitValue(c: char): nat { if '0' <= c <= '9' then c as nat - '0' as nat else 0 }

  /** A number is written in decimal digits without leading zeros. */
  lemma {:induction false} DecimalReads(n: nat)
    ensures Value(Decimal(n)) == n && Decimal(n) != []
    ensures forall i :: 0 <= i < |Decimal(n)| ==> '0' <= Decimal(n)[i] <= '9'
    ensures Decimal(n)[0] == '0' <==> n == 0
    decreases n
  {
    hide Digit, Value;
    var rest := if n < 10 then [] else Decimal(n / 10);
    if n >= 10 {
      DecimalReads(n / 10);
    } else {
      assert Decimal(n) == [] + [Digit(n % 10)];
      NoDigits();
    }
    OneMoreDigit(rest, n % 10);
  }

  lemma NoDigits()
    ensures Value([]) == 0
  {}

  lemma OneMoreDigit(rest: string, d: nat)
    requires d < 10
    ensures Value(rest + [Digit(d)]) == 10 * Value(rest) + d && '0' <= Digit(d) <= '9' && (Digit(d) == '0' <==> d == 0)
  {
    var text := rest + [Digit(d)];
    assert text[..|text| - 1] == rest;
    DigitReads(d);
  }

  lemma DigitReads(d: nat)
    requires d < 10
    ensures '0' <= Digit(d) <= '9' && DigitValue(Digit(d)) == d
  {}

  /** The key of a turn: scenario, repeat, turn counted from one, and variant. */
  lemma KeyReads(c: Conversation, turn: nat) returns (repeat: string, number: string)
    ensures SampleKeyOf(c, turn + 1) == c.scenario.id + ":r" + repeat + ":t" + number + ":" + c.variant
    ensures Value(repeat) == c.repeatIndex && Value(number) == turn + 1
  {
    DecimalReads(c.repeatIndex);
    DecimalReads(turn + 1);
    repeat, number := Decimal(c.repeatIndex), Decimal(turn + 1);
  }

  // ----- Reading the results file -----

  /** A complete record with a finish reason that counts. */
  predicate Counts(line: Line) { line.Record? && (line.finish == "stop" || line.finish == "length" || line.finish == "other") }

  predicate IsLastOf(lines: seq<Line>, i: int, key: string) {
    && 0 <= i < |lines| && Counts(lines[i]) && lines[i].key == key
    && forall j :: i < j < |lines| && Counts(lines[j]) ==> lines[j].key != key
  }

  /** The resume is refused if and only if a counting record has an invalid snapshot.
      Otherwise exactly the keys of counting records are completed, each with the
      reply of its last one. */
  lemma {:induction false} ReadBackExactly(lines: seq<Line>)
    ensures ReadCompleted(lines).None? <==> exists i :: 0 <= i < |lines| && Counts(lines[i]) && !lines[i].snapshotValid
    ensures ReadCompleted(lines).Some? ==>
              && (forall key :: key in ReadCompleted(lines).value <==> exists i :: 0 <= i < |lines| && Counts(lines[i]) && lines[i].key == key)
              && (forall key, i :: IsLastOf(lines, i, key) ==> key in ReadCompleted(lines).value && ReadCompleted(lines).value[key] == lines[i].reply)
  {
    if lines != [] {
      var n := |lines| - 1;
      var earlier := lines[..n];
      ReadBackExactly(earlier);
      assert forall i :: 0 <= i < n ==> earlier[i] == lines[i];
      if ReadCompleted(lines).Some? {
        assert ReadCompleted(earlier).Some?;
        forall key, i | IsLastOf(lines, i, key)
          ensures key in ReadCompleted(lines).value && ReadCompleted(lines).value[key] == lines[i].reply
        {
          if i < n {
            assert IsLastOf(earlier, i, key);
          }
        }
      }
    }
  }

  // ----- A reply that can be used -----

  const SPACES: string :=
    "\t\n\U{000B}\U{000C}\r\U{001C}\U{001D}\U{001E}\U{001F} \U{0085}\U{00A0}\U{1680}\U{2000}\U{2001}\U{2002}\U{2003}\U{2004}\U{2005}\U{2006}\U{2007}\U{2008}\U{2009}\U{200A}\U{2028}\U{2029}\U{202F}\U{205F}\U{3000}"

  lemma SpacesAre(c: char)
    ensures Whitespace(c) <==> c in SPACES
  {}

  /** A reply is used if it has a character that is no white space. */
  lemma UsableMeans(r: Response)
    ensures Usable(r) <==> r.Response? && exists i :: 0 <= i < |r.text| && r.text[i] !in SPACES
  {
    if r.Response? {
      forall i | 0 <= i < |r.text|
        ensures Whitespace(r.text[i]) <==> r.text[i] in SPACES
      {
        SpacesAre(r.text[i]);
      }
    }
  }

  // ----- What a prompt is compiled from -----

  /** The turns before this one stand right before it. */
  ghost predicate InConversation(slots: seq<Slot>, n: nat)
    requires n < |slots|
  {
    && slots[n].turn <= n && slots[n].turn < |slots[n].conversation.scenario.userTexts|
    && forall i :: 0 <= i <= slots[n].turn ==> TurnStands(slots, n, i)
  }

  /** So many slots before slot `n` stands the i-th turn of its conversation. */
  predicate TurnStands(slots: seq<Slot>, n: nat, i: int)
    requires n < |slots|
  {
    var c, at := slots[n].conversation, n - slots[n].turn + i;
    0 <= i < |c.scenario.userTexts| && 0 <= at < |slots| && slots[at] == Slot(c, i, c.scenario.userTexts[i])
  }

  ghost predicate Orderly(slots: seq<Slot>) { forall n :: 0 <= n < |slots| ==> InConversation(slots, n) }

  lemma {:induction false} SlotsAreOrderly(conversations: seq<Conversation>)
    ensures Orderly(SlotsOf(conversations))
  {
    if conversations != [] {
      var front, last := conversations[..|conversations| - 1], conversations[|conversations| - 1];
      var before, slots := SlotsOf(front), SlotsOf(conversations);
      SlotsAreOrderly(front);
      forall n | 0 <= n < |slots|
        ensures InConversation(slots, n)
      {
        var c, t := slots[n].conversation, slots[n].turn;
        if n < |before| {
          assert InConversation(before, n);
          forall i | 0 <= i <= t
            ensures TurnStands(slots, n, i)
          {
            assert TurnStands(before, n, i);
          }
        } else {
          assert c == last && t == n - |before|;
        }
      }
    }
  }

  /** One exchange: the user's text first, then the reply that is remembered under the
      key of the turn, marked with it. */
  predicate ExchangeAt(history: seq<Entry>, at: int, userText: string, key: string, memory: map<string, string>) {
    && 0 <= at && at + 1 < |history| && key in memory
    && history[at] == Entry(User, userText, None) && history[at + 1] == Entry(Assistant, memory[key], Some(key))
  }

  /** The history before slot `n`: the seed of its conversation, then every earlier
      turn of it in order. */
  ghost predicate IsHistory(cfg: Config, history: seq<Entry>, n: nat, memory: map<string, string>)
    requires n < |cfg.slots|
  {
    var c, t := cfg.slots[n].conversation, cfg.slots[n].turn;
    var seed := c.scenario.seedHistory;
    && |history| == |seed| + 2 * t && history[..|seed|] == seed && t <= |c.scenario.userTexts|
    && forall i :: 0 <= i < t ==> ExchangeAt(history, |seed| + 2 * i, c.scenario.userTexts[i], cfg.keyOf(c, i + 1), memory)
  }

  ghost predicate Remembers(later: map<string, string>, earlier: map<string, string>) {
    forall key :: key in earlier ==> key in later && later[key] == earlier[key]
  }

  lemma HistoryStays(cfg: Config, history: seq<Entry>, n: nat, earlier: map<string, string>, later: map<string, string>)
    requires n < |cfg.slots| && IsHistory(cfg, history, n, earlier) && Remembers(later, earlier)
    ensures IsHistory(cfg, history, n, later)
  {
    var c, t := cfg.slots[n].conversation, cfg.slots[n].turn;
    forall i | 0 <= i < t
      ensures ExchangeAt(history, |c.scenario.seedHistory| + 2 * i, c.scenario.userTexts[i], cfg.keyOf(c, i + 1), later)
    {
      assert ExchangeAt(history, |c.scenario.seedHistory| + 2 * i, c.scenario.userTexts[i], cfg.keyOf(c, i + 1), earlier);
    }
  }

  /** What one turn adds: the exchange of this turn, whether it is asked now or was
      read back. */
  lemma TurnAdds(cfg: Config, st: RunState, n: nat, stop: Stop, next: RunState)
    requires n < |cfg.slots| && next == TakeTurn(cfg, st, n, stop) && !next.halted && !st.halted
    ensures var key := cfg.keyOf(cfg.slots[n].conversation, cfg.slots[n].turn + 1);
      && |next.history| == |st.history| + 2 && next.history[..|st.history|] == st.history
      && ExchangeAt(next.history, |st.history|, cfg.slots[n].userText, key, next.completed)
      && Remembers(next.completed, st.completed)
  {}

  lemma HistoryGrows(cfg: Config, history: seq<Entry>, more: seq<Entry>, n: nat, memory: map<string, string>)
    requires n + 1 < |cfg.slots| && Orderly(cfg.slots) && cfg.slots[n + 1].turn > 0
    requires IsHistory(cfg, history, n, memory)
    requires |more| == |history| + 2 && more[..|history|] == history
    requires ExchangeAt(more, |history|, cfg.slots[n].userText, cfg.keyOf(cfg.slots[n].conversation, cfg.slots[n].turn + 1), memory)
    ensures IsHistory(cfg, more, n + 1, memory)
  {
    var c, t := cfg.slots[n + 1].conversation, cfg.slots[n + 1].turn;
    assert InConversation(cfg.slots, n + 1);
    assert TurnStands(cfg.slots, n + 1, t - 1);
    assert cfg.slots[n].conversation == c && cfg.slots[n].turn == t - 1 && cfg.slots[n].userText == c.scenario.userTexts[t - 1];
    var seed := c.scenario.seedHistory;
    assert more[..|seed|] == history[..|seed|];
    forall i | 0 <= i < t
      ensures ExchangeAt(more, |seed| + 2 * i, c.scenario.userTexts[i], cfg.keyOf(c, i + 1), memory)
    {
      if i < t - 1 {
        assert ExchangeAt(history, |seed| + 2 * i, c.scenario.userTexts[i], cfg.keyOf(c, i + 1), memory);
        assert more[|seed| + 2 * i] == history[|seed| + 2 * i] && more[|seed| + 2 * i + 1] == history[|seed| + 2 * i + 1];
      }
    }
  }

  // ----- A run, from any file and with any stops -----

  /** An issue with the prompt it was compiled to. */
  predicate IsIssue(cfg: Config, issue: Issue, history: seq<Entry>) {
    && issue.slot < |cfg.slots|
    && var slot := cfg.slots[issue.slot];
       issue.key == cfg.keyOf(slot.conversation, slot.turn + 1) && issue.prompt == cfg.compile(slot.conversation, slot.turn, history)
  }

  ghost predicate Compiled(cfg: Config, issue: Issue, memory: map<string, string>) {
    exists history :: IsIssue(cfg, issue, history) && IsHistory(cfg, history, issue.slot, memory)
  }

  /** Before slot `n`: the conversation so far, if one is going on, and every prompt. */
  ghost predicate Conversing(cfg: Config, st: RunState, n: nat) {
    && n <= |cfg.slots|
    && (!st.halted && n < |cfg.slots| && cfg.slots[n].turn > 0 ==> IsHistory(cfg, st.history, n, st.completed))
    && forall k :: 0 <= k < |st.issued| ==> Compiled(cfg, st.issued[k], st.completed)
  }

  lemma CompiledStays(cfg: Config, issue: Issue, earlier: map<string, string>, later: map<string, string>)
    requires Compiled(cfg, issue, earlier) && Remembers(later, earlier)
    ensures Compiled(cfg, issue, later)
  {
    var history :| IsIssue(cfg, issue, history) && IsHistory(cfg, history, issue.slot, earlier);
    HistoryStays(cfg, history, issue.slot, earlier, later);
  }

  lemma SeedIsHistory(cfg: Config, st: RunState, n: nat)
    requires n < |cfg.slots| && Orderly(cfg.slots) && Conversing(cfg, st, n) && !st.halted
    ensures IsHistory(cfg, Seeded(cfg, st, n).history, n, st.completed)
  {
    assert InConversation(cfg.slots, n);
    var seed := cfg.slots[n].conversation.scenario.seedHistory;
    assert seed[..|seed|] == seed;
  }

  lemma TurnIssues(cfg: Config, st: RunState, n: nat, stop: Stop, next: RunState, k: nat)
    requires n < |cfg.slots| && next == TakeTurn(cfg, st, n, stop) && k < |next.issued|
    ensures Remembers(next.completed, st.completed)
    ensures k < |st.issued| ==> next.issued[k] == st.issued[k]
    ensures k >= |st.issued| ==> next.issued[k].slot == n && IsIssue(cfg, next.issued[k], st.history)
  {}

  lemma TurnConverses(cfg: Config, st: RunState, n: nat, stop: Stop, next: RunState)
    requires n < |cfg.slots| && Orderly(cfg.slots) && Conversing(cfg, st, n) && !st.halted
    requires next == TakeTurn(cfg, Seeded(cfg, st, n), n, stop)
    ensures Conversing(cfg, next, n + 1)
  {
    var seeded := Seeded(cfg, st, n);
    SeedIsHistory(cfg, st, n);
    forall k | 0 <= k < |next.issued|
      ensures Compiled(cfg, next.issued[k], next.completed)
    {
      TurnIssues(cfg, seeded, n, stop, next, k);
      if k < |st.issued| {
        CompiledStays(cfg, st.issued[k], st.completed, next.completed);
      } else {
        HistoryStays(cfg, seeded.history, n, st.completed, next.completed);
      }
    }
    if !next.halted && n + 1 < |cfg.slots| && cfg.slots[n + 1].turn > 0 {
      TurnAdds(cfg, seeded, n, stop, next);
      HistoryStays(cfg, seeded.history, n, st.completed, next.completed);
      HistoryGrows(cfg, seeded.history, next.history, n, next.completed);
    }
  }

  lemma {:induction false} RunConverses(cfg: Config, st: RunState, stops: nat -> Stop, n: nat, end: RunState)
    requires Orderly(cfg.slots) && Conversing(cfg, st, n) && end == RunFrom(cfg, st, stops, n)
    ensures forall k :: 0 <= k < |end.issued| ==> Compiled(cfg, end.issued[k], end.completed)
    decreases |cfg.slots| - n
  {
    if !st.halted && n < |cfg.slots| {
      var next := TakeTurn(cfg, Seeded(cfg, st, n), n, stops(n));
      RunFromNext(cfg, st, stops, n, next);
      TurnConverses(cfg, st, n, stops(n), next);
      RunConverses(cfg, next, stops, n + 1, end);
    }
  }

  /** On any results file and with any stops: what is asked of a slot is compiled from
      the seed of its conversation and all its earlier turns, the user's text before
      the reply, each reply being the one that is remembered under the key of its
      turn, whether it came in this run or was read back from the file. */
  lemma PromptsAreCompiled(cfg: Config, lines: seq<Line>, stops: nat -> Stop, k: nat) returns (history: seq<Entry>)
    requires Orderly(cfg.slots) && ReadCompleted(lines).Some? && k < |Run(cfg, lines, stops).issued|
    ensures var end := Run(cfg, lines, stops);
      IsIssue(cfg, end.issued[k], history) && IsHistory(cfg, history, end.issued[k].slot, end.completed)
  {
    assert cfg.slots != [] ==> InConversation(cfg.slots, 0);
    RunConverses(cfg, Start(lines), stops, 0, Run(cfg, lines, stops));
    var end := Run(cfg, lines, stops);
    assert Compiled(cfg, end.issued[k], end.completed);
    history :| IsIssue(cfg, end.issued[k], history) && IsHistory(cfg, history, end.issued[k].slot, end.completed);
  }

  /** In particular in the loop of the program. */
  lemma LoopPromptsAreCompiled(cfg: Config, variants: seq<string>, repeats: nat, scenarios: seq<Scenario>, lines: seq<Line>,
                               stops: nat -> Stop, k: nat) returns (history: seq<Entry>)
    requires RunsLoop(cfg, variants, repeats, scenarios)
    requires ReadCompleted(lines).Some? && k < |Run(cfg, lines, stops).issued|
    ensures var end := Run(cfg, lines, stops);
      IsIssue(cfg, end.issued[k], history) && IsHistory(cfg, history, end.issued[k].slot, end.completed)
  {
    SlotsAreOrderly(LoopOrder(variants, repeats, scenarios));
    history := PromptsAreCompiled(cfg, lines, stops, k);
  }

  // ----- What a run writes -----

  /** The record of an issue that was answered. */
  predicate IsRecord(cfg: Config, issue: Issue, line: Line) {
    var response := cfg.provider(issue.prompt);
    && response.Response? && (exists i :: 0 <= i < |response.text| && response.text[i] !in SPACES)
    && line == Record(issue.key, response.text, response.finish, true)
  }

  /** The file has grown by one record for each of the first `m` issues; memory holds
      what it started with and their replies. At most the last issue has none, and
      then the run has ended. */
  ghost predicate Wrote(cfg: Config, lines: seq<Line>, st: RunState, m: nat) {
    && ReadCompleted(lines).Some? && m <= |st.issued| <= m + 1 && (m < |st.issued| ==> st.halted)
    && |st.lines| == |lines| + m && st.lines[..|lines|] == lines
    && (forall i :: 0 <= i < m ==> WroteOne(cfg, lines, st, i))
    && (forall key :: key in st.completed ==> key in ReadCompleted(lines).value || AnsweredUnder(st, m, key))
    && (forall key :: key in ReadCompleted(lines).value ==> key in st.completed && st.completed[key] == ReadCompleted(lines).value[key])
  }

  predicate WroteOne(cfg: Config, lines: seq<Line>, st: RunState, i: nat) {
    && i < |st.issued| && |lines| + i < |st.lines| && IsRecord(cfg, st.issued[i], st.lines[|lines| + i])
    && st.issued[i].key in st.completed && st.completed[st.issued[i].key] == st.lines[|lines| + i].reply
  }

  ghost predicate AnsweredUnder(st: RunState, m: nat, key: string) { exists i :: 0 <= i < m && i < |st.issued| && st.issued[i].key == key }

  lemma TurnWrites(cfg: Config, st: RunState, n: nat, stop: Stop, next: RunState)
    requires n < |cfg.slots| && !st.halted && next == TakeTurn(cfg, st, n, stop)
    ensures || (next.issued == st.issued && next.lines == st.lines && next.completed == st.completed)
            || (next.halted && |next.issued| == |st.issued| + 1 && next.issued[..|st.issued|] == st.issued
                && next.lines == st.lines && next.completed == st.completed)
            || (!next.halted && |next.issued| == |st.issued| + 1 && next.issued[..|st.issued|] == st.issued
                && |next.lines| == |st.lines| + 1 && next.lines[..|st.lines|] == st.lines
                && IsRecord(cfg, next.issued[|st.issued|], next.lines[|st.lines|])
                && next.issued[|st.issued|].key !in st.completed
                && next.completed == st.completed[next.issued[|st.issued|].key := next.lines[|st.lines|].reply])
  {
    UsableMeans(cfg.provider(cfg.compile(cfg.slots[n].conversation, cfg.slots[n].turn, st.history)));
  }

  lemma WroteNext(cfg: Config, lines: seq<Line>, st: RunState, next: RunState, m: nat)
    requires Wrote(cfg, lines, st, m) && |st.issued| == m && |next.issued| == m + 1 && next.issued[..m] == st.issued
    requires |next.lines| == |st.lines| + 1 && next.lines[..|st.lines|] == st.lines
    requires IsRecord(cfg, next.issued[m], next.lines[|st.lines|]) && next.issued[m].key !in st.completed
    requires next.completed == st.completed[next.issued[m].key := next.lines[|st.lines|].reply]
    ensures Wrote(cfg, lines, next, m + 1)
  {
    forall i | 0 <= i < m + 1
      ensures WroteOne(cfg, lines, next, i)
    {
      if i < m {
        assert WroteOne(cfg, lines, st, i);
        assert next.issued[i] == st.issued[i] && next.lines[|lines| + i] == st.lines[|lines| + i];
      }
    }
    var total := m + 1;
    forall key | key in next.completed
      ensures key in ReadCompleted(lines).value || AnsweredUnder(next, total, key)
    {
      if key != next.issued[m].key && key !in ReadCompleted(lines).value {
        assert AnsweredUnder(st, m, key);
        var i :| 0 <= i < m && st.issued[i].key == key;
        assert next.issued[i] == st.issued[i];
      }
    }
  }

  lemma WroteHalted(cfg: Config, lines: seq<Line>, st: RunState, next: RunState, m: nat)
    requires Wrote(cfg, lines, st, m) && |st.issued| == m && next.lines == st.lines && next.completed == st.completed
    requires next.issued == st.issued || (next.halted && |next.issued| == m + 1 && next.issued[..m] == st.issued)
    ensures Wrote(cfg, lines, next, m)
  {
    forall i | 0 <= i < m
      ensures WroteOne(cfg, lines, next, i)
    {
      assert WroteOne(cfg, lines, st, i) && next.issued[i] == st.issued[i];
    }
    forall key | key in next.completed && key !in ReadCompleted(lines).value
      ensures AnsweredUnder(next, m, key)
    {
      assert AnsweredUnder(st, m, key);
      var i :| 0 <= i < m && st.issued[i].key == key;
      assert next.issued[i] == st.issued[i];
    }
  }

  lemma {:induction false} RunFromWrites(cfg: Config, lines: seq<Line>, st: RunState, stops: nat -> Stop, n: nat, end: RunState)
    returns (m: nat)
    requires n <= |cfg.slots| && Wrote(cfg, lines, st, |st.issued|) && !st.halted && end == RunFrom(cfg, st, stops, n)
    ensures Wrote(cfg, lines, end, m)
    decreases |cfg.slots| - n
  {
    hide TakeTurn, WroteOne, IsRecord, AnsweredUnder, ReadCompleted;
    m := |st.issued|;
    if n < |cfg.slots| {
      var seeded := Seeded(cfg, st, n);
      var next := TakeTurn(cfg, seeded, n, stops(n));
      RunFromNext(cfg, st, stops, n, next);
      TurnWrites(cfg, seeded, n, stops(n), next);
      WroteHalted(cfg, lines, st, seeded, m);
      if next.lines == st.lines {
        WroteHalted(cfg, lines, seeded, next, m);
      } else {
        WroteNext(cfg, lines, seeded, next, m);
      }
      if next.halted {
        return;
      }
      m := RunFromWrites(cfg, lines, next, stops, n + 1, end);
    }
  }

  /** A run on any file and with any stops appends exactly one record for each answer,
      in the order of asking, and answers all it asks but perhaps the last. */
  lemma RunWrites(cfg: Config, lines: seq<Line>, stops: nat -> Stop) returns (m: nat)
    requires ReadCompleted(lines).Some?
    ensures Wrote(cfg, lines, Run(cfg, lines, stops), m)
  {
    assert lines[..|lines|] == lines;
    m := RunFromWrites(cfg, lines, Start(lines), stops, 0, Run(cfg, lines, stops));
  }

  // ----- Where a run ends -----

  /** What was asked here got a reply with text. */
  predicate GotText(cfg: Config, issue: Issue) {
    var r := cfg.provider(issue.prompt);
    r.Response? && exists i :: 0 <= i < |r.text| && r.text[i] !in SPACES
  }

  /** An issue of an earlier slot, at which nothing stopped the run. */
  ghost predicate WentOn(cfg: Config, stops: nat -> Stop, issue: Issue, n: nat) {
    issue.slot < n && stops(issue.slot) == Go && GotText(cfg, issue)
  }

  ghost predicate AllWentOn(cfg: Config, stops: nat -> Stop, issued: seq<Issue>, n: nat) {
    forall i :: 0 <= i < |issued| ==> WentOn(cfg, stops, issued[i], n)
  }

  predicate Remembered(cfg: Config, st: RunState, k: int) {
    0 <= k < |cfg.slots| && Key(cfg, k) in st.completed
  }

  /** The run went through the first `n` slots and stands behind the last one, or it
      ended at slot `n`, which no reply is remembered for: it was not asked because of a
      stop before it, or it is the last one asked, and was stopped or got no text. */
  ghost predicate EndedAt(cfg: Config, stops: nat -> Stop, end: RunState, n: nat) {
    && n <= |cfg.slots| && (forall k :: 0 <= k < n ==> Remembered(cfg, end, k))
    && (end.halted <==> n < |cfg.slots|)
    && if n == |cfg.slots| || stops(n) == StopBefore then
         (n < |cfg.slots| ==> !Remembered(cfg, end, n)) && AllWentOn(cfg, stops, end.issued, n)
       else
         && !Remembered(cfg, end, n) && end.issued != []
         && var last := |end.issued| - 1;
            && end.issued[last].slot == n && AllWentOn(cfg, stops, end.issued[..last], n)
            && (stops(n) == StopDuring || !GotText(cfg, end.issued[last]))
  }

  lemma WentOnFurther(cfg: Config, stops: nat -> Stop, issued: seq<Issue>, n: nat)
    requires AllWentOn(cfg, stops, issued, n)
    ensures AllWentOn(cfg, stops, issued, n + 1)
  {
    forall i | 0 <= i < |issued|
      ensures WentOn(cfg, stops, issued[i], n + 1)
    {
      assert WentOn(cfg, stops, issued[i], n);
    }
  }

  lemma TurnEnds(cfg: Config, st: RunState, stops: nat -> Stop, n: nat, next: RunState)
    requires n < |cfg.slots| && !st.halted && next == TakeTurn(cfg, st, n, stops(n))
    requires AllWentOn(cfg, stops, st.issued, n) && forall k :: 0 <= k < n ==> Remembered(cfg, st, k)
    ensures if next.halted then EndedAt(cfg, stops, next, n)
            else AllWentOn(cfg, stops, next.issued, n + 1) && forall k :: 0 <= k < n + 1 ==> Remembered(cfg, next, k)
  {
    UsableMeans(cfg.provider(cfg.compile(cfg.slots[n].conversation, cfg.slots[n].turn, st.history)));
    WentOnFurther(cfg, stops, st.issued, n);
    forall k | 0 <= k < n
      ensures Remembered(cfg, next, k)
    {
      assert Remembered(cfg, st, k);
    }
    if |next.issued| > |st.issued| {
      assert next.issued[..|st.issued|] == st.issued;
    }
  }

  lemma {:induction false} RunFromEnds(cfg: Config, st: RunState, stops: nat -> Stop, n: nat, end: RunState) returns (m: nat)
    requires n <= |cfg.slots| && !st.halted && end == RunFrom(cfg, st, stops, n)
    requires AllWentOn(cfg, stops, st.issued, n) && forall k :: 0 <= k < n ==> Remembered(cfg, st, k)
    ensures EndedAt(cfg, stops, end, m)
    decreases |cfg.slots| - n
  {
    m := n;
    if n < |cfg.slots| {
      hide TakeTurn, EndedAt, AllWentOn, Remembered;
      var seeded := Seeded(cfg, st, n);
      var next := TakeTurn(cfg, seeded, n, stops(n));
      RunFromNext(cfg, st, stops, n, next);
      SeedingRemembers(cfg, st, n);
      TurnEnds(cfg, seeded, stops, n, next);
      if !next.halted {
        m := RunFromEnds(cfg, next, stops, n + 1, end);
      }
    }
  }

  lemma SeedingRemembers(cfg: Config, st: RunState, n: nat)
    requires n < |cfg.slots| && forall k :: 0 <= k < n ==> Remembered(cfg, st, k)
    ensures forall k :: 0 <= k < n ==> Remembered(cfg, Seeded(cfg, st, n), k)
  {
    forall k | 0 <= k < n
      ensures Remembered(cfg, Seeded(cfg, st, n), k)
    {
      assert Remembered(cfg, st, k);
    }
  }

  /** On any file and with any stops a run takes slot after slot until something stops
      it or a reply has no text, and only then. */
  lemma RunEndsAt(cfg: Config, lines: seq<Line>, stops: nat -> Stop) returns (n: nat)
    requires ReadCompleted(lines).Some?
    ensures EndedAt(cfg, stops, Run(cfg, lines, stops), n)
  {
    n := RunFromEnds(cfg, Start(lines), stops, 0, Run(cfg, lines, stops));
  }
}
