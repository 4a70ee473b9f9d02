/** The evaluation in its own loop order and with its own sample keys
    (tools/evaluate_character_scenarios.py). */
module EvaluationLoop {
  import opened Text
  import opened Wrappers
  import opened EvaluationRunner
  import opened EvaluationKeys
  import opened EvaluationResume

  function LoopSlots(variants: seq<string>, repeats: nat, scenarios: seq<Scenario>): seq<Slot> {
    SlotsOf(LoopOrder(variants, repeats, scenarios))
  }

  function SlotKey(slot: Slot): string { SampleKeyOf(slot.conversation, slot.turn + 1) }

  /** The slots of this evaluation have different keys. */
  ghost predicate KeysApart(variants: seq<string>, repeats: nat, scenarios: seq<Scenario>) {
    var slots := LoopSlots(variants, repeats, scenarios);
    forall a, b :: 0 <= a < b < |slots| ==> SlotKey(slots[a]) != SlotKey(slots[b])
  }

  // ----- Tellable names give different keys -----

  lemma LoopSlotsAre(variants: seq<string>, repeats: nat, scenarios: seq<Scenario>)
    requires Fixture(scenarios)
    ensures forall x :: x in LoopSlots(variants, repeats, scenarios) <==> IsLoopSlot(variants, repeats, scenarios, x)
    ensures NoRepeats(variants) ==> NoRepeats(LoopSlots(variants, repeats, scenarios))
    ensures NoRepeats(LoopSlots(variants, repeats, scenarios)) && repeats >= 1 && scenarios != [] ==> NoRepeats(variants)
  {
    LoopOrderIs(variants, repeats, scenarios);
    SlotsAre(LoopOrder(variants, repeats, scenarios));
  }

  predicate IsLoopSlot(variants: seq<string>, repeats: nat, scenarios: seq<Scenario>, x: Slot) {
    && x.conversation.variant in variants && x.conversation.repeatIndex < repeats
    && x.conversation.scenario in scenarios && x in TurnsOf(x.conversation)
  }

  lemma SameKeySameSlot(variants: seq<string>, repeats: nat, scenarios: seq<Scenario>, x: Slot, y: Slot)
    requires Fixture(scenarios) && Tellable(variants, repeats)
    requires IsLoopSlot(variants, repeats, scenarios, x) && IsLoopSlot(variants, repeats, scenarios, y)
    requires SlotKey(x) == SlotKey(y)
    ensures x == y
  {
    var c, d := x.conversation, y.conversation;
    assert SharedKey(c.scenario.id, c.repeatIndex, x.turn + 1, c.variant, d.scenario.id, d.repeatIndex, y.turn + 1, d.variant);
    if c.variant != d.variant {
      SharedKeyMimics(c.scenario.id, c.repeatIndex, x.turn + 1, c.variant, d.scenario.id, d.repeatIndex, y.turn + 1, d.variant,
                      repeats);
    } else {
      SameVariantInjective(c.scenario.id, c.repeatIndex, x.turn + 1, d.scenario.id, d.repeatIndex, y.turn + 1, c.variant);
    }
  }

  lemma TellableKeysApart(variants: seq<string>, repeats: nat, scenarios: seq<Scenario>)
    requires Fixture(scenarios) && Tellable(variants, repeats)
    ensures KeysApart(variants, repeats, scenarios)
  {
    var slots := LoopSlots(variants, repeats, scenarios);
    LoopSlotsAre(variants, repeats, scenarios);
    forall a, b | 0 <= a < b < |slots|
      ensures SlotKey(slots[a]) != SlotKey(slots[b])
    {
      assert slots[a] in slots && slots[b] in slots && slots[a] != slots[b];
      if SlotKey(slots[a]) == SlotKey(slots[b]) {
        SameKeySameSlot(variants, repeats, scenarios, slots[a], slots[b]);
      }
    }
  }

  // ----- Names that are not tellable share a key in some fixture -----

  function Simple(id: string): Scenario { Scenario(id, [], ["a", "b", "c", "d"]) }

  lemma KeysApartNoRepeats(variants: seq<string>, repeats: nat, scenarios: seq<Scenario>)
    requires KeysApart(variants, repeats, scenarios)
    ensures NoRepeats(LoopSlots(variants, repeats, scenarios))
  {
    var slots := LoopSlots(variants, repeats, scenarios);
    forall a, b | 0 <= a < b < |slots|
      ensures slots[a] != slots[b]
    {
      assert SlotKey(slots[a]) != SlotKey(slots[b]);
    }
  }

  lemma SharedSlots(variants: seq<string>, repeats: nat, scenarios: seq<Scenario>, x: Slot, y: Slot)
    requires x in LoopSlots(variants, repeats, scenarios) && y in LoopSlots(variants, repeats, scenarios)
    requires x != y && SlotKey(x) == SlotKey(y)
    ensures !KeysApart(variants, repeats, scenarios)
  {
    var slots := LoopSlots(variants, repeats, scenarios);
    var a :| 0 <= a < |slots| && slots[a] == x;
    var b :| 0 <= b < |slots| && slots[b] == y;
    assert a < b || b < a;
  }

  lemma MimicShares(variants: seq<string>, repeats: nat, v: string, w: string) returns (scenarios: seq<Scenario>)
    requires v in variants && w in variants && v != w && Mimics(v, w, repeats)
    ensures Fixture(scenarios) && !KeysApart(variants, repeats, scenarios)
  {
    var r, t :| 0 <= r < repeats && 1 <= t <= TURNS && Meets(v, w, r, t);
    var id := MeetingCollides(v, w, r, t);
    scenarios := [Simple(""), Simple(id)];
    var c, d := Conversation(v, 0, Simple("")), Conversation(w, r, Simple(id));
    LoopSlotsAre(variants, repeats, scenarios);
    assert Simple("") == scenarios[0] && Simple(id) == scenarios[1];
    assert TurnsOf(c)[0] in TurnsOf(c) && TurnsOf(d)[t - 1] in TurnsOf(d);
    SharedSlots(variants, repeats, scenarios, TurnsOf(c)[0], TurnsOf(d)[t - 1]);
  }

  /** Whatever fixture is loaded, its slots have different keys: this holds if and
      only if the variant names are tellable. */
  lemma KeysApartExactly(variants: seq<string>, repeats: nat)
    requires repeats >= 1
    ensures (forall scenarios :: Fixture(scenarios) ==> KeysApart(variants, repeats, scenarios)) <==> Tellable(variants, repeats)
  {
    if Tellable(variants, repeats) {
      forall scenarios | Fixture(scenarios)
        ensures KeysApart(variants, repeats, scenarios)
      {
        TellableKeysApart(variants, repeats, scenarios);
      }
    } else if NoRepeats(variants) {
      var v, w :| v in variants && w in variants && v != w && Mimics(v, w, repeats);
      var scenarios := MimicShares(variants, repeats, v, w);
      assert !(Fixture(scenarios) ==> KeysApart(variants, repeats, scenarios));
    } else {
      var scenarios := [Simple("")];
      LoopSlotsAre(variants, repeats, scenarios);
      if KeysApart(variants, repeats, scenarios) {
        KeysApartNoRepeats(variants, repeats, scenarios);
      }
      assert !(Fixture(scenarios) ==> KeysApart(variants, repeats, scenarios));
    }
  }

  // ----- The resume results for this loop -----

  ghost predicate RunsLoop(cfg: Config, variants: seq<string>, repeats: nat, scenarios: seq<Scenario>) {
    cfg.slots == LoopSlots(variants, repeats, scenarios) && cfg.keyOf == SampleKeyOf
  }

  lemma LoopKeys(cfg: Config, variants: seq<string>, repeats: nat, scenarios: seq<Scenario>)
    requires RunsLoop(cfg, variants, repeats, scenarios)
    ensures KeysDistinct(cfg) <==> KeysApart(variants, repeats, scenarios)
    ensures Fixture(scenarios) && Tellable(variants, repeats) ==> KeysDistinct(cfg)
  {
    assert forall a :: 0 <= a < |cfg.slots| ==> Key(cfg, a) == SlotKey(cfg.slots[a]);
    if Fixture(scenarios) && Tellable(variants, repeats) {
      TellableKeysApart(variants, repeats, scenarios);
    }
  }

  /** In the loop order of the program, for any fixture and tellable names, what a
      stopped and resumed evaluation asks one uninterrupted evaluation asks at the
      same place. */
  lemma LoopResumesInPlace(cfg: Config, variants: seq<string>, repeats: nat, scenarios: seq<Scenario>, runs: seq<nat -> Stop>, k: nat)
    requires RunsLoop(cfg, variants, repeats, scenarios) && Fixture(scenarios) && Tellable(variants, repeats)
    requires runs != [] && k < |AskedBy(cfg, runs)|
    ensures var issue, full := AskedBy(cfg, runs)[k], Run(cfg, [], UNINTERRUPTED).issued;
      issue.slot < |full| && full[issue.slot] == issue
  {
    LoopKeys(cfg, variants, repeats, scenarios);
    ResumeAsksInPlace(cfg, runs, k);
  }

  // ----- What repeated keys do -----

  /** No earlier slot has the key of this issue. */
  ghost predicate FirstOfKey(cfg: Config, issue: Issue) {
    issue.slot < |cfg.slots| && forall k :: 0 <= k < issue.slot ==> Key(cfg, k) != Key(cfg, issue.slot)
  }

  /** Before slot `n`, every earlier key is in memory, and what was asked was new. */
  ghost predicate Covered(cfg: Config, st: RunState, n: nat)
    requires n <= |cfg.slots|
  {
    && (forall k :: 0 <= k < n ==> Key(cfg, k) in st.completed)
    && (forall i :: 0 <= i < |st.issued| ==> FirstOfKey(cfg, st.issued[i]))
  }

  lemma TurnCovers(cfg: Config, st: RunState, n: nat, stop: Stop)
    requires n < |cfg.slots| && Covered(cfg, st, n)
    ensures var next := TakeTurn(cfg, Seeded(cfg, st, n), n, stop);
      && (forall i :: 0 <= i < |next.issued| ==> FirstOfKey(cfg, next.issued[i]))
      && (!next.halted ==> Covered(cfg, next, n + 1))
  {}

  /** A slot is asked only if no earlier slot has its key. */
  lemma AskedKeysAreNew(cfg: Config, lines: seq<Line>, stops: nat -> Stop)
    requires ReadCompleted(lines).Some?
    ensures forall issue :: issue in Run(cfg, lines, stops).issued ==> FirstOfKey(cfg, issue)
  {
    var n := 0;
    var st, end := Start(lines), Run(cfg, lines, stops);
    while n < |cfg.slots|
      invariant n <= |cfg.slots| && !st.halted && Covered(cfg, st, n)
      invariant end == RunFrom(cfg, st, stops, n)
    {
      var next := TakeTurn(cfg, Seeded(cfg, st, n), n, stops(n));
      TurnCovers(cfg, st, n, stops(n));
      RunFromNext(cfg, st, stops, n, next);
      if next.halted {
        return;
      }
      st, n := next, n + 1;
    }
  }

  lemma {:induction false} SlotsOfConcat(a: seq<Conversation>, b: seq<Conversation>)
    ensures SlotsOf(a + b) == SlotsOf(a) + SlotsOf(b)
  {
    if b == [] {
      assert a + b == a;
    } else {
      var front, last := b[..|b| - 1], b[|b| - 1];
      SlotsOfConcat(a, front);
      assert (a + b)[..|a + b| - 1] == a + front && (a + b)[|a + b| - 1] == last;
      assert SlotsOf(a + b) == SlotsOf(a) + SlotsOf(front) + TurnsOf(last);
    }
  }

  lemma SlotsTwice(name: string, repeats: nat, scenarios: seq<Scenario>)
    ensures var once := LoopSlots([name], repeats, scenarios);
      LoopSlots([name, name], repeats, scenarios) == once + once
  {
    var once := OverRepeats(name, repeats, scenarios);
    assert [name, name][..1] == [name] && [name][..0] == [];
    assert LoopOrder([name], repeats, scenarios) == once;
    SlotsOfConcat(once, once);
  }

  /** Two variants with one name: the second half of the slots has the keys of the
      first half, and no run ever asks it, although its persona differs. */
  lemma EqualNamesSkipSecond(cfg: Config, name: string, repeats: nat, scenarios: seq<Scenario>, lines: seq<Line>,
                             stops: nat -> Stop)
    requires RunsLoop(cfg, [name, name], repeats, scenarios) && ReadCompleted(lines).Some?
    ensures var half := |LoopSlots([name], repeats, scenarios)|;
      && |cfg.slots| == 2 * half
      && (forall k :: 0 <= k < half ==> cfg.slots[half + k] == cfg.slots[k])
      && (forall issue :: issue in Run(cfg, lines, stops).issued ==> issue.slot < half)
  {
    var half := |LoopSlots([name], repeats, scenarios)|;
    SlotsTwice(name, repeats, scenarios);
    AskedKeysAreNew(cfg, lines, stops);
    forall issue | issue in Run(cfg, lines, stops).issued
      ensures issue.slot < half
    {
      assert FirstOfKey(cfg, issue);
      assert issue.slot >= half ==> Key(cfg, issue.slot - half) == Key(cfg, issue.slot);
    }
  }

  // ----- A gap in the completed keys -----

  /** One scenario of four turns, the first cut short by the provider's content filter. */
  const FILTERED: Config := Config(
    LoopSlots(["v"], 1, [Simple("s")]),
    SampleKeyOf,
    (c: Conversation, turn: nat, history: seq<Entry>) => if turn == 0 then "p1" else "p2",
    prompt => if prompt == "p1" then Response("x", "content_filter") else Response("y", "stop"))

  lemma FilteredSlots()
    ensures RunsLoop(FILTERED, ["v"], 1, [Simple("s")]) && KeysDistinct(FILTERED)
    ensures FILTERED.slots == TurnsOf(Conversation("v", 0, Simple("s")))
  {
    var c, scenarios := Conversation("v", 0, Simple("s")), [Simple("s")];
    assert OverScenarios("v", 0, scenarios) == [c] && ["v"][..0] == [];
    assert OverRepeats("v", 0, scenarios) == [];
    assert LoopOrder(["v"], 1, scenarios) == [c] && [c][..0] == [];
    LoopKeys(FILTERED, ["v"], 1, scenarios);
  }

  /** The first two slots of an evaluation whose first reply is filtered. */
  lemma FirstTwo(cfg: Config)
    requires |cfg.slots| >= 2 && Key(cfg, 0) != Key(cfg, 1)
    requires forall c, history :: cfg.compile(c, cfg.slots[0].turn, history) == "p1"
    requires forall c, history :: cfg.compile(c, cfg.slots[1].turn, history) == "p2"
    requires cfg.provider("p1") == Response("x", "content_filter") && cfg.provider("p2") == Response("y", "stop")
    ensures UpTo(cfg, 2).issued == [Issue(0, Key(cfg, 0), "p1"), Issue(1, Key(cfg, 1), "p2")]
    ensures Forgotten(cfg, "p1") && !Forgotten(cfg, "p2")
  {
    assert !Whitespace("x"[0]) && !Whitespace("y"[0]);
    UpToStart(cfg);
    var first := UpToNext(cfg, 0, Start([]));
    TurnIs(cfg, Seeded(cfg, Start([]), 0), 0, Go);
    var second := UpToNext(cfg, 1, first);
    TurnIs(cfg, Seeded(cfg, first, 1), 1, Go);
  }

  lemma GapBehindFirst(cfg: Config, end: RunState)
    requires |cfg.slots| >= 2 && end == UpTo(cfg, |cfg.slots|)
    requires UpTo(cfg, 2).issued == [Issue(0, Key(cfg, 0), "p1"), Issue(1, Key(cfg, 1), "p2")]
    requires Forgotten(cfg, "p1") && !Forgotten(cfg, "p2")
    ensures ReadCompleted(end.lines).Some? && !NoGap(cfg, end.issued)
    ensures Key(cfg, 0) !in Saved(end) && Key(cfg, 1) in Saved(end)
  {
    UpToGrows(cfg, 2, |cfg.slots|);
    var early := UpTo(cfg, 2).issued;
    assert end.issued[0] == early[0] && end.issued[1] == early[1];
    assert RecordedIssue(cfg, end, 0, |cfg.slots|) && RecordedIssue(cfg, end, 1, |cfg.slots|);
    assert !Kept(cfg, end.issued, 0) && Kept(cfg, end.issued, 1);
  }

  lemma FilteredKeys()
    ensures SampleKey("s", 0, 1, "v") == "s:r0:t1:v" && SampleKey("s", 0, 2, "v") == "s:r0:t2:v"
  {
    assert Decimal(0) == "0" && Decimal(1) == "1" && Decimal(2) == "2";
  }

  /** The conversation goes on behind the filtered reply, and later slots are kept
      while the first is not. */
  lemma FilteredLeavesGap()
    ensures var end := Run(FILTERED, [], UNINTERRUPTED);
      && ReadCompleted(end.lines).Some? && !NoGap(FILTERED, end.issued)
      && "s:r0:t1:v" !in ReadCompleted(end.lines).value && "s:r0:t2:v" in ReadCompleted(end.lines).value
  {
    FilteredSlots();
    FilteredKeys();
    FirstTwo(FILTERED);
    FullRun(FILTERED);
    GapBehindFirst(FILTERED, UpTo(FILTERED, |FILTERED.slots|));
  }
}
