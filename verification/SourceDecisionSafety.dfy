/** What the source-decision protocol guarantees whatever the model returns, and
    that it can always be satisfied. */
module SourceDecisionSafety {
  import opened Text
  import opened Wrappers
  import opened SourceDecision

  // ----- Reading the inventory -----

  lemma {:induction false} ResultsInventoryHas(names: map<string, ToolKind>, calls: seq<Call>, results: seq<Receipt>,
          k: nat)
    requires k < |results|
    ensures var c := Contribution(names, calls, results[k]);
      var all := ResultsInventory(names, calls, results);
      c.known <= all.known && c.read <= all.read && c.failed <= all.failed && c.denied <= all.denied
  {
    if k < |results| - 1 {
      ResultsInventoryHas(names, calls, results[..|results| - 1], k);
    }
  }

  lemma {:induction false} ExchangesInventoryHas(names: map<string, ToolKind>, exchanges: seq<Exchange>, i: nat)
    requires i < |exchanges|
    ensures var c := ResultsInventory(names, exchanges[i].calls, exchanges[i].results);
      var all := ExchangesInventory(names, exchanges);
      c.known <= all.known && c.read <= all.read && c.failed <= all.failed && c.denied <= all.denied
  {
    if i < |exchanges| - 1 {
      ExchangesInventoryHas(names, exchanges[..|exchanges| - 1], i);
    }
  }

  /** Whatever was read was known, and whatever was denied has failed. */
  lemma {:induction false} InventoryNested(names: map<string, ToolKind>, exchanges: seq<Exchange>)
    ensures var all := ExchangesInventory(names, exchanges); all.read <= all.known && all.denied <= all.failed
  {
    if exchanges != [] {
      var e := exchanges[|exchanges| - 1];
      InventoryNested(names, exchanges[..|exchanges| - 1]);
      ResultsNested(names, e.calls, e.results);
    }
  }

  lemma {:induction false} ResultsNested(names: map<string, ToolKind>, calls: seq<Call>, results: seq<Receipt>)
    ensures var all := ResultsInventory(names, calls, results); all.read <= all.known && all.denied <= all.failed
  {
    if results != [] {
      ResultsNested(names, calls, results[..|results| - 1]);
    }
  }

  /** A later request whose exchanges extend this one's knows at least as much. */
  lemma {:induction false} InventoryGrows(names: map<string, ToolKind>, exchanges: seq<Exchange>, more: seq<Exchange>)
    ensures var a := ExchangesInventory(names, exchanges);
      var b := ExchangesInventory(names, exchanges + more);
      a.known <= b.known && a.read <= b.read && a.failed <= b.failed && a.denied <= b.denied
    decreases |more|
  {
    if more == [] {
      assert exchanges + more == exchanges;
    } else {
      var n := |more| - 1;
      InventoryGrows(names, exchanges, more[..n]);
      assert (exchanges + more)[..|exchanges + more| - 1] == exchanges + more[..n];
    }
  }

  predicate IsStoredRead(r: PriorReceipt) {
    r.originalAvailable && r.isRead && r.succeeded && r.data.Some?
  }

  /** Every retained URL comes from a receipt the runtime stored at `begin`,
      with a non-blank body: no model claim can add one. */
  lemma RetainedReadsAreReceipts(generationId: string, projections: seq<Projection>, receipts: seq<PriorReceipt>,
          envelopes: seq<Envelope>, u: Url)
    requires u in RetainedReads(Begun(generationId, projections, receipts).prior, envelopes)
    ensures exists i :: 0 <= i < |receipts| && IsStoredRead(receipts[i])
                        && receipts[i].data.value.url == Some(u) && receipts[i].data.value.hasText
  {
    var prior := PriorBodies(receipts);
    var records := envelopes[|envelopes| - 1].records;
    var k :| 0 <= k < |records| && Trusted(prior, records[k]) && prior[records[k].skillRunId].url.value == u;
    PriorBodiesStored(receipts, records[k].skillRunId);
  }

  lemma {:induction false} PriorBodiesStored(receipts: seq<PriorReceipt>, id: string)
    requires id in PriorBodies(receipts)
    ensures exists i :: 0 <= i < |receipts| && receipts[i].skillRunId == id && IsStoredRead(receipts[i])
                        && receipts[i].data == Some(PriorBodies(receipts)[id])
  {
    var n := |receipts| - 1;
    var r := receipts[n];
    if r.skillRunId == id && IsStoredRead(r) {
      assert receipts[n].data == Some(PriorBodies(receipts)[id]);
    } else {
      PriorBodiesStored(receipts[..n], id);
      var i :| 0 <= i < n && receipts[..n][i].skillRunId == id && IsStoredRead(receipts[..n][i])
        && receipts[..n][i].data == Some(PriorBodies(receipts[..n])[id]);
      assert receipts[i] == receipts[..n][i];
    }
  }

  // ----- Post-read search state -----

  ghost predicate ReadBefore(names: map<string, ToolKind>, exchanges: seq<Exchange>, n: nat)
    requires n <= |exchanges|
  {
    exists i :: 0 <= i < n && ReadIn(names, exchanges[i])
  }

  /** A body counts as read if this turn or a retained earlier one brought it. */
  lemma {:induction false} ReadSeenMeaning(names: map<string, ToolKind>, exchanges: seq<Exchange>, prior: bool)
    ensures PostReadState(names, exchanges, prior).readSeen <==> prior || ReadBefore(names, exchanges, |exchanges|)
  {
    if exchanges != [] {
      var n := |exchanges| - 1;
      ReadSeenMeaning(names, exchanges[..n], prior);
      assert ReadBefore(names, exchanges, n) <==> ReadBefore(names, exchanges[..n], n) by {
        assert forall i :: 0 <= i < n ==> exchanges[..n][i] == exchanges[i];
      }
    }
  }

  /** The update search is done exactly when some exchange attempted a search
      after an earlier exchange, or an earlier turn, had brought a body. */
  lemma {:induction false} SearchedAfterReadMeaning(names: map<string, ToolKind>, exchanges: seq<Exchange>, prior: bool)
    ensures PostReadState(names, exchanges, prior).searchedAfterRead <==>
      exists j :: 0 <= j < |exchanges| && SearchIn(names, exchanges[j]) && (prior || ReadBefore(names, exchanges, j))
  {
    if exchanges != [] {
      var n := |exchanges| - 1;
      var earlier := exchanges[..n];
      SearchedAfterReadMeaning(names, earlier, prior);
      ReadSeenMeaning(names, earlier, prior);
      assert forall j :: 0 <= j < n ==> earlier[j] == exchanges[j];
      assert forall j :: 0 <= j <= n ==> ReadBefore(names, earlier, j) == ReadBefore(names, exchanges, j);
    }
  }

  // ----- The inventory check -----

  lemma DistinctSnoc(rows: seq<Row>, earlier: seq<Row>, last: Row)
    requires rows == earlier + [last]
    ensures DistinctUrls(rows) <==> DistinctUrls(earlier) && last.url !in RowUrls(earlier)
  {
    var n := |earlier|;
    assert forall i :: 0 <= i < n ==> rows[i] == earlier[i];
    assert rows[n] == last;
    if last.url in RowUrls(earlier) {
      var i :| 0 <= i < n && earlier[i].url == last.url;
      assert rows[i].url == rows[n].url;
    }
  }

  /** Comparing the number of URLs with the number of rows is exactly the test
      that no URL is listed twice. */
  lemma {:induction false} CountTestsDistinctness(rows: seq<Row>)
    ensures |RowUrls(rows)| <= |rows|
    ensures |RowUrls(rows)| == |rows| <==> DistinctUrls(rows)
  {
    if rows == [] {
      assert RowUrls(rows) == {};
    } else {
      var n := |rows| - 1;
      CountTestsDistinctness(rows[..n]);
      RowUrlsSnoc(rows);
      DistinctSnoc(rows, rows[..n], rows[n]);
    }
  }

  lemma RowUrlsSnoc(rows: seq<Row>)
    requires rows != []
    ensures RowUrls(rows) == RowUrls(rows[..|rows| - 1]) + {rows[|rows| - 1].url}
  {
    var n := |rows| - 1;
    forall u | u in RowUrls(rows)
      ensures u in RowUrls(rows[..n]) + {rows[n].url}
    {
      var i :| 0 <= i < |rows| && rows[i].url == u;
      assert i < n ==> rows[..n][i] == rows[i];
    }
    forall u | u in RowUrls(rows[..n])
      ensures u in RowUrls(rows)
    {
      var i :| 0 <= i < n && rows[..n][i].url == u;
      assert rows[i].url == u;
    }
  }

  // ----- One stream call is safe -----

  /** What an emitted call is allowed to be, in the state it is emitted from. */
  ghost predicate SafeCall(env: Environment, s: Situation, req: Request, p: Provider, call: Call) {
    exists kind: ToolKind :: kind in s.definitions && SafeCallOf(env, s, req, p, call, kind)
  }

  ghost predicate SafeCallOf(env: Environment, s: Situation, req: Request, p: Provider, call: Call, kind: ToolKind)
    requires kind in s.definitions
  {
    && s.remaining > 0
    && call.name == s.definitions[kind].name
    && env.admits(s.definitions[kind].inputSchema, call.arguments)
    && !ActionUsed(req.exchanges, call.name, call.arguments)
    && !IdUsed(req.exchanges, call.callId)
    && (kind == ReadTool ==>
          call.arguments.url.StringUrl?
          && call.arguments.url.url in s.inventory.known
          && call.arguments.url.url !in s.inventory.denied)
    && (NeedsUpdateSearch(s, p) ==> kind == SearchTool)
    && (CanContinueRead(s) && s.remaining == 1 ==> kind == ReadTool)
  }

  ghost predicate SafeFinish(s: Situation, p: Provider, withEvidence: bool, draft: string) {
    && !BlankText(draft)
    && !CanContinueRead(s)
    && !NeedsUpdateSearch(s, p)
    && (s.remaining > 0 ==> !UnreadPending(s, p.pending))
    && (withEvidence ==> p.pending == map[] && !s.readPending)
  }

  /** A judgement that only lets safe decisions through. */
  ghost predicate JudgedSafely(env: Environment, s: Situation, req: Request, j: Judgement, resp: Response) {
    j.verdict.Accepted? ==>
      && IsDecision(resp)
      && var raw := resp.calls[0];
         if ToolFor(raw.payload.action.kind).Some? then
           ToolFor(raw.payload.action.kind).value in s.definitions && SafeCall(env, s, req, j.provider, ActualCall(s, raw))
         else
           SafeFinish(s, j.provider, raw.payload.action.kind == FinishWithEvidence, raw.payload.action.draft)
  }

  /** What an accepted response is: one call of the decision function, with an id
      not used before and arguments that fit the schema of the moment, whose
      inventory lists no URL twice, reads only receipts and leaves only known URLs. */
  lemma AcceptedFits(env: Environment, s: Situation, p: Provider, req: Request, resp: Response)
    requires Judge(env, s, p, req, resp).verdict.Accepted?
    ensures resp.Events? && |resp.calls| == 1 && resp.finishReasons == ["tool_calls"]
    ensures resp.calls[0].name == DECISION_NAME && !IdUsed(req.exchanges, resp.calls[0].callId)
    ensures SchemaValid(env, s, p, resp.calls[0].payload)
    ensures var d := resp.calls[0].payload;
      && DistinctUrls(d.sources) && DistinctUrls(d.updates)
      && RowUrls(d.sources) <= s.inventory.read && RowUrls(d.updates) <= s.inventory.known
  {
    CountTestsDistinctness(resp.calls[0].payload.sources);
    CountTestsDistinctness(resp.calls[0].payload.updates);
  }

  lemma AcceptedIsSafe(env: Environment, s: Situation, p: Provider, req: Request, resp: Response)
    requires Judge(env, s, p, req, resp).verdict.Accepted?
    ensures JudgedSafely(env, s, req, Judge(env, s, p, req, resp), resp)
  {
    var raw := resp.calls[0];
    var q := Judge(env, s, p, req, resp).provider;
    assert q == Absorb(p, raw.payload);
    var tool := ToolFor(raw.payload.action.kind);
    if tool.Some? {
      assert tool.value in Available(s, p);
      assert SafeCallOf(env, s, req, q, ActualCall(s, raw), tool.value);
    }
  }

  /** What an attempt may change in the provider. */
  ghost predicate Advances(s: Situation, p: Provider, q: Provider) {
    && (p.currentRequirements ==> q.currentRequirements)
    && p.pending.Keys <= q.pending.Keys <= p.pending.Keys + s.inventory.known
    && q.names == p.names && q.prior == p.prior && q.generationId == p.generationId
  }

  ghost predicate SafeOutcome(env: Environment, s: Situation, req: Request, r: StreamResult) {
    && !r.outcome.PassedThrough?
    && (r.outcome.Emitted? ==> SafeCall(env, s, req, r.provider, r.outcome.call))
    && (r.outcome.Finished? ==> SafeFinish(s, r.provider, r.outcome.withEvidence, r.outcome.draft))
  }

  /** Whatever the model returns, an emitted call or a finish is safe in the
      state the stream call leaves. */
  lemma {:induction false} AttemptIsSafe(env: Environment, s: Situation, p: Provider, req: Request, oracle: Oracle, i: nat)
    ensures SafeOutcome(env, s, req, Attempt(env, s, p, req, oracle, i))
    decreases CorrectionsLeft(p), 1
  {
    var j := Judge(env, s, p, req, oracle(i));
    if j.verdict.Accepted? {
      AcceptedIsSafe(env, s, p, req, oracle(i));
    }
    ConcludeIsSafe(env, s, j, req, oracle, i);
  }

  lemma {:induction false} ConcludeIsSafe(env: Environment, s: Situation, j: Judgement, req: Request, oracle: Oracle,
          i: nat)
    requires JudgedSafely(env, s, req, j, oracle(i))
    ensures SafeOutcome(env, s, req, Conclude(env, s, j, req, oracle, i))
    decreases CorrectionsLeft(j.provider), 0
  {
    if j.verdict.Accepted? {
      SettleSafe(env, s, j.provider, req, oracle(i).calls[0]);
    } else if j.verdict.Refused? && j.provider.corrections < MAX_DECISION_CORRECTIONS {
      var q := AfterRefusal(s, j);
      AttemptIsSafe(env, s, q.(corrections := q.corrections + 1), req, oracle, i + 1);
    }
  }

  ghost predicate AdvancesTo(s: Situation, p: Provider, r: StreamResult, i: nat) {
    && r.provider.corrections - p.corrections == r.asked - i - 1 >= 0
    && r.provider.corrections <= MAX_DECISION_CORRECTIONS
    && Advances(s, p, r.provider)
    && (r.outcome.Emitted? ==> r.outcome.call.callId in r.provider.native)
  }

  /** Every question asked again used up one correction of the generation, the
      scope stays latched and pending leads only grow, by known URLs. */
  lemma {:induction false} AttemptAdvances(env: Environment, s: Situation, p: Provider, req: Request, oracle: Oracle,
          i: nat)
    requires p.corrections <= MAX_DECISION_CORRECTIONS
    ensures AdvancesTo(s, p, Attempt(env, s, p, req, oracle, i), i)
    decreases CorrectionsLeft(p), 1
  {
    JudgeKeeps(env, s, p, req, oracle(i));
    var j := Judge(env, s, p, req, oracle(i));
    if j.verdict.Accepted? {
      AcceptedIsDecision(env, s, p, req, oracle(i));
    }
    ConcludeAdvances(env, s, j, req, oracle, i);
  }

  lemma {:induction false} ConcludeAdvances(env: Environment, s: Situation, j: Judgement, req: Request,
          oracle: Oracle, i: nat)
    requires j.verdict.Accepted? ==> IsDecision(oracle(i))
    requires j.provider.corrections <= MAX_DECISION_CORRECTIONS
    ensures AdvancesTo(s, j.provider, Conclude(env, s, j, req, oracle, i), i)
    decreases CorrectionsLeft(j.provider), 0
  {
    if j.verdict.Refused? && j.provider.corrections < MAX_DECISION_CORRECTIONS {
      var q := AfterRefusal(s, j);
      AttemptAdvances(env, s, q.(corrections := q.corrections + 1), req, oracle, i + 1);
    }
  }

  lemma SettleSafe(env: Environment, s: Situation, p: Provider, req: Request, raw: RawCall)
    requires raw.payload.Decision?
    requires ToolFor(raw.payload.action.kind).Some? ==>
      ToolFor(raw.payload.action.kind).value in s.definitions && SafeCall(env, s, req, p, ActualCall(s, raw))
    requires ToolFor(raw.payload.action.kind).None? ==>
      SafeFinish(s, p, raw.payload.action.kind == FinishWithEvidence, raw.payload.action.draft)
    ensures SafeOutcome(env, s, req, StreamResult(Settle(s, p, raw).0, Settle(s, p, raw).1, 1))
  {
    var (o, q) := Settle(s, p, raw);
    assert NeedsUpdateSearch(s, q) == NeedsUpdateSearch(s, p);
    if ToolFor(raw.payload.action.kind).Some? {
      var kind: ToolKind :| kind in s.definitions && SafeCallOf(env, s, req, p, ActualCall(s, raw), kind);
      assert SafeCallOf(env, s, req, q, o.call, kind);
    }
  }

  lemma JudgeKeeps(env: Environment, s: Situation, p: Provider, req: Request, resp: Response)
    ensures Advances(s, p, Judge(env, s, p, req, resp).provider)
    ensures Judge(env, s, p, req, resp).provider.corrections == p.corrections
  {
    if resp.Events? && |resp.calls| > 0 && resp.calls[0].payload.Decision? && InventoryError(s, resp.calls[0].payload).None? {
      AbsorbAdvances(s, p, resp.calls[0].payload);
    }
  }

  lemma AbsorbAdvances(s: Situation, p: Provider, d: Payload)
    requires d.Decision? && RowUrls(d.updates) <= s.inventory.known
    ensures Advances(s, p, Absorb(p, d))
  {
    RowsByUrlKeys(d.updates);
  }

  lemma {:induction false} RowsByUrlKeys(rows: seq<Row>)
    ensures RowsByUrl(rows).Keys == RowUrls(rows)
  {
    if rows != [] {
      var n := |rows| - 1;
      RowsByUrlKeys(rows[..n]);
      RowUrlsSnoc(rows);
    }
  }

  // ----- A whole generation -----

  /** One stream call of a generation and what came of it. */
  datatype Turn = Turn(request: Request, before: Provider, oracle: Oracle, result: StreamResult)

  /** The agent calls `stream` again with the emitted call and whatever receipts
      came back appended to the exchanges; nothing else about the next request
      is assumed except that it belongs to the same generation. */
  ghost predicate Follows(a: Turn, b: Turn) {
    && b.before == a.result.provider
    && b.request.generationId == a.request.generationId
    && a.result.outcome.Emitted?
    && exists receipts: seq<Receipt> ::
         b.request.exchanges == a.request.exchanges + [Exchange([a.result.outcome.call], receipts)]
  }

  ghost predicate Generation(env: Environment, turns: seq<Turn>) {
    && turns != []
    && turns[0].before.corrections <= MAX_DECISION_CORRECTIONS
    && (forall k :: 0 <= k < |turns| ==>
          turns[k].result == Stream(env, turns[k].before, turns[k].request, turns[k].oracle))
    && (forall k :: 0 <= k < |turns| - 1 ==> Follows(turns[k], turns[k + 1]))
  }

  function Retried(r: StreamResult): nat { if r.asked <= 1 then 0 else r.asked - 1 }

  /** Retries in the first `n` turns. */
  function TotalRetried(turns: seq<Turn>, n: nat): nat
    requires n <= |turns|
  {
    if n == 0 then 0 else TotalRetried(turns, n - 1) + Retried(turns[n - 1].result)
  }

  /** What one stream call does to the budget, the corrections and the scope. */
  ghost predicate Within(t: Turn) {
    var r := t.result;
    && r.provider.corrections == t.before.corrections + Retried(r)
    && r.provider.corrections <= MAX_DECISION_CORRECTIONS
    && (t.before.currentRequirements ==> r.provider.currentRequirements)
    && r.provider.names == t.before.names && r.provider.prior == t.before.prior
    && r.provider.pending.Keys <= t.before.pending.Keys + InventoryOf(t.before.names, t.before.prior, t.request).known
    && (r.outcome.Emitted? ==>
          && CallCount(t.request.exchanges) < MAX_SOURCE_TOOL_CALLS
          && !ActionUsed(t.request.exchanges, r.outcome.call.name, r.outcome.call.arguments)
          && !IdUsed(t.request.exchanges, r.outcome.call.callId))
  }

  lemma StreamWithin(env: Environment, t: Turn)
    requires t.before.corrections <= MAX_DECISION_CORRECTIONS
    requires t.result == Stream(env, t.before, t.request, t.oracle)
    ensures Within(t)
  {
    var p, req := t.before, t.request;
    var q := p.(pending := WithoutRead(p.pending, InventoryOf(p.names, p.prior, req).read));
    if p.generationId == Some(req.generationId) && IsActive(p, req)
       && !(exists i :: 0 <= i < |req.tools| && req.tools[i].name !in p.names) {
      AttemptIsSafe(env, Situate(env, q, req), q, req, t.oracle, 0);
      AttemptAdvances(env, Situate(env, q, req), q, req, t.oracle, 0);
    }
  }

  ghost predicate Chain(turns: seq<Turn>) {
    && turns != []
    && (forall k :: 0 <= k < |turns| ==> Within(turns[k]))
    && (forall k :: 0 <= k < |turns| - 1 ==> Follows(turns[k], turns[k + 1]))
  }

  lemma {:induction false} CorrectionsBounded(env: Environment, turns: seq<Turn>, k: nat)
    requires Generation(env, turns) && k < |turns|
    ensures turns[k].before.corrections <= MAX_DECISION_CORRECTIONS && Within(turns[k])
  {
    if k > 0 {
      CorrectionsBounded(env, turns, k - 1);
      assert Follows(turns[k - 1], turns[k]);
    }
    StreamWithin(env, turns[k]);
  }

  lemma GenerationIsChain(env: Environment, turns: seq<Turn>)
    requires Generation(env, turns)
    ensures Chain(turns)
  {
    forall k | 0 <= k < |turns|
      ensures Within(turns[k])
    {
      CorrectionsBounded(env, turns, k);
    }
  }

  lemma {:induction false} ChainCorrections(turns: seq<Turn>, k: nat)
    requires Chain(turns) && k < |turns|
    ensures turns[0].before.corrections + TotalRetried(turns, k + 1) == turns[k].result.provider.corrections
  {
    assert Within(turns[k]);
    if k > 0 {
      ChainCorrections(turns, k - 1);
      assert Follows(turns[k - 1], turns[k]);
    }
  }

  /** At most one rejected decision is retried in a whole generation. */
  lemma {:induction false} OneCorrectionPerGeneration(env: Environment, turns: seq<Turn>)
    requires Generation(env, turns)
    ensures turns[0].before.corrections + TotalRetried(turns, |turns|) <= MAX_DECISION_CORRECTIONS
  {
    GenerationIsChain(env, turns);
    ChainCorrections(turns, |turns| - 1);
    assert Within(turns[|turns| - 1]);
  }

  lemma {:induction false} CallCountAppend(exchanges: seq<Exchange>, e: Exchange)
    ensures CallCount(exchanges + [e]) == CallCount(exchanges) + |e.calls|
  {
    assert (exchanges + [e])[..|exchanges|] == exchanges;
  }

  predicate Spent(exchanges: seq<Exchange>, c: Call) {
    ActionUsed(exchanges, c.name, c.arguments) && IdUsed(exchanges, c.callId)
  }

  lemma SpentStays(a: seq<Exchange>, b: seq<Exchange>, c: Call)
    requires a <= b && Spent(a, c)
    ensures Spent(b, c)
  {
    var i, k :| 0 <= i < |a| && 0 <= k < |a[i].calls| && a[i].calls[k].name == c.name && a[i].calls[k].arguments == c.arguments;
    assert b[i] == a[i];
    var i', k' :| 0 <= i' < |a| && 0 <= k' < |a[i'].calls| && a[i'].calls[k'].callId == c.callId;
    assert b[i'] == a[i'];
  }

  lemma SpentByAppending(a: seq<Exchange>, c: Call, receipts: seq<Receipt>)
    ensures Spent(a + [Exchange([c], receipts)], c)
  {
    var b := a + [Exchange([c], receipts)];
    assert b[|a|].calls[0] == c;
  }

  lemma {:induction false} ChainBudget(turns: seq<Turn>, k: nat)
    requires Chain(turns) && k < |turns|
    ensures CallCount(turns[k].request.exchanges) == CallCount(turns[0].request.exchanges) + k
    ensures forall m :: 0 <= m < k ==>
      turns[m].result.outcome.Emitted? && Spent(turns[k].request.exchanges, turns[m].result.outcome.call)
  {
    if k > 0 {
      ChainBudget(turns, k - 1);
      assert Follows(turns[k - 1], turns[k]);
      var a, b := turns[k - 1], turns[k];
      var call := a.result.outcome.call;
      var receipts: seq<Receipt> :| b.request.exchanges == a.request.exchanges + [Exchange([call], receipts)];
      CallCountAppend(a.request.exchanges, Exchange([call], receipts));
      SpentByAppending(a.request.exchanges, call, receipts);
      forall m | 0 <= m < k - 1
        ensures Spent(b.request.exchanges, turns[m].result.outcome.call)
      {
        SpentStays(a.request.exchanges, b.request.exchanges, turns[m].result.outcome.call);
      }
    }
  }

  /** Over a whole generation the protocol never pushes the number of source
      calls past the allowance, never repeats an action, and never reuses an id. */
  lemma GenerationWithinAllowance(env: Environment, turns: seq<Turn>, k: nat)
    requires Generation(env, turns) && k < |turns| && turns[k].result.outcome.Emitted?
    ensures CallCount(turns[0].request.exchanges) + k + 1 <= MAX_SOURCE_TOOL_CALLS
    ensures forall m :: 0 <= m < k ==>
      && turns[m].result.outcome.Emitted?
      && turns[m].result.outcome.call.callId != turns[k].result.outcome.call.callId
      && (turns[m].result.outcome.call.name, turns[m].result.outcome.call.arguments)
         != (turns[k].result.outcome.call.name, turns[k].result.outcome.call.arguments)
  {
    GenerationIsChain(env, turns);
    ChainBudget(turns, k);
    assert Within(turns[k]);
  }

  // ----- What the model is shown loses nothing -----

  function FindExecuted(results: seq<WireReceipt>, id: string): Option<Call> {
    if results == [] then None
    else if results[0].DecisionReceipt? && results[0].callId == id then Some(results[0].executedCall)
    else FindExecuted(results[1..], id)
  }

  function RestoreReceipt(r: WireReceipt): Receipt {
    match r
    case PlainReceipt(receipt) => receipt
    case DecisionReceipt(id, isError, call, content) => Receipt(id, call.name, isError, content)
  }

  function RestoreCall(results: seq<WireReceipt>, c: WireCall): Option<Call> {
    match c
    case PlainCall(call) => Some(call)
    case NativeCall(raw) => FindExecuted(results, raw.callId)
  }

  /** The exchanges the agent builds: ids are distinct, receipts carry the name
      of their call, and every emitted decision was answered. */
  ghost predicate AgentExchange(native: map<string, RawCall>, e: Exchange) {
    && Shown(native, e)
    && (forall id :: id in native ==> native[id].callId == id)
    && (forall k :: 0 <= k < |e.calls| ==> Lookup(e.calls, e.calls[k].callId) == Some(e.calls[k]))
    && (forall k :: 0 <= k < |e.results| && e.results[k].callId in native ==>
          e.results[k].name == Lookup(e.calls, e.results[k].callId).value.name)
    && (forall k :: 0 <= k < |e.calls| && e.calls[k].callId in native ==>
          exists r :: 0 <= r < |e.results| && e.results[r].callId == e.calls[k].callId)
  }

  lemma {:induction false} FindExecutedFinds(results: seq<WireReceipt>, id: string, k: nat, call: Call)
    requires k < |results| && results[k].DecisionReceipt? && results[k].callId == id
    requires forall i :: 0 <= i < |results| && results[i].DecisionReceipt? && results[i].callId == id ==> results[i].executedCall == call
    ensures FindExecuted(results, id) == Some(call)
  {
    if !(results[0].DecisionReceipt? && results[0].callId == id) {
      FindExecutedFinds(results[1..], id, k - 1, call);
    }
  }

  /** The executed calls and their receipts can be read back from the wire
      history, although it names only the decision function. */
  lemma WireRoundTrip(native: map<string, RawCall>, e: Exchange)
    requires AgentExchange(native, e)
    ensures var w := WireOf(native, e);
      && |w.calls| == |e.calls| && |w.results| == |e.results|
      && (forall k :: 0 <= k < |e.calls| ==> RestoreCall(w.results, w.calls[k]) == Some(e.calls[k]))
      && (forall k :: 0 <= k < |e.results| ==> RestoreReceipt(w.results[k]) == e.results[k])
  {
    var w := WireOf(native, e);
    forall k | 0 <= k < |e.calls| && e.calls[k].callId in native
      ensures RestoreCall(w.results, w.calls[k]) == Some(e.calls[k])
    {
      var r :| 0 <= r < |e.results| && e.results[r].callId == e.calls[k].callId;
      assert w.results[r].DecisionReceipt?;
      FindExecutedFinds(w.results, e.calls[k].callId, r, e.calls[k]);
    }
  }
}
