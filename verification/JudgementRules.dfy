/** How one decision is judged, check by check, and what a stream call makes of the
    verdicts (tools/source_decision_evaluation.py). */
module JudgementRules {
  import opened Checks
  import opened Text
  import opened Wrappers
  import opened SourceDecision
  import opened SourceDecisionSafety

  // ----- What the moment demands -----

  predicate Https(u: Url) { |u| >= 8 && u[..8] == "https://" }

  /** A known lead that was not tried yet. */
  predicate Untried(s: Situation, u: Url) {
    u in s.inventory.known && u !in s.inventory.read && u !in s.inventory.failed && u !in s.inventory.denied && Https(u)
  }

  /** A read is due and can be made. */
  ghost predicate ReadDue(s: Situation) {
    s.readPending && s.remaining >= 1 && ReadTool in s.definitions && exists u :: Untried(s, u)
  }

  /** Claimed leads that were neither read nor failed. */
  predicate ClaimOpen(s: Situation, pending: map<Url, Row>, u: Url) {
    u in pending && Https(u) && u !in s.inventory.failed && u !in s.inventory.read
  }

  predicate ClaimNotFailed(s: Situation, pending: map<Url, Row>, u: Url) { u in pending && Https(u) && u !in s.inventory.failed }

  /** Current requirements were read but not searched for since, and there is room for
      a search and a read. */
  ghost predicate UpdateDue(s: Situation, p: Provider) {
    && p.currentRequirements && !s.readPending && s.postRead.readSeen && !s.postRead.searchedAfterRead
    && s.remaining >= 2 && SearchTool in s.definitions && !exists u :: ClaimOpen(s, p.pending, u)
  }

  /** The tools that the schema of the moment lists. */
  ghost predicate Lists(s: Situation, p: Provider, kind: ToolKind) {
    if ReadDue(s) && s.remaining == 1 then kind == ReadTool
    else if UpdateDue(s, p) then kind == SearchTool
    else kind in s.definitions
  }

  ghost predicate ListsAction(s: Situation, p: Provider, kind: ActionKind) {
    match kind
    case Search => Lists(s, p, SearchTool)
    case Read => Lists(s, p, ReadTool)
    case FinishWithGaps => MayFinish(s, p)
    case FinishWithEvidence => MayFinish(s, p) && !s.readPending
  }

  ghost predicate MayFinish(s: Situation, p: Provider) {
    !ReadDue(s) && !UpdateDue(s, p) && (s.remaining >= 1 ==> !exists u :: ClaimNotFailed(s, p.pending, u))
  }

  /** The decision fits the schema of the moment. */
  ghost predicate FitsNow(env: Environment, s: Situation, p: Provider, d: Payload) {
    && d.Decision?
    && |d.sources| <= 12 && |d.updates| <= 20 && |d.action.draft| <= 16000
    && (forall i :: 0 <= i < |d.sources| ==> RowFits(d.sources[i])) && (forall i :: 0 <= i < |d.updates| ==> RowFits(d.updates[i]))
    && ListsAction(s, p, d.action.kind)
    && (d.action.arguments != Arguments(NoUrl, map[]) ==>
          exists kinds :: IsListed(s, p, kinds) && env.flat(kinds, d.action.arguments))
  }

  ghost predicate IsListed(s: Situation, p: Provider, kinds: set<ToolKind>) { forall kind :: kind in kinds <==> Lists(s, p, kind) }

  predicate RowFits(row: Row) { 9 <= |row.url| <= 2048 && |row.note| <= 500 }

  lemma ListedExactly(s: Situation, p: Provider)
    ensures CanContinueRead(s) <==> ReadDue(s)
    ensures NeedsUpdateSearch(s, p) <==> UpdateDue(s, p)
    ensures forall kind :: kind in Available(s, p) <==> Lists(s, p, kind)
  {
    if ReadDue(s) {
      var u :| Untried(s, u);
      assert OpenLead(s, u);
    }
    if CanContinueRead(s) {
      var u :| u in s.inventory.known && OpenLead(s, u);
      assert Untried(s, u);
    }
    OpenExactly(s, p.pending);
  }

  lemma OpenExactly(s: Situation, pending: map<Url, Row>)
    ensures UnreadPending(s, pending) <==> exists u :: ClaimOpen(s, pending, u)
  {
    if UnreadPending(s, pending) {
      var u :| u in pending && IsHttps(u) && u !in s.inventory.failed && u !in s.inventory.read;
      assert ClaimOpen(s, pending, u);
    }
    if u :| ClaimOpen(s, pending, u) {
      assert IsHttps(u);
    }
  }

  lemma OfferedExactly(s: Situation, p: Provider, kind: ActionKind)
    ensures Offered(s, p, kind) <==> ListsAction(s, p, kind)
  {
    ListedExactly(s, p);
    if u :| u in p.pending && IsHttps(u) && u !in s.inventory.failed {
      assert ClaimNotFailed(s, p.pending, u);
    }
    if u :| ClaimNotFailed(s, p.pending, u) {
      assert IsHttps(u);
    }
  }

  lemma FitsExactly(env: Environment, s: Situation, p: Provider, d: Payload)
    ensures SchemaValid(env, s, p, d) <==> FitsNow(env, s, p, d)
  {
    if d.Decision? {
      ListedExactly(s, p);
      OfferedExactly(s, p, d.action.kind);
      assert IsListed(s, p, Available(s, p));
      forall kinds | IsListed(s, p, kinds)
        ensures kinds == Available(s, p)
      {}
      assert RowsFit(d.sources, 12) <==> |d.sources| <= 12 && forall i :: 0 <= i < |d.sources| ==> RowFits(d.sources[i]);
      assert RowsFit(d.updates, 20) <==> |d.updates| <= 20 && forall i :: 0 <= i < |d.updates| ==> RowFits(d.updates[i]);
    }
  }

  // ----- The checks -----

  predicate OnlyCall(resp: Response) { resp.Events? && |resp.calls| == 1 && resp.calls[0].name == "cw2_source_decision_v4" }

  predicate NewId(exchanges: seq<Exchange>, id: string) {
    forall i, k :: 0 <= i < |exchanges| && 0 <= k < |exchanges[i].calls| ==> exchanges[i].calls[k].callId != id
  }

  predicate NewAction(exchanges: seq<Exchange>, tool: Tool, arguments: Arguments) {
    forall i, k :: 0 <= i < |exchanges| && 0 <= k < |exchanges[i].calls| ==>
      exchanges[i].calls[k].name != tool.name || exchanges[i].calls[k].arguments != arguments
  }

  /** What is looked at before the decision itself. */
  ghost function WireChecks(env: Environment, s: Situation, p: Provider, req: Request, resp: Response): seq<Check<ErrorCode>> {
    [Check(resp.Events?, ProviderUnknownTool),
     Check(resp.Events? && resp.finishReasons == ["tool_calls"], MissingNativeTerminal),
     Check(OnlyCall(resp), ExactlyOneKnownDecisionRequired),
     Check(OnlyCall(resp) && NewId(req.exchanges, resp.calls[0].callId), DuplicateCallId),
     Check(OnlyCall(resp) && FitsNow(env, s, p, resp.calls[0].payload), InvalidSchema)]
  }

  ghost predicate NoUrlTwice(rows: seq<Row>) { forall i, j :: 0 <= i < j < |rows| ==> rows[i].url != rows[j].url }

  predicate AllUrlsIn(rows: seq<Row>, urls: set<Url>) { forall i :: 0 <= i < |rows| ==> rows[i].url in urls }

  /** What its inventory claims. */
  ghost function InventoryChecks(s: Situation, d: Payload): seq<Check<ErrorCode>>
    requires d.Decision?
  {
    [Check(NoUrlTwice(d.sources) && NoUrlTwice(d.updates), DuplicateInventoryUrl),
     Check(AllUrlsIn(d.sources, s.inventory.read), ReadReceiptMissing),
     Check(AllUrlsIn(d.updates, s.inventory.known), UnknownPendingUrl)]
  }

  /** The tool of an action that calls one. */
  function ToolOf(s: Situation, kind: ActionKind): Option<Tool> {
    if kind == Search && SearchTool in s.definitions then Some(s.definitions[SearchTool])
    else if kind == Read && ReadTool in s.definitions then Some(s.definitions[ReadTool])
    else None
  }

  predicate Finishes(a: Action) { a.kind == FinishWithEvidence || a.kind == FinishWithGaps }

  const UNDISCOVERED: int := 5

  /** Its action, with the claims of the decision taken up in `q`. */
  ghost function ActionChecks(env: Environment, s: Situation, q: Provider, req: Request, a: Action): seq<Check<ErrorCode>> {
    var tool := ToolOf(s, a.kind);
    [Check(UpdateDue(s, q) ==> a.kind == Search, PostReadUpdateSearchRequired),
     Check(tool.Some? ==> env.admits(tool.value.inputSchema, a.arguments) && a.draft == "", InvalidCapabilityArguments),
     Check(Finishes(a) ==> a.arguments == Arguments(NoUrl, map[]) && exists i :: 0 <= i < |a.draft| && !Whitespace(a.draft[i]),
           InvalidFinishDraft),
     Check(a.kind == FinishWithEvidence ==> q.pending == map[], UnresolvedEvidence),
     Check(Finishes(a) && s.remaining >= 1 ==> !exists u :: ClaimOpen(s, q.pending, u), AvailableUnreadLead),
     Check(a.kind == Read ==> a.arguments.url.StringUrl? && a.arguments.url.url in s.inventory.known, UndiscoveredReadUrl),
     Check(a.kind == Read && a.arguments.url.StringUrl? ==> a.arguments.url.url !in s.inventory.denied, DeniedReadRetry),
     Check(tool.Some? ==> s.remaining >= 1, SourceCallLimit),
     Check(tool.Some? ==> NewAction(req.exchanges, tool.value, a.arguments), DuplicateAction)]
  }

  predicate LastOfUrl(rows: seq<Row>, i: int) {
    0 <= i < |rows| && forall j :: i < j < |rows| ==> rows[j].url != rows[i].url
  }

  /** The scope is latched, and the claimed leads are added to those pending. */
  ghost predicate TakesUp(p: Provider, d: Payload, q: Provider)
    requires d.Decision?
  {
    && q == p.(pending := q.pending, currentRequirements := q.currentRequirements)
    && (q.currentRequirements <==> p.currentRequirements || d.scope == CurrentRequirements)
    && (forall u :: u in q.pending <==> u in p.pending || exists i :: 0 <= i < |d.updates| && d.updates[i].url == u)
    && (forall i :: LastOfUrl(d.updates, i) ==> d.updates[i].url in q.pending && q.pending[d.updates[i].url] == d.updates[i])
    && (forall u :: u in p.pending && (forall i :: 0 <= i < |d.updates| ==> d.updates[i].url != u) ==> q.pending[u] == p.pending[u])
  }

  predicate HoldsRow(rows: seq<Row>, held: map<Url, Row>, i: int)
    requires 0 <= i < |rows|
  {
    rows[i].url in held && held[rows[i].url] == rows[i]
  }

  lemma {:induction false} LastRowsHeld(rows: seq<Row>, i: int)
    requires LastOfUrl(rows, i)
    ensures HoldsRow(rows, RowsByUrl(rows), i)
  {
    var n := |rows| - 1;
    if i < n {
      assert rows[n].url != rows[i].url;
      LastRowsHeld(rows[..n], i);
      assert HoldsRow(rows[..n], RowsByUrl(rows[..n]), i);
    }
  }

  lemma RowsByUrlAre(rows: seq<Row>)
    ensures forall u :: u in RowsByUrl(rows) <==> exists i :: 0 <= i < |rows| && rows[i].url == u
    ensures forall i :: LastOfUrl(rows, i) ==> HoldsRow(rows, RowsByUrl(rows), i)
  {
    hide RowsByUrl;
    RowsByUrlKeys(rows);
    forall i | LastOfUrl(rows, i)
      ensures HoldsRow(rows, RowsByUrl(rows), i)
    {
      LastRowsHeld(rows, i);
    }
  }

  lemma AbsorbTakesUp(p: Provider, d: Payload)
    requires d.Decision?
    ensures TakesUp(p, d, Absorb(p, d))
  {
    hide RowsByUrl;
    RowsByUrlAre(d.updates);
    assert forall i :: LastOfUrl(d.updates, i) ==> HoldsRow(d.updates, RowsByUrl(d.updates), i);
  }

  // ----- The verdict -----

  /** The verdict is that of the first check that fails; a read without a URL faults
      where the URL is looked up. The claims of a decision are kept once its inventory
      is right, even if its action is then refused. */
  ghost predicate JudgedByChecks(env: Environment, s: Situation, p: Provider, req: Request, resp: Response, j: Judgement) {
    if resp.Failure? then j == Judgement(Faulted, p)
    else
      var wire := WireChecks(env, s, p, req, resp);
      if !AllHold(wire) then RefusedBy(wire, j.verdict) && j.provider == p
      else OnlyCall(resp) && JudgedDecision(env, s, p, req, resp.calls[0].payload, j)
  }

  ghost predicate RefusedBy(checks: seq<Check<ErrorCode>>, verdict: Verdict) {
    exists k :: FirstFailing(checks, k) && verdict == Refused(checks[k].refusal)
  }

  ghost predicate JudgedDecision(env: Environment, s: Situation, p: Provider, req: Request, d: Payload, j: Judgement) {
    && d.Decision?
    && var claims := InventoryChecks(s, d);
       if !AllHold(claims) then RefusedBy(claims, j.verdict) && j.provider == p
       else TakesUp(p, d, j.provider) && JudgedAction(env, s, j.provider, req, d.action, j.verdict)
  }

  ghost predicate JudgedAction(env: Environment, s: Situation, q: Provider, req: Request, a: Action, verdict: Verdict) {
    var checks := ActionChecks(env, s, q, req, a);
    if AllHold(checks) then verdict == Accepted
    else if FirstFailing(checks, UNDISCOVERED) && a.arguments.url.NoUrl? then verdict == Faulted
    else RefusedBy(checks, verdict)
  }

  lemma WireExactly(env: Environment, s: Situation, p: Provider, req: Request, resp: Response)
    requires !resp.Failure?
    ensures var checks := WireChecks(env, s, p, req, resp);
      && (WireError(env, s, p, req, resp).None? <==> AllHold(checks))
      && (WireError(env, s, p, req, resp).Some? ==> RefusedBy(checks, Refused(WireError(env, s, p, req, resp).value)))
  {
    var checks := WireChecks(env, s, p, req, resp);
    if OnlyCall(resp) {
      FitsExactly(env, s, p, resp.calls[0].payload);
    }
    assert AllHold(checks) ==> checks[0].holds && checks[1].holds && checks[2].holds && checks[3].holds && checks[4].holds;
    if !AllHold(checks) {
      var k := SomeFirst(checks);
      assert (k > 0 ==> checks[0].holds) && (k > 1 ==> checks[1].holds) && (k > 2 ==> checks[2].holds) && (k > 3 ==> checks[3].holds);
    }
  }

  lemma ClaimsExactly(s: Situation, d: Payload)
    requires d.Decision?
    ensures var checks := InventoryChecks(s, d);
      && (InventoryError(s, d).None? <==> AllHold(checks))
      && (InventoryError(s, d).Some? ==> RefusedBy(checks, Refused(InventoryError(s, d).value)))
  {
    var checks := InventoryChecks(s, d);
    CountTestsDistinctness(d.sources);
    CountTestsDistinctness(d.updates);
    UrlsIn(d.sources, s.inventory.read);
    UrlsIn(d.updates, s.inventory.known);
    assert AllHold(checks) ==> checks[0].holds && checks[1].holds && checks[2].holds;
    if !AllHold(checks) {
      var k := SomeFirst(checks);
      assert (k > 0 ==> checks[0].holds) && (k > 1 ==> checks[1].holds);
    }
  }

  lemma UrlsIn(rows: seq<Row>, urls: set<Url>)
    ensures RowUrls(rows) <= urls <==> AllUrlsIn(rows, urls)
  {
    forall i | 0 <= i < |rows|
      ensures rows[i].url in RowUrls(rows)
    {}
  }

  /** The checks of the action, in the order of the code. */
  lemma ActionExactly(env: Environment, s: Situation, q: Provider, req: Request, a: Action)
    requires (a.kind == Search ==> SearchTool in s.definitions) && (a.kind == Read ==> ReadTool in s.definitions)
    ensures JudgedAction(env, s, q, req, a, ActionVerdict(env, s, q, req, a))
  {
    var checks := ActionChecks(env, s, q, req, a);
    ListedExactly(s, q);
    OpenExactly(s, q.pending);
    ToolExactly(s, a.kind);
    assert AllHold(checks) ==> checks[0].holds && checks[1].holds && checks[2].holds && checks[3].holds && checks[4].holds;
    assert AllHold(checks) ==> checks[5].holds && checks[6].holds && checks[7].holds && checks[8].holds;
    if !AllHold(checks) {
      var k := SomeFirst(checks);
      assert (k > 0 ==> checks[0].holds) && (k > 1 ==> checks[1].holds) && (k > 2 ==> checks[2].holds) && (k > 3 ==> checks[3].holds);
      assert (k > 4 ==> checks[4].holds) && (k > 5 ==> checks[5].holds) && (k > 6 ==> checks[6].holds) && (k > 7 ==> checks[7].holds);
    }
  }

  lemma ToolExactly(s: Situation, kind: ActionKind)
    ensures ToolOf(s, kind).Some? <==> ToolFor(kind).Some? && ToolFor(kind).value in s.definitions
    ensures ToolOf(s, kind).Some? ==> ToolOf(s, kind).value == s.definitions[ToolFor(kind).value]
  {}

  /** Whatever the model answers: the verdict, and the state that it leaves. */
  lemma JudgeExactly(env: Environment, s: Situation, p: Provider, req: Request, resp: Response)
    ensures JudgedByChecks(env, s, p, req, resp, Judge(env, s, p, req, resp))
  {
    if !resp.Failure? {
      WireExactly(env, s, p, req, resp);
      if WireError(env, s, p, req, resp).None? {
        var d := resp.calls[0].payload;
        assert WireChecks(env, s, p, req, resp)[4].holds && WireChecks(env, s, p, req, resp)[2].holds;
        ClaimsExactly(s, d);
        AbsorbTakesUp(p, d);
        ListedTools(s, p, d.action.kind);
        ActionExactly(env, s, Absorb(p, d), req, d.action);
      }
    }
  }

  lemma ListedTools(s: Situation, p: Provider, kind: ActionKind)
    ensures ListsAction(s, p, kind) ==>
              (kind == Search ==> SearchTool in s.definitions) && (kind == Read ==> ReadTool in s.definitions)
  {}

  // ----- What comes of an accepted decision -----

  /** A search or a read is emitted under its own name and remembered with the decision
      that stands for it; anything else ends the turn with the draft. */
  ghost predicate ComesTo(s: Situation, p: Provider, raw: RawCall, outcome: Outcome, q: Provider)
    requires raw.payload.Decision?
  {
    var a := raw.payload.action;
    && q == p.(native := q.native, records := q.records)
    && if ToolOf(s, a.kind).Some? then
         && outcome == Emitted(Call(raw.callId, ToolOf(s, a.kind).value.name, a.arguments))
         && q.native == p.native[raw.callId := raw]
         && q.records == p.records + [RecordEntry(s.remaining, None, Some(outcome.call))]
       else
         && outcome == Finished(a.kind == FinishWithEvidence, a.draft)
         && q.native == p.native && q.records == p.records + [RecordEntry(s.remaining, None, None)]
  }

  lemma SettleExactly(s: Situation, p: Provider, raw: RawCall)
    requires raw.payload.Decision?
    ensures ComesTo(s, p, raw, Settle(s, p, raw).0, Settle(s, p, raw).1)
  {
    ToolExactly(s, raw.payload.action.kind);
  }

  // ----- One stream call -----

  /** A refusal is recorded with its code. */
  function Recorded(s: Situation, q: Provider, code: ErrorCode): Provider {
    q.(records := q.records + [RecordEntry(s.remaining, Some(code), None)])
  }

  /** The last question: any refusal of it is final. */
  ghost predicate Ends(s: Situation, resp: Response, j: Judgement, r: StreamResult, asked: nat) {
    && r.asked == asked
    && match j.verdict
       case Faulted => r.outcome == Raised && r.provider == j.provider
       case Accepted => IsDecision(resp) && ComesTo(s, j.provider, resp.calls[0], r.outcome, r.provider)
       case Refused(code) => r.outcome == Rejected(code) && r.provider == Recorded(s, j.provider, code)
  }

  /** At most two questions: a refused first answer is asked for again if the
      generation has not used its correction. */
  ghost predicate AsksAtMostTwice(env: Environment, s: Situation, p: Provider, req: Request, oracle: Oracle, r: StreamResult) {
    var first := Judge(env, s, p, req, oracle(0));
    if first.verdict.Refused? && p.corrections == 0 then
      var again := Recorded(s, first.provider, first.verdict.code).(corrections := 1);
      Ends(s, oracle(1), Judge(env, s, again, req, oracle(1)), r, 2)
    else Ends(s, oracle(0), first, r, 1)
  }

  lemma ConcludeEnds(env: Environment, s: Situation, j: Judgement, req: Request, oracle: Oracle, i: nat)
    requires j.verdict.Accepted? ==> IsDecision(oracle(i))
    requires j.provider.corrections >= 1 || !j.verdict.Refused?
    ensures Ends(s, oracle(i), j, Conclude(env, s, j, req, oracle, i), i + 1)
  {
    if j.verdict.Accepted? {
      SettleExactly(s, j.provider, oracle(i).calls[0]);
    }
  }

  lemma AttemptEnds(env: Environment, s: Situation, p: Provider, req: Request, oracle: Oracle, i: nat)
    requires p.corrections >= 1 || !Judge(env, s, p, req, oracle(i)).verdict.Refused?
    ensures Ends(s, oracle(i), Judge(env, s, p, req, oracle(i)), Attempt(env, s, p, req, oracle, i), i + 1)
  {
    var j := Judge(env, s, p, req, oracle(i));
    if j.verdict.Accepted? {
      AcceptedIsDecision(env, s, p, req, oracle(i));
    }
    hide Judge;
    ConcludeEnds(env, s, j, req, oracle, i);
  }

  lemma AttemptExactly(env: Environment, s: Situation, p: Provider, req: Request, oracle: Oracle)
    ensures AsksAtMostTwice(env, s, p, req, oracle, Attempt(env, s, p, req, oracle, 0))
  {
    hide Judge, Ends, Settle;
    var first := Judge(env, s, p, req, oracle(0));
    if first.verdict.Refused? && p.corrections == 0 {
      var again := Recorded(s, first.provider, first.verdict.code).(corrections := 1);
      AttemptEnds(env, s, again, req, oracle, 1);
      assert Attempt(env, s, p, req, oracle, 0) == Conclude(env, s, first, req, oracle, 0);
      assert AfterRefusal(s, first) == Recorded(s, first.provider, first.verdict.code);
    } else {
      AttemptEnds(env, s, p, req, oracle, 0);
    }
  }

  /** Claims that were read since are dropped first. */
  ghost predicate Trimmed(p: Provider, read: set<Url>, q: Provider) {
    && q == p.(pending := q.pending)
    && (forall u :: u in q.pending <==> u in p.pending && u !in read)
    && (forall u :: u in q.pending ==> q.pending[u] == p.pending[u])
  }

  /** All that one stream call does. */
  ghost predicate StreamIs(env: Environment, p: Provider, req: Request, oracle: Oracle, r: StreamResult) {
    if p.generationId != Some(req.generationId) then r == StreamResult(Rejected(GenerationMismatch), p, 0)
    else exists q :: Trimmed(p, InventoryOf(p.names, p.prior, req).read, q) && StreamOn(env, q, req, oracle, r)
  }

  ghost predicate StreamOn(env: Environment, q: Provider, req: Request, oracle: Oracle, r: StreamResult) {
    if q.names == map[] || req.tools == [] || req.exchanges == [] then
      && r.provider == q && r.asked == 0 && r.outcome.PassedThrough?
      && r.outcome.gaps == q.pending.Keys && r.outcome.readMissing == env.requiresRead(req.exchanges)
      && var post := PostReadState(q.names, req.exchanges, RetainedReads(q.prior, req.envelopes) != {});
         r.outcome.updateSearchMissing <==> q.currentRequirements && post.readSeen && !post.searchedAfterRead
    else if forall i :: 0 <= i < |req.tools| ==> req.tools[i].name in q.names then
      AsksAtMostTwice(env, Situate(env, q, req), q, req, oracle, r)
    else r == StreamResult(Rejected(MixedSourceProjection), q, 0)
  }

  lemma StreamExactly(env: Environment, p: Provider, req: Request, oracle: Oracle)
    ensures StreamIs(env, p, req, oracle, Stream(env, p, req, oracle))
  {
    hide InventoryOf, PostReadState, RetainedReads, AsksAtMostTwice, Attempt;
    var read := InventoryOf(p.names, p.prior, req).read;
    var q := p.(pending := WithoutRead(p.pending, read));
    assert Trimmed(p, read, q);
    if forall i :: 0 <= i < |req.tools| ==> req.tools[i].name in q.names {
      AttemptExactly(env, Situate(env, q, req), q, req, oracle);
    }
  }

  // ----- What the model is shown -----

  /** A call that a decision stands for is shown as that decision, any other as it is;
      so are their receipts. */
  lemma ShowsDecisions(native: map<string, RawCall>, e: Exchange)
    requires Shown(native, e)
    ensures var w := WireOf(native, e);
      && |w.calls| == |e.calls| && |w.results| == |e.results|
      && (forall k :: 0 <= k < |e.calls| ==>
            w.calls[k] == if e.calls[k].callId in native then NativeCall(native[e.calls[k].callId]) else PlainCall(e.calls[k]))
      && (forall k :: 0 <= k < |e.results| && e.results[k].callId in native ==>
            && w.results[k].DecisionReceipt? && w.results[k].callId == e.results[k].callId
            && w.results[k].isError == e.results[k].isError && w.results[k].executedResult == e.results[k].content
            && Some(w.results[k].executedCall) == Lookup(e.calls, e.results[k].callId))
      && (forall k :: 0 <= k < |e.results| && e.results[k].callId !in native ==> w.results[k] == PlainReceipt(e.results[k]))
  {}
}
