/** The provider: per-generation dictionaries and flags that its methods update,
    the receipt loops, and the retry loop.  Each method is
    proved against the functions of `SourceDecision`
    (tools/source_decision_evaluation.py). */
module SourceDecisionProviderObject {
  import opened Wrappers
  import opened SourceDecision
  import opened SourceDecisionRules

  class SourceDecisionProvider {
    const env: Environment
    var generationId: Option<string>
    var names: map<string, ToolKind>
    var priorReadBodies: map<string, Body>
    var pending: map<Url, Row>
    var native: map<string, RawCall>
    var corrections: nat
    var currentRequirements: bool
    var records: seq<RecordEntry>

    ghost function Model(): Provider
      reads this
    {
      Provider(generationId, names, priorReadBodies, pending, native, corrections, currentRequirements, records)
    }

    constructor (env: Environment)
      ensures this.env == env && generationId == None && corrections == 0
    {
      this.env := env;
      generationId, names, priorReadBodies, pending, native := None, map[], map[], map[], map[];
      corrections, currentRequirements, records := 0, false, [];
    }

    /** Clears everything the previous generation left. */
    method Begin(generation: string, projections: seq<Projection>, receipts: seq<PriorReceipt>)
      modifies this
      ensures Model() == Begun(generation, projections, receipts)
      ensures StartsFresh(generation, projections, receipts, Model())
    {
      generationId := Some(generation);
      names := map[];
      if projections != [] && forall i :: 0 <= i < |projections| ==> projections[i].readOnly && projections[i].skillId in {"web.search", "web.read"} {
        for i := 0 to |projections|
          invariant names == ToolNames(projections[..i])
          modifies this`names
        {
          assert projections[..i + 1][..i] == projections[..i];
          names := names[projections[i].name := if projections[i].skillId == "web.search" then SearchTool else ReadTool];
        }
        assert projections[..|projections|] == projections;
      }
      native, pending, records, corrections, currentRequirements := map[], map[], [], 0, false;
      priorReadBodies := map[];
      for i := 0 to |receipts|
        invariant priorReadBodies == PriorBodies(receipts[..i])
        modifies this`priorReadBodies
      {
        assert receipts[..i + 1][..i] == receipts[..i];
        var r := receipts[i];
        if r.originalAvailable && r.isRead && r.succeeded && r.data.Some? {
          priorReadBodies := priorReadBodies[r.skillRunId := r.data.value];
        }
      }
      assert receipts[..|receipts|] == receipts;
      hide *;
      BeginExactly(generation, projections, receipts);
    }

    method RetainedPriorReadUrls(envelopes: seq<Envelope>) returns (urls: set<Url>)
      ensures urls == RetainedReads(priorReadBodies, envelopes)
    {
      urls := {};
      if envelopes == [] || envelopes[|envelopes| - 1].Unreadable? {
        return;
      }
      var records := envelopes[|envelopes| - 1].records;
      for i := 0 to |records|
        invariant urls == set k | 0 <= k < i && Trusted(priorReadBodies, records[k]) :: priorReadBodies[records[k].skillRunId].url.value
      {
        var r := records[i];
        if r.skillRunId in priorReadBodies {
          var body := priorReadBodies[r.skillRunId];
          if r.isRead && r.succeeded && r.available && r.data == Some(body) && body.url.Some? && body.url.value != "" && body.hasText {
            urls := urls + {body.url.value};
          }
        }
      }
    }

    method PostReadSearchState(req: Request) returns (readSeen: bool, searchedAfterRead: bool)
      ensures PostRead(readSeen, searchedAfterRead) == PostReadState(names, req.exchanges, RetainedReads(priorReadBodies, req.envelopes) != {})
    {
      var retained := RetainedPriorReadUrls(req.envelopes);
      readSeen := retained != {};
      searchedAfterRead := false;
      for i := 0 to |req.exchanges|
        invariant PostRead(readSeen, searchedAfterRead) == PostReadState(names, req.exchanges[..i], retained != {})
      {
        var e := req.exchanges[i];
        ghost var searchedBefore := searchedAfterRead;
        var readInExchange := false;
        for k := 0 to |e.results|
          invariant readInExchange <==> exists m :: 0 <= m < k && KindOf(names, e.calls, e.results[m]) == Some(ReadTool) && BodyReceived(e.results[m])
          invariant searchedAfterRead <==>
            (searchedBefore || (readSeen && exists m :: 0 <= m < k && KindOf(names, e.calls, e.results[m]) == Some(SearchTool)))
        {
          var kind := KindOf(names, e.calls, e.results[k]);
          if kind == Some(SearchTool) && readSeen {
            searchedAfterRead := true;
          }
          if kind == Some(ReadTool) && BodyReceived(e.results[k]) {
            readInExchange := true;
          }
        }
        assert req.exchanges[..i + 1][..i] == req.exchanges[..i];
        readSeen := readSeen || readInExchange;
      }
      assert req.exchanges[..|req.exchanges|] == req.exchanges;
    }

    method ReceiptInventory(req: Request) returns (known: set<Url>, read: set<Url>, failed: set<Url>, denied: set<Url>)
      ensures Inventory(known, read, failed, denied) == InventoryOf(names, priorReadBodies, req)
    {
      read := RetainedPriorReadUrls(req.envelopes);
      known := req.userUrls + read;
      failed, denied := {}, {};
      ghost var base := Inventory(known, read, {}, {});
      PlusNothing(base);
      for i := 0 to |req.exchanges|
        invariant Inventory(known, read, failed, denied) == base.Plus(ExchangesInventory(names, req.exchanges[..i]))
      {
        var e := req.exchanges[i];
        assert req.exchanges[..i + 1][..i] == req.exchanges[..i];
        PlusAssociative(base, ExchangesInventory(names, req.exchanges[..i]), ResultsInventory(names, e.calls, e.results));
        known, read, failed, denied := AddExchange(e, known, read, failed, denied);
      }
      assert req.exchanges[..|req.exchanges|] == req.exchanges;
    }

    method AddExchange(e: Exchange, known0: set<Url>, read0: set<Url>, failed0: set<Url>, denied0: set<Url>)
      returns (known: set<Url>, read: set<Url>, failed: set<Url>, denied: set<Url>)
      ensures Inventory(known, read, failed, denied)
           == Inventory(known0, read0, failed0, denied0).Plus(ResultsInventory(names, e.calls, e.results))
    {
      known, read, failed, denied := known0, read0, failed0, denied0;
      ghost var base := Inventory(known0, read0, failed0, denied0);
      PlusNothing(base);
      for k := 0 to |e.results|
        invariant Inventory(known, read, failed, denied) == base.Plus(ResultsInventory(names, e.calls, e.results[..k]))
      {
        assert e.results[..k + 1][..k] == e.results[..k];
        PlusAssociative(base, ResultsInventory(names, e.calls, e.results[..k]), Contribution(names, e.calls, e.results[k]));
        known, read, failed, denied := AddReceipt(e.calls, e.results[k], known, read, failed, denied);
      }
      assert e.results[..|e.results|] == e.results;
    }

    /** The body of the receipt loop, branch by branch. */
    method AddReceipt(calls: seq<Call>, r: Receipt, known0: set<Url>, read0: set<Url>, failed0: set<Url>, denied0: set<Url>)
      returns (known: set<Url>, read: set<Url>, failed: set<Url>, denied: set<Url>)
      ensures Inventory(known, read, failed, denied)
           == Inventory(known0, read0, failed0, denied0).Plus(Contribution(names, calls, r))
    {
      known, read, failed, denied := known0, read0, failed0, denied0;
      var call := Lookup(calls, r.callId);
      if call.None? || r.content.NotObject? {
        return;
      }
      var isRead := call.value.name in names && names[call.value.name] == ReadTool;
      var url := call.value.arguments.url;
      var ok := !r.isError && r.content.ok;
      if isRead && url.StringUrl? && !ok {
        failed := failed + {url.url};
        if r.content.permissionDenied {
          denied := denied + {url.url};
        }
      }
      if !ok || r.content.data.NoData? {
        return;
      }
      var data := r.content.data;
      if isRead && url.StringUrl? && !data.hasText {
        failed := failed + {url.url};
      }
      if isRead && data.hasText {
        if url.StringUrl? {
          read, known := read + {url.url}, known + {url.url};
        }
        if data.url.Some? {
          read, known := read + {data.url.value}, known + {data.url.value};
        }
      }
      var rows := if call.value.name in names && names[call.value.name] == SearchTool then data.results else data.links;
      known := known + UrlsOf(rows);
    }

    method Stream(req: Request, oracle: Oracle) returns (outcome: Outcome, asked: nat)
      modifies this
      ensures SourceDecision.Stream(env, old(Model()), req, oracle) == StreamResult(outcome, Model(), asked)
    {
      hide Attempt, InventoryOf, PostReadState, RetainedReads, WithoutRead, Definitions, CallCount;
      if Some(req.generationId) != generationId {
        return Rejected(GenerationMismatch), 0;
      }
      var known, read, failed, denied := ReceiptInventory(req);
      var readSeen, searchedAfterRead := PostReadSearchState(req);
      var readPending := env.requiresRead(req.exchanges);
      pending := WithoutRead(pending, read);
      if names == map[] || req.tools == [] || req.exchanges == [] {
        return PassedThrough(pending.Keys, currentRequirements && readSeen && !searchedAfterRead, readPending), 0;
      }
      if exists i :: 0 <= i < |req.tools| && req.tools[i].name !in names {
        return Rejected(MixedSourceProjection), 0;
      }
      var s := Situation(Inventory(known, read, failed, denied), PostRead(readSeen, searchedAfterRead), readPending,
                         MAX_SOURCE_TOOL_CALLS - CallCount(req.exchanges), Definitions(names, req.tools));
      outcome, asked := Decide(s, req, oracle);
    }

    /** The retry loop of `stream`. */
    method Decide(s: Situation, req: Request, oracle: Oracle) returns (outcome: Outcome, asked: nat)
      modifies this
      ensures Attempt(env, s, old(Model()), req, oracle, 0) == StreamResult(outcome, Model(), asked)
    {
      hide Judge, Settle;
      asked := 0;
      ghost var whole := Attempt(env, s, Model(), req, oracle, 0);
      while true
        invariant Attempt(env, s, Model(), req, oracle, asked) == whole
        decreases CorrectionsLeft(Model())
      {
        var resp := oracle(asked);
        var error: Option<ErrorCode>;
        var faulted;
        faulted, error := Validate(s, req, resp);
        asked := asked + 1;
        if faulted {
          return Raised, asked;
        }
        if error.Some? {
          records := records + [RecordEntry(s.remaining, error, None)];
          if corrections >= MAX_DECISION_CORRECTIONS {
            return Rejected(error.value), asked;
          }
          corrections := corrections + 1;
          continue;
        }
        outcome := Commit(s, resp.calls[0]);
        return outcome, asked;
      }
    }

    /** Records the accepted decision and turns it into the skill call or the draft. */
    method Commit(s: Situation, raw: RawCall) returns (outcome: Outcome)
      requires raw.payload.Decision?
      modifies this`native, this`records
      ensures (outcome, Model()) == Settle(s, old(Model()), raw)
    {
      var action := raw.payload.action;
      var tool := ToolFor(action.kind);
      if tool.Some? && tool.value in s.definitions {
        var actual := Call(raw.callId, s.definitions[tool.value].name, action.arguments);
        native := native[actual.callId := raw];
        records := records + [RecordEntry(s.remaining, None, Some(actual))];
        return Emitted(actual);
      }
      records := records + [RecordEntry(s.remaining, None, None)];
      outcome := Finished(action.kind == FinishWithEvidence, action.draft);
    }

    /** One pass of checks; scope and pending leads are kept even when the action
        is refused. */
    method Validate(s: Situation, req: Request, resp: Response) returns (faulted: bool, error: Option<ErrorCode>)
      modifies this`pending, this`currentRequirements
      ensures var j := Judge(env, s, old(Model()), req, resp);
        && Model() == j.provider
        && (faulted <==> j.verdict.Faulted?)
        && (error.Some? <==> j.verdict.Refused?)
        && (error.Some? ==> error.value == j.verdict.code)
        && (j.verdict.Accepted? ==> IsDecision(resp))
    {
      if resp.Failure? {
        return true, None;
      }
      error := WireError(env, s, Provider(generationId, names, priorReadBodies, pending, native, corrections, currentRequirements, records), req, resp);
      if error.Some? {
        return false, error;
      }
      var d := resp.calls[0].payload;
      error := InventoryError(s, d);
      if error.Some? {
        return false, error;
      }
      currentRequirements := currentRequirements || d.scope == CurrentRequirements;
      pending := pending + RowsByUrl(d.updates);
      var verdict := ActionVerdict(env, s, Provider(generationId, names, priorReadBodies, pending, native, corrections, currentRequirements, records), req, d.action);
      match verdict {
        case Faulted => return true, None;
        case Refused(code) => return false, Some(code);
        case Accepted => return false, None;
      }
    }
  }

  lemma PlusAssociative(a: Inventory, b: Inventory, c: Inventory)
    ensures a.Plus(b).Plus(c) == a.Plus(b.Plus(c))
  {}

  lemma PlusNothing(a: Inventory)
    ensures a.Plus(NOTHING) == a
  {}
}
