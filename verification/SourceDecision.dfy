/** The native source-decision protocol: what a request's tool receipts say, and
    how one model decision is judged, as functions.  `SourceDecisionProvider` is
    the mutable object proved against them
    (tools/source_decision_evaluation.py). */
module SourceDecision {
  import opened Text
  import opened Wrappers

  type Url = string

  const MAX_SOURCE_TOOL_CALLS: int := 6
  const MAX_DECISION_CORRECTIONS: nat := 1
  const DECISION_NAME := "cw2_source_decision_v4"

  // ----- Requests and receipts -----

  datatype ToolKind = SearchTool | ReadTool

  /** The "url" argument may be absent, a string, or some other JSON value. */
  datatype UrlArgument = NoUrl | StringUrl(url: Url) | OtherUrl(json: string)

  datatype Arguments = Arguments(url: UrlArgument, rest: map<string, string>)

  const EMPTY := Arguments(NoUrl, map[])

  datatype Call = Call(callId: string, name: string, arguments: Arguments)

  /** `hasText` says that "text" is a string with something other than blanks,
      `noResults` that "results" is an explicit empty list. */
  datatype Data = NoData | Data(hasText: bool, url: Option<Url>, results: seq<Url>, links: seq<Url>, noResults: bool)

  datatype Content = NotObject | Object(ok: bool, permissionDenied: bool, data: Data)

  datatype Receipt = Receipt(callId: string, name: string, isError: bool, content: Content)

  datatype Exchange = Exchange(calls: seq<Call>, results: seq<Receipt>)

  datatype Tool = Tool(name: string, inputSchema: string)

  datatype Body = Body(url: Option<Url>, hasText: bool, rest: string)

  datatype PriorRecord = PriorRecord(skillRunId: string, isRead: bool, succeeded: bool, available: bool, data: Option<Body>)

  datatype Envelope = Unreadable | Records(records: seq<PriorRecord>)

  /** `userUrls` are the links found in the user text; `envelopes` are the
      public-source context entries in order. */
  datatype Request = Request(
    generationId: string,
    userUrls: set<Url>,
    envelopes: seq<Envelope>,
    tools: seq<Tool>,
    exchanges: seq<Exchange>)

  /** Capability schemas, the flat argument schema of the decision, and the
      agent's own receipt gate: none of them is interpreted here. */
  datatype Environment = Environment(
    admits: (string, Arguments) -> bool,
    flat: (set<ToolKind>, Arguments) -> bool,
    requiresRead: seq<Exchange> -> bool)

  predicate IsHttps(u: Url) { |u| >= 8 && u[..8] == "https://" }

  /** calls = {c.call_id: c}: a repeated id keeps its last call. */
  function Lookup(calls: seq<Call>, id: string): Option<Call> {
    if calls == [] then None
    else if calls[|calls| - 1].callId == id then Some(calls[|calls| - 1])
    else Lookup(calls[..|calls| - 1], id)
  }

  function KindOf(names: map<string, ToolKind>, calls: seq<Call>, r: Receipt): Option<ToolKind> {
    var c := Lookup(calls, r.callId);
    if c.Some? && c.value.name in names then Some(names[c.value.name]) else None
  }

  predicate Succeeded(r: Receipt) { !r.isError && r.content.Object? && r.content.ok }

  predicate BodyReceived(r: Receipt) { Succeeded(r) && r.content.data.Data? && r.content.data.hasText }

  // ----- Post-read search state -----

  predicate ReadIn(names: map<string, ToolKind>, e: Exchange) {
    exists k :: 0 <= k < |e.results| && KindOf(names, e.calls, e.results[k]) == Some(ReadTool) && BodyReceived(e.results[k])
  }

  predicate SearchIn(names: map<string, ToolKind>, e: Exchange) {
    exists k :: 0 <= k < |e.results| && KindOf(names, e.calls, e.results[k]) == Some(SearchTool)
  }

  datatype PostRead = PostRead(readSeen: bool, searchedAfterRead: bool)

  /** The fold over exchanges; `ReadSeenMeaning` and `SearchedAfterReadMeaning` say what it finds. */
  function PostReadState(names: map<string, ToolKind>, exchanges: seq<Exchange>, prior: bool): PostRead {
    if exchanges == [] then PostRead(prior, false)
    else
      var n := |exchanges| - 1;
      var before := PostReadState(names, exchanges[..n], prior);
      PostRead(before.readSeen || ReadIn(names, exchanges[n]),
               before.searchedAfterRead || (SearchIn(names, exchanges[n]) && before.readSeen))
  }

  // ----- Inventory -----

  datatype Inventory = Inventory(known: set<Url>, read: set<Url>, failed: set<Url>, denied: set<Url>) {
    function Plus(other: Inventory): Inventory {
      Inventory(known + other.known, read + other.read, failed + other.failed, denied + other.denied)
    }
  }

  const NOTHING := Inventory({}, {}, {}, {})

  function UrlsOf(urls: seq<Url>): set<Url> { set u | u in urls }

  /** What one receipt contributes.  A read that did not succeed, or succeeded
      without a body, is a failed read; links and results become known. */
  function Contribution(names: map<string, ToolKind>, calls: seq<Call>, r: Receipt): Inventory {
    var call := Lookup(calls, r.callId);
    if call.None? || r.content.NotObject? then NOTHING
    else
      var kind := KindOf(names, calls, r);
      var isRead := kind == Some(ReadTool);
      var asked := if call.value.arguments.url.StringUrl? then {call.value.arguments.url.url} else {};
      if !Succeeded(r) then
        Inventory({}, {}, if isRead then asked else {}, if isRead && r.content.permissionDenied then asked else {})
      else if r.content.data.NoData? then NOTHING
      else
        var d := r.content.data;
        var sources := if isRead && d.hasText then asked + (if d.url.Some? then {d.url.value} else {}) else {};
        var found := UrlsOf(if kind == Some(SearchTool) then d.results else d.links);
        Inventory(sources + found, sources, if isRead && !d.hasText then asked else {}, {})
  }

  function ResultsInventory(names: map<string, ToolKind>, calls: seq<Call>, results: seq<Receipt>): Inventory {
    if results == [] then NOTHING
    else ResultsInventory(names, calls, results[..|results| - 1])
           .Plus(Contribution(names, calls, results[|results| - 1]))
  }

  function ExchangesInventory(names: map<string, ToolKind>, exchanges: seq<Exchange>): Inventory {
    if exchanges == [] then NOTHING
    else
      var e := exchanges[|exchanges| - 1];
      ExchangesInventory(names, exchanges[..|exchanges| - 1]).Plus(ResultsInventory(names, e.calls, e.results))
  }

  predicate Trusted(prior: map<string, Body>, r: PriorRecord) {
    && r.skillRunId in prior && r.isRead && r.succeeded && r.available
    && r.data == Some(prior[r.skillRunId])
    && prior[r.skillRunId].url.Some? && prior[r.skillRunId].url.value != "" && prior[r.skillRunId].hasText
  }

  /** Only the newest envelope counts, and only records that repeat the stored
      receipt body exactly. */
  function RetainedReads(prior: map<string, Body>, envelopes: seq<Envelope>): set<Url> {
    if envelopes == [] || envelopes[|envelopes| - 1].Unreadable? then {}
    else
      var records := envelopes[|envelopes| - 1].records;
      set k | 0 <= k < |records| && Trusted(prior, records[k]) :: prior[records[k].skillRunId].url.value
  }

  function InventoryOf(names: map<string, ToolKind>, prior: map<string, Body>, req: Request): Inventory {
    var retained := RetainedReads(prior, req.envelopes);
    Inventory(req.userUrls + retained, retained, {}, {}).Plus(ExchangesInventory(names, req.exchanges))
  }

  // ----- Model responses -----

  datatype Scope = CurrentRequirements | TechnicalExplanation | ProvidedContent | OtherScope

  datatype ActionKind = Search | Read | FinishWithEvidence | FinishWithGaps

  datatype Action = Action(kind: ActionKind, arguments: Arguments, draft: string)

  datatype Row = Row(url: Url, note: string)

  /** Anything that is not of the decision's shape is `Malformed`. */
  datatype Payload = Malformed | Decision(scope: Scope, sources: seq<Row>, updates: seq<Row>, action: Action)

  datatype RawCall = RawCall(callId: string, name: string, payload: Payload)

  datatype Response =
    | UnknownTool
    | Failure
    | Events(calls: seq<RawCall>, finishReasons: seq<string>)

  type Oracle = nat -> Response

  // ----- The provider's state -----

  datatype ErrorCode =
    | ProviderUnknownTool | MissingNativeTerminal | ExactlyOneKnownDecisionRequired | DuplicateCallId
    | InvalidSchema | DuplicateInventoryUrl | ReadReceiptMissing | UnknownPendingUrl
    | PostReadUpdateSearchRequired | InvalidCapabilityArguments | InvalidFinishDraft | UnresolvedEvidence
    | AvailableUnreadLead | UndiscoveredReadUrl | DeniedReadRetry | SourceCallLimit | DuplicateAction
    | GenerationMismatch | MixedSourceProjection

  datatype RecordEntry = RecordEntry(remaining: int, error: Option<ErrorCode>, projection: Option<Call>)

  datatype Provider = Provider(
    generationId: Option<string>,
    names: map<string, ToolKind>,
    prior: map<string, Body>,
    pending: map<Url, Row>,
    native: map<string, RawCall>,
    corrections: nat,
    currentRequirements: bool,
    records: seq<RecordEntry>)

  datatype Projection = Projection(name: string, skillId: string, readOnly: bool)

  datatype PriorReceipt = PriorReceipt(skillRunId: string, originalAvailable: bool, isRead: bool, succeeded: bool, data: Option<Body>)

  function ToolNames(projections: seq<Projection>): map<string, ToolKind> {
    if projections == [] then map[]
    else
      var p := projections[|projections| - 1];
      ToolNames(projections[..|projections| - 1])[p.name := if p.skillId == "web.search" then SearchTool else ReadTool]
  }

  predicate SourceOnly(projections: seq<Projection>) {
    projections != [] &&
    forall i :: 0 <= i < |projections| ==> projections[i].readOnly && projections[i].skillId in {"web.search", "web.read"}
  }

  function PriorBodies(receipts: seq<PriorReceipt>): map<string, Body> {
    if receipts == [] then map[]
    else
      var r := receipts[|receipts| - 1];
      var before := PriorBodies(receipts[..|receipts| - 1]);
      if r.originalAvailable && r.isRead && r.succeeded && r.data.Some? then before[r.skillRunId := r.data.value] else before
  }

  function Begun(generationId: string, projections: seq<Projection>, receipts: seq<PriorReceipt>): Provider {
    Provider(Some(generationId), if SourceOnly(projections) then ToolNames(projections) else map[],
             PriorBodies(receipts), map[], map[], 0, false, [])
  }

  // ----- One judgement -----

  /** What a stream call fixes before it asks the model. */
  datatype Situation = Situation(
    inventory: Inventory,
    postRead: PostRead,
    readPending: bool,
    remaining: int,
    definitions: map<ToolKind, Tool>)

  function CallCount(exchanges: seq<Exchange>): nat {
    if exchanges == [] then 0 else CallCount(exchanges[..|exchanges| - 1]) + |exchanges[|exchanges| - 1].calls|
  }

  function Definitions(names: map<string, ToolKind>, tools: seq<Tool>): map<ToolKind, Tool>
    requires forall i :: 0 <= i < |tools| ==> tools[i].name in names
  {
    if tools == [] then map[]
    else Definitions(names, tools[..|tools| - 1])[names[tools[|tools| - 1].name] := tools[|tools| - 1]]
  }

  function Situate(env: Environment, p: Provider, req: Request): Situation
    requires forall i :: 0 <= i < |req.tools| ==> req.tools[i].name in p.names
  {
    Situation(
      InventoryOf(p.names, p.prior, req),
      PostReadState(p.names, req.exchanges, RetainedReads(p.prior, req.envelopes) != {}),
      env.requiresRead(req.exchanges),
      MAX_SOURCE_TOOL_CALLS - CallCount(req.exchanges),
      Definitions(p.names, req.tools))
  }

  predicate OpenLead(s: Situation, u: Url) {
    u in s.inventory.known && u !in s.inventory.read && u !in s.inventory.failed && u !in s.inventory.denied && IsHttps(u)
  }

  predicate CanContinueRead(s: Situation) {
    s.readPending && s.remaining > 0 && ReadTool in s.definitions && exists u :: u in s.inventory.known && OpenLead(s, u)
  }

  predicate UnreadPending(s: Situation, pending: map<Url, Row>) {
    exists u :: u in pending && IsHttps(u) && u !in s.inventory.failed && u !in s.inventory.read
  }

  predicate NeedsUpdateSearch(s: Situation, p: Provider) {
    && p.currentRequirements && !s.readPending
    && s.postRead.readSeen && !s.postRead.searchedAfterRead
    && s.remaining >= 2 && SearchTool in s.definitions
    && !UnreadPending(s, p.pending)
  }

  predicate MustContinue(s: Situation, p: Provider) {
    CanContinueRead(s)
    || (s.remaining > 0 && exists u :: u in p.pending && IsHttps(u) && u !in s.inventory.failed)
  }

  function Available(s: Situation, p: Provider): set<ToolKind> {
    if CanContinueRead(s) && s.remaining == 1 then {ReadTool}
    else if NeedsUpdateSearch(s, p) then {SearchTool}
    else s.definitions.Keys
  }

  function ToolFor(kind: ActionKind): Option<ToolKind> {
    match kind
    case Search => Some(SearchTool)
    case Read => Some(ReadTool)
    case _ => None
  }

  predicate IsFinish(kind: ActionKind) { kind == FinishWithEvidence || kind == FinishWithGaps }

  /** The action kinds the offered decision schema enumerates. */
  predicate Offered(s: Situation, p: Provider, kind: ActionKind) {
    if ToolFor(kind).Some? then ToolFor(kind).value in Available(s, p)
    else !MustContinue(s, p) && !NeedsUpdateSearch(s, p) && (kind == FinishWithEvidence ==> !s.readPending)
  }

  predicate RowsFit(rows: seq<Row>, limit: nat) {
    |rows| <= limit && forall i :: 0 <= i < |rows| ==> 9 <= |rows[i].url| <= 2048 && |rows[i].note| <= 500
  }

  predicate SchemaValid(env: Environment, s: Situation, p: Provider, d: Payload) {
    && d.Decision?
    && RowsFit(d.sources, 12) && RowsFit(d.updates, 20)
    && Offered(s, p, d.action.kind)
    && (d.action.arguments == EMPTY || env.flat(Available(s, p), d.action.arguments))
    && |d.action.draft| <= 16000
  }

  function FirstTwo<T>(xs: seq<T>): seq<T> { if |xs| <= 2 then xs else xs[..2] }

  predicate IdUsed(exchanges: seq<Exchange>, id: string) {
    exists i, k :: 0 <= i < |exchanges| && 0 <= k < |exchanges[i].calls| && exchanges[i].calls[k].callId == id
  }

  predicate ActionUsed(exchanges: seq<Exchange>, name: string, arguments: Arguments) {
    exists i, k :: 0 <= i < |exchanges| && 0 <= k < |exchanges[i].calls|
      && exchanges[i].calls[k].name == name && exchanges[i].calls[k].arguments == arguments
  }

  /** The checks made before the decision is looked into. */
  function WireError(env: Environment, s: Situation, p: Provider, req: Request, resp: Response): Option<ErrorCode>
    requires !resp.Failure?
  {
    if resp.UnknownTool? then Some(ProviderUnknownTool)
    else
      var calls := FirstTwo(resp.calls);
      if |FirstTwo(resp.finishReasons)| != 1 || resp.finishReasons[0] != "tool_calls" then Some(MissingNativeTerminal)
      else if |calls| != 1 || calls[0].name != DECISION_NAME then Some(ExactlyOneKnownDecisionRequired)
      else if IdUsed(req.exchanges, calls[0].callId) then Some(DuplicateCallId)
      else if !SchemaValid(env, s, p, calls[0].payload) then Some(InvalidSchema)
      else None
  }

  ghost predicate DistinctUrls(rows: seq<Row>) {
    forall i, j :: 0 <= i < j < |rows| ==> rows[i].url != rows[j].url
  }

  function RowUrls(rows: seq<Row>): set<Url> { set i | 0 <= i < |rows| :: rows[i].url }

  function InventoryError(s: Situation, d: Payload): Option<ErrorCode>
    requires d.Decision?
  {
    if |RowUrls(d.sources)| != |d.sources| || |RowUrls(d.updates)| != |d.updates| then Some(DuplicateInventoryUrl)
    else if !(RowUrls(d.sources) <= s.inventory.read) then Some(ReadReceiptMissing)
    else if !(RowUrls(d.updates) <= s.inventory.known) then Some(UnknownPendingUrl)
    else None
  }

  function RowsByUrl(rows: seq<Row>): map<Url, Row> {
    if rows == [] then map[] else RowsByUrl(rows[..|rows| - 1])[rows[|rows| - 1].url := rows[|rows| - 1]]
  }

  /** Scope is latched and validated pending claims are kept, even if the action
      is then rejected. */
  function Absorb(p: Provider, d: Payload): Provider
    requires d.Decision?
  {
    p.(currentRequirements := p.currentRequirements || d.scope == CurrentRequirements,
       pending := p.pending + RowsByUrl(d.updates))
  }

  datatype Verdict = Accepted | Refused(code: ErrorCode) | Faulted

  /** `p` is the state after `Absorb`. */
  function ActionVerdict(env: Environment, s: Situation, p: Provider, req: Request, a: Action): Verdict {
    var tool := ToolFor(a.kind);
    var defined := tool.Some? && tool.value in s.definitions;
    if NeedsUpdateSearch(s, p) && a.kind != Search then Refused(PostReadUpdateSearchRequired)
    else if defined && (!env.admits(s.definitions[tool.value].inputSchema, a.arguments) || a.draft != "") then Refused(InvalidCapabilityArguments)
    else if IsFinish(a.kind) && (a.arguments != EMPTY || BlankText(a.draft)) then Refused(InvalidFinishDraft)
    else if a.kind == FinishWithEvidence && p.pending != map[] then Refused(UnresolvedEvidence)
    else if IsFinish(a.kind) && s.remaining > 0 && UnreadPending(s, p.pending) then Refused(AvailableUnreadLead)
    else if a.kind == Read && a.arguments.url.NoUrl? then Faulted
    else if a.kind == Read && !(a.arguments.url.StringUrl? && a.arguments.url.url in s.inventory.known) then Refused(UndiscoveredReadUrl)
    else if a.kind == Read && a.arguments.url.url in s.inventory.denied then Refused(DeniedReadRetry)
    else if defined && s.remaining <= 0 then Refused(SourceCallLimit)
    else if defined && ActionUsed(req.exchanges, s.definitions[tool.value].name, a.arguments) then Refused(DuplicateAction)
    else Accepted
  }

  datatype Judgement = Judgement(verdict: Verdict, provider: Provider)

  /** One pass through validation: the verdict, and the state it leaves. */
  function Judge(env: Environment, s: Situation, p: Provider, req: Request, resp: Response): (j: Judgement)
    ensures j.provider.corrections == p.corrections
  {
    if resp.Failure? then Judgement(Faulted, p)
    else
      var wire := WireError(env, s, p, req, resp);
      if wire.Some? then Judgement(Refused(wire.value), p)
      else
        var d := resp.calls[0].payload;
        var inventory := InventoryError(s, d);
        if inventory.Some? then Judgement(Refused(inventory.value), p)
        else Judgement(ActionVerdict(env, s, Absorb(p, d), req, d.action), Absorb(p, d))
  }

  // ----- One stream call -----

  datatype Outcome =
    | Emitted(call: Call)
    | Finished(withEvidence: bool, draft: string)
    | Rejected(code: ErrorCode)
    | Raised
    | PassedThrough(gaps: set<Url>, updateSearchMissing: bool, readMissing: bool)

  datatype StreamResult = StreamResult(outcome: Outcome, provider: Provider, asked: nat)

  function ActualCall(s: Situation, raw: RawCall): Call
    requires raw.payload.Decision? && ToolFor(raw.payload.action.kind).Some?
    requires ToolFor(raw.payload.action.kind).value in s.definitions
  {
    Call(raw.callId, s.definitions[ToolFor(raw.payload.action.kind).value].name, raw.payload.action.arguments)
  }

  /** The accepted decision becomes the real skill call, or the withheld draft. */
  function Settle(s: Situation, p: Provider, raw: RawCall): (Outcome, Provider)
    requires raw.payload.Decision?
  {
    var a := raw.payload.action;
    if ToolFor(a.kind).Some? && ToolFor(a.kind).value in s.definitions then
      var actual := ActualCall(s, raw);
      (Emitted(actual),
       p.(native := p.native[actual.callId := raw],
          records := p.records + [RecordEntry(s.remaining, None, Some(actual))]))
    else
      (Finished(a.kind == FinishWithEvidence, a.draft), p.(records := p.records + [RecordEntry(s.remaining, None, None)]))
  }

  predicate IsDecision(resp: Response) {
    resp.Events? && |resp.calls| == 1 && resp.calls[0].payload.Decision?
  }

  lemma AcceptedIsDecision(env: Environment, s: Situation, p: Provider, req: Request, resp: Response)
    requires Judge(env, s, p, req, resp).verdict.Accepted?
    ensures IsDecision(resp)
  {}

  function CorrectionsLeft(p: Provider): nat {
    if p.corrections <= MAX_DECISION_CORRECTIONS then MAX_DECISION_CORRECTIONS - p.corrections else 0
  }

  function AfterRefusal(s: Situation, j: Judgement): Provider
    requires j.verdict.Refused?
  {
    j.provider.(records := j.provider.records + [RecordEntry(s.remaining, Some(j.verdict.code), None)])
  }

  /** The retry loop: a rejected decision is asked for again while the
      generation still has its correction. */
  function Attempt(env: Environment, s: Situation, p: Provider, req: Request, oracle: Oracle, i: nat): StreamResult
    decreases CorrectionsLeft(p), 1
  {
    var j := Judge(env, s, p, req, oracle(i));
    if j.verdict.Accepted? then
      AcceptedIsDecision(env, s, p, req, oracle(i));
      Conclude(env, s, j, req, oracle, i)
    else
      Conclude(env, s, j, req, oracle, i)
  }

  function Conclude(env: Environment, s: Situation, j: Judgement, req: Request, oracle: Oracle, i: nat): StreamResult
    requires j.verdict.Accepted? ==> IsDecision(oracle(i))
    decreases CorrectionsLeft(j.provider), 0
  {
    match j.verdict
    case Faulted => StreamResult(Raised, j.provider, i + 1)
    case Accepted =>
      var (o, q) := Settle(s, j.provider, oracle(i).calls[0]);
      StreamResult(o, q, i + 1)
    case Refused(code) =>
      var q := AfterRefusal(s, j);
      if q.corrections >= MAX_DECISION_CORRECTIONS then StreamResult(Rejected(code), q, i + 1)
      else Attempt(env, s, q.(corrections := q.corrections + 1), req, oracle, i + 1)
  }

  function WithoutRead(pending: map<Url, Row>, read: set<Url>): map<Url, Row> {
    map u | u in pending && u !in read :: pending[u]
  }

  predicate IsActive(p: Provider, req: Request) {
    p.names != map[] && req.tools != [] && req.exchanges != []
  }

  /** The whole stream call. */
  function Stream(env: Environment, p: Provider, req: Request, oracle: Oracle): StreamResult {
    if p.generationId != Some(req.generationId) then StreamResult(Rejected(GenerationMismatch), p, 0)
    else
      var inventory := InventoryOf(p.names, p.prior, req);
      var q := p.(pending := WithoutRead(p.pending, inventory.read));
      if !IsActive(p, req) then
        var post := PostReadState(p.names, req.exchanges, RetainedReads(p.prior, req.envelopes) != {});
        StreamResult(
          PassedThrough(q.pending.Keys, q.currentRequirements && post.readSeen && !post.searchedAfterRead, env.requiresRead(req.exchanges)),
          q, 0)
      else if exists i :: 0 <= i < |req.tools| && req.tools[i].name !in p.names then
        StreamResult(Rejected(MixedSourceProjection), q, 0)
      else
        Attempt(env, Situate(env, q, req), q, req, oracle, 0)
  }

  // ----- What the model is shown -----

  /** Executed decisions are shown under the decision's own name and arguments;
      their receipts carry the executed skill call and its result. */
  datatype WireCall = PlainCall(call: Call) | NativeCall(raw: RawCall)

  datatype WireReceipt =
    | PlainReceipt(receipt: Receipt)
    | DecisionReceipt(callId: string, isError: bool, executedCall: Call, executedResult: Content)

  datatype WireExchange = WireExchange(calls: seq<WireCall>, results: seq<WireReceipt>)

  /** Every receipt of an emitted decision sits in an exchange with its call. */
  ghost predicate Shown(native: map<string, RawCall>, e: Exchange) {
    forall k :: 0 <= k < |e.results| && e.results[k].callId in native ==> Lookup(e.calls, e.results[k].callId).Some?
  }

  function WireCallOf(native: map<string, RawCall>, c: Call): WireCall {
    if c.callId in native then NativeCall(native[c.callId]) else PlainCall(c)
  }

  function WireReceiptOf(native: map<string, RawCall>, calls: seq<Call>, r: Receipt): WireReceipt
    requires r.callId in native ==> Lookup(calls, r.callId).Some?
  {
    if r.callId in native then DecisionReceipt(r.callId, r.isError, Lookup(calls, r.callId).value, r.content)
    else PlainReceipt(r)
  }

  function WireOf(native: map<string, RawCall>, e: Exchange): WireExchange
    requires Shown(native, e)
  {
    WireExchange(
      seq(|e.calls|, (k: nat) requires k < |e.calls| => WireCallOf(native, e.calls[k])),
      seq(|e.results|, (k: nat) requires k < |e.results| && (e.results[k].callId in native ==> Lookup(e.calls, e.results[k].callId).Some?) =>
        WireReceiptOf(native, e.calls, e.results[k])))
  }
}
