/** When a source decision can always be made, and the input for which none can. */
module SourceDecisionDeadEnd {
  import opened Text
  import opened Wrappers
  import opened SourceDecision
  import opened SourceDecisionSafety

  // ----- No dead end -----

  /** Every read the agent executed came back with an object, and a success
      carried a data object. */
  ghost predicate WellFormedReads(names: map<string, ToolKind>, exchanges: seq<Exchange>) {
    forall i, k :: 0 <= i < |exchanges| && 0 <= k < |exchanges[i].calls| && IsReadCall(names, exchanges[i].calls[k])
      ==> Answered(exchanges[i], exchanges[i].calls[k])
  }

  predicate IsReadCall(names: map<string, ToolKind>, c: Call) {
    c.name in names && names[c.name] == ReadTool
  }

  ghost predicate Answered(e: Exchange, c: Call) {
    exists r :: 0 <= r < |e.results| && AnsweredBy(e, c, e.results[r])
  }

  predicate AnsweredBy(e: Exchange, c: Call, r: Receipt) {
    && Lookup(e.calls, r.callId) == Some(c)
    && r.content.Object? && (Succeeded(r) ==> r.content.data.Data?)
  }

  /** A read that was answered is settled: its URL counts as read or as failed. */
  lemma AnsweredReadSettled(names: map<string, ToolKind>, prior: map<string, Body>, req: Request, i: nat, k: nat)
    requires WellFormedReads(names, req.exchanges)
    requires i < |req.exchanges| && k < |req.exchanges[i].calls|
    requires var c := req.exchanges[i].calls[k];
      c.name in names && names[c.name] == ReadTool && c.arguments.url.StringUrl?
    ensures var u := req.exchanges[i].calls[k].arguments.url.url;
      u in InventoryOf(names, prior, req).read || u in InventoryOf(names, prior, req).failed
  {
    var e := req.exchanges[i];
    var c := e.calls[k];
    assert Answered(e, c);
    var r :| 0 <= r < |e.results| && AnsweredBy(e, c, e.results[r]);
    var contribution := Contribution(names, e.calls, e.results[r]);
    assert c.arguments.url.url in contribution.read + contribution.failed;
    ResultsInventoryHas(names, e.calls, e.results, r);
    ExchangesInventoryHas(names, req.exchanges, i);
  }

  /** What the capability schemas have to admit: some search that was not made
      yet, and a read of any known URL. */
  ghost predicate SchemasAdmit(env: Environment, s: Situation, req: Request, query: Arguments, readOf: Url -> Arguments)
    requires {SearchTool, ReadTool} <= s.definitions.Keys
  {
    && env.admits(s.definitions[SearchTool].inputSchema, query)
    && env.flat({SearchTool}, query) && env.flat(s.definitions.Keys, query)
    && !ActionUsed(req.exchanges, s.definitions[SearchTool].name, query)
    && (forall u :: u in s.inventory.known ==>
          readOf(u).url == StringUrl(u)
          && env.admits(s.definitions[ReadTool].inputSchema, readOf(u)) && env.flat({ReadTool}, readOf(u)))
  }

  function Plain(kind: ActionKind, arguments: Arguments, draft: string, id: string): Response {
    Events([RawCall(id, DECISION_NAME, Decision(OtherScope, [], [], Action(kind, arguments, draft)))], ["tool_calls"])
  }

  lemma PlainJudged(env: Environment, s: Situation, p: Provider, req: Request, kind: ActionKind, arguments: Arguments,
          draft: string, id: string)
    requires !IdUsed(req.exchanges, id)
    requires |draft| <= 16000 && Offered(s, p, kind)
    requires arguments == EMPTY || env.flat(Available(s, p), arguments)
    ensures Judge(env, s, p, req, Plain(kind, arguments, draft, id)).verdict
         == ActionVerdict(env, s, p, req, Action(kind, arguments, draft))
  {
    var d := Plain(kind, arguments, draft, id).calls[0].payload;
    assert RowUrls([]) == {};
    assert Absorb(p, d) == p;
  }

  /** A read that passes every check of the decision. */
  predicate UsableRead(env: Environment, s: Situation, req: Request, read: Arguments)
    requires ReadTool in s.definitions
  {
    && read.url.StringUrl? && read.url.url in s.inventory.known && read.url.url !in s.inventory.denied
    && env.admits(s.definitions[ReadTool].inputSchema, read) && env.flat({ReadTool}, read)
    && !ActionUsed(req.exchanges, s.definitions[ReadTool].name, read)
  }

  lemma ReadAccepted(env: Environment, s: Situation, p: Provider, req: Request, read: Arguments, id: string)
    requires !IdUsed(req.exchanges, id)
    requires CanContinueRead(s) && s.remaining == 1 && UsableRead(env, s, req, read)
    ensures Judge(env, s, p, req, Plain(Read, read, "", id)).verdict.Accepted?
  {
    PlainJudged(env, s, p, req, Read, read, "", id);
  }

  lemma SearchAccepted(env: Environment, s: Situation, p: Provider, req: Request, query: Arguments, id: string)
    requires !IdUsed(req.exchanges, id)
    requires s.remaining > 0 && !(CanContinueRead(s) && s.remaining == 1) && SearchTool in s.definitions
    requires env.flat({SearchTool}, query) && env.flat(s.definitions.Keys, query)
    requires env.admits(s.definitions[SearchTool].inputSchema, query)
    requires !ActionUsed(req.exchanges, s.definitions[SearchTool].name, query)
    ensures Judge(env, s, p, req, Plain(Search, query, "", id)).verdict.Accepted?
  {
    PlainJudged(env, s, p, req, Search, query, "", id);
  }

  lemma FinishAccepted(env: Environment, s: Situation, p: Provider, req: Request, id: string)
    requires !IdUsed(req.exchanges, id)
    requires s.remaining <= 0
    ensures Judge(env, s, p, req, Plain(FinishWithGaps, EMPTY, "gaps", id)).verdict.Accepted?
  {
    assert !Whitespace("gaps"[0]);
    PlainJudged(env, s, p, req, FinishWithGaps, EMPTY, "gaps", id);
  }

  lemma LeadNotTried(names: map<string, ToolKind>, prior: map<string, Body>, req: Request, s: Situation, u: Url,
          name: string, read: Arguments)
    requires WellFormedReads(names, req.exchanges)
    requires s.inventory == InventoryOf(names, prior, req) && OpenLead(s, u)
    requires name in names && names[name] == ReadTool && read.url == StringUrl(u)
    ensures !ActionUsed(req.exchanges, name, read)
  {
    if ActionUsed(req.exchanges, name, read) {
      var i, k :| 0 <= i < |req.exchanges| && 0 <= k < |req.exchanges[i].calls|
        && req.exchanges[i].calls[k].name == name && req.exchanges[i].calls[k].arguments == read;
      AnsweredReadSettled(names, prior, req, i, k);
    }
  }

  /** No dead end.  With both tools offered, well-formed read receipts and
      schemas that admit a fresh query and any known URL, every decision state
      has a decision that is accepted, first time or after a rejection. */
  lemma NoDeadEnd(env: Environment, p: Provider, req: Request, query: Arguments, readOf: Url -> Arguments, id: string)
    requires forall i :: 0 <= i < |req.tools| ==> req.tools[i].name in p.names
    requires {SearchTool, ReadTool} <= Situate(env, p, req).definitions.Keys
    requires WellFormedReads(p.names, req.exchanges)
    requires SchemasAdmit(env, Situate(env, p, req), req, query, readOf)
    requires !IdUsed(req.exchanges, id)
    ensures exists resp :: Judge(env, Situate(env, p, req), p, req, resp).verdict.Accepted?
  {
    var s := Situate(env, p, req);
    if CanContinueRead(s) && s.remaining == 1 {
      var u :| u in s.inventory.known && OpenLead(s, u);
      DefinitionsNamed(p.names, req.tools, ReadTool);
      LeadNotTried(p.names, p.prior, req, s, u, s.definitions[ReadTool].name, readOf(u));
      ReadAccepted(env, s, p, req, readOf(u), id);
    } else if s.remaining > 0 {
      SearchAccepted(env, s, p, req, query, id);
    } else {
      FinishAccepted(env, s, p, req, id);
    }
  }

  lemma {:induction false} DefinitionsNamed(names: map<string, ToolKind>, tools: seq<Tool>, kind: ToolKind)
    requires forall i :: 0 <= i < |tools| ==> tools[i].name in names
    requires kind in Definitions(names, tools)
    ensures Definitions(names, tools)[kind].name in names && names[Definitions(names, tools)[kind].name] == kind
  {
    var n := |tools| - 1;
    if names[tools[n].name] != kind {
      DefinitionsNamed(names, tools[..n], kind);
    }
  }

  // ----- Exactly when some decision is accepted -----

  /** A search that was not made yet and that the schemas admit. */
  ghost predicate SearchAdmitted(env: Environment, s: Situation, req: Request, query: Arguments)
    requires SearchTool in s.definitions
  {
    && env.admits(s.definitions[SearchTool].inputSchema, query)
    && env.flat({SearchTool}, query) && env.flat(s.definitions.Keys, query)
    && !ActionUsed(req.exchanges, s.definitions[SearchTool].name, query)
  }

  /** With one call left that is reserved for reading, only a usable read passes. */
  lemma OnlyReadAccepted(env: Environment, s: Situation, p: Provider, req: Request, resp: Response)
    requires CanContinueRead(s) && s.remaining == 1 && Judge(env, s, p, req, resp).verdict.Accepted?
    ensures exists read :: UsableRead(env, s, req, read)
  {
    AcceptedIsSafe(env, s, p, req, resp);
    var d := resp.calls[0].payload;
    assert SchemaValid(env, s, p, d) && Available(s, p) == {ReadTool};
    assert d.action.kind == Read;
    assert UsableRead(env, s, req, d.action.arguments);
  }

  /** With both tools offered and a search left to make, some decision is accepted
      if and only if the last call is not reserved for reading or a usable read is
      left. */
  lemma SomeDecisionAcceptedExactly(env: Environment, p: Provider, req: Request, query: Arguments, id: string)
    requires forall i :: 0 <= i < |req.tools| ==> req.tools[i].name in p.names
    requires {SearchTool, ReadTool} <= Situate(env, p, req).definitions.Keys
    requires SearchAdmitted(env, Situate(env, p, req), req, query) && !IdUsed(req.exchanges, id)
    ensures var s := Situate(env, p, req);
      (exists resp :: Judge(env, s, p, req, resp).verdict.Accepted?) <==>
        (!(CanContinueRead(s) && s.remaining == 1) || exists read :: UsableRead(env, s, req, read))
  {
    var s := Situate(env, p, req);
    if CanContinueRead(s) && s.remaining == 1 {
      forall read | UsableRead(env, s, req, read)
        ensures exists resp :: Judge(env, s, p, req, resp).verdict.Accepted?
      {
        ReadAccepted(env, s, p, req, read, id);
      }
      forall resp | Judge(env, s, p, req, resp).verdict.Accepted?
        ensures exists read :: UsableRead(env, s, req, read)
      {
        OnlyReadAccepted(env, s, p, req, resp);
      }
    } else if s.remaining > 0 {
      SearchAccepted(env, s, p, req, query, id);
    } else {
      FinishAccepted(env, s, p, req, id);
    }
  }

  // ----- Optional arguments of the read leave no dead end -----

  function ArgumentsOf(calls: seq<Call>): (used: set<Arguments>)
    ensures |used| <= |calls|
    ensures forall k :: 0 <= k < |calls| ==> calls[k].arguments in used
  {
    if calls == [] then {}
    else ArgumentsOf(calls[..|calls| - 1]) + {calls[|calls| - 1].arguments}
  }

  function UsedArguments(exchanges: seq<Exchange>): (used: set<Arguments>)
    ensures |used| <= CallCount(exchanges)
    ensures forall i :: 0 <= i < |exchanges| ==> ArgumentsOf(exchanges[i].calls) <= used
  {
    if exchanges == [] then {}
    else UsedArguments(exchanges[..|exchanges| - 1]) + ArgumentsOf(exchanges[|exchanges| - 1].calls)
  }

  lemma SubsetNotLarger(small: set<Arguments>, big: set<Arguments>)
    requires small <= big
    ensures |small| <= |big|
  {
    assert big == small + (big - small);
  }

  /** More ways to ask than calls made: one of them is unused. */
  lemma SomeVariantUnused(exchanges: seq<Exchange>, name: string, variants: set<Arguments>) returns (unused: Arguments)
    requires |variants| > CallCount(exchanges)
    ensures unused in variants && !ActionUsed(exchanges, name, unused)
  {
    var used := UsedArguments(exchanges);
    if variants <= used {
      SubsetNotLarger(variants, used);
    }
    unused :| unused in variants && unused !in used;
    assert forall i, k :: 0 <= i < |exchanges| && 0 <= k < |exchanges[i].calls| ==>
      exchanges[i].calls[k].arguments in ArgumentsOf(exchanges[i].calls);
  }

  /** At least six different reads of this URL are admitted. */
  ghost predicate SixReads(env: Environment, s: Situation, u: Url, variants: set<Arguments>)
    requires ReadTool in s.definitions
  {
    && |variants| >= 6
    && forall a :: a in variants ==>
         a.url == StringUrl(u) && env.admits(s.definitions[ReadTool].inputSchema, a) && env.flat({ReadTool}, a)
  }

  /** There is no dead end, whatever the receipts look like, when every known URL that
      was not denied can be read in six ways. */
  lemma NoDeadEndWithVariants(env: Environment, p: Provider, req: Request, query: Arguments,
                              variants: Url -> set<Arguments>, id: string)
    requires forall i :: 0 <= i < |req.tools| ==> req.tools[i].name in p.names
    requires {SearchTool, ReadTool} <= Situate(env, p, req).definitions.Keys
    requires SearchAdmitted(env, Situate(env, p, req), req, query) && !IdUsed(req.exchanges, id)
    requires var s := Situate(env, p, req);
      forall u :: u in s.inventory.known && u !in s.inventory.denied ==> SixReads(env, s, u, variants(u))
    ensures exists resp :: Judge(env, Situate(env, p, req), p, req, resp).verdict.Accepted?
  {
    var s := Situate(env, p, req);
    SomeDecisionAcceptedExactly(env, p, req, query, id);
    if CanContinueRead(s) && s.remaining == 1 {
      var u :| u in s.inventory.known && OpenLead(s, u);
      assert SixReads(env, s, u, variants(u));
      var read := SomeVariantUnused(req.exchanges, s.definitions[ReadTool].name, variants(u));
      assert UsableRead(env, s, req, read);
    }
  }

  // ----- The shipped read tool -----

  /** A URL that the input schema of the shipped read capability takes. */
  predicate Fits(u: Url) { IsHttps(u) && 9 <= |u| <= 2048 }

  const READ_OPTIONS: set<string> := {"focus", "dns_resolver", "max_characters", "max_links", "fresh"}

  /** That schema: a URL and options; of these only the bounds of `focus` are spelled out. */
  predicate ShippedRead(a: Arguments) {
    && a.url.StringUrl? && Fits(a.url.url) && a.rest.Keys <= READ_OPTIONS
    && ("focus" in a.rest ==> 1 <= |a.rest["focus"]| <= 128)
  }

  /** The read tool is the shipped one, and the flat argument schema takes its calls. */
  ghost predicate ShipsRead(env: Environment, s: Situation)
    requires ReadTool in s.definitions
  {
    && (forall a :: env.admits(s.definitions[ReadTool].inputSchema, a) ==> ShippedRead(a))
    && forall a :: ShippedRead(a) && a.rest.Keys <= {"focus"} ==>
         env.admits(s.definitions[ReadTool].inputSchema, a) && env.flat({ReadTool}, a)
  }

  function Phrase(n: nat): (focus: string)
    ensures |focus| == n
  {
    if n == 0 then "" else Phrase(n - 1) + "a"
  }

  function FocusedRead(u: Url, n: nat): Arguments { Arguments(StringUrl(u), map["focus" := Phrase(n)]) }

  /** Reads of one URL that differ in their focus. */
  function FocusedReads(u: Url, n: nat): (variants: set<Arguments>)
    ensures |variants| == n
    ensures forall a :: a in variants ==> a.url == StringUrl(u) && a.rest.Keys == {"focus"} && 1 <= |a.rest["focus"]| <= n
  {
    if n == 0 then {} else FocusedReads(u, n - 1) + {FocusedRead(u, n)}
  }

  /** With the shipped read tool some decision is accepted if and only if the last
      call is not reserved for reading or some known URL that was not denied fits
      its schema: a new focus makes a new read of it, whatever the receipts say. */
  lemma ShippedAcceptedExactly(env: Environment, p: Provider, req: Request, query: Arguments, id: string)
    requires forall i :: 0 <= i < |req.tools| ==> req.tools[i].name in p.names
    requires {SearchTool, ReadTool} <= Situate(env, p, req).definitions.Keys && ShipsRead(env, Situate(env, p, req))
    requires SearchAdmitted(env, Situate(env, p, req), req, query) && !IdUsed(req.exchanges, id)
    ensures var s := Situate(env, p, req);
      (exists resp :: Judge(env, s, p, req, resp).verdict.Accepted?) <==>
        (!(CanContinueRead(s) && s.remaining == 1) || exists u :: u in s.inventory.known && u !in s.inventory.denied && Fits(u))
  {
    var s := Situate(env, p, req);
    SomeDecisionAcceptedExactly(env, p, req, query, id);
    if CanContinueRead(s) && s.remaining == 1 {
      forall u | u in s.inventory.known && u !in s.inventory.denied && Fits(u)
        ensures exists read :: UsableRead(env, s, req, read)
      {
        var read := SomeVariantUnused(req.exchanges, s.definitions[ReadTool].name, FocusedReads(u, 6));
        assert ShippedRead(read);
        assert UsableRead(env, s, req, read);
      }
      forall read | UsableRead(env, s, req, read)
        ensures exists u :: u in s.inventory.known && u !in s.inventory.denied && Fits(u)
      {
        assert ShippedRead(read);
      }
    }
  }

  // ----- The agent's receipt gate -----

  /** A search that succeeded needs a body read unless it says that it found
      nothing. */
  predicate SearchNeedsRead(r: Receipt) { Succeeded(r) && !(r.content.data.Data? && r.content.data.noResults) }

  function GateAfter(names: map<string, ToolKind>, pending: bool, r: Receipt): bool {
    if r.name !in names then pending
    else if names[r.name] == SearchTool then pending || SearchNeedsRead(r)
    else pending && !BodyReceived(r)
  }

  function GateResults(names: map<string, ToolKind>, pending: bool, results: seq<Receipt>): bool
    decreases |results|
  {
    if results == [] then pending else GateResults(names, GateAfter(names, pending, results[0]), results[1..])
  }

  /** A search is pending until a body is read after it. */
  function Gate(names: map<string, ToolKind>, pending: bool, exchanges: seq<Exchange>): bool
    decreases |exchanges|
  {
    if exchanges == [] then pending else Gate(names, GateResults(names, pending, exchanges[0].results), exchanges[1..])
  }

  // ----- The dead end -----

  const LEAD: Url := "https://a"

  /** A link in the text of the user, which nothing limits. */
  const LONG: Url := "https://" + Phrase(2092)

  const STUCK_NAMES: map<string, ToolKind> := map["s" := SearchTool, "r" := ReadTool]

  function Query(text: string): Arguments { Arguments(NoUrl, map["query" := text]) }

  const LISTING: Data := Data(false, None, [LEAD], [], false)

  /** Four searches that list a lead, then a read of it that was not permitted; one
      call is left, and the long link is still open. */
  const SEARCHES := Exchange(
    [Call("1", "s", Query("a")), Call("2", "s", Query("b")), Call("3", "s", Query("c")), Call("4", "s", Query("d"))],
    [Receipt("1", "s", false, Object(true, false, LISTING)), Receipt("2", "s", false, Object(true, false, LISTING)),
     Receipt("3", "s", false, Object(true, false, LISTING)), Receipt("4", "s", false, Object(true, false, LISTING))])

  const DENIED_READ := Exchange([Call("5", "r", Arguments(StringUrl(LEAD), map[]))],
                                [Receipt("5", "r", true, Object(false, true, NoData))])

  const STUCK_REQUEST := Request("g", {LONG}, [], [Tool("s", "search"), Tool("r", "read")], [SEARCHES, DENIED_READ])

  const STUCK := Provider(Some("g"), STUCK_NAMES, map[], map[], map[], 0, false, [])

  function Schemas(schema: string, a: Arguments): bool { schema == "read" ==> ShippedRead(a) }

  const STUCK_ENVIRONMENT := Environment(Schemas, (kinds, a) => true, exchanges => Gate(STUCK_NAMES, false, exchanges))

  lemma GateIsPending()
    ensures Gate(STUCK_NAMES, false, STUCK_REQUEST.exchanges)
  {
    var rs := SEARCHES.results;
    assert GateResults(STUCK_NAMES, false, rs) by {
      assert rs[1..][0] == rs[1] && rs[1..][1..][0] == rs[2] && rs[1..][1..][1..][0] == rs[3];
      assert rs[1..][1..][1..][1..] == [];
      assert GateAfter(STUCK_NAMES, false, rs[0]) && GateAfter(STUCK_NAMES, true, rs[1]);
      assert GateAfter(STUCK_NAMES, true, rs[2]) && GateAfter(STUCK_NAMES, true, rs[3]);
      assert GateResults(STUCK_NAMES, true, rs[1..][1..][1..]);
    }
    assert DENIED_READ.results[1..] == [] && GateResults(STUCK_NAMES, true, DENIED_READ.results);
    assert STUCK_REQUEST.exchanges[1..] == [DENIED_READ] && [DENIED_READ][1..] == [];
    assert Gate(STUCK_NAMES, true, [DENIED_READ]);
  }

  lemma SearchesInventory()
    ensures ResultsInventory(STUCK_NAMES, SEARCHES.calls, SEARCHES.results) == Inventory({LEAD}, {}, {}, {})
  {
    var calls, rs := SEARCHES.calls, SEARCHES.results;
    forall k | 0 <= k < 4
      ensures Contribution(STUCK_NAMES, calls, rs[k]) == Inventory({LEAD}, {}, {}, {})
    {
      LookupHere(calls, rs[k].callId, k);
      assert UrlsOf(LISTING.results) == {LEAD};
    }
    assert rs[..3][..2] == rs[..2] && rs[..2][..1] == rs[..1] && rs[..1][..0] == [];
    assert ResultsInventory(STUCK_NAMES, calls, rs[..0]) == NOTHING;
    assert ResultsInventory(STUCK_NAMES, calls, rs[..1]) == Inventory({LEAD}, {}, {}, {});
    assert ResultsInventory(STUCK_NAMES, calls, rs[..2]) == Inventory({LEAD}, {}, {}, {});
    assert ResultsInventory(STUCK_NAMES, calls, rs[..3]) == Inventory({LEAD}, {}, {}, {});
  }

  lemma {:induction false} LookupHere(calls: seq<Call>, id: string, k: nat)
    requires k < |calls| && calls[k].callId == id
    requires forall i :: k < i < |calls| ==> calls[i].callId != id
    ensures Lookup(calls, id) == Some(calls[k])
  {
    if k < |calls| - 1 {
      LookupHere(calls[..|calls| - 1], id, k);
    }
  }

  lemma DeniedInventory()
    ensures ResultsInventory(STUCK_NAMES, DENIED_READ.calls, DENIED_READ.results) == Inventory({}, {}, {LEAD}, {LEAD})
  {
    var calls, rs := DENIED_READ.calls, DENIED_READ.results;
    LookupHere(calls, "5", 0);
    assert rs[..0] == [] && ResultsInventory(STUCK_NAMES, calls, rs[..0]) == NOTHING;
    assert Contribution(STUCK_NAMES, calls, rs[0]) == Inventory({}, {}, {LEAD}, {LEAD});
  }

  lemma StuckInventory()
    ensures InventoryOf(STUCK_NAMES, map[], STUCK_REQUEST) == Inventory({LONG, LEAD}, {}, {LEAD}, {LEAD})
  {
    var es := STUCK_REQUEST.exchanges;
    SearchesInventory();
    DeniedInventory();
    assert es[..1] == [SEARCHES] && [SEARCHES][..0] == [];
    assert ExchangesInventory(STUCK_NAMES, []) == NOTHING;
    assert ExchangesInventory(STUCK_NAMES, [SEARCHES]) == Inventory({LEAD}, {}, {}, {});
    assert ExchangesInventory(STUCK_NAMES, es) == Inventory({LEAD}, {}, {LEAD}, {LEAD});
  }

  lemma StuckSituation()
    ensures var s := Situate(STUCK_ENVIRONMENT, STUCK, STUCK_REQUEST);
      && s.remaining == 1 && s.readPending
      && s.definitions == map[SearchTool := Tool("s", "search"), ReadTool := Tool("r", "read")]
      && s.inventory == Inventory({LONG, LEAD}, {}, {LEAD}, {LEAD})
  {
    GateIsPending();
    StuckInventory();
    var es, tools := STUCK_REQUEST.exchanges, STUCK_REQUEST.tools;
    assert es[..1] == [SEARCHES] && [SEARCHES][..0] == [];
    assert CallCount([]) == 0 && CallCount([SEARCHES]) == 4;
    assert tools[..1] == [Tool("s", "search")] && tools[..1][..0] == [];
    assert Definitions(STUCK_NAMES, tools[..1][..0]) == map[];
    assert Definitions(STUCK_NAMES, tools[..1]) == map[SearchTool := Tool("s", "search")];
  }

  /** A search that was not made yet is admitted there, were it offered. */
  lemma StuckSearchAdmitted()
    ensures var s := Situate(STUCK_ENVIRONMENT, STUCK, STUCK_REQUEST);
      SearchTool in s.definitions && SearchAdmitted(STUCK_ENVIRONMENT, s, STUCK_REQUEST, Query("e"))
  {
    StuckSituation();
    forall i, k | 0 <= i < |STUCK_REQUEST.exchanges| && 0 <= k < |STUCK_REQUEST.exchanges[i].calls|
      ensures STUCK_REQUEST.exchanges[i].calls[k].arguments != Query("e")
    {
      assert STUCK_REQUEST.exchanges[i] == SEARCHES || STUCK_REQUEST.exchanges[i] == DENIED_READ;
      assert Query("e").rest["query"] == "e";
    }
  }

  lemma LongIsOpen(s: Situation)
    requires s.inventory == Inventory({LONG, LEAD}, {}, {LEAD}, {LEAD}) && s.readPending && s.remaining == 1
    requires ReadTool in s.definitions
    ensures CanContinueRead(s) && !Fits(LONG)
  {
    assert LONG[..8] == "https://" && |LONG| == 2100;
    assert LONG !in {LEAD} by {
      assert |LEAD| == 9;
    }
    assert LONG in s.inventory.known && OpenLead(s, LONG);
  }

  /** A link of 2100 characters in the text of the user, and every other lead denied:
      both shipped tools are offered, a new search is admitted, the gate is pending,
      and no response at all is accepted. */
  lemma LongUrlDeadEnd()
    ensures var s := Situate(STUCK_ENVIRONMENT, STUCK, STUCK_REQUEST);
      && s.definitions.Keys == {SearchTool, ReadTool} && SearchAdmitted(STUCK_ENVIRONMENT, s, STUCK_REQUEST, Query("e"))
      && ShipsRead(STUCK_ENVIRONMENT, s)
      && forall resp :: !Judge(STUCK_ENVIRONMENT, s, STUCK, STUCK_REQUEST, resp).verdict.Accepted?
  {
    var s := Situate(STUCK_ENVIRONMENT, STUCK, STUCK_REQUEST);
    StuckSituation();
    StuckSearchAdmitted();
    LongIsOpen(s);
    ShippedAcceptedExactly(STUCK_ENVIRONMENT, STUCK, STUCK_REQUEST, Query("e"), "6");
  }
}
