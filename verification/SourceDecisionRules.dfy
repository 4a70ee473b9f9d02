/** The source-decision protocol in terms of names, calls and receipts: what a
    generation starts with, what the receipts say about a URL, which check refuses a
    decision, and what one stream call leaves (tools/source_decision_evaluation.py). */
module SourceDecisionRules {
  import opened Checks
  import opened Text
  import opened Wrappers
  import opened SourceDecision

  // ----- The start of a generation -----

  predicate SourceProjections(projections: seq<Projection>) {
    && projections != []
    && forall i :: 0 <= i < |projections| ==>
         projections[i].readOnly && (projections[i].skillId == "web.search" || projections[i].skillId == "web.read")
  }

  predicate LastOfName(projections: seq<Projection>, i: int) {
    0 <= i < |projections| && forall j :: i < j < |projections| ==> projections[j].name != projections[i].name
  }

  /** Projections that are all read-only searches and reads of the web give their names,
      each to the kind of its skill (the last one, if a name comes twice); any other
      projections give none. */
  ghost predicate NamesAre(projections: seq<Projection>, names: map<string, ToolKind>) {
    if SourceProjections(projections) then
      && (forall name :: name in names <==> exists i :: 0 <= i < |projections| && projections[i].name == name)
      && (forall i :: LastOfName(projections, i) ==>
            && projections[i].name in names
            && (names[projections[i].name] == SearchTool <==> projections[i].skillId == "web.search")
            && (names[projections[i].name] == ReadTool <==> projections[i].skillId == "web.read"))
    else names == map[]
  }

  predicate KeptReceipt(r: PriorReceipt) { r.originalAvailable && r.isRead && r.succeeded && r.data.Some? }

  predicate LastOfRun(receipts: seq<PriorReceipt>, i: int) {
    && 0 <= i < |receipts| && KeptReceipt(receipts[i])
    && forall j :: i < j < |receipts| && KeptReceipt(receipts[j]) ==> receipts[j].skillRunId != receipts[i].skillRunId
  }

  /** What is kept of earlier turns: the bodies of available, successful reads. */
  ghost predicate PriorIs(receipts: seq<PriorReceipt>, prior: map<string, Body>) {
    && (forall id :: id in prior <==> exists i :: 0 <= i < |receipts| && KeptReceipt(receipts[i]) && receipts[i].skillRunId == id)
    && (forall i :: LastOfRun(receipts, i) ==> receipts[i].skillRunId in prior && Some(prior[receipts[i].skillRunId]) == receipts[i].data)
  }

  ghost predicate StartsFresh(generationId: string, projections: seq<Projection>, receipts: seq<PriorReceipt>, p: Provider) {
    && p.generationId == Some(generationId) && NamesAre(projections, p.names) && PriorIs(receipts, p.prior)
    && p.pending == map[] && p.native == map[] && p.records == [] && p.corrections == 0 && !p.currentRequirements
  }

  predicate NamedKind(projections: seq<Projection>, names: map<string, ToolKind>, i: int)
    requires 0 <= i < |projections|
  {
    && projections[i].name in names
    && names[projections[i].name] == if projections[i].skillId == "web.search" then SearchTool else ReadTool
  }

  lemma {:induction false} ToolNamesAre(projections: seq<Projection>)
    ensures forall name :: name in ToolNames(projections) <==> exists i :: 0 <= i < |projections| && projections[i].name == name
    ensures forall i :: LastOfName(projections, i) ==> NamedKind(projections, ToolNames(projections), i)
  {
    if projections != [] {
      var n := |projections| - 1;
      var earlier := projections[..n];
      ToolNamesAre(earlier);
      assert forall i :: 0 <= i < n ==> earlier[i] == projections[i];
      forall i | LastOfName(projections, i)
        ensures NamedKind(projections, ToolNames(projections), i)
      {
        if i < n {
          assert LastOfName(earlier, i) && NamedKind(earlier, ToolNames(earlier), i);
          assert projections[n].name != projections[i].name;
        }
      }
    }
  }

  predicate HoldsBody(receipts: seq<PriorReceipt>, prior: map<string, Body>, i: int)
    requires 0 <= i < |receipts|
  {
    receipts[i].skillRunId in prior && Some(prior[receipts[i].skillRunId]) == receipts[i].data
  }

  lemma {:induction false} LastBodiesHeld(receipts: seq<PriorReceipt>, i: int)
    requires LastOfRun(receipts, i)
    ensures HoldsBody(receipts, PriorBodies(receipts), i)
  {
    var n := |receipts| - 1;
    if i < n {
      assert KeptReceipt(receipts[n]) ==> receipts[n].skillRunId != receipts[i].skillRunId;
      LastBodiesHeld(receipts[..n], i);
      assert HoldsBody(receipts[..n], PriorBodies(receipts[..n]), i);
    }
  }

  lemma {:induction false} BodiesAreKept(receipts: seq<PriorReceipt>, id: string)
    ensures id in PriorBodies(receipts) <==> exists i :: 0 <= i < |receipts| && KeptReceipt(receipts[i]) && receipts[i].skillRunId == id
  {
    if receipts != [] {
      var n := |receipts| - 1;
      BodiesAreKept(receipts[..n], id);
      assert forall i :: 0 <= i < n ==> receipts[..n][i] == receipts[i];
    }
  }

  lemma PriorBodiesAre(receipts: seq<PriorReceipt>)
    ensures PriorIs(receipts, PriorBodies(receipts))
  {
    hide PriorBodies, KeptReceipt;
    forall id
      ensures id in PriorBodies(receipts) <==> exists i :: 0 <= i < |receipts| && KeptReceipt(receipts[i]) && receipts[i].skillRunId == id
    {
      BodiesAreKept(receipts, id);
    }
    forall i | LastOfRun(receipts, i)
      ensures HoldsBody(receipts, PriorBodies(receipts), i)
    {
      LastBodiesHeld(receipts, i);
    }
  }

  lemma BeginExactly(generationId: string, projections: seq<Projection>, receipts: seq<PriorReceipt>)
    ensures StartsFresh(generationId, projections, receipts, Begun(generationId, projections, receipts))
  {
    PriorBodiesAre(receipts);
    if SourceProjections(projections) {
      ToolNamesAre(projections);
      forall i | LastOfName(projections, i)
        ensures NamedKind(projections, ToolNames(projections), i)
      {}
    }
  }

  /** With different names every projection has its own kind. */
  lemma EveryNameHasItsKind(generationId: string, projections: seq<Projection>, receipts: seq<PriorReceipt>, i: nat)
    requires SourceProjections(projections) && i < |projections|
    requires forall j, k :: 0 <= j < k < |projections| ==> projections[j].name != projections[k].name
    ensures var names := Begun(generationId, projections, receipts).names;
      && projections[i].name in names
      && (names[projections[i].name] == SearchTool <==> projections[i].skillId == "web.search")
  {
    BeginExactly(generationId, projections, receipts);
    assert LastOfName(projections, i);
  }

  // ----- What the receipts say -----

  /** The k-th receipt answers the c-th call: the last one of its identifier. */
  predicate Answers(e: Exchange, k: int, c: int) {
    && 0 <= k < |e.results| && 0 <= c < |e.calls| && e.calls[c].callId == e.results[k].callId
    && forall d :: c < d < |e.calls| ==> e.calls[d].callId != e.results[k].callId
  }

  predicate NoCall(e: Exchange, k: int)
    requires 0 <= k < |e.results|
  {
    forall d :: 0 <= d < |e.calls| ==> e.calls[d].callId != e.results[k].callId
  }

  predicate Brings(r: Receipt) { !r.isError && r.content.Object? && r.content.ok && r.content.data.Data? }

  predicate Kind(names: map<string, ToolKind>, e: Exchange, c: int, kind: ToolKind)
    requires 0 <= c < |e.calls|
  {
    e.calls[c].name in names && names[e.calls[c].name] == kind
  }

  /** A read that was asked for this URL, or came from it, brought a text. */
  predicate ReadBy(names: map<string, ToolKind>, e: Exchange, k: int, c: int, u: Url) {
    && Answers(e, k, c) && Brings(e.results[k]) && Kind(names, e, c, ReadTool) && e.results[k].content.data.hasText
    && (e.calls[c].arguments.url == StringUrl(u) || e.results[k].content.data.url == Some(u))
  }

  /** A search listed it, or another tool linked to it. */
  predicate ListedBy(names: map<string, ToolKind>, e: Exchange, k: int, c: int, u: Url) {
    && Answers(e, k, c) && Brings(e.results[k])
    && if Kind(names, e, c, SearchTool) then u in e.results[k].content.data.results else u in e.results[k].content.data.links
  }

  /** A read that was asked for it went wrong or brought no text ... */
  predicate FailedBy(names: map<string, ToolKind>, e: Exchange, k: int, c: int, u: Url) {
    && Answers(e, k, c) && Kind(names, e, c, ReadTool) && e.calls[c].arguments.url == StringUrl(u)
    && e.results[k].content.Object?
    && (e.results[k].isError || !e.results[k].content.ok
        || (e.results[k].content.data.Data? && !e.results[k].content.data.hasText))
  }

  /** ... and was not permitted. */
  predicate DeniedBy(names: map<string, ToolKind>, e: Exchange, k: int, c: int, u: Url) {
    && Answers(e, k, c) && Kind(names, e, c, ReadTool) && e.calls[c].arguments.url == StringUrl(u)
    && e.results[k].content.Object? && (e.results[k].isError || !e.results[k].content.ok) && e.results[k].content.permissionDenied
  }

  ghost predicate SomeRead(names: map<string, ToolKind>, e: Exchange, u: Url) { exists k, c :: ReadBy(names, e, k, c, u) }

  ghost predicate SomeListed(names: map<string, ToolKind>, e: Exchange, u: Url) { exists k, c :: ListedBy(names, e, k, c, u) }

  ghost predicate SomeFailed(names: map<string, ToolKind>, e: Exchange, u: Url) { exists k, c :: FailedBy(names, e, k, c, u) }

  ghost predicate SomeDenied(names: map<string, ToolKind>, e: Exchange, u: Url) { exists k, c :: DeniedBy(names, e, k, c, u) }

  lemma {:induction false} LookupExactly(calls: seq<Call>, id: string)
    ensures Lookup(calls, id).None? <==> forall d :: 0 <= d < |calls| ==> calls[d].callId != id
    ensures forall c :: 0 <= c < |calls| && calls[c].callId == id && (forall d :: c < d < |calls| ==> calls[d].callId != id) ==>
              Lookup(calls, id) == Some(calls[c])
  {
    if calls != [] {
      var n := |calls| - 1;
      LookupExactly(calls[..n], id);
      assert forall d :: 0 <= d < n ==> calls[..n][d] == calls[d];
    }
  }

  lemma {:induction false} LastCall(calls: seq<Call>, id: string) returns (c: int)
    requires exists d :: 0 <= d < |calls| && calls[d].callId == id
    ensures 0 <= c < |calls| && calls[c].callId == id && forall d :: c < d < |calls| ==> calls[d].callId != id
  {
    var n := |calls| - 1;
    if calls[n].callId == id {
      c := n;
    } else {
      assert exists d :: 0 <= d < n && calls[..n][d].callId == id by {
        var d :| 0 <= d < |calls| && calls[d].callId == id;
        assert calls[..n][d] == calls[d];
      }
      c := LastCall(calls[..n], id);
      assert forall d :: 0 <= d < n ==> calls[..n][d] == calls[d];
    }
  }

  /** One receipt, with the call it answers. */
  lemma ContributionExactly(names: map<string, ToolKind>, e: Exchange, k: int, c: int, u: Url)
    requires Answers(e, k, c)
    ensures var one := Contribution(names, e.calls, e.results[k]);
      && (u in one.read <==> ReadBy(names, e, k, c, u))
      && (u in one.known <==> ReadBy(names, e, k, c, u) || ListedBy(names, e, k, c, u))
      && (u in one.failed <==> FailedBy(names, e, k, c, u))
      && (u in one.denied <==> DeniedBy(names, e, k, c, u))
  {
    LookupExactly(e.calls, e.results[k].callId);
  }

  lemma NoContribution(names: map<string, ToolKind>, e: Exchange, k: int)
    requires 0 <= k < |e.results| && NoCall(e, k)
    ensures Contribution(names, e.calls, e.results[k]) == NOTHING
  {
    LookupExactly(e.calls, e.results[k].callId);
  }

  lemma OneAnswers(e: Exchange, k: int, c: int, d: int)
    requires Answers(e, k, c) && Answers(e, k, d)
    ensures c == d
  {}

  ghost predicate ExchangeSays(names: map<string, ToolKind>, e: Exchange, all: Inventory, u: Url) {
    && (u in all.read <==> SomeRead(names, e, u))
    && (u in all.known <==> SomeRead(names, e, u) || SomeListed(names, e, u))
    && (u in all.failed <==> SomeFailed(names, e, u))
    && (u in all.denied <==> SomeDenied(names, e, u))
  }

  /** One more receipt. */
  lemma OneMoreReceipt(names: map<string, ToolKind>, e: Exchange, before: Exchange, all: Inventory, u: Url)
    requires e.results != [] && before == Exchange(e.calls, e.results[..|e.results| - 1]) && ExchangeSays(names, before, all, u)
    ensures ExchangeSays(names, e, all.Plus(Contribution(names, e.calls, e.results[|e.results| - 1])), u)
  {
    var n := |e.results| - 1;
    forall k, c | k < n
      ensures Answers(e, k, c) <==> Answers(before, k, c)
      ensures ReadBy(names, e, k, c, u) <==> ReadBy(names, before, k, c, u)
      ensures ListedBy(names, e, k, c, u) <==> ListedBy(names, before, k, c, u)
      ensures FailedBy(names, e, k, c, u) <==> FailedBy(names, before, k, c, u)
      ensures DeniedBy(names, e, k, c, u) <==> DeniedBy(names, before, k, c, u)
    {
      assert 0 <= k ==> before.results[k] == e.results[k];
    }
    if NoCall(e, n) {
      NoContribution(names, e, n);
      assert forall c :: !Answers(e, n, c);
    } else {
      var c := LastCall(e.calls, e.results[n].callId);
      ContributionExactly(names, e, n, c, u);
      forall d | Answers(e, n, d)
        ensures c == d
      {
        OneAnswers(e, n, c, d);
      }
    }
  }

  lemma {:induction false} ResultsSay(names: map<string, ToolKind>, e: Exchange, u: Url)
    ensures ExchangeSays(names, e, ResultsInventory(names, e.calls, e.results), u)
    decreases |e.results|
  {
    if e.results != [] {
      var before := Exchange(e.calls, e.results[..|e.results| - 1]);
      ResultsSay(names, before, u);
      OneMoreReceipt(names, e, before, ResultsInventory(names, e.calls, before.results), u);
    }
  }

  ghost predicate ExchangesSay(names: map<string, ToolKind>, exchanges: seq<Exchange>, all: Inventory, u: Url) {
    && (u in all.read <==> exists i :: 0 <= i < |exchanges| && SomeRead(names, exchanges[i], u))
    && (u in all.known <==> exists i :: 0 <= i < |exchanges| && (SomeRead(names, exchanges[i], u) || SomeListed(names, exchanges[i], u)))
    && (u in all.failed <==> exists i :: 0 <= i < |exchanges| && SomeFailed(names, exchanges[i], u))
    && (u in all.denied <==> exists i :: 0 <= i < |exchanges| && SomeDenied(names, exchanges[i], u))
  }

  lemma {:induction false} InventorySays(names: map<string, ToolKind>, exchanges: seq<Exchange>, u: Url)
    ensures ExchangesSay(names, exchanges, ExchangesInventory(names, exchanges), u)
  {
    hide ResultsInventory, SomeRead, SomeListed, SomeFailed, SomeDenied;
    if exchanges != [] {
      var n := |exchanges| - 1;
      var earlier := exchanges[..n];
      InventorySays(names, earlier, u);
      ResultsSay(names, exchanges[n], u);
      assert forall i :: 0 <= i < n ==> earlier[i] == exchanges[i];
    }
  }

  /** The newest envelope repeats the stored body of an earlier read of this URL. */
  ghost predicate Retains(prior: map<string, Body>, envelopes: seq<Envelope>, u: Url) {
    envelopes != [] && envelopes[|envelopes| - 1].Records? && SomeRepeats(prior, envelopes[|envelopes| - 1].records, u)
  }

  ghost predicate SomeRepeats(prior: map<string, Body>, records: seq<PriorRecord>, u: Url) {
    exists k :: 0 <= k < |records| && Repeats(prior, records[k], u)
  }

  predicate Repeats(prior: map<string, Body>, r: PriorRecord, u: Url) {
    && r.isRead && r.succeeded && r.available && r.skillRunId in prior && r.data == Some(prior[r.skillRunId])
    && r.data.value.url == Some(u) && u != "" && r.data.value.hasText
  }

  lemma RetainedExactly(prior: map<string, Body>, envelopes: seq<Envelope>, u: Url)
    ensures u in RetainedReads(prior, envelopes) <==> Retains(prior, envelopes, u)
  {
    if envelopes != [] && envelopes[|envelopes| - 1].Records? {
      var records := envelopes[|envelopes| - 1].records;
      forall k | 0 <= k < |records|
        ensures Trusted(prior, records[k]) && prior[records[k].skillRunId].url.value == u <==> Repeats(prior, records[k], u)
      {}
    }
  }

  /** The four inventories of a request, URL by URL. */
  lemma InventoryExactly(names: map<string, ToolKind>, prior: map<string, Body>, req: Request, u: Url)
    ensures var all := InventoryOf(names, prior, req);
      && (u in all.read <==> Retains(prior, req.envelopes, u) || exists i :: 0 <= i < |req.exchanges| && SomeRead(names, req.exchanges[i], u))
      && (u in all.known <==>
            || u in req.userUrls || Retains(prior, req.envelopes, u)
            || exists i :: 0 <= i < |req.exchanges| && (SomeRead(names, req.exchanges[i], u) || SomeListed(names, req.exchanges[i], u)))
      && (u in all.failed <==> exists i :: 0 <= i < |req.exchanges| && SomeFailed(names, req.exchanges[i], u))
      && (u in all.denied <==> exists i :: 0 <= i < |req.exchanges| && SomeDenied(names, req.exchanges[i], u))
  {
    RetainedExactly(prior, req.envelopes, u);
    InventorySays(names, req.exchanges, u);
  }

  // ----- Reading and searching in order -----

  ghost predicate BodyIn(names: map<string, ToolKind>, e: Exchange) {
    exists k, c :: Answers(e, k, c) && Kind(names, e, c, ReadTool) && Brings(e.results[k]) && e.results[k].content.data.hasText
  }

  /** A search counts however it ended. */
  ghost predicate SearchTried(names: map<string, ToolKind>, e: Exchange) {
    exists k, c :: Answers(e, k, c) && Kind(names, e, c, SearchTool)
  }

  lemma KindExactly(names: map<string, ToolKind>, e: Exchange, k: int, kind: ToolKind)
    requires 0 <= k < |e.results|
    ensures KindOf(names, e.calls, e.results[k]) == Some(kind) <==> exists c :: Answers(e, k, c) && Kind(names, e, c, kind)
  {
    LookupExactly(e.calls, e.results[k].callId);
    if !NoCall(e, k) {
      var c := LastCall(e.calls, e.results[k].callId);
      assert Answers(e, k, c);
      forall d | Answers(e, k, d)
        ensures c == d
      {
        OneAnswers(e, k, c, d);
      }
    }
  }

  lemma ExchangeExactly(names: map<string, ToolKind>, e: Exchange)
    ensures ReadIn(names, e) <==> BodyIn(names, e)
    ensures SearchIn(names, e) <==> SearchTried(names, e)
  {
    forall k | 0 <= k < |e.results|
      ensures KindOf(names, e.calls, e.results[k]) == Some(ReadTool) <==> exists c :: Answers(e, k, c) && Kind(names, e, c, ReadTool)
      ensures KindOf(names, e.calls, e.results[k]) == Some(SearchTool) <==> exists c :: Answers(e, k, c) && Kind(names, e, c, SearchTool)
    {
      KindExactly(names, e, k, ReadTool);
      KindExactly(names, e, k, SearchTool);
    }
  }

  /** A body was read before the n-th exchange, in this turn or an earlier one. */
  ghost predicate BodyBefore(names: map<string, ToolKind>, exchanges: seq<Exchange>, prior: bool, n: int) {
    prior || exists i :: 0 <= i < n && i < |exchanges| && BodyIn(names, exchanges[i])
  }

  lemma {:induction false} PostReadExactly(names: map<string, ToolKind>, exchanges: seq<Exchange>, prior: bool)
    ensures PostReadState(names, exchanges, prior).readSeen <==> BodyBefore(names, exchanges, prior, |exchanges|)
    ensures PostReadState(names, exchanges, prior).searchedAfterRead <==>
            exists j :: 0 <= j < |exchanges| && SearchTried(names, exchanges[j]) && BodyBefore(names, exchanges, prior, j)
  {
    if exchanges != [] {
      var n := |exchanges| - 1;
      var earlier := exchanges[..n];
      PostReadExactly(names, earlier, prior);
      ExchangeExactly(names, exchanges[n]);
      assert forall i :: 0 <= i < n ==> earlier[i] == exchanges[i];
      assert forall j :: 0 <= j <= n ==> (BodyBefore(names, earlier, prior, j) <==> BodyBefore(names, exchanges, prior, j));
    }
  }

  // ----- What a stream call fixes -----

  /** The tool of a kind is the last one offered under a name of that kind. */
  lemma {:induction false} DefinitionsExactly(names: map<string, ToolKind>, tools: seq<Tool>, kind: ToolKind)
    requires forall i :: 0 <= i < |tools| ==> tools[i].name in names
    ensures kind in Definitions(names, tools) <==> exists i :: 0 <= i < |tools| && names[tools[i].name] == kind
    ensures forall i :: 0 <= i < |tools| && names[tools[i].name] == kind
                        && (forall j :: i < j < |tools| ==> names[tools[j].name] != kind) ==>
              Definitions(names, tools)[kind] == tools[i]
  {
    if tools != [] {
      var n := |tools| - 1;
      DefinitionsExactly(names, tools[..n], kind);
      assert forall i :: 0 <= i < n ==> tools[..n][i] == tools[i];
    }
  }

  /** Calls are counted exchange by exchange. */
  lemma {:induction false} CallsCount(a: seq<Exchange>, e: Exchange)
    ensures CallCount([]) == 0 && CallCount(a + [e]) == CallCount(a) + |e.calls|
  {
    assert (a + [e])[..|a|] == a;
  }

  ghost predicate IsSituation(env: Environment, p: Provider, req: Request, s: Situation) {
    && s.inventory == InventoryOf(p.names, p.prior, req)
    && s.postRead == PostReadState(p.names, req.exchanges, exists u :: Retains(p.prior, req.envelopes, u))
    && s.readPending == env.requiresRead(req.exchanges)
    && s.remaining == 6 - CallCount(req.exchanges)
    && (forall i :: 0 <= i < |req.tools| ==> req.tools[i].name in p.names)
    && s.definitions == Definitions(p.names, req.tools)
  }

  lemma SituationExactly(env: Environment, p: Provider, req: Request)
    requires forall i :: 0 <= i < |req.tools| ==> req.tools[i].name in p.names
    ensures IsSituation(env, p, req, Situate(env, p, req))
  {
    var retained := RetainedReads(p.prior, req.envelopes);
    assert retained != {} <==> exists u :: Retains(p.prior, req.envelopes, u) by {
      forall u
        ensures u in retained <==> Retains(p.prior, req.envelopes, u)
      {
        RetainedExactly(p.prior, req.envelopes, u);
      }
      if retained != {} {
        var u :| u in retained;
      }
    }
  }
}
