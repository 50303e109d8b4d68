/** What every request keeps about the notice it serves. */
module Invariants {
  import opened Text
  import opened Status
  import opened NoticeModel
  import opened DocumentAutomation
  import opened Exports
  import opened Attachments
  import opened Workflow

  // ---- checklist ids, readiness, upload ids ----

  /** The stored verdict may be stale, but never too good: everything truly missing is listed,
      and ready means the list is empty. */
  ghost predicate Sound(docs: Docs) {
    && DistinctIds(docs.checklist)
    && (docs.ready <==> docs.missing == [])
    && forall i :: 0 <= i < |docs.checklist| && IsMissing(docs.checklist[i]) ==> Has(docs.missing, docs.checklist[i].id)
  }

  lemma ReadyMeansComplete(docs: Docs)
    requires Sound(docs) && docs.ready
    ensures ValidateChecklist(docs.checklist) == []
  {
    forall i | i in docs.checklist
      ensures !IsMissing(i)
    {
      var k :| 0 <= k < |docs.checklist| && docs.checklist[k] == i;
    }
    NothingMissing(docs.checklist);
  }

  lemma {:induction false} NothingMissing(items: seq<Item>)
    requires forall i :: i in items ==> !IsMissing(i)
    ensures ValidateChecklist(items) == []
  {
    if items != [] {
      NothingMissing(items[..|items| - 1]);
    }
  }

  lemma RefreshedIsSound(docs: Docs)
    requires DistinctIds(docs.checklist)
    ensures Sound(Refreshed(docs))
  {
  }

  lemma AnalyzedIds(facts: RuleFacts, bidFormFilled: bool, llm: Suggestion, existing: Docs)
    ensures SameIds(AnalyzedChecklist(facts, bidFormFilled, llm, existing),
                    Merged(RuleChecklist(facts, bidFormFilled), llm.items, facts.assignee))
    ensures DistinctIds(AnalyzedChecklist(facts, bidFormFilled, llm, existing))
  {
    MergedIds(RuleChecklist(facts, bidFormFilled), llm.items, facts.assignee, BidForm);
  }

  lemma AnalyzedIsSound(facts: RuleFacts, bidFormFilled: bool, llm: Suggestion, existing: Docs)
    ensures Sound(AnalyzedDocs(facts, bidFormFilled, llm, existing))
  {
    AnalyzedIds(facts, bidFormFilled, llm, existing);
    RefreshedIsSound(AnalyzedDocs(facts, bidFormFilled, llm, existing));
  }

  ghost predicate NoticeOk(n: Notice) {
    && (n.status.Collected? ==> n.docs.None?)
    && (n.docs.Some? ==>
          Sound(n.docs.value) && Sourced(n.docs.value.checklist) && UploadIdsOk(n.docs.value.uploads, n.uploadSeq))
  }

  lemma FetchedDocsOk(docs: Docs, next: nat, todo: seq<Attachment>, up: bool, facts: RuleFacts, bidFormFilled: bool,
                      llm: Suggestion)
    requires UploadIdsOk(docs.uploads, next)
    ensures
      var r := FetchAttachments(docs, next, todo, up, facts, bidFormFilled, llm);
      Sound(r.docs) && Sourced(r.docs.checklist) && UploadIdsOk(r.docs.uploads, r.uploadSeq)
  {
    var fetched := FetchLoop(docs, next, todo, up).docs;
    FetchUploads(docs, next, todo, up, facts, bidFormFilled, llm);
    AnalyzedIsSound(facts, bidFormFilled, llm, fetched);
    AnalyzedIsSourced(facts, bidFormFilled, llm, fetched);
  }

  lemma FetchKeepsOk(n: Notice, todo: seq<Attachment>, up: bool, facts1: RuleFacts, llm1: Suggestion,
                     facts: RuleFacts, llm: Suggestion)
    requires NoticeOk(n)
    ensures NoticeOk(FetchG2bAttachments(n, todo, up, facts1, llm1, facts, llm).notice)
  {
    var docs := DocsOrFirst(n, facts1, llm1);
    assert UploadIdsOk(docs.uploads, n.uploadSeq);
    FetchedDocsOk(docs, n.uploadSeq, todo, up, facts, n.bidFormFilled, llm);
  }

  lemma PatchedIsSound(docs: Docs, id: ItemId, status: Option<ItemStatus>, owner: Option<string>, note: Option<string>)
    requires DistinctIds(docs.checklist) && Has(docs.checklist, id)
    ensures Sound(PatchedDocs(docs, id, status, owner, note))
  {
    var k := IndexOf(docs.checklist, id);
    RefreshedIsSound(docs.(checklist := docs.checklist[k := PatchItem(docs.checklist[k], status, owner, note)]));
  }

  lemma OkWithDocs(n: Notice, docs: Docs)
    requires NoticeOk(n) && n.docs.Some? && docs.uploads == n.docs.value.uploads
    requires Sound(docs) && Sourced(docs.checklist)
    ensures NoticeOk(n.(docs := Some(docs)))
  {
  }

  lemma PatchKeepsOk(n: Notice, id: ItemId, status: Option<ItemStatus>, owner: Option<string>, note: Option<string>)
    requires NoticeOk(n)
    ensures NoticeOk(PatchChecklist(n, id, status, owner, note).notice)
  {
    if n.docs.Some? && Has(n.docs.value.checklist, id) {
      PatchedIsSourced(n.docs.value, id, status, owner, note);
      PatchedIsSound(n.docs.value, id, status, owner, note);
      PatchLeavesUploads(n.docs.value, id, status, owner, note);
      OkWithDocs(n, PatchedDocs(n.docs.value, id, status, owner, note));
    }
  }

  lemma PatchLeavesUploads(docs: Docs, id: ItemId, status: Option<ItemStatus>, owner: Option<string>,
                           note: Option<string>)
    requires Has(docs.checklist, id)
    ensures PatchedDocs(docs, id, status, owner, note).uploads == docs.uploads
  {
  }

  lemma AutofillKeepsOk(n: Notice, agentOk: bool)
    requires NoticeOk(n)
    ensures NoticeOk(AutofillForm(n, agentOk).notice)
  {
    var docs := if n.docs.Some? then n.docs.value else NO_DOCS;
    FilledIsSourced(docs);
    assert SameIds(WithBidForm(docs).checklist, docs.checklist);
    RefreshedIsSound(WithBidForm(docs));
  }

  lemma UploadKeepsOk(n: Notice, name: string, item: Option<ItemId>, incoming: Incoming, err: Option<string>, exc: bool)
    requires NoticeOk(n)
    ensures NoticeOk(UploadDocument(n, name, item, incoming, err, exc).notice)
  {
    if UploadRefusal(n, incoming) == Ok {
      var source := if incoming.Library? then CommonLibrary else Uploaded;
      PromotedIsSourced(n.docs.value.checklist, Upload(n.uploadSeq, name, item, source, err, exc));
    }
  }

  // ---- requests that produce a document ----

  function Mirror(n: Notice): seq<Export> { if n.docs.Some? then n.docs.value.exports else [] }

  predicate Produces(r: Request) { r.ReqExport? || r.ReqPutFields? || r.ReqCompose? || r.ReqProposal? }

  /** A producing request touches exports, errors and the status only, and moves the status forward. */
  ghost predicate ProducedFrom(n: Notice, m: Notice) {
    && (n.docs.None? ==> m == n)
    && (n.docs.Some? ==>
        && m.docs.Some? && m.docs.value == n.docs.value.(exports := m.docs.value.exports, errors := m.docs.value.errors)
        && m == n.(docs := m.docs, status := m.status)
        && (m.status == n.status || m.status.HwpComposed? || m.status.FormFilled?) && Forward(n.status, m.status))
  }

  lemma ExportProduces(n: Notice, kind: ExportKind, build: Build, rows: bool, bid: BidValues, next: nat)
    ensures
      var eff := ExportDocument(n, kind, build, rows, bid, next);
      ProducedFrom(n, eff.notice) && Mirror(eff.notice) == MergedAll(Mirror(n), eff.records)
  {
  }

  lemma PutProduces(n: Notice, template: TemplateKind, missing: bool, agent: Agent, next: nat)
    ensures
      var eff := PutHwpFields(n, template, missing, agent, next);
      ProducedFrom(n, eff.notice) && Mirror(eff.notice) == MergedAll(Mirror(n), eff.records)
  {
  }

  lemma FinishProduces(n: Notice, r: ComposeRequest, put: Put, next: nat)
    requires n.docs.Some? && (put.records != [] ==> r.agent.AgentDone?)
    ensures
      var eff := FinishCompose(n, r, put, next);
      ProducedFrom(n, eff.notice) && Mirror(eff.notice) == MergedAll(Mirror(n), eff.records)
  {
  }

  lemma ComposeProduces(n: Notice, r: ComposeRequest, next: nat)
    ensures
      var eff := ComposeHwpDocuments(n, r, next);
      ProducedFrom(n, eff.notice) && Mirror(eff.notice) == MergedAll(Mirror(n), eff.records)
  {
    var code := ComposeHwpDocuments(n, r, next).code;
    if code == Ok {
      var put := ComposeBidForm(n, r, next);
      FinishProduces(n, r, put, next);
      assert ComposeHwpDocuments(n, r, next) == FinishCompose(n, r, put, next);
    } else {
      assert ComposeHwpDocuments(n, r, next).records == [];
    }
  }

  lemma ProposalProduces(n: Notice, rows: bool, bid: BidValues, given: map<string, string>, warnings: nat,
                         missing: bool, agent: Agent, next: nat)
    ensures
      var eff := ComposeProposal(n, rows, bid, given, warnings, missing, agent, next);
      ProducedFrom(n, eff.notice) && Mirror(eff.notice) == MergedAll(Mirror(n), eff.records)
  {
  }

  lemma {:induction false} ServeProduces(n: Notice, r: Request, next: nat)
    requires Produces(r)
    ensures ProducedFrom(n, Serve(n, r, next).notice)
    ensures Mirror(Serve(n, r, next).notice) == MergedAll(Mirror(n), Serve(n, r, next).records)
  {
    match r
    case ReqExport(kind, build, rows, bid) => ExportProduces(n, kind, build, rows, bid, next);
    case ReqPutFields(t, missing, agent) => PutProduces(n, t, missing, agent, next);
    case ReqCompose(c) => ComposeProduces(n, c, next);
    case ReqProposal(rows, bid, given, warn, missing, agent) =>
      ProposalProduces(n, rows, bid, given, warn, missing, agent, next);
  }

  lemma ProducedKeepsOk(n: Notice, m: Notice)
    requires NoticeOk(n) && ProducedFrom(n, m)
    ensures NoticeOk(m)
  {
  }

  /** Every request keeps the notice in order. */
  lemma {:induction false} ServeKeepsOk(n: Notice, r: Request, next: nat)
    requires NoticeOk(n)
    ensures NoticeOk(Serve(n, r, next).notice)
  {
    if Produces(r) {
      ServeProduces(n, r, next);
      ProducedKeepsOk(n, Serve(n, r, next).notice);
    } else {
      match r
      case ReqFetch(todo, up, facts1, llm1, facts2, llm2) => FetchKeepsOk(n, todo, up, facts1, llm1, facts2, llm2);
      case ReqAnalyzeDocuments(facts, llm) =>
        AnalyzedIsSound(facts, n.bidFormFilled, llm, if n.docs.Some? then n.docs.value else NO_DOCS);
        AnalyzedIsSourced(facts, n.bidFormFilled, llm, if n.docs.Some? then n.docs.value else NO_DOCS);
      case ReqPatch(id, status, owner, note) => PatchKeepsOk(n, id, status, owner, note);
      case ReqValidate => if n.docs.Some? { RefreshedIsSound(n.docs.value); }
      case ReqUpload(name, item, incoming, err, exc) => UploadKeepsOk(n, name, item, incoming, err, exc);
      case ReqDeleteUpload(id) =>
        if n.docs.Some? { RemovedIds(n.docs.value.uploads, id, n.uploadSeq); }
      case ReqAutofill(ok) => AutofillKeepsOk(n, ok);
      case _ =>
    }
  }

  /** The one request that replaces the whole analysis never finds documents to lose. */
  lemma AnalyzeDiscardsNothing(n: Notice, fitScore: int)
    requires NoticeOk(n)
    ensures AnalyzeNotice(n, fitScore).code == Ok <==> n.status == Collected
    ensures AnalyzeNotice(n, fitScore).code == Ok ==> n.docs == None
  {
  }

  // ---- status ----

  lemma ForwardTransitive(a: Status, b: Status, c: Status)
    requires Forward(a, b) && Forward(b, c)
    ensures Forward(a, c)
  {
  }

  /** No request lowers the status; the final ones never change. */
  lemma ServeGoesForward(n: Notice, r: Request, next: nat)
    ensures Forward(n.status, Serve(n, r, next).notice.status)
  {
    if Produces(r) {
      ServeProduces(n, r, next);
    }
  }

  // ---- one fetched upload per name ----

  ghost predicate FetchedOnce(n: Notice) { n.docs.Some? ==> NamesOk(n.docs.value.uploads) }

  /** A fetch stores no name twice; every other request is fine. */
  ghost predicate StoresOnce(n: Notice, r: Request) {
    r.ReqFetch? ==> StoredOnce(r.todo, FetchedByName(DocsOrFirst(n, r.firstFacts, r.firstLlm).uploads))
  }

  lemma OtherUploadKeepsNames(uploads: seq<Upload>, u: Upload)
    requires NamesOk(uploads) && !u.source.G2bAttachment?
    ensures NamesOk(uploads + [u])
  {
    forall name
      ensures |Select(uploads + [u], {name}, true)| <= 1
    {
      SelectAppend(uploads, [u], {name}, true);
      assert |Select(uploads, {name}, true)| <= 1;
    }
  }

  lemma RemovalKeepsNames(uploads: seq<Upload>, id: nat)
    requires NamesOk(uploads)
    ensures NamesOk(Removed(uploads, id))
  {
    forall name
      ensures |Select(Removed(uploads, id), {name}, true)| <= 1
    {
      RemovedSelectsLess(uploads, id, {name}, true);
      assert |Select(uploads, {name}, true)| <= 1;
    }
  }

  lemma {:induction false} RemovedSelectsLess(uploads: seq<Upload>, id: nat, names: set<string>, inside: bool)
    ensures |Select(Removed(uploads, id), names, inside)| <= |Select(uploads, names, inside)|
  {
    if uploads != [] && uploads[0].id != id {
      RemovedSelectsLess(uploads[1..], id, names, inside);
    }
  }

  /** A request keeps at most one fetched upload per name exactly when it stores no name twice. */
  lemma ServeKeepsFetchedOnce(n: Notice, r: Request, next: nat)
    requires NoticeOk(n) && FetchedOnce(n)
    ensures FetchedOnce(Serve(n, r, next).notice) <==> StoresOnce(n, r)
  {
    if Produces(r) {
      ServeProduces(n, r, next);
      return;
    }
    match r
    case ReqFetch(todo, up, facts1, llm1, facts, llm) =>
      if n.docs.None? { NoUploadsNames(facts1, n.bidFormFilled, llm1); }
      FetchUploads(DocsOrFirst(n, facts1, llm1), n.uploadSeq, todo, up, facts, n.bidFormFilled, llm);
    case ReqUpload(name, item, incoming, err, exc) =>
      if UploadRefusal(n, incoming) == Ok {
        var source := if incoming.Library? then CommonLibrary else Uploaded;
        OtherUploadKeepsNames(n.docs.value.uploads, Upload(n.uploadSeq, name, item, source, err, exc));
      }
    case ReqDeleteUpload(id) =>
      if n.docs.Some? { RemovalKeepsNames(n.docs.value.uploads, id); }
    case _ =>
  }

  lemma NoUploadsNames(facts: RuleFacts, bidFormFilled: bool, llm: Suggestion)
    ensures NamesOk(AnalyzedDocs(facts, bidFormFilled, llm, NO_DOCS).uploads)
  {
    assert AnalyzedDocs(facts, bidFormFilled, llm, NO_DOCS).uploads == [];
  }

  // ---- exports ----

  lemma FetchKeepsMirror(n: Notice, todo: seq<Attachment>, up: bool, facts1: RuleFacts, llm1: Suggestion,
                         facts: RuleFacts, llm: Suggestion)
    ensures Mirror(FetchG2bAttachments(n, todo, up, facts1, llm1, facts, llm).notice) == Mirror(n)
  {
    FetchReport(DocsOrFirst(n, facts1, llm1), n.uploadSeq, todo, up, facts, n.bidFormFilled, llm);
  }

  lemma PatchKeepsMirror(n: Notice, id: ItemId, status: Option<ItemStatus>, owner: Option<string>, note: Option<string>)
    ensures Mirror(PatchChecklist(n, id, status, owner, note).notice) == Mirror(n)
  {
    if n.docs.Some? && Has(n.docs.value.checklist, id) {
      assert PatchedDocs(n.docs.value, id, status, owner, note).exports == n.docs.value.exports;
    }
  }

  /** What a request writes to the mirror is what it records in the table, in the same order. */
  lemma ServeMirrorsTable(n: Notice, r: Request, next: nat)
    requires NoticeOk(n)
    ensures Mirror(Serve(n, r, next).notice) == MergedAll(Mirror(n), Serve(n, r, next).records)
  {
    if Produces(r) {
      ServeProduces(n, r, next);
    } else {
      assert Serve(n, r, next).records == [];
      match r
      case ReqFetch(todo, up, facts1, llm1, facts, llm) => FetchKeepsMirror(n, todo, up, facts1, llm1, facts, llm);
      case ReqPatch(id, status, owner, note) => PatchKeepsMirror(n, id, status, owner, note);
      case _ =>
    }
  }

  // ---- the gate ----

  lemma {:induction false} NoMissingErrors(items: seq<Item>, targets: set<ItemId>)
    ensures MissingErrors(items, targets) == [] <==> forall i :: i in items && IsMissing(i) ==> i.id in targets
  {
    if items != [] {
      NoMissingErrors(items[..|items| - 1], targets);
      assert items == items[..|items| - 1] + [items[|items| - 1]];
    }
  }

  lemma {:induction false} NoEmptyErrors(required: seq<string>, bid: BidValues, given: map<string, string>)
    ensures EmptyErrors(required, bid, given) == [] <==>
            forall i :: 0 <= i < |required| ==> ValueOf(bid, given, required[i]) != ""
  {
    if required != [] {
      NoEmptyErrors(required[..|required| - 1], bid, given);
    }
  }

  /** Composing answers Ok exactly when spec rows exist, every required value is filled, every required
      document other than the ones being composed is there, and the template can be used. */
  lemma ComposeGate(n: Notice, r: ComposeRequest, next: nat)
    ensures ComposeHwpDocuments(n, r, next).code == Ok <==>
      && n.docs.Some? && r.hasSpecRows && AllFilled(r.bid, r.given)
      && (forall i :: i in n.docs.value.checklist && IsMissing(i) ==> i.id in ComposeTargets(r))
      && !(r.bidForm && r.agent.TemplateUnusable?)
    ensures ComposeHwpDocuments(n, r, next).code != Ok ==> ComposeHwpDocuments(n, r, next).records == []
  {
    if n.docs.Some? {
      NoMissingErrors(n.docs.value.checklist, ComposeTargets(r));
      NoEmptyErrors(r.bid.required, r.bid, r.given);
    }
  }

  // ---- manual verdicts ----

  function VerdictOf(n: Notice, id: ItemId): Option<Item> {
    if n.docs.Some? && Has(n.docs.value.checklist, id) then Some(At(n.docs.value.checklist, id)) else None
  }

  /** Same people, same status, or a waiting item that an upload made ready. */
  ghost predicate Kept(before: Item, after: Item) {
    && IsManual(after) && after.owner == before.owner && after.note == before.note
    && (after.status == before.status || (Promotable(before.status) && after.status.Ready?))
  }

  /** The items behind a re-analysis: the nine, and what the LLM suggests. */
  lemma AnalyzedHas(facts: RuleFacts, bidFormFilled: bool, llm: Suggestion, existing: Docs, id: ItemId)
    ensures Has(AnalyzedChecklist(facts, bidFormFilled, llm, existing), id) <==> !id.Extra? || Suggests(llm.items, id)
  {
    var rule := RuleChecklist(facts, bidFormFilled);
    BaseIdsCoverAll(id, facts, bidFormFilled);
    MergedIds(rule, llm.items, facts.assignee, id);
    AnalyzedIds(facts, bidFormFilled, llm, existing);
    SameIdsSameIndex(AnalyzedChecklist(facts, bidFormFilled, llm, existing),
                     Merged(rule, llm.items, facts.assignee), id);
  }

  /** Re-analysis keeps a manual verdict whatever the LLM suggests. The item itself comes back exactly
      when it is one of the nine or the LLM suggests it again. */
  lemma AnalyzeKeepsManual(facts: RuleFacts, bidFormFilled: bool, llm: Suggestion, existing: Docs, id: ItemId)
    requires DistinctIds(existing.checklist) && Has(existing.checklist, id) && IsManual(At(existing.checklist, id))
    ensures
      var after := AnalyzedChecklist(facts, bidFormFilled, llm, existing);
      && (Has(after, id) <==> !id.Extra? || Suggests(llm.items, id))
      && (Has(after, id) ==> Kept(At(existing.checklist, id), At(after, id)))
  {
    var merged := Merged(RuleChecklist(facts, bidFormFilled), llm.items, facts.assignee);
    var kept := Preserved(merged, existing.checklist);
    AnalyzedHas(facts, bidFormFilled, llm, existing, id);
    AnalyzedIds(facts, bidFormFilled, llm, existing);
    SameIdsSameIndex(AnalyzedChecklist(facts, bidFormFilled, llm, existing), merged, id);
    if Has(merged, id) {
      var k := IndexOf(merged, id);
      ByIdFinds(existing.checklist, id);
      TokenOccurs(At(existing.checklist, id).source, MANUAL);
      LiteralTokens();
      AppendKeepsToken(merged[k].source, MANUAL, MANUAL);
      AppendKeepsToken(kept[k].source, "upload", MANUAL);
    }
  }

  lemma UploadKeepsManual(checklist: seq<Item>, u: Upload, id: ItemId)
    requires Has(checklist, id) && IsManual(At(checklist, id))
    ensures Has(PromotedBy(checklist, u), id)
    ensures Kept(At(checklist, id), At(PromotedBy(checklist, u), id))
  {
    SameIdsSameIndex(PromotedBy(checklist, u), checklist, id);
    LiteralTokens();
    var before := At(checklist, id);
    assert Tokens("") == [];
    AppendKeepsToken(before.source, "upload", MANUAL);
  }

  lemma FetchOneKeepsManual(p: Progress, a: Attachment, known: map<string, Upload>, hwpOk: Option<bool>, id: ItemId)
    requires DistinctIds(p.docs.checklist) && Has(p.docs.checklist, id) && IsManual(At(p.docs.checklist, id))
    ensures
      var after := FetchOne(p, a, known, hwpOk).docs.checklist;
      DistinctIds(after) && Has(after, id) && Kept(At(p.docs.checklist, id), At(after, id))
  {
    if !Healthy(a, known) && a.download.Got? {
      UploadKeepsManual(p.docs.checklist, NewUpload(a, p.uploadSeq), id);
      assert SameIds(PromotedBy(p.docs.checklist, NewUpload(a, p.uploadSeq)), p.docs.checklist);
    }
  }

  lemma {:induction false} FetchAllKeepsManual(p: Progress, todo: seq<Attachment>, known: map<string, Upload>,
                                               hwpOk: Option<bool>, id: ItemId)
    requires DistinctIds(p.docs.checklist) && Has(p.docs.checklist, id) && IsManual(At(p.docs.checklist, id))
    ensures
      var after := FetchAll(p, todo, known, hwpOk).docs.checklist;
      DistinctIds(after) && Has(after, id) && Kept(At(p.docs.checklist, id), At(after, id))
  {
    if todo != [] {
      FetchAllKeepsManual(p, todo[..|todo| - 1], known, hwpOk, id);
      FetchOneKeepsManual(FetchAll(p, todo[..|todo| - 1], known, hwpOk), todo[|todo| - 1], known, hwpOk, id);
    }
  }

  lemma FetchKeepsManual(n: Notice, todo: seq<Attachment>, up: bool, facts1: RuleFacts, llm1: Suggestion,
                         facts: RuleFacts, llm: Suggestion, id: ItemId)
    requires NoticeOk(n) && (!id.Extra? || Suggests(llm.items, id))
    requires VerdictOf(n, id).Some? && IsManual(VerdictOf(n, id).value)
    ensures
      var after := VerdictOf(FetchG2bAttachments(n, todo, up, facts1, llm1, facts, llm).notice, id);
      after.Some? && Kept(VerdictOf(n, id).value, after.value)
  {
    var docs := n.docs.value;
    var known := FetchedByName(docs.uploads);
    FetchAllKeepsManual(Start(docs, n.uploadSeq), todo, known, AgentState(docs, todo, up), id);
    AnalyzeKeepsManual(facts, n.bidFormFilled, llm, FetchLoop(docs, n.uploadSeq, todo, up).docs, id);
  }

  /** A request that rewrites the verdict of this item. */
  predicate Rewrites(r: Request, id: ItemId) {
    (r.ReqPatch? && r.id == id) || (r.ReqAutofill? && id.BidForm?)
  }

  lemma PatchLeavesOthers(docs: Docs, other: ItemId, status: Option<ItemStatus>, owner: Option<string>,
                          note: Option<string>, id: ItemId)
    requires Has(docs.checklist, id) && other != id
    ensures Has(docs.checklist, other) ==>
      var after := PatchedDocs(docs, other, status, owner, note).checklist;
      Has(after, id) && At(after, id) == At(docs.checklist, id)
  {
    if Has(docs.checklist, other) {
      SameIdsSameIndex(PatchedDocs(docs, other, status, owner, note).checklist, docs.checklist, id);
    }
  }

  lemma AutofillLeavesOthers(docs: Docs, id: ItemId)
    requires Has(docs.checklist, id) && !id.BidForm?
    ensures Has(WithBidForm(docs).checklist, id) && At(WithBidForm(docs).checklist, id) == At(docs.checklist, id)
  {
    SameIdsSameIndex(WithBidForm(docs).checklist, docs.checklist, id);
  }

  lemma SameChecklistSameVerdict(n: Notice, m: Notice, id: ItemId)
    requires n.docs.Some? && m.docs.Some? && m.docs.value.checklist == n.docs.value.checklist
    ensures VerdictOf(m, id) == VerdictOf(n, id)
  {
  }

  lemma UploadRequestKeepsManual(n: Notice, name: string, item: Option<ItemId>, incoming: Incoming,
                                 err: Option<string>, exc: bool, id: ItemId)
    requires VerdictOf(n, id).Some? && IsManual(VerdictOf(n, id).value)
    ensures
      var after := VerdictOf(UploadDocument(n, name, item, incoming, err, exc).notice, id);
      after.Some? && Kept(VerdictOf(n, id).value, after.value)
  {
    var source := if incoming.Library? then CommonLibrary else Uploaded;
    UploadKeepsManual(n.docs.value.checklist, Upload(n.uploadSeq, name, item, source, err, exc), id);
  }

  lemma AnalyzeRequestKeepsManual(n: Notice, facts: RuleFacts, llm: Suggestion, id: ItemId)
    requires NoticeOk(n) && (!id.Extra? || Suggests(llm.items, id))
    requires VerdictOf(n, id).Some? && IsManual(VerdictOf(n, id).value)
    ensures
      var after := VerdictOf(AnalyzeDocuments(n, facts, llm).notice, id);
      after.Some? && Kept(VerdictOf(n, id).value, after.value)
  {
    AnalyzeKeepsManual(facts, n.bidFormFilled, llm, n.docs.value, id);
  }

  /** A re-analysis in this request brings the item back: it is one of the nine, or suggested again. */
  predicate BringsBack(r: Request, id: ItemId) {
    !id.Extra? ||
    match r
    case ReqFetch(_, _, _, _, _, llm) => Suggests(llm.items, id)
    case ReqAnalyzeDocuments(_, llm) => Suggests(llm.items, id)
    case _ => true
  }

  /** A manual verdict survives every other request that brings the item back. */
  lemma ServeKeepsVerdict(n: Notice, r: Request, next: nat, id: ItemId)
    requires NoticeOk(n) && !Rewrites(r, id) && BringsBack(r, id)
    requires VerdictOf(n, id).Some? && IsManual(VerdictOf(n, id).value)
    ensures
      var after := VerdictOf(Serve(n, r, next).notice, id);
      after.Some? && Kept(VerdictOf(n, id).value, after.value)
  {
    var m := Serve(n, r, next).notice;
    match r
    case ReqFetch(todo, up, facts1, llm1, facts, llm) => FetchKeepsManual(n, todo, up, facts1, llm1, facts, llm, id);
    case ReqAnalyzeDocuments(facts, llm) => AnalyzeRequestKeepsManual(n, facts, llm, id);
    case ReqPatch(other, status, owner, note) => PatchLeavesOthers(n.docs.value, other, status, owner, note, id);
    case ReqUpload(name, item, incoming, err, exc) => UploadRequestKeepsManual(n, name, item, incoming, err, exc, id);
    case ReqAutofill(_) => AutofillLeavesOthers(n.docs.value, id);
    case _ =>
      if Produces(r) { ServeProduces(n, r, next); }
      SameChecklistSameVerdict(n, m, id);
  }

  /** A patch itself marks the item manual and stores exactly what it was given. */
  lemma PatchIsManual(n: Notice, id: ItemId, status: Option<ItemStatus>, owner: Option<string>, note: Option<string>)
    requires NoticeOk(n)
    ensures
      var eff := PatchChecklist(n, id, status, owner, note);
      var before, after := VerdictOf(n, id), VerdictOf(eff.notice, id);
      && (eff.code == Ok <==> before.Some?)
      && (eff.code == Ok ==>
            && after.Some? && IsManual(after.value)
            && after.value.status == (if status.Some? then status.value else before.value.status)
            && after.value.owner == (if owner.Some? then owner else before.value.owner)
            && after.value.note == (if note.Some? then note else before.value.note))
  {
    if VerdictOf(n, id).Some? {
      PatchedItem(n.docs.value, id, status, owner, note);
    }
  }

  lemma PatchedItem(docs: Docs, id: ItemId, status: Option<ItemStatus>, owner: Option<string>, note: Option<string>)
    requires Has(docs.checklist, id)
    ensures
      var after := PatchedDocs(docs, id, status, owner, note).checklist;
      Has(after, id) && At(after, id) == PatchItem(At(docs.checklist, id), status, owner, note)
          && IsManual(At(after, id))
  {
    SameIdsSameIndex(PatchedDocs(docs, id, status, owner, note).checklist, docs.checklist, id);
    LiteralTokens();
    AppendKeepsToken(OrRule(At(docs.checklist, id).source), MANUAL, MANUAL);
  }

  /** A verdict on an item of the LLM is gone when the next analysis does not suggest the item. */
  lemma UnsuggestedVerdictIsLost(n: Notice, facts: RuleFacts, llm: Suggestion, id: ItemId)
    requires DocumentsAnalyzable(n.status) && id.Extra? && !Suggests(llm.items, id)
    ensures VerdictOf(AnalyzeDocuments(n, facts, llm).notice, id) == None
  {
    AnalyzedHas(facts, n.bidFormFilled, llm, if n.docs.Some? then n.docs.value else NO_DOCS, id);
  }

  lemma PatchAfterAnalysis(n: Notice, facts: RuleFacts, llm: Suggestion, id: ItemId, status: Option<ItemStatus>,
                           owner: Option<string>, note: Option<string>)
    requires NoticeOk(n) && DocumentsAnalyzable(n.status) && Suggests(llm.items, id)
    ensures
      var m := PatchChecklist(AnalyzeDocuments(n, facts, llm).notice, id, status, owner, note).notice;
      DocumentsAnalyzable(m.status) && VerdictOf(m, id).Some? && IsManual(VerdictOf(m, id).value)
  {
    var analyzed := AnalyzeDocuments(n, facts, llm).notice;
    AnalyzedHas(facts, n.bidFormFilled, llm, if n.docs.Some? then n.docs.value else NO_DOCS, id);
    ServeKeepsOk(n, ReqAnalyzeDocuments(facts, llm), 0);
    PatchIsManual(analyzed, id, status, owner, note);
  }
}
