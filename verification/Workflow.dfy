/** Every state-changing request on one notice, as a function of the row it reads. */
module Workflow {
  import opened Text
  import opened Status
  import opened NoticeModel
  import opened DocumentAutomation
  import opened Exports
  import opened Attachments

  /** 200, 400, 403, 404, 409, 410, 413, 415, 500, 502 */
  datatype Code =
    | Ok | BadRequest | Forbidden | NotFound | Conflict | Gone | TooLarge | UnsupportedType | ServerError | BadGateway

  /** The row to write back, and the exports recorded in the table, in order. */
  datatype Effect = Effect(code: Code, notice: Notice, records: seq<Export>)

  function Refuse(n: Notice, code: Code): Effect { Effect(code, n, []) }

  function Save(n: Notice): Effect { Effect(Ok, n, []) }

  const NEW_NOTICE := Notice(Collected, 0, false, None, 0)

  // ---- analysis ----

  /** The whole analysis column is replaced, so nothing under document_automation would survive. */
  function AnalyzeNotice(n: Notice, fitScore: int): Effect {
    if !CanTransition(n.status, Analyzed) then Refuse(n, Conflict)
    else Save(n.(status := Analyzed, fitScore := fitScore, bidFormFilled := false, docs := None))
  }

  predicate DocumentsAnalyzable(s: Status) { IsProcessing(s) && !s.Collected? }

  function AnalyzeDocuments(n: Notice, facts: RuleFacts, llm: Suggestion): Effect {
    if !DocumentsAnalyzable(n.status) then Refuse(n, Conflict)
    else
      var previous := if n.docs.Some? then n.docs.value else NO_DOCS;
      var docs := AnalyzedDocs(facts, n.bidFormFilled, llm, previous);
      Save(n.(docs := Some(docs.(errors := previous.errors + docs.errors)),
              status := AdvanceStatus(n.status, DocumentsAnalyzed)))
  }

  function DocsOrFirst(n: Notice, facts: RuleFacts, llm: Suggestion): Docs {
    if n.docs.Some? then n.docs.value else AnalyzedDocs(facts, n.bidFormFilled, llm, NO_DOCS)
  }

  /** Works in any status; a notice without documents is analyzed first. */
  function FetchG2bAttachments(
      n: Notice, todo: seq<Attachment>, agentUp: bool,
      firstFacts: RuleFacts, firstLlm: Suggestion, facts: RuleFacts, llm: Suggestion): Effect {
    var docs := DocsOrFirst(n, firstFacts, firstLlm);
    var r := FetchAttachments(docs, n.uploadSeq, todo, agentUp, facts, n.bidFormFilled, llm);
    Save(n.(docs := Some(r.docs), uploadSeq := r.uploadSeq, status := AdvanceStatus(n.status, AttachmentsFetched)))
  }

  /** overflows: some integer field of the rows cannot be converted, as SpecLoop.Overflows says. */
  function ExtractSpecItems(n: Notice, overflows: bool): Effect {
    if overflows then Refuse(n, ServerError) else Save(n.(status := AdvanceStatus(n.status, SpecExtracted)))
  }

  // ---- checklist and uploads ----

  function PatchChecklist(n: Notice, id: ItemId, status: Option<ItemStatus>, owner: Option<string>,
                          note: Option<string>): Effect {
    if n.docs.None? then Refuse(n, Conflict)
    else if !Has(n.docs.value.checklist, id) then Refuse(n, NotFound)
    else Save(n.(docs := Some(PatchedDocs(n.docs.value, id, status, owner, note))))
  }

  function ValidateDocuments(n: Notice): Effect {
    if n.docs.None? then Refuse(n, Conflict) else Save(n.(docs := Some(Refreshed(n.docs.value))))
  }

  /** Where an upload comes from: a stream that is saved, or refused by its extension, its size or the disk; or the
      common library, which may not have the file. */
  datatype Incoming = Saved | BadExtension | TooBig | WriteFailed | Library(found: bool)

  /** A direct upload reads the notice before the stream; an import asks the library first. */
  function UploadRefusal(n: Notice, incoming: Incoming): Code {
    if incoming == Library(false) then NotFound
    else if n.docs.None? then Conflict
    else
      match incoming
      case BadExtension => UnsupportedType
      case TooBig => TooLarge
      case WriteFailed => ServerError
      case _ => Ok
  }

  function UploadDocument(n: Notice, name: string, itemId: Option<ItemId>, incoming: Incoming,
                          extractError: Option<string>, hasExcerpt: bool): Effect {
    if UploadRefusal(n, incoming) != Ok then Refuse(n, UploadRefusal(n, incoming))
    else
      var source := if incoming.Library? then CommonLibrary else Uploaded;
      var u := Upload(n.uploadSeq, name, itemId, source, extractError, hasExcerpt);
      Save(n.(docs := Some(WithUpload(n.docs.value, u)), uploadSeq := n.uploadSeq + 1))
  }

  function DeleteUpload(n: Notice, id: nat): Effect {
    if n.docs.None? then Refuse(n, Conflict)
    else if !HasUpload(n.docs.value.uploads, id) then Refuse(n, NotFound)
    else Save(n.(docs := Some(n.docs.value.(uploads := Removed(n.docs.value.uploads, id)))))
  }

  // ---- the gate before a document is produced ----

  function MissingErrors(items: seq<Item>, targets: set<ItemId>): seq<DocError> {
    if items == [] then []
    else
      var front := MissingErrors(items[..|items| - 1], targets);
      var last := items[|items| - 1];
      if last.id !in targets && IsMissing(last)
      then front + [DocError(PreCompose, true, "required document missing")] else front
  }

  function Repeat(k: nat, e: DocError): seq<DocError> { seq(k, i => e) }

  /** drafts.bid_form_values: the required placeholders and the drafted values; both empty when there are none. */
  datatype BidValues = BidValues(required: seq<string>, drafted: map<string, string>)

  /** A value given with the request replaces the drafted one, even by an empty text. */
  function ValueOf(bid: BidValues, given: map<string, string>, key: string): string {
    if key in given then given[key] else if key in bid.drafted then bid.drafted[key] else ""
  }

  predicate AllFilled(bid: BidValues, given: map<string, string>) {
    forall i :: 0 <= i < |bid.required| ==> ValueOf(bid, given, bid.required[i]) != ""
  }

  function EmptyErrors(required: seq<string>, bid: BidValues, given: map<string, string>): seq<DocError> {
    if required == [] then []
    else
      var front := EmptyErrors(required[..|required| - 1], bid, given);
      if ValueOf(bid, given, required[|required| - 1]) != "" then front
      else front + [DocError(PreCompose, true, "required value empty")]
  }

  /** validate_pre_compose: the errors */
  function PreComposeErrors(checklist: seq<Item>, targets: set<ItemId>, hasSpecRows: bool, bid: BidValues,
                            given: map<string, string>): seq<DocError> {
    (if hasSpecRows then [] else [DocError(PreCompose, true, "spec items not extracted")])
    + MissingErrors(checklist, targets)
    + EmptyErrors(bid.required, bid, given)
  }

  function Warnings(k: nat): seq<DocError> { Repeat(k, DocError(SpecReview, false, "spec row to review")) }

  function AddErrors(docs: Docs, errors: seq<DocError>): Docs { docs.(errors := docs.errors + errors) }

  /** The gate refuses: its errors are stored although the request answers 409. */
  function Gated(n: Notice, errors: seq<DocError>): Effect
    requires n.docs.Some?
  {
    Effect(Conflict, n.(docs := Some(AddErrors(n.docs.value, errors))), [])
  }

  // ---- exports ----

  /** No compliance draft at all, a draft with no content, a failed writer or agent, or a file. */
  datatype Build = DraftMissing | DraftEmpty | BuildFailed | Built(at: int)

  function ExportDocument(n: Notice, kind: ExportKind, build: Build, hasSpecRows: bool, bid: BidValues,
                          next: nat): Effect {
    if n.docs.None? || build.DraftMissing? then Refuse(n, Conflict)
    else if kind.ProposalHwp? then Refuse(n, BadRequest)
    else
      var errors := PreComposeErrors(n.docs.value.checklist, {TechnicalCompliance}, hasSpecRows, bid, map[]);
      if kind.Hwp? && errors != [] then Gated(n, errors)
      else if kind.BidFormHwp? then Refuse(n, BadRequest)
      else if build.DraftEmpty? then Refuse(n, Conflict)
      else if build.BuildFailed? then Refuse(n, if kind.Excel? then ServerError else BadGateway)
      else
        var e := Export(next, kind, ComplianceDraft, build.at);
        Effect(Ok, n.(docs := Some(n.docs.value.(exports := MergedExport(n.docs.value.exports, e)))), [e])
  }

  datatype TemplateKind = BidFormTemplate | ProposalTemplate

  /** The HWP agent: template not usable, call failed, or a file with or without open placeholders. */
  datatype Agent = TemplateUnusable | AgentFailed(detail: string) | AgentDone(remaining: bool, at: int)

  /** What putting fields leaves behind: the documents and status it writes, its export, its errors. */
  datatype Put = Put(docs: Docs, status: Status, records: seq<Export>, errors: seq<DocError>)

  function PutExport(kind: TemplateKind, at: int, id: nat): Export {
    if kind.BidFormTemplate? then Export(id, BidFormHwp, BidFormDraft, at)
    else Export(id, ProposalHwp, ProposalDraft, at)
  }

  function PutErrors(requiredMissing: bool, agent: Agent): seq<DocError> {
    (if requiredMissing then [DocError(HwpRequired, false, "required HWP value empty")] else [])
    + (match agent
       case AgentFailed(detail) => [DocError(HwpPutFields, true, detail)]
       case AgentDone(true, _) => [DocError(HwpRemaining, false, "placeholders remain")]
       case _ => [])
  }

  function ExecutePutFields(status: Status, docs: Docs, kind: TemplateKind, requiredMissing: bool, agent: Agent,
                            next: nat): Put
    requires !agent.TemplateUnusable?
  {
    var errors := PutErrors(requiredMissing, agent);
    if agent.AgentFailed? then Put(AddErrors(docs, errors), status, [], errors)
    else
      var e := PutExport(kind, agent.at, next);
      var composed := AdvanceStatus(status, HwpComposed);
      Put(AddErrors(docs.(exports := MergedExport(docs.exports, e)), errors),
          if kind.BidFormTemplate? && errors == [] then AdvanceStatus(composed, FormFilled) else composed,
          [e], errors)
  }

  function PutHwpFields(n: Notice, kind: TemplateKind, requiredMissing: bool, agent: Agent, next: nat): Effect {
    if n.docs.None? || agent.TemplateUnusable? then Refuse(n, Conflict)
    else
      var put := ExecutePutFields(n.status, n.docs.value, kind, requiredMissing, agent, next);
      Effect(Ok, n.(docs := Some(put.docs), status := put.status), put.records)
  }

  predicate Blocking(errors: seq<DocError>) { exists i :: 0 <= i < |errors| && errors[i].blocking }

  datatype ComposeRequest = ComposeRequest(
    bidForm: bool, compliance: bool, hasSpecRows: bool, bid: BidValues, given: map<string, string>,
    warnings: nat, requiredMissing: bool, agent: Agent, build: Build)

  function ComposeTargets(r: ComposeRequest): set<ItemId> {
    (if r.bidForm then {BidForm} else {}) + (if r.compliance then {TechnicalCompliance} else {})
  }

  /** The outer write is computed from the row read at the start; the inner put-fields write is lost,
      but its export row and its errors are kept. */
  function ComposeHwpDocuments(n: Notice, r: ComposeRequest, next: nat): Effect {
    if n.docs.None? then Refuse(n, Conflict)
    else
      var docs := n.docs.value;
      var gate := PreComposeErrors(docs.checklist, ComposeTargets(r), r.hasSpecRows, r.bid, r.given);
      if gate != [] then Gated(n, gate)
      else if r.bidForm && r.agent.TemplateUnusable? then Refuse(n, Conflict)
      else
        FinishCompose(n, r, ComposeBidForm(n, r, next), next)
  }

  /** The first half of composing: the bid form, when asked for. */
  function ComposeBidForm(n: Notice, r: ComposeRequest, next: nat): Put
    requires n.docs.Some? && (r.bidForm ==> !r.agent.TemplateUnusable?)
  {
    if r.bidForm then ExecutePutFields(n.status, n.docs.value, BidFormTemplate, r.requiredMissing, r.agent, next)
    else Put(n.docs.value, n.status, [], [])
  }

  function ComplianceExports(r: ComposeRequest, next: nat): seq<Export> {
    if r.compliance && r.build.Built? then [Export(next, Hwp, ComplianceDraft, r.build.at)] else []
  }

  function ComplianceErrors(r: ComposeRequest): seq<DocError> {
    if r.compliance && !r.build.Built? then [DocError(ComplianceFailed, true, "compliance table not built")] else []
  }

  /** The second half of composing: the compliance table, the errors and the outer write. */
  function FinishCompose(n: Notice, r: ComposeRequest, put: Put, next: nat): Effect
    requires n.docs.Some? && (put.records != [] ==> r.agent.AgentDone?)
  {
    var built := ComplianceExports(r, next + |put.records|);
    var errors := Warnings(r.warnings) + put.errors + ComplianceErrors(r);
    var status := if built != [] then AdvanceStatus(n.status, HwpComposed) else n.status;
    var filled := put.records != [] && !Blocking(errors) && !r.agent.remaining;
    var docs := n.docs.value;
    Effect(Ok,
           n.(docs := Some(AddErrors(docs.(exports := MergedAll(docs.exports, put.records + built)), errors)),
              status := if filled then AdvanceStatus(status, FormFilled) else status),
           put.records + built)
  }

  const PROPOSAL_TARGETS := {BidForm, TechnicalCompliance, Extra("proposal")}

  function ComposeProposal(n: Notice, hasSpecRows: bool, bid: BidValues, given: map<string, string>, warnings: nat,
                           requiredMissing: bool, agent: Agent, next: nat): Effect {
    if n.docs.None? then Refuse(n, Conflict)
    else
      var docs := n.docs.value;
      var gate := PreComposeErrors(docs.checklist, PROPOSAL_TARGETS, hasSpecRows, bid, given);
      if gate != [] then Gated(n, gate)
      else if agent.TemplateUnusable? then Refuse(n, Conflict)
      else
        FinishProposal(n, warnings, ExecutePutFields(n.status, docs, ProposalTemplate, requiredMissing, agent, next))
  }

  function FinishProposal(n: Notice, warnings: nat, put: Put): Effect
    requires n.docs.Some?
  {
    var docs := n.docs.value;
    Effect(Ok,
           n.(docs := Some(AddErrors(docs.(exports := MergedAll(docs.exports, put.records)),
                                     Warnings(warnings) + put.errors)),
              status := if put.records != [] then AdvanceStatus(n.status, HwpComposed) else n.status),
           put.records)
  }

  // ---- autofill, notify, grade ----

  /** A failing agent raises inside the transaction, so nothing is stored. */
  function AutofillForm(n: Notice, agentOk: bool): Effect {
    if !CanTransition(n.status, FormFilled) then Refuse(n, Conflict)
    else if !agentOk then Refuse(n, BadGateway)
    else
      var docs := if n.docs.Some? then n.docs.value else NO_DOCS;
      Save(n.(bidFormFilled := true, docs := Some(WithBidForm(docs)), status := FormFilled))
  }

  function NotifyNotice(n: Notice): Effect {
    var next := ComputeNotifyStatus(n.fitScore);
    if !CanTransition(n.status, next) then Refuse(n, Conflict) else Save(n.(status := next))
  }

  function GradeNotice(n: Notice, fitScore: int): Effect {
    if n.status.Analyzed? || n.status.FormFilled? || IsFinal(n.status) then Save(n.(fitScore := fitScore))
    else Refuse(n, Conflict)
  }

  // ---- requests ----

  datatype Request =
    | ReqAnalyze(fitScore: int)
    | ReqFetch(todo: seq<Attachment>, agentUp: bool, firstFacts: RuleFacts, firstLlm: Suggestion, facts: RuleFacts,
        llm: Suggestion)
    | ReqAnalyzeDocuments(facts: RuleFacts, llm: Suggestion)
    | ReqExtractSpecItems(overflows: bool)
    | ReqPatch(id: ItemId, status: Option<ItemStatus>, owner: Option<string>, note: Option<string>)
    | ReqValidate
    | ReqUpload(name: string, itemId: Option<ItemId>, incoming: Incoming, extractError: Option<string>,
        hasExcerpt: bool)
    | ReqDeleteUpload(uploadId: nat)
    | ReqExport(kind: ExportKind, build: Build, hasSpecRows: bool, bid: BidValues)
    | ReqPutFields(template: TemplateKind, requiredMissing: bool, agent: Agent)
    | ReqCompose(compose: ComposeRequest)
    | ReqProposal(hasSpecRows: bool, bid: BidValues, given: map<string, string>, warnings: nat, requiredMissing: bool,
                  agent: Agent)
    | ReqAutofill(agentOk: bool)
    | ReqNotify
    | ReqGrade(fitScore: int)

  function Serve(n: Notice, r: Request, next: nat): Effect {
    match r
    case ReqAnalyze(fit) => AnalyzeNotice(n, fit)
    case ReqFetch(todo, up, facts1, llm1, facts2, llm2) => FetchG2bAttachments(n, todo, up, facts1, llm1, facts2, llm2)
    case ReqAnalyzeDocuments(facts, llm) => AnalyzeDocuments(n, facts, llm)
    case ReqExtractSpecItems(overflows) => ExtractSpecItems(n, overflows)
    case ReqPatch(id, status, owner, note) => PatchChecklist(n, id, status, owner, note)
    case ReqValidate => ValidateDocuments(n)
    case ReqUpload(name, item, incoming, err, exc) => UploadDocument(n, name, item, incoming, err, exc)
    case ReqDeleteUpload(id) => DeleteUpload(n, id)
    case ReqExport(kind, build, rows, bid) => ExportDocument(n, kind, build, rows, bid, next)
    case ReqPutFields(t, missing, agent) => PutHwpFields(n, t, missing, agent, next)
    case ReqCompose(c) => ComposeHwpDocuments(n, c, next)
    case ReqProposal(rows, bid, given, warn, missing, agent) =>
        ComposeProposal(n, rows, bid, given, warn, missing, agent, next)
    case ReqAutofill(ok) => AutofillForm(n, ok)
    case ReqNotify => NotifyNotice(n)
    case ReqGrade(fit) => GradeNotice(n, fit)
  }
}
