/** The endpoints: each reads a row, works on it, writes it back, and may record exports.
    Each is proved equal to the step that Runs reasons about. */
module NoticeStore {
  import opened Text
  import opened Status
  import opened NoticeModel
  import opened DocumentAutomation
  import opened Exports
  import opened Attachments
  import opened Workflow
  import opened Invariants
  import opened Runs
  import opened Services

  /** The answer of a request: 404 for an unknown notice, else what serving it gives. */
  function Answer(s: State, no: string, r: Request): Code {
    if no in s.notices then Serve(s.notices[no], r, s.nextExport).code else NotFound
  }

  /** The file behind a record: no path, a path without a file, or a file. */
  datatype ExportFile = NoPath | Missing | OnDisk

  function FileCode(file: ExportFile): Code {
    match file
    case NoPath => NotFound
    case Missing => Gone
    case OnDisk => Ok
  }

  class Store {
    var notices: map<string, Notice>
    var rows: seq<ExportRow>
    var nextExport: nat

    constructor ()
      ensures Valid() && Db() == EMPTY
    {
      notices, rows, nextExport := map[], [], 1;
      new;
      ReachableIsOk([]);
    }

    function Db(): State
      reads this
    {
      State(notices, rows, nextExport)
    }

    /** What every request keeps: each notice is in order, and its mirror agrees with the table. */
    ghost predicate Valid()
      reads this
    {
      StateOk(Db())
    }

    method UpsertNotice(no: string)
      requires Valid()
      modifies this
      ensures Db() == Step(old(Db()), Upsert(no))
      ensures Valid()
    {
      StepKeepsValid(Db(), Upsert(no));
      if no !in notices {
        notices := notices[no := Notice(Collected, 0, false, None, 0)];
      }
    }

    /** Refused unless enabled; deleted counts the notices removed. */
    method CleanupE2E(enabled: bool) returns (code: Code, deleted: nat)
      requires Valid()
      modifies this
      ensures Db() == Step(old(Db()), Cleanup(enabled))
      ensures Valid()
      ensures code == if enabled then Ok else Forbidden
      ensures deleted == |old(notices)| - |notices|
    {
      StepKeepsValid(Db(), Cleanup(enabled));
      if !enabled { return Forbidden, 0; }
      var gone := set no | no in notices && IsE2E(no);
      var kept: seq<ExportRow> := [];
      for i := 0 to |rows|
        invariant rows == old(rows) && notices == old(notices) && nextExport == old(nextExport)
        invariant kept == Dropped(rows[..i])
      {
        Snoc(rows, i);
        if !IsE2E(rows[i].noticeNo) { kept := kept + [rows[i]]; }
      }
      assert rows[..|rows|] == rows;
      rows := kept;
      notices := map no | no in notices && !IsE2E(no) :: notices[no];
      CleanedSize(old(notices), gone);
      assert notices == old(notices) - gone;
      code, deleted := Ok, |gone|;
    }

    method AnalyzeNotice(no: string, fitScore: int) returns (code: Code)
      requires Valid()
      modifies this
      ensures Db() == Step(old(Db()), On(no, ReqAnalyze(fitScore)))
      ensures Valid()
      ensures code == Answer(old(Db()), no, ReqAnalyze(fitScore))
    {
      StepKeepsValid(Db(), On(no, ReqAnalyze(fitScore)));
      if no !in notices { return NotFound; }
      var row := notices[no];
      assert notices == notices[no := row];
      if !CanTransition(row.status, Analyzed) { return Conflict; }
      row := row.(fitScore := fitScore, bidFormFilled := false, docs := None);
      notices := notices[no := row.(status := Analyzed)];
      code := Ok;
    }

    method AnalyzeDocuments(no: string, facts: RuleFacts, llm: Suggestion) returns (code: Code)
      requires Valid()
      modifies this
      ensures Db() == Step(old(Db()), On(no, ReqAnalyzeDocuments(facts, llm)))
      ensures Valid()
      ensures code == Answer(old(Db()), no, ReqAnalyzeDocuments(facts, llm))
    {
      StepKeepsValid(Db(), On(no, ReqAnalyzeDocuments(facts, llm)));
      if no !in notices { return NotFound; }
      var row := notices[no];
      assert notices == notices[no := row];
      if !DocumentsAnalyzable(row.status) { return Conflict; }
      var previous := if row.docs.Some? then row.docs.value else NO_DOCS;
      var docs := AnalyzeDocumentRequirements(facts, row.bidFormFilled, llm, previous);
      docs := docs.(errors := previous.errors + docs.errors);
      notices := notices[no := row.(docs := Some(docs), status := AdvanceStatus(row.status, DocumentsAnalyzed))];
      code := Ok;
    }

    method FetchAttachments(no: string, todo: seq<Attachment>, agentUp: bool, firstFacts: RuleFacts,
                            firstLlm: Suggestion, facts: RuleFacts, llm: Suggestion) returns (code: Code)
      requires Valid()
      modifies this
      ensures Db() == Step(old(Db()), On(no, ReqFetch(todo, agentUp, firstFacts, firstLlm, facts, llm)))
      ensures Valid()
      ensures code == Answer(old(Db()), no, ReqFetch(todo, agentUp, firstFacts, firstLlm, facts, llm))
    {
      StepKeepsValid(Db(), On(no, ReqFetch(todo, agentUp, firstFacts, firstLlm, facts, llm)));
      if no !in notices { return NotFound; }
      var row := notices[no];
      var docs;
      if row.docs.Some? {
        docs := row.docs.value;
      } else {
        docs := AnalyzeDocumentRequirements(firstFacts, row.bidFormFilled, firstLlm, NO_DOCS);
      }
      var p := FetchFiles(docs, row.uploadSeq, todo, agentUp);
      var errors := p.errors;
      if p.unreachable > 0 { errors := errors + [DocError(G2bAnalysis, false, AGENT_DOWN)]; }
      if todo == [] { errors := errors + [DocError(G2bFetch, true, "no supported attachment")]; }
      var managed := OfStage(p.docs.errors, false) + errors;
      assert errors == RunErrors(p, todo);
      var again := AnalyzeDocumentRequirements(facts, row.bidFormFilled, llm, p.docs);
      again := again.(errors := managed + again.errors);
      row := row.(docs := Some(again), uploadSeq := p.uploadSeq);
      row := row.(status := AdvanceStatus(row.status, AttachmentsFetched));
      notices := notices[no := row];
      code := Ok;
    }

    method ExtractSpecItems(no: string, overflows: bool) returns (code: Code)
      requires Valid()
      modifies this
      ensures Db() == Step(old(Db()), On(no, ReqExtractSpecItems(overflows)))
      ensures Valid()
      ensures code == Answer(old(Db()), no, ReqExtractSpecItems(overflows))
    {
      StepKeepsValid(Db(), On(no, ReqExtractSpecItems(overflows)));
      if no !in notices { return NotFound; }
      var row := notices[no];
      assert notices == notices[no := row];
      if overflows { return ServerError; }
      notices := notices[no := row.(status := AdvanceStatus(row.status, SpecExtracted))];
      code := Ok;
    }

    method PatchChecklistItem(no: string, id: ItemId, status: Option<ItemStatus>, owner: Option<string>,
                              note: Option<string>)
      returns (code: Code)
      requires Valid()
      modifies this
      ensures Db() == Step(old(Db()), On(no, ReqPatch(id, status, owner, note)))
      ensures Valid()
      ensures code == Answer(old(Db()), no, ReqPatch(id, status, owner, note))
    {
      StepKeepsValid(Db(), On(no, ReqPatch(id, status, owner, note)));
      if no !in notices { return NotFound; }
      var row := notices[no];
      assert notices == notices[no := row];
      if row.docs.None? { return Conflict; }
      var updated := UpdateChecklistItem(row.docs.value, id, status, owner, note);
      if updated.None? { return NotFound; }
      notices := notices[no := row.(docs := updated)];
      code := Ok;
    }

    method ValidateDocuments(no: string) returns (code: Code)
      requires Valid()
      modifies this
      ensures Db() == Step(old(Db()), On(no, ReqValidate))
      ensures Valid()
      ensures code == Answer(old(Db()), no, ReqValidate)
    {
      StepKeepsValid(Db(), On(no, ReqValidate));
      if no !in notices { return NotFound; }
      var row := notices[no];
      assert notices == notices[no := row];
      if row.docs.None? { return Conflict; }
      notices := notices[no := row.(docs := Some(Refreshed(row.docs.value)))];
      code := Ok;
    }

    /** upload_document and import_common_document: the library is asked before the notice is read. */
    method UploadDocument(no: string, name: string, itemId: Option<ItemId>, incoming: Incoming,
                          extractError: Option<string>, hasExcerpt: bool) returns (code: Code)
      requires Valid()
      modifies this
      ensures Db() == Step(old(Db()), On(no, ReqUpload(name, itemId, incoming, extractError, hasExcerpt)))
      ensures Valid()
      ensures code == Answer(old(Db()), no, ReqUpload(name, itemId, incoming, extractError, hasExcerpt))
    {
      StepKeepsValid(Db(), On(no, ReqUpload(name, itemId, incoming, extractError, hasExcerpt)));
      if no !in notices { return NotFound; }
      var row := notices[no];
      assert notices == notices[no := row];
      if incoming == Library(false) { return NotFound; }
      if row.docs.None? { return Conflict; }
      if incoming.BadExtension? { return UnsupportedType; }
      if incoming.TooBig? { return TooLarge; }
      if incoming.WriteFailed? { return ServerError; }
      var source := if incoming.Library? then CommonLibrary else Uploaded;
      var docs := MergeIntoDocumentAutomation(row.docs.value,
                                              Upload(row.uploadSeq, name, itemId, source, extractError, hasExcerpt));
      notices := notices[no := row.(docs := Some(docs), uploadSeq := row.uploadSeq + 1)];
      code := Ok;
    }

    method DeleteUpload(no: string, id: nat) returns (code: Code)
      requires Valid()
      modifies this
      ensures Db() == Step(old(Db()), On(no, ReqDeleteUpload(id)))
      ensures Valid()
      ensures code == Answer(old(Db()), no, ReqDeleteUpload(id))
    {
      StepKeepsValid(Db(), On(no, ReqDeleteUpload(id)));
      if no !in notices { return NotFound; }
      var row := notices[no];
      assert notices == notices[no := row];
      if row.docs.None? { return Conflict; }
      var docs, removed := RemoveFromDocumentAutomation(row.docs.value, id);
      if !removed { return NotFound; }
      notices := notices[no := row.(docs := Some(docs))];
      code := Ok;
    }

    /** _record_export: retire the live rows of the pair, then insert the new one. */
    method RecordExport(no: string, kind: ExportKind, draft: DraftId, at: int) returns (e: Export)
      modifies this`rows, this`nextExport
      ensures e == Export(old(nextExport), kind, draft, at)
      ensures rows == Recorded(old(rows), no, e) && nextExport == old(nextExport) + 1
    {
      e := Export(nextExport, kind, draft, at);
      var retired := rows;
      for i := 0 to |rows|
        invariant rows == old(rows) && nextExport == old(nextExport)
        invariant |retired| == |rows|
        invariant forall j :: 0 <= j < i ==> retired[j] == Retired(rows, no, kind, draft)[j]
        invariant forall j :: i <= j < |rows| ==> retired[j] == rows[j]
      {
        if retired[i].noticeNo == no && retired[i].active && SamePair(retired[i].record, kind, draft) {
          retired := retired[i := retired[i].(active := false)];
        }
      }
      assert retired == Retired(rows, no, kind, draft);
      rows := retired + [ExportRow(no, e, true)];
      nextExport := nextExport + 1;
    }

    method ExportDocument(no: string, kind: ExportKind, build: Build, hasSpecRows: bool, bid: BidValues)
      returns (code: Code)
      requires Valid()
      modifies this
      ensures Db() == Step(old(Db()), On(no, ReqExport(kind, build, hasSpecRows, bid)))
      ensures Valid()
      ensures code == Answer(old(Db()), no, ReqExport(kind, build, hasSpecRows, bid))
    {
      StepKeepsValid(Db(), On(no, ReqExport(kind, build, hasSpecRows, bid)));
      if no !in notices { return NotFound; }
      var row := notices[no];
      RecordedNone(rows, no);
      assert notices == notices[no := row];
      if row.docs.None? || build.DraftMissing? { return Conflict; }
      if kind.ProposalHwp? { return BadRequest; }
      var docs := row.docs.value;
      var preErrors := ValidatePreCompose(docs.checklist, {TechnicalCompliance}, hasSpecRows, bid, map[]);
      if kind.Hwp? && preErrors != [] {
        notices := notices[no := row.(docs := Some(AddErrors(docs, preErrors)))];
        return Conflict;
      }
      if kind.BidFormHwp? { return BadRequest; }
      if build.DraftEmpty? { return Conflict; }
      if build.BuildFailed? { return if kind.Excel? then ServerError else BadGateway; }
      var e := RecordExport(no, kind, ComplianceDraft, build.at);
      StoreExport(no, row, e);
      RecordedOne(old(rows), no, e);
      code := Ok;
    }

    /** Merges a recorded export into the mirror and writes the row. */
    method StoreExport(no: string, row: Notice, e: Export)
      requires row.docs.Some?
      modifies this`notices
      ensures notices == old(notices)[no :=
        row.(docs := Some(row.docs.value.(exports := MergedExport(row.docs.value.exports, e))))]
    {
      var docs := MergeExportIntoDocumentAutomation(row.docs.value, e);
      notices := notices[no := row.(docs := Some(docs))];
    }

    /** _execute_hwp_put_fields: writes its own view of the row before it returns. */
    method ExecuteHwpPutFields(no: string, row: Notice, docs: Docs, template: TemplateKind, requiredMissing: bool,
                               agent: Agent)
      returns (put: Put)
      requires !agent.TemplateUnusable? && row.docs.Some?
      modifies this
      ensures put == ExecutePutFields(row.status, docs, template, requiredMissing, agent, old(nextExport))
      ensures rows == RecordedAll(old(rows), no, put.records) && nextExport == old(nextExport) + |put.records|
      ensures notices == old(notices)[no := row.(docs := Some(put.docs), status := put.status)]
    {
      var errors: seq<DocError> := [];
      if requiredMissing { errors := errors + [DocError(HwpRequired, false, "required HWP value empty")]; }
      RecordedNone(rows, no);
      if agent.AgentFailed? {
        errors := errors + [DocError(HwpPutFields, true, agent.detail)];
        put := Put(AddErrors(docs, errors), row.status, [], errors);
      } else {
        if agent.remaining { errors := errors + [DocError(HwpRemaining, false, "placeholders remain")]; }
        var e;
        if template.BidFormTemplate? {
          e := RecordExport(no, BidFormHwp, BidFormDraft, agent.at);
        } else {
          e := RecordExport(no, ProposalHwp, ProposalDraft, agent.at);
        }
        RecordedOne(old(rows), no, e);
        var updated := MergeExportIntoDocumentAutomation(docs, e);
        updated := AddErrors(updated, errors);
        var next := AdvanceStatus(row.status, HwpComposed);
        if template.BidFormTemplate? && errors == [] && !agent.remaining {
          next := AdvanceStatus(next, FormFilled);
        }
        put := Put(updated, next, [e], errors);
      }
      notices := notices[no := row.(docs := Some(put.docs), status := put.status)];
    }

    method PutHwpFields(no: string, template: TemplateKind, requiredMissing: bool, agent: Agent) returns (code: Code)
      requires Valid()
      modifies this
      ensures Db() == Step(old(Db()), On(no, ReqPutFields(template, requiredMissing, agent)))
      ensures Valid()
      ensures code == Answer(old(Db()), no, ReqPutFields(template, requiredMissing, agent))
    {
      StepKeepsValid(Db(), On(no, ReqPutFields(template, requiredMissing, agent)));
      if no !in notices { return NotFound; }
      var row := notices[no];
      RecordedNone(rows, no);
      assert notices == notices[no := row];
      if row.docs.None? || agent.TemplateUnusable? { return Conflict; }
      var put := ExecuteHwpPutFields(no, row, row.docs.value, template, requiredMissing, agent);
      code := Ok;
    }

    /** Ok, or the refusal and the errors it stores. */
    static method PassGate(row: Notice, r: ComposeRequest, ghost next: nat) returns (code: Code, gate: seq<DocError>)
      ensures gate != [] ==> row.docs.Some?
      ensures code == Ok ==>
        && row.docs.Some? && (r.bidForm ==> !r.agent.TemplateUnusable?)
        && Serve(row, ReqCompose(r), next) == FinishCompose(row, r, ComposeBidForm(row, r, next), next)
      ensures code != Ok ==>
        Serve(row, ReqCompose(r), next) ==
          Effect(code, if gate != [] then row.(docs := Some(AddErrors(row.docs.value, gate))) else row, [])
    {
      if row.docs.None? { return Conflict, []; }
      gate := ValidatePreCompose(row.docs.value.checklist, ComposeTargets(r), r.hasSpecRows, r.bid, r.given);
      code := if gate != [] || (r.bidForm && r.agent.TemplateUnusable?) then Conflict else Ok;
    }

    /** The row is read once; what put-fields wrote for it in between is overwritten at the end. */
    method ComposeHwpDocuments(no: string, r: ComposeRequest) returns (code: Code)
      requires Valid()
      modifies this
      ensures Db() == Step(old(Db()), On(no, ReqCompose(r)))
      ensures Valid()
      ensures code == Answer(old(Db()), no, ReqCompose(r))
    {
      StepKeepsValid(Db(), On(no, ReqCompose(r)));
      if no !in notices { return NotFound; }
      var row := notices[no];
      RecordedNone(rows, no);
      assert notices == notices[no := row];
      var gate;
      code, gate := PassGate(row, r, nextExport);
      if code != Ok {
        if gate != [] { notices := notices[no := row.(docs := Some(AddErrors(row.docs.value, gate)))]; }
        return;
      }
      var put := ComposeBidFormPart(no, row, r);
      ghost var eff := FinishCompose(row, r, put, old(nextExport));
      FinishComposing(no, row, r, put, old(rows), old(nextExport), eff);
      assert notices == old(notices)[no := eff.notice];
    }

    method ComposeBidFormPart(no: string, row: Notice, r: ComposeRequest) returns (put: Put)
      requires row.docs.Some? && (r.bidForm ==> !r.agent.TemplateUnusable?) && no in notices
      modifies this
      ensures put == ComposeBidForm(row, r, old(nextExport))
      ensures rows == RecordedAll(old(rows), no, put.records) && nextExport == old(nextExport) + |put.records|
      ensures no in notices && notices == old(notices)[no := notices[no]]
    {
      RecordedNone(rows, no);
      if r.bidForm {
        put := ExecuteHwpPutFields(no, row, row.docs.value, BidFormTemplate, r.requiredMissing, r.agent);
      } else {
        put := Put(row.docs.value, row.status, [], []);
      }
    }

    /** The compliance table, when asked for: built and recorded, or reported. */
    method AddCompliance(no: string, r: ComposeRequest, docs: Docs) returns (updated: Docs, errors: seq<DocError>)
      modifies this`rows, this`nextExport
      ensures errors == ComplianceErrors(r)
      ensures
        var built := ComplianceExports(r, old(nextExport));
        && updated == docs.(exports := MergedAll(docs.exports, built))
        && rows == RecordedAll(old(rows), no, built) && nextExport == old(nextExport) + |built|
    {
      updated, errors := docs, [];
      RecordedNone(rows, no);
      if r.compliance {
        if r.build.Built? {
          var e := RecordExport(no, Hwp, ComplianceDraft, r.build.at);
          RecordedOne(old(rows), no, e);
          MergedFew(docs.exports, [e]);
          updated := MergeExportIntoDocumentAutomation(docs, e);
        } else {
          errors := [DocError(ComplianceFailed, true, "compliance table not built")];
        }
      }
    }

    /** The outer write of composing, from the row read at the start. */
    method FinishComposing(no: string, row: Notice, r: ComposeRequest, put: Put, ghost before: seq<ExportRow>,
                           ghost next: nat, ghost eff: Effect)
      requires row.docs.Some? && |put.records| <= 1 && (put.records != [] ==> r.agent.AgentDone?)
      requires rows == RecordedAll(before, no, put.records) && nextExport == next + |put.records|
      requires eff == FinishCompose(row, r, put, next)
      modifies this
      ensures notices == old(notices)[no := eff.notice]
      ensures rows == RecordedAll(before, no, eff.records) && nextExport == next + |eff.records|
    {
      var docs, missing := row.docs.value, [];
      MergedFew(docs.exports, put.records);
      if |put.records| > 0 {
        docs := MergeExportIntoDocumentAutomation(docs, put.records[0]);
      }
      ghost var built := ComplianceExports(r, nextExport);
      docs, missing := AddCompliance(no, r, docs);
      RecordedThen(before, no, put.records, built);
      MergedThen(row.docs.value.exports, put.records, built);
      var errors := Warnings(r.warnings) + put.errors + missing;
      var status := ComposedStatus(row.status, r, put, errors, missing);
      FinishedRow(row, r, put, next);
      assert docs == row.docs.value.(exports := MergedAll(row.docs.value.exports, put.records + built));
      notices := notices[no := row.(docs := Some(AddErrors(docs, errors)), status := status)];
    }

    /** The status behind composing: the table moves it on, and so does a bid form that came out complete. */
    static method ComposedStatus(before: Status, r: ComposeRequest, put: Put, errors: seq<DocError>,
                                 missing: seq<DocError>) returns (status: Status)
      requires missing == ComplianceErrors(r) && (put.records != [] ==> r.agent.AgentDone?)
      ensures status == FinishedStatus(before, r, put, errors)
    {
      status := if r.compliance && missing == [] then AdvanceStatus(before, HwpComposed) else before;
      if |put.records| > 0 && !Blocking(errors) && !r.agent.remaining {
        status := AdvanceStatus(status, FormFilled);
      }
    }

    method ComposeProposal(no: string, hasSpecRows: bool, bid: BidValues, given: map<string, string>, warnings: nat,
                           requiredMissing: bool, agent: Agent)
      returns (code: Code)
      requires Valid()
      modifies this
      ensures Db() == Step(old(Db()), On(no, ReqProposal(hasSpecRows, bid, given, warnings, requiredMissing, agent)))
      ensures Valid()
      ensures code == Answer(old(Db()), no, ReqProposal(hasSpecRows, bid, given, warnings, requiredMissing, agent))
    {
      StepKeepsValid(Db(), On(no, ReqProposal(hasSpecRows, bid, given, warnings, requiredMissing, agent)));
      if no !in notices { return NotFound; }
      var row := notices[no];
      RecordedNone(rows, no);
      assert notices == notices[no := row];
      var gate;
      code, gate := PassProposalGate(row, hasSpecRows, bid, given, warnings, requiredMissing, agent, nextExport);
      if code != Ok {
        if gate != [] { notices := notices[no := row.(docs := Some(AddErrors(row.docs.value, gate)))]; }
        return;
      }
      var result := ExecuteHwpPutFields(no, row, row.docs.value, ProposalTemplate, requiredMissing, agent);
      FinishProposing(no, row, warnings, result);
      assert notices == old(notices)[no := FinishProposal(row, warnings, result).notice];
    }

    /** The outer write of composing a proposal, from the row read at the start. */
    method FinishProposing(no: string, row: Notice, warnings: nat, put: Put)
      requires row.docs.Some? && |put.records| <= 1
      modifies this`notices
      ensures notices == old(notices)[no := FinishProposal(row, warnings, put).notice]
    {
      var docs, status := row.docs.value, row.status;
      MergedFew(docs.exports, put.records);
      if |put.records| > 0 {
        docs := MergeExportIntoDocumentAutomation(docs, put.records[0]);
        status := AdvanceStatus(row.status, HwpComposed);
      }
      notices := notices[no := row.(docs := Some(AddErrors(docs, Warnings(warnings) + put.errors)), status := status)];
    }

    static method PassProposalGate(row: Notice, hasSpecRows: bool, bid: BidValues, given: map<string, string>,
                                   warnings: nat, requiredMissing: bool, agent: Agent, ghost next: nat)
      returns (code: Code, gate: seq<DocError>)
      ensures gate != [] ==> row.docs.Some?
      ensures code == Ok ==>
        && row.docs.Some? && !agent.TemplateUnusable?
        && Serve(row, ReqProposal(hasSpecRows, bid, given, warnings, requiredMissing, agent), next)
           == FinishProposal(row, warnings,
               ExecutePutFields(row.status, row.docs.value, ProposalTemplate, requiredMissing, agent, next))
      ensures code != Ok ==>
        Serve(row, ReqProposal(hasSpecRows, bid, given, warnings, requiredMissing, agent), next) ==
          Effect(code, if gate != [] then row.(docs := Some(AddErrors(row.docs.value, gate))) else row, [])
    {
      if row.docs.None? { return Conflict, []; }
      gate := ValidatePreCompose(row.docs.value.checklist, PROPOSAL_TARGETS, hasSpecRows, bid, given);
      code := if gate != [] || agent.TemplateUnusable? then Conflict else Ok;
    }

    method AutofillForm(no: string, agentOk: bool) returns (code: Code)
      requires Valid()
      modifies this
      ensures Db() == Step(old(Db()), On(no, ReqAutofill(agentOk)))
      ensures Valid()
      ensures code == Answer(old(Db()), no, ReqAutofill(agentOk))
    {
      StepKeepsValid(Db(), On(no, ReqAutofill(agentOk)));
      if no !in notices { return NotFound; }
      var row := notices[no];
      assert notices == notices[no := row];
      if !CanTransition(row.status, FormFilled) { return Conflict; }
      if !agentOk { return BadGateway; }
      row := row.(bidFormFilled := true);
      var docs := AttachBidFormResult(if row.docs.Some? then row.docs.value else NO_DOCS);
      notices := notices[no := row.(docs := Some(docs), status := FormFilled)];
      code := Ok;
    }

    method NotifyNotice(no: string) returns (code: Code)
      requires Valid()
      modifies this
      ensures Db() == Step(old(Db()), On(no, ReqNotify))
      ensures Valid()
      ensures code == Answer(old(Db()), no, ReqNotify)
    {
      StepKeepsValid(Db(), On(no, ReqNotify));
      if no !in notices { return NotFound; }
      var row := notices[no];
      assert notices == notices[no := row];
      var next := ComputeNotifyStatus(row.fitScore);
      if !CanTransition(row.status, next) { return Conflict; }
      notices := notices[no := row.(status := next)];
      code := Ok;
    }

    method GradeNotice(no: string, fitScore: int) returns (code: Code)
      requires Valid()
      modifies this
      ensures Db() == Step(old(Db()), On(no, ReqGrade(fitScore)))
      ensures Valid()
      ensures code == Answer(old(Db()), no, ReqGrade(fitScore))
    {
      StepKeepsValid(Db(), On(no, ReqGrade(fitScore)));
      if no !in notices { return NotFound; }
      var row := notices[no];
      assert notices == notices[no := row];
      if !(row.status.Analyzed? || row.status.FormFilled? || IsFinal(row.status)) { return Conflict; }
      notices := notices[no := row.(fitScore := fitScore)];
      code := Ok;
    }

    /** The download of an export asks the table first and the mirror second; either alone would give the same. */
    method DownloadExport(no: string, kind: ExportKind, disk: nat -> ExportFile)
      returns (code: Code, meta: Option<Export>)
      requires Valid()
      ensures code ==
        if no !in notices then NotFound
        else if notices[no].docs.None? then Conflict
        else if meta.None? then NotFound
        else FileCode(disk(meta.value.id))
      ensures meta ==
        if no in notices && notices[no].docs.Some? then LookupExport(Mirror(notices[no]), kind, DraftOf(kind)) else None
      ensures no in notices && notices[no].docs.Some? ==> meta == LookupActive(rows, no, kind, DraftOf(kind))
    {
      if no !in notices { return NotFound, None; }
      if notices[no].docs.None? { return Conflict, None; }
      meta := LookupActive(rows, no, kind, DraftOf(kind));
      if meta.None? {
        meta := LookupExport(notices[no].docs.value.exports, kind, DraftOf(kind));
      }
      assert Agree(rows, no, MirrorAt(Db(), no));
      LookupsAgree(rows, no, Mirror(notices[no]), kind, DraftOf(kind));
      if meta.None? { return NotFound, None; }
      code := FileCode(disk(meta.value.id));
    }
  }

  /** One step keeps what Valid says, on any request. */
  lemma StepKeepsValid(s: State, c: Call)
    requires StateOk(s)
    ensures StateOk(Step(s, c))
  {
    StepKeepsOk(s, c);
    StepKeepsAgreement(s, c);
  }

  function FinishedStatus(before: Status, r: ComposeRequest, put: Put, errors: seq<DocError>): Status
    requires put.records != [] ==> r.agent.AgentDone?
  {
    var status := if r.compliance && r.build.Built? then AdvanceStatus(before, HwpComposed) else before;
    if put.records != [] && !Blocking(errors) && !r.agent.remaining then AdvanceStatus(status, FormFilled) else status
  }

  lemma FinishedRow(row: Notice, r: ComposeRequest, put: Put, next: nat)
    requires row.docs.Some? && (put.records != [] ==> r.agent.AgentDone?)
    ensures
      var built := ComplianceExports(r, next + |put.records|);
      var errors := Warnings(r.warnings) + put.errors + ComplianceErrors(r);
      var docs := row.docs.value.(exports := MergedAll(row.docs.value.exports, put.records + built));
      && FinishCompose(row, r, put, next).records == put.records + built
      && FinishCompose(row, r, put, next).notice
         == row.(docs := Some(AddErrors(docs, errors)), status := FinishedStatus(row.status, r, put, errors))
  {
  }

  lemma CleanedSize(notices: map<string, Notice>, gone: set<string>)
    requires gone <= notices.Keys
    ensures |notices - gone| == |notices| - |gone|
  {
    var left := notices - gone;
    assert left.Keys == notices.Keys - gone;
    assert |left| == |left.Keys| && |notices| == |notices.Keys|;
  }

  lemma RecordedNone(rows: seq<ExportRow>, no: string)
    ensures RecordedAll(rows, no, []) == rows
  {
  }

  lemma RecordedOne(rows: seq<ExportRow>, no: string, e: Export)
    ensures RecordedAll(rows, no, [e]) == Recorded(rows, no, e)
  {
  }

  lemma RecordedThen(rows: seq<ExportRow>, no: string, es: seq<Export>, fs: seq<Export>)
    requires |fs| <= 1
    ensures RecordedAll(rows, no, es + fs) == RecordedAll(RecordedAll(rows, no, es), no, fs)
  {
    if fs == [] { assert es + fs == es; } else { assert es + fs == es + [fs[0]] && fs[..0] == []; }
  }

  lemma MergedFew(exports: seq<Export>, es: seq<Export>)
    requires |es| <= 1
    ensures MergedAll(exports, es) == if es == [] then exports else MergedExport(exports, es[0])
  {
  }

  lemma MergedThen(exports: seq<Export>, es: seq<Export>, fs: seq<Export>)
    requires |fs| <= 1
    ensures MergedAll(exports, es + fs) == MergedAll(MergedAll(exports, es), fs)
  {
    if fs == [] { assert es + fs == es; } else { assert es + fs == es + [fs[0]] && fs[..0] == []; }
  }
}
