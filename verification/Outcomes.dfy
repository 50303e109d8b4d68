/** When the producing requests succeed, when they finish a notice's form, and what can be looked up afterwards. */
module Outcomes {
  import opened Text
  import opened Status
  import opened NoticeModel
  import opened DocumentAutomation
  import opened Exports
  import opened Workflow
  import opened Invariants

  /** Nothing required is missing, except perhaps the documents about to be made. */
  ghost predicate OnlyMissing(n: Notice, targets: set<ItemId>) {
    n.docs.Some? && forall i :: i in n.docs.value.checklist && IsMissing(i) ==> i.id in targets
  }

  /** An export succeeds exactly for a built Excel file, or a built HWP file that passes the gate. */
  lemma ExportGate(n: Notice, kind: ExportKind, build: Build, hasSpecRows: bool, bid: BidValues, next: nat)
    ensures
      var eff := ExportDocument(n, kind, build, hasSpecRows, bid, next);
      && (eff.code == Ok <==>
            && n.docs.Some? && build.Built? && (kind.Excel? || kind.Hwp?)
            && (kind.Hwp? ==> hasSpecRows && AllFilled(bid, map[]) && OnlyMissing(n, {TechnicalCompliance})))
      && eff.records == (if eff.code == Ok then [Export(next, kind, ComplianceDraft, build.at)] else [])
  {
    if n.docs.Some? {
      NoMissingErrors(n.docs.value.checklist, {TechnicalCompliance});
      NoEmptyErrors(bid.required, bid, map[]);
    }
  }

  /** A proposal is composed exactly when it passes the gate and its template can be used; a failing agent
      still answers 200, without an export. */
  lemma ProposalGate(n: Notice, hasSpecRows: bool, bid: BidValues, given: map<string, string>, warnings: nat,
                     requiredMissing: bool, agent: Agent, next: nat)
    ensures
      var eff := ComposeProposal(n, hasSpecRows, bid, given, warnings, requiredMissing, agent, next);
      && (eff.code == Ok <==>
            OnlyMissing(n, PROPOSAL_TARGETS) && hasSpecRows && AllFilled(bid, given) && !agent.TemplateUnusable?)
      && (eff.records != [] <==> eff.code == Ok && agent.AgentDone?)
  {
    if n.docs.Some? {
      NoMissingErrors(n.docs.value.checklist, PROPOSAL_TARGETS);
      NoEmptyErrors(bid.required, bid, given);
    }
  }

  lemma BlockingAppend(a: seq<DocError>, b: seq<DocError>)
    ensures Blocking(a + b) <==> Blocking(a) || Blocking(b)
  {
    if i :| 0 <= i < |a| && a[i].blocking { assert (a + b)[i].blocking; }
    if i :| 0 <= i < |b| && b[i].blocking { assert (a + b)[|a| + i].blocking; }
  }

  /** The bid form came out complete: put-fields also asks that no required value was empty, compose does not. */
  predicate FormDone(r: Request, code: Code) {
    match r
    case ReqAutofill(_) => code == Ok
    case ReqPutFields(template, requiredMissing, agent) =>
      code == Ok && template.BidFormTemplate? && !requiredMissing && agent.AgentDone? && !agent.remaining
    case ReqCompose(c) =>
      code == Ok && c.bidForm && c.agent.AgentDone? && !c.agent.remaining && (c.compliance ==> c.build.Built?)
    case _ => false
  }

  lemma ComposeErrorsBlock(n: Notice, c: ComposeRequest, next: nat)
    requires n.docs.Some? && c.bidForm && c.agent.AgentDone?
    ensures Blocking(Warnings(c.warnings) + ComposeBidForm(n, c, next).errors + ComplianceErrors(c))
            <==> c.compliance && !c.build.Built?
  {
    var put := ComposeBidForm(n, c, next);
    assert forall e :: e in put.errors ==> !e.blocking;
    BlockingAppend(Warnings(c.warnings) + put.errors, ComplianceErrors(c));
    BlockingAppend(Warnings(c.warnings), put.errors);
    if c.compliance && !c.build.Built? { assert ComplianceErrors(c)[0].blocking; }
  }

  lemma FinishStatus(n: Notice, c: ComposeRequest, put: Put, next: nat)
    requires IsProcessing(n.status) && !n.status.FormFilled?
    requires n.docs.Some? && (put.records != [] ==> c.agent.AgentDone?)
    ensures FinishCompose(n, c, put, next).notice.status.FormFilled?
        <==> put.records != [] && !c.agent.remaining
             && !Blocking(Warnings(c.warnings) + put.errors + ComplianceErrors(c))
  {
  }

  lemma FinishFills(n: Notice, c: ComposeRequest, next: nat)
    requires IsProcessing(n.status) && !n.status.FormFilled?
    requires n.docs.Some? && (c.bidForm ==> !c.agent.TemplateUnusable?)
    ensures FinishCompose(n, c, ComposeBidForm(n, c, next), next).notice.status.FormFilled?
        <==> FormDone(ReqCompose(c), Ok)
  {
    FinishStatus(n, c, ComposeBidForm(n, c, next), next);
    if c.bidForm && c.agent.AgentDone? { ComposeErrorsBlock(n, c, next); }
  }

  lemma ComposeFills(n: Notice, c: ComposeRequest, next: nat)
    requires IsProcessing(n.status) && !n.status.FormFilled?
    ensures ComposeHwpDocuments(n, c, next).notice.status.FormFilled?
            <==> FormDone(ReqCompose(c), ComposeHwpDocuments(n, c, next).code)
  {
    if ComposeHwpDocuments(n, c, next).code == Ok {
      FinishFills(n, c, next);
      assert ComposeHwpDocuments(n, c, next) == FinishCompose(n, c, ComposeBidForm(n, c, next), next);
    } else {
      assert ComposeHwpDocuments(n, c, next).notice.status == n.status;
    }
  }

  lemma PutFills(n: Notice, template: TemplateKind, requiredMissing: bool, agent: Agent, next: nat)
    requires IsProcessing(n.status) && !n.status.FormFilled?
    ensures
      var eff := PutHwpFields(n, template, requiredMissing, agent, next);
      eff.notice.status.FormFilled? <==> FormDone(ReqPutFields(template, requiredMissing, agent), eff.code)
  {
  }

  lemma ProposalDoesNotFill(n: Notice, rows: bool, bid: BidValues, given: map<string, string>, warnings: nat,
                            missing: bool, agent: Agent, next: nat)
    requires IsProcessing(n.status) && !n.status.FormFilled?
    ensures !ComposeProposal(n, rows, bid, given, warnings, missing, agent, next).notice.status.FormFilled?
  {
  }

  /** From an earlier processing status, exactly a complete bid form moves the notice to form_filled. */
  lemma FormFilledWhenDone(n: Notice, r: Request, next: nat)
    requires IsProcessing(n.status) && !n.status.FormFilled?
    ensures Serve(n, r, next).notice.status.FormFilled? <==> FormDone(r, Serve(n, r, next).code)
  {
    match r
    case ReqCompose(c) => ComposeFills(n, c, next);
    case ReqPutFields(t, missing, agent) => PutFills(n, t, missing, agent, next);
    case ReqProposal(rows, bid, given, warn, missing, agent) =>
      ProposalDoesNotFill(n, rows, bid, given, warn, missing, agent, next);
    case _ =>
  }

  // ---- what can be looked up afterwards ----

  lemma LookupMerged(exports: seq<Export>, e: Export, kind: ExportKind, draft: DraftId)
    ensures LookupExport(MergedExport(exports, e), kind, draft) ==
            if SamePair(e, kind, draft) then Some(e) else LookupExport(exports, kind, draft)
  {
    LookupExportIsFirst(MergedExport(exports, e), kind, draft);
    LookupExportIsFirst(exports, kind, draft);
    MergedMirror(exports, e, kind, draft);
  }

  /** The last of these exports of the pair. */
  function LastOf(es: seq<Export>, kind: ExportKind, draft: DraftId): Option<Export> {
    if es == [] then None
    else if SamePair(es[|es| - 1], kind, draft) then Some(es[|es| - 1])
    else LastOf(es[..|es| - 1], kind, draft)
  }

  lemma {:induction false} LookupMergedAll(exports: seq<Export>, es: seq<Export>, kind: ExportKind, draft: DraftId)
    ensures LookupExport(MergedAll(exports, es), kind, draft) ==
            var last := LastOf(es, kind, draft); if last.Some? then last else LookupExport(exports, kind, draft)
  {
    if es != [] {
      LookupMergedAll(exports, es[..|es| - 1], kind, draft);
      LookupMerged(MergedAll(exports, es[..|es| - 1]), es[|es| - 1], kind, draft);
    }
  }

  /** After any request a lookup finds the export it recorded for the pair, else the one found before. */
  lemma LookupAfterServe(n: Notice, r: Request, next: nat, kind: ExportKind, draft: DraftId)
    requires NoticeOk(n)
    ensures
      var eff := Serve(n, r, next);
      var last := LastOf(eff.records, kind, draft);
      LookupExport(Mirror(eff.notice), kind, draft) == if last.Some? then last else LookupExport(Mirror(n), kind, draft)
  {
    ServeMirrorsTable(n, r, next);
    LookupMergedAll(Mirror(n), Serve(n, r, next).records, kind, draft);
  }
}
