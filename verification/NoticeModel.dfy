/** What the database keeps about one notice, and the export table all notices share. */
module NoticeModel {
  import opened Text
  import opened Status

  /** Checklist item ids: the nine the rules always produce, and slugs the LLM adds.
      An Extra slug is never the spelling of one of the nine. */
  datatype ItemId =
    | BidForm | BusinessRegistration | CorporateSeal | ManufacturerLetter | Catalog
    | TechnicalCompliance | PerformanceRecord | BidBond | LicenseCertificate
    | Extra(slug: string)

  datatype ItemStatus = Needed | Ready | Generated | Blocked | NotApplicable

  datatype Item = Item(
    id: ItemId,
    required: bool,
    status: ItemStatus,
    owner: Option<string>,
    note: Option<string>,
    source: string)

  datatype UploadSource = Uploaded | CommonLibrary | G2bAttachment

  datatype Upload = Upload(
    id: nat,
    name: string,
    itemId: Option<ItemId>,
    source: UploadSource,
    extractError: Option<string>,
    hasExcerpt: bool)

  datatype ExportKind = Excel | Hwp | BidFormHwp | ProposalHwp
  datatype DraftId = ComplianceDraft | BidFormDraft | ProposalDraft

  /** One record of the JSON mirror kept inside the notice. */
  datatype Export = Export(id: nat, kind: ExportKind, draft: DraftId, createdAt: int)

  /** One row of the notice_exports table; a set deleted_at is active == false. */
  datatype ExportRow = ExportRow(noticeNo: string, record: Export, active: bool)

  datatype Stage =
    | G2bFetch | G2bAnalysis | DocumentLlm | PreCompose | SpecReview
    | HwpRequired | HwpPutFields | HwpRemaining | ComplianceFailed

  datatype DocError = DocError(stage: Stage, blocking: bool, detail: string)

  /** analysis.document_automation */
  datatype Docs = Docs(
    checklist: seq<Item>,
    uploads: seq<Upload>,
    exports: seq<Export>,
    missing: seq<Item>,
    ready: bool,
    errors: seq<DocError>)

  const NO_DOCS := Docs([], [], [], [], false, [])

  /** One bid_pipeline row. uploadSeq numbers the uploads, as uuid4 names them: no id twice. */
  datatype Notice = Notice(
    status: Status,
    fitScore: int,
    bidFormFilled: bool,
    docs: Option<Docs>,
    uploadSeq: nat)
}
