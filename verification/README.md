# Verified model of the bid-notice workspace

This project models the server side of a bid-notice workspace and proves what holds over whole runs of
its requests. It consists of five parts.

**Notice machine.** A notice is a status, a fit score and a nested document: checklist, uploads, export
mirror, readiness flag with missing list, errors. Every state-changing endpoint is one atomic step
(`Workflow.Serve`), because each runs in one transaction. Analysis results, LLM suggestions, downloads,
disk checks, writers and the HWP agent are arbitrary step inputs. `NoticeStore.Store` carries the endpoints
in the imperative form of the source, one method per endpoint, and each method is proved equal to its step.
`Runs` proves the invariants for every sequence of calls on any number of notices.

**Printers and parsers.** The compliance table, the evidence citations of proposal sections, and the formats
of HWP fields, each against the parser that reads it back.

**Specification loop.** Rows are extracted from `elec_spec` and `elec_spec` is rebuilt from the rows; the loop
is proved to settle, with the exact number of rounds.

**Qualification cache.** The table with lazy expiry and a background sweep, against the history of its operations.

**Collectors and upserts.** The G2B search, the ontology seed, and the required-document table.

Modules: `Text` (string operations), `Status`, `NoticeModel`, `DocumentAutomation`, `Attachments`, `Exports`,
`Workflow`, `Invariants`, `Outcomes`, `Effects`, `Runs`, `Services`, `NoticeStore`; `ComplianceTable`, `Proposal`, `Coverage`,
`HwpFormat`; `SpecLoop`; `QualCache`; `Search`, `Seed`, `RequiredDocs`. The loops of the source are methods
proved equal to functions; the theorems are lemmas about those functions and about runs.

## Findings

Where the code does not do what its design suggests, the model follows the code and states when it does.

- `_fetch_all` takes a page that parses to fewer than 100 notices for the last one. One row of a full page that
  `_parse` drops hides all further pages (`Search.PagingCanStopShort`; exact condition in `Search.PagingComplete`).
- `advance_status` and `can_transition` differ from `collected`: the former may pass over `analyzed`
  (`Status.AdvanceVersusTransition`).
- The compliance draft that document analysis writes is not escaped; it reads back exactly when no field value and
  no product name holds a pipe, a line break or outer white space (`ComplianceTable.UnescapedDraft`, failing input in
  `ComplianceTable.LineBreakBreaksDraft`).
- A manual verdict on an item that only the LLM added is lost when the LLM does not suggest the item again
  (`Runs.VerdictIsLost` makes and loses one in three calls; exact condition in
  `Invariants.AnalyzeKeepsManual`).
- A notice that lists two attachments of one name gets two fetched uploads of that name
  (`Attachments.EqualNamesAccumulate`; exact condition in `Attachments.FetchUploads`).
- An infinite quantity or phase count makes the conversion to int raise, so the extract request fails and stores
  nothing (`SpecLoop.OverflowStops`; exact condition in `SpecLoop.SpecItemsToElecSpec`). So does an infinite page
  number in the required-document answer (`RequiredDocs.Normalize`).
- `number_comma` raises on an infinite number, on a signalling NaN, and on an integer of more than 4300 digits such as
  `1e4300` (`HwpFormat.InfinityRaises`, `HwpFormat.SignallingRaises`, `HwpFormat.LongIntegerRaises`; exact condition in
  `HwpFormat.FormatRaises`). The third is a ValueError, which the request turns into a 409; the other two escape.
- `number_comma` is not idempotent on a negative fraction that rounds to zero: `-0.001` gives `-0`, and that `0`
  (`HwpFormat.SmallNegativeIsUnstable`; exact condition in `HwpFormat.NumberFormatIsIdempotent`).
- A role binding of an unseeded role would be reported as inserted on every run and never stored
  (`Seed.SecondRunIsQuiet`). The shipped vocabulary has none.

Two further differences are hypothetical: no run reaches them.

- Merging uploads one by one and in a batch would differ on a promoted item with an empty source
  (`DocumentAutomation.IncrementalIsBatch`). No reachable item has one, so on every run the two agree
  (`Runs.UploadsMergeAsBatch`).
- An evidence id that ends like the warning marker would make a fully cited section warn
  (`Coverage.IdCanFakeWarning`). The service mints no such id, and for the ids it mints verify passes exactly when
  nothing is missing (`Coverage.VerifyMinted`).

## Model

| member | source | states |
|---|---|---|
| Runs.ExportsAgreeOnEveryRun | api/routers/notices.py:1815-1847 | After any run of requests on any notices, the table lookup and the mirror lookup name the same export of every (notice, kind, draft), and that triple has at most one live row. |
| Runs.CollectedHasNoDocuments | api/routers/notices.py:887-910 | After any run a notice in `collected` has no document automation, so the one request that replaces the whole analysis has nothing to discard. |
| Runs.ReadinessIsSound | api/services/document_automation.py:595-604 | After any run the checklist ids are distinct, a notice shown as ready has no required item outside ready/generated, and the stored missing list covers every item that is missing now, although uploads, deletions and exports do not recompute it. |
| Runs.StatusGoesForward | api/services/status.py:28-56 | From any state, no run lowers the status rank of a notice it does not remove, and a final status never changes. |
| Runs.ManualVerdictSticks | api/services/document_automation.py:402-423 | A hand-made verdict survives every run that does not patch the item again (or autofill the bid form) and whose re-analyses bring the item back, which they always do for the nine base items and, for an item of the LLM, when they suggest it: still marked manual, same owner and note, same status unless an upload moved it from needed/blocked to ready. |
| Runs.VerdictIsLost | api/services/document_automation.py:402-423 | From any state in order, analyzing with an LLM item suggested, patching it and analyzing without it makes a manual verdict and loses it. |
| Runs.NotApplicableSticks | api/services/document_automation.py:402-423 | Under the same conditions a hand-made `not_applicable` stays until it is patched again, whatever is uploaded in between. |
| Runs.FetchedOnceOnEveryRun | api/routers/notices.py:2362-2524 | At every moment of a run every notice holds at most one fetched upload per file name, if and only if no fetch of the run stores a name twice. |
| Runs.DistinctNamesFetchOnce | api/routers/notices.py:2362-2524 | In particular every run whose fetch requests name no two attachments alike. |
| Runs.UploadsMergeAsBatch | api/services/uploads.py:303-331 | In every reachable notice, merging any uploads one at a time gives the checklist of the batch pass. |
| Runs.UploadRunIsBatch | api/services/uploads.py:303-331 | From every reachable notice, any number of upload requests appends their uploads in order with consecutive ids and leaves the checklist of one batch pass. |
| Invariants.ServeKeepsOk | api/routers/notices.py:1064-1112 | Every request keeps: a collected notice has no documents; checklist ids are distinct and sources non-empty; ready holds exactly when the stored missing list is empty; that list covers what is missing; upload ids are distinct and below the counter. |
| Invariants.ServeMirrorsTable | api/routers/notices.py:1768-1776 | What any request leaves in the JSON mirror is the old mirror merged with exactly the exports it recorded in the table, in the same order, also in compose, where the inner write is lost and replayed by the outer one. |
| Invariants.ServeGoesForward | api/routers/notices.py:2789-2804 | No request lowers the status, even though compose writes it from the row read at the start. |
| Invariants.ServeKeepsVerdict | api/services/document_automation.py:402-423 | One request that does not rewrite the item and, if it re-analyses, brings it back, keeps a manual verdict on it. |
| Invariants.AnalyzeKeepsManual | api/services/document_automation.py:350-423 | Re-analysis keeps a manual verdict whatever the LLM suggests; the item itself comes back if and only if it is a base item or is suggested again. |
| Invariants.AnalyzeDiscardsNothing | api/routers/notices.py:887-910 | Under the invariant, analyze answers 200 exactly in `collected`, and then there are no documents. |
| Invariants.ComposeGate | api/services/document_automation.py:139-217 | Compose answers 200 if and only if spec rows exist, every required placeholder has a non-empty value (a given one replaces the drafted one), every missing required item is among the documents being composed, and the template is usable; otherwise it records no export. |
| Invariants.PatchIsManual | api/services/document_automation.py:102-130 | A patch succeeds exactly when the item exists; it then carries the manual mark and exactly the given status, owner and note, the absent ones unchanged. |
| Invariants.ServeKeepsFetchedOnce | api/routers/notices.py:2362-2524 | A request keeps at most one fetched upload per name if and only if it stores no name twice. |
| Invariants.ReadyMeansComplete | api/services/document_automation.py:256-257 | Under the invariant a ready flag means that validating the checklist now finds nothing missing. |
| Outcomes.ExportGate | api/routers/notices.py:2620-2686 | An export succeeds if and only if the draft is built and the kind is Excel, or HWP with spec rows, a non-empty drafted value for every required placeholder and nothing required missing but the compliance table; only then is one export recorded. |
| Outcomes.ProposalGate | api/routers/notices.py:2824-2929 | A proposal is composed if and only if spec rows exist, every required placeholder has a non-empty value, only the documents being made are missing, and the template is usable; it records an export exactly when the agent finished. |
| Outcomes.FormFilledWhenDone | api/routers/notices.py:1749-1776 | From an earlier processing status a request moves the notice to form_filled if and only if the bid form came out complete: by autofill, by put-fields without any error, or by compose without open placeholders or a failed compliance table. |
| Outcomes.LookupAfterServe | api/services/exporters.py:250-288 | After any request a lookup finds the last export it recorded for the pair, and for every other pair the one found before. |
| Effects.PutEffect | api/routers/notices.py:1663-1785 | A finished put-fields records one export, bid form or proposal as its template is, under that template's draft; a failed call records none; the errors it stores, in order, are an empty required value, the agent's failure, and open placeholders. |
| Effects.ComposeEffect | api/routers/notices.py:2689-2821 | An accepted compose records exactly the bid form, if asked for and the agent is done, and then the compliance table, if asked for and built, with consecutive ids. |
| Effects.ComposeErrors | api/routers/notices.py:2689-2821 | It stores one warning per spec row to review, the agent's errors, and an unbuilt compliance table, in this order, behind the earlier errors. |
| Effects.ProposalEffect | api/routers/notices.py:2824-2929 | An accepted proposal records its own kind and draft exactly when the agent is done, and stores the warnings and the agent's errors. |
| Effects.RecordedIsFound | api/routers/notices.py:2959-2978 | Whatever any request records, a lookup of that kind under the draft a download asks for finds it right afterwards. |
| Effects.AnalyzeEffect | api/services/document_automation.py:286-423 | A document analysis, item by item: six base items are always required, the record, bond and licence items exactly when the text asks for them, unless the last suggestion that says so decides; a required item is needed, a filled bid form generated, any other not applicable; a person's edit keeps status, owner and note; a mapped file makes a waiting item ready; the source tokens say which of these happened. Uploads and exports stay, an LLM failure is reported behind the earlier errors. |
| Effects.UploadEffect | api/services/uploads.py:303-331 | An accepted upload or import is appended as it came, with the next id; the mapped item, when needed or blocked, is ready and carries the upload token once, with everything else about it unchanged; every other item, and the rest of the notice, is unchanged. |
| Effects.DeleteEffect | api/services/uploads.py:378-393 | Deleting takes out the upload with the id and nothing else, keeping the order. |
| Effects.TableHoldsLast | api/routers/notices.py:2319-2323 | The table by name holds the last fetched upload of every name that has one. |
| Effects.FetchEffect | api/routers/notices.py:2362-2460 | A fetch keeps every upload but those found under the name of an attachment that was not in good order, and appends, in order, one upload for each of these that was downloaded, as it came. |
| Effects.FetchErrors | api/routers/notices.py:2349-2500 | Its errors in order: failed downloads and extraction errors file by file, one note when files wait for an agent that was asked and is away, one when there was no file to fetch. |
| Effects.PatchEffect | api/services/document_automation.py:102-130 | A patch changes the first item with the id, in status, owner, note and mark only, and no other item. |
| Effects.AutofillEffect | api/services/document_automation.py:220-253 | Autofill succeeds exactly from a processing status between collected and form_filled with a working agent; then the bid form item is generated and marked, and no other item changes. |
| Effects.RefreshEffect | api/services/document_automation.py:595-604 | After analyze, fetch, patch, validate and autofill the missing list is exactly the required items outside ready and generated, in the order of the checklist, and ready says it is empty. |
| Effects.NotifyEffect | api/services/status.py:20-25 | Notify succeeds exactly in a processing status behind collected; 70 and more is notified, 40 to 69 digest_queued, less archived_low. |
| Effects.ServeReaches | api/services/status.py:44-56 | From a processing status every other successful request goes exactly as far as its own goal, or stays where it is further. |
| Effects.ServeKeepsScore | api/routers/notices.py:876-1061 | Only analysis and grading write the fit score; only analysis clears and only autofill sets the form flag. |
| Effects.RefusalChangesNothing | api/routers/notices.py:2620-2929 | A refused request records nothing and changes nothing, except that the gate before composing leaves its errors. |
| Effects.RefusalCodes | api/routers/notices.py:2527-2686 | With which code each request is refused. |
| Status.AdvanceVersusTransition | api/services/status.py:28-56 | advance_status moves exactly where can_transition allows, except for one family: from `collected` it may move past `analyzed`. |
| Status.AdvanceGoesForward | api/services/status.py:44-56 | Advancing never lowers the rank, leaves final statuses alone, and doing it twice is doing it once. |
| Status.AdvancesCommute | api/services/status.py:44-56 | Two advances between processing statuses give the same status in either order. |
| Status.AllowedMoves | api/services/status.py:28-41 | can_transition allows a step forward along the pipeline, from its first status only to the second; a final status from any but the first; from the blank status the first; and nothing else. |
| DocumentAutomation.AppendSourceTokens | api/services/document_automation.py:607-611 | Appending a token keeps the old tokens in order and adds the new one once, at the end; appending again changes nothing. |
| DocumentAutomation.MergedIds | api/services/document_automation.py:350-399 | Merging suggestions keeps ids distinct; the ids are those of the base list and those suggested, no others. |
| DocumentAutomation.RuleChecklist | api/services/document_automation.py:288-325 | The rules give the nine base items, in order, with distinct ids. |
| DocumentAutomation.ValidateChecklist | api/services/document_automation.py:256-257 | Lists exactly the required items that are neither ready nor generated. |
| DocumentAutomation.IncrementalIsBatch | api/services/uploads.py:303-331 | Over all checklists, merging uploads one at a time gives the batch pass if and only if no item that gets promoted has an empty source. |
| DocumentAutomation.AnalyzedIsSourced | api/services/document_automation.py:18-73 | An analysis leaves no item without a source, whatever the LLM suggests and whatever was there before. |
| DocumentAutomation.UploadOrderIsIrrelevant | api/services/uploads.py:303-331 | Any order of the same uploads gives the same item statuses and source strings. |
| Services.MergeChecklist | api/services/document_automation.py:350-399 | The merge loop computes the merge that MergedIds and AnalyzeKeepsManual speak about. |
| Services.PreserveManualUpdates | api/services/document_automation.py:402-423 | The loop over new items restores status, owner and note of the manual ones, and nothing else. |
| Services.ApplyUploadsToChecklist | api/services/document_automation.py:76-99 | The batch promotion: an item changes exactly when some upload maps to it and it waits for a file. |
| Services.AnalyzeDocumentRequirements | api/services/document_automation.py:18-73 | All passes together: rules, suggestions, manual edits, uploads, readiness; uploads and exports are carried over. |
| Services.UpdateChecklistItem | api/services/document_automation.py:102-130 | Patches the item with the id and refreshes readiness, or fails when there is none. |
| Services.AttachBidFormResult | api/services/document_automation.py:220-253 | Marks the bid form generated, leaves the other items, refreshes readiness. |
| Services.MergeIntoDocumentAutomation | api/services/uploads.py:303-331 | Appends the upload and promotes the first item with its id, if it waits for a file. |
| Services.RemoveFromDocumentAutomation | api/services/uploads.py:378-393 | Drops the first upload with the id and says whether there was one; nothing else moves. |
| Services.MergeExportIntoDocumentAutomation | api/services/exporters.py:250-268 | Replaces the mirror record of the same kind and draft; all other records stay in order. |
| Services.ValidatePreCompose | api/services/document_automation.py:139-217 | The two loops give the errors of the gate that ComposeGate, ExportGate and ProposalGate decide on. |
| Services.FetchFiles | api/routers/notices.py:2362-2460 | The attachment loop computes the run that FetchReport, FetchUploads and FetchAgain speak about. |
| Attachments.FetchReport | api/routers/notices.py:2362-2524 | For any files, prior uploads and failures: one row per file in order, none left pending; skipped + success + failed is the number of files; fetched is skipped + success; completed if and only if there was a file and each was healthy or came through intact; errors of the two owned stages are replaced, all others kept. |
| Attachments.FetchUploads | api/routers/notices.py:2362-2524 | For any attachments: ids stay distinct, every upload that is not one of the requested files is where it was, in order, and where there was at most one fetched upload per name there still is if and only if no name was stored twice. |
| Attachments.LoopUploads | api/routers/notices.py:2362-2524 | What the loop leaves, for any attachments: the earlier uploads in order without the replaced ones, then one new upload per attachment that was neither healthy nor failed. |
| Attachments.EqualNamesAccumulate | api/routers/notices.py:2362-2524 | The case that fails: two new attachments of one name leave two fetched uploads. |
| Attachments.FetchAgain | api/routers/notices.py:2362-2524 | Fetching again after a clean run, with the files still on disk, skips every file if and only if the first run stored no name, at last, without text; then nothing is downloaded, no upload changes and the job completes. A file without text is fetched anew each time. |
| Exports.RecordKeepsAgreement | api/routers/notices.py:1815-1847 | Recording one export in the table and merging it into the mirror keeps both in agreement pair by pair. |
| Exports.RecordAllLeavesOthers | api/routers/notices.py:1815-1847 | Recording exports of one notice leaves the agreement of every other notice intact. |
| Exports.LookupsAgree | api/services/exporters.py:271-288 | Where table and mirror agree, taking the newest live row and taking the first mirror record name the same export. |
| NoticeStore.Store.DownloadExport | api/routers/notices.py:2959-2978 | Asking the table first and the mirror second finds what either would have found alone; 409 exactly without documents; 404 exactly for an unknown notice, without an export, or for a record without a path; 410 exactly when the file is gone. |
| NoticeStore.Store.UpsertNotice | api/routers/notices.py:784-818 | Inserts the notice as collected, or leaves the stored one with its status and analysis. New database state equals the step that the run theorems reason about. |
| NoticeStore.Store.CleanupE2E | api/routers/notices.py:821-853 | Removes exactly the E2E notices and their export rows and counts the notices, when enabled; else 403. New database state equals the step that the run theorems reason about. |
| NoticeStore.Store.AnalyzeNotice | api/routers/notices.py:876-919 | Replaces the analysis, in `collected` only. New database state and answer equal the step that the run theorems reason about. |
| NoticeStore.Store.AnalyzeDocuments | api/routers/notices.py:1064-1112 | Rebuilds the checklist, keeps uploads, exports and earlier errors, advances the status. New database state and answer equal the step that the run theorems reason about. |
| NoticeStore.Store.FetchAttachments | api/routers/notices.py:2286-2524 | Creates documents when there are none, runs the attachment loop, re-analyses, advances the status. New database state and answer equal the step that the run theorems reason about. |
| NoticeStore.Store.ExtractSpecItems | api/routers/notices.py:1115-1191 | Advances the status and leaves documents and exports alone; 500 and no change when a conversion overflows. New database state and answer equal the step that the run theorems reason about. |
| NoticeStore.Store.PatchChecklistItem | api/routers/notices.py:1481-1522 | Stores the manual verdict; 409 without documents, 404 without the item. New database state and answer equal the step that the run theorems reason about. |
| NoticeStore.Store.ValidateDocuments | api/routers/notices.py:1525-1553 | Recomputes readiness and nothing else. New database state and answer equal the step that the run theorems reason about. |
| NoticeStore.Store.UploadDocument | api/routers/notices.py:2527-2573 | Refuses with 404, 409, 415, 413 or 500 in the order of the code, or adds the upload under a new id and promotes its item; readiness is not recomputed. New database state and answer equal the step that the run theorems reason about. |
| NoticeStore.Store.DeleteUpload | api/routers/notices.py:2588-2599 | Removes one upload; the checklist stays. New database state and answer equal the step that the run theorems reason about. |
| NoticeStore.Store.ExportDocument | api/routers/notices.py:2620-2686 | Passes the gate for HWP, records the export in table and mirror, or changes nothing but the stored gate errors. New database state and answer equal the step that the run theorems reason about. |
| NoticeStore.Store.PutHwpFields | api/routers/notices.py:1588-1615 | Records the export and advances the status, or stores the agent's failure. New database state and answer equal the step that the run theorems reason about. |
| NoticeStore.Store.ComposeHwpDocuments | api/routers/notices.py:2689-2821 | The inner write by put-fields is overwritten by the outer write computed from the row read first; both exports end up in table and mirror. New database state and answer equal the step that the run theorems reason about. |
| NoticeStore.Store.ComposeProposal | api/routers/notices.py:2824-2929 | The same double write for the proposal form. New database state and answer equal the step that the run theorems reason about. |
| NoticeStore.Store.AutofillForm | api/routers/notices.py:983-1061 | Moves to form_filled where the transition allows it; a failing agent changes nothing. New database state and answer equal the step that the run theorems reason about. |
| NoticeStore.Store.NotifyNotice | api/routers/notices.py:922-956 | Moves to the final status the fit score selects, from `analyzed` on. New database state and answer equal the step that the run theorems reason about. |
| NoticeStore.Store.GradeNotice | api/routers/notices.py:2981-3004 | Stores the score in five statuses, changes no status. New database state and answer equal the step that the run theorems reason about. |
| NoticeStore.Store.RecordExport | api/routers/notices.py:1815-1847 | Retires the live rows of the same notice, kind and draft and inserts one live row under the next id. |
| NoticeStore.Store.ExecuteHwpPutFields | api/routers/notices.py:1663-1785 | The shared inner step: export row, mirror, errors and status it writes, as compose and put-fields rely on. |
| ComplianceTable.TableRoundTrip | api/services/spec_items.py:106-135 | For any rows and any cell text, parsing the printed table gives the six headers and, in order, the six escaped cells of every printable row; every parsed row has header width. |
| ComplianceTable.TableSays | api/services/spec_items.py:106-135 | The table read back: six headers, and for every candidate, reviewed or matched row, in order, a row with name, requirement, proposal, unit, status and evidence each under its header, as the words of the text with slashes for pipes. |
| ComplianceTable.EscapeIsIdempotent | api/services/spec_items.py:273-274 | Escaping an escaped cell changes nothing, so printing again is stable. |
| ComplianceTable.UnescapedLine | api/services/document_automation.py:426-505 | One line printed without escaping and not split again reads back as its cells if and only if no cell holds a pipe or outer white space. |
| ComplianceTable.UnescapedReadsBack | api/services/exporters.py:57-83 | A whole table printed without escaping reads back, headers and rows, if and only if no cell holds a pipe, a line break or outer white space. |
| ComplianceTable.UnescapedDraft | api/services/document_automation.py:443-460 | The draft of document analysis reads back if and only if no field value and no product name holds a pipe, a line break or outer white space. |
| ComplianceTable.DraftRowsAre | api/services/document_automation.py:443-460 | The rows of the draft: the eight labels, each with its value or a dash, and the product if there is one. |
| ComplianceTable.LineBreakBreaksDraft | api/services/document_automation.py:443-460 | The case that fails: a product name of two lines, whatever the fields hold. |
| ComplianceTable.BuildTechnicalDraft | api/services/document_automation.py:443-460 | The field loop and the optional product line print the draft of UnescapedDraft. |
| ComplianceTable.RowsToTechnicalComplianceDraft | api/services/spec_items.py:106-135 | The printing loop gives the text that TableRoundTrip parses. |
| ComplianceTable.ParseMarkdownTable | api/services/exporters.py:57-83 | The parsing loop computes the table of TableRoundTrip, for any text. |
| Proposal.RefsAreCitedIds | api/services/proposal_agent.py:133-197 | The references parsed back from a built section are exactly the ids the generator cited in it. |
| Proposal.ClaimWarns | api/services/proposal_agent.py:133-171 | A printed claim holds the warning marker if and only if it cites nothing or its last cited id ends in the marker without its closing bracket. |
| Proposal.SectionCheck | api/services/proposal_agent.py:174-197 | A fresh section is never rejected; it passes exactly when every requirement is cited and no last id fakes the marker, else it warns. |
| Proposal.SectionRejected | api/services/proposal_agent.py:174-197 | A generated section is rejected exactly when one of its requirements cites an evidence that is not known. |
| Proposal.CitesAreFirst | api/services/proposal_agent.py:133-171 | A requirement cites its first two evidences, or as many as it has. |
| Proposal.BuildSection | api/services/proposal_agent.py:133-171 | The claim loop prints the content the citation theorems parse. |
| Proposal.VerifySections | api/services/proposal_agent.py:174-197 | The loop gives each section the status SectionCheck speaks about. |
| Coverage.VerifyAfterGenerate | api/routers/proposals.py:223-282 | For all evidence ids without comma, closing bracket and white space, verify right after generate never rejects. It passes exactly when there are requirements, no coverage item is missing and no last cited id fakes the marker. |
| Coverage.VerifyMinted | api/routers/proposals.py:223-282 | With evidence ids as retrieve mints them, verify right after generate never rejects and passes exactly when there are requirements and no coverage item is missing. |
| Coverage.VerifyRejects | api/routers/proposals.py:259-282 | Verified against any evidences, as after a deletion, a generated proposal is rejected exactly when a requirement cites one that is gone. |
| Coverage.IdCanFakeWarning | api/services/proposal_agent.py:174-197 | An id, not one the service mints, for which passing and not missing differ: the requirement has evidence, the check still warns. |
| Coverage.SolidInSection | api/routers/proposals.py:242-247 | Taking three evidences per requirement into a section does not change whether the requirement is solidly cited. |
| Coverage.ScoreRange | api/services/proposal_agent.py:200-229 | For every monotone float rounding, the score lies in 0..100 and is 100 when every item of a non-empty list is covered. |
| Coverage.ScoreFromCounts | api/services/proposal_agent.py:200-229 | The score from the numbers of requirements: mandatory ones weigh two, others one; three evidences earn the weight, one or two earn one. |
| Coverage.ScoreGrows | api/services/proposal_agent.py:200-229 | For every monotone float rounding, one more evidence never lowers the score. |
| Coverage.ScoreIgnoresOrder | api/services/proposal_agent.py:200-229 | Reordering requirements or evidences leaves the score as it is. |
| Coverage.CoverageItems | api/services/proposal_agent.py:200-229 | The loop computes the score, each operation rounded to a float and halves to even, and, per requirement, the status its evidence count gives. |
| Coverage.GenerateSections | api/routers/proposals.py:223-256 | One section per requirement type, in order of first appearance, as VerifyAfterGenerate assumes. |
| Coverage.EvidenceByRequirement | api/routers/proposals.py:235-237 | Grouping keeps, for every requirement, its evidences in order. |
| SpecLoop.ThreeRoundsSettle | api/services/spec_items.py:28-177 | For any starting elec_spec and any rows, also rows whose lock list the first extraction drops, extract and write-back reach a fixed point of rows and elec_spec in three rounds; elec_spec itself is settled after two. |
| SpecLoop.TwoRoundsDoNotSettle | api/services/spec_items.py:195-209 | Three is needed: an empty note with no rows still changes its row in the third round, because delivery text feeds the notes in the second. |
| SpecLoop.TypedIsStable | api/services/spec_items.py:212-217 | Typing a text, printing the value and typing it again gives the same value, for numbers, lists and texts. |
| SpecLoop.JoinedPartsParse | api/services/spec_items.py:170-171 | Clean list items joined by comma and space are split back into the same items. |
| SpecLoop.NoLaterOverflow | api/services/spec_items.py:289-293 | Once no lock is lost any more, a round whose integers convert is followed by a round whose integers convert. |
| SpecLoop.OverflowStops | api/services/spec_items.py:289-293 | With a quantity whose conversion overflows, every number of rounds leaves the state as it is. |
| SpecLoop.SpecItemsToElecSpec | api/services/spec_items.py:151-177 | For any order of the rows the loop gives, key by key, what its own row decides, and fails exactly when an integer conversion overflows. |
| SpecLoop.WriteRows | api/routers/notices.py:1129-1168 | The upsert loop merges each candidate with the row found before the loop and leaves other rows. |
| SpecLoop.RoundRow | api/services/spec_items.py:70-103 | One successful extraction leaves in a field's row the locked text, else what elec_spec says, else delivery text or summaries; reviewed and matched rows keep their lock list; rows of other keys stay. |
| SpecLoop.RoundKey | api/services/spec_items.py:151-177 | A row with text sets its key to the typed text; the delivery text only fills a missing note; any other value stays unless blank. |
| SpecLoop.RoundFails | api/services/spec_items.py:289-293 | A request fails exactly when the text behind the quantity or the phase count overflows, and then changes nothing. |
| SpecLoop.PinnedRowStays | api/services/spec_items.py:70-103 | A reviewed row with a locked text stays as it is over any number of requests. |
| SpecLoop.PinnedRowGoverns | api/services/spec_items.py:151-177 | From the first success on its key in elec_spec is its typed text, over any number of requests. |
| SpecLoop.TypedByKey | api/services/spec_items.py:158-176 | Counts are typed as integers, ratings as floats, standards as their non-blank parts, all else as text; a number that does not convert is no value. |
| SpecLoop.SpecStore.ExtractSpecItems | api/routers/notices.py:1115-1191 | One request is one round; on an overflow rows and elec_spec stay as they were. |
| QualCache.GetAnswersHistory | api/services/qual_cache.py:36-99 | Under every interleaving and a non-decreasing clock (a sweep's own time may lag), a read answers exactly the last error-free store of the key since the last clear, if its TTL has not passed, else nothing. |
| QualCache.SweepIsInvisible | api/services/qual_cache.py:86-99 | Leaving a sweep out of any history changes no later answer of the cache. |
| QualCache.LiveCallOnlyWhenUnknown | api/services/grading_runner.py:73-94 | The client goes live if and only if both ids are given and the history holds no unexpired answer. |
| QualCache.Cache.Get | api/services/qual_cache.py:36-53 | Answers an unexpired entry and drops an expired one. |
| QualCache.Cache.Set | api/services/qual_cache.py:56-71 | Stores with the TTL, unless disabled or an error answer. |
| QualCache.Cache.Clear | api/services/qual_cache.py:74-77 | Empties the cache. |
| QualCache.Cache.CleanupExpired | api/services/qual_cache.py:86-99 | Removes exactly the expired entries and returns how many they were. |
| QualCache.Cache.FetchQualSafe | api/services/grading_runner.py:73-94 | Returns the cached answer without a call, else the live one, stored unless it carries an error; a failing call changes nothing more. |
| Search.WindowsTile | api/collector/g2b_client.py:25-32 | The windows cover every day of the range once and no other day, in order, each within the maximal length. |
| Search.PagingComplete | api/collector/g2b_client.py:249-266 | The page loop drains a list if and only if no usable row follows an unusable row of an earlier page. |
| Search.PagingCanStopShort | api/collector/g2b_client.py:249-266 | A concrete list on which it does not: one unusable row in a full page hides the next page. |
| Search.DedupedIsFirstSeen | api/collector/g2b_client.py:35-48 | Deduplication keeps each (bid_no, bid_seq) once, as its first copy, in the order of first copies. |
| Search.SearchIsComplete | api/collector/g2b_client.py:212-247 | If copies of a notice carry the same raw record and the lists can be drained, the search returns a key if and only if it is listed for some query in the range and, for a keyword of several words, some field of its record holds each word, upper and lower case and blanks aside; it returns it once, as its first fetched copy, in the order of first copies. |
| Search.FoundIsListed | api/collector/g2b_client.py:145-151 | Every found notice is listed in the range, and holds every word of a keyword of several words. |
| Search.QueriesListed | api/collector/g2b_client.py:93-134 | The queries are exactly the keyword, its variants with a blank behind the second, third or fourth of 4 to 12 characters, and, of several tokens of two characters or more, the first longest. |
| Search.UsableServerIsDrainable | api/collector/g2b_client.py:249-266 | A server whose rows all parse meets the paging condition. |
| Search.QueriesAreDistinct | api/collector/g2b_client.py:93-134 | The queries are distinct, start with the stripped keyword, and are none exactly for a blank keyword. |
| Search.IterWindows | api/collector/g2b_client.py:25-32 | The loop gives the windows of WindowsTile. |
| Search.FetchAll | api/collector/g2b_client.py:249-266 | The page loop terminates and returns the usable rows of the pages it reads. |
| Search.DedupeByBidKey | api/collector/g2b_client.py:35-48 | The loop with its seen set gives the list of DedupedIsFirstSeen. |
| Search.SearchSingle | api/collector/g2b_client.py:212-247 | Windows, queries and endpoints in the code's order, then dedup, then the token filter. |
| Seed.DryRunPredicts | api/ontology/seed.py:251-369 | From any consistent database the dry run reports what the real run would report, and writes nothing. |
| Seed.SecondRunIsQuiet | api/ontology/seed.py:251-369 | After a real run, a second run leaves every table unchanged, and reports all zeros if and only if every bound role is a seeded concept. |
| Seed.RunCompletes | api/ontology/seed.py:251-369 | A real run stores the whole vocabulary, keeps unique ids and references, keeps ids and kinds of existing concepts, and leaves every other row alone. |
| Seed.ReportCounts | api/ontology/seed.py:251-369 | The report of a real run counts the concepts added, the rows rewritten, the aliases added, and the bindings added plus those of unknown roles; every added concept, alias and binding comes from the vocabulary, with its kind and texts. |
| Seed.CompleteIsQuiet | api/ontology/seed.py:251-369 | On tables that already hold the vocabulary a run, dry or real, writes nothing. |
| Seed.Ontology.SeedOntology | api/ontology/seed.py:251-369 | The three phases compute the run the theorems speak about, tables and report. |
| Seed.SeedConcepts | api/ontology/seed.py:270-317 | The first loop: every concept is found, inserted or rewritten. |
| Seed.SeedAliases | api/ontology/seed.py:319-345 | The second loop: unknown aliases are added; a concept without an id only counts. |
| Seed.SeedBindings | api/ontology/seed.py:347-368 | The third loop: unknown bindings are added; an unknown role only counts. |
| RequiredDocs.NormalizedIsBest | api/services/required_documents.py:150-199 | One row per (doc_name, stage): the earliest of those with the greatest rounded confidence; no key lost; sorted by stage, then falling confidence, then first mention. |
| RequiredDocs.RowIsStorable | api/services/required_documents.py:150-182 | An element yields a row exactly when it names a document and its conversions do not raise; the row has a known kind and stage, a name of 1 to 200 characters and a confidence in 0..1. |
| RequiredDocs.RowFields | api/services/required_documents.py:150-182 | The row has the first 200 characters of the stripped name, its type and stage, and the confidence to the nearest thousandth. |
| RequiredDocs.KindAndStage | api/services/required_documents.py:156-162 | A known type or stage is kept; an unknown type is required; an unknown stage is conditional for a conditional document, else bid. |
| RequiredDocs.ConfidenceHeld | api/services/required_documents.py:163-167 | The confidence is held in 0..1, a NaN counts as 1, an unreadable one as one half. |
| RequiredDocs.SortedInOrder | api/services/required_documents.py:193-199 | The sort is a stable permutation. |
| RequiredDocs.StagesInOrder | api/services/required_documents.py:193-199 | The rows come in the order bid, proposal, price, conditional, post_award, contract, delivery, the more confident first. |
| RequiredDocs.StoreRowsEffect | api/routers/notices.py:1371-1414 | An answer updates or adds exactly its own rows; ids, keys, checked, owner, note and all other rows stay; new rows start unchecked. |
| RequiredDocs.AnalyzeAgain | api/routers/notices.py:1371-1414 | The same answer again changes nothing. |
| RequiredDocs.PeoplesColumnsStay | api/routers/notices.py:1351-1478 | On every run of analyses and patches the table has one row per key, and a row nobody patched keeps id, key, checked, owner and note. |
| RequiredDocs.Normalize | api/services/required_documents.py:150-199 | The merge loop and sort give the rows of NormalizedIsBest, with a NaN confidence read as 1; the loop raises exactly when a named element has an infinite page number or an integer confidence too large for a float. |
| RequiredDocs.InfinitePageRaises | api/services/required_documents.py:169-173 | One named element with an infinite page number makes the whole answer raise. |
| RequiredDocs.DocumentTable.AnalyzeRequiredDocuments | api/routers/notices.py:1351-1422 | The upsert loop is the step of the run theorems, and returns the number of added rows; when the answer raises, nothing is stored. |
| HwpFormat.IntegerFormat | api/services/hwp_fields.py:173-183 | An integer-valued text formats exactly when the integer has at most 4300 digits; the output without commas is then its canonical numeral, the first group has one to three digits and every other exactly three. |
| HwpFormat.FractionFormat | api/services/hwp_fields.py:173-183 | A fraction prints as the nearest number of hundredths, a tie as the even one: sign, grouped whole part, then the decimals without trailing zeros. |
| HwpFormat.FormatRaises | api/services/hwp_fields.py:173-183 | The format raises if and only if the text, without outer white space, commas, underscores, case and sign, reads as an infinity, a signalling NaN, or an integer whose significant digits and exponent make more than 4300 digits. |
| HwpFormat.InfinityRaises | api/services/hwp_fields.py:173-183 | It raises on an infinity. |
| HwpFormat.SignallingRaises | api/services/hwp_fields.py:173-183 | It raises on a signalling NaN. |
| HwpFormat.LongIntegerRaises | api/services/hwp_fields.py:181-182 | It raises on `1e4300`, an integer of 4301 digits. |
| HwpFormat.NumberFormatIsIdempotent | api/services/hwp_fields.py:173-183 | On every text that formats, formatting again changes nothing, if and only if the text is not a fraction that rounds to a negative zero or to a whole number of more than 4300 digits. |
| HwpFormat.SmallNegativeIsUnstable | api/services/hwp_fields.py:181-183 | `-0.001` formats to `-0`, and that to `0`. |
| HwpFormat.CanonicalParses | api/services/hwp_fields.py:173-183 | Reading a canonical numeral as a decimal gives the integer back, exactly up to the digits the decimal type can hold. |
| HwpFormat.DateFormatIsIdempotent | api/services/hwp_fields.py:158-170 | The date format is idempotent on all texts. |
| HwpFormat.DateFormat | api/services/hwp_fields.py:158-170 | A text prints as year, month and day with dashes exactly when its part before the first T or blank is eight digits, separators aside; else as it is, stripped. |
| HwpFormat.BusinessNumberFormat | api/services/hwp_fields.py:186-190 | On all texts the business-number format keeps the digit sequence and is idempotent. |
| HwpFormat.BusinessNumberPrints | api/services/hwp_fields.py:186-190 | Exactly ten digits print as three, two and five with dashes; any other text as it is, stripped. |

## Left out

- LLM, G2B, Qdrant, Slack, Teams and HWP-agent calls, retries and timeouts: inputs or outcomes of a step.
- Disk, hashing, MIME types, Excel styling, file responses: effects without logic to prove.
- SQL dialects, migrations, search filters and sorting of listings: delegated to the database.
- Concurrent requests on one notice: the code takes no row lock; requests are atomic steps. Only the cache operations interleave.
- Checklist names, types, reasons and due hints, drafts, risks and HWP jobs: carried along by the code, no invariant depends on them.
- Error texts are abstracted to a stage and a blocking flag.
- Upload ids come from a counter per notice instead of uuid4; an LLM item id that spells a base id is that base id.
- Grading scores, price and routing tables, keyword detection, category mapping: straight-line tables with easy bounds only.
- Text extraction of candidate segments, `resolve_hwp_fields` and `build_hwp_context`: a dictionary lookup per field, only easy members.
- Patching a spec row or reviewing an HWP job: neither touches the state of the notice machine; the specification loop is about runs without edits in between.
- Storing proposal sections and evidences: the sections are the generated texts in order; verify after a later retrieve is excluded, because evidence ids are issued anew.
- The frontend, configuration, authentication, ontology read API, SKU ingest and mail extraction: thin plumbing.
- SpecLoop.ThreeRoundsSettle: number parsing is any codec whose output parses to itself, as Python's float and int printing does; evidence, confidence and source columns of the rows are not part of this model.
- RequiredDocs.Normalize: the string clean-up of the remaining columns is an input.
- Workflow state: the drafted bid-form values are an input of the gate, not part of the stored notice; whether a spec conversion overflows is an input of the extract request there and decided in `SpecLoop`.
- Search.SearchIsComplete: requires that copies of one notice carry the same raw record, as the token filter reads only the first copy; lower-casing is that of ASCII letters; the five concurrent calls of a window are taken in list order, as gather returns them.
- HwpFormat.IntegerFormat: reads ASCII digits only, while the decimal type reads every Unicode digit; the limits are those of a 64-bit build with the default digit limit of int.
- ComplianceTable.ParseMarkdownTable: empty pieces between line breaks are kept until the blank-line filter, which the code's splitlines partly skips earlier.
- Seed.DryRunPredicts: requires distinct keys, distinct aliases per concept and distinct bindings in the vocabulary, as in the shipped tables.
