/** The whole database under any sequence of requests. */
module Runs {
  import opened Text
  import opened Status
  import opened NoticeModel
  import opened DocumentAutomation
  import opened Exports
  import opened Attachments
  import opened Workflow
  import opened Invariants

  datatype State = State(notices: map<string, Notice>, rows: seq<ExportRow>, nextExport: nat)

  const EMPTY := State(map[], [], 1)

  datatype Call =
    | Upsert(no: string)
    | Cleanup(enabled: bool)
    | On(no: string, request: Request)

  predicate IsE2E(no: string) { "E2E-" <= no }

  function Dropped(rows: seq<ExportRow>): seq<ExportRow> {
    if rows == [] then []
    else if IsE2E(rows[|rows| - 1].noticeNo) then Dropped(rows[..|rows| - 1])
    else Dropped(rows[..|rows| - 1]) + [rows[|rows| - 1]]
  }

  function Step(s: State, c: Call): State {
    match c
    case Upsert(no) => if no in s.notices then s else s.(notices := s.notices[no := NEW_NOTICE])
    case Cleanup(enabled) =>
      if !enabled then s
      else s.(notices := map no | no in s.notices && !IsE2E(no) :: s.notices[no], rows := Dropped(s.rows))
    case On(no, request) =>
      if no !in s.notices then s
      else
        var eff := Serve(s.notices[no], request, s.nextExport);
        State(s.notices[no := eff.notice], RecordedAll(s.rows, no, eff.records), s.nextExport + |eff.records|)
  }

  function Run(s: State, calls: seq<Call>): State {
    if calls == [] then s else Step(Run(s, calls[..|calls| - 1]), calls[|calls| - 1])
  }

  // ---- what holds in every reachable state ----

  ghost predicate AllOk(s: State) { forall no :: no in s.notices ==> NoticeOk(s.notices[no]) }

  function MirrorAt(s: State, no: string): seq<Export> {
    if no in s.notices then Mirror(s.notices[no]) else []
  }

  ghost predicate AllAgree(s: State) { forall no: string :: Agree(s.rows, no, MirrorAt(s, no)) }

  ghost predicate StateOk(s: State) { AllOk(s) && AllAgree(s) }

  lemma StepKeepsOk(s: State, c: Call)
    requires AllOk(s)
    ensures AllOk(Step(s, c))
  {
    if c.On? && c.no in s.notices {
      ServeKeepsOk(s.notices[c.no], c.request, s.nextExport);
    }
  }

  lemma {:induction false} DroppedActive(rows: seq<ExportRow>, no: string, kind: ExportKind, draft: DraftId)
    ensures ActiveOf(Dropped(rows), no, kind, draft) == if IsE2E(no) then [] else ActiveOf(rows, no, kind, draft)
  {
    if rows != [] {
      var front, last := rows[..|rows| - 1], rows[|rows| - 1];
      DroppedActive(front, no, kind, draft);
      if !IsE2E(last.noticeNo) {
        assert (Dropped(front) + [last])[..|Dropped(front)|] == Dropped(front);
      }
    }
  }

  lemma CleanupKeepsAgreement(s: State, no: string)
    requires Agree(s.rows, no, MirrorAt(s, no))
    ensures Agree(Step(s, Cleanup(true)).rows, no, MirrorAt(Step(s, Cleanup(true)), no))
  {
    var t := Step(s, Cleanup(true));
    forall kind, draft
      ensures ActiveOf(t.rows, no, kind, draft) == MirrorOf(MirrorAt(t, no), kind, draft)
      ensures |MirrorOf(MirrorAt(t, no), kind, draft)| <= 1
    {
      DroppedActive(s.rows, no, kind, draft);
      assert ActiveOf(s.rows, no, kind, draft) == MirrorOf(MirrorAt(s, no), kind, draft)
          && |MirrorOf(MirrorAt(s, no), kind, draft)| <= 1;
    }
  }

  lemma StepKeepsAgreement(s: State, c: Call)
    requires AllOk(s) && AllAgree(s)
    ensures AllAgree(Step(s, c))
  {
    forall no: string
      ensures Agree(Step(s, c).rows, no, MirrorAt(Step(s, c), no))
    {
      assert Agree(s.rows, no, MirrorAt(s, no));
      match c
      case Upsert(_) => assert MirrorAt(Step(s, c), no) == MirrorAt(s, no);
      case Cleanup(enabled) => if enabled { CleanupKeepsAgreement(s, no); }
      case On(served, request) =>
        if served in s.notices {
          var n := s.notices[served];
          var records := Serve(n, request, s.nextExport).records;
          if no == served {
            ServeMirrorsTable(n, request, s.nextExport);
            RecordAllKeepsAgreement(s.rows, no, Mirror(n), records);
          } else {
            RecordAllLeavesOthers(s.rows, served, records, no, MirrorAt(s, no));
          }
        }
    }
  }

  lemma {:induction false} ReachableIsOk(calls: seq<Call>)
    ensures AllOk(Run(EMPTY, calls)) && AllAgree(Run(EMPTY, calls))
  {
    if calls == [] {
      forall no: string
        ensures Agree(EMPTY.rows, no, MirrorAt(EMPTY, no))
      {
      }
    } else {
      ReachableIsOk(calls[..|calls| - 1]);
      StepKeepsOk(Run(EMPTY, calls[..|calls| - 1]), calls[|calls| - 1]);
      StepKeepsAgreement(Run(EMPTY, calls[..|calls| - 1]), calls[|calls| - 1]);
    }
  }

  /** After any run the table lookup and the mirror lookup name the same export of a notice,
      and no pair has two live rows. */
  lemma ExportsAgreeOnEveryRun(calls: seq<Call>, no: string, kind: ExportKind, draft: DraftId)
    ensures
      var s := Run(EMPTY, calls);
      && LookupActive(s.rows, no, kind, draft) == LookupExport(MirrorAt(s, no), kind, draft)
      && |ActiveOf(s.rows, no, kind, draft)| <= 1
  {
    ReachableIsOk(calls);
    var s := Run(EMPTY, calls);
    assert Agree(s.rows, no, MirrorAt(s, no));
    LookupsAgree(s.rows, no, MirrorAt(s, no), kind, draft);
  }

  /** After any run a notice still in `collected` has no documents, so the analysis request,
      which is served in that status only, has nothing to discard. */
  lemma {:induction false} CollectedHasNoDocuments(calls: seq<Call>, no: string, fitScore: int)
    requires no in Run(EMPTY, calls).notices
    ensures
      var n := Run(EMPTY, calls).notices[no];
      && (n.status == Collected ==> n.docs == None)
      && (AnalyzeNotice(n, fitScore).code == Ok ==> n.docs == None)
  {
    ReachableIsOk(calls);
    AnalyzeDiscardsNothing(Run(EMPTY, calls).notices[no], fitScore);
  }

  /** After any run a notice shown as ready has no required item outside ready and generated,
      and every missing item is on the stored list. */
  lemma {:induction false} ReadinessIsSound(calls: seq<Call>, no: string)
    requires no in Run(EMPTY, calls).notices && Run(EMPTY, calls).notices[no].docs.Some?
    ensures
      var docs := Run(EMPTY, calls).notices[no].docs.value;
      && DistinctIds(docs.checklist)
      && (docs.ready ==> ValidateChecklist(docs.checklist) == [])
      && (forall i :: i in docs.checklist && IsMissing(i) ==> Has(docs.missing, i.id))
  {
    ReachableIsOk(calls);
    var docs := Run(EMPTY, calls).notices[no].docs.value;
    if docs.ready { ReadyMeansComplete(docs); }
    forall i | i in docs.checklist && IsMissing(i)
      ensures Has(docs.missing, i.id)
    {
      var k :| 0 <= k < |docs.checklist| && docs.checklist[k] == i;
    }
  }

  // ---- status along a run ----

  /** The notice is not one a cleanup in these calls removes. */
  predicate Stays(calls: seq<Call>, no: string) {
    !IsE2E(no) || forall i :: 0 <= i < |calls| ==> !(calls[i].Cleanup? && calls[i].enabled)
  }

  /** From any state, a run never lowers the status of a notice it does not remove, and leaves a final status as it
      is. */
  lemma {:induction false} StatusGoesForward(s: State, calls: seq<Call>, no: string)
    requires no in s.notices && Stays(calls, no)
    ensures no in Run(s, calls).notices
    ensures Forward(s.notices[no].status, Run(s, calls).notices[no].status)
  {
    if calls != [] {
      var front, last := calls[..|calls| - 1], calls[|calls| - 1];
      assert calls[|calls| - 1] == last;
      StatusGoesForward(s, front, no);
      var before := Run(s, front);
      if last.On? && last.no == no {
        ServeGoesForward(before.notices[no], last.request, before.nextExport);
        ForwardTransitive(s.notices[no].status, before.notices[no].status, Run(s, calls).notices[no].status);
      }
    }
  }

  // ---- manual verdicts along a run ----

  /** No call rewrites the verdict, and every re-analysis brings the item back. */
  predicate LeavesVerdict(calls: seq<Call>, no: string, id: ItemId) {
    forall i :: 0 <= i < |calls| && calls[i].On? && calls[i].no == no ==>
      !Rewrites(calls[i].request, id) && BringsBack(calls[i].request, id)
  }

  function VerdictAt(s: State, no: string, id: ItemId): Option<Item> {
    if no in s.notices then VerdictOf(s.notices[no], id) else None
  }

  /** A manual verdict survives every run without another patch of it (or an autofill, for the bid form), on a base
      item always, on an item of the LLM when every re-analysis suggests it again: same owner and note, and the same
      status, unless it was waiting for a file and an upload made it ready. */
  lemma {:induction false} ManualVerdictSticks(s: State, calls: seq<Call>, no: string, id: ItemId)
    requires AllOk(s) && Stays(calls, no) && LeavesVerdict(calls, no, id)
    requires VerdictAt(s, no, id).Some? && IsManual(VerdictAt(s, no, id).value)
    ensures AllOk(Run(s, calls))
    ensures VerdictAt(Run(s, calls), no, id).Some?
    ensures Kept(VerdictAt(s, no, id).value, VerdictAt(Run(s, calls), no, id).value)
  {
    if calls != [] {
      var front, last := calls[..|calls| - 1], calls[|calls| - 1];
      ManualVerdictSticks(s, front, no, id);
      var before := Run(s, front);
      StepKeepsOk(before, last);
      if last.On? && last.no == no {
        ServeKeepsVerdict(before.notices[no], last.request, before.nextExport, id);
      }
    }
  }

  /** In particular a human "not applicable" is final until a human changes it. */
  lemma {:induction false} NotApplicableSticks(s: State, calls: seq<Call>, no: string, id: ItemId)
    requires AllOk(s) && Stays(calls, no) && LeavesVerdict(calls, no, id)
    requires VerdictAt(s, no, id).Some? && IsManual(VerdictAt(s, no, id).value)
    requires VerdictAt(s, no, id).value.status.NotApplicable?
    ensures VerdictAt(Run(s, calls), no, id).Some? && VerdictAt(Run(s, calls), no, id).value.status.NotApplicable?
  {
    ManualVerdictSticks(s, calls, no, id);
  }

  /** Analyze with the item suggested, patch it, analyze without it. */
  function ForgetfulCalls(no: string, id: ItemId, facts: RuleFacts, with: Suggestion, without: Suggestion,
                          status: Option<ItemStatus>, owner: Option<string>, note: Option<string>): seq<Call> {
    [On(no, ReqAnalyzeDocuments(facts, with)), On(no, ReqPatch(id, status, owner, note)),
     On(no, ReqAnalyzeDocuments(facts, without))]
  }

  lemma RunSnoc(s: State, front: seq<Call>, c: Call)
    ensures Run(s, front + [c]) == Step(Run(s, front), c)
  {
    assert (front + [c])[..|front|] == front;
  }

  lemma RunThree(s: State, calls: seq<Call>)
    requires |calls| == 3
    ensures Run(s, calls[..2]) == Step(Step(s, calls[0]), calls[1])
    ensures Run(s, calls) == Step(Run(s, calls[..2]), calls[2])
  {
    RunSnoc(s, [], calls[0]);
    RunSnoc(s, [calls[0]], calls[1]);
    RunSnoc(s, calls[..2], calls[2]);
    assert [] + [calls[0]] == [calls[0]] && [calls[0]] + [calls[1]] == calls[..2] && calls[..2] + [calls[2]] == calls;
  }

  lemma AnalyzeStep(s: State, no: string, facts: RuleFacts, llm: Suggestion)
    requires no in s.notices
    ensures
      var t := Step(s, On(no, ReqAnalyzeDocuments(facts, llm)));
      no in t.notices && t.notices[no] == AnalyzeDocuments(s.notices[no], facts, llm).notice
  {
  }

  lemma PatchStep(s: State, no: string, id: ItemId, status: Option<ItemStatus>, owner: Option<string>,
                  note: Option<string>)
    requires no in s.notices
    ensures
      var t := Step(s, On(no, ReqPatch(id, status, owner, note)));
      no in t.notices && t.notices[no] == PatchChecklist(s.notices[no], id, status, owner, note).notice
  {
  }

  /** From any state in order these three calls make a manual verdict on an item of the LLM and lose it. */
  lemma VerdictIsLost(s: State, no: string, id: ItemId, facts: RuleFacts, with: Suggestion, without: Suggestion,
                      status: Option<ItemStatus>, owner: Option<string>, note: Option<string>)
    requires AllOk(s) && no in s.notices && DocumentsAnalyzable(s.notices[no].status)
    requires id.Extra? && Suggests(with.items, id) && !Suggests(without.items, id)
    ensures
      var calls := ForgetfulCalls(no, id, facts, with, without, status, owner, note);
      var made := VerdictAt(Run(s, calls[..2]), no, id);
      made.Some? && IsManual(made.value) && VerdictAt(Run(s, calls), no, id) == None
  {
    var calls := ForgetfulCalls(no, id, facts, with, without, status, owner, note);
    var s1 := Step(s, calls[0]);
    var s2 := Step(s1, calls[1]);
    RunThree(s, calls);
    AnalyzeStep(s, no, facts, with);
    PatchStep(s1, no, id, status, owner, note);
    AnalyzeStep(s2, no, facts, without);
    PatchAfterAnalysis(s.notices[no], facts, with, id, status, owner, note);
    UnsuggestedVerdictIsLost(s2.notices[no], facts, without, id);
  }

  // ---- fetched uploads along a run ----

  ghost predicate AllFetchedOnce(s: State) { forall no :: no in s.notices ==> FetchedOnce(s.notices[no]) }

  ghost predicate CallStoresOnce(s: State, c: Call) {
    c.On? && c.no in s.notices ==> StoresOnce(s.notices[c.no], c.request)
  }

  lemma StepFetchedOnce(s: State, c: Call)
    requires AllOk(s) && AllFetchedOnce(s)
    ensures AllFetchedOnce(Step(s, c)) <==> CallStoresOnce(s, c)
  {
    if c.On? && c.no in s.notices {
      ServeKeepsFetchedOnce(s.notices[c.no], c.request, s.nextExport);
      assert AllFetchedOnce(Step(s, c)) ==> FetchedOnce(Step(s, c).notices[c.no]);
    }
  }

  lemma PrefixStep(calls: seq<Call>, k: nat)
    requires k < |calls|
    ensures Run(EMPTY, calls[..k + 1]) == Step(Run(EMPTY, calls[..k]), calls[k])
  {
    assert calls[..k + 1][..k] == calls[..k];
  }

  ghost predicate OnceUpTo(calls: seq<Call>, n: nat)
    requires n <= |calls|
  {
    forall k :: 0 <= k <= n ==> AllFetchedOnce(Run(EMPTY, calls[..k]))
  }

  ghost predicate StoresUpTo(calls: seq<Call>, n: nat)
    requires n <= |calls|
  {
    forall k :: 0 <= k < n ==> CallStoresOnce(Run(EMPTY, calls[..k]), calls[k])
  }

  lemma OnceNext(calls: seq<Call>, n: nat)
    requires 0 < n <= |calls|
    ensures OnceUpTo(calls, n) <==> OnceUpTo(calls, n - 1) && AllFetchedOnce(Run(EMPTY, calls[..n]))
    ensures StoresUpTo(calls, n) <==>
      StoresUpTo(calls, n - 1) && CallStoresOnce(Run(EMPTY, calls[..n - 1]), calls[n - 1])
  {
  }

  /** All along a run every notice holds at most one fetched upload per file name, exactly when no fetch of the run
      stores a name twice. */
  lemma {:induction false} FetchedOnceOnEveryRun(calls: seq<Call>, n: nat)
    requires n <= |calls|
    ensures OnceUpTo(calls, n) <==> StoresUpTo(calls, n)
  {
    if n == 0 {
      assert calls[..0] == [];
    } else {
      FetchedOnceOnEveryRun(calls, n - 1);
      OnceNext(calls, n);
      PrefixStep(calls, n - 1);
      ReachableIsOk(calls[..n - 1]);
      if OnceUpTo(calls, n - 1) {
        assert AllFetchedOnce(Run(EMPTY, calls[..n - 1]));
        StepFetchedOnce(Run(EMPTY, calls[..n - 1]), calls[n - 1]);
      }
    }
  }

  /** In particular when no fetch request names two attachments alike. */
  lemma DistinctNamesFetchOnce(calls: seq<Call>)
    requires forall k :: 0 <= k < |calls| && calls[k].On? && calls[k].request.ReqFetch? ==>
        DistinctNames(calls[k].request.todo)
    ensures AllFetchedOnce(Run(EMPTY, calls))
  {
    FetchedOnceOnEveryRun(calls, |calls|);
    assert calls[..|calls|] == calls;
  }

  // ---- uploads one by one or all at once ----

  /** In every reachable notice, merging uploads one by one gives the checklist of the batch pass. */
  lemma UploadsMergeAsBatch(calls: seq<Call>, no: string, us: seq<Upload>)
    requires no in Run(EMPTY, calls).notices && Run(EMPTY, calls).notices[no].docs.Some?
    ensures
      var checklist := Run(EMPTY, calls).notices[no].docs.value.checklist;
      FoldUploads(checklist, us) == Applied(checklist, us)
  {
    ReachableIsOk(calls);
    IncrementalIsBatch(Run(EMPTY, calls).notices[no].docs.value.checklist, us);
  }

  /** The request that brings this upload: sent as a file, or taken from the common library. */
  function UploadCall(no: string, u: Upload): Call {
    On(no, ReqUpload(u.name, u.itemId, if u.source == CommonLibrary then Library(true) else Saved, u.extractError,
                     u.hasExcerpt))
  }

  function UploadCalls(no: string, us: seq<Upload>): seq<Call> {
    if us == [] then [] else UploadCalls(no, us[..|us| - 1]) + [UploadCall(no, us[|us| - 1])]
  }

  /** t is s after the uploads us of one notice, numbered from its counter on. */
  ghost predicate AfterUploads(s: State, t: State, no: string, us: seq<Upload>, added: seq<Upload>) {
    && no in s.notices && s.notices[no].docs.Some? && no in t.notices && t.notices[no].docs.Some?
    && |added| == |us| && (forall i :: 0 <= i < |us| ==> added[i] == us[i].(id := s.notices[no].uploadSeq + i))
    && t.notices[no].docs.value.uploads == s.notices[no].docs.value.uploads + added
    && t.notices[no].docs.value.checklist == FoldUploads(s.notices[no].docs.value.checklist, added)
    && t.notices[no].uploadSeq == s.notices[no].uploadSeq + |us|
  }

  lemma UploadStep(s: State, t: State, no: string, us: seq<Upload>, added: seq<Upload>, u: Upload)
    returns (more: seq<Upload>)
    requires AfterUploads(s, t, no, us, added) && u.source != G2bAttachment
    ensures AfterUploads(s, Step(t, UploadCall(no, u)), no, us + [u], more)
  {
    var n := t.notices[no];
    var one := u.(id := n.uploadSeq);
    more := added + [one];
    assert Step(t, UploadCall(no, u)).notices[no]
        == n.(docs := Some(WithUpload(n.docs.value, one)), uploadSeq := n.uploadSeq + 1);
    assert more[..|more| - 1] == added;
    assert s.notices[no].docs.value.uploads + added + [one] == s.notices[no].docs.value.uploads + more;
  }

  lemma {:induction false} UploadRun(s: State, no: string, us: seq<Upload>) returns (added: seq<Upload>)
    requires no in s.notices && s.notices[no].docs.Some?
    requires forall u :: u in us ==> u.source != G2bAttachment
    ensures AfterUploads(s, Run(s, UploadCalls(no, us)), no, us, added)
  {
    if us == [] {
      added := [];
      assert s.notices[no].docs.value.uploads + [] == s.notices[no].docs.value.uploads;
    } else {
      var front, u := us[..|us| - 1], us[|us| - 1];
      var before := UploadRun(s, no, front);
      added := UploadStep(s, Run(s, UploadCalls(no, front)), no, front, before, u);
      RunSnoc(s, UploadCalls(no, front), UploadCall(no, u));
      assert us == front + [u];
    }
  }

  /** Uploading files one request at a time appends them in order, and leaves the checklist that one batch pass over
      all of them would. */
  lemma UploadRunIsBatch(calls: seq<Call>, no: string, us: seq<Upload>) returns (added: seq<Upload>)
    requires no in Run(EMPTY, calls).notices && Run(EMPTY, calls).notices[no].docs.Some?
    requires forall u :: u in us ==> u.source != G2bAttachment
    ensures
      var before := Run(EMPTY, calls).notices[no];
      var t := Run(EMPTY, calls + UploadCalls(no, us));
      && no in t.notices && t.notices[no].docs.Some?
      && |added| == |us| && (forall i :: 0 <= i < |us| ==> added[i] == us[i].(id := before.uploadSeq + i))
      && t.notices[no].docs.value.uploads == before.docs.value.uploads + added
      && t.notices[no].docs.value.checklist == Applied(before.docs.value.checklist, added)
  {
    var s := Run(EMPTY, calls);
    added := UploadRun(s, no, us);
    RunAppend(EMPTY, calls, UploadCalls(no, us));
    UploadsMergeAsBatch(calls, no, added);
  }

  lemma {:induction false} RunAppend(s: State, a: seq<Call>, b: seq<Call>)
    ensures Run(s, a + b) == Run(Run(s, a), b)
  {
    if b == [] {
      assert a + b == a;
    } else {
      var front, last := b[..|b| - 1], b[|b| - 1];
      RunAppend(s, a, front);
      RunSnoc(s, a + front, last);
      assert a + b == (a + front) + [last];
    }
  }
}
