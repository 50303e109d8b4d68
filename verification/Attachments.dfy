/** Fetching the attachments of a notice: skip the healthy ones, replace the broken, record every file. */
module Attachments {
  import opened Text
  import opened NoticeModel
  import opened DocumentAutomation

  /** Outcome of download, save and text extraction. */
  datatype Download =
    | Failed(detail: string)
    | Got(itemId: Option<ItemId>, extractError: Option<string>, hasExcerpt: bool)

  /** A supported attachment of the raw notice; onDisk answers whether the file of an
      earlier upload with this name still exists. */
  datatype Attachment = Attachment(filename: string, isHwp: bool, onDisk: bool, download: Download)

  datatype FileStatus = Pending | Skipped | Success | FailedFile

  datatype FileRow = FileRow(filename: string, status: FileStatus, uploadId: Option<nat>)

  const AGENT_DOWN := "HWP 에이전트 미연결"

  // ---- the uploads list ----

  /** Drops the first upload with this id. */
  function Removed(uploads: seq<Upload>, id: nat): seq<Upload> {
    if uploads == [] then []
    else if uploads[0].id == id then uploads[1..]
    else [uploads[0]] + Removed(uploads[1..], id)
  }

  predicate HasUpload(uploads: seq<Upload>, id: nat) { exists j :: 0 <= j < |uploads| && uploads[j].id == id }

  /** The fetched uploads by name; a later one replaces an earlier one. */
  function FetchedByName(uploads: seq<Upload>): (m: map<string, Upload>)
    ensures forall name :: name in m ==> m[name] in uploads && m[name].name == name && m[name].source.G2bAttachment?
  {
    if uploads == [] then map[]
    else
      var front := FetchedByName(uploads[..|uploads| - 1]);
      var last := uploads[|uploads| - 1];
      if last.source.G2bAttachment? then front[last.name := last] else front
  }

  predicate HasError(error: Option<string>) { error.Some? && error.value != "" }

  predicate Healthy(a: Attachment, known: map<string, Upload>) {
    a.filename in known && a.onDisk && !HasError(known[a.filename].extractError) && known[a.filename].hasExcerpt
  }

  // ---- one run ----

  /** What the loop carries: docs, file rows, fetched uploads, errors, unreachable count, next upload id. */
  datatype Progress = Progress(
    docs: Docs, rows: seq<FileRow>, fetched: seq<Upload>, errors: seq<DocError>, unreachable: nat, uploadSeq: nat)

  function NewUpload(a: Attachment, id: nat): Upload
    requires a.download.Got?
  {
    Upload(id, a.filename, a.download.itemId, G2bAttachment, a.download.extractError, a.download.hasExcerpt)
  }

  /** Counted once at the end instead of being reported per file. */
  predicate Unreachable(a: Attachment, hwpOk: Option<bool>)
    requires a.download.Got?
  {
    hwpOk == Some(false) && a.download.extractError == Some(AGENT_DOWN)
  }

  function FetchOne(p: Progress, a: Attachment, known: map<string, Upload>, hwpOk: Option<bool>): Progress {
    if Healthy(a, known) then
      var u := known[a.filename];
      p.(fetched := p.fetched + [u], rows := p.rows + [FileRow(a.filename, Skipped, Some(u.id))])
    else
      var docs := if a.filename in known then p.docs.(uploads := Removed(p.docs.uploads, known[a.filename].id))
          else p.docs;
      if a.download.Failed? then
        p.(docs := docs,
           rows := p.rows + [FileRow(a.filename, FailedFile, None)],
           errors := p.errors + [DocError(G2bFetch, true, a.download.detail)])
      else
        var u := NewUpload(a, p.uploadSeq);
        Progress(WithUpload(docs, u),
                 p.rows + [FileRow(a.filename, Success, Some(u.id))],
                 p.fetched + [u],
                 if HasError(u.extractError) && !Unreachable(a, hwpOk)
                   then p.errors + [DocError(G2bAnalysis, false, u.extractError.value)] else p.errors,
                 p.unreachable + if HasError(u.extractError) && Unreachable(a, hwpOk) then 1 else 0,
                 p.uploadSeq + 1)
  }

  function FetchAll(p: Progress, todo: seq<Attachment>, known: map<string, Upload>, hwpOk: Option<bool>): Progress {
    if todo == [] then p
    else FetchOne(FetchAll(p, todo[..|todo| - 1], known, hwpOk), todo[|todo| - 1], known, hwpOk)
  }

  predicate NeedsAgent(todo: seq<Attachment>, known: map<string, Upload>) {
    exists i :: 0 <= i < |todo| && todo[i].isHwp && !Healthy(todo[i], known)
  }

  function RunErrors(p: Progress, todo: seq<Attachment>): seq<DocError> {
    p.errors
    + (if p.unreachable > 0 then [DocError(G2bAnalysis, false, AGENT_DOWN)] else [])
    + (if todo == [] then [DocError(G2bFetch, true, "no supported attachment")] else [])
  }

  predicate Owned(stage: Stage) { stage.G2bFetch? || stage.G2bAnalysis? }

  function OfStage(errors: seq<DocError>, owned: bool): seq<DocError> {
    if errors == [] then []
    else if Owned(errors[0].stage) == owned then [errors[0]] + OfStage(errors[1..], owned)
    else OfStage(errors[1..], owned)
  }

  datatype Fetched = Fetched(
    docs: Docs, rows: seq<FileRow>, fetched: seq<Upload>, errors: seq<DocError>, completed: bool, uploadSeq: nat)

  function Start(docs: Docs, uploadSeq: nat): Progress { Progress(docs, [], [], [], 0, uploadSeq) }

  /** The agent is asked once, and only when some HWP file has to be processed. */
  function AgentState(docs: Docs, todo: seq<Attachment>, agentUp: bool): Option<bool> {
    if NeedsAgent(todo, FetchedByName(docs.uploads)) then Some(agentUp) else None
  }

  function FetchLoop(docs: Docs, uploadSeq: nat, todo: seq<Attachment>, agentUp: bool): Progress {
    FetchAll(Start(docs, uploadSeq), todo, FetchedByName(docs.uploads), AgentState(docs, todo, agentUp))
  }

  /** One request: the loop, the error bookkeeping, and the re-analysis with the new texts. */
  function FetchAttachments(
      docs: Docs, uploadSeq: nat, todo: seq<Attachment>, agentUp: bool,
      facts: RuleFacts, bidFormFilled: bool, llm: Suggestion): Fetched {
    var p := FetchLoop(docs, uploadSeq, todo, agentUp);
    var errors := RunErrors(p, todo);
    var again := AnalyzedDocs(facts, bidFormFilled, llm, p.docs);
    Fetched(again.(errors := OfStage(p.docs.errors, false) + errors + again.errors),
            p.rows, p.fetched, errors, errors == [], p.uploadSeq)
  }

  // ---- every file is settled, and the counts add up ----

  function Count(rows: seq<FileRow>, s: FileStatus): nat {
    if rows == [] then 0 else Count(rows[..|rows| - 1], s) + if rows[|rows| - 1].status == s then 1 else 0
  }

  /** The file is healthy already, or comes through with its text intact. */
  predicate Clean(a: Attachment, known: map<string, Upload>) {
    Healthy(a, known) || (a.download.Got? && !HasError(a.download.extractError))
  }

  predicate AllClean(todo: seq<Attachment>, known: map<string, Upload>) {
    forall i :: 0 <= i < |todo| ==> Clean(todo[i], known)
  }

  lemma CountSnoc(rows: seq<FileRow>, r: FileRow, s: FileStatus)
    ensures Count(rows + [r], s) == Count(rows, s) + if r.status == s then 1 else 0
  {
  }

  /** The row of one file: skipped with the id found, failed without one, or stored with a new one. */
  ghost predicate RowFits(row: FileRow, a: Attachment, known: map<string, Upload>) {
    && row.filename == a.filename
    && if a.filename in known && a.onDisk && known[a.filename].hasExcerpt && !HasError(known[a.filename].extractError)
       then row.status == Skipped && row.uploadId == Some(known[a.filename].id)
       else if a.download.Failed? then row.status == FailedFile && row.uploadId == None
       else row.status == Success && row.uploadId.Some?
  }

  /** p is what r looks like after the attachments in done. */
  ghost predicate Settled(p: Progress, r: Progress, done: seq<Attachment>, known: map<string, Upload>) {
    && |r.rows| == |done|
    && (forall i :: 0 <= i < |done| ==> RowFits(r.rows[i], done[i], known))
    && Count(r.rows, Skipped) + Count(r.rows, Success) + Count(r.rows, FailedFile) == |done|
    && |r.fetched| == Count(r.rows, Skipped) + Count(r.rows, Success)
    && r.uploadSeq == p.uploadSeq + Count(r.rows, Success)
    && (r.errors == [] && r.unreachable == 0 <==> AllClean(done, known))
    && OfStage(r.errors, false) == []
    && r.docs.errors == p.docs.errors && r.docs.exports == p.docs.exports
  }

  lemma FetchOneSettles(p: Progress, r: Progress, done: seq<Attachment>, a: Attachment, known: map<string, Upload>,
                        hwpOk: Option<bool>)
    requires Settled(p, r, done, known)
    ensures Settled(p, FetchOne(r, a, known, hwpOk), done + [a], known)
  {
    var after := FetchOne(r, a, known, hwpOk);
    var row := after.rows[|r.rows|];
    assert after.rows == r.rows + [row];
    CountSnoc(r.rows, row, Skipped);
    CountSnoc(r.rows, row, Success);
    CountSnoc(r.rows, row, FailedFile);
    FetchOneErrors(r, done, a, known, hwpOk);
  }

  lemma FetchOneErrors(r: Progress, done: seq<Attachment>, a: Attachment, known: map<string, Upload>,
                       hwpOk: Option<bool>)
    requires (r.errors == [] && r.unreachable == 0 <==> AllClean(done, known)) && OfStage(r.errors, false) == []
    ensures
      var after := FetchOne(r, a, known, hwpOk);
      (after.errors == [] && after.unreachable == 0 <==> AllClean(done + [a], known))
          && OfStage(after.errors, false) == []
  {
    var after := FetchOne(r, a, known, hwpOk);
    AllCleanSnoc(done, a, known);
    if |after.errors| > |r.errors| {
      OfStageAppend(r.errors, [after.errors[|r.errors|]], false);
      assert after.errors == r.errors + [after.errors[|r.errors|]];
    }
  }

  lemma AllCleanSnoc(done: seq<Attachment>, a: Attachment, known: map<string, Upload>)
    ensures AllClean(done + [a], known) <==> AllClean(done, known) && Clean(a, known)
  {
    if AllClean(done + [a], known) {
      assert forall i :: 0 <= i < |done| ==> (done + [a])[i] == done[i];
      assert (done + [a])[|done|] == a;
    }
  }

  lemma {:induction false} FilesSettled(p: Progress, todo: seq<Attachment>, known: map<string, Upload>,
                                        hwpOk: Option<bool>)
    requires p.rows == [] && p.fetched == [] && p.errors == [] && p.unreachable == 0
    ensures Settled(p, FetchAll(p, todo, known, hwpOk), todo, known)
  {
    if todo == [] {
    } else {
      var front, a := todo[..|todo| - 1], todo[|todo| - 1];
      var r := FetchAll(p, front, known, hwpOk);
      FilesSettled(p, front, known, hwpOk);
      FetchOneSettles(p, r, front, a, known, hwpOk);
      assert FetchAll(p, todo, known, hwpOk) == FetchOne(r, a, known, hwpOk);
      assert todo == front + [a];
    }
  }

  lemma {:induction false} OfStageAppend(a: seq<DocError>, b: seq<DocError>, owned: bool)
    ensures OfStage(a + b, owned) == OfStage(a, owned) + OfStage(b, owned)
  {
    if a == [] {
      assert a + b == b;
    } else {
      var rest := a[1..];
      OfStageAppend(rest, b, owned);
      assert (a + b)[0] == a[0] && (a + b)[1..] == rest + b;
      assert [a[0]] + (OfStage(rest, owned) + OfStage(b, owned)) == ([a[0]] + OfStage(rest, owned)) + OfStage(b, owned);
    }
  }

  /** Errors of one kind only: selecting them is the identity, selecting the others gives nothing. */
  lemma {:induction false} OfStageAll(a: seq<DocError>, owned: bool)
    requires OfStage(a, !owned) == []
    ensures OfStage(a, owned) == a
  {
    if a != [] {
      OfStageAll(a[1..], owned);
    }
  }

  lemma {:induction false} OfStageTwice(a: seq<DocError>, owned: bool)
    ensures OfStage(OfStage(a, owned), owned) == OfStage(a, owned)
    ensures OfStage(OfStage(a, owned), !owned) == []
  {
    if a != [] {
      OfStageTwice(a[1..], owned);
      assert ([a[0]] + OfStage(a[1..], owned))[1..] == OfStage(a[1..], owned);
    }
  }

  /** The report of a run: the job completes without errors exactly when there was something to
      fetch and every file was healthy or came through intact; errors of the two stages this
      request owns are replaced, all others stay in front of the LLM's. */
  lemma FetchReport(
      docs: Docs, uploadSeq: nat, todo: seq<Attachment>, agentUp: bool,
      facts: RuleFacts, bidFormFilled: bool, llm: Suggestion)
    ensures
      var r := FetchAttachments(docs, uploadSeq, todo, agentUp, facts, bidFormFilled, llm);
      && |r.rows| == |todo|
      && (forall i :: 0 <= i < |todo| ==> RowFits(r.rows[i], todo[i], FetchedByName(docs.uploads)))
      && Count(r.rows, Skipped) + Count(r.rows, Success) + Count(r.rows, FailedFile) == |todo|
      && |r.fetched| == Count(r.rows, Skipped) + Count(r.rows, Success)
      && (r.completed <==> todo != [] && AllClean(todo, FetchedByName(docs.uploads)))
      && OfStage(r.docs.errors, true) == r.errors
      && OfStage(r.docs.errors, false) == OfStage(docs.errors, false) + LlmErrors(llm)
      && r.docs.exports == docs.exports
  {
    var r := FetchAttachments(docs, uploadSeq, todo, agentUp, facts, bidFormFilled, llm);
    FilesSettled(Start(docs, uploadSeq), todo, FetchedByName(docs.uploads), AgentState(docs, todo, agentUp));
    var end := FetchLoop(docs, uploadSeq, todo, agentUp);
    var kept := OfStage(docs.errors, false);
    RunErrorsOwned(end, todo);
    OfStageTwice(docs.errors, false);
    ErrorsSplit(kept, r.errors, LlmErrors(llm));
  }

  lemma RunErrorsOwned(p: Progress, todo: seq<Attachment>)
    requires OfStage(p.errors, false) == []
    ensures OfStage(RunErrors(p, todo), false) == []
    ensures OfStage(RunErrors(p, todo), true) == RunErrors(p, todo)
    ensures RunErrors(p, todo) == [] <==> p.errors == [] && p.unreachable == 0 && todo != []
  {
    var x := if p.unreachable > 0 then [DocError(G2bAnalysis, false, AGENT_DOWN)] else [];
    var y := if todo == [] then [DocError(G2bFetch, true, "no supported attachment")] else [];
    OfStageAppend(p.errors + x, y, false);
    OfStageAppend(p.errors, x, false);
    OfStageAll(RunErrors(p, todo), true);
  }

  lemma ErrorsSplit(kept: seq<DocError>, run: seq<DocError>, llm: seq<DocError>)
    requires OfStage(kept, true) == [] && OfStage(run, false) == [] && OfStage(llm, true) == []
    ensures OfStage(kept + run + llm, true) == run
    ensures OfStage(kept + run + llm, false) == kept + llm
  {
    OfStageAll(kept, false);
    OfStageAll(run, true);
    OfStageAll(llm, false);
    forall owned
      ensures OfStage(kept + run + llm, owned) == OfStage(kept, owned) + OfStage(run, owned) + OfStage(llm, owned)
    {
      OfStageAppend(kept + run, llm, owned);
      OfStageAppend(kept, run, owned);
    }
  }

  // ---- which uploads a run touches ----

  ghost predicate UploadIdsOk(uploads: seq<Upload>, next: nat) {
    && (forall i, j :: 0 <= i < j < |uploads| ==> uploads[i].id != uploads[j].id)
    && (forall i :: 0 <= i < |uploads| ==> uploads[i].id < next)
  }

  predicate Selected(u: Upload, names: set<string>) { u.source.G2bAttachment? && u.name in names }

  /** The uploads fetched under one of the names (inside), or all the others. */
  function Select(uploads: seq<Upload>, names: set<string>, inside: bool): seq<Upload> {
    if uploads == [] then []
    else if Selected(uploads[0], names) == inside then [uploads[0]] + Select(uploads[1..], names, inside)
    else Select(uploads[1..], names, inside)
  }

  ghost predicate DistinctNames(todo: seq<Attachment>) {
    forall i, j :: 0 <= i < j < |todo| ==> todo[i].filename != todo[j].filename
  }

  function Names(todo: seq<Attachment>): set<string> { set a | a in todo :: a.filename }

  /** At most one fetched upload per name. */
  ghost predicate NamesOk(uploads: seq<Upload>) {
    forall name :: |Select(uploads, {name}, true)| <= 1
  }

  lemma {:induction false} SelectMembers(uploads: seq<Upload>, names: set<string>, inside: bool, u: Upload)
    ensures u in Select(uploads, names, inside) <==> u in uploads && Selected(u, names) == inside
  {
    if uploads != [] {
      SelectMembers(uploads[1..], names, inside, u);
      assert u in uploads <==> u == uploads[0] || u in uploads[1..];
    }
  }

  lemma {:induction false} SelectAppend(a: seq<Upload>, b: seq<Upload>, names: set<string>, inside: bool)
    ensures Select(a + b, names, inside) == Select(a, names, inside) + Select(b, names, inside)
  {
    if a == [] {
      assert a + b == b;
    } else {
      var rest, u := a[1..], a[0];
      SelectAppend(rest, b, names, inside);
      SelectCons(u, rest, names, inside);
      SelectCons(u, rest + b, names, inside);
      assert a == [u] + rest && a + b == [u] + (rest + b);
    }
  }

  lemma SelectCons(u: Upload, rest: seq<Upload>, names: set<string>, inside: bool)
    ensures Select([u] + rest, names, inside) ==
            (if Selected(u, names) == inside then [u] else []) + Select(rest, names, inside)
  {
  }

  lemma {:induction false} RemovedMembers(uploads: seq<Upload>, id: nat, next: nat, u: Upload)
    requires UploadIdsOk(uploads, next)
    ensures u in Removed(uploads, id) <==> u in uploads && u.id != id
  {
    if uploads != [] {
      assert u in uploads <==> u == uploads[0] || u in uploads[1..];
      if uploads[0].id != id {
        RemovedMembers(uploads[1..], id, next, u);
      } else if u in uploads[1..] {
        var k :| 1 <= k < |uploads| && uploads[k] == u;
        assert uploads[0].id != uploads[k].id;
      }
    }
  }

  lemma {:induction false} RemovedIds(uploads: seq<Upload>, id: nat, next: nat)
    requires UploadIdsOk(uploads, next)
    ensures UploadIdsOk(Removed(uploads, id), next)
  {
    if uploads != [] && uploads[0].id != id {
      var rest := Removed(uploads[1..], id);
      RemovedIds(uploads[1..], id, next);
      forall j | 0 <= j < |rest|
        ensures rest[j].id != uploads[0].id
      {
        RemovedMembers(uploads[1..], id, next, rest[j]);
        var k :| 0 <= k < |uploads[1..]| && uploads[1..][k] == rest[j];
        assert uploads[k + 1].id != uploads[0].id;
      }
    }
  }

  /** With one upload per name, the table by name holds every fetched upload. */
  lemma {:induction false} KnownHolds(uploads: seq<Upload>, name: string)
    ensures name in FetchedByName(uploads) <==> Select(uploads, {name}, true) != []
  {
    if uploads != [] {
      var front, last := uploads[..|uploads| - 1], uploads[|uploads| - 1];
      KnownHolds(front, name);
      SelectAppend(front, [last], {name}, true);
      assert uploads == front + [last];
    }
  }

  // ---- the uploads of a run: the old ones without the replaced, then the stored ones ----

  predicate WillStore(a: Attachment, known: map<string, Upload>) { !Healthy(a, known) && a.download.Got? }

  /** The ids of the uploads that unhealthy attachments replace, stored or not. */
  function ReplacedIds(todo: seq<Attachment>, known: map<string, Upload>): set<nat> {
    set a | a in todo && a.filename in known && !Healthy(a, known) :: known[a.filename].id
  }

  function Without(uploads: seq<Upload>, ids: set<nat>): seq<Upload> {
    if uploads == [] then []
    else if uploads[0].id in ids then Without(uploads[1..], ids)
    else [uploads[0]] + Without(uploads[1..], ids)
  }

  function Stored(todo: seq<Attachment>, known: map<string, Upload>, next: nat): seq<Upload> {
    if todo == [] then []
    else
      var front, a := Stored(todo[..|todo| - 1], known, next), todo[|todo| - 1];
      if WillStore(a, known) then front + [NewUpload(a, next + |front|)] else front
  }

  lemma {:induction false} WithoutMembers(uploads: seq<Upload>, ids: set<nat>, u: Upload)
    ensures u in Without(uploads, ids) <==> u in uploads && u.id !in ids
  {
    if uploads != [] {
      WithoutMembers(uploads[1..], ids, u);
      assert u in uploads <==> u == uploads[0] || u in uploads[1..];
    }
  }

  lemma {:induction false} WithoutNone(uploads: seq<Upload>, ids: set<nat>)
    requires forall u :: u in uploads ==> u.id !in ids
    ensures Without(uploads, ids) == uploads
  {
    if uploads != [] {
      assert uploads[0] in uploads;
      WithoutNone(uploads[1..], ids);
      assert [uploads[0]] + uploads[1..] == uploads;
    }
  }

  lemma {:induction false} WithoutTwice(uploads: seq<Upload>, ids: set<nat>, more: set<nat>)
    ensures Without(Without(uploads, ids), more) == Without(uploads, ids + more)
  {
    if uploads != [] {
      WithoutTwice(uploads[1..], ids, more);
      assert ([uploads[0]] + Without(uploads[1..], ids))[1..] == Without(uploads[1..], ids);
    }
  }

  lemma {:induction false} WithoutAppend(a: seq<Upload>, b: seq<Upload>, ids: set<nat>)
    ensures Without(a + b, ids) == Without(a, ids) + Without(b, ids)
  {
    if a == [] {
      assert a + b == b;
    } else {
      var rest := a[1..];
      WithoutAppend(rest, b, ids);
      assert (a + b)[0] == a[0] && (a + b)[1..] == rest + b;
      assert [a[0]] + (Without(rest, ids) + Without(b, ids)) == ([a[0]] + Without(rest, ids)) + Without(b, ids);
    }
  }

  ghost predicate DistinctUploadIds(uploads: seq<Upload>) {
    forall i, j :: 0 <= i < j < |uploads| ==> uploads[i].id != uploads[j].id
  }

  lemma {:induction false} WithoutKeepsDistinct(uploads: seq<Upload>, ids: set<nat>)
    requires DistinctUploadIds(uploads)
    ensures DistinctUploadIds(Without(uploads, ids))
  {
    if uploads != [] {
      var rest := Without(uploads[1..], ids);
      WithoutKeepsDistinct(uploads[1..], ids);
      forall j | 0 <= j < |rest|
        ensures rest[j].id != uploads[0].id
      {
        WithoutMembers(uploads[1..], ids, rest[j]);
        var k :| 0 <= k < |uploads[1..]| && uploads[1..][k] == rest[j];
        assert uploads[0].id != uploads[k + 1].id;
      }
    }
  }

  /** With distinct ids, dropping the first upload with the id drops the id. */
  lemma {:induction false} RemovedIsWithout(uploads: seq<Upload>, id: nat)
    requires DistinctUploadIds(uploads)
    ensures Removed(uploads, id) == Without(uploads, {id})
  {
    if uploads != [] {
      if uploads[0].id == id {
        forall u | u in uploads[1..]
          ensures u.id != id
        {
          var k :| 0 <= k < |uploads[1..]| && uploads[1..][k] == u;
          assert uploads[0].id != uploads[k + 1].id;
        }
        WithoutNone(uploads[1..], {id});
      } else {
        RemovedIsWithout(uploads[1..], id);
      }
    }
  }

  /** Each stored upload carries the next id and comes from an attachment of its name. */
  lemma {:induction false} StoredAt(todo: seq<Attachment>, known: map<string, Upload>, next: nat, i: nat)
    returns (j: nat)
    requires i < |Stored(todo, known, next)|
    ensures j < |todo| && WillStore(todo[j], known) && Stored(todo, known, next)[i] == NewUpload(todo[j], next + i)
  {
    var front := Stored(todo[..|todo| - 1], known, next);
    if i < |front| {
      j := StoredAt(todo[..|todo| - 1], known, next, i);
    } else {
      j := |todo| - 1;
    }
  }

  ghost predicate KnownThere(known: map<string, Upload>, uploads: seq<Upload>) {
    forall name :: name in known ==>
        known[name] in uploads && known[name].name == name && known[name].source.G2bAttachment?
  }

  lemma AppendedIds(uploads: seq<Upload>, ids: set<nat>, todo: seq<Attachment>, known: map<string, Upload>, next: nat)
    requires UploadIdsOk(uploads, next)
    ensures UploadIdsOk(Without(uploads, ids) + Stored(todo, known, next), next + |Stored(todo, known, next)|)
  {
    var w, s := Without(uploads, ids), Stored(todo, known, next);
    WithoutKeepsDistinct(uploads, ids);
    forall i | 0 <= i < |w|
      ensures w[i].id < next
    {
      WithoutMembers(uploads, ids, w[i]);
    }
    forall i | 0 <= i < |s|
      ensures s[i].id == next + i
    {
      var j := StoredAt(todo, known, next, i);
    }
  }

  /** Replacing an upload of before the run takes it out of the old part only. */
  lemma ReplaceOld(uploads: seq<Upload>, ids: set<nat>, todo: seq<Attachment>, known: map<string, Upload>, next: nat,
                   id: nat)
    requires UploadIdsOk(uploads, next) && id < next
    ensures Removed(Without(uploads, ids) + Stored(todo, known, next), id)
            == Without(uploads, ids + {id}) + Stored(todo, known, next)
  {
    var w, s := Without(uploads, ids), Stored(todo, known, next);
    AppendedIds(uploads, ids, todo, known, next);
    RemovedIsWithout(w + s, id);
    WithoutAppend(w, s, {id});
    WithoutTwice(uploads, ids, {id});
    forall u | u in s
      ensures u.id != id
    {
      var i :| 0 <= i < |s| && s[i] == u;
      var j := StoredAt(todo, known, next, i);
    }
    WithoutNone(s, {id});
  }

  lemma ReplacedSnoc(todo: seq<Attachment>, a: Attachment, known: map<string, Upload>)
    ensures ReplacedIds(todo + [a], known)
            == ReplacedIds(todo, known)
               + if a.filename in known && !Healthy(a, known) then {known[a.filename].id} else {}
  {
    assert forall x :: x in todo + [a] <==> x in todo || x == a;
  }

  lemma StoredSnoc(todo: seq<Attachment>, a: Attachment, known: map<string, Upload>, next: nat)
    ensures Stored(todo + [a], known, next) == Stored(todo, known, next)
            + if WillStore(a, known) then [NewUpload(a, next + |Stored(todo, known, next)|)] else []
  {
    assert (todo + [a])[..|todo|] == todo;
  }

  lemma FetchOneUploads(p: Progress, r: Progress, done: seq<Attachment>, a: Attachment, known: map<string, Upload>,
                        hwpOk: Option<bool>)
    requires UploadIdsOk(p.docs.uploads, p.uploadSeq) && KnownThere(known, p.docs.uploads)
    requires r.docs.uploads == Without(p.docs.uploads, ReplacedIds(done, known)) + Stored(done, known, p.uploadSeq)
    requires r.uploadSeq == p.uploadSeq + |Stored(done, known, p.uploadSeq)|
    ensures
      var q := FetchOne(r, a, known, hwpOk);
      && q.docs.uploads == Without(p.docs.uploads, ReplacedIds(done + [a], known))
          + Stored(done + [a], known, p.uploadSeq)
      && q.uploadSeq == p.uploadSeq + |Stored(done + [a], known, p.uploadSeq)|
  {
    ReplacedSnoc(done, a, known);
    StoredSnoc(done, a, known, p.uploadSeq);
    if a.filename in known && !Healthy(a, known) {
      assert known[a.filename] in p.docs.uploads;
      ReplaceOld(p.docs.uploads, ReplacedIds(done, known), done, known, p.uploadSeq, known[a.filename].id);
    }
    var w, s := Without(p.docs.uploads, ReplacedIds(done + [a], known)), Stored(done, known, p.uploadSeq);
    assert ReplacedIds(done, known) + {} == ReplacedIds(done, known);
    if WillStore(a, known) {
      assert w + s + [NewUpload(a, r.uploadSeq)] == w + (s + [NewUpload(a, r.uploadSeq)]);
    } else {
      assert s + [] == s;
    }
  }

  /** What the loop leaves, for any attachments: the earlier uploads in order without the replaced ones, then one new
      upload per attachment that was neither healthy nor failed. */
  lemma {:induction false} LoopUploads(p: Progress, todo: seq<Attachment>, known: map<string, Upload>,
                                       hwpOk: Option<bool>)
    requires UploadIdsOk(p.docs.uploads, p.uploadSeq) && KnownThere(known, p.docs.uploads)
    ensures
      var r := FetchAll(p, todo, known, hwpOk);
      && r.docs.uploads == Without(p.docs.uploads, ReplacedIds(todo, known)) + Stored(todo, known, p.uploadSeq)
      && r.uploadSeq == p.uploadSeq + |Stored(todo, known, p.uploadSeq)|
  {
    if todo == [] {
      WithoutNone(p.docs.uploads, {});
      assert ReplacedIds([], known) == {};
    } else {
      var front, a := todo[..|todo| - 1], todo[|todo| - 1];
      LoopUploads(p, front, known, hwpOk);
      FetchOneUploads(p, FetchAll(p, front, known, hwpOk), front, a, known, hwpOk);
      assert todo == front + [a];
    }
  }

  // ---- one fetched upload per name ----

  /** No two attachments of one name are both downloaded and stored. */
  ghost predicate StoredOnce(todo: seq<Attachment>, known: map<string, Upload>) {
    forall i, j :: 0 <= i < j < |todo| && WillStore(todo[i], known) && WillStore(todo[j], known)
      ==> todo[i].filename != todo[j].filename
  }

  ghost predicate Stores(todo: seq<Attachment>, known: map<string, Upload>, name: string) {
    exists i :: 0 <= i < |todo| && WillStore(todo[i], known) && todo[i].filename == name
  }

  lemma {:induction false} StoredNames(todo: seq<Attachment>, known: map<string, Upload>, next: nat, name: string)
    ensures Select(Stored(todo, known, next), {name}, true) != [] <==> Stores(todo, known, name)
    ensures StoredOnce(todo, known) ==> |Select(Stored(todo, known, next), {name}, true)| <= 1
  {
    if todo == [] {
    } else {
      var front, a := todo[..|todo| - 1], todo[|todo| - 1];
      assert todo == front + [a];
      StoredNames(front, known, next, name);
      StoresSnoc(front, a, known, name);
      StoredSelects(front, a, known, next, name);
      if StoredOnce(todo, known) { StoredOnceSnoc(front, a, known); }
    }
  }

  lemma StoredSelects(front: seq<Attachment>, a: Attachment, known: map<string, Upload>, next: nat, name: string)
    ensures |Select(Stored(front + [a], known, next), {name}, true)|
            == |Select(Stored(front, known, next), {name}, true)|
               + if WillStore(a, known) && a.filename == name then 1 else 0
  {
    var todo := front + [a];
    assert todo[..|todo| - 1] == front && todo[|todo| - 1] == a;
    if WillStore(a, known) {
      SelectSnoc(Stored(front, known, next), NewUpload(a, next + |Stored(front, known, next)|), name);
    }
  }

  lemma SelectSnoc(uploads: seq<Upload>, u: Upload, name: string)
    ensures Select(uploads + [u], {name}, true)
            == Select(uploads, {name}, true) + if Selected(u, {name}) then [u] else []
  {
    SelectAppend(uploads, [u], {name}, true);
    SelectCons(u, [], {name}, true);
    assert [u] + [] == [u];
  }

  lemma StoredOnceSnoc(front: seq<Attachment>, a: Attachment, known: map<string, Upload>)
    requires StoredOnce(front + [a], known)
    ensures StoredOnce(front, known) && (WillStore(a, known) ==> !Stores(front, known, a.filename))
  {
    var todo := front + [a];
    assert todo[|front|] == a && forall i :: 0 <= i < |front| ==> todo[i] == front[i];
  }

  lemma StoresSnoc(front: seq<Attachment>, a: Attachment, known: map<string, Upload>, name: string)
    ensures Stores(front + [a], known, name)
        <==> Stores(front, known, name) || (WillStore(a, known) && a.filename == name)
  {
    var todo := front + [a];
    if Stores(front, known, name) {
      var i :| 0 <= i < |front| && WillStore(front[i], known) && front[i].filename == name;
      assert todo[i] == front[i];
    }
    assert todo[|front|] == a;
  }

  lemma {:induction false} StoredTwice(todo: seq<Attachment>, known: map<string, Upload>, next: nat, i: nat, j: nat)
    requires i < j < |todo| && WillStore(todo[i], known) && WillStore(todo[j], known)
        && todo[i].filename == todo[j].filename
    ensures |Select(Stored(todo, known, next), {todo[i].filename}, true)| >= 2
  {
    var front, a, name := todo[..|todo| - 1], todo[|todo| - 1], todo[i].filename;
    assert todo == front + [a];
    StoredSnoc(front, a, known, next);
    if j < |front| {
      StoredTwice(front, known, next, i, j);
    } else {
      assert front[i] == todo[i];
      StoredNames(front, known, next, name);
    }
    if WillStore(a, known) {
      SelectSnoc(Stored(front, known, next), NewUpload(a, next + |Stored(front, known, next)|), name);
    }
  }

  lemma {:induction false} SelectWithout(uploads: seq<Upload>, ids: set<nat>, names: set<string>, inside: bool)
    ensures |Select(Without(uploads, ids), names, inside)| <= |Select(uploads, names, inside)|
    ensures (forall u :: u in uploads && u.id in ids ==> Selected(u, names) != inside) ==>
              Select(Without(uploads, ids), names, inside) == Select(uploads, names, inside)
  {
    if uploads != [] {
      SelectWithout(uploads[1..], ids, names, inside);
      assert forall u :: u in uploads <==> u == uploads[0] || u in uploads[1..];
      SelectCons(uploads[0], Without(uploads[1..], ids), names, inside);
    }
  }

  /** An upload whose id is replaced is the one known under a requested name. */
  lemma ReplacedIsKnown(uploads: seq<Upload>, next: nat, todo: seq<Attachment>, known: map<string, Upload>, u: Upload)
    requires UploadIdsOk(uploads, next) && KnownThere(known, uploads)
    requires u in uploads && u.id in ReplacedIds(todo, known)
    ensures u.name in Names(todo) && u.name in known && u == known[u.name]
  {
    var a :| a in todo && a.filename in known && !Healthy(a, known) && known[a.filename].id == u.id;
    var i :| 0 <= i < |uploads| && uploads[i] == u;
    var j :| 0 <= j < |uploads| && uploads[j] == known[a.filename];
    assert i == j;
  }

  lemma OthersStayPut(uploads: seq<Upload>, next: nat, todo: seq<Attachment>, known: map<string, Upload>)
    requires UploadIdsOk(uploads, next) && KnownThere(known, uploads)
    ensures Select(Without(uploads, ReplacedIds(todo, known)) + Stored(todo, known, next), Names(todo), false)
            == Select(uploads, Names(todo), false)
  {
    var w, s, names := Without(uploads, ReplacedIds(todo, known)), Stored(todo, known, next), Names(todo);
    forall u | u in uploads && u.id in ReplacedIds(todo, known)
      ensures Selected(u, names)
    {
      ReplacedIsKnown(uploads, next, todo, known, u);
    }
    SelectWithout(uploads, ReplacedIds(todo, known), names, false);
    SelectAppend(w, s, names, false);
    forall u | u in s
      ensures Selected(u, names)
    {
      var i :| 0 <= i < |s| && s[i] == u;
      var j := StoredAt(todo, known, next, i);
      assert todo[j] in todo;
    }
    AllOnOneSide(s, names, true);
  }

  /** Where a name is stored anew, no upload from before the run remains under it. */
  lemma StoredReplaces(uploads: seq<Upload>, todo: seq<Attachment>, known: map<string, Upload>, name: string)
    requires NamesOk(uploads) && known == FetchedByName(uploads) && Stores(todo, known, name)
    ensures Select(Without(uploads, ReplacedIds(todo, known)), {name}, true) == []
  {
    var w := Without(uploads, ReplacedIds(todo, known));
    forall u | u in w
      ensures !Selected(u, {name})
    {
      SurvivorHasOtherName(uploads, todo, known, name, u);
    }
    AllOnOneSide(w, {name}, false);
  }

  lemma SurvivorHasOtherName(uploads: seq<Upload>, todo: seq<Attachment>, known: map<string, Upload>, name: string,
                             u: Upload)
    requires NamesOk(uploads) && known == FetchedByName(uploads) && Stores(todo, known, name)
    requires u in Without(uploads, ReplacedIds(todo, known))
    ensures !Selected(u, {name})
  {
    WithoutMembers(uploads, ReplacedIds(todo, known), u);
    if Selected(u, {name}) {
      KnownIsOnlyOne(uploads, u);
      StoredNameIsReplaced(todo, known, name);
    }
  }

  /** Without two fetched uploads of one name, every fetched upload is the one its name leads to. */
  lemma KnownIsOnlyOne(uploads: seq<Upload>, u: Upload)
    requires NamesOk(uploads) && u in uploads && u.source.G2bAttachment?
    ensures u.name in FetchedByName(uploads) && FetchedByName(uploads)[u.name] == u
  {
    var same := Select(uploads, {u.name}, true);
    SelectMembers(uploads, {u.name}, true, u);
    assert u in same && |same| <= 1;
    KnownHolds(uploads, u.name);
    var known := FetchedByName(uploads)[u.name];
    SelectMembers(uploads, {u.name}, true, known);
    assert known in same;
  }

  lemma StoredNameIsReplaced(todo: seq<Attachment>, known: map<string, Upload>, name: string)
    requires Stores(todo, known, name) && name in known
    ensures known[name].id in ReplacedIds(todo, known)
  {
    var i :| 0 <= i < |todo| && WillStore(todo[i], known) && todo[i].filename == name;
    assert todo[i] in todo;
  }

  lemma {:induction false} AllOnOneSide(uploads: seq<Upload>, names: set<string>, inside: bool)
    requires forall u :: u in uploads ==> Selected(u, names) == inside
    ensures Select(uploads, names, !inside) == []
  {
    if uploads != [] {
      assert uploads[0] in uploads;
      AllOnOneSide(uploads[1..], names, inside);
    }
  }

  lemma NamesAfter(uploads: seq<Upload>, next: nat, todo: seq<Attachment>, known: map<string, Upload>)
    requires NamesOk(uploads) && known == FetchedByName(uploads)
    ensures NamesOk(Without(uploads, ReplacedIds(todo, known)) + Stored(todo, known, next)) <==> StoredOnce(todo, known)
  {
    var w, s := Without(uploads, ReplacedIds(todo, known)), Stored(todo, known, next);
    if StoredOnce(todo, known) {
      forall name
        ensures |Select(w + s, {name}, true)| <= 1
      {
        SelectAppend(w, s, {name}, true);
        StoredNames(todo, known, next, name);
        SelectWithout(uploads, ReplacedIds(todo, known), {name}, true);
        assert |Select(uploads, {name}, true)| <= 1;
        if Stores(todo, known, name) { StoredReplaces(uploads, todo, known, name); }
      }
    } else {
      var i, j :| 0 <= i < j < |todo| && WillStore(todo[i], known) && WillStore(todo[j], known)
                  && todo[i].filename == todo[j].filename;
      StoredTwice(todo, known, next, i, j);
      SelectAppend(w, s, {todo[i].filename}, true);
    }
  }

  /** For any attachments, every upload that is not one of the requested files is where it was. Where there was at
      most one fetched upload per name, there still is exactly when no name was stored twice in this run. */
  lemma FetchUploads(
      docs: Docs, uploadSeq: nat, todo: seq<Attachment>, agentUp: bool,
      facts: RuleFacts, bidFormFilled: bool, llm: Suggestion)
    requires UploadIdsOk(docs.uploads, uploadSeq)
    ensures
      var r := FetchAttachments(docs, uploadSeq, todo, agentUp, facts, bidFormFilled, llm);
      && UploadIdsOk(r.docs.uploads, r.uploadSeq)
      && Select(r.docs.uploads, Names(todo), false) == Select(docs.uploads, Names(todo), false)
      && (NamesOk(docs.uploads) ==> (NamesOk(r.docs.uploads) <==> StoredOnce(todo, FetchedByName(docs.uploads))))
  {
    var known := FetchedByName(docs.uploads);
    LoopUploads(Start(docs, uploadSeq), todo, known, AgentState(docs, todo, agentUp));
    AppendedIds(docs.uploads, ReplacedIds(todo, known), todo, known, uploadSeq);
    OthersStayPut(docs.uploads, uploadSeq, todo, known);
    if NamesOk(docs.uploads) { NamesAfter(docs.uploads, uploadSeq, todo, known); }
  }

  /** Two attachments of one name, both new and downloaded, leave two fetched uploads. */
  lemma EqualNamesAccumulate(docs: Docs, uploadSeq: nat, a: Attachment, agentUp: bool, facts: RuleFacts,
                             bidFormFilled: bool, llm: Suggestion)
    requires UploadIdsOk(docs.uploads, uploadSeq) && NamesOk(docs.uploads)
    requires a.filename !in FetchedByName(docs.uploads) && a.download.Got?
    ensures !NamesOk(FetchAttachments(docs, uploadSeq, [a, a], agentUp, facts, bidFormFilled, llm).docs.uploads)
  {
    var todo, known := [a, a], FetchedByName(docs.uploads);
    FetchUploads(docs, uploadSeq, todo, agentUp, facts, bidFormFilled, llm);
    assert WillStore(todo[0], known) && WillStore(todo[1], known) && todo[0].filename == todo[1].filename;
  }

  // ---- a second run ----

  predicate AllHealthy(todo: seq<Attachment>, known: map<string, Upload>) {
    forall i :: 0 <= i < |todo| ==> Healthy(todo[i], known)
  }

  /** The run skips exactly the healthy files. */
  lemma {:induction false} SkippedAreHealthy(
      p: Progress, todo: seq<Attachment>, known: map<string, Upload>, hwpOk: Option<bool>)
    ensures
      var skipped := Count(FetchAll(p, todo, known, hwpOk).rows, Skipped) - Count(p.rows, Skipped);
      skipped <= |todo| && (skipped == |todo| <==> AllHealthy(todo, known))
  {
    if todo != [] {
      var front, a := todo[..|todo| - 1], todo[|todo| - 1];
      SkippedAreHealthy(p, front, known, hwpOk);
      OneSkipped(FetchAll(p, front, known, hwpOk), a, known, hwpOk);
      assert AllHealthy(todo, known) <==> AllHealthy(front, known) && Healthy(a, known);
    }
  }

  lemma OneSkipped(p: Progress, a: Attachment, known: map<string, Upload>, hwpOk: Option<bool>)
    ensures Count(FetchOne(p, a, known, hwpOk).rows, Skipped)
            == Count(p.rows, Skipped) + if Healthy(a, known) then 1 else 0
  {
    var after := FetchOne(p, a, known, hwpOk);
    assert after.rows == p.rows + [after.rows[|p.rows|]];
    CountSnoc(p.rows, after.rows[|p.rows|], Skipped);
  }

  /** When all are healthy it downloads nothing and no upload changes. */
  lemma {:induction false} HealthyIsSkipped(
      p: Progress, todo: seq<Attachment>, known: map<string, Upload>, hwpOk: Option<bool>)
    requires AllHealthy(todo, known)
    ensures
      var r := FetchAll(p, todo, known, hwpOk);
      r.docs == p.docs && r.uploadSeq == p.uploadSeq && r.errors == p.errors
  {
    if todo != [] {
      HealthyIsSkipped(p, todo[..|todo| - 1], known, hwpOk);
    }
  }

  predicate Good(u: Upload) { !HasError(u.extractError) && u.hasExcerpt }

  lemma {:induction false} KnownAppend(a: seq<Upload>, b: seq<Upload>)
    ensures FetchedByName(a + b) == FetchedByName(a) + FetchedByName(b)
  {
    if b == [] {
      assert a + b == a;
    } else {
      var front, last := b[..|b| - 1], b[|b| - 1];
      var all := a + b;
      KnownAppend(a, front);
      assert all[..|all| - 1] == a + front && all[|all| - 1] == last;
      KnownLast(all);
      KnownLast(b);
      MapsAssociate(FetchedByName(a), FetchedByName(front),
                    if last.source.G2bAttachment? then map[last.name := last] else map[]);
    }
  }

  lemma MapsAssociate(a: map<string, Upload>, b: map<string, Upload>, c: map<string, Upload>)
    ensures (a + b) + c == a + (b + c)
  {
  }

  lemma KnownLast(uploads: seq<Upload>)
    requires uploads != []
    ensures
      var last := uploads[|uploads| - 1];
      FetchedByName(uploads)
      == FetchedByName(uploads[..|uploads| - 1]) + if last.source.G2bAttachment? then map[last.name := last] else map[]
  {
  }

  lemma {:induction false} KnownWithout(uploads: seq<Upload>, ids: set<nat>, name: string)
    requires name in FetchedByName(uploads) && FetchedByName(uploads)[name].id !in ids
    ensures name in FetchedByName(Without(uploads, ids))
    ensures FetchedByName(Without(uploads, ids))[name] == FetchedByName(uploads)[name]
  {
    var front, last := uploads[..|uploads| - 1], uploads[|uploads| - 1];
    assert uploads == front + [last];
    WithoutAppend(front, [last], ids);
    KnownAppend(Without(front, ids), Without([last], ids));
    KnownAppend(front, [last]);
    KnownOfOne(last);
    assert Without([last], ids) == if last.id in ids then [] else [last];
    if !(last.source.G2bAttachment? && last.name == name) { KnownWithout(front, ids, name); }
  }

  lemma KnownOfOne(u: Upload)
    ensures FetchedByName([u]) == if u.source.G2bAttachment? then map[u.name := u] else map[]
  {
    assert [u][..0] == [];
  }

  /** No later attachment of the same name is stored. */
  predicate LastStored(todo: seq<Attachment>, known: map<string, Upload>, j: nat) {
    && j < |todo| && WillStore(todo[j], known)
    && forall k :: j < k < |todo| && WillStore(todo[k], known) ==> todo[k].filename != todo[j].filename
  }

  /** The last stored upload of a name is the one found under it. */
  lemma {:induction false} KnownStored(todo: seq<Attachment>, known: map<string, Upload>, next: nat, name: string)
    returns (j: nat)
    requires Stores(todo, known, name)
    ensures LastStored(todo, known, j) && todo[j].filename == name
    ensures name in FetchedByName(Stored(todo, known, next))
    ensures FetchedByName(Stored(todo, known, next))[name]
        == NewUpload(todo[j], FetchedByName(Stored(todo, known, next))[name].id)
  {
    var front, a := todo[..|todo| - 1], todo[|todo| - 1];
    assert todo == front + [a];
    StoresSnoc(front, a, known, name);
    StoredSnoc(front, a, known, next);
    if WillStore(a, known) {
      KnownAppend(Stored(front, known, next), [NewUpload(a, next + |Stored(front, known, next)|)]);
      KnownOfOne(NewUpload(a, next + |Stored(front, known, next)|));
    }
    if WillStore(a, known) && a.filename == name {
      j := |front|;
    } else {
      j := KnownStored(front, known, next, name);
    }
  }

  /** What is stored last under the name of the i-th attachment, if anything, comes with text. */
  predicate LastHasText(todo: seq<Attachment>, known: map<string, Upload>, i: nat)
    requires i < |todo|
  {
    forall j :: 0 <= j < |todo| && LastStored(todo, known, j) && todo[j].filename == todo[i].filename
      ==> todo[j].download.hasExcerpt
  }

  /** Whatever is stored last under its name comes with text. */
  predicate TextsStored(todo: seq<Attachment>, known: map<string, Upload>) {
    forall j :: 0 <= j < |todo| && LastStored(todo, known, j) ==> todo[j].download.hasExcerpt
  }

  /** After a clean run every requested file is found, in good order unless it was stored without text. */
  lemma CleanRunKnows(uploads: seq<Upload>, next: nat, todo: seq<Attachment>, known: map<string, Upload>, i: nat)
    requires UploadIdsOk(uploads, next) && known == FetchedByName(uploads) && i < |todo| && AllClean(todo, known)
    ensures
      var after := FetchedByName(Without(uploads, ReplacedIds(todo, known)) + Stored(todo, known, next));
      todo[i].filename in after && (Good(after[todo[i].filename]) <==> LastHasText(todo, known, i))
  {
    var name, w, s := todo[i].filename, Without(uploads, ReplacedIds(todo, known)), Stored(todo, known, next);
    KnownAppend(w, s);
    assert Clean(todo[i], known);
    if Stores(todo, known, name) {
      var j := KnownStored(todo, known, next, name);
      assert Clean(todo[j], known);
    } else {
      HealthyStays(uploads, todo, known, i);
      if name in FetchedByName(s) { KnownIsStored(todo, known, next, name); }
    }
  }

  lemma {:induction false} HealthyStays(uploads: seq<Upload>, todo: seq<Attachment>, known: map<string, Upload>, i: nat)
    requires (forall m, n :: 0 <= m < n < |uploads| ==> uploads[m].id != uploads[n].id)
    requires known == FetchedByName(uploads) && i < |todo| && AllClean(todo, known)
    requires !Stores(todo, known, todo[i].filename)
    ensures
      var name, after := todo[i].filename, FetchedByName(Without(uploads, ReplacedIds(todo, known)));
      name in after && Good(after[name])
  {
    var name := todo[i].filename;
    assert Clean(todo[i], known) && Healthy(todo[i], known);
    forall a | a in todo && a.filename in known && !Healthy(a, known)
      ensures known[a.filename].id != known[name].id
    {
      var k :| 0 <= k < |todo| && todo[k] == a;
      assert Clean(todo[k], known) && WillStore(todo[k], known);
      assert a.filename != name;
      var m :| 0 <= m < |uploads| && uploads[m] == known[a.filename];
      var n :| 0 <= n < |uploads| && uploads[n] == known[name];
      assert m != n;
    }
    KnownWithout(uploads, ReplacedIds(todo, known), name);
  }

  lemma KnownIsStored(todo: seq<Attachment>, known: map<string, Upload>, next: nat, name: string)
    requires name in FetchedByName(Stored(todo, known, next))
    ensures Stores(todo, known, name)
  {
    var s := Stored(todo, known, next);
    var i :| 0 <= i < |s| && s[i] == FetchedByName(s)[name];
    var j := StoredAt(todo, known, next, i);
  }

  lemma TextsOneByOne(todo: seq<Attachment>, known: map<string, Upload>)
    ensures TextsStored(todo, known) <==> forall i :: 0 <= i < |todo| ==> LastHasText(todo, known, i)
  {
    if !TextsStored(todo, known) {
      var j :| 0 <= j < |todo| && LastStored(todo, known, j) && !todo[j].download.hasExcerpt;
      assert !LastHasText(todo, known, j);
    }
  }

  lemma FirstRunKnows(docs: Docs, uploadSeq: nat, todo: seq<Attachment>, agentUp: bool, facts: RuleFacts,
                      bidFormFilled: bool, llm: Suggestion, again: seq<Attachment>)
    requires UploadIdsOk(docs.uploads, uploadSeq) && AllClean(todo, FetchedByName(docs.uploads))
    requires |again| == |todo| && forall i :: 0 <= i < |todo| ==>
        again[i].filename == todo[i].filename && again[i].onDisk
    ensures
      var first := FetchAttachments(docs, uploadSeq, todo, agentUp, facts, bidFormFilled, llm);
      AllHealthy(again, FetchedByName(first.docs.uploads)) <==> TextsStored(todo, FetchedByName(docs.uploads))
  {
    var known := FetchedByName(docs.uploads);
    var first := FetchAttachments(docs, uploadSeq, todo, agentUp, facts, bidFormFilled, llm);
    LoopUploads(Start(docs, uploadSeq), todo, known, AgentState(docs, todo, agentUp));
    forall i | 0 <= i < |again|
      ensures Healthy(again[i], FetchedByName(first.docs.uploads)) <==> LastHasText(todo, known, i)
    {
      CleanRunKnows(docs.uploads, uploadSeq, todo, known, i);
    }
    TextsOneByOne(todo, known);
  }

  /** Fetching again after a clean run, with the files still on disk, skips every file exactly when the first run stored
      no name without text; then nothing is downloaded, no upload changes and the job completes. */
  lemma FetchAgain(
      docs: Docs, uploadSeq: nat, todo: seq<Attachment>, agentUp: bool,
      facts: RuleFacts, bidFormFilled: bool, llm: Suggestion,
      again: seq<Attachment>, agentUp': bool, facts': RuleFacts, llm': Suggestion)
    requires UploadIdsOk(docs.uploads, uploadSeq) && todo != []
    requires AllClean(todo, FetchedByName(docs.uploads))
    requires |again| == |todo| && forall i :: 0 <= i < |todo| ==>
        again[i].filename == todo[i].filename && again[i].onDisk
    ensures
      var first := FetchAttachments(docs, uploadSeq, todo, agentUp, facts, bidFormFilled, llm);
      var second := FetchAttachments(first.docs, first.uploadSeq, again, agentUp', facts', bidFormFilled, llm');
      && (Count(second.rows, Skipped) == |todo| <==> TextsStored(todo, FetchedByName(docs.uploads)))
      && (Count(second.rows, Skipped) == |todo| ==>
            second.docs.uploads == first.docs.uploads && second.uploadSeq == first.uploadSeq && second.completed)
  {
    var first := FetchAttachments(docs, uploadSeq, todo, agentUp, facts, bidFormFilled, llm);
    var known2 := FetchedByName(first.docs.uploads);
    FirstRunKnows(docs, uploadSeq, todo, agentUp, facts, bidFormFilled, llm, again);
    SkippedAreHealthy(Start(first.docs, first.uploadSeq), again, known2, AgentState(first.docs, again, agentUp'));
    if AllHealthy(again, known2) {
      HealthyIsSkipped(Start(first.docs, first.uploadSeq), again, known2, AgentState(first.docs, again, agentUp'));
    }
    FetchReport(first.docs, first.uploadSeq, again, agentUp', facts', bidFormFilled, llm');
  }
}
