/** The services as they run: loops that assign items, build lists and stop at the first match.
    Each is proved equal to the function that specifies it. */
module Services {
  import opened Text
  import opened NoticeModel
  import opened DocumentAutomation
  import opened Exports
  import opened Attachments
  import opened Workflow

  lemma Snoc<T>(s: seq<T>, i: nat)
    requires i < |s|
    ensures s[..i + 1] == s[..i] + [s[i]] && s[..i + 1][..i] == s[..i]
  {
  }

  /** One suggestion meets an item that exists: the status follows the required flag. */
  method SyncWithSuggestion(item: Item, x: Suggested) returns (target: Item)
    ensures target == MergeInto(item, x)
  {
    target := item;
    if x.required.Some? {
      target := target.(required := x.required.value);
      if target.required && target.status.NotApplicable? {
        target := target.(status := Needed);
      } else if !target.required && (target.status.Needed? || target.status.Blocked?) {
        target := target.(status := NotApplicable);
      }
    }
    target := target.(source := AppendSource(target.source, "llm"));
  }

  /** _merge_checklist: the ordered dict by_id is the list with lookup by id. */
  method MergeChecklist(base: seq<Item>, extra: seq<Suggested>, defaultOwner: string) returns (items: seq<Item>)
    ensures items == Merged(base, extra, defaultOwner)
  {
    items := base;
    for i := 0 to |extra|
      invariant items == Merged(base, extra[..i], defaultOwner)
    {
      Snoc(extra, i);
      ghost var before := items;
      var x := extra[i];
      var k := IndexOf(items, x.id);
      if k < |items| {
        var target := SyncWithSuggestion(items[k], x);
        items := items[k := target];
      } else {
        items := items + [NewItem(x, defaultOwner)];
      }
      assert items == MergeOne(before, x, defaultOwner);
    }
    assert extra[..|extra|] == extra;
  }

  method IndexPrevious(previous: seq<Item>) returns (byId: map<ItemId, Item>)
    ensures byId == ById(previous)
  {
    byId := map[];
    for i := 0 to |previous|
      invariant byId == ById(previous[..i])
    {
      Snoc(previous, i);
      byId := byId[previous[i].id := previous[i]];
    }
    assert previous[..|previous|] == previous;
  }

  method PreserveItem(item: Item, prevById: map<ItemId, Item>) returns (r: Item)
    ensures r == Preserve(item, prevById)
  {
    r := item;
    if item.id in prevById && Occurs(MANUAL, prevById[item.id].source) {
      var p := prevById[item.id];
      r := r.(status := p.status);
      r := r.(owner := p.owner);
      r := r.(note := p.note);
      r := r.(source := AppendSource(r.source, MANUAL));
    }
  }

  /** _preserve_manual_updates */
  method PreserveManualUpdates(items: seq<Item>, previous: seq<Item>) returns (r: seq<Item>)
    ensures r == Preserved(items, previous)
  {
    var prevById := IndexPrevious(previous);
    r := items;
    for i := 0 to |items|
      invariant |r| == |items|
      invariant forall j :: 0 <= j < i ==> r[j] == Preserve(items[j], prevById)
      invariant forall j :: i <= j < |items| ==> r[j] == items[j]
    {
      var item := PreserveItem(r[i], prevById);
      r := r[i := item];
    }
  }

  /** _apply_uploads_to_checklist */
  method ApplyUploadsToChecklist(checklist: seq<Item>, uploads: seq<Upload>) returns (r: seq<Item>)
    ensures r == Applied(checklist, uploads)
  {
    var mapped: set<ItemId> := {};
    for i := 0 to |uploads|
      invariant forall id :: id in mapped <==> MappedIn(uploads[..i], id)
    {
      Snoc(uploads, i);
      forall id
        ensures MappedIn(uploads[..i + 1], id) <==> MappedIn(uploads[..i], id) || Maps(uploads[i], id)
      {
        MappedSnoc(uploads[..i + 1], id);
      }
      if uploads[i].itemId.Some? {
        mapped := mapped + {uploads[i].itemId.value};
      }
    }
    assert uploads[..|uploads|] == uploads;
    r := checklist;
    for i := 0 to |checklist|
      invariant |r| == |checklist|
      invariant forall j :: 0 <= j < i ==> r[j] == Promote(checklist[j], checklist[j].id in mapped)
      invariant forall j :: i <= j < |checklist| ==> r[j] == checklist[j]
    {
      var item := r[i];
      if item.id in mapped && Promotable(item.status) {
        item := item.(status := Ready);
        item := item.(source := AppendSource(item.source, "upload"));
        r := r[i := item];
      }
    }
  }

  /** analyze_document_requirements */
  method AnalyzeDocumentRequirements(facts: RuleFacts, bidFormFilled: bool, llm: Suggestion, existing: Docs)
    returns (docs: Docs)
    ensures docs == AnalyzedDocs(facts, bidFormFilled, llm, existing)
  {
    var checklist := MergeChecklist(RuleChecklist(facts, bidFormFilled), llm.items, facts.assignee);
    checklist := PreserveManualUpdates(checklist, existing.checklist);
    checklist := ApplyUploadsToChecklist(checklist, existing.uploads);
    var errors: seq<DocError> := [];
    if llm.error.Some? && llm.error.value != "" {
      errors := errors + [DocError(DocumentLlm, true, llm.error.value)];
    }
    var missing := ValidateChecklist(checklist);
    docs := Docs(checklist, existing.uploads, existing.exports, missing, |missing| == 0, errors);
  }

  /** The given fields replace the stored ones, and the source is marked. */
  method EditItem(item: Item, status: Option<ItemStatus>, owner: Option<string>, note: Option<string>)
    returns (edited: Item)
    ensures edited == PatchItem(item, status, owner, note)
  {
    edited := item;
    if status.Some? { edited := edited.(status := status.value); }
    if owner.Some? { edited := edited.(owner := owner); }
    if note.Some? { edited := edited.(note := note); }
    edited := edited.(source := AppendSource(OrRule(edited.source), MANUAL));
  }

  /** update_checklist_item: None where the source raises KeyError. */
  method UpdateChecklistItem(docs: Docs, id: ItemId, status: Option<ItemStatus>, owner: Option<string>,
                             note: Option<string>)
    returns (r: Option<Docs>)
    ensures r == if Has(docs.checklist, id) then Some(PatchedDocs(docs, id, status, owner, note)) else None
  {
    var checklist := docs.checklist;
    var found := false;
    var i := 0;
    while i < |checklist| && !found
      invariant i <= |checklist| && !found && checklist == docs.checklist
      invariant forall j :: 0 <= j < i ==> checklist[j].id != id
    {
      if checklist[i].id == id {
        FoundAt(checklist, id, i);
        found := true;
        var item := EditItem(checklist[i], status, owner, note);
        checklist := checklist[i := item];
        r := Some(Refreshed(docs.(checklist := checklist)));
        return;
      }
      i := i + 1;
    }
    r := None;
  }

  lemma FoundAt(items: seq<Item>, id: ItemId, i: nat)
    requires i < |items| && items[i].id == id
    requires forall j :: 0 <= j < i ==> items[j].id != id
    ensures IndexOf(items, id) == i
  {
  }

  /** attach_bid_form_result, the checklist part */
  method AttachBidFormResult(docs: Docs) returns (r: Docs)
    ensures r == WithBidForm(docs)
  {
    var checklist := docs.checklist;
    for i := 0 to |checklist|
      invariant |checklist| == |docs.checklist|
      invariant forall j :: 0 <= j < i ==> checklist[j] == FillForm(docs.checklist[j])
      invariant forall j :: i <= j < |checklist| ==> checklist[j] == docs.checklist[j]
    {
      if checklist[i].id.BidForm? {
        checklist := checklist[i :=
            checklist[i].(status := Generated, source := AppendSource(OrRule(checklist[i].source), "hwp"))];
      }
    }
    var filled := seq(|docs.checklist|, i requires 0 <= i < |docs.checklist| => FillForm(docs.checklist[i]));
    assert checklist == filled;
    r := Refreshed(docs.(checklist := checklist));
  }

  /** merge_into_document_automation */
  method MergeIntoDocumentAutomation(docs: Docs, u: Upload) returns (r: Docs)
    ensures r == WithUpload(docs, u)
  {
    r := docs.(uploads := docs.uploads + [u]);
    if u.itemId.Some? {
      var checklist := docs.checklist;
      var i := 0;
      while i < |checklist| && checklist[i].id != u.itemId.value
        invariant i <= |checklist|
        invariant forall j :: 0 <= j < i ==> checklist[j].id != u.itemId.value
      {
        i := i + 1;
      }
      if i < |checklist| {
        FoundAt(checklist, u.itemId.value, i);
        var item := checklist[i];
        if Promotable(item.status) {
          item := item.(status := Ready);
          item := item.(source := AppendSource(OrRule(item.source), "upload"));
          checklist := checklist[i := item];
        }
      }
      r := r.(checklist := checklist);
    }
  }

  /** remove_from_document_automation: also tells whether something was removed. */
  method RemoveFromDocumentAutomation(docs: Docs, id: nat) returns (r: Docs, removed: bool)
    ensures r == docs.(uploads := Removed(docs.uploads, id))
    ensures removed <==> HasUpload(docs.uploads, id)
  {
    var uploads := docs.uploads;
    var survivors: seq<Upload> := [];
    removed := false;
    for i := 0 to |uploads|
      invariant removed <==> HasUpload(uploads[..i], id)
      invariant survivors == Removed(uploads[..i], id)
    {
      Snoc(uploads, i);
      RemovedSnoc(uploads[..i], uploads[i], id);
      HasUploadSnoc(uploads[..i], uploads[i], id);
      if uploads[i].id == id && !removed {
        removed := true;
      } else {
        survivors := survivors + [uploads[i]];
      }
    }
    assert uploads[..|uploads|] == uploads;
    r := docs.(uploads := survivors);
  }

  lemma {:induction false} RemovedSnoc(front: seq<Upload>, u: Upload, id: nat)
    ensures Removed(front + [u], id) ==
            if u.id == id && !HasUpload(front, id) then Removed(front, id) else Removed(front, id) + [u]
  {
    if front == [] {
      assert front + [u] == [u];
    } else {
      assert (front + [u])[1..] == front[1..] + [u];
      assert HasUpload(front, id) <==> front[0].id == id || HasUpload(front[1..], id) by {
        HasUploadCons(front, id);
      }
      RemovedSnoc(front[1..], u, id);
    }
  }

  lemma HasUploadCons(uploads: seq<Upload>, id: nat)
    requires uploads != []
    ensures HasUpload(uploads, id) <==> uploads[0].id == id || HasUpload(uploads[1..], id)
  {
  }

  lemma HasUploadSnoc(front: seq<Upload>, u: Upload, id: nat)
    ensures HasUpload(front + [u], id) <==> HasUpload(front, id) || u.id == id
  {
    var all := front + [u];
    if HasUpload(front, id) {
      var j :| 0 <= j < |front| && front[j].id == id;
      assert all[j].id == id;
    }
    assert all[|front|] == u;
    if HasUpload(all, id) && u.id != id {
      var j :| 0 <= j < |all| && all[j].id == id;
      assert front[j].id == id;
    }
  }

  /** merge_export_into_document_automation */
  method MergeExportIntoDocumentAutomation(docs: Docs, e: Export) returns (r: Docs)
    ensures r == docs.(exports := MergedExport(docs.exports, e))
  {
    var survivors: seq<Export> := [];
    for i := 0 to |docs.exports|
      invariant survivors == Survivors(docs.exports[..i], e.kind, e.draft)
    {
      Snoc(docs.exports, i);
      if !SamePair(docs.exports[i], e.kind, e.draft) {
        survivors := survivors + [docs.exports[i]];
      }
    }
    assert docs.exports[..|docs.exports|] == docs.exports;
    r := docs.(exports := survivors + [e]);
  }

  /** The attachment loop of the fetch request, with its report. */
  method FetchFiles(docs: Docs, uploadSeq: nat, todo: seq<Attachment>, agentUp: bool) returns (p: Progress)
    ensures p == FetchLoop(docs, uploadSeq, todo, agentUp)
  {
    var known := FetchedByName(docs.uploads);
    var hwpOk: Option<bool> := AgentState(docs, todo, agentUp);
    var updated, rows, fetched, errors, unreachable, next := docs, [], [], [], 0, uploadSeq;
    for i := 0 to |todo|
      invariant Progress(updated, rows, fetched, errors, unreachable, next)
             == FetchAll(Start(docs, uploadSeq), todo[..i], known, hwpOk)
    {
      Snoc(todo, i);
      ghost var before := Progress(updated, rows, fetched, errors, unreachable, next);
      var a := todo[i];
      rows := rows + [FileRow(a.filename, Pending, None)];
      if Healthy(a, known) {
        fetched := fetched + [known[a.filename]];
        rows := rows[|rows| - 1 := FileRow(a.filename, Skipped, Some(known[a.filename].id))];
      } else {
        if a.filename in known {
          var removed;
          updated, removed := RemoveFromDocumentAutomation(updated, known[a.filename].id);
        }
        match a.download
        case Failed(detail) =>
          errors := errors + [DocError(G2bFetch, true, detail)];
          rows := rows[|rows| - 1 := FileRow(a.filename, FailedFile, None)];
        case Got(itemId, extractError, hasExcerpt) =>
          var uploaded := Upload(next, a.filename, itemId, G2bAttachment, extractError, hasExcerpt);
          next := next + 1;
          updated := MergeIntoDocumentAutomation(updated, uploaded);
          fetched := fetched + [uploaded];
          rows := rows[|rows| - 1 := FileRow(a.filename, Success, Some(uploaded.id))];
          if HasError(extractError) {
            if hwpOk == Some(false) && extractError == Some(AGENT_DOWN) {
              unreachable := unreachable + 1;
            } else {
              errors := errors + [DocError(G2bAnalysis, false, extractError.value)];
            }
          }
      }
      assert Progress(updated, rows, fetched, errors, unreachable, next) == FetchOne(before, a, known, hwpOk);
    }
    assert todo[..|todo|] == todo;
    p := Progress(updated, rows, fetched, errors, unreachable, next);
  }

  lemma MissingSnoc(items: seq<Item>, i: nat, targets: set<ItemId>)
    requires i < |items|
    ensures MissingErrors(items[..i + 1], targets) == MissingErrors(items[..i], targets)
            + if items[i].id !in targets && IsMissing(items[i])
              then [DocError(PreCompose, true, "required document missing")] else []
  {
    Snoc(items, i);
  }

  method CheckDocuments(checklist: seq<Item>, targets: set<ItemId>) returns (errors: seq<DocError>)
    ensures errors == MissingErrors(checklist, targets)
  {
    errors := [];
    for i := 0 to |checklist|
      invariant errors == MissingErrors(checklist[..i], targets)
    {
      MissingSnoc(checklist, i, targets);
      var item := checklist[i];
      if item.id !in targets && item.required && !item.status.Ready? && !item.status.Generated? {
        errors := errors + [DocError(PreCompose, true, "required document missing")];
      }
    }
    assert checklist[..|checklist|] == checklist;
  }

  method CheckValues(bid: BidValues, given: map<string, string>) returns (errors: seq<DocError>)
    ensures errors == EmptyErrors(bid.required, bid, given)
  {
    var merged := bid.drafted + given;
    errors := [];
    for i := 0 to |bid.required|
      invariant errors == EmptyErrors(bid.required[..i], bid, given)
    {
      Snoc(bid.required, i);
      var key := bid.required[i];
      if key !in merged || merged[key] == "" {
        errors := errors + [DocError(PreCompose, true, "required value empty")];
      }
    }
    assert bid.required[..|bid.required|] == bid.required;
  }

  /** validate_pre_compose: the errors that block composing, from its two loops */
  method ValidatePreCompose(checklist: seq<Item>, targets: set<ItemId>, hasSpecRows: bool, bid: BidValues,
                            given: map<string, string>) returns (errors: seq<DocError>)
    ensures errors == PreComposeErrors(checklist, targets, hasSpecRows, bid, given)
  {
    errors := if hasSpecRows then [] else [DocError(PreCompose, true, "spec items not extracted")];
    var documents := CheckDocuments(checklist, targets);
    var values := CheckValues(bid, given);
    errors := errors + documents + values;
  }
}
