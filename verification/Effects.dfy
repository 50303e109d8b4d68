/** What the requests do to the checklist, the uploads and the exports of a notice, said field by field. */
module Effects {
  import opened Text
  import opened Status
  import opened NoticeModel
  import opened DocumentAutomation
  import opened Exports
  import opened Attachments
  import opened Workflow
  import opened Invariants
  import opened Outcomes

  // ---- an analyzed item ----

  /** The rules ask for six documents always, for three when the notice text does. */
  predicate RuleAsks(facts: RuleFacts, id: ItemId) {
    match id
    case PerformanceRecord => facts.asksRecord
    case BidBond => facts.asksBond
    case LicenseCertificate => facts.asksLicense
    case Extra(_) => false
    case _ => true
  }

  /** The last suggestion of the item that says whether it is required. */
  function LastGiven(extra: seq<Suggested>, id: ItemId): Option<bool> {
    if extra == [] then None
    else
      var last := extra[|extra| - 1];
      if last.id == id && last.required.Some? then last.required else LastGiven(extra[..|extra| - 1], id)
  }

  /** What the LLM said last; else an item of its own is required, a rule item when the rules ask for it. */
  predicate Wanted(facts: RuleFacts, extra: seq<Suggested>, id: ItemId) {
    match LastGiven(extra, id)
    case Some(required) => required
    case None => id.Extra? || RuleAsks(facts, id)
  }

  /** The status an item gets from the rules, the bid form and the suggestions. */
  function DerivedStatus(facts: RuleFacts, bidFormFilled: bool, extra: seq<Suggested>, id: ItemId): ItemStatus {
    if id.BidForm? && bidFormFilled then Generated
    else if Wanted(facts, extra, id) then Needed
    else NotApplicable
  }

  /** The owner the first suggestion of an extra item names; the assignee otherwise. */
  function DerivedOwner(facts: RuleFacts, extra: seq<Suggested>, id: ItemId): Option<string> {
    if id.Extra? && extra != [] then
      if extra[0].id == id && extra[0].owner != "" then Some(extra[0].owner)
      else if extra[0].id == id then DerivedOwner(facts, [], id)
      else DerivedOwner(facts, extra[1..], id)
    else if facts.assignee == "" then None
    else Some(facts.assignee)
  }

  /** An item before the manual edits and the uploads are looked at. */
  ghost predicate IsFresh(i: Item, facts: RuleFacts, bidFormFilled: bool, extra: seq<Suggested>) {
    && i.required == Wanted(facts, extra, i.id)
    && i.status == DerivedStatus(facts, bidFormFilled, extra, i.id)
    && i.owner == DerivedOwner(facts, extra, i.id)
    && i.note == None && FreshSource(i.source, Suggests(extra, i.id))
  }

  predicate FreshSource(source: string, suggested: bool) {
    ("llm" in Tokens(source) <==> suggested) && MANUAL !in Tokens(source) && "upload" !in Tokens(source)
  }

  lemma RuleTokens()
    ensures FreshSource("rule", false) && FreshSource("rule+hwp", false) && FreshSource("llm", true)
  {
    LiteralTokens();
    assert "rule+hwp" == "rule" + ['+'] + "hwp";
    SplitCons("rule", "hwp", '+');
    SplitNone("hwp", '+');
    NonEmptyKeepsAll(["rule", "hwp"]);
  }

  lemma MergedSource(source: string, suggested: bool)
    requires FreshSource(source, suggested)
    ensures FreshSource(AppendSource(source, "llm"), true)
  {
    LiteralTokens();
    AppendSourceTokens(source, "llm");
  }

  lemma RuleItemIsFresh(id: ItemId, facts: RuleFacts, bidFormFilled: bool)
    requires !id.Extra?
    ensures IsFresh(RuleItem(id, facts, bidFormFilled), facts, bidFormFilled, [])
  {
    var i := RuleItem(id, facts, bidFormFilled);
    RuleItemAsks(id, facts, bidFormFilled);
    RuleTokens();
    assert FreshSource(i.source, Suggests([], id)) && i.owner == DerivedOwner(facts, [], id);
  }

  lemma RuleItemAsks(id: ItemId, facts: RuleFacts, bidFormFilled: bool)
    requires !id.Extra?
    ensures
      var i := RuleItem(id, facts, bidFormFilled);
      i.required == Wanted(facts, [], id) && i.status == DerivedStatus(facts, bidFormFilled, [], id)
  {
    assert LastGiven([], id) == None;
  }

  lemma MergeOneAt(items: seq<Item>, x: Suggested, defaultOwner: string, id: ItemId)
    requires Has(MergeOne(items, x, defaultOwner), id)
    ensures x.id != id ==> Has(items, id)
    ensures At(MergeOne(items, x, defaultOwner), id) ==
            if x.id != id then At(items, id)
            else if Has(items, id) then MergeInto(At(items, id), x) else NewItem(x, defaultOwner)
  {
    if Has(items, x.id) {
      SameIdsSameIndex(items, MergeOne(items, x, defaultOwner), id);
    } else {
      IndexOfAppend(items, NewItem(x, defaultOwner), id);
    }
  }

  lemma {:induction false} UnsuggestedGivesNothing(extra: seq<Suggested>, id: ItemId)
    requires !Suggests(extra, id)
    ensures LastGiven(extra, id) == None
  {
    if extra != [] {
      SuggestsSnoc(extra, id);
      UnsuggestedGivesNothing(extra[..|extra| - 1], id);
    }
  }

  lemma {:induction false} OwnerSnoc(facts: RuleFacts, extra: seq<Suggested>, x: Suggested, id: ItemId)
    requires id.Extra?
    ensures DerivedOwner(facts, extra + [x], id) ==
            if Suggests(extra, id) || x.id != id then DerivedOwner(facts, extra, id)
            else OrNone(if x.owner != "" then x.owner else facts.assignee)
  {
    if extra == [] {
      assert ([] + [x])[1..] == [];
    } else {
      assert (extra + [x])[1..] == extra[1..] + [x] && (extra + [x])[0] == extra[0];
      OwnerSnoc(facts, extra[1..], x, id);
      if extra[0].id != id { SuggestsRest(extra, id); }
    }
  }

  lemma SuggestsRest(extra: seq<Suggested>, id: ItemId)
    requires extra != [] && extra[0].id != id
    ensures Suggests(extra, id) <==> Suggests(extra[1..], id)
  {
    if Suggests(extra, id) {
      var j :| 0 <= j < |extra| && extra[j].id == id;
      assert extra[1..][j - 1].id == id;
    }
  }

  lemma MergeIntoIsFresh(i: Item, x: Suggested, facts: RuleFacts, bidFormFilled: bool, front: seq<Suggested>)
    requires IsFresh(i, facts, bidFormFilled, front) && x.id == i.id
    requires i.id.Extra? ==> Suggests(front, i.id)
    ensures IsFresh(MergeInto(i, x), facts, bidFormFilled, front + [x])
  {
    var extra := front + [x];
    assert extra[..|extra| - 1] == front && extra[|extra| - 1] == x;
    SuggestsSnoc(extra, i.id);
    MergedSource(i.source, Suggests(front, i.id));
    if i.id.Extra? { OwnerSnoc(facts, front, x, i.id); }
    assert LastGiven(extra, i.id) == if x.required.Some? then x.required else LastGiven(front, i.id);
  }

  lemma NewItemAsks(x: Suggested, facts: RuleFacts, bidFormFilled: bool, front: seq<Suggested>)
    requires x.id.Extra? && !Suggests(front, x.id)
    ensures
      var i := NewItem(x, facts.assignee);
      && i.required == Wanted(facts, front + [x], x.id)
      && i.status == DerivedStatus(facts, bidFormFilled, front + [x], x.id)
  {
    var extra := front + [x];
    assert extra[..|extra| - 1] == front && extra[|extra| - 1] == x;
    UnsuggestedGivesNothing(front, x.id);
    assert LastGiven(extra, x.id) == x.required;
  }

  lemma NewItemIsFresh(x: Suggested, facts: RuleFacts, bidFormFilled: bool, front: seq<Suggested>)
    requires x.id.Extra? && !Suggests(front, x.id)
    ensures IsFresh(NewItem(x, facts.assignee), facts, bidFormFilled, front + [x])
  {
    NewItemAsks(x, facts, bidFormFilled, front);
    OwnerSnoc(facts, front, x, x.id);
    RuleTokens();
    assert (front + [x])[|front|] == x;
  }

  lemma OtherStaysFresh(i: Item, x: Suggested, facts: RuleFacts, bidFormFilled: bool, front: seq<Suggested>)
    requires IsFresh(i, facts, bidFormFilled, front) && x.id != i.id
    ensures IsFresh(i, facts, bidFormFilled, front + [x])
  {
    var extra := front + [x];
    assert extra[..|extra| - 1] == front && extra[|extra| - 1] == x;
    SuggestsSnoc(extra, i.id);
    if i.id.Extra? { OwnerSnoc(facts, front, x, i.id); }
  }

  lemma MergeOneIsFresh(before: seq<Item>, x: Suggested, facts: RuleFacts, bidFormFilled: bool, front: seq<Suggested>,
                        id: ItemId)
    requires Has(MergeOne(before, x, facts.assignee), id)
    requires Has(before, id) ==> IsFresh(At(before, id), facts, bidFormFilled, front)
    requires Has(before, id) <==> !id.Extra? || Suggests(front, id)
    ensures IsFresh(At(MergeOne(before, x, facts.assignee), id), facts, bidFormFilled, front + [x])
  {
    MergeOneAt(before, x, facts.assignee, id);
    if x.id != id {
      OtherStaysFresh(At(before, id), x, facts, bidFormFilled, front);
    } else if Has(before, id) {
      MergeIntoIsFresh(At(before, id), x, facts, bidFormFilled, front);
    } else {
      NewItemIsFresh(x, facts, bidFormFilled, front);
    }
  }

  lemma {:induction false} MergedIsFresh(facts: RuleFacts, bidFormFilled: bool, extra: seq<Suggested>, id: ItemId)
    requires Has(Merged(RuleChecklist(facts, bidFormFilled), extra, facts.assignee), id)
    ensures IsFresh(At(Merged(RuleChecklist(facts, bidFormFilled), extra, facts.assignee), id), facts, bidFormFilled,
                    extra)
  {
    var rule := RuleChecklist(facts, bidFormFilled);
    BaseIdsCoverAll(id, facts, bidFormFilled);
    if extra == [] {
      RuleItemIsFresh(id, facts, bidFormFilled);
    } else {
      var front, x := extra[..|extra| - 1], extra[|extra| - 1];
      var before := Merged(rule, front, facts.assignee);
      assert extra == front + [x];
      MergedIds(rule, front, facts.assignee, id);
      if Has(before, id) { MergedIsFresh(facts, bidFormFilled, front, id); }
      MergeOneIsFresh(before, x, facts, bidFormFilled, front, id);
    }
  }

  /** A person has edited the item: its stored source says so. */
  predicate Edited(existing: Docs, id: ItemId) {
    Has(existing.checklist, id) && Occurs(MANUAL, At(existing.checklist, id).source)
  }

  predicate HasFile(existing: Docs, id: ItemId) {
    exists j :: 0 <= j < |existing.uploads| && existing.uploads[j].itemId == Some(id)
  }

  /** What it asks for comes from the rules and the suggestions; status, owner and note from the person who edited it,
      else from the analysis; and a mapped file makes a waiting item ready. */
  ghost predicate AsAnalyzed(i: Item, facts: RuleFacts, bidFormFilled: bool, llm: Suggestion, existing: Docs) {
    var edited := Edited(existing, i.id);
    var status := if edited then At(existing.checklist, i.id).status
                  else DerivedStatus(facts, bidFormFilled, llm.items, i.id);
    var promoted := HasFile(existing, i.id) && (status == Needed || status == Blocked);
    && i.required == Wanted(facts, llm.items, i.id)
    && i.status == (if promoted then Ready else status)
    && i.owner == (if edited then At(existing.checklist, i.id).owner else DerivedOwner(facts, llm.items, i.id))
    && i.note == (if edited then At(existing.checklist, i.id).note else None)
    && ("llm" in Tokens(i.source) <==> Suggests(llm.items, i.id))
    && (MANUAL in Tokens(i.source) <==> edited)
    && ("upload" in Tokens(i.source) <==> promoted)
  }

  lemma AnalyzedItem(facts: RuleFacts, bidFormFilled: bool, llm: Suggestion, existing: Docs, id: ItemId)
    requires DistinctIds(existing.checklist)
    requires Has(AnalyzedChecklist(facts, bidFormFilled, llm, existing), id)
    ensures AsAnalyzed(At(AnalyzedChecklist(facts, bidFormFilled, llm, existing), id), facts, bidFormFilled, llm,
                       existing)
  {
    var merged := Merged(RuleChecklist(facts, bidFormFilled), llm.items, facts.assignee);
    var kept := Preserved(merged, existing.checklist);
    AnalyzedIds(facts, bidFormFilled, llm, existing);
    SameIdsSameIndex(AnalyzedChecklist(facts, bidFormFilled, llm, existing), merged, id);
    MergedIsFresh(facts, bidFormFilled, llm.items, id);
    var k := IndexOf(merged, id);
    PreservedItem(merged[k], existing);
    PromotedItem(kept[k], existing.uploads);
    assert MappedIn(existing.uploads, id) <==> HasFile(existing, id);
  }

  /** A document analysis: which items there are and what each says, the LLM's failure reported behind the earlier
      errors, and nothing else touched. */
  lemma AnalyzeEffect(n: Notice, facts: RuleFacts, llm: Suggestion, id: ItemId)
    requires NoticeOk(n) && AnalyzeDocuments(n, facts, llm).code == Ok
    ensures
      var m := AnalyzeDocuments(n, facts, llm).notice;
      var before := if n.docs.Some? then n.docs.value else NO_DOCS;
      && m.docs.Some? && m == n.(docs := m.docs, status := m.status)
      && m.docs.value.uploads == before.uploads && m.docs.value.exports == before.exports
      && m.docs.value.errors == before.errors
         + (if llm.error.Some? && llm.error.value != "" then [DocError(DocumentLlm, true, llm.error.value)] else [])
      && (VerdictOf(m, id).Some? <==> !id.Extra? || Suggests(llm.items, id))
      && (VerdictOf(m, id).Some? ==> AsAnalyzed(VerdictOf(m, id).value, facts, n.bidFormFilled, llm, before))
  {
    var before := if n.docs.Some? then n.docs.value else NO_DOCS;
    AnalyzedHas(facts, n.bidFormFilled, llm, before, id);
    if !id.Extra? || Suggests(llm.items, id) { AnalyzedItem(facts, n.bidFormFilled, llm, before, id); }
  }

  lemma PreservedItem(i: Item, existing: Docs)
    requires DistinctIds(existing.checklist)
    ensures
      var p := Preserve(i, ById(existing.checklist));
      && p.id == i.id && p.required == i.required
      && (!Edited(existing, i.id) ==> p == i)
      && (Edited(existing, i.id) ==>
            var was := At(existing.checklist, i.id);
            && p.status == was.status && p.owner == was.owner && p.note == was.note
            && MANUAL in Tokens(p.source)
            && forall t :: t != MANUAL ==> (t in Tokens(p.source) <==> t in Tokens(i.source)))
  {
    ByIdFinds(existing.checklist, i.id);
    LiteralTokens();
    AppendSourceTokens(i.source, MANUAL);
  }

  lemma PromotedItem(i: Item, uploads: seq<Upload>)
    ensures
      var p := Promote(i, MappedIn(uploads, i.id));
      if MappedIn(uploads, i.id) && (i.status == Needed || i.status == Blocked) then
        && p == i.(status := Ready, source := p.source)
        && "upload" in Tokens(p.source)
        && forall t :: t != "upload" ==> (t in Tokens(p.source) <==> t in Tokens(i.source))
      else p == i
  {
    LiteralTokens();
    AppendSourceTokens(i.source, "upload");
  }

  // ---- uploads ----

  /** A waiting item that the new file is mapped to is ready and marked; any other is as it was. */
  ghost predicate AfterUpload(before: Item, after: Item, itemId: Option<ItemId>) {
    if itemId == Some(before.id) && (before.status == Needed || before.status == Blocked) then
      && after == before.(status := Ready, source := after.source)
      && Tokens(after.source) == if "upload" in Tokens(before.source) then Tokens(before.source)
                                 else Tokens(before.source) + ["upload"]
    else after == before
  }

  lemma PromotedAfterUpload(i: Item)
    requires i.source != ""
    ensures AfterUpload(i, PromoteOrRule(i), Some(i.id))
  {
    LiteralTokens();
    AppendSourceTokens(i.source, "upload");
  }

  lemma PromotedByEffect(checklist: seq<Item>, u: Upload)
    requires DistinctIds(checklist) && Sourced(checklist)
    ensures |PromotedBy(checklist, u)| == |checklist|
    ensures forall k :: 0 <= k < |checklist| ==> AfterUpload(checklist[k], PromotedBy(checklist, u)[k], u.itemId)
  {
    if u.itemId.Some? && Has(checklist, u.itemId.value) { PromotedAfterUpload(At(checklist, u.itemId.value)); }
  }

  /** An accepted upload or import is appended as it came, and changes at most the item it is mapped to. */
  lemma UploadEffect(n: Notice, name: string, itemId: Option<ItemId>, incoming: Incoming, err: Option<string>,
                     exc: bool)
    requires NoticeOk(n) && UploadDocument(n, name, itemId, incoming, err, exc).code == Ok
    ensures
      var m := UploadDocument(n, name, itemId, incoming, err, exc).notice;
      var source := match incoming case Library(_) => CommonLibrary case _ => Uploaded;
      && n.docs.Some? && m.docs.Some?
      && m == n.(docs := m.docs, uploadSeq := n.uploadSeq + 1)
      && m.docs.value == n.docs.value.(uploads := m.docs.value.uploads, checklist := m.docs.value.checklist)
      && m.docs.value.uploads == n.docs.value.uploads + [Upload(n.uploadSeq, name, itemId, source, err, exc)]
      && |m.docs.value.checklist| == |n.docs.value.checklist|
      && forall k :: 0 <= k < |n.docs.value.checklist| ==>
           AfterUpload(n.docs.value.checklist[k], m.docs.value.checklist[k], itemId)
  {
    var source := match incoming case Library(_) => CommonLibrary case _ => Uploaded;
    var u := Upload(n.uploadSeq, name, itemId, source, err, exc);
    assert UploadDocument(n, name, itemId, incoming, err, exc).notice
        == n.(docs := Some(WithUpload(n.docs.value, u)), uploadSeq := n.uploadSeq + 1);
    PromotedByEffect(n.docs.value.checklist, u);
  }

  /** Deleting takes the upload with the id out of the list and leaves the order, the checklist and the rest. */
  lemma DeleteEffect(n: Notice, id: nat) returns (k: nat)
    requires DeleteUpload(n, id).code == Ok
    ensures
      var m := DeleteUpload(n, id).notice;
      && n.docs.Some? && k < |n.docs.value.uploads| && n.docs.value.uploads[k].id == id
      && m == n.(docs := Some(n.docs.value.(
           uploads := n.docs.value.uploads[..k] + n.docs.value.uploads[k + 1..])))
  {
    k := RemovedPlace(n.docs.value.uploads, id);
  }

  lemma {:induction false} RemovedPlace(uploads: seq<Upload>, id: nat) returns (k: nat)
    requires HasUpload(uploads, id)
    ensures k < |uploads| && uploads[k].id == id && Removed(uploads, id) == uploads[..k] + uploads[k + 1..]
  {
    if uploads[0].id == id {
      k := 0;
      assert uploads[..0] + uploads[1..] == uploads[1..];
    } else {
      var rest := uploads[1..];
      var j :| 0 <= j < |uploads| && uploads[j].id == id;
      assert rest[j - 1].id == id;
      var r := RemovedPlace(rest, id);
      k := r + 1;
      LaterPlace(uploads, r);
    }
  }

  lemma LaterPlace(uploads: seq<Upload>, r: nat)
    requires r + 1 < |uploads|
    ensures [uploads[0]] + (uploads[1..][..r] + uploads[1..][r + 1..]) == uploads[..r + 1] + uploads[r + 2..]
  {
  }

  // ---- fetched attachments ----

  predicate FetchedAs(u: Upload, name: string) { u.source == G2bAttachment && u.name == name }

  /** k is the place of the last fetched upload of this name, or the end when there is none. */
  predicate LastAs(uploads: seq<Upload>, name: string, k: nat) {
    && k <= |uploads| && (k < |uploads| ==> FetchedAs(uploads[k], name))
    && forall m :: 0 <= m < |uploads| && FetchedAs(uploads[m], name) ==> m <= k < |uploads|
  }

  lemma LastAsSnoc(front: seq<Upload>, last: Upload, name: string, k: nat)
    requires LastAs(front, name, k)
    ensures LastAs(front + [last], name,
                   if FetchedAs(last, name) then |front| else if k == |front| then k + 1 else k)
  {
  }

  /** The table by name holds the last fetched upload of each name. */
  lemma {:induction false} TableHoldsLast(uploads: seq<Upload>, name: string) returns (k: nat)
    ensures LastAs(uploads, name, k)
    ensures name in FetchedByName(uploads) <==> k < |uploads|
    ensures k < |uploads| ==> FetchedByName(uploads)[name] == uploads[k]
  {
    k := 0;
    if uploads != [] {
      var front, last := uploads[..|uploads| - 1], uploads[|uploads| - 1];
      k := TableHoldsLast(front, name);
      LastAsSnoc(front, last, name, k);
      assert uploads == front + [last];
      k := if FetchedAs(last, name) then |front| else if k == |front| then k + 1 else k;
    }
  }

  /** The file is there already, on disk, without an error and with text. */
  predicate InGoodOrder(a: Attachment, known: map<string, Upload>) {
    a.filename in known && a.onDisk && known[a.filename].hasExcerpt
    && (known[a.filename].extractError == None || known[a.filename].extractError == Some(""))
  }

  predicate Replaces(a: Attachment, known: map<string, Upload>, id: nat) {
    a.filename in known && !InGoodOrder(a, known) && known[a.filename].id == id
  }

  /** The upload of an attachment that came through. */
  ghost predicate StoredFrom(u: Upload, a: Attachment) {
    && a.download.Got? && u.name == a.filename && u.source == G2bAttachment
    && u.itemId == a.download.itemId && u.extractError == a.download.extractError
    && u.hasExcerpt == a.download.hasExcerpt
  }

  /** added holds one upload for every downloaded attachment that was not in good order, in order, at these places. */
  ghost predicate StoredFor(added: seq<Upload>, next: nat, todo: seq<Attachment>, known: map<string, Upload>,
                            at: seq<nat>) {
    && |at| == |added|
    && (forall i :: 0 <= i < |at| ==> at[i] < |todo| && StoredFrom(added[i], todo[at[i]]) && added[i].id == next + i)
    && (forall i, j :: 0 <= i < j < |at| ==> at[i] < at[j])
    && (forall k :: 0 <= k < |todo| ==> (k in at <==> todo[k].download.Got? && !InGoodOrder(todo[k], known)))
  }

  lemma StoredForSnoc(added: seq<Upload>, next: nat, front: seq<Attachment>, a: Attachment,
                      known: map<string, Upload>, at: seq<nat>, u: Upload)
    requires StoredFor(added, next, front, known, at)
    requires StoredFrom(u, a) && u.id == next + |added|
    ensures WillStore(a, known) ==> StoredFor(added + [u], next, front + [a], known, at + [|front|])
  {
    assert WillStore(a, known) <==> a.download.Got? && !InGoodOrder(a, known);
    forall k | 0 <= k < |front + [a]|
      ensures k in at + [|front|] <==> k in at || k == |front|
    {
    }
  }

  lemma StoredForSkip(added: seq<Upload>, next: nat, front: seq<Attachment>, a: Attachment,
                      known: map<string, Upload>, at: seq<nat>)
    requires StoredFor(added, next, front, known, at) && !WillStore(a, known)
    ensures StoredFor(added, next, front + [a], known, at)
  {
    assert WillStore(a, known) <==> a.download.Got? && !InGoodOrder(a, known);
  }

  lemma {:induction false} StoredPlaces(todo: seq<Attachment>, known: map<string, Upload>, next: nat)
    returns (at: seq<nat>)
    ensures StoredFor(Stored(todo, known, next), next, todo, known, at)
  {
    at := [];
    if todo != [] {
      var front, a := todo[..|todo| - 1], todo[|todo| - 1];
      at := StoredPlaces(front, known, next);
      assert todo == front + [a];
      var added := Stored(front, known, next);
      if WillStore(a, known) {
        StoredForSnoc(added, next, front, a, known, at, NewUpload(a, next + |added|));
        at := at + [|front|];
      } else {
        StoredForSkip(added, next, front, a, known, at);
      }
    }
  }

  /** A fetch keeps every upload but those found under the name of an attachment that was not in good order, and
      appends one upload for each of these that was downloaded, as it came. */
  lemma FetchEffect(docs: Docs, uploadSeq: nat, todo: seq<Attachment>, agentUp: bool, facts: RuleFacts,
                    bidFormFilled: bool, llm: Suggestion)
    returns (kept: seq<Upload>, added: seq<Upload>, at: seq<nat>)
    requires UploadIdsOk(docs.uploads, uploadSeq)
    ensures
      var known := FetchedByName(docs.uploads);
      var r := FetchAttachments(docs, uploadSeq, todo, agentUp, facts, bidFormFilled, llm);
      && r.docs.uploads == kept + added && r.uploadSeq == uploadSeq + |added|
      && (forall u :: u in kept <==>
            u in docs.uploads && forall j :: 0 <= j < |todo| ==> !Replaces(todo[j], known, u.id))
      && StoredFor(added, uploadSeq, todo, known, at)
  {
    var known := FetchedByName(docs.uploads);
    var ids := ReplacedIds(todo, known);
    LoopUploads(Start(docs, uploadSeq), todo, known, AgentState(docs, todo, agentUp));
    kept, added := Without(docs.uploads, ids), Stored(todo, known, uploadSeq);
    at := StoredPlaces(todo, known, uploadSeq);
    forall u
      ensures u in kept <==> u in docs.uploads && u.id !in ids
    {
      WithoutMembers(docs.uploads, ids, u);
    }
    ReplacedAre(todo, known);
  }

  lemma ReplacedAre(todo: seq<Attachment>, known: map<string, Upload>)
    ensures forall id :: id in ReplacedIds(todo, known) <==>
              exists j :: 0 <= j < |todo| && Replaces(todo[j], known, id)
  {
    assert forall j :: 0 <= j < |todo| ==> (Healthy(todo[j], known) <==> InGoodOrder(todo[j], known));
    forall id | id in ReplacedIds(todo, known)
      ensures exists j :: 0 <= j < |todo| && Replaces(todo[j], known, id)
    {
      var a :| a in todo && a.filename in known && !Healthy(a, known) && known[a.filename].id == id;
      var j :| 0 <= j < |todo| && todo[j] == a;
      assert Replaces(todo[j], known, id);
    }
  }

  /** What one file reports: a failed download; else an extraction error, unless it is the HWP agent being away when it
      was found to be away. */
  function FileErrors(a: Attachment, known: map<string, Upload>, agentAway: bool): seq<DocError> {
    if InGoodOrder(a, known) then []
    else
      match a.download
      case Failed(detail) => [DocError(G2bFetch, true, detail)]
      case Got(_, error, _) =>
        if error == None || error == Some("") || (agentAway && error == Some(AGENT_DOWN)) then []
        else [DocError(G2bAnalysis, false, error.value)]
  }

  function AllFileErrors(todo: seq<Attachment>, known: map<string, Upload>, agentAway: bool): seq<DocError> {
    if todo == [] then []
    else AllFileErrors(todo[..|todo| - 1], known, agentAway) + FileErrors(todo[|todo| - 1], known, agentAway)
  }

  /** Some downloaded file waits for the agent. */
  predicate Waits(todo: seq<Attachment>, known: map<string, Upload>) {
    exists k :: 0 <= k < |todo| && !InGoodOrder(todo[k], known) && todo[k].download.Got?
      && todo[k].download.extractError == Some(AGENT_DOWN)
  }

  lemma {:induction false} LoopErrors(p: Progress, todo: seq<Attachment>, known: map<string, Upload>,
                                      hwpOk: Option<bool>)
    requires p.errors == [] && p.unreachable == 0
    ensures
      var r := FetchAll(p, todo, known, hwpOk);
      && r.errors == AllFileErrors(todo, known, hwpOk == Some(false))
      && (r.unreachable > 0 <==> hwpOk == Some(false) && Waits(todo, known))
  {
    if todo != [] {
      var front, a := todo[..|todo| - 1], todo[|todo| - 1];
      LoopErrors(p, front, known, hwpOk);
      OneFileErrors(FetchAll(p, front, known, hwpOk), a, known, hwpOk);
      WaitsSnoc(front, a, known);
      assert todo == front + [a];
    }
  }

  lemma WaitsSnoc(front: seq<Attachment>, a: Attachment, known: map<string, Upload>)
    ensures Waits(front + [a], known) <==> Waits(front, known) || Waits([a], known)
  {
    var todo := front + [a];
    if Waits(front, known) {
      var k :| 0 <= k < |front| && !InGoodOrder(front[k], known) && front[k].download.Got?
               && front[k].download.extractError == Some(AGENT_DOWN);
      assert todo[k] == front[k];
    }
    if Waits([a], known) { assert todo[|front|] == a; }
  }

  lemma OneFileErrors(p: Progress, a: Attachment, known: map<string, Upload>, hwpOk: Option<bool>)
    ensures
      var r := FetchOne(p, a, known, hwpOk);
      && r.errors == p.errors + FileErrors(a, known, hwpOk == Some(false))
      && r.unreachable == p.unreachable + if hwpOk == Some(false) && Waits([a], known) then 1 else 0
  {
    assert Healthy(a, known) <==> InGoodOrder(a, known);
    assert AGENT_DOWN != "";
    assert Waits([a], known) <==> !InGoodOrder(a, known) && a.download.Got?
                                  && a.download.extractError == Some(AGENT_DOWN) by {
      assert [a][0] == a;
    }
  }

  /** The agent was asked, because an HWP file was not in good order, and is away. */
  predicate AgentAway(todo: seq<Attachment>, known: map<string, Upload>, agentUp: bool) {
    !agentUp && exists k :: 0 <= k < |todo| && todo[k].isHwp && !InGoodOrder(todo[k], known)
  }

  /** The errors of a fetch, in order: those of the files, one note when files wait for an agent that is away, and one
      when there was no file to fetch. */
  lemma FetchErrors(docs: Docs, uploadSeq: nat, todo: seq<Attachment>, agentUp: bool, facts: RuleFacts,
                    bidFormFilled: bool, llm: Suggestion)
    ensures
      var known := FetchedByName(docs.uploads);
      var away := AgentAway(todo, known, agentUp);
      FetchAttachments(docs, uploadSeq, todo, agentUp, facts, bidFormFilled, llm).errors
      == AllFileErrors(todo, known, away)
         + (if away && Waits(todo, known) then [DocError(G2bAnalysis, false, AGENT_DOWN)] else [])
         + (if todo == [] then [DocError(G2bFetch, true, "no supported attachment")] else [])
  {
    var known := FetchedByName(docs.uploads);
    AgentAsked(docs, todo, agentUp);
    LoopErrors(Start(docs, uploadSeq), todo, known, AgentState(docs, todo, agentUp));
    assert FetchAttachments(docs, uploadSeq, todo, agentUp, facts, bidFormFilled, llm).errors
        == RunErrors(FetchLoop(docs, uploadSeq, todo, agentUp), todo);
  }

  lemma AgentAsked(docs: Docs, todo: seq<Attachment>, agentUp: bool)
    ensures AgentState(docs, todo, agentUp) == Some(false) <==> AgentAway(todo, FetchedByName(docs.uploads), agentUp)
  {
    var known := FetchedByName(docs.uploads);
    assert forall k :: 0 <= k < |todo| ==> (Healthy(todo[k], known) <==> InGoodOrder(todo[k], known));
  }

  // ---- readiness ----

  predicate Lacks(i: Item) { i.required && i.status != Ready && i.status != Generated }

  /** missing holds exactly the items that are required and neither ready nor generated, in their order, at these
      places. */
  ghost predicate LacksAt(items: seq<Item>, missing: seq<Item>, at: seq<nat>) {
    && |at| == |missing|
    && (forall i :: 0 <= i < |at| ==> at[i] < |items| && missing[i] == items[at[i]])
    && (forall i, j :: 0 <= i < j < |at| ==> at[i] < at[j])
    && (forall k :: 0 <= k < |items| ==> (k in at <==> Lacks(items[k])))
  }

  lemma LacksSnoc(items: seq<Item>, missing: seq<Item>, at: seq<nat>, last: Item)
    requires LacksAt(items, missing, at)
    ensures Lacks(last) ==> LacksAt(items + [last], missing + [last], at + [|items|])
    ensures !Lacks(last) ==> LacksAt(items + [last], missing, at)
  {
    forall k | 0 <= k < |items + [last]|
      ensures Lacks(last) ==> (k in at + [|items|] <==> Lacks((items + [last])[k]))
      ensures !Lacks(last) ==> (k in at <==> Lacks((items + [last])[k]))
    {
      assert k in at + [|items|] <==> k in at || k == |items|;
    }
  }

  lemma {:induction false} MissingPlaces(items: seq<Item>) returns (at: seq<nat>)
    ensures LacksAt(items, ValidateChecklist(items), at)
  {
    at := [];
    if items != [] {
      var front, last := items[..|items| - 1], items[|items| - 1];
      at := MissingPlaces(front);
      LacksSnoc(front, ValidateChecklist(front), at, last);
      assert items == front + [last];
      if IsMissing(last) { at := at + [|front|]; }
    }
  }

  /** These requests look at the checklist afresh. */
  predicate Refreshes(r: Request) {
    r.ReqAnalyzeDocuments? || r.ReqFetch? || r.ReqPatch? || r.ReqValidate? || r.ReqAutofill?
  }

  /** Afterwards the stored list is exact, and ready says that it is empty. */
  lemma RefreshEffect(n: Notice, r: Request, next: nat) returns (at: seq<nat>)
    requires Refreshes(r) && Serve(n, r, next).code == Ok
    ensures
      var m := Serve(n, r, next).notice;
      && m.docs.Some? && LacksAt(m.docs.value.checklist, m.docs.value.missing, at)
      && (m.docs.value.ready <==> m.docs.value.missing == [])
  {
    at := MissingPlaces(Serve(n, r, next).notice.docs.value.checklist);
  }

  // ---- single items ----

  /** The patched item has the given fields and the mark, and nothing else about it changes. */
  ghost predicate AfterPatch(before: Item, after: Item, status: Option<ItemStatus>, owner: Option<string>,
                             note: Option<string>) {
    && after == before.(status := after.status, owner := after.owner, note := after.note, source := after.source)
    && after.status == (if status.Some? then status.value else before.status)
    && after.owner == (if owner.Some? then owner else before.owner)
    && after.note == (if note.Some? then note else before.note)
    && MANUAL in Tokens(after.source)
    && forall t :: t in Tokens(before.source) ==> t in Tokens(after.source)
  }

  /** A patch changes the first item with the id, and in the checklist no other. */
  lemma PatchEffect(n: Notice, id: ItemId, status: Option<ItemStatus>, owner: Option<string>, note: Option<string>)
    returns (k: nat)
    requires PatchChecklist(n, id, status, owner, note).code == Ok
    ensures
      var m := PatchChecklist(n, id, status, owner, note).notice;
      && n.docs.Some? && m.docs.Some? && m == n.(docs := m.docs)
      && m.docs.value == n.docs.value.(checklist := m.docs.value.checklist, missing := m.docs.value.missing,
                                       ready := m.docs.value.ready)
      && k < |n.docs.value.checklist| && n.docs.value.checklist[k].id == id
      && (forall j :: 0 <= j < k ==> n.docs.value.checklist[j].id != id)
      && m.docs.value.checklist == n.docs.value.checklist[k := m.docs.value.checklist[k]]
      && AfterPatch(n.docs.value.checklist[k], m.docs.value.checklist[k], status, owner, note)
  {
    k := IndexOf(n.docs.value.checklist, id);
    PatchItemIsAfterPatch(n.docs.value.checklist[k], status, owner, note);
  }

  lemma PatchItemIsAfterPatch(i: Item, status: Option<ItemStatus>, owner: Option<string>, note: Option<string>)
    ensures AfterPatch(i, PatchItem(i, status, owner, note), status, owner, note)
  {
    LiteralTokens();
    AppendSourceTokens(OrRule(i.source), MANUAL);
    assert Tokens("") == [];
  }

  /** Autofill marks the bid form generated by the HWP agent, on the notice and on its item, and no other item. */
  lemma AutofillEffect(n: Notice, agentOk: bool)
    ensures
      var eff := AutofillForm(n, agentOk);
      && (eff.code == Ok <==> agentOk && IsProcessing(n.status) && n.status != Collected && n.status != FormFilled)
      && (eff.code != Ok ==> eff.notice == n)
      && (eff.code == Ok ==>
            var m, before := eff.notice, if n.docs.Some? then n.docs.value else NO_DOCS;
            && m.docs.Some? && m == n.(bidFormFilled := true, status := FormFilled, docs := m.docs)
            && |m.docs.value.checklist| == |before.checklist|
            && forall k :: 0 <= k < |before.checklist| ==>
                 FormItem(before.checklist[k], m.docs.value.checklist[k]))
  {
    forall i: Item
      ensures FormItem(i, FillForm(i))
    {
      FillFormIsFormItem(i);
    }
  }

  ghost predicate FormItem(before: Item, after: Item) {
    if before.id == BidForm then
      after == before.(status := Generated, source := after.source) && "hwp" in Tokens(after.source)
      && forall t :: t in Tokens(before.source) ==> t in Tokens(after.source)
    else after == before
  }

  lemma FillFormIsFormItem(i: Item)
    ensures FormItem(i, FillForm(i))
  {
    LiteralTokens();
    AppendSourceTokens(OrRule(i.source), "hwp");
    assert Tokens("") == [];
  }

  /** The fit score decides the final status: at least 70, at least 40, or less. */
  lemma NotifyEffect(n: Notice)
    ensures
      var eff := NotifyNotice(n);
      && (eff.code == Ok <==> IsProcessing(n.status) && n.status != Collected)
      && eff.notice == (if eff.code != Ok then n
                        else if 70 <= n.fitScore then n.(status := Notified)
                        else if 40 <= n.fitScore < 70 then n.(status := DigestQueued)
                        else n.(status := ArchivedLow))
  {
  }

  // ---- what the producing requests record ----

  /** The errors an agent call leaves: an empty required value, the failure, or open placeholders. */
  ghost predicate AgentErrors(errors: seq<DocError>, requiredMissing: bool, agent: Agent) {
    var missing := [DocError(HwpRequired, false, "required HWP value empty")];
    var rest := if agent.AgentFailed? then [DocError(HwpPutFields, true, agent.detail)]
                else if agent.AgentDone? && agent.remaining then [DocError(HwpRemaining, false, "placeholders remain")]
                else [];
    errors == if requiredMissing then missing + rest else rest
  }

  /** A finished put-fields records one export, of the template's own kind and draft; a failed call none. */
  lemma PutEffect(n: Notice, template: TemplateKind, requiredMissing: bool, agent: Agent, next: nat)
    returns (errors: seq<DocError>)
    ensures
      var eff := PutHwpFields(n, template, requiredMissing, agent, next);
      && (eff.code == Ok <==> n.docs.Some? && !agent.TemplateUnusable?)
      && eff.records == (if eff.code != Ok || !agent.AgentDone? then []
                         else if template == BidFormTemplate then [Export(next, BidFormHwp, BidFormDraft, agent.at)]
                         else [Export(next, ProposalHwp, ProposalDraft, agent.at)])
      && (eff.code == Ok ==> AgentErrors(errors, requiredMissing, agent)
                             && eff.notice.docs.value.errors == n.docs.value.errors + errors)
  {
    errors := PutErrors(requiredMissing, agent);
  }

  lemma BidFormRecords(n: Notice, r: ComposeRequest, next: nat)
    requires n.docs.Some? && (r.bidForm ==> !r.agent.TemplateUnusable?)
    ensures ComposeBidForm(n, r, next).records
            == if r.bidForm && r.agent.AgentDone? then [Export(next, BidFormHwp, BidFormDraft, r.agent.at)] else []
  {
  }

  lemma FinishRecords(n: Notice, r: ComposeRequest, put: Put, next: nat)
    requires n.docs.Some? && (put.records != [] ==> r.agent.AgentDone?)
    ensures FinishCompose(n, r, put, next).records
            == put.records + if r.compliance && r.build.Built?
                             then [Export(next + |put.records|, Hwp, ComplianceDraft, r.build.at)] else []
  {
  }

  /** An accepted compose records the bid form, if asked for and filled, and then the compliance table, if asked for
      and built. */
  lemma ComposeEffect(n: Notice, r: ComposeRequest, next: nat)
    requires ComposeHwpDocuments(n, r, next).code == Ok
    ensures
      var bidForm := r.bidForm && r.agent.AgentDone?;
      var table := r.compliance && r.build.Built?;
      var records := ComposeHwpDocuments(n, r, next).records;
      && |records| == (if bidForm then 1 else 0) + (if table then 1 else 0)
      && (bidForm ==> records[0] == Export(next, BidFormHwp, BidFormDraft, r.agent.at))
      && (table ==> records[|records| - 1] == Export(next + |records| - 1, Hwp, ComplianceDraft, r.build.at))
  {
    var put := ComposeBidForm(n, r, next);
    BidFormRecords(n, r, next);
    assert ComposeHwpDocuments(n, r, next) == FinishCompose(n, r, put, next);
    FinishRecords(n, r, put, next);
  }

  /** Its errors, in order: one warning per spec row to review, those of the agent, and an unbuilt compliance table. */
  lemma ComposeErrors(n: Notice, r: ComposeRequest, next: nat) returns (agent: seq<DocError>)
    requires ComposeHwpDocuments(n, r, next).code == Ok
    ensures
      && (if r.bidForm then AgentErrors(agent, r.requiredMissing, r.agent) else agent == [])
      && ComposeHwpDocuments(n, r, next).notice.docs.value.errors
         == n.docs.value.errors
            + (seq(r.warnings, i => DocError(SpecReview, false, "spec row to review")) + agent
               + if r.compliance && !r.build.Built?
                 then [DocError(ComplianceFailed, true, "compliance table not built")] else [])
  {
    agent := if r.bidForm then PutErrors(r.requiredMissing, r.agent) else [];
    assert ComposeHwpDocuments(n, r, next) == FinishCompose(n, r, ComposeBidForm(n, r, next), next);
  }

  /** An accepted proposal records its own pair when the agent is done, and stores the warnings and the agent's
      errors. */
  lemma ProposalEffect(n: Notice, rows: bool, bid: BidValues, given: map<string, string>, warnings: nat,
                       requiredMissing: bool, agent: Agent, next: nat)
    returns (errors: seq<DocError>)
    requires ComposeProposal(n, rows, bid, given, warnings, requiredMissing, agent, next).code == Ok
    ensures
      var eff := ComposeProposal(n, rows, bid, given, warnings, requiredMissing, agent, next);
      && eff.records == (if agent.AgentDone? then [Export(next, ProposalHwp, ProposalDraft, agent.at)] else [])
      && AgentErrors(errors, requiredMissing, agent)
      && eff.notice.docs.value.errors == n.docs.value.errors
         + (seq(warnings, i => DocError(SpecReview, false, "spec row to review")) + errors)
  {
    errors := PutErrors(requiredMissing, agent);
  }

  /** Numbered from next, no two of one kind, each under the draft a download of its kind asks for. */
  ghost predicate OnePerKind(records: seq<Export>, next: nat) {
    && (forall i :: 0 <= i < |records| ==> records[i].id == next + i && records[i].draft == DraftOf(records[i].kind))
    && (forall i, j :: 0 <= i < j < |records| ==> records[i].kind != records[j].kind)
  }

  lemma TwoKinds(records: seq<Export>, next: nat, bidForm: bool, table: bool)
    requires |records| == (if bidForm then 1 else 0) + (if table then 1 else 0)
    requires bidForm ==> records[0].kind == BidFormHwp && records[0].draft == BidFormDraft && records[0].id == next
    requires
      table ==>
        var e := records[|records| - 1];
        e.kind == Hwp && e.draft == ComplianceDraft && e.id == next + |records| - 1
    ensures OnePerKind(records, next)
  {
  }

  lemma ComposePairs(n: Notice, c: ComposeRequest, next: nat)
    ensures OnePerKind(ComposeHwpDocuments(n, c, next).records, next)
  {
    var eff := ComposeHwpDocuments(n, c, next);
    if eff.code == Ok {
      ComposeEffect(n, c, next);
      TwoKinds(eff.records, next, c.bidForm && c.agent.AgentDone?, c.compliance && c.build.Built?);
    } else {
      ComposeGate(n, c, next);
    }
  }

  lemma PutPairs(n: Notice, template: TemplateKind, requiredMissing: bool, agent: Agent, next: nat)
    ensures OnePerKind(PutHwpFields(n, template, requiredMissing, agent, next).records, next)
  {
    var _ := PutEffect(n, template, requiredMissing, agent, next);
  }

  lemma ProposalPairs(n: Notice, rows: bool, bid: BidValues, given: map<string, string>, warnings: nat,
                      missing: bool, agent: Agent, next: nat)
    ensures OnePerKind(ComposeProposal(n, rows, bid, given, warnings, missing, agent, next).records, next)
  {
    ProposalGate(n, rows, bid, given, warnings, missing, agent, next);
    if ComposeProposal(n, rows, bid, given, warnings, missing, agent, next).code == Ok {
      var _ := ProposalEffect(n, rows, bid, given, warnings, missing, agent, next);
    }
  }

  lemma ExportPairs(n: Notice, kind: ExportKind, build: Build, rows: bool, bid: BidValues, next: nat)
    ensures OnePerKind(ExportDocument(n, kind, build, rows, bid, next).records, next)
  {
    ExportGate(n, kind, build, rows, bid, next);
  }

  /** So for the records of every request. */
  lemma RecordedPairs(n: Notice, r: Request, next: nat)
    ensures OnePerKind(Serve(n, r, next).records, next)
  {
    match r
    case ReqExport(kind, build, rows, bid) => ExportPairs(n, kind, build, rows, bid, next);
    case ReqCompose(c) => ComposePairs(n, c, next);
    case ReqPutFields(t, missing, agent) => PutPairs(n, t, missing, agent, next);
    case ReqProposal(rows, bid, given, warn, missing, agent) =>
      ProposalPairs(n, rows, bid, given, warn, missing, agent, next);
    case _ => assert Serve(n, r, next).records == [];
  }

  lemma {:induction false} LastOfOnly(es: seq<Export>, k: nat)
    requires k < |es| && forall i, j :: 0 <= i < j < |es| ==> es[i].kind != es[j].kind
    ensures LastOf(es, es[k].kind, es[k].draft) == Some(es[k])
  {
    if k < |es| - 1 { LastOfOnly(es[..|es| - 1], k); }
  }

  /** Whatever a request records, a download of that kind finds right afterwards. */
  lemma RecordedIsFound(n: Notice, r: Request, next: nat, k: nat)
    requires NoticeOk(n) && k < |Serve(n, r, next).records|
    ensures
      var e := Serve(n, r, next).records[k];
      LookupExport(Mirror(Serve(n, r, next).notice), e.kind, DraftOf(e.kind)) == Some(e)
  {
    var records := Serve(n, r, next).records;
    RecordedPairs(n, r, next);
    LastOfOnly(records, k);
    LookupAfterServe(n, r, next, records[k].kind, records[k].draft);
  }

  // ---- statuses and the rest of the row ----

  function Further(from: Status, to: Status): Status
    requires IsProcessing(from) && IsProcessing(to)
  {
    if Order(from) < Order(to) then to else from
  }

  /** The processing status a successful request asks for, if any. */
  function Goal(r: Request): Option<Status> {
    match r
    case ReqAnalyze(_) => Some(Analyzed)
    case ReqFetch(_, _, _, _, _, _) => Some(AttachmentsFetched)
    case ReqAnalyzeDocuments(_, _) => Some(DocumentsAnalyzed)
    case ReqExtractSpecItems(_) => Some(SpecExtracted)
    case ReqAutofill(_) => Some(FormFilled)
    case ReqPutFields(_, _, agent) =>
      if FormDone(r, Ok) then Some(FormFilled) else if agent.AgentDone? then Some(HwpComposed) else None
    case ReqCompose(c) =>
      if FormDone(r, Ok) then Some(FormFilled)
      else if c.compliance && c.build.Built? then Some(HwpComposed) else None
    case ReqProposal(_, _, _, _, _, agent) => if agent.AgentDone? then Some(HwpComposed) else None
    case _ => None
  }

  lemma FurtherTwice(from: Status)
    requires IsProcessing(from)
    ensures AdvanceStatus(AdvanceStatus(from, HwpComposed), FormFilled) == FormFilled == Further(from, FormFilled)
    ensures AdvanceStatus(from, FormFilled) == FormFilled
    ensures AdvanceStatus(from, HwpComposed) == Further(from, HwpComposed)
  {
  }

  function Reached(from: Status, goal: Option<Status>): Status
    requires IsProcessing(from) && (goal.Some? ==> IsProcessing(goal.value))
  {
    if goal.Some? then Further(from, goal.value) else from
  }

  lemma ComposeReaches(n: Notice, c: ComposeRequest, next: nat)
    requires IsProcessing(n.status) && ComposeHwpDocuments(n, c, next).code == Ok
    ensures ComposeHwpDocuments(n, c, next).notice.status == Reached(n.status, Goal(ReqCompose(c)))
  {
    var put := ComposeBidForm(n, c, next);
    if c.bidForm && c.agent.AgentDone? { ComposeErrorsBlock(n, c, next); }
    FurtherTwice(n.status);
    assert ComposeHwpDocuments(n, c, next) == FinishCompose(n, c, put, next);
    FinishReaches(n, c, put, next);
  }

  lemma FinishReaches(n: Notice, c: ComposeRequest, put: Put, next: nat)
    requires IsProcessing(n.status) && n.docs.Some? && (put.records != [] <==> c.bidForm && c.agent.AgentDone?)
    requires put.records != [] ==>
        (Blocking(Warnings(c.warnings) + put.errors + ComplianceErrors(c)) <==> c.compliance && !c.build.Built?)
    ensures FinishCompose(n, c, put, next).notice.status == Reached(n.status, Goal(ReqCompose(c)))
  {
    FurtherTwice(n.status);
  }

  lemma PutReaches(n: Notice, template: TemplateKind, requiredMissing: bool, agent: Agent, next: nat)
    requires IsProcessing(n.status) && PutHwpFields(n, template, requiredMissing, agent, next).code == Ok
    ensures PutHwpFields(n, template, requiredMissing, agent, next).notice.status
            == Reached(n.status, Goal(ReqPutFields(template, requiredMissing, agent)))
  {
    FurtherTwice(n.status);
    assert PutHwpFields(n, template, requiredMissing, agent, next).notice.status
        == ExecutePutFields(n.status, n.docs.value, template, requiredMissing, agent, next).status;
  }

  lemma ProposalReaches(n: Notice, rows: bool, bid: BidValues, given: map<string, string>, warnings: nat,
                        missing: bool, agent: Agent, next: nat)
    requires IsProcessing(n.status)
    requires ComposeProposal(n, rows, bid, given, warnings, missing, agent, next).code == Ok
    ensures ComposeProposal(n, rows, bid, given, warnings, missing, agent, next).notice.status
            == Reached(n.status, if agent.AgentDone? then Some(HwpComposed) else None)
  {
    FurtherTwice(n.status);
    var put := ExecutePutFields(n.status, n.docs.value, ProposalTemplate, missing, agent, next);
    assert ComposeProposal(n, rows, bid, given, warnings, missing, agent, next) == FinishProposal(n, warnings, put);
  }

  lemma AnalysisReaches(n: Notice, r: Request, next: nat)
    requires IsProcessing(n.status) && Serve(n, r, next).code == Ok
    requires r.ReqAnalyze? || r.ReqFetch? || r.ReqAnalyzeDocuments? || r.ReqExtractSpecItems? || r.ReqAutofill?
    ensures Serve(n, r, next).notice.status == Reached(n.status, Goal(r))
  {
    match r
    case ReqFetch(todo, up, facts1, llm1, facts2, llm2) => FetchReaches(n, todo, up, facts1, llm1, facts2, llm2);
    case ReqAnalyzeDocuments(facts, llm) => DocumentsReach(n, facts, llm);
    case _ =>
  }

  lemma FetchReaches(n: Notice, todo: seq<Attachment>, up: bool, facts1: RuleFacts, llm1: Suggestion,
                     facts2: RuleFacts, llm2: Suggestion)
    requires IsProcessing(n.status)
    ensures FetchG2bAttachments(n, todo, up, facts1, llm1, facts2, llm2).notice.status
            == Further(n.status, AttachmentsFetched)
  {
  }

  lemma DocumentsReach(n: Notice, facts: RuleFacts, llm: Suggestion)
    requires IsProcessing(n.status) && AnalyzeDocuments(n, facts, llm).code == Ok
    ensures AnalyzeDocuments(n, facts, llm).notice.status == Further(n.status, DocumentsAnalyzed)
  {
  }

  lemma OtherStays(n: Notice, r: Request, next: nat)
    requires Serve(n, r, next).code == Ok
    requires r.ReqPatch? || r.ReqValidate? || r.ReqUpload? || r.ReqDeleteUpload? || r.ReqExport? || r.ReqGrade?
    ensures Serve(n, r, next).notice.status == n.status && Goal(r) == None
  {
  }

  /** From a processing status a successful request other than notify goes as far as its goal, or stays. */
  lemma ServeReaches(n: Notice, r: Request, next: nat)
    requires IsProcessing(n.status) && Serve(n, r, next).code == Ok && !r.ReqNotify?
    ensures Serve(n, r, next).notice.status == Reached(n.status, Goal(r))
  {
    match r
    case ReqCompose(c) => ComposeReaches(n, c, next);
    case ReqPutFields(t, missing, agent) => PutReaches(n, t, missing, agent, next);
    case ReqProposal(rows, bid, given, warn, missing, agent) =>
      ProposalReaches(n, rows, bid, given, warn, missing, agent, next);
    case ReqPatch(_, _, _, _) => OtherStays(n, r, next);
    case ReqValidate => OtherStays(n, r, next);
    case ReqUpload(_, _, _, _, _) => OtherStays(n, r, next);
    case ReqDeleteUpload(_) => OtherStays(n, r, next);
    case ReqExport(_, _, _, _) => OtherStays(n, r, next);
    case ReqGrade(_) => OtherStays(n, r, next);
    case _ => AnalysisReaches(n, r, next);
  }

  /** The fit score is written by analysis and grading only, the form flag by analysis and autofill only. */
  lemma ServeKeepsScore(n: Notice, r: Request, next: nat)
    ensures
      var eff := Serve(n, r, next);
      && eff.notice.fitScore == (if eff.code == Ok && (r.ReqAnalyze? || r.ReqGrade?) then r.fitScore else n.fitScore)
      && eff.notice.bidFormFilled == (if eff.code != Ok then n.bidFormFilled
                                      else if r.ReqAnalyze? then false else n.bidFormFilled || r.ReqAutofill?)
  {
    if Produces(r) { ServeProduces(n, r, next); }
  }

  /** A refused request changes nothing, except that the gate before composing leaves its errors. */
  lemma RefusalChangesNothing(n: Notice, r: Request, next: nat) returns (gate: seq<DocError>)
    requires Serve(n, r, next).code != Ok
    ensures Serve(n, r, next).records == []
    ensures
      var m := Serve(n, r, next).notice;
      if gate == [] then m == n
      else n.docs.Some? && m == n.(docs := Some(n.docs.value.(errors := n.docs.value.errors + gate)))
    ensures gate != [] ==> (r.ReqExport? || r.ReqCompose? || r.ReqProposal?) && Serve(n, r, next).code == Conflict
  {
    gate := [];
    if n.docs.Some? && Serve(n, r, next).notice != n {
      var items := n.docs.value.checklist;
      gate := match r
        case ReqExport(_, _, rows, bid) => PreComposeErrors(items, {TechnicalCompliance}, rows, bid, map[])
        case ReqCompose(c) => PreComposeErrors(items, ComposeTargets(c), c.hasSpecRows, c.bid, c.given)
        case ReqProposal(rows, bid, given, _, _, _) => PreComposeErrors(items, PROPOSAL_TARGETS, rows, bid, given)
        case _ => [];
    }
  }

  /** How each request is refused. */
  lemma RefusalCodes(n: Notice, r: Request, next: nat)
    requires Serve(n, r, next).code != Ok
    ensures
      var code := Serve(n, r, next).code;
      match r
      case ReqExtractSpecItems(_) => code == ServerError
      case ReqPatch(_, _, _, _) => code == if n.docs.None? then Conflict else NotFound
      case ReqDeleteUpload(_) => code == if n.docs.None? then Conflict else NotFound
      case ReqUpload(_, _, incoming, _, _) =>
        (match incoming
         case Library(found) => code == if found then Conflict else NotFound
         case Saved => code == Conflict
         case BadExtension => code == if n.docs.None? then Conflict else UnsupportedType
         case TooBig => code == if n.docs.None? then Conflict else TooLarge
         case WriteFailed => code == if n.docs.None? then Conflict else ServerError)
      case ReqExport(kind, build, _, _) =>
        && (code == BadRequest <==>
              n.docs.Some? && build != DraftMissing && (kind == ProposalHwp || kind == BidFormHwp))
        && (code == ServerError ==> kind == Excel && build == BuildFailed)
        && (code == BadGateway ==> kind == Hwp && build == BuildFailed)
        && code in {BadRequest, ServerError, BadGateway, Conflict}
        && (kind == Excel && build == BuildFailed && n.docs.Some? ==> code == ServerError)
      case ReqAutofill(_) => code == if CanTransition(n.status, FormFilled) then BadGateway else Conflict
      case _ => code == Conflict
  {
  }
}
