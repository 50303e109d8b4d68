/** The checklist services: building, merging, patching, promoting and validating checklist items. */
module DocumentAutomation {
  import opened Text
  import opened NoticeModel

  // ---- source strings: tokens joined by '+' ----

  function NonEmpty(parts: seq<string>): (r: seq<string>)
    ensures forall p :: p in r <==> p in parts && p != ""
  {
    if parts == [] then []
    else if parts[0] == "" then NonEmpty(parts[1..])
    else [parts[0]] + NonEmpty(parts[1..])
  }

  function Tokens(source: string): seq<string> { NonEmpty(Split(source, '+')) }

  function AppendSource(source: string, addition: string): string {
    var parts := Tokens(source);
    Join(if addition in parts then parts else parts + [addition], "+")
  }

  predicate IsToken(t: string) { t != "" && '+' !in t }

  lemma {:induction false} NonEmptyKeepsAll(parts: seq<string>)
    requires "" !in parts
    ensures NonEmpty(parts) == parts
  {
    if parts != [] {
      NonEmptyKeepsAll(parts[1..]);
      assert [parts[0]] + parts[1..] == parts;
    }
  }

  /** Appending writes the old tokens back, with the new one at the end unless it was there. */
  lemma AppendSourceTokens(source: string, addition: string)
    requires IsToken(addition)
    ensures Tokens(AppendSource(source, addition)) ==
            if addition in Tokens(source) then Tokens(source) else Tokens(source) + [addition]
    ensures AppendSource(AppendSource(source, addition), addition) == AppendSource(source, addition)
  {
    var parts0 := Tokens(source);
    var parts := if addition in parts0 then parts0 else parts0 + [addition];
    SplitHasNoSep(source, '+');
    assert forall p :: p in parts ==> IsToken(p);
    SplitJoin(parts, '+');
    NonEmptyKeepsAll(parts);
  }

  /** The re-analysis looks for the text "manual" anywhere in the source; a token is found there. */
  lemma TokenOccurs(source: string, t: string)
    requires t in Tokens(source)
    ensures Occurs(t, source)
  {
    var pieces := Split(source, '+');
    var k :| 0 <= k < |pieces| && pieces[k] == t;
    SplitPieceOccurs(source, '+', k);
  }

  const MANUAL := "manual"

  predicate IsManual(i: Item) { MANUAL in Tokens(i.source) }

  /** A token never goes away by appending another. */
  lemma AppendKeepsToken(source: string, addition: string, t: string)
    requires IsToken(addition)
    requires t in Tokens(source) || t == addition
    ensures t in Tokens(AppendSource(source, addition))
  {
    AppendSourceTokens(source, addition);
  }

  lemma AppendedSourceIsNonEmpty(source: string, addition: string)
    requires IsToken(addition)
    ensures AppendSource(source, addition) != ""
  {
    AppendKeepsToken(source, addition, addition);
    assert Tokens("") == [];
  }

  lemma LiteralTokens()
    ensures IsToken("llm") && IsToken("hwp") && IsToken("upload") && IsToken(MANUAL)
    ensures Tokens("rule") == ["rule"] && Tokens("llm") == ["llm"]
  {
    SplitNone("rule", '+');
    SplitNone("llm", '+');
    NonEmptyKeepsAll(["rule"]);
    NonEmptyKeepsAll(["llm"]);
  }

  // ---- checklists ----

  ghost predicate DistinctIds(items: seq<Item>) {
    forall i, j :: 0 <= i < j < |items| ==> items[i].id != items[j].id
  }

  /** Position of the first item with this id; |items| when there is none. */
  function IndexOf(items: seq<Item>, id: ItemId): (k: nat)
    ensures k <= |items|
    ensures k < |items| ==> items[k].id == id
    ensures forall j :: 0 <= j < k ==> items[j].id != id
  {
    if items == [] || items[0].id == id then 0 else 1 + IndexOf(items[1..], id)
  }

  predicate Has(items: seq<Item>, id: ItemId) { IndexOf(items, id) < |items| }

  function At(items: seq<Item>, id: ItemId): Item
    requires Has(items, id)
  {
    items[IndexOf(items, id)]
  }

  predicate SameIds(a: seq<Item>, b: seq<Item>) {
    |a| == |b| && forall i :: 0 <= i < |a| ==> a[i].id == b[i].id
  }

  lemma SameIdsSameIndex(a: seq<Item>, b: seq<Item>, id: ItemId)
    requires SameIds(a, b)
    ensures IndexOf(a, id) == IndexOf(b, id)
  {
  }

  predicate IsMissing(i: Item) { i.required && !i.status.Ready? && !i.status.Generated? }

  function ValidateChecklist(items: seq<Item>): (missing: seq<Item>)
    ensures forall i :: i in missing <==> i in items && IsMissing(i)
  {
    if items == [] then []
    else
      var front := ValidateChecklist(items[..|items| - 1]);
      var last := items[|items| - 1];
      assert items == items[..|items| - 1] + [last];
      if IsMissing(last) then front + [last] else front
  }

  // ---- the rule checklist ----

  /** What the rules read off the notice text, its assignee, and the attachments. */
  datatype RuleFacts = RuleFacts(assignee: string, asksRecord: bool, asksBond: bool, asksLicense: bool)

  const BASE_IDS := [BidForm, BusinessRegistration, CorporateSeal, ManufacturerLetter, Catalog,
                     TechnicalCompliance, PerformanceRecord, BidBond, LicenseCertificate]

  function OrNone(s: string): Option<string> { if s == "" then None else Some(s) }

  function RuleItem(id: ItemId, facts: RuleFacts, bidFormFilled: bool): Item {
    var optional := (id.PerformanceRecord? && !facts.asksRecord) || (id.BidBond? && !facts.asksBond)
                    || (id.LicenseCertificate? && !facts.asksLicense);
    var filled := id.BidForm? && bidFormFilled;
    Item(id, !optional,
         if optional then NotApplicable else if filled then Generated else Needed,
         OrNone(facts.assignee), None,
         if filled then "rule+hwp" else "rule")
  }

  function RuleChecklist(facts: RuleFacts, bidFormFilled: bool): (items: seq<Item>)
    ensures |items| == |BASE_IDS| && DistinctIds(items)
    ensures forall i :: 0 <= i < |items| ==> items[i].id == BASE_IDS[i]
  {
    seq(|BASE_IDS|, i requires 0 <= i < |BASE_IDS| => RuleItem(BASE_IDS[i], facts, bidFormFilled))
  }

  lemma BaseIdsCoverAll(id: ItemId, facts: RuleFacts, bidFormFilled: bool)
    ensures Has(RuleChecklist(facts, bidFormFilled), id) <==> !id.Extra?
  {
    var items := RuleChecklist(facts, bidFormFilled);
    match id {
      case BidForm => assert items[0].id == id;
      case BusinessRegistration => assert items[1].id == id;
      case CorporateSeal => assert items[2].id == id;
      case ManufacturerLetter => assert items[3].id == id;
      case Catalog => assert items[4].id == id;
      case TechnicalCompliance => assert items[5].id == id;
      case PerformanceRecord => assert items[6].id == id;
      case BidBond => assert items[7].id == id;
      case LicenseCertificate => assert items[8].id == id;
      case Extra(_) =>
    }
  }

  // ---- LLM suggestions ----

  /** A suggested item with a non-empty name; required is absent when the LLM left it out. */
  datatype Suggested = Suggested(id: ItemId, required: Option<bool>, owner: string)

  /** The LLM's answer, or the text of its failure. */
  datatype Suggestion = Suggestion(items: seq<Suggested>, error: Option<string>)

  function MergeInto(target: Item, x: Suggested): Item {
    var synced :=
      if x.required.None? then target
      else target.(
        required := x.required.value,
        status :=
          if x.required.value && target.status.NotApplicable? then Needed
          else if !x.required.value && (target.status.Needed? || target.status.Blocked?) then NotApplicable
          else target.status);
    synced.(source := AppendSource(target.source, "llm"))
  }

  function NewItem(x: Suggested, defaultOwner: string): Item {
    var required := x.required.None? || x.required.value;
    Item(x.id, required, if required then Needed else NotApplicable,
         OrNone(if x.owner != "" then x.owner else defaultOwner), None, "llm")
  }

  function MergeOne(items: seq<Item>, x: Suggested, defaultOwner: string): seq<Item> {
    var k := IndexOf(items, x.id);
    if k < |items| then items[k := MergeInto(items[k], x)] else items + [NewItem(x, defaultOwner)]
  }

  function Merged(base: seq<Item>, extra: seq<Suggested>, defaultOwner: string): seq<Item> {
    if extra == [] then base
    else MergeOne(Merged(base, extra[..|extra| - 1], defaultOwner), extra[|extra| - 1], defaultOwner)
  }

  predicate Suggests(extra: seq<Suggested>, id: ItemId) { exists j :: 0 <= j < |extra| && extra[j].id == id }

  lemma {:induction false} IndexOfAppend(front: seq<Item>, last: Item, id: ItemId)
    ensures IndexOf(front + [last], id) ==
            if Has(front, id) then IndexOf(front, id) else if last.id == id then |front| else |front| + 1
  {
    if front != [] {
      IndexOfAppend(front[1..], last, id);
      assert (front + [last])[1..] == front[1..] + [last];
    }
  }

  lemma MergeOneIds(items: seq<Item>, x: Suggested, defaultOwner: string, id: ItemId)
    requires DistinctIds(items)
    ensures DistinctIds(MergeOne(items, x, defaultOwner))
    ensures Has(MergeOne(items, x, defaultOwner), id) <==> Has(items, id) || x.id == id
  {
    var after := MergeOne(items, x, defaultOwner);
    if Has(items, x.id) {
      SameIdsSameIndex(items, after, id);
    } else {
      IndexOfAppend(items, NewItem(x, defaultOwner), id);
      assert forall i :: 0 <= i < |items| ==> after[i].id == items[i].id != x.id;
    }
  }

  /** Merging keeps ids distinct and the item ids are the base ids and the suggested ones, nothing else. */
  lemma {:induction false} MergedIds(base: seq<Item>, extra: seq<Suggested>, defaultOwner: string, id: ItemId)
    requires DistinctIds(base)
    ensures DistinctIds(Merged(base, extra, defaultOwner))
    ensures Has(Merged(base, extra, defaultOwner), id) <==> Has(base, id) || Suggests(extra, id)
  {
    if extra != [] {
      var front, last := extra[..|extra| - 1], extra[|extra| - 1];
      MergedIds(base, front, defaultOwner, id);
      MergeOneIds(Merged(base, front, defaultOwner), last, defaultOwner, id);
      SuggestsSnoc(extra, id);
    }
  }

  lemma SuggestsSnoc(extra: seq<Suggested>, id: ItemId)
    requires extra != []
    ensures Suggests(extra, id) <==> Suggests(extra[..|extra| - 1], id) || extra[|extra| - 1].id == id
  {
  }

  // ---- manual edits survive ----

  function ById(items: seq<Item>): (m: map<ItemId, Item>)
    ensures forall id :: id in m ==> m[id] in items && m[id].id == id
  {
    if items == [] then map[] else ById(items[..|items| - 1])[items[|items| - 1].id := items[|items| - 1]]
  }

  lemma {:induction false} ByIdFinds(items: seq<Item>, id: ItemId)
    requires DistinctIds(items)
    ensures id in ById(items) <==> Has(items, id)
    ensures Has(items, id) ==> ById(items)[id] == At(items, id)
  {
    if items != [] {
      var front, last := items[..|items| - 1], items[|items| - 1];
      assert items == front + [last];
      ByIdFinds(front, id);
      IndexOfAppend(front, last, id);
    }
  }

  function Preserve(item: Item, previous: map<ItemId, Item>): Item {
    if item.id in previous && Occurs(MANUAL, previous[item.id].source) then
      var p := previous[item.id];
      item.(status := p.status, owner := p.owner, note := p.note, source := AppendSource(item.source, MANUAL))
    else item
  }

  function Preserved(items: seq<Item>, previous: seq<Item>): seq<Item> {
    seq(|items|, i requires 0 <= i < |items| => Preserve(items[i], ById(previous)))
  }

  // ---- uploads promote ----

  predicate Maps(u: Upload, id: ItemId) { u.itemId == Some(id) }

  predicate MappedIn(uploads: seq<Upload>, id: ItemId) { exists j :: 0 <= j < |uploads| && Maps(uploads[j], id) }

  predicate Promotable(s: ItemStatus) { s.Needed? || s.Blocked? }

  function Promote(item: Item, mapped: bool): Item {
    if mapped && Promotable(item.status)
    then item.(status := Ready, source := AppendSource(item.source, "upload"))
    else item
  }

  function Applied(checklist: seq<Item>, uploads: seq<Upload>): seq<Item> {
    seq(|checklist|, i requires 0 <= i < |checklist| => Promote(checklist[i], MappedIn(uploads, checklist[i].id)))
  }

  // ---- the whole analysis ----

  function LlmErrors(llm: Suggestion): seq<DocError> {
    if llm.error.Some? && llm.error.value != "" then [DocError(DocumentLlm, true, llm.error.value)] else []
  }

  function AnalyzedChecklist(facts: RuleFacts, bidFormFilled: bool, llm: Suggestion, existing: Docs): seq<Item> {
    var merged := Merged(RuleChecklist(facts, bidFormFilled), llm.items, facts.assignee);
    Applied(Preserved(merged, existing.checklist), existing.uploads)
  }

  /** Replaces checklist, readiness and errors; uploads and exports stay. */
  function AnalyzedDocs(facts: RuleFacts, bidFormFilled: bool, llm: Suggestion, existing: Docs): Docs {
    var checklist := AnalyzedChecklist(facts, bidFormFilled, llm, existing);
    var missing := ValidateChecklist(checklist);
    Docs(checklist, existing.uploads, existing.exports, missing, missing == [], LlmErrors(llm))
  }

  // ---- single-item updates ----

  function PatchItem(item: Item, status: Option<ItemStatus>, owner: Option<string>, note: Option<string>): Item {
    item.(status := if status.Some? then status.value else item.status,
          owner := if owner.Some? then owner else item.owner,
          note := if note.Some? then note else item.note,
          source := AppendSource(OrRule(item.source), MANUAL))
  }

  /** str(item.get("source") or "rule") */
  function OrRule(source: string): string { if source == "" then "rule" else source }

  function Refreshed(docs: Docs): Docs {
    var missing := ValidateChecklist(docs.checklist);
    docs.(missing := missing, ready := missing == [])
  }

  function PatchedDocs(docs: Docs, id: ItemId, status: Option<ItemStatus>, owner: Option<string>,
                       note: Option<string>): Docs
    requires Has(docs.checklist, id)
  {
    var k := IndexOf(docs.checklist, id);
    Refreshed(docs.(checklist := docs.checklist[k := PatchItem(docs.checklist[k], status, owner, note)]))
  }

  function FillForm(item: Item): Item {
    if item.id.BidForm? then item.(status := Generated, source := AppendSource(OrRule(item.source), "hwp")) else item
  }

  function WithBidForm(docs: Docs): Docs {
    Refreshed(docs.(checklist :=
      seq(|docs.checklist|, i requires 0 <= i < |docs.checklist| => FillForm(docs.checklist[i]))))
  }

  function PromoteOrRule(item: Item): Item {
    if Promotable(item.status)
    then item.(status := Ready, source := AppendSource(OrRule(item.source), "upload"))
    else item
  }

  /** The checklist after one upload arrives: only the first item with the mapped id can change. */
  function PromotedBy(checklist: seq<Item>, u: Upload): seq<Item> {
    if u.itemId.None? then checklist
    else
      var k := IndexOf(checklist, u.itemId.value);
      if k < |checklist| then checklist[k := PromoteOrRule(checklist[k])] else checklist
  }

  function WithUpload(docs: Docs, u: Upload): Docs {
    docs.(uploads := docs.uploads + [u], checklist := PromotedBy(docs.checklist, u))
  }

  // ---- sources are never empty ----

  predicate Sourced(items: seq<Item>) { forall i :: 0 <= i < |items| ==> items[i].source != "" }

  lemma {:induction false} MergedIsSourced(base: seq<Item>, extra: seq<Suggested>, defaultOwner: string)
    requires Sourced(base)
    ensures Sourced(Merged(base, extra, defaultOwner))
  {
    if extra != [] {
      MergedIsSourced(base, extra[..|extra| - 1], defaultOwner);
      var merged, x := Merged(base, extra[..|extra| - 1], defaultOwner), extra[|extra| - 1];
      if Has(merged, x.id) {
        LiteralTokens();
        AppendedSourceIsNonEmpty(At(merged, x.id).source, "llm");
      }
    }
  }

  /** Whatever was there before, an analysis leaves no item without a source. */
  lemma AnalyzedIsSourced(facts: RuleFacts, bidFormFilled: bool, llm: Suggestion, existing: Docs)
    ensures Sourced(AnalyzedChecklist(facts, bidFormFilled, llm, existing))
  {
    var merged := Merged(RuleChecklist(facts, bidFormFilled), llm.items, facts.assignee);
    var kept := Preserved(merged, existing.checklist);
    MergedIsSourced(RuleChecklist(facts, bidFormFilled), llm.items, facts.assignee);
    PreservedIsSourced(merged, existing.checklist);
    AppliedIsSourced(kept, existing.uploads);
  }

  lemma PreservedIsSourced(items: seq<Item>, previous: seq<Item>)
    requires Sourced(items)
    ensures Sourced(Preserved(items, previous))
  {
    LiteralTokens();
    forall i | 0 <= i < |items|
      ensures AppendSource(items[i].source, MANUAL) != ""
    {
      AppendedSourceIsNonEmpty(items[i].source, MANUAL);
    }
  }

  lemma AppliedIsSourced(items: seq<Item>, uploads: seq<Upload>)
    requires Sourced(items)
    ensures Sourced(Applied(items, uploads))
  {
    LiteralTokens();
    forall i | 0 <= i < |items|
      ensures AppendSource(items[i].source, "upload") != ""
    {
      AppendedSourceIsNonEmpty(items[i].source, "upload");
    }
  }

  lemma PromotedIsSourced(checklist: seq<Item>, u: Upload)
    requires Sourced(checklist)
    ensures Sourced(PromotedBy(checklist, u))
  {
    if u.itemId.Some? && Has(checklist, u.itemId.value) {
      LiteralTokens();
      AppendedSourceIsNonEmpty(OrRule(At(checklist, u.itemId.value).source), "upload");
    }
  }

  lemma PatchedIsSourced(docs: Docs, id: ItemId, status: Option<ItemStatus>, owner: Option<string>,
                         note: Option<string>)
    requires Sourced(docs.checklist) && Has(docs.checklist, id)
    ensures Sourced(PatchedDocs(docs, id, status, owner, note).checklist)
  {
    LiteralTokens();
    AppendedSourceIsNonEmpty(OrRule(At(docs.checklist, id).source), MANUAL);
  }

  lemma FilledIsSourced(docs: Docs)
    requires Sourced(docs.checklist)
    ensures Sourced(WithBidForm(docs).checklist)
  {
    LiteralTokens();
    forall i | 0 <= i < |docs.checklist|
      ensures FillForm(docs.checklist[i]).source != ""
    {
      AppendedSourceIsNonEmpty(OrRule(docs.checklist[i].source), "hwp");
    }
  }

  // ---- one upload at a time or all at once ----

  function FoldUploads(checklist: seq<Item>, uploads: seq<Upload>): seq<Item> {
    if uploads == [] then checklist
    else PromotedBy(FoldUploads(checklist, uploads[..|uploads| - 1]), uploads[|uploads| - 1])
  }

  lemma {:induction false} FoldSameIds(checklist: seq<Item>, uploads: seq<Upload>)
    ensures SameIds(FoldUploads(checklist, uploads), checklist)
  {
    if uploads != [] {
      FoldSameIds(checklist, uploads[..|uploads| - 1]);
    }
  }

  lemma MappedSnoc(uploads: seq<Upload>, id: ItemId)
    requires uploads != []
    ensures MappedIn(uploads, id) <==> MappedIn(uploads[..|uploads| - 1], id) || Maps(uploads[|uploads| - 1], id)
  {
  }

  lemma {:induction false} FoldAt(checklist: seq<Item>, uploads: seq<Upload>, k: nat)
    requires DistinctIds(checklist)
    requires k < |checklist| == |FoldUploads(checklist, uploads)|
    ensures FoldUploads(checklist, uploads)[k] ==
            if MappedIn(uploads, checklist[k].id) then PromoteOrRule(checklist[k]) else checklist[k]
  {
    if uploads != [] {
      var front, u := uploads[..|uploads| - 1], uploads[|uploads| - 1];
      FoldSameIds(checklist, front);
      FoldAt(checklist, front, k);
      MappedSnoc(uploads, checklist[k].id);
      if u.itemId.Some? {
        SameIdsSameIndex(FoldUploads(checklist, front), checklist, u.itemId.value);
      }
    }
  }

  /** Some upload maps to the item, and it waits for a file. */
  predicate Promotes(item: Item, uploads: seq<Upload>) { MappedIn(uploads, item.id) && Promotable(item.status) }

  /** Merging uploads one by one gives the batch result exactly when no promoted item has an empty source. */
  lemma IncrementalIsBatch(checklist: seq<Item>, uploads: seq<Upload>)
    requires DistinctIds(checklist)
    ensures FoldUploads(checklist, uploads) == Applied(checklist, uploads)
            <==> forall i :: 0 <= i < |checklist| && Promotes(checklist[i], uploads) ==> checklist[i].source != ""
  {
    var fold, batch := FoldUploads(checklist, uploads), Applied(checklist, uploads);
    FoldSameIds(checklist, uploads);
    forall k | 0 <= k < |checklist|
      ensures fold[k] == if MappedIn(uploads, checklist[k].id) then PromoteOrRule(checklist[k]) else checklist[k]
    {
      FoldAt(checklist, uploads, k);
    }
    EmptySourceDiffers();
    if k :| 0 <= k < |checklist| && Promotes(checklist[k], uploads) && checklist[k].source == "" {
      assert fold[k].source != batch[k].source;
    }
  }

  lemma EmptySourceDiffers()
    ensures AppendSource(OrRule(""), "upload") != AppendSource("", "upload")
  {
    LiteralTokens();
    AppendSourceTokens("rule", "upload");
    AppendSourceTokens("", "upload");
    assert |Tokens(AppendSource("rule", "upload"))| == 2;
    assert |Tokens("")| == 0;
  }

  /** Arrival order of the uploads does not matter. */
  lemma UploadOrderIsIrrelevant(checklist: seq<Item>, us: seq<Upload>, vs: seq<Upload>)
    requires DistinctIds(checklist)
    requires multiset(us) == multiset(vs)
    ensures FoldUploads(checklist, us) == FoldUploads(checklist, vs)
  {
    var a, b := FoldUploads(checklist, us), FoldUploads(checklist, vs);
    FoldSameIds(checklist, us);
    FoldSameIds(checklist, vs);
    forall k | 0 <= k < |checklist|
      ensures a[k] == b[k]
    {
      FoldAt(checklist, us, k);
      FoldAt(checklist, vs, k);
      if MappedIn(us, checklist[k].id) { SameMapped(us, vs, checklist[k].id); }
      if MappedIn(vs, checklist[k].id) { SameMapped(vs, us, checklist[k].id); }
    }
  }

  lemma SameMapped(us: seq<Upload>, vs: seq<Upload>, id: ItemId)
    requires multiset(us) == multiset(vs)
    requires MappedIn(us, id)
    ensures MappedIn(vs, id)
  {
    var j :| 0 <= j < |us| && Maps(us[j], id);
    assert us[j] in multiset(vs);
    var k :| 0 <= k < |vs| && vs[k] == us[j];
    assert Maps(vs[k], id);
  }
}
