/** The export table with soft deletion, and the JSON mirror of it inside the notice. */
module Exports {
  import opened Text
  import opened NoticeModel

  predicate SamePair(e: Export, kind: ExportKind, draft: DraftId) { e.kind == kind && e.draft == draft }

  /** UPDATE notice_exports SET deleted_at = now on the live rows of this notice, kind and draft. */
  function Retired(rows: seq<ExportRow>, no: string, kind: ExportKind, draft: DraftId): seq<ExportRow> {
    seq(|rows|, i requires 0 <= i < |rows| =>
      if rows[i].noticeNo == no && SamePair(rows[i].record, kind, draft) then rows[i].(active := false) else rows[i])
  }

  function Recorded(rows: seq<ExportRow>, no: string, e: Export): seq<ExportRow> {
    Retired(rows, no, e.kind, e.draft) + [ExportRow(no, e, true)]
  }

  function RecordedAll(rows: seq<ExportRow>, no: string, es: seq<Export>): seq<ExportRow> {
    if es == [] then rows
    else Recorded(RecordedAll(rows, no, es[..|es| - 1]), no, es[|es| - 1])
  }

  function Survivors(exports: seq<Export>, kind: ExportKind, draft: DraftId): (r: seq<Export>)
    ensures forall e :: e in r <==> e in exports && !SamePair(e, kind, draft)
  {
    if exports == [] then []
    else
      var front := Survivors(exports[..|exports| - 1], kind, draft);
      var last := exports[|exports| - 1];
      assert exports == exports[..|exports| - 1] + [last];
      if SamePair(last, kind, draft) then front else front + [last]
  }

  function MergedExport(exports: seq<Export>, e: Export): seq<Export> {
    Survivors(exports, e.kind, e.draft) + [e]
  }

  function MergedAll(exports: seq<Export>, es: seq<Export>): seq<Export> {
    if es == [] then exports else MergedExport(MergedAll(exports, es[..|es| - 1]), es[|es| - 1])
  }

  /** The draft a download of this kind asks for. */
  function DraftOf(kind: ExportKind): DraftId {
    match kind
    case ProposalHwp => ProposalDraft
    case BidFormHwp => BidFormDraft
    case _ => ComplianceDraft
  }

  /** lookup_export: the first mirror record of the pair. */
  function LookupExport(exports: seq<Export>, kind: ExportKind, draft: DraftId): Option<Export> {
    if exports == [] then None
    else if SamePair(exports[0], kind, draft) then Some(exports[0])
    else LookupExport(exports[1..], kind, draft)
  }

  /** _lookup_active_export: the live row of the pair with the greatest (created_at, id). */
  function LookupActive(rows: seq<ExportRow>, no: string, kind: ExportKind, draft: DraftId): Option<Export> {
    if rows == [] then None
    else
      var best := LookupActive(rows[..|rows| - 1], no, kind, draft);
      var r := rows[|rows| - 1];
      if Live(r, no, kind, draft) && (best.None? || Newer(r.record, best.value)) then Some(r.record) else best
  }

  predicate Newer(a: Export, b: Export) {
    a.createdAt > b.createdAt || (a.createdAt == b.createdAt && a.id > b.id)
  }

  predicate Live(r: ExportRow, no: string, kind: ExportKind, draft: DraftId) {
    r.active && r.noticeNo == no && SamePair(r.record, kind, draft)
  }

  /** The live exports of a pair in the table, and the records of the pair in the mirror. */
  function ActiveOf(rows: seq<ExportRow>, no: string, kind: ExportKind, draft: DraftId): seq<Export> {
    if rows == [] then []
    else
      var front := ActiveOf(rows[..|rows| - 1], no, kind, draft);
      if Live(rows[|rows| - 1], no, kind, draft) then front + [rows[|rows| - 1].record] else front
  }

  function MirrorOf(exports: seq<Export>, kind: ExportKind, draft: DraftId): seq<Export> {
    if exports == [] then []
    else
      var front := MirrorOf(exports[..|exports| - 1], kind, draft);
      if SamePair(exports[|exports| - 1], kind, draft) then front + [exports[|exports| - 1]] else front
  }

  /** At most one live row per pair, and the mirror holds exactly that record. */
  ghost predicate Agree(rows: seq<ExportRow>, no: string, exports: seq<Export>) {
    forall kind, draft ::
      ActiveOf(rows, no, kind, draft) == MirrorOf(exports, kind, draft) && |MirrorOf(exports, kind, draft)| <= 1
  }

  // ---- recording and merging keep the agreement ----

  lemma {:induction false} RetiredActive(rows: seq<ExportRow>, no: string, k: ExportKind, d: DraftId, no': string,
                                         k': ExportKind, d': DraftId)
    ensures ActiveOf(Retired(rows, no, k, d), no', k', d') ==
            if no == no' && k == k' && d == d' then [] else ActiveOf(rows, no', k', d')
  {
    if rows != [] {
      RetiredActive(rows[..|rows| - 1], no, k, d, no', k', d');
      assert Retired(rows, no, k, d)[..|rows| - 1] == Retired(rows[..|rows| - 1], no, k, d);
    }
  }

  lemma RecordedActive(rows: seq<ExportRow>, no: string, e: Export, no': string, k: ExportKind, d: DraftId)
    ensures ActiveOf(Recorded(rows, no, e), no', k, d) ==
            if no == no' && SamePair(e, k, d) then [e] else ActiveOf(rows, no', k, d)
  {
    RetiredActive(rows, no, e.kind, e.draft, no', k, d);
    assert Recorded(rows, no, e)[..|rows|] == Retired(rows, no, e.kind, e.draft);
  }

  lemma {:induction false} SurvivorsMirror(exports: seq<Export>, k: ExportKind, d: DraftId, k': ExportKind, d': DraftId)
    ensures MirrorOf(Survivors(exports, k, d), k', d') == if k == k' && d == d' then [] else MirrorOf(exports, k', d')
  {
    if exports != [] {
      var front, last := exports[..|exports| - 1], exports[|exports| - 1];
      SurvivorsMirror(front, k, d, k', d');
      if !SamePair(last, k, d) {
        assert Survivors(exports, k, d)[..|Survivors(front, k, d)|] == Survivors(front, k, d);
      }
    }
  }

  lemma MergedMirror(exports: seq<Export>, e: Export, k: ExportKind, d: DraftId)
    ensures MirrorOf(MergedExport(exports, e), k, d) == if SamePair(e, k, d) then [e] else MirrorOf(exports, k, d)
  {
    SurvivorsMirror(exports, e.kind, e.draft, k, d);
    var s := Survivors(exports, e.kind, e.draft);
    assert MergedExport(exports, e)[..|s|] == s;
  }

  /** One export written to both places keeps them in agreement and leaves other notices alone. */
  lemma RecordKeepsAgreement(rows: seq<ExportRow>, no: string, exports: seq<Export>, e: Export)
    requires Agree(rows, no, exports)
    ensures Agree(Recorded(rows, no, e), no, MergedExport(exports, e))
  {
    forall k, d
      ensures ActiveOf(Recorded(rows, no, e), no, k, d) == MirrorOf(MergedExport(exports, e), k, d)
      ensures |MirrorOf(MergedExport(exports, e), k, d)| <= 1
    {
      RecordedActive(rows, no, e, no, k, d);
      MergedMirror(exports, e, k, d);
      assert ActiveOf(rows, no, k, d) == MirrorOf(exports, k, d) && |MirrorOf(exports, k, d)| <= 1;
    }
  }

  lemma RecordLeavesOthers(rows: seq<ExportRow>, no: string, e: Export, other: string, exports: seq<Export>)
    requires no != other
    requires Agree(rows, other, exports)
    ensures Agree(Recorded(rows, no, e), other, exports)
  {
    forall k, d
      ensures ActiveOf(Recorded(rows, no, e), other, k, d) == MirrorOf(exports, k, d)
      ensures |MirrorOf(exports, k, d)| <= 1
    {
      RecordedActive(rows, no, e, other, k, d);
      assert ActiveOf(rows, other, k, d) == MirrorOf(exports, k, d) && |MirrorOf(exports, k, d)| <= 1;
    }
  }

  lemma {:induction false} RecordAllKeepsAgreement(rows: seq<ExportRow>, no: string, exports: seq<Export>,
                                                   es: seq<Export>)
    requires Agree(rows, no, exports)
    ensures Agree(RecordedAll(rows, no, es), no, MergedAll(exports, es))
  {
    if es != [] {
      RecordAllKeepsAgreement(rows, no, exports, es[..|es| - 1]);
      RecordKeepsAgreement(RecordedAll(rows, no, es[..|es| - 1]), no, MergedAll(exports, es[..|es| - 1]), es[|es| - 1]);
    }
  }

  lemma {:induction false} RecordAllLeavesOthers(rows: seq<ExportRow>, no: string, es: seq<Export>, other: string,
                                                 exports: seq<Export>)
    requires no != other
    requires Agree(rows, other, exports)
    ensures Agree(RecordedAll(rows, no, es), other, exports)
  {
    if es != [] {
      RecordAllLeavesOthers(rows, no, es[..|es| - 1], other, exports);
      RecordLeavesOthers(RecordedAll(rows, no, es[..|es| - 1]), no, es[|es| - 1], other, exports);
    }
  }

  // ---- agreement is what the two lookups need ----

  lemma {:induction false} LookupExportIsFirst(exports: seq<Export>, kind: ExportKind, draft: DraftId)
    ensures LookupExport(exports, kind, draft) ==
            if MirrorOf(exports, kind, draft) == [] then None else Some(MirrorOf(exports, kind, draft)[0])
  {
    if exports != [] {
      LookupExportIsFirst(exports[1..], kind, draft);
      MirrorOfCons(exports, kind, draft);
    }
  }

  lemma {:induction false} MirrorOfCons(exports: seq<Export>, kind: ExportKind, draft: DraftId)
    requires exports != []
    ensures MirrorOf(exports, kind, draft) ==
            (if SamePair(exports[0], kind, draft) then [exports[0]] else []) + MirrorOf(exports[1..], kind, draft)
  {
    if |exports| > 1 {
      MirrorOfCons(exports[..|exports| - 1], kind, draft);
      assert exports[1..][..|exports| - 2] == exports[..|exports| - 1][1..];
    }
  }

  lemma {:induction false} LookupActiveOfOne(rows: seq<ExportRow>, no: string, kind: ExportKind, draft: DraftId)
    requires |ActiveOf(rows, no, kind, draft)| <= 1
    ensures LookupActive(rows, no, kind, draft) ==
            if ActiveOf(rows, no, kind, draft) == [] then None else Some(ActiveOf(rows, no, kind, draft)[0])
  {
    if rows != [] {
      LookupActiveOfOne(rows[..|rows| - 1], no, kind, draft);
    }
  }

  /** Both lookups name the same export, or neither finds one. */
  lemma LookupsAgree(rows: seq<ExportRow>, no: string, exports: seq<Export>, kind: ExportKind, draft: DraftId)
    requires Agree(rows, no, exports)
    ensures LookupActive(rows, no, kind, draft) == LookupExport(exports, kind, draft)
  {
    assert ActiveOf(rows, no, kind, draft) == MirrorOf(exports, kind, draft) && |MirrorOf(exports, kind, draft)| <= 1;
    LookupActiveOfOne(rows, no, kind, draft);
    LookupExportIsFirst(exports, kind, draft);
  }
}
