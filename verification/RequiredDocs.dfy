/** Required documents: the best row of a classifier's answer for each document and stage, and the stored table. */
module RequiredDocs {
  import opened Text

  const SUBMIT_STAGES := {"bid", "proposal", "price", "post_award", "contract", "delivery", "conditional"}
  const REQUIREMENT_TYPES := {"required", "conditional", "winner_only", "contract_stage", "reference"}

  /** float(confidence): ValueError or TypeError, a NaN, an infinity, a number, or OverflowError for a huge integer. */
  datatype Confidence = Unreadable | NotANumber | Infinite(negative: bool) | Number(x: real) | TooLarge

  /** One element of the answer: Entry holds str(value or "") of the three named fields, the confidence, whether
      page_no is an infinite number, and the remaining columns already cleaned. */
  datatype RawItem =
    | NotObject
    | Entry(docName: string, kind: string, stage: string, confidence: Confidence, infinitePage: bool, details: string)

  /** confidence in thousandths */
  datatype Row = Row(docName: string, kind: string, stage: string, details: string, confidence: nat)

  type RowKey = (string, string)

  function KeyOf(r: Row): RowKey { (r.docName, r.stage) }

  // ---- one element ----

  function Or(s: string, otherwise: string): string { if s == "" then otherwise else s }

  function KindOf(kind: string): string {
    var k := Strip(Or(kind, "required"));
    if k in REQUIREMENT_TYPES then k else "required"
  }

  function StageOf(stage: string, kind: string): string {
    var s := Strip(Or(stage, "bid"));
    if s in SUBMIT_STAGES then s else if kind == "conditional" then "conditional" else "bid"
  }

  function Clamped(x: real): real { if x < 0.0 then 0.0 else if x > 1.0 then 1.0 else x }

  /** round(x, 3), halves to even, in thousandths */
  function Thousandths(x: real): (n: nat)
    requires 0.0 <= x <= 1.0
    ensures -0.5 <= n as real - x * 1000.0 <= 0.5 && n <= 1000
  {
    var floor := (x * 1000.0).Floor;
    var rest := x * 1000.0 - floor as real;
    if rest < 0.5 || (rest == 0.5 && floor % 2 == 0) then floor else floor + 1
  }

  function Take(s: string, n: nat): string { if |s| <= n then s else s[..n] }

  predicate Named(item: RawItem) { item.Entry? && Strip(item.docName) != "" }

  /** Converting the confidence or the page number raises OverflowError, which nothing catches. */
  predicate RaisesOn(item: RawItem) { Named(item) && (item.confidence.TooLarge? || item.infinitePage) }

  predicate Raises(items: seq<RawItem>) { exists i :: 0 <= i < |items| && RaisesOn(items[i]) }

  /** max(0.0, min(1.0, x)): min keeps its first argument against a NaN. */
  function Clamp(c: Confidence): real {
    match c
    case NotANumber => 1.0
    case Infinite(negative) => if negative then 0.0 else 1.0
    case Number(x) => Clamped(x)
    case _ => 0.5
  }

  /** The row of one element, unless it is no object or names no document. */
  function RowOf(item: RawItem): Option<Row> {
    if !Named(item) || RaisesOn(item) then None
    else
      var kind := KindOf(item.kind);
      Some(Row(Take(Strip(item.docName), 200), kind, StageOf(item.stage, kind), item.details,
               Thousandths(Clamp(item.confidence))))
  }

  function Rows(items: seq<RawItem>): seq<Row> {
    if items == [] then []
    else
      var front, last := Rows(items[..|items| - 1]), RowOf(items[|items| - 1]);
      if last.Some? then front + [last.value] else front
  }

  // ---- merge: a dict keeps the place of a key it overwrites ----

  function Place(rows: seq<Row>, key: RowKey): (i: nat)
    ensures i <= |rows|
    ensures i < |rows| ==> KeyOf(rows[i]) == key
    ensures forall j :: 0 <= j < i ==> KeyOf(rows[j]) != key
  {
    if rows == [] || KeyOf(rows[0]) == key then 0 else 1 + Place(rows[1..], key)
  }

  function MergeRow(merged: seq<Row>, row: Row): seq<Row> {
    var i := Place(merged, KeyOf(row));
    if i == |merged| then merged + [row]
    else if row.confidence > merged[i].confidence then merged[i := row]
    else merged
  }

  function Merged(rows: seq<Row>): seq<Row> {
    if rows == [] then [] else MergeRow(Merged(rows[..|rows| - 1]), rows[|rows| - 1])
  }

  // ---- sort: by stage, then falling confidence, stable ----

  function StageOrder(stage: string): nat {
    match stage
    case "bid" => 0
    case "proposal" => 1
    case "price" => 2
    case "conditional" => 3
    case "post_award" => 4
    case "contract" => 5
    case "delivery" => 6
    case _ => 9
  }

  /** The sort key: (order of the stage, -confidence). */
  function SortKey(r: Row): (int, int) { (StageOrder(r.stage), -(r.confidence as int)) }

  predicate Less(a: (int, int), b: (int, int)) { a.0 < b.0 || (a.0 == b.0 && a.1 < b.1) }

  function Insert(key: Row -> (int, int), sorted: seq<Row>, x: Row): seq<Row> {
    if sorted != [] && Less(key(x), key(sorted[|sorted| - 1]))
    then Insert(key, sorted[..|sorted| - 1], x) + [sorted[|sorted| - 1]]
    else sorted + [x]
  }

  /** sorted(rows, key=key) */
  function Sorted(key: Row -> (int, int), rows: seq<Row>): seq<Row> {
    if rows == [] then [] else Insert(key, Sorted(key, rows[..|rows| - 1]), rows[|rows| - 1])
  }

  function Normalized(items: seq<RawItem>): seq<Row> { Sorted(SortKey, Merged(Rows(items))) }

  lemma RowsNext(items: seq<RawItem>, item: RawItem)
    ensures Rows(items + [item]) == if RowOf(item).Some? then Rows(items) + [RowOf(item).value] else Rows(items)
  {
    assert (items + [item])[..|items|] == items;
  }

  /** One turn of the merge: no row, insert, overwrite in place, or keep. */
  method MergeNext(merged: seq<Row>, ghost seen: seq<RawItem>, item: RawItem) returns (r: seq<Row>)
    requires merged == Merged(Rows(seen))
    ensures r == Merged(Rows(seen + [item]))
  {
    RowsNext(seen, item);
    var row := RowOf(item);
    if row.None? { return merged; }
    ghost var rows := Rows(seen);
    assert (rows + [row.value])[..|rows|] == rows;
    var at := Place(merged, KeyOf(row.value));
    if at == |merged| {
      r := merged + [row.value];
    } else if row.value.confidence > merged[at].confidence {
      r := merged[at := row.value];
    } else {
      r := merged;
    }
  }

  lemma RaisesNext(items: seq<RawItem>, item: RawItem)
    ensures Raises(items + [item]) ==> Raises(items) || RaisesOn(item)
  {
  }

  /** The loop over the answer; it stops where a conversion raises. */
  method MergeItems(items: seq<RawItem>) returns (raised: bool, merged: seq<Row>)
    ensures raised == Raises(items)
    ensures !raised ==> merged == Merged(Rows(items))
  {
    merged := [];
    for i := 0 to |items|
      invariant merged == Merged(Rows(items[..i])) && !Raises(items[..i])
    {
      assert items[..i + 1] == items[..i] + [items[i]];
      if RaisesOn(items[i]) {
        assert Raises(items);
        return true, [];
      }
      RaisesNext(items[..i], items[i]);
      merged := MergeNext(merged, items[..i], items[i]);
    }
    assert items[..|items|] == items;
    raised := false;
  }

  /** _normalize */
  method Normalize(items: seq<RawItem>) returns (raised: bool, rows: seq<Row>)
    ensures raised == Raises(items)
    ensures !raised ==> rows == Normalized(items)
  {
    var merged;
    raised, merged := MergeItems(items);
    rows := if raised then [] else Sorted(SortKey, merged);
  }

  // ---- what the merge keeps ----

  ghost predicate DistinctKeys(rows: seq<Row>) {
    forall i, j :: 0 <= i < j < |rows| ==> KeyOf(rows[i]) != KeyOf(rows[j])
  }

  /** Greatest confidence of its key in rows, the earliest such row on ties. */
  ghost predicate BestAt(rows: seq<Row>, i: nat) {
    && i < |rows|
    && (forall j :: 0 <= j < |rows| && KeyOf(rows[j]) == KeyOf(rows[i]) ==> rows[j].confidence <= rows[i].confidence)
    && (forall j :: 0 <= j < i && KeyOf(rows[j]) == KeyOf(rows[i]) ==> rows[j].confidence < rows[i].confidence)
  }

  ghost predicate FirstAt(rows: seq<Row>, key: RowKey, i: nat) {
    i < |rows| && KeyOf(rows[i]) == key && forall j :: 0 <= j < i ==> KeyOf(rows[j]) != key
  }

  /** merged holds the best row of every key of rows, keys in the order of their first rows. */
  ghost predicate BestOfEach(rows: seq<Row>, merged: seq<Row>, first: seq<nat>, best: seq<nat>) {
    && |first| == |best| == |merged| && DistinctKeys(merged)
    && (forall k :: 0 <= k < |best| ==> BestAt(rows, best[k]) && merged[k] == rows[best[k]])
    && (forall k :: 0 <= k < |first| ==> FirstAt(rows, KeyOf(merged[k]), first[k]))
    && (forall k, m :: 0 <= k < m < |first| ==> first[k] < first[m])
    && (forall i :: 0 <= i < |rows| ==> Covered(merged, KeyOf(rows[i])))
  }

  ghost predicate Covered(merged: seq<Row>, key: RowKey) { exists k :: 0 <= k < |merged| && KeyOf(merged[k]) == key }

  lemma AllCovered(rows: seq<Row>, merged: seq<Row>, last: Row)
    requires forall i :: 0 <= i < |rows| ==> Covered(merged, KeyOf(rows[i]))
    requires !Covered(merged, KeyOf(last))
    ensures forall i :: 0 <= i < |rows + [last]| ==> Covered(merged + [last], KeyOf((rows + [last])[i]))
    ensures forall i :: 0 <= i < |rows| ==> KeyOf(rows[i]) != KeyOf(last)
    ensures DistinctKeys(merged) ==> DistinctKeys(merged + [last])
  {
    var now := merged + [last];
    forall i | 0 <= i < |rows|
      ensures Covered(now, KeyOf(rows[i]))
    {
      assert Covered(merged, KeyOf(rows[i]));
      var k :| 0 <= k < |merged| && KeyOf(merged[k]) == KeyOf(rows[i]);
      assert now[k] == merged[k];
    }
    assert now[|merged|] == last && Covered(now, KeyOf(last));
  }

  lemma AddFirst(rows: seq<Row>, merged: seq<Row>, first: seq<nat>, best: seq<nat>, last: Row)
    requires BestOfEach(rows, merged, first, best) && !Covered(merged, KeyOf(last))
    ensures BestOfEach(rows + [last], merged + [last], first + [|rows|], best + [|rows|])
  {
    AllCovered(rows, merged, last);
    forall k | 0 <= k < |best|
      ensures BestAt(rows + [last], best[k]) && FirstAt(rows + [last], KeyOf(merged[k]), first[k])
    {
      OthersStay(rows, last, best[k], KeyOf(merged[k]), first[k]);
    }
  }

  lemma OthersStay(rows: seq<Row>, last: Row, best: nat, key: RowKey, first: nat)
    requires BestAt(rows, best) && FirstAt(rows, key, first) && KeyOf(rows[best]) != KeyOf(last)
    ensures BestAt(rows + [last], best) && FirstAt(rows + [last], key, first)
  {
  }

  lemma ImproveCovered(rows: seq<Row>, merged: seq<Row>, last: Row, at: nat)
    requires forall i :: 0 <= i < |rows| ==> Covered(merged, KeyOf(rows[i]))
    requires at < |merged| && KeyOf(merged[at]) == KeyOf(last)
    ensures forall i :: 0 <= i < |rows + [last]| ==> Covered(merged[at := last], KeyOf((rows + [last])[i]))
    ensures DistinctKeys(merged) ==> DistinctKeys(merged[at := last])
  {
    var now := merged[at := last];
    forall i | 0 <= i < |rows|
      ensures Covered(now, KeyOf(rows[i]))
    {
      assert Covered(merged, KeyOf(rows[i]));
      var k :| 0 <= k < |merged| && KeyOf(merged[k]) == KeyOf(rows[i]);
      assert KeyOf(now[k]) == KeyOf(rows[i]);
    }
    assert now[at] == last && Covered(now, KeyOf(last));
  }

  lemma ImproveBest(rows: seq<Row>, last: Row, best: nat)
    requires BestAt(rows, best) && KeyOf(rows[best]) == KeyOf(last) && last.confidence > rows[best].confidence
    ensures BestAt(rows + [last], |rows|)
  {
    forall j | 0 <= j < |rows| && KeyOf(rows[j]) == KeyOf(last)
      ensures rows[j].confidence < last.confidence
    {
      assert rows[j].confidence <= rows[best].confidence;
    }
  }

  lemma FirstStays(rows: seq<Row>, last: Row, key: RowKey, first: nat)
    requires FirstAt(rows, key, first)
    ensures FirstAt(rows + [last], key, first)
  {
  }

  lemma Improve(rows: seq<Row>, merged: seq<Row>, first: seq<nat>, best: seq<nat>, last: Row, at: nat)
    requires BestOfEach(rows, merged, first, best)
    requires at < |merged| && KeyOf(merged[at]) == KeyOf(last) && last.confidence > merged[at].confidence
    ensures BestOfEach(rows + [last], merged[at := last], first, best[at := |rows|])
  {
    ImproveCovered(rows, merged, last, at);
    ImproveBest(rows, last, best[at]);
    forall k | 0 <= k < |best|
      ensures FirstAt(rows + [last], KeyOf(merged[k]), first[k])
      ensures k != at ==> BestAt(rows + [last], best[k])
    {
      FirstStays(rows, last, KeyOf(merged[k]), first[k]);
      if k != at { OthersStay(rows, last, best[k], KeyOf(merged[k]), first[k]); }
    }
  }

  lemma Keep(rows: seq<Row>, merged: seq<Row>, first: seq<nat>, best: seq<nat>, last: Row, at: nat)
    requires BestOfEach(rows, merged, first, best)
    requires at < |merged| && KeyOf(merged[at]) == KeyOf(last) && last.confidence <= merged[at].confidence
    ensures BestOfEach(rows + [last], merged, first, best)
  {
    var all := rows + [last];
    forall k | 0 <= k < |best|
      ensures BestAt(all, best[k]) && FirstAt(all, KeyOf(merged[k]), first[k])
    {
      assert KeyOf(all[best[k]]) == KeyOf(last) ==> k == at;
    }
    forall i | 0 <= i < |all|
      ensures Covered(merged, KeyOf(all[i]))
    {
      if i < |rows| { assert Covered(merged, KeyOf(rows[i])); }
    }
  }

  lemma {:induction false} MergedIsBest(rows: seq<Row>) returns (first: seq<nat>, best: seq<nat>)
    ensures BestOfEach(rows, Merged(rows), first, best)
  {
    if rows == [] {
      first, best := [], [];
    } else {
      var front, last := rows[..|rows| - 1], rows[|rows| - 1];
      assert rows == front + [last];
      first, best := MergedIsBest(front);
      var merged := Merged(front);
      var at := Place(merged, KeyOf(last));
      if at == |merged| {
        AddFirst(front, merged, first, best, last);
        first, best := first + [|front|], best + [|front|];
      } else if last.confidence > merged[at].confidence {
        Improve(front, merged, first, best, last, at);
        best := best[at := |front|];
      } else {
        Keep(front, merged, first, best, last, at);
      }
    }
  }

  // ---- what the sort does ----

  /** Earlier in the output: by sort key, then by rank. */
  ghost predicate Precedes(key: Row -> (int, int), rank: Row -> int, a: Row, b: Row) {
    Less(key(a), key(b)) || (key(a) == key(b) && rank(a) < rank(b))
  }

  ghost predicate InOrder(key: Row -> (int, int), rank: Row -> int, out: seq<Row>) {
    forall i, j :: 0 <= i < j < |out| ==> Precedes(key, rank, out[i], out[j])
  }

  lemma {:induction false} InsertAdds(key: Row -> (int, int), sorted: seq<Row>, x: Row)
    ensures multiset(Insert(key, sorted, x)) == multiset(sorted) + multiset{x}
  {
    if sorted != [] && Less(key(x), key(sorted[|sorted| - 1])) {
      assert sorted == sorted[..|sorted| - 1] + [sorted[|sorted| - 1]];
      InsertAdds(key, sorted[..|sorted| - 1], x);
    }
  }

  lemma AppendInOrder(key: Row -> (int, int), rank: Row -> int, out: seq<Row>, x: Row)
    requires InOrder(key, rank, out)
    requires forall r :: r in out ==> Precedes(key, rank, r, x)
    ensures InOrder(key, rank, out + [x])
  {
  }

  lemma {:induction false} InsertInOrder(key: Row -> (int, int), rank: Row -> int, sorted: seq<Row>, x: Row)
    requires InOrder(key, rank, sorted)
    requires forall r :: r in sorted ==> rank(r) < rank(x)
    ensures InOrder(key, rank, Insert(key, sorted, x))
  {
    if sorted != [] && Less(key(x), key(sorted[|sorted| - 1])) {
      var front, last := sorted[..|sorted| - 1], sorted[|sorted| - 1];
      InsertInOrder(key, rank, front, x);
      InsertAdds(key, front, x);
      var inner := Insert(key, front, x);
      forall r | r in inner
        ensures Precedes(key, rank, r, last)
      {
        assert r in multiset(inner);
      }
      AppendInOrder(key, rank, inner, last);
    } else {
      forall r | r in sorted
        ensures Precedes(key, rank, r, x)
      {
        var i :| 0 <= i < |sorted| && sorted[i] == r;
        if i < |sorted| - 1 { assert Precedes(key, rank, sorted[i], sorted[|sorted| - 1]); }
      }
      AppendInOrder(key, rank, sorted, x);
    }
  }

  lemma {:induction false} PlaceAt(rows: seq<Row>, i: nat)
    requires DistinctKeys(rows) && i < |rows|
    ensures Place(rows, KeyOf(rows[i])) == i
  {
  }

  function Rank(rows: seq<Row>): Row -> int { r => Place(rows, KeyOf(r)) }

  /** The sorted list is a permutation, ordered by sort key, and by place before the sort where keys are equal. */
  lemma {:induction false} SortedInOrder(key: Row -> (int, int), rows: seq<Row>, n: nat)
    requires DistinctKeys(rows) && n <= |rows|
    ensures InOrder(key, Rank(rows), Sorted(key, rows[..n]))
    ensures multiset(Sorted(key, rows[..n])) == multiset(rows[..n])
  {
    if n > 0 {
      assert rows[..n] == rows[..n - 1] + [rows[n - 1]];
      assert rows[..n][..n - 1] == rows[..n - 1];
      SortedInOrder(key, rows, n - 1);
      PlaceAt(rows, n - 1);
      forall r | r in Sorted(key, rows[..n - 1])
        ensures Rank(rows)(r) < Rank(rows)(rows[n - 1])
      {
        assert r in multiset(rows[..n - 1]);
        var i :| 0 <= i < n - 1 && rows[i] == r;
        PlaceAt(rows, i);
      }
      InsertInOrder(key, Rank(rows), Sorted(key, rows[..n - 1]), rows[n - 1]);
      InsertAdds(key, Sorted(key, rows[..n - 1]), rows[n - 1]);
    }
  }

  const STAGES := ["bid", "proposal", "price", "conditional", "post_award", "contract", "delivery"]

  /** Behind the other in the list of stages, or of the same stage and no more confident. */
  ghost predicate Behind(b: Row, a: Row) {
    exists p, q :: 0 <= p <= q < |STAGES| && STAGES[p] == a.stage && STAGES[q] == b.stage
      && (p == q ==> b.confidence <= a.confidence)
  }

  lemma StagePlace(stage: string) returns (p: nat)
    requires stage in SUBMIT_STAGES
    ensures p < |STAGES| && STAGES[p] == stage && StageOrder(stage) == p
  {
    p := StageOrder(stage);
  }

  lemma LessIsBehind(a: Row, b: Row)
    requires a.stage in SUBMIT_STAGES && b.stage in SUBMIT_STAGES
    requires Less(SortKey(a), SortKey(b)) || SortKey(a) == SortKey(b)
    ensures Behind(b, a)
  {
    var p := StagePlace(a.stage);
    var q := StagePlace(b.stage);
  }

  // ---- the answer as a whole ----

  /** A row for exactly the elements that name a document, unless one raises; every row can be stored:
      a name of 1 to 200 characters, a known kind, a known stage. */
  lemma RowIsStorable(item: RawItem)
    ensures RowOf(item).Some? <==> Named(item) && !RaisesOn(item)
    ensures RowOf(item).Some? ==>
              var r := RowOf(item).value;
              1 <= |r.docName| <= 200 && r.kind in REQUIREMENT_TYPES && r.stage in SUBMIT_STAGES && r.confidence <= 1000
  {
  }

  lemma BlankDefaults()
    ensures Strip("") == "" && Strip("required") == "required" && Strip("bid") == "bid"
  {
  }

  /** A known type or stage as it is given, a blank one and an unknown one by its default. */
  lemma KindAndStage(kind: string, stage: string, of: string)
    ensures
      var k, s := Strip(kind), Strip(stage);
      && KindOf(kind) == (if k in {"required", "conditional", "winner_only", "contract_stage", "reference"} then k
                          else "required")
      && StageOf(stage, of) ==
           if s in {"bid", "proposal", "price", "post_award", "contract", "delivery", "conditional"} then s
           else if stage != "" && of == "conditional" then "conditional" else "bid"
  {
    BlankDefaults();
  }

  lemma Extremes()
    ensures Thousandths(0.0) == 0 && Thousandths(1.0) == 1000 && Thousandths(0.5) == 500
  {
  }

  /** The confidence held in 0..1, one half when it cannot be read. */
  lemma ConfidenceHeld(c: Confidence)
    requires !c.TooLarge?
    ensures
      match c
      case Number(x) => Clamp(c) == if x < 0.0 then 0.0 else if 1.0 < x then 1.0 else x
      case Infinite(negative) => Thousandths(Clamp(c)) == if negative then 0 else 1000
      case NotANumber => Thousandths(Clamp(c)) == 1000
      case Unreadable => Thousandths(Clamp(c)) == 500
  {
    Extremes();
  }

  /** Every field of a row: the first 200 characters of the stripped name, type and stage, the confidence to the nearest
      thousandth. */
  lemma RowFields(item: RawItem)
    requires RowOf(item).Some?
    ensures
      var r := RowOf(item).value;
      && r.docName <= Strip(item.docName) && |r.docName| == (if |Strip(item.docName)| <= 200 then |Strip(item.docName)|
                                                            else 200)
      && r.details == item.details
      && r.kind == KindOf(item.kind) && r.stage == StageOf(item.stage, r.kind)
      && -0.5 <= r.confidence as real - 1000.0 * Clamp(item.confidence) <= 0.5
      && r.confidence == Thousandths(Clamp(item.confidence))
  {
  }

  /** An infinite page number is enough to make the analysis fail. */
  lemma InfinitePageRaises(docName: string, before: seq<RawItem>, after: seq<RawItem>)
    requires Strip(docName) != ""
    ensures Raises(before + [Entry(docName, "", "", Unreadable, true, "")] + after)
  {
    var items := before + [Entry(docName, "", "", Unreadable, true, "")] + after;
    assert RaisesOn(items[|before|]);
  }

  lemma PermutedKeys(merged: seq<Row>, out: seq<Row>)
    requires DistinctKeys(merged) && multiset(out) == multiset(merged)
    ensures DistinctKeys(out)
    ensures forall r :: r in out <==> r in merged
  {
    assert forall r :: r in out <==> r in multiset(out);
    assert forall r :: r in merged <==> r in multiset(merged);
    forall i, j | 0 <= i < j < |out|
      ensures KeyOf(out[i]) != KeyOf(out[j])
    {
      assert out[i] in merged && out[j] in merged;
      var k :| 0 <= k < |merged| && merged[k] == out[i];
      var m :| 0 <= m < |merged| && merged[m] == out[j];
      if k == m {
        TwiceInMultiset(out, i, j);
        OnceInMultiset(merged, k);
      }
    }
  }

  lemma TwiceInMultiset(s: seq<Row>, i: nat, j: nat)
    requires i < j < |s| && s[i] == s[j]
    ensures multiset(s)[s[i]] >= 2
  {
    assert s == s[..j] + [s[j]] + s[j + 1..];
    assert s[i] in s[..j];
  }

  lemma OnceInMultiset(s: seq<Row>, k: nat)
    requires DistinctKeys(s) && k < |s|
    ensures multiset(s)[s[k]] == 1
  {
    assert s == s[..k] + [s[k]] + s[k + 1..];
    assert s[k] !in s[..k] && s[k] !in s[k + 1..];
  }

  lemma OutIsBest(rows: seq<Row>, merged: seq<Row>, out: seq<Row>, first: seq<nat>, best: seq<nat>)
    requires BestOfEach(rows, merged, first, best)
    requires forall r :: r in out <==> r in merged
    ensures forall i :: 0 <= i < |rows| ==> Covered(out, KeyOf(rows[i]))
    ensures forall r :: r in out ==> exists b: nat :: BestAt(rows, b) && r == rows[b]
  {
    forall i | 0 <= i < |rows|
      ensures Covered(out, KeyOf(rows[i]))
    {
      assert Covered(merged, KeyOf(rows[i]));
      var k :| 0 <= k < |merged| && KeyOf(merged[k]) == KeyOf(rows[i]);
      assert merged[k] in out;
    }
    forall r | r in out
      ensures exists b: nat :: BestAt(rows, b) && r == rows[b]
    {
      var k :| 0 <= k < |merged| && merged[k] == r;
      assert BestAt(rows, best[k]);
    }
  }

  lemma OutInOrder(key: Row -> (int, int), rows: seq<Row>, merged: seq<Row>, out: seq<Row>, first: seq<nat>,
                   best: seq<nat>)
    requires BestOfEach(rows, merged, first, best)
    requires forall r :: r in out ==> r in merged
    requires InOrder(key, Rank(merged), out)
    ensures InOrder(key, Rank(rows), out)
  {
  }

  lemma BestInOrder(key: Row -> (int, int), rows: seq<Row>)
    ensures
      var out := Sorted(key, Merged(rows));
      && DistinctKeys(out)
      && (forall i :: 0 <= i < |rows| ==> Covered(out, KeyOf(rows[i])))
      && (forall r :: r in out ==> exists b: nat :: BestAt(rows, b) && r == rows[b])
      && InOrder(key, Rank(rows), out)
  {
    var merged := Merged(rows);
    var out := Sorted(key, merged);
    var first, best := MergedIsBest(rows);
    SortedInOrder(key, merged, |merged|);
    assert merged[..|merged|] == merged;
    PermutedKeys(merged, out);
    OutIsBest(rows, merged, out, first, best);
    OutInOrder(key, rows, merged, out, first, best);
  }

  /** One row per document and stage: the earliest of the most confident ones; by stage, confidence, first mention. */
  lemma {:induction false} NormalizedIsBest(items: seq<RawItem>)
    ensures
      var rows, out := Rows(items), Normalized(items);
      && DistinctKeys(out)
      && (forall i :: 0 <= i < |rows| ==> Covered(out, KeyOf(rows[i])))
      && (forall r :: r in out ==> exists b: nat :: BestAt(rows, b) && r == rows[b])
      && InOrder(SortKey, Rank(rows), out)
  {
    BestInOrder(SortKey, Rows(items));
  }

  lemma {:induction false} RowsAreStorable(items: seq<RawItem>)
    ensures forall r :: r in Rows(items) ==> r.stage in SUBMIT_STAGES
  {
    if items != [] {
      RowsAreStorable(items[..|items| - 1]);
      RowIsStorable(items[|items| - 1]);
    }
  }

  /** The rows come stage by stage in this order, the more confident first. */
  lemma StagesInOrder(items: seq<RawItem>)
    ensures forall i, j :: 0 <= i < j < |Normalized(items)| ==> Behind(Normalized(items)[j], Normalized(items)[i])
  {
    var out := Normalized(items);
    NormalizedIsBest(items);
    RowsAreStorable(items);
    forall i, j | 0 <= i < j < |out|
      ensures Behind(out[j], out[i])
    {
      assert out[i] in out && out[j] in out;
      assert Precedes(SortKey, Rank(Rows(items)), out[i], out[j]);
      LessIsBehind(out[i], out[j]);
    }
  }

  // ---- the stored table of one notice ----

  /** row holds the extracted columns; the others belong to people. The row id is the position. */
  datatype Stored = Stored(row: Row, checked: bool, owner: Option<string>, note: Option<string>)

  /** The unique constraint on (doc_name, submit_stage). */
  ghost predicate Unique(table: seq<Stored>) {
    forall i, j :: 0 <= i < j < |table| ==> KeyOf(table[i].row) != KeyOf(table[j].row)
  }

  function IndexOf(table: seq<Stored>, key: RowKey): (i: nat)
    ensures i <= |table|
    ensures i < |table| ==> KeyOf(table[i].row) == key
    ensures forall j :: 0 <= j < i ==> KeyOf(table[j].row) != key
  {
    if table == [] || KeyOf(table[0].row) == key then 0 else 1 + IndexOf(table[1..], key)
  }

  function StoreRow(table: seq<Stored>, row: Row): seq<Stored> {
    var i := IndexOf(table, KeyOf(row));
    if i < |table| then table[i := table[i].(row := row)] else table + [Stored(row, false, None, None)]
  }

  function StoreRows(table: seq<Stored>, rows: seq<Row>): seq<Stored> {
    if rows == [] then table else StoreRow(StoreRows(table, rows[..|rows| - 1]), rows[|rows| - 1])
  }

  /** What a person can change; the request fails when the new stage collides with another row. */
  datatype Edit = Edit(checked: Option<bool>, owner: Option<string>, note: Option<string>, kind: Option<string>,
                       stage: Option<string>)

  function Edited(s: Stored, e: Edit): Stored {
    var row := s.row.(kind := if e.kind.Some? then e.kind.value else s.row.kind,
                      stage := if e.stage.Some? then e.stage.value else s.row.stage);
    Stored(row,
           if e.checked.Some? then e.checked.value else s.checked,
           if e.owner.Some? then e.owner else s.owner,
           if e.note.Some? then e.note else s.note)
  }

  predicate Collides(table: seq<Stored>, i: nat, key: RowKey) {
    exists j :: 0 <= j < |table| && j != i && KeyOf(table[j].row) == key
  }

  datatype Event = Analyze(answer: seq<RawItem>) | Patch(id: nat, edit: Edit)

  function Step(table: seq<Stored>, e: Event): seq<Stored> {
    match e
    case Analyze(answer) => if Raises(answer) then table else StoreRows(table, Normalized(answer))
    case Patch(id, edit) =>
      if id >= |table| || Collides(table, id, KeyOf(Edited(table[id], edit).row)) then table
      else table[id := Edited(table[id], edit)]
  }

  function After(table: seq<Stored>, events: seq<Event>): seq<Stored> {
    if events == [] then table else Step(After(table, events[..|events| - 1]), events[|events| - 1])
  }

  /** The table of one notice. */
  class DocumentTable {
    var table: seq<Stored>

    constructor () ensures table == [] { table := []; }

    /** analyze_required_documents, behind the classifier; when it raises, the transaction is rolled back. */
    method AnalyzeRequiredDocuments(answer: seq<RawItem>) returns (raised: bool, upserted: nat)
      modifies this
      ensures table == Step(old(table), Analyze(answer))
      ensures raised == Raises(answer) && |table| == |old(table)| + upserted
    {
      upserted := 0;
      var rows;
      raised, rows := Normalize(answer);
      if raised { return; }
      for i := 0 to |rows|
        invariant table == StoreRows(old(table), rows[..i]) && |table| == |old(table)| + upserted
      {
        assert rows[..i + 1][..i] == rows[..i];
        var existing := IndexOf(table, KeyOf(rows[i]));
        if existing < |table| {
          table := table[existing := table[existing].(row := rows[i])];
        } else {
          table := table + [Stored(rows[i], false, None, None)];
          upserted := upserted + 1;
        }
      }
      assert rows[..|rows|] == rows;
    }
  }

  /** Rows stay, under the same id, with the same key and the same checked, owner and note. */
  ghost predicate KeepsPeoplesColumns(before: seq<Stored>, after: seq<Stored>) {
    && |before| <= |after|
    && (forall i :: 0 <= i < |before| ==>
        KeyOf(after[i].row) == KeyOf(before[i].row) && after[i] == before[i].(row := after[i].row))
    && (forall i :: |before| <= i < |after| ==> after[i] == Stored(after[i].row, false, None, None))
  }

  ghost predicate StoredRow(table: seq<Stored>, row: Row) { exists i :: 0 <= i < |table| && table[i].row == row }

  /** An answer updates or adds exactly its own rows; people's columns and all other rows stay as they are. */
  lemma {:induction false} StoreRowsEffect(table: seq<Stored>, rows: seq<Row>)
    requires Unique(table) && DistinctKeys(rows)
    ensures Unique(StoreRows(table, rows)) && KeepsPeoplesColumns(table, StoreRows(table, rows))
    ensures forall r :: r in rows ==> StoredRow(StoreRows(table, rows), r)
    ensures forall i :: 0 <= i < |StoreRows(table, rows)| ==>
              StoreRows(table, rows)[i].row in rows || (i < |table| && StoreRows(table, rows)[i] == table[i])
  {
    if rows != [] {
      var front, last := rows[..|rows| - 1], rows[|rows| - 1];
      assert rows == front + [last];
      StoreRowsEffect(table, front);
      forall r | r in rows
        ensures StoredRow(StoreRows(table, rows), r)
      {
        LastStores(table, rows, r);
      }
    }
  }

  lemma LastStores(table: seq<Stored>, rows: seq<Row>, r: Row)
    requires rows != [] && DistinctKeys(rows) && r in rows
    requires r in rows[..|rows| - 1] ==> StoredRow(StoreRows(table, rows[..|rows| - 1]), r)
    ensures StoredRow(StoreRows(table, rows), r)
  {
    var front, last := rows[..|rows| - 1], rows[|rows| - 1];
    assert rows == front + [last];
    var was, now := StoreRows(table, front), StoreRows(table, rows);
    if r == last {
      assert now[IndexOf(was, KeyOf(last))].row == last;
    } else {
      assert r in front;
      var i :| 0 <= i < |was| && was[i].row == r;
      var k :| 0 <= k < |front| && front[k] == r;
      assert KeyOf(rows[k]) != KeyOf(rows[|front|]);
      assert now[i].row == r;
    }
  }

  lemma {:induction false} StoredAlready(table: seq<Stored>, rows: seq<Row>)
    requires Unique(table) && forall r :: r in rows ==> StoredRow(table, r)
    ensures StoreRows(table, rows) == table
  {
    if rows != [] {
      var front, last := rows[..|rows| - 1], rows[|rows| - 1];
      assert rows == front + [last];
      StoredAlready(table, front);
      assert StoredRow(table, last);
      var i :| 0 <= i < |table| && table[i].row == last;
      assert IndexOf(table, KeyOf(last)) == i;
    }
  }

  /** Analysing the same answer again changes nothing and adds nothing. */
  lemma AnalyzeAgain(table: seq<Stored>, answer: seq<RawItem>)
    requires Unique(table)
    ensures var once := Step(table, Analyze(answer)); Step(once, Analyze(answer)) == once
  {
    NormalizedIsBest(answer);
    StoreRowsEffect(table, Normalized(answer));
    StoredAlready(StoreRows(table, Normalized(answer)), Normalized(answer));
  }

  lemma PatchKeeps(table: seq<Stored>, id: nat, edited: Stored)
    requires Unique(table) && id < |table| && !Collides(table, id, KeyOf(edited.row))
    ensures Unique(table[id := edited])
  {
  }

  lemma StepKeeps(table: seq<Stored>, e: Event, id: nat)
    requires Unique(table)
    ensures Unique(Step(table, e)) && |table| <= |Step(table, e)|
    ensures id < |table| && !(e.Patch? && e.id == id) ==>
              var now := Step(table, e)[id];
              KeyOf(now.row) == KeyOf(table[id].row) && now == table[id].(row := now.row)
  {
    match e {
      case Analyze(answer) =>
        var rows := Normalized(answer);
        NormalizedIsBest(answer);
        StoreRowsEffect(table, rows);
      case Patch(at, edit) =>
        if at < |table| && !Collides(table, at, KeyOf(Edited(table[at], edit).row)) {
          PatchKeeps(table, at, Edited(table[at], edit));
        }
    }
  }

  /** On every run one stored row per key; a row nobody patched keeps its id, key, checked, owner and note. */
  lemma {:induction false} PeoplesColumnsStay(table: seq<Stored>, events: seq<Event>, id: nat)
    requires Unique(table)
    ensures Unique(After(table, events)) && |table| <= |After(table, events)|
    ensures id < |table| && (forall e :: e in events && e.Patch? ==> e.id != id) ==>
              var now := After(table, events)[id];
              KeyOf(now.row) == KeyOf(table[id].row) && now == table[id].(row := now.row)
  {
    if events != [] {
      var front, last := events[..|events| - 1], events[|events| - 1];
      assert events == front + [last];
      PeoplesColumnsStay(table, front, id);
      StepKeeps(After(table, front), last, id);
    }
  }
}
