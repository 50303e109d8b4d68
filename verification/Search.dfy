/** Live search of G2B: date windows, paging, duplicates, and the local token filter. */
module Search {
  import opened Text
  import opened ComplianceTable

  // ---- date windows ----

  type Window = (int, int)

  predicate Within(w: Window, day: int) { w.0 <= day <= w.1 }

  function Windows(start: int, end: int, maxDays: int): seq<Window>
    requires maxDays >= 1
    decreases end - start + 1
  {
    if start > end then []
    else
      var last := if end <= start + maxDays - 1 then end else start + maxDays - 1;
      [(start, last)] + Windows(last + 1, end, maxDays)
  }

  /** _iter_windows */
  method IterWindows(start: int, end: int, maxDays: int) returns (out: seq<Window>)
    requires maxDays >= 1
    ensures out == Windows(start, end, maxDays)
  {
    out := [];
    var cur := start;
    while cur <= end
      invariant out + Windows(cur, end, maxDays) == Windows(start, end, maxDays)
      decreases end - cur + 1
    {
      var chunkEnd := if end <= cur + maxDays - 1 then end else cur + maxDays - 1;
      assert out + Windows(cur, end, maxDays) == (out + [(cur, chunkEnd)]) + Windows(chunkEnd + 1, end, maxDays);
      out := out + [(cur, chunkEnd)];
      cur := chunkEnd + 1;
    }
  }

  /** The windows cover every day of the range once, none outside it, in order, maxDays at most each. */
  lemma {:induction false} WindowsTile(start: int, end: int, maxDays: int)
    requires maxDays >= 1
    ensures
      var ws := Windows(start, end, maxDays);
      && (forall i :: 0 <= i < |ws| ==> start <= ws[i].0 <= ws[i].1 <= end && ws[i].1 - ws[i].0 + 1 <= maxDays)
      && (forall i, j :: 0 <= i < j < |ws| ==> ws[i].1 < ws[j].0)
      && (forall i :: 0 < i < |ws| ==> ws[i].0 == ws[i - 1].1 + 1)
      && (start <= end ==> ws != [] && ws[0].0 == start && ws[|ws| - 1].1 == end)
    decreases end - start + 1
  {
    if start <= end {
      var last := if end <= start + maxDays - 1 then end else start + maxDays - 1;
      WindowsTile(last + 1, end, maxDays);
    }
  }

  lemma {:induction false} SomeWindow(start: int, end: int, maxDays: int, day: int)
    requires maxDays >= 1
    ensures start <= day <= end <==> exists w :: w in Windows(start, end, maxDays) && Within(w, day)
    decreases end - start + 1
  {
    if start <= end {
      var last := if end <= start + maxDays - 1 then end else start + maxDays - 1;
      SomeWindow(last + 1, end, maxDays, day);
      var ws, rest := Windows(start, end, maxDays), Windows(last + 1, end, maxDays);
      assert ws == [(start, last)] + rest;
      if start <= day <= last {
        assert ws[0] in ws && Within(ws[0], day);
      } else if w :| w in rest && Within(w, day) {
        assert w in ws;
      }
      if w :| w in ws && Within(w, day) {
        assert w == ws[0] || w in rest;
      }
    }
  }

  // ---- the server: finite lists, served in pages ----

  /** raw holds the eight searched fields; origin is the endpoint that answered. */
  datatype Bid = Bid(bidNo: string, bidSeq: string, origin: nat, raw: seq<string>)

  /** One row of an answer; rows the parser cannot use carry no bid. */
  datatype Row = Row(date: int, bid: Option<Bid>)

  const PAGE_SIZE := 100
  const MAX_RANGE_DAYS := 30
  const ENDPOINTS := 5

  /** What the server lists for an endpoint and a query, all dates. */
  type Server = (nat, string) -> seq<Row>

  function InWindow(rows: seq<Row>, w: Window): seq<Row> {
    if rows == [] then []
    else if Within(w, rows[0].date) then [rows[0]] + InWindow(rows[1..], w)
    else InWindow(rows[1..], w)
  }

  function Parsed(rows: seq<Row>): seq<Bid> {
    if rows == [] then []
    else if rows[0].bid.Some? then [rows[0].bid.value] + Parsed(rows[1..])
    else Parsed(rows[1..])
  }

  function Least(a: nat, b: nat): nat { if a <= b then a else b }

  /** Page 1 is the first one; past the end a page is empty. */
  function Page(rows: seq<Row>, page: nat): seq<Row>
    requires page >= 1
  {
    rows[Least((page - 1) * PAGE_SIZE, |rows|)..Least(page * PAGE_SIZE, |rows|)]
  }

  lemma {:induction false} ParsedShorter(rows: seq<Row>)
    ensures |Parsed(rows)| <= |rows|
  {
    if rows != [] { ParsedShorter(rows[1..]); }
  }

  lemma {:induction false} ParsedAppend(a: seq<Row>, b: seq<Row>)
    ensures Parsed(a + b) == Parsed(a) + Parsed(b)
  {
    if a == [] {
      assert a + b == b;
    } else {
      ParsedAppend(a[1..], b);
      assert (a + b)[1..] == a[1..] + b;
    }
  }

  /** How many rows the page loop consumes: it stops behind the first page that does not parse to a full one. */
  function Consumed(rows: seq<Row>, page: nat): (n: nat)
    requires page >= 1
    ensures n <= |rows|
    decreases |rows| - page * PAGE_SIZE
  {
    var batch := Parsed(Page(rows, page));
    ParsedShorter(Page(rows, page));
    if |batch| == PAGE_SIZE then Consumed(rows, page + 1) else Least(page * PAGE_SIZE, |rows|)
  }

  /** _fetch_all: the server answers page by page. */
  method FetchAll(rows: seq<Row>) returns (items: seq<Bid>)
    ensures items == Parsed(rows[..Consumed(rows, 1)])
  {
    items := [];
    var page: nat := 1;
    while true
      invariant page >= 1 && items == Parsed(rows[..Least((page - 1) * PAGE_SIZE, |rows|)])
      invariant Consumed(rows, page) == Consumed(rows, 1)
      decreases |rows| - page * PAGE_SIZE
    {
      ghost var from := Least((page - 1) * PAGE_SIZE, |rows|);
      ghost var to := Least(page * PAGE_SIZE, |rows|);
      var batch := Parsed(Page(rows, page));
      ParsedShorter(Page(rows, page));
      assert rows[..to] == rows[..from] + Page(rows, page);
      ParsedAppend(rows[..from], Page(rows, page));
      if |batch| == 0 { break; }
      items := items + batch;
      if |batch| < PAGE_SIZE { break; }
      page := page + 1;
    }
  }

  predicate AllUsable(rows: seq<Row>) { forall i :: 0 <= i < |rows| ==> rows[i].bid.Some? }

  lemma {:induction false} ParsedLength(rows: seq<Row>)
    ensures |Parsed(rows)| == |rows| <==> AllUsable(rows)
    ensures Parsed(rows) == [] <==> forall i :: 0 <= i < |rows| ==> rows[i].bid.None?
  {
    if rows != [] {
      ParsedLength(rows[1..]);
      ParsedShorter(rows[1..]);
      assert forall i :: 0 < i < |rows| ==> rows[i] == rows[1..][i - 1];
    }
  }

  lemma PageIsSlice(rows: seq<Row>, page: nat)
    requires page >= 1
    ensures
      var from := (page - 1) * PAGE_SIZE;
      && |Page(rows, page)| == Least(page * PAGE_SIZE, |rows|) - Least(from, |rows|) <= PAGE_SIZE
      && forall k :: 0 <= k < |Page(rows, page)| ==> from + k < |rows| && Page(rows, page)[k] == rows[from + k]
  {
  }

  predicate Usable(rows: seq<Row>, i: int) { 0 <= i < |rows| && rows[i].bid.Some? }

  predicate Unusable(rows: seq<Row>, i: int) { 0 <= i < |rows| && rows[i].bid.None? }

  predicate SamePage(i: int, j: int) { i / PAGE_SIZE == j / PAGE_SIZE }

  /** From this page on, the loop passes full pages of usable rows only, and stops on a page end behind an unusable
      one. */
  lemma {:induction false} ConsumedPages(rows: seq<Row>, page: nat)
    requires page >= 1
    ensures
      var n := Consumed(rows, page);
      && (forall i :: (page - 1) * PAGE_SIZE <= i < n && Unusable(rows, i) ==> SamePage(i, n - 1))
      && (n < |rows| ==> n % PAGE_SIZE == 0 && exists u :: n - PAGE_SIZE <= u < n && Unusable(rows, u))
    decreases |rows| - page * PAGE_SIZE
  {
    var from, here, n := (page - 1) * PAGE_SIZE, Page(rows, page), Consumed(rows, page);
    PageIsSlice(rows, page);
    ParsedLength(here);
    ParsedShorter(here);
    if |Parsed(here)| == PAGE_SIZE {
      ConsumedPages(rows, page + 1);
      FullPageIsUsable(rows, from, here);
    } else if n < |rows| {
      ShortPageHasUnusable(rows, from, here);
    }
  }

  lemma ShortPageHasUnusable(rows: seq<Row>, from: nat, here: seq<Row>)
    requires |here| == PAGE_SIZE && from + PAGE_SIZE <= |rows| && here == rows[from..from + PAGE_SIZE]
    requires exists k :: 0 <= k < |here| && here[k].bid.None?
    ensures exists u :: from <= u < from + PAGE_SIZE && Unusable(rows, u)
  {
    var k :| 0 <= k < |here| && here[k].bid.None?;
    assert Unusable(rows, from + k);
  }

  lemma FullPageIsUsable(rows: seq<Row>, from: nat, here: seq<Row>)
    requires |here| == PAGE_SIZE && from + PAGE_SIZE <= |rows| && here == rows[from..from + PAGE_SIZE]
    requires forall k :: 0 <= k < |here| ==> here[k].bid.Some?
    ensures forall i :: from <= i < from + PAGE_SIZE ==> !Unusable(rows, i)
  {
    forall i | from <= i < from + PAGE_SIZE
      ensures !Unusable(rows, i)
    {
      assert here[i - from] == rows[from + (i - from)];
    }
  }

  ghost predicate NoUsableAfterUnusablePage(rows: seq<Row>) {
    forall i, j :: i < j && Unusable(rows, i) && Usable(rows, j) ==> SamePage(i, j)
  }

  lemma RestUnusable(rows: seq<Row>, n: nat)
    requires n <= |rows|
    ensures Parsed(rows[n..]) == [] <==> forall j :: n <= j ==> !Usable(rows, j)
  {
    var rest := rows[n..];
    ParsedLength(rest);
    assert forall k :: 0 <= k < |rest| ==> rest[k] == rows[n + k];
    if Parsed(rest) == [] {
      forall j | n <= j
        ensures !Usable(rows, j)
      {
        if j < |rows| { assert rest[j - n] == rows[j]; }
      }
    } else {
      var k :| 0 <= k < |rest| && rest[k].bid.Some?;
      assert Usable(rows, n + k);
    }
  }

  lemma LaterPage(n: int, u: int, j: int)
    requires n % PAGE_SIZE == 0 && n - PAGE_SIZE <= u < n <= j
    ensures !SamePage(u, j)
  {
  }

  lemma BetweenOnPage(i: int, j: int, k: int)
    requires i <= j <= k && SamePage(i, k)
    ensures SamePage(i, j)
  {
  }

  /** Paging drains a list exactly when no usable row follows an unusable one of an earlier page. */
  lemma PagingComplete(rows: seq<Row>)
    ensures Parsed(rows[..Consumed(rows, 1)]) == Parsed(rows) <==> NoUsableAfterUnusablePage(rows)
  {
    var n := Consumed(rows, 1);
    assert rows == rows[..n] + rows[n..];
    ParsedAppend(rows[..n], rows[n..]);
    RestUnusable(rows, n);
    ConsumedPages(rows, 1);
    if Parsed(rows[n..]) == [] {
      forall i, j | i < j && Unusable(rows, i) && Usable(rows, j)
        ensures SamePage(i, j)
      {
        assert j < n && SamePage(i, n - 1);
        BetweenOnPage(i, j, n - 1);
      }
    } else {
      var j :| n <= j && Usable(rows, j);
      var u :| n - PAGE_SIZE <= u < n && Unusable(rows, u);
      LaterPage(n, u, j);
    }
  }

  /** One unusable row in a full first page cuts the answer short, although more follows. */
  lemma PagingCanStopShort(bid: Bid)
    ensures
      var rows := seq(PAGE_SIZE - 1, i => Row(0, Some(bid))) + [Row(0, None), Row(0, Some(bid))];
      Parsed(rows[..Consumed(rows, 1)]) != Parsed(rows)
  {
    var rows := seq(PAGE_SIZE - 1, i => Row(0, Some(bid))) + [Row(0, None), Row(0, Some(bid))];
    PagingComplete(rows);
    assert Unusable(rows, PAGE_SIZE - 1) && Usable(rows, PAGE_SIZE);
    LaterPage(PAGE_SIZE, PAGE_SIZE - 1, PAGE_SIZE);
  }

  // ---- duplicates ----

  type BidKey = (string, string)

  function KeyOf(b: Bid): BidKey { (b.bidNo, b.bidSeq) }

  function Keys(bids: seq<Bid>): set<BidKey> { set b | b in bids :: KeyOf(b) }

  function Deduped(bids: seq<Bid>): seq<Bid> {
    if bids == [] then []
    else
      var front, last := bids[..|bids| - 1], bids[|bids| - 1];
      if KeyOf(last) in Keys(front) then Deduped(front) else Deduped(front) + [last]
  }

  /** _dedupe_by_bid_key */
  method DedupeByBidKey(bids: seq<Bid>) returns (out: seq<Bid>)
    ensures out == Deduped(bids)
  {
    var seen: set<BidKey> := {};
    out := [];
    for i := 0 to |bids|
      invariant out == Deduped(bids[..i]) && seen == Keys(bids[..i])
    {
      assert bids[..i + 1][..i] == bids[..i];
      assert bids[..i + 1] == bids[..i] + [bids[i]];
      var key := KeyOf(bids[i]);
      if key !in seen {
        out := out + [bids[i]];
      }
      seen := seen + {key};
    }
    assert bids[..|bids|] == bids;
  }

  ghost predicate DistinctKeys(bids: seq<Bid>) {
    forall i, j :: 0 <= i < j < |bids| ==> KeyOf(bids[i]) != KeyOf(bids[j])
  }

  /** out is what is left of bids at these places, in the same order. */
  ghost predicate InOrder(bids: seq<Bid>, out: seq<Bid>, at: seq<nat>) {
    && |at| == |out|
    && (forall i :: 0 <= i < |at| ==> at[i] < |bids| && out[i] == bids[at[i]])
    && (forall i, j :: 0 <= i < j < |at| ==> at[i] < at[j])
  }

  /** out holds the bids at the positions at, each the first of its key. */
  ghost predicate FirstSeen(bids: seq<Bid>, out: seq<Bid>, at: seq<nat>) {
    && InOrder(bids, out, at)
    && (forall i, j :: 0 <= i < |at| && 0 <= j < at[i] ==> KeyOf(bids[j]) != KeyOf(bids[at[i]]))
  }

  lemma FirstSeenMore(front: seq<Bid>, out: seq<Bid>, at: seq<nat>, last: Bid)
    requires FirstSeen(front, out, at)
    ensures FirstSeen(front + [last], out, at)
    ensures KeyOf(last) !in Keys(front) ==> FirstSeen(front + [last], out + [last], at + [|front|])
  {
  }

  /** Each key once, as its first copy, in the order of first copies (at gives their positions). */
  lemma {:induction false} DedupedIsFirstSeen(bids: seq<Bid>) returns (at: seq<nat>)
    ensures DistinctKeys(Deduped(bids)) && Keys(Deduped(bids)) == Keys(bids)
    ensures FirstSeen(bids, Deduped(bids), at)
  {
    if bids == [] {
      at := [];
    } else {
      var front, last := bids[..|bids| - 1], bids[|bids| - 1];
      at := DedupedIsFirstSeen(front);
      assert bids == front + [last];
      assert Keys(bids) == Keys(front) + {KeyOf(last)};
      FirstSeenMore(front, Deduped(front), at, last);
      if KeyOf(last) !in Keys(front) {
        forall i | 0 <= i < |Deduped(front)|
          ensures KeyOf(Deduped(front)[i]) != KeyOf(last)
        {
          assert Deduped(front)[i] in Deduped(front);
        }
        at := at + [|front|];
      }
    }
  }

  // ---- tokens ----

  function LowerChar(c: char): char { if 'A' <= c <= 'Z' then (c as int + 32) as char else c }

  /** str(value).lower().replace(" ", "") */
  function Norm(s: string): string {
    if s == "" then "" else if s[0] == ' ' then Norm(s[1..]) else [LowerChar(s[0])] + Norm(s[1..])
  }

  function NormAll(parts: seq<string>): (r: seq<string>)
    ensures |r| == |parts|
  {
    seq(|parts|, i requires 0 <= i < |parts| => Norm(parts[i]))
  }

  function KeywordTokens(keyword: string): seq<string> { NormAll(Words(keyword)) }

  predicate MatchAllTokens(raw: seq<string>, keyword: string) {
    var tokens := KeywordTokens(keyword);
    |tokens| <= 1 || forall i :: 0 <= i < |tokens| ==> Occurs(tokens[i], Join(NormAll(raw), " "))
  }

  // ---- what the filter asks for ----

  function Lowercase(s: string): string { seq(|s|, i requires 0 <= i < |s| => LowerChar(s[i])) }

  function WithoutBlanks(s: string): string {
    if s == "" then "" else if s[0] == ' ' then WithoutBlanks(s[1..]) else [s[0]] + WithoutBlanks(s[1..])
  }

  /** Some field holds the word, upper and lower case and blanks aside. */
  ghost predicate HoldsWord(raw: seq<string>, word: string) {
    exists k :: 0 <= k < |raw| && Occurs(Lowercase(word), Lowercase(WithoutBlanks(raw[k])))
  }

  /** A keyword of one word asks for nothing more; of several, for each of them. */
  ghost predicate AnswersKeyword(raw: seq<string>, keyword: string) {
    |Words(keyword)| > 1 ==> forall w :: w in Words(keyword) ==> HoldsWord(raw, w)
  }

  lemma {:induction false} NormIs(s: string)
    ensures Norm(s) == Lowercase(WithoutBlanks(s))
  {
    if s != "" {
      NormIs(s[1..]);
      var rest := WithoutBlanks(s[1..]);
      assert Lowercase([s[0]] + rest) == [LowerChar(s[0])] + Lowercase(rest);
    }
  }

  lemma {:induction false} NoBlanks(s: string)
    requires ' ' !in s
    ensures WithoutBlanks(s) == s
  {
    if s != "" {
      NoBlanks(s[1..]);
      assert [s[0]] + s[1..] == s;
    }
  }

  lemma LowercaseKeeps(s: string)
    requires ' ' !in s
    ensures ' ' !in Lowercase(s) && |Lowercase(s)| == |s|
  {
  }

  /** A text without blanks occurs in joined fields exactly when it occurs in one of them. */
  lemma {:induction false} OccursInJoined(needle: string, parts: seq<string>)
    requires needle != "" && ' ' !in needle
    ensures Occurs(needle, Join(parts, " ")) <==> exists k :: 0 <= k < |parts| && Occurs(needle, parts[k])
  {
    if |parts| > 1 {
      OccursInJoined(needle, parts[1..]);
      OccursSides(needle, parts[0], ' ', Join(parts[1..], " "));
      assert parts[0] + [' '] + Join(parts[1..], " ") == Join(parts, " ");
      if k :| 0 <= k < |parts[1..]| && Occurs(needle, parts[1..][k]) { assert Occurs(needle, parts[k + 1]); }
      if k :| 0 < k < |parts| && Occurs(needle, parts[k]) { assert Occurs(needle, parts[1..][k - 1]); }
    }
  }

  lemma TokenMeans(raw: seq<string>, word: string)
    requires Word(word)
    ensures Occurs(Norm(word), Join(NormAll(raw), " ")) <==> HoldsWord(raw, word)
  {
    assert IsSpace(' ');
    NormIs(word);
    NoBlanks(word);
    LowercaseKeeps(word);
    OccursInJoined(Norm(word), NormAll(raw));
    forall k | 0 <= k < |raw|
      ensures NormAll(raw)[k] == Lowercase(WithoutBlanks(raw[k]))
    {
      NormIs(raw[k]);
    }
  }

  lemma MatchMeans(raw: seq<string>, keyword: string)
    ensures MatchAllTokens(raw, keyword) <==> AnswersKeyword(raw, keyword)
  {
    var words := Words(keyword);
    WordsAreWords(keyword, ' ');
    forall i | 0 <= i < |words|
      ensures Occurs(KeywordTokens(keyword)[i], Join(NormAll(raw), " ")) <==> HoldsWord(raw, words[i])
    {
      assert words[i] in words;
      TokenMeans(raw, words[i]);
    }
  }

  function Matching(bids: seq<Bid>, keyword: string): seq<Bid> {
    if bids == [] then []
    else if MatchAllTokens(bids[0].raw, keyword) then [bids[0]] + Matching(bids[1..], keyword)
    else Matching(bids[1..], keyword)
  }

  lemma {:induction false} MatchingMembers(bids: seq<Bid>, keyword: string, b: Bid)
    ensures b in Matching(bids, keyword) <==> b in bids && MatchAllTokens(b.raw, keyword)
  {
    if bids != [] { MatchingMembers(bids[1..], keyword, b); }
  }

  function Shifted(at: seq<nat>): seq<nat> { seq(|at|, i requires 0 <= i < |at| => at[i] + 1) }

  lemma InOrderCons(bids: seq<Bid>, out: seq<Bid>, at: seq<nat>)
    requires bids != [] && InOrder(bids[1..], out, at)
    ensures InOrder(bids, out, Shifted(at)) && InOrder(bids, [bids[0]] + out, [0] + Shifted(at))
  {
    assert forall i :: 0 <= i < |at| ==> bids[1..][at[i]] == bids[at[i] + 1];
  }

  /** The filter keeps the order. */
  lemma {:induction false} MatchingInOrder(bids: seq<Bid>, keyword: string) returns (at: seq<nat>)
    ensures InOrder(bids, Matching(bids, keyword), at)
  {
    at := [];
    if bids != [] {
      var rest := MatchingInOrder(bids[1..], keyword);
      InOrderCons(bids, Matching(bids[1..], keyword), rest);
      at := if MatchAllTokens(bids[0].raw, keyword) then [0] + Shifted(rest) else Shifted(rest);
    }
  }

  lemma {:induction false} MatchingDistinct(bids: seq<Bid>, keyword: string)
    requires DistinctKeys(bids)
    ensures DistinctKeys(Matching(bids, keyword))
  {
    if bids != [] {
      MatchingDistinct(bids[1..], keyword);
      var rest := Matching(bids[1..], keyword);
      forall j | 0 <= j < |rest|
        ensures KeyOf(bids[0]) != KeyOf(rest[j])
      {
        MatchingMembers(bids[1..], keyword, rest[j]);
        var k :| 0 <= k < |bids[1..]| && bids[1..][k] == rest[j];
        assert bids[k + 1] == rest[j];
      }
    }
  }

  // ---- the queries sent ----

  predicate Different(qs: seq<string>) { forall i, j :: 0 <= i < j < |qs| ==> qs[i] != qs[j] }

  /** Nothing moves, and no query comes twice. */
  function AppendNew(out: seq<string>, v: string): (r: seq<string>)
    ensures out <= r && (Different(out) ==> Different(r))
  {
    if v in out then out else out + [v]
  }

  function Spaced(base: string, i: nat): string
    requires i <= |base|
  {
    base[..i] + " " + base[i..]
  }

  function KeywordVariants(base: string): (out: seq<string>)
    requires base != ""
    ensures Different(out) && [base] <= out
  {
    if ' ' in base || !(4 <= |base| <= 12) then [base]
    else
      var two := AppendNew(AppendNew([base], Spaced(base, 2)), Spaced(base, 3));
      if 4 < |base| then AppendNew(two, Spaced(base, 4)) else two
  }

  function LongTokens(words: seq<string>): seq<string> {
    if words == [] then []
    else if |words[0]| >= 2 then [words[0]] + LongTokens(words[1..])
    else LongTokens(words[1..])
  }

  function Longest(tokens: seq<string>): (t: string)
    requires tokens != []
    ensures t in tokens
  {
    if |tokens| == 1 then tokens[0]
    else
      var rest := Longest(tokens[1..]);
      if |tokens[0]| >= |rest| then tokens[0] else rest
  }

  /** keyword_queries */
  function KeywordQueries(keyword: string): seq<string> {
    var base := Strip(keyword);
    if base == "" then []
    else
      var tokens := LongTokens(Words(base));
      var out := KeywordVariants(base);
      if |tokens| >= 2 then AppendNew(out, Longest(tokens)) else out
  }

  /** A text of 4 to 12 characters without a blank is also sent with a blank behind its second, third or fourth. */
  predicate IsVariant(q: string, base: string) {
    ' ' !in base && 4 <= |base| <= 12 && exists i :: 2 <= i <= 4 && i < |base| && q == base[..i] + " " + base[i..]
  }

  lemma VariantsListed(base: string, q: string)
    requires base != ""
    ensures q in KeywordVariants(base) <==> q == base || IsVariant(q, base)
  {
    if ' ' !in base && 4 <= |base| <= 12 {
      assert Spaced(base, 2) == base[..2] + " " + base[2..] && Spaced(base, 3) == base[..3] + " " + base[3..];
      assert 4 < |base| ==> Spaced(base, 4) == base[..4] + " " + base[4..];
      if i :| 2 <= i <= 4 && i < |base| && q == base[..i] + " " + base[i..] {
        assert i == 2 || i == 3 || i == 4;
      }
    }
  }

  lemma {:induction false} LongTokensMembers(words: seq<string>, w: string)
    ensures w in LongTokens(words) <==> w in words && |w| >= 2
  {
    if words != [] { LongTokensMembers(words[1..], w); }
  }

  /** The longest token is the first of greatest length. */
  lemma {:induction false} LongestIsFirst(tokens: seq<string>) returns (k: nat)
    requires tokens != []
    ensures k < |tokens| && Longest(tokens) == tokens[k]
    ensures forall m :: 0 <= m < |tokens| ==> |tokens[m]| <= |tokens[k]| && (m < k ==> |tokens[m]| < |tokens[k]|)
  {
    k := 0;
    if |tokens| > 1 {
      var rest := LongestIsFirst(tokens[1..]);
      if |tokens[0]| < |tokens[rest + 1]| { k := rest + 1; }
      assert forall m :: 1 <= m < |tokens| ==> tokens[m] == tokens[1..][m - 1];
    }
  }

  /** The queries of a keyword: itself, its variants, and of several tokens with two characters or more the first of
      the longest. */
  lemma QueriesListed(keyword: string, q: string) returns (k: nat)
    requires Strip(keyword) != ""
    ensures
      var base := Strip(keyword);
      var tokens := LongTokens(Words(base));
      && (q in KeywordQueries(keyword) <==>
            q == base || IsVariant(q, base) || (|tokens| >= 2 && k < |tokens| && q == tokens[k]))
      && (|tokens| >= 2 ==> k < |tokens| && forall m :: 0 <= m < |tokens| ==>
            |tokens[m]| <= |tokens[k]| && (m < k ==> |tokens[m]| < |tokens[k]|))
      && (forall w :: w in tokens <==> w in Words(base) && |w| >= 2)
  {
    var base := Strip(keyword);
    var tokens := LongTokens(Words(base));
    k := 0;
    VariantsListed(base, q);
    if |tokens| >= 2 { k := LongestIsFirst(tokens); }
    forall w
      ensures w in tokens <==> w in Words(base) && |w| >= 2
    {
      LongTokensMembers(Words(base), w);
    }
  }

  lemma QueriesAreDistinct(keyword: string)
    ensures
      var qs := KeywordQueries(keyword);
      && (qs == [] <==> Strip(keyword) == "")
      && (qs != [] ==> qs[0] == Strip(keyword))
      && Different(qs)
  {
  }

  // ---- the search ----

  function Fetched(rows: seq<Row>): seq<Bid> { Parsed(rows[..Consumed(rows, 1)]) }

  /** All endpoints for one query in one window. */
  function FromEndpoints(server: Server, w: Window, query: string, n: nat): seq<Bid> {
    if n == 0 then [] else FromEndpoints(server, w, query, n - 1) + Fetched(InWindow(server(n - 1, query), w))
  }

  function FromQueries(server: Server, w: Window, queries: seq<string>): seq<Bid> {
    if queries == [] then []
    else FromQueries(server, w, queries[..|queries| - 1]) + FromEndpoints(server, w, queries[|queries| - 1], ENDPOINTS)
  }

  function FromWindows(server: Server, ws: seq<Window>, queries: seq<string>): seq<Bid> {
    if ws == [] then []
    else FromWindows(server, ws[..|ws| - 1], queries) + FromQueries(server, ws[|ws| - 1], queries)
  }

  function Found(server: Server, start: int, end: int, keyword: string, queries: seq<string>): seq<Bid> {
    Matching(Deduped(FromWindows(server, Windows(start, end, MAX_RANGE_DAYS), queries)), keyword)
  }

  lemma {:induction false} MatchingEverything(bids: seq<Bid>, keyword: string)
    requires |KeywordTokens(keyword)| <= 1
    ensures Matching(bids, keyword) == bids
  {
    if bids != [] {
      MatchingEverything(bids[1..], keyword);
      assert [bids[0]] + bids[1..] == bids;
    }
  }

  method SearchWindow(server: Server, w: Window, queries: seq<string>) returns (items: seq<Bid>)
    ensures items == FromQueries(server, w, queries)
  {
    items := [];
    for q := 0 to |queries|
      invariant items == FromQueries(server, w, queries[..q])
    {
      assert queries[..q + 1][..q] == queries[..q];
      ghost var before := items;
      ghost var got: seq<Bid> := [];
      for e := 0 to ENDPOINTS
        invariant got == FromEndpoints(server, w, queries[q], e) && items == before + got
      {
        var batch := FetchAll(InWindow(server(e, queries[q]), w));
        assert before + got + batch == before + (got + batch);
        items := items + batch;
        got := got + batch;
      }
    }
    assert queries[..|queries|] == queries;
  }

  /** search_single */
  method SearchWindows(server: Server, ws: seq<Window>, queries: seq<string>) returns (items: seq<Bid>)
    ensures items == FromWindows(server, ws, queries)
  {
    items := [];
    for i := 0 to |ws|
      invariant items == FromWindows(server, ws[..i], queries)
    {
      assert ws[..i + 1][..i] == ws[..i];
      var batch := SearchWindow(server, ws[i], queries);
      items := items + batch;
    }
    assert ws[..|ws|] == ws;
  }

  method SearchSingle(server: Server, start: int, end: int, keyword: string) returns (found: seq<Bid>)
    ensures found == Found(server, start, end, keyword, KeywordQueries(keyword))
  {
    var queries := KeywordQueries(keyword);
    var ws := IterWindows(start, end, MAX_RANGE_DAYS);
    var items := SearchWindows(server, ws, queries);
    found := DedupeByBidKey(items);
    if |KeywordTokens(keyword)| > 1 {
      found := Matching(found, keyword);
    } else {
      MatchingEverything(found, keyword);
    }
  }

  // ---- completeness ----

  lemma {:induction false} ParsedMembers(rows: seq<Row>, b: Bid)
    ensures b in Parsed(rows) <==> exists r :: r in rows && r.bid == Some(b)
  {
    if rows != [] {
      ParsedMembers(rows[1..], b);
      assert forall r :: r in rows <==> r == rows[0] || r in rows[1..];
    }
  }

  lemma {:induction false} InWindowMembers(rows: seq<Row>, w: Window)
    ensures forall r :: r in InWindow(rows, w) <==> r in rows && Within(w, r.date)
  {
    if rows != [] { InWindowMembers(rows[1..], w); }
  }

  /** The bid is listed for the query at some endpoint below n, dated in the window. */
  ghost predicate ListedIn(server: Server, w: Window, query: string, n: nat, b: Bid) {
    exists e: nat, r :: e < n && r in server(e, query) && r.bid == Some(b) && Within(w, r.date)
  }

  ghost predicate DrainedBy(server: Server, e: nat, query: string, w: Window) {
    NoUsableAfterUnusablePage(InWindow(server(e, query), w))
  }

  /** Every list the search will page through can be drained. */
  ghost predicate Drainable(server: Server, ws: seq<Window>, queries: seq<string>) {
    forall e: nat, q, w :: e < ENDPOINTS && q in queries && w in ws ==> DrainedBy(server, e, q, w)
  }

  lemma {:induction false} InWindowUsable(rows: seq<Row>, w: Window)
    requires AllUsable(rows)
    ensures AllUsable(InWindow(rows, w))
  {
    if rows != [] { InWindowUsable(rows[1..], w); }
  }

  /** In particular a server whose rows all parse. */
  lemma UsableServerIsDrainable(server: Server, ws: seq<Window>, queries: seq<string>)
    requires forall e: nat, q :: e < ENDPOINTS && q in queries ==> AllUsable(server(e, q))
    ensures Drainable(server, ws, queries)
  {
    forall e: nat, q, w | e < ENDPOINTS && q in queries && w in ws
      ensures DrainedBy(server, e, q, w)
    {
      InWindowUsable(server(e, q), w);
    }
  }

  lemma {:induction false} EndpointsMembers(server: Server, w: Window, query: string, n: nat, b: Bid)
    requires forall e: nat :: e < n ==> DrainedBy(server, e, query, w)
    ensures b in FromEndpoints(server, w, query, n) <==> ListedIn(server, w, query, n, b)
  {
    if n > 0 {
      EndpointsMembers(server, w, query, n - 1, b);
      var rows := server(n - 1, query);
      assert DrainedBy(server, n - 1, query, w);
      PagingComplete(InWindow(rows, w));
      ParsedMembers(InWindow(rows, w), b);
      InWindowMembers(rows, w);
    }
  }

  lemma {:induction false} QueriesMembers(server: Server, w: Window, queries: seq<string>, b: Bid)
    requires Drainable(server, [w], queries)
    ensures b in FromQueries(server, w, queries) <==> exists q :: q in queries && ListedIn(server, w, q, ENDPOINTS, b)
  {
    if queries != [] {
      var front, last := queries[..|queries| - 1], queries[|queries| - 1];
      assert forall q :: q in queries <==> q in front || q == last;
      QueriesMembers(server, w, front, b);
      EndpointsMembers(server, w, last, ENDPOINTS, b);
    }
  }

  lemma {:induction false} WindowsMembers(server: Server, ws: seq<Window>, queries: seq<string>, b: Bid)
    requires Drainable(server, ws, queries)
    ensures b in FromWindows(server, ws, queries) <==>
            exists w, q :: w in ws && q in queries && ListedIn(server, w, q, ENDPOINTS, b)
  {
    if ws != [] {
      var front, last := ws[..|ws| - 1], ws[|ws| - 1];
      assert forall w :: w in ws <==> w in front || w == last;
      WindowsMembers(server, front, queries, b);
      QueriesMembers(server, last, queries, b);
    }
  }

  /** Listed by some endpoint for one of the queries, dated in the range. */
  ghost predicate Listed(server: Server, start: int, end: int, queries: seq<string>, b: Bid) {
    exists q :: q in queries && ListedIn(server, (start, end), q, ENDPOINTS, b)
  }

  lemma RangeMembers(server: Server, start: int, end: int, queries: seq<string>, b: Bid)
    requires Drainable(server, Windows(start, end, MAX_RANGE_DAYS), queries)
    ensures b in FromWindows(server, Windows(start, end, MAX_RANGE_DAYS), queries)
        <==> Listed(server, start, end, queries, b)
  {
    var ws := Windows(start, end, MAX_RANGE_DAYS);
    WindowsMembers(server, ws, queries, b);
    if w, q :| w in ws && q in queries && ListedIn(server, w, q, ENDPOINTS, b) {
      var e: nat, r :| e < ENDPOINTS && r in server(e, q) && r.bid == Some(b) && Within(w, r.date);
      SomeWindow(start, end, MAX_RANGE_DAYS, r.date);
      assert Within((start, end), r.date);
      assert ListedIn(server, (start, end), q, ENDPOINTS, b);
    }
    if Listed(server, start, end, queries, b) {
      var q :| q in queries && ListedIn(server, (start, end), q, ENDPOINTS, b);
      var e: nat, r :| e < ENDPOINTS && r in server(e, q) && r.bid == Some(b) && Within((start, end), r.date);
      SomeWindow(start, end, MAX_RANGE_DAYS, r.date);
      var w :| w in ws && Within(w, r.date);
      assert ListedIn(server, w, q, ENDPOINTS, b);
    }
  }

  /** Copies of one notice carry the same raw record, wherever they are listed. */
  ghost predicate SameRaw(server: Server, start: int, end: int, queries: seq<string>) {
    forall a, b :: Listed(server, start, end, queries, a) && Listed(server, start, end, queries, b)
        && KeyOf(a) == KeyOf(b)
      ==> a.raw == b.raw
  }

  lemma FirstSeenFiltered(all: seq<Bid>, unique: seq<Bid>, at: seq<nat>, keyword: string) returns (places: seq<nat>)
    requires FirstSeen(all, unique, at)
    ensures FirstSeen(all, Matching(unique, keyword), places)
  {
    var from := MatchingInOrder(unique, keyword);
    places := seq(|from|, i requires 0 <= i < |from| => at[from[i]]);
  }

  lemma FoundIsListed(server: Server, start: int, end: int, keyword: string, queries: seq<string>, b: Bid)
    requires Drainable(server, Windows(start, end, MAX_RANGE_DAYS), queries)
    requires b in Found(server, start, end, keyword, queries)
    ensures Listed(server, start, end, queries, b) && AnswersKeyword(b.raw, keyword)
  {
    var all := FromWindows(server, Windows(start, end, MAX_RANGE_DAYS), queries);
    var first := DedupedIsFirstSeen(all);
    MatchingMembers(Deduped(all), keyword, b);
    MatchMeans(b.raw, keyword);
    var i :| 0 <= i < |Deduped(all)| && Deduped(all)[i] == b;
    assert all[first[i]] in all;
    RangeMembers(server, start, end, queries, b);
  }

  lemma ListedIsFound(server: Server, start: int, end: int, keyword: string, queries: seq<string>, b: Bid)
    requires Drainable(server, Windows(start, end, MAX_RANGE_DAYS), queries) && SameRaw(server, start, end, queries)
    requires Listed(server, start, end, queries, b) && AnswersKeyword(b.raw, keyword)
    ensures KeyOf(b) in Keys(Found(server, start, end, keyword, queries))
  {
    var all := FromWindows(server, Windows(start, end, MAX_RANGE_DAYS), queries);
    var first := DedupedIsFirstSeen(all);
    RangeMembers(server, start, end, queries, b);
    assert KeyOf(b) in Keys(all);
    var c :| c in Deduped(all) && KeyOf(c) == KeyOf(b);
    var i :| 0 <= i < |Deduped(all)| && Deduped(all)[i] == c;
    assert all[first[i]] in all;
    RangeMembers(server, start, end, queries, c);
    MatchingMembers(Deduped(all), keyword, c);
    MatchMeans(c.raw, keyword);
  }

  /** The search returns every notice key that is listed in the range and matches all tokens, once, and no other,
      in first-seen order: at gives the places of the first copies in what was fetched. */
  lemma SearchIsComplete(server: Server, start: int, end: int, keyword: string, queries: seq<string>, key: BidKey)
    returns (at: seq<nat>)
    requires Drainable(server, Windows(start, end, MAX_RANGE_DAYS), queries) && SameRaw(server, start, end, queries)
    ensures DistinctKeys(Found(server, start, end, keyword, queries))
    ensures key in Keys(Found(server, start, end, keyword, queries)) <==>
            exists b :: Listed(server, start, end, queries, b) && KeyOf(b) == key && AnswersKeyword(b.raw, keyword)
    ensures FirstSeen(FromWindows(server, Windows(start, end, MAX_RANGE_DAYS), queries),
                      Found(server, start, end, keyword, queries), at)
  {
    var all := FromWindows(server, Windows(start, end, MAX_RANGE_DAYS), queries);
    var first := DedupedIsFirstSeen(all);
    at := FirstSeenFiltered(all, Deduped(all), first, keyword);
    MatchingDistinct(Deduped(all), keyword);
    if b :| b in Found(server, start, end, keyword, queries) && KeyOf(b) == key {
      FoundIsListed(server, start, end, keyword, queries, b);
    }
    if b :| Listed(server, start, end, queries, b) && KeyOf(b) == key && AnswersKeyword(b.raw, keyword) {
      ListedIsFound(server, start, end, keyword, queries, b);
    }
  }
}
