/** The compliance table: printed as markdown from the spec rows, parsed back for the exports. */
module ComplianceTable {
  import opened Text

  // ---- white space: s.split() and s.splitlines() ----

  /** s.split(): the maximal runs without white space. */
  function Words(s: string): (words: seq<string>)
    ensures s != "" && !IsSpace(s[0]) ==> |words| >= 1
  {
    if s == "" then []
    else if IsSpace(s[0]) then Words(s[1..])
    else if |s| > 1 && !IsSpace(s[1]) then
      var rest := Words(s[1..]);
      [[s[0]] + rest[0]] + rest[1..]
    else [[s[0]]] + Words(s[1..])
  }

  /** The pieces between line breaks. splitlines() leaves out some empty ones; the parser drops them all. */
  function Pieces(s: string): (pieces: seq<string>)
    ensures |pieces| >= 1
  {
    if s == "" then [""]
    else
      var rest := Pieces(s[1..]);
      if IsLineBreak(s[0]) then [""] + rest else [[s[0]] + rest[0]] + rest[1..]
  }

  /** [line.strip() for line in markdown.splitlines() if line.strip()] */
  function StrippedLines(pieces: seq<string>): seq<string> {
    if pieces == [] then []
    else if Strip(pieces[0]) == "" then StrippedLines(pieces[1..])
    else [Strip(pieces[0])] + StrippedLines(pieces[1..])
  }

  // ---- printing ----

  function Slashed(s: string): (r: string)
    ensures |r| == |s|
    ensures forall i :: 0 <= i < |s| ==> r[i] == if s[i] == '|' then '/' else s[i]
  {
    seq(|s|, i requires 0 <= i < |s| => if s[i] == '|' then '/' else s[i])
  }

  function EscapeCell(value: string): string { Join(Words(Slashed(value)), " ") }

  datatype RowStatus = Candidate | Reviewed | Matched | Gap | Ignored

  datatype SpecRow = SpecRow(
    name: string, required: string, proposed: string, unit: string, status: RowStatus, excerpt: string, rule: string)

  predicate Printable(r: SpecRow) { r.status.Candidate? || r.status.Reviewed? || r.status.Matched? }

  function StatusText(s: RowStatus): string {
    match s
    case Candidate => "candidate"
    case Reviewed => "reviewed"
    case Matched => "matched"
    case Gap => "gap"
    case Ignored => "ignored"
  }

  function Or(a: string, b: string): string { if a != "" then a else b }

  const HEADERS := ["항목", "공고 요구사양", "제안/대응 사양", "단위", "확인상태", "근거"]
  const SEPARATOR := ["---", "---", "---", "---", "---", "---"]

  function Cells(r: SpecRow): (cells: seq<string>)
    ensures |cells| == |HEADERS|
  {
    [EscapeCell(r.name), EscapeCell(Or(r.required, "공고문 확인")), EscapeCell(Or(r.proposed, "-")),
     EscapeCell(r.unit), EscapeCell(StatusText(r.status)), EscapeCell(Or(r.excerpt, r.rule))]
  }

  function Line(cells: seq<string>): string { "| " + Join(cells, " | ") + " |" }

  function RowLines(rows: seq<SpecRow>): seq<string> {
    if rows == [] then []
    else
      var front := RowLines(rows[..|rows| - 1]);
      if Printable(rows[|rows| - 1]) then front + [Line(Cells(rows[|rows| - 1]))] else front
  }

  function Draft(rows: seq<SpecRow>): string {
    Join([Line(HEADERS), Line(SEPARATOR)] + RowLines(rows), "\n")
  }

  lemma RowLinesNext(rows: seq<SpecRow>, i: nat)
    requires i < |rows|
    ensures RowLines(rows[..i + 1]) == RowLines(rows[..i]) + if Printable(rows[i]) then [Line(Cells(rows[i]))] else []
  {
    assert rows[..i + 1][..i] == rows[..i];
  }

  method AppendRows(top: seq<string>, rows: seq<SpecRow>) returns (lines: seq<string>)
    ensures lines == top + RowLines(rows)
  {
    lines := top;
    for i := 0 to |rows|
      invariant lines == top + RowLines(rows[..i])
    {
      RowLinesNext(rows, i);
      if Printable(rows[i]) {
        lines := lines + [Line(Cells(rows[i]))];
      }
    }
    assert rows[..|rows|] == rows;
  }

  /** rows_to_technical_compliance_draft */
  method RowsToTechnicalComplianceDraft(rows: seq<SpecRow>) returns (content: string)
    ensures content == Draft(rows)
  {
    var lines := AppendRows([Line(HEADERS), Line(SEPARATOR)], rows);
    content := Join(lines, "\n");
  }

  // ---- parsing ----

  function DropLeadingPipes(s: string): string {
    if s != "" && s[0] == '|' then DropLeadingPipes(s[1..]) else s
  }

  function DropTrailingPipes(s: string): string {
    if s != "" && s[|s| - 1] == '|' then DropTrailingPipes(s[..|s| - 1]) else s
  }

  function StripEach(parts: seq<string>): (r: seq<string>)
    ensures |r| == |parts|
  {
    seq(|parts|, i requires 0 <= i < |parts| => Strip(parts[i]))
  }

  function ParseLine(line: string): (cells: seq<string>)
    ensures |cells| >= 1
  {
    StripEach(Split(DropTrailingPipes(DropLeadingPipes(line)), '|'))
  }

  predicate IsRule(cells: seq<string>) {
    forall i :: 0 <= i < |cells| ==> forall c :: c in cells[i] ==> c == '-' || c == ':' || c == ' '
  }

  datatype Table = Table(headers: seq<string>, rows: seq<seq<string>>)

  function ParseAll(lines: seq<string>): (r: seq<seq<string>>)
    ensures |r| == |lines|
  {
    seq(|lines|, i requires 0 <= i < |lines| => ParseLine(lines[i]))
  }

  function Singletons(lines: seq<string>): seq<seq<string>> {
    seq(|lines|, i requires 0 <= i < |lines| => [lines[i]])
  }

  function TableOf(lines: seq<string>): Table {
    if lines == [] then Table(["내용"], [])
    else if forall i :: 0 <= i < |lines| ==> lines[i] != "" && lines[i][0] == '|' then
      var rows := ParseAll(lines);
      if |rows| >= 2 && IsRule(rows[1]) then Table(rows[0], rows[2..]) else Table(rows[0], rows[1..])
    else Table(["내용"], Singletons(lines))
  }

  function ParsedTable(markdown: string): Table { TableOf(StrippedLines(Pieces(markdown))) }

  /** parse_markdown_table */
  method ParseMarkdownTable(markdown: string) returns (t: Table)
    ensures t == ParsedTable(markdown)
  {
    var lines := StrippedLines(Pieces(markdown));
    if lines == [] { return Table(["내용"], []); }
    if forall i :: 0 <= i < |lines| ==> lines[i] != "" && lines[i][0] == '|' {
      var rows: seq<seq<string>> := [];
      for i := 0 to |lines|
        invariant rows == ParseAll(lines)[..i]
      {
        var cells := Split(DropTrailingPipes(DropLeadingPipes(lines[i])), '|');
        rows := rows + [StripEach(cells)];
      }
      assert ParseAll(lines)[..|lines|] == ParseAll(lines);
      if |rows| >= 2 && IsRule(rows[1]) {
        t := Table(rows[0], rows[2..]);
      } else {
        t := Table(rows[0], rows[1..]);
      }
    } else {
      t := Table(["내용"], Singletons(lines));
    }
  }

  // ---- what escaping gives ----

  predicate NoLineBreak(s: string) { forall c :: c in s ==> !IsLineBreak(c) }

  predicate CleanCell(s: string) { '|' !in s && NoLineBreak(s) && Stripped(s) }

  predicate Word(w: string) { w != "" && forall c :: c in w ==> !IsSpace(c) }

  lemma {:induction false} WordsAreWords(s: string, bad: char)
    ensures forall w :: w in Words(s) ==> Word(w)
    ensures bad !in s ==> forall w :: w in Words(s) ==> bad !in w
  {
    if s != "" {
      WordsAreWords(s[1..], bad);
      if !IsSpace(s[0]) && |s| > 1 && !IsSpace(s[1]) {
        var rest := Words(s[1..]);
        assert rest[0] in rest;
      }
    }
  }

  lemma {:induction false} JoinWordsIsClean(words: seq<string>)
    requires forall w :: w in words ==> Word(w) && '|' !in w
    ensures CleanCell(Join(words, " "))
    ensures words != [] ==> Join(words, " ") != ""
  {
    if |words| == 1 {
      assert words[0] in words;
    } else if |words| > 1 {
      assert words[0] in words;
      JoinWordsIsClean(words[1..]);
      var rest := Join(words[1..], " ");
      var all := Join(words, " ");
      assert all == words[0] + " " + rest;
      assert all[0] == words[0][0] && words[0][0] in words[0];
      assert all[|all| - 1] == rest[|rest| - 1];
    }
  }

  lemma EscapedIsClean(value: string)
    ensures CleanCell(EscapeCell(value))
  {
    WordsAreWords(Slashed(value), '|');
    JoinWordsIsClean(Words(Slashed(value)));
  }

  lemma {:induction false} WordsOfWord(w: string, tail: string)
    requires Word(w) && (tail != "" ==> IsSpace(tail[0]))
    ensures Words(w + tail) == [w] + Words(tail)
  {
    var all := w + tail;
    assert w[0] in w && all[0] == w[0];
    assert all[1..] == w[1..] + tail;
    if |w| > 1 {
      assert w[1] in w && all[1] == w[1];
      assert Word(w[1..]);
      WordsOfWord(w[1..], tail);
      assert [w[0]] + w[1..] == w;
    } else {
      assert [w[0]] == w && all[1..] == tail;
    }
  }

  lemma {:induction false} WordsOfJoin(words: seq<string>)
    requires forall w :: w in words ==> Word(w)
    ensures Words(Join(words, " ")) == words
  {
    if |words| == 1 {
      assert words[0] in words;
      WordsOfWord(words[0], "");
      assert words[0] + "" == words[0];
    } else if |words| > 1 {
      assert words[0] in words;
      var rest := Join(words[1..], " ");
      WordsOfJoin(words[1..]);
      WordsOfWord(words[0], " " + rest);
      assert words[0] + (" " + rest) == words[0] + " " + rest;
      assert (" " + rest)[1..] == rest;
    }
  }

  /** Printing an already escaped cell changes nothing. */
  lemma EscapeIsIdempotent(value: string)
    ensures EscapeCell(EscapeCell(value)) == EscapeCell(value)
  {
    var e := EscapeCell(value);
    EscapedIsClean(value);
    assert Slashed(e) == e;
    WordsAreWords(Slashed(value), '|');
    WordsOfJoin(Words(Slashed(value)));
  }

  // ---- one line ----

  function Padded(cells: seq<string>): (r: seq<string>)
    ensures |r| == |cells|
  {
    seq(|cells|, i requires 0 <= i < |cells| => " " + cells[i] + " ")
  }

  lemma {:induction false} PaddedJoin(cells: seq<string>)
    requires cells != []
    ensures " " + Join(cells, " | ") + " " == Join(Padded(cells), "|")
  {
    if |cells| == 1 {
      assert Padded(cells) == [" " + cells[0] + " "];
    } else {
      PaddedJoin(cells[1..]);
      assert Padded(cells)[1..] == Padded(cells[1..]);
      var rest := Join(cells[1..], " | ");
      assert " " + (cells[0] + " | " + rest) + " " == (" " + cells[0] + " ") + "|" + (" " + rest + " ");
    }
  }

  /** Taking the outer pipes off a printed line leaves the padded text between them. */
  lemma InnerText(cells: seq<string>)
    requires cells != []
    ensures DropTrailingPipes(DropLeadingPipes(Line(cells))) == Join(Padded(cells), "|")
  {
    var body := " " + Join(cells, " | ") + " ";
    PaddedJoin(cells);
    assert Line(cells) == "|" + body + "|";
    var line := Line(cells);
    assert line[1..] == body + "|";
    assert DropLeadingPipes(body + "|") == body + "|";
    assert (body + "|")[..|body|] == body;
    assert DropTrailingPipes(body) == body;
  }

  lemma ParsePrinted(cells: seq<string>)
    requires cells != [] && forall c :: c in cells ==> CleanCell(c)
    ensures ParseLine(Line(cells)) == cells
  {
    InnerText(cells);
    forall p | p in Padded(cells)
      ensures '|' !in p
    {
      var i :| 0 <= i < |cells| && p == Padded(cells)[i];
      assert cells[i] in cells;
    }
    SplitJoin(Padded(cells), '|');
    forall i | 0 <= i < |cells|
      ensures Strip(Padded(cells)[i]) == cells[i]
    {
      assert cells[i] in cells;
      StripPadded(" ", cells[i], " ");
    }
  }

  // ---- all lines ----

  lemma {:induction false} PiecesOf(line: string, rest: string)
    requires NoLineBreak(line)
    ensures Pieces(line) == [line]
    ensures Pieces(line + "\n" + rest) == [line] + Pieces(rest)
  {
    var all := line + "\n" + rest;
    if line == "" {
      assert all[1..] == rest;
    } else {
      assert line[0] in line && all[0] == line[0];
      assert forall c :: c in line[1..] ==> c in line;
      PiecesOf(line[1..], rest);
      assert all[1..] == line[1..] + "\n" + rest;
      assert [line[0]] + line[1..] == line;
    }
  }

  lemma {:induction false} PiecesOfJoin(lines: seq<string>)
    requires lines != [] && forall l :: l in lines ==> NoLineBreak(l)
    ensures Pieces(Join(lines, "\n")) == lines
  {
    assert lines[0] in lines;
    if |lines| == 1 {
      PiecesOf(lines[0], "");
    } else {
      PiecesOfJoin(lines[1..]);
      PiecesOf(lines[0], Join(lines[1..], "\n"));
    }
  }

  predicate FullLine(l: string) {
    NoLineBreak(l) && |l| >= 2 && l[0] == '|' && l[|l| - 1] == '|'
  }

  lemma {:induction false} FullLinesStay(lines: seq<string>)
    requires forall l :: l in lines ==> FullLine(l)
    ensures StrippedLines(lines) == lines
  {
    if lines != [] {
      assert lines[0] in lines;
      StripFixed(lines[0]);
      FullLinesStay(lines[1..]);
      assert [lines[0]] + lines[1..] == lines;
    }
  }

  lemma {:induction false} JoinNoLineBreak(cells: seq<string>)
    requires forall c :: c in cells ==> NoLineBreak(c)
    ensures NoLineBreak(Join(cells, " | "))
  {
    if cells != [] {
      assert cells[0] in cells;
      JoinNoLineBreak(cells[1..]);
      assert forall c :: c in " | " ==> !IsLineBreak(c);
    }
  }

  lemma PrintedLineIsFull(cells: seq<string>)
    requires forall c :: c in cells ==> CleanCell(c)
    ensures FullLine(Line(cells))
  {
    JoinNoLineBreak(cells);
    assert forall c :: c in "| " || c in " |" ==> !IsLineBreak(c);
  }

  lemma ConstantCells()
    ensures forall c :: c in HEADERS ==> CleanCell(c)
  {
    assert CleanCell(HEADERS[0]) && CleanCell(HEADERS[1]) && CleanCell(HEADERS[2]);
    assert CleanCell(HEADERS[3]) && CleanCell(HEADERS[4]) && CleanCell(HEADERS[5]);
  }

  lemma SeparatorIsRule()
    ensures forall c :: c in SEPARATOR ==> CleanCell(c)
    ensures IsRule(SEPARATOR)
  {
    assert CleanCell("---");
  }

  lemma CellsAreClean(r: SpecRow)
    ensures forall c :: c in Cells(r) ==> CleanCell(c)
  {
    EscapedIsClean(r.name);
    EscapedIsClean(Or(r.required, "공고문 확인"));
    EscapedIsClean(Or(r.proposed, "-"));
    EscapedIsClean(r.unit);
    EscapedIsClean(StatusText(r.status));
    EscapedIsClean(Or(r.excerpt, r.rule));
  }

  /** The escaped cells of the printable rows, in order. */
  function PrintedCells(rows: seq<SpecRow>): seq<seq<string>> {
    if rows == [] then []
    else
      var front := PrintedCells(rows[..|rows| - 1]);
      if Printable(rows[|rows| - 1]) then front + [Cells(rows[|rows| - 1])] else front
  }

  /** One printed row is one full line, and parses to its cells. */
  lemma RowLineParses(r: SpecRow)
    ensures FullLine(Line(Cells(r))) && ParseLine(Line(Cells(r))) == Cells(r)
  {
    CellsAreClean(r);
    ParsePrinted(Cells(r));
    PrintedLineIsFull(Cells(r));
  }

  lemma ParseAllSnoc(lines: seq<string>, line: string)
    ensures ParseAll(lines + [line]) == ParseAll(lines) + [ParseLine(line)]
  {
  }

  lemma {:induction false} RowLinesParse(rows: seq<SpecRow>)
    ensures ParseAll(RowLines(rows)) == PrintedCells(rows)
    ensures forall l :: l in RowLines(rows) ==> FullLine(l)
    ensures forall cells :: cells in PrintedCells(rows) ==> |cells| == |HEADERS|
  {
    if rows != [] {
      var r := rows[|rows| - 1];
      RowLinesParse(rows[..|rows| - 1]);
      if Printable(r) {
        RowLineParses(r);
        ParseAllSnoc(RowLines(rows[..|rows| - 1]), Line(Cells(r)));
      }
    }
  }

  lemma LinesStay(lines: seq<string>)
    requires lines != [] && forall l :: l in lines ==> FullLine(l)
    ensures StrippedLines(Pieces(Join(lines, "\n"))) == lines
  {
    PiecesOfJoin(lines);
    FullLinesStay(lines);
  }

  lemma TableOfLines(head: string, rule: string, body: seq<string>)
    requires FullLine(head) && FullLine(rule) && IsRule(ParseLine(rule))
    requires forall l :: l in body ==> FullLine(l)
    ensures TableOf([head, rule] + body) == Table(ParseLine(head), ParseAll(body))
  {
    var lines := [head, rule] + body;
    forall i | 0 <= i < |lines|
      ensures lines[i] != "" && lines[i][0] == '|'
    {
      if i >= 2 { assert lines[i] == body[i - 2] && body[i - 2] in body; }
    }
    var rows := ParseAll(lines);
    assert rows[0] == ParseLine(head) && rows[1] == ParseLine(rule);
    assert rows[2..] == ParseAll(body);
  }

  /** Any clean header line, rule line and body read back as the table they print. */
  lemma PrintedTable(headers: seq<string>, rule: seq<string>, body: seq<string>)
    requires headers != [] && rule != [] && IsRule(rule)
    requires forall c :: c in headers || c in rule ==> CleanCell(c)
    requires forall l :: l in body ==> FullLine(l)
    ensures ParsedTable(Join([Line(headers), Line(rule)] + body, "\n")) == Table(headers, ParseAll(body))
  {
    var lines := [Line(headers), Line(rule)] + body;
    PrintedLineIsFull(headers);
    PrintedLineIsFull(rule);
    ParsePrinted(headers);
    ParsePrinted(rule);
    forall l | l in lines
      ensures FullLine(l)
    {
      assert l == Line(headers) || l == Line(rule) || l in body;
    }
    LinesStay(lines);
    TableOfLines(Line(headers), Line(rule), body);
  }

  /** Whatever the cells hold, parsing the printed table gives the six headers and, in order, the six
      escaped cells of every printable row. */
  lemma {:induction false} TableRoundTrip(rows: seq<SpecRow>)
    ensures ParsedTable(Draft(rows)) == Table(HEADERS, PrintedCells(rows))
    ensures forall cells :: cells in PrintedCells(rows) ==> |cells| == |HEADERS|
  {
    RowLinesParse(rows);
    ConstantCells();
    SeparatorIsRule();
    PrintedTable(HEADERS, SEPARATOR, RowLines(rows));
  }

  // ---- what the table says ----

  /** The cell holds the words of the text, slashes in place of its pipes, in one line. */
  ghost predicate CellSays(cell: string, text: string) {
    CleanCell(cell) && Words(cell) == Words(Slashed(text))
  }

  lemma EscapedSays(text: string)
    ensures CellSays(EscapeCell(text), text)
  {
    EscapedIsClean(text);
    WordsAreWords(Slashed(text), '|');
    WordsOfJoin(Words(Slashed(text)));
  }

  /** A row of the table under its six headers: name, requirement or a note to check it, proposal or a dash, unit,
      status, and the excerpt or else the rule. */
  ghost predicate RowSays(cells: seq<string>, r: SpecRow) {
    && |cells| == 6
    && CellSays(cells[0], r.name)
    && CellSays(cells[1], if r.required == "" then "공고문 확인" else r.required)
    && CellSays(cells[2], if r.proposed == "" then "-" else r.proposed)
    && CellSays(cells[3], r.unit)
    && CellSays(cells[4], if r.status == Candidate then "candidate" else if r.status == Reviewed then "reviewed"
                          else "matched")
    && CellSays(cells[5], if r.excerpt == "" then r.rule else r.excerpt)
  }

  predicate Shown(r: SpecRow) { r.status == Candidate || r.status == Reviewed || r.status == Matched }

  /** The table has one row for every spec row shown, in order. */
  ghost predicate RowsSay(table: seq<seq<string>>, rows: seq<SpecRow>) {
    if rows == [] then table == []
    else
      var front, r := rows[..|rows| - 1], rows[|rows| - 1];
      if Shown(r) then table != [] && RowSays(table[|table| - 1], r) && RowsSay(table[..|table| - 1], front)
      else RowsSay(table, front)
  }

  lemma CellsSay(r: SpecRow)
    requires Shown(r)
    ensures RowSays(Cells(r), r)
  {
    EscapedSays(r.name);
    EscapedSays(Or(r.required, "공고문 확인"));
    EscapedSays(Or(r.proposed, "-"));
    EscapedSays(r.unit);
    EscapedSays(StatusText(r.status));
    EscapedSays(Or(r.excerpt, r.rule));
  }

  lemma {:induction false} PrintedCellsSay(rows: seq<SpecRow>)
    ensures RowsSay(PrintedCells(rows), rows)
  {
    if rows != [] {
      var front, r := rows[..|rows| - 1], rows[|rows| - 1];
      PrintedCellsSay(front);
      if Shown(r) {
        CellsSay(r);
        assert PrintedCells(rows)[..|PrintedCells(front)|] == PrintedCells(front);
      }
    }
  }

  /** The printed table, read back: the headers, and one row for every candidate, reviewed or matched spec row, in
      order, each field under its header. */
  lemma TableSays(rows: seq<SpecRow>)
    ensures ParsedTable(Draft(rows)).headers == ["항목", "공고 요구사양", "제안/대응 사양", "단위", "확인상태", "근거"]
    ensures RowsSay(ParsedTable(Draft(rows)).rows, rows)
  {
    TableRoundTrip(rows);
    PrintedCellsSay(rows);
  }

  // ---- a table printed without escaping ----

  function CountOf(s: string, c: char): nat {
    if s == "" then 0 else (if s[0] == c then 1 else 0) + CountOf(s[1..], c)
  }

  lemma {:induction false} SplitCounts(s: string, sep: char)
    ensures |Split(s, sep)| == 1 + CountOf(s, sep)
  {
    if s != "" { SplitCounts(s[1..], sep); }
  }

  lemma {:induction false} CountAppend(a: string, b: string, c: char)
    ensures CountOf(a + b, c) == CountOf(a, c) + CountOf(b, c)
  {
    if a == "" {
      assert a + b == b;
    } else {
      CountAppend(a[1..], b, c);
      assert (a + b)[1..] == a[1..] + b;
    }
  }

  lemma {:induction false} CountMember(s: string, c: char)
    ensures CountOf(s, c) == 0 <==> c !in s
  {
    if s != "" {
      CountMember(s[1..], c);
      assert c in s <==> c == s[0] || c in s[1..];
    }
  }

  lemma {:induction false} PipesInJoin(cells: seq<string>)
    requires cells != []
    ensures CountOf(Join(Padded(cells), "|"), '|') >= |cells| - 1
    ensures CountOf(Join(Padded(cells), "|"), '|') == |cells| - 1 <==> forall c :: c in cells ==> '|' !in c
  {
    var first := " " + cells[0] + " ";
    CountAppend(" " + cells[0], " ", '|');
    CountAppend(" ", cells[0], '|');
    CountMember(cells[0], '|');
    if |cells| > 1 {
      PipesInJoin(cells[1..]);
      assert Padded(cells)[1..] == Padded(cells[1..]);
      var rest := Join(Padded(cells[1..]), "|");
      CountAppend(first + "|", rest, '|');
      CountAppend(first, "|", '|');
    }
    assert forall c :: c in cells <==> c == cells[0] || c in cells[1..];
  }

  /** One line printed without escaping and not split again reads back as its cells exactly when no cell holds a pipe
      or outer white space. */
  lemma UnescapedLine(cells: seq<string>)
    requires cells != []
    ensures ParseLine(Line(cells)) == cells <==> forall c :: c in cells ==> '|' !in c && Strip(c) == c
  {
    InnerText(cells);
    var inner := Join(Padded(cells), "|");
    SplitCounts(inner, '|');
    PipesInJoin(cells);
    if forall c :: c in cells ==> '|' !in c {
      forall p | p in Padded(cells)
        ensures '|' !in p
      {
        var i :| 0 <= i < |cells| && p == Padded(cells)[i];
        assert cells[i] in cells;
      }
      SplitJoin(Padded(cells), '|');
      forall i | 0 <= i < |cells|
        ensures ParseLine(Line(cells))[i] == Strip(cells[i])
      {
        StripInner(cells[i]);
      }
      if forall c :: c in cells ==> Strip(c) == c {
        assert forall i :: 0 <= i < |cells| ==> cells[i] in cells;
      } else {
        var c :| c in cells && Strip(c) != c;
        var i :| 0 <= i < |cells| && cells[i] == c;
      }
    }
  }

  lemma StripInner(s: string)
    ensures Strip(" " + s + " ") == Strip(s)
  {
    assert " " + s + " " == " " + (s + " ");
    StripLeftSpaces(" ", s + " ");
    StripLeftThenRight(s, " ");
  }

  lemma {:induction false} StripLeftThenRight(s: string, after: string)
    requires forall c :: c in after ==> IsSpace(c)
    ensures StripRight(StripLeft(s + after)) == StripRight(StripLeft(s))
  {
    if s == "" {
      assert s + after == after + "";
      StripLeftSpaces(after, "");
    } else if IsSpace(s[0]) {
      StripLeftThenRight(s[1..], after);
      assert (s + after)[1..] == s[1..] + after;
    } else {
      StripRightSpaces(s, after);
    }
  }

  // ---- the draft of documents/analyze, printed without escaping ----

  lemma {:induction false} PiecesHaveNoBreak(s: string)
    ensures forall p :: p in Pieces(s) ==> NoLineBreak(p)
  {
    if s != "" {
      PiecesHaveNoBreak(s[1..]);
      assert Pieces(s[1..])[0] in Pieces(s[1..]);
    }
  }

  lemma {:induction false} StripLeftChars(s: string)
    ensures forall c :: c in StripLeft(s) ==> c in s
  {
    if s != "" && IsSpace(s[0]) { StripLeftChars(s[1..]); }
  }

  lemma StripChars(s: string)
    ensures forall c :: c in Strip(s) ==> c in s
  {
    StripLeftChars(s);
  }

  lemma {:induction false} StrippedLinesHaveNoBreak(pieces: seq<string>)
    requires forall p :: p in pieces ==> NoLineBreak(p)
    ensures forall l :: l in StrippedLines(pieces) ==> NoLineBreak(l)
  {
    if pieces != [] {
      assert pieces[0] in pieces;
      StripChars(pieces[0]);
      StrippedLinesHaveNoBreak(pieces[1..]);
    }
  }

  lemma {:induction false} SplitChars(s: string, sep: char)
    ensures forall p, c :: p in Split(s, sep) && c in p ==> c in s
  {
    if s != "" {
      SplitChars(s[1..], sep);
      assert Split(s[1..], sep)[0] in Split(s[1..], sep);
    }
  }

  lemma {:induction false} LeadingPipesChars(s: string)
    ensures forall c :: c in DropLeadingPipes(s) ==> c in s
  {
    if s != "" && s[0] == '|' { LeadingPipesChars(s[1..]); }
  }

  lemma {:induction false} TrailingPipesChars(s: string)
    ensures forall c :: c in DropTrailingPipes(s) ==> c in s
  {
    if s != "" && s[|s| - 1] == '|' { TrailingPipesChars(s[..|s| - 1]); }
  }

  lemma ParsedCellsAreClean(line: string)
    requires NoLineBreak(line)
    ensures forall cell :: cell in ParseLine(line) ==> CleanCell(cell)
  {
    var inner := DropTrailingPipes(DropLeadingPipes(line));
    LeadingPipesChars(line);
    TrailingPipesChars(DropLeadingPipes(line));
    SplitChars(inner, '|');
    SplitHasNoSep(inner, '|');
    forall cell | cell in ParseLine(line)
      ensures CleanCell(cell)
    {
      var i :| 0 <= i < |Split(inner, '|')| && cell == Strip(Split(inner, '|')[i]);
      var p := Split(inner, '|')[i];
      assert p in Split(inner, '|');
      StripStrips(p);
      StripChars(p);
    }
  }

  ghost predicate CleanRow(r: seq<string>) { forall c :: c in r ==> CleanCell(c) }

  /** Whatever the text, a table that is not the one-column fallback has clean cells only. */
  lemma ParsedTableIsClean(markdown: string)
    ensures
      var t := ParsedTable(markdown);
      t.headers == ["내용"] || forall r :: r in t.rows ==> CleanRow(r)
  {
    var lines := StrippedLines(Pieces(markdown));
    PiecesHaveNoBreak(markdown);
    StrippedLinesHaveNoBreak(Pieces(markdown));
    forall r | r in ParseAll(lines)
      ensures CleanRow(r)
    {
      var i :| 0 <= i < |lines| && r == ParseLine(lines[i]);
      assert lines[i] in lines;
      ParsedCellsAreClean(lines[i]);
    }
  }

  const DRAFT_HEADERS := ["항목", "공고 요구사양", "추출/추천 값", "확인"]
  const DRAFT_RULE := ["---", "---", "---", "---"]

  function Lines(rows: seq<seq<string>>): (lines: seq<string>)
    ensures |lines| == |rows|
  {
    seq(|rows|, i requires 0 <= i < |rows| => Line(rows[i]))
  }

  function UnescapedTable(rows: seq<seq<string>>): string {
    Join([Line(DRAFT_HEADERS), Line(DRAFT_RULE)] + Lines(rows), "\n")
  }

  lemma DraftHeadersAreClean()
    ensures forall c :: c in DRAFT_HEADERS ==> CleanCell(c)
  {
    assert CleanCell(DRAFT_HEADERS[0]) && CleanCell(DRAFT_HEADERS[1]);
    assert CleanCell(DRAFT_HEADERS[2]) && CleanCell(DRAFT_HEADERS[3]);
  }

  lemma DraftRuleIsRule()
    ensures IsRule(DRAFT_RULE) && forall c :: c in DRAFT_RULE ==> CleanCell(c)
  {
    assert CleanCell("---");
  }

  lemma LinesParse(rows: seq<seq<string>>)
    requires forall r :: r in rows ==> r != [] && CleanRow(r)
    ensures ParseAll(Lines(rows)) == rows && forall l :: l in Lines(rows) ==> FullLine(l)
  {
    forall i | 0 <= i < |rows|
      ensures ParseLine(Line(rows[i])) == rows[i] && FullLine(Line(rows[i]))
    {
      assert rows[i] in rows;
      ParsePrinted(rows[i]);
      PrintedLineIsFull(rows[i]);
    }
  }

  /** A table printed without escaping reads back exactly when no cell holds a pipe, a line break
      or outer white space. */
  lemma UnescapedReadsBack(rows: seq<seq<string>>)
    requires forall r :: r in rows ==> r != []
    ensures ParsedTable(UnescapedTable(rows)) == Table(DRAFT_HEADERS, rows) <==> forall r :: r in rows ==> CleanRow(r)
  {
    ParsedTableIsClean(UnescapedTable(rows));
    if forall r :: r in rows ==> CleanRow(r) {
      DraftHeadersAreClean();
      DraftRuleIsRule();
      LinesParse(rows);
      PrintedTable(DRAFT_HEADERS, DRAFT_RULE, Lines(rows));
    }
  }

  // ---- its rows ----

  const DRAFT_LABELS := ["품목", "수량", "정격전압(kV)", "정격전류(A)", "정격용량(kVA)", "정격출력(kW)", "보호등급", "규격"]

  function DraftRow(name: string, check: string, value: string): seq<string> { [name, check, value, "담당자 검토"] }

  /** values holds the text of the eight fields, sku the name of the recommended product; empty when there is none. */
  function DraftRows(values: seq<string>, sku: string): seq<seq<string>>
    requires |values| == |DRAFT_LABELS|
  {
    seq(|values|, i requires 0 <= i < |values| => DraftRow(DRAFT_LABELS[i], "공고문 확인", Or(values[i], "-")))
    + if sku != "" then [DraftRow("추천 SKU", "제품 매칭", sku)] else []
  }

  /** The eight fields under their labels, and the product if there is one. */
  lemma DraftRowsAre(values: seq<string>, sku: string)
    requires |values| == 8
    ensures
      var rows := DraftRows(values, sku);
      && |rows| == (if sku == "" then 8 else 9)
      && (forall i :: 0 <= i < 8 ==>
           rows[i][1..] == ["공고문 확인", if values[i] == "" then "-" else values[i], "담당자 검토"])
      && rows[0][0] == "품목" && rows[1][0] == "수량" && rows[2][0] == "정격전압(kV)" && rows[3][0] == "정격전류(A)"
      && rows[4][0] == "정격용량(kVA)" && rows[5][0] == "정격출력(kW)" && rows[6][0] == "보호등급" && rows[7][0] == "규격"
      && (sku != "" ==> rows[8] == ["추천 SKU", "제품 매칭", sku, "담당자 검토"])
  {
  }

  /** _build_drafts: the technical table */
  method BuildTechnicalDraft(values: seq<string>, sku: string) returns (content: string)
    requires |values| == |DRAFT_LABELS|
    ensures content == UnescapedTable(DraftRows(values, sku))
  {
    var printed := FieldLines(values);
    ghost var rows := DraftRows(values, sku);
    if sku != "" {
      printed := printed + [Line(DraftRow("추천 SKU", "제품 매칭", sku))];
    }
    assert printed == Lines(rows);
    content := Join([Line(DRAFT_HEADERS), Line(DRAFT_RULE)] + printed, "\n");
  }

  method FieldLines(values: seq<string>) returns (lines: seq<string>)
    requires |values| == |DRAFT_LABELS|
    ensures |lines| == |values|
    ensures forall i :: 0 <= i < |values| ==> lines[i] == Line(DraftRow(DRAFT_LABELS[i], "공고문 확인", Or(values[i], "-")))
  {
    lines := [];
    for i := 0 to |values|
      invariant |lines| == i
      invariant forall j :: 0 <= j < i ==> lines[j] == Line(DraftRow(DRAFT_LABELS[j], "공고문 확인", Or(values[j], "-")))
    {
      lines := lines + [Line(DraftRow(DRAFT_LABELS[i], "공고문 확인", Or(values[i], "-")))];
    }
  }

  lemma LabelsAreClean()
    ensures forall i :: 0 <= i < |DRAFT_LABELS| ==> CleanCell(DRAFT_LABELS[i])
  {
    FirstLabelsAreClean();
    LastLabelsAreClean();
  }

  lemma FirstLabelsAreClean()
    ensures forall i :: 0 <= i < 4 ==> CleanCell(DRAFT_LABELS[i])
  {
    assert CleanCell(DRAFT_LABELS[0]) && CleanCell(DRAFT_LABELS[1]);
    assert CleanCell(DRAFT_LABELS[2]) && CleanCell(DRAFT_LABELS[3]);
  }

  lemma LastLabelsAreClean()
    ensures forall i :: 4 <= i < 8 ==> CleanCell(DRAFT_LABELS[i])
  {
    assert CleanCell(DRAFT_LABELS[4]) && CleanCell(DRAFT_LABELS[5]);
    assert CleanCell(DRAFT_LABELS[6]) && CleanCell(DRAFT_LABELS[7]);
  }

  lemma FixedTextsAreClean()
    ensures CleanCell("공고문 확인") && CleanCell("담당자 검토") && CleanCell("추천 SKU") && CleanCell("제품 매칭") && CleanCell("-")
  {
  }

  lemma DraftRowIsClean(name: string, check: string, value: string)
    requires CleanCell(name) && CleanCell(check)
    ensures CleanRow(DraftRow(name, check, Or(value, "-"))) <==> CleanCell(value)
  {
    FixedTextsAreClean();
    var r := DraftRow(name, check, Or(value, "-"));
    assert r[2] in r;
  }

  lemma FieldRowsAreClean(values: seq<string>, i: nat)
    requires i < |values| == |DRAFT_LABELS|
    ensures CleanRow(DraftRows(values, "")[i]) <==> CleanCell(values[i])
  {
    LabelsAreClean();
    FixedTextsAreClean();
    DraftRowIsClean(DRAFT_LABELS[i], "공고문 확인", values[i]);
  }

  lemma RowsAreClean(values: seq<string>, sku: string)
    requires |values| == |DRAFT_LABELS|
    ensures (forall r :: r in DraftRows(values, sku) ==> CleanRow(r))
            <==> (forall v :: v in values ==> CleanCell(v)) && CleanCell(sku)
  {
    var fields, rows := DraftRows(values, ""), DraftRows(values, sku);
    var last := if sku != "" then [DraftRow("추천 SKU", "제품 매칭", sku)] else [];
    assert rows == fields + last;
    forall i | 0 <= i < |values|
      ensures CleanRow(fields[i]) <==> CleanCell(values[i])
    {
      FieldRowsAreClean(values, i);
    }
    FixedTextsAreClean();
    DraftRowIsClean("추천 SKU", "제품 매칭", sku);
    assert forall r :: r in rows <==> r in fields || r in last;
    assert (forall r :: r in fields ==> CleanRow(r)) <==> forall v :: v in values ==> CleanCell(v) by {
      assert forall i :: 0 <= i < |values| ==> values[i] in values && fields[i] in fields;
    }
  }

  /** The draft reads back exactly when no field value and no product name holds a pipe, a line break
      or outer white space. */
  lemma UnescapedDraft(values: seq<string>, sku: string)
    requires |values| == |DRAFT_LABELS|
    ensures ParsedTable(UnescapedTable(DraftRows(values, sku))) == Table(DRAFT_HEADERS, DraftRows(values, sku))
            <==> (forall v :: v in values ==> CleanCell(v)) && CleanCell(sku)
  {
    UnescapedReadsBack(DraftRows(values, sku));
    RowsAreClean(values, sku);
  }

  /** A product name of two lines breaks the draft, whatever the fields hold. */
  lemma LineBreakBreaksDraft(values: seq<string>)
    requires |values| == |DRAFT_LABELS|
    ensures ParsedTable(UnescapedTable(DraftRows(values, "b\nc"))) != Table(DRAFT_HEADERS, DraftRows(values, "b\nc"))
  {
    UnescapedDraft(values, "b\nc");
    assert "b\nc"[1] in "b\nc";
  }
}
