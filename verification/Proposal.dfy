/** Proposal sections: the generator prints evidence citations, the fact checker parses them back. */
module Proposal {
  import opened Text

  datatype ReqType =
    | CompanyOverview | SimilarExperience | TechnicalStrength | ExecutionPlan | Maintenance
    | Quality | Security | Qualification | Documents | OtherType

  datatype Requirement = Requirement(id: string, kind: ReqType, text: string, mandatory: bool)
  datatype Evidence = Evidence(id: string, requirementId: string)

  const MARK := "Evidence:"
  const WARN := "[검증필요]"
  const CITED := " 대해 보유 자료를 근거로 대응 가능합니다. "
  const UNCITED := " 대한 구체 근거는 추가 확인이 필요합니다. "
  const NO_EVIDENCE := " 항목은 현재 연결된 Evidence가 없어 담당자 검토가 필요합니다. "

  function SectionTitle(k: ReqType): string {
    match k
    case CompanyOverview => "회사 일반현황"
    case SimilarExperience => "유사 사업 수행실적"
    case TechnicalStrength => "기술적 차별성"
    case ExecutionPlan => "사업 수행방안"
    case Maintenance => "유지보수 계획"
    case Quality => "품질관리"
    case Security => "보안관리"
    case Qualification => "자격 및 인증"
    case Documents => "제출서류 대응"
    case OtherType => "기타 요구사항"
  }

  // ---- the generator ----

  function For(evs: seq<Evidence>, reqId: string): seq<Evidence> {
    if evs == [] then []
    else if evs[0].requirementId == reqId then [evs[0]] + For(evs[1..], reqId)
    else For(evs[1..], reqId)
  }

  function FirstN(evs: seq<Evidence>, n: nat): seq<Evidence> { if |evs| <= n then evs else evs[..n] }

  function Ids(evs: seq<Evidence>): (ids: seq<string>)
    ensures |ids| == |evs|
  {
    seq(|evs|, i requires 0 <= i < |evs| => evs[i].id)
  }

  /** The ids one requirement cites: its first two evidences of the section. */
  function Cites(r: Requirement, evs: seq<Evidence>): seq<string> { Ids(FirstN(For(evs, r.id), 2)) }

  function Claim(r: Requirement, evs: seq<Evidence>): string {
    var refs := Cites(r, evs);
    if refs != [] then r.text + "에" + CITED + "[" + MARK + " " + Join(refs, ", ") + "]"
    else r.text + "에" + UNCITED + WARN
  }

  function Claims(reqs: seq<Requirement>, evs: seq<Evidence>): (lines: seq<string>)
    ensures |lines| == |reqs|
  {
    seq(|reqs|, i requires 0 <= i < |reqs| => Claim(reqs[i], evs))
  }

  function Content(title: string, reqs: seq<Requirement>, evs: seq<Evidence>): string {
    if evs == [] then title + NO_EVIDENCE + WARN else Join(Claims(reqs, evs), "\n")
  }

  /** build_section, the generated text */
  method BuildSection(title: string, reqs: seq<Requirement>, evs: seq<Evidence>) returns (content: string)
    ensures content == Content(title, reqs, evs)
  {
    if evs == [] {
      content := title + NO_EVIDENCE + WARN;
    } else {
      var claims: seq<string> := [];
      for i := 0 to |reqs|
        invariant claims == Claims(reqs, evs)[..i]
      {
        var top := FirstN(For(evs, reqs[i].id), 2);
        var refs := Join(Ids(top), ", ");
        if top != [] {
          claims := claims + [reqs[i].text + "에" + CITED + "[" + MARK + " " + refs + "]"];
        } else {
          claims := claims + [reqs[i].text + "에" + UNCITED + WARN];
        }
      }
      assert Claims(reqs, evs)[..|reqs|] == Claims(reqs, evs);
      content := Join(claims, "\n");
    }
  }

  // ---- the fact checker ----

  function SpaceRun(s: string): nat {
    if s != "" && IsSpace(s[0]) then 1 + SpaceRun(s[1..]) else 0
  }

  /** Length of the longest prefix without ']'. */
  function BodyRun(s: string): (n: nat)
    ensures n <= |s|
  {
    if s != "" && s[0] != ']' then 1 + BodyRun(s[1..]) else 0
  }

  lemma {:induction false} SpacesBeforeBody(s: string)
    ensures SpaceRun(s) <= BodyRun(s)
  {
    if s != "" { SpacesBeforeBody(s[1..]); }
  }

  /** re.findall(r"Evidence:\s*([^\]]+)", s): the white space is skipped greedily, but gives back its
      last character when nothing else is left for the group. */
  function FindGroups(s: string): seq<string>
    decreases |s|
  {
    if |s| < |MARK| then []
    else if s[..|MARK|] != MARK then FindGroups(s[1..])
    else
      var rest := s[|MARK|..];
      var n := BodyRun(rest);
      SpacesBeforeBody(rest);
      if n == 0 then FindGroups(s[1..])
      else
        var skipped := SpaceRun(rest);
        [rest[if skipped < n then skipped else n - 1..n]] + FindGroups(rest[n..])
  }

  /** item.strip() for every comma-separated item that is not blank */
  function Expand(groups: seq<string>): set<string> {
    set g, p | g in groups && p in Split(g, ',') && Strip(p) != "" :: Strip(p)
  }

  datatype CheckStatus = Pass | Warning | Reject | Pending

  function CheckOf(content: string, known: set<string>): CheckStatus {
    if Expand(FindGroups(content)) - known != {} then Reject
    else if Occurs(WARN, content) then Warning
    else Pass
  }

  /** _overall_status */
  function Overall(statuses: seq<CheckStatus>): CheckStatus {
    if Reject in statuses then Reject
    else if Warning in statuses then Warning
    else if statuses != [] && Pending !in statuses then Pass
    else Pending
  }

  /** verify_sections */
  method VerifySections(contents: seq<string>, known: set<string>) returns (statuses: seq<CheckStatus>)
    ensures |statuses| == |contents|
    ensures forall i :: 0 <= i < |contents| ==> statuses[i] == CheckOf(contents[i], known)
  {
    statuses := [];
    for i := 0 to |contents|
      invariant |statuses| == i
      invariant forall j :: 0 <= j < i ==> statuses[j] == CheckOf(contents[j], known)
    {
      var refs := Expand(FindGroups(contents[i]));
      var warned := Occurs(WARN, contents[i]);
      var missing := refs - known;
      statuses := statuses + [if missing != {} then Reject else if warned then Warning else Pass];
    }
  }

  // ---- what must not occur in the free texts ----

  predicate IdOk(id: string) {
    id != "" && forall c :: c in id ==> c != ',' && c != ']' && !IsSpace(c)
  }

  /** With the bracket that closes the citation, such an id reads as the warning marker. */
  predicate FakesWarning(id: string) {
    |id| >= |WARN| - 1 && id[|id| - (|WARN| - 1)..] == WARN[..|WARN| - 1]
  }

  ghost predicate TextOk(text: string) { !Occurs(MARK, text) && !Occurs(WARN, text) }

  ghost predicate InputsOk(reqs: seq<Requirement>, evs: seq<Evidence>) {
    && (forall r :: r in reqs ==> TextOk(r.text))
    && (forall e :: e in evs ==> IdOk(e.id))
  }

  // ---- occurrences of a needle ----

  /** A needle with a character the text lacks does not occur in it. */
  lemma LacksChar(needle: string, s: string, c: char)
    requires c in needle && c !in s
    ensures !Occurs(needle, s)
  {
  }

  // ---- parsing what was printed ----

  lemma {:induction false} SkipGroups(a: string, b: string)
    requires NoneBefore(MARK, a + b, |a|)
    ensures FindGroups(a + b) == FindGroups(b)
  {
    if a == "" {
      assert a + b == b;
    } else {
      var s := a + b;
      assert s[1..] == a[1..] + b;
      forall i | 0 <= i < |a[1..]|
        ensures !OccursAt(MARK, s[1..], i)
      {
        assert !OccursAt(MARK, s, i + 1);
        if i <= |s[1..]| - |MARK| {
          assert s[1..][i..i + |MARK|] == s[i + 1..i + 1 + |MARK|];
        }
      }
      SkipGroups(a[1..], b);
      assert !OccursAt(MARK, s, 0);
      if |s| >= |MARK| {
        assert s[0..|MARK|] == s[..|MARK|];
      }
    }
  }

  lemma {:induction false} BodyOf(refs: string, tail: string)
    requires ']' !in refs
    ensures BodyRun(refs + "]" + tail) == |refs|
  {
    var s := refs + "]" + tail;
    if refs != "" {
      assert s[0] == refs[0] && refs[0] in refs;
      assert s[1..] == refs[1..] + "]" + tail;
      BodyOf(refs[1..], tail);
    }
  }

  /** One printed citation is found as one group holding exactly the printed references. */
  lemma CitationGroup(refs: string, tail: string)
    requires refs != "" && ']' !in refs && !IsSpace(refs[0])
    ensures FindGroups(MARK + " " + refs + "]" + tail) == [refs] + FindGroups("]" + tail)
  {
    var s := MARK + " " + refs + "]" + tail;
    var rest := s[|MARK|..];
    assert rest == (" " + refs) + "]" + tail;
    assert s[..|MARK|] == MARK;
    BodyOf(" " + refs, tail);
    assert rest[1..] == refs + "]" + tail;
    assert SpaceRun(rest) == 1 by {
      assert rest[0] == ' ' && rest[1..][0] == refs[0];
    }
    assert rest[1..1 + |refs|] == refs;
    assert rest[1 + |refs|..] == "]" + tail;
  }

  lemma {:induction false} RefsText(ids: seq<string>)
    requires ids != [] && forall id :: id in ids ==> IdOk(id)
    ensures Join(ids, ", ") != "" && !IsSpace(Join(ids, ", ")[0])
    ensures ']' !in Join(ids, ", ")
  {
    assert ids[0] in ids;
    if |ids| > 1 {
      RefsText(ids[1..]);
    }
  }

  /** The pieces between the commas are the ids, all but the first behind one space. */
  lemma {:induction false} SplitRefs(ids: seq<string>)
    requires ids != [] && forall id :: id in ids ==> IdOk(id)
    ensures
      var pieces := Split(Join(ids, ", "), ',');
      |pieces| == |ids| && pieces[0] == ids[0]
      && forall i :: 1 <= i < |ids| ==> pieces[i] == " " + ids[i]
  {
    assert ids[0] in ids;
    if |ids| == 1 {
      SplitNone(ids[0], ',');
    } else {
      var rest := Join(ids[1..], ", ");
      SplitRefs(ids[1..]);
      assert ids[0] + ", " + rest == ids[0] + [','] + (" " + rest);
      SplitCons(ids[0], " " + rest, ',');
      assert (" " + rest)[1..] == rest;
    }
  }

  lemma ExpandRefs(ids: seq<string>, p: string)
    requires ids != [] && forall id :: id in ids ==> IdOk(id)
    ensures (exists q :: q in Split(Join(ids, ", "), ',') && Strip(q) != "" && Strip(q) == p) <==> p in ids
  {
    var pieces := Split(Join(ids, ", "), ',');
    SplitRefs(ids);
    forall i | 0 <= i < |ids|
      ensures Strip(pieces[i]) == ids[i] && ids[i] != ""
    {
      assert ids[i] in ids;
      assert ids[i][0] in ids[i] && ids[i][|ids[i]| - 1] in ids[i];
      StripPadded(if i == 0 then "" else " ", ids[i], "");
      assert (if i == 0 then "" else " ") + ids[i] + "" == pieces[i];
    }
    if p in ids {
      var i :| 0 <= i < |ids| && ids[i] == p;
      assert pieces[i] in pieces;
    }
  }

  /** All groups a list of claims prints, in order. */
  function Groups(reqs: seq<Requirement>, evs: seq<Evidence>): seq<string> {
    if reqs == [] then []
    else (if Cites(reqs[0], evs) != [] then [Join(Cites(reqs[0], evs), ", ")] else []) + Groups(reqs[1..], evs)
  }

  lemma {:induction false} ForMembers(evs: seq<Evidence>, reqId: string)
    ensures forall e :: e in For(evs, reqId) <==> e in evs && e.requirementId == reqId
  {
    if evs != [] { ForMembers(evs[1..], reqId); }
  }

  lemma CitesAreIds(r: Requirement, evs: seq<Evidence>)
    ensures forall id :: id in Cites(r, evs) ==> exists e :: e in evs && e.requirementId == r.id && e.id == id
    ensures Cites(r, evs) != [] <==> exists e :: e in evs && e.requirementId == r.id
  {
    ForMembers(evs, r.id);
    var top := FirstN(For(evs, r.id), 2);
    forall id | id in Cites(r, evs)
      ensures exists e :: e in evs && e.requirementId == r.id && e.id == id
    {
      var i :| 0 <= i < |top| && Ids(top)[i] == id;
      assert top[i] in For(evs, r.id);
    }
    if Cites(r, evs) != [] {
      assert top[0] in For(evs, r.id);
    }
  }

  predicate Tail(s: string) { s != "" ==> s[0] == '\n' }

  lemma Markers()
    ensures ':' in MARK && '\n' !in MARK && '에' !in MARK && '[' !in MARK && ']' !in MARK
    ensures '[' in WARN && ']' in WARN && ':' !in WARN && ',' !in WARN
    ensures ' ' !in WARN && '\n' !in WARN && '에' !in WARN && 'E' !in WARN
    ensures WARN[|WARN| - 1] == ']' && MARK == "E" + MARK[1..]
  {
  }

  lemma CitedPhrase()
    ensures ':' !in CITED && '[' !in CITED
  {
  }

  lemma UncitedPhrase()
    ensures ':' !in UNCITED
  {
  }

  lemma NoEvidencePhrase()
    ensures ':' !in NO_EVIDENCE
  {
  }

  lemma TextThen(text: string, phrase: string, needle: string)
    requires needle != "" && !Occurs(needle, text) && '에' !in needle && !Occurs(needle, phrase)
    ensures !Occurs(needle, text + "에" + phrase)
  {
    OccursSides(needle, text, '에', phrase);
    assert text + ['에'] + phrase == text + "에" + phrase;
  }

  /** The groups of one claim followed by more text. */
  lemma ClaimGroups(r: Requirement, evs: seq<Evidence>, tail: string)
    requires TextOk(r.text) && (forall e :: e in evs ==> IdOk(e.id)) && Tail(tail)
    ensures FindGroups(Claim(r, evs) + tail) == Groups([r], evs) + FindGroups(tail)
  {
    GroupsOfOne(r, evs);
    if Cites(r, evs) != [] { CitedGroups(r, evs, tail); } else { UncitedClaim(r.text, tail); }
  }

  lemma GroupsOfOne(r: Requirement, evs: seq<Evidence>)
    ensures Groups([r], evs) == if Cites(r, evs) != [] then [Join(Cites(r, evs), ", ")] else []
  {
    assert Groups([r][1..], evs) == [];
  }

  lemma CitedGroups(r: Requirement, evs: seq<Evidence>, tail: string)
    requires TextOk(r.text) && (forall e :: e in evs ==> IdOk(e.id)) && Cites(r, evs) != []
    ensures FindGroups(Claim(r, evs) + tail) == [Join(Cites(r, evs), ", ")] + FindGroups(tail)
  {
    CitesAreIds(r, evs);
    RefsText(Cites(r, evs));
    CitedClaim(r.text, Join(Cites(r, evs), ", "), tail);
  }

  lemma CitedClaim(text: string, refs: string, tail: string)
    requires !Occurs(MARK, text) && refs != "" && ']' !in refs && !IsSpace(refs[0])
    ensures FindGroups(text + "에" + CITED + "[" + MARK + " " + refs + "]" + tail) == [refs] + FindGroups(tail)
  {
    Markers();
    CitedPhrase();
    var before := text + "에" + CITED;
    LacksChar(MARK, CITED, ':');
    TextThen(text, CITED, MARK);
    var cite := MARK + " " + refs + "]" + tail;
    OccursSides(MARK, before, '[', cite);
    assert text + "에" + CITED + "[" + MARK + " " + refs + "]" + tail == before + ['['] + cite;
    assert before + ['['] + cite == (before + ['[']) + cite;
    SkipGroups(before + ['['], cite);
    CitationGroup(refs, tail);
    SkipBracket(tail);
  }

  lemma UncitedClaim(text: string, tail: string)
    requires !Occurs(MARK, text) && Tail(tail)
    ensures FindGroups(text + "에" + UNCITED + WARN + tail) == FindGroups(tail)
  {
    Markers();
    UncitedPhrase();
    LacksChar(MARK, UNCITED + WARN, ':');
    TextThen(text, UNCITED + WARN, MARK);
    assert text + "에" + (UNCITED + WARN) == text + "에" + UNCITED + WARN;
    SkipAll(text + "에" + UNCITED + WARN, tail);
  }

  lemma SkipBracket(tail: string)
    ensures FindGroups("]" + tail) == FindGroups(tail)
  {
    Markers();
    LacksChar(MARK, "", ':');
    OccursSides(MARK, "", ']', tail);
    assert "" + [']'] + tail == "]" + tail;
    SkipGroups("]", tail);
  }

  lemma SkipAll(claim: string, tail: string)
    requires !Occurs(MARK, claim) && Tail(tail)
    ensures FindGroups(claim + tail) == FindGroups(tail)
  {
    Markers();
    if tail == "" {
      assert claim + tail == claim;
      assert NoneBefore(MARK, claim, |claim|);
    } else {
      OccursSides(MARK, claim, '\n', tail[1..]);
      assert claim + ['\n'] + tail[1..] == claim + tail;
    }
    SkipGroups(claim, tail);
  }

  lemma GroupsBehindNewline(text: string)
    ensures FindGroups("\n" + text) == FindGroups(text)
  {
    Markers();
    LacksChar(MARK, "", ':');
    OccursSides(MARK, "", '\n', text);
    assert "" + ['\n'] + text == "\n" + text;
    SkipGroups("\n", text);
  }

  lemma JoinCons(first: string, rest: seq<string>, sep: string)
    ensures Join([first] + rest, sep) == first + if rest == [] then "" else sep + Join(rest, sep)
  {
  }

  lemma FirstClaim(r: Requirement, rest: seq<Requirement>, evs: seq<Evidence>)
    ensures Groups([r] + rest, evs) == Groups([r], evs) + Groups(rest, evs)
    ensures Claims([r] + rest, evs) == [Claim(r, evs)] + Claims(rest, evs)
  {
    assert ([r] + rest)[1..] == rest && [r][1..] == [];
    ClaimsCons(r, rest, evs);
  }

  lemma ClaimsCons(r: Requirement, rest: seq<Requirement>, evs: seq<Evidence>)
    ensures Claims([r] + rest, evs) == [Claim(r, evs)] + Claims(rest, evs)
  {
  }

  lemma {:induction false} ContentGroups(reqs: seq<Requirement>, evs: seq<Evidence>)
    requires InputsOk(reqs, evs)
    ensures FindGroups(Join(Claims(reqs, evs), "\n")) == Groups(reqs, evs)
  {
    if reqs == [] {
    } else {
      var r, rest := reqs[0], reqs[1..];
      assert reqs == [r] + rest && r in reqs;
      FirstClaim(r, rest, evs);
      JoinCons(Claim(r, evs), Claims(rest, evs), "\n");
      if rest == [] {
        ClaimGroups(r, evs, "");
      } else {
        ContentGroups(rest, evs);
        ClaimGroups(r, evs, "\n" + Join(Claims(rest, evs), "\n"));
        GroupsBehindNewline(Join(Claims(rest, evs), "\n"));
      }
    }
  }

  lemma {:induction false} GroupsExpand(reqs: seq<Requirement>, evs: seq<Evidence>, p: string)
    requires forall e :: e in evs ==> IdOk(e.id)
    ensures p in Expand(Groups(reqs, evs)) <==> exists i :: 0 <= i < |reqs| && p in Cites(reqs[i], evs)
  {
    if reqs != [] {
      var cites := Cites(reqs[0], evs);
      GroupsExpand(reqs[1..], evs, p);
      CitesAreIds(reqs[0], evs);
      if cites != [] {
        ExpandRefs(cites, p);
      }
      var g := if cites != [] then [Join(cites, ", ")] else [];
      assert forall x :: x in g + Groups(reqs[1..], evs) <==> x in g || x in Groups(reqs[1..], evs);
      assert (exists i :: 0 <= i < |reqs| && p in Cites(reqs[i], evs))
             <==> p in cites || exists i :: 0 <= i < |reqs[1..]| && p in Cites(reqs[1..][i], evs) by {
        if i :| 0 <= i < |reqs| && p in Cites(reqs[i], evs) {
          if i > 0 { assert reqs[1..][i - 1] == reqs[i]; }
        }
        if i :| 0 <= i < |reqs[1..]| && p in Cites(reqs[1..][i], evs) {
          assert reqs[i + 1] == reqs[1..][i];
        }
      }
    }
  }

  /** The references the checker reads out of a section are exactly the ids the generator cited in it. */
  lemma RefsAreCitedIds(title: string, reqs: seq<Requirement>, evs: seq<Evidence>, p: string)
    requires InputsOk(reqs, evs) && ':' !in title
    ensures p in Expand(FindGroups(Content(title, reqs, evs))) <==>
            exists i :: 0 <= i < |reqs| && p in Cites(reqs[i], evs)
  {
    if evs == [] {
      Markers();
      NoEvidencePhrase();
      var content := title + NO_EVIDENCE + WARN;
      LacksChar(MARK, content, ':');
      SkipAll(content, "");
      assert content + "" == content;
      forall i | 0 <= i < |reqs|
        ensures Cites(reqs[i], evs) == []
      {
        CitesAreIds(reqs[i], evs);
      }
    } else {
      ContentGroups(reqs, evs);
      GroupsExpand(reqs, evs, p);
    }
  }

  // ---- the warning marker ----

  function LastCited(r: Requirement, evs: seq<Evidence>): string {
    var ids := Cites(r, evs);
    if ids == [] then "" else ids[|ids| - 1]
  }

  /** Cited, and not by an id that reads as the marker. */
  predicate Solid(r: Requirement, evs: seq<Evidence>) { Cites(r, evs) != [] && !FakesWarning(LastCited(r, evs)) }

  lemma WarnAtEnd(id: string, i: nat)
    requires ']' !in id && OccursAt(WARN, id + "]", i)
    ensures FakesWarning(id)
  {
    Markers();
    var s, n := id + "]", |WARN|;
    assert s[i..i + n][n - 1] == s[i + n - 1];
    forall p | 0 <= p < |id|
      ensures s[p] != ']'
    {
      assert id[p] in id;
    }
    assert i + n == |s|;
    assert s[i..i + n][..n - 1] == id[i..];
  }

  lemma IdWarns(id: string)
    requires ']' !in id
    ensures Occurs(WARN, id + "]") <==> FakesWarning(id)
  {
    Markers();
    var s, n := id + "]", |WARN|;
    if i :| 0 <= i <= |s| - n && OccursAt(WARN, s, i) {
      WarnAtEnd(id, i);
    }
    if FakesWarning(id) {
      var i := |id| - (n - 1);
      assert s[i..i + n] == id[i..] + "]";
      assert WARN[..n - 1] + "]" == WARN;
      assert OccursAt(WARN, s, i);
    }
  }

  lemma {:induction false} RefsWarn(ids: seq<string>)
    requires ids != [] && forall id :: id in ids ==> IdOk(id)
    ensures Occurs(WARN, Join(ids, ", ") + "]") <==> FakesWarning(ids[|ids| - 1])
  {
    assert ids[0] in ids;
    if |ids| == 1 {
      IdWarns(ids[0]);
    } else {
      var rest := Join(ids[1..], ", ") + "]";
      RefsWarn(ids[1..]);
      Markers();
      LacksChar(WARN, ids[0], ']');
      LacksChar(WARN, "", ']');
      OccursSides(WARN, ids[0], ',', " " + rest);
      OccursSides(WARN, "", ' ', rest);
      assert "" + [' '] + rest == " " + rest;
      assert Join(ids, ", ") + "]" == ids[0] + [','] + (" " + rest);
    }
  }

  /** A claim carries the warning marker when it cites nothing, or cites an id last that reads as the marker. */
  lemma ClaimWarns(r: Requirement, evs: seq<Evidence>)
    requires TextOk(r.text) && (forall e :: e in evs ==> IdOk(e.id))
    ensures Occurs(WARN, Claim(r, evs)) <==> !Solid(r, evs)
  {
    CitesAreIds(r, evs);
    var refs := Cites(r, evs);
    if refs != [] {
      var text := Join(refs, ", ") + "]";
      RefsWarn(refs);
      CitedWarns(r.text, text);
      assert Claim(r, evs) == r.text + "에" + CITED + "[" + MARK + " " + text;
    } else {
      var at := |r.text + "에" + UNCITED|;
      assert Claim(r, evs)[at..at + |WARN|] == WARN;
      assert OccursAt(WARN, Claim(r, evs), at);
    }
  }

  lemma CitedWarns(text: string, refs: string)
    requires !Occurs(WARN, text)
    ensures Occurs(WARN, text + "에" + CITED + "[" + MARK + " " + refs) <==> Occurs(WARN, refs)
  {
    Markers();
    CitedPhrase();
    LacksChar(WARN, CITED, '[');
    TextThen(text, CITED, WARN);
    BracketThenEvidence(text + "에" + CITED, refs);
  }

  /** An opening bracket followed by the citation marker is not the start of a warning. */
  lemma BracketThenEvidence(before: string, refs: string)
    requires !Occurs(WARN, before)
    ensures Occurs(WARN, before + "[" + MARK + " " + refs) <==> Occurs(WARN, refs)
  {
    Markers();
    var open, tail, n := before + "[", MARK[1..] + " " + refs, |WARN|;
    forall i | 0 <= i <= |open| - n
      ensures !OccursAt(WARN, open, i)
    {
      if i + n <= |before| {
        assert open[i..i + n] == before[i..i + n];
        assert !OccursAt(WARN, before, i);
      } else {
        assert open[i..i + n][n - 1] == open[|before|] == '[';
      }
    }
    OccursSides(WARN, open, 'E', tail);
    assert open + ['E'] + tail == before + "[" + MARK + " " + refs;
    LacksChar(WARN, MARK[1..], '[');
    OccursSides(WARN, MARK[1..], ' ', refs);
    assert MARK[1..] + [' '] + refs == tail;
  }

  lemma NotSolidCons(reqs: seq<Requirement>, evs: seq<Evidence>)
    requires reqs != []
    ensures (exists i :: 0 <= i < |reqs| && !Solid(reqs[i], evs))
            <==> !Solid(reqs[0], evs) || exists i :: 0 <= i < |reqs[1..]| && !Solid(reqs[1..][i], evs)
  {
    var rest := reqs[1..];
    if i :| 0 <= i < |reqs| && !Solid(reqs[i], evs) {
      if i > 0 { assert rest[i - 1] == reqs[i]; }
    }
    if i :| 0 <= i < |rest| && !Solid(rest[i], evs) {
      assert reqs[i + 1] == rest[i];
    }
  }

  lemma {:induction false} ClaimsWarn(reqs: seq<Requirement>, evs: seq<Evidence>)
    requires InputsOk(reqs, evs)
    ensures Occurs(WARN, Join(Claims(reqs, evs), "\n")) <==> exists i :: 0 <= i < |reqs| && !Solid(reqs[i], evs)
  {
    Markers();
    if reqs == [] {
      LacksChar(WARN, "", '[');
    } else {
      assert reqs[0] in reqs;
      ClaimWarns(reqs[0], evs);
      var rest := reqs[1..];
      assert Claims(reqs, evs)[1..] == Claims(rest, evs);
      if rest != [] {
        ClaimsWarn(rest, evs);
        OccursSides(WARN, Claim(reqs[0], evs), '\n', Join(Claims(rest, evs), "\n"));
        NotSolidCons(reqs, evs);
      }
    }
  }

  /** Checked against any set that contains its evidences, a freshly generated section is never rejected,
      and it passes exactly when each of its requirements is solidly cited. */
  lemma SectionCheck(title: string, reqs: seq<Requirement>, evs: seq<Evidence>, known: set<string>)
    requires InputsOk(reqs, evs) && ':' !in title && reqs != []
    requires forall e :: e in evs ==> e.id in known
    ensures CheckOf(Content(title, reqs, evs), known) ==
            if forall i :: 0 <= i < |reqs| ==> Solid(reqs[i], evs) then Pass else Warning
  {
    var content := Content(title, reqs, evs);
    forall p | p in Expand(FindGroups(content))
      ensures p in known
    {
      RefsAreCitedIds(title, reqs, evs, p);
      var i :| 0 <= i < |reqs| && p in Cites(reqs[i], evs);
      CitesAreIds(reqs[i], evs);
    }
    assert Expand(FindGroups(content)) - known == {};
    if evs == [] {
      var at := |title + NO_EVIDENCE|;
      assert content[at..at + |WARN|] == WARN;
      assert OccursAt(WARN, content, at);
      CitesAreIds(reqs[0], evs);
    } else {
      ClaimsWarn(reqs, evs);
    }
  }

  /** The requirement cites an evidence that is not known. */
  ghost predicate CitesUnknown(r: Requirement, evs: seq<Evidence>, known: set<string>) {
    exists id :: id in Cites(r, evs) && id !in known
  }

  /** A generated section is rejected exactly when one of its requirements cites an unknown evidence. */
  lemma SectionRejected(title: string, reqs: seq<Requirement>, evs: seq<Evidence>, known: set<string>)
    requires InputsOk(reqs, evs) && ':' !in title
    ensures CheckOf(Content(title, reqs, evs), known) == Reject
        <==> exists i :: 0 <= i < |reqs| && CitesUnknown(reqs[i], evs, known)
  {
    var refs := Expand(FindGroups(Content(title, reqs, evs)));
    if p :| p in refs - known {
      RefsAreCitedIds(title, reqs, evs, p);
      var i :| 0 <= i < |reqs| && p in Cites(reqs[i], evs);
      assert CitesUnknown(reqs[i], evs, known);
    }
    if i :| 0 <= i < |reqs| && CitesUnknown(reqs[i], evs, known) {
      var p :| p in Cites(reqs[i], evs) && p !in known;
      RefsAreCitedIds(title, reqs, evs, p);
      assert p in refs - known;
    }
  }

  /** The places of the evidences of a requirement. */
  ghost predicate EvidencePlaces(evs: seq<Evidence>, reqId: string, at: seq<nat>) {
    && (forall i :: 0 <= i < |at| ==> at[i] < |evs|)
    && (forall i, j :: 0 <= i < j < |at| ==> at[i] < at[j])
    && (forall k :: 0 <= k < |evs| ==> (k in at <==> evs[k].requirementId == reqId))
  }

  lemma PlaceSnoc(front: seq<Evidence>, e: Evidence, reqId: string, at: seq<nat>)
    requires EvidencePlaces(front, reqId, at)
    ensures EvidencePlaces(front + [e], reqId, if e.requirementId == reqId then at + [|front|] else at)
  {
    assert forall k: nat :: k in at + [|front|] <==> k in at || k == |front|;
  }

  lemma {:induction false} ForBehind(front: seq<Evidence>, e: Evidence, reqId: string)
    ensures For(front + [e], reqId) == For(front, reqId) + if e.requirementId == reqId then [e] else []
  {
    if front == [] {
      assert ([] + [e])[1..] == [];
    } else {
      ForBehind(front[1..], e, reqId);
      assert (front + [e])[0] == front[0] && (front + [e])[1..] == front[1..] + [e];
    }
  }

  /** at gives the places of what For selects. */
  ghost predicate ForIsAt(evs: seq<Evidence>, reqId: string, at: seq<nat>) {
    && EvidencePlaces(evs, reqId, at) && |at| == |For(evs, reqId)|
    && forall i :: 0 <= i < |at| ==> For(evs, reqId)[i] == evs[at[i]]
  }

  lemma ForIsAtSnoc(front: seq<Evidence>, e: Evidence, reqId: string, at: seq<nat>)
    requires ForIsAt(front, reqId, at)
    ensures ForIsAt(front + [e], reqId, if e.requirementId == reqId then at + [|front|] else at)
  {
    ForBehind(front, e, reqId);
    PlaceSnoc(front, e, reqId, at);
  }

  lemma {:induction false} ForPlaces(evs: seq<Evidence>, reqId: string) returns (at: seq<nat>)
    ensures ForIsAt(evs, reqId, at)
  {
    at := [];
    if evs != [] {
      var front, e := evs[..|evs| - 1], evs[|evs| - 1];
      var before := ForPlaces(front, reqId);
      assert evs == front + [e];
      ForIsAtSnoc(front, e, reqId, before);
      at := if e.requirementId == reqId then before + [|front|] else before;
    }
  }

  /** A requirement cites its first two evidences, or as many as it has. */
  lemma CitesAreFirst(r: Requirement, evs: seq<Evidence>) returns (at: seq<nat>)
    ensures EvidencePlaces(evs, r.id, at)
    ensures |Cites(r, evs)| == if |at| < 2 then |at| else 2
    ensures forall i :: 0 <= i < |Cites(r, evs)| ==> Cites(r, evs)[i] == evs[at[i]].id
  {
    at := ForPlaces(evs, r.id);
  }
}
