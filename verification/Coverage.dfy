/** Generate, verify and coverage over one notice's requirements and evidences. */
module Coverage {
  import opened Text
  import opened Proposal

  // ---- generate and verify ----

  function Snoc(kinds: seq<ReqType>, k: ReqType): seq<ReqType> { if k in kinds then kinds else kinds + [k] }

  /** The requirement types in order of first appearance. */
  function KindsOf(reqs: seq<Requirement>): seq<ReqType> {
    if reqs == [] then [] else Snoc(KindsOf(reqs[..|reqs| - 1]), reqs[|reqs| - 1].kind)
  }

  function OfKind(reqs: seq<Requirement>, k: ReqType): seq<Requirement> {
    if reqs == [] then []
    else
      var front := OfKind(reqs[..|reqs| - 1], k);
      if reqs[|reqs| - 1].kind == k then front + [reqs[|reqs| - 1]] else front
  }

  /** At most three evidences of each requirement. */
  function Related(reqs: seq<Requirement>, evs: seq<Evidence>): seq<Evidence> {
    if reqs == [] then []
    else Related(reqs[..|reqs| - 1], evs) + FirstN(For(evs, reqs[|reqs| - 1].id), 3)
  }

  function Section(reqs: seq<Requirement>, evs: seq<Evidence>, k: ReqType): string {
    Content(SectionTitle(k), OfKind(reqs, k), Related(OfKind(reqs, k), evs))
  }

  function Sections(reqs: seq<Requirement>, evs: seq<Evidence>): (contents: seq<string>)
    ensures |contents| == |KindsOf(reqs)|
  {
    seq(|KindsOf(reqs)|, i requires 0 <= i < |KindsOf(reqs)| => Section(reqs, evs, KindsOf(reqs)[i]))
  }

  function KnownIds(evs: seq<Evidence>): set<string> { set e | e in evs :: e.id }

  function Checks(contents: seq<string>, known: set<string>): (statuses: seq<CheckStatus>)
    ensures |statuses| == |contents|
  {
    seq(|contents|, i requires 0 <= i < |contents| => CheckOf(contents[i], known))
  }

  lemma {:induction false} ForSnoc(evs: seq<Evidence>, e: Evidence, reqId: string)
    ensures For(evs + [e], reqId) == if e.requirementId == reqId then For(evs, reqId) + [e] else For(evs, reqId)
  {
    if evs == [] {
      assert evs + [e] == [e];
      assert For([e], reqId) == if e.requirementId == reqId then [e] + For([], reqId) else For([], reqId);
    } else {
      ForSnoc(evs[1..], e, reqId);
      assert (evs + [e])[1..] == evs[1..] + [e];
    }
  }

  function AtOr(m: map<string, seq<Evidence>>, key: string): seq<Evidence> { if key in m then m[key] else [] }

  /** Groups the evidences by requirement. */
  method EvidenceByRequirement(evs: seq<Evidence>) returns (byReq: map<string, seq<Evidence>>)
    ensures forall id :: AtOr(byReq, id) == For(evs, id)
  {
    byReq := map[];
    for i := 0 to |evs|
      invariant forall id :: AtOr(byReq, id) == For(evs[..i], id)
    {
      assert evs[..i + 1] == evs[..i] + [evs[i]];
      byReq := byReq[evs[i].requirementId := AtOr(byReq, evs[i].requirementId) + [evs[i]]];
      forall id
        ensures AtOr(byReq, id) == For(evs[..i + 1], id)
      {
        ForSnoc(evs[..i], evs[i], id);
      }
    }
    assert evs[..|evs|] == evs;
  }

  method KindsInOrder(reqs: seq<Requirement>) returns (kinds: seq<ReqType>)
    ensures kinds == KindsOf(reqs)
  {
    kinds := [];
    for i := 0 to |reqs|
      invariant kinds == KindsOf(reqs[..i])
    {
      assert reqs[..i + 1][..i] == reqs[..i];
      if reqs[i].kind !in kinds { kinds := kinds + [reqs[i].kind]; }
    }
    assert reqs[..|reqs|] == reqs;
  }

  method RelatedEvidence(reqs: seq<Requirement>, byReq: map<string, seq<Evidence>>, ghost evs: seq<Evidence>)
    returns (related: seq<Evidence>)
    requires forall id :: AtOr(byReq, id) == For(evs, id)
    ensures related == Related(reqs, evs)
  {
    related := [];
    for i := 0 to |reqs|
      invariant related == Related(reqs[..i], evs)
    {
      assert reqs[..i + 1][..i] == reqs[..i];
      related := related + FirstN(AtOr(byReq, reqs[i].id), 3);
    }
    assert reqs[..|reqs|] == reqs;
  }

  lemma TakeNext<T>(s: seq<T>, k: nat)
    requires k < |s|
    ensures s[..k + 1] == s[..k] + [s[k]]
  {
  }

  lemma SectionAt(reqs: seq<Requirement>, evs: seq<Evidence>, k: nat)
    requires k < |KindsOf(reqs)|
    ensures Sections(reqs, evs)[k] == Section(reqs, evs, KindsOf(reqs)[k])
  {
  }

  /** The section of one type. */
  method GenerateSection(reqs: seq<Requirement>, ghost evs: seq<Evidence>, k: ReqType,
                         byReq: map<string, seq<Evidence>>)
    returns (content: string)
    requires forall id :: AtOr(byReq, id) == For(evs, id)
    ensures content == Section(reqs, evs, k)
  {
    var mine := OfKind(reqs, k);
    var related := RelatedEvidence(mine, byReq, evs);
    content := BuildSection(SectionTitle(k), mine, related);
  }

  /** generate_proposal_sections: one section per requirement type. */
  method GenerateSections(reqs: seq<Requirement>, evs: seq<Evidence>) returns (contents: seq<string>)
    ensures contents == Sections(reqs, evs)
  {
    var kinds := KindsInOrder(reqs);
    var byReq := EvidenceByRequirement(evs);
    contents := [];
    for k := 0 to |kinds|
      invariant contents == Sections(reqs, evs)[..k]
    {
      TakeNext(Sections(reqs, evs), k);
      SectionAt(reqs, evs, k);
      var content := GenerateSection(reqs, evs, kinds[k], byReq);
      contents := contents + [content];
    }
    assert Sections(reqs, evs)[..|kinds|] == Sections(reqs, evs);
  }

  lemma {:induction false} OfKindMembers(reqs: seq<Requirement>, k: ReqType)
    ensures forall r :: r in OfKind(reqs, k) <==> r in reqs && r.kind == k
    ensures k in KindsOf(reqs) <==> OfKind(reqs, k) != []
  {
    if reqs != [] {
      OfKindMembers(reqs[..|reqs| - 1], k);
      assert reqs == reqs[..|reqs| - 1] + [reqs[|reqs| - 1]];
    }
  }

  lemma {:induction false} RelatedMembers(reqs: seq<Requirement>, evs: seq<Evidence>, e: Evidence)
    ensures e in Related(reqs, evs) ==> e in evs
    ensures forall r :: r in reqs && For(evs, r.id) != [] ==>
        exists x :: x in Related(reqs, evs) && x.requirementId == r.id
  {
    if reqs != [] {
      var front, last := reqs[..|reqs| - 1], reqs[|reqs| - 1];
      RelatedMembers(front, evs, e);
      ForMembers(evs, last.id);
      var own := FirstN(For(evs, last.id), 3);
      assert forall x :: x in own ==> x in For(evs, last.id);
      if own != [] {
        assert own[0] in Related(reqs, evs) && own[0].requirementId == last.id;
      }
      forall r | r in reqs && For(evs, r.id) != []
        ensures exists x :: x in Related(reqs, evs) && x.requirementId == r.id
      {
        if r in front {
          var x :| x in Related(front, evs) && x.requirementId == r.id;
          assert x in Related(reqs, evs);
        } else {
          assert r == last;
        }
      }
    }
  }

  lemma {:induction false} ForFor(evs: seq<Evidence>, id: string)
    requires forall e :: e in evs ==> e.requirementId == id
    ensures For(evs, id) == evs
    ensures forall other :: other != id ==> For(evs, other) == []
  {
    if evs != [] {
      ForFor(evs[1..], id);
      assert [evs[0]] + evs[1..] == evs;
    }
  }

  lemma {:induction false} ForAppend(a: seq<Evidence>, b: seq<Evidence>, id: string)
    ensures For(a + b, id) == For(a, id) + For(b, id)
  {
    if a == [] {
      assert a + b == b;
    } else {
      ForAppend(a[1..], b, id);
      assert (a + b)[1..] == a[1..] + b;
    }
  }

  /** In its section a requirement meets its first three evidences first, and no other ones. */
  lemma {:induction false} ForRelated(reqs: seq<Requirement>, evs: seq<Evidence>, id: string)
    ensures
      var top, own := FirstN(For(evs, id), 3), For(Related(reqs, evs), id);
      && (forall e :: e in own ==> e in top)
      && ((exists r :: r in reqs && r.id == id) ==> top <= own)
      && ((forall r :: r in reqs ==> r.id != id) || top == [] ==> own == [])
  {
    if reqs != [] {
      var front, last := reqs[..|reqs| - 1], reqs[|reqs| - 1];
      assert forall r :: r in reqs <==> r in front || r == last;
      ForRelated(front, evs, id);
      ForMembers(evs, last.id);
      var added := FirstN(For(evs, last.id), 3);
      assert forall e :: e in added ==> e in For(evs, last.id);
      ForFor(added, last.id);
      ForAppend(Related(front, evs), added, id);
    }
  }

  lemma CitesLast(r: Requirement, evs: seq<Evidence>)
    ensures
      var top := FirstN(For(evs, r.id), 2);
      Solid(r, evs) <==> top != [] && !FakesWarning(top[|top| - 1].id)
  {
  }

  lemma SameLastOfTwo(all: seq<Evidence>, own: seq<Evidence>)
    requires FirstN(all, 3) <= own && (forall e :: e in own ==> e in FirstN(all, 3))
        && (FirstN(all, 3) == [] ==> own == [])
    ensures
      var a, b := FirstN(all, 2), FirstN(own, 2);
      |a| > 0 <==> |b| > 0
    ensures
      var a, b := FirstN(all, 2), FirstN(own, 2);
      |a| > 0 && |b| > 0 ==> a[|a| - 1] == b[|b| - 1]
  {
    if |all| >= 2 {
      assert FirstN(all, 3)[..2] == all[..2] == own[..2];
    } else if |all| == 1 {
      assert forall i :: 0 <= i < |own| ==> own[i] in own;
    }
  }

  /** What a requirement cites in its section is as solid as what it would cite from all evidences. */
  lemma SolidInSection(reqs: seq<Requirement>, evs: seq<Evidence>, r: Requirement)
    requires r in reqs
    ensures Solid(r, Related(reqs, evs)) <==> Solid(r, evs)
  {
    ForRelated(reqs, evs, r.id);
    SameLastOfTwo(For(evs, r.id), For(Related(reqs, evs), r.id));
    CitesLast(r, evs);
    CitesLast(r, Related(reqs, evs));
  }

  lemma SameTwo(all: seq<Evidence>, own: seq<Evidence>, id: string)
    requires FirstN(all, 3) <= own && (forall e :: e in own ==> e in FirstN(all, 3))
        && (FirstN(all, 3) == [] ==> own == [])
    ensures id in Ids(FirstN(own, 2)) <==> id in Ids(FirstN(all, 2))
  {
    if |all| >= 2 {
      assert FirstN(all, 3)[..2] == all[..2] == own[..2];
      assert FirstN(own, 2) == own[..2] && FirstN(all, 2) == all[..2];
    } else if |all| == 1 {
      assert forall i :: 0 <= i < |own| ==> own[i] in own && own[i] == all[0];
      assert Ids(FirstN(all, 2))[0] == all[0].id && Ids(FirstN(own, 2))[0] == all[0].id;
    }
  }

  /** And it cites the same evidences there. */
  lemma CitesInSection(reqs: seq<Requirement>, evs: seq<Evidence>, r: Requirement, known: set<string>)
    requires r in reqs
    ensures CitesUnknown(r, Related(reqs, evs), known) <==> CitesUnknown(r, evs, known)
  {
    ForRelated(reqs, evs, r.id);
    forall id: string
      ensures id in Cites(r, Related(reqs, evs)) <==> id in Cites(r, evs)
    {
      SameTwo(For(evs, r.id), For(Related(reqs, evs), r.id), id);
    }
  }

  lemma TitlesHaveNoColon(k: ReqType)
    ensures ':' !in SectionTitle(k)
  {
  }

  lemma SectionStatus(reqs: seq<Requirement>, evs: seq<Evidence>, k: ReqType)
    requires InputsOk(reqs, evs) && k in KindsOf(reqs)
    ensures CheckOf(Section(reqs, evs, k), KnownIds(evs)) ==
            if forall r :: r in reqs && r.kind == k ==> Solid(r, evs) then Pass else Warning
  {
    var mine := OfKind(reqs, k);
    var related := Related(mine, evs);
    OfKindMembers(reqs, k);
    TitlesHaveNoColon(k);
    forall e | e in related
      ensures e in evs && e.id in KnownIds(evs)
    {
      RelatedMembers(mine, evs, e);
    }
    SectionCheck(SectionTitle(k), mine, related, KnownIds(evs));
    forall r | r in mine
      ensures Solid(r, related) <==> Solid(r, evs)
    {
      SolidInSection(mine, evs, r);
    }
    if forall i :: 0 <= i < |mine| ==> Solid(mine[i], related) {
      forall r | r in mine
        ensures Solid(r, evs)
      {
        var i :| 0 <= i < |mine| && mine[i] == r;
      }
    } else {
      var i :| 0 <= i < |mine| && !Solid(mine[i], related);
      assert mine[i] in mine;
    }
  }

  // ---- coverage ----

  datatype CoverStatus = Covered | Partial | Missing

  function StatusFor(count: nat): CoverStatus {
    if count >= 3 then Covered else if count > 0 then Partial else Missing
  }

  function CoverOf(r: Requirement, evs: seq<Evidence>): CoverStatus { StatusFor(|For(evs, r.id)|) }

  function Weight(r: Requirement): nat { if r.mandatory then 2 else 1 }

  function Earned(r: Requirement, evs: seq<Evidence>): nat {
    match CoverOf(r, evs)
    case Covered => Weight(r)
    case Partial => 1
    case Missing => 0
  }

  function TotalWeight(reqs: seq<Requirement>): nat {
    if reqs == [] then 0 else TotalWeight(reqs[..|reqs| - 1]) + Weight(reqs[|reqs| - 1])
  }

  function TotalEarned(reqs: seq<Requirement>, evs: seq<Evidence>): nat {
    if reqs == [] then 0 else TotalEarned(reqs[..|reqs| - 1], evs) + Earned(reqs[|reqs| - 1], evs)
  }

  /** Rounding to the next float: any monotone function that keeps 0, 1 and 100. The identity computes exactly. */
  type Rounding = fl: real -> real |
    (forall x, y :: x <= y ==> fl(x) <= fl(y)) && fl(0.0) == 0.0 && fl(1.0) == 1.0 && fl(100.0) == 100.0
    witness x => x

  /** round(x), ties to the even neighbour */
  function RoundHalfEven(x: real): (n: int)
    ensures -0.5 <= n as real - x <= 0.5
  {
    var floor := x.Floor;
    var rest := x - floor as real;
    if rest < 0.5 || (rest == 0.5 && floor % 2 == 0) then floor else floor + 1
  }

  /** int(round((earned / total) * 100)), each operation rounded to a float */
  function Percent(fl: Rounding, earned: nat, total: nat): int
    requires total > 0
  {
    PercentOf(fl, earned as real / total as real)
  }

  function PercentOf(fl: Rounding, quotient: real): int { RoundHalfEven(fl(fl(quotient) * 100.0)) }

  function Score(fl: Rounding, reqs: seq<Requirement>, evs: seq<Evidence>): int {
    if TotalWeight(reqs) == 0 then 0 else Percent(fl, TotalEarned(reqs, evs), TotalWeight(reqs))
  }

  /** coverage_items */
  method CoverageItems(fl: Rounding, reqs: seq<Requirement>, evs: seq<Evidence>)
    returns (score: int, items: seq<CoverStatus>)
    ensures score == Score(fl, reqs, evs)
    ensures |items| == |reqs| && forall i :: 0 <= i < |reqs| ==> items[i] == CoverOf(reqs[i], evs)
  {
    var byReq := EvidenceByRequirement(evs);
    items := [];
    var total, earned := 0, 0;
    for i := 0 to |reqs|
      invariant total == TotalWeight(reqs[..i]) && earned == TotalEarned(reqs[..i], evs)
      invariant |items| == i && forall j :: 0 <= j < i ==> items[j] == CoverOf(reqs[j], evs)
    {
      assert reqs[..i + 1][..i] == reqs[..i];
      var req := reqs[i];
      var count := |AtOr(byReq, req.id)|;
      var status := if count >= 3 then Covered else if count > 0 then Partial else Missing;
      var weight := if req.mandatory then 2 else 1;
      total := total + weight;
      earned := earned + if status.Covered? then weight else if status.Partial? then 1 else 0;
      items := items + [status];
    }
    assert reqs[..|reqs|] == reqs;
    score := if total == 0 then 0 else Percent(fl, earned, total);
  }

  lemma SectionStatuses(reqs: seq<Requirement>, evs: seq<Evidence>)
    requires InputsOk(reqs, evs)
    ensures
      var kinds, statuses := KindsOf(reqs), Checks(Sections(reqs, evs), KnownIds(evs));
      forall i :: 0 <= i < |kinds| ==>
        statuses[i] == if forall r :: r in reqs && r.kind == kinds[i] ==> Solid(r, evs) then Pass else Warning
  {
    var kinds := KindsOf(reqs);
    forall i | 0 <= i < |kinds|
      ensures CheckOf(Section(reqs, evs, kinds[i]), KnownIds(evs)) ==
              if forall r :: r in reqs && r.kind == kinds[i] ==> Solid(r, evs) then Pass else Warning
    {
      SectionStatus(reqs, evs, kinds[i]);
    }
  }

  lemma {:induction false} KindsCover(reqs: seq<Requirement>)
    ensures forall r :: r in reqs ==> r.kind in KindsOf(reqs)
    ensures KindsOf(reqs) == [] <==> reqs == []
  {
    if reqs != [] {
      KindsCover(reqs[..|reqs| - 1]);
      assert reqs == reqs[..|reqs| - 1] + [reqs[|reqs| - 1]];
    }
  }

  lemma OverallOf(reqs: seq<Requirement>, evs: seq<Evidence>, kinds: seq<ReqType>, statuses: seq<CheckStatus>)
    requires |statuses| == |kinds| && (kinds == [] <==> reqs == []) && forall r :: r in reqs ==> r.kind in kinds
    requires forall i :: 0 <= i < |kinds| ==>
               statuses[i] == if forall r :: r in reqs && r.kind == kinds[i] ==> Solid(r, evs) then Pass else Warning
    ensures Overall(statuses)
            == if reqs == [] then Pending else if forall r :: r in reqs ==> Solid(r, evs) then Pass else Warning
  {
    if r :| r in reqs && !Solid(r, evs) {
      var i :| 0 <= i < |kinds| && kinds[i] == r.kind;
      assert statuses[i] in statuses;
    }
  }

  lemma OverallAfterGenerate(reqs: seq<Requirement>, evs: seq<Evidence>)
    requires InputsOk(reqs, evs)
    ensures Overall(Checks(Sections(reqs, evs), KnownIds(evs)))
            == if reqs == [] then Pending else if forall r :: r in reqs ==> Solid(r, evs) then Pass else Warning
  {
    SectionStatuses(reqs, evs);
    KindsCover(reqs);
    OverallOf(reqs, evs, KindsOf(reqs), Checks(Sections(reqs, evs), KnownIds(evs)));
  }

  /** A requirement of this type cites an evidence that is not known. */
  ghost predicate KindCitesUnknown(reqs: seq<Requirement>, evs: seq<Evidence>, k: ReqType, known: set<string>) {
    exists r :: r in reqs && r.kind == k && CitesUnknown(r, evs, known)
  }

  lemma KindRejected(reqs: seq<Requirement>, evs: seq<Evidence>, k: ReqType, known: set<string>)
    requires InputsOk(reqs, evs)
    ensures CheckOf(Section(reqs, evs, k), known) == Reject <==> KindCitesUnknown(reqs, evs, k, known)
  {
    var mine := OfKind(reqs, k);
    OfKindMembers(reqs, k);
    RelatedIsOk(mine, evs);
    TitlesHaveNoColon(k);
    SectionRejected(SectionTitle(k), mine, Related(mine, evs), known);
    forall r | r in mine
      ensures CitesUnknown(r, Related(mine, evs), known) <==> CitesUnknown(r, evs, known)
    {
      CitesInSection(mine, evs, r, known);
    }
    if r :| r in reqs && r.kind == k && CitesUnknown(r, evs, known) {
      var i :| 0 <= i < |mine| && mine[i] == r;
    }
  }

  lemma RelatedIsOk(mine: seq<Requirement>, evs: seq<Evidence>)
    requires InputsOk(mine, evs)
    ensures InputsOk(mine, Related(mine, evs))
  {
    forall e | e in Related(mine, evs)
      ensures e in evs
    {
      RelatedMembers(mine, evs, e);
    }
  }

  /** Verified against any set of evidences, as after some were deleted, the generated proposal is rejected exactly when
      a requirement cites one that is gone. */
  lemma VerifyRejects(reqs: seq<Requirement>, evs: seq<Evidence>, known: set<string>)
    requires InputsOk(reqs, evs)
    ensures Overall(Checks(Sections(reqs, evs), known)) == Reject
        <==> exists r :: r in reqs && CitesUnknown(r, evs, known)
  {
    RejectedKinds(reqs, evs, known);
    SomeRejected(reqs, evs, known, KindsOf(reqs), Checks(Sections(reqs, evs), known));
    SomeKindCitesUnknown(reqs, evs, known);
  }

  lemma SomeKindCitesUnknown(reqs: seq<Requirement>, evs: seq<Evidence>, known: set<string>)
    ensures (exists i :: 0 <= i < |KindsOf(reqs)| && KindCitesUnknown(reqs, evs, KindsOf(reqs)[i], known))
            <==> exists r :: r in reqs && CitesUnknown(r, evs, known)
  {
    KindsCover(reqs);
    if r :| r in reqs && CitesUnknown(r, evs, known) {
      var i :| 0 <= i < |KindsOf(reqs)| && KindsOf(reqs)[i] == r.kind;
      assert KindCitesUnknown(reqs, evs, KindsOf(reqs)[i], known);
    }
  }

  lemma RejectedKinds(reqs: seq<Requirement>, evs: seq<Evidence>, known: set<string>)
    requires InputsOk(reqs, evs)
    ensures
      var kinds, statuses := KindsOf(reqs), Checks(Sections(reqs, evs), known);
      forall i :: 0 <= i < |kinds| ==> (statuses[i] == Reject <==> KindCitesUnknown(reqs, evs, kinds[i], known))
  {
    var kinds := KindsOf(reqs);
    forall i | 0 <= i < |kinds|
      ensures CheckOf(Section(reqs, evs, kinds[i]), known) == Reject <==> KindCitesUnknown(reqs, evs, kinds[i], known)
    {
      KindRejected(reqs, evs, kinds[i], known);
    }
  }

  lemma SomeRejected(reqs: seq<Requirement>, evs: seq<Evidence>, known: set<string>, kinds: seq<ReqType>,
                     statuses: seq<CheckStatus>)
    requires |statuses| == |kinds|
    requires forall i :: 0 <= i < |kinds| ==> (statuses[i] == Reject <==> KindCitesUnknown(reqs, evs, kinds[i], known))
    ensures Overall(statuses) == Reject
        <==> exists i :: 0 <= i < |kinds| && KindCitesUnknown(reqs, evs, kinds[i], known)
  {
    if i :| 0 <= i < |kinds| && KindCitesUnknown(reqs, evs, kinds[i], known) { assert statuses[i] in statuses; }
  }

  lemma SolidMeans(r: Requirement, evs: seq<Evidence>)
    ensures Solid(r, evs) <==> CoverOf(r, evs) != Missing && !FakesWarning(LastCited(r, evs))
    ensures (forall e :: e in evs ==> !FakesWarning(e.id)) ==> !FakesWarning(LastCited(r, evs))
  {
    CitesAreIds(r, evs);
    ForMembers(evs, r.id);
    if Cites(r, evs) != [] { assert LastCited(r, evs) in Cites(r, evs); }
  }

  /** Verifying right after generating never rejects. It passes exactly when no coverage item is missing
      and no requirement cites an id last that reads as the warning marker; ids that never do leave the first half. */
  lemma VerifyAfterGenerate(reqs: seq<Requirement>, evs: seq<Evidence>)
    requires InputsOk(reqs, evs)
    ensures
      var overall := Overall(Checks(Sections(reqs, evs), KnownIds(evs)));
      && overall != Reject
      && (overall == Pass <==>
            reqs != [] && forall r :: r in reqs ==> CoverOf(r, evs) != Missing && !FakesWarning(LastCited(r, evs)))
      && ((forall e :: e in evs ==> !FakesWarning(e.id)) ==>
            (overall == Pass <==> reqs != [] && forall r :: r in reqs ==> CoverOf(r, evs) != Missing))
  {
    OverallAfterGenerate(reqs, evs);
    forall r | r in reqs
      ensures Solid(r, evs) <==> CoverOf(r, evs) != Missing && !FakesWarning(LastCited(r, evs))
      ensures (forall e :: e in evs ==> !FakesWarning(e.id)) ==> !FakesWarning(LastCited(r, evs))
    {
      SolidMeans(r, evs);
    }
  }

  lemma OneEvidence(r: Requirement, e: Evidence)
    requires e.requirementId == r.id
    ensures For([e], r.id) == [e] && Cites(r, [e]) == [e.id] && LastCited(r, [e]) == e.id && CoverOf(r, [e]) == Partial
  {
  }

  /** An evidence id can fake the warning: the requirement is covered in part, yet the check warns. */
  lemma IdCanFakeWarning(r: Requirement, e: Evidence)
    requires TextOk(r.text) && e == Evidence(WARN[..|WARN| - 1], r.id)
    ensures InputsOk([r], [e]) && CoverOf(r, [e]) == Partial
    ensures Overall(Checks(Sections([r], [e]), KnownIds([e]))) == Warning
  {
    OneEvidence(r, e);
    assert FakesWarning(e.id);
    assert r in [r] && !Solid(r, [e]);
    OverallAfterGenerate([r], [e]);
  }

  // ---- evidence ids as retrieve mints them ----

  predicate IsHex(c: char) { '0' <= c <= '9' || 'a' <= c <= 'f' }

  /** _new_id("ev"): "ev_" and the 32 hexadecimal digits of a uuid4 */
  predicate Minted(id: string) { |id| == 35 && id[..3] == "ev_" && forall i :: 3 <= i < |id| ==> IsHex(id[i]) }

  lemma MintedIsHarmless(id: string)
    requires Minted(id)
    ensures IdOk(id) && !FakesWarning(id)
  {
    assert id[0] == "ev_"[0] && id[1] == "ev_"[1] && id[2] == "ev_"[2];
    var tail := id[|id| - (|WARN| - 1)..];
    assert tail[0] == id[|id| - (|WARN| - 1)] && IsHex(tail[0]);
    assert WARN[..|WARN| - 1][0] == '[';
  }

  /** With the ids the service mints, verify right after generate passes exactly when no coverage item is missing. */
  lemma VerifyMinted(reqs: seq<Requirement>, evs: seq<Evidence>)
    requires (forall r :: r in reqs ==> TextOk(r.text)) && forall e :: e in evs ==> Minted(e.id)
    ensures
      var overall := Overall(Checks(Sections(reqs, evs), KnownIds(evs)));
      && overall != Reject
      && (overall == Pass <==> reqs != [] && forall r :: r in reqs ==> CoverOf(r, evs) != Missing)
  {
    forall e | e in evs
      ensures IdOk(e.id) && !FakesWarning(e.id)
    {
      MintedIsHarmless(e.id);
    }
    VerifyAfterGenerate(reqs, evs);
  }

  // ---- properties of the score ----

  lemma RoundMonotone(x: real, y: real)
    requires x <= y
    ensures RoundHalfEven(x) <= RoundHalfEven(y)
  {
  }

  lemma QuotientMonotone(a: nat, b: nat, total: nat)
    requires total > 0 && a <= b
    ensures a as real / total as real <= b as real / total as real
  {
  }

  lemma TimesHundred(x: real, y: real)
    requires x <= y
    ensures x * 100.0 <= y * 100.0
  {
  }

  lemma PercentOfMonotone(fl: Rounding, x: real, y: real)
    requires x <= y
    ensures PercentOf(fl, x) <= PercentOf(fl, y)
  {
    assert fl(x) <= fl(y);
    TimesHundred(fl(x), fl(y));
    assert fl(fl(x) * 100.0) <= fl(fl(y) * 100.0);
    RoundMonotone(fl(fl(x) * 100.0), fl(fl(y) * 100.0));
  }

  lemma PercentOfEnds(fl: Rounding)
    ensures PercentOf(fl, 0.0) == 0 && PercentOf(fl, 1.0) == 100
  {
    assert fl(0.0) * 100.0 == 0.0 && fl(1.0) * 100.0 == 100.0;
  }

  lemma QuotientEnds(total: nat)
    requires total > 0
    ensures 0 as real / total as real == 0.0 && total as real / total as real == 1.0
  {
  }

  /** Earning more never lowers the percentage, whatever the floats round away. */
  lemma PercentMonotone(fl: Rounding, a: nat, b: nat, total: nat)
    requires total > 0 && a <= b
    ensures Percent(fl, a, total) <= Percent(fl, b, total)
  {
    QuotientMonotone(a, b, total);
    PercentOfMonotone(fl, a as real / total as real, b as real / total as real);
  }

  lemma PercentEnds(fl: Rounding, total: nat)
    requires total > 0
    ensures Percent(fl, 0, total) == 0 && Percent(fl, total, total) == 100
  {
    QuotientEnds(total);
    PercentOfEnds(fl);
  }

  lemma {:induction false} EarnedWithinWeight(reqs: seq<Requirement>, evs: seq<Evidence>)
    ensures TotalEarned(reqs, evs) <= TotalWeight(reqs) && (reqs != [] ==> TotalWeight(reqs) > 0)
    ensures (forall r :: r in reqs ==> CoverOf(r, evs) == Covered) ==> TotalEarned(reqs, evs) == TotalWeight(reqs)
  {
    if reqs != [] {
      EarnedWithinWeight(reqs[..|reqs| - 1], evs);
      assert reqs[|reqs| - 1] in reqs;
    }
  }

  /** The score is a percentage; it is 100 once everything is covered. */
  lemma ScoreRange(fl: Rounding, reqs: seq<Requirement>, evs: seq<Evidence>)
    ensures 0 <= Score(fl, reqs, evs) <= 100
    ensures reqs != [] && (forall r :: r in reqs ==> CoverOf(r, evs) == Covered) ==> Score(fl, reqs, evs) == 100
  {
    EarnedWithinWeight(reqs, evs);
    if reqs != [] {
      var earned, total := TotalEarned(reqs, evs), TotalWeight(reqs);
      PercentEnds(fl, total);
      PercentMonotone(fl, 0, earned, total);
      PercentMonotone(fl, earned, total, total);
    }
  }

  /** How many requirements are mandatory or not, with between least and most evidences. */
  function CountOf(reqs: seq<Requirement>, evs: seq<Evidence>, mandatory: bool, least: nat, most: nat): nat {
    if reqs == [] then 0
    else
      var r := reqs[0];
      CountOf(reqs[1..], evs, mandatory, least, most)
      + if r.mandatory == mandatory && least <= |For(evs, r.id)| <= most then 1 else 0
  }

  lemma {:induction false} CountsAppend(a: seq<Requirement>, b: seq<Requirement>, evs: seq<Evidence>, mandatory: bool,
                                        least: nat, most: nat)
    ensures CountOf(a + b, evs, mandatory, least, most)
            == CountOf(a, evs, mandatory, least, most) + CountOf(b, evs, mandatory, least, most)
  {
    if a == [] {
      assert a + b == b;
    } else {
      CountsAppend(a[1..], b, evs, mandatory, least, most);
      assert (a + b)[0] == a[0] && (a + b)[1..] == a[1..] + b;
    }
  }

  lemma {:induction false} EarnedFromCounts(reqs: seq<Requirement>, evs: seq<Evidence>)
    ensures
      var n := |evs|;
      && TotalWeight(reqs) == 2 * CountOf(reqs, evs, true, 0, n) + CountOf(reqs, evs, false, 0, n)
      && TotalEarned(reqs, evs) == 2 * CountOf(reqs, evs, true, 3, n) + CountOf(reqs, evs, false, 3, n)
                                   + CountOf(reqs, evs, true, 1, 2) + CountOf(reqs, evs, false, 1, 2)
  {
    if reqs != [] {
      var front, r := reqs[..|reqs| - 1], reqs[|reqs| - 1];
      assert reqs == front + [r];
      EarnedFromCounts(front, evs);
      ForIsFewer(evs, r.id);
      OneCount(r, evs);
      forall mandatory: bool, least: nat, most: nat
        ensures CountOf(reqs, evs, mandatory, least, most)
                == CountOf(front, evs, mandatory, least, most) + CountOf([r], evs, mandatory, least, most)
      {
        CountsAppend(front, [r], evs, mandatory, least, most);
      }
    }
  }

  lemma OneCount(r: Requirement, evs: seq<Evidence>)
    ensures forall mandatory, least: nat, most: nat ::
              CountOf([r], evs, mandatory, least, most)
              == if r.mandatory == mandatory && least <= |For(evs, r.id)| <= most then 1 else 0
  {
  }

  lemma {:induction false} ForIsFewer(evs: seq<Evidence>, id: string)
    ensures |For(evs, id)| <= |evs|
  {
    if evs != [] { ForIsFewer(evs[1..], id); }
  }

  /** The score: mandatory requirements weigh two, others one; three evidences earn the weight, fewer earn one. */
  lemma ScoreFromCounts(fl: Rounding, reqs: seq<Requirement>, evs: seq<Evidence>) returns (earned: nat, total: nat)
    ensures total == 2 * CountOf(reqs, evs, true, 0, |evs|) + CountOf(reqs, evs, false, 0, |evs|)
    ensures earned == 2 * CountOf(reqs, evs, true, 3, |evs|) + CountOf(reqs, evs, false, 3, |evs|)
                      + CountOf(reqs, evs, true, 1, 2) + CountOf(reqs, evs, false, 1, 2)
    ensures Score(fl, reqs, evs) ==
            if total == 0 then 0 else RoundHalfEven(fl(fl(earned as real / total as real) * 100.0))
  {
    earned, total := TotalEarned(reqs, evs), TotalWeight(reqs);
    EarnedFromCounts(reqs, evs);
  }

  lemma {:induction false} EarnedGrows(reqs: seq<Requirement>, evs: seq<Evidence>, e: Evidence)
    ensures TotalEarned(reqs, evs) <= TotalEarned(reqs, evs + [e])
  {
    if reqs != [] {
      EarnedGrows(reqs[..|reqs| - 1], evs, e);
      ForSnoc(evs, e, reqs[|reqs| - 1].id);
    }
  }

  /** Another evidence never lowers the score. */
  lemma ScoreGrows(fl: Rounding, reqs: seq<Requirement>, evs: seq<Evidence>, e: Evidence)
    ensures Score(fl, reqs, evs) <= Score(fl, reqs, evs + [e])
  {
    EarnedGrows(reqs, evs, e);
    if TotalWeight(reqs) > 0 {
      PercentMonotone(fl, TotalEarned(reqs, evs), TotalEarned(reqs, evs + [e]), TotalWeight(reqs));
    }
  }

  lemma {:induction false} ForCountAppend(a: seq<Evidence>, b: seq<Evidence>, id: string)
    ensures |For(a + b, id)| == |For(a, id)| + |For(b, id)|
  {
    if a == [] {
      assert a + b == b;
    } else {
      ForCountAppend(a[1..], b, id);
      assert (a + b)[1..] == a[1..] + b;
    }
  }

  lemma TakeOut<T>(rest: seq<T>, front: seq<T>, back: seq<T>, x: T)
    requires multiset([x] + rest) == multiset(front + ([x] + back))
    ensures multiset(rest) == multiset(front + back)
  {
    assert multiset([x] + rest) == multiset{x} + multiset(rest);
    assert multiset(front + ([x] + back)) == multiset(front) + multiset{x} + multiset(back);
    assert multiset(front + back) == multiset(front) + multiset(back);
    assert multiset(rest) == multiset([x] + rest) - multiset{x};
  }

  /** Where the first element of one list sits in a permutation of it. */
  lemma FindFirst<T>(a: seq<T>, b: seq<T>) returns (front: seq<T>, back: seq<T>)
    requires a != [] && multiset(a) == multiset(b)
    ensures b == front + ([a[0]] + back) && multiset(a[1..]) == multiset(front + back)
  {
    assert a[0] in multiset(a);
    var j :| 0 <= j < |b| && b[j] == a[0];
    front, back := b[..j], b[j + 1..];
    assert b == front + ([a[0]] + back) && a == [a[0]] + a[1..];
    TakeOut(a[1..], front, back, a[0]);
  }

  /** The number of evidences of a requirement does not depend on their order. */
  lemma {:induction false} ForCountPermutes(a: seq<Evidence>, b: seq<Evidence>, id: string)
    requires multiset(a) == multiset(b)
    ensures |For(a, id)| == |For(b, id)|
  {
    if a == [] {
      assert |multiset(b)| == 0;
    } else {
      var e := a[0];
      var front, back := FindFirst(a, b);
      ForCountPermutes(a[1..], front + back, id);
      assert a == [e] + a[1..];
      ForCountAppend(front, [e] + back, id);
      ForCountAppend([e], back, id);
      ForCountAppend(front, back, id);
      ForCountAppend([e], a[1..], id);
    }
  }

  lemma {:induction false} SumsAppend(a: seq<Requirement>, b: seq<Requirement>, evs: seq<Evidence>)
    ensures TotalWeight(a + b) == TotalWeight(a) + TotalWeight(b)
    ensures TotalEarned(a + b, evs) == TotalEarned(a, evs) + TotalEarned(b, evs)
  {
    if b == [] {
      assert a + b == a;
    } else {
      SumsAppend(a, b[..|b| - 1], evs);
      assert (a + b)[..|a + b| - 1] == a + b[..|b| - 1];
    }
  }

  lemma SumsMove(front: seq<Requirement>, back: seq<Requirement>, r: Requirement, evs: seq<Evidence>)
    ensures TotalWeight(front + ([r] + back)) == Weight(r) + TotalWeight(front + back)
    ensures TotalEarned(front + ([r] + back), evs) == Earned(r, evs) + TotalEarned(front + back, evs)
  {
    SumsAppend(front, [r] + back, evs);
    SumsAppend([r], back, evs);
    SumsAppend(front, back, evs);
    assert [r][..0] == [];
  }

  lemma {:induction false} SumsPermute(a: seq<Requirement>, b: seq<Requirement>, evs: seq<Evidence>)
    requires multiset(a) == multiset(b)
    ensures TotalWeight(a) == TotalWeight(b) && TotalEarned(a, evs) == TotalEarned(b, evs)
  {
    if a == [] {
      assert |multiset(b)| == 0;
    } else {
      var front, back := FindFirst(a, b);
      SumsPermute(a[1..], front + back, evs);
      SumsMove(front, back, a[0], evs);
      SumsMove([], a[1..], a[0], evs);
      assert [] + ([a[0]] + a[1..]) == a && [] + a[1..] == a[1..];
    }
  }

  lemma {:induction false} EarnedIgnoresOrder(reqs: seq<Requirement>, a: seq<Evidence>, b: seq<Evidence>)
    requires multiset(a) == multiset(b)
    ensures TotalEarned(reqs, a) == TotalEarned(reqs, b)
  {
    if reqs != [] {
      EarnedIgnoresOrder(reqs[..|reqs| - 1], a, b);
      ForCountPermutes(a, b, reqs[|reqs| - 1].id);
    }
  }

  /** Reordering either list leaves the score as it is. */
  lemma ScoreIgnoresOrder(fl: Rounding, reqs: seq<Requirement>, reqs': seq<Requirement>, evs: seq<Evidence>,
                          evs': seq<Evidence>)
    requires multiset(reqs) == multiset(reqs') && multiset(evs) == multiset(evs')
    ensures Score(fl, reqs, evs) == Score(fl, reqs', evs')
  {
    SumsPermute(reqs, reqs', evs);
    EarnedIgnoresOrder(reqs', evs, evs');
  }
}
