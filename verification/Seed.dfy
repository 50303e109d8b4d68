/** Seeding the ontology vocabulary: concepts, their aliases, and the role bindings. */
module Seed {
  import opened Text

  /** The four columns a seed run compares and rewrites. */
  datatype Texts = Texts(nameKo: string, nameEn: Option<string>, definition: Option<string>,
                         attributes: map<string, string>)

  datatype Alias = Alias(text: string, kind: string)

  datatype SeedConcept = SeedConcept(key: string, kind: string, texts: Texts, aliases: seq<Alias>)

  datatype SeedBinding = SeedBinding(role: string, assignee: string)

  datatype Vocabulary = Vocabulary(concepts: seq<SeedConcept>, bindings: seq<SeedBinding>)

  datatype ConceptRow = ConceptRow(id: nat, kind: string, texts: Texts)

  datatype AliasRow = AliasRow(concept: nat, alias: Alias)

  datatype BindingRow = BindingRow(concept: nat, assignee: string, validFrom: int)

  /** The tables. canonical_key is unique, so the concepts are a map; nextId is the id sequence. */
  datatype Db = Db(concepts: map<string, ConceptRow>, aliases: set<AliasRow>, bindings: set<BindingRow>, nextId: nat)

  /** Ids are unique and already drawn; aliases and bindings refer to concepts. */
  ghost predicate DbOk(db: Db) {
    && (forall k :: k in db.concepts ==> db.concepts[k].id < db.nextId)
    && (forall k, m :: k in db.concepts && m in db.concepts && db.concepts[k].id == db.concepts[m].id ==> k == m)
    && (forall a :: a in db.aliases ==> exists k :: k in db.concepts && db.concepts[k].id == a.concept)
    && (forall b :: b in db.bindings ==> exists k :: k in db.concepts && db.concepts[k].id == b.concept)
  }

  datatype Report = Report(conceptsInserted: nat, conceptsUpdated: nat, aliasesInserted: nat, bindingsInserted: nat)

  const NOTHING := Report(0, 0, 0, 0)

  /** A run under way: the tables, concept_id_by_key, and the counters. */
  datatype Progress = Progress(db: Db, ids: map<string, nat>, report: Report)

  // ---- the three phases ----

  function UpsertConcept(p: Progress, sc: SeedConcept, dry: bool): Progress {
    var db, r := p.db, p.report;
    if sc.key !in db.concepts then
      var counted := r.(conceptsInserted := r.conceptsInserted + 1);
      if dry then p.(report := counted)
      else
        Progress(
          db.(concepts := db.concepts[sc.key := ConceptRow(db.nextId, sc.kind, sc.texts)], nextId := db.nextId + 1),
          p.ids[sc.key := db.nextId], counted)
    else
      var row := db.concepts[sc.key];
      var found := p.(ids := p.ids[sc.key := row.id]);
      if row.texts == sc.texts then found
      else
        var counted := found.(report := r.(conceptsUpdated := r.conceptsUpdated + 1));
        if dry then counted else counted.(db := db.(concepts := db.concepts[sc.key := row.(texts := sc.texts)]))
  }

  function UpsertConcepts(p: Progress, scs: seq<SeedConcept>, dry: bool): Progress {
    if scs == [] then p else UpsertConcept(UpsertConcepts(p, scs[..|scs| - 1], dry), scs[|scs| - 1], dry)
  }

  function CountAliases(p: Progress, n: nat): Progress {
    p.(report := p.report.(aliasesInserted := p.report.aliasesInserted + n))
  }

  function AddAlias(p: Progress, cid: nat, alias: Alias, dry: bool): Progress {
    if AliasRow(cid, alias) in p.db.aliases then p
    else
      var counted := CountAliases(p, 1);
      if dry then counted else counted.(db := p.db.(aliases := p.db.aliases + {AliasRow(cid, alias)}))
  }

  function AddAliases(p: Progress, cid: nat, aliases: seq<Alias>, dry: bool): Progress {
    if aliases == [] then p
    else AddAlias(AddAliases(p, cid, aliases[..|aliases| - 1], dry), cid, aliases[|aliases| - 1], dry)
  }

  /** Only a dry run meets a concept without an id; it counts the aliases unseen. */
  function UpsertAliases(p: Progress, sc: SeedConcept, dry: bool): Progress {
    if sc.key in p.ids then AddAliases(p, p.ids[sc.key], sc.aliases, dry) else CountAliases(p, |sc.aliases|)
  }

  function UpsertAllAliases(p: Progress, scs: seq<SeedConcept>, dry: bool): Progress {
    if scs == [] then p else UpsertAliases(UpsertAllAliases(p, scs[..|scs| - 1], dry), scs[|scs| - 1], dry)
  }

  predicate Bound(db: Db, cid: nat, assignee: string) {
    exists b :: b in db.bindings && b.concept == cid && b.assignee == assignee
  }

  function Bind(p: Progress, sb: SeedBinding, now: int, dry: bool): Progress {
    var counted := p.(report := p.report.(bindingsInserted := p.report.bindingsInserted + 1));
    if sb.role !in p.ids then counted
    else if Bound(p.db, p.ids[sb.role], sb.assignee) then p
    else if dry then counted
    else counted.(db := p.db.(bindings := p.db.bindings + {BindingRow(p.ids[sb.role], sb.assignee, now)}))
  }

  function BindAll(p: Progress, sbs: seq<SeedBinding>, now: int, dry: bool): Progress {
    if sbs == [] then p else Bind(BindAll(p, sbs[..|sbs| - 1], now, dry), sbs[|sbs| - 1], now, dry)
  }

  function Run(db: Db, v: Vocabulary, now: int, dry: bool): Progress {
    var concepts := UpsertConcepts(Progress(db, map[], NOTHING), v.concepts, dry);
    BindAll(UpsertAllAliases(concepts, v.concepts, dry), v.bindings, now, dry)
  }

  // ---- the code's loops ----

  method SeedConcepts(start: Progress, scs: seq<SeedConcept>, dryRun: bool) returns (p: Progress)
    ensures p == UpsertConcepts(start, scs, dryRun)
  {
    p := start;
    for i := 0 to |scs|
      invariant p == UpsertConcepts(start, scs[..i], dryRun)
    {
      assert scs[..i + 1][..i] == scs[..i];
      p := UpsertConcept(p, scs[i], dryRun);
    }
    assert scs[..|scs|] == scs;
  }

  method SeedAliasesOf(start: Progress, cid: nat, aliases: seq<Alias>, dryRun: bool) returns (p: Progress)
    ensures p == AddAliases(start, cid, aliases, dryRun)
  {
    p := start;
    for j := 0 to |aliases|
      invariant p == AddAliases(start, cid, aliases[..j], dryRun)
    {
      assert aliases[..j + 1][..j] == aliases[..j];
      p := AddAlias(p, cid, aliases[j], dryRun);
    }
    assert aliases[..|aliases|] == aliases;
  }

  method SeedAliases(start: Progress, scs: seq<SeedConcept>, dryRun: bool) returns (p: Progress)
    ensures p == UpsertAllAliases(start, scs, dryRun)
  {
    p := start;
    for i := 0 to |scs|
      invariant p == UpsertAllAliases(start, scs[..i], dryRun)
    {
      var sc := scs[i];
      assert scs[..i + 1][..i] == scs[..i];
      if sc.key !in p.ids {
        p := CountAliases(p, |sc.aliases|);
      } else {
        p := SeedAliasesOf(p, p.ids[sc.key], sc.aliases, dryRun);
      }
    }
    assert scs[..|scs|] == scs;
  }

  method SeedBindings(start: Progress, sbs: seq<SeedBinding>, now: int, dryRun: bool) returns (p: Progress)
    ensures p == BindAll(start, sbs, now, dryRun)
  {
    p := start;
    for i := 0 to |sbs|
      invariant p == BindAll(start, sbs[..i], now, dryRun)
    {
      assert sbs[..i + 1][..i] == sbs[..i];
      p := Bind(p, sbs[i], now, dryRun);
    }
    assert sbs[..|sbs|] == sbs;
  }

  class Ontology {
    var db: Db

    constructor (db: Db) ensures this.db == db { this.db := db; }

    /** seed_ontology */
    method SeedOntology(v: Vocabulary, now: int, dryRun: bool) returns (report: Report)
      modifies this
      ensures db == Run(old(db), v, now, dryRun).db
      ensures report == Run(old(db), v, now, dryRun).report
    {
      var p := SeedConcepts(Progress(db, map[], NOTHING), v.concepts, dryRun);
      p := SeedAliases(p, v.concepts, dryRun);
      p := SeedBindings(p, v.bindings, now, dryRun);
      db, report := p.db, p.report;
    }
  }

  // ---- the vocabulary ----

  ghost predicate DistinctConcepts(scs: seq<SeedConcept>) {
    && (forall i, j :: 0 <= i < j < |scs| ==> scs[i].key != scs[j].key)
    && (forall i :: 0 <= i < |scs| ==> DistinctAliases(scs[i].aliases))
  }

  ghost predicate DistinctAliases(aliases: seq<Alias>) {
    forall i, j :: 0 <= i < j < |aliases| ==> aliases[i] != aliases[j]
  }

  ghost predicate DistinctBindings(sbs: seq<SeedBinding>) { forall i, j :: 0 <= i < j < |sbs| ==> sbs[i] != sbs[j] }

  /** Every binding names a seeded role. */
  ghost predicate RolesSeeded(v: Vocabulary) {
    forall b :: b in v.bindings ==> exists sc :: sc in v.concepts && sc.key == b.role
  }

  // ---- the dry run beside the real run ----

  predicate KeyIn(scs: seq<SeedConcept>, k: string) { exists sc :: sc in scs && sc.key == k }

  /** During phase one: the dry run knows the ids of the seen concepts that were there before. */
  ghost predicate IdsPaired(db: Db, d: Progress, r: Progress) {
    && d.db == db && d.report == r.report
    && r.db.aliases == db.aliases && r.db.bindings == db.bindings && r.db.nextId >= db.nextId
    && (forall k :: k in d.ids <==> k in r.ids && k in db.concepts)
    && (forall k :: k in d.ids ==> d.ids[k] == r.ids[k])
    && (forall k :: k in r.ids && k !in db.concepts ==> db.nextId <= r.ids[k])
  }

  /** The real run adds or rewrites the seen concepts only, keeps ids and kinds, and ids stay unique. */
  ghost predicate ConceptsGrow(db: Db, r: Progress) {
    && (forall k :: k in r.db.concepts <==> k in db.concepts || k in r.ids)
    && (forall k :: k in r.ids ==> k in r.db.concepts && r.ids[k] == r.db.concepts[k].id)
    && (forall k :: k in db.concepts ==>
        r.db.concepts[k].id == db.concepts[k].id && r.db.concepts[k].kind == db.concepts[k].kind)
    && (forall k :: k in db.concepts && k !in r.ids ==> r.db.concepts[k] == db.concepts[k])
    && (forall k :: k in r.db.concepts ==> r.db.concepts[k].id < r.db.nextId)
    && (forall k, m :: k in r.db.concepts && m in r.db.concepts && r.db.concepts[k].id == r.db.concepts[m].id ==>
        k == m)
  }

  ghost predicate Holds(scs: seq<SeedConcept>, r: Progress) {
    && (forall k :: k in r.ids <==> KeyIn(scs, k))
    && (forall sc :: sc in scs ==> sc.key in r.db.concepts && r.db.concepts[sc.key].texts == sc.texts)
  }

  ghost predicate ConceptsPaired(db: Db, scs: seq<SeedConcept>, d: Progress, r: Progress) {
    IdsPaired(db, d, r) && ConceptsGrow(db, r) && Holds(scs, r)
  }

  lemma NewConceptGrows(db: Db, r: Progress, sc: SeedConcept)
    requires ConceptsGrow(db, r) && sc.key !in r.db.concepts
    ensures ConceptsGrow(db, UpsertConcept(r, sc, false))
  {
  }

  lemma ConceptsGrowOn(db: Db, r: Progress, sc: SeedConcept)
    requires ConceptsGrow(db, r) && sc.key !in r.ids
    ensures ConceptsGrow(db, UpsertConcept(r, sc, false))
  {
    if sc.key !in r.db.concepts {
      NewConceptGrows(db, r, sc);
    }
  }

  lemma IdsStayPaired(db: Db, d: Progress, r: Progress, sc: SeedConcept)
    requires IdsPaired(db, d, r) && ConceptsGrow(db, r) && sc.key !in r.ids
    ensures IdsPaired(db, UpsertConcept(d, sc, true), UpsertConcept(r, sc, false))
  {
    if sc.key in db.concepts { KnownConceptPairs(db, d, r, sc); } else { NewConceptPairs(db, d, r, sc); }
  }

  lemma KnownConceptPairs(db: Db, d: Progress, r: Progress, sc: SeedConcept)
    requires IdsPaired(db, d, r) && ConceptsGrow(db, r) && sc.key !in r.ids && sc.key in db.concepts
    ensures IdsPaired(db, UpsertConcept(d, sc, true), UpsertConcept(r, sc, false))
  {
    assert r.db.concepts[sc.key] == db.concepts[sc.key];
  }

  lemma NewConceptPairs(db: Db, d: Progress, r: Progress, sc: SeedConcept)
    requires IdsPaired(db, d, r) && ConceptsGrow(db, r) && sc.key !in r.ids && sc.key !in db.concepts
    ensures IdsPaired(db, UpsertConcept(d, sc, true), UpsertConcept(r, sc, false))
  {
  }

  lemma HoldsMore(scs: seq<SeedConcept>, r: Progress, sc: SeedConcept)
    requires Holds(scs, r) && !KeyIn(scs, sc.key)
    ensures Holds(scs + [sc], UpsertConcept(r, sc, false))
  {
  }

  lemma KeyIsNew(scs: seq<SeedConcept>, n: nat)
    requires DistinctConcepts(scs) && n < |scs|
    ensures !KeyIn(scs[..n], scs[n].key)
  {
  }

  lemma AllKeysIn(scs: seq<SeedConcept>)
    ensures forall s :: s in scs ==> KeyIn(scs, s.key)
  {
  }

  lemma LastIsNew<T>(s: seq<T>)
    requires s != [] && forall i, j :: 0 <= i < j < |s| ==> s[i] != s[j]
    ensures s[|s| - 1] !in s[..|s| - 1]
  {
  }

  /** Nothing refers to an id that was not drawn yet. */
  lemma NewIdIsFree(db: Db, cid: nat)
    requires DbOk(db) && db.nextId <= cid
    ensures forall a :: AliasRow(cid, a) !in db.aliases
    ensures forall who :: !Bound(db, cid, who)
  {
    forall a | a in db.aliases
      ensures a.concept < db.nextId
    {
      var k :| k in db.concepts && db.concepts[k].id == a.concept;
    }
    forall b | b in db.bindings
      ensures b.concept < db.nextId
    {
      var k :| k in db.concepts && db.concepts[k].id == b.concept;
    }
  }

  lemma {:induction false} ConceptsArePaired(db: Db, scs: seq<SeedConcept>)
    requires DbOk(db) && DistinctConcepts(scs)
    ensures
      var start := Progress(db, map[], NOTHING);
      ConceptsPaired(db, scs, UpsertConcepts(start, scs, true), UpsertConcepts(start, scs, false))
  {
    if scs != [] {
      var front, last := scs[..|scs| - 1], scs[|scs| - 1];
      assert scs == front + [last];
      ConceptsArePaired(db, front);
      KeyIsNew(scs, |scs| - 1);
      var start := Progress(db, map[], NOTHING);
      var d, r := UpsertConcepts(start, front, true), UpsertConcepts(start, front, false);
      IdsStayPaired(db, d, r, last);
      ConceptsGrowOn(db, r, last);
      HoldsMore(front, r, last);
    }
  }

  /** Only the alias table and the alias counter move in phase two, and in a dry run only the counter. */
  ghost predicate OnlyAliases(p: Progress, q: Progress, dry: bool) {
    && q.ids == p.ids && q.db.concepts == p.db.concepts && q.db.bindings == p.db.bindings && q.db.nextId == p.db.nextId
    && q.report == p.report.(aliasesInserted := q.report.aliasesInserted)
    && (dry ==> q.db == p.db)
  }

  lemma {:induction false} AddAliasesEffect(p: Progress, cid: nat, aliases: seq<Alias>, dry: bool)
    ensures OnlyAliases(p, AddAliases(p, cid, aliases, dry), dry)
    ensures !dry ==> forall row :: row in AddAliases(p, cid, aliases, dry).db.aliases
                                   <==> row in p.db.aliases || (row.concept == cid && row.alias in aliases)
  {
    if aliases != [] {
      var front, last := aliases[..|aliases| - 1], aliases[|aliases| - 1];
      assert aliases == front + [last];
      AddAliasesEffect(p, cid, front, dry);
    }
  }

  /** Same counts, when both runs see the same of these aliases before they start. */
  lemma {:induction false} AddAliasesPaired(d: Progress, r: Progress, cid: nat, aliases: seq<Alias>)
    requires DistinctAliases(aliases) && d.report == r.report
    requires forall a :: a in aliases ==> (AliasRow(cid, a) in d.db.aliases <==> AliasRow(cid, a) in r.db.aliases)
    ensures AddAliases(d, cid, aliases, true).report == AddAliases(r, cid, aliases, false).report
  {
    if aliases != [] {
      var front, last := aliases[..|aliases| - 1], aliases[|aliases| - 1];
      assert aliases == front + [last];
      AddAliasesPaired(d, r, cid, front);
      AddAliasesEffect(d, cid, front, true);
      AddAliasesEffect(r, cid, front, false);
      assert last in aliases;
      LastIsNew(aliases);
    }
  }

  /** All aliases of a concept nobody knows yet are new. */
  lemma {:induction false} AddAliasesAllNew(r: Progress, cid: nat, aliases: seq<Alias>)
    requires DistinctAliases(aliases)
    requires forall a :: a in aliases ==> AliasRow(cid, a) !in r.db.aliases
    ensures AddAliases(r, cid, aliases, false).report == CountAliases(r, |aliases|).report
  {
    if aliases != [] {
      var front, last := aliases[..|aliases| - 1], aliases[|aliases| - 1];
      assert aliases == front + [last];
      AddAliasesAllNew(r, cid, front);
      AddAliasesEffect(r, cid, front, false);
      assert last in aliases;
      LastIsNew(aliases);
    }
  }

  /** The row holds an alias of one of these concepts. */
  ghost predicate AliasOf(ids: map<string, nat>, scs: seq<SeedConcept>, row: AliasRow) {
    exists sc :: sc in scs && sc.key in ids && ids[sc.key] == row.concept && row.alias in sc.aliases
  }

  ghost predicate AliasesPaired(db: Db, scs: seq<SeedConcept>, d0: Progress, r0: Progress, d: Progress, r: Progress) {
    && OnlyAliases(d0, d, true) && OnlyAliases(r0, r, false) && d.report == r.report
    && (forall row :: row in r.db.aliases <==> row in db.aliases || AliasOf(r.ids, scs, row))
  }

  lemma AliasStep(db: Db, all: seq<SeedConcept>, d0: Progress, r0: Progress, scs: seq<SeedConcept>, sc: SeedConcept,
                  d: Progress, r: Progress)
    requires DbOk(db) && ConceptsPaired(db, all, d0, r0) && AliasesPaired(db, scs, d0, r0, d, r)
    requires !KeyIn(scs, sc.key) && KeyIn(all, sc.key) && DistinctAliases(sc.aliases)
    requires forall s :: s in scs ==> KeyIn(all, s.key)
    ensures AliasesPaired(db, scs + [sc], d0, r0, UpsertAliases(d, sc, true), UpsertAliases(r, sc, false))
  {
    var cid := r.ids[sc.key];
    forall a
      ensures AliasRow(cid, a) in r.db.aliases <==> AliasRow(cid, a) in db.aliases
    {
      forall s | s in scs && s.key in r.ids
        ensures r.ids[s.key] != cid
      {
        assert s.key != sc.key;
      }
    }
    AddAliasesEffect(r, cid, sc.aliases, false);
    if sc.key in d.ids {
      AddAliasesEffect(d, cid, sc.aliases, true);
      AddAliasesPaired(d, r, cid, sc.aliases);
    } else {
      NewIdIsFree(db, cid);
      AddAliasesAllNew(r, cid, sc.aliases);
    }
    var q := UpsertAliases(r, sc, false);
    forall row
      ensures AliasOf(q.ids, scs + [sc], row)
          <==> AliasOf(r.ids, scs, row) || (row.concept == cid && row.alias in sc.aliases)
    {
      assert forall s :: s in scs + [sc] <==> s in scs || s == sc;
      if AliasOf(r.ids, scs, row) {
        var s :| s in scs && s.key in r.ids && r.ids[s.key] == row.concept && row.alias in s.aliases;
        assert s in scs + [sc];
      }
    }
  }

  lemma {:induction false} AliasesArePaired(db: Db, all: seq<SeedConcept>, d0: Progress, r0: Progress,
                                            scs: seq<SeedConcept>)
    requires DbOk(db) && ConceptsPaired(db, all, d0, r0) && DistinctConcepts(scs)
    requires forall s :: s in scs ==> KeyIn(all, s.key)
    ensures AliasesPaired(db, scs, d0, r0, UpsertAllAliases(d0, scs, true), UpsertAllAliases(r0, scs, false))
  {
    if scs == [] {
      NoAliasYet(r0.ids);
    } else {
      var front, last := scs[..|scs| - 1], scs[|scs| - 1];
      var d, r := UpsertAllAliases(d0, front, true), UpsertAllAliases(r0, front, false);
      AliasesArePaired(db, all, d0, r0, front);
      KeyIsNew(scs, |scs| - 1);
      AliasStep(db, all, d0, r0, front, last, d, r);
      assert scs == front + [last];
    }
  }

  lemma NoAliasYet(ids: map<string, nat>)
    ensures forall row :: !AliasOf(ids, [], row)
  {
  }

  /** One of these bindings has the role with this id and the assignee. */
  ghost predicate BindingOf(ids: map<string, nat>, sbs: seq<SeedBinding>, cid: nat, assignee: string) {
    exists sb :: sb in sbs && sb.role in ids && ids[sb.role] == cid && sb.assignee == assignee
  }

  ghost predicate OnlyBindings(p: Progress, q: Progress, dry: bool) {
    && q.ids == p.ids && q.db == p.db.(bindings := q.db.bindings)
    && q.report == p.report.(bindingsInserted := q.report.bindingsInserted)
    && (dry ==> q.db == p.db)
    && p.db.bindings <= q.db.bindings
  }

  ghost predicate BindingsPaired(db: Db, sbs: seq<SeedBinding>, d0: Progress, r0: Progress, d: Progress, r: Progress) {
    && OnlyBindings(d0, d, true) && OnlyBindings(r0, r, false) && d.report == r.report
    && (forall cid, who :: Bound(r.db, cid, who) <==> Bound(db, cid, who) || BindingOf(r.ids, sbs, cid, who))
  }

  lemma BoundByAdding(db: Db, row: BindingRow, cid: nat, who: string)
    ensures Bound(db.(bindings := db.bindings + {row}), cid, who)
            <==> Bound(db, cid, who) || (row.concept == cid && row.assignee == who)
  {
    var more := db.bindings + {row};
    assert row in more;
    if Bound(db, cid, who) {
      var b :| b in db.bindings && b.concept == cid && b.assignee == who;
      assert b in more;
    }
  }

  /** The ids of the two runs: those of before are shared, the others were not drawn yet, and no two concepts share
      one. */
  ghost predicate IdsMatch(db: Db, d: Progress, r: Progress) {
    && d.db == db
    && (forall k :: k in r.ids ==> k in r.db.concepts && r.ids[k] == r.db.concepts[k].id)
    && (forall k, m :: k in r.db.concepts && m in r.db.concepts && r.db.concepts[k].id == r.db.concepts[m].id ==>
        k == m)
    && (forall k :: k in d.ids <==> k in r.ids && k in db.concepts)
    && (forall k :: k in d.ids ==> d.ids[k] == r.ids[k])
    && (forall k :: k in r.ids && k !in db.concepts ==> db.nextId <= r.ids[k])
  }

  lemma BindingOfSnoc(ids: map<string, nat>, sbs: seq<SeedBinding>, sb: SeedBinding, cid: nat, who: string)
    ensures BindingOf(ids, sbs + [sb], cid, who)
            <==> BindingOf(ids, sbs, cid, who) || (sb.role in ids && cid == ids[sb.role] && who == sb.assignee)
  {
    assert sb in sbs + [sb];
    if BindingOf(ids, sbs, cid, who) {
      var s :| s in sbs && s.role in ids && ids[s.role] == cid && s.assignee == who;
      assert s in sbs + [sb];
    }
  }

  /** A binding not seen before is bound in the real run exactly when it was before the run. */
  lemma BoundBefore(db: Db, d: Progress, r: Progress, sbs: seq<SeedBinding>, sb: SeedBinding)
    requires DbOk(db) && IdsMatch(db, d, r) && sb !in sbs && sb.role in r.ids
    ensures !BindingOf(r.ids, sbs, r.ids[sb.role], sb.assignee)
    ensures sb.role !in d.ids ==> !Bound(db, r.ids[sb.role], sb.assignee)
  {
    forall s | s in sbs && s.role in r.ids && r.ids[s.role] == r.ids[sb.role]
      ensures s.assignee != sb.assignee
    {
      assert s.role == sb.role;
    }
    if sb.role !in d.ids { NewIdIsFree(db, r.ids[sb.role]); }
  }

  lemma BindingStep(db: Db, d0: Progress, r0: Progress, sbs: seq<SeedBinding>, sb: SeedBinding, d: Progress,
                    r: Progress, now: int, later: int)
    requires DbOk(db) && IdsMatch(db, d0, r0) && BindingsPaired(db, sbs, d0, r0, d, r) && sb !in sbs
    ensures BindingsPaired(db, sbs + [sb], d0, r0, Bind(d, sb, now, true), Bind(r, sb, later, false))
  {
    var q := Bind(r, sb, later, false);
    if sb.role in r.ids { BoundBefore(db, d0, r0, sbs, sb); }
    forall cid, who
      ensures Bound(q.db, cid, who) <==> Bound(db, cid, who) || BindingOf(q.ids, sbs + [sb], cid, who)
    {
      BindingOfSnoc(r.ids, sbs, sb, cid, who);
      if sb.role in r.ids { BoundByAdding(r.db, BindingRow(r.ids[sb.role], sb.assignee, later), cid, who); }
    }
  }

  lemma {:induction false} BindingsArePaired(db: Db, d0: Progress, r0: Progress, sbs: seq<SeedBinding>, now: int,
                                             later: int)
    requires DbOk(db) && DistinctBindings(sbs) && IdsMatch(db, d0, r0)
    requires d0.report == r0.report && r0.db.bindings == db.bindings
    ensures BindingsPaired(db, sbs, d0, r0, BindAll(d0, sbs, now, true), BindAll(r0, sbs, later, false))
  {
    if sbs == [] {
    } else {
      var front, last := sbs[..|sbs| - 1], sbs[|sbs| - 1];
      assert sbs == front + [last];
      BindingsArePaired(db, d0, r0, front, now, later);
      LastIsNew(sbs);
      BindingStep(db, d0, r0, front, last, BindAll(d0, front, now, true), BindAll(r0, front, later, false), now, later);
    }
  }

  /** The dry run reports what the real run would report, and writes nothing. */
  lemma DryRunPredicts(db: Db, v: Vocabulary, now: int, later: int)
    requires DbOk(db) && DistinctConcepts(v.concepts) && DistinctBindings(v.bindings)
    ensures Run(db, v, now, true).report == Run(db, v, later, false).report
    ensures Run(db, v, now, true).db == db
  {
    var start := Progress(db, map[], NOTHING);
    var d1, r1 := UpsertConcepts(start, v.concepts, true), UpsertConcepts(start, v.concepts, false);
    ConceptsArePaired(db, v.concepts);
    AllKeysIn(v.concepts);
    AliasesArePaired(db, v.concepts, d1, r1, v.concepts);
    var d2, r2 := UpsertAllAliases(d1, v.concepts, true), UpsertAllAliases(r1, v.concepts, false);
    BindingsArePaired(db, d2, r2, v.bindings, now, later);
  }

  // ---- after the real run ----

  /** The tables hold the whole vocabulary. */
  ghost predicate Complete(db: Db, v: Vocabulary) {
    && (forall sc :: sc in v.concepts ==> sc.key in db.concepts && db.concepts[sc.key].texts == sc.texts)
    && (forall sc, a :: sc in v.concepts && a in sc.aliases ==>
        sc.key in db.concepts && AliasRow(db.concepts[sc.key].id, a) in db.aliases)
    && (forall b :: b in v.bindings && KeyIn(v.concepts, b.role) ==>
          b.role in db.concepts && Bound(db, db.concepts[b.role].id, b.assignee))
  }

  lemma {:induction false} BindAllHolds(p: Progress, sbs: seq<SeedBinding>, now: int)
    ensures OnlyBindings(p, BindAll(p, sbs, now, false), false)
    ensures forall b :: b in sbs && b.role in p.ids ==> Bound(BindAll(p, sbs, now, false).db, p.ids[b.role], b.assignee)
    ensures forall cid, who :: Bound(p.db, cid, who) ==> Bound(BindAll(p, sbs, now, false).db, cid, who)
  {
    if sbs != [] {
      var front, last := sbs[..|sbs| - 1], sbs[|sbs| - 1];
      assert sbs == front + [last];
      BindAllHolds(p, front, now);
      var q := BindAll(p, front, now, false);
      var row := BindingRow(if last.role in p.ids then p.ids[last.role] else 0, last.assignee, now);
      forall cid, who
        ensures Bound(q.db.(bindings := q.db.bindings + {row}), cid, who)
                <==> Bound(q.db, cid, who) || (row.concept == cid && row.assignee == who)
      {
        BoundByAdding(q.db, row, cid, who);
      }
    }
  }

  /** A real run completes the tables, keeps them consistent, and leaves all other rows alone. */
  lemma RunCompletes(db: Db, v: Vocabulary, now: int)
    requires DbOk(db) && DistinctConcepts(v.concepts)
    ensures
      var after := Run(db, v, now, false).db;
      && DbOk(after) && Complete(after, v)
      && (forall k :: k in after.concepts <==> k in db.concepts || KeyIn(v.concepts, k))
      && (forall k :: k in db.concepts ==>
          after.concepts[k].id == db.concepts[k].id && after.concepts[k].kind == db.concepts[k].kind)
      && (forall k :: k in db.concepts && !KeyIn(v.concepts, k) ==> after.concepts[k] == db.concepts[k])
      && db.aliases <= after.aliases && db.bindings <= after.bindings
  {
    var start := Progress(db, map[], NOTHING);
    var d1, r1 := UpsertConcepts(start, v.concepts, true), UpsertConcepts(start, v.concepts, false);
    ConceptsArePaired(db, v.concepts);
    AllKeysIn(v.concepts);
    AliasesArePaired(db, v.concepts, d1, r1, v.concepts);
    var r2 := UpsertAllAliases(r1, v.concepts, false);
    BindAllHolds(r2, v.bindings, now);
    forall sc, a | sc in v.concepts && a in sc.aliases
      ensures AliasRow(r1.db.concepts[sc.key].id, a) in r2.db.aliases
    {
      assert KeyIn(v.concepts, sc.key);
      assert AliasOf(r2.ids, v.concepts, AliasRow(r2.ids[sc.key], a));
    }
    RunKeepsReferences(db, v, now);
  }

  predicate Known(concepts: map<string, ConceptRow>, id: nat) { exists k :: k in concepts && concepts[k].id == id }

  lemma {:induction false} BindAllRefers(p: Progress, sbs: seq<SeedBinding>, now: int)
    requires forall k :: k in p.ids ==> Known(p.db.concepts, p.ids[k])
    requires forall b :: b in p.db.bindings ==> Known(p.db.concepts, b.concept)
    ensures forall b :: b in BindAll(p, sbs, now, false).db.bindings ==> Known(p.db.concepts, b.concept)
    ensures BindAll(p, sbs, now, false).ids == p.ids
  {
    if sbs != [] { BindAllRefers(p, sbs[..|sbs| - 1], now); }
  }

  lemma RunKeepsReferences(db: Db, v: Vocabulary, now: int)
    requires DbOk(db) && DistinctConcepts(v.concepts)
    ensures DbOk(Run(db, v, now, false).db)
  {
    var start := Progress(db, map[], NOTHING);
    var d1, r1 := UpsertConcepts(start, v.concepts, true), UpsertConcepts(start, v.concepts, false);
    ConceptsArePaired(db, v.concepts);
    AllKeysIn(v.concepts);
    AliasesArePaired(db, v.concepts, d1, r1, v.concepts);
    var r2 := UpsertAllAliases(r1, v.concepts, false);
    forall k | k in db.concepts
      ensures Known(r1.db.concepts, db.concepts[k].id)
    {
      assert k in r1.db.concepts;
    }
    forall k | k in r1.ids
      ensures Known(r1.db.concepts, r1.ids[k])
    {
    }
    forall row | row in r2.db.aliases
      ensures Known(r1.db.concepts, row.concept)
    {
      if row in db.aliases {
        var k :| k in db.concepts && db.concepts[k].id == row.concept;
      }
    }
    BindAllHolds(r2, v.bindings, now);
    BindAllRefers(r2, v.bindings, now);
  }

  // ---- running on complete tables ----

  lemma {:induction false} CompleteConcepts(db: Db, scs: seq<SeedConcept>, dry: bool)
    requires forall sc :: sc in scs ==> sc.key in db.concepts && db.concepts[sc.key].texts == sc.texts
    ensures
      var p := UpsertConcepts(Progress(db, map[], NOTHING), scs, dry);
      && p.db == db && p.report == NOTHING
      && (forall k :: k in p.ids <==> KeyIn(scs, k))
      && (forall k :: k in p.ids ==> k in db.concepts && p.ids[k] == db.concepts[k].id)
  {
    if scs != [] {
      var front, last := scs[..|scs| - 1], scs[|scs| - 1];
      CompleteConcepts(db, front, dry);
      assert forall sc :: sc in scs <==> sc in front || sc == last;
      forall k
        ensures KeyIn(scs, k) <==> KeyIn(front, k) || k == last.key
      {
        if KeyIn(front, k) {
          var s :| s in front && s.key == k;
          assert s in scs;
        }
      }
    }
  }

  lemma {:induction false} CompleteAliases(p: Progress, cid: nat, aliases: seq<Alias>, dry: bool)
    requires forall a :: a in aliases ==> AliasRow(cid, a) in p.db.aliases
    ensures AddAliases(p, cid, aliases, dry) == p
  {
    if aliases != [] { CompleteAliases(p, cid, aliases[..|aliases| - 1], dry); }
  }

  lemma {:induction false} CompleteAllAliases(p: Progress, scs: seq<SeedConcept>, dry: bool)
    requires forall sc :: sc in scs ==> sc.key in p.ids
    requires forall sc, a :: sc in scs && a in sc.aliases ==>
        sc.key in p.ids && AliasRow(p.ids[sc.key], a) in p.db.aliases
    ensures UpsertAllAliases(p, scs, dry) == p
  {
    if scs != [] {
      var last := scs[|scs| - 1];
      assert last in scs;
      CompleteAllAliases(p, scs[..|scs| - 1], dry);
      CompleteAliases(p, p.ids[last.key], last.aliases, dry);
    }
  }

  // ---- what the report counts ----

  ghost function Rewritten(before: Db, after: Db): set<string> {
    set k | k in before.concepts && k in after.concepts && after.concepts[k] != before.concepts[k]
  }

  /** Every added concept is new from the vocabulary, kind and texts. */
  ghost predicate NewFrom(before: Db, after: Db, scs: seq<SeedConcept>) {
    forall k :: k in after.concepts && k !in before.concepts ==>
      exists sc :: sc in scs && sc.key == k && after.concepts[k].kind == sc.kind && after.concepts[k].texts == sc.texts
  }

  lemma {:induction false} ConceptCounts(db: Db, scs: seq<SeedConcept>)
    requires DbOk(db) && DistinctConcepts(scs)
    ensures
      var r := UpsertConcepts(Progress(db, map[], NOTHING), scs, false);
      && r.report == Report(r.report.conceptsInserted, r.report.conceptsUpdated, 0, 0)
      && r.report.conceptsInserted + |db.concepts| == |r.db.concepts|
      && r.report.conceptsUpdated == |Rewritten(db, r.db)|
      && r.db.aliases == db.aliases && r.db.bindings == db.bindings && NewFrom(db, r.db, scs)
  {
    if scs == [] {
      assert Rewritten(db, db) == {};
    } else {
      var front, sc := scs[..|scs| - 1], scs[|scs| - 1];
      assert scs == front + [sc];
      ConceptCounts(db, front);
      ConceptsArePaired(db, front);
      KeyIsNew(scs, |front|);
      var r := UpsertConcepts(Progress(db, map[], NOTHING), front, false);
      assert Untouched(db, r, sc.key);
      OneConceptCounts(db, r, sc);
      NewFromOne(db, r, front, sc);
    }
  }

  /** The concept has not been seen yet: the tables agree about its key. */
  ghost predicate Untouched(db: Db, r: Progress, key: string) {
    if key in r.db.concepts then key in db.concepts && r.db.concepts[key] == db.concepts[key] else key !in db.concepts
  }

  lemma NewConceptCounts(db: Db, r: Progress, sc: SeedConcept)
    requires Untouched(db, r, sc.key) && sc.key !in r.db.concepts
    ensures
      var q := UpsertConcept(r, sc, false);
      |q.db.concepts| == |r.db.concepts| + 1 && Rewritten(db, q.db) == Rewritten(db, r.db)
  {
    var before, after := r.db.concepts, UpsertConcept(r, sc, false).db.concepts;
    assert after == before[sc.key := ConceptRow(r.db.nextId, sc.kind, sc.texts)];
    assert after.Keys == before.Keys + {sc.key};
    SizeOfKeys(before);
    SizeOfKeys(after);
  }

  lemma RewrittenCounts(db: Db, r: Progress, sc: SeedConcept)
    requires Untouched(db, r, sc.key) && sc.key in r.db.concepts && r.db.concepts[sc.key].texts != sc.texts
    ensures
      var q := UpsertConcept(r, sc, false);
      |q.db.concepts| == |r.db.concepts| && |Rewritten(db, q.db)| == |Rewritten(db, r.db)| + 1
  {
    var q := UpsertConcept(r, sc, false);
    assert q.db.concepts.Keys == r.db.concepts.Keys;
    SizeOfKeys(r.db.concepts);
    SizeOfKeys(q.db.concepts);
    assert sc.key !in Rewritten(db, r.db);
    assert Rewritten(db, q.db) == Rewritten(db, r.db) + {sc.key};
  }

  lemma OneConceptCounts(db: Db, r: Progress, sc: SeedConcept)
    requires Untouched(db, r, sc.key)
    ensures
      var q := UpsertConcept(r, sc, false);
      && q.report.conceptsInserted + |r.db.concepts| == r.report.conceptsInserted + |q.db.concepts|
      && q.report.conceptsUpdated + |Rewritten(db, r.db)| == r.report.conceptsUpdated + |Rewritten(db, q.db)|
  {
    if sc.key !in r.db.concepts {
      NewConceptCounts(db, r, sc);
    } else if r.db.concepts[sc.key].texts != sc.texts {
      RewrittenCounts(db, r, sc);
    }
  }

  lemma SizeOfKeys(m: map<string, ConceptRow>)
    ensures |m| == |m.Keys|
  {
  }

  lemma NewFromOne(db: Db, r: Progress, front: seq<SeedConcept>, sc: SeedConcept)
    requires ConceptsGrow(db, r) && sc.key !in r.ids && NewFrom(db, r.db, front)
    ensures NewFrom(db, UpsertConcept(r, sc, false).db, front + [sc])
  {
    var q := UpsertConcept(r, sc, false);
    forall k | k in q.db.concepts && k !in db.concepts
      ensures exists c :: c in front + [sc] && c.key == k && q.db.concepts[k].kind == c.kind
                && q.db.concepts[k].texts == c.texts
    {
      if k == sc.key {
        assert sc in front + [sc];
      } else {
        var c :| c in front && c.key == k && r.db.concepts[k].kind == c.kind && r.db.concepts[k].texts == c.texts;
        assert c in front + [sc];
      }
    }
  }

  /** Only the aliases and their counter move, and by the same number. */
  ghost predicate AliasesCounted(p: Progress, q: Progress) {
    && q.ids == p.ids && q.db == p.db.(aliases := q.db.aliases)
    && q.report == p.report.(aliasesInserted := q.report.aliasesInserted)
    && q.report.aliasesInserted + |p.db.aliases| == p.report.aliasesInserted + |q.db.aliases|
  }

  lemma {:induction false} AliasCounts(p: Progress, cid: nat, aliases: seq<Alias>)
    ensures AliasesCounted(p, AddAliases(p, cid, aliases, false))
  {
    if aliases != [] {
      AliasCounts(p, cid, aliases[..|aliases| - 1]);
    }
  }

  lemma {:induction false} AllAliasCounts(p: Progress, scs: seq<SeedConcept>)
    requires forall sc :: sc in scs ==> sc.key in p.ids
    ensures AliasesCounted(p, UpsertAllAliases(p, scs, false))
  {
    if scs != [] {
      var front, sc := scs[..|scs| - 1], scs[|scs| - 1];
      assert scs == front + [sc];
      AllAliasCounts(p, front);
      var q := UpsertAllAliases(p, front, false);
      AliasCounts(q, q.ids[sc.key], sc.aliases);
    }
  }

  /** How many bindings name a role that is not seeded. */
  function UnknownRoles(scs: seq<SeedConcept>, sbs: seq<SeedBinding>): nat {
    if sbs == [] then 0
    else UnknownRoles(scs, sbs[..|sbs| - 1]) + if KeyIn(scs, sbs[|sbs| - 1].role) then 0 else 1
  }

  ghost predicate BoundFrom(p: Progress, sbs: seq<SeedBinding>, now: int, b: BindingRow) {
    exists sb :: sb in sbs && sb.role in p.ids && b == BindingRow(p.ids[sb.role], sb.assignee, now)
  }

  lemma {:induction false} BindingCounts(p: Progress, scs: seq<SeedConcept>, sbs: seq<SeedBinding>, now: int)
    requires forall k :: k in p.ids <==> KeyIn(scs, k)
    ensures
      var q := BindAll(p, sbs, now, false);
      && q.ids == p.ids && q.db == p.db.(bindings := q.db.bindings)
      && q.report == p.report.(bindingsInserted := q.report.bindingsInserted)
      && q.report.bindingsInserted + |p.db.bindings|
         == p.report.bindingsInserted + |q.db.bindings| + UnknownRoles(scs, sbs)
      && forall b :: b in q.db.bindings ==> b in p.db.bindings || BoundFrom(p, sbs, now, b)
  {
    if sbs != [] {
      var front, sb := sbs[..|sbs| - 1], sbs[|sbs| - 1];
      BindingCounts(p, scs, front, now);
      var before, q := BindAll(p, front, now, false), BindAll(p, sbs, now, false);
      assert sbs == front + [sb];
      forall b | b in q.db.bindings
        ensures b in p.db.bindings || BoundFrom(p, sbs, now, b)
      {
        if b in before.db.bindings && b !in p.db.bindings {
          var c :| c in front && c.role in p.ids && b == BindingRow(p.ids[c.role], c.assignee, now);
          assert c in sbs;
        }
      }
      if sb.role in p.ids && !Bound(before.db, p.ids[sb.role], sb.assignee) {
        assert BindingRow(p.ids[sb.role], sb.assignee, now) !in before.db.bindings;
      }
    }
  }

  /** The row binds, from now on, the concept of a seeded role to its assignee. */
  ghost predicate BindingFrom(after: Db, sbs: seq<SeedBinding>, now: int, b: BindingRow) {
    exists sb ::
      sb in sbs && sb.role in after.concepts && b == BindingRow(after.concepts[sb.role].id, sb.assignee, now)
  }

  /** The row is an alias of a seeded concept. */
  ghost predicate AliasFrom(after: Db, scs: seq<SeedConcept>, a: AliasRow) {
    exists sc ::
      sc in scs && sc.key in after.concepts && after.concepts[sc.key].id == a.concept && a.alias in sc.aliases
  }

  lemma AliasesComeFrom(db: Db, v: Vocabulary)
    requires DbOk(db) && DistinctConcepts(v.concepts)
    ensures
      var r1 := UpsertConcepts(Progress(db, map[], NOTHING), v.concepts, false);
      var r2 := UpsertAllAliases(r1, v.concepts, false);
      forall a :: a in r2.db.aliases <==> a in db.aliases || AliasFrom(r1.db, v.concepts, a)
  {
    var start := Progress(db, map[], NOTHING);
    var d1, r1 := UpsertConcepts(start, v.concepts, true), UpsertConcepts(start, v.concepts, false);
    ConceptsArePaired(db, v.concepts);
    AllKeysIn(v.concepts);
    AliasesArePaired(db, v.concepts, d1, r1, v.concepts);
    forall a
      ensures AliasOf(r1.ids, v.concepts, a) <==> AliasFrom(r1.db, v.concepts, a)
    {
      if sc :| sc in v.concepts && sc.key in r1.db.concepts && r1.db.concepts[sc.key].id == a.concept
               && a.alias in sc.aliases {
        assert KeyIn(v.concepts, sc.key);
      }
    }
  }

  /** A real run reports what it does to the tables: the concepts added and the rows rewritten, the aliases added, and
      the bindings added together with those of roles it does not know. What it adds comes from the vocabulary. */
  lemma ReportCounts(db: Db, v: Vocabulary, now: int)
    requires DbOk(db) && DistinctConcepts(v.concepts)
    ensures
      var r := Run(db, v, now, false);
      && r.report.conceptsInserted + |db.concepts| == |r.db.concepts|
      && r.report.conceptsUpdated == |Rewritten(db, r.db)|
      && r.report.aliasesInserted + |db.aliases| == |r.db.aliases|
      && r.report.bindingsInserted + |db.bindings| == |r.db.bindings| + UnknownRoles(v.concepts, v.bindings)
      && NewFrom(db, r.db, v.concepts)
      && (forall a :: a in r.db.aliases <==> a in db.aliases || AliasFrom(r.db, v.concepts, a))
      && (forall b :: b in r.db.bindings ==> b in db.bindings || BindingFrom(r.db, v.bindings, now, b))
  {
    var r1 := UpsertConcepts(Progress(db, map[], NOTHING), v.concepts, false);
    var r2 := UpsertAllAliases(r1, v.concepts, false);
    ConceptCounts(db, v.concepts);
    KeysAreKnown(db, v.concepts);
    AllAliasCounts(r1, v.concepts);
    AliasesComeFrom(db, v);
    BindingCounts(r2, v.concepts, v.bindings, now);
    LaterPhases(db, r1.db, Run(db, v, now, false).db, v.concepts);
    forall b | BoundFrom(r2, v.bindings, now, b)
      ensures BindingFrom(r1.db, v.bindings, now, b)
    {
      var sb :| sb in v.bindings && sb.role in r2.ids && b == BindingRow(r2.ids[sb.role], sb.assignee, now);
    }
  }

  lemma KeysAreKnown(db: Db, scs: seq<SeedConcept>)
    requires DbOk(db) && DistinctConcepts(scs)
    ensures
      var r := UpsertConcepts(Progress(db, map[], NOTHING), scs, false);
      && (forall k :: k in r.ids <==> KeyIn(scs, k))
      && (forall sc :: sc in scs ==> sc.key in r.ids)
      && (forall k :: k in r.ids ==> k in r.db.concepts && r.ids[k] == r.db.concepts[k].id)
  {
    ConceptsArePaired(db, scs);
    AllKeysIn(scs);
  }

  lemma LaterPhases(db: Db, a: Db, b: Db, scs: seq<SeedConcept>)
    requires a.concepts == b.concepts && NewFrom(db, a, scs)
    ensures Rewritten(db, a) == Rewritten(db, b) && NewFrom(db, b, scs)
    ensures forall row :: AliasFrom(a, scs, row) <==> AliasFrom(b, scs, row)
  {
  }

  /** The bindings whose role is not seeded. */
  function Unseeded(ids: map<string, nat>, sbs: seq<SeedBinding>): seq<SeedBinding> {
    if sbs == [] then []
    else
      var front, last := Unseeded(ids, sbs[..|sbs| - 1]), sbs[|sbs| - 1];
      if last.role in ids then front else front + [last]
  }

  lemma {:induction false} CompleteBindings(p: Progress, sbs: seq<SeedBinding>, now: int, dry: bool)
    requires p.report.bindingsInserted == 0
    requires forall b :: b in sbs && b.role in p.ids ==> Bound(p.db, p.ids[b.role], b.assignee)
    ensures BindAll(p, sbs, now, dry) == p.(report := p.report.(bindingsInserted := |Unseeded(p.ids, sbs)|))
    ensures Unseeded(p.ids, sbs) == [] <==> forall b :: b in sbs ==> b.role in p.ids
  {
    if sbs != [] {
      var front, last := sbs[..|sbs| - 1], sbs[|sbs| - 1];
      assert forall b :: b in sbs <==> b in front || b == last;
      CompleteBindings(p, front, now, dry);
    }
  }

  /** On complete tables a run writes nothing and reports the bindings of unseeded roles, nothing else. */
  lemma CompleteIsQuiet(db: Db, v: Vocabulary, now: int, dry: bool)
    requires Complete(db, v)
    ensures
      var again := Run(db, v, now, dry);
      && again.db == db
      && again.report == NOTHING.(bindingsInserted := again.report.bindingsInserted)
      && (again.report == NOTHING <==> RolesSeeded(v))
  {
    CompleteConcepts(db, v.concepts, dry);
    var p := UpsertConcepts(Progress(db, map[], NOTHING), v.concepts, dry);
    forall sc | sc in v.concepts
      ensures sc.key in p.ids
    {
      assert KeyIn(v.concepts, sc.key);
    }
    CompleteAllAliases(p, v.concepts, dry);
    CompleteBindings(p, v.bindings, now, dry);
    assert (forall b :: b in v.bindings ==> b.role in p.ids)
        <==> (forall b :: b in v.bindings ==> KeyIn(v.concepts, b.role));
    assert (forall b :: b in v.bindings ==> KeyIn(v.concepts, b.role)) <==> RolesSeeded(v);
  }

  /** A second run leaves every table unchanged; it reports all zeros exactly when every bound role is seeded. */
  lemma SecondRunIsQuiet(db: Db, v: Vocabulary, now: int, later: int, dry: bool)
    requires DbOk(db) && DistinctConcepts(v.concepts)
    ensures
      var after := Run(db, v, now, false).db;
      && Run(after, v, later, dry).db == after
      && (Run(after, v, later, dry).report == NOTHING <==> RolesSeeded(v))
  {
    RunCompletes(db, v, now);
    CompleteIsQuiet(Run(db, v, now, false).db, v, later, dry);
  }
}
