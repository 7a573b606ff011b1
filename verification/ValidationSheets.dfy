/** Review sheets derived from the crosswalk: which demo scenarios may be shown as live, and the
    example use cases of each combination of sources. */
module ValidationSheets {
  import opened Options
  import opened Ordering
  import opened CoverageMatrix
  import opened Crosswalk

  // ---------- demo scenarios ----------

  datatype Scenario = Scenario(name: string, target: Option<string>, expectedPath: string)

  datatype DemoRow = DemoRow(name: string, target: Option<string>, runtime: string, demoSafeAsLive: bool,
                             demoSafeAsGuidance: bool)

  function RowKey(r: Row): Option<string> { if Present(r.useCaseId) then r.useCaseId else None }

  /** `uc_index`: the last row of a use case wins. */
  function RowIndexed(rows: seq<Row>, u: string): Option<Row> { LastFor(rows, RowKey, u) }

  function RuntimeFor(rows: seq<Row>, target: Option<string>): string {
    if !Present(target) then "n/a"
    else if RowIndexed(rows, target.value).Some? then RowIndexed(rows, target.value).value.runtime
    else "unmapped"
  }

  function DemoOf(rows: seq<Row>, s: Scenario): DemoRow {
    var runtime := RuntimeFor(rows, s.target);
    DemoRow(s.name, s.target, runtime, runtime == "runtime_active",
            s.expectedPath in {"rag_only", "mitre_context_required", "generic_soc_guidance", "unsafe_blocked"})
  }

  method BuildDemoSheet(rows: seq<Row>, scenarios: seq<Scenario>) returns (sheet: seq<DemoRow>)
    ensures |sheet| == |scenarios| && forall i :: 0 <= i < |sheet| ==> sheet[i] == DemoOf(rows, scenarios[i])
  {
    var index := BuildIndex(rows, RowKey);
    sheet := [];
    for i := 0 to |scenarios|
      invariant |sheet| == i && forall k :: 0 <= k < i ==> sheet[k] == DemoOf(rows, scenarios[k])
    {
      var s := scenarios[i];
      var runtime := "n/a";
      if Present(s.target) {
        assert Lookup(index, s.target.value) == RowIndexed(rows, s.target.value);
        runtime := if s.target.value in index then index[s.target.value].runtime else "unmapped";
      }
      sheet := sheet + [DemoRow(s.name, s.target, runtime, runtime == "runtime_active",
                                s.expectedPath in {"rag_only", "mitre_context_required", "generic_soc_guidance",
                                    "unsafe_blocked"})];
    }
  }

  /** Looking a use case up in the index finds its crosswalk row, if it has one. */
  lemma IndexedRow(catalog: Catalog, enrich: Enrichments, templates: map<string, Template>, u: string)
    requires u != ""
    ensures RowIndexed(UseCaseRows(catalog, enrich, templates), u) ==
            if u in catalog || u in enrich then Some(UseCaseRow(u, catalog, enrich, templates)) else None
  {
    var ids, rows := SortedSet(catalog.Keys + enrich.Keys), UseCaseRows(catalog, enrich, templates);
    LastForKey(rows, RowKey, u);
    var found := RowIndexed(rows, u);
    if found.Some? { UseCaseRowIs(catalog, enrich, templates, found.value); }
    if u in ids {
      var i :| 0 <= i < |ids| && ids[i] == u;
      FoundLast(rows, u, i);
    }
  }

  /** A scenario is marked safe to demonstrate live exactly when its use case, in the sources
      themselves, is in the catalogue with tested, unblocked enrichment, an allowed live skill and
      an active or SOP-only template. */
  lemma DemoSafeIff(catalog: Catalog, enrich: Enrichments, templates: map<string, Template>, s: Scenario)
    ensures DemoOf(UseCaseRows(catalog, enrich, templates), s).demoSafeAsLive <==>
      && s.target.Some? && s.target.value != "" && s.target.value in catalog && s.target.value in enrich
      && Ready(None, catalog[s.target.value], enrich[s.target.value], templates)
  {
    assert "n/a"[0] == 'n' && "unmapped"[0] == 'u' && "runtime_active"[0] == 'r';
    if Present(s.target) {
      IndexedRow(catalog, enrich, templates, s.target.value);
      UseCaseActiveIff(catalog, enrich, templates, s.target.value);
    }
  }

  lemma UseCaseActiveIff(catalog: Catalog, enrich: Enrichments, templates: map<string, Template>, u: string)
    ensures UseCaseRow(u, catalog, enrich, templates).runtime == "runtime_active" <==>
      u in catalog && u in enrich && Ready(None, catalog[u], enrich[u], templates)
  {
    var c, e := At(catalog, Some(u)), At(enrich, Some(u));
    RuntimeActiveIff(None, Some(u), c, e, CollapseLiveSkill(PreferredSkill(c, e)), SplStatus(c, e, None, templates),
        false);
    if c.Some? && e.Some? { ReadyIff(None, c.value, e.value, templates); }
  }

  lemma {:induction false} FoundLast(rows: seq<Row>, u: string, i: nat)
    requires i < |rows| && RowKey(rows[i]) == Some(u)
    ensures RowIndexed(rows, u).Some?
  {
    if i >= |rows| - 1 {
    } else {
      FoundLast(rows[..|rows| - 1], u, i);
    }
  }

  // ---------- combination cases ----------

  /** Use cases (question ids for `c`) put forward as examples of each combination. */
  datatype Cases = Cases(a: set<string>, b: set<string>, c: set<string>, d: set<string>, e: set<string>, f: set<string>)

  predicate CaseA(r: Row) { r.questionId.Some? && r.catalogPresent && r.enrichmentPresent }
  predicate CaseB(r: Row) { r.questionId.Some? && r.catalogPresent && !r.enrichmentPresent }
  predicate CaseD(r: Row) { r.catalogPresent && r.questionId.None? }
  predicate CaseE(r: Row) { r.catalogPresent && r.enrichmentPresent && r.provenance }
  predicate CaseF(r: Row) { r.enrichmentPresent && !r.catalogPresent }

  ghost function UseCasesWhere(rows: seq<Row>, p: Row -> bool): set<string> {
    set i | 0 <= i < |rows| && Present(rows[i].useCaseId) && p(rows[i]) :: rows[i].useCaseId.value
  }

  lemma UseCasesSnoc(rows: seq<Row>, r: Row, p: Row -> bool)
    ensures UseCasesWhere(rows + [r], p) ==
            UseCasesWhere(rows, p) + (if Present(r.useCaseId) && p(r) then {r.useCaseId.value} else {})
  {
    var all := rows + [r];
    forall k | k in UseCasesWhere(rows, p) ensures k in UseCasesWhere(all, p) {
      var i :| 0 <= i < |rows| && Present(rows[i].useCaseId) && p(rows[i]) && rows[i].useCaseId.value == k;
      assert all[i] == rows[i];
    }
    if Present(r.useCaseId) && p(r) { assert all[|rows|] == r; }
    forall k | k in UseCasesWhere(all, p) && !(Present(r.useCaseId) && p(r) && k == r.useCaseId.value)
      ensures k in UseCasesWhere(rows, p)
    {
      var i :| 0 <= i < |all| && Present(all[i].useCaseId) && p(all[i]) && all[i].useCaseId.value == k;
      assert i < |rows| && rows[i] == all[i];
    }
  }

  /** The use-case loop of `_classify_cases`. */
  method ClassifyUseCases(rows: seq<Row>) returns (k: Cases)
    ensures k == Cases(UseCasesWhere(rows, CaseA), UseCasesWhere(rows, CaseB), {}, UseCasesWhere(rows, CaseD),
                       UseCasesWhere(rows, CaseE), UseCasesWhere(rows, CaseF))
  {
    k := Cases({}, {}, {}, {}, {}, {});
    for i := 0 to |rows|
      invariant k == Cases(UseCasesWhere(rows[..i], CaseA), UseCasesWhere(rows[..i], CaseB), {},
          UseCasesWhere(rows[..i], CaseD),
                           UseCasesWhere(rows[..i], CaseE), UseCasesWhere(rows[..i], CaseF))
    {
      var r := rows[i];
      assert rows[..i + 1] == rows[..i] + [r];
      UseCasesSnoc(rows[..i], r, CaseA);
      UseCasesSnoc(rows[..i], r, CaseB);
      UseCasesSnoc(rows[..i], r, CaseD);
      UseCasesSnoc(rows[..i], r, CaseE);
      UseCasesSnoc(rows[..i], r, CaseF);
      if !Present(r.useCaseId) {
        continue;
      }
      var u := r.useCaseId.value;
      if r.catalogPresent && r.enrichmentPresent && r.provenance { k := k.(e := k.e + {u}); }
      if r.questionId.Some? && r.catalogPresent && r.enrichmentPresent {
        k := k.(a := k.a + {u});
      } else if r.questionId.Some? && r.catalogPresent && !r.enrichmentPresent {
        k := k.(b := k.b + {u});
      }
      if r.catalogPresent && r.questionId.None? { k := k.(d := k.d + {u}); }
      if r.enrichmentPresent && !r.catalogPresent { k := k.(f := k.f + {u}); }
    }
    assert rows[..|rows|] == rows;
  }

  lemma CasesByPresence(catalog: Catalog, enrich: Enrichments, templates: map<string, Template>)
    requires "" !in catalog && "" !in enrich
    ensures var rows := UseCaseRows(catalog, enrich, templates);
      && UseCasesWhere(rows, CaseA) == {} && UseCasesWhere(rows, CaseB) == {}
      && UseCasesWhere(rows, CaseD) == catalog.Keys
      && UseCasesWhere(rows, CaseF) == enrich.Keys - catalog.Keys
  {
    var ids, rows := SortedSet(catalog.Keys + enrich.Keys), UseCaseRows(catalog, enrich, templates);
    forall i | 0 <= i < |rows| ensures FromSources(rows[i], ids[i], catalog.Keys, enrich.Keys) {
      assert ids[i] in ids;
      assert rows[i] == UseCaseRow(ids[i], catalog, enrich, templates);
    }
    CasesOf(rows, ids, catalog.Keys, enrich.Keys);
  }

  /** On the crosswalk's own use-case rows, cases A and B never have an example, D is the whole
      catalogue, E what is catalogued and enriched with provenance, and F exactly what is enriched
      but not in the catalogue. */
  lemma CasesOfCrosswalk(catalog: Catalog, enrich: Enrichments, templates: map<string, Template>)
    requires "" !in catalog && "" !in enrich
    ensures var rows := UseCaseRows(catalog, enrich, templates);
      && UseCasesWhere(rows, CaseA) == {} && UseCasesWhere(rows, CaseB) == {}
      && UseCasesWhere(rows, CaseD) == catalog.Keys
      && (forall u :: u in UseCasesWhere(rows, CaseE) <==> IsCaseE(u, catalog, enrich))
      && UseCasesWhere(rows, CaseF) == enrich.Keys - catalog.Keys
  {
    CasesByPresence(catalog, enrich, templates);
    var rows := UseCaseRows(catalog, enrich, templates);
    forall u ensures u in UseCasesWhere(rows, CaseE) <==> IsCaseE(u, catalog, enrich) {
      CaseEIff(catalog, enrich, templates, u);
    }
  }

  predicate IsCaseE(u: string, catalog: Catalog, enrich: Enrichments) {
    u in catalog && u in enrich && enrich[u].Enrichment? && enrich[u].provenance
  }

  lemma CaseEIff(catalog: Catalog, enrich: Enrichments, templates: map<string, Template>, u: string)
    requires "" !in catalog
    ensures u in UseCasesWhere(UseCaseRows(catalog, enrich, templates), CaseE) <==> IsCaseE(u, catalog, enrich)
  {
    var ids, rows := SortedSet(catalog.Keys + enrich.Keys), UseCaseRows(catalog, enrich, templates);
    forall i | 0 <= i < |rows| && Present(rows[i].useCaseId) && CaseE(rows[i]) && rows[i].useCaseId.value == u
      ensures IsCaseE(u, catalog, enrich)
    {
      assert rows[i] == UseCaseRow(ids[i], catalog, enrich, templates);
    }
    if IsCaseE(u, catalog, enrich) {
      var i :| 0 <= i < |ids| && ids[i] == u;
      assert rows[i] == UseCaseRow(u, catalog, enrich, templates);
      assert CaseE(rows[i]) && Present(rows[i].useCaseId);
    }
  }

  predicate FromSources(r: Row, u: string, catalog: set<string>, enrich: set<string>) {
    && r.useCaseId == Some(u) && u != "" && r.questionId.None?
    && r.catalogPresent == (u in catalog) && r.enrichmentPresent == (u in enrich)
  }

  lemma CasesOf(rows: seq<Row>, ids: seq<string>, catalog: set<string>, enrich: set<string>)
    requires |rows| == |ids| && forall u :: u in ids <==> u in catalog || u in enrich
    requires forall i :: 0 <= i < |rows| ==> FromSources(rows[i], ids[i], catalog, enrich)
    ensures UseCasesWhere(rows, CaseA) == {} && UseCasesWhere(rows, CaseB) == {}
    ensures UseCasesWhere(rows, CaseD) == catalog && UseCasesWhere(rows, CaseF) == enrich - catalog
  {
    forall u | u in ids
      ensures u in catalog ==> u in UseCasesWhere(rows, CaseD)
      ensures u !in catalog ==> u in UseCasesWhere(rows, CaseF)
    {
      var i :| 0 <= i < |ids| && ids[i] == u;
      assert FromSources(rows[i], u, catalog, enrich);
      assert Present(rows[i].useCaseId) && rows[i].useCaseId.value == u;
    }
    forall i | 0 <= i < |rows| ensures ids[i] in catalog || ids[i] in enrich { assert ids[i] in ids; }
  }
}
