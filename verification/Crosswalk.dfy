/** The capability crosswalk: joining matrix rows, catalogue and enrichment into rows with a
    derived runtime support status. */
module Crosswalk {
  import opened Options
  import opened Ordering
  import opened CoverageMatrix

  const ALLOWED_LIVE := {"alert_summary", "spl_generation", "attack_discovery", "knowledge_recall"}
  const COLLAPSED := {"action_planning", "investigation_notes", "mitre_mapping", "ticket_drafting"}

  /** An enrichment record; the empty object is falsy in Python although it is present. */
  datatype Enrichment =
    | EmptyRecord
    | Enrichment(liveSkill: Option<string>, testStatus: Option<string>, validationStatus: Option<string>,
                 splStatus: Option<string>, allowedTemplates: seq<Option<string>>, deniesMarkdown: bool,
                 provenance: bool)

  datatype Template = Template(status: Option<string>, enabled: bool)

  datatype Row = Row(
    questionId: Option<string>,
    useCaseId: Option<string>,
    catalogPresent: bool,
    enrichmentPresent: bool,
    provenance: bool,
    liveSkill: Option<string>,
    splStatus: string,
    validation: string,
    testsAdded: bool,
    runtime: string)

  // ---------- derivations ----------

  /** `_collapse_live_skill`: an allowed skill is kept, the four drafting skills become knowledge_recall,
      and any other is dropped. */
  function CollapseLiveSkill(primary: Option<string>): (r: Option<string>)
    ensures r.Some? ==> r.value in {"alert_summary", "spl_generation", "attack_discovery", "knowledge_recall"}
    ensures r == primary <==>
      primary.None? || primary.value in {"alert_summary", "spl_generation", "attack_discovery", "knowledge_recall"}
    ensures primary.Some? ==>
      primary.value in {"action_planning", "investigation_notes", "mitre_mapping", "ticket_drafting"} ==>
      r == Some("knowledge_recall")
    ensures r.Some? && r != primary ==>
      primary.Some? && primary.value in {"action_planning", "investigation_notes", "mitre_mapping", "ticket_drafting"}
  {
    if !Present(primary) then None
    else if primary.value in ALLOWED_LIVE then primary
    else if primary.value in COLLAPSED then Some("knowledge_recall")
    else None
  }

  function EnrichedSkill(e: Option<Enrichment>): Option<string> {
    if e.Some? && e.value.Enrichment? then e.value.liveSkill else None
  }

  function CatalogSkill(c: Option<CatalogRecord>): Option<string> { if c.Some? then c.value.primarySkill else None }

  /** `(enrichment or {}).get("live_execution_skill") or (catalog or {}).get("primary_skill")` */
  function PreferredSkill(c: Option<CatalogRecord>, e: Option<Enrichment>): Option<string> {
    if Present(EnrichedSkill(e)) then EnrichedSkill(e) else CatalogSkill(c)
  }

  /** A question's own skill hint if it is allowed, else the collapsed skill of the joined records. */
  function LiveFor(hint: Option<string>, c: Option<CatalogRecord>, e: Option<Enrichment>): (r: Option<string>)
    ensures r.Some? ==> r.value in ALLOWED_LIVE
    ensures hint.Some? && hint.value in {"alert_summary", "spl_generation", "attack_discovery", "knowledge_recall"}
      ==> r == hint
  {
    if hint.Some? && hint.value in ALLOWED_LIVE then hint else CollapseLiveSkill(PreferredSkill(c, e))
  }

  function TestsAdded(e: Option<Enrichment>): bool {
    e.Some? && e.value.Enrichment? && e.value.testStatus == Some("tested")
  }

  function ValidationStatus(e: Option<Enrichment>, tests: bool): string {
    if e.Some? && e.value.Enrichment? && e.value.validationStatus.Some?
       && e.value.validationStatus.value in {"soc_approved", "tests_added", "blocked", "needs_soc_review"}
    then e.value.validationStatus.value
    else if tests then "tests_added" else "needs_soc_review"
  }

  function NoMarkdown(e: Option<Enrichment>): bool { !(e.Some? && e.value.Enrichment? && e.value.deniesMarkdown) }

  function FirstPresent(ts: seq<Option<string>>): Option<string> {
    if ts == [] then None else if Present(ts[0]) then ts[0] else FirstPresent(ts[1..])
  }

  /** `_spl_template_id` */
  function TemplateId(c: Option<CatalogRecord>, e: Option<Enrichment>): Option<string> {
    if c.Some? && Present(c.value.template) then c.value.template
    else if e.Some? && e.value.Enrichment? then FirstPresent(e.value.allowedTemplates)
    else None
  }

  /** `_registry_spl_template_status`: enrichment first, then the template registry, then the matrix. */
  function SplStatus(c: Option<CatalogRecord>, e: Option<Enrichment>, matrix: Option<string>,
                     templates: map<string, Template>): string
  {
    var t := TemplateId(c, e);
    if e.Some? && e.value.Enrichment? && Present(e.value.splStatus) then e.value.splStatus.value
    else if t.Some? && t.value in templates && templates[t.value].status == Some("active")
            && templates[t.value].enabled then "active"
    else if t.Some? && t.value in templates && Present(templates[t.value].status) then templates[t.value].status.value
    else if Present(matrix) then matrix.value
    else "unavailable"
  }

  /** The template of the catalogue, or without one the first text among the enrichment's templates. */
  ghost predicate NamesTemplate(c: Option<CatalogRecord>, e: Option<Enrichment>, t: string) {
    t != "" &&
    if c.Some? && c.value.template.Some? && c.value.template != Some("") then c.value.template == Some(t)
    else
      e.Some? && e.value.Enrichment? && exists i ::
        && 0 <= i < |e.value.allowedTemplates| && e.value.allowedTemplates[i] == Some(t)
        && forall j :: 0 <= j < i ==> e.value.allowedTemplates[j] in {None, Some("")}
  }

  lemma {:induction false} FirstPresentIs(ts: seq<Option<string>>, t: string)
    requires t != ""
    ensures FirstPresent(ts) == Some(t) <==>
      exists i :: 0 <= i < |ts| && ts[i] == Some(t) && forall j :: 0 <= j < i ==> ts[j] in {None, Some("")}
    ensures FirstPresent(ts) != Some("")
  {
    if ts == [] {
    } else if Present(ts[0]) {
      if i :| 0 <= i < |ts| && ts[i] == Some(t) && forall j :: 0 <= j < i ==> ts[j] in {None, Some("")} {
        assert i > 0 ==> ts[0] in {None, Some("")};
      }
    } else {
      FirstPresentIs(ts[1..], t);
      if i :| 0 <= i < |ts| && ts[i] == Some(t) && forall j :: 0 <= j < i ==> ts[j] in {None, Some("")} {
        assert ts[1..][i - 1] == Some(t);
      }
      if i :| 0 <= i < |ts[1..]| && ts[1..][i] == Some(t) && forall j :: 0 <= j < i ==> ts[1..][j] in {None, Some("")} {
        assert ts[i + 1] == Some(t);
        forall j | 0 <= j < i + 1 ensures ts[j] in {None, Some("")} { if j > 0 { assert ts[j] == ts[1..][j - 1]; } }
      }
    }
  }

  lemma TemplateIs(c: Option<CatalogRecord>, e: Option<Enrichment>, t: string)
    requires t != ""
    ensures TemplateId(c, e) == Some(t) <==> NamesTemplate(c, e, t)
    ensures TemplateId(c, e) != Some("")
  {
    if e.Some? && e.value.Enrichment? { FirstPresentIs(e.value.allowedTemplates, t); }
  }

  /** Which source decides the template status: the enrichment's own status if it has one, else the
      status of the named template if the registry has one, else the matrix's, else none. */
  lemma SplStatusIs(c: Option<CatalogRecord>, e: Option<Enrichment>, matrix: Option<string>,
                    templates: map<string, Template>)
    ensures var r := SplStatus(c, e, matrix, templates);
      var own := if e.Some? && e.value.Enrichment? then e.value.splStatus else None;
      && (own !in {None, Some("")} ==> Some(r) == own)
      && (own in {None, Some("")} ==>
            && (forall t :: Registers(c, e, templates, t) ==> Some(r) == templates[t].status)
            && ((forall t :: !Registers(c, e, templates, t)) ==>
                  r == if matrix in {None, Some("")} then "unavailable" else matrix.value))
  {
    forall t | t != "" ensures TemplateId(c, e) == Some(t) <==> NamesTemplate(c, e, t) { TemplateIs(c, e, t); }
    TemplateIs(c, e, "x");
    var t := TemplateId(c, e);
    assert t.Some? ==> NamesTemplate(c, e, t.value);
    if t.Some? && t.value in templates && Present(templates[t.value].status) {
      assert Registers(c, e, templates, t.value);
    }
  }

  /** The named template has a status in the registry. */
  ghost predicate Registers(c: Option<CatalogRecord>, e: Option<Enrichment>, templates: map<string, Template>,
                            t: string)
  {
    NamesTemplate(c, e, t) && t in templates && templates[t].status !in {None, Some("")}
  }

  /** The registry's `enabled` flag has no effect: a disabled active template still reads as active. */
  lemma EnabledFlagIgnored(c: Option<CatalogRecord>, e: Option<Enrichment>, matrix: Option<string>,
                           templates: map<string, Template>)
    ensures SplStatus(c, e, matrix, templates)
         == SplStatus(c, e, matrix, map t | t in templates :: Template(templates[t].status, false))
  {
    var off := map t | t in templates :: Template(templates[t].status, false);
    var t := TemplateId(c, e);
    assert t.Some? && t.value in templates ==> off[t.value].status == templates[t.value].status;
  }

  /** `_derive_runtime_support_status` */
  function RuntimeStatus(catalog: bool, enrichment: bool, validation: string, tests: bool, live: Option<string>,
                         spl: string, noMarkdown: bool, routeBlocked: bool): string
  {
    if routeBlocked then "unsupported"
    else if !catalog && enrichment then "metadata_only"
    else if catalog && validation in {"soc_approved", "tests_added"} && tests
            && live.Some? && live.value in ALLOWED_LIVE
            && spl in {"active", "sop_only"} && noMarkdown then "runtime_active"
    else if live == Some("knowledge_recall") && spl == "sop_only" then "sop_only"
    else if catalog || enrichment then "planned"
    else "metadata_only"
  }

  function CommonRow(question: Option<string>, u: Option<string>, c: Option<CatalogRecord>, e: Option<Enrichment>,
                     live: Option<string>, spl: string, routeBlocked: bool): Row
  {
    var tests := TestsAdded(e);
    var validation := ValidationStatus(e, tests);
    var provenance := e.Some? && e.value.Enrichment? && e.value.provenance;
    Row(question, u, c.Some?, e.Some?, provenance, live, spl, validation, tests,
        RuntimeStatus(c.Some?, e.Some?, validation, tests, live, spl, NoMarkdown(e), routeBlocked))
  }

  /** What it takes for a row to be reported as active at run time, in terms of the joined records. */
  predicate DemoReady(c: Option<CatalogRecord>, e: Option<Enrichment>, live: Option<string>, spl: string,
                      routeBlocked: bool)
  {
    && !routeBlocked && c.Some? && e.Some? && e.value.Enrichment?
    && e.value.testStatus == Some("tested")
    && (e.value.validationStatus.None? || e.value.validationStatus.value !in {"blocked", "needs_soc_review"})
    && !e.value.deniesMarkdown
    && live.Some? && live.value in ALLOWED_LIVE
    && spl in {"active", "sop_only"}
  }

  lemma RuntimeActiveIff(question: Option<string>, u: Option<string>, c: Option<CatalogRecord>, e: Option<Enrichment>,
                         live: Option<string>, spl: string, routeBlocked: bool)
    ensures CommonRow(question, u, c, e, live, spl, routeBlocked).runtime == "runtime_active"
       <==> DemoReady(c, e, live, spl, routeBlocked)
  {
    var r := CommonRow(question, u, c, e, live, spl, routeBlocked);
    assert "runtime_active"[0] == 'r' && "unsupported"[0] == 'u' && "metadata_only"[0] == 'm' && "sop_only"[0] == 's'
        && "planned"[0] == 'p';
    assert "soc_approved"[0] == 's' && "tests_added"[0] == 't' && "blocked"[0] == 'b' && "needs_soc_review"[0] == 'n';
    assert DemoReady(c, e, live, spl, routeBlocked) ==> r.validation in {"soc_approved", "tests_added"};
  }

  /** The other statuses, each by its own condition. */
  lemma RuntimeStatusIs(question: Option<string>, u: Option<string>, c: Option<CatalogRecord>, e: Option<Enrichment>,
                        live: Option<string>, spl: string, routeBlocked: bool)
    ensures var runtime := CommonRow(question, u, c, e, live, spl, routeBlocked).runtime;
      var answered := live == Some("knowledge_recall") && spl == "sop_only";
      var ready := DemoReady(c, e, live, spl, routeBlocked);
      && (runtime == "unsupported" <==> routeBlocked)
      && (runtime == "runtime_active" <==> ready)
      && (runtime == "sop_only" <==> !routeBlocked && !ready && answered && (c.Some? || e.None?))
      && (runtime == "planned" <==> !routeBlocked && !ready && !answered && c.Some?)
      && (runtime == "metadata_only" <==> !routeBlocked && c.None? && (e.Some? || !answered))
  {
    RuntimeActiveIff(question, u, c, e, live, spl, routeBlocked);
    assert "unsupported"[0] == 'u' && "runtime_active"[0] == 'r' && "sop_only"[0] == 's' && "planned"[0] == 'p';
    assert "metadata_only"[0] == 'm';
  }

  /** The remaining fields of a row. */
  lemma RowFieldsAre(question: Option<string>, u: Option<string>, c: Option<CatalogRecord>, e: Option<Enrichment>,
                     live: Option<string>, spl: string, routeBlocked: bool)
    ensures var r := CommonRow(question, u, c, e, live, spl, routeBlocked);
      && r.questionId == question && r.useCaseId == u && r.liveSkill == live && r.splStatus == spl
      && r.catalogPresent == c.Some? && r.enrichmentPresent == e.Some?
      && (r.provenance <==> e.Some? && e.value.Enrichment? && e.value.provenance)
      && (r.testsAdded <==> e.Some? && e.value.Enrichment? && e.value.testStatus == Some("tested"))
    ensures var r := CommonRow(question, u, c, e, live, spl, routeBlocked);
      var explicit := if e.Some? && e.value.Enrichment? then e.value.validationStatus else None;
      if explicit.Some? && explicit.value in {"soc_approved", "tests_added", "blocked", "needs_soc_review"}
      then r.validation == explicit.value
      else r.validation in {"tests_added", "needs_soc_review"} && (r.validation == "tests_added" <==> r.testsAdded)
  {
    assert "tests_added"[0] == 't' && "needs_soc_review"[0] == 'n';
  }

  // ---------- readiness in terms of the records themselves ----------

  /** The row gets some allowed live skill: from the question's hint, or else from the enrichment's live
      skill, or else, if it has none, from the catalogue's, where a drafting skill counts as knowledge_recall. */
  predicate SkillReady(hint: Option<string>, c: CatalogRecord, e: Enrichment)
    requires e.Enrichment?
  {
    || (hint.Some? && hint.value in {"alert_summary", "spl_generation", "attack_discovery", "knowledge_recall"})
    || (var own := if e.liveSkill in {None, Some("")} then c.primarySkill else e.liveSkill;
        own.Some? && own.value in {"alert_summary", "spl_generation", "attack_discovery", "knowledge_recall",
                                   "action_planning", "investigation_notes", "mitre_mapping", "ticket_drafting"})
  }

  /** The template is active or SOP-only: by the enrichment's own status, or, if it has none, by the registry. */
  ghost predicate TemplateReady(c: CatalogRecord, e: Enrichment, templates: map<string, Template>)
    requires e.Enrichment?
  {
    if e.splStatus !in {None, Some("")} then e.splStatus.value in {"active", "sop_only"}
    else exists t :: NamesTemplate(Some(c), Some(e), t) && t in templates
                     && templates[t].status in {Some("active"), Some("sop_only")}
  }

  ghost predicate Ready(hint: Option<string>, c: CatalogRecord, e: Enrichment, templates: map<string, Template>) {
    && e.Enrichment? && e.testStatus == Some("tested")
    && e.validationStatus !in {Some("blocked"), Some("needs_soc_review")}
    && !e.deniesMarkdown
    && SkillReady(hint, c, e)
    && TemplateReady(c, e, templates)
  }

  lemma TemplateReadyIff(c: CatalogRecord, e: Enrichment, templates: map<string, Template>)
    requires e.Enrichment?
    ensures SplStatus(Some(c), Some(e), None, templates) in {"active", "sop_only"} <==> TemplateReady(c, e, templates)
  {
    SplStatusIs(Some(c), Some(e), None, templates);
    assert "active"[0] == 'a' && "sop_only"[0] == 's' && "unavailable"[0] == 'u';
    if t :| NamesTemplate(Some(c), Some(e), t) && t in templates
            && templates[t].status in {Some("active"), Some("sop_only")} {
      assert Registers(Some(c), Some(e), templates, t);
    }
    if t :| Registers(Some(c), Some(e), templates, t) {
      forall x | NamesTemplate(Some(c), Some(e), x) ensures x == t {
        TemplateIs(Some(c), Some(e), x);
        TemplateIs(Some(c), Some(e), t);
      }
    }
  }

  lemma SkillReadyIff(hint: Option<string>, c: CatalogRecord, e: Enrichment)
    requires e.Enrichment?
    ensures LiveFor(hint, Some(c), Some(e)).Some? <==> SkillReady(hint, c, e)
  {
    var own := if e.liveSkill in {None, Some("")} then c.primarySkill else e.liveSkill;
    assert PreferredSkill(Some(c), Some(e)) == own;
    CollapsedIff(own);
  }

  lemma CollapsedIff(skill: Option<string>)
    ensures CollapseLiveSkill(skill).Some? <==>
      skill.Some? && skill.value in {"alert_summary", "spl_generation", "attack_discovery", "knowledge_recall",
                                     "action_planning", "investigation_notes", "mitre_mapping", "ticket_drafting"}
  {
    assert "" !in {"alert_summary", "spl_generation", "attack_discovery", "knowledge_recall"};
  }

  lemma ReadyIff(hint: Option<string>, c: CatalogRecord, e: Enrichment, templates: map<string, Template>)
    ensures DemoReady(Some(c), Some(e), LiveFor(hint, Some(c), Some(e)), SplStatus(Some(c), Some(e), None, templates),
                      false)
       <==> Ready(hint, c, e, templates)
  {
    if e.Enrichment? {
      TemplateReadyIff(c, e, templates);
      SkillReadyIff(hint, c, e);
    }
  }

  // ---------- question rows ----------

  type Catalog = map<string, CatalogRecord>
  type Enrichments = map<string, Enrichment>

  function At<V>(m: map<string, V>, u: Option<string>): Option<V> {
    if u.Some? && u.value in m then Some(m[u.value]) else None
  }

  function QuestionRow(m: MatrixRow, catalog: Catalog, enrich: Enrichments, templates: map<string, Template>,
                       blocked: set<string>): Row
  {
    var c, e := At(catalog, m.mapping.useCase), At(enrich, m.mapping.useCase);
    CommonRow(Some(m.questionId), m.mapping.useCase, c, e, LiveFor(m.hint, c, e),
        SplStatus(c, e, m.splStatus, templates),
              m.questionId in blocked)
  }

  function QuestionRows(ms: seq<MatrixRow>, catalog: Catalog, enrich: Enrichments, templates: map<string, Template>,
                        blocked: set<string>): seq<Row>
  {
    if ms == [] then []
    else QuestionRows(ms[..|ms| - 1], catalog, enrich, templates, blocked)
         + [QuestionRow(ms[|ms| - 1], catalog, enrich, templates, blocked)]
  }

  function QuestionKey(r: Row): string { if r.questionId.Some? then r.questionId.value else "" }

  method BuildQuestionRows(ms: seq<MatrixRow>, catalog: Catalog, enrich: Enrichments,
                           templates: map<string, Template>, blocked: set<string>)
    returns (rows: seq<Row>)
    ensures rows == SortByKey(QuestionRows(ms, catalog, enrich, templates, blocked), QuestionKey)
  {
    rows := [];
    for i := 0 to |ms|
      invariant rows == QuestionRows(ms[..i], catalog, enrich, templates, blocked)
    {
      assert ms[..i + 1][..i] == ms[..i];
      rows := rows + [QuestionRow(ms[i], catalog, enrich, templates, blocked)];
    }
    assert ms[..|ms|] == ms;
    rows := SortByKey(rows, QuestionKey);
  }

  /** The question rows stand in order of question. */
  lemma QuestionRowsOrdered(ms: seq<MatrixRow>, catalog: Catalog, enrich: Enrichments, templates: map<string, Template>,
                            blocked: set<string>)
    ensures var rows := SortByKey(QuestionRows(ms, catalog, enrich, templates, blocked), QuestionKey);
      forall i, j :: 0 <= i < j < |rows| ==>
        && rows[i].questionId.Some? && rows[j].questionId.Some?
        && StrLe(rows[i].questionId.value, rows[j].questionId.value)
  {
    var raw := QuestionRows(ms, catalog, enrich, templates, blocked);
    SortByKeyOrdered(raw, QuestionKey);
    SortMembers(raw, ByKey(QuestionKey));
    forall r | r in raw ensures r.questionId.Some? && QuestionKey(r) == r.questionId.value {
      QuestionRowIs(ms, catalog, enrich, templates, blocked, r);
    }
  }

  // ---------- use-case rows ----------

  function CatalogRow(u: string, c: CatalogRecord, enrich: Enrichments, templates: map<string, Template>): Row {
    var e := At(enrich, Some(u));
    CommonRow(None, Some(u), Some(c), e, CollapseLiveSkill(PreferredSkill(Some(c), e)),
        SplStatus(Some(c), e, None, templates), false)
  }

  function EnrichmentRow(u: string, e: Enrichment, templates: map<string, Template>): Row {
    CommonRow(None, Some(u), None, Some(e), CollapseLiveSkill(EnrichedSkill(Some(e))),
        SplStatus(None, Some(e), None, templates), false)
  }

  /** The row of use case `u`, from whatever records it has. */
  function UseCaseRow(u: string, catalog: Catalog, enrich: Enrichments, templates: map<string, Template>): Row {
    var c, e := At(catalog, Some(u)), At(enrich, Some(u));
    CommonRow(None, Some(u), c, e, CollapseLiveSkill(PreferredSkill(c, e)), SplStatus(c, e, None, templates), false)
  }

  lemma RowForms(u: string, catalog: Catalog, enrich: Enrichments, templates: map<string, Template>)
    ensures u in catalog ==> CatalogRow(u, catalog[u], enrich, templates) == UseCaseRow(u, catalog, enrich, templates)
    ensures u !in catalog && u in enrich
        ==> EnrichmentRow(u, enrich[u], templates) == UseCaseRow(u, catalog, enrich, templates)
  {
  }

  function UseCaseKey(r: Row): string { if r.useCaseId.Some? then r.useCaseId.value else "None" }

  function RowsOf(ids: seq<string>, row: string -> Row): seq<Row> {
    seq(|ids|, i requires 0 <= i < |ids| => row(ids[i]))
  }

  /** Sorting the rows of distinct use cases by id lists the rows of the sorted ids. */
  lemma SortRows(ids: seq<string>, row: string -> Row)
    requires Distinct(ids) && forall u :: UseCaseKey(row(u)) == u
    ensures SortByKey(RowsOf(ids, row), UseCaseKey) == RowsOf(SortedSet(set u | u in ids), row)
  {
    var rows, sorted := RowsOf(ids, row), SortedSet(set u | u in ids);
    var other := RowsOf(sorted, row);
    forall i, j | 0 <= i < j < |rows| ensures UseCaseKey(rows[i]) != UseCaseKey(rows[j]) {
      assert rows[i] == row(ids[i]);
    }
    assert DistinctKeys(rows, UseCaseKey);
    SortedRowsOf(sorted, row);
    SameRows(ids, sorted, row);
    SortByKeyPermutation(rows, other, UseCaseKey);
    SortOfSorted(other, ByKey(UseCaseKey));
  }

  lemma SortedRowsOf(sorted: seq<string>, row: string -> Row)
    requires Increasing(sorted) && forall u :: UseCaseKey(row(u)) == u
    ensures SortedBy(RowsOf(sorted, row), ByKey(UseCaseKey))
  {
  }

  lemma SameRows(ids: seq<string>, sorted: seq<string>, row: string -> Row)
    requires Distinct(ids) && Distinct(sorted) && (forall u :: u in ids <==> u in sorted)
    requires forall u :: UseCaseKey(row(u)) == u
    ensures multiset(RowsOf(ids, row)) == multiset(RowsOf(sorted, row))
  {
    var a, b := RowsOf(ids, row), RowsOf(sorted, row);
    RowMembers(ids, row);
    RowMembers(sorted, row);
    DistinctByCount(a);
    DistinctByCount(b);
    forall r ensures multiset(a)[r] == multiset(b)[r] {
      assert r in a <==> r in multiset(a);
      assert r in b <==> r in multiset(b);
    }
  }

  lemma RowMembers(ids: seq<string>, row: string -> Row)
    requires Distinct(ids) && forall u :: UseCaseKey(row(u)) == u
    ensures Distinct(RowsOf(ids, row))
    ensures forall r :: r in RowsOf(ids, row) <==> UseCaseKey(r) in ids && r == row(UseCaseKey(r))
  {
    var a := RowsOf(ids, row);
    forall i, j | 0 <= i < j < |a| ensures a[i] != a[j] {
      assert UseCaseKey(a[i]) == ids[i] && UseCaseKey(a[j]) == ids[j];
    }
    forall r | UseCaseKey(r) in ids && r == row(UseCaseKey(r)) ensures r in a {
      var i :| 0 <= i < |ids| && ids[i] == UseCaseKey(r);
      assert a[i] == r;
    }
  }

  /** The rows of exactly the use cases in the catalogue or the enrichment, one each, by id. */
  function UseCaseRows(catalog: Catalog, enrich: Enrichments, templates: map<string, Template>): seq<Row> {
    RowsOf(SortedSet(catalog.Keys + enrich.Keys), u => UseCaseRow(u, catalog, enrich, templates))
  }

  /** First loop of `_build_use_case_rows`: one row per catalogue use case. */
  method CataloguedRows(order: seq<string>, catalogRow: string -> Row) returns (rows: seq<Row>, seen: set<string>)
    ensures rows == RowsOf(order, catalogRow) && seen == set u | u in order
  {
    rows, seen := [], {};
    for i := 0 to |order|
      invariant rows == RowsOf(order[..i], catalogRow) && seen == set u | u in order[..i]
    {
      assert order[..i + 1] == order[..i] + [order[i]];
      rows := rows + [catalogRow(order[i])];
      seen := seen + {order[i]};
    }
    assert order[..|order|] == order;
  }

  function NotIn(seen: set<string>): string -> bool { u => u !in seen }

  /** Second loop: one row per enriched use case that was not seen. */
  method EnrichedRows(order: seq<string>, seen: set<string>, enrichmentRow: string -> Row) returns (rows: seq<Row>)
    ensures rows == RowsOf(Filter(order, NotIn(seen)), enrichmentRow)
  {
    rows := [];
    var unseen := NotIn(seen);
    for i := 0 to |order|
      invariant rows == RowsOf(Filter(order[..i], unseen), enrichmentRow)
    {
      assert order[..i + 1] == order[..i] + [order[i]];
      FilterConcat(order[..i], [order[i]], unseen);
      if order[i] in seen {
        continue;
      }
      rows := rows + [enrichmentRow(order[i])];
    }
    assert order[..|order|] == order;
  }

  /** Catalogue ids followed by the unseen enriched ids list every use case once. */
  lemma ListedIds(catalogued: set<string>, enriched: set<string>)
    ensures var ids := SortedSet(catalogued) + Filter(SortedSet(enriched), NotIn(catalogued));
      Distinct(ids) && (set u | u in ids) == catalogued + enriched
    ensures forall u :: u in Filter(SortedSet(enriched), NotIn(catalogued)) ==> u in enriched && u !in catalogued
  {
    SortedSetDistinct(catalogued);
    SortedSetDistinct(enriched);
    ListedFrom(SortedSet(catalogued), SortedSet(enriched), catalogued, enriched);
  }

  lemma ListedFrom(first: seq<string>, all: seq<string>, catalogued: set<string>, enriched: set<string>)
    requires Distinct(first) && forall u :: u in first <==> u in catalogued
    requires Distinct(all) && forall u :: u in all <==> u in enriched
    ensures var ids := first + Filter(all, NotIn(catalogued));
      Distinct(ids) && (set u | u in ids) == catalogued + enriched
    ensures forall u :: u in Filter(all, NotIn(catalogued)) ==> u in enriched && u !in catalogued
  {
    FilterMembers(all, NotIn(catalogued));
    FilterDistinct(all, NotIn(catalogued));
    DistinctConcat(first, Filter(all, NotIn(catalogued)));
  }

  lemma RowsOfConcat(a: seq<string>, b: seq<string>, row: string -> Row)
    ensures RowsOf(a + b, row) == RowsOf(a, row) + RowsOf(b, row)
  {
  }

  lemma RowsOfAgree(ids: seq<string>, row: string -> Row, other: string -> Row)
    requires forall u :: u in ids ==> row(u) == other(u)
    ensures RowsOf(ids, row) == RowsOf(ids, other)
  {
  }

  method ListRows(catalogued: set<string>, enriched: set<string>, catalogRow: string -> Row,
                  enrichmentRow: string -> Row,
                  ghost row: string -> Row)
    returns (rows: seq<Row>)
    requires forall u :: UseCaseKey(row(u)) == u
    requires forall u :: u in catalogued ==> catalogRow(u) == row(u)
    requires forall u :: u in enriched && u !in catalogued ==> enrichmentRow(u) == row(u)
    ensures rows == RowsOf(SortedSet(catalogued + enriched), row)
  {
    var order := SortedSet(catalogued);
    var first, seen := CataloguedRows(order, catalogRow);
    assert seen == catalogued;
    var second := EnrichedRows(SortedSet(enriched), seen, enrichmentRow);
    ghost var more := Filter(SortedSet(enriched), NotIn(catalogued));
    ListedIds(catalogued, enriched);
    RowsOfAgree(order, catalogRow, row);
    RowsOfAgree(more, enrichmentRow, row);
    RowsOfConcat(order, more, row);
    SortRows(order + more, row);
    rows := SortByKey(first + second, UseCaseKey);
  }

  method BuildUseCaseRows(catalog: Catalog, enrich: Enrichments, templates: map<string, Template>)
    returns (rows: seq<Row>)
    ensures rows == UseCaseRows(catalog, enrich, templates)
  {
    var none := CommonRow(None, None, None, None, None, "", false);
    var catalogRow := (u: string) => if u in catalog then CatalogRow(u, catalog[u], enrich, templates) else none;
    var enrichmentRow := (u: string) => if u in enrich then EnrichmentRow(u, enrich[u], templates) else none;
    var row := (u: string) => UseCaseRow(u, catalog, enrich, templates);
    forall u
      ensures u in catalog ==> catalogRow(u) == row(u)
      ensures u !in catalog && u in enrich ==> enrichmentRow(u) == row(u)
    {
      RowForms(u, catalog, enrich, templates);
    }
    rows := ListRows(catalog.Keys, enrich.Keys, catalogRow, enrichmentRow, row);
  }

  // ---------- what the crosswalk promises ----------

  /** The number of use-case rows is the catalogue plus the use cases only enriched, so the
      drift warning of `generate_crosswalk` cannot fire. */
  lemma NoUseCaseDrift(catalog: Catalog, enrich: Enrichments, templates: map<string, Template>)
    ensures |UseCaseRows(catalog, enrich, templates)| == |catalog.Keys| + |enrich.Keys - catalog.Keys|
  {
    assert catalog.Keys + enrich.Keys == catalog.Keys + (enrich.Keys - catalog.Keys);
  }

  lemma UseCaseRowIs(catalog: Catalog, enrich: Enrichments, templates: map<string, Template>, r: Row)
    requires r in UseCaseRows(catalog, enrich, templates)
    ensures r.useCaseId.Some? && (r.useCaseId.value in catalog || r.useCaseId.value in enrich)
    ensures r == UseCaseRow(r.useCaseId.value, catalog, enrich, templates)
  {
    var ids := SortedSet(catalog.Keys + enrich.Keys);
    var i :| 0 <= i < |ids| && r == UseCaseRow(ids[i], catalog, enrich, templates);
    assert ids[i] in ids;
  }

  lemma {:induction false} QuestionRowIs(ms: seq<MatrixRow>, catalog: Catalog, enrich: Enrichments,
                                         templates: map<string, Template>,
                                         blocked: set<string>, r: Row)
    requires r in QuestionRows(ms, catalog, enrich, templates, blocked)
    ensures exists m :: m in ms && r == QuestionRow(m, catalog, enrich, templates, blocked)
  {
    var before, m := ms[..|ms| - 1], ms[|ms| - 1];
    if r in QuestionRows(before, catalog, enrich, templates, blocked) {
      QuestionRowIs(before, catalog, enrich, templates, blocked, r);
    } else {
      assert m in ms;
    }
  }

  /** Every row of the crosswalk carries an allowed live skill or none. */
  lemma LiveSkillsAllowed(ms: seq<MatrixRow>, catalog: Catalog, enrich: Enrichments, templates: map<string, Template>,
                          blocked: set<string>, r: Row)
    requires r in UseCaseRows(catalog, enrich, templates)
          || r in SortByKey(QuestionRows(ms, catalog, enrich, templates, blocked), QuestionKey)
    ensures r.liveSkill.Some? ==> r.liveSkill.value in ALLOWED_LIVE
  {
    if r in UseCaseRows(catalog, enrich, templates) {
      UseCaseRowIs(catalog, enrich, templates, r);
    } else {
      SortMembers(QuestionRows(ms, catalog, enrich, templates, blocked), ByKey(QuestionKey));
      QuestionRowIs(ms, catalog, enrich, templates, blocked, r);
    }
  }

  // ---------- from the sources to the question rows ----------

  /** The crosswalk's catalogue index, given the matrix script's index of the same file. */
  function CatalogOf(c: CatalogIndex): Catalog { map u | u in c && c[u].Some? :: c[u].value }

  /** What the matrix script reads from the enrichment file. */
  function StatusOf(enrich: Enrichments): EnrichedSpl {
    u => if u in enrich && enrich[u].Enrichment? then Some(enrich[u].splStatus) else None
  }

  /** Use case `u`, as the sources have it, makes a question with this hint ready to run. */
  ghost predicate ReadyFor(s: Sources, hint: Option<string>, u: string, enrich: Enrichments,
                           templates: map<string, Template>)
  {
    var c := LastFor(s.catalog, CatalogKey, u);
    c.Some? && c.value.Some? && u in enrich && Ready(hint, c.value.value, enrich[u], templates)
  }

  /** The question of an entry is not blocked and some use case is defensible for it and ready. */
  ghost predicate QuestionReady(s: Sources, e: RuntimeEntry, enrich: Enrichments, templates: map<string, Template>,
                                blocked: set<string>)
    requires Present(e.questionRef)
  {
    var q := e.questionRef.value;
    q !in blocked && exists u :: Defensible(s, q, u) && ReadyFor(s, e.hint, u, enrich, templates)
  }

  lemma CatalogAt(s: Sources, x: Indexes, u: string)
    requires Indexed(s, x)
    ensures var c := LastFor(s.catalog, CatalogKey, u);
      At(CatalogOf(x.catalog), Some(u)) == if c.Some? then c.value else None
  {
    assert Lookup(x.catalog, u) == LastFor(s.catalog, CatalogKey, u);
  }

  /** With an enrichment record, the status the matrix carries over changes nothing. */
  lemma MatrixStatusIrrelevant(c: Option<CatalogRecord>, e: Enrichment, templates: map<string, Template>)
    requires e.Enrichment?
    ensures SplStatus(c, Some(e), e.splStatus, templates) == SplStatus(c, Some(e), None, templates)
  {
  }

  /** A question's row is active exactly when its joined records are ready and it is not blocked. */
  lemma QuestionActiveIff(m: MatrixRow, catalog: Catalog, enrich: Enrichments, templates: map<string, Template>,
                          blocked: set<string>)
    ensures var c, e := At(catalog, m.mapping.useCase), At(enrich, m.mapping.useCase);
      QuestionRow(m, catalog, enrich, templates, blocked).runtime == "runtime_active"
      <==> DemoReady(c, e, LiveFor(m.hint, c, e), SplStatus(c, e, m.splStatus, templates), m.questionId in blocked)
  {
    var u := m.mapping.useCase;
    var c, e := At(catalog, u), At(enrich, u);
    RuntimeActiveIff(Some(m.questionId), u, c, e, LiveFor(m.hint, c, e), SplStatus(c, e, m.splStatus, templates),
                     m.questionId in blocked);
  }

  /** Readiness in terms of the sources and of the records joined through the indexes. */
  lemma JoinedReadyIff(s: Sources, x: Indexes, hint: Option<string>, u: string, status: Option<string>,
                       enrich: Enrichments, templates: map<string, Template>)
    requires Indexed(s, x) && (u in enrich && enrich[u].Enrichment? ==> status == enrich[u].splStatus)
    ensures var c, e := At(CatalogOf(x.catalog), Some(u)), At(enrich, Some(u));
      DemoReady(c, e, LiveFor(hint, c, e), SplStatus(c, e, status, templates), false)
      <==> ReadyFor(s, hint, u, enrich, templates)
  {
    CatalogAt(s, x, u);
    var c := At(CatalogOf(x.catalog), Some(u));
    if u in enrich && enrich[u].Enrichment? { MatrixStatusIrrelevant(c, enrich[u], templates); }
    if c.Some? && u in enrich { ReadyIff(hint, c.value, enrich[u], templates); }
  }

  /** The row of an entry is active exactly when its question is ready, in terms of the sources. */
  lemma EntryActiveIff(s: Sources, x: Indexes, e: RuntimeEntry, enrich: Enrichments, templates: map<string, Template>,
                       blocked: set<string>)
    requires Indexed(s, x) && Present(e.questionRef)
    ensures var m := RowFor(e, x, StatusOf(enrich));
      QuestionRow(m, CatalogOf(x.catalog), enrich, templates, blocked).runtime == "runtime_active"
      <==> QuestionReady(s, e, enrich, templates, blocked)
  {
    var q, m := e.questionRef.value, RowFor(e, x, StatusOf(enrich));
    var u := m.mapping.useCase;
    QuestionActiveIff(m, CatalogOf(x.catalog), enrich, templates, blocked);
    forall v ensures Defensible(s, q, v) <==> u == Some(v) { ResolveIff(s, x, q, v); }
    if u.Some? { JoinedReadyIff(s, x, e.hint, u.value, m.splStatus, enrich, templates); }
  }

  /** A question has an active row. */
  predicate ActiveIn(rows: seq<Row>, q: string) {
    exists i :: 0 <= i < |rows| && rows[i].questionId == Some(q) && rows[i].runtime == "runtime_active"
  }

  /** Some well-formed entry asks the question and is ready. */
  ghost predicate ReadyIn(s: Sources, entries: seq<Option<RuntimeEntry>>, enrich: Enrichments,
                          templates: map<string, Template>, blocked: set<string>, q: string)
  {
    exists e :: Some(e) in entries && Present(e.questionRef) && e.questionRef.value == q
                && QuestionReady(s, e, enrich, templates, blocked)
  }

  /** Matrix generation and crosswalk in one, from the files as read to the question rows: one row
      per well-formed entry, and a question has an active row exactly if it is ready in the sources. */
  method GenerateQuestionRows(s: Sources, entries: seq<Option<RuntimeEntry>>, enrich: Enrichments,
                              templates: map<string, Template>, blocked: set<string>) returns (rows: seq<Row>)
    ensures |rows| == CountIf(entries, WellFormed)
    ensures forall q :: ActiveIn(rows, q) <==> ReadyIn(s, entries, enrich, templates, blocked, q)
  {
    var x := BuildIndexes(s);
    var ms, warnings := BuildRows(entries, x, StatusOf(enrich));
    rows := BuildQuestionRows(ms, CatalogOf(x.catalog), enrich, templates, blocked);
    SortMembers(QuestionRows(ms, CatalogOf(x.catalog), enrich, templates, blocked), ByKey(QuestionKey));
    QuestionRowsLength(ms, CatalogOf(x.catalog), enrich, templates, blocked);
    MatrixShape(entries, x, StatusOf(enrich));
    forall q ensures ActiveIn(rows, q) <==> ReadyIn(s, entries, enrich, templates, blocked, q) {
      ActiveQuestion(s, x, entries, enrich, templates, blocked, rows, q);
    }
  }

  lemma ActiveQuestion(s: Sources, x: Indexes, entries: seq<Option<RuntimeEntry>>, enrich: Enrichments,
                       templates: map<string, Template>, blocked: set<string>, rows: seq<Row>, q: string)
    requires Indexed(s, x)
    requires var ms := Matrix(entries, x, StatusOf(enrich));
      var raw := QuestionRows(ms, CatalogOf(x.catalog), enrich, templates, blocked);
      forall r :: r in rows <==> r in raw
    ensures ActiveIn(rows, q) <==> ReadyIn(s, entries, enrich, templates, blocked, q)
  {
    if ActiveIn(rows, q) {
      var i :| 0 <= i < |rows| && rows[i].questionId == Some(q) && rows[i].runtime == "runtime_active";
      assert rows[i] in rows;
      var e := ActiveEntry(s, x, entries, enrich, templates, blocked, rows[i]);
    }
    if ReadyIn(s, entries, enrich, templates, blocked, q) {
      var e :| Some(e) in entries && Present(e.questionRef) && e.questionRef.value == q
               && QuestionReady(s, e, enrich, templates, blocked);
      var r := EntryRow(s, x, entries, enrich, templates, blocked, e);
      assert r in rows;
      var i :| 0 <= i < |rows| && rows[i] == r;
    }
  }

  lemma {:induction false} QuestionRowsLength(ms: seq<MatrixRow>, catalog: Catalog, enrich: Enrichments,
                                              templates: map<string, Template>, blocked: set<string>)
    ensures |QuestionRows(ms, catalog, enrich, templates, blocked)| == |ms|
  {
    if ms == [] {
    } else {
      QuestionRowsLength(ms[..|ms| - 1], catalog, enrich, templates, blocked);
    }
  }

  lemma {:induction false} QuestionRowListed(ms: seq<MatrixRow>, catalog: Catalog, enrich: Enrichments,
                                             templates: map<string, Template>, blocked: set<string>, m: MatrixRow)
    requires m in ms
    ensures QuestionRow(m, catalog, enrich, templates, blocked) in QuestionRows(ms, catalog, enrich, templates, blocked)
  {
    var before, last := ms[..|ms| - 1], ms[|ms| - 1];
    assert ms == before + [last];
    if m != last { QuestionRowListed(before, catalog, enrich, templates, blocked, m); }
  }

  /** The entry behind an active row. */
  lemma ActiveEntry(s: Sources, x: Indexes, entries: seq<Option<RuntimeEntry>>, enrich: Enrichments,
                    templates: map<string, Template>, blocked: set<string>, r: Row) returns (e: RuntimeEntry)
    requires Indexed(s, x) && r.runtime == "runtime_active"
    requires r in QuestionRows(Matrix(entries, x, StatusOf(enrich)), CatalogOf(x.catalog), enrich, templates, blocked)
    ensures Some(e) in entries && Present(e.questionRef) && r.questionId == e.questionRef
    ensures QuestionReady(s, e, enrich, templates, blocked)
  {
    var ms := Matrix(entries, x, StatusOf(enrich));
    QuestionRowIs(ms, CatalogOf(x.catalog), enrich, templates, blocked, r);
    var m :| m in ms && r == QuestionRow(m, CatalogOf(x.catalog), enrich, templates, blocked);
    SortMembers(RawRows(entries, x, StatusOf(enrich)), ByKey(QuestionId));
    e := RawRowIs(entries, x, StatusOf(enrich), m);
    EntryActiveIff(s, x, e, enrich, templates, blocked);
  }

  /** The active row of an entry whose question is ready. */
  lemma EntryRow(s: Sources, x: Indexes, entries: seq<Option<RuntimeEntry>>, enrich: Enrichments,
                 templates: map<string, Template>, blocked: set<string>, e: RuntimeEntry) returns (r: Row)
    requires Indexed(s, x) && Some(e) in entries && Present(e.questionRef)
    requires QuestionReady(s, e, enrich, templates, blocked)
    ensures r in QuestionRows(Matrix(entries, x, StatusOf(enrich)), CatalogOf(x.catalog), enrich, templates, blocked)
    ensures r.questionId == e.questionRef && r.runtime == "runtime_active"
  {
    var m := RowFor(e, x, StatusOf(enrich));
    r := QuestionRow(m, CatalogOf(x.catalog), enrich, templates, blocked);
    EntryActiveIff(s, x, e, enrich, templates, blocked);
    RawRowListed(entries, x, StatusOf(enrich), e);
    SortMembers(RawRows(entries, x, StatusOf(enrich)), ByKey(QuestionId));
    QuestionRowListed(Matrix(entries, x, StatusOf(enrich)), CatalogOf(x.catalog), enrich, templates, blocked, m);
  }
}
