/** Resolving each question of the runtime map to a use case, and the coverage matrix built on it.

    A JSON list item that is not an object is `None`; a field that is missing or not text is
    `None`. */
module CoverageMatrix {
  import opened Options
  import opened Ordering

  datatype CatalogRecord = CatalogRecord(useCaseId: Option<string>, template: Option<string>,
                                         primarySkill: Option<string>)
  datatype ManifestRecord = ManifestRecord(questionRef: Option<string>, templateRef: Option<string>)
  datatype RegistryRecord = RegistryRecord(templateId: Option<string>, useCaseId: Option<string>)
  datatype Curated = Curated(useCaseId: Option<string>, confidence: Option<string>)
  datatype RuntimeEntry = RuntimeEntry(questionRef: Option<string>, question: string, hint: Option<string>,
                                       inManifest: bool, readiness: bool)

  predicate Present(t: Option<string>) { t.Some? && t.value != "" }

  // ---------- indexes: the last well-formed record of a key wins ----------

  function LastFor<R>(rs: seq<R>, key: R -> Option<string>, k: string): Option<R> {
    if rs == [] then None
    else if key(rs[|rs| - 1]) == Some(k) then Some(rs[|rs| - 1])
    else LastFor(rs[..|rs| - 1], key, k)
  }

  /** `index[key] = record` over a list agrees with searching the list from its end. */
  method BuildIndex<R>(rs: seq<R>, key: R -> Option<string>) returns (index: map<string, R>)
    ensures forall k :: Lookup(index, k) == LastFor(rs, key, k)
  {
    index := map[];
    for i := 0 to |rs|
      invariant forall k :: Lookup(index, k) == LastFor(rs[..i], key, k)
    {
      assert rs[..i + 1][..i] == rs[..i];
      if key(rs[i]).Some? {
        index := index[key(rs[i]).value := rs[i]];
      }
    }
    assert rs[..|rs|] == rs;
  }

  function Lookup<V>(m: map<string, V>, k: string): Option<V> { if k in m then Some(m[k]) else None }

  function CatalogKey(r: Option<CatalogRecord>): Option<string> {
    if r.Some? && Present(r.value.useCaseId) then r.value.useCaseId else None
  }

  function ManifestKey(r: Option<ManifestRecord>): Option<string> {
    if r.Some? && Present(r.value.templateRef) then r.value.questionRef else None
  }

  function RegistryKey(r: Option<RegistryRecord>): Option<string> {
    if r.Some? && Present(r.value.templateId) && Present(r.value.useCaseId) then r.value.templateId else None
  }

  /** The four sources, as read. */
  datatype Sources = Sources(
    catalog: seq<Option<CatalogRecord>>,
    manifest: seq<Option<ManifestRecord>>,
    registry: seq<Option<RegistryRecord>>,
    curated: map<string, Option<Curated>>)

  type CatalogIndex = map<string, Option<CatalogRecord>>

  /** The inverse indexes built from the sources. */
  datatype Indexes = Indexes(
    catalog: CatalogIndex,
    manifest: map<string, Option<ManifestRecord>>,
    registry: map<string, Option<RegistryRecord>>,
    byTemplate: map<string, set<string>>,
    curated: map<string, Curated>)

  /** The template under which a catalogue use case is filed. */
  function TemplateOf(c: CatalogIndex, u: string): Option<string>
    requires u in c
  {
    if c[u].Some? && Present(c[u].value.template) then c[u].value.template else None
  }

  /** `_index_template_to_use_case`: use cases by default template. */
  method IndexByTemplate(c: CatalogIndex) returns (index: map<string, set<string>>)
    ensures forall t, u :: t in index && u in index[t] <==> u in c && TemplateOf(c, u) == Some(t)
    ensures forall t :: t in index ==> index[t] != {}
  {
    index := map[];
    var rest := c.Keys;
    while rest != {}
      invariant rest <= c.Keys
      invariant forall t, u :: t in index && u in index[t] <==> u in c && u !in rest && TemplateOf(c, u) == Some(t)
      invariant forall t :: t in index ==> index[t] != {}
      decreases rest
    {
      var u :| u in rest;
      var template := TemplateOf(c, u);
      if template.Some? {
        var t := template.value;
        index := index[t := (if t in index then index[t] else {}) + {u}];
      }
      rest := rest - {u};
    }
  }

  ghost predicate Indexed(s: Sources, x: Indexes) {
    && (forall k :: Lookup(x.catalog, k) == LastFor(s.catalog, CatalogKey, k))
    && (forall k :: Lookup(x.manifest, k) == LastFor(s.manifest, ManifestKey, k))
    && (forall k :: Lookup(x.registry, k) == LastFor(s.registry, RegistryKey, k))
    && (forall t, u :: t in x.byTemplate && u in x.byTemplate[t] <==>
          u in x.catalog && TemplateOf(x.catalog, u) == Some(t))
    && (forall t :: t in x.byTemplate ==> x.byTemplate[t] != {})
    && (forall q :: q in x.curated <==> q in s.curated && s.curated[q].Some? && Present(s.curated[q].value.useCaseId))
    && (forall q :: q in x.curated ==> Some(x.curated[q]) == s.curated[q])
  }

  method BuildIndexes(s: Sources) returns (x: Indexes)
    ensures Indexed(s, x)
  {
    var catalog := BuildIndex(s.catalog, CatalogKey);
    var manifest := BuildIndex(s.manifest, ManifestKey);
    var registry := BuildIndex(s.registry, RegistryKey);
    var byTemplate := IndexByTemplate(catalog);
    var curated :=
      map q | q in s.curated && s.curated[q].Some? && Present(s.curated[q].value.useCaseId) :: s.curated[q].value;
    x := Indexes(catalog, manifest, registry, byTemplate, curated);
  }

  // ---------- the resolver ----------

  datatype Status = CuratedManual | MappedFromMetadata | MissingMapping
  datatype Source = CuratedMap | ManifestAndCatalog | ManifestViaRegistry
  datatype Mapping = Mapping(useCase: Option<string>, status: Status, source: Option<Source>,
                             confidence: Option<string>)

  const UNMAPPED := Mapping(None, MissingMapping, None, None)

  /** From the manifest's template: a single catalogue use case, else a registry hop that lands in the catalogue. */
  function ResolveTemplate(t: string, x: Indexes): Mapping {
    if t in x.byTemplate && |x.byTemplate[t]| == 1 then
      Mapping(Some(SortedSet(x.byTemplate[t])[0]), MappedFromMetadata, Some(ManifestAndCatalog), Some("high"))
    else if t in x.registry && x.registry[t].Some? && Present(x.registry[t].value.useCaseId)
            && x.registry[t].value.useCaseId.value in x.catalog then
      Mapping(x.registry[t].value.useCaseId, MappedFromMetadata, Some(ManifestViaRegistry), Some("medium"))
    else UNMAPPED
  }

  /** `_resolve_use_case_id` */
  function Resolve(q: string, x: Indexes): Mapping {
    if q in x.curated then
      var c := x.curated[q];
      var confidence := if Present(c.confidence) then c.confidence else Some("high");
      Mapping(c.useCaseId, CuratedManual, Some(CuratedMap), confidence)
    else if q !in x.manifest || x.manifest[q].None? || !Present(x.manifest[q].value.templateRef) then UNMAPPED
    else ResolveTemplate(x.manifest[q].value.templateRef.value, x)
  }

  // ---------- the same question answered by searching the sources ----------

  ghost predicate CuratedAs(s: Sources, q: string, u: string) {
    q in s.curated && s.curated[q].Some? && s.curated[q].value.useCaseId == Some(u) && u != ""
  }

  ghost predicate IsCurated(s: Sources, q: string) { exists u :: CuratedAs(s, q, u) }

  ghost predicate Templated(s: Sources, q: string, t: string) {
    var r := LastFor(s.manifest, ManifestKey, q);
    r.Some? && r.value.Some? && r.value.value.templateRef == Some(t)
  }

  ghost predicate Listed(s: Sources, u: string) { LastFor(s.catalog, CatalogKey, u).Some? }

  /** The catalogue's record of `u` names `t` as its default template. */
  ghost predicate FiledUnder(s: Sources, u: string, t: string) {
    var r := LastFor(s.catalog, CatalogKey, u);
    t != "" && r.Some? && r.value.Some? && r.value.value.template == Some(t)
  }

  ghost predicate OnlyOneUnder(s: Sources, u: string, t: string) {
    FiledUnder(s, u, t) && forall v :: FiledUnder(s, v, t) ==> v == u
  }

  ghost predicate Registered(s: Sources, t: string, u: string) {
    var r := LastFor(s.registry, RegistryKey, t);
    r.Some? && r.value.Some? && r.value.value.useCaseId == Some(u)
  }

  ghost predicate SupportedBy(s: Sources, u: string, t: string) {
    || OnlyOneUnder(s, u, t)
    || ((forall v :: !OnlyOneUnder(s, v, t)) && Registered(s, t, u) && Listed(s, u))
  }

  /** Use case `u` is defensible for question `q`: curated, or the single use case filed under the
      question's template, or, failing a single one, the registry's use case if the catalogue lists it. */
  ghost predicate Defensible(s: Sources, q: string, u: string) {
    || CuratedAs(s, q, u)
    || (!IsCurated(s, q) && (exists t :: Templated(s, q, t) && SupportedBy(s, u, t)))
  }

  lemma {:induction false} LastForKey<R>(rs: seq<R>, key: R -> Option<string>, k: string)
    ensures LastFor(rs, key, k).Some? ==> LastFor(rs, key, k).value in rs && key(LastFor(rs, key, k).value) == Some(k)
  {
    if rs == [] {
    } else {
      LastForKey(rs[..|rs| - 1], key, k);
    }
  }

  lemma FiledIff(s: Sources, x: Indexes, u: string, t: string)
    requires Indexed(s, x)
    ensures FiledUnder(s, u, t) <==> t in x.byTemplate && u in x.byTemplate[t]
  {
    assert Lookup(x.catalog, u) == LastFor(s.catalog, CatalogKey, u);
  }

  lemma SingleIff(s: Sources, x: Indexes, t: string)
    requires Indexed(s, x)
    ensures forall u :: OnlyOneUnder(s, u, t) <==> t in x.byTemplate && x.byTemplate[t] == {u}
    ensures t in x.byTemplate ==> (|x.byTemplate[t]| == 1 <==> exists u :: x.byTemplate[t] == {u})
  {
    forall u ensures OnlyOneUnder(s, u, t) <==> t in x.byTemplate && x.byTemplate[t] == {u} {
      forall v ensures FiledUnder(s, v, t) <==> t in x.byTemplate && v in x.byTemplate[t] { FiledIff(s, x, v, t); }
    }
    if t in x.byTemplate && |x.byTemplate[t]| == 1 {
      var u :| u in x.byTemplate[t];
      assert |x.byTemplate[t] - {u}| == 0;
      assert x.byTemplate[t] == {u};
    }
  }

  lemma ResolveTemplateIff(s: Sources, x: Indexes, t: string, u: string)
    requires Indexed(s, x)
    ensures ResolveTemplate(t, x).useCase == Some(u) <==> SupportedBy(s, u, t)
  {
    SingleIff(s, x, t);
    assert Lookup(x.registry, t) == LastFor(s.registry, RegistryKey, t);
    LastForKey(s.registry, RegistryKey, t);
    if t in x.byTemplate && |x.byTemplate[t]| == 1 {
      var v :| x.byTemplate[t] == {v};
      assert OnlyOneUnder(s, v, t);
      assert SortedSet({v})[0] in {v};
    } else {
      assert forall v :: !OnlyOneUnder(s, v, t);
      assert Lookup(x.catalog, u) == LastFor(s.catalog, CatalogKey, u);
    }
  }

  /** The resolver finds a use case through its indexes exactly when searching the sources
      finds it defensible, and never any other. */
  lemma ResolveIff(s: Sources, x: Indexes, q: string, u: string)
    requires Indexed(s, x)
    ensures Resolve(q, x).useCase == Some(u) <==> Defensible(s, q, u)
  {
    assert Lookup(x.manifest, q) == LastFor(s.manifest, ManifestKey, q);
    LastForKey(s.manifest, ManifestKey, q);
    if q in x.curated {
      assert CuratedAs(s, q, x.curated[q].useCaseId.value);
    } else {
      assert !IsCurated(s, q);
      if q in x.manifest {
        var t := x.manifest[q].value.templateRef.value;
        assert Templated(s, q, t);
        ResolveTemplateIff(s, x, t, u);
      } else {
        assert forall t :: !Templated(s, q, t);
      }
    }
  }

  /** How a mapping is labelled: curated with its own confidence or high, from the manifest with high
      confidence if a single use case is filed under the template and with medium confidence otherwise,
      or missing exactly when nothing is defensible. */
  lemma ResolveLabels(s: Sources, x: Indexes, q: string)
    requires Indexed(s, x)
    ensures var m := Resolve(q, x);
      && (m.status == CuratedManual <==> IsCurated(s, q))
      && (m.status == MissingMapping <==> forall u :: !Defensible(s, q, u))
      && (m.useCase.None? <==> m.status == MissingMapping)
      && (m.status == CuratedManual ==>
            && q in s.curated && s.curated[q].Some? && m.source == Some(CuratedMap)
            && m.confidence == (if s.curated[q].value.confidence in {None, Some("")} then Some("high")
                                else s.curated[q].value.confidence))
      && (m.status == MappedFromMetadata ==>
            if exists t :: Templated(s, q, t) && OnlyOneUnder(s, m.useCase.value, t)
            then m.source == Some(ManifestAndCatalog) && m.confidence == Some("high")
            else m.source == Some(ManifestViaRegistry) && m.confidence == Some("medium"))
      && (m.status == MissingMapping ==> m.source == None && m.confidence == None)
  {
    var m := Resolve(q, x);
    assert Lookup(x.manifest, q) == LastFor(s.manifest, ManifestKey, q);
    LastForKey(s.manifest, ManifestKey, q);
    forall u ensures m.useCase == Some(u) <==> Defensible(s, q, u) { ResolveIff(s, x, q, u); }
    if q in x.curated {
      assert CuratedAs(s, q, x.curated[q].useCaseId.value);
    } else {
      assert !IsCurated(s, q);
      if m.useCase.Some? {
        var t := x.manifest[q].value.templateRef.value;
        assert Templated(s, q, t);
        SingleIff(s, x, t);
        assert forall r :: Templated(s, q, r) ==> r == t;
      }
    }
  }

  /** A use case that is not in the catalogue can only come from the curated map. */
  lemma UnlistedIsCurated(s: Sources, x: Indexes, q: string)
    requires Indexed(s, x) && Resolve(q, x).useCase.Some?
    ensures Resolve(q, x).useCase.value !in x.catalog ==> Resolve(q, x).status.CuratedManual? && IsCurated(s, q)
    ensures Resolve(q, x).status.MappedFromMetadata? ==> Listed(s, Resolve(q, x).useCase.value)
    ensures Resolve(q, x).useCase.value != ""
  {
    var u := Resolve(q, x).useCase.value;
    ResolveIff(s, x, q, u);
    assert Lookup(x.catalog, u) == LastFor(s.catalog, CatalogKey, u);
    LastForKey(s.catalog, CatalogKey, u);
    if !CuratedAs(s, q, u) {
      var t :| Templated(s, q, t) && SupportedBy(s, u, t);
      FiledIff(s, x, u, t);
    }
  }

  // ---------- the matrix ----------

  datatype MatrixRow = MatrixRow(questionId: string, query: string, mapping: Mapping, hint: Option<string>,
                                 splStatus: Option<string>)

  datatype Warning = NotAnObject | NoQuestionRef | Unmapped(q: string) | NotInCatalog(q: string, u: string)

  /** The template status an enrichment record gives (possibly none); absent without a record. */
  type EnrichedSpl = string -> Option<Option<string>>

  function DeriveSplStatus(e: RuntimeEntry): string {
    if e.inManifest then (if e.readiness then "active" else "planned") else "unavailable"
  }

  predicate WellFormed(e: Option<RuntimeEntry>) { e.Some? && Present(e.value.questionRef) }

  function RowFor(e: RuntimeEntry, x: Indexes, enriched: EnrichedSpl): MatrixRow
    requires Present(e.questionRef)
  {
    var m := Resolve(e.questionRef.value, x);
    var own := if m.useCase.Some? then enriched(m.useCase.value) else None;
    MatrixRow(e.questionRef.value, e.question, m, e.hint, if own.Some? then own.value else Some(DeriveSplStatus(e)))
  }

  /** The template status of a row: what the enrichment record of its use case says, if there is one,
      else active or planned for a manifest entry with or without readiness, else unavailable. */
  lemma RowStatusIs(e: RuntimeEntry, x: Indexes, enriched: EnrichedSpl)
    requires Present(e.questionRef)
    ensures var r, u := RowFor(e, x, enriched), Resolve(e.questionRef.value, x).useCase;
      && r.questionId == e.questionRef.value && r.query == e.question && r.hint == e.hint
      && (u.Some? && enriched(u.value).Some? ==> r.splStatus == enriched(u.value).value)
      && (u.None? || enriched(u.value).None? ==>
            && (r.splStatus == Some("active") <==> e.inManifest && e.readiness)
            && (r.splStatus == Some("planned") <==> e.inManifest && !e.readiness)
            && (r.splStatus == Some("unavailable") <==> !e.inManifest))
  {
    assert "active"[0] == 'a' && "planned"[0] == 'p' && "unavailable"[0] == 'u';
  }

  function WarningsFor(e: Option<RuntimeEntry>, x: Indexes): seq<Warning> {
    if e.None? then [NotAnObject]
    else if !Present(e.value.questionRef) then [NoQuestionRef]
    else
      var q := e.value.questionRef.value;
      var m := Resolve(q, x);
      if m.useCase.None? then [Unmapped(q)]
      else if m.useCase.value !in x.catalog then [NotInCatalog(q, m.useCase.value)]
      else []
  }

  function RawRows(entries: seq<Option<RuntimeEntry>>, x: Indexes, enriched: EnrichedSpl): seq<MatrixRow> {
    if entries == [] then []
    else
      var e := entries[|entries| - 1];
      RawRows(entries[..|entries| - 1], x, enriched) + (if WellFormed(e) then [RowFor(e.value, x, enriched)] else [])
  }

  function RawWarnings(entries: seq<Option<RuntimeEntry>>, x: Indexes): seq<Warning> {
    if entries == [] then [] else RawWarnings(entries[..|entries| - 1], x) + WarningsFor(entries[|entries| - 1], x)
  }

  function QuestionId(r: MatrixRow): string { r.questionId }

  function Matrix(entries: seq<Option<RuntimeEntry>>, x: Indexes, enriched: EnrichedSpl): seq<MatrixRow> {
    SortByKey(RawRows(entries, x, enriched), QuestionId)
  }

  method BuildRows(entries: seq<Option<RuntimeEntry>>, x: Indexes, enriched: EnrichedSpl)
    returns (rows: seq<MatrixRow>, warnings: seq<Warning>)
    ensures rows == Matrix(entries, x, enriched) && warnings == RawWarnings(entries, x)
  {
    rows, warnings := [], [];
    for i := 0 to |entries|
      invariant rows == RawRows(entries[..i], x, enriched) && warnings == RawWarnings(entries[..i], x)
    {
      assert entries[..i + 1][..i] == entries[..i];
      if entries[i].None? {
        warnings := warnings + [NotAnObject];
        continue;
      }
      var entry := entries[i].value;
      if !Present(entry.questionRef) {
        warnings := warnings + [NoQuestionRef];
        continue;
      }
      var q := entry.questionRef.value;
      var m := Resolve(q, x);
      if m.useCase.None? {
        warnings := warnings + [Unmapped(q)];
      } else if m.useCase.value !in x.catalog {
        warnings := warnings + [NotInCatalog(q, m.useCase.value)];
      }
      rows := rows + [RowFor(entry, x, enriched)];
    }
    assert entries[..|entries|] == entries;
    rows := SortByKey(rows, QuestionId);
  }

  /** One row per well-formed entry, in order of question id. */
  lemma {:induction false} MatrixShape(entries: seq<Option<RuntimeEntry>>, x: Indexes, enriched: EnrichedSpl)
    ensures |Matrix(entries, x, enriched)| == CountIf(entries, WellFormed)
    ensures var rows := Matrix(entries, x, enriched);
      forall i, j :: 0 <= i < j < |rows| ==> StrLe(rows[i].questionId, rows[j].questionId)
  {
    SortByKeySorts(RawRows(entries, x, enriched), QuestionId);
    SortMembers(RawRows(entries, x, enriched), ByKey(QuestionId));
    RawRowsLength(entries, x, enriched);
    var rows := Matrix(entries, x, enriched);
    SortByKeyOrdered(RawRows(entries, x, enriched), QuestionId);
    assert forall i :: 0 <= i < |rows| ==> QuestionId(rows[i]) == rows[i].questionId;
  }

  lemma {:induction false} RawRowsLength(entries: seq<Option<RuntimeEntry>>, x: Indexes, enriched: EnrichedSpl)
    ensures |RawRows(entries, x, enriched)| == CountIf(entries, WellFormed)
  {
    if entries == [] {
    } else {
      var before, e := entries[..|entries| - 1], entries[|entries| - 1];
      assert entries == before + [e];
      RawRowsLength(before, x, enriched);
      CountIfConcat(before, [e], WellFormed);
    }
  }

  /** Every row is that of a well-formed entry, and every well-formed entry has its row. */
  lemma {:induction false} RawRowIs(entries: seq<Option<RuntimeEntry>>, x: Indexes, enriched: EnrichedSpl, r: MatrixRow)
    returns (e: RuntimeEntry)
    requires r in RawRows(entries, x, enriched)
    ensures Some(e) in entries && Present(e.questionRef) && r == RowFor(e, x, enriched)
  {
    var before, last := entries[..|entries| - 1], entries[|entries| - 1];
    assert entries == before + [last];
    if r in RawRows(before, x, enriched) {
      e := RawRowIs(before, x, enriched, r);
    } else {
      e := last.value;
    }
  }

  lemma {:induction false} RawRowListed(entries: seq<Option<RuntimeEntry>>, x: Indexes, enriched: EnrichedSpl,
                                        e: RuntimeEntry)
    requires Some(e) in entries && Present(e.questionRef)
    ensures RowFor(e, x, enriched) in RawRows(entries, x, enriched)
  {
    var before, last := entries[..|entries| - 1], entries[|entries| - 1];
    assert entries == before + [last];
    if last != Some(e) { RawRowListed(before, x, enriched, e); }
  }

  /** How often a row is built depends only on how often entries giving it occur. */
  lemma {:induction false} RawRowsCount(entries: seq<Option<RuntimeEntry>>, x: Indexes, enriched: EnrichedSpl,
                                        r: MatrixRow)
    ensures multiset(RawRows(entries, x, enriched))[r] == CountIf(entries, Gives(x, enriched, r))
  {
    if entries == [] {
    } else {
      var before, e := entries[..|entries| - 1], entries[|entries| - 1];
      assert entries == before + [e];
      RawRowsCount(before, x, enriched, r);
      CountIfConcat(before, [e], Gives(x, enriched, r));
    }
  }

  function Gives(x: Indexes, enriched: EnrichedSpl, r: MatrixRow): Option<RuntimeEntry> -> bool {
    (e: Option<RuntimeEntry>) => WellFormed(e) && RowFor(e.value, x, enriched) == r
  }

  /** For distinct question ids the matrix does not depend on the order of the runtime map. */
  lemma MatrixOrderIndependent(entries: seq<Option<RuntimeEntry>>, other: seq<Option<RuntimeEntry>>, x: Indexes,
                               enriched: EnrichedSpl)
    requires multiset(entries) == multiset(other) && DistinctKeys(RawRows(entries, x, enriched), QuestionId)
    ensures Matrix(entries, x, enriched) == Matrix(other, x, enriched)
  {
    var a, b := RawRows(entries, x, enriched), RawRows(other, x, enriched);
    forall r ensures multiset(a)[r] == multiset(b)[r] {
      RawRowsCount(entries, x, enriched, r);
      RawRowsCount(other, x, enriched, r);
      CountIfPermutation(entries, other, Gives(x, enriched, r));
    }
    SortByKeyPermutation(a, b, QuestionId);
  }

  /** The warning that a use case is not in the catalogue fires only for curated questions. */
  lemma {:induction false} CatalogWarningsAreCurated(s: Sources, x: Indexes, entries: seq<Option<RuntimeEntry>>,
                                                     q: string, u: string)
    requires Indexed(s, x) && NotInCatalog(q, u) in RawWarnings(entries, x)
    ensures CuratedAs(s, q, u)
  {
    var before, e := entries[..|entries| - 1], entries[|entries| - 1];
    if NotInCatalog(q, u) in WarningsFor(e, x) {
      UnlistedIsCurated(s, x, q);
      ResolveIff(s, x, q, u);
    } else {
      CatalogWarningsAreCurated(s, x, before, q, u);
    }
  }
}
