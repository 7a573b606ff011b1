/** Two importers that rewrite the same two knowledge-base files.

    Each replaces the rows carrying its own id prefix: the ATLAS importer puts its rows,
    sorted, before the skill rows; the skill importer appends its rows at the end. */
module KnowledgeImport {
  import opened Options
  import opened Ordering
  import opened PyText

  const ATLAS := "atlas-"
  const SKILL := "skill-enrich-"

  /** The value under a row's id key. */
  datatype Field = Absent | Null | Text(text: string)

  datatype Row = Row(id: Field, docId: string, body: seq<string>)

  /** `str(row.get(key) or "")`, as the ATLAS importer reads an id. */
  function IdOrEmpty(r: Row): (id: string)
    ensures if r.id.Text? then id == r.id.text else id == ""
  {
    match r.id case Text(t) => t case _ => ""
  }

  /** `str(row.get(key, ""))`, as the skill importer reads it. */
  function IdText(r: Row): string {
    match r.id case Absent => "" case Null => "None" case Text(t) => t
  }

  predicate IsAtlas(r: Row) { StartsWith(IdOrEmpty(r), ATLAS) }
  predicate IsSkill(r: Row) { StartsWith(IdText(r), SKILL) }
  predicate IsBase(r: Row) { !IsAtlas(r) && !IsSkill(r) }

  /** Both importers classify a row alike although they read its id differently. */
  lemma PrefixesDisjoint(r: Row)
    ensures !(IsAtlas(r) && IsSkill(r))
    ensures IsSkill(r) <==> StartsWith(IdOrEmpty(r), SKILL)
    ensures IsAtlas(r) <==> r.id.Text? && "atlas-" <= r.id.text
    ensures IsSkill(r) <==> r.id.Text? && "skill-enrich-" <= r.id.text
  {
    assert ATLAS[0] == 'a' && SKILL[0] == 's' && "None"[0] == 'N';
  }

  // ---------- the two merges ----------

  function Sorted(rows: seq<Row>): (r: seq<Row>)
    ensures multiset(r) == multiset(rows)
  {
    SortByKey(rows, IdOrEmpty)
  }

  function WithId(rows: seq<Row>, id: string): seq<Row> { Filter(rows, HasKey(IdOrEmpty, id)) }

  /** The given rows in order of id, those with one id in the order they had. */
  ghost predicate InIdOrder(sorted: seq<Row>, rows: seq<Row>) {
    && (forall i, j :: 0 <= i < j < |sorted| ==> StrLe(IdOrEmpty(sorted[i]), IdOrEmpty(sorted[j])))
    && forall id :: WithId(sorted, id) == WithId(rows, id)
  }

  lemma SortedInIdOrder(rows: seq<Row>)
    ensures InIdOrder(Sorted(rows), rows)
  {
    var sorted := Sorted(rows);
    SortByKeySorts(rows, IdOrEmpty);
    forall i, j | 0 <= i < j < |sorted| ensures StrLe(IdOrEmpty(sorted[i]), IdOrEmpty(sorted[j])) {
      assert ByKey(IdOrEmpty)(sorted[i], sorted[j]);
    }
    forall id ensures WithId(sorted, id) == WithId(rows, id) { SortByKeyStable(rows, IdOrEmpty, id); }
  }

  function AtlasMerged(payload: seq<Row>, news: seq<Row>): seq<Row> {
    Filter(payload, IsBase) + Sorted(news) + Filter(payload, IsSkill)
  }

  /** `_merge` of the ATLAS importer. */
  method MergeAtlas(payload: seq<Row>, news: seq<Row>) returns (r: seq<Row>)
    ensures r == AtlasMerged(payload, news)
    ensures exists sorted ::
      InIdOrder(sorted, news) && r == Filter(payload, IsBase) + sorted + Filter(payload, IsSkill)
  {
    var kept: seq<Row>, tail: seq<Row> := [], [];
    for i := 0 to |payload|
      invariant kept == Filter(payload[..i], IsBase) && tail == Filter(payload[..i], IsSkill)
    {
      var row := payload[i];
      assert payload[..i + 1] == payload[..i] + [row];
      FilterConcat(payload[..i], [row], IsBase);
      FilterConcat(payload[..i], [row], IsSkill);
      PrefixesDisjoint(row);
      if StartsWith(IdOrEmpty(row), ATLAS) {
        continue;
      }
      if StartsWith(IdOrEmpty(row), SKILL) {
        tail := tail + [row];
      } else {
        kept := kept + [row];
      }
    }
    assert payload[..|payload|] == payload;
    var newRowsSorted := SortByKey(news, IdOrEmpty);
    SortedInIdOrder(news);
    r := kept + newRowsSorted + tail;
    assert newRowsSorted == Sorted(news);
  }

  function NotSkill(r: Row): bool { !IsSkill(r) }

  /** `_merge` of the skill importer. */
  function MergeSkill(existing: seq<Row>, generated: seq<Row>): seq<Row> {
    Filter(existing, NotSkill) + generated
  }

  // ---------- generated rows ----------

  datatype Payload = Payload(docs: seq<Row>, entries: seq<Row>)

  datatype CsvRow = CsvRow(entity: string, id: string, name: string, description: string, text: string)

  function Narrative(row: CsvRow): string { Strip(Or(row.description, row.text)) }

  predicate Imported(row: CsvRow) {
    Strip(row.entity) in {"casestudy", "mitigation"} && Strip(row.id) != "" && Narrative(row) != ""
  }

  function AtlasDoc(row: CsvRow): Row {
    var node := Strip(row.id);
    var name := Strip(Or(row.name, node));
    Row(Text(ATLAS + Lower(node) + "-v1"), "", [Strip(row.entity), name])
  }

  function AtlasEntry(row: CsvRow): Row {
    var node := Strip(row.id);
    var name := Strip(Or(row.name, node));
    Row(Text(ATLAS + ReplaceChar(Lower(node), '.', '-') + "-narrative"), ATLAS + Lower(node) + "-v1",
        [Strip(row.entity), name, Prefix(Narrative(row), 900)])
  }

  function AtlasPayload(rows: seq<CsvRow>): Payload {
    if rows == [] then Payload([], [])
    else
      var p := AtlasPayload(rows[..|rows| - 1]);
      var row := rows[|rows| - 1];
      if Imported(row) then Payload(p.docs + [AtlasDoc(row)], p.entries + [AtlasEntry(row)]) else p
  }

  method BuildAtlasPayload(rows: seq<CsvRow>) returns (documents: seq<Row>, entries: seq<Row>)
    ensures Payload(documents, entries) == AtlasPayload(rows)
  {
    documents, entries := [], [];
    for i := 0 to |rows|
      invariant Payload(documents, entries) == AtlasPayload(rows[..i])
    {
      var row := rows[i];
      assert rows[..i + 1][..i] == rows[..i];
      var entity, node := Strip(row.entity), Strip(row.id);
      if entity !in {"casestudy", "mitigation"} {
        continue;
      }
      var name, description := Strip(Or(row.name, node)), Strip(Or(row.description, row.text));
      if node == "" || description == "" {
        continue;
      }
      var docId, slug := ATLAS + Lower(node) + "-v1", ReplaceChar(Lower(node), '.', '-');
      documents := documents + [Row(Text(docId), "", [entity, name])];
      entries := entries + [Row(Text(ATLAS + slug + "-narrative"), docId, [entity, name, Prefix(description, 900)])];
    }
    assert rows[..|rows|] == rows;
  }

  /** A curated enrichment record; an absent list reads as an empty one. */
  datatype SkillRecord = SkillRecord(useCaseId: string, checklist: seq<string>, workflow: seq<string>,
                                     limitations: seq<string>, rules: seq<string>)

  function SkillDoc(u: string): Row { Row(Text(SKILL + u + "-v1"), "", [ReplaceChar(u, '_', ' ')]) }

  function Section(u: string, name: string, items: seq<string>): seq<Row> {
    if items == [] then []
    else [SectionRow(u, name, items)]
  }

  function SkillEntries(u: string, r: SkillRecord): seq<Row> {
    Section(u, "checklist", r.checklist) + Section(u, "workflow", r.workflow)
    + Section(u, "limits", r.limitations) + Section(u, "rules", r.rules)
  }

  function SkillPayload(records: map<string, SkillRecord>, order: seq<string>): Payload
    requires forall k :: k in order ==> k in records
  {
    if order == [] then Payload([], [])
    else
      var k := order[|order| - 1];
      var p := SkillPayload(records, order[..|order| - 1]);
      var r := records[k];
      var u := Or(r.useCaseId, k);
      if r.checklist == [] && r.workflow == [] then p
      else Payload(p.docs + [SkillDoc(u)], p.entries + SkillEntries(u, r))
  }

  lemma SkillPayloadSnoc(records: map<string, SkillRecord>, order: seq<string>, k: string)
    requires k in records && forall q :: q in order ==> q in records
    ensures var p, r := SkillPayload(records, order), records[k];
      SkillPayload(records, order + [k])
      == if r.checklist == [] && r.workflow == [] then p
         else Payload(p.docs + [SkillDoc(Or(r.useCaseId, k))], p.entries + SkillEntries(Or(r.useCaseId, k), r))
  {
    assert (order + [k])[..|order|] == order;
  }

  method BuildSkillPayload(records: map<string, SkillRecord>) returns (docs: seq<Row>, entries: seq<Row>)
    ensures Payload(docs, entries) == SkillPayload(records, SortedSet(records.Keys))
  {
    docs, entries := CollectSkillRows(records, SortedSet(records.Keys));
  }

  /** `_entries_for`: one entry for each section that has items. */
  method EntriesFor(u: string, r: SkillRecord) returns (entries: seq<Row>)
    ensures entries == SkillEntries(u, r)
  {
    var docId, sections := SKILL + u + "-v1", [];
    if r.checklist != [] { sections := sections + [("checklist", r.checklist)]; }
    if r.workflow != [] { sections := sections + [("workflow", r.workflow)]; }
    if r.limitations != [] { sections := sections + [("limits", r.limitations)]; }
    if r.rules != [] { sections := sections + [("rules", r.rules)]; }
    entries := [];
    for i := 0 to |sections|
      invariant |entries| == i
      invariant forall k :: 0 <= k < i ==> entries[k] == SectionRow(u, sections[k].0, sections[k].1)
    {
      entries := entries + [Row(Text(SKILL + u + "-" + sections[i].0), docId, sections[i].1)];
    }
  }

  function SectionRow(u: string, name: string, items: seq<string>): Row {
    Row(Text(SKILL + u + "-" + name), SKILL + u + "-v1", items)
  }

  method CollectSkillRows(records: map<string, SkillRecord>, order: seq<string>)
    returns (docs: seq<Row>, entries: seq<Row>)
    requires forall k :: k in order ==> k in records
    ensures Payload(docs, entries) == SkillPayload(records, order)
  {
    docs, entries := [], [];
    for i := 0 to |order|
      invariant Payload(docs, entries) == SkillPayload(records, order[..i])
    {
      assert order[..i + 1] == order[..i] + [order[i]];
      assert order[i] in order;
      SkillPayloadSnoc(records, order[..i], order[i]);
      var r := records[order[i]];
      var u := Or(r.useCaseId, order[i]);
      if r.checklist == [] && r.workflow == [] {
        continue;
      }
      docs := docs + [Row(Text(SKILL + u + "-v1"), "", [ReplaceChar(u, '_', ' ')])];
      var more := EntriesFor(u, r);
      entries := entries + more;
    }
    assert order[..|order|] == order;
  }

  /** A payload whose rows carry its prefix and whose entries point at its own documents. */
  ghost predicate Own(p: Payload, mine: Row -> bool) {
    && (forall r :: r in p.docs ==> mine(r))
    && (forall r :: r in p.entries ==> mine(r) && exists d :: d in p.docs && d.id == Text(r.docId))
  }

  lemma {:induction false} AtlasPayloadOwn(rows: seq<CsvRow>)
    ensures Own(AtlasPayload(rows), IsAtlas)
  {
    if rows == [] {
    } else {
      var row := rows[|rows| - 1];
      AtlasPayloadOwn(rows[..|rows| - 1]);
      if Imported(row) {
        AtlasRowsOwn(row);
        OwnExtended(AtlasPayload(rows[..|rows| - 1]), AtlasDoc(row), [AtlasEntry(row)], IsAtlas);
      }
    }
  }

  lemma AtlasRowsOwn(row: CsvRow)
    ensures IsAtlas(AtlasDoc(row)) && IsAtlas(AtlasEntry(row)) && AtlasDoc(row).id == Text(AtlasEntry(row).docId)
  {
    var node := Lower(Strip(row.id));
    AtlasId(node, "-v1");
    AtlasId(ReplaceChar(node, '.', '-'), "-narrative");
  }

  lemma AtlasId(middle: string, suffix: string)
    ensures StartsWith(ATLAS + middle + suffix, ATLAS)
  {
    assert ATLAS + middle + suffix == ATLAS + (middle + suffix);
    StartsWithConcat(ATLAS, middle + suffix);
  }

  lemma OwnExtended(p: Payload, d: Row, es: seq<Row>, mine: Row -> bool)
    requires Own(p, mine) && mine(d) && forall e :: e in es ==> mine(e) && d.id == Text(e.docId)
    ensures Own(Payload(p.docs + [d], p.entries + es), mine)
  {
    var q := Payload(p.docs + [d], p.entries + es);
    assert d in q.docs;
    forall r | r in q.entries ensures mine(r) && exists x :: x in q.docs && x.id == Text(r.docId) {
      if r !in es {
        var x :| x in p.docs && x.id == Text(r.docId);
        assert x in q.docs;
      }
    }
  }

  lemma SkillId(suffix: string, docId: string, body: seq<string>)
    ensures IsSkill(Row(Text(SKILL + suffix), docId, body))
  {
    StartsWithConcat(SKILL, suffix);
  }

  lemma SectionOwn(u: string, name: string, items: seq<string>)
    ensures forall e :: e in Section(u, name, items) ==> IsSkill(e) && e.docId == SKILL + u + "-v1"
  {
    assert SKILL + u + "-" + name == SKILL + (u + "-" + name);
    SkillId(u + "-" + name, SKILL + u + "-v1", items);
    forall e | e in Section(u, name, items) ensures IsSkill(e) && e.docId == SKILL + u + "-v1" {
      assert e == Row(Text(SKILL + (u + "-" + name)), SKILL + u + "-v1", items);
    }
  }

  lemma SkillRowsOwn(u: string, r: SkillRecord)
    ensures IsSkill(SkillDoc(u))
    ensures forall e :: e in SkillEntries(u, r) ==> IsSkill(e) && SkillDoc(u).id == Text(e.docId)
  {
    var id := SKILL + u + "-v1";
    assert id == SKILL + (u + "-v1");
    StartsWithConcat(SKILL, u + "-v1");
    SectionOwn(u, "checklist", r.checklist);
    SectionOwn(u, "workflow", r.workflow);
    SectionOwn(u, "limits", r.limitations);
    SectionOwn(u, "rules", r.rules);
  }

  lemma {:induction false} SkillPayloadOwn(records: map<string, SkillRecord>, order: seq<string>)
    requires forall k :: k in order ==> k in records
    ensures Own(SkillPayload(records, order), IsSkill)
  {
    if order == [] {
    } else {
      var k, shorter := order[|order| - 1], order[..|order| - 1];
      SkillPayloadOwn(records, shorter);
      var u, r := Or(records[k].useCaseId, k), records[k];
      SkillRowsOwn(u, r);
      OwnExtended(SkillPayload(records, shorter), SkillDoc(u), SkillEntries(u, r), IsSkill);
    }
  }

  // ---------- one file under any sequence of merges ----------

  datatype Importer = Atlas | Skill

  predicate Carries(i: Importer, r: Row) { if i.Atlas? then IsAtlas(r) else IsSkill(r) }

  /** One importer writing one file, with the rows it generated for it at that time. */
  datatype Write = Write(who: Importer, rows: seq<Row>)

  predicate Tagged(w: Write) { forall r :: r in w.rows ==> Carries(w.who, r) }

  function Merge(w: Write, rows: seq<Row>): seq<Row> {
    match w.who
    case Atlas => AtlasMerged(rows, w.rows)
    case Skill => MergeSkill(rows, w.rows)
  }

  lemma SortedTagged(rows: seq<Row>)
    requires forall r :: r in rows ==> IsAtlas(r)
    ensures forall r :: r in Sorted(rows) ==> IsAtlas(r) && !IsSkill(r) && !IsBase(r)
  {
    SortMembers(rows, ByKey(IdOrEmpty));
    forall r | r in Sorted(rows) ensures !IsSkill(r) { PrefixesDisjoint(r); }
  }

  /** Filtering a file made of a part without skill rows and a part of skill rows only. */
  lemma GroupsOf(front: seq<Row>, back: seq<Row>)
    requires (forall r :: r in front ==> !IsSkill(r)) && (forall r :: r in back ==> IsSkill(r))
    ensures Filter(front + back, IsBase) == Filter(front, IsBase)
    ensures Filter(front + back, NotSkill) == front
    ensures Filter(front + back, IsSkill) == back
  {
    FilterConcat(front, back, IsBase);
    FilterConcat(front, back, NotSkill);
    FilterConcat(front, back, IsSkill);
    FilterAll(front, NotSkill);
    FilterAll(front, IsSkill);
    FilterAll(back, IsSkill);
    FilterAll(back, NotSkill);
    FilterAll(back, IsBase);
    assert front + [] == front && [] + back == back && Filter(front, IsBase) + [] == Filter(front, IsBase);
  }

  /** The part of a merged file before its skill rows, and the skill rows. */
  function Front(w: Write, rows: seq<Row>): seq<Row> {
    if w.who.Atlas? then Filter(rows, IsBase) + Sorted(w.rows) else Filter(rows, NotSkill)
  }

  function Back(w: Write, rows: seq<Row>): seq<Row> { if w.who.Skill? then w.rows else Filter(rows, IsSkill) }

  /** How the groups of a merged file depend on those of the file before. */
  lemma MergeGroups(w: Write, rows: seq<Row>)
    requires Tagged(w)
    ensures var m := Merge(w, rows);
      && m == Front(w, rows) + Back(w, rows)
      && Filter(m, IsBase) == Filter(rows, IsBase)
      && Filter(m, NotSkill) == Front(w, rows)
      && Filter(m, IsSkill) == Back(w, rows)
  {
    FilterMembers(rows, IsBase);
    FilterMembers(rows, NotSkill);
    FilterMembers(rows, IsSkill);
    if w.who.Atlas? { SortedTagged(w.rows); }
    GroupsOf(Front(w, rows), Back(w, rows));
    if w.who.Atlas? {
      FilterConcat(Filter(rows, IsBase), Sorted(w.rows), IsBase);
      FilterAll(Filter(rows, IsBase), IsBase);
      FilterAll(Sorted(w.rows), IsBase);
    } else {
      FilterFilter(rows, IsBase, NotSkill);
    }
  }

  function MergeAll(ws: seq<Write>, rows: seq<Row>): seq<Row> {
    if ws == [] then rows else Merge(ws[|ws| - 1], MergeAll(ws[..|ws| - 1], rows))
  }

  /** The rows of an importer's last write, if it has written. */
  function LastRows(ws: seq<Write>, i: Importer): Option<seq<Row>> {
    if ws == [] then None
    else if ws[|ws| - 1].who == i then Some(ws[|ws| - 1].rows)
    else LastRows(ws[..|ws| - 1], i)
  }

  /** Invariant of any sequence of merges, with whatever rows: base rows never change, and each
      importer's group is what it wrote last. */
  lemma {:induction false} MergeAllGroups(ws: seq<Write>, rows: seq<Row>)
    requires forall w :: w in ws ==> Tagged(w)
    ensures var m, atlas, skill := MergeAll(ws, rows), LastRows(ws, Atlas), LastRows(ws, Skill);
      && Filter(m, IsBase) == Filter(rows, IsBase)
      && (atlas.Some? ==> Filter(m, NotSkill) == Filter(rows, IsBase) + Sorted(atlas.value))
      && (skill.Some? ==> Filter(m, IsSkill) == skill.value)
      && (ws != [] ==> m == Filter(m, NotSkill) + Filter(m, IsSkill))
  {
    if ws == [] {
    } else {
      var last, before := ws[|ws| - 1], ws[..|ws| - 1];
      assert ws == before + [last];
      MergeAllGroups(before, rows);
      MergeGroups(last, MergeAll(before, rows));
    }
  }

  lemma {:induction false} LastRowsTagged(ws: seq<Write>, i: Importer)
    requires forall w :: w in ws ==> Tagged(w)
    ensures LastRows(ws, i).Some? ==> Tagged(Write(i, LastRows(ws, i).value))
  {
    if ws == [] {
    } else {
      assert ws == ws[..|ws| - 1] + [ws[|ws| - 1]];
      LastRowsTagged(ws[..|ws| - 1], i);
    }
  }

  /** The ATLAS rows and the skill rows generated for one file. */
  datatype Generated = Generated(atlas: seq<Row>, skill: seq<Row>)

  function RowsOf(i: Importer, g: Generated): seq<Row> { if i.Atlas? then g.atlas else g.skill }

  function WriteOf(i: Importer, g: Generated): Write { Write(i, RowsOf(i, g)) }

  ghost predicate AllTagged(g: Generated) { forall i :: Tagged(WriteOf(i, g)) }

  /** Untouched rows in their own order, then the ATLAS rows sorted, then the skill rows. */
  function Canonical(rows: seq<Row>, g: Generated): seq<Row> {
    Filter(rows, IsBase) + Sorted(g.atlas) + g.skill
  }

  /** What each importer wrote last. */
  function LastWritten(ws: seq<Write>): Generated
    requires forall i :: LastRows(ws, i).Some?
  {
    Generated(LastRows(ws, Atlas).value, LastRows(ws, Skill).value)
  }

  /** Confluence on one file: once each importer has written, only what each wrote last matters. */
  lemma MergesConverge(ws: seq<Write>, rows: seq<Row>)
    requires (forall w :: w in ws ==> Tagged(w)) && forall i :: LastRows(ws, i).Some?
    ensures MergeAll(ws, rows) == Canonical(rows, LastWritten(ws)) && AllTagged(LastWritten(ws))
  {
    MergeAllGroups(ws, rows);
    LastRowsTagged(ws, Atlas);
    LastRowsTagged(ws, Skill);
    assert LastRows(ws, Atlas).Some? && LastRows(ws, Skill).Some?;
  }

  /** A file is left alone by both importers exactly when it is canonical. */
  lemma CanonicalIsFixed(rows: seq<Row>, g: Generated)
    requires AllTagged(g)
    ensures (forall i :: Merge(WriteOf(i, g), rows) == rows) <==> rows == Canonical(rows, g)
  {
    assert Tagged(WriteOf(Atlas, g)) && Tagged(WriteOf(Skill, g));
    MergeGroups(WriteOf(Atlas, g), rows);
    MergeGroups(WriteOf(Skill, g), rows);
    if forall i :: Merge(WriteOf(i, g), rows) == rows {
      assert Merge(WriteOf(Atlas, g), rows) == rows && Merge(WriteOf(Skill, g), rows) == rows;
    }
    if rows == Canonical(rows, g) {
      SortedTagged(g.atlas);
      FilterMembers(rows, IsBase);
      GroupsOf(Filter(rows, IsBase) + Sorted(g.atlas), g.skill);
      forall i ensures Merge(WriteOf(i, g), rows) == rows { assert i == Atlas || i == Skill; }
    }
  }

  lemma MergeFixesSorted(w: Write, rows: seq<Row>, g: Generated)
    requires Tagged(w) && AllTagged(g)
    ensures var c := Canonical(rows, g);
      Merge(w, c) == c <==> if w.who.Atlas? then Sorted(w.rows) == Sorted(g.atlas) else w.rows == g.skill
  {
    var c, base := Canonical(rows, g), Filter(rows, IsBase);
    assert Tagged(WriteOf(Atlas, g)) && Tagged(WriteOf(Skill, g));
    SortedTagged(g.atlas);
    FilterMembers(rows, IsBase);
    GroupsOf(base + Sorted(g.atlas), g.skill);
    FilterConcat(base, Sorted(g.atlas), IsBase);
    FilterAll(base, IsBase);
    FilterAll(Sorted(g.atlas), IsBase);
    assert base + [] == base;
    MergeGroups(w, c);
    if w.who.Atlas? && Merge(w, c) == c {
      assert base + Sorted(w.rows) == base + Sorted(g.atlas);
      assert (base + Sorted(w.rows))[|base|..] == Sorted(w.rows);
      assert (base + Sorted(g.atlas))[|base|..] == Sorted(g.atlas);
    }
  }

  lemma SortedEqualIff(a: seq<Row>, b: seq<Row>)
    ensures Sorted(a) == Sorted(b) <==> forall id :: WithId(a, id) == WithId(b, id)
  {
    SortByKeyEqualIff(a, b, IdOrEmpty);
    forall id
      ensures WithId(a, id) == Filter(a, HasKey(IdOrEmpty, id)) && WithId(b, id) == Filter(b, HasKey(IdOrEmpty, id)) {}
  }

  /** On a canonical file, a merge with newly generated rows changes nothing exactly when they are
      the rows written last; of ATLAS rows only the order of those with one id counts. */
  lemma MergeFixesIff(w: Write, rows: seq<Row>, g: Generated)
    requires Tagged(w) && AllTagged(g)
    ensures var c := Canonical(rows, g);
      Merge(w, c) == c
      <==> if w.who.Atlas? then forall id :: WithId(w.rows, id) == WithId(g.atlas, id) else w.rows == g.skill
  {
    MergeFixesSorted(w, rows, g);
    SortedEqualIff(w.rows, g.atlas);
  }

  // ---------- the two files, as text ----------

  /** JSON printing and parsing of a list of rows. */
  datatype Json = Json(render: seq<Row> -> string, parse: string -> seq<Row>)

  ghost predicate Faithful(j: Json) { forall rows :: j.parse(j.render(rows)) == rows }

  datatype Disk = Disk(docs: string, entries: string)

  function Rewrite(j: Json, w: Write, text: string): string { j.render(Merge(w, j.parse(text))) }

  /** A run of one importer with what it generates at that time, possibly stopped between its two writes. */
  datatype Event = Run(who: Importer, made: Payload) | Torn(who: Importer, made: Payload)

  function DocsWrite(e: Event): Write { Write(e.who, e.made.docs) }
  function EntriesWrite(e: Event): Write { Write(e.who, e.made.entries) }

  predicate WellTagged(e: Event) { Tagged(DocsWrite(e)) && Tagged(EntriesWrite(e)) }

  function Do(j: Json, e: Event, d: Disk): Disk {
    Disk(Rewrite(j, DocsWrite(e), d.docs), if e.Run? then Rewrite(j, EntriesWrite(e), d.entries) else d.entries)
  }

  function Play(j: Json, events: seq<Event>, d: Disk): Disk {
    if events == [] then d else Do(j, events[|events| - 1], Play(j, events[..|events| - 1], d))
  }

  function DocsWrites(events: seq<Event>): seq<Write> {
    if events == [] then [] else DocsWrites(events[..|events| - 1]) + [DocsWrite(events[|events| - 1])]
  }

  function EntriesWrites(events: seq<Event>): seq<Write> {
    if events == [] then []
    else
      var last := events[|events| - 1];
      EntriesWrites(events[..|events| - 1]) + (if last.Run? then [EntriesWrite(last)] else [])
  }

  function Written(j: Json, ws: seq<Write>, text: string): string {
    if ws == [] then text else j.render(MergeAll(ws, j.parse(text)))
  }

  lemma WrittenNext(j: Json, ws: seq<Write>, w: Write, text: string)
    requires Faithful(j)
    ensures Written(j, ws + [w], text) == Rewrite(j, w, Written(j, ws, text))
  {
    assert (ws + [w])[..|ws|] == ws;
  }

  /** A sequence of runs acts on each file as the sequence of its own writes. */
  lemma {:induction false} PlayFileByFile(j: Json, events: seq<Event>, d: Disk)
    requires Faithful(j)
    ensures Play(j, events, d)
         == Disk(Written(j, DocsWrites(events), d.docs), Written(j, EntriesWrites(events), d.entries))
  {
    if events == [] {
    } else {
      var last, before := events[|events| - 1], events[..|events| - 1];
      PlayFileByFile(j, before, d);
      WrittenNext(j, DocsWrites(before), DocsWrite(last), d.docs);
      WrittenNext(j, EntriesWrites(before), EntriesWrite(last), d.entries);
      if last.Torn? { assert EntriesWrites(before) + [] == EntriesWrites(before); }
    }
  }

  ghost predicate Completes(events: seq<Event>, i: Importer) { exists e :: e in events && e.Run? && e.who == i }

  /** Every importer completes a run at some time, and all generated rows carry their prefix. */
  ghost predicate Complete(events: seq<Event>) {
    (forall e :: e in events ==> WellTagged(e)) && forall i :: Completes(events, i)
  }

  lemma LastRowsSnoc(ws: seq<Write>, w: Write, i: Importer)
    ensures LastRows(ws + [w], i) == if w.who == i then Some(w.rows) else LastRows(ws, i)
  {
    assert (ws + [w])[..|ws|] == ws;
  }

  /** How one more run changes what was written last. */
  lemma LastEvent(events: seq<Event>, i: Importer)
    requires events != []
    ensures var last, before := events[|events| - 1], events[..|events| - 1];
      && LastRows(DocsWrites(events), i)
         == (if last.who == i then Some(last.made.docs) else LastRows(DocsWrites(before), i))
      && LastRows(EntriesWrites(events), i)
         == (if last.Run? && last.who == i then Some(last.made.entries) else LastRows(EntriesWrites(before), i))
  {
    var last, before := events[|events| - 1], events[..|events| - 1];
    LastRowsSnoc(DocsWrites(before), DocsWrite(last), i);
    LastRowsSnoc(EntriesWrites(before), EntriesWrite(last), i);
    assert EntriesWrites(before) + [] == EntriesWrites(before);
  }

  lemma {:induction false} WritesTagged(events: seq<Event>)
    requires forall e :: e in events ==> WellTagged(e)
    ensures forall w :: w in DocsWrites(events) || w in EntriesWrites(events) ==> Tagged(w)
  {
    if events == [] {
    } else {
      var last, before := events[|events| - 1], events[..|events| - 1];
      assert events == before + [last];
      WritesTagged(before);
      assert WellTagged(last);
    }
  }

  lemma {:induction false} CompletesWrites(events: seq<Event>, i: Importer)
    requires Completes(events, i)
    ensures LastRows(DocsWrites(events), i).Some? && LastRows(EntriesWrites(events), i).Some?
  {
    var last, before := events[|events| - 1], events[..|events| - 1];
    assert events == before + [last];
    LastEvent(events, i);
    if !(last.Run? && last.who == i) {
      var e :| e in events && e.Run? && e.who == i;
      assert e in before;
      CompletesWrites(before, i);
    }
  }

  lemma CompleteWrites(events: seq<Event>)
    requires Complete(events)
    ensures forall w :: w in DocsWrites(events) || w in EntriesWrites(events) ==> Tagged(w)
    ensures forall i :: LastRows(DocsWrites(events), i).Some? && LastRows(EntriesWrites(events), i).Some?
  {
    WritesTagged(events);
    forall i ensures LastRows(DocsWrites(events), i).Some? && LastRows(EntriesWrites(events), i).Some? {
      assert Completes(events, i);
      CompletesWrites(events, i);
    }
  }

  /** What is generated for the documents file and for the entries file. */
  datatype Sources = Sources(docs: Generated, entries: Generated)

  ghost predicate SourcesTagged(src: Sources) { AllTagged(src.docs) && AllTagged(src.entries) }

  function CanonicalText(j: Json, text: string, g: Generated): string { j.render(Canonical(j.parse(text), g)) }

  function CanonicalDisk(j: Json, d: Disk, src: Sources): Disk {
    Disk(CanonicalText(j, d.docs, src.docs), CanonicalText(j, d.entries, src.entries))
  }

  /** What each importer wrote last to each file; after a run that stopped half way the two may differ in age. */
  ghost function LastSources(events: seq<Event>): Sources
    requires Complete(events)
  {
    CompleteWrites(events);
    Sources(LastWritten(DocsWrites(events)), LastWritten(EntriesWrites(events)))
  }

  /** Confluence: after any sequence of runs, torn ones included, each with its own generated rows, in
      which each importer completes at least once, the disk depends only on what each wrote last. */
  lemma RunsConverge(j: Json, events: seq<Event>, d: Disk)
    requires Faithful(j) && Complete(events)
    ensures Play(j, events, d) == CanonicalDisk(j, d, LastSources(events)) && SourcesTagged(LastSources(events))
  {
    CompleteWrites(events);
    PlayFileByFile(j, events, d);
    MergesConverge(DocsWrites(events), j.parse(d.docs));
    MergesConverge(EntriesWrites(events), j.parse(d.entries));
    assert LastRows(DocsWrites(events), Atlas).Some? && LastRows(EntriesWrites(events), Atlas).Some?;
  }

  /** After such a sequence the ATLAS rows of a file stand in order of id, those with one id as they
      were generated last; the skill rows are those generated last, and the base rows are untouched. */
  ghost predicate Settled(before: seq<Row>, after: seq<Row>, g: Generated) {
    && after == Filter(after, IsBase) + Filter(after, IsAtlas) + Filter(after, IsSkill)
    && Filter(after, IsBase) == Filter(before, IsBase)
    && InIdOrder(Filter(after, IsAtlas), g.atlas)
    && Filter(after, IsSkill) == g.skill
  }

  lemma CanonicalSettled(rows: seq<Row>, g: Generated)
    requires AllTagged(g)
    ensures Settled(rows, Canonical(rows, g), g)
  {
    var base, sorted := Filter(rows, IsBase), Sorted(g.atlas);
    assert Tagged(WriteOf(Atlas, g)) && Tagged(WriteOf(Skill, g));
    SortedTagged(g.atlas);
    SortedInIdOrder(g.atlas);
    FilterMembers(rows, IsBase);
    forall r | r in g.skill ensures !IsAtlas(r) && !IsBase(r) { PrefixesDisjoint(r); }
    PartsOf(base, sorted, g.skill);
  }

  lemma PartsOf(base: seq<Row>, atlas: seq<Row>, skill: seq<Row>)
    requires forall r :: r in base ==> IsBase(r)
    requires forall r :: r in atlas ==> IsAtlas(r) && !IsBase(r) && !IsSkill(r)
    requires forall r :: r in skill ==> IsSkill(r) && !IsBase(r) && !IsAtlas(r)
    ensures Filter(base + atlas + skill, IsBase) == base
    ensures Filter(base + atlas + skill, IsAtlas) == atlas
    ensures Filter(base + atlas + skill, IsSkill) == skill
  {
    PartsFiltered(base, atlas, skill, IsBase);
    PartsFiltered(base, atlas, skill, IsAtlas);
    PartsFiltered(base, atlas, skill, IsSkill);
    assert forall a: seq<Row> :: [] + a == a && a + [] == a;
    FilterAll(base, IsBase);
    FilterAll(base, IsAtlas);
    FilterAll(base, IsSkill);
    FilterAll(atlas, IsBase);
    FilterAll(atlas, IsAtlas);
    FilterAll(atlas, IsSkill);
    FilterAll(skill, IsBase);
    FilterAll(skill, IsAtlas);
    FilterAll(skill, IsSkill);
  }

  lemma PartsFiltered(a: seq<Row>, b: seq<Row>, c: seq<Row>, p: Row -> bool)
    ensures Filter(a + b + c, p) == Filter(a, p) + Filter(b, p) + Filter(c, p)
  {
    FilterConcat(a + b, c, p);
    FilterConcat(a, b, p);
  }

  lemma RunsSettle(j: Json, events: seq<Event>, d: Disk)
    requires Faithful(j) && Complete(events)
    ensures var p, last := Play(j, events, d), LastSources(events);
      && Settled(j.parse(d.docs), j.parse(p.docs), last.docs)
      && Settled(j.parse(d.entries), j.parse(p.entries), last.entries)
  {
    RunsConverge(j, events, d);
    CanonicalSettled(j.parse(d.docs), LastSources(events).docs);
    CanonicalSettled(j.parse(d.entries), LastSources(events).entries);
  }

  /** What an importer makes of the current sources. */
  function Made(i: Importer, src: Sources): Payload { Payload(RowsOf(i, src.docs), RowsOf(i, src.entries)) }

  lemma {:induction false} SameInputsLast(events: seq<Event>, src: Sources, i: Importer)
    requires forall e :: e in events ==> e.made == Made(e.who, src)
    ensures LastRows(DocsWrites(events), i).Some? ==> LastRows(DocsWrites(events), i).value == RowsOf(i, src.docs)
    ensures LastRows(EntriesWrites(events), i).Some? ==>
              LastRows(EntriesWrites(events), i).value == RowsOf(i, src.entries)
  {
    if events == [] {
    } else {
      var last, before := events[|events| - 1], events[..|events| - 1];
      assert events == before + [last];
      SameInputsLast(before, src, i);
      LastEvent(events, i);
    }
  }

  /** With unchanged sources the disk does not depend on order, repetition or torn runs at all. */
  lemma SameInputsConverge(j: Json, events: seq<Event>, d: Disk, src: Sources)
    requires Faithful(j) && Complete(events) && forall e :: e in events ==> e.made == Made(e.who, src)
    ensures Play(j, events, d) == CanonicalDisk(j, d, src)
  {
    RunsConverge(j, events, d);
    CompleteWrites(events);
    SameInputsLast(events, src, Atlas);
    SameInputsLast(events, src, Skill);
    assert LastRows(DocsWrites(events), Atlas).Some? && LastRows(EntriesWrites(events), Atlas).Some?;
    assert LastRows(DocsWrites(events), Skill).Some? && LastRows(EntriesWrites(events), Skill).Some?;
    assert LastSources(events) == src;
  }

  // ---------- the drift checks ----------

  /** `--check` of one importer. */
  predicate CheckPasses(j: Json, i: Importer, d: Disk, src: Sources) {
    d.docs == Rewrite(j, WriteOf(i, src.docs), d.docs) && d.entries == Rewrite(j, WriteOf(i, src.entries), d.entries)
  }

  lemma FileSettled(j: Json, text: string, g: Generated)
    requires Faithful(j) && AllTagged(g)
    ensures (forall i :: text == Rewrite(j, WriteOf(i, g), text)) <==> text == CanonicalText(j, text, g)
  {
    var rows := j.parse(text);
    CanonicalIsFixed(rows, g);
    if forall i :: text == Rewrite(j, WriteOf(i, g), text) {
      forall i ensures Merge(WriteOf(i, g), rows) == rows { assert text == Rewrite(j, WriteOf(i, g), text); }
      assert text == Rewrite(j, WriteOf(Atlas, g), text);
    }
    if text == CanonicalText(j, text, g) {
      forall i ensures text == Rewrite(j, WriteOf(i, g), text) { assert Merge(WriteOf(i, g), rows) == rows; }
    }
  }

  /** Both drift checks pass exactly on a canonical disk, and there every further run is a no-op. */
  lemma ChecksPassIffCanonical(j: Json, d: Disk, src: Sources)
    requires Faithful(j) && SourcesTagged(src)
    ensures (forall i :: CheckPasses(j, i, d, src)) <==> d == CanonicalDisk(j, d, src)
    ensures d == CanonicalDisk(j, d, src) ==> forall e: Event :: e.made == Made(e.who, src) ==> Do(j, e, d) == d
  {
    FileSettled(j, d.docs, src.docs);
    FileSettled(j, d.entries, src.entries);
    if forall i :: CheckPasses(j, i, d, src) {
      forall i ensures d.docs == Rewrite(j, WriteOf(i, src.docs), d.docs) { assert CheckPasses(j, i, d, src); }
      forall i ensures d.entries == Rewrite(j, WriteOf(i, src.entries), d.entries) { assert CheckPasses(j, i, d, src); }
    }
    if d == CanonicalDisk(j, d, src) {
      forall e: Event | e.made == Made(e.who, src) ensures Do(j, e, d) == d {
        assert d.docs == Rewrite(j, WriteOf(e.who, src.docs), d.docs);
        assert d.entries == Rewrite(j, WriteOf(e.who, src.entries), d.entries);
      }
    }
  }

  /** An importer would write what is there already: for ATLAS rows only the order of rows with one id counts. */
  ghost predicate UpToDate(i: Importer, now: Generated, was: Generated) {
    if i.Atlas? then forall id :: WithId(now.atlas, id) == WithId(was.atlas, id) else now.skill == was.skill
  }

  /** After any such sequence of runs, a drift check passes exactly when its importer would generate
      now, for both files, what it wrote last. */
  lemma CheckPassesIff(j: Json, events: seq<Event>, d: Disk, src: Sources, i: Importer)
    requires Faithful(j) && Complete(events) && SourcesTagged(src)
    ensures CheckPasses(j, i, Play(j, events, d), src) <==>
      UpToDate(i, src.docs, LastSources(events).docs) && UpToDate(i, src.entries, LastSources(events).entries)
  {
    RunsConverge(j, events, d);
    var last := LastSources(events);
    RewriteFixesIff(j, i, d.docs, src.docs, last.docs);
    RewriteFixesIff(j, i, d.entries, src.entries, last.entries);
  }

  lemma RewriteFixesIff(j: Json, i: Importer, text: string, now: Generated, was: Generated)
    requires Faithful(j) && AllTagged(now) && AllTagged(was)
    ensures var c := CanonicalText(j, text, was); c == Rewrite(j, WriteOf(i, now), c) <==> UpToDate(i, now, was)
  {
    var c := Canonical(j.parse(text), was);
    assert Tagged(WriteOf(i, now));
    MergeFixesIff(WriteOf(i, now), j.parse(text), was);
    assert j.parse(j.render(c)) == c;
    var m := Merge(WriteOf(i, now), c);
    assert j.parse(j.render(m)) == m;
  }

  /** So with unchanged sources both checks pass afterwards. */
  lemma ConvergedDiskPasses(j: Json, events: seq<Event>, d: Disk, src: Sources, i: Importer)
    requires Faithful(j) && Complete(events) && SourcesTagged(src)
    requires forall e :: e in events ==> e.made == Made(e.who, src)
    ensures CheckPasses(j, i, Play(j, events, d), src)
  {
    RunsConverge(j, events, d);
    SameInputsConverge(j, events, d, src);
    RewriteFixesIff(j, i, d.docs, src.docs, src.docs);
    RewriteFixesIff(j, i, d.entries, src.entries, src.entries);
  }

  lemma MergeKeepsSettled(i: Importer, g: Generated, w: Write, rows: seq<Row>)
    requires AllTagged(g) && Tagged(w) && Merge(WriteOf(i, g), rows) == rows
    requires w.who == i ==> w.rows == RowsOf(i, g)
    ensures var m := Merge(w, rows); Merge(WriteOf(i, g), m) == m
  {
    var own := WriteOf(i, g);
    assert Tagged(own);
    MergeGroups(own, rows);
    MergeGroups(w, rows);
    MergeGroups(own, Merge(w, rows));
  }

  /** A run of the other importer, whatever it generates, cannot make a passing check fail, nor can a
      run of the importer itself on the same sources. */
  lemma RunKeepsOtherCheck(j: Json, i: Importer, e: Event, d: Disk, src: Sources)
    requires Faithful(j) && SourcesTagged(src) && WellTagged(e) && CheckPasses(j, i, d, src)
    requires e.who == i ==> e.made == Made(i, src)
    ensures CheckPasses(j, i, Do(j, e, d), src)
  {
    CheckSurvives(j, i, src.docs, DocsWrite(e), d.docs);
    if e.Run? { CheckSurvives(j, i, src.entries, EntriesWrite(e), d.entries); }
  }

  lemma CheckSurvives(j: Json, i: Importer, g: Generated, w: Write, text: string)
    requires Faithful(j) && AllTagged(g) && Tagged(w) && text == Rewrite(j, WriteOf(i, g), text)
    requires w.who == i ==> w.rows == RowsOf(i, g)
    ensures Rewrite(j, w, text) == Rewrite(j, WriteOf(i, g), Rewrite(j, w, text))
  {
    var rows := j.parse(text);
    assert Merge(WriteOf(i, g), rows) == rows;
    MergeKeepsSettled(i, g, w, rows);
    assert j.parse(j.render(Merge(w, rows))) == Merge(w, rows);
  }

  /** No run loses, changes or reorders a row of neither importer. */
  lemma BaseRowsKept(j: Json, events: seq<Event>, d: Disk)
    requires Faithful(j) && forall e :: e in events ==> WellTagged(e)
    ensures var p := Play(j, events, d);
      && Filter(j.parse(p.docs), IsBase) == Filter(j.parse(d.docs), IsBase)
      && Filter(j.parse(p.entries), IsBase) == Filter(j.parse(d.entries), IsBase)
  {
    PlayFileByFile(j, events, d);
    WritesTagged(events);
    MergeAllGroups(DocsWrites(events), j.parse(d.docs));
    MergeAllGroups(EntriesWrites(events), j.parse(d.entries));
  }

  // ---------- entries and their documents ----------

  /** The rows carrying an importer's prefix, once it has written a file, are those of its last write. */
  lemma OwnRowsPresent(ws: seq<Write>, i: Importer, rows: seq<Row>)
    requires (forall w :: w in ws ==> Tagged(w)) && LastRows(ws, i).Some?
    ensures forall r :: r in MergeAll(ws, rows) && Carries(i, r) <==> r in LastRows(ws, i).value
  {
    var m, last := MergeAll(ws, rows), LastRows(ws, i).value;
    MergeAllGroups(ws, rows);
    LastRowsTagged(ws, i);
    FilterMembers(m, NotSkill);
    FilterMembers(m, IsSkill);
    FilterMembers(rows, IsBase);
    SortMembers(last, ByKey(IdOrEmpty));
    forall r ensures r in m && Carries(i, r) <==> r in last {
      PrefixesDisjoint(r);
      assert i.Atlas? ==> (r in Filter(m, NotSkill) <==> r in Filter(rows, IsBase) || r in Sorted(last));
    }
  }

  /** Every entry names one of the documents. */
  ghost predicate Resolved(p: Payload) {
    forall e :: e in p.entries ==> exists d :: d in p.docs && d.id == Text(e.docId)
  }

  /** What an importer's rows on the disk are. */
  ghost predicate OnDisk(j: Json, d: Disk, i: Importer, p: Payload) {
    && (forall r :: r in j.parse(d.docs) && Carries(i, r) <==> r in p.docs)
    && (forall r :: r in j.parse(d.entries) && Carries(i, r) <==> r in p.entries)
  }

  /** Once an importer has completed a run, its entries on the disk name documents of its own there
      exactly when those it wrote last name documents it wrote last. */
  lemma EntriesResolveIff(j: Json, events: seq<Event>, d: Disk, i: Importer)
    requires Faithful(j) && (forall e :: e in events ==> WellTagged(e))
    requires LastRows(DocsWrites(events), i).Some? && LastRows(EntriesWrites(events), i).Some?
    ensures OnDisk(j, Play(j, events, d), i,
                   Payload(LastRows(DocsWrites(events), i).value, LastRows(EntriesWrites(events), i).value))
    ensures var p := Play(j, events, d);
      (forall e :: e in j.parse(p.entries) && Carries(i, e) ==>
         exists doc :: doc in j.parse(p.docs) && Carries(i, doc) && doc.id == Text(e.docId))
      <==> Resolved(Payload(LastRows(DocsWrites(events), i).value, LastRows(EntriesWrites(events), i).value))
  {
    PlayFileByFile(j, events, d);
    WritesTagged(events);
    OwnRowsPresent(DocsWrites(events), i, j.parse(d.docs));
    OwnRowsPresent(EntriesWrites(events), i, j.parse(d.entries));
    var p := Payload(LastRows(DocsWrites(events), i).value, LastRows(EntriesWrites(events), i).value);
    SameResolution(j, Play(j, events, d), i, p);
  }

  lemma SameResolution(j: Json, d: Disk, i: Importer, p: Payload)
    requires OnDisk(j, d, i, p)
    ensures (forall e :: e in j.parse(d.entries) && Carries(i, e) ==>
               exists doc :: doc in j.parse(d.docs) && Carries(i, doc) && doc.id == Text(e.docId))
       <==> Resolved(p)
  {
    forall e: Row ensures (exists doc :: doc in j.parse(d.docs) && Carries(i, doc) && doc.id == Text(e.docId))
        <==> exists doc :: doc in p.docs && doc.id == Text(e.docId) {}
  }

  /** An importer's last run, if it was not stopped half way. */
  ghost predicate LastRun(events: seq<Event>, i: Importer, made: Payload) {
    exists k :: 0 <= k < |events| && events[k] == Run(i, made) && forall m :: k < m < |events| ==> events[m].who != i
  }

  lemma {:induction false} LastRunWrites(events: seq<Event>, i: Importer, made: Payload)
    requires LastRun(events, i, made)
    ensures LastRows(DocsWrites(events), i) == Some(made.docs)
    ensures LastRows(EntriesWrites(events), i) == Some(made.entries)
  {
    var last, before := events[|events| - 1], events[..|events| - 1];
    LastEvent(events, i);
    if last.who == i {
      assert last == Run(i, made);
    } else {
      var k :| 0 <= k < |events| && events[k] == Run(i, made) && forall m :: k < m < |events| ==> events[m].who != i;
      assert before[k] == events[k];
      LastRunWrites(before, i, made);
    }
  }

  /** So after a run that was not stopped half way, and until its importer's next one, every entry the
      importer owns names a document that is there. */
  lemma EntriesResolve(j: Json, events: seq<Event>, d: Disk, i: Importer, made: Payload)
    requires Faithful(j) && (forall e :: e in events ==> WellTagged(e))
    requires LastRun(events, i, made) && Own(made, r => Carries(i, r))
    ensures var p := Play(j, events, d);
      forall e :: e in j.parse(p.entries) && Carries(i, e) ==>
        exists doc :: doc in j.parse(p.docs) && Carries(i, doc) && doc.id == Text(e.docId)
  {
    LastRunWrites(events, i, made);
    EntriesResolveIff(j, events, d, i);
  }

  /** A run on changed sources that stops half way leaves entries without their documents. */
  lemma TornRunDangles(j: Json, d: Disk, i: Importer, was: Payload, now: Payload, e: Row)
    requires Faithful(j) && WellTagged(Run(i, was)) && WellTagged(Torn(i, now))
    requires e in was.entries && forall doc :: doc in now.docs ==> doc.id != Text(e.docId)
    ensures var p := Play(j, [Run(i, was), Torn(i, now)], d);
      && e in j.parse(p.entries) && Carries(i, e)
      && forall doc :: doc in j.parse(p.docs) && Carries(i, doc) ==> doc.id != Text(e.docId)
  {
    var first, events := [Run(i, was)], [Run(i, was), Torn(i, now)];
    assert events[..1] == first;
    LastEvent(first, i);
    LastEvent(events, i);
    EntriesResolveIff(j, events, d, i);
  }

  // ---------- the generated payloads meet these assumptions ----------

  /** What the two scripts build from their inputs is tagged and complete, whatever the inputs. */
  lemma GeneratedRuns(csv: seq<CsvRow>, records: map<string, SkillRecord>)
    ensures var made := AtlasPayload(csv); WellTagged(Run(Atlas, made)) && Own(made, r => Carries(Atlas, r))
    ensures var made := SkillPayload(records, SortedSet(records.Keys));
      WellTagged(Run(Skill, made)) && Own(made, r => Carries(Skill, r))
  {
    AtlasPayloadOwn(csv);
    SkillPayloadOwn(records, SortedSet(records.Keys));
    OwnAgree(AtlasPayload(csv), IsAtlas, r => Carries(Atlas, r));
    OwnAgree(SkillPayload(records, SortedSet(records.Keys)), IsSkill, r => Carries(Skill, r));
  }

  lemma OwnAgree(p: Payload, mine: Row -> bool, other: Row -> bool)
    requires Own(p, mine) && forall r :: mine(r) == other(r)
    ensures Own(p, other)
  {
  }
}
