/** The integrity gate over the ATLAS nodes table. */
module AtlasNodes {
  import opened Ordering
  import opened PyText

  /** A list cell: not a list literal, or its stripped non-blank items. */
  datatype Cell = Malformed | Refs(refs: seq<string>)

  datatype Node = Node(id: string, entity: string, cells: seq<Cell>)

  function Id(n: Node): string { Strip(n.id) }
  function Entity(n: Node): string { Strip(n.entity) }

  const EXPECTED: map<string, nat> := map["tactic" := 16, "technique" := 170, "casestudy" := 57, "mitigation" := 35]

  predicate DigitAt(s: string, i: nat) { i < |s| && '0' <= s[i] <= '9' }

  /** `^AML\.(T|TA|CS|M)\d` */
  predicate ValidId(s: string) {
    StartsWith(s, "AML.") && |s| >= 4 &&
    ((StartsWith(s[4..], "TA") && DigitAt(s, 6)) || (StartsWith(s[4..], "T") && DigitAt(s, 5))
     || (StartsWith(s[4..], "CS") && DigitAt(s, 6)) || (StartsWith(s[4..], "M") && DigitAt(s, 5)))
  }

  /** `AML.`, the kind, a digit, and anything. */
  ghost predicate OfKind(s: string, kind: string) {
    exists digit, rest :: digit in "0123456789" && s == "AML." + kind + [digit] + rest
  }

  /** A well-formed id is of one of four kinds. */
  lemma ValidIdIs(s: string)
    ensures ValidId(s) <==> OfKind(s, "T") || OfKind(s, "TA") || OfKind(s, "CS") || OfKind(s, "M")
  {
    OfKindIff(s, "T", "AML.");
    OfKindIff(s, "TA", "AML.");
    OfKindIff(s, "CS", "AML.");
    OfKindIff(s, "M", "AML.");
  }

  lemma OfKindIff(s: string, kind: string, aml: string)
    requires aml == "AML."
    ensures OfKind(s, kind) <==>
      StartsWith(s, aml) && |s| >= |aml| && StartsWith(s[|aml|..], kind) && DigitAt(s, |aml| + |kind|)
  {
    if StartsWith(s, aml) && |s| >= |aml| && StartsWith(s[|aml|..], kind) && DigitAt(s, |aml| + |kind|) {
      var n := |aml| + |kind|;
      assert s[..|aml|] == aml && s[|aml|..][..|kind|] == kind;
      assert s == aml + kind + [s[n]] + s[n + 1..];
      IsDigit(s[n]);
    }
    if digit, rest :| digit in "0123456789" && s == "AML." + kind + [digit] + rest {
      var tail := kind + [digit] + rest;
      assert s == aml + tail && s[..|aml|] == aml && s[|aml|..] == tail;
      assert tail[..|kind|] == kind && tail[|kind|] == s[|aml| + |kind|] == digit;
      IsDigit(digit);
    }
  }

  lemma IsDigit(c: char)
    ensures '0' <= c <= '9' <==> c in "0123456789"
  {
    if '0' <= c <= '9' { assert "0123456789"[c as int - '0' as int] == c; }
  }

  function OfEntity(e: string): Node -> bool { (n: Node) => Id(n) != "" && Entity(n) == e }

  predicate SameNode(id: string, e: string, n: Node) { Id(n) == id && Entity(n) == e }

  function Named(id: string, e: string): Node -> bool { (n: Node) => SameNode(id, e, n) }

  predicate GoodCell(c: Cell, ids: set<string>) {
    c.Refs? && forall r :: r in c.refs ==> ValidId(r) && r in ids
  }

  ghost predicate Resolves(rows: seq<Node>, r: string) { r != "" && exists m :: m in rows && Id(m) == r }

  ghost predicate IsIdSet(ids: set<string>, rows: seq<Node>) { forall k :: k in ids <==> Resolves(rows, k) }

  ghost predicate Unrepeated(rows: seq<Node>) { forall id, e :: id != "" ==> CountIf(rows, Named(id, e)) <= 1 }

  ghost predicate CellSound(rows: seq<Node>, c: Cell) {
    c.Refs? && forall r :: r in c.refs ==> ValidId(r) && Resolves(rows, r)
  }

  /** What the gate stands for: expected entity counts, no id twice within an entity, and every
      reference well-formed and resolving. */
  ghost predicate Sound(rows: seq<Node>) {
    && (forall e :: e in EXPECTED ==> CountIf(rows, OfEntity(e)) == EXPECTED[e])
    && Unrepeated(rows)
    && (forall n, c :: n in rows && c in n.cells ==> CellSound(rows, c))
  }

  /** What the first pass knows, at one entity and id. */
  ghost predicate PassedAt(rows: seq<Node>, counts: map<string, nat>, seen: set<(string, string)>, ids: set<string>,
                           e: string, k: string)
  {
    && (if e in counts then counts[e] else 0) == CountIf(rows, OfEntity(e))
    && ((e, k) in seen <==> k != "" && CountIf(rows, Named(k, e)) > 0)
    && (k in ids <==> Resolves(rows, k))
  }

  lemma PassStep(rows: seq<Node>, n: Node, counts: map<string, nat>, seen: set<(string, string)>, ids: set<string>,
                 e: string, k: string)
    requires PassedAt(rows, counts, seen, ids, e, k)
    ensures Id(n) == "" ==> PassedAt(rows + [n], counts, seen, ids, e, k)
    ensures Id(n) != "" ==>
      PassedAt(rows + [n], counts[Entity(n) := (if Entity(n) in counts then counts[Entity(n)] else 0) + 1],
               seen + {(Entity(n), Id(n))}, ids + {Id(n)}, e, k)
    ensures CountIf(rows + [n], Named(k, e))
        == CountIf(rows, Named(k, e)) + (if Id(n) == k && Entity(n) == e then 1 else 0)
  {
    CountIfConcat(rows, [n], OfEntity(e));
    CountIfConcat(rows, [n], Named(k, e));
    if m :| m in rows && Id(m) == k { assert m in rows + [n]; }
    assert n in rows + [n];
    if m :| m in rows + [n] && Id(m) == k { assert m in rows || m == n; }
  }

  /** A row whose entity and id were seen before is what makes the rows repeat an id. */
  lemma RepeatStep(rows: seq<Node>, n: Node)
    ensures Unrepeated(rows + [n])
        <==> Unrepeated(rows) && (Id(n) != "" ==> CountIf(rows, Named(Id(n), Entity(n))) == 0)
  {
    forall id, e
        ensures CountIf(rows + [n], Named(id, e))
        == CountIf(rows, Named(id, e)) + (if Id(n) == id && Entity(n) == e then 1 else 0) {
      CountIfConcat(rows, [n], Named(id, e));
    }
    if Unrepeated(rows + [n]) && Id(n) != "" { assert CountIf(rows + [n], Named(Id(n), Entity(n))) <= 1; }
  }

  function HasId(k: string): Node -> bool { (n: Node) => Id(n) == k }

  ghost function EntitiesOf(rows: seq<Node>, k: string): set<string> {
    set i | 0 <= i < |rows| && Id(rows[i]) == k :: Entity(rows[i])
  }

  /** How many rows with this id are more than one per entity. */
  ghost function Surplus(rows: seq<Node>, k: string): int { CountIf(rows, HasId(k)) - |EntitiesOf(rows, k)| }

  lemma SurplusStep(rows: seq<Node>, n: Node, k: string)
    ensures Surplus(rows + [n], k)
         == Surplus(rows, k) + (if Id(n) == k && CountIf(rows, Named(k, Entity(n))) > 0 then 1 else 0)
  {
    var all := rows + [n];
    CountIfConcat(rows, [n], HasId(k));
    CountIfPositive(rows, Named(k, Entity(n)));
    EntitiesStep(rows, n, k);
    assert Entity(n) in EntitiesOf(rows, k) <==> exists i :: 0 <= i < |rows| && Named(k, Entity(n))(rows[i]);
  }

  lemma EntitiesStep(rows: seq<Node>, n: Node, k: string)
    ensures EntitiesOf(rows + [n], k) == EntitiesOf(rows, k) + (if Id(n) == k then {Entity(n)} else {})
  {
    var all := rows + [n];
    assert all[|rows|] == n && forall i :: 0 <= i < |rows| ==> all[i] == rows[i];
    forall e | e in EntitiesOf(rows, k) ensures e in EntitiesOf(all, k) {
      var i :| 0 <= i < |rows| && Id(rows[i]) == k && Entity(rows[i]) == e;
      assert Id(all[i]) == k && Entity(all[i]) == e;
    }
    if Id(n) == k { assert Id(all[|rows|]) == k && Entity(n) in EntitiesOf(all, k); }
  }

  /** No id repeats within an entity exactly when no id has surplus rows. */
  lemma {:induction false} UnrepeatedIff(rows: seq<Node>)
    ensures forall k :: Surplus(rows, k) >= 0
    ensures Unrepeated(rows) <==> forall k :: k != "" ==> Surplus(rows, k) == 0
  {
    if rows == [] {
      assert forall k :: EntitiesOf(rows, k) == {};
    } else {
      var before, n := rows[..|rows| - 1], rows[|rows| - 1];
      assert rows == before + [n];
      UnrepeatedIff(before);
      RepeatStep(before, n);
      forall k ensures Surplus(rows, k)
          == Surplus(before, k) + (if Id(n) == k && CountIf(before, Named(k, Entity(n))) > 0 then 1 else 0) {
        SurplusStep(before, n, k);
      }
    }
  }

  /** The duplicate table holds, for each id with surplus rows, one more than their number. */
  ghost predicate TabledAt(duplicates: map<string, int>, rows: seq<Node>, k: string) {
    && (k in duplicates <==> k != "" && Surplus(rows, k) > 0)
    && (k in duplicates ==> duplicates[k] == 1 + Surplus(rows, k))
  }

  /** One row of the first pass. */
  method FirstStep(ghost rows: seq<Node>, n: Node, counts: map<string, nat>, seen: set<(string, string)>,
                   ids: set<string>, duplicates: map<string, int>)
    returns (counts': map<string, nat>, seen': set<(string, string)>, ids': set<string>, duplicates': map<string, int>)
    requires forall e, k :: PassedAt(rows, counts, seen, ids, e, k)
    requires forall k :: TabledAt(duplicates, rows, k)
    ensures forall e, k :: PassedAt(rows + [n], counts', seen', ids', e, k)
    ensures forall k :: TabledAt(duplicates', rows + [n], k)
  {
    counts', seen', ids', duplicates' := counts, seen, ids, duplicates;
    var id, entity := Strip(n.id), Strip(n.entity);
    assert PassedAt(rows, counts, seen, ids, entity, id);
    UnrepeatedIff(rows);
    if id != "" {
      ids' := ids + {id};
      counts' := counts[entity := (if entity in counts then counts[entity] else 0) + 1];
      if (entity, id) in seen {
        duplicates' := duplicates[id := (if id in duplicates then duplicates[id] else 1) + 1];
      }
      seen' := seen + {(entity, id)};
    }
    forall e, k ensures PassedAt(rows + [n], counts', seen', ids', e, k) { PassStep(rows, n, counts, seen, ids, e, k); }
    forall k ensures TabledAt(duplicates', rows + [n], k) {
      assert TabledAt(duplicates, rows, k);
      SurplusStep(rows, n, k);
    }
  }

  method FirstPass(rows: seq<Node>) returns (counts: map<string, nat>, duplicates: map<string, int>, ids: set<string>)
    ensures forall e :: (if e in counts then counts[e] else 0) == CountIf(rows, OfEntity(e))
    ensures forall k :: TabledAt(duplicates, rows, k)
    ensures IsIdSet(ids, rows)
  {
    counts, duplicates, ids := map[], map[], {};
    var seen: set<(string, string)> := {};
    assert forall k :: EntitiesOf([], k) == {};
    for i := 0 to |rows|
      invariant forall e, k :: PassedAt(rows[..i], counts, seen, ids, e, k)
      invariant forall k :: TabledAt(duplicates, rows[..i], k)
    {
      assert rows[..i + 1] == rows[..i] + [rows[i]];
      counts, seen, ids, duplicates := FirstStep(rows[..i], rows[i], counts, seen, ids, duplicates);
    }
    assert rows[..|rows|] == rows;
    forall e ensures (if e in counts then counts[e] else 0) == CountIf(rows, OfEntity(e)) {
      assert PassedAt(rows, counts, seen, ids, e, "");
    }
    forall k ensures k in ids <==> Resolves(rows, k) {
      assert PassedAt(rows, counts, seen, ids, "", k);
    }
  }

  /** The second pass counts malformed cells and, in the others, malformed or unresolved references. */
  function BadRefs(refs: seq<string>, ids: set<string>): nat { CountIf(refs, r => !(ValidId(r) && r in ids)) }

  function BadCells(cells: seq<Cell>, ids: set<string>): nat {
    if cells == [] then 0
    else
      var last := cells[|cells| - 1];
      BadCells(cells[..|cells| - 1], ids) + (if last.Malformed? then 1 else BadRefs(last.refs, ids))
  }

  lemma {:induction false} BadCellsZero(cells: seq<Cell>, ids: set<string>)
    ensures BadCells(cells, ids) == 0 <==> forall c :: c in cells ==> GoodCell(c, ids)
  {
    if cells == [] {
    } else {
      var before, last := cells[..|cells| - 1], cells[|cells| - 1];
      assert cells == before + [last];
      BadCellsZero(before, ids);
      if last.Refs? { BadRefsZero(last.refs, ids); }
      assert GoodCell(last, ids) <==> BadCells(cells, ids) == BadCells(before, ids);
      assert forall c :: c in cells <==> c in before || c == last;
    }
  }

  lemma BadRefsZero(refs: seq<string>, ids: set<string>)
    ensures BadRefs(refs, ids) == 0 <==> forall r :: r in refs ==> ValidId(r) && r in ids
  {
    CountIfPositive(refs, r => !(ValidId(r) && r in ids));
  }

  function BadTotal(rows: seq<Node>, ids: set<string>): nat {
    if rows == [] then 0 else BadTotal(rows[..|rows| - 1], ids) + BadCells(rows[|rows| - 1].cells, ids)
  }

  lemma {:induction false} BadTotalZero(rows: seq<Node>, ids: set<string>)
    ensures BadTotal(rows, ids) == 0 <==> forall n, c :: n in rows && c in n.cells ==> GoodCell(c, ids)
  {
    if rows == [] {
    } else {
      var before, last := rows[..|rows| - 1], rows[|rows| - 1];
      assert rows == before + [last];
      BadTotalZero(before, ids);
      BadCellsZero(last.cells, ids);
    }
  }

  method SecondPass(rows: seq<Node>, ids: set<string>) returns (dangling: nat)
    ensures dangling == BadTotal(rows, ids)
  {
    dangling := 0;
    for i := 0 to |rows|
      invariant dangling == BadTotal(rows[..i], ids)
    {
      assert rows[..i + 1][..i] == rows[..i];
      var more := CheckCells(rows[i].cells, ids);
      dangling := dangling + more;
    }
    assert rows[..|rows|] == rows;
  }

  /** The cells of one row: one issue for a malformed cell, else one for each reference that is malformed or,
      if well-formed, does not resolve. */
  method CheckCells(cells: seq<Cell>, ids: set<string>) returns (issues: nat)
    ensures issues == BadCells(cells, ids)
  {
    issues := 0;
    for i := 0 to |cells|
      invariant issues == BadCells(cells[..i], ids)
    {
      assert cells[..i + 1][..i] == cells[..i];
      match cells[i] {
        case Malformed => issues := issues + 1;
        case Refs(refs) =>
          var more := CheckRefs(refs, ids);
          issues := issues + more;
      }
    }
    assert cells[..|cells|] == cells;
  }

  method CheckRefs(refs: seq<string>, ids: set<string>) returns (issues: nat)
    ensures issues == BadRefs(refs, ids)
  {
    issues := 0;
    ghost var bad := (r: string) => !(ValidId(r) && r in ids);
    for i := 0 to |refs|
      invariant issues == CountIf(refs[..i], bad)
    {
      assert refs[..i + 1] == refs[..i] + [refs[i]];
      CountIfConcat(refs[..i], [refs[i]], bad);
      if !ValidId(refs[i]) {
        issues := issues + 1;
        continue;
      }
      if refs[i] !in ids {
        issues := issues + 1;
      }
    }
    assert refs[..|refs|] == refs;
  }

  lemma NoneTabledIff(duplicates: map<string, int>, rows: seq<Node>)
    requires forall k :: TabledAt(duplicates, rows, k)
    ensures duplicates == map[] <==> Unrepeated(rows)
  {
    UnrepeatedIff(rows);
    if !Unrepeated(rows) {
      var k :| k != "" && Surplus(rows, k) != 0;
      assert TabledAt(duplicates, rows, k);
    } else {
      forall k ensures k !in duplicates { assert TabledAt(duplicates, rows, k); }
    }
  }

  /** `analyze`: the gate passes exactly on a sound table. */
  method Analyze(rows: seq<Node>) returns (passed: bool)
    ensures passed <==> Sound(rows)
  {
    var counts, duplicates, ids := FirstPass(rows);
    var dangling := SecondPass(rows, ids);
    var mismatches := set e | e in EXPECTED && (if e in counts then counts[e] else 0) != EXPECTED[e];
    passed := mismatches == {} && duplicates == map[] && dangling == 0;
    BadTotalZero(rows, ids);
    NoneTabledIff(duplicates, rows);
    forall c ensures GoodCell(c, ids) <==> CellSound(rows, c) {}
    assert mismatches == {} <==> forall e :: e in EXPECTED ==> CountIf(rows, OfEntity(e)) == EXPECTED[e] by {
      if e :| e in EXPECTED && CountIf(rows, OfEntity(e)) != EXPECTED[e] { assert e in mismatches; }
    }
  }

  /** What a passing table holds: the four expected counts, over all rows with an id. */
  lemma PassingCounts(rows: seq<Node>)
    requires Sound(rows)
    ensures CountIf(rows, OfEntity("tactic")) == 16 && CountIf(rows, OfEntity("technique")) == 170
    ensures CountIf(rows, OfEntity("casestudy")) == 57 && CountIf(rows, OfEntity("mitigation")) == 35
  {
    assert "tactic" in EXPECTED && "technique" in EXPECTED && "casestudy" in EXPECTED && "mitigation" in EXPECTED;
  }

  /** The verdict does not depend on the order of the rows. */
  lemma SoundOrderIndependent(rows: seq<Node>, other: seq<Node>)
    requires multiset(rows) == multiset(other) && Sound(rows)
    ensures Sound(other)
  {
    SameMembers(rows, other);
    forall e | e in EXPECTED ensures CountIf(other, OfEntity(e)) == EXPECTED[e] {
      CountIfPermutation(rows, other, OfEntity(e));
    }
    forall id, e | id != "" ensures CountIf(other, Named(id, e)) <= 1 { CountIfPermutation(rows, other, Named(id, e)); }
    forall n, c | n in other && c in n.cells ensures CellSound(other, c) {
      assert n in rows && CellSound(rows, c);
      forall r | r in c.refs ensures Resolves(other, r) {
        var m :| m in rows && Id(m) == r;
        assert m in other;
      }
    }
  }
}
