/** The reference-probe baseline: a rendered report whose fenced JSON block is read back, and
    the gate that compares a run with it. */
module ProbeBaseline {
  import opened Options
  import opened Ordering
  import opened PyText

  datatype Value = Null | Str(s: string) | Bool(b: bool) | List(items: seq<string>)

  /** A probe row; `error` is "" when the probe did not fail. */
  datatype Row = Row(id: string, kind: string, error: string, fields: map<string, Value>)

  function Get(r: Row, f: string): Value { if f in r.fields then r.fields[f] else Null }

  const COMPARED: seq<string> := [
    "selected_skill", "answer_mode", "authority_owner", "resource_plan_purposes", "phase_contract", "dispatch_schedule",
    "degrade_reason", "execution_result", "execution_block_reason", "primary_shape", "human_review_type",
    "has_mitre_panel", "has_reference_panel"]

  /** `_normalize`: the compared fields, absent ones as null. */
  function Normalize(r: Row, fields: seq<string>): seq<Value> {
    seq(|fields|, i requires 0 <= i < |fields| => Get(r, fields[i]))
  }

  predicate Agree(a: Row, b: Row) { Normalize(a, COMPARED) == Normalize(b, COMPARED) }

  /** Two rows agree iff they agree on each of the thirteen fields of the contract; other fields do not count. */
  lemma AgreeIff(a: Row, b: Row)
    ensures Agree(a, b) <==> forall f :: f in CONTRACT ==> SameField(a, b, f)
  {
    var x, y := Normalize(a, COMPARED), Normalize(b, COMPARED);
    assert |x| == |COMPARED| == |y|;
    forall i | 0 <= i < |COMPARED| ensures x[i] == y[i] <==> SameField(a, b, COMPARED[i]) {}
    assert Agree(a, b) <==> forall i :: 0 <= i < |COMPARED| ==> SameField(a, b, COMPARED[i]);
    assert |COMPARED| == 13;
    forall f ensures f in CONTRACT <==> f in COMPARED { ContractIs(f); }
    assert (forall i :: 0 <= i < |COMPARED| ==> SameField(a, b, COMPARED[i])) <==>
      forall f :: f in COMPARED ==> SameField(a, b, f);
  }

  const CONTRACT := {
    "selected_skill", "answer_mode", "authority_owner", "resource_plan_purposes", "phase_contract",
    "dispatch_schedule", "degrade_reason", "execution_result", "execution_block_reason", "primary_shape",
    "human_review_type", "has_mitre_panel", "has_reference_panel"}

  lemma ContractIs(f: string)
    ensures f in CONTRACT <==> f in COMPARED
  {
    forall g | g in CONTRACT ensures g in COMPARED {
      assert COMPARED[0] == "selected_skill" && COMPARED[1] == "answer_mode" && COMPARED[2] == "authority_owner";
      assert COMPARED[3] == "resource_plan_purposes" && COMPARED[4] == "phase_contract";
      assert COMPARED[5] == "dispatch_schedule" && COMPARED[6] == "degrade_reason" && COMPARED[7] == "execution_result";
      assert COMPARED[8] == "execution_block_reason" && COMPARED[9] == "primary_shape";
      assert COMPARED[10] == "human_review_type" && COMPARED[11] == "has_mitre_panel";
      assert COMPARED[12] == "has_reference_panel";
    }
  }

  /** A field that is missing counts as null. */
  predicate SameField(a: Row, b: Row, f: string) {
    (if f in a.fields then a.fields[f] else Null) == (if f in b.fields then b.fields[f] else Null)
  }

  function RowId(r: Row): string { r.id }

  // ---------- the gate ----------

  function ById(rows: seq<Row>): map<string, Row> { Keyed(rows, RowId) }

  datatype Line = NotInBaseline(id: string) | Errored(id: string) | Pass(id: string) | Drift(id: string)

  /** What the loop has found in the first rows: they are new, sound and unchanged. */
  ghost predicate MatchedSoFar(rows: seq<Row>, base: map<string, Row>) {
    && DistinctKeys(rows, RowId)
    && forall r :: r in rows ==> r.id in base && r.error == "" && Agree(r, base[r.id])
  }

  ghost function IdsOf(rows: seq<Row>): set<string> { set r | r in rows :: r.id }

  function LineFor(r: Row, first: bool, base: map<string, Row>): Line {
    if r.id !in base || !first then NotInBaseline(r.id)
    else if r.error != "" then Errored(r.id)
    else if Agree(r, base[r.id]) then Pass(r.id) else Drift(r.id)
  }

  /** The report line of the i-th row: the baseline row of an id is used up by its first occurrence. */
  ghost predicate LineAt(line: Line, current: seq<Row>, i: nat, base: map<string, Row>)
    requires i < |current|
  {
    line == LineFor(current[i], current[i].id !in IdsOf(current[..i]), base)
  }

  /** The loop body of `_compare`: `byId` is what is left of the baseline. */
  method CompareRow(row: Row, byId: map<string, Row>) returns (good: bool, line: Line, rest: map<string, Row>)
    ensures rest == byId - {row.id}
    ensures line == LineFor(row, true, byId) && (good <==> line.Pass?)
  {
    good, rest := false, byId - {row.id};
    if row.id !in byId {
      return false, NotInBaseline(row.id), rest;
    }
    var before := byId[row.id];
    if row.error != "" {
      line := Errored(row.id);
    } else if Agree(row, before) {
      good, line := true, Pass(row.id);
    } else {
      line := Drift(row.id);
    }
  }

  /** `_compare` */
  method Compare(current: seq<Row>, baseline: seq<Row>) returns (ok: bool, lines: seq<Line>, missing: set<string>)
    ensures ok <==> GatePasses(current, baseline)
    ensures |lines| == |current| && forall i: nat :: i < |lines| ==> LineAt(lines[i], current, i, ById(baseline))
    ensures missing == ById(baseline).Keys - IdsOf(current)
  {
    var base := ById(baseline);
    var byId := base;
    ok, lines := true, [];
    for i := 0 to |current|
      invariant Compared(current[..i], base, byId, lines, ok)
    {
      var row := current[i];
      assert current[..i + 1] == current[..i] + [row];
      ComparedSnoc(current[..i], row, base, byId, lines, ok);
      var good, line;
      good, line, byId := CompareRow(row, byId);
      lines := lines + [line];
      ok := ok && good;
    }
    assert current[..|current|] == current;
    missing := byId.Keys;
    NothingLeftIff(byId, base, IdsOf(current));
    if ok { MatchedIds(current, base); }
    if missing != {} {
      ok := false;
    }
  }

  /** What the loop knows after the given rows. */
  ghost predicate Compared(rows: seq<Row>, base: map<string, Row>, byId: map<string, Row>, lines: seq<Line>, ok: bool) {
    && |lines| == |rows| && (forall k: nat :: k < |rows| ==> LineAt(lines[k], rows, k, base))
    && byId == base - IdsOf(rows)
    && (ok <==> MatchedSoFar(rows, base))
  }

  lemma ComparedSnoc(rows: seq<Row>, r: Row, base: map<string, Row>, byId: map<string, Row>, lines: seq<Line>, ok: bool)
    requires Compared(rows, base, byId, lines, ok)
    ensures var line := LineFor(r, true, byId);
      Compared(rows + [r], base, byId - {r.id}, lines + [line], ok && line.Pass?)
  {
    var all, line := rows + [r], LineFor(r, true, byId);
    assert IdsOf(all) == IdsOf(rows) + {r.id};
    LeftOver(r, byId, base, IdsOf(rows));
    MatchedSnoc(rows, r, base);
    forall k: nat | k < |all| ensures LineAt((lines + [line])[k], all, k, base) {
      if k < |rows| {
        assert all[..k] == rows[..k] && LineAt(lines[k], rows, k, base);
      } else {
        assert all[..k] == rows;
      }
    }
  }

  lemma NothingLeftIff(byId: map<string, Row>, base: map<string, Row>, used: set<string>)
    requires byId == base - used
    ensures byId.Keys == base.Keys - used
    ensures used <= base.Keys ==> (byId.Keys == {} <==> used == base.Keys)
  {
    if byId.Keys == {} {
      forall k | k in base ensures k in used { assert k !in byId; }
    }
  }

  lemma LeftOver(r: Row, byId: map<string, Row>, base: map<string, Row>, used: set<string>)
    requires byId == base - used
    ensures LineFor(r, true, byId) == LineFor(r, r.id !in used, base)
    ensures LineFor(r, true, byId).Pass? <==> r.id in base && r.id !in used && r.error == "" && Agree(r, base[r.id])
    ensures byId - {r.id} == base - (used + {r.id})
  {
  }

  lemma MatchedIds(rows: seq<Row>, base: map<string, Row>)
    requires MatchedSoFar(rows, base)
    ensures IdsOf(rows) <= base.Keys
  {
  }

  lemma MatchedSnoc(rows: seq<Row>, r: Row, base: map<string, Row>)
    ensures MatchedSoFar(rows + [r], base) <==>
      && MatchedSoFar(rows, base) && r.id in base && r.id !in IdsOf(rows) && r.error == "" && Agree(r, base[r.id])
  {
    var all := rows + [r];
    assert all[|rows|] == r && r in all;
    if MatchedSoFar(all, base) {
      assert forall q :: q in rows ==> q in all;
      assert DistinctKeys(rows, RowId) by { assert forall i :: 0 <= i < |rows| ==> all[i] == rows[i]; }
      forall q | q in rows ensures q.id != r.id {
        var i :| 0 <= i < |rows| && rows[i] == q;
        assert RowId(all[i]) != RowId(all[|rows|]);
      }
    }
    if MatchedSoFar(rows, base) && r.id !in IdsOf(rows) {
      forall i, j | 0 <= i < j < |all| ensures RowId(all[i]) != RowId(all[j]) {
        if j == |rows| { assert rows[i] in rows; }
      }
    }
  }

  /** The gate's verdict: distinct ids, the baseline's ids and no others, no errors, no changed field. */
  ghost predicate GatePasses(current: seq<Row>, baseline: seq<Row>) {
    MatchedSoFar(current, ById(baseline)) && IdsOf(current) == ById(baseline).Keys
  }

  lemma ByIdKeys(rows: seq<Row>)
    ensures ById(rows).Keys == IdsOf(rows)
    ensures forall k :: k in ById(rows) ==> ById(rows)[k] in rows && ById(rows)[k].id == k
  {
    KeyedRows(rows, RowId);
    assert forall k :: (exists r :: r in rows && RowId(r) == k) <==> k in IdsOf(rows);
  }

  /** A run passes against its own rows exactly when its ids are distinct and nothing failed. */
  lemma SelfComparison(rows: seq<Row>)
    ensures GatePasses(rows, rows) <==> DistinctKeys(rows, RowId) && forall r :: r in rows ==> r.error == ""
  {
    ByIdKeys(rows);
    if DistinctKeys(rows, RowId) {
      KeyedFinds(rows, RowId);
      forall r | r in rows ensures r.id in ById(rows) && ById(rows)[r.id] == r { assert RowId(r) == r.id; }
    }
  }

  // ---------- rendering ----------

  function CellOf(v: Value): string {
    match v
    case Null => ""
    case Str(s) => s
    case Bool(b) => if b then "True" else ""
    case List(items) => JoinWith(items, ",")
  }

  function JoinWith(items: seq<string>, sep: string): string {
    if items == [] then "" else if |items| == 1 then items[0] else items[0] + sep + JoinWith(items[1..], sep)
  }

  /** A missing value, a false flag and an empty list are shown as nothing. */
  lemma CellIs(v: Value)
    ensures v.Str? ==> CellOf(v) == v.s
    ensures v in {Null, Bool(false), List([])} ==> CellOf(v) == ""
    ensures v == Bool(true) ==> CellOf(v) == "True"
    ensures v.List? && v.items != [] ==> CellOf(v) == v.items[0] + CommaEach(v.items[1..])
  {
    if v.List? && v.items != [] { JoinIs(v.items); }
  }

  /** Each item with a comma before it. */
  ghost function CommaEach(items: seq<string>): string {
    if items == [] then "" else CommaEach(items[..|items| - 1]) + "," + items[|items| - 1]
  }

  lemma {:induction false} JoinIs(items: seq<string>)
    requires items != []
    ensures JoinWith(items, ",") == items[0] + CommaEach(items[1..])
  {
    if |items| == 1 {
      assert items[1..] == [];
    } else {
      JoinIs(items[1..]);
      CommaFirst(items[1..]);
    }
  }

  lemma {:induction false} CommaFirst(items: seq<string>)
    requires items != []
    ensures CommaEach(items) == "," + items[0] + CommaEach(items[1..])
  {
    var n := |items| - 1;
    if n == 0 {
      assert items[..0] == [] && items[1..] == [];
    } else {
      var front, tail := items[..n], items[1..];
      CommaFirst(front);
      assert front[1..] == tail[..n - 1] && tail[n - 1] == items[n] && front[0] == items[0];
      Reassociated("," + items[0], CommaEach(front[1..]), ",", items[n]);
      assert CommaEach(tail) == CommaEach(front[1..]) + "," + items[n];
    }
  }

  lemma Reassociated(a: string, b: string, c: string, d: string)
    ensures a + b + c + d == a + (b + c + d)
  {
  }

  function Cells(r: Row): seq<string> {
    [r.id, r.kind, CellOf(Get(r, "selected_skill")), CellOf(Get(r, "answer_mode")), CellOf(Get(r, "authority_owner")),
     CellOf(Get(r, "resource_plan_purposes")), CellOf(Get(r, "phase_contract")), CellOf(Get(r, "dispatch_schedule")),
     CellOf(Get(r, "human_review_type")), CellOf(Get(r, "execution_result"))]
  }

  function TableLine(r: Row): string { "| " + JoinWith(Cells(r), " | ") + " |" }

  /** Each line followed by a newline. */
  function Lines(ls: seq<string>): string {
    if ls == [] then "" else Lines(ls[..|ls| - 1]) + ls[|ls| - 1] + "\n"
  }

  function TableLines(rows: seq<Row>): seq<string> {
    if rows == [] then [] else TableLines(rows[..|rows| - 1]) + [TableLine(rows[|rows| - 1])]
  }

  const OPENING := "```json"
  const CLOSING := "\n```"

  /** `_render`: heading lines, the table, further lines, then the JSON block.  The fixed heading
      and closing prose are parameters; only their last characters matter. */
  function Render(heading: seq<string>, rows: seq<Row>, prose: seq<string>, json: string): string {
    Lines(heading + TableLines(rows) + prose) + OPENING + "\n" + json + CLOSING + "\n"
  }

  /** A line of the table. */
  method RenderRow(r: Row) returns (line: string)
    ensures line == TableLine(r)
  {
    var shown := (f: string) => CellOf(if f in r.fields then r.fields[f] else Null);
    var cells := [r.id, r.kind, shown("selected_skill"), shown("answer_mode"), shown("authority_owner"),
                  shown("resource_plan_purposes"), shown("phase_contract"), shown("dispatch_schedule"),
                  shown("human_review_type"), shown("execution_result")];
    assert cells == Cells(r);
    line := "|";
    for i := 0 to |cells|
      invariant line == Barred(cells[..i])
    {
      assert cells[..i + 1][..i] == cells[..i];
      line := line + " " + cells[i] + " |";
    }
    assert cells[..|cells|] == cells;
    BarredIs(cells);
  }

  /** Cells each followed by a bar, after a first bar. */
  ghost function Barred(cells: seq<string>): string {
    if cells == [] then "|" else Barred(cells[..|cells| - 1]) + " " + cells[|cells| - 1] + " |"
  }

  lemma {:induction false} BarredIs(cells: seq<string>)
    requires cells != []
    ensures Barred(cells) == "| " + JoinWith(cells, " | ") + " |"
  {
    var n := |cells| - 1;
    if n == 0 {
      assert cells[..0] == [];
    } else {
      BarredIs(cells[..n]);
      JoinSnoc(cells[..n], cells[n]);
      assert cells == cells[..n] + [cells[n]];
    }
  }

  lemma {:induction false} JoinSnoc(items: seq<string>, last: string)
    requires items != []
    ensures JoinWith(items + [last], " | ") == JoinWith(items, " | ") + " | " + last
  {
    var all := items + [last];
    assert all[1..] == items[1..] + [last];
    if |items| == 1 {
      assert all[1..] == [last] && all[1..][1..] == [];
    } else {
      JoinSnoc(items[1..], last);
    }
  }

  method RenderReport(heading: seq<string>, rows: seq<Row>, prose: seq<string>, json: string) returns (text: string)
    ensures text == Render(heading, rows, prose, json)
  {
    var lines := heading;
    for i := 0 to |rows|
      invariant lines == heading + TableLines(rows[..i])
    {
      assert rows[..i + 1][..i] == rows[..i];
      var line := RenderRow(rows[i]);
      lines := lines + [line];
    }
    assert rows[..|rows|] == rows;
    lines := lines + prose;
    text := Lines(lines) + OPENING + "\n" + json + CLOSING + "\n";
  }

  // ---------- reading the block back ----------

  /** Least position from `k` on where the closing fence stands. */
  function CloseAt(t: string, k: nat): Option<nat>
    requires k <= |t|
    decreases |t| - k
  {
    if StartsWith(t[k..], CLOSING) then Some(k) else if k == |t| then None else CloseAt(t, k + 1)
  }

  /** End of the run of white space from `k` on. */
  function SpaceEnd(t: string, k: nat): (e: nat)
    requires k <= |t|
    ensures k <= e <= |t| && (forall i :: k <= i < e ==> IsSpace(t[i])) && (e < |t| ==> !IsSpace(t[e]))
    decreases |t| - k
  {
    if k < |t| && IsSpace(t[k]) then SpaceEnd(t, k + 1) else k
  }

  /** The block body when the text may start after any newline in `t[lo..j]`, later ones first. */
  function BodyFrom(t: string, lo: nat, j: nat): Option<string>
    requires lo <= j <= |t|
    decreases j
  {
    if j == lo then None
    else if t[j - 1] == '\n' && CloseAt(t, j).Some? then Some(Block(t, j))
    else BodyFrom(t, lo, j - 1)
  }

  function Block(t: string, j: nat): string
    requires j <= |t| && CloseAt(t, j).Some?
  {
    CloseBound(t, j);
    t[j..CloseAt(t, j).value]
  }

  lemma {:induction false} CloseBound(t: string, k: nat)
    requires k <= |t|
    ensures CloseAt(t, k).Some? ==> k <= CloseAt(t, k).value <= |t|
    decreases |t| - k
  {
    if StartsWith(t[k..], CLOSING) || k == |t| {
    } else {
      CloseBound(t, k + 1);
    }
  }

  /** The body of a block whose opening fence stands at `i`: longest white space, shortest body. */
  function BlockAt(t: string, i: nat): Option<string>
    requires i <= |t|
  {
    if i + |OPENING| <= |t| && StartsWith(t[i..], OPENING)
    then BodyFrom(t, i + |OPENING|, SpaceEnd(t, i + |OPENING|))
    else None
  }

  /** The regular expression search: leftmost opening that has a block. */
  function FindAt(t: string, i: nat): (r: Option<nat>)
    requires i <= |t|
    ensures r.Some? ==> i <= r.value <= |t| && BlockAt(t, r.value).Some?
    decreases |t| - i
  {
    if BlockAt(t, i).Some? then Some(i) else if i == |t| then None else FindAt(t, i + 1)
  }

  function FindBlock(t: string): Option<string> {
    var at := FindAt(t, 0);
    if at.None? then None else BlockAt(t, at.value)
  }

  /** `_parse_baseline_rows`; `loads` yields `None` for text that is not JSON or not a list. */
  function Parse(t: string, loads: string -> Option<seq<Row>>): Option<seq<Row>> {
    var body := FindBlock(t);
    if body.None? then None else loads(body.value)
  }

  /** `read_text`: a carriage return, alone or before a newline, reads as one newline. */
  function ReadText(t: string): string
    decreases |t|
  {
    if t == "" then "" else [if t[0] == '\r' then '\n' else t[0]] + ReadText(t[Consumed(t)..])
  }

  /** How many characters read as one. */
  function Consumed(t: string): (k: nat)
    requires t != ""
    ensures 1 <= k <= |t|
  {
    if t[0] == '\r' && |t| > 1 && t[1] == '\n' then 2 else 1
  }

  lemma {:induction false} ReadPlain(t: string)
    requires '\r' !in t
    ensures ReadText(t) == t
  {
    if t == "" {
    } else {
      ReadPlain(t[1..]);
    }
  }

  /** No carriage return at the end of `a` meets a newline at the start of `b`. */
  predicate Apart(a: string, b: string) { a == "" || b == "" || a[|a| - 1] != '\r' || b[0] != '\n' }

  lemma {:induction false} ReadConcat(a: string, b: string)
    requires Apart(a, b)
    ensures ReadText(a + b) == ReadText(a) + ReadText(b)
    decreases |a|
  {
    if a == "" {
      assert a + b == b;
    } else {
      var k := Consumed(a);
      ConsumedConcat(a, b, k);
      ReadConcat(a[k..], b);
      var c := if a[0] == '\r' then '\n' else a[0];
      assert ReadText(a) == [c] + ReadText(a[k..]);
      assert ReadText(a + b) == [c] + ReadText(a[k..] + b);
    }
  }

  lemma ConsumedConcat(a: string, b: string, k: nat)
    requires a != "" && Apart(a, b) && k == Consumed(a)
    ensures Consumed(a + b) == k && (a + b)[0] == a[0] && (a + b)[k..] == a[k..] + b && Apart(a[k..], b)
  {
    if |a| == 1 {
      assert b != "" ==> (a + b)[1] == b[0];
    } else {
      assert (a + b)[1] == a[1];
    }
    assert a[k..] != "" ==> a[k..][|a[k..]| - 1] == a[|a| - 1];
  }

  // ---------- when the search finds the report's own block ----------

  predicate EndsLine(t: string) { t == "" || t[|t| - 1] == '\n' }

  /** An opening fence at `i`, then nothing but white space up to a newline. */
  ghost predicate FencedAt(t: string, i: nat) {
    i + |OPENING| <= |t| && StartsWith(t[i..], OPENING) && BlankUpToNewline(t, i + |OPENING|)
  }

  ghost predicate BlankUpToNewline(t: string, o: nat) {
    exists k :: o <= k < |t| && t[k] == '\n' && forall j :: o <= j < k ==> IsSpace(t[j])
  }

  ghost predicate Fenced(t: string) { exists i: nat :: FencedAt(t, i) }

  /** JSON text as it is printed: it starts with a visible character, holds no raw carriage return,
      and no line of it starts with a fence. */
  ghost predicate Printed(json: string) {
    && json != "" && !IsSpace(json[0]) && '\r' !in json
    && forall k :: 0 <= k <= |json| ==> !StartsWith(json[k..], CLOSING)
  }

  function OwnBlock(json: string): string { OPENING + "\n" + json + CLOSING + "\n" }

  /** An opening that starts in full lines stands in them entirely. */
  lemma OpeningInside(pre: string, rest: string, i: nat)
    requires EndsLine(pre) && i < |pre|
    ensures i + |OPENING| <= |pre + rest| && StartsWith((pre + rest)[i..], OPENING)
       <==> i + |OPENING| < |pre| && StartsWith(pre[i..], OPENING)
  {
    var t, n := pre + rest, |OPENING|;
    StartsWithSlice(t[i..], OPENING);
    StartsWithSlice(pre[i..], OPENING);
    if i + n <= |pre| {
      assert t[i..][..n] == pre[i..][..n];
      if i + n == |pre| { assert pre[i..][..n][n - 1] == '\n'; }
    } else if i + n <= |t| {
      assert t[i..][..n][|pre| - 1 - i] == '\n';
    }
  }

  lemma {:induction false} BodyNeedsNewline(t: string, lo: nat, j: nat)
    requires lo <= j <= |t| && forall k :: lo <= k < j ==> t[k] != '\n'
    ensures BodyFrom(t, lo, j) == None
    decreases j
  {
    if j == lo {
    } else {
      BodyNeedsNewline(t, lo, j - 1);
    }
  }

  /** In full lines without a fence, no block starts, whatever follows them. */
  lemma NoBlockBefore(pre: string, rest: string, i: nat)
    requires EndsLine(pre) && i < |pre| && !FencedAt(pre, i)
    ensures BlockAt(pre + rest, i) == None
  {
    var t, o := pre + rest, i + |OPENING|;
    OpeningInside(pre, rest, i);
    if o < |pre| && StartsWith(pre[i..], OPENING) {
      var e := SpaceEnd(t, o);
      RunHasNewline(pre, rest, o, e);
      BodyNeedsNewline(t, o, e);
    }
  }

  /** A run of white space in full lines that are not blank up to a newline holds no newline. */
  lemma RunHasNewline(pre: string, rest: string, o: nat, e: nat)
    requires EndsLine(pre) && o < |pre| && o <= e <= |pre + rest| && !BlankUpToNewline(pre, o)
    requires forall k :: o <= k < e ==> IsSpace((pre + rest)[k])
    ensures forall k :: o <= k < e ==> (pre + rest)[k] != '\n'
  {
    var t := pre + rest;
    assert forall k :: 0 <= k < |pre| ==> t[k] == pre[k];
    assert pre[|pre| - 1] == '\n';
    assert e >= |pre| ==> BlankUpToNewline(pre, o);
    assert forall k :: o <= k < e && pre[k] == '\n' ==> BlankUpToNewline(pre, o);
  }

  lemma {:induction false} FindSkips(pre: string, rest: string, i: nat)
    requires EndsLine(pre) && !Fenced(pre) && i <= |pre|
    ensures FindAt(pre + rest, i) == FindAt(pre + rest, |pre|)
    decreases |pre| - i
  {
    if i == |pre| {
    } else {
      assert !FencedAt(pre, i);
      NoBlockBefore(pre, rest, i);
      FindSkips(pre, rest, i + 1);
    }
  }

  lemma {:induction false} CloseExists(t: string, k: nat, p: nat)
    requires k <= p <= |t| && StartsWith(t[p..], CLOSING)
    ensures CloseAt(t, k).Some?
    decreases p - k
  {
    if StartsWith(t[k..], CLOSING) {
    } else {
      CloseExists(t, k + 1, p);
    }
  }

  lemma {:induction false} BodyFromNewline(t: string, lo: nat, j: nat, k: nat, p: nat)
    requires lo <= k < j <= p <= |t| && t[k] == '\n' && StartsWith(t[p..], CLOSING)
    ensures BodyFrom(t, lo, j).Some?
    decreases j
  {
    CloseExists(t, j, p);
    if j - 1 == k {
    } else {
      BodyFromNewline(t, lo, j - 1, k, p);
    }
  }

  /** A fence in the lines before the report's own block starts a block of its own. */
  lemma BlockBefore(pre: string, json: string, i: nat)
    requires EndsLine(pre) && FencedAt(pre, i) && i < |pre|
    ensures BlockAt(pre + OwnBlock(json), i).Some?
  {
    var t, o := pre + OwnBlock(json), i + |OPENING|;
    var k :| o <= k < |pre| && pre[k] == '\n' && forall j :: o <= j < k ==> IsSpace(pre[j]);
    OpeningInside(pre, OwnBlock(json), i);
    var e := SpaceEnd(t, o);
    assert forall j :: 0 <= j < |pre| ==> t[j] == pre[j];
    assert forall j :: o <= j <= k ==> IsSpace(t[j]);
    assert e > k;
    var p := |pre| + |OPENING| + 1 + |json|;
    assert t[p..] == CLOSING + "\n";
    StartsWithConcat(CLOSING, "\n");
    assert t[|pre|] == '`' && e <= |pre|;
    BodyFromNewline(t, o, e, k, p);
  }

  lemma {:induction false} FindAtMost(t: string, i: nat, k: nat)
    requires i <= k <= |t| && BlockAt(t, k).Some?
    ensures FindAt(t, i).Some? && FindAt(t, i).value <= k
    decreases k - i
  {
    if BlockAt(t, i).Some? {
    } else {
      FindAtMost(t, i + 1, k);
    }
  }

  lemma ClosingNotInside(json: string, tail: string, k: nat)
    requires Printed(json) && k < |json|
    ensures !StartsWith((json + CLOSING + tail)[k..], CLOSING)
  {
    var t := json + CLOSING + tail;
    StartsWithSlice(t[k..], CLOSING);
    if k + |CLOSING| <= |json| {
      StartsWithSlice(json[k..], CLOSING);
      assert t[k..][..|CLOSING|] == json[k..][..|CLOSING|];
    } else {
      assert t[k..][..|CLOSING|][|json| - k] == '\n';
    }
  }

  lemma {:induction false} CloseFound(pre: string, json: string, tail: string, k: nat)
    requires Printed(json) && k <= |json|
    ensures CloseAt(pre + (json + CLOSING + tail), |pre| + k) == Some(|pre| + |json|)
    decreases |json| - k
  {
    var t, rest := pre + (json + CLOSING + tail), json + CLOSING + tail;
    assert t[|pre| + k..] == rest[k..];
    if k == |json| {
      assert rest[k..] == CLOSING + tail;
      StartsWithConcat(CLOSING, tail);
    } else {
      ClosingNotInside(json, tail, k);
      CloseFound(pre, json, tail, k + 1);
    }
  }

  /** After a fence and one newline, the body is what stands before the closing fence. */
  lemma BodyFound(t: string, before: string, json: string, tail: string)
    requires Printed(json) && before != "" && before[|before| - 1] == '\n'
    requires t == before + (json + CLOSING + tail)
    ensures SpaceEnd(t, |before| - 1) == |before|
    ensures BodyFrom(t, |before| - 1, |before|) == Some(json)
  {
    var o := |before| - 1;
    assert t[o] == '\n' && t[o + 1] == json[0];
    var e := SpaceEnd(t, o);
    assert e < o + 2;
    CloseFound(before, json, tail, 0);
    assert t[o + 1..o + 1 + |json|] == json;
  }

  lemma BlockFound(pre: string, json: string, tail: string)
    requires Printed(json)
    ensures BlockAt(pre + (OPENING + "\n" + json + CLOSING + tail), |pre|) == Some(json)
  {
    var rest := "\n" + json + CLOSING + tail;
    var t := pre + (OPENING + rest);
    var before := pre + OPENING + "\n";
    assert OPENING + "\n" + json + CLOSING + tail == OPENING + rest;
    assert t == before + (json + CLOSING + tail);
    assert t[|pre|..] == OPENING + rest;
    StartsWithConcat(OPENING, rest);
    BodyFound(t, before, json, tail);
  }

  /** The search stops at the report's own block exactly when no fence ends a line before it. */
  lemma OwnBlockIff(pre: string, json: string)
    requires EndsLine(pre) && Printed(json)
    ensures FindAt(pre + OwnBlock(json), 0) == Some(|pre|) <==> !Fenced(pre)
    ensures !Fenced(pre) ==> FindBlock(pre + OwnBlock(json)) == Some(json)
  {
    var t := pre + OwnBlock(json);
    BlockFound(pre, json, "\n");
    if Fenced(pre) {
      var i: nat :| FencedAt(pre, i);
      BlockBefore(pre, json, i);
      FindAtMost(t, 0, i);
    } else {
      FindSkips(pre, OwnBlock(json), 0);
    }
  }

  // ---------- the round trip ----------

  /** What is read back before the report's own block. */
  function ReadLines(heading: seq<string>, rows: seq<Row>, prose: seq<string>): string {
    ReadText(Lines(heading + TableLines(rows) + prose))
  }

  lemma LinesEnd(ls: seq<string>)
    ensures EndsLine(Lines(ls)) && EndsLine(ReadText(Lines(ls)))
  {
    if ls == [] {
    } else {
      var most := Lines(ls[..|ls| - 1]) + ls[|ls| - 1];
      var t := most + "\n";
      assert Lines(ls) == t;
      if most != "" && most[|most| - 1] == '\r' {
        var start := most[..|most| - 1];
        assert t == start + "\r\n" && ReadText("\r\n") == "\n";
        ReadConcat(start, "\r\n");
      } else {
        ReadConcat(most, "\n");
      }
    }
  }

  lemma ReadReport(heading: seq<string>, rows: seq<Row>, prose: seq<string>, json: string)
    requires Printed(json)
    ensures ReadText(Render(heading, rows, prose, json)) == ReadLines(heading, rows, prose) + OwnBlock(json)
  {
    var pre := Lines(heading + TableLines(rows) + prose);
    RenderIs(heading, rows, prose, json);
    ReadConcat(pre, OwnBlock(json));
    ReadPlain(OwnBlock(json));
  }

  /** Reading a report file gives back its rows, provided no line read back before the block ends
      in an opening fence; and exactly then the search stops at the report's own block. */
  lemma ParseRendered(heading: seq<string>, rows: seq<Row>, prose: seq<string>,
                      dumps: seq<Row> -> string, loads: string -> Option<seq<Row>>)
    requires Printed(dumps(rows)) && loads(dumps(rows)) == Some(rows)
    ensures var pre, text := ReadLines(heading, rows, prose), ReadText(Render(heading, rows, prose, dumps(rows)));
      && (FindAt(text, 0) == Some(|pre|) <==> !Fenced(pre))
      && (!Fenced(pre) ==> Parse(text, loads) == Some(rows))
  {
    LinesEnd(heading + TableLines(rows) + prose);
    ReadReport(heading, rows, prose, dumps(rows));
    OwnBlockIff(ReadLines(heading, rows, prose), dumps(rows));
  }

  /** Updating the baseline and then checking the same run.  If no line read back before the block
      ends in an opening fence, the check passes exactly when the run has distinct ids and no failed
      probe; otherwise what is compared is an earlier block. */
  lemma UpdateThenCheck(heading: seq<string>, rows: seq<Row>, prose: seq<string>,
                        dumps: seq<Row> -> string, loads: string -> Option<seq<Row>>)
    requires Printed(dumps(rows)) && loads(dumps(rows)) == Some(rows)
    ensures var pre, text := ReadLines(heading, rows, prose), ReadText(Render(heading, rows, prose, dumps(rows)));
      var read := Parse(text, loads);
      if Fenced(pre) then
        var at := FindAt(text, 0);
        at.Some? && at.value < |pre| && read == loads(BlockAt(text, at.value).value)
      else (read.Some? && GatePasses(rows, read.value)) <==>
        DistinctKeys(rows, RowId) && forall r :: r in rows ==> r.error == ""
  {
    var pre := ReadLines(heading, rows, prose);
    ParseRendered(heading, rows, prose, dumps, loads);
    SelfComparison(rows);
    if Fenced(pre) {
      LinesEnd(heading + TableLines(rows) + prose);
      ReadReport(heading, rows, prose, dumps(rows));
      EarlierBlock(pre, dumps(rows));
    }
  }

  /** A fence in the lines before the report's own block makes the search stop there. */
  lemma EarlierBlock(pre: string, json: string)
    requires EndsLine(pre) && Fenced(pre)
    ensures var at := FindAt(pre + OwnBlock(json), 0); at.Some? && at.value < |pre|
  {
    var i: nat :| FencedAt(pre, i);
    BlockBefore(pre, json, i);
    FindAtMost(pre + OwnBlock(json), 0, i);
  }

  // ---------- one-line cells do no harm, carriage returns may ----------

  predicate OneLine(t: string) { '\n' !in t && '\r' !in t }

  /** A line on which no opening fence can be followed by white space only. */
  predicate SafeLine(l: string) {
    OneLine(l) && (l == "" || (!IsSpace(l[|l| - 1]) && l[|l| - 1] != 'n'))
  }

  predicate OneLineCells(r: Row) { forall c :: c in Cells(r) ==> OneLine(c) }

  /** Full lines without carriage returns, none of which ends in white space or in an 'n'. */
  ghost predicate SafeText(t: string) {
    && EndsLine(t) && '\r' !in t
    && forall p :: 0 < p < |t| && t[p] == '\n' && t[p - 1] != '\n' ==> !IsSpace(t[p - 1]) && t[p - 1] != 'n'
  }

  lemma {:induction false} LinesSafe(ls: seq<string>)
    requires forall l :: l in ls ==> SafeLine(l)
    ensures SafeText(Lines(ls))
  {
    if ls == [] {
    } else {
      var before, l := Lines(ls[..|ls| - 1]), ls[|ls| - 1];
      LinesSafe(ls[..|ls| - 1]);
      var t := before + l + "\n";
      assert l in ls;
      forall p | |before| <= p < |t| - 1 ensures t[p] == l[p - |before|] && t[p] != '\n' { assert t[p] in l; }
      forall p | 0 < p < |t| && t[p] == '\n' && t[p - 1] != '\n' ensures !IsSpace(t[p - 1]) && t[p - 1] != 'n' {
        if p == |t| - 1 && l != "" { assert t[p - 1] == l[|l| - 1]; }
      }
    }
  }

  lemma {:induction false} JoinOneLine(items: seq<string>, sep: string)
    requires OneLine(sep) && forall c :: c in items ==> OneLine(c)
    ensures OneLine(JoinWith(items, sep))
  {
    if items == [] {
    } else if |items| == 1 {
      assert items[0] in items;
    } else {
      assert items[0] in items;
      JoinOneLine(items[1..], sep);
    }
  }

  lemma {:induction false} TableLinesSafe(rows: seq<Row>)
    requires forall r :: r in rows ==> OneLineCells(r)
    ensures forall l :: l in TableLines(rows) ==> SafeLine(l)
  {
    if rows == [] {
    } else {
      var r := rows[|rows| - 1];
      assert r in rows;
      TableLinesSafe(rows[..|rows| - 1]);
      JoinOneLine(Cells(r), " | ");
      var l := TableLine(r);
      assert l[|l| - 1] == '|';
    }
  }

  /** White space after an opening fence cannot reach the end of a safe line. */
  lemma {:induction false} SafeRun(t: string, o: nat, k: nat)
    requires SafeText(t) && 0 < o <= k < |t| && t[o - 1] == 'n' && forall j :: o <= j < k ==> IsSpace(t[j])
    ensures t[k] != '\n'
    decreases k
  {
    if k == o {
    } else {
      SafeRun(t, o, k - 1);
    }
  }

  lemma SafeNotFenced(t: string)
    requires SafeText(t)
    ensures !Fenced(t)
  {
    forall i: nat | i + |OPENING| <= |t| && StartsWith(t[i..], OPENING) ensures !BlankUpToNewline(t, i + |OPENING|) {
      var o := i + |OPENING|;
      StartsWithSlice(t[i..], OPENING);
      assert t[o - 1] == t[i..][..|OPENING|][|OPENING| - 1] == 'n';
      forall k | o <= k < |t| && forall j :: o <= j < k ==> IsSpace(t[j]) ensures t[k] != '\n' { SafeRun(t, o, k); }
    }
  }

  /** With one-line cells nothing is fenced before the block, even if cells hold fences. */
  lemma OneLineCellsUnfenced(heading: seq<string>, rows: seq<Row>, prose: seq<string>)
    requires forall l :: l in heading || l in prose ==> SafeLine(l)
    requires forall r :: r in rows ==> OneLineCells(r)
    ensures !Fenced(ReadLines(heading, rows, prose))
  {
    TableLinesSafe(rows);
    LinesSafe(heading + TableLines(rows) + prose);
    ReadPlain(Lines(heading + TableLines(rows) + prose));
    SafeNotFenced(Lines(heading + TableLines(rows) + prose));
  }

  const HIJACK := "```json\r[]\r```"

  /** A report whose only row has such an id is read back as the empty list, whatever it holds. */
  lemma CarriageReturnHijacks(heading: seq<string>, r: Row, prose: seq<string>, json: string,
                              loads: string -> Option<seq<Row>>)
    requires (forall l :: l in heading ==> SafeLine(l)) && r.id == HIJACK
    ensures Parse(ReadText(Render(heading, [r], prose, json)), loads) == loads("[]")
  {
    var tail := HijackedTail(heading, r, prose, json);
    LinesSafe(heading);
    ReadHijacked(Lines(heading), tail);
    FirstBlock(Lines(heading), "[]", ReadText(tail));
  }

  lemma ReadHijacked(head: string, tail: string)
    requires SafeText(head) && tail != "" && tail[0] == ' '
    ensures ReadText(head + ("| " + HIJACK + tail))
         == head + ("| " + (OPENING + "\n" + "[]" + CLOSING + ReadText(tail)))
  {
    ReadPlain(head);
    ReadConcat(head, "| " + HIJACK + tail);
    ReadHijack(tail);
  }

  lemma FirstBlock(head: string, json: string, tail: string)
    requires SafeText(head) && Printed(json)
    ensures FindBlock(head + ("| " + (OPENING + "\n" + json + CLOSING + tail))) == Some(json)
  {
    SafeNotFenced(head);
    FindSkips(head, "| " + (OPENING + "\n" + json + CLOSING + tail), 0);
    BarThenBlock(head, json, tail);
  }

  lemma {:induction false} LinesConcat(a: seq<string>, b: seq<string>)
    ensures Lines(a + b) == Lines(a) + Lines(b)
  {
    if b == [] {
      assert a + b == a && Lines(a) + "" == Lines(a);
    } else {
      assert (a + b)[..|a + b| - 1] == a + b[..|b| - 1];
      LinesConcat(a, b[..|b| - 1]);
    }
  }

  lemma FirstCell(r: Row)
    ensures |Cells(r)| > 1 && Cells(r)[0] == r.id
    ensures exists cells :: TableLine(r) == ("| " + r.id) + (" " + cells)
  {
    var items := Cells(r);
    var rest := JoinWith(items[1..], " | ");
    assert JoinWith(items, " | ") == items[0] + " | " + rest;
    var cells := "| " + rest + " |";
    assert TableLine(r) == ("| " + r.id) + (" " + cells);
  }

  lemma LinesOne(l: string)
    ensures Lines([l]) == l + "\n"
  {
    assert [l][..0] == [] && Lines([]) == "";
  }

  /** The report of one row, from its first cell on. */
  lemma HijackedTail(heading: seq<string>, r: Row, prose: seq<string>, json: string) returns (tail: string)
    ensures Render(heading, [r], prose, json) == Lines(heading) + ("| " + r.id + tail)
    ensures tail != "" && tail[0] == ' '
  {
    FirstCell(r);
    var cells :| TableLine(r) == ("| " + r.id) + (" " + cells);
    var line := TableLine(r);
    assert TableLines([r]) == [line] by { assert [r][..0] == [] && TableLines([]) == []; }
    var after := Lines(prose) + OwnBlock(json);
    tail := " " + cells + "\n" + after;
    LinesAround(heading, line, prose);
    RenderIs(heading, [r], prose, json);
    Regrouped(Lines(heading), "| " + r.id, " " + cells, Lines(prose), OwnBlock(json));
  }

  lemma Regrouped(a: string, b: string, c: string, d: string, e: string)
    ensures a + (b + c + "\n") + d + e == a + (b + (c + "\n" + (d + e)))
  {
  }

  lemma RenderIs(heading: seq<string>, rows: seq<Row>, prose: seq<string>, json: string)
    ensures Render(heading, rows, prose, json) == Lines(heading + TableLines(rows) + prose) + OwnBlock(json)
  {
  }

  lemma LinesAround(before: seq<string>, line: string, after: seq<string>)
    ensures Lines(before + [line] + after) == Lines(before) + (line + "\n") + Lines(after)
  {
    LinesConcat(before, [line]);
    LinesConcat(before + [line], after);
    LinesOne(line);
  }

  /** A lone carriage return reads as a newline. */
  lemma ReadReturn(a: string, b: string)
    requires '\r' !in a && b != "" && b[0] != '\n'
    ensures ReadText(a + ("\r" + b)) == a + "\n" + ReadText(b)
  {
    var rest := "\r" + b;
    ReadConcat(a, rest);
    ReadPlain(a);
    assert rest[0] == '\r' && rest[1] == b[0] && rest[1..] == b;
  }

  lemma ReadHijack(tail: string)
    requires tail != "" && tail[0] == ' '
    ensures ReadText("| " + HIJACK + tail) == "| " + (OPENING + "\n" + "[]" + CLOSING + ReadText(tail))
  {
    HijackIs(tail);
    ReturnsAround("| " + OPENING, "[]", "```", tail);
  }

  lemma HijackIs(tail: string)
    ensures "| " + HIJACK + tail == ("| " + OPENING) + ("\r" + ("[]" + ("\r" + ("```" + tail))))
    ensures "| " + (OPENING + "\n" + "[]" + CLOSING + ReadText(tail))
         == ("| " + OPENING) + "\n" + ("[]" + "\n" + ("```" + ReadText(tail)))
  {
    assert HIJACK == OPENING + "\r" + "[]" + "\r" + "```" && CLOSING == "\n" + "```";
  }

  lemma ReturnsAround(a: string, b: string, c: string, tail: string)
    requires OneLine(a) && OneLine(b) && OneLine(c) && b != "" && c != ""
    ensures ReadText(a + ("\r" + (b + ("\r" + (c + tail))))) == a + "\n" + (b + "\n" + (c + ReadText(tail)))
  {
    var last := c + tail;
    assert b[0] in b && c[0] in c && c[|c| - 1] in c && last[0] == c[0];
    var middle := b + ("\r" + last);
    assert middle[0] == b[0];
    ReadReturn(a, middle);
    ReadReturn(b, last);
    ReadConcat(c, tail);
    ReadPlain(c);
  }

  lemma NoTick(t: string, k: nat)
    requires k < |t| && t[k] != '`'
    ensures BlockAt(t, k) == None && FindAt(t, k) == FindAt(t, k + 1)
  {
    assert t[k..][0] != OPENING[0];
  }

  /** Two characters that open no fence, then a block. */
  lemma BarThenBlock(head: string, json: string, tail: string)
    requires Printed(json)
    ensures var t := head + ("| " + (OPENING + "\n" + json + CLOSING + tail));
      FindAt(t, |head|) == Some(|head| + 2) && BlockAt(t, |head| + 2) == Some(json)
  {
    var block := OPENING + "\n" + json + CLOSING + tail;
    BlockFound(head + "| ", json, tail);
    Bar(head, block);
    AfterTwo(head + ("| " + block), |head|);
  }

  lemma Bar(head: string, rest: string)
    ensures var t := head + ("| " + rest);
      t == (head + "| ") + rest && |t| >= |head| + 2 && t[|head|] == '|' && t[|head| + 1] == ' '
  {
  }

  lemma AfterTwo(t: string, k: nat)
    requires k + 2 <= |t| && t[k] != '`' && t[k + 1] != '`' && BlockAt(t, k + 2).Some?
    ensures FindAt(t, k) == Some(k + 2)
  {
    NoTick(t, k);
    NoTick(t, k + 1);
  }
}
