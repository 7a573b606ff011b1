/** The no-regression gate over routing evaluations and the summary of its two arms. */
module RoutingGate {
  import opened Options
  import opened Ordering

  datatype Verdict = RouteOk | RouteWrong

  /** The gated part of an evaluated row. */
  datatype Row = Row(id: string, ambiguous: bool, verdict: Verdict, inconsistent: bool)

  datatype Failure = RouteRegressed(id: string) | NewlyInconsistent(id: string) | RowsMissing(ids: seq<string>)

  function IdOf(r: Row): string { r.id }

  function ById(rows: seq<Row>): map<string, Row> { Keyed(rows, IdOf) }

  function Ids(rows: seq<Row>): set<string> { set i | 0 <= i < |rows| :: rows[i].id }

  function RowFailures(r: Row, base: map<string, Row>): seq<Failure> {
    if r.id !in base || r.ambiguous then []
    else
      (if base[r.id].verdict.RouteOk? && r.verdict.RouteWrong? then [RouteRegressed(r.id)] else [])
      + (if r.inconsistent && !base[r.id].inconsistent then [NewlyInconsistent(r.id)] else [])
  }

  function AllRowFailures(current: seq<Row>, base: map<string, Row>): seq<Failure> {
    if current == [] then []
    else AllRowFailures(current[..|current| - 1], base) + RowFailures(current[|current| - 1], base)
  }

  function Failures(current: seq<Row>, baseline: seq<Row>): seq<Failure> {
    var base := ById(baseline);
    var missing := SortedSet(base.Keys - Ids(current));
    AllRowFailures(current, base) + (if missing == [] then [] else [RowsMissing(missing)])
  }

  lemma FailuresSnoc(current: seq<Row>, r: Row, base: map<string, Row>)
    ensures AllRowFailures(current + [r], base) == AllRowFailures(current, base) + RowFailures(r, base)
  {
    assert (current + [r])[..|current|] == current;
  }

  /** `compare` */
  method Compare(current: seq<Row>, baseline: seq<Row>) returns (failures: seq<Failure>)
    ensures failures == Failures(current, baseline)
  {
    var base := ById(baseline);
    failures := CompareRows(current, base);
    var missing := SortedSet(base.Keys - Ids(current));
    if missing != [] {
      failures := failures + [RowsMissing(missing)];
    }
  }

  method CompareRows(current: seq<Row>, base: map<string, Row>) returns (failures: seq<Failure>)
    ensures failures == AllRowFailures(current, base)
  {
    failures := [];
    for i := 0 to |current|
      invariant failures == AllRowFailures(current[..i], base)
    {
      var row := current[i];
      assert current[..i + 1] == current[..i] + [row];
      FailuresSnoc(current[..i], row, base);
      if row.id !in base {
        continue;
      }
      var prior := base[row.id];
      if row.ambiguous {
        continue;
      }
      if prior.verdict.RouteOk? && row.verdict.RouteWrong? {
        failures := failures + [RouteRegressed(row.id)];
      }
      if row.inconsistent && !prior.inconsistent {
        failures := failures + [NewlyInconsistent(row.id)];
      }
    }
    assert current[..|current|] == current;
  }

  /** Which failures are reported: a regression for every gating row that was right and is wrong, an
      inconsistency for every gating row that was consistent and is not, and the missing ids in order. */
  lemma FailuresAre(current: seq<Row>, baseline: seq<Row>, k: string, ids: seq<string>)
    ensures RouteRegressed(k) in Failures(current, baseline) <==>
      exists r :: r in current && Regressed(r, k, ById(baseline))
    ensures NewlyInconsistent(k) in Failures(current, baseline) <==>
      exists r :: r in current && TurnedInconsistent(r, k, ById(baseline))
    ensures RowsMissing(ids) in Failures(current, baseline) <==>
      ids != [] && Increasing(ids) && forall i :: i in ids <==> i in ById(baseline) && i !in Ids(current)
  {
    RowFailuresAre(current, ById(baseline), k);
    var missing := SortedSet(ById(baseline).Keys - Ids(current));
    if ids != [] && Increasing(ids) && forall i :: i in ids <==> i in ById(baseline) && i !in Ids(current) {
      IncreasingUnique(ids, missing);
    }
  }

  /** A gating row that was right and is wrong. */
  predicate Regressed(r: Row, k: string, base: map<string, Row>) {
    r.id == k && k in base && !r.ambiguous && base[k].verdict == RouteOk && r.verdict == RouteWrong
  }

  /** A gating row that was consistent and is not. */
  predicate TurnedInconsistent(r: Row, k: string, base: map<string, Row>) {
    r.id == k && k in base && !r.ambiguous && r.inconsistent && !base[k].inconsistent
  }

  lemma RowFailuresOf(r: Row, base: map<string, Row>, k: string)
    ensures RouteRegressed(k) in RowFailures(r, base) <==> Regressed(r, k, base)
    ensures NewlyInconsistent(k) in RowFailures(r, base) <==> TurnedInconsistent(r, k, base)
    ensures forall ids :: RowsMissing(ids) !in RowFailures(r, base)
  {
  }

  lemma {:induction false} RowFailuresAre(current: seq<Row>, base: map<string, Row>, k: string)
    ensures RouteRegressed(k) in AllRowFailures(current, base) <==> exists r :: r in current && Regressed(r, k, base)
    ensures NewlyInconsistent(k) in AllRowFailures(current, base) <==>
      exists r :: r in current && TurnedInconsistent(r, k, base)
    ensures forall ids :: RowsMissing(ids) !in AllRowFailures(current, base)
  {
    if current == [] {
    } else {
      var before, last := current[..|current| - 1], current[|current| - 1];
      assert current == before + [last];
      RowFailuresAre(before, base, k);
      RowFailuresOf(last, base, k);
      assert forall r :: r in current <==> r in before || r == last;
      var a, b := AllRowFailures(before, base), RowFailures(last, base);
      assert forall f :: f in a + b <==> f in a || f in b;
    }
  }

  // ---------- what passing means ----------

  predicate NoWorse(r: Row, prior: Row) {
    (prior.verdict.RouteOk? ==> r.verdict.RouteOk?) && (r.inconsistent ==> prior.inconsistent)
  }

  /** No gating row is worse than the baseline's row of its id, and no baseline row is missing. */
  ghost predicate NoRegression(current: seq<Row>, baseline: seq<Row>) {
    && (forall r :: r in current && r.id in ById(baseline) && !r.ambiguous ==> NoWorse(r, ById(baseline)[r.id]))
    && (forall k :: k in ById(baseline) ==> k in Ids(current))
  }

  lemma {:induction false} RowFailuresEmpty(current: seq<Row>, base: map<string, Row>)
    ensures AllRowFailures(current, base) == [] <==>
            forall r :: r in current && r.id in base && !r.ambiguous ==> NoWorse(r, base[r.id])
  {
    if current == [] {
    } else {
      var before, last := current[..|current| - 1], current[|current| - 1];
      assert current == before + [last];
      RowFailuresEmpty(before, base);
      assert last in current;
      assert RowFailures(last, base) == [] <==> (last.id in base && !last.ambiguous ==> NoWorse(last, base[last.id]));
    }
  }

  /** `compare` returns no failures exactly when there is no regression. */
  lemma CompareEmptyIff(current: seq<Row>, baseline: seq<Row>)
    ensures Failures(current, baseline) == [] <==> NoRegression(current, baseline)
  {
    var base := ById(baseline);
    RowFailuresEmpty(current, base);
    var missing := base.Keys - Ids(current);
    assert |SortedSet(missing)| == |missing|;
    if missing == {} {
      forall k | k in base ensures k in Ids(current) { assert k !in missing; }
    } else {
      var k :| k in missing;
      assert k in base && k !in Ids(current);
    }
  }

  lemma ByIdRows(rows: seq<Row>)
    ensures ById(rows).Keys == Ids(rows)
    ensures forall k :: k in ById(rows) ==> ById(rows)[k] in rows && ById(rows)[k].id == k
  {
    KeyedRows(rows, IdOf);
    forall k ensures k in ById(rows) <==> k in Ids(rows) {
      if r :| r in rows && IdOf(r) == k {
        var i :| 0 <= i < |rows| && rows[i] == r;
        assert rows[i].id in Ids(rows);
      }
      if k in Ids(rows) {
        var i :| 0 <= i < |rows| && rows[i].id == k;
        assert rows[i] in rows && IdOf(rows[i]) == k;
      }
    }
  }

  /** With distinct ids, looking a row up by its id finds that row. */
  lemma ByIdFinds(rows: seq<Row>)
    requires DistinctKeys(rows, IdOf)
    ensures forall r :: r in rows ==> r.id in ById(rows) && ById(rows)[r.id] == r
  {
    KeyedFinds(rows, IdOf);
  }

  // ---------- the validation that precedes a run ----------

  /** The ids counted more than once, as `validate_rows` reports them. */
  method DuplicateIds(rows: seq<Row>) returns (duplicates: seq<string>)
    ensures forall k :: k in duplicates <==> CountIf(rows, WithId(k)) > 1
    ensures Increasing(duplicates)
    ensures duplicates == [] <==> DistinctKeys(rows, IdOf)
  {
    var seen: map<string, nat> := map[];
    for i := 0 to |rows|
      invariant forall k :: (if k in seen then seen[k] else 0) == CountIf(rows[..i], WithId(k))
    {
      var id := rows[i].id;
      assert rows[..i + 1] == rows[..i] + [rows[i]];
      forall k ensures CountIf(rows[..i + 1], WithId(k)) == CountIf(rows[..i], WithId(k)) + (if k == id then 1 else 0) {
        CountIfConcat(rows[..i], [rows[i]], WithId(k));
      }
      seen := seen[id := (if id in seen then seen[id] else 0) + 1];
    }
    assert rows[..|rows|] == rows;
    duplicates := SortedSet(set k | k in seen && seen[k] > 1);
    DistinctIffCountedOnce(rows);
    forall k ensures k in duplicates <==> CountIf(rows, WithId(k)) > 1 {}
    if duplicates != [] { assert CountIf(rows, WithId(duplicates[0])) > 1; }
  }

  function WithId(k: string): Row -> bool { (r: Row) => r.id == k }

  lemma DistinctIffCountedOnce(rows: seq<Row>)
    ensures DistinctKeys(rows, IdOf) <==> forall k :: CountIf(rows, WithId(k)) <= 1
  {
    if !DistinctKeys(rows, IdOf) {
      var i, j :| 0 <= i < j < |rows| && IdOf(rows[i]) == IdOf(rows[j]);
      CountIfTwo(rows, WithId(rows[i].id), i, j);
    }
    forall k | CountIf(rows, WithId(k)) > 1 ensures !DistinctKeys(rows, IdOf) {
      CountIfAtLeastTwo(rows, WithId(k));
      var i, j :| 0 <= i < j < |rows| && WithId(k)(rows[i]) && WithId(k)(rows[j]);
      assert IdOf(rows[i]) == IdOf(rows[j]);
    }
  }

  // ---------- the ratchet ----------

  /** A gating row whose baseline row was ambiguous is right and consistent. */
  ghost predicate NoHiddenLoss(current: seq<Row>, baseline: seq<Row>) {
    forall r :: r in current && !r.ambiguous && r.id in ById(baseline) && ById(baseline)[r.id].ambiguous ==>
      r.verdict.RouteOk? && !r.inconsistent
  }

  /** A run passes against itself exactly when no gating row is worse than the last row of its id. */
  lemma ReflexiveIff(rows: seq<Row>)
    ensures NoRegression(rows, rows) <==>
            forall i, j :: 0 <= i < |rows| && IsLastOf(rows, IdOf, j, rows[i].id) && !rows[i].ambiguous
                ==> NoWorse(rows[i], rows[j])
  {
    ByIdRows(rows);
    forall i, j | 0 <= i < |rows| && IsLastOf(rows, IdOf, j, rows[i].id)
      ensures rows[i].id in ById(rows) && ById(rows)[rows[i].id] == rows[j]
    {
      KeyedIsLast(rows, IdOf, j, rows[i].id);
    }
    forall r | r in rows && r.id in ById(rows) && !r.ambiguous
      ensures exists i, j :: 0 <= i < |rows| && rows[i] == r && IsLastOf(rows, IdOf, j, rows[i].id)
    {
      var i :| 0 <= i < |rows| && rows[i] == r;
      LastRow(rows, IdOf, r.id);
      assert IdOf(r) == r.id;
    }
  }

  /** With distinct ids a run passes against itself. */
  lemma GateReflexive(rows: seq<Row>)
    requires DistinctKeys(rows, IdOf)
    ensures NoRegression(rows, rows)
  {
    ByIdRows(rows);
    ByIdFinds(rows);
  }

  /** Passing carries over from `b` to `c` for every baseline of `b` exactly when no row that was
      ambiguous in `b` hides a loss in `c`. */
  lemma TransitiveIff(b: seq<Row>, c: seq<Row>)
    requires DistinctKeys(b, IdOf) && NoRegression(c, b)
    ensures (forall a :: NoRegression(b, a) ==> NoRegression(c, a)) <==> NoHiddenLoss(c, b)
  {
    if NoHiddenLoss(c, b) {
      forall a | NoRegression(b, a) ensures NoRegression(c, a) { GateTransitive(a, b, c); }
    }
    if forall a :: NoRegression(b, a) ==> NoRegression(c, a) {
      forall r | r in c && !r.ambiguous && r.id in ById(b) && ById(b)[r.id].ambiguous
        ensures r.verdict.RouteOk? && !r.inconsistent
      {
        HiddenLossShows(b, c, r);
      }
    }
  }

  /** The baseline that exposes what a formerly ambiguous row hid: the same id, right and consistent. */
  lemma HiddenLossShows(b: seq<Row>, c: seq<Row>, r: Row)
    requires DistinctKeys(b, IdOf) && r in c && !r.ambiguous && r.id in ById(b) && ById(b)[r.id].ambiguous
    ensures var a := [Row(r.id, false, RouteOk, false)];
      NoRegression(b, a) && (NoRegression(c, a) ==> r.verdict.RouteOk? && !r.inconsistent)
  {
    var a := [Row(r.id, false, RouteOk, false)];
    KeyedOne(a[0], IdOf);
    assert ById(a) == map[r.id := a[0]];
    ByIdRows(b);
    ByIdFinds(b);
  }

  lemma GateTransitive(a: seq<Row>, b: seq<Row>, c: seq<Row>)
    requires DistinctKeys(b, IdOf) && NoHiddenLoss(c, b)
    requires NoRegression(b, a) && NoRegression(c, b)
    ensures NoRegression(c, a)
  {
    ByIdRows(a);
    ByIdRows(b);
    ByIdFinds(b);
    forall r | r in c && r.id in ById(a) && !r.ambiguous ensures NoWorse(r, ById(a)[r.id]) {
      assert r.id in ById(b);
      var q := ById(b)[r.id];
      assert NoWorse(r, q) && (q.ambiguous || NoWorse(q, ById(a)[r.id]));
    }
  }

  /** Without distinct ids `compare` alone can reject a run against itself. */
  lemma RepeatedIdsNotReflexive()
    ensures exists rows :: !NoRegression(rows, rows)
  {
    var good, bad := Row("q", false, RouteOk, false), Row("q", false, RouteWrong, false);
    var twice := [bad, good];
    assert IsLastOf(twice, IdOf, 1, twice[0].id) && !NoWorse(twice[0], twice[1]);
    ReflexiveIff(twice);
  }

  /** A row that stops being ambiguous can hide a regression from two passing comparisons. */
  lemma LostAmbiguityNotTransitive()
    ensures exists a, b, c :: DistinctKeys(b, IdOf) && NoRegression(b, a) && NoRegression(c, b) && !NoRegression(c, a)
  {
    var good, bad := Row("q", false, RouteOk, false), Row("q", false, RouteWrong, false);
    var vague := Row("q", true, RouteWrong, false);
    OneRowPasses(good, vague);
    OneRowPasses(vague, bad);
    OneRowPasses(good, bad);
    assert DistinctKeys([vague], IdOf) && NoRegression([vague], [good]);
    assert NoRegression([bad], [vague]) && !NoRegression([bad], [good]);
  }

  lemma OneRowPasses(prior: Row, r: Row)
    requires prior.id == r.id
    ensures NoRegression([r], [prior]) <==> r.ambiguous || NoWorse(r, prior)
  {
    KeyedOne(prior, IdOf);
    assert ById([prior]) == map[prior.id := prior];
    assert [r][0].id in Ids([r]);
    assert r in [r];
  }

  /** A chain of runs in which each passes against the one before it and hides no loss. */
  ghost predicate Chain(runs: seq<seq<Row>>) {
    && (forall i :: 0 <= i < |runs| ==> DistinctKeys(runs[i], IdOf))
    && (forall i :: 0 < i < |runs| ==> NoRegression(runs[i], runs[i - 1]) && NoHiddenLoss(runs[i], runs[i - 1]))
  }

  /** Every run passes against every earlier one. */
  lemma {:induction false} ChainPasses(runs: seq<seq<Row>>, i: nat, j: nat)
    requires Chain(runs) && i <= j < |runs|
    ensures NoRegression(runs[j], runs[i])
    decreases j
  {
    if i == j {
      GateReflexive(runs[i]);
    } else {
      ChainPasses(runs, i, j - 1);
      GateTransitive(runs[i], runs[j - 1], runs[j]);
    }
  }

  /** A row never disappears along a chain, and while it gates it is never worse than before. */
  lemma ChainRatchet(runs: seq<seq<Row>>, i: nat, j: nat, q: Row)
    requires Chain(runs) && i <= j < |runs| && q in runs[i]
    ensures q.id in Ids(runs[j])
    ensures forall r :: r in runs[j] && r.id == q.id && !r.ambiguous ==> NoWorse(r, q)
  {
    ChainPasses(runs, i, j);
    ByIdRows(runs[i]);
    ByIdFinds(runs[i]);
  }

  // ---------- counts ----------

  predicate GatingOk(r: Row) { !r.ambiguous && r.verdict.RouteOk? }
  predicate GatingInconsistent(r: Row) { !r.ambiguous && r.inconsistent }

  ghost predicate SameLabels(a: seq<Row>, b: seq<Row>) {
    forall q, r :: q in a && r in b && q.id == r.id ==> q.ambiguous == r.ambiguous
  }

  ghost function IdsWhere(rows: seq<Row>, p: Row -> bool): set<string> {
    set i | 0 <= i < |rows| && p(rows[i]) :: rows[i].id
  }

  lemma IdsWhereCons(rows: seq<Row>, p: Row -> bool)
    requires rows != []
    ensures IdsWhere(rows, p) == IdsWhere(rows[1..], p) + (if p(rows[0]) then {rows[0].id} else {})
  {
    var rest := rows[1..];
    forall k | k in IdsWhere(rest, p) ensures k in IdsWhere(rows, p) {
      var i :| 0 <= i < |rest| && p(rest[i]) && rest[i].id == k;
      assert p(rows[i + 1]) && rows[i + 1].id == k;
    }
    forall k | k in IdsWhere(rows, p) ensures k in IdsWhere(rest, p) || (p(rows[0]) && k == rows[0].id) {
      var i :| 0 <= i < |rows| && p(rows[i]) && rows[i].id == k;
      if i > 0 { assert p(rest[i - 1]) && rest[i - 1].id == k; }
    }
  }

  lemma {:induction false} CountIsCardinality(rows: seq<Row>, p: Row -> bool)
    requires DistinctKeys(rows, IdOf)
    ensures CountIf(rows, p) == |IdsWhere(rows, p)|
  {
    if rows == [] {
    } else {
      var head, rest := rows[0], rows[1..];
      forall i | 0 <= i < |rest| ensures rest[i].id != head.id { assert IdOf(rows[0]) != IdOf(rows[i + 1]); }
      assert DistinctKeys(rest, IdOf);
      CountIsCardinality(rest, p);
      IdsWhereCons(rows, p);
      assert head.id !in IdsWhere(rest, p);
    }
  }

  /** The counts of `summarize` over the gating rows. */
  method Summarize(rows: seq<Row>) returns (gating: nat, ok: nat, wrong: nat, inconsistent: nat)
    ensures gating == CountIf(rows, (r: Row) => !r.ambiguous) && ok + wrong == gating
    ensures ok == CountIf(rows, GatingOk) && inconsistent == CountIf(rows, GatingInconsistent)
  {
    gating, ok, inconsistent := 0, 0, 0;
    ghost var gates := (r: Row) => !r.ambiguous;
    for i := 0 to |rows|
      invariant gating == CountIf(rows[..i], gates) && ok <= gating
      invariant ok == CountIf(rows[..i], GatingOk) && inconsistent == CountIf(rows[..i], GatingInconsistent)
    {
      var r := rows[i];
      assert rows[..i + 1] == rows[..i] + [r];
      CountIfConcat(rows[..i], [r], gates);
      CountIfConcat(rows[..i], [r], GatingOk);
      CountIfConcat(rows[..i], [r], GatingInconsistent);
      if r.ambiguous {
        continue;
      }
      gating := gating + 1;
      if r.verdict == RouteOk { ok := ok + 1; }
      if r.inconsistent { inconsistent := inconsistent + 1; }
    }
    assert rows[..|rows|] == rows;
    wrong := gating - ok;
  }

  /** Against a passed baseline with the same labels, the number of right rows does not fall and,
      among the baseline's rows, the number of inconsistent ones does not rise. */
  lemma PassKeepsCounts(current: seq<Row>, baseline: seq<Row>)
    requires DistinctKeys(current, IdOf) && DistinctKeys(baseline, IdOf)
    requires SameLabels(baseline, current) && NoRegression(current, baseline)
    ensures CountIf(current, GatingOk) >= CountIf(current, Within(Ids(baseline), GatingOk))
        >= CountIf(baseline, GatingOk)
    ensures CountIf(current, Within(Ids(baseline), GatingInconsistent)) <= CountIf(baseline, GatingInconsistent)
  {
    var keptOk, keptBad := Within(Ids(baseline), GatingOk), Within(Ids(baseline), GatingInconsistent);
    CountIfLess(current, keptOk, GatingOk);
    CountIsCardinality(current, keptOk);
    CountIsCardinality(current, keptBad);
    CountIsCardinality(baseline, GatingOk);
    CountIsCardinality(baseline, GatingInconsistent);
    RightIdsKept(current, baseline);
    InconsistentIdsOld(current, baseline);
    SubsetSize(IdsWhere(baseline, GatingOk), IdsWhere(current, keptOk));
    SubsetSize(IdsWhere(current, keptBad), IdsWhere(baseline, GatingInconsistent));
  }

  /** Rows of the given ids only. */
  function Within(ids: set<string>, p: Row -> bool): Row -> bool { (r: Row) => p(r) && r.id in ids }

  lemma InIdsWhere(rows: seq<Row>, p: Row -> bool, r: Row)
    requires r in rows && p(r)
    ensures r.id in IdsWhere(rows, p)
  {
    var i :| 0 <= i < |rows| && rows[i] == r;
    assert p(rows[i]);
  }

  /** A right gating row of the baseline has a right gating row in a run that passes. */
  lemma RightRowKept(current: seq<Row>, baseline: seq<Row>, q: Row) returns (r: Row)
    requires DistinctKeys(baseline, IdOf) && SameLabels(baseline, current) && NoRegression(current, baseline)
    requires q in baseline && GatingOk(q)
    ensures r in current && r.id == q.id && GatingOk(r)
  {
    ByIdFinds(baseline);
    ByIdRows(current);
    assert q.id in ById(current).Keys;
    r := ById(current)[q.id];
    assert NoWorse(r, q);
  }

  lemma RightIdsKept(current: seq<Row>, baseline: seq<Row>)
    requires DistinctKeys(baseline, IdOf) && SameLabels(baseline, current) && NoRegression(current, baseline)
    ensures IdsWhere(baseline, GatingOk) <= IdsWhere(current, Within(Ids(baseline), GatingOk))
  {
    forall k | k in IdsWhere(baseline, GatingOk) ensures k in IdsWhere(current, Within(Ids(baseline), GatingOk)) {
      var i :| 0 <= i < |baseline| && GatingOk(baseline[i]) && baseline[i].id == k;
      var r := RightRowKept(current, baseline, baseline[i]);
      InIdsWhere(current, Within(Ids(baseline), GatingOk), r);
    }
  }

  lemma InconsistentIdsOld(current: seq<Row>, baseline: seq<Row>)
    requires DistinctKeys(baseline, IdOf)
    requires SameLabels(baseline, current) && NoRegression(current, baseline)
    ensures IdsWhere(current, Within(Ids(baseline), GatingInconsistent)) <= IdsWhere(baseline, GatingInconsistent)
  {
    var kept := Within(Ids(baseline), GatingInconsistent);
    ByIdRows(baseline);
    forall k | k in IdsWhere(current, kept) ensures k in IdsWhere(baseline, GatingInconsistent) {
      var j :| 0 <= j < |current| && kept(current[j]) && current[j].id == k;
      assert current[j] in current;
      InIdsWhere(baseline, GatingInconsistent, ById(baseline)[k]);
    }
  }

  /** So with fixed labels the counts move one way along a whole chain. */
  lemma ChainKeepsCounts(runs: seq<seq<Row>>, i: nat, j: nat)
    requires Chain(runs) && i <= j < |runs| && SameLabels(runs[i], runs[j])
    ensures CountIf(runs[j], GatingOk) >= CountIf(runs[i], GatingOk)
    ensures CountIf(runs[j], Within(Ids(runs[i]), GatingInconsistent)) <= CountIf(runs[i], GatingInconsistent)
  {
    ChainPasses(runs, i, j);
    PassKeepsCounts(runs[j], runs[i]);
  }

  // ---------- the two arms ----------

  datatype LiveOutcome = Error | Routed(skill: Option<string>)

  /** A gating row with its label, the deterministic skill and the outcome of live routing. */
  datatype Measured = Measured(acceptable: set<string>, det: Option<string>, live: LiveOutcome)

  datatype Delta = Same | Degraded | Improved | Lateral | Errored

  predicate Acceptable(m: Measured, skill: Option<string>) { skill.Some? && skill.value in m.acceptable }

  predicate DetOk(m: Measured) { Acceptable(m, m.det) }
  predicate LiveOk(m: Measured) { m.live.Routed? && Acceptable(m, m.live.skill) }

  /** `live_delta` of `evaluate_live_row`. */
  function DeltaOf(m: Measured): Delta {
    if m.live.Error? then Errored
    else if m.live.skill == m.det then Same
    else if DetOk(m) && !LiveOk(m) then Degraded
    else if LiveOk(m) && !DetOk(m) then Improved
    else Lateral
  }

  /** Each class of delta by its own condition. */
  lemma DeltaIs(m: Measured)
    ensures var det, live := m.det, if m.live.Routed? then m.live.skill else None;
      var right := set s | s in m.acceptable :: Some(s);
      && (DeltaOf(m) == Errored <==> m.live == Error)
      && (DeltaOf(m) == Same <==> m.live != Error && live == det)
      && (DeltaOf(m) == Degraded <==> m.live != Error && det in right && live !in right)
      && (DeltaOf(m) == Improved <==> m.live != Error && det !in right && live in right)
      && (DeltaOf(m) == Lateral <==> m.live != Error && live != det && (live in right <==> det in right))
    ensures DetOk(m) <==> exists s :: s in m.acceptable && m.det == Some(s)
    ensures LiveOk(m) <==> exists s :: s in m.acceptable && m.live == Routed(Some(s))
  {
  }

  /** The delta classes partition the rows, and the live arm's right rows are the deterministic
      ones plus the improvements, less the degradations and the errors on right rows. */
  lemma {:induction false} ArmsConserve(rows: seq<Measured>)
    ensures CountIf(rows, LiveOk) + CountIf(rows, m => DeltaOf(m).Degraded?)
        + CountIf(rows, m => DeltaOf(m).Errored? && DetOk(m))
         == CountIf(rows, DetOk) + CountIf(rows, m => DeltaOf(m).Improved?)
    ensures CountIf(rows, m => DeltaOf(m).Same?) + CountIf(rows, m => DeltaOf(m).Degraded?)
          + CountIf(rows, m => DeltaOf(m).Improved?) + CountIf(rows, m => DeltaOf(m).Lateral?)
          + CountIf(rows, m => DeltaOf(m).Errored?) == |rows|
  {
    if rows == [] {
    } else {
      ArmsConserve(rows[1..]);
    }
  }

  function Occurrences(values: seq<string>, v: string): nat { CountIf(values, x => x == v) }

  lemma OccurrencesSnoc(values: seq<string>, v: string)
    ensures forall w :: Occurrences(values + [v], w) == Occurrences(values, w) + (if w == v then 1 else 0)
    ensures v !in values ==> Occurrences(values, v) == 0
  {
    forall w ensures Occurrences(values + [v], w) == Occurrences(values, w) + (if w == v then 1 else 0) {
      CountIfConcat(values, [v], x => x == w);
    }
    CountIfPositive(values, x => x == v);
  }

  function Items(tally: map<string, nat>, order: seq<string>): seq<(string, nat)>
    requires forall k :: k in order ==> k in tally
  {
    seq(|order|, i requires 0 <= i < |order| => (order[i], tally[order[i]]))
  }

  lemma ItemsExact(tally: map<string, nat>)
    ensures var items := Items(tally, SortedSet(tally.Keys));
      Distinct(items) && forall v, n :: (v, n) in items <==> v in tally && n == tally[v]
  {
    var order := SortedSet(tally.Keys);
    var items := Items(tally, order);
    forall v, n | v in tally && n == tally[v] ensures (v, n) in items {
      var k :| 0 <= k < |order| && order[k] == v;
      assert items[k] == (v, n);
    }
  }

  /** `_count_by`: how often each value occurs, most frequent first, ties by value. */
  method CountBy(values: seq<string>) returns (counts: seq<(string, nat)>)
    ensures forall v, n :: (v, n) in counts <==> v in values && n == Occurrences(values, v)
    ensures forall i, j :: 0 <= i < j < |counts| ==>
      counts[i].1 > counts[j].1 || (counts[i].1 == counts[j].1 && StrLe(counts[i].0, counts[j].0))
    ensures Distinct(counts)
  {
    var tally: map<string, nat> := map[];
    for i := 0 to |values|
      invariant forall v :: v in tally <==> v in values[..i]
      invariant forall v :: v in tally ==> tally[v] == Occurrences(values[..i], v)
    {
      assert values[..i + 1] == values[..i] + [values[i]];
      OccurrencesSnoc(values[..i], values[i]);
      tally := tally[values[i] := (if values[i] in tally then tally[values[i]] else 0) + 1];
    }
    assert values[..|values|] == values;
    var items := Items(tally, SortedSet(tally.Keys));
    counts := Sort(items, MoreFrequent);
    SortedItems(tally);
    forall i, j | 0 <= i < j < |counts|
      ensures counts[i].1 > counts[j].1 || (counts[i].1 == counts[j].1 && StrLe(counts[i].0, counts[j].0))
    {
      assert MoreFrequent(counts[i], counts[j]);
    }
  }

  lemma SortedItems(tally: map<string, nat>)
    ensures var c := Sort(Items(tally, SortedSet(tally.Keys)), MoreFrequent);
      SortedBy(c, MoreFrequent) && Distinct(c) && forall v, n :: (v, n) in c <==> v in tally && n == tally[v]
  {
    var items := Items(tally, SortedSet(tally.Keys));
    ItemsExact(tally);
    MoreFrequentTotal();
    SortSorts(items, MoreFrequent);
    SortMembers(items, MoreFrequent);
    DistinctPermutation(items, Sort(items, MoreFrequent));
  }

  predicate MoreFrequent(a: (string, nat), b: (string, nat)) {
    a.1 > b.1 || (a.1 == b.1 && StrLe(a.0, b.0))
  }

  lemma MoreFrequentTotal()
    ensures TotalPreorder(MoreFrequent)
  {
    forall a, b ensures MoreFrequent(a, b) || MoreFrequent(b, a) { StrTotal(a.0, b.0); }
    forall a, b, c | MoreFrequent(a, b) && MoreFrequent(b, c) ensures MoreFrequent(a, c) {
      if StrLe(a.0, b.0) && StrLe(b.0, c.0) { StrTransitive(a.0, b.0, c.0); }
    }
  }
}
