/** Collapsing the ATLAS Navigator matrix to one row per technique, and the duplicate
    report that is meant to be read before collapsing. */
module AtlasMatrix {
  import opened Options
  import opened Ordering
  import opened PyText

  /** A raw matrix row; an absent id or tactic reads as "". */
  datatype RawRow = RawRow(techniqueId: string, tactic: string, score: Option<int>)

  datatype Entry = Entry(tactics: set<string>, scores: map<string, int>, caseStudy: int)

  datatype Technique = Technique(id: string, tactics: seq<string>, scores: map<string, int>, caseStudy: int)

  function Id(r: RawRow): string { Strip(r.techniqueId) }
  function Tac(r: RawRow): string { Strip(r.tactic) }

  // ---------- normalising ----------

  /** `{techniqueID: score}` of the frequency layer; later rows win. */
  function Frequency(rows: seq<(string, int)>): map<string, int> {
    if rows == [] then map[]
    else
      var (id, score) := rows[|rows| - 1];
      var m := Frequency(rows[..|rows| - 1]);
      if id == "" then m else m[id := score]
  }

  function Absorb(e: Entry, r: RawRow): Entry {
    if Tac(r) == "" then e
    else Entry(e.tactics + {Tac(r)}, if r.score.Some? then e.scores[Tac(r) := r.score.value] else e.scores, e.caseStudy)
  }

  function NewEntry(id: string, freq: map<string, int>): Entry {
    Entry({}, map[], if id in freq then freq[id] else 0)
  }

  function Collapse(rows: seq<RawRow>, freq: map<string, int>): map<string, Entry> {
    if rows == [] then map[]
    else
      var m := Collapse(rows[..|rows| - 1], freq);
      var r := rows[|rows| - 1];
      if Id(r) == "" then m
      else m[Id(r) := Absorb(if Id(r) in m then m[Id(r)] else NewEntry(Id(r), freq), r)]
  }

  function Listed(m: map<string, Entry>, ids: seq<string>): seq<Technique>
    requires forall t :: t in ids ==> t in m
  {
    if ids == [] then []
    else
      var e := m[ids[0]];
      [Technique(ids[0], SortedSet(e.tactics), e.scores, e.caseStudy)] + Listed(m, ids[1..])
  }

  function Normalized(rows: seq<RawRow>, freq: map<string, int>): seq<Technique> {
    var m := Collapse(rows, freq);
    Listed(m, SortedSet(m.Keys))
  }

  lemma FrequencySnoc(rows: seq<(string, int)>, r: (string, int))
    ensures Frequency(rows + [r]) == if r.0 == "" then Frequency(rows) else Frequency(rows)[r.0 := r.1]
  {
    assert (rows + [r])[..|rows|] == rows;
  }

  function FreqId(r: (string, int)): string { r.0 }

  /** The frequency map without the loop: the non-blank ids that have a row, each with the score of its last row. */
  lemma {:induction false} FrequencyIs(rows: seq<(string, int)>, id: string)
    ensures id in Frequency(rows) <==> id != "" && exists i :: IsLastOf(rows, FreqId, i, id)
    ensures forall i :: IsLastOf(rows, FreqId, i, id) && id != "" ==> Frequency(rows)[id] == rows[i].1
  {
    if rows == [] {
    } else {
      var before, n := rows[..|rows| - 1], |rows| - 1;
      FrequencyIs(before, id);
      if rows[n].0 == id {
        assert IsLastOf(rows, FreqId, n, id);
      } else {
        assert forall i :: IsLastOf(rows, FreqId, i, id) <==> IsLastOf(before, FreqId, i, id);
      }
    }
  }

  method FrequencyByTechnique(rows: seq<(string, int)>) returns (freq: map<string, int>)
    ensures freq == Frequency(rows)
    ensures forall id :: id in freq <==> id != "" && exists r :: r in rows && r.0 == id
    ensures forall id, i :: id in freq && IsLastOf(rows, FreqId, i, id) ==> freq[id] == rows[i].1
  {
    freq := map[];
    for i := 0 to |rows|
      invariant freq == Frequency(rows[..i])
    {
      assert rows[..i + 1] == rows[..i] + [rows[i]];
      FrequencySnoc(rows[..i], rows[i]);
      var (id, score) := rows[i];
      if id != "" { freq := freq[id := score]; }
    }
    assert rows[..|rows|] == rows;
    forall id
      ensures id in freq <==> id != "" && exists r :: r in rows && r.0 == id
      ensures forall i :: id in freq && IsLastOf(rows, FreqId, i, id) ==> freq[id] == rows[i].1
    {
      FrequencyIs(rows, id);
      LastRow(rows, FreqId, id);
      assert forall r :: r in rows ==> FreqId(r) == r.0;
    }
  }

  lemma CollapseSnoc(rows: seq<RawRow>, r: RawRow, freq: map<string, int>)
    ensures var m := Collapse(rows, freq);
      Collapse(rows + [r], freq)
      == if Id(r) == "" then m else m[Id(r) := Absorb(if Id(r) in m then m[Id(r)] else NewEntry(Id(r), freq), r)]
  {
    assert (rows + [r])[..|rows|] == rows;
  }

  method CollapseRows(rows: seq<RawRow>, freq: map<string, int>) returns (canonical: map<string, Entry>)
    ensures canonical == Collapse(rows, freq)
  {
    canonical := map[];
    for i := 0 to |rows|
      invariant canonical == Collapse(rows[..i], freq)
    {
      assert rows[..i + 1] == rows[..i] + [rows[i]];
      CollapseSnoc(rows[..i], rows[i], freq);
      var tid, tactic := Strip(rows[i].techniqueId), Strip(rows[i].tactic);
      if tid == "" {
        continue;
      }
      var entry := if tid in canonical then canonical[tid] else Entry({}, map[], if tid in freq then freq[tid] else 0);
      if tactic != "" {
        entry := entry.(tactics := entry.tactics + {tactic});
        if rows[i].score.Some? {
          entry := entry.(scores := entry.scores[tactic := rows[i].score.value]);
        }
      }
      canonical := canonical[tid := entry];
    }
    assert rows[..|rows|] == rows;
  }

  lemma {:induction false} ListedSnoc(m: map<string, Entry>, ids: seq<string>, id: string)
    requires id in m && forall t :: t in ids ==> t in m
    ensures Listed(m, ids + [id])
        == Listed(m, ids) + [Technique(id, SortedSet(m[id].tactics), m[id].scores, m[id].caseStudy)]
  {
    if ids == [] {
      assert ids + [id] == [id];
    } else {
      assert (ids + [id])[1..] == ids[1..] + [id];
      ListedSnoc(m, ids[1..], id);
    }
  }

  method ListTechniques(canonical: map<string, Entry>, order: seq<string>) returns (techniques: seq<Technique>)
    requires forall t :: t in order ==> t in canonical
    ensures techniques == Listed(canonical, order)
  {
    techniques := [];
    for i := 0 to |order|
      invariant techniques == Listed(canonical, order[..i])
    {
      assert order[..i + 1] == order[..i] + [order[i]];
      ListedSnoc(canonical, order[..i], order[i]);
      assert order[i] in order;
      var e := canonical[order[i]];
      techniques := techniques + [Technique(order[i], SortedSet(e.tactics), e.scores, e.caseStudy)];
    }
    assert order[..|order|] == order;
  }

  /** `normalize` */
  method Normalize(rows: seq<RawRow>, freqRows: seq<(string, int)>) returns (count: nat, techniques: seq<Technique>)
    ensures techniques == Normalized(rows, Frequency(freqRows)) && count == |techniques|
    ensures ListsTechniques(techniques, rows, freqRows)
  {
    var freq := FrequencyByTechnique(freqRows);
    var canonical := CollapseRows(rows, freq);
    techniques := ListTechniques(canonical, SortedSet(canonical.Keys));
    count := |techniques|;
    NormalizedLists(rows, freqRows);
  }

  // ---------- what the collapse keeps ----------

  predicate Under(r: RawRow, t: string, tac: string) { Id(r) == t && Tac(r) == tac }

  /** The score of the last scored row with this technique and tactic. */
  function LastScore(rows: seq<RawRow>, t: string, tac: string): Option<int> {
    if rows == [] then None
    else
      var r := rows[|rows| - 1];
      if Under(r, t, tac) && r.score.Some? then r.score else LastScore(rows[..|rows| - 1], t, tac)
  }

  function ScoreOf(e: Entry, tac: string): Option<int> {
    if tac in e.scores then Some(e.scores[tac]) else None
  }

  predicate Has(rows: seq<RawRow>, t: string) { exists i :: 0 <= i < |rows| && Id(rows[i]) == t }
  predicate HasPair(rows: seq<RawRow>, t: string, tac: string) { exists i :: 0 <= i < |rows| && Under(rows[i], t, tac) }

  /** The entry of `t` in the collapse, described without the loop, at one tactic. */
  ghost predicate DescribesAt(m: map<string, Entry>, rows: seq<RawRow>, freq: map<string, int>, t: string,
                              tac: string)
  {
    && (t in m <==> t != "" && Has(rows, t))
    && (t in m ==>
          && m[t].caseStudy == (if t in freq then freq[t] else 0)
          && (tac in m[t].tactics <==> tac != "" && HasPair(rows, t, tac))
          && ScoreOf(m[t], tac) == if tac == "" then None else LastScore(rows, t, tac))
  }

  ghost predicate Describes(m: map<string, Entry>, rows: seq<RawRow>, freq: map<string, int>) {
    forall t, tac :: DescribesAt(m, rows, freq, t, tac)
  }

  lemma HasSnoc(rows: seq<RawRow>, t: string, tac: string)
    requires rows != []
    ensures var before, r := rows[..|rows| - 1], rows[|rows| - 1];
      && (Has(rows, t) <==> Has(before, t) || Id(r) == t)
      && (HasPair(rows, t, tac) <==> HasPair(before, t, tac) || Under(r, t, tac))
  {
    var before, r := rows[..|rows| - 1], rows[|rows| - 1];
    assert forall i :: 0 <= i < |before| ==> before[i] == rows[i];
  }

  lemma {:induction false} NoPairNoScore(rows: seq<RawRow>, t: string, tac: string)
    ensures !HasPair(rows, t, tac) ==> LastScore(rows, t, tac) == None
    ensures !Has(rows, t) ==> !HasPair(rows, t, tac)
  {
    if rows == [] {
    } else {
      HasSnoc(rows, t, tac);
      NoPairNoScore(rows[..|rows| - 1], t, tac);
    }
  }

  lemma {:induction false} CollapseDescribed(rows: seq<RawRow>, freq: map<string, int>)
    ensures Describes(Collapse(rows, freq), rows, freq)
  {
    if rows == [] {
    } else {
      var before := rows[..|rows| - 1];
      CollapseDescribed(before, freq);
      forall t, tac ensures DescribesAt(Collapse(rows, freq), rows, freq, t, tac) {
        assert DescribesAt(Collapse(before, freq), before, freq, t, tac);
        if Id(rows[|rows| - 1]) == t {
          DescribedHere(rows, freq, t, tac);
        } else {
          DescribedElsewhere(rows, freq, t, tac);
        }
      }
    }
  }

  /** A row of another technique changes nothing at `t`. */
  lemma DescribedElsewhere(rows: seq<RawRow>, freq: map<string, int>, t: string, tac: string)
    requires rows != [] && Id(rows[|rows| - 1]) != t
    requires var before := rows[..|rows| - 1]; DescribesAt(Collapse(before, freq), before, freq, t, tac)
    ensures DescribesAt(Collapse(rows, freq), rows, freq, t, tac)
  {
    HasSnoc(rows, t, tac);
  }

  lemma DescribedHere(rows: seq<RawRow>, freq: map<string, int>, t: string, tac: string)
    requires rows != [] && Id(rows[|rows| - 1]) == t
    requires var before := rows[..|rows| - 1]; DescribesAt(Collapse(before, freq), before, freq, t, tac)
    ensures DescribesAt(Collapse(rows, freq), rows, freq, t, tac)
  {
    HasSnoc(rows, t, tac);
    NoPairNoScore(rows[..|rows| - 1], t, tac);
  }

  // ---------- what a normalised technique says, in terms of the rows ----------

  /** The last row with this technique and tactic that has a score stands at `i`. */
  ghost predicate LastScored(rows: seq<RawRow>, t: string, tac: string, i: int) {
    && 0 <= i < |rows| && Under(rows[i], t, tac) && rows[i].score.Some?
    && forall j :: i < j < |rows| && Under(rows[j], t, tac) ==> rows[j].score.None?
  }

  lemma {:induction false} LastScoreAt(rows: seq<RawRow>, t: string, tac: string)
    ensures forall i :: LastScored(rows, t, tac, i) ==> LastScore(rows, t, tac) == rows[i].score
    ensures LastScore(rows, t, tac).Some? ==> exists i :: LastScored(rows, t, tac, i)
  {
    if rows == [] {
    } else {
      var before, n := rows[..|rows| - 1], |rows| - 1;
      LastScoreAt(before, t, tac);
      if Under(rows[n], t, tac) && rows[n].score.Some? {
        assert LastScored(rows, t, tac, n);
      } else {
        assert forall i :: LastScored(rows, t, tac, i) <==> LastScored(before, t, tac, i);
      }
    }
  }

  /** Its tactics are the non-blank tactics of its rows, in order; each tactic's score is that of the last
      scored row; its case-study score is that of the last frequency row of its id, or zero without one. */
  ghost predicate TechniqueIs(x: Technique, rows: seq<RawRow>, freqRows: seq<(string, int)>) {
    && Increasing(x.tactics)
    && (forall tac :: tac in x.tactics <==> tac != "" && HasPair(rows, x.id, tac))
    && (forall tac :: tac in x.scores <==> tac != "" && exists i :: LastScored(rows, x.id, tac, i))
    && (forall tac, i :: tac in x.scores && LastScored(rows, x.id, tac, i) ==> rows[i].score == Some(x.scores[tac]))
    && (forall i :: IsLastOf(freqRows, FreqId, i, x.id) ==> x.caseStudy == freqRows[i].1)
    && ((forall r :: r in freqRows ==> r.0 != x.id) ==> x.caseStudy == 0)
  }

  ghost predicate AllAre(techniques: seq<Technique>, rows: seq<RawRow>, freqRows: seq<(string, int)>) {
    forall x :: x in techniques ==> TechniqueIs(x, rows, freqRows)
  }

  /** The ids of the rows, blank ones apart, in order, each once. */
  ghost predicate InOrder(techniques: seq<Technique>, rows: seq<RawRow>) {
    && (forall i, j :: 0 <= i < j < |techniques| ==>
          StrLe(techniques[i].id, techniques[j].id) && techniques[i].id != techniques[j].id)
    && (forall t :: (exists x :: x in techniques && x.id == t) <==> t != "" && Has(rows, t))
  }

  /** One technique for each non-blank id, in order of id. */
  ghost predicate ListsTechniques(techniques: seq<Technique>, rows: seq<RawRow>, freqRows: seq<(string, int)>) {
    InOrder(techniques, rows) && AllAre(techniques, rows, freqRows)
  }

  lemma {:induction false} ListedAt(m: map<string, Entry>, ids: seq<string>, i: int)
    requires (forall t :: t in ids ==> t in m) && 0 <= i < |ids|
    ensures |Listed(m, ids)| == |ids|
    ensures var e := m[ids[i]];
      Listed(m, ids)[i] == Technique(ids[i], SortedSet(e.tactics), e.scores, e.caseStudy)
  {
    ListedLength(m, ids);
    if i == 0 {
    } else {
      ListedAt(m, ids[1..], i - 1);
      ListedLength(m, ids[1..]);
    }
  }

  lemma EntryIs(rows: seq<RawRow>, freqRows: seq<(string, int)>, t: string)
    requires t in Collapse(rows, Frequency(freqRows))
    ensures var e := Collapse(rows, Frequency(freqRows))[t];
      TechniqueIs(Technique(t, SortedSet(e.tactics), e.scores, e.caseStudy), rows, freqRows)
  {
    var freq := Frequency(freqRows);
    var m := Collapse(rows, freq);
    CollapseDescribed(rows, freq);
    forall tac
      ensures tac in m[t].tactics <==> tac != "" && HasPair(rows, t, tac)
      ensures tac in m[t].scores <==> tac != "" && exists i :: LastScored(rows, t, tac, i)
      ensures forall i :: tac in m[t].scores && LastScored(rows, t, tac, i) ==> rows[i].score == Some(m[t].scores[tac])
    {
      assert DescribesAt(m, rows, freq, t, tac);
      LastScoreAt(rows, t, tac);
    }
    assert DescribesAt(m, rows, freq, t, "");
    FrequencyIs(freqRows, t);
    LastRow(freqRows, FreqId, t);
    assert forall r :: r in freqRows ==> FreqId(r) == r.0;
  }

  lemma NormalizedLists(rows: seq<RawRow>, freqRows: seq<(string, int)>)
    ensures ListsTechniques(Normalized(rows, Frequency(freqRows)), rows, freqRows)
  {
    var freq := Frequency(freqRows);
    var m := Collapse(rows, freq);
    var ids, techniques := SortedSet(m.Keys), Normalized(rows, freq);
    NormalizedAre(rows, freqRows);
    ListedLength(m, ids);
    forall i | 0 <= i < |ids| ensures techniques[i].id == ids[i] { ListedAt(m, ids, i); }
    forall t ensures t in ids <==> t != "" && Has(rows, t) {
      CollapseDescribed(rows, freq);
      assert DescribesAt(m, rows, freq, t, "");
      assert t in ids <==> t in m.Keys;
    }
    ListsById(techniques, ids, rows);
  }

  lemma NormalizedAre(rows: seq<RawRow>, freqRows: seq<(string, int)>)
    ensures AllAre(Normalized(rows, Frequency(freqRows)), rows, freqRows)
  {
    var freq := Frequency(freqRows);
    var m := Collapse(rows, freq);
    var ids, techniques := SortedSet(m.Keys), Normalized(rows, freq);
    ListedLength(m, ids);
    forall x | x in techniques ensures TechniqueIs(x, rows, freqRows) {
      var i :| 0 <= i < |ids| && techniques[i] == x;
      ListedAt(m, ids, i);
      EntryIs(rows, freqRows, ids[i]);
    }
  }

  lemma ListsById(techniques: seq<Technique>, ids: seq<string>, rows: seq<RawRow>)
    requires Increasing(ids) && |techniques| == |ids| && forall i :: 0 <= i < |ids| ==> techniques[i].id == ids[i]
    requires forall t :: t in ids <==> t != "" && Has(rows, t)
    ensures InOrder(techniques, rows)
  {
    forall t ensures (exists x :: x in techniques && x.id == t) <==> t in ids {
      if t in ids {
        var i :| 0 <= i < |ids| && ids[i] == t;
        assert techniques[i] in techniques;
      }
      if x :| x in techniques && x.id == t {
        var i :| 0 <= i < |techniques| && techniques[i] == x;
        assert ids[i] == t;
      }
    }
    forall i, j | 0 <= i < j < |techniques|
      ensures StrLe(techniques[i].id, techniques[j].id) && techniques[i].id != techniques[j].id
    {
      assert techniques[i].id == ids[i] && techniques[j].id == ids[j];
    }
  }

  ghost predicate SameAt(m: map<string, Entry>, n: map<string, Entry>, t: string, tac: string) {
    && (t in m <==> t in n)
    && (t in m ==>
          && m[t].caseStudy == n[t].caseStudy
          && (tac in m[t].tactics <==> tac in n[t].tactics)
          && ScoreOf(m[t], tac) == ScoreOf(n[t], tac))
  }

  lemma SameEverywhere(m: map<string, Entry>, n: map<string, Entry>)
    requires forall t, tac :: SameAt(m, n, t, tac)
    ensures m == n
  {
    forall t ensures t in m <==> t in n { assert SameAt(m, n, t, ""); }
    forall t | t in m ensures m[t] == n[t] {
      assert SameAt(m, n, t, "");
      forall tac ensures tac in m[t].tactics <==> tac in n[t].tactics { assert SameAt(m, n, t, tac); }
      forall tac ensures ScoreOf(m[t], tac) == ScoreOf(n[t], tac) { assert SameAt(m, n, t, tac); }
      SameScores(m[t], n[t]);
    }
  }

  lemma SameScores(d: Entry, e: Entry)
    requires forall tac :: ScoreOf(d, tac) == ScoreOf(e, tac)
    ensures d.scores == e.scores
  {
    forall tac ensures tac in d.scores <==> tac in e.scores { assert ScoreOf(d, tac) == ScoreOf(e, tac); }
    forall tac | tac in d.scores ensures d.scores[tac] == e.scores[tac] { assert ScoreOf(d, tac) == ScoreOf(e, tac); }
  }

  // ---------- when the row order matters ----------

  predicate Scored(r: RawRow, t: string, tac: string, v: int) { Under(r, t, tac) && r.score == Some(v) }

  ghost predicate HasScored(rows: seq<RawRow>, t: string, tac: string, v: int) {
    exists r :: r in rows && Scored(r, t, tac, v)
  }

  /** Two rows of one technique and tactic carry different scores. */
  ghost predicate Conflicting(rows: seq<RawRow>) {
    exists t, tac, v, w :: t != "" && tac != "" && v != w && HasScored(rows, t, tac, v) && HasScored(rows, t, tac, w)
  }

  lemma {:induction false} LastScoreIsScored(rows: seq<RawRow>, t: string, tac: string)
    ensures var l := LastScore(rows, t, tac);
      && (l.Some? ==> HasScored(rows, t, tac, l.value))
      && (l.None? ==> forall v :: !HasScored(rows, t, tac, v))
  {
    if rows == [] {
    } else {
      var before, r := rows[..|rows| - 1], rows[|rows| - 1];
      assert rows == before + [r];
      LastScoreIsScored(before, t, tac);
      forall v ensures HasScored(rows, t, tac, v) <==> HasScored(before, t, tac, v) || Scored(r, t, tac, v) {
        if HasScored(before, t, tac, v) {
          var q :| q in before && Scored(q, t, tac, v);
          assert q in rows;
        }
        assert r in rows;
      }
    }
  }

  lemma HasInSet(rows: seq<RawRow>, t: string, tac: string)
    ensures Has(rows, t) <==> exists r :: r in rows && Id(r) == t
    ensures HasPair(rows, t, tac) <==> exists r :: r in rows && Under(r, t, tac)
  {
    if r :| r in rows && Id(r) == t { var i :| 0 <= i < |rows| && rows[i] == r; assert Id(rows[i]) == t; }
    if r :| r in rows && Under(r, t, tac) { var i :| 0 <= i < |rows| && rows[i] == r; assert Under(rows[i], t, tac); }
  }

  lemma UnorderedAt(rows: seq<RawRow>, other: seq<RawRow>, freq: map<string, int>, t: string, tac: string)
    requires (forall r :: r in rows <==> r in other) && !Conflicting(rows)
    ensures SameAt(Collapse(rows, freq), Collapse(other, freq), t, tac)
  {
    CollapseDescribed(rows, freq);
    CollapseDescribed(other, freq);
    assert DescribesAt(Collapse(rows, freq), rows, freq, t, tac)
        && DescribesAt(Collapse(other, freq), other, freq, t, tac);
    HasInSet(rows, t, tac);
    HasInSet(other, t, tac);
    LastScoreIsScored(rows, t, tac);
    LastScoreIsScored(other, t, tac);
    forall v ensures HasScored(rows, t, tac, v) <==> HasScored(other, t, tac, v) {}
    if t != "" && tac != "" {
      assert LastScore(rows, t, tac) == LastScore(other, t, tac);
    }
  }

  lemma Unordered(rows: seq<RawRow>, p: seq<RawRow>, freq: map<string, int>)
    requires multiset(p) == multiset(rows) && !Conflicting(rows)
    ensures Collapse(p, freq) == Collapse(rows, freq)
  {
    SameMembers(rows, p);
    forall t, tac ensures SameAt(Collapse(rows, freq), Collapse(p, freq), t, tac) {
      UnorderedAt(rows, p, freq, t, tac);
    }
    SameEverywhere(Collapse(rows, freq), Collapse(p, freq));
  }

  function MoveLast(rows: seq<RawRow>, i: nat): seq<RawRow>
    requires i < |rows|
  {
    rows[..i] + rows[i + 1..] + [rows[i]]
  }

  lemma MovedScoreWins(rows: seq<RawRow>, i: nat, t: string, tac: string, v: int, freq: map<string, int>)
    requires i < |rows| && Scored(rows[i], t, tac, v) && t != "" && tac != ""
    ensures multiset(MoveLast(rows, i)) == multiset(rows)
    ensures var m := Collapse(MoveLast(rows, i), freq); t in m && ScoreOf(m[t], tac) == Some(v)
  {
    var p := MoveLast(rows, i);
    SplitAt(rows, i);
    assert multiset(p) == multiset(rows[..i] + rows[i + 1..]) + multiset{rows[i]};
    assert p[|p| - 1] == rows[i];
    CollapseDescribed(p, freq);
    assert DescribesAt(Collapse(p, freq), p, freq, t, tac);
  }

  /** The collapse ignores the order of the rows exactly when no technique has two
      different scores under one tactic. */
  lemma OrderIrrelevantIff(rows: seq<RawRow>, freq: map<string, int>)
    ensures (forall p :: multiset(p) == multiset(rows) ==> Collapse(p, freq) == Collapse(rows, freq))
        <==> !Conflicting(rows)
  {
    if Conflicting(rows) {
      var t, tac, v, w :| t != "" && tac != "" && v != w && HasScored(rows, t, tac, v) && HasScored(rows, t, tac, w);
      var r, q :| r in rows && Scored(r, t, tac, v) && q in rows && Scored(q, t, tac, w);
      var i :| 0 <= i < |rows| && rows[i] == r;
      var j :| 0 <= j < |rows| && rows[j] == q;
      MovedScoreWins(rows, i, t, tac, v, freq);
      MovedScoreWins(rows, j, t, tac, w, freq);
      assert Collapse(MoveLast(rows, i), freq) != Collapse(MoveLast(rows, j), freq);
    } else {
      forall p | multiset(p) == multiset(rows) ensures Collapse(p, freq) == Collapse(rows, freq) {
        Unordered(rows, p, freq);
      }
    }
  }

  // ---------- the duplicate report ----------

  datatype Report = Report(
    rowCount: nat,
    distinct: nat,                           // distinct technique ids
    crossTactic: map<string, seq<string>>,   // ids under more than one tactic
    sameTactic: set<string>,                 // keys "id|tactic" counted more than once
    parentSub: map<string, string>)          // sub-techniques whose parent is present

  ghost function PairCount(rows: seq<RawRow>, t: string, tac: string): nat {
    CountIf(rows, r => Under(r, t, tac))
  }

  ghost predicate NoPairTwice(rows: seq<RawRow>) {
    forall t, tac :: t != "" ==> PairCount(rows, t, tac) <= 1
  }

  function Dots(s: string): nat { if s == "" then 0 else (if s[0] == '.' then 1 else 0) + Dots(s[1..]) }

  /** The text before the (k+1)-th dot. */
  function UpToDot(s: string, k: nat): string {
    if s == "" then "" else if s[0] != '.' then [s[0]] + UpToDot(s[1..], k)
    else if k == 0 then "" else ['.'] + UpToDot(s[1..], k - 1)
  }

  /** `_parent_id`: the first two dot-separated segments of a longer id. */
  function ParentId(t: string): string { if Dots(t) > 1 then UpToDot(t, 1) else t }

  /** The parent of an id with two dots or more is what stands before its second dot; any other id
      is its own parent. */
  lemma ParentIs(a: string, b: string, rest: string)
    requires '.' !in a && '.' !in b
    ensures ParentId(a + ("." + (b + ("." + rest)))) == a + ("." + b) && Dots(a + ("." + (b + ("." + rest)))) > 1
    ensures ParentId(a + ("." + b)) == a + ("." + b) && ParentId(a) == a
    ensures Dots(a + ("." + b)) == 1 && Dots(a) == 0
  {
    var t := b + ("." + rest);
    BeforeDot(a, t, 1);
    BeforeDot(b, rest, 0);
    assert a + "." + b == a + ("." + b);
    NoDots(b);
    NoDots(a);
    BeforeDot(a, b, 0);
  }

  lemma {:induction false} NoDots(s: string)
    requires '.' !in s
    ensures Dots(s) == 0
  {
    if s == "" {
    } else {
      NoDots(s[1..]);
    }
  }

  lemma {:induction false} BeforeDot(s: string, rest: string, k: nat)
    requires '.' !in s
    ensures Dots(s + ("." + rest)) == 1 + Dots(rest)
    ensures UpToDot(s + ("." + rest), k) == if k == 0 then s else s + "." + UpToDot(rest, k - 1)
  {
    var t := s + ("." + rest);
    if s == "" {
      assert t == "." + rest && t[1..] == rest;
    } else {
      assert t[1..] == s[1..] + ("." + rest);
      BeforeDot(s[1..], rest, k);
    }
  }

  lemma {:induction false} UpToDotDots(s: string, k: nat)
    ensures Dots(UpToDot(s, k)) == if Dots(s) <= k then Dots(s) else k
    ensures |UpToDot(s, k)| <= |s| && (Dots(s) > k ==> |UpToDot(s, k)| < |s|)
  {
    if s == "" {
    } else {
      UpToDotDots(s[1..], if s[0] == '.' && k > 0 then k - 1 else k);
    }
  }

  ghost predicate IsIdSet(ids: set<string>, rows: seq<RawRow>) {
    forall t :: t in ids <==> t != "" && Has(rows, t)
  }

  ghost predicate Reports(rep: Report, rows: seq<RawRow>) {
    && rep.rowCount == |rows|
    && (exists ids :: IsIdSet(ids, rows) && rep.distinct == |ids|)
    && (forall t :: t in rep.crossTactic <==>
          t != "" && exists a, b :: a != b && HasPair(rows, t, a) && HasPair(rows, t, b))
    && (forall t, tac :: t in rep.crossTactic ==> (tac in rep.crossTactic[t] <==> HasPair(rows, t, tac)))
    && (forall k :: k in rep.sameTactic <==>
          exists t, tac :: t != "" && k == t + "|" + tac && PairCount(rows, t, tac) > 1)
    && (forall t :: t in rep.parentSub <==>
          t != "" && Has(rows, t) && Dots(t) > 1 && Has(rows, ParentId(t)) && ParentId(t) != "")
    && (forall t :: t in rep.parentSub ==> rep.parentSub[t] == ParentId(t))
  }

  lemma PairCountSnoc(before: seq<RawRow>, r: RawRow, t: string, tac: string)
    ensures PairCount(before + [r], t, tac) == PairCount(before, t, tac) + (if Under(r, t, tac) then 1 else 0)
  {
    CountIfConcat(before, [r], x => Under(x, t, tac));
  }

  /** What the loop of `analyze` has accumulated, at one technique and tactic. */
  ghost predicate GatheredAt(rows: seq<RawRow>, allIds: set<string>, idTactics: map<string, set<string>>,
                             pairCounts: map<(string, string), nat>, t: string, tac: string)
  {
    && (t in allIds <==> t != "" && Has(rows, t))
    && (t in idTactics <==> t in allIds)
    && (t in idTactics ==> (tac in idTactics[t] <==> HasPair(rows, t, tac)))
    && ((t, tac) in pairCounts <==> t != "" && PairCount(rows, t, tac) > 0)
    && ((t, tac) in pairCounts ==> pairCounts[(t, tac)] == PairCount(rows, t, tac))
  }

  ghost predicate Gathered(rows: seq<RawRow>, allIds: set<string>, idTactics: map<string, set<string>>,
                           pairCounts: map<(string, string), nat>)
  {
    forall t, tac :: GatheredAt(rows, allIds, idTactics, pairCounts, t, tac)
  }

  lemma GatherStep(rows: seq<RawRow>, allIds: set<string>, idTactics: map<string, set<string>>,
                   pairCounts: map<(string, string), nat>)
    requires rows != [] && Gathered(rows[..|rows| - 1], allIds, idTactics, pairCounts)
    ensures var t, tac := Id(rows[|rows| - 1]), Tac(rows[|rows| - 1]);
      if t == "" then Gathered(rows, allIds, idTactics, pairCounts)
      else Gathered(rows, allIds + {t},
             idTactics[t := (if t in idTactics then idTactics[t] else {}) + {tac}],
             pairCounts[(t, tac) := (if (t, tac) in pairCounts then pairCounts[(t, tac)] else 0) + 1])
  {
    var before, r := rows[..|rows| - 1], rows[|rows| - 1];
    assert rows == before + [r];
    if Id(r) == "" {
      forall t, tac ensures GatheredAt(rows, allIds, idTactics, pairCounts, t, tac) {
        assert GatheredAt(before, allIds, idTactics, pairCounts, t, tac);
        HasSnoc(rows, t, tac);
        PairCountSnoc(before, r, t, tac);
      }
    } else {
      var p := (Id(r), Tac(r));
      var ids' := allIds + {p.0};
      var it' := idTactics[p.0 := (if p.0 in idTactics then idTactics[p.0] else {}) + {p.1}];
      var pc' := pairCounts[p := (if p in pairCounts then pairCounts[p] else 0) + 1];
      forall t, tac ensures GatheredAt(rows, ids', it', pc', t, tac) {
        assert GatheredAt(before, allIds, idTactics, pairCounts, t, tac);
        HasSnoc(rows, t, tac);
        PairCountSnoc(before, r, t, tac);
        NoPairNoScore(before, t, tac);
      }
    }
  }

  lemma TwoTactics(s: set<string>)
    ensures |s| > 1 <==> exists a, b :: a != b && a in s && b in s
  {
    if |s| > 1 {
      var a :| a in s;
      var rest := s - {a};
      assert |rest| > 0;
      var b :| b in rest;
      assert a != b && b in s;
    } else if a, b :| a != b && a in s && b in s {
      assert {a, b} <= s;
      SubsetSize({a, b}, s);
    }
  }

  method Analyze(rows: seq<RawRow>) returns (rep: Report)
    ensures Reports(rep, rows)
  {
    var idTactics: map<string, set<string>>, pairCounts: map<(string, string), nat>, allIds: set<string> :=
        map[], map[], {};
    for i := 0 to |rows|
      invariant Gathered(rows[..i], allIds, idTactics, pairCounts)
    {
      var tid, tactic := Strip(rows[i].techniqueId), Strip(rows[i].tactic);
      assert rows[..i + 1][..i] == rows[..i];
      GatherStep(rows[..i + 1], allIds, idTactics, pairCounts);
      if tid == "" {
        continue;
      }
      allIds := allIds + {tid};
      idTactics := idTactics[tid := (if tid in idTactics then idTactics[tid] else {}) + {tactic}];
      pairCounts := pairCounts[(tid, tactic) :=
          (if (tid, tactic) in pairCounts then pairCounts[(tid, tactic)] else 0) + 1];
    }
    assert rows[..|rows|] == rows;
    rep := Render(|rows|, allIds, idTactics, pairCounts);
    Rendered(rows, allIds, idTactics, pairCounts);
  }

  function Render(n: nat, allIds: set<string>, idTactics: map<string, set<string>>,
                  pairCounts: map<(string, string), nat>): Report
  {
    Report(n, |allIds|,
      map t | t in idTactics && |idTactics[t]| > 1 :: SortedSet(idTactics[t]),
      set p | p in pairCounts && pairCounts[p] > 1 :: p.0 + "|" + p.1,
      map t | t in allIds && Dots(t) > 1 && ParentId(t) in allIds :: ParentId(t))
  }

  lemma Rendered(rows: seq<RawRow>, allIds: set<string>, idTactics: map<string, set<string>>,
                 pairCounts: map<(string, string), nat>)
    requires Gathered(rows, allIds, idTactics, pairCounts)
    ensures Reports(Render(|rows|, allIds, idTactics, pairCounts), rows)
  {
    var rep := Render(|rows|, allIds, idTactics, pairCounts);
    forall t ensures t in allIds <==> t != "" && Has(rows, t) {
      assert GatheredAt(rows, allIds, idTactics, pairCounts, t, "");
    }
    assert IsIdSet(allIds, rows) && rep.distinct == |allIds|;
    forall t ensures t in idTactics <==> t in allIds { assert GatheredAt(rows, allIds, idTactics, pairCounts, t, ""); }
    forall t, tac ensures t in idTactics ==> (tac in idTactics[t] <==> HasPair(rows, t, tac)) {
      assert GatheredAt(rows, allIds, idTactics, pairCounts, t, tac);
    }
    forall t ensures t in rep.crossTactic
        <==> t != "" && exists a, b :: a != b && HasPair(rows, t, a) && HasPair(rows, t, b) {
      CrossTacticAt(rows, idTactics, t);
    }
    forall k ensures k in rep.sameTactic
        <==> exists t, tac :: t != "" && k == t + "|" + tac && PairCount(rows, t, tac) > 1 {
      if t, tac :| t != "" && k == t + "|" + tac && PairCount(rows, t, tac) > 1 {
        assert GatheredAt(rows, allIds, idTactics, pairCounts, t, tac);
        assert (t, tac) in pairCounts;
      }
      if k in rep.sameTactic {
        var p :| p in pairCounts && pairCounts[p] > 1 && k == p.0 + "|" + p.1;
        assert GatheredAt(rows, allIds, idTactics, pairCounts, p.0, p.1);
      }
    }
  }

  lemma CrossTacticAt(rows: seq<RawRow>, idTactics: map<string, set<string>>, t: string)
    requires t in idTactics <==> t != "" && Has(rows, t)
    requires forall tac :: t in idTactics ==> (tac in idTactics[t] <==> HasPair(rows, t, tac))
    ensures t in idTactics && |idTactics[t]| > 1
        <==> t != "" && exists a, b :: a != b && HasPair(rows, t, a) && HasPair(rows, t, b)
  {
    if t in idTactics {
      TwoTactics(idTactics[t]);
      if a, b :| a != b && HasPair(rows, t, a) && HasPair(rows, t, b) { assert a in idTactics[t] && b in idTactics[t]; }
    } else if t != "" {
      forall a ensures !HasPair(rows, t, a) { NoPairNoScore(rows, t, a); }
    }
  }

  // ---------- the report says when the collapse loses nothing ----------

  function ExpandOne(id: string, tactics: seq<string>, scores: map<string, int>): seq<RawRow> {
    if tactics == [] then []
    else [RawRow(id, tactics[0], if tactics[0] in scores then Some(scores[tactics[0]]) else None)]
         + ExpandOne(id, tactics[1..], scores)
  }

  /** The normalised rows read back as (technique, tactic, score). */
  function Expand(ts: seq<Technique>): seq<RawRow> {
    if ts == [] then [] else ExpandOne(ts[0].id, ts[0].tactics, ts[0].scores) + Expand(ts[1..])
  }

  lemma {:induction false} ExpandOneCount(id: string, tactics: seq<string>, scores: map<string, int>, x: RawRow)
    requires Increasing(tactics)
    ensures multiset(ExpandOne(id, tactics, scores))[x] ==
            if x.techniqueId == id && x.tactic in tactics
               && x.score == (if x.tactic in scores then Some(scores[x.tactic]) else None) then 1 else 0
  {
    if tactics == [] {
    } else {
      assert tactics == [tactics[0]] + tactics[1..];
      ExpandOneCount(id, tactics[1..], scores, x);
    }
  }

  ghost predicate Survives(m: map<string, Entry>, x: RawRow) {
    && x.techniqueId in m
    && x.tactic in m[x.techniqueId].tactics
    && x.score == ScoreOf(m[x.techniqueId], x.tactic)
  }

  lemma {:induction false} ExpandCount(m: map<string, Entry>, ids: seq<string>, x: RawRow)
    requires Increasing(ids) && forall t :: t in ids ==> t in m
    ensures multiset(Expand(Listed(m, ids)))[x] == if x.techniqueId in ids && Survives(m, x) then 1 else 0
  {
    if ids == [] {
    } else {
      assert ids == [ids[0]] + ids[1..];
      ExpandCount(m, ids[1..], x);
      ExpandOneCount(ids[0], SortedSet(m[ids[0]].tactics), m[ids[0]].scores, x);
      var l := Listed(m, ids);
      assert l[1..] == Listed(m, ids[1..]);
    }
  }

  predicate IsClean(r: RawRow) { r.techniqueId == Id(r) != "" && r.tactic == Tac(r) != "" }

  lemma OneRowPerPair(rows: seq<RawRow>, x: RawRow, q: RawRow, t: string, tac: string)
    requires PairCount(rows, t, tac) <= 1 && x in rows && q in rows && Under(x, t, tac) && Under(q, t, tac)
    ensures x == q
  {
    var i :| 0 <= i < |rows| && rows[i] == x;
    var j :| 0 <= j < |rows| && rows[j] == q;
    if i != j { CountIfTwo(rows, r => Under(r, t, tac), if i < j then i else j, if i < j then j else i); }
  }

  /** A clean row alone under its pair occurs once. */
  lemma OccursOnce(rows: seq<RawRow>, x: RawRow)
    requires x in rows && PairCount(rows, Id(x), Tac(x)) <= 1
    ensures multiset(rows)[x] == 1
  {
    var i :| 0 <= i < |rows| && rows[i] == x;
    SplitAt(rows, i);
    var rest := rows[..i] + rows[i + 1..];
    if x in rest {
      var k := ElsewhereIn(rows, i);
      CountIfTwo(rows, (r: RawRow) => Under(r, Id(x), Tac(x)), if i < k then i else k, if i < k then k else i);
    }
  }

  ghost function ElsewhereIn<T>(s: seq<T>, i: nat): (k: nat)
    requires i < |s| && s[i] in s[..i] + s[i + 1..]
    ensures k < |s| && k != i && s[k] == s[i]
  {
    var rest := s[..i] + s[i + 1..];
    var j :| 0 <= j < |rest| && rest[j] == s[i];
    if j < i then j else j + 1
  }

  /** With clean rows and no repeated pair, the score kept for a pair is that of its only row. */
  lemma OnlyRowScore(rows: seq<RawRow>, q: RawRow)
    requires q in rows && PairCount(rows, Id(q), Tac(q)) <= 1
    ensures LastScore(rows, Id(q), Tac(q)) == q.score
  {
    var t, tac := Id(q), Tac(q);
    LastScoreIsScored(rows, t, tac);
    if q.score.Some? { assert Scored(q, t, tac, q.score.value) && HasScored(rows, t, tac, q.score.value); }
    if LastScore(rows, t, tac).Some? {
      var r :| r in rows && Scored(r, t, tac, LastScore(rows, t, tac).value);
      OneRowPerPair(rows, r, q, t, tac);
    }
  }

  /** With clean rows and no repeated pair, a row survives exactly if it was there, and it was there once. */
  lemma CleanSurvives(rows: seq<RawRow>, freq: map<string, int>, x: RawRow)
    requires (forall r :: r in rows ==> IsClean(r)) && NoPairTwice(rows)
    ensures multiset(rows)[x] == if Survives(Collapse(rows, freq), x) then 1 else 0
  {
    var m, t, tac := Collapse(rows, freq), x.techniqueId, x.tactic;
    CollapseDescribed(rows, freq);
    assert DescribesAt(m, rows, freq, t, tac);
    HasInSet(rows, t, tac);
    if x in rows {
      assert IsClean(x) && PairCount(rows, t, tac) <= 1;
      OccursOnce(rows, x);
      OnlyRowScore(rows, x);
    } else if Survives(m, x) {
      var q :| q in rows && Under(q, t, tac);
      assert IsClean(q) && PairCount(rows, t, tac) <= 1;
      OnlyRowScore(rows, q);
      assert false;
    }
  }

  lemma SurvivorsClean(rows: seq<RawRow>, freq: map<string, int>, x: RawRow)
    requires Survives(Collapse(rows, freq), x)
    ensures IsClean(x)
  {
    var t, tac := x.techniqueId, x.tactic;
    CollapseDescribed(rows, freq);
    assert DescribesAt(Collapse(rows, freq), rows, freq, t, tac);
    HasInSet(rows, t, tac);
    var r :| r in rows && Under(r, t, tac);
    StripIdempotent(r.techniqueId);
    StripIdempotent(r.tactic);
  }

  /** No pair occurs twice among clean survivors listed without repetition. */
  lemma SurvivorsPairOnce(e: seq<RawRow>, m: map<string, Entry>, t: string, tac: string)
    requires Distinct(e) && forall x :: x in e ==> Survives(m, x) && IsClean(x)
    ensures PairCount(e, t, tac) <= 1
  {
    var p := (r: RawRow) => Under(r, t, tac);
    if CountIf(e, p) >= 2 {
      CountIfAtLeastTwo(e, p);
      var i, j :| 0 <= i < j < |e| && p(e[i]) && p(e[j]);
      SameSurvivor(m, e[i], e[j]);
    }
  }

  lemma SameSurvivor(m: map<string, Entry>, x: RawRow, y: RawRow)
    requires Survives(m, x) && IsClean(x) && Survives(m, y) && IsClean(y)
    requires Id(x) == Id(y) && Tac(x) == Tac(y)
    ensures x == y
  {
  }

  lemma LosslessImpliesClean(rows: seq<RawRow>, freq: map<string, int>)
    requires multiset(Expand(Normalized(rows, freq))) == multiset(rows)
    ensures (forall r :: r in rows ==> IsClean(r)) && NoPairTwice(rows)
  {
    var m, e := Collapse(rows, freq), Expand(Normalized(rows, freq));
    SameMembers(e, rows);
    forall x ensures multiset(e)[x] <= 1 && (x in e ==> Survives(m, x) && IsClean(x)) {
      ExpandCount(m, SortedSet(m.Keys), x);
      if x in e {
        assert x in multiset(e);
        SurvivorsClean(rows, freq, x);
      }
    }
    DistinctByCount(e);
    forall t, tac ensures PairCount(rows, t, tac) <= 1 {
      CountIfPermutation(rows, e, r => Under(r, t, tac));
      SurvivorsPairOnce(e, m, t, tac);
    }
  }

  /** Reading the normalised rows back gives exactly the raw rows, up to order, if and only if
      every id and tactic is stripped and non-blank and the report lists no same-tactic duplicate. */
  lemma LosslessIff(rows: seq<RawRow>, freq: map<string, int>, rep: Report)
    requires Reports(rep, rows)
    ensures multiset(Expand(Normalized(rows, freq))) == multiset(rows)
       <==> (forall r :: r in rows ==> IsClean(r)) && rep.sameTactic == {}
  {
    SameTacticIff(rows, rep);
    if (forall r :: r in rows ==> IsClean(r)) && rep.sameTactic == {} {
      var m, e := Collapse(rows, freq), Expand(Normalized(rows, freq));
      forall x ensures multiset(e)[x] == multiset(rows)[x] {
        ExpandCount(m, SortedSet(m.Keys), x);
        CleanSurvives(rows, freq, x);
      }
    }
    if multiset(Expand(Normalized(rows, freq))) == multiset(rows) { LosslessImpliesClean(rows, freq); }
  }

  /** Keys of the form id|tactic may collide, yet none is listed exactly when no pair repeats. */
  lemma SameTacticIff(rows: seq<RawRow>, rep: Report)
    requires Reports(rep, rows)
    ensures rep.sameTactic == {} <==> NoPairTwice(rows)
  {
    forall t, tac | t != "" && PairCount(rows, t, tac) > 1 ensures rep.sameTactic != {} {
      assert t + "|" + tac in rep.sameTactic;
    }
  }

  function Key(p: (string, string)): string { p.0 + "|" + p.1 }

  /** The (technique, tactic) pairs that occur more than once. */
  ghost predicate AreRepeated(pairs: set<(string, string)>, rows: seq<RawRow>) {
    forall p :: p in pairs <==> p.0 != "" && PairCount(rows, p.0, p.1) > 1
  }

  /** The report lists as many same-tactic duplicates as there are repeated pairs exactly when no two
      of these pairs share a key; otherwise it lists fewer. */
  lemma SameTacticCountIff(rows: seq<RawRow>, rep: Report, pairs: set<(string, string)>)
    requires Reports(rep, rows) && AreRepeated(pairs, rows)
    ensures |rep.sameTactic| <= |pairs|
    ensures |rep.sameTactic| == |pairs| <==> forall p, q :: p in pairs && q in pairs && Key(p) == Key(q) ==> p == q
  {
    forall k ensures k in rep.sameTactic <==> k in Image(pairs, Key) {
      if t, tac :| t != "" && k == t + "|" + tac && PairCount(rows, t, tac) > 1 {
        assert (t, tac) in pairs && Key((t, tac)) == k;
      }
      if k in Image(pairs, Key) {
        var p :| p in pairs && Key(p) == k;
        assert p.0 != "" && PairCount(rows, p.0, p.1) > 1;
      }
    }
    assert rep.sameTactic == Image(pairs, Key);
    ImageSize(pairs, Key);
  }

  /** Keys of ids without a bar tell their pairs apart. */
  lemma BarFreeKeys(p: (string, string), q: (string, string))
    requires '|' !in p.0 && '|' !in q.0 && Key(p) == Key(q)
    ensures p == q
  {
    assert Key(p)[|p.0|] == '|' && Key(q)[|q.0|] == '|';
    assert forall i :: 0 <= i < |p.0| ==> Key(p)[i] == p.0[i] && p.0[i] != '|';
    assert forall i :: 0 <= i < |q.0| ==> Key(q)[i] == q.0[i] && q.0[i] != '|';
    assert |p.0| == |q.0|;
    assert p.0 == Key(p)[..|p.0|] && q.0 == Key(q)[..|q.0|];
    assert p.1 == Key(p)[|p.0| + 1..] && q.1 == Key(q)[|q.0| + 1..];
  }

  /** So with bar-free ids, as all ATLAS ids are, the count is right. */
  lemma BarFreeCount(rows: seq<RawRow>, rep: Report, pairs: set<(string, string)>)
    requires Reports(rep, rows) && AreRepeated(pairs, rows)
    requires forall r :: r in rows ==> '|' !in Id(r)
    ensures |rep.sameTactic| == |pairs|
  {
    forall p, q | p in pairs && q in pairs && Key(p) == Key(q) ensures p == q {
      RepeatedHasRow(rows, p);
      RepeatedHasRow(rows, q);
      BarFreeKeys(p, q);
    }
    SameTacticCountIff(rows, rep, pairs);
  }

  lemma RepeatedHasRow(rows: seq<RawRow>, p: (string, string))
    requires PairCount(rows, p.0, p.1) > 1
    ensures exists r :: r in rows && Id(r) == p.0
  {
    CountIfPositive(rows, r => Under(r, p.0, p.1));
    var i :| 0 <= i < |rows| && Under(rows[i], p.0, p.1);
    assert rows[i] in rows;
  }

  /** Two repeated pairs with one key between them. */
  const COLLIDING := [
    RawRow("a", "b|c", None), RawRow("a", "b|c", None), RawRow("a|b", "c", None), RawRow("a|b", "c", None)]

  lemma KeysCollide(rep: Report, pairs: set<(string, string)>)
    requires Reports(rep, COLLIDING) && AreRepeated(pairs, COLLIDING)
    ensures |rep.sameTactic| < |pairs|
  {
    var p, q := ("a", "b|c"), ("a|b", "c");
    CollidingPair(0, p);
    CollidingPair(2, q);
    assert Key(p) == "a|b|c" == Key(q) && p != q by { assert |p.0| != |q.0|; }
    assert p in pairs && q in pairs;
    SameTacticCountIff(COLLIDING, rep, pairs);
  }

  lemma CollidingPair(i: int, p: (string, string))
    requires i == 0 || i == 2
    requires p == (COLLIDING[i].techniqueId, COLLIDING[i].tactic)
    ensures p.0 != "" && PairCount(COLLIDING, p.0, p.1) > 1
  {
    StripPlain(p.0);
    StripPlain(p.1);
    CountIfTwo(COLLIDING, r => Under(r, p.0, p.1), i, i + 1);
  }

  /** A report without same-tactic duplicates also makes the collapse independent of row order. */
  lemma GateGivesOrderIndependence(rows: seq<RawRow>, p: seq<RawRow>, freq: map<string, int>, rep: Report)
    requires Reports(rep, rows) && rep.sameTactic == {} && multiset(p) == multiset(rows)
    ensures Normalized(p, freq) == Normalized(rows, freq)
  {
    SameTacticIff(rows, rep);
    UnrepeatedUnordered(rows, p, freq);
  }

  lemma UnrepeatedUnordered(rows: seq<RawRow>, p: seq<RawRow>, freq: map<string, int>)
    requires NoPairTwice(rows) && multiset(p) == multiset(rows)
    ensures Normalized(p, freq) == Normalized(rows, freq)
  {
    NoConflictWithoutRepeats(rows);
    Unordered(rows, p, freq);
  }

  lemma NoConflictWithoutRepeats(rows: seq<RawRow>)
    requires NoPairTwice(rows)
    ensures !Conflicting(rows)
  {
    forall t, tac, v, w | t != "" && tac != "" && HasScored(rows, t, tac, v) && HasScored(rows, t, tac, w)
        ensures v == w {
      var r :| r in rows && Scored(r, t, tac, v);
      var q :| q in rows && Scored(q, t, tac, w);
      OneRowPerPair(rows, r, q, t, tac);
    }
  }

  lemma {:induction false} ListedLength(m: map<string, Entry>, ids: seq<string>)
    requires forall t :: t in ids ==> t in m
    ensures |Listed(m, ids)| == |ids|
  {
    if ids == [] {
    } else {
      ListedLength(m, ids[1..]);
    }
  }

  /** The two scripts agree on the number of techniques, whatever the rows. */
  lemma CountsAgree(rows: seq<RawRow>, freq: map<string, int>, rep: Report)
    requires Reports(rep, rows)
    ensures |Normalized(rows, freq)| == rep.distinct
  {
    var m := Collapse(rows, freq);
    ListedLength(m, SortedSet(m.Keys));
    CollapseDescribed(rows, freq);
    var ids :| IsIdSet(ids, rows) && rep.distinct == |ids|;
    KeysAreIds(m, rows, freq, ids);
  }

  lemma KeysAreIds(m: map<string, Entry>, rows: seq<RawRow>, freq: map<string, int>, ids: set<string>)
    requires Describes(m, rows, freq) && IsIdSet(ids, rows)
    ensures m.Keys == ids
  {
    forall t ensures t in m <==> t in ids { assert DescribesAt(m, rows, freq, t, ""); }
  }

  /** A reported parent is itself present, shorter, and never a sub-technique. */
  lemma ParentsAreTop(rows: seq<RawRow>, rep: Report, t: string)
    requires Reports(rep, rows) && t in rep.parentSub
    ensures var p := rep.parentSub[t]; Has(rows, p) && |p| < |t| && p !in rep.parentSub && ParentId(p) == p
  {
    UpToDotDots(t, 1);
  }
}
